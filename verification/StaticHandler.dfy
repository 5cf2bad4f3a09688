/** The handler object of src/StaticHandler.cpp.  Its fields are the source's;
    each method is proved to take exactly the step of StaticStream that the
    transition system gives it, and readFile is the source's loop with the
    event thread free to run before every access to shared state. */
module StaticHandlers {
  import opened StaticStream

  lemma {:induction false} RunSnoc(content: seq<Byte>, s: State, steps: seq<Step>, step: Step)
    requires Legal(content, s, steps) && Enabled(content, Run(content, s, steps), step)
    ensures Legal(content, s, steps + [step])
    ensures Run(content, s, steps + [step]) == Do(content, Run(content, s, steps), step)
    decreases |steps|
  {
    if steps == [] {
      assert steps + [step] == [step];
      assert [step][1..] == [];
    } else {
      assert (steps + [step])[1..] == steps[1..] + [step];
      RunSnoc(content, Do(content, s, steps[0]), steps[1..], step);
    }
  }

  // steps is a legal run from the start to s.
  ghost predicate Reached(content: seq<Byte>, steps: seq<Step>, s: State) {
    Legal(content, INIT, steps) && Run(content, INIT, steps) == s
  }

  // What the methods need of the invariant.
  predicate Settled(content: seq<Byte>, s: State) {
    && LifeInv(s) && PcInv(content, s)
    && |s.readers| <= 1 && s.offset <= |content|
    && (!s.scheduled ==> s.readers == [] && s.queue == [])
    && (s.queue != [] && s.queue[0].ReaderEnded? ==> s.readers == [])
    && (!s.requested ==> s.sent == [])
  }

  lemma ReachedSettled(content: seq<Byte>, steps: seq<Step>, s: State)
    requires Reached(content, steps, s)
    ensures Settled(content, s)
  {
    InitInv(content);
    RunInv(content, INIT, steps);
    assert Stream(s) == s.sent + (Image(s.queue) + Pending(s.readers));
  }

  lemma ReachedStep(content: seq<Byte>, steps: seq<Step>, s: State, step: Step)
    requires Reached(content, steps, s) && Enabled(content, s, step)
    ensures Reached(content, steps + [step], Do(content, s, step))
  {
    RunSnoc(content, INIT, steps, step);
  }

  // What no event-thread step can change while a reader is in flight.
  lemma EventKeepsReader(content: seq<Byte>, s: State, step: Step)
    requires Settled(content, s) && s.readers != [] && Enabled(content, s, step) && !step.ReaderStep? && !step.Request?
    ensures Do(content, s, step).readers == s.readers
    ensures Do(content, s, step).offset == s.offset
  {
  }

  class StaticHandler {
    const content: seq<Byte>            // the bytes of the file, unchanged throughout

    // fields of the source
    var file: bool                      // file_ is not null
    var readFileScheduled: bool
    var paused: bool
    var finished: bool

    // the object and its surroundings
    var alive: bool
    var deletions: nat
    var requested: bool
    var completed: bool
    var offset: nat                     // of the file descriptor
    var executor: seq<Pc>               // readers on the CPU executor
    var eventQueue: seq<Callback>
    var downstream: seq<Sent>

    ghost var steps: seq<Step>          // every step either thread has taken

    function View(): State
      reads this
    {
      State(file, readFileScheduled, paused, finished, alive, deletions, false, false,
            requested, completed, offset, executor, eventQueue, downstream)
    }

    ghost predicate Valid()
      reads this
    {
      Reached(content, steps, View()) && Settled(content, View())
    }

    constructor (content: seq<Byte>)
      ensures Valid() && View() == INIT && steps == [] && this.content == content
    {
      this.content := content;
      file, readFileScheduled, paused, finished := false, false, false, false;
      alive, deletions, requested, completed := true, 0, false, false;
      offset, executor, eventQueue, downstream := 0, [], [], [];
      steps := [];
    }

    // Enters in the history the step that has just been taken.
    ghost method Log(was: State, step: Step)
      requires Reached(content, steps, was) && Enabled(content, was, step) && View() == Do(content, was, step)
      modifies this`steps
      ensures Valid() && steps == old(steps) + [step]
    {
      ReachedStep(content, steps, was, step);
      steps := steps + [step];
      ReachedSettled(content, steps, View());
    }

    // ---------- event thread ----------

    // delete this, when finished and no reader is in flight
    method CheckForCompletion() returns (deleted: bool)
      requires finished && !readFileScheduled ==> executor == []
      modifies this`alive, this`deletions, this`file
      ensures (deleted, View()) == StaticStream.CheckForCompletion(old(View()))
    {
      if finished && !readFileScheduled {
        alive, deletions, file := false, deletions + 1, false;
        deleted := true;
      } else {
        deleted := false;
      }
    }

    // Opens the file, sends the headers and schedules the reader.
    method Accept()
      requires alive
      modifies this`file, this`offset, this`downstream, this`readFileScheduled, this`executor
      ensures View() == Schedule(old(View()).(fileOpen := true, offset := 0, sent := old(downstream) + [Headers]))
    {
      file, offset := true, 0;
      downstream := downstream + [Headers];
      readFileScheduled := true;
      executor := executor + [TestFile];
    }

    method OnRequest(accepted: bool)
      requires Valid() && Enabled(content, View(), Request(accepted))
      modifies this
      ensures Valid() && steps == old(steps) + [Request(accepted)]
      ensures View() == StaticStream.OnRequest(old(View()), accepted)
    {
      ghost var was := View();
      requested := true;
      if accepted {
        Accept();
      } else {
        downstream := downstream + [Refusal];
      }
      Log(was, Request(accepted));
    }

    method OnEgressPaused()
      requires Valid() && !completed
      modifies this
      ensures Valid() && steps == old(steps) + [EgressPaused]
      ensures View() == StaticStream.OnEgressPaused(old(View()))
    {
      ghost var was := View();
      paused := true;
      Log(was, EgressPaused);
    }

    // The body of onEgressResumed, which the reader's last callback also calls.
    method Resume()
      requires alive && (!readFileScheduled ==> executor == [])
      modifies this`paused, this`readFileScheduled, this`executor
      ensures View() == StaticStream.OnEgressResumed(old(View()))
    {
      paused := false;
      if !readFileScheduled && file {
        readFileScheduled := true;
        executor := executor + [TestFile];
      }
    }

    method OnEgressResumed()
      requires Valid() && !completed
      modifies this
      ensures Valid() && steps == old(steps) + [EgressResumed]
      ensures View() == StaticStream.OnEgressResumed(old(View()))
    {
      ghost var was := View();
      Resume();
      Log(was, EgressResumed);
    }

    // requestComplete and onError have the same body.
    method RequestComplete()
      requires Valid() && !completed
      modifies this
      ensures Valid() && steps == old(steps) + [Completed]
      ensures View() == StaticStream.OnCompleted(old(View()))
    {
      ghost var was := View();
      completed := true;
      finished := true;
      paused := true;
      var _ := CheckForCompletion();
      Log(was, Completed);
    }

    // The event base runs the callback at the head of its queue.
    method RunQueued()
      requires Valid() && eventQueue != []
      modifies this
      ensures Valid() && steps == old(steps) + [RunCallback]
      ensures View() == StaticStream.OnCallback(old(View()))
    {
      ghost var was := View();
      var callback := eventQueue[0];
      eventQueue := eventQueue[1..];
      match callback {
        case SendBody(data) => downstream := downstream + [Body(data)];
        case SendEom => downstream := downstream + [Eom];
        case SendAbort => downstream := downstream + [Abort];
        case ReaderEnded =>
          readFileScheduled := false;
          var deleted := CheckForCompletion();
          if !deleted && !paused {
            Resume();
          }
      }
      Log(was, RunCallback);
    }

    // ---------- CPU thread ----------

    // The event thread may do anything it can, any number of times; onRequest
    // has been called by now, or there would be no reader.
    method Interference()
      requires Valid() && |executor| == 1
      modifies this
      ensures Valid() && executor == old(executor) && offset == old(offset) && old(steps) <= steps
    {
      var n: nat := *;
      while n > 0
        invariant Valid() && executor == old(executor) && offset == old(offset) && old(steps) <= steps
      {
        var choice: nat := *;
        if choice == 0 && !completed {
          EventKeepsReader(content, View(), EgressPaused);
          OnEgressPaused();
        } else if choice == 1 && !completed {
          EventKeepsReader(content, View(), EgressResumed);
          OnEgressResumed();
        } else if choice == 2 && !completed {
          EventKeepsReader(content, View(), Completed);
          RequestComplete();
        } else if choice == 3 && eventQueue != [] {
          EventKeepsReader(content, View(), RunCallback);
          RunQueued();
        }
        n := n - 1;
      }
    }

    ghost predicate At(pc: Pc)
      reads this
    {
      Valid() && executor == [pc]
    }

    method LoadFile() returns (open: bool)
      requires At(TestFile)
      modifies this
      ensures At(if open then TestPaused else PostEnded)
      ensures offset == old(offset) && steps == old(steps) + [ReaderStep(0, Failed)]
    {
      ghost var was := View();
      open := file;
      executor := [if open then TestPaused else PostEnded];
      Log(was, ReaderStep(0, Failed));
    }

    method LoadPaused() returns (stop: bool)
      requires At(TestPaused)
      modifies this
      ensures At(if stop then PostEnded else Read)
      ensures offset == old(offset) && steps == old(steps) + [ReaderStep(0, Failed)]
    {
      ghost var was := View();
      stop := paused;
      executor := [if stop then PostEnded else Read];
      Log(was, ReaderStep(0, Failed));
    }

    method ReadNoInt() returns (rc: ReadResult, data: seq<Byte>)
      requires At(Read)
      modifies this
      ensures At(if rc.Failed? then CloseFailed else if rc.n == 0 then CloseAtEnd else PostBody(data))
      ensures rc.Got? && rc.n > 0 ==> |data| == rc.n && offset == old(offset) + rc.n <= |content|
      ensures steps == old(steps) + [ReaderStep(0, rc)]
    {
      ghost var was := View();
      var fails: bool, n: nat := *, *;
      rc := if fails || !ReadAnswers(content, View(), Got(n)) then Failed else Got(n);
      data := [];
      if rc.Failed? {
        executor := [CloseFailed];
      } else if rc.n == 0 {
        executor := [CloseAtEnd];
      } else {
        data := content[offset..offset + rc.n];
        offset := offset + rc.n;
        executor := [PostBody(data)];
      }
      Log(was, ReaderStep(0, rc));
    }

    method ResetFile()
      requires At(CloseFailed) || At(CloseAtEnd)
      modifies this
      ensures At(if old(executor) == [CloseFailed] then PostAbort else PostEom)
      ensures steps == old(steps) + [ReaderStep(0, Failed)]
    {
      ghost var was := View();
      file := false;
      executor := [if executor == [CloseFailed] then PostAbort else PostEom];
      Log(was, ReaderStep(0, Failed));
    }

    method RunInEventBaseThread(callback: Callback, next: seq<Pc>)
      requires Valid() && |executor| == 1 && Posted(executor[0]) == [callback]
      requires next == match executor[0] case PostBody(_) => [TestFile] case PostEnded => [] case _ => [PostEnded]
      modifies this
      ensures Valid() && executor == next && offset == old(offset)
      ensures eventQueue == old(eventQueue) + [callback]
      ensures steps == old(steps) + [ReaderStep(0, Failed)]
    {
      ghost var was := View();
      eventQueue := eventQueue + [callback];
      executor := next;
      Log(was, ReaderStep(0, Failed));
    }

    // The end of the file, or of what can be read of it.
    method Finish(failed: bool)
      requires At(if failed then CloseFailed else CloseAtEnd)
      modifies this
      ensures At(PostEnded) && old(steps) < steps
    {
      ResetFile();
      Interference();
      RunInEventBaseThread(if failed then SendAbort else SendEom, [PostEnded]);
    }

    // The loop of readFile from its read to its post.
    method Forward() returns (again: bool)
      requires At(Read)
      modifies this
      ensures Valid() && executor == [if again then TestFile else PostEnded] && old(steps) < steps
      ensures again ==> old(offset) < offset <= |content|
    {
      var rc, data := ReadNoInt();
      again := rc.Got? && rc.n > 0;
      Interference();
      if again {
        RunInEventBaseThread(SendBody(data), [TestFile]);
      } else {
        Finish(rc.Failed?);
      }
    }

    // One turn of the loop of readFile.
    method Turn() returns (again: bool)
      requires At(TestFile)
      modifies this
      ensures Valid() && executor == [if again then TestFile else PostEnded] && old(steps) < steps
      ensures again ==> old(offset) < offset <= |content|
    {
      Interference();
      var open := LoadFile();
      if !open { return false; }
      Interference();
      var stop := LoadPaused();
      if stop { return false; }
      Interference();
      again := Forward();
    }

    // readFile, from its start on the executor to its last callback: a legal
    // run of the two threads, at whose end the reader is gone and the event
    // thread has been told so by the last callback in the queue.
    method ReadFile()
      requires At(TestFile)
      modifies this
      ensures Valid() && old(steps) < steps && executor == []
      ensures eventQueue != [] && eventQueue[|eventQueue| - 1] == ReaderEnded
    {
      var again := true;
      while again
        invariant Valid() && executor == [if again then TestFile else PostEnded] && old(steps) <= steps
        invariant again ==> offset <= |content|
        decreases again, |content| - offset
      {
        again := Turn();
      }
      Interference();
      RunInEventBaseThread(ReaderEnded, []);
    }
  }
}
