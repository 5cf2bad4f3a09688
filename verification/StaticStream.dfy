/** The protocol between the event thread and the CPU thread that streams a
    file (src/StaticHandler.cpp), as a transition system.

    The event thread runs onRequest, the egress callbacks, requestComplete or
    onError, and the callbacks posted by the reader.  The reader is readFile;
    its loop tests, its read, the reset of file_ and each post are separate
    steps, so every interleaving of the two threads is a sequence of steps. */
module StaticStream {
  import opened Common

  type Byte = b: int | 0 <= b < 256

  // What the reader posts to the event thread's FIFO queue.
  datatype Callback = SendBody(data: seq<Byte>) | SendEom | SendAbort | ReaderEnded

  // What the client is sent.  Refusal is a complete error response.
  datatype Sent = Headers | Body(data: seq<Byte>) | Eom | Abort | Refusal

  // Where a reader stands in readFile.
  datatype Pc =
    | TestFile
    | TestPaused
    | Read
    | PostBody(data: seq<Byte>)
    | CloseFailed
    | PostAbort
    | CloseAtEnd
    | PostEom
    | PostEnded

  datatype State = State(
    // fields of the handler
    fileOpen: bool, scheduled: bool, paused: bool, finished: bool,
    // the object: alive until deleted; fault: used after deletion, or a read
    // through a null file_; raced: the event thread used file_ beside a reader
    alive: bool, deletions: nat, fault: bool, raced: bool,
    // what the HTTP server has called so far
    requested: bool, completed: bool,
    // position in the file, readers on the CPU executor, queue, output
    offset: nat, readers: seq<Pc>, queue: seq<Callback>, sent: seq<Sent>)

  const INIT := State(false, false, false, false, true, 0, false, false, false, false, 0, [], [], [])

  datatype ReadResult = Failed | Got(n: nat)

  datatype Step =
    | Request(accepted: bool)
    | EgressPaused
    | EgressResumed
    | Completed                          // requestComplete or onError
    | RunCallback
    | ReaderStep(reader: nat, rc: ReadResult)

  // ---------- the steps ----------

  function Touch(s: State): State {
    s.(fault := s.fault || !s.alive)
  }

  // The event thread looks at file_ (or destroys it).
  function UseFile(s: State): State {
    s.(raced := s.raced || s.readers != [])
  }

  function Schedule(s: State): State {
    s.(scheduled := true, readers := s.readers + [TestFile])
  }

  // delete this: ends the object and its unique_ptr to the file
  function Delete(s: State): State {
    UseFile(s).(alive := false, deletions := s.deletions + 1, fileOpen := false)
  }

  function CheckForCompletion(s: State): (bool, State) {
    if s.finished && !s.scheduled then (true, Delete(s)) else (false, s)
  }

  function OnRequest(s: State, accepted: bool): State {
    var t := Touch(s).(requested := true);
    if accepted then
      Schedule(t.(fileOpen := true, offset := 0, sent := t.sent + [Headers]))
    else
      t.(sent := t.sent + [Refusal])
  }

  function OnEgressPaused(s: State): State {
    Touch(s).(paused := true)
  }

  function OnEgressResumed(s: State): State {
    var t := Touch(s).(paused := false);
    if t.scheduled then t
    else if UseFile(t).fileOpen then Schedule(UseFile(t))
    else UseFile(t)
  }

  function OnCompleted(s: State): State {
    CheckForCompletion(Touch(s).(finished := true, paused := true, completed := true)).1
  }

  function OnReaderEnded(s: State): State {
    var (deleted, t) := CheckForCompletion(s.(scheduled := false));
    if !deleted && !t.paused then OnEgressResumed(t) else t
  }

  // The output a callback will become.
  function Mark(callback: Callback): seq<Sent> {
    match callback
    case SendBody(data) => [Body(data)]
    case SendEom => [Eom]
    case SendAbort => [Abort]
    case ReaderEnded => []
  }

  function OnCallback(s: State): State
    requires s.queue != []
  {
    var t := Touch(s).(queue := s.queue[1..]);
    if s.queue[0].ReaderEnded? then OnReaderEnded(t) else t.(sent := t.sent + Mark(s.queue[0]))
  }

  // What read(2) may answer: an error at any time, 0 exactly at the end.
  predicate ReadAnswers(content: seq<Byte>, s: State, rc: ReadResult) {
    rc.Failed? || (s.offset + rc.n <= |content| && (rc.n == 0 <==> s.offset == |content|))
  }

  // The callback a reader posts where it stands.
  function Posted(pc: Pc): seq<Callback> {
    match pc
    case PostBody(data) => [SendBody(data)]
    case PostAbort => [SendAbort]
    case PostEom => [SendEom]
    case PostEnded => [ReaderEnded]
    case _ => []
  }

  // The number of bytes a reader takes from the file where it stands.
  function Taken(pc: Pc, rc: ReadResult): nat {
    if pc.Read? && rc.Got? then rc.n else 0
  }

  predicate Resets(pc: Pc) { pc.CloseFailed? || pc.CloseAtEnd? }

  // Where the reader stands next; nowhere once it has posted its last callback.
  function Next(content: seq<Byte>, s: State, pc: Pc, rc: ReadResult): seq<Pc>
    requires pc.Read? ==> ReadAnswers(content, s, rc)
  {
    match pc
    case TestFile => [if s.fileOpen then TestPaused else PostEnded]
    case TestPaused => [if s.paused then PostEnded else Read]
    case Read =>
      [if rc.Failed? then CloseFailed
       else if rc.n == 0 then CloseAtEnd
       else PostBody(content[s.offset..s.offset + rc.n])]
    case PostBody(_) => [TestFile]
    case CloseFailed => [PostAbort]
    case PostAbort => [PostEnded]
    case CloseAtEnd => [PostEom]
    case PostEom => [PostEnded]
    case PostEnded => []
  }

  // Posting uses only the event base handed to readFile; the other steps use the object.
  function OnReader(content: seq<Byte>, s: State, i: nat, rc: ReadResult): State
    requires i < |s.readers|
    requires s.readers[i].Read? ==> ReadAnswers(content, s, rc)
  {
    var pc := s.readers[i];
    s.(fault := s.fault || (Posted(pc) == [] && !s.alive) || (pc.Read? && !s.fileOpen),
       fileOpen := s.fileOpen && !Resets(pc),
       offset := s.offset + Taken(pc, rc),
       queue := s.queue + Posted(pc),
       readers := s.readers[..i] + Next(content, s, pc, rc) + s.readers[i + 1..])
  }

  // The server calls onRequest once, and nothing after requestComplete or onError.
  predicate Enabled(content: seq<Byte>, s: State, step: Step) {
    match step
    case Request(_) => !s.requested && !s.completed
    case EgressPaused => !s.completed
    case EgressResumed => !s.completed
    case Completed => !s.completed
    case RunCallback => s.queue != []
    case ReaderStep(i, rc) =>
      i < |s.readers| && (s.readers[i].Read? ==> ReadAnswers(content, s, rc))
  }

  function Do(content: seq<Byte>, s: State, step: Step): State
    requires Enabled(content, s, step)
  {
    match step
    case Request(accepted) => OnRequest(s, accepted)
    case EgressPaused => OnEgressPaused(s)
    case EgressResumed => OnEgressResumed(s)
    case Completed => OnCompleted(s)
    case RunCallback => OnCallback(s)
    case ReaderStep(i, rc) => OnReader(content, s, i, rc)
  }

  predicate Legal(content: seq<Byte>, s: State, steps: seq<Step>)
    decreases |steps|
  {
    steps == [] ||
    (Enabled(content, s, steps[0]) && Legal(content, Do(content, s, steps[0]), steps[1..]))
  }

  function Run(content: seq<Byte>, s: State, steps: seq<Step>): State
    requires Legal(content, s, steps)
    decreases |steps|
  {
    if steps == [] then s else Run(content, Do(content, s, steps[0]), steps[1..])
  }

  // ---------- what every reachable state satisfies ----------

  function Image(queue: seq<Callback>): seq<Sent> {
    if queue == [] then [] else Mark(queue[0]) + Image(queue[1..])
  }

  // What a reader holds and has not posted yet.
  function Held(pc: Pc): seq<Sent> {
    match pc
    case PostBody(data) => [Body(data)]
    case PostEom => [Eom]
    case PostAbort => [Abort]
    case _ => []
  }

  function Pending(readers: seq<Pc>): seq<Sent> {
    if readers == [] then [] else Held(readers[0])
  }

  // Everything read so far, wherever it is on its way to the client.
  function Stream(s: State): seq<Sent> {
    s.sent + (Image(s.queue) + Pending(s.readers))
  }

  function BodyBytes(out: seq<Sent>): seq<Byte> {
    if out == [] then []
    else BodyBytes(out[..|out| - 1]) + (if out[|out| - 1].Body? then out[|out| - 1].data else [])
  }

  predicate Closing(x: Sent) { x.Eom? || x.Abort? }

  // Headers, then bodies, then at most one closing mark in last place.
  predicate Orderly(out: seq<Sent>) {
    && out != [] && out[0].Headers?
    && (forall i :: 0 < i < |out| - 1 ==> out[i].Body?)
    && (|out| > 1 ==> out[|out| - 1].Body? || Closing(out[|out| - 1]))
  }

  predicate Closed(out: seq<Sent>) {
    out != [] && Closing(out[|out| - 1])
  }

  predicate StreamOk(content: seq<Byte>, offset: nat, requested: bool, alive: bool, fileOpen: bool, out: seq<Sent>) {
    && offset <= |content|
    && (!requested ==> out == [] && !fileOpen)
    && (requested ==>
          || (out == [Refusal] && !fileOpen)
          || (&& Orderly(out)
              && BodyBytes(out) == content[..offset]
              && (out[|out| - 1].Eom? ==> offset == |content|)
              && (alive ==> (fileOpen <==> !Closed(out)))))
  }

  predicate StreamInv(content: seq<Byte>, s: State) {
    StreamOk(content, s.offset, s.requested, s.alive, s.fileOpen, Stream(s))
  }

  predicate NoneEnded(queue: seq<Callback>) {
    forall i :: 0 <= i < |queue| ==> !queue[i].ReaderEnded?
  }

  // One reader on the executor, or its last callback at the end of the queue.
  predicate OneInFlight(readers: seq<Pc>, queue: seq<Callback>) {
    || (|readers| == 1 && NoneEnded(queue))
    || (readers == [] && queue != [] && queue[|queue| - 1].ReaderEnded? && NoneEnded(queue[..|queue| - 1]))
  }

  predicate FlightOk(scheduled: bool, readers: seq<Pc>, queue: seq<Callback>) {
    if scheduled then OneInFlight(readers, queue) else readers == [] && queue == []
  }

  predicate FlightInv(s: State) {
    FlightOk(s.scheduled, s.readers, s.queue)
  }

  // Between the test of file_ and the reset of file_.
  predicate NeedsFile(pc: Pc) {
    pc.TestPaused? || pc.Read? || pc.PostBody? || pc.CloseFailed? || pc.CloseAtEnd?
  }

  predicate PcInv(content: seq<Byte>, s: State) {
    s.readers != [] ==>
      && (NeedsFile(s.readers[0]) ==> s.fileOpen)
      && (s.readers[0].PostAbort? || s.readers[0].PostEom? ==> !s.fileOpen)
      && (s.readers[0].CloseAtEnd? ==> s.offset == |content|)
  }

  predicate LifeInv(s: State) {
    && !s.fault && !s.raced
    && s.deletions == (if s.alive then 0 else 1)
    && s.finished == s.completed
    && (s.completed ==> s.paused)
    && (s.completed && s.alive ==> s.scheduled)
    && (!s.alive ==> s.completed && !s.scheduled && !s.fileOpen)
    && (!s.requested ==> !s.scheduled)
    && (s.fileOpen && !s.paused ==> s.scheduled)
  }

  predicate Inv(content: seq<Byte>, s: State) {
    LifeInv(s) && FlightInv(s) && PcInv(content, s) && StreamInv(content, s)
  }

  // ---------- preservation ----------

  lemma BodyBytesSnoc(out: seq<Sent>, x: Sent)
    ensures BodyBytes(out + [x]) == BodyBytes(out) + (if x.Body? then x.data else [])
  {
    assert (out + [x])[..|out|] == out;
  }

  predicate ShapeInv(content: seq<Byte>, s: State) {
    LifeInv(s) && FlightInv(s) && PcInv(content, s)
  }

  lemma NoneEndedTail(queue: seq<Callback>, readers: seq<Pc>)
    requires queue != [] && OneInFlight(readers, queue) && !queue[0].ReaderEnded?
    ensures OneInFlight(readers, queue[1..])
  {
    if readers == [] {
      assert queue[1..][..|queue| - 2] == queue[..|queue| - 1][1..];
    }
  }

  // Handing a posted callback to the client does not change the stream.
  lemma DeliverInv(content: seq<Byte>, s: State)
    requires Inv(content, s) && s.queue != [] && !s.queue[0].ReaderEnded?
    ensures Inv(content, OnCallback(s)) && Stream(OnCallback(s)) == Stream(s)
  {
    NoneEndedTail(s.queue, s.readers);
    var t := OnCallback(s);
    assert t == s.(queue := s.queue[1..], sent := s.sent + Mark(s.queue[0]));
    Assoc(s.sent, Mark(s.queue[0]), Image(t.queue) + Pending(s.readers));
    Assoc(Mark(s.queue[0]), Image(t.queue), Pending(s.readers));
  }

  lemma ReaderEndedInv(content: seq<Byte>, s: State)
    requires Inv(content, s) && s.queue != [] && s.queue[0].ReaderEnded?
    ensures Inv(content, OnCallback(s)) && Stream(OnCallback(s)) == Stream(s)
  {
    assert |s.queue| == 1 && s.readers == [];
    assert s.queue[1..] == [];
    var t := OnCallback(s);
    assert t.sent == s.sent && t.queue == [];
    assert Image(s.queue) == [];
    assert Pending(t.readers) == [];
  }

  lemma ReplaceOnly<T>(s: seq<T>, x: seq<T>)
    requires |s| == 1
    ensures s[..0] + x + s[1..] == x
  {
  }

  lemma PostFlight(pc: Pc, next: seq<Pc>, queue: seq<Callback>)
    requires NoneEnded(queue)
    requires if pc.PostEnded? then next == [] else |next| == 1
    ensures OneInFlight(next, queue + Posted(pc))
  {
  }

  lemma ReaderShape(content: seq<Byte>, s: State, i: nat, rc: ReadResult)
    requires ShapeInv(content, s) && s.offset <= |content| && Enabled(content, s, ReaderStep(i, rc))
    ensures i == 0 && |s.readers| == 1
    ensures ShapeInv(content, OnReader(content, s, 0, rc))
  {
    assert s.scheduled && |s.readers| == 1 && i == 0;
    var pc := s.readers[0];
    ReplaceOnly(s.readers, Next(content, s, pc, rc));
    PostFlight(pc, Next(content, s, pc, rc), s.queue);
  }

  // Only the read and the two resets of file_ extend the stream.
  function Gain(pc: Pc, data: seq<Byte>): seq<Sent> {
    match pc
    case Read => if data == [] then [] else [Body(data)]
    case CloseFailed => [Abort]
    case CloseAtEnd => [Eom]
    case _ => []
  }

  lemma {:induction false} ImageConcat(a: seq<Callback>, b: seq<Callback>)
    ensures Image(a + b) == Image(a) + Image(b)
  {
    if a == [] {
      assert a + b == b;
    } else {
      assert (a + b)[1..] == a[1..] + b;
      ImageConcat(a[1..], b);
      Assoc(Mark(a[0]), Image(a[1..]), Image(b));
    }
  }

  lemma Regroup<T>(sent: seq<T>, queued: seq<T>, held: seq<T>, gain: seq<T>, posted: seq<T>, pending: seq<T>)
    requires held + gain == posted + pending
    ensures sent + ((queued + posted) + pending) == (sent + (queued + held)) + gain
  {
    Assoc(queued, posted, pending);
    Assoc(queued, held, gain);
    Assoc(sent, queued + held, gain);
  }

  // What a step holds or adds is what it posts or leaves to post.
  lemma Conserved(content: seq<Byte>, s: State, pc: Pc, rc: ReadResult)
    requires pc.Read? ==> ReadAnswers(content, s, rc) && s.offset <= |content|
    requires s.offset + Taken(pc, rc) <= |content|
    ensures Held(pc) + Gain(pc, content[s.offset..s.offset + Taken(pc, rc)])
         == Image(Posted(pc)) + Pending(Next(content, s, pc, rc))
  {
  }

  lemma ReaderFields(content: seq<Byte>, s: State, rc: ReadResult)
    requires |s.readers| == 1 && Enabled(content, s, ReaderStep(0, rc))
    ensures OnReader(content, s, 0, rc).readers == Next(content, s, s.readers[0], rc)
    ensures Stream(OnReader(content, s, 0, rc))
         == s.sent + (Image(s.queue + Posted(s.readers[0])) + Pending(Next(content, s, s.readers[0], rc)))
  {
    ReplaceOnly(s.readers, Next(content, s, s.readers[0], rc));
  }

  lemma ReaderGain(content: seq<Byte>, s: State, rc: ReadResult)
    requires |s.readers| == 1 && Enabled(content, s, ReaderStep(0, rc)) && s.offset <= |content|
    ensures s.offset + Taken(s.readers[0], rc) <= |content|
    ensures Stream(OnReader(content, s, 0, rc))
         == Stream(s) + Gain(s.readers[0], content[s.offset..s.offset + Taken(s.readers[0], rc)])
  {
    var pc := s.readers[0];
    ReaderFields(content, s, rc);
    Conserved(content, s, pc, rc);
    ImageConcat(s.queue, Posted(pc));
    Regroup(s.sent, Image(s.queue), Held(pc), Gain(pc, content[s.offset..s.offset + Taken(pc, rc)]),
            Image(Posted(pc)), Pending(Next(content, s, pc, rc)));
  }

  lemma OrderlySnoc(out: seq<Sent>, x: Sent)
    requires Orderly(out) && !Closed(out) && (x.Body? || Closing(x))
    ensures Orderly(out + [x]) && Closed(out + [x]) == Closing(x)
  {
    var now := out + [x];
    assert now[|out|] == x;
    forall i | 0 < i < |now| - 1 ensures now[i].Body? {
      assert now[i] == out[i];
    }
  }

  lemma StreamGrows(content: seq<Byte>, out: seq<Sent>, pc: Pc, before: nat, after: nat, fileOpen: bool)
    requires StreamOk(content, before, true, true, fileOpen, out)
    requires before <= after <= |content| && (after > before ==> pc.Read?)
    requires NeedsFile(pc) ==> fileOpen
    requires pc.CloseAtEnd? ==> before == |content|
    ensures StreamOk(content, after, true, true, fileOpen && !Resets(pc),
                     out + Gain(pc, content[before..after]))
  {
    var gain := Gain(pc, content[before..after]);
    if gain == [] {
      assert out + gain == out && after == before;
    } else {
      assert gain == [gain[0]];
      BodyBytesSnoc(out, gain[0]);
      OrderlySnoc(out, gain[0]);
      assert content[..before] + content[before..after] == content[..after];
    }
  }

  lemma ReaderStream(content: seq<Byte>, s: State, rc: ReadResult)
    requires Inv(content, s) && |s.readers| == 1 && Enabled(content, s, ReaderStep(0, rc))
    ensures StreamInv(content, OnReader(content, s, 0, rc))
  {
    var pc := s.readers[0];
    ReaderGain(content, s, rc);
    var t := OnReader(content, s, 0, rc);
    assert t.offset == s.offset + Taken(pc, rc) && t.fileOpen == (s.fileOpen && !Resets(pc));
    assert t.requested == s.requested && t.alive == s.alive;
    StreamGrows(content, Stream(s), pc, s.offset, t.offset, s.fileOpen);
  }

  lemma ServerInv(content: seq<Byte>, s: State, step: Step)
    requires Inv(content, s) && Enabled(content, s, step)
    requires !step.RunCallback? && !step.ReaderStep?
    ensures Inv(content, Do(content, s, step))
  {
  }

  lemma StepInv(content: seq<Byte>, s: State, step: Step)
    requires Inv(content, s) && Enabled(content, s, step)
    ensures Inv(content, Do(content, s, step))
  {
    match step
    case RunCallback =>
      if s.queue[0].ReaderEnded? { ReaderEndedInv(content, s); } else { DeliverInv(content, s); }
    case ReaderStep(i, rc) =>
      ReaderShape(content, s, i, rc);
      ReaderStream(content, s, rc);
    case _ => ServerInv(content, s, step);
  }

  lemma {:induction false} RunInv(content: seq<Byte>, s: State, steps: seq<Step>)
    requires Inv(content, s) && Legal(content, s, steps)
    ensures Inv(content, Run(content, s, steps))
    decreases |steps|
  {
    if steps != [] {
      StepInv(content, s, steps[0]);
      RunInv(content, Do(content, s, steps[0]), steps[1..]);
    }
  }

  // ---------- what the client receives ----------

  predicate Delivered(content: seq<Byte>, sent: seq<Sent>) {
    || sent == []
    || sent == [Refusal]
    || (&& sent[0] == Headers
        && BodyBytes(sent) <= content
        && (forall i :: 0 < i < |sent| ==> sent[i].Body? || (Closing(sent[i]) && i == |sent| - 1))
        && (Eom in sent ==> BodyBytes(sent) == content))
  }

  lemma {:induction false} BodyBytesOfPrefix(out: seq<Sent>, n: nat)
    requires n <= |out|
    ensures BodyBytes(out[..n]) <= BodyBytes(out)
  {
    if n < |out| {
      BodyBytesOfPrefix(out[..|out| - 1], n);
      assert out[..|out| - 1][..n] == out[..n];
    } else {
      assert out[..n] == out;
    }
  }

  lemma PrefixShape(out: seq<Sent>, n: nat)
    requires Orderly(out) && 0 < n <= |out|
    ensures forall i :: 0 < i < n ==> out[i].Body? || (Closing(out[i]) && i == n - 1)
    ensures Eom in out[..n] ==> n == |out| && out[n - 1].Eom?
  {
    if Eom in out[..n] {
      var i :| 0 <= i < n && out[i] == Eom;
      assert i == |out| - 1;
    }
  }

  lemma OrderlyPrefix(content: seq<Byte>, offset: nat, out: seq<Sent>, sent: seq<Sent>)
    requires Orderly(out) && sent <= out && offset <= |content|
    requires BodyBytes(out) == content[..offset]
    requires out[|out| - 1].Eom? ==> offset == |content|
    ensures Delivered(content, sent)
  {
    BodyBytesOfPrefix(out, |sent|);
    assert out[..|sent|] == sent;
    if sent != [] {
      PrefixShape(out, |sent|);
      assert |sent| == |out| ==> sent == out;
    }
  }

  // In every interleaving the client gets a prefix of the file, in order; the
  // end of message only after the whole file; and nothing after it.
  lemma DeliveryIsInOrder(content: seq<Byte>, steps: seq<Step>)
    requires Legal(content, INIT, steps)
    ensures Delivered(content, Run(content, INIT, steps).sent)
  {
    var s := Run(content, INIT, steps);
    InitInv(content);
    RunInv(content, INIT, steps);
    assert s.sent <= Stream(s);
    if s.sent != [] && Orderly(Stream(s)) {
      OrderlyPrefix(content, s.offset, Stream(s), s.sent);
    }
  }

  lemma InitInv(content: seq<Byte>)
    ensures Inv(content, INIT)
  {
    assert Stream(INIT) == [];
  }

  // ---------- the life of the object ----------

  function EndedCount(queue: seq<Callback>): nat {
    if queue == [] then 0 else (if queue[0].ReaderEnded? then 1 else 0) + EndedCount(queue[1..])
  }

  lemma {:induction false} EndedCountSnoc(queue: seq<Callback>, c: Callback)
    ensures EndedCount(queue + [c]) == EndedCount(queue) + (if c.ReaderEnded? then 1 else 0)
  {
    if queue == [] {
      assert queue + [c] == [c];
    } else {
      assert (queue + [c])[1..] == queue[1..] + [c];
      EndedCountSnoc(queue[1..], c);
    }
  }

  lemma {:induction false} NoneEndedCount(queue: seq<Callback>)
    requires NoneEnded(queue)
    ensures EndedCount(queue) == 0
  {
    if queue != [] { NoneEndedCount(queue[1..]); }
  }

  lemma FlightCount(s: State)
    requires FlightInv(s)
    ensures s.scheduled ==> |s.readers| + EndedCount(s.queue) == 1
    ensures !s.scheduled ==> |s.readers| + EndedCount(s.queue) == 0
  {
    if s.scheduled {
      if s.readers == [] {
        var n := |s.queue| - 1;
        NoneEndedCount(s.queue[..n]);
        EndedCountSnoc(s.queue[..n], s.queue[n]);
        assert s.queue == s.queue[..n] + [s.queue[n]];
      } else {
        NoneEndedCount(s.queue);
      }
    }
  }

  // readFileScheduled_ holds exactly while one reader is queued, running or
  // about to be reported ended; readers never overlap, and the event thread
  // never uses file_ beside one.
  lemma OneReaderAtATime(content: seq<Byte>, steps: seq<Step>)
    requires Legal(content, INIT, steps)
    ensures var s := Run(content, INIT, steps);
      && |s.readers| + EndedCount(s.queue) <= 1
      && (s.scheduled <==> |s.readers| + EndedCount(s.queue) == 1)
      && !s.raced
  {
    InitInv(content);
    RunInv(content, INIT, steps);
    FlightCount(Run(content, INIT, steps));
  }

  // The object is deleted at most once, exactly when the request is finished
  // and no reader is in flight; from then on neither thread can take a step.
  lemma DeletedOnceAndLast(content: seq<Byte>, steps: seq<Step>)
    requires Legal(content, INIT, steps)
    ensures var s := Run(content, INIT, steps);
      && !s.fault
      && s.deletions <= 1
      && (s.deletions == 1 <==> s.finished && |s.readers| + EndedCount(s.queue) == 0)
      && (s.deletions == 1 ==> s.queue == [] && forall step :: !Enabled(content, s, step))
  {
    InitInv(content);
    RunInv(content, INIT, steps);
    FlightCount(Run(content, INIT, steps));
  }

  // ---------- progress ----------

  // An accepted transfer with its file open and not paused has a reader in flight.
  lemma NoLostWakeup(content: seq<Byte>, steps: seq<Step>)
    requires Legal(content, INIT, steps)
    ensures var s := Run(content, INIT, steps);
      s.fileOpen && !s.paused ==> |s.readers| + EndedCount(s.queue) == 1
  {
    InitInv(content);
    RunInv(content, INIT, steps);
    FlightCount(Run(content, INIT, steps));
  }

  predicate Quiet(step: Step) { step.RunCallback? || step.ReaderStep? }

  // Steps left for a reader, given whether it will find the file open and not paused.
  function Rank(pc: Pc, restarts: bool): nat {
    match pc
    case TestFile => if restarts then 9 else 4
    case TestPaused => if restarts then 8 else 3
    case Read => 7
    case PostBody(_) => 12
    case CloseFailed => 6
    case CloseAtEnd => 6
    case PostAbort => 4
    case PostEom => 4
    case PostEnded => if restarts then 11 else 2
  }

  function Left(content: seq<Byte>, offset: nat, fileOpen: bool): nat {
    (if offset < |content| then |content| - offset else 0) + (if fileOpen then 1 else 0)
  }

  function QueueRank(queue: seq<Callback>, restarts: bool): nat {
    |queue| + (if restarts then 9 * EndedCount(queue) else 0)
  }

  function ReadersRank(readers: seq<Pc>, restarts: bool): nat {
    if readers == [] then 0 else Rank(readers[0], restarts)
  }

  function Measure(content: seq<Byte>, s: State): nat {
    var restarts := s.fileOpen && !s.paused;
    20 * Left(content, s.offset, s.fileOpen) + QueueRank(s.queue, restarts) + ReadersRank(s.readers, restarts)
  }

  lemma OneRank(callback: Callback, restarts: bool)
    ensures QueueRank([callback], restarts) == if restarts && callback.ReaderEnded? then 10 else 1
  {
    assert [callback][1..] == [];
    assert EndedCount([callback]) == (if callback.ReaderEnded? then 1 else 0) + EndedCount([]);
  }

  lemma RankDrops(content: seq<Byte>, s: State, pc: Pc, rc: ReadResult, fileOpen: bool)
    requires pc.Read? ==> ReadAnswers(content, s, rc) && s.offset <= |content|
    requires NeedsFile(pc) ==> s.fileOpen
    requires pc.PostAbort? || pc.PostEom? ==> !s.fileOpen
    requires fileOpen == (s.fileOpen && !Resets(pc))
    ensures var restarts := fileOpen && !s.paused;
      20 * Left(content, s.offset + Taken(pc, rc), fileOpen)
      + QueueRank(Posted(pc), restarts) + ReadersRank(Next(content, s, pc, rc), restarts)
      < 20 * Left(content, s.offset, s.fileOpen) + Rank(pc, s.fileOpen && !s.paused)
  {
    if Posted(pc) != [] { OneRank(Posted(pc)[0], fileOpen && !s.paused); }
    match pc
    case PostBody(_) =>
    case PostAbort =>
    case PostEom =>
    case PostEnded =>
    case _ =>
  }

  lemma PostRank(queue: seq<Callback>, pc: Pc, before: bool, after: bool)
    requires NoneEnded(queue)
    ensures QueueRank(queue, before) == |queue|
    ensures QueueRank(queue + Posted(pc), after) == |queue| + QueueRank(Posted(pc), after)
  {
    NoneEndedCount(queue);
    if Posted(pc) == [] {
      assert queue + Posted(pc) == queue;
    } else {
      EndedCountSnoc(queue, Posted(pc)[0]);
      EndedCountSnoc([], Posted(pc)[0]);
      assert [] + [Posted(pc)[0]] == Posted(pc);
    }
  }

  lemma ReaderDecreases(content: seq<Byte>, s: State, i: nat, rc: ReadResult)
    requires Inv(content, s) && Enabled(content, s, ReaderStep(i, rc))
    ensures Measure(content, OnReader(content, s, i, rc)) < Measure(content, s)
  {
    ReaderShape(content, s, i, rc);
    var pc := s.readers[0];
    ReaderFields(content, s, rc);
    var fileOpen := s.fileOpen && !Resets(pc);
    RankDrops(content, s, pc, rc, fileOpen);
    PostRank(s.queue, pc, s.fileOpen && !s.paused, fileOpen && !s.paused);
  }

  lemma CallbackDecreases(content: seq<Byte>, s: State)
    requires Inv(content, s) && s.queue != []
    ensures Measure(content, OnCallback(s)) < Measure(content, s)
  {
    var t := OnCallback(s);
    if s.queue[0].ReaderEnded? {
      assert |s.queue| == 1 && s.readers == [];
      assert s.queue[1..] == [];
    } else {
      assert EndedCount(t.queue) == EndedCount(s.queue);
      assert t.readers == s.readers && t.fileOpen == s.fileOpen && t.paused == s.paused;
    }
  }

  lemma QuietDecreases(content: seq<Byte>, s: State, step: Step)
    requires Inv(content, s) && Enabled(content, s, step) && Quiet(step)
    ensures Inv(content, Do(content, s, step))
    ensures Measure(content, Do(content, s, step)) < Measure(content, s)
  {
    StepInv(content, s, step);
    if step.RunCallback? {
      CallbackDecreases(content, s);
    } else {
      ReaderDecreases(content, s, step.reader, step.rc);
    }
  }

  // With the server quiet every step lowers the measure, so every such run is
  // finite; and a run can go on while a reader or a callback is left.
  lemma {:induction false} QuietRunsEnd(content: seq<Byte>, s: State, steps: seq<Step>)
    requires Inv(content, s) && Legal(content, s, steps)
    requires forall i :: 0 <= i < |steps| ==> Quiet(steps[i])
    ensures |steps| + Measure(content, Run(content, s, steps)) <= Measure(content, s)
    decreases |steps|
  {
    if steps != [] {
      var t, rest := Do(content, s, steps[0]), steps[1..];
      assert Quiet(steps[0]) && forall i :: 0 <= i < |rest| ==> rest[i] == steps[i + 1];
      QuietDecreases(content, s, steps[0]);
      QuietRunsEnd(content, t, rest);
      assert Run(content, s, steps) == Run(content, t, rest);
    }
  }

  lemma QuietGoesOn(content: seq<Byte>, s: State)
    requires Inv(content, s)
    ensures (exists step :: Quiet(step) && Enabled(content, s, step)) <==> s.readers != [] || s.queue != []
  {
    if s.queue != [] {
      assert Quiet(RunCallback) && Enabled(content, s, RunCallback);
    }
    if s.readers != [] {
      var step := ReaderStep(0, Failed);
      assert Quiet(step) && Enabled(content, s, step);
    }
  }

  // Where a quiet run can stop: the object deleted, the whole file sent, the
  // transfer aborted, the file open with the egress paused, or nothing to send.
  lemma QuietOutcome(content: seq<Byte>, steps: seq<Step>)
    requires Legal(content, INIT, steps)
    requires forall step :: Enabled(content, Run(content, INIT, steps), step) ==> !Quiet(step)
    ensures var s := Run(content, INIT, steps);
      && (s.completed ==> !s.alive)
      && (s.alive && Headers in s.sent ==>
            || (Eom in s.sent && BodyBytes(s.sent) == content)
            || Abort in s.sent
            || (s.fileOpen && s.paused))
      && (s.alive && !(Headers in s.sent) ==> s.sent == [] || s.sent == [Refusal])
  {
    var s := Run(content, INIT, steps);
    InitInv(content);
    RunInv(content, INIT, steps);
    QuietGoesOn(content, s);
    assert Stream(s) == s.sent;
    DeliveryIsInOrder(content, steps);
  }

  // ---------- by the calls alone ----------

  // What the reader's last callback leaves alone.
  lemma EndedKeeps(s: State)
    ensures var t := OnReaderEnded(s);
      && t.requested == s.requested && t.completed == s.completed && t.paused == s.paused
      && t.sent == s.sent && t.queue == s.queue
      && t.readers == (if s.paused || t.readers == s.readers then s.readers else s.readers + [TestFile])
  {
  }

  // What a callback leaves alone, and what it sends.
  predicate CallbackOk(s: State, t: State)
    requires s.queue != []
  {
    && t.requested == s.requested && t.completed == s.completed && t.paused == s.paused
    && t.sent == s.sent + Mark(s.queue[0]) && t.queue == s.queue[1..]
    && t.readers == (if s.paused || t.readers == s.readers then s.readers else s.readers + [TestFile])
  }

  lemma EndedCallback(s: State)
    requires s.queue != [] && s.queue[0].ReaderEnded?
    ensures CallbackOk(s, OnCallback(s))
  {
    var t := Touch(s).(queue := s.queue[1..]);
    assert OnCallback(s) == OnReaderEnded(t);
    EndedKeeps(t);
    assert s.sent + [] == s.sent;
  }

  lemma SendCallback(s: State)
    requires s.queue != [] && !s.queue[0].ReaderEnded?
    ensures CallbackOk(s, OnCallback(s))
  {
    assert OnCallback(s) == Touch(s).(queue := s.queue[1..], sent := s.sent + Mark(s.queue[0]));
  }

  lemma CallbackKeeps(s: State)
    requires s.queue != []
    ensures CallbackOk(s, OnCallback(s))
  {
    if s.queue[0].ReaderEnded? { EndedCallback(s); } else { SendCallback(s); }
  }

  lemma ReaderKeeps(content: seq<Byte>, s: State, i: nat, rc: ReadResult)
    requires Enabled(content, s, ReaderStep(i, rc))
    ensures var t := OnReader(content, s, i, rc);
      t.requested == s.requested && t.completed == s.completed && t.paused == s.paused && s.sent == t.sent
  {
  }

  // What one step does to the flags of the request.
  lemma StepFlags(content: seq<Byte>, s: State, step: Step)
    requires Enabled(content, s, step)
    ensures var t := Do(content, s, step);
      && t.completed == (s.completed || step.Completed?) && t.requested == (s.requested || step.Request?)
      && (step.EgressPaused? ==> t.paused)
      && (step.EgressResumed? ==> !t.paused)
      && (!step.EgressPaused? && !step.EgressResumed? && !step.Completed? ==> t.paused == s.paused)
      && s.sent <= t.sent
  {
    match step
    case RunCallback => CallbackKeeps(s);
    case ReaderStep(i, rc) => ReaderKeeps(content, s, i, rc);
    case Request(_) =>
    case EgressPaused =>
    case EgressResumed =>
    case Completed =>
  }

  // Some pause has no resume after it.
  predicate PauseStands(steps: seq<Step>) {
    exists i :: 0 <= i < |steps| && steps[i].EgressPaused? && forall j :: i < j < |steps| ==> !steps[j].EgressResumed?
  }

  predicate NoResume(steps: seq<Step>) {
    forall j :: 0 <= j < |steps| ==> !steps[j].EgressResumed?
  }

  lemma PauseStandsAfter(steps: seq<Step>)
    requires steps != []
    ensures PauseStands(steps) <==> PauseStands(steps[1..]) || (steps[0].EgressPaused? && NoResume(steps[1..]))
    ensures NoResume(steps) <==> !steps[0].EgressResumed? && NoResume(steps[1..])
  {
    var rest := steps[1..];
    assert forall j :: 0 <= j < |rest| ==> rest[j] == steps[j + 1];
    assert forall j :: 0 < j < |steps| ==> steps[j] == rest[j - 1];
    if PauseStands(rest) {
      var i :| 0 <= i < |rest| && rest[i].EgressPaused? && forall j :: i < j < |rest| ==> !rest[j].EgressResumed?;
      assert steps[i + 1].EgressPaused?;
    }
    if PauseStands(steps) {
      var i :| 0 <= i < |steps| && steps[i].EgressPaused? && forall j :: i < j < |steps| ==> !steps[j].EgressResumed?;
      if i > 0 { assert rest[i - 1].EgressPaused?; }
    }
  }

  lemma {:induction false} RunFlags(content: seq<Byte>, s: State, steps: seq<Step>)
    requires Legal(content, s, steps)
    ensures var t := Run(content, s, steps);
      && t.completed == (s.completed || Completed in steps)
      && (!t.completed ==> (t.paused <==> PauseStands(steps) || (s.paused && NoResume(steps))))
      && s.sent <= t.sent
    decreases |steps|
  {
    if steps != [] {
      StepFlags(content, s, steps[0]);
      RunFlags(content, Do(content, s, steps[0]), steps[1..]);
      PauseStandsAfter(steps);
      assert Completed in steps <==> steps[0] == Completed || Completed in steps[1..];
    }
  }

  // The transfer is completed exactly when the server has said so; before that
  // it is paused exactly when the last egress callback was a pause.
  lemma FlagsMean(content: seq<Byte>, steps: seq<Step>)
    requires Legal(content, INIT, steps)
    ensures var s := Run(content, INIT, steps);
      && (s.completed <==> Completed in steps)
      && (Completed !in steps ==>
            (s.paused <==>
               exists i :: (0 <= i < |steps| && steps[i].EgressPaused?
                            && forall j :: i < j < |steps| ==> !steps[j].EgressResumed?)))
  {
    RunFlags(content, INIT, steps);
  }

  // What the request is answered with first.
  lemma {:induction false} FirstSent(content: seq<Byte>, s: State, steps: seq<Step>)
    requires Inv(content, s) && Legal(content, s, steps) && !s.requested
    ensures var t := Run(content, s, steps);
      && (Request(true) in steps ==> t.sent != [] && t.sent[0] == Headers)
      && (Request(false) in steps ==> t.sent != [] && t.sent[0] == Refusal)
      && (Request(true) !in steps && Request(false) !in steps ==> !t.requested)
    decreases |steps|
  {
    if steps != [] {
      var t, rest := Do(content, s, steps[0]), steps[1..];
      assert forall x :: x in steps <==> x == steps[0] || x in rest;
      assert s.sent == [] && s.readers == [] && s.queue == [];
      StepInv(content, s, steps[0]);
      if steps[0].Request? {
        RequestedOnce(content, t, rest);
        RunFlags(content, t, rest);
      } else {
        FirstSent(content, t, rest);
      }
    }
  }

  lemma {:induction false} RequestedOnce(content: seq<Byte>, s: State, steps: seq<Step>)
    requires Legal(content, s, steps) && s.requested
    ensures forall x :: x in steps ==> !x.Request?
    decreases |steps|
  {
    if steps != [] {
      StepFlags(content, s, steps[0]);
      RequestedOnce(content, Do(content, s, steps[0]), steps[1..]);
      assert forall x :: x in steps <==> x == steps[0] || x in steps[1..];
    }
  }

  // An accepted request is answered with the headers, a refused one with the
  // whole refusal and nothing else.
  lemma AnswerOfRequest(content: seq<Byte>, steps: seq<Step>)
    requires Legal(content, INIT, steps)
    ensures var sent := Run(content, INIT, steps).sent;
      && (Request(true) in steps ==> sent != [] && sent[0] == Headers)
      && (Request(false) in steps ==> sent == [Refusal])
      && (Request(true) !in steps && Request(false) !in steps ==> sent == [])
  {
    InitInv(content);
    FirstSent(content, INIT, steps);
    RunInv(content, INIT, steps);
    DeliveryIsInOrder(content, steps);
    assert Run(content, INIT, steps).sent <= Stream(Run(content, INIT, steps));
  }

  // ---------- where a run comes to rest ----------

  // A read that fails.
  predicate FailsRead(s: State, step: Step) {
    step.ReaderStep? && step.reader < |s.readers| && s.readers[step.reader].Read? && step.rc.Failed?
  }

  predicate ReadsWell(content: seq<Byte>, s: State, steps: seq<Step>)
    requires Legal(content, s, steps)
    decreases |steps|
  {
    steps != [] ==> !FailsRead(s, steps[0]) && ReadsWell(content, Do(content, s, steps[0]), steps[1..])
  }

  // Nothing on its way to the client is an abort.
  predicate NoAbort(s: State) {
    && Abort !in s.sent && SendAbort !in s.queue
    && forall pc :: pc in s.readers ==> !pc.CloseFailed? && !pc.PostAbort?
  }

  lemma CallbackNoAbort(s: State)
    requires NoAbort(s) && s.queue != []
    ensures NoAbort(OnCallback(s))
  {
    CallbackKeeps(s);
    assert s.queue[0] in s.queue && Abort !in Mark(s.queue[0]);
    assert SendAbort !in s.queue[1..];
  }

  lemma ReplaceOne(readers: seq<Pc>, i: nat, next: seq<Pc>)
    requires i < |readers|
    requires forall pc :: pc in readers ==> !pc.CloseFailed? && !pc.PostAbort?
    requires forall pc :: pc in next ==> !pc.CloseFailed? && !pc.PostAbort?
    ensures forall pc :: pc in readers[..i] + next + readers[i + 1..] ==> !pc.CloseFailed? && !pc.PostAbort?
  {
  }

  lemma NextNoAbort(content: seq<Byte>, s: State, pc: Pc, rc: ReadResult)
    requires pc.Read? ==> ReadAnswers(content, s, rc) && !rc.Failed?
    requires !pc.CloseFailed? && !pc.PostAbort?
    ensures SendAbort !in Posted(pc)
    ensures forall x :: x in Next(content, s, pc, rc) ==> !x.CloseFailed? && !x.PostAbort?
  {
  }

  lemma ReaderNoAbort(content: seq<Byte>, s: State, i: nat, rc: ReadResult)
    requires NoAbort(s) && Enabled(content, s, ReaderStep(i, rc)) && !FailsRead(s, ReaderStep(i, rc))
    ensures NoAbort(OnReader(content, s, i, rc))
  {
    var pc := s.readers[i];
    assert pc in s.readers;
    NextNoAbort(content, s, pc, rc);
    ReplaceOne(s.readers, i, Next(content, s, pc, rc));
  }

  lemma StepNoAbort(content: seq<Byte>, s: State, step: Step)
    requires NoAbort(s) && Enabled(content, s, step) && !FailsRead(s, step)
    ensures NoAbort(Do(content, s, step))
  {
    match step
    case RunCallback => CallbackNoAbort(s);
    case ReaderStep(i, rc) => ReaderNoAbort(content, s, i, rc);
    case Request(_) =>
    case EgressPaused =>
    case EgressResumed =>
    case Completed =>
  }

  lemma {:induction false} RunNoAbort(content: seq<Byte>, s: State, steps: seq<Step>)
    requires NoAbort(s) && Legal(content, s, steps) && ReadsWell(content, s, steps)
    ensures NoAbort(Run(content, s, steps))
    decreases |steps|
  {
    if steps != [] {
      StepNoAbort(content, s, steps[0]);
      RunNoAbort(content, Do(content, s, steps[0]), steps[1..]);
    }
  }

  // The client is told of an abort only when a read has failed.
  lemma AbortMeansFailure(content: seq<Byte>, steps: seq<Step>)
    requires Legal(content, INIT, steps) && ReadsWell(content, INIT, steps)
    ensures Abort !in Run(content, INIT, steps).sent
  {
    RunNoAbort(content, INIT, steps);
  }

  // A run at rest whose request was accepted and is not completed, and whose
  // last egress callback, if any, is a resume, has aborted or has sent the whole
  // file and its end; the latter when no read failed.
  lemma RestOutcome(content: seq<Byte>, steps: seq<Step>)
    requires Legal(content, INIT, steps) && Request(true) in steps && Completed !in steps
    requires forall i :: 0 <= i < |steps| && steps[i].EgressPaused? ==>
      exists j :: i < j < |steps| && steps[j].EgressResumed?
    requires forall step :: Enabled(content, Run(content, INIT, steps), step) ==> !Quiet(step)
    ensures var sent := Run(content, INIT, steps).sent;
      && (Abort in sent || (Eom in sent && BodyBytes(sent) == content))
      && (ReadsWell(content, INIT, steps) ==> Eom in sent && BodyBytes(sent) == content)
  {
    FlagsMean(content, steps);
    AnswerOfRequest(content, steps);
    QuietOutcome(content, steps);
    InitInv(content);
    RunInv(content, INIT, steps);
    if ReadsWell(content, INIT, steps) { AbortMeansFailure(content, steps); }
  }

  // And a completed one has deleted the object.
  lemma RestDeletes(content: seq<Byte>, steps: seq<Step>)
    requires Legal(content, INIT, steps) && Completed in steps
    requires forall step :: Enabled(content, Run(content, INIT, steps), step) ==> !Quiet(step)
    ensures Run(content, INIT, steps).deletions == 1
  {
    FlagsMean(content, steps);
    QuietOutcome(content, steps);
    InitInv(content);
    RunInv(content, INIT, steps);
  }

  // ---------- a pause takes effect ----------

  // The reads of a run.
  function Reads(content: seq<Byte>, s: State, steps: seq<Step>): nat
    requires Legal(content, s, steps)
    decreases |steps|
  {
    if steps == [] then 0
    else
      (if steps[0].ReaderStep? && s.readers[steps[0].reader].Read? then 1 else 0)
      + Reads(content, Do(content, s, steps[0]), steps[1..])
  }

  // A reader that finds the pause does not go on to read.
  lemma PausedReader(content: seq<Byte>, s: State, i: nat, rc: ReadResult)
    requires Inv(content, s) && s.paused && Enabled(content, s, ReaderStep(i, rc))
    ensures i == 0 && |s.readers| == 1 && OnReader(content, s, i, rc).readers != [Read]
  {
    ReaderShape(content, s, i, rc);
    ReaderFields(content, s, rc);
  }

  lemma PausedStep(content: seq<Byte>, s: State, step: Step)
    requires Inv(content, s) && s.paused && Enabled(content, s, step) && !step.EgressResumed?
    ensures var t := Do(content, s, step);
      t.paused && (t.readers == [Read] ==> s.readers == [Read] && !step.ReaderStep?)
    ensures step.ReaderStep? ==> |s.readers| == 1 && step.reader == 0
  {
    StepFlags(content, s, step);
    match step
    case RunCallback => CallbackKeeps(s);
    case ReaderStep(i, rc) => PausedReader(content, s, i, rc);
    case Request(_) =>
      var t := Do(content, s, step);
      assert s.readers == [] && (t.readers != [] ==> t.readers[0] == TestFile);
    case EgressPaused =>
    case Completed =>
  }

  lemma {:induction false} PausedReads(content: seq<Byte>, s: State, steps: seq<Step>)
    requires Inv(content, s) && s.paused && Legal(content, s, steps) && NoResume(steps)
    ensures Reads(content, s, steps) <= if s.readers == [Read] then 1 else 0
    decreases |steps|
  {
    if steps != [] {
      var t, rest := Do(content, s, steps[0]), steps[1..];
      assert forall j :: 0 <= j < |rest| ==> rest[j] == steps[j + 1];
      PausedStep(content, s, steps[0]);
      StepInv(content, s, steps[0]);
      PausedReads(content, t, rest);
      if steps[0].ReaderStep? && s.readers[0].Read? { assert s.readers == [Read]; }
    }
  }

  // After a pause, or the completion, and with no resume since, the reader reads
  // at most once more.
  lemma PauseStopsReading(content: seq<Byte>, before: seq<Step>, pause: Step, after: seq<Step>)
    requires Legal(content, INIT, before) && (pause.EgressPaused? || pause.Completed?)
    requires Enabled(content, Run(content, INIT, before), pause)
    requires Legal(content, Do(content, Run(content, INIT, before), pause), after)
    requires forall j :: 0 <= j < |after| ==> !after[j].EgressResumed?
    ensures Reads(content, Do(content, Run(content, INIT, before), pause), after) <= 1
  {
    InitInv(content);
    RunInv(content, INIT, before);
    StepInv(content, Run(content, INIT, before), pause);
    PausedReads(content, Do(content, Run(content, INIT, before), pause), after);
  }
}
