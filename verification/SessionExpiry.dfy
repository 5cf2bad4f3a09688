/** Session ids over every run: exactly when a stored id is one the server
    issued, and exactly when an id found expired is found live again. */
module SessionExpiry {
  import opened Common
  import opened Sessions
  import opened SessionSafety

  // Inside initSession.
  predicate InWindow(r: Request) {
    r.pc.Lookup? || r.pc.Save?
  }

  lemma CallElsewhere(h: Hash, w: World, id: nat, r: Request, ch: Choice)
    requires Possible(w, r, ch) && !InWindow(r)
    ensures var e := Call(h, w, id, r, ch);
      && e.tables.sessions == w.tables.sessions && !InWindow(e.request)
      && |e.entries| <= 1 && forall x :: x in e.entries ==> !x.LookedUp? && !x.Seen?
  {
  }

  // ---------- ids the server issued ----------

  predicate LookedUpBy(log: seq<Entry>, id: nat) {
    exists e :: e in log && e.LookedUp? && e.id == id
  }

  // Saved by a request whose lookup is not in the log.
  predicate SavedUnlooked(log: seq<Entry>, sid: string) {
    exists e :: e in log && e.Seen? && e.sid == sid && !LookedUpBy(log, e.id)
  }

  predicate IssuedInv(w: World) {
    && (forall e :: e in w.log && (e.LookedUp? || e.Seen?) ==> e.id in w.requests && !w.requests[e.id].pc.Lookup?)
    && (forall id :: id in w.requests && w.requests[id].pc.Save? ==>
          var sid := w.requests[id].uuid;
          sid in w.issued || sid in w.tables.sessions || !LookedUpBy(w.log, id))
    && (forall sid :: sid in w.tables.sessions ==> sid in w.issued || SavedUnlooked(w.log, sid))
  }

  // An entry that is no lookup and no save says nothing about either.
  lemma OtherEntry(log: seq<Entry>, e: Entry)
    requires !e.LookedUp? && !e.Seen?
    ensures forall id :: LookedUpBy(log + [e], id) == LookedUpBy(log, id)
    ensures forall sid :: SavedUnlooked(log, sid) ==> SavedUnlooked(log + [e], sid)
  {
    assert forall id :: LookedUpBy(log + [e], id) == LookedUpBy(log, id);
  }

  lemma LookupIssued(h: Hash, w: World, id: nat, ch: Choice)
    requires IssuedInv(w) && Enabled(w, Exec(id, ch)) && w.requests[id].pc.Lookup?
    ensures IssuedInv(Do(h, w, Exec(id, ch)))
  {
    var v := Do(h, w, Exec(id, ch));
    if ch.fault {
      assert v.log == w.log;
    } else {
      var e := LookedUp(id, w.requests[id].uuid, ch.row, w.now);
      assert v.log == w.log + [e];
      assert forall i :: LookedUpBy(v.log, i) == (i == id || LookedUpBy(w.log, i)) by { NewestIn(w.log, e); }
      forall sid | SavedUnlooked(w.log, sid) ensures SavedUnlooked(v.log, sid) {
        var x :| x in w.log && x.Seen? && x.sid == sid && !LookedUpBy(w.log, x.id);
        assert x in v.log && x.id != id;
      }
    }
  }

  lemma SaveIssued(h: Hash, w: World, id: nat, ch: Choice)
    requires IssuedInv(w) && Enabled(w, Exec(id, ch)) && w.requests[id].pc.Save?
    ensures IssuedInv(Do(h, w, Exec(id, ch)))
  {
    var v := Do(h, w, Exec(id, ch));
    if ch.fault {
      assert v.log == w.log;
    } else {
      var e := Seen(id, w.requests[id].uuid, w.now);
      assert v.log == w.log + [e];
      NewestIn(w.log, e);
      assert forall i :: LookedUpBy(v.log, i) == LookedUpBy(w.log, i);
      forall sid | SavedUnlooked(w.log, sid) ensures SavedUnlooked(v.log, sid) {
        var x :| x in w.log && x.Seen? && x.sid == sid && !LookedUpBy(w.log, x.id);
        assert x in v.log;
      }
      assert !LookedUpBy(w.log, id) ==> SavedUnlooked(v.log, e.sid);
    }
  }

  lemma StepIssued(h: Hash, w: World, step: Step)
    requires IssuedInv(w) && Enabled(w, step)
    ensures IssuedInv(Do(h, w, step))
  {
    if step.Exec? {
      var r := w.requests[step.id];
      if r.pc.Lookup? {
        LookupIssued(h, w, step.id, step.choice);
      } else if r.pc.Save? {
        SaveIssued(h, w, step.id, step.choice);
      } else {
        var e := Call(h, w, step.id, r, step.choice);
        CallElsewhere(h, w, step.id, r, step.choice);
        if e.entries == [] {
          assert w.log + e.entries == w.log;
        } else {
          OtherEntry(w.log, e.entries[0]);
          assert w.log + e.entries == w.log + [e.entries[0]];
        }
      }
    }
  }

  lemma {:induction false} RunIssued(h: Hash, w: World, steps: seq<Step>)
    requires IssuedInv(w) && Legal(h, w, steps)
    ensures IssuedInv(Run(h, w, steps))
    decreases |steps|
  {
    if steps != [] {
      StepIssued(h, w, steps[0]);
      RunIssued(h, Do(h, w, steps[0]), steps[1..]);
    }
  }

  lemma {:induction false} SeenIsStored(log: seq<Entry>, sid: string)
    ensures LastSeen(log, sid).Some? <==> exists e :: e in log && e.Seen? && e.sid == sid
    decreases |log|
  {
    if log != [] {
      var n := |log| - 1;
      SeenIsStored(log[..n], sid);
      assert forall e :: e in log <==> e in log[..n] || e == log[n];
    }
  }

  // In every run: a stored id that the server did not issue is exactly one that
  // a request with no lookup in the log has saved.  So all are issued exactly
  // when all that such requests save are.
  lemma StoredIdsIssuedIff(h: Hash, start: World, passwords: map<int, string>, steps: seq<Step>)
    requires Initial(h, start, passwords) && Legal(h, start, steps)
    ensures var w := Run(h, start, steps);
      forall sid :: sid !in w.issued ==> (sid in w.tables.sessions <==> SavedUnlooked(w.log, sid))
    ensures var w := Run(h, start, steps);
      (forall sid :: sid in w.tables.sessions ==> sid in w.issued) <==>
      (forall e :: e in w.log && e.Seen? && !LookedUpBy(w.log, e.id) ==> e.sid in w.issued)
  {
    InitialInv(h, start, passwords);
    RunInv(h, start, steps);
    RunIssued(h, start, steps);
    var w := Run(h, start, steps);
    forall sid | sid !in w.issued ensures sid in w.tables.sessions <==> SavedUnlooked(w.log, sid) {
      SeenIsStored(w.log, sid);
    }
    forall e | e in w.log && e.Seen? && !LookedUpBy(w.log, e.id) ensures SavedUnlooked(w.log, e.sid) { }
  }

  // No lookup of sid throws.
  predicate Answered(w: World, step: Step, sid: string)
    requires Enabled(w, step)
  {
    step.Exec? && w.requests[step.id].pc.Lookup? && w.requests[step.id].uuid == sid ==> !step.choice.fault
  }

  predicate AnsweredRun(h: Hash, w: World, steps: seq<Step>, sid: string)
    requires Legal(h, w, steps)
    decreases |steps|
  {
    steps != [] ==> Answered(w, steps[0], sid) && AnsweredRun(h, Do(h, w, steps[0]), steps[1..], sid)
  }

  // Only a lookup that threw leaves sid unissued with a request that saves it.
  predicate AnsweredInv(w: World, sid: string) {
    && (forall id :: id in w.requests && w.requests[id].pc.Save? && w.requests[id].uuid == sid ==>
          LookedUpBy(w.log, id) || sid in w.issued)
    && (SavedUnlooked(w.log, sid) ==> sid in w.issued)
  }

  lemma StepAnswered(h: Hash, w: World, step: Step, sid: string)
    requires IssuedInv(w) && AnsweredInv(w, sid) && Enabled(w, step) && Answered(w, step, sid)
    ensures AnsweredInv(Do(h, w, step), sid)
  {
    var v := Do(h, w, step);
    if step.Exec? {
      var r := w.requests[step.id];
      var e := Call(h, w, step.id, r, step.choice);
      if !InWindow(r) { CallElsewhere(h, w, step.id, r, step.choice); }
      if e.entries == [] {
        assert v.log == w.log;
      } else {
        assert v.log == w.log + [e.entries[0]];
        NewestIn(w.log, e.entries[0]);
        assert forall i :: LookedUpBy(w.log, i) ==> LookedUpBy(v.log, i);
        assert forall x :: x in v.log <==> x in w.log || x == e.entries[0];
        if SavedUnlooked(v.log, sid) {
          var x :| x in v.log && x.Seen? && x.sid == sid && !LookedUpBy(v.log, x.id);
          assert !LookedUpBy(w.log, x.id);
        }
      }
    }
  }

  lemma {:induction false} RunAnswered(h: Hash, w: World, steps: seq<Step>, sid: string)
    requires IssuedInv(w) && AnsweredInv(w, sid) && Legal(h, w, steps) && AnsweredRun(h, w, steps, sid)
    ensures AnsweredInv(Run(h, w, steps), sid)
    decreases |steps|
  {
    if steps != [] {
      StepIssued(h, w, steps[0]);
      StepAnswered(h, w, steps[0], sid);
      RunAnswered(h, Do(h, w, steps[0]), steps[1..], sid);
    }
  }

  // An id none of whose lookups throws is stored only if the server issued it.
  lemma StoredIdsAreIssued(h: Hash, start: World, passwords: map<int, string>, steps: seq<Step>, sid: string)
    requires Initial(h, start, passwords) && Legal(h, start, steps) && AnsweredRun(h, start, steps, sid)
    requires sid in Run(h, start, steps).tables.sessions
    ensures sid in Run(h, start, steps).issued
  {
    StoredIdsIssuedIff(h, start, passwords, steps);
    RunAnswered(h, start, steps, sid);
  }

  // ---------- the clock ----------

  predicate Timed(e: Entry) {
    e.LookedUp? || e.Seen?
  }

  predicate InTime(log: seq<Entry>) {
    forall i, j :: 0 <= i < j < |log| && Timed(log[i]) && Timed(log[j]) ==> log[i].at <= log[j].at
  }

  predicate ClockInv(w: World) {
    (forall e :: e in w.log && Timed(e) ==> e.at <= w.now) && InTime(w.log)
  }

  lemma StepClock(h: Hash, w: World, step: Step)
    requires ClockInv(w) && Enabled(w, step)
    ensures ClockInv(Do(h, w, step))
  {
    if step.Exec? {
      var r := w.requests[step.id];
      var e := Call(h, w, step.id, r, step.choice);
      if !InWindow(r) { CallElsewhere(h, w, step.id, r, step.choice); }
      assert |e.entries| <= 1 && forall x :: x in e.entries && Timed(x) ==> x.at == w.now;
    }
  }

  lemma {:induction false} RunClock(h: Hash, w: World, steps: seq<Step>)
    requires ClockInv(w) && Legal(h, w, steps)
    ensures ClockInv(Run(h, w, steps))
    decreases |steps|
  {
    if steps != [] {
      StepClock(h, w, steps[0]);
      RunClock(h, Do(h, w, steps[0]), steps[1..]);
    }
  }

  // Where LastSeen comes from.
  lemma {:induction false} LastSeenAt(log: seq<Entry>, sid: string) returns (k: nat)
    requires LastSeen(log, sid).Some?
    ensures k < |log| && log[k].Seen? && log[k].sid == sid && log[k].at == LastSeen(log, sid).value
    ensures forall x :: k < x < |log| ==> !(log[x].Seen? && log[x].sid == sid)
    decreases |log|
  {
    k := |log| - 1;
    if !(log[k].Seen? && log[k].sid == sid) {
      k := LastSeenAt(log[..|log| - 1], sid);
    }
  }

  // ---------- exactly when an id is found live again ----------

  predicate SavedWithin(log: seq<Entry>, sid: string, i: nat, k: nat, at: int) {
    i < k < |log| && log[k].Seen? && log[k].sid == sid && at < log[k].at + HOUR
  }

  lemma RecentBySave(log: seq<Entry>, sid: string, i: nat, j: nat, k: nat)
    requires InTime(log) && k < j < |log| && log[j].LookedUp? && SavedWithin(log, sid, i, k, log[j].at)
    ensures Recent(log[..j], sid, log[j].at)
  {
    SeenIsStored(log[..j], sid);
    assert log[..j][k] in log[..j];
    var last := LastSeenAt(log[..j], sid);
    assert last >= k;
    assert log[..j][last] == log[last];
  }

  lemma SaveOfRecent(log: seq<Entry>, sid: string, i: nat, j: nat) returns (k: nat)
    requires InTime(log) && i < j < |log| && log[i].LookedUp? && log[j].LookedUp?
    requires !Recent(log[..i], sid, log[i].at) && Recent(log[..j], sid, log[j].at)
    ensures k < j && SavedWithin(log, sid, i, k, log[j].at)
  {
    k := LastSeenAt(log[..j], sid);
    assert log[..j][k] == log[k];
    assert forall x :: k < x < j ==> log[..j][x] == log[x];
    if k < i {
      SeenSince(log, sid, k, i);
      assert false;
    }
  }

  // In every run, an id found missing or expired at i is found live at j exactly
  // when some request saved it between the two, less than an hour before j.
  lemma LiveAgainIff(h: Hash, start: World, passwords: map<int, string>, steps: seq<Step>, i: nat, j: nat)
    requires Initial(h, start, passwords) && Legal(h, start, steps)
    requires i < j < |Run(h, start, steps).log|
    requires var log := Run(h, start, steps).log;
      log[i].LookedUp? && log[j].LookedUp? && log[i].sid == log[j].sid && log[i].found.None?
    ensures var log := Run(h, start, steps).log;
      log[j].found.Some? <==>
        exists k :: i < k < j && log[k].Seen? && log[k].sid == log[i].sid && log[j].at < log[k].at + 3600
  {
    InitialInv(h, start, passwords);
    RunInv(h, start, steps);
    RunClock(h, start, steps);
    var log := Run(h, start, steps).log;
    var sid := log[i].sid;
    HistoryAt(log, i);
    HistoryAt(log, j);
    if log[j].found.Some? {
      var k := SaveOfRecent(log, sid, i, j);
      assert i < k < j && log[k].Seen? && log[k].sid == sid && log[j].at < log[k].at + 3600;
    } else {
      forall k | i < k < j && log[k].Seen? && log[k].sid == sid ensures log[j].at >= log[k].at + 3600 {
        if log[j].at < log[k].at + 3600 { RecentBySave(log, sid, i, j, k); }
      }
    }
  }

  // The save at last is the last one before i too.
  lemma {:induction false} SeenSince(log: seq<Entry>, sid: string, last: nat, i: nat)
    requires last < i <= |log| && log[last].Seen? && log[last].sid == sid
    requires forall k :: last < k < i ==> !(log[k].Seen? && log[k].sid == sid)
    ensures LastSeen(log[..i], sid) == Some(log[last].at)
    decreases i
  {
    assert log[..i][..i - 1] == log[..i - 1];
    if last < i - 1 { SeenSince(log, sid, last, i - 1); }
  }

  lemma {:induction false} UnseenSince(log: seq<Entry>, sid: string, n: nat)
    requires n <= |log|
    requires forall i :: n <= i < |log| ==> !(log[i].Seen? && log[i].sid == sid)
    ensures LastSeen(log, sid) == LastSeen(log[..n], sid)
    decreases |log|
  {
    if n == |log| {
      assert log[..n] == log;
    } else {
      assert log[..|log| - 1][..n] == log[..n];
      UnseenSince(log[..|log| - 1], sid, n);
    }
  }

  // An hour in which no request saves an id ends with the id not live, whatever
  // else runs.
  lemma LapsesUnseen(h: Hash, w: World, steps: seq<Step>, sid: string)
    requires Inv(w) && Legal(h, w, steps) && Elapsed(steps) >= 3600
    requires var log := Run(h, w, steps).log;
      forall i :: |w.log| <= i < |log| ==> !(log[i].Seen? && log[i].sid == sid)
    ensures var v := Run(h, w, steps);
      sid in v.tables.sessions ==> v.tables.sessions[sid] + 3600 <= v.now
  {
    var v := Run(h, w, steps);
    RunInv(h, w, steps);
    RunGrows(h, w, steps);
    ClockOfRun(h, w, steps);
    UnseenSince(v.log, sid, |w.log|);
    assert v.log[..|w.log|] == w.log;
  }

  // ---------- whose save that is ----------

  // A request ends its lookup with the id it found live, or with an id that had
  // not been saved.
  predicate Kept(before: seq<Entry>, e: Entry, sid: string)
    requires e.LookedUp?
  {
    if e.found.Some? then e.sid == sid else LastSeen(before, sid).None?
  }

  predicate Traced(log: seq<Entry>, id: nat, sid: string) {
    log == [] ||
    (var e, before := log[|log| - 1], log[..|log| - 1];
     Traced(before, id, sid) && (e.LookedUp? && e.id == id ==> Kept(before, e, sid)))
  }

  predicate AllTraced(log: seq<Entry>) {
    log == [] ||
    (var e, before := log[|log| - 1], log[..|log| - 1];
     AllTraced(before) && (e.Seen? ==> Traced(before, e.id, e.sid)))
  }

  predicate TraceInv(w: World) {
    && (forall id :: id in w.requests && w.requests[id].pc.Save? ==> Traced(w.log, id, w.requests[id].uuid))
    && AllTraced(w.log)
  }

  // A request with no lookup in the log may end with any id.
  lemma {:induction false} UntracedIsTraced(log: seq<Entry>, id: nat, sid: string)
    requires !LookedUpBy(log, id)
    ensures Traced(log, id, sid)
    decreases |log|
  {
    if log != [] {
      assert log[|log| - 1] in log;
      UntracedIsTraced(log[..|log| - 1], id, sid);
    }
  }

  lemma FreshIsUnseen(w: World, sid: string)
    requires Inv(w) && sid !in w.tables.sessions
    ensures LastSeen(w.log, sid).None?
  {
  }

  lemma LookupTrace(h: Hash, w: World, id: nat, ch: Choice)
    requires TraceInv(w) && Enabled(w, Exec(id, ch)) && w.requests[id].pc.Lookup?
    requires !LookedUpBy(w.log, id) && (!ch.fault ==> LastSeen(w.log, ch.uuid).None?)
    ensures TraceInv(Do(h, w, Exec(id, ch)))
  {
    var v := Do(h, w, Exec(id, ch));
    UntracedIsTraced(w.log, id, v.requests[id].uuid);
    if ch.fault {
      assert v.log == w.log;
    } else {
      var e := LookedUp(id, w.requests[id].uuid, ch.row, w.now);
      assert v.log == w.log + [e];
      Snoc(w.log, e);
    }
  }

  // An entry that is no lookup.
  lemma TraceKept(w: World, id: nat, e: Effect)
    requires TraceInv(w) && id in w.requests && |e.entries| <= 1
    requires forall x :: x in e.entries ==> !x.LookedUp? && (x.Seen? ==> Traced(w.log, x.id, x.sid))
    requires !e.request.pc.Save?
    ensures TraceInv(Apply(w, id, e))
  {
    if e.entries == [] {
      assert w.log + e.entries == w.log;
    } else {
      assert w.log + e.entries == w.log + [e.entries[0]];
      Snoc(w.log, e.entries[0]);
    }
  }

  lemma StepTrace(h: Hash, w: World, step: Step)
    requires Inv(w) && IssuedInv(w) && TraceInv(w) && Enabled(w, step)
    ensures TraceInv(Do(h, w, step))
  {
    match step
    case Tick(_) =>
    case Arrive(id, cookie, action, uuid) =>
      UntracedIsTraced(w.log, id, Begin(cookie, action, uuid).uuid);
    case Exec(id, ch) =>
      var r := w.requests[id];
      if r.pc.Lookup? {
        if !ch.fault { FreshIsUnseen(w, ch.uuid); }
        LookupTrace(h, w, id, ch);
      } else {
        if !r.pc.Save? { CallElsewhere(h, w, id, r, ch); }
        TraceKept(w, id, Call(h, w, id, r, ch));
      }
  }

  lemma {:induction false} RunTrace(h: Hash, w: World, steps: seq<Step>)
    requires Inv(w) && IssuedInv(w) && TraceInv(w) && Legal(h, w, steps)
    ensures TraceInv(Run(h, w, steps))
    decreases |steps|
  {
    if steps != [] {
      StepInv(h, w, steps[0]);
      StepIssued(h, w, steps[0]);
      StepTrace(h, w, steps[0]);
      RunTrace(h, Do(h, w, steps[0]), steps[1..]);
    }
  }

  lemma {:induction false} TracedAt(log: seq<Entry>, k: nat, m: nat)
    requires AllTraced(log) && m < k < |log| && log[k].Seen? && log[m].LookedUp? && log[m].id == log[k].id
    ensures Kept(log[..m], log[m], log[k].sid)
    decreases |log|
  {
    var n := |log| - 1;
    if k < n {
      assert log[..n][..m] == log[..m];
      TracedAt(log[..n], k, m);
    } else {
      KeptAt(log[..n], log[k].id, log[k].sid, m);
      assert log[..n][..m] == log[..m];
    }
  }

  lemma {:induction false} KeptAt(log: seq<Entry>, id: nat, sid: string, m: nat)
    requires Traced(log, id, sid) && m < |log| && log[m].LookedUp? && log[m].id == id
    ensures Kept(log[..m], log[m], sid)
    decreases |log|
  {
    if m < |log| - 1 {
      assert log[..|log| - 1][..m] == log[..m];
      KeptAt(log[..|log| - 1], id, sid, m);
    }
  }

  // After i found an id expired, the first request to save it again had made its
  // lookup before i, or no lookup of its was ever answered.
  lemma RevivingSave(h: Hash, start: World, passwords: map<int, string>, steps: seq<Step>, i: nat, k: nat)
    requires Initial(h, start, passwords) && Legal(h, start, steps)
    requires i < k < |Run(h, start, steps).log|
    requires var log := Run(h, start, steps).log;
      && log[i].LookedUp? && log[i].found.None? && LastSeen(log[..i], log[i].sid).Some?
      && log[k].Seen? && log[k].sid == log[i].sid
      && forall x :: i < x < k ==> !(log[x].Seen? && log[x].sid == log[i].sid)
    ensures var log := Run(h, start, steps).log;
      forall m :: 0 <= m < k && log[m].LookedUp? && log[m].id == log[k].id ==> m < i
  {
    InitialInv(h, start, passwords);
    RunTrace(h, start, steps);
    var log := Run(h, start, steps).log;
    var sid := log[i].sid;
    forall m | 0 <= m < k && log[m].LookedUp? && log[m].id == log[k].id ensures m < i {
      if i <= m {
        TracedAt(log, k, m);
        SeenPersists(log, sid, i, m);
        if log[m].found.Some? { LiveAgainIff(h, start, passwords, steps, i, m); }
      }
    }
  }

  lemma {:induction false} SeenPersists(log: seq<Entry>, sid: string, i: nat, m: nat)
    requires i <= m <= |log| && LastSeen(log[..i], sid).Some?
    ensures LastSeen(log[..m], sid).Some?
    decreases m
  {
    if i < m {
      assert log[..m][..m - 1] == log[..m - 1];
      SeenPersists(log, sid, i, m - 1);
    }
  }

  // So an id found expired stays expired while every later save of it is by a
  // request that had looked up after the expiry was found.
  lemma ExpiredUntilRevived(h: Hash, start: World, passwords: map<int, string>, steps: seq<Step>, i: nat, j: nat)
    requires Initial(h, start, passwords) && Legal(h, start, steps)
    requires i < j < |Run(h, start, steps).log|
    requires var log := Run(h, start, steps).log;
      && log[i].LookedUp? && log[i].found.None? && LastSeen(log[..i], log[i].sid).Some?
      && log[j].LookedUp? && log[j].sid == log[i].sid
      && forall k :: i < k < j && log[k].Seen? && log[k].sid == log[i].sid ==>
           exists m :: i < m < k && log[m].LookedUp? && log[m].id == log[k].id
    ensures Run(h, start, steps).log[j].found.None?
  {
    var log := Run(h, start, steps).log;
    LiveAgainIff(h, start, passwords, steps, i, j);
    if log[j].found.Some? {
      var k :| i < k < j && log[k].Seen? && log[k].sid == log[i].sid && log[j].at < log[k].at + 3600;
      var first := FirstSave(log, log[i].sid, i, k);
      RevivingSave(h, start, passwords, steps, i, first);
    }
  }

  lemma {:induction false} FirstSave(log: seq<Entry>, sid: string, i: nat, k: nat) returns (first: nat)
    requires i < k < |log| && log[k].Seen? && log[k].sid == sid
    ensures i < first <= k && log[first].Seen? && log[first].sid == sid
    ensures forall x :: i < x < first ==> !(log[x].Seen? && log[x].sid == sid)
    decreases k
  {
    if x: nat :| i < x < k && log[x].Seen? && log[x].sid == sid {
      first := FirstSave(log, sid, i, x);
    } else {
      first := k;
    }
  }

  // ---------- which expired ids can be revived ----------

  // A request past its lookup that will save sid.
  predicate UnderWay(w: World, id: nat, sid: string) {
    id in w.requests && w.requests[id].pc.Save? && w.requests[id].uuid == sid
  }

  predicate Dead(w: World, sid: string) {
    sid in w.tables.sessions && !Live(w.tables, w.now, sid)
  }

  predicate Revives(h: Hash, w: World, steps: seq<Step>, sid: string) {
    Legal(h, w, steps) && AnsweredRun(h, w, steps, sid) && !Dead(Run(h, w, steps), sid)
  }

  lemma StaysDead(h: Hash, w: World, step: Step, sid: string)
    requires Dead(w, sid) && Enabled(w, step) && Answered(w, step, sid)
    requires forall id :: id in w.requests ==> !UnderWay(w, id, sid)
    ensures var v := Do(h, w, step);
      Dead(v, sid) && forall id :: id in v.requests ==> !UnderWay(v, id, sid)
  {
    var v := Do(h, w, step);
    if step.Exec? {
      var r := w.requests[step.id];
      if !InWindow(r) { CallElsewhere(h, w, step.id, r, step.choice); }
      assert Dead(v, sid) && !UnderWay(v, step.id, sid);
      assert forall id :: id in v.requests && id != step.id ==> v.requests[id] == w.requests[id];
    }
  }

  lemma {:induction false} NobodyRevives(h: Hash, w: World, steps: seq<Step>, sid: string)
    requires Dead(w, sid) && Legal(h, w, steps) && AnsweredRun(h, w, steps, sid)
    requires forall id :: id in w.requests ==> !UnderWay(w, id, sid)
    ensures Dead(Run(h, w, steps), sid)
    decreases |steps|
  {
    if steps != [] {
      StaysDead(h, w, steps[0], sid);
      NobodyRevives(h, Do(h, w, steps[0]), steps[1..], sid);
    }
  }

  lemma {:induction false} NewString(taken: set<string>) returns (s: string)
    ensures s !in taken && s != ""
    ensures forall t :: t in taken ==> |t| < |s|
    decreases taken
  {
    if taken == {} {
      s := "u";
    } else {
      var t :| t in taken;
      s := NewString(taken - {t});
      if |t| >= |s| { s := t + "u"; }
    }
  }

  // Of an expired id, while no lookup of it throws: it can be made live again
  // exactly when some request is past its lookup with it.
  lemma RevivableIff(h: Hash, w: World, sid: string)
    requires Dead(w, sid)
    ensures (exists steps :: Revives(h, w, steps, sid)) <==> (exists id :: id in w.requests && UnderWay(w, id, sid))
  {
    if exists id :: id in w.requests && UnderWay(w, id, sid) {
      var id :| id in w.requests && UnderWay(w, id, sid);
      var uuid := NewString(w.issued + w.tables.sessions.Keys);
      var step := Exec(id, Choice(false, None, None, uuid, "s", 0));
      var v := Do(h, w, step);
      assert v.tables == SaveSession(w.tables, sid, w.now) && v.now == w.now;
      assert !Dead(v, sid);
      OneStep(h, w, step);
      assert Revives(h, w, [step], sid);
    } else {
      forall steps | Legal(h, w, steps) && AnsweredRun(h, w, steps, sid) ensures Dead(Run(h, w, steps), sid) {
        NobodyRevives(h, w, steps, sid);
      }
    }
  }

  // ---------- runs in which start-ups of one id do not overlap ----------

  // id is starting up with the session id sid.
  predicate Starting(w: World, id: nat, sid: string) {
    id in w.requests && InWindow(w.requests[id]) && w.requests[id].uuid == sid
  }

  predicate Alone(w: World, sid: string) {
    forall a, b :: a in w.requests && b in w.requests && Starting(w, a, sid) && Starting(w, b, sid) ==> a == b
  }

  // No lookup of sid throws, and no two start-ups of sid are under way at once.
  predicate OrderlyRun(h: Hash, w: World, steps: seq<Step>, sid: string)
    requires Legal(h, w, steps)
    decreases |steps|
  {
    steps != [] ==>
      && Answered(w, steps[0], sid) && Alone(Do(h, w, steps[0]), sid)
      && OrderlyRun(h, Do(h, w, steps[0]), steps[1..], sid)
  }

  // Found expired by some lookup after it had been seen.
  predicate Expired(log: seq<Entry>, sid: string) {
    log != [] &&
    (var e, before := log[|log| - 1], log[..|log| - 1];
     || (e.LookedUp? && e.sid == sid && e.found.None? && LastSeen(before, sid).Some?)
     || Expired(before, sid))
  }

  predicate FoundWithin(log: seq<Entry>, id: nat, sid: string, from: int) {
    exists e :: e in log && e.LookedUp? && e.id == id && e.sid == sid && e.found.Some? && from <= e.at < from + HOUR
  }

  // A save of sid, after log.
  predicate Lawful(log: seq<Entry>, e: Entry, sid: string) {
    e.Seen? && e.sid == sid ==>
      && !Expired(log, sid)
      && (LastSeen(log, sid).Some? ==> FoundWithin(log, e.id, sid, LastSeen(log, sid).value))
  }

  predicate AllLawful(log: seq<Entry>, sid: string) {
    log == [] || (AllLawful(log[..|log| - 1], sid) && Lawful(log[..|log| - 1], log[|log| - 1], sid))
  }

  function Stored(w: World, sid: string): Option<int> {
    if sid in w.tables.sessions then Some(w.tables.sessions[sid]) else None
  }

  // A request about to save sid, whose row was last stored at stored.
  predicate SaverOk(log: seq<Entry>, stored: Option<int>, id: nat, sid: string) {
    !Expired(log, sid) && (stored.Some? ==> FoundWithin(log, id, sid, stored.value))
  }

  predicate ExpiryInv(w: World, sid: string) {
    && (forall id :: id in w.requests && w.requests[id].pc.Save? && w.requests[id].uuid == sid ==>
          SaverOk(w.log, Stored(w, sid), id, sid))
    && (Expired(w.log, sid) ==> Stored(w, sid).Some? && Stored(w, sid).value + HOUR <= w.now)
    && AllLawful(w.log, sid)
  }

  // The part of Inv that concerns the row of sid.
  predicate StoredAsSeen(w: World, sid: string) {
    LastSeen(w.log, sid) == Stored(w, sid) && (Stored(w, sid).Some? ==> Stored(w, sid).value <= w.now)
  }

  // Whether e finds sid expired.
  predicate Expires(log: seq<Entry>, e: Entry, sid: string) {
    e.LookedUp? && e.sid == sid && e.found.None? && LastSeen(log, sid).Some?
  }

  lemma ExpiredSnoc(log: seq<Entry>, e: Entry, sid: string)
    ensures Expired(log + [e], sid) <==> Expired(log, sid) || Expires(log, e, sid)
    ensures AllLawful(log + [e], sid) <==> AllLawful(log, sid) && Lawful(log, e, sid)
  {
    Snoc(log, e);
  }

  lemma SaverSnoc(log: seq<Entry>, stored: Option<int>, e: Entry, id: nat, sid: string)
    requires SaverOk(log, stored, id, sid) && !Expires(log, e, sid)
    ensures SaverOk(log + [e], stored, id, sid)
  {
    ExpiredSnoc(log, e, sid);
  }

  // The request that made the lookup e, if it goes on to save sid.
  lemma FinderOk(w: World, e: Entry, sid: string)
    requires StoredAsSeen(w, sid) && e.LookedUp? && e.at == w.now
    requires Expired(w.log, sid) ==> Stored(w, sid).Some? && Stored(w, sid).value + HOUR <= w.now
    requires if e.found.Some? then e.sid == sid && Live(w.tables, w.now, sid) else Stored(w, sid).None?
    ensures SaverOk(w.log + [e], Stored(w, sid), e.id, sid)
  {
    ExpiredSnoc(w.log, e, sid);
    NewestIn(w.log, e);
  }

  lemma LookupExpiry(h: Hash, w: World, id: nat, ch: Choice, sid: string)
    requires StoredAsSeen(w, sid) && ExpiryInv(w, sid) && Alone(w, sid)
    requires Enabled(w, Exec(id, ch)) && Answered(w, Exec(id, ch), sid) && w.requests[id].pc.Lookup?
    ensures ExpiryInv(Do(h, w, Exec(id, ch)), sid)
  {
    var r := w.requests[id];
    var v := Do(h, w, Exec(id, ch));
    if ch.fault {
      assert v.log == w.log && Stored(v, sid) == Stored(w, sid);
    } else {
      var e := LookedUp(id, r.uuid, ch.row, w.now);
      assert v.log == w.log + [e] && Stored(v, sid) == Stored(w, sid);
      ExpiredSnoc(w.log, e, sid);
      forall a | a in v.requests && v.requests[a].pc.Save? && v.requests[a].uuid == sid
        ensures SaverOk(v.log, Stored(v, sid), a, sid)
      {
        if a == id {
          FinderOk(w, e, sid);
        } else {
          assert Starting(w, a, sid) && !Starting(w, id, sid);
          SaverSnoc(w.log, Stored(w, sid), e, a, sid);
        }
      }
    }
  }

  lemma ElsewhereExpiry(w: World, id: nat, e: Effect, sid: string)
    requires ExpiryInv(w, sid) && id in w.requests
    requires e.tables.sessions == w.tables.sessions && !InWindow(e.request)
    requires |e.entries| <= 1 && forall x :: x in e.entries ==> !x.LookedUp? && !x.Seen?
    ensures ExpiryInv(Apply(w, id, e), sid)
  {
    var v := Apply(w, id, e);
    assert Stored(v, sid) == Stored(w, sid);
    if e.entries == [] {
      assert v.log == w.log;
    } else {
      var x := e.entries[0];
      assert v.log == w.log + [x];
      ExpiredSnoc(w.log, x, sid);
      forall a | a in v.requests && v.requests[a].pc.Save? && v.requests[a].uuid == sid
        ensures SaverOk(v.log, Stored(v, sid), a, sid)
      {
        SaverSnoc(w.log, Stored(w, sid), x, a, sid);
      }
    }
  }

  // The save of a request that may.
  lemma SaveLawful(w: World, id: nat, sid: string)
    requires StoredAsSeen(w, sid) && SaverOk(w.log, Stored(w, sid), id, sid)
    ensures Lawful(w.log, Seen(id, sid, w.now), sid)
  {
  }

  lemma SaveExpiry(w: World, id: nat, sid: string)
    requires StoredAsSeen(w, sid) && ExpiryInv(w, sid) && Alone(w, sid)
    requires id in w.requests && w.requests[id].pc.Save?
    ensures ExpiryInv(Apply(w, id, DoSave(w, id, w.requests[id])), sid)
  {
    var r := w.requests[id];
    var v := Apply(w, id, DoSave(w, id, r));
    var e := Seen(id, r.uuid, w.now);
    assert v.log == w.log + [e] && !InWindow(v.requests[id]);
    ExpiredSnoc(w.log, e, sid);
    if r.uuid == sid {
      SaveLawful(w, id, sid);
      assert forall a :: Starting(w, a, sid) ==> a == id by { assert Starting(w, id, sid); }
      assert forall a :: a in v.requests && a != id ==> v.requests[a] == w.requests[a];
    } else {
      assert Stored(v, sid) == Stored(w, sid);
      forall a | a in v.requests && v.requests[a].pc.Save? && v.requests[a].uuid == sid
        ensures SaverOk(v.log, Stored(v, sid), a, sid)
      {
        SaverSnoc(w.log, Stored(w, sid), e, a, sid);
      }
    }
  }

  lemma StepExpiry(h: Hash, w: World, step: Step, sid: string)
    requires Inv(w) && ExpiryInv(w, sid) && Alone(w, sid) && Enabled(w, step) && Answered(w, step, sid)
    ensures ExpiryInv(Do(h, w, step), sid)
  {
    assert StoredAsSeen(w, sid);
    match step
    case Tick(_) =>
    case Arrive(id, cookie, _, uuid) =>
    case Exec(id, ch) =>
      if w.requests[id].pc.Lookup? {
        LookupExpiry(h, w, id, ch, sid);
      } else if w.requests[id].pc.Save? && !ch.fault {
        SaveExpiry(w, id, sid);
      } else {
        if !w.requests[id].pc.Save? { CallElsewhere(h, w, id, w.requests[id], ch); }
        ElsewhereExpiry(w, id, Call(h, w, id, w.requests[id], ch), sid);
      }
  }

  lemma {:induction false} RunExpiry(h: Hash, w: World, steps: seq<Step>, sid: string)
    requires Inv(w) && ExpiryInv(w, sid) && Alone(w, sid) && Legal(h, w, steps) && OrderlyRun(h, w, steps, sid)
    ensures ExpiryInv(Run(h, w, steps), sid)
    decreases |steps|
  {
    if steps != [] {
      StepInv(h, w, steps[0]);
      StepExpiry(h, w, steps[0], sid);
      RunExpiry(h, Do(h, w, steps[0]), steps[1..], sid);
    }
  }

  lemma {:induction false} LawfulAt(log: seq<Entry>, sid: string, i: nat)
    requires AllLawful(log, sid) && i < |log|
    ensures Lawful(log[..i], log[i], sid)
    decreases |log|
  {
    if i < |log| - 1 {
      LawfulAt(log[..|log| - 1], sid, i);
      assert log[..|log| - 1][..i] == log[..i];
    }
  }

  lemma {:induction false} ExpiredBy(log: seq<Entry>, i: nat)
    requires i < |log| && log[i].LookedUp? && log[i].found.None? && LastSeen(log[..i], log[i].sid).Some?
    ensures Expired(log, log[i].sid)
    decreases |log|
  {
    if i < |log| - 1 {
      assert log[..|log| - 1][..i] == log[..i];
      ExpiredBy(log[..|log| - 1], i);
    }
  }

  // In such a run an id found expired is never saved, so never found live, again.
  lemma ExpiredForGood(h: Hash, start: World, passwords: map<int, string>, steps: seq<Step>, i: nat, j: nat)
    requires Initial(h, start, passwords) && Legal(h, start, steps)
    requires i < j < |Run(h, start, steps).log|
    requires var log := Run(h, start, steps).log;
      && log[i].LookedUp? && log[i].found.None? && LastSeen(log[..i], log[i].sid).Some?
      && OrderlyRun(h, start, steps, log[i].sid)
    ensures var log := Run(h, start, steps).log;
      && !(log[j].Seen? && log[j].sid == log[i].sid)
      && (log[j].LookedUp? && log[j].sid == log[i].sid ==> log[j].found.None?)
  {
    InitialInv(h, start, passwords);
    var log := Run(h, start, steps).log;
    var sid := log[i].sid;
    RunExpiry(h, start, steps, sid);
    forall k | i < k < |log| ensures !(log[k].Seen? && log[k].sid == sid) {
      LawfulAt(log, sid, k);
      assert log[..k][..i] == log[..i];
      ExpiredBy(log[..k], i);
    }
    if log[j].LookedUp? && log[j].sid == sid {
      ExpiredUntilRevived(h, start, passwords, steps, i, j);
    }
  }

  // And a request that saves an id again found it live less than an hour after
  // the save before.
  lemma KeptWithinTheHour(h: Hash, start: World, passwords: map<int, string>, steps: seq<Step>, j: nat) returns (k: nat)
    requires Initial(h, start, passwords) && Legal(h, start, steps)
    requires j < |Run(h, start, steps).log|
    requires var log := Run(h, start, steps).log;
      log[j].Seen? && LastSeen(log[..j], log[j].sid).Some? && OrderlyRun(h, start, steps, log[j].sid)
    ensures var log := Run(h, start, steps).log;
      var before := LastSeen(log[..j], log[j].sid).value;
      && k < j && log[k].LookedUp? && log[k].id == log[j].id && log[k].sid == log[j].sid && log[k].found.Some?
      && before <= log[k].at < before + 3600
  {
    InitialInv(h, start, passwords);
    var log := Run(h, start, steps).log;
    var sid := log[j].sid;
    RunExpiry(h, start, steps, sid);
    LawfulAt(log, sid, j);
    var before := LastSeen(log[..j], sid).value;
    var e :| e in log[..j] && e.LookedUp? && e.id == log[j].id && e.sid == sid && e.found.Some?
      && before <= e.at < before + HOUR;
    k :| k < j && log[..j][k] == e;
  }

  // ---------- inputs on which the conditions fail ----------

  // A lookup that throws leaves the client's id in place, and it is stored.
  lemma FaultStoresClientId(h: Hash, start: World, passwords: map<int, string>, sid: string, uuid: string)
      returns (steps: seq<Step>)
    requires Initial(h, start, passwords) && sid != "" && uuid != "" && sid != uuid
    ensures Legal(h, start, steps)
    ensures sid in Run(h, start, steps).tables.sessions && sid !in Run(h, start, steps).issued
  {
    var lost := Choice(true, None, None, uuid, "s", 0);
    var kept := Choice(false, None, None, uuid, "s", 0);
    var s0, s1, s2 := Arrive(0, sid, Other, uuid), Exec(0, lost), Exec(0, kept);
    var w1 := Do(h, start, s0);
    var w2 := Do(h, w1, s1);
    var w3 := Do(h, w2, s2);
    steps := [s0, s1, s2];
    RunOfThree(h, start, s0, s1, s2);
  }

  lemma RunOfThree(h: Hash, w: World, a: Step, b: Step, c: Step)
    requires Enabled(w, a) && Enabled(Do(h, w, a), b) && Enabled(Do(h, Do(h, w, a), b), c)
    ensures Legal(h, w, [a, b, c]) && Run(h, w, [a, b, c]) == Do(h, Do(h, Do(h, w, a), b), c)
  {
    assert Legal(h, w, []) && Run(h, w, []) == w;
    Extend(h, w, [], a);
    assert [] + [a] == [a];
    Extend(h, w, [a], b);
    assert [a] + [b] == [a, b];
    Extend(h, w, [a, b], c);
    assert [a, b] + [c] == [a, b, c];
  }

  // A request arrives with the cookie sid and looks it up.
  lemma ArriveAndLookUp(h: Hash, start: World, steps: seq<Step>, id: nat, sid: string, row: Option<Option<int>>,
                        uuid: string)
      returns (more: seq<Step>)
    requires Legal(h, start, steps)
    requires var w := Run(h, start, steps);
      id !in w.requests && sid != "" && FreshUuid(w, uuid) && SessionRow(w.tables, w.now, sid, row)
    ensures Legal(h, start, more)
    ensures var w, v := Run(h, start, steps), Run(h, start, more);
      && v.tables == w.tables && v.now == w.now
      && v.log == w.log + [LookedUp(id, sid, row, w.now)]
      && v.issued == w.issued + (if row.None? then {uuid} else {})
      && v.requests.Keys == w.requests.Keys + {id}
      && (forall i :: i in w.requests ==> v.requests[i] == w.requests[i])
      && (row == Some(None) ==> v.requests[id] == Request(Other, sid, None, Save))
  {
    var w := Run(h, start, steps);
    var arrive, look := Arrive(id, sid, Other, uuid), Exec(id, Choice(false, row, None, uuid, "s", 0));
    Extend(h, start, steps, arrive);
    Extend(h, start, steps + [arrive], look);
    more := steps + [arrive] + [look];
  }

  // A request saves its session.
  lemma SaveStep(h: Hash, start: World, steps: seq<Step>, id: nat, uuid: string) returns (more: seq<Step>)
    requires Legal(h, start, steps)
    requires var w := Run(h, start, steps);
      id in w.requests && w.requests[id] == Request(Other, w.requests[id].uuid, None, Save) && FreshUuid(w, uuid)
    ensures Legal(h, start, more)
    ensures var w, v := Run(h, start, steps), Run(h, start, more);
      && v.tables == SaveSession(w.tables, w.requests[id].uuid, w.now) && v.now == w.now
      && v.log == w.log + [Seen(id, w.requests[id].uuid, w.now)]
      && v.issued == w.issued && v.requests.Keys == w.requests.Keys
  {
    var step := Exec(id, Choice(false, None, None, uuid, "s", 0));
    Extend(h, start, steps, step);
    more := steps + [step];
  }

  lemma TickStep(h: Hash, start: World, steps: seq<Step>, seconds: nat) returns (more: seq<Step>)
    requires Legal(h, start, steps)
    ensures Legal(h, start, more)
    ensures Run(h, start, more) == Run(h, start, steps).(now := Run(h, start, steps).now + seconds)
  {
    Extend(h, start, steps, Tick(seconds));
    more := steps + [Tick(seconds)];
  }

  // Request 0 stores an id; just within the hour request 1 finds it live, and
  // then the hour is over.
  lemma Overlap(h: Hash, start: World, passwords: map<int, string>) returns (steps: seq<Step>)
    requires Initial(h, start, passwords)
    ensures Legal(h, start, steps)
    ensures var w := Run(h, start, steps);
      && w.log == [Seen(0, "a", start.now), LookedUp(1, "a", Some(None), start.now + HOUR - 1)]
      && w.tables.sessions == map["a" := start.now] && w.tables.userSessions == map[] && w.now == start.now + HOUR
      && w.issued == {"a"} && w.requests.Keys == {0, 1} && w.requests[1] == Request(Other, "a", None, Save)
  {
    var arrive := Arrive(0, "", Other, "a");
    Extend(h, start, [], arrive);
    assert [] + [arrive] == [arrive];
    steps := SaveStep(h, start, [arrive], 0, "b");
    steps := TickStep(h, start, steps, HOUR - 1);
    steps := ArriveAndLookUp(h, start, steps, 1, "a", Some(None), "b");
    steps := TickStep(h, start, steps, 1);
  }

  // Start-ups that overlap: request 2 finds the id expired, the save of request
  // 1 revives it, and request 3 finds it live.
  lemma OverlapRevives(h: Hash, start: World, passwords: map<int, string>) returns (steps: seq<Step>, i: nat, j: nat)
    requires Initial(h, start, passwords)
    ensures Legal(h, start, steps) && i < j < |Run(h, start, steps).log|
    ensures var log := Run(h, start, steps).log;
      && log[i].LookedUp? && log[i].found.None? && LastSeen(log[..i], log[i].sid).Some?
      && log[j].LookedUp? && log[j].sid == log[i].sid && log[j].found.Some?
  {
    steps := Overlap(h, start, passwords);
    ghost var w := Run(h, start, steps);
    steps := ArriveAndLookUp(h, start, steps, 2, "a", None, "b");
    steps := SaveStep(h, start, steps, 1, "c");
    steps := ArriveAndLookUp(h, start, steps, 3, "a", Some(None), "c");
    i, j := 2, 4;
    assert Run(h, start, steps).log[..2] == w.log;
    assert w.log[..1] == [Seen(0, "a", start.now)];
  }
}
