/** What every interleaved run of requests keeps: who is logged in where, which
    CSRF key is current, and what had to happen before each entry of the log. */
module SessionSafety {
  import opened Common
  import opened Sessions

  // ---------- reading the log ----------

  // Logged in on sid, and not logged out since.
  predicate Active(log: seq<Entry>, u: int, sid: string) {
    log != [] &&
    (var e := log[|log| - 1];
     || (e.LoggedIn? && e.uid == u && e.sid == sid)
     || (!(e.LoggedOut? && e.uid == u && e.sid == sid) && Active(log[..|log| - 1], u, sid)))
  }

  // The key stored last while the pair has been logged in.
  function Key(log: seq<Entry>, u: int, sid: string): Option<string> {
    if log == [] then None
    else
      var e, before := log[|log| - 1], log[..|log| - 1];
      if e.LoggedOut? && e.uid == u && e.sid == sid then None
      else if e.KeyStored? && e.uid == u && e.sid == sid && Active(before, u, sid) then Some(e.key)
      else Key(before, u, sid)
  }

  function LastSeen(log: seq<Entry>, sid: string): Option<int> {
    if log == [] then None
    else
      var e := log[|log| - 1];
      if e.Seen? && e.sid == sid then Some(e.at) else LastSeen(log[..|log| - 1], sid)
  }

  function Password(initial: map<int, string>, log: seq<Entry>, u: int): Option<string> {
    if log == [] then (if u in initial then Some(initial[u]) else None)
    else
      var e := log[|log| - 1];
      if (e.PasswordSet? || e.UserAdded?) && e.uid == u then Some(e.plain) else Password(initial, log[..|log| - 1], u)
  }

  // Active, spelled out: some login of the pair with no logout after it.
  lemma {:induction false} ActiveMeans(log: seq<Entry>, u: int, sid: string)
    ensures Active(log, u, sid) <==>
      exists i :: 0 <= i < |log| && log[i].LoggedIn? && log[i].uid == u && log[i].sid == sid
        && forall j :: i < j < |log| ==> !(log[j].LoggedOut? && log[j].uid == u && log[j].sid == sid)
    decreases |log|
  {
    if log != [] {
      var n := |log| - 1;
      ActiveMeans(log[..n], u, sid);
      forall i | 0 <= i < n ensures log[..n][i] == log[i] { }
      if log[n].LoggedIn? && log[n].uid == u && log[n].sid == sid {
        assert log[n].LoggedIn? && n < |log|;
      } else if Active(log[..n], u, sid) {
        var i :| 0 <= i < n && log[..n][i].LoggedIn? && log[..n][i].uid == u && log[..n][i].sid == sid
          && forall j :: i < j < n ==> !(log[..n][j].LoggedOut? && log[..n][j].uid == u && log[..n][j].sid == sid);
        if !(log[n].LoggedOut? && log[n].uid == u && log[n].sid == sid) {
          assert log[i].LoggedIn?
            && forall j :: i < j < |log| ==> !(log[j].LoggedOut? && log[j].uid == u && log[j].sid == sid);
        }
      }
    }
  }

  // Key, spelled out: stored while logged in, with no later store and no logout.
  predicate StoredLast(log: seq<Entry>, u: int, sid: string, key: string, i: nat) {
    && i < |log| && log[i].KeyStored? && log[i].uid == u && log[i].sid == sid && log[i].key == key
    && Active(log[..i], u, sid)
    && forall j :: i < j < |log| ==>
         !(log[j].LoggedOut? && log[j].uid == u && log[j].sid == sid)
         && !(log[j].KeyStored? && log[j].uid == u && log[j].sid == sid)
  }

  lemma {:induction false} ActivePersists(log: seq<Entry>, u: int, sid: string, i: nat)
    requires i <= |log| && Active(log[..i], u, sid)
    requires forall j :: i <= j < |log| ==> !(log[j].LoggedOut? && log[j].uid == u && log[j].sid == sid)
    ensures Active(log, u, sid)
    decreases |log|
  {
    if i == |log| {
      assert log[..i] == log;
    } else {
      assert log[..|log| - 1][..i] == log[..i];
      ActivePersists(log[..|log| - 1], u, sid, i);
    }
  }

  predicate Concerns(e: Entry, u: int, sid: string) {
    (e.KeyStored? || e.LoggedOut?) && e.uid == u && e.sid == sid
  }

  lemma StoredLastStep(log: seq<Entry>, e: Entry, u: int, sid: string, key: string, i: nat)
    requires i < |log|
    ensures StoredLast(log + [e], u, sid, key, i) <==> StoredLast(log, u, sid, key, i) && !Concerns(e, u, sid)
  {
    var now := log + [e];
    assert now[..i] == log[..i] && now[|log|] == e;
    assert forall j :: 0 <= j < |log| ==> now[j] == log[j];
  }

  lemma {:induction false} KeyMeans(log: seq<Entry>, u: int, sid: string, key: string)
    ensures Key(log, u, sid) == Some(key) <==> exists i: nat :: StoredLast(log, u, sid, key, i)
    decreases |log|
  {
    if log != [] {
      var n := |log| - 1;
      var before, e := log[..n], log[n];
      KeyMeans(before, u, sid, key);
      assert log == before + [e];
      forall i: nat | i < n
        ensures StoredLast(log, u, sid, key, i) <==> StoredLast(before, u, sid, key, i) && !Concerns(e, u, sid)
      {
        StoredLastStep(before, e, u, sid, key, i);
      }
      if Key(log, u, sid) == Some(key) {
        if e.KeyStored? && e.uid == u && e.sid == sid && Active(before, u, sid) {
          assert StoredLast(log, u, sid, key, n);
        } else {
          var i: nat :| StoredLast(before, u, sid, key, i);
          ActivePersists(before, u, sid, i);
          assert StoredLast(log, u, sid, key, i);
        }
      }
    }
  }

  // ---------- what must have come before each entry ----------

  ghost predicate Authenticated(log: seq<Entry>, id: nat, u: int, sid: string) {
    exists e :: e in log && e.LookedUp? && e.id == id && e.sid == sid && e.found == Some(Some(u))
  }

  // The request has presented a password for u that was accepted.
  predicate Checked(log: seq<Entry>, id: nat, u: int) {
    exists e :: e in log && e.Verified? && e.id == id && e.uid == u
  }

  predicate Recent(log: seq<Entry>, sid: string, at: int) {
    LastSeen(log, sid).Some? && at < LastSeen(log, sid).value + HOUR
  }

  // The row is there and holds key, a null reading as "".
  predicate Holds(log: seq<Entry>, u: int, sid: string, key: string) {
    Active(log, u, sid) && key == (if Key(log, u, sid).Some? then Key(log, u, sid).value else "")
  }

  ghost predicate Justified(log: seq<Entry>, e: Entry) {
    match e
    case LookedUp(_, sid, found, at) =>
      && (found.Some? <==> Recent(log, sid, at))
      && (forall u :: found == Some(Some(u)) ==> Active(log, u, sid))
      && (found == Some(None) ==> forall u :: !Active(log, u, sid))
    case LoggedIn(id, u, _) => Checked(log, id, u)
    case LoggedOut(id, u, sid) => Authenticated(log, id, u, sid)
    case KeyStored(id, u, sid, key) => Authenticated(log, id, u, sid) && key != ""
    case KeyChecked(id, u, sid, presented, ok) =>
      Authenticated(log, id, u, sid) && (ok <==> Holds(log, u, sid, presented))
    case PasswordSet(id, u, _) => Checked(log, id, u)
    case Wrote(id, u, _) => exists c :: c in log && c.KeyChecked? && c.id == id && c.uid == u && c.ok
    case _ => true
  }

  ghost predicate History(log: seq<Entry>) {
    log == [] || (History(log[..|log| - 1]) && Justified(log[..|log| - 1], log[|log| - 1]))
  }

  lemma {:induction false} HistoryAt(log: seq<Entry>, i: nat)
    requires History(log) && i < |log|
    ensures History(log[..i]) && Justified(log[..i], log[i])
    decreases |log|
  {
    if i < |log| - 1 {
      HistoryAt(log[..|log| - 1], i);
      assert log[..|log| - 1][..i] == log[..i];
    }
  }

  // ---------- the invariant ----------

  ghost predicate TablesMatch(t: Tables, now: int, log: seq<Entry>) {
    && (forall l :: l in t.userSessions <==> Active(log, l.userid, l.sessionid))
    && (forall l :: l in t.userSessions ==> t.userSessions[l] == Key(log, l.userid, l.sessionid))
    && (forall sid :: sid in t.sessions <==> LastSeen(log, sid).Some?)
    && (forall sid :: sid in t.sessions ==> LastSeen(log, sid) == Some(t.sessions[sid]) && t.sessions[sid] <= now)
  }

  ghost predicate RequestOk(log: seq<Entry>, id: nat, r: Request) {
    && PcOk(r)
    && (r.userId.Some? ==> Authenticated(log, id, r.userId.value, r.uuid))
    && (r.pc.MapUser? ==> Verified(id, r.pc.uid, r.action.pass) in log)
    && (r.pc.StorePassword? ==> Verified(id, r.userId.value, r.action.oldPass) in log)
    && (r.pc.WriteArticle? ==>
          exists c :: c in log && c.KeyChecked? && c.id == id && c.uid == r.userId.value && c.ok)
  }

  ghost predicate Inv(w: World) {
    && TablesMatch(w.tables, w.now, w.log)
    && History(w.log)
    && forall id :: id in w.requests ==> RequestOk(w.log, id, w.requests[id])
  }

  lemma Snoc(log: seq<Entry>, e: Entry)
    ensures (log + [e])[..|log|] == log && (log + [e])[|log|] == e
  {
  }

  lemma RequestOkMonotone(log: seq<Entry>, more: seq<Entry>, id: nat, r: Request)
    requires RequestOk(log, id, r)
    ensures RequestOk(log + more, id, r)
  {
  }

  // An entry that says nothing about links and sessions leaves them matched.
  predicate Neutral(e: Entry) {
    !e.LoggedIn? && !e.LoggedOut? && !e.KeyStored? && !e.Seen?
  }

  lemma NeutralKeepsMatch(t: Tables, now: int, log: seq<Entry>, e: Entry)
    requires TablesMatch(t, now, log) && Neutral(e)
    ensures TablesMatch(t, now, log + [e])
  {
  }

  lemma SeenKeepsMatch(t: Tables, now: int, log: seq<Entry>, id: nat, sid: string)
    requires TablesMatch(t, now, log)
    ensures TablesMatch(SaveSession(t, sid, now), now, log + [Seen(id, sid, now)])
  {
  }

  lemma LoginKeepsMatch(t: Tables, now: int, log: seq<Entry>, id: nat, u: int, sid: string)
    requires TablesMatch(t, now, log)
    ensures TablesMatch(MapUuidToUser(t, Link(u, sid)), now, log + [LoggedIn(id, u, sid)])
  {
    var e := LoggedIn(id, u, sid);
    Snoc(log, e);
    KeyNeedsActive(log, u, sid);
    assert forall v, s :: Active(log + [e], v, s) == (Link(v, s) == Link(u, sid) || Active(log, v, s));
    assert forall v, s :: Key(log + [e], v, s) == Key(log, v, s);
    assert forall s :: LastSeen(log + [e], s) == LastSeen(log, s);
  }

  lemma {:induction false} KeyNeedsActive(log: seq<Entry>, u: int, sid: string)
    ensures Key(log, u, sid).Some? ==> Active(log, u, sid)
    decreases |log|
  {
    if log != [] { KeyNeedsActive(log[..|log| - 1], u, sid); }
  }

  lemma LogoutKeepsMatch(t: Tables, now: int, log: seq<Entry>, id: nat, u: int, sid: string)
    requires TablesMatch(t, now, log)
    ensures TablesMatch(UnmapUuidToUser(t, Link(u, sid)), now, log + [LoggedOut(id, u, sid)])
  {
    var e := LoggedOut(id, u, sid);
    Snoc(log, e);
    assert forall v, s :: Active(log + [e], v, s) == (Link(v, s) != Link(u, sid) && Active(log, v, s));
    assert forall v, s :: Link(v, s) != Link(u, sid) ==> Key(log + [e], v, s) == Key(log, v, s);
    assert forall s :: LastSeen(log + [e], s) == LastSeen(log, s);
  }

  lemma KeyKeepsMatch(t: Tables, now: int, log: seq<Entry>, id: nat, u: int, sid: string, key: string)
    requires TablesMatch(t, now, log)
    ensures TablesMatch(SaveCsrfKey(t, Link(u, sid), key), now, log + [KeyStored(id, u, sid, key)])
  {
    var e := KeyStored(id, u, sid, key);
    Snoc(log, e);
    assert forall v, s :: Active(log + [e], v, s) == Active(log, v, s);
    assert forall v, s :: Link(v, s) != Link(u, sid) ==> Key(log + [e], v, s) == Key(log, v, s);
    assert Active(log, u, sid) ==> Key(log + [e], u, sid) == Some(key);
    assert Link(u, sid) in t.userSessions <==> Active(log, u, sid);
    assert forall s :: LastSeen(log + [e], s) == LastSeen(log, s);
  }

  // ---------- preservation ----------

  ghost predicate EffectOk(w: World, id: nat, e: Effect) {
    && |e.entries| <= 1
    && (forall x :: x in e.entries ==> Justified(w.log, x))
    && TablesMatch(e.tables, w.now, w.log + e.entries)
    && RequestOk(w.log + e.entries, id, e.request)
  }

  lemma SilentOk(w: World, id: nat, e: Effect)
    requires Inv(w) && id in w.requests && e.entries == []
    requires e.tables.sessions == w.tables.sessions && e.tables.userSessions == w.tables.userSessions
    requires RequestOk(w.log, id, e.request)
    ensures EffectOk(w, id, e)
  {
    assert w.log + [] == w.log;
  }

  lemma NewestIn(log: seq<Entry>, e: Entry)
    ensures e in log + [e]
  {
    assert (log + [e])[|log|] == e;
  }

  lemma LookupOk(w: World, id: nat, r: Request, ch: Choice)
    requires Inv(w) && SessionRow(w.tables, w.now, r.uuid, ch.row)
    ensures EffectOk(w, id, DoLookup(w, id, r, ch))
  {
    var e := LookedUp(id, r.uuid, ch.row, w.now);
    NeutralKeepsMatch(w.tables, w.now, w.log, e);
    NewestIn(w.log, e);
    assert Live(w.tables, w.now, r.uuid) <==> Recent(w.log, r.uuid, w.now);
    forall u ensures Link(u, r.uuid) in w.tables.userSessions <==> Active(w.log, u, r.uuid) { }
    assert Justified(w.log, e);
  }

  lemma DispatchOk(log: seq<Entry>, id: nat, r: Request)
    requires r.userId.Some? ==> Authenticated(log, id, r.userId.value, r.uuid)
    ensures RequestOk(log, id, r.(pc := Dispatch(r.action, r.userId)))
  {
  }

  lemma SaveOk(w: World, id: nat, r: Request)
    requires Inv(w) && RequestOk(w.log, id, r)
    ensures EffectOk(w, id, DoSave(w, id, r))
  {
    var e := Seen(id, r.uuid, w.now);
    SeenKeepsMatch(w.tables, w.now, w.log, id, r.uuid);
    RequestOkMonotone(w.log, [e], id, r);
    DispatchOk(w.log + [e], id, r);
  }

  lemma StoreKeyOk(w: World, id: nat, r: Request, ch: Choice)
    requires Inv(w) && RequestOk(w.log, id, r) && r.pc.StoreKey? && ch.uuid != ""
    ensures EffectOk(w, id, DoStoreKey(w, id, r, ch))
  {
    var e := KeyStored(id, r.userId.value, r.uuid, ch.uuid);
    KeyKeepsMatch(w.tables, w.now, w.log, id, r.userId.value, r.uuid, ch.uuid);
    RequestOkMonotone(w.log, [e], id, r);
  }

  lemma CheckKeyOk(w: World, id: nat, r: Request)
    requires Inv(w) && RequestOk(w.log, id, r) && r.pc.CheckKey?
    ensures EffectOk(w, id, DoCheckKey(w, id, r))
  {
    var u, presented := r.userId.value, r.action.csrf.value;
    var e := DoCheckKey(w, id, r).entries[0];
    assert Link(u, r.uuid) in w.tables.userSessions <==> Active(w.log, u, r.uuid);
    assert e.ok <==> Holds(w.log, u, r.uuid, presented);
    NeutralKeepsMatch(w.tables, w.now, w.log, e);
    RequestOkMonotone(w.log, [e], id, r);
    NewestIn(w.log, e);
  }

  lemma WriteArticleOk(w: World, id: nat, r: Request, ch: Choice)
    requires Inv(w) && id in w.requests && RequestOk(w.log, id, r) && r.pc.WriteArticle?
    ensures EffectOk(w, id, DoWriteArticle(w, id, r, ch))
  {
    var e := DoWriteArticle(w, id, r, ch);
    if e.entries == [] {
      SilentOk(w, id, e);
    } else {
      NeutralKeepsMatch(e.tables, w.now, w.log, e.entries[0]);
      RequestOkMonotone(w.log, e.entries, id, r);
    }
  }

  lemma FetchLoginOk(h: Hash, w: World, id: nat, r: Request, ch: Choice)
    requires Inv(w) && id in w.requests && RequestOk(w.log, id, r) && r.pc.FetchLogin?
    requires UserRow(w.tables, r.action.email, ch.user)
    ensures EffectOk(w, id, DoFetchLogin(h, w, id, r, ch))
  {
    var e := DoFetchLogin(h, w, id, r, ch);
    if e.entries == [] {
      SilentOk(w, id, e);
    } else {
      NeutralKeepsMatch(w.tables, w.now, w.log, e.entries[0]);
      RequestOkMonotone(w.log, e.entries, id, r);
      NewestIn(w.log, e.entries[0]);
    }
  }

  lemma MapUserOk(w: World, id: nat, r: Request)
    requires Inv(w) && id in w.requests && RequestOk(w.log, id, r) && r.pc.MapUser?
    ensures EffectOk(w, id, DoMapUser(w, id, r))
  {
    var e := DoMapUser(w, id, r);
    if e.entries == [] {
      SilentOk(w, id, e);
    } else {
      LoginKeepsMatch(w.tables, w.now, w.log, id, r.pc.uid, r.uuid);
      RequestOkMonotone(w.log, e.entries, id, r);
    }
  }

  lemma UnmapUserOk(w: World, id: nat, r: Request)
    requires Inv(w) && RequestOk(w.log, id, r) && r.pc.UnmapUser?
    ensures EffectOk(w, id, DoUnmapUser(w, id, r))
  {
    LogoutKeepsMatch(w.tables, w.now, w.log, id, r.userId.value, r.uuid);
  }

  lemma PasswordOk(w: World, id: nat, r: Request, e: Effect)
    requires Inv(w) && id in w.requests && RequestOk(w.log, id, r)
    requires e.tables.sessions == w.tables.sessions && e.tables.userSessions == w.tables.userSessions
    requires e.entries == [] || (|e.entries| == 1 && Neutral(e.entries[0]) && Justified(w.log, e.entries[0]))
    requires e.request == r.(pc := e.request.pc) && PcOk(e.request)
    requires !e.request.pc.MapUser? && !e.request.pc.WriteArticle?
    requires e.request.pc.StorePassword? ==> e.entries == [Verified(id, r.userId.value, r.action.oldPass)]
    ensures EffectOk(w, id, e)
  {
    if e.entries == [] {
      SilentOk(w, id, e);
    } else {
      NeutralKeepsMatch(w.tables, w.now, w.log, e.entries[0]);
      RequestOkMonotone(w.log, e.entries, id, r);
      NewestIn(w.log, e.entries[0]);
      assert TablesMatch(e.tables, w.now, w.log + e.entries);
    }
  }

  lemma FetchSelfOk(h: Hash, w: World, id: nat, r: Request, ch: Choice)
    requires Inv(w) && id in w.requests && RequestOk(w.log, id, r) && r.pc.FetchSelf?
    ensures EffectOk(w, id, DoFetchSelf(h, w, id, r, ch))
  {
    PasswordOk(w, id, r, DoFetchSelf(h, w, id, r, ch));
  }

  lemma StorePasswordOk(w: World, id: nat, r: Request)
    requires Inv(w) && id in w.requests && RequestOk(w.log, id, r) && r.pc.StorePassword?
    ensures EffectOk(w, id, DoStorePassword(w, id, r))
  {
    PasswordOk(w, id, r, DoStorePassword(w, id, r));
  }

  lemma AddUserOk(h: Hash, w: World, id: nat, r: Request, ch: Choice)
    requires Inv(w) && id in w.requests && RequestOk(w.log, id, r)
    ensures r.pc.FetchEmail? ==> EffectOk(w, id, DoFetchEmail(h, w, r, ch))
    ensures r.pc.InsertUser? ==> EffectOk(w, id, DoInsertUser(w, id, r, ch))
  {
    if r.pc.FetchEmail? {
      PasswordOk(w, id, r, DoFetchEmail(h, w, r, ch));
    } else if r.pc.InsertUser? {
      PasswordOk(w, id, r, DoInsertUser(w, id, r, ch));
    }
  }

  lemma FaultOk(w: World, id: nat, r: Request)
    requires Inv(w) && id in w.requests && RequestOk(w.log, id, r)
    ensures EffectOk(w, id, Effect(w.tables, AfterFault(r), [], {}))
  {
    if r.pc.Save? { DispatchOk(w.log, id, r.(userId := None)); }
    SilentOk(w, id, Effect(w.tables, AfterFault(r), [], {}));
  }

  lemma CallOk(h: Hash, w: World, id: nat, ch: Choice)
    requires Inv(w) && id in w.requests && Possible(w, w.requests[id], ch)
    ensures EffectOk(w, id, Call(h, w, id, w.requests[id], ch))
  {
    var r := w.requests[id];
    if ch.fault {
      FaultOk(w, id, r);
    } else {
      match r.pc
      case Lookup => LookupOk(w, id, r, ch);
      case Save => SaveOk(w, id, r);
      case StoreKey => StoreKeyOk(w, id, r, ch);
      case CheckKey => CheckKeyOk(w, id, r);
      case WriteArticle => WriteArticleOk(w, id, r, ch);
      case FetchLogin => FetchLoginOk(h, w, id, r, ch);
      case MapUser(_) => MapUserOk(w, id, r);
      case UnmapUser => UnmapUserOk(w, id, r);
      case FetchSelf => FetchSelfOk(h, w, id, r, ch);
      case StorePassword(_) => StorePasswordOk(w, id, r);
      case FetchEmail => AddUserOk(h, w, id, r, ch);
      case InsertUser(_) => AddUserOk(h, w, id, r, ch);
    }
  }

  lemma ApplyInv(w: World, id: nat, e: Effect)
    requires Inv(w) && EffectOk(w, id, e)
    ensures Inv(Apply(w, id, e))
  {
    var v := Apply(w, id, e);
    if e.entries != [] {
      Snoc(w.log, e.entries[0]);
      assert v.log == w.log + [e.entries[0]];
    } else {
      assert v.log == w.log;
    }
    forall i | i in v.requests ensures RequestOk(v.log, i, v.requests[i]) {
      if i != id { RequestOkMonotone(w.log, e.entries, i, w.requests[i]); }
    }
  }

  lemma StepInv(h: Hash, w: World, step: Step)
    requires Inv(w) && Enabled(w, step)
    ensures Inv(Do(h, w, step))
  {
    match step
    case Tick(_) =>
    case Arrive(_, _, _, _) =>
    case Exec(id, ch) =>
      CallOk(h, w, id, ch);
      ApplyInv(w, id, Call(h, w, id, w.requests[id], ch));
  }

  lemma {:induction false} RunInv(h: Hash, w: World, steps: seq<Step>)
    requires Inv(w) && Legal(h, w, steps)
    ensures Inv(Run(h, w, steps))
    decreases |steps|
  {
    if steps != [] {
      StepInv(h, w, steps[0]);
      RunInv(h, Do(h, w, steps[0]), steps[1..]);
    }
  }

  lemma InitialInv(h: Hash, w: World, passwords: map<int, string>)
    requires Initial(h, w, passwords)
    ensures Inv(w)
  {
  }

  // ---------- what follows for every run ----------

  predicate NoLogoutBetween(log: seq<Entry>, u: int, sid: string, from: nat, to: nat)
    requires to <= |log|
  {
    forall k :: from < k < to ==> !(log[k].LoggedOut? && log[k].uid == u && log[k].sid == sid)
  }

  // A request that acts as u on its session looked the session up when u had
  // logged in on it, with a password that was checked, and had not logged out
  // since, and when it had been seen less than an hour before.
  lemma AuthenticatedMeansLoggedIn(h: Hash, start: World, passwords: map<int, string>, steps: seq<Step>, id: nat)
      returns (lookup: nat, login: nat, check: nat)
    requires Initial(h, start, passwords) && Legal(h, start, steps)
    requires id in Run(h, start, steps).requests && Run(h, start, steps).requests[id].userId.Some?
    ensures var w := Run(h, start, steps);
      var r := w.requests[id];
      && check < login < lookup < |w.log|
      && w.log[lookup].LookedUp? && w.log[lookup].id == id
      && w.log[lookup].sid == r.uuid && w.log[lookup].found == Some(r.userId)
      && LastSeen(w.log[..lookup], r.uuid).Some?
      && w.log[lookup].at < LastSeen(w.log[..lookup], r.uuid).value + 3600
      && w.log[login].LoggedIn? && w.log[login].uid == r.userId.value && w.log[login].sid == r.uuid
      && NoLogoutBetween(w.log, r.userId.value, r.uuid, login, lookup)
      && w.log[check].Verified? && w.log[check].id == w.log[login].id && w.log[check].uid == r.userId.value
  {
    InitialInv(h, start, passwords);
    RunInv(h, start, steps);
    var w := Run(h, start, steps);
    var r := w.requests[id];
    var u := r.userId.value;
    var e :| e in w.log && e.LookedUp? && e.id == id && e.sid == r.uuid && e.found == Some(Some(u));
    lookup :| lookup < |w.log| && w.log[lookup] == e;
    HistoryAt(w.log, lookup);
    login, check := LoginOf(w.log, lookup, u, r.uuid);
  }

  lemma LoginOf(log: seq<Entry>, n: nat, u: int, sid: string) returns (login: nat, check: nat)
    requires n <= |log| && History(log) && Active(log[..n], u, sid)
    ensures check < login < n
    ensures log[login].LoggedIn? && log[login].uid == u && log[login].sid == sid
    ensures NoLogoutBetween(log, u, sid, login, n)
    ensures log[check].Verified? && log[check].id == log[login].id && log[check].uid == u
  {
    var prefix := log[..n];
    ActiveMeans(prefix, u, sid);
    var i :| 0 <= i < n && prefix[i].LoggedIn? && prefix[i].uid == u && prefix[i].sid == sid
      && forall j :: i < j < n ==> !(prefix[j].LoggedOut? && prefix[j].uid == u && prefix[j].sid == sid);
    login := i;
    assert log[login] == prefix[i];
    assert forall k :: login < k < n ==> log[k] == prefix[k];
    HistoryAt(log, login);
    var e :| e in log[..login] && e.Verified? && e.id == log[login].id && e.uid == u;
    check :| check < login && log[..login][check] == e;
  }

  // The row of a pair is there exactly when some login of it has no logout after.
  lemma RowMeans(w: World, u: int, sid: string)
    requires Inv(w)
    ensures Link(u, sid) in w.tables.userSessions <==>
      exists i :: 0 <= i < |w.log| && w.log[i].LoggedIn? && w.log[i].uid == u && w.log[i].sid == sid
        && NoLogoutBetween(w.log, u, sid, i, |w.log|)
  {
    var log := w.log;
    ActiveMeans(log, u, sid);
    assert Link(u, sid) in w.tables.userSessions <==> Active(log, u, sid);
    forall i | 0 <= i < |log|
      ensures NoLogoutBetween(log, u, sid, i, |log|)
         <==> forall j :: i < j < |log| ==> !(log[j].LoggedOut? && log[j].uid == u && log[j].sid == sid)
    {
    }
  }

  // It holds exactly the key stored last since then, or null.
  lemma RowKeyMeans(w: World, u: int, sid: string, key: string)
    requires Inv(w) && Link(u, sid) in w.tables.userSessions
    ensures w.tables.userSessions[Link(u, sid)] == Some(key) <==> exists i: nat :: StoredLast(w.log, u, sid, key, i)
  {
    KeyMeans(w.log, u, sid, key);
  }

  // verifyCSRFKey, for a key that is not empty: true exactly for the key stored
  // last for the pair since it was logged in.
  lemma VerifyIsCurrentKey(w: World, u: int, sid: string, key: string)
    requires Inv(w) && key != ""
    ensures GetCsrfKey(w.tables, Link(u, sid)) == Some(key) <==> exists i: nat :: StoredLast(w.log, u, sid, key, i)
  {
    KeyMeans(w.log, u, sid, key);
    KeyNeedsActive(w.log, u, sid);
    assert Link(u, sid) in w.tables.userSessions <==> Active(w.log, u, sid);
  }

  // For an empty one: true exactly when the pair is logged in and has no key yet.
  lemma VerifyEmptyKey(w: World, u: int, sid: string)
    requires Inv(w)
    ensures GetCsrfKey(w.tables, Link(u, sid)) == Some("") <==> Active(w.log, u, sid) && Key(w.log, u, sid).None?
  {
    assert Link(u, sid) in w.tables.userSessions <==> Active(w.log, u, sid);
    if Key(w.log, u, sid).Some? { KeysAreNotEmpty(w.log, u, sid); }
  }

  lemma {:induction false} KeysAreNotEmpty(log: seq<Entry>, u: int, sid: string)
    requires History(log)
    ensures Key(log, u, sid) != Some("")
    decreases |log|
  {
    if log != [] { KeysAreNotEmpty(log[..|log| - 1], u, sid); }
  }

  // Every key stored is an id the server issued, and no key is stored twice.
  predicate KeysInv(w: World) {
    && (forall e :: e in w.log && e.KeyStored? ==> e.key in w.issued)
    && (forall i, j :: 0 <= i < j < |w.log| && w.log[i].KeyStored? && w.log[j].KeyStored? ==>
          w.log[i].key != w.log[j].key)
  }

  lemma CallKeys(h: Hash, w: World, id: nat, r: Request, ch: Choice)
    requires Possible(w, r, ch)
    ensures var e := Call(h, w, id, r, ch);
      && |e.entries| <= 1
      && forall x :: x in e.entries && x.KeyStored? ==> x.key !in w.issued && x.key in e.issued
  {
  }

  lemma {:induction false} RunKeys(h: Hash, w: World, steps: seq<Step>)
    requires KeysInv(w) && Legal(h, w, steps)
    ensures KeysInv(Run(h, w, steps))
    decreases |steps|
  {
    if steps != [] {
      if steps[0].Exec? { CallKeys(h, w, steps[0].id, w.requests[steps[0].id], steps[0].choice); }
      RunKeys(h, Do(h, w, steps[0]), steps[1..]);
    }
  }

  // A key stored for one user and session never passes the check of another,
  // whatever the order of the two.
  lemma KeyOfAnotherFails(h: Hash, start: World, passwords: map<int, string>, steps: seq<Step>, i: nat, j: nat)
    requires Initial(h, start, passwords) && Legal(h, start, steps)
    requires i < |Run(h, start, steps).log| && j < |Run(h, start, steps).log|
    requires var log := Run(h, start, steps).log;
      && log[i].KeyStored? && log[j].KeyChecked? && log[j].presented == log[i].key
      && (log[i].uid != log[j].uid || log[i].sid != log[j].sid)
    ensures !Run(h, start, steps).log[j].ok
  {
    InitialInv(h, start, passwords);
    RunInv(h, start, steps);
    RunKeys(h, start, steps);
    var log := Run(h, start, steps).log;
    HistoryAt(log, i);
    HistoryAt(log, j);
    if log[j].ok {
      var u, sid, key := log[j].uid, log[j].sid, log[j].presented;
      KeyMeans(log[..j], u, sid, key);
      var k: nat :| StoredLast(log[..j], u, sid, key, k);
    }
  }

  // Every article write follows, in the same POST, a check that found the row
  // of its user and session present and holding the value presented.
  lemma EveryWriteWasChecked(h: Hash, start: World, passwords: map<int, string>, steps: seq<Step>, k: nat)
      returns (j: nat)
    requires Initial(h, start, passwords) && Legal(h, start, steps)
    requires k < |Run(h, start, steps).log| && Run(h, start, steps).log[k].Wrote?
    ensures var log := Run(h, start, steps).log;
      && j < k && log[j].KeyChecked? && log[j].id == log[k].id && log[j].uid == log[k].uid
      && Authenticated(log[..j], log[j].id, log[j].uid, log[j].sid)
      && Active(log[..j], log[j].uid, log[j].sid)
      && (if log[j].presented == "" then Key(log[..j], log[j].uid, log[j].sid).None?
          else exists i: nat :: StoredLast(log[..j], log[j].uid, log[j].sid, log[j].presented, i))
  {
    InitialInv(h, start, passwords);
    RunInv(h, start, steps);
    var log := Run(h, start, steps).log;
    HistoryAt(log, k);
    var c :| c in log[..k] && c.KeyChecked? && c.id == log[k].id && c.uid == log[k].uid && c.ok;
    j :| j < k && log[..k][j] == c;
    HistoryAt(log, j);
    KeyMeans(log[..j], c.uid, c.sid, c.presented);
    KeysAreNotEmpty(log[..j], c.uid, c.sid);
  }

  // A logout before the check, with no new login, makes the check fail.
  lemma StaleCheckFails(log: seq<Entry>, i: nat, j: nat)
    requires History(log) && i < j < |log| && log[i].LoggedOut? && log[j].KeyChecked?
    requires log[j].uid == log[i].uid && log[j].sid == log[i].sid
    requires forall k :: i < k < j ==> !(log[k].LoggedIn? && log[k].uid == log[i].uid && log[k].sid == log[i].sid)
    ensures !log[j].ok
  {
    HistoryAt(log, j);
    if log[j].ok {
      var login, _ := LoginOf(log, j, log[j].uid, log[j].sid);
    }
  }

  // And a request whose every check was stale writes nothing.
  lemma StaleWritesNothing(log: seq<Entry>, id: nat)
    requires History(log)
    requires forall j :: 0 <= j < |log| && log[j].KeyChecked? && log[j].id == id ==> !log[j].ok
    ensures forall k :: 0 <= k < |log| ==> !(log[k].Wrote? && log[k].id == id)
  {
    forall k | 0 <= k < |log| ensures !(log[k].Wrote? && log[k].id == id) {
      HistoryAt(log, k);
    }
  }

  // So a request that checks its key only after a logout, with no login between
  // the two, writes nothing.
  lemma StaleRequestWritesNothing(h: Hash, start: World, passwords: map<int, string>, steps: seq<Step>,
                                  id: nat, out: nat)
    requires Initial(h, start, passwords) && Legal(h, start, steps)
    requires out < |Run(h, start, steps).log| && Run(h, start, steps).log[out].LoggedOut?
    requires var log := Run(h, start, steps).log;
      && (forall j :: 0 <= j < |log| && log[j].KeyChecked? && log[j].id == id ==>
            && out < j && log[j].uid == log[out].uid && log[j].sid == log[out].sid
            && forall k :: out < k < j ==>
                 !(log[k].LoggedIn? && log[k].uid == log[out].uid && log[k].sid == log[out].sid))
    ensures var log := Run(h, start, steps).log;
      forall k :: 0 <= k < |log| ==> !(log[k].Wrote? && log[k].id == id)
  {
    InitialInv(h, start, passwords);
    RunInv(h, start, steps);
    var log := Run(h, start, steps).log;
    forall j | 0 <= j < |log| && log[j].KeyChecked? && log[j].id == id ensures !log[j].ok {
      StaleCheckFails(log, out, j);
    }
    StaleWritesNothing(log, id);
  }

  // A password is changed only in a request that had checked the old one.
  lemma ChangeNeedsOldPassword(h: Hash, start: World, passwords: map<int, string>, steps: seq<Step>, k: nat)
      returns (j: nat)
    requires Initial(h, start, passwords) && Legal(h, start, steps)
    requires k < |Run(h, start, steps).log| && Run(h, start, steps).log[k].PasswordSet?
    ensures var log := Run(h, start, steps).log;
      j < k && log[j].Verified? && log[j].id == log[k].id && log[j].uid == log[k].uid
  {
    InitialInv(h, start, passwords);
    RunInv(h, start, steps);
    var log := Run(h, start, steps).log;
    HistoryAt(log, k);
    var e :| e in log[..k] && e.Verified? && e.id == log[k].id && e.uid == log[k].uid;
    j :| j < k && log[..k][j] == e;
  }
}
