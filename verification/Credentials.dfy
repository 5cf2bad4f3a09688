/** Passwords over interleaved runs, for any hash function. */
module Credentials {
  import opened Common
  import opened Sessions
  import opened SessionSafety

  // The user's stored hash is that of the salt and the password last set.
  predicate Matches(h: Hash, initial: map<int, string>, log: seq<Entry>, u: int, user: User) {
    && user.salt != ""
    && Password(initial, log, u).Some?
    && user.password == h(user.salt + Password(initial, log, u).value)
  }

  predicate SetsPassword(e: Entry) { e.PasswordSet? || e.UserAdded? }

  predicate Sound(h: Hash, c: Credential) {
    c.salt != "" && c.hash == h(c.salt + c.plain)
  }

  // For the salt stored for u, pass has the hash of the password last set.
  predicate RightPassword(h: Hash, initial: map<int, string>, w: World, u: int, pass: string) {
    && u in w.tables.users && Password(initial, w.log, u).Some?
    && h(w.tables.users[u].salt + pass) == h(w.tables.users[u].salt + Password(initial, w.log, u).value)
  }

  predicate CredentialsOk(h: Hash, initial: map<int, string>, w: World) {
    && (forall u :: u in w.tables.users ==> Matches(h, initial, w.log, u, w.tables.users[u]))
    && EmailsUnique(w.tables)
    && (forall id :: id in w.requests && w.requests[id].pc.StorePassword? ==> Sound(h, w.requests[id].pc.cred))
    && (forall id :: id in w.requests && w.requests[id].pc.InsertUser? ==> Sound(h, w.requests[id].pc.cred))
  }

  // What one call may do to the users.
  predicate UsersChange(h: Hash, t: Tables, e: Effect) {
    && (e.request.pc.StorePassword? ==> Sound(h, e.request.pc.cred))
    && (e.request.pc.InsertUser? ==> Sound(h, e.request.pc.cred))
    && |e.entries| <= 1
    && (if e.entries != [] && SetsPassword(e.entries[0]) then
          var u, plain := e.entries[0].uid, e.entries[0].plain;
          && e.tables.users.Keys <= t.users.Keys + {u}
          && (forall v :: v in t.users && v != u ==> v in e.tables.users && e.tables.users[v] == t.users[v])
          && (u in e.tables.users ==>
                e.tables.users[u].salt != "" && e.tables.users[u].password == h(e.tables.users[u].salt + plain))
          && (EmailsUnique(t) ==> EmailsUnique(e.tables))
          && (u in t.users ==> u in e.tables.users)
        else e.tables.users == t.users)
  }

  lemma CallUsers(h: Hash, w: World, id: nat, r: Request, ch: Choice)
    requires Possible(w, r, ch)
    requires r.pc.StorePassword? || r.pc.InsertUser? ==> Sound(h, r.pc.cred)
    ensures UsersChange(h, w.tables, Call(h, w, id, r, ch))
  {
  }

  lemma PasswordSnoc(initial: map<int, string>, log: seq<Entry>, e: Entry, u: int)
    ensures Password(initial, log + [e], u) ==
      if SetsPassword(e) && e.uid == u then Some(e.plain) else Password(initial, log, u)
  {
    Snoc(log, e);
  }

  // Stored salts are not empty, so hashing uses them and no new one.
  lemma AuthenticatesIff(h: Hash, initial: map<int, string>, w: World, u: int, pass: string, random: string)
    requires CredentialsOk(h, initial, w) && u in w.tables.users
    ensures Authenticates(h, w.tables.users[u], pass, random) <==> RightPassword(h, initial, w, u, pass)
  {
    assert Matches(h, initial, w.log, u, w.tables.users[u]);
  }

  // A call that accepts a password accepts a right one.
  lemma CallChecks(h: Hash, initial: map<int, string>, w: World, id: nat, r: Request, ch: Choice)
    requires CredentialsOk(h, initial, w) && Possible(w, r, ch)
    ensures |Call(h, w, id, r, ch).entries| <= 1
    ensures forall x :: x in Call(h, w, id, r, ch).entries && x.Verified? ==>
      RightPassword(h, initial, w, x.uid, x.pass)
  {
    if !ch.fault && (r.pc.FetchLogin? || r.pc.FetchSelf?) {
      forall x | x in Call(h, w, id, r, ch).entries ensures RightPassword(h, initial, w, x.uid, x.pass) {
        AuthenticatesIff(h, initial, w, x.uid, x.pass, ch.salt);
      }
    }
  }

  lemma MatchesAfter(h: Hash, initial: map<int, string>, w: World, e: Effect, u: int)
    requires CredentialsOk(h, initial, w) && UsersChange(h, w.tables, e) && u in e.tables.users
    ensures Matches(h, initial, w.log + e.entries, u, e.tables.users[u])
  {
    if e.entries == [] {
      assert w.log + e.entries == w.log;
    } else {
      assert w.log + e.entries == w.log + [e.entries[0]];
      PasswordSnoc(initial, w.log, e.entries[0], u);
    }
  }

  lemma ApplyCredentials(h: Hash, initial: map<int, string>, w: World, id: nat, e: Effect)
    requires CredentialsOk(h, initial, w) && UsersChange(h, w.tables, e)
    ensures CredentialsOk(h, initial, Apply(w, id, e))
  {
    forall u | u in e.tables.users ensures Matches(h, initial, w.log + e.entries, u, e.tables.users[u]) {
      MatchesAfter(h, initial, w, e, u);
    }
  }

  lemma StepCredentials(h: Hash, initial: map<int, string>, w: World, step: Step)
    requires CredentialsOk(h, initial, w) && Enabled(w, step)
    ensures CredentialsOk(h, initial, Do(h, w, step))
  {
    if step.Exec? {
      var r := w.requests[step.id];
      CallUsers(h, w, step.id, r, step.choice);
      ApplyCredentials(h, initial, w, step.id, Call(h, w, step.id, r, step.choice));
    }
  }

  // Every run keeps every user's stored hash in step with the password last set.
  lemma {:induction false} CredentialsKept(h: Hash, initial: map<int, string>, w: World, steps: seq<Step>)
    requires CredentialsOk(h, initial, w) && Legal(h, w, steps)
    ensures CredentialsOk(h, initial, Run(h, w, steps))
    decreases |steps|
  {
    if steps != [] {
      StepCredentials(h, initial, w, steps[0]);
      CredentialsKept(h, initial, Do(h, w, steps[0]), steps[1..]);
    }
  }

  lemma InitialCredentials(h: Hash, w: World, passwords: map<int, string>)
    requires Initial(h, w, passwords)
    ensures CredentialsOk(h, passwords, w)
  {
  }

  // The run up to n ends just where entry i is made, which accepts a right
  // password.
  ghost predicate AcceptedAt(h: Hash, start: World, passwords: map<int, string>, steps: seq<Step>, i: nat, n: nat)
    requires Legal(h, start, steps) && i < |Run(h, start, steps).log| && Run(h, start, steps).log[i].Verified?
  {
    var log := Run(h, start, steps).log;
    && n <= |steps| && Legal(h, start, steps[..n]) && Run(h, start, steps[..n]).log == log[..i]
    && RightPassword(h, passwords, Run(h, start, steps[..n]), log[i].uid, log[i].pass)
  }

  // A password accepted for u, whenever it was, had under the salt then stored
  // for u the hash of the password last set for u.
  lemma {:induction false} AcceptedMeansRight(h: Hash, start: World, passwords: map<int, string>, steps: seq<Step>,
                                              i: nat)
      returns (n: nat)
    requires Initial(h, start, passwords) && Legal(h, start, steps)
    requires i < |Run(h, start, steps).log| && Run(h, start, steps).log[i].Verified?
    ensures AcceptedAt(h, start, passwords, steps, i, n)
    decreases |steps|
  {
    n := |steps| - 1;
    LastStep(h, start, steps);
    var before, last := steps[..n], steps[n];
    var w := Run(h, start, before);
    if i < |w.log| {
      OneStep(h, w, last);
      RunGrows(h, w, [last]);
      n := AcceptedMeansRight(h, start, passwords, before, i);
      assert before[..n] == steps[..n] && Run(h, start, steps).log[..i] == w.log[..i];
    } else {
      InitialCredentials(h, start, passwords);
      CredentialsKept(h, passwords, start, before);
      CallChecks(h, passwords, w, last.id, w.requests[last.id], last.choice);
      assert Run(h, start, steps).log == w.log + Call(h, w, last.id, w.requests[last.id], last.choice).entries;
    }
  }

  // So a request acts as u only on a session where such a password was given.
  lemma AuthenticatedGavePassword(h: Hash, start: World, passwords: map<int, string>, steps: seq<Step>, id: nat)
      returns (login: nat, check: nat, n: nat)
    requires Initial(h, start, passwords) && Legal(h, start, steps)
    requires id in Run(h, start, steps).requests && Run(h, start, steps).requests[id].userId.Some?
    ensures var w := Run(h, start, steps);
      var r := w.requests[id];
      && check < login < |w.log| && w.log[login].LoggedIn?
      && w.log[login].uid == r.userId.value && w.log[login].sid == r.uuid
      && w.log[check].Verified? && w.log[check].id == w.log[login].id && w.log[check].uid == r.userId.value
      && AcceptedAt(h, start, passwords, steps, check, n)
  {
    var lookup;
    lookup, login, check := AuthenticatedMeansLoggedIn(h, start, passwords, steps, id);
    n := AcceptedMeansRight(h, start, passwords, steps, check);
  }

  // And a password is changed only where the old one was given.
  lemma ChangeGaveOldPassword(h: Hash, start: World, passwords: map<int, string>, steps: seq<Step>, k: nat)
      returns (j: nat, n: nat)
    requires Initial(h, start, passwords) && Legal(h, start, steps)
    requires k < |Run(h, start, steps).log| && Run(h, start, steps).log[k].PasswordSet?
    ensures var log := Run(h, start, steps).log;
      && j < k && log[j].Verified? && log[j].id == log[k].id && log[j].uid == log[k].uid
      && AcceptedAt(h, start, passwords, steps, j, n)
  {
    j := ChangeNeedsOldPassword(h, start, passwords, steps, k);
    n := AcceptedMeansRight(h, start, passwords, steps, j);
  }

  // A login that does not throw is accepted exactly when the email is that of
  // an active user and the password the right one.
  lemma LoginDecides(h: Hash, start: World, passwords: map<int, string>, steps: seq<Step>, id: nat, u: int, ch: Choice)
    requires Initial(h, start, passwords) && Legal(h, start, steps)
    requires var w := Run(h, start, steps);
      Enabled(w, Exec(id, ch)) && !ch.fault && w.requests[id].pc.FetchLogin? && w.requests[id].action.Login?
    ensures var w := Run(h, start, steps);
      var r := w.requests[id];
      var v := Do(h, w, Exec(id, ch));
      v.requests[id].pc == MapUser(u) <==>
        UserRow(w.tables, r.action.email, Some(u)) && RightPassword(h, passwords, w, u, r.action.pass)
  {
    InitialCredentials(h, start, passwords);
    CredentialsKept(h, passwords, start, steps);
    var w := Run(h, start, steps);
    if ch.user.Some? {
      AuthenticatesIff(h, passwords, w, ch.user.value, w.requests[id].action.pass, ch.salt);
    }
  }

  // In particular the password last set, by createLogin or by a change, lets an
  // active user in, whatever rows and randomness the call meets.
  lemma RightPasswordLogsIn(h: Hash, start: World, passwords: map<int, string>, steps: seq<Step>,
                            id: nat, u: int, ch: Choice)
    requires Initial(h, start, passwords) && Legal(h, start, steps)
    requires var w := Run(h, start, steps);
      && u in w.tables.users && w.tables.users[u].active
      && id in w.requests && w.requests[id].pc.FetchLogin? && w.requests[id].action.Login?
      && w.requests[id].action.email == w.tables.users[u].email
      && Password(passwords, w.log, u) == Some(w.requests[id].action.pass)
      && Enabled(w, Exec(id, ch)) && !ch.fault
    ensures var w := Run(h, start, steps);
      var v := Do(h, w, Exec(id, ch));
      && v.requests[id] == w.requests[id].(pc := MapUser(u))
      && v.log == w.log + [Verified(id, u, w.requests[id].action.pass)]
  {
    LoginDecides(h, start, passwords, steps, id, u, ch);
  }

  // From there the call that maps the session makes the user logged in on it.
  lemma MappedIsActive(h: Hash, w: World, id: nat, ch: Choice)
    requires Inv(w) && Enabled(w, Exec(id, ch)) && !ch.fault
    requires w.requests[id].pc.MapUser? && w.requests[id].uuid in w.tables.sessions
    requires w.requests[id].pc.uid in w.tables.users
    ensures var v := Do(h, w, Exec(id, ch));
      var l := Link(w.requests[id].pc.uid, w.requests[id].uuid);
      && Active(v.log, l.userid, l.sessionid) && l in v.tables.userSessions
      && (l in w.tables.userSessions ==> v.tables.userSessions == w.tables.userSessions)
  {
    StepInv(h, w, Exec(id, ch));
    Snoc(w.log, LoggedIn(id, w.requests[id].pc.uid, w.requests[id].uuid));
  }

  // ---------- emails ----------

  // No call removes a user, or changes an email or whether a user is active;
  // none removes an article.
  predicate Keeps(t: Tables, later: Tables) {
    && (forall u :: u in t.users ==>
          u in later.users && later.users[u].email == t.users[u].email && later.users[u].active == t.users[u].active)
    && (forall a :: a in t.articles ==> a in later.articles)
  }

  lemma CallKeeps(h: Hash, w: World, id: nat, r: Request, ch: Choice)
    requires Possible(w, r, ch)
    ensures Keeps(w.tables, Call(h, w, id, r, ch).tables)
  {
  }

  // An insert that the database answers adds the user exactly when no user,
  // active or not, has the email.
  lemma InsertAddsIff(h: Hash, w: World, id: nat, ch: Choice)
    requires Enabled(w, Exec(id, ch)) && !ch.fault && w.requests[id].pc.InsertUser?
    ensures var v := Do(h, w, Exec(id, ch));
      var c := w.requests[id].pc.cred;
      if exists u :: u in w.tables.users && w.tables.users[u].email == w.requests[id].action.email then
        v.tables == w.tables && v.log == w.log
      else
        && v.tables.users == w.tables.users[ch.serial :=
             User(w.requests[id].action.name, w.requests[id].action.email, c.salt, c.hash, true)]
        && v.log == w.log + [UserAdded(id, ch.serial, c.plain)]
  {
    assert w.log + [] == w.log;
  }

  lemma {:induction false} RunKeeps(h: Hash, w: World, steps: seq<Step>)
    requires Legal(h, w, steps)
    ensures var v := Run(h, w, steps);
      && Keeps(w.tables, v.tables)
      && forall id :: id in w.requests ==> id in v.requests && v.requests[id].action == w.requests[id].action
    decreases |steps|
  {
    if steps != [] {
      var step := steps[0];
      if step.Exec? {
        CallKeeps(h, w, step.id, w.requests[step.id], step.choice);
        CallKeepsAction(h, w, step.id, w.requests[step.id], step.choice);
      }
      RunKeeps(h, Do(h, w, step), steps[1..]);
    }
  }

  lemma CallKeepsAction(h: Hash, w: World, id: nat, r: Request, ch: Choice)
    requires Possible(w, r, ch)
    ensures Call(h, w, id, r, ch).request.action == r.action
  {
  }

  // createLogin's look at the active users does not see an inactive one; after
  // whatever others do, the email of that one makes the insert add nothing.
  lemma InactiveDuplicate(h: Hash, w: World, id: nat, u: int, look: Choice, between: seq<Step>, insert: Choice)
    requires EmailsUnique(w.tables) && u in w.tables.users && !w.tables.users[u].active
    requires Enabled(w, Exec(id, look)) && !look.fault && w.requests[id].pc.FetchEmail?
    requires w.requests[id].action.AddUser? && w.requests[id].action.email == w.tables.users[u].email
    requires Legal(h, Do(h, w, Exec(id, look)), between)
    requires var v := Run(h, Do(h, w, Exec(id, look)), between);
      Enabled(v, Exec(id, insert)) && !insert.fault && v.requests[id].pc.InsertUser?
    ensures Do(h, w, Exec(id, look)).requests[id].pc.InsertUser?
    ensures var v := Run(h, Do(h, w, Exec(id, look)), between);
      Do(h, v, Exec(id, insert)).tables == v.tables && Do(h, v, Exec(id, insert)).log == v.log
  {
    assert look.user.None?;
    var looked := Do(h, w, Exec(id, look));
    RunKeeps(h, looked, between);
    var v := Run(h, looked, between);
    assert v.tables.users[u].email == v.requests[id].action.email;
    InsertAddsIff(h, v, id, insert);
  }

  // A user's record changes only when a password is set for that user, so
  // failed changes and duplicate emails change nobody's.
  lemma {:induction false} UsersUntouched(h: Hash, initial: map<int, string>, w: World, steps: seq<Step>, u: int)
    requires CredentialsOk(h, initial, w) && Legal(h, w, steps) && u in w.tables.users
    ensures w.log <= Run(h, w, steps).log
    ensures u in Run(h, w, steps).tables.users
    ensures (forall i :: |w.log| <= i < |Run(h, w, steps).log| ==>
              !(SetsPassword(Run(h, w, steps).log[i]) && Run(h, w, steps).log[i].uid == u))
            ==> Run(h, w, steps).tables.users[u] == w.tables.users[u]
    decreases |steps|
  {
    if steps != [] {
      var v := Do(h, w, steps[0]);
      StepCredentials(h, initial, w, steps[0]);
      if steps[0].Exec? {
        CallUsers(h, w, steps[0].id, w.requests[steps[0].id], steps[0].choice);
      }
      assert w.log <= v.log && u in v.tables.users;
      UsersUntouched(h, initial, v, steps[1..], u);
      var end := Run(h, w, steps).log;
      assert |v.log| > |w.log| ==> end[|w.log|] == v.log[|w.log|];
    }
  }
}
