/** DBConn, over the database that all requests share: before each call the
    other requests take any steps they can.  Each method is proved to take
    exactly the step that its request has in Sessions. */
module Database {
  import opened Common
  import opened Numbers
  import opened Sessions
  import opened SessionSafety
  import opened Credentials

  // The entries of one request.
  function Mine(log: seq<Entry>, id: nat): seq<Entry> {
    if log == [] then []
    else Mine(log[..|log| - 1], id) + (if log[|log| - 1].id == id then [log[|log| - 1]] else [])
  }

  lemma MineSnoc(log: seq<Entry>, e: Entry, id: nat)
    ensures Mine(log + [e], id) == Mine(log, id) + (if e.id == id then [e] else [])
  {
    Snoc(log, e);
  }

  // Every entry a call makes is its own request's.
  lemma CallSigns(h: Hash, w: World, id: nat, ch: Choice)
    requires id in w.requests && Possible(w, w.requests[id], ch)
    ensures var e := Call(h, w, id, w.requests[id], ch);
      |e.entries| <= 1 && forall x :: x in e.entries ==> x.id == id
  {
  }

  // The log after an effect signed by one request.
  lemma MineAfter(w: World, id: nat, e: Effect, of: nat)
    requires |e.entries| <= 1 && forall x :: x in e.entries ==> x.id == id
    ensures Mine(Apply(w, id, e).log, of) == if of == id then Mine(w.log, of) + e.entries else Mine(w.log, of)
  {
    var mine := Mine(w.log, of);
    if e.entries == [] {
      assert w.log + e.entries == w.log && mine + [] == mine;
    } else {
      var x := e.entries[0];
      assert e.entries == [x] && mine + [] == mine;
      MineSnoc(w.log, x, of);
    }
  }

  lemma StepOfAnother(h: Hash, w: World, step: Step, id: nat)
    requires Enabled(w, step) && id in w.requests && !(step.Exec? && step.id == id)
    ensures var v := Do(h, w, step);
      id in v.requests && v.requests[id] == w.requests[id] && Mine(v.log, id) == Mine(w.log, id)
  {
    if step.Exec? {
      CallSigns(h, w, step.id, step.choice);
      MineAfter(w, step.id, Call(h, w, step.id, w.requests[step.id], step.choice), id);
    }
  }

  lemma StepOfMine(h: Hash, w: World, id: nat, ch: Choice)
    requires Enabled(w, Exec(id, ch))
    ensures Mine(Do(h, w, Exec(id, ch)).log, id) == Mine(w.log, id) + Call(h, w, id, w.requests[id], ch).entries
  {
    CallSigns(h, w, id, ch);
    MineAfter(w, id, Call(h, w, id, w.requests[id], ch), id);
  }

  // The article that the request is about to write.
  predicate Writes(r: Request, a: Article) {
    Acceptable(r.action) && r.userId == Some(a.userid) && ToArticle(r.action, a.userid) == a
  }

  // What the steps of others cannot undo.
  predicate Later(w: World, v: World) {
    Keeps(w.tables, v.tables) && w.issued <= v.issued
  }

  lemma StepLater(h: Hash, w: World, step: Step)
    requires Enabled(w, step)
    ensures Later(w, Do(h, w, step))
  {
    if step.Exec? { CallKeeps(h, w, step.id, w.requests[step.id], step.choice); }
  }

  lemma LaterStill(a: World, b: World, c: World)
    requires Later(a, b) && Later(b, c)
    ensures Later(a, c)
  {
  }

  predicate Newest(log: seq<Entry>, e: Entry) {
    log != [] && log[|log| - 1] == e
  }

  // The row that a login leaves holds the key stored for the pair before it.
  lemma LoginRow(w: World, id: nat, u: int, sid: string)
    requires Inv(w) && Newest(w.log, LoggedIn(id, u, sid))
    ensures Link(u, sid) in w.tables.userSessions
    ensures w.tables.userSessions[Link(u, sid)] == Key(w.log[..|w.log| - 1], u, sid)
  {
    assert Active(w.log, u, sid);
    assert Link(u, sid) in w.tables.userSessions <==> Active(w.log, u, sid);
  }

  // A step of another request, for the request id.
  lemma StepAside(h: Hash, passwords: map<int, string>, w: World, step: Step, id: nat)
    requires Inv(w) && CredentialsOk(h, passwords, w) && Enabled(w, step)
    requires id in w.requests && !(step.Exec? && step.id == id)
    ensures var v := Do(h, w, step);
      && Inv(v) && CredentialsOk(h, passwords, v) && Later(w, v)
      && id in v.requests && v.requests[id] == w.requests[id] && Mine(v.log, id) == Mine(w.log, id)
  {
    StepInv(h, w, step);
    StepCredentials(h, passwords, w, step);
    StepOfAnother(h, w, step, id);
    StepLater(h, w, step);
  }

  // What a request that asks for a user by email does on the answer.
  function AfterFetch(h: Hash, r: Request, u: Option<(int, User)>, random: string): Pc
    requires r.action.Login? || r.action.AddUser?
  {
    if r.pc.FetchLogin? && u.Some? && Authenticates(h, u.value.1, r.action.pass, random) then MapUser(u.value.0)
    else if r.pc.FetchEmail? && u.None? then InsertUser(NewCredential(h, r.action.pass, random))
    else Done
  }

  function Row(t: Tables, user: Option<int>): Option<(int, User)>
    requires user.Some? ==> user.value in t.users
  {
    if user.Some? then Some((user.value, t.users[user.value])) else None
  }

  lemma FetchEffect(h: Hash, w: World, id: nat, ch: Choice)
    requires Enabled(w, Exec(id, ch)) && !ch.fault
    requires w.requests[id].pc.FetchLogin? || w.requests[id].pc.FetchEmail?
    ensures var r := w.requests[id];
      var e := Call(h, w, id, r, ch);
      && (r.action.Login? || r.action.AddUser?) && (ch.user.Some? ==> ch.user.value in w.tables.users)
      && UserRow(w.tables, r.action.email, ch.user)
      && e.tables == w.tables
      && e.request == r.(pc := AfterFetch(h, r, Row(w.tables, ch.user), ch.salt))
      && e.entries == if e.request.pc.MapUser? then [Verified(id, ch.user.value, r.action.pass)] else []
  {
  }

  lemma SelfEffect(h: Hash, w: World, id: nat, ch: Choice, u: int)
    requires Enabled(w, Exec(id, ch)) && !ch.fault
    requires w.requests[id].pc.FetchSelf? && w.requests[id].userId == Some(u)
    ensures var r := w.requests[id];
      var e := Call(h, w, id, r, ch);
      && r.action.ChangePass? && e.tables == w.tables
      && (if u in w.tables.users && w.tables.users[u].active
             && Authenticates(h, w.tables.users[u], r.action.oldPass, ch.salt) then
            && e.request == r.(pc := StorePassword(NewCredential(h, r.action.newPass, ch.salt)))
            && e.entries == [Verified(id, u, r.action.oldPass)]
          else e.request == r.(pc := Done) && e.entries == [])
  {
  }

  lemma WriteEffect(h: Hash, w: World, id: nat, ch: Choice, a: Article)
    requires Enabled(w, Exec(id, ch)) && !ch.fault && w.requests[id].pc.WriteArticle? && Writes(w.requests[id], a)
    ensures var r := w.requests[id];
      var e := Call(h, w, id, r, ch);
      var target := if r.action.articleId == "" then ch.serial else Number(r.action.articleId);
      && e.request == r.(pc := Done) && e.tables.users == w.tables.users
      && (r.action.articleId == "" ==> ch.serial !in w.tables.articles)
      && (if a.userid in w.tables.users && (r.action.articleId == "" || target in w.tables.articles) then
            e.tables.articles == w.tables.articles[target := a] && e.entries == [Wrote(id, a.userid, target)]
          else e.tables == w.tables && e.entries == [])
  {
  }

  class DBConn {
    const h: Hash
    ghost const passwords: map<int, string>     // of the users there were at the start
    var world: World

    ghost predicate Valid()
      reads this
    {
      Inv(world) && CredentialsOk(h, passwords, world)
    }

    ghost predicate At(id: nat, r: Request)
      reads this
    {
      Valid() && id in world.requests && world.requests[id] == r
    }

    ghost function Entries(id: nat): seq<Entry>
      reads this
    {
      Mine(world.log, id)
    }

    constructor (h: Hash, world: World, ghost passwords: map<int, string>)
      requires Inv(world) && CredentialsOk(h, passwords, world)
      ensures Valid() && this.h == h && this.world == world && this.passwords == passwords
    {
      this.h, this.world, this.passwords := h, world, passwords;
    }

    // Other requests arrive, time passes, and their calls are made.
    method Others(id: nat)
      requires Valid() && id in world.requests
      modifies this
      ensures At(id, old(world.requests[id])) && Entries(id) == old(Entries(id))
      ensures Later(old(world), world) && Ran(h, old(world), world)
    {
      RanNothing(h, world);
      var n: nat := *;
      while n > 0
        invariant At(id, old(world.requests[id])) && Entries(id) == old(Entries(id))
        invariant Later(old(world), world) && Ran(h, old(world), world)
      {
        var step: Step := *;
        if Enabled(world, step) && !(step.Exec? && step.id == id) {
          StepAside(h, passwords, world, step, id);
          LaterStill(old(world), world, Do(h, world, step));
          RanOne(h, world, step);
          RanOn(h, old(world), world, Do(h, world, step));
          world := Do(h, world, step);
        }
        n := n - 1;
      }
    }

    // One database call of the request, after whatever the others do.
    method Perform(id: nat) returns (ch: Choice, ghost before: World)
      requires Valid() && id in world.requests && world.requests[id].pc != Done
      modifies this
      ensures id in before.requests && before.requests[id] == old(world.requests[id])
      ensures Mine(before.log, id) == old(Entries(id))
      ensures Later(old(world), before) && Later(before, world) && Ran(h, old(world), world)
      ensures Enabled(before, Exec(id, ch))
      ensures var e := Call(h, before, id, before.requests[id], ch);
        && At(id, e.request) && Entries(id) == old(Entries(id)) + e.entries
        && world.tables == e.tables && world.now == before.now && world.issued == before.issued + e.issued
        && (e.entries != [] ==> Newest(world.log, e.entries[0]))
    {
      Others(id);
      before := world;
      ch := *;
      if !Possible(world, world.requests[id], ch) {
        ch := Choice(true, None, None, "", "", 0);
      }
      StepInv(h, world, Exec(id, ch));
      StepCredentials(h, passwords, world, Exec(id, ch));
      StepOfMine(h, world, id, ch);
      StepLater(h, world, Exec(id, ch));
      CallSigns(h, world, id, ch);
      RanOne(h, world, Exec(id, ch));
      RanOn(h, old(world), world, Do(h, world, Exec(id, ch)));
      world := Do(h, world, Exec(id, ch));
    }

    // A new request, with the UUID it will use if it brings no cookie.
    method Arrive(id: nat, cookie: string, action: Action, uuid: string)
      requires Valid() && id !in world.requests && FreshUuid(world, uuid)
      modifies this
      ensures At(id, Begin(cookie, action, uuid)) && Entries(id) == old(Entries(id))
      ensures cookie == "" ==> uuid in world.issued
      ensures Ran(h, old(world), world) && old(world.issued) <= world.issued
    {
      RanOne(h, world, Sessions.Arrive(id, cookie, action, uuid));
      StepInv(h, world, Sessions.Arrive(id, cookie, action, uuid));
      StepCredentials(h, passwords, world, Sessions.Arrive(id, cookie, action, uuid));
      world := Do(h, world, Sessions.Arrive(id, cookie, action, uuid));
    }

    // The row found, and the UUID generated when there is none.
    method GetSessionInfo(id: nat, sid: string) returns (r: Result<Option<Option<int>>>, uuid: string)
      requires Valid() && id in world.requests && world.requests[id].pc.Lookup? && world.requests[id].uuid == sid
      modifies this
      ensures Ran(h, old(world), world)
      ensures r.Ok? ==>
        && (r.value.Some? <==> sid in world.tables.sessions && world.now < world.tables.sessions[sid] + 3600)
        && (r.value.Some? && r.value.value.Some? ==> Link(r.value.value.value, sid) in world.tables.userSessions)
        && (r.value == Some(None) ==> forall u :: Link(u, sid) !in world.tables.userSessions)
      ensures Entries(id) == old(Entries(id)) + (if r.Ok? then [LookedUp(id, sid, r.value, world.now)] else [])
      ensures match r
              case Err(_) => At(id, old(world.requests[id]).(pc := Save))
              case Ok(None) => At(id, old(world.requests[id]).(uuid := uuid, userId := None, pc := Save))
                && uuid != "" && uuid in world.issued && uuid !in old(world.issued) && uuid !in world.tables.sessions
              case Ok(Some(user)) => At(id, old(world.requests[id]).(userId := user, pc := Save))
    {
      ghost var before;
      var ch: Choice;
      ch, before := Perform(id);
      uuid := ch.uuid;
      r := if ch.fault then Err(DbError) else Ok(ch.row);
    }

    method SaveSession(id: nat, sid: string) returns (r: Result<()>)
      requires Valid() && id in world.requests && world.requests[id].pc.Save? && world.requests[id].uuid == sid
      modifies this
      ensures Ran(h, old(world), world)
      ensures Entries(id) == old(Entries(id)) + (if r.Ok? then [Seen(id, sid, world.now)] else [])
      ensures r.Ok? ==> sid in world.tables.sessions && world.tables.sessions[sid] == world.now
      ensures old(world.issued) <= world.issued
      ensures var was := old(world.requests[id]);
        if r.Ok? then At(id, was.(pc := Dispatch(was.action, was.userId)))
        else At(id, was.(userId := None, pc := Dispatch(was.action, None)))
    {
      ghost var before;
      var ch: Choice;
      ch, before := Perform(id);
      r := if ch.fault then Err(DbError) else Ok(());
    }

    // The key is one that the server has just generated; an update of no row
    // stores nothing.
    method SaveCsrfKey(id: nat, userId: int, sid: string) returns (r: Result<string>)
      requires Valid() && id in world.requests && world.requests[id].pc.StoreKey?
      requires world.requests[id].userId == Some(userId) && world.requests[id].uuid == sid
      modifies this
      ensures Ran(h, old(world), world)
      ensures At(id, old(world.requests[id]).(pc := Done))
      ensures Entries(id) == old(Entries(id)) + (if r.Ok? then [KeyStored(id, userId, sid, r.value)] else [])
      ensures r.Ok? ==> r.value != "" && r.value in world.issued && r.value !in old(world.issued)
      ensures r.Ok? && Link(userId, sid) in world.tables.userSessions ==>
        world.tables.userSessions[Link(userId, sid)] == Some(r.value)
    {
      ghost var before;
      var ch: Choice;
      ch, before := Perform(id);
      r := if ch.fault then Err(DbError) else Ok(ch.uuid);
    }

    // The key as the row holds it, None when there is no row.
    method GetCsrfKey(id: nat, userId: int, sid: string) returns (r: Result<Option<string>>)
      requires Valid() && id in world.requests && world.requests[id].pc.CheckKey?
      requires world.requests[id].userId == Some(userId) && world.requests[id].uuid == sid
      modifies this
      ensures Ran(h, old(world), world)
      ensures old(world.requests[id]).action.PostArticle? && old(world.requests[id]).action.csrf.Some?
      ensures r.Err? ==> At(id, old(world.requests[id]).(pc := Done)) && Entries(id) == old(Entries(id))
      ensures r.Ok? ==>
        var was := old(world.requests[id]);
        var ok := r.value == Some(was.action.csrf.value);
        && r.value == Sessions.GetCsrfKey(world.tables, Link(userId, sid))
        && At(id, was.(pc := if ok && Acceptable(was.action) then WriteArticle else Done))
        && Entries(id) == old(Entries(id)) + [KeyChecked(id, userId, sid, was.action.csrf.value, ok)]
    {
      ghost var before;
      var ch: Choice;
      ch, before := Perform(id);
      r := if ch.fault then Err(DbError) else Ok(Sessions.GetCsrfKey(world.tables, Link(userId, sid)));
    }

    // A new row, for a user that exists.
    method SaveArticle(id: nat, userId: int, title: string, summary: string, markdown: string) returns (r: Result<int>)
      requires Valid() && id in world.requests && world.requests[id].pc.WriteArticle?
      requires Writes(world.requests[id], Article(userId, title, summary, markdown))
      requires world.requests[id].action.articleId == ""
      modifies this
      ensures Ran(h, old(world), world)
      ensures At(id, old(world.requests[id]).(pc := Done))
      ensures Entries(id) == old(Entries(id)) + (if r.Ok? then [Wrote(id, userId, r.value)] else [])
      ensures r.Ok? ==>
        && r.value !in old(world.tables.articles)
        && r.value in world.tables.articles
        && world.tables.articles[r.value] == Article(userId, title, summary, markdown)
    {
      ghost var before;
      var ch: Choice;
      ch, before := Perform(id);
      if !ch.fault { WriteEffect(h, before, id, ch, Article(userId, title, summary, markdown)); }
      r := if ch.fault || userId !in world.tables.users then Err(DbError) else Ok(ch.serial);
    }

    // The row of that number, if there is one; its user must exist.
    method UpdateArticle(id: nat, userId: int, title: string, summary: string, markdown: string, articleId: string)
        returns (r: Result<()>)
      requires Valid() && id in world.requests && world.requests[id].pc.WriteArticle?
      requires Writes(world.requests[id], Article(userId, title, summary, markdown))
      requires world.requests[id].action.articleId == articleId && articleId != ""
      modifies this
      ensures Ran(h, old(world), world)
      ensures At(id, old(world.requests[id]).(pc := Done))
      ensures Entries(id) == old(Entries(id)) +
        (if r.Ok? && Number(articleId) in world.tables.articles then [Wrote(id, userId, Number(articleId))] else [])
      ensures r.Ok? && Number(articleId) in world.tables.articles ==>
        world.tables.articles[Number(articleId)] == Article(userId, title, summary, markdown)
    {
      ghost var before;
      var ch: Choice;
      ch, before := Perform(id);
      if !ch.fault { WriteEffect(h, before, id, ch, Article(userId, title, summary, markdown)); }
      var missing := Number(articleId) in world.tables.articles && userId !in world.tables.users;
      r := if ch.fault || missing then Err(DbError) else Ok(());
    }

    // The active user of that email.  The request goes on by what it will find
    // when it hashes, with the bytes random if it needs new salt.
    method GetUserByEmail(id: nat, email: string) returns (r: Result<Option<(int, User)>>, random: string)
      requires Valid() && id in world.requests
      requires world.requests[id].pc.FetchLogin? || world.requests[id].pc.FetchEmail?
      requires world.requests[id].action.Login? || world.requests[id].action.AddUser?
      requires world.requests[id].action.email == email
      modifies this
      ensures Ran(h, old(world), world)
      ensures r.Ok? ==> random != ""
      ensures Later(old(world), world)
      ensures r.Err? ==> r == Err(DbError)
      ensures r.Ok? && r.value.Some? ==>
        var (u, user) := r.value.value;
        u in world.tables.users && world.tables.users[u] == user && user.email == email && user.active
      ensures r.Ok? && r.value.None? ==>
        forall u :: u in world.tables.users && world.tables.users[u].email == email ==> !world.tables.users[u].active
      ensures var was := old(world.requests[id]);
        var pc := if r.Ok? then AfterFetch(h, was, r.value, random) else Done;
        && At(id, was.(pc := pc))
        && Entries(id) == old(Entries(id)) + (if pc.MapUser? then [Verified(id, pc.uid, was.action.pass)] else [])
    {
      ghost var before;
      var ch: Choice;
      ch, before := Perform(id);
      if ch.fault {
        return Err(DbError), "";
      }
      FetchEffect(h, before, id, ch);
      random := ch.salt;
      r := Ok(Row(world.tables, ch.user));
    }

    method GetUserById(id: nat, userId: int) returns (r: Result<Option<User>>, random: string)
      requires Valid() && id in world.requests && world.requests[id].pc.FetchSelf?
      requires world.requests[id].userId == Some(userId)
      modifies this
      ensures Ran(h, old(world), world)
      ensures (r.Ok? ==> random != "") && old(world.requests[id]).action.ChangePass?
      ensures r.Ok? ==> (r.value.Some? <==> userId in world.tables.users && world.tables.users[userId].active)
      ensures r.Ok? && r.value.Some? ==> r.value.value == world.tables.users[userId]
      ensures var was := old(world.requests[id]);
        if r.Ok? && r.value.Some? && Authenticates(h, r.value.value, was.action.oldPass, random) then
          && At(id, was.(pc := StorePassword(NewCredential(h, was.action.newPass, random))))
          && Entries(id) == old(Entries(id)) + [Verified(id, userId, was.action.oldPass)]
        else At(id, was.(pc := Done)) && Entries(id) == old(Entries(id))
    {
      ghost var before;
      var ch: Choice;
      ch, before := Perform(id);
      if ch.fault {
        return Err(DbError), "";
      }
      SelfEffect(h, before, id, ch, userId);
      random := ch.salt;
      var active := userId in world.tables.users && world.tables.users[userId].active;
      r := Ok(if active then Some(world.tables.users[userId]) else None);
    }

    // Both the session and the user must be stored.  A row that was there keeps
    // its key; a new one has none.
    method MapUuidToUser(id: nat, sid: string, userId: int) returns (r: Result<()>)
      requires Valid() && id in world.requests && world.requests[id].pc == MapUser(userId)
      requires world.requests[id].uuid == sid
      modifies this
      ensures Ran(h, old(world), world)
      ensures At(id, old(world.requests[id]).(pc := Done))
      ensures Entries(id) == old(Entries(id)) + (if r.Ok? then [LoggedIn(id, userId, sid)] else [])
      ensures r.Ok? ==>
        && Link(userId, sid) in world.tables.userSessions && Newest(world.log, LoggedIn(id, userId, sid))
        && world.tables.userSessions[Link(userId, sid)] == Key(world.log[..|world.log| - 1], userId, sid)
    {
      ghost var before;
      var ch: Choice;
      ch, before := Perform(id);
      r := if ch.fault || sid !in world.tables.sessions || userId !in world.tables.users then Err(DbError) else Ok(());
      if r.Ok? { LoginRow(world, id, userId, sid); }
    }

    method UnmapUuidToUser(id: nat, sid: string, userId: int) returns (r: Result<()>)
      requires Valid() && id in world.requests && world.requests[id].pc.UnmapUser?
      requires world.requests[id].userId == Some(userId) && world.requests[id].uuid == sid
      modifies this
      ensures Ran(h, old(world), world)
      ensures var was := old(world.requests[id]);
        if r.Ok? then
          At(id, was.(userId := None, pc := Done)) && Entries(id) == old(Entries(id)) + [LoggedOut(id, userId, sid)]
        else At(id, was.(pc := Done)) && Entries(id) == old(Entries(id))
      ensures r.Ok? ==> Link(userId, sid) !in world.tables.userSessions
    {
      ghost var before;
      var ch: Choice;
      ch, before := Perform(id);
      r := if ch.fault then Err(DbError) else Ok(());
    }

    method SavePassword(id: nat, userId: int, hash: string, salt: string, ghost plain: string) returns (r: Result<()>)
      requires Valid() && id in world.requests && world.requests[id].pc == StorePassword(Credential(hash, salt, plain))
      requires world.requests[id].userId == Some(userId)
      modifies this
      ensures Ran(h, old(world), world)
      ensures At(id, old(world.requests[id]).(pc := Done))
      ensures Entries(id) == old(Entries(id)) + (if r.Ok? then [PasswordSet(id, userId, plain)] else [])
      ensures r.Ok? && userId in world.tables.users ==>
        world.tables.users[userId].password == hash && world.tables.users[userId].salt == salt
    {
      ghost var before;
      var ch: Choice;
      ch, before := Perform(id);
      r := if ch.fault then Err(DbError) else Ok(());
    }

    // The email must be new among all users.
    method AddUser(id: nat, email: string, hash: string, salt: string, name: string, ghost plain: string)
        returns (r: Result<()>, ghost serial: int)
      requires Valid() && id in world.requests && world.requests[id].pc == InsertUser(Credential(hash, salt, plain))
      requires world.requests[id].action == Action.AddUser(email, plain, name)
      modifies this
      ensures Ran(h, old(world), world)
      ensures At(id, old(world.requests[id]).(pc := Done))
      ensures Entries(id) == old(Entries(id)) + (if r.Ok? then [UserAdded(id, serial, plain)] else [])
      ensures r.Ok? ==>
        serial in world.tables.users && world.tables.users[serial] == User(name, email, salt, hash, true)
      ensures r.Ok? ==> serial !in old(world.tables.users)
      ensures r.Ok? ==> forall v :: v in world.tables.users && world.tables.users[v].email == email ==> v == serial
      ensures old(EmailTaken(world.tables, email)) ==> r == Err(DbError)
    {
      ghost var before;
      var ch: Choice;
      ch, before := Perform(id);
      serial := ch.serial;
      r := if ch.fault || ch.serial !in world.tables.users then Err(DbError) else Ok(());
    }
  }
}
