/** The database tables, and the protocol of the requests over them: session
    start-up, login, logout, CSRF keys, articles and passwords.  Requests run
    interleaved; each call of DBConn is one step. */
module Sessions {
  import opened Common
  import Markdown
  import opened Numbers
  import Summaries

  // ---------- tables (database/ddl.sql) ----------

  datatype User = User(fullname: string, email: string, salt: string, password: string, active: bool)
  datatype Article = Article(userid: int, title: string, summary: string, content: string)
  datatype Link = Link(userid: int, sessionid: string)

  datatype Tables = Tables(
    users: map<int, User>,
    articles: map<int, Article>,
    sessions: map<string, int>,                  // last_seen, in seconds
    userSessions: map<Link, Option<string>>)     // csrfkey, null as None

  const HOUR := 3600

  predicate Live(t: Tables, now: int, sid: string) {
    sid in t.sessions && t.sessions[sid] + HOUR > now
  }

  // Row 0 of the join of session and user_session: it may be any of them.
  predicate SessionRow(t: Tables, now: int, sid: string, row: Option<Option<int>>) {
    match row
    case None => !Live(t, now, sid)
    case Some(None) => Live(t, now, sid) && forall l :: l in t.userSessions ==> l.sessionid != sid
    case Some(Some(u)) => Live(t, now, sid) && Link(u, sid) in t.userSessions
  }

  predicate UserRow(t: Tables, email: string, row: Option<int>) {
    match row
    case None => forall u :: u in t.users ==> !(t.users[u].email == email && t.users[u].active)
    case Some(u) => u in t.users && t.users[u].email == email && t.users[u].active
  }

  function SaveSession(t: Tables, sid: string, now: int): Tables {
    t.(sessions := t.sessions[sid := now])
  }

  // ON CONFLICT DO NOTHING
  function MapUuidToUser(t: Tables, l: Link): Tables {
    if l in t.userSessions then t else t.(userSessions := t.userSessions[l := None])
  }

  function UnmapUuidToUser(t: Tables, l: Link): Tables {
    t.(userSessions := t.userSessions - {l})
  }

  function SaveCsrfKey(t: Tables, l: Link, key: string): Tables {
    if l in t.userSessions then t.(userSessions := t.userSessions[l := Some(key)]) else t
  }

  // No row, or the key of the row; a null key reads as "".
  function GetCsrfKey(t: Tables, l: Link): Option<string> {
    if l !in t.userSessions then None
    else match t.userSessions[l] case None => Some("") case Some(key) => Some(key)
  }

  function SavePassword(t: Tables, u: int, hash: string, salt: string): Tables {
    if u in t.users then t.(users := t.users[u := t.users[u].(password := hash, salt := salt)]) else t
  }

  predicate EmailTaken(t: Tables, email: string) {
    exists u :: u in t.users && t.users[u].email == email
  }

  // ---------- requests ----------

  datatype Content = Content(markdown: string, doc: Markdown.Node)

  datatype Action =
    | ShowForm                                                  // an edit page with a form
    | PostArticle(csrf: Option<string>, content: Option<Content>, articleId: string)
    | Login(email: string, pass: string)
    | Logout
    | ChangePass(oldPass: string, newPass: string)
    | AddUser(email: string, pass: string, name: string)
    | Other

  datatype Credential = Credential(hash: string, salt: string, plain: string)

  // The next database call of a request.
  datatype Pc =
    | Lookup
    | Save
    | StoreKey
    | CheckKey
    | WriteArticle
    | FetchLogin
    | MapUser(uid: int)
    | UnmapUser
    | FetchSelf
    | StorePassword(cred: Credential)
    | FetchEmail
    | InsertUser(cred: Credential)
    | Done

  datatype Request = Request(action: Action, uuid: string, userId: Option<int>, pc: Pc)

  // What the calls did, in order.
  datatype Entry =
    | LookedUp(id: nat, sid: string, found: Option<Option<int>>, at: int)
    | Seen(id: nat, sid: string, at: int)
    | Verified(id: nat, uid: int, pass: string)
    | LoggedIn(id: nat, uid: int, sid: string)
    | LoggedOut(id: nat, uid: int, sid: string)
    | KeyStored(id: nat, uid: int, sid: string, key: string)
    | KeyChecked(id: nat, uid: int, sid: string, presented: string, ok: bool)
    | Wrote(id: nat, uid: int, article: int)
    | PasswordSet(id: nat, uid: int, plain: string)
    | UserAdded(id: nat, uid: int, plain: string)

  datatype World = World(
    tables: Tables,
    now: int,
    requests: map<nat, Request>,
    log: seq<Entry>,
    issued: set<string>)            // every UUID the server has generated

  // What the environment decides in one call: whether it throws, the rows it
  // reads, a fresh UUID, fresh salt and a fresh serial number.
  datatype Choice = Choice(
    fault: bool, row: Option<Option<int>>, user: Option<int>, uuid: string, salt: string, serial: int)

  type Hash = string -> string

  // hashPassword: the hash and the salt used; an empty salt means a new one.
  function HashPassword(h: Hash, pass: string, salt: string, random: string): (string, string) {
    var used := if salt == "" then random else salt;
    (h(used + pass), used)
  }

  function NewCredential(h: Hash, pass: string, random: string): Credential {
    var (hash, salt) := HashPassword(h, pass, "", random);
    Credential(hash, salt, pass)
  }

  predicate Authenticates(h: Hash, user: User, pass: string, random: string) {
    HashPassword(h, pass, user.salt, random).0 == user.password
  }

  // The gate of the handlers: where the request goes once its session is up.
  function Dispatch(action: Action, userId: Option<int>): Pc {
    match action
    case Login(_, _) => FetchLogin
    case ShowForm => if userId.Some? then StoreKey else Done
    case PostArticle(csrf, _, _) => if userId.Some? && csrf.Some? then CheckKey else Done
    case Logout => if userId.Some? then UnmapUser else Done
    case ChangePass(_, _) => if userId.Some? then FetchSelf else Done
    case AddUser(_, _, _) => if userId.Some? then FetchEmail else Done
    case Other => Done
  }

  // The gate as a table: a login needs no user, anything else does.
  lemma DispatchMeans(u: int, key: string, content: Option<Content>, articleId: string, a: string, b: string, c: string)
    ensures Dispatch(Login(a, b), Some(u)) == FetchLogin && Dispatch(Login(a, b), None) == FetchLogin
    ensures Dispatch(ShowForm, Some(u)) == StoreKey && Dispatch(ShowForm, None) == Done
    ensures Dispatch(PostArticle(Some(key), content, articleId), Some(u)) == CheckKey
    ensures Dispatch(PostArticle(Some(key), content, articleId), None) == Done
    ensures Dispatch(PostArticle(None, content, articleId), Some(u)) == Done
    ensures Dispatch(Logout, Some(u)) == UnmapUser && Dispatch(Logout, None) == Done
    ensures Dispatch(ChangePass(a, b), Some(u)) == FetchSelf && Dispatch(ChangePass(a, b), None) == Done
    ensures Dispatch(AddUser(a, b, c), Some(u)) == FetchEmail && Dispatch(AddUser(a, b, c), None) == Done
    ensures Dispatch(Other, Some(u)) == Done && Dispatch(Other, None) == Done
  {
  }

  // processSaveArticle after the key: the parameters, then the summary.
  predicate Acceptable(a: Action) {
    a.PostArticle? && a.content.Some? && Digits(a.articleId) && Summaries.Summarize(a.content.value.doc).Ok?
  }

  function ToArticle(a: Action, uid: int): Article
    requires Acceptable(a)
  {
    var s := Summaries.Summarize(a.content.value.doc).value;
    Article(uid, s.title, s.preview, a.content.value.markdown)
  }

  // ---------- one call ----------

  datatype Effect = Effect(tables: Tables, request: Request, entries: seq<Entry>, issued: set<string>)

  // A DBError: session start-up goes on without the user, anything else ends.
  function AfterFault(r: Request): Request {
    match r.pc
    case Lookup => r.(pc := Save)
    case Save => r.(userId := None, pc := Dispatch(r.action, None))
    case _ => r.(pc := Done)
  }

  predicate PcOk(r: Request) {
    match r.pc
    case StoreKey => r.userId.Some?
    case CheckKey => r.userId.Some? && r.action.PostArticle? && r.action.csrf.Some?
    case WriteArticle => r.userId.Some? && Acceptable(r.action)
    case FetchLogin => r.action.Login?
    case MapUser(_) => r.action.Login?
    case UnmapUser => r.userId.Some?
    case FetchSelf => r.userId.Some? && r.action.ChangePass?
    case StorePassword(_) => r.userId.Some? && r.action.ChangePass?
    case FetchEmail => r.action.AddUser?
    case InsertUser(_) => r.action.AddUser?
    case _ => true
  }

  predicate FreshUuid(w: World, uuid: string) {
    uuid != "" && uuid !in w.issued && uuid !in w.tables.sessions
  }

  predicate Possible(w: World, r: Request, ch: Choice) {
    && r.pc != Done && PcOk(r)
    && (!ch.fault ==>
          && FreshUuid(w, ch.uuid)
          && ch.salt != ""
          && (r.pc.Lookup? ==> SessionRow(w.tables, w.now, r.uuid, ch.row))
          && (r.pc.FetchLogin? ==> UserRow(w.tables, r.action.email, ch.user))
          && (r.pc.FetchEmail? ==> UserRow(w.tables, r.action.email, ch.user))
          && (r.pc.WriteArticle? ==> ch.serial !in w.tables.articles)
          && (r.pc.InsertUser? ==> ch.serial !in w.tables.users))
  }

  function DoLookup(w: World, id: nat, r: Request, ch: Choice): Effect {
    var entry := [LookedUp(id, r.uuid, ch.row, w.now)];
    match ch.row
    case None => Effect(w.tables, r.(uuid := ch.uuid, userId := None, pc := Save), entry, {ch.uuid})
    case Some(user) => Effect(w.tables, r.(userId := user, pc := Save), entry, {})
  }

  function DoSave(w: World, id: nat, r: Request): Effect {
    Effect(SaveSession(w.tables, r.uuid, w.now), r.(pc := Dispatch(r.action, r.userId)), [Seen(id, r.uuid, w.now)], {})
  }

  function DoStoreKey(w: World, id: nat, r: Request, ch: Choice): Effect
    requires r.userId.Some?
  {
    var u := r.userId.value;
    Effect(SaveCsrfKey(w.tables, Link(u, r.uuid), ch.uuid), r.(pc := Done),
           [KeyStored(id, u, r.uuid, ch.uuid)], {ch.uuid})
  }

  function DoCheckKey(w: World, id: nat, r: Request): Effect
    requires r.userId.Some? && r.action.PostArticle? && r.action.csrf.Some?
  {
    var u, presented := r.userId.value, r.action.csrf.value;
    var ok := GetCsrfKey(w.tables, Link(u, r.uuid)) == Some(presented);
    Effect(w.tables, r.(pc := if ok && Acceptable(r.action) then WriteArticle else Done),
           [KeyChecked(id, u, r.uuid, presented, ok)], {})
  }

  function DoWriteArticle(w: World, id: nat, r: Request, ch: Choice): Effect
    requires r.userId.Some? && Acceptable(r.action)
  {
    var u, done := r.userId.value, r.(pc := Done);
    var target := if r.action.articleId == "" then ch.serial else Number(r.action.articleId);
    if u in w.tables.users && (r.action.articleId == "" || target in w.tables.articles) then
      Effect(w.tables.(articles := w.tables.articles[target := ToArticle(r.action, u)]), done,
             [Wrote(id, u, target)], {})
    else Effect(w.tables, done, [], {})
  }

  function DoFetchLogin(h: Hash, w: World, id: nat, r: Request, ch: Choice): Effect
    requires r.action.Login? && UserRow(w.tables, r.action.email, ch.user)
  {
    if ch.user.Some? && Authenticates(h, w.tables.users[ch.user.value], r.action.pass, ch.salt) then
      Effect(w.tables, r.(pc := MapUser(ch.user.value)), [Verified(id, ch.user.value, r.action.pass)], {})
    else Effect(w.tables, r.(pc := Done), [], {})
  }

  // The row must refer to a stored session and a stored user.
  function DoMapUser(w: World, id: nat, r: Request): Effect
    requires r.pc.MapUser?
  {
    var u := r.pc.uid;
    if r.uuid in w.tables.sessions && u in w.tables.users then
      Effect(MapUuidToUser(w.tables, Link(u, r.uuid)), r.(pc := Done), [LoggedIn(id, u, r.uuid)], {})
    else Effect(w.tables, r.(pc := Done), [], {})
  }

  function DoUnmapUser(w: World, id: nat, r: Request): Effect
    requires r.userId.Some?
  {
    var u := r.userId.value;
    Effect(UnmapUuidToUser(w.tables, Link(u, r.uuid)), r.(userId := None, pc := Done), [LoggedOut(id, u, r.uuid)], {})
  }

  function DoFetchSelf(h: Hash, w: World, id: nat, r: Request, ch: Choice): Effect
    requires r.userId.Some? && r.action.ChangePass?
  {
    var u := r.userId.value;
    if u in w.tables.users && w.tables.users[u].active
       && Authenticates(h, w.tables.users[u], r.action.oldPass, ch.salt) then
      Effect(w.tables, r.(pc := StorePassword(NewCredential(h, r.action.newPass, ch.salt))),
             [Verified(id, u, r.action.oldPass)], {})
    else Effect(w.tables, r.(pc := Done), [], {})
  }

  function DoStorePassword(w: World, id: nat, r: Request): Effect
    requires r.userId.Some? && r.pc.StorePassword?
  {
    var u, c := r.userId.value, r.pc.cred;
    Effect(SavePassword(w.tables, u, c.hash, c.salt), r.(pc := Done), [PasswordSet(id, u, c.plain)], {})
  }

  function DoFetchEmail(h: Hash, w: World, r: Request, ch: Choice): Effect
    requires r.action.AddUser?
  {
    if ch.user.Some? then Effect(w.tables, r.(pc := Done), [], {})
    else Effect(w.tables, r.(pc := InsertUser(NewCredential(h, r.action.pass, ch.salt))), [], {})
  }

  // The email is unique among all users, active or not.
  function DoInsertUser(w: World, id: nat, r: Request, ch: Choice): Effect
    requires r.action.AddUser? && r.pc.InsertUser?
  {
    var c := r.pc.cred;
    if EmailTaken(w.tables, r.action.email) then Effect(w.tables, r.(pc := Done), [], {})
    else
      Effect(w.tables.(users := w.tables.users[ch.serial := User(r.action.name, r.action.email, c.salt, c.hash, true)]),
             r.(pc := Done), [UserAdded(id, ch.serial, c.plain)], {})
  }

  function Call(h: Hash, w: World, id: nat, r: Request, ch: Choice): Effect
    requires Possible(w, r, ch)
  {
    if ch.fault then Effect(w.tables, AfterFault(r), [], {})
    else
      match r.pc
      case Lookup => DoLookup(w, id, r, ch)
      case Save => DoSave(w, id, r)
      case StoreKey => DoStoreKey(w, id, r, ch)
      case CheckKey => DoCheckKey(w, id, r)
      case WriteArticle => DoWriteArticle(w, id, r, ch)
      case FetchLogin => DoFetchLogin(h, w, id, r, ch)
      case MapUser(_) => DoMapUser(w, id, r)
      case UnmapUser => DoUnmapUser(w, id, r)
      case FetchSelf => DoFetchSelf(h, w, id, r, ch)
      case StorePassword(_) => DoStorePassword(w, id, r)
      case FetchEmail => DoFetchEmail(h, w, r, ch)
      case InsertUser(_) => DoInsertUser(w, id, r, ch)
  }

  // ---------- runs ----------

  datatype Step =
    | Tick(seconds: nat)
    | Arrive(id: nat, cookie: string, action: Action, uuid: string)
    | Exec(id: nat, choice: Choice)

  predicate Enabled(w: World, step: Step) {
    match step
    case Tick(_) => true
    case Arrive(id, _, _, uuid) => id !in w.requests && FreshUuid(w, uuid)
    case Exec(id, ch) => id in w.requests && Possible(w, w.requests[id], ch)
  }

  // A request with no session cookie starts with a new UUID.
  function Begin(cookie: string, action: Action, uuid: string): Request {
    if cookie == "" then Request(action, uuid, None, Save) else Request(action, cookie, None, Lookup)
  }

  function Apply(w: World, id: nat, e: Effect): World {
    World(e.tables, w.now, w.requests[id := e.request], w.log + e.entries, w.issued + e.issued)
  }

  function Do(h: Hash, w: World, step: Step): World
    requires Enabled(w, step)
  {
    match step
    case Tick(seconds) => w.(now := w.now + seconds)
    case Arrive(id, cookie, action, uuid) =>
      w.(requests := w.requests[id := Begin(cookie, action, uuid)],
         issued := if cookie == "" then w.issued + {uuid} else w.issued)
    case Exec(id, ch) => Apply(w, id, Call(h, w, id, w.requests[id], ch))
  }

  predicate Legal(h: Hash, w: World, steps: seq<Step>)
    decreases |steps|
  {
    steps == [] || (Enabled(w, steps[0]) && Legal(h, Do(h, w, steps[0]), steps[1..]))
  }

  function Run(h: Hash, w: World, steps: seq<Step>): World
    requires Legal(h, w, steps)
    decreases |steps|
  {
    if steps == [] then w else Run(h, Do(h, w, steps[0]), steps[1..])
  }

  // The seconds that pass in a run.
  function Elapsed(steps: seq<Step>): nat {
    if steps == [] then 0 else (if steps[0].Tick? then steps[0].seconds else 0) + Elapsed(steps[1..])
  }

  // The time moves by the ticks of the run and by nothing else.
  lemma {:induction false} ClockOfRun(h: Hash, w: World, steps: seq<Step>)
    requires Legal(h, w, steps)
    ensures Run(h, w, steps).now == w.now + Elapsed(steps)
    decreases |steps|
  {
    if steps != [] {
      ClockOfRun(h, Do(h, w, steps[0]), steps[1..]);
    }
  }

  lemma {:induction false} Chain(h: Hash, w: World, a: seq<Step>, b: seq<Step>)
    requires Legal(h, w, a) && Legal(h, Run(h, w, a), b)
    ensures Legal(h, w, a + b) && Run(h, w, a + b) == Run(h, Run(h, w, a), b)
    decreases |a|
  {
    if a == [] {
      assert a + b == b;
    } else {
      assert (a + b)[1..] == a[1..] + b;
      Chain(h, Do(h, w, a[0]), a[1..], b);
    }
  }

  lemma OneStep(h: Hash, w: World, step: Step)
    requires Enabled(w, step)
    ensures Legal(h, w, [step]) && Run(h, w, [step]) == Do(h, w, step)
  {
    var v := Do(h, w, step);
    assert [step][1..] == [] && Legal(h, v, []) && Run(h, v, []) == v;
  }

  lemma Extend(h: Hash, w: World, steps: seq<Step>, step: Step)
    requires Legal(h, w, steps) && Enabled(Run(h, w, steps), step)
    ensures Legal(h, w, steps + [step]) && Run(h, w, steps + [step]) == Do(h, Run(h, w, steps), step)
  {
    OneStep(h, Run(h, w, steps), step);
    Chain(h, w, steps, [step]);
  }

  // A run is one step more than the run without its last step.
  lemma {:induction false} LastStep(h: Hash, w: World, steps: seq<Step>)
    requires steps != [] && Legal(h, w, steps)
    ensures var n := |steps| - 1;
      && Legal(h, w, steps[..n]) && Enabled(Run(h, w, steps[..n]), steps[n])
      && Run(h, w, steps) == Do(h, Run(h, w, steps[..n]), steps[n])
    decreases |steps|
  {
    var n := |steps| - 1;
    if n == 0 {
      assert steps == [steps[0]] && steps[..0] == [];
      OneStep(h, w, steps[0]);
    } else {
      LastStep(h, Do(h, w, steps[0]), steps[1..]);
      assert steps[1..][..n - 1] == steps[..n][1..];
    }
  }

  // Some legal run leads from w to v.
  ghost predicate Ran(h: Hash, w: World, v: World) {
    exists steps :: Legal(h, w, steps) && Run(h, w, steps) == v
  }

  lemma RanNothing(h: Hash, w: World)
    ensures Ran(h, w, w)
  {
    assert Legal(h, w, []) && Run(h, w, []) == w;
  }

  lemma RanOne(h: Hash, w: World, step: Step)
    requires Enabled(w, step)
    ensures Ran(h, w, Do(h, w, step))
  {
    OneStep(h, w, step);
  }

  lemma RanOn(h: Hash, a: World, b: World, c: World)
    requires Ran(h, a, b) && Ran(h, b, c)
    ensures Ran(h, a, c)
  {
    var one :| Legal(h, a, one) && Run(h, a, one) == b;
    var two :| Legal(h, b, two) && Run(h, b, two) == c;
    Chain(h, a, one, two);
  }

  lemma {:induction false} RunGrows(h: Hash, w: World, steps: seq<Step>)
    requires Legal(h, w, steps)
    ensures w.log <= Run(h, w, steps).log && w.issued <= Run(h, w, steps).issued
    decreases |steps|
  {
    if steps != [] { RunGrows(h, Do(h, w, steps[0]), steps[1..]); }
  }

  // The log only grows, and so do the ids issued.
  lemma RanGrows(h: Hash, w: World, v: World)
    requires Ran(h, w, v)
    ensures w.log <= v.log && w.issued <= v.issued
  {
    var steps :| Legal(h, w, steps) && Run(h, w, steps) == v;
    RunGrows(h, w, steps);
  }

  // Before the first request: users with known passwords, and no sessions.
  predicate Initial(h: Hash, w: World, passwords: map<int, string>) {
    && w.requests == map[] && w.log == [] && w.issued == {}
    && w.tables.sessions == map[] && w.tables.userSessions == map[]
    && (forall u :: u in w.tables.users ==>
          u in passwords && w.tables.users[u].salt != ""
          && w.tables.users[u].password == h(w.tables.users[u].salt + passwords[u]))
    && EmailsUnique(w.tables)
  }

  predicate EmailsUnique(t: Tables) {
    forall u, v :: u in t.users && v in t.users && t.users[u].email == t.users[v].email ==> u == v
  }
}
