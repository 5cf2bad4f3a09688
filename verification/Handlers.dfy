/** One request, from its session to its last call: UserSession, EditHandler's
    save of an article, and UserHandler's login, logout, password change and
    new user.  Other requests run between any two of its calls. */
module Handlers {
  import opened Common
  import Cookies
  import opened Credentials
  import opened Database
  import Markdown
  import opened Numbers
  import opened Sessions
  import opened SessionSafety
  import opened Summaries

  // ---------- UserSession ----------

  // An id that the server has issued since.
  predicate Issued(before: World, now: World, uuid: string) {
    uuid != "" && uuid !in before.issued && uuid in now.issued
  }

  class UserSession {
    const db: DBConn
    const id: nat          // which request this is
    var uuid: string
    var userId: Option<int>

    ghost predicate Valid()
      reads this, db
    {
      && db.Valid() && id in db.world.requests
      && db.world.requests[id].uuid == uuid && db.world.requests[id].userId == userId
    }

    ghost function Now(): Request
      requires Valid()
      reads this, db
    {
      db.world.requests[id]
    }

    constructor (db: DBConn, id: nat)
      ensures this.db == db && this.id == id && uuid == "" && userId == None
    {
      this.db, this.id, uuid, userId := db, id, "", None;
    }

    predicate UserAuthenticated()
      reads this
    {
      userId.Some?
    }

    // The lookup of the cookie's id, which is kept when it is live or when the
    // lookup throws.
    method LookUp() returns (ghost found: Result<Option<Option<int>>>, ghost at: int)
      requires Valid() && Now().pc.Lookup? && userId == None && uuid != ""
      modifies this, db
      ensures Valid() && Now() == Request(old(Now()).action, uuid, userId, Save)
      ensures match found
              case Err(_) => uuid == old(uuid) && userId == None
              case Ok(None) => Issued(old(db.world), db.world, uuid) && userId == None
              case Ok(Some(user)) => uuid == old(uuid) && userId == user
      ensures Ran(db.h, old(db.world), db.world)
      ensures db.Entries(id) == old(db.Entries(id))
        + (if found.Ok? then [LookedUp(id, old(uuid), found.value, at)] else [])
    {
      var session, generated := db.GetSessionInfo(id, uuid);
      found, at := session, db.world.now;
      match session
      case Ok(Some(user)) => userId := user;
      case Ok(None) => uuid := generated;
      case Err(_) =>
    }

    // The request arrives and looks its cookie up, if it has one.
    method Start(cookie: string, action: Action, generated: string)
        returns (ghost found: Result<Option<Option<int>>>, ghost at: int)
      requires db.Valid() && id !in db.world.requests && FreshUuid(db.world, generated) && userId == None
      modifies this, db
      ensures Valid() && Now() == Request(action, uuid, userId, Save) && uuid != ""
      ensures Ran(db.h, old(db.world), db.world)
      ensures cookie == "" ==> uuid == generated && Issued(old(db.world), db.world, uuid) && userId == None
      ensures cookie != "" ==>
        match found
        case Err(_) => uuid == cookie && userId == None
        case Ok(None) => Issued(old(db.world), db.world, uuid) && userId == None
        case Ok(Some(user)) => uuid == cookie && userId == user
      ensures db.Entries(id) == old(db.Entries(id))
        + (if cookie != "" && found.Ok? then [LookedUp(id, cookie, found.value, at)] else [])
    {
      found, at := Err(DbError), 0;
      db.Arrive(id, cookie, action, generated);
      if cookie == "" {
        uuid := generated;
      } else {
        uuid := cookie;
        ghost var arrived := db.world;
        found, at := LookUp();
        RanOn(db.h, old(db.world), arrived, db.world);
      }
    }

    // The id is the cookie's when its lookup found it live or threw, and one the
    // server has not issued before when there is no cookie or nothing was found.
    // found and at are the answer to the lookup and its time; saved says the save
    // did not throw.
    method InitSession(cookie: string, action: Action, generated: string)
        returns (ghost found: Result<Option<Option<int>>>, ghost at: int, ghost saved: bool)
      requires db.Valid() && id !in db.world.requests && FreshUuid(db.world, generated) && userId == None
      modifies this, db
      ensures Valid() && Now() == Request(action, uuid, userId, Dispatch(action, userId)) && uuid != ""
      ensures Ran(db.h, old(db.world), db.world)
      ensures cookie == "" ==> uuid == generated && Issued(old(db.world), db.world, uuid) && userId == None
      ensures cookie != "" ==>
        match found
        case Err(_) => uuid == cookie && userId == None
        case Ok(None) => Issued(old(db.world), db.world, uuid) && userId == None
        case Ok(Some(user)) => uuid == cookie && userId == (if saved then user else None)
      ensures saved ==> uuid in db.world.tables.sessions && db.world.tables.sessions[uuid] == db.world.now
      ensures !saved ==> userId == None
      ensures db.Entries(id) == old(db.Entries(id))
        + (if cookie != "" && found.Ok? then [LookedUp(id, cookie, found.value, at)] else [])
        + (if saved then [Seen(id, uuid, db.world.now)] else [])
      ensures userId.Some? ==> Authenticated(db.world.log, id, userId.value, cookie)
    {
      found, at := Start(cookie, action, generated);
      ghost var ready := db.world;
      var done := db.SaveSession(id, uuid);
      RanOn(db.h, old(db.world), ready, db.world);
      saved := done.Ok?;
      if done.Err? {
        userId := None;
      }
    }

    // The new key is the current one, unless the pair has been logged out.
    method GenCsrfKey() returns (r: Result<string>)
      requires Valid() && (uuid != "" && userId.Some? ==> Now().pc.StoreKey?)
      modifies db
      ensures Valid() && Ran(db.h, old(db.world), db.world)
      ensures uuid == "" || userId.None? ==>
        r == Err(LogicError) && Now() == old(Now()) && db.Entries(id) == old(db.Entries(id))
      ensures uuid != "" && userId.Some? ==>
        && Now() == old(Now()).(pc := Done)
        && db.Entries(id) == old(db.Entries(id)) + (if r.Ok? then [KeyStored(id, userId.value, uuid, r.value)] else [])
        && (r.Ok? && Active(db.world.log, userId.value, uuid) ==>
              Sessions.GetCsrfKey(db.world.tables, Link(userId.value, uuid)) == Some(r.value))
    {
      if uuid == "" || userId.None? {
        RanNothing(db.h, db.world);
        return Err(LogicError);
      }
      r := db.SaveCsrfKey(id, userId.value, uuid);
      assert Link(userId.value, uuid) in db.world.tables.userSessions <==> Active(db.world.log, userId.value, uuid);
    }

    // True exactly for the key stored last for the pair since it was logged in,
    // or for "" when the pair is logged in and no key has been stored.
    method VerifyCsrfKey(csrfkey: string) returns (r: Result<bool>)
      requires Valid()
      requires userId.Some? ==> Now().pc.CheckKey? && Now().action.PostArticle? && Now().action.csrf == Some(csrfkey)
      modifies db
      ensures Valid() && Ran(db.h, old(db.world), db.world)
      ensures userId.None? ==> r == Ok(false) && Now() == old(Now()) && db.Entries(id) == old(db.Entries(id))
      ensures userId.Some? && r.Err? ==>
        r == Err(DbError) && Now() == old(Now()).(pc := Done) && db.Entries(id) == old(db.Entries(id))
      ensures userId.Some? && r.Ok? ==>
        && Now() == old(Now()).(pc := if r.value && Acceptable(old(Now()).action) then WriteArticle else Done)
        && db.Entries(id) == old(db.Entries(id)) + [KeyChecked(id, userId.value, uuid, csrfkey, r.value)]
        && (csrfkey != "" ==> (r.value <==> exists i: nat :: StoredLast(db.world.log, userId.value, uuid, csrfkey, i)))
        && (csrfkey == "" ==>
              (r.value <==> Active(db.world.log, userId.value, uuid) && Key(db.world.log, userId.value, uuid).None?))
    {
      if userId.None? {
        RanNothing(db.h, db.world);
        return Ok(false);
      }
      var expected := db.GetCsrfKey(id, userId.value, uuid);
      if expected.Err? {
        return Err(DbError);
      }
      if csrfkey == "" {
        VerifyEmptyKey(db.world, userId.value, uuid);
      } else {
        VerifyIsCurrentKey(db.world, userId.value, uuid, csrfkey);
      }
      if expected.value.None? {
        return Ok(false);
      }
      r := Ok(expected.value.value == csrfkey);
    }

    method LogoutUser() returns (r: Result<()>)
      requires Valid() && userId.Some? && Now().pc.UnmapUser?
      modifies this, db
      ensures Valid() && uuid == old(uuid) && Ran(db.h, old(db.world), db.world)
      ensures Now() == old(Now()).(userId := userId, pc := Done)
      ensures if r.Ok? then
                && userId == None && db.Entries(id) == old(db.Entries(id)) + [LoggedOut(id, old(userId.value), uuid)]
                && !Active(db.world.log, old(userId.value), uuid)
              else userId == old(userId) && db.Entries(id) == old(db.Entries(id))
    {
      r := db.UnmapUuidToUser(id, uuid, userId.value);
      if r.Ok? {
        assert Link(userId.value, uuid) in db.world.tables.userSessions <==> Active(db.world.log, userId.value, uuid);
        userId := None;
      }
    }
  }

  // ---------- HandlerBase ----------

  // The fields of one Cookie header.
  function Fields(header: string): seq<string> {
    Cookies.Tokens(header, "; ")
  }

  predicate Readable(header: string) {
    Cookies.NUL !in header && forall f :: f in Fields(header) ==> Cookies.HasNameAndValue(f)
  }

  function StoreAll(jar: map<string, string>, headers: seq<string>): map<string, string>
    requires forall h :: h in headers ==> Readable(h)
    decreases |headers|
  {
    if headers == [] then jar
    else
      assert Readable(headers[0]);
      StoreAll(Cookies.Store(jar, Fields(headers[0])), headers[1..])
  }

  // Headers are stored in order, each as its fields between blanks and
  // semicolons.
  lemma {:induction false} StoreAllMeans(jar: map<string, string>, headers: seq<string>, last: string)
    requires forall h :: h in headers ==> Readable(h)
    requires Readable(last)
    ensures StoreAll(jar, []) == jar
    ensures StoreAll(jar, headers + [last])
         == Cookies.Store(StoreAll(jar, headers), Cookies.Tokens(last, "; "))
    decreases |headers|
  {
    if headers == [] {
      assert headers + [last] == [last] && [last][1..] == [];
    } else {
      assert Readable(headers[0]) && (headers + [last])[1..] == headers[1..] + [last];
      StoreAllMeans(Cookies.Store(jar, Fields(headers[0])), headers[1..], last);
    }
  }

  class HandlerBase {
    const session: UserSession
    const jar: Cookies.CookieJar

    constructor (session: UserSession, jar: Cookies.CookieJar)
      ensures this.session == session && this.jar == jar
    {
      this.session, this.jar := session, jar;
    }

    // The session is started with the cookie sent last under its name, if any,
    // and the answer carries the id the request ends up with.
    method OnRequest(headers: seq<string>, action: Action, generated: string)
        returns (ghost found: Result<Option<Option<int>>>, ghost at: int, ghost saved: bool)
      requires session.db.Valid() && session.id !in session.db.world.requests && session.userId == None
      requires FreshUuid(session.db.world, generated)
      requires forall h :: h in headers ==> Readable(h)
      modifies session, session.db, jar
      ensures session.Valid() && Ran(session.db.h, old(session.db.world), session.db.world)
      ensures session.Now() == Request(action, session.uuid, session.userId, Dispatch(action, session.userId))
      ensures jar.cookieJar == StoreAll(old(jar.cookieJar), headers)["session" := session.uuid]
      ensures var sent := StoreAll(old(jar.cookieJar), headers);
        if "session" !in sent || sent["session"] == "" then
          && session.uuid == generated && Issued(old(session.db.world), session.db.world, session.uuid)
          && session.userId == None
        else
          match found
          case Err(_) => session.uuid == sent["session"] && session.userId == None
          case Ok(None) => Issued(old(session.db.world), session.db.world, session.uuid) && session.userId == None
          case Ok(Some(user)) => session.uuid == sent["session"] && session.userId == (if saved then user else None)
      ensures var sent := StoreAll(old(jar.cookieJar), headers);
        session.db.Entries(session.id) == old(session.db.Entries(session.id))
          + (if "session" in sent && sent["session"] != "" && found.Ok? then
               [LookedUp(session.id, sent["session"], found.value, at)] else [])
          + (if saved then [Seen(session.id, session.uuid, session.db.world.now)] else [])
      ensures saved ==> session.uuid in session.db.world.tables.sessions
    {
      ghost var all := StoreAll(jar.cookieJar, headers);
      for i := 0 to |headers|
        invariant StoreAll(jar.cookieJar, headers[i..]) == all
        invariant session.db.world == old(session.db.world) && session.userId == None
      {
        var text := headers[i] + [Cookies.NUL];
        assert Readable(headers[i]) && headers[i..][0] == headers[i] && headers[i..][1..] == headers[i + 1..];
        Cookies.BufferHolds(headers[i]);
        var buffer := new char[|text|](k requires 0 <= k < |text| => text[k]);
        assert buffer[..] == text;
        jar.ParseCookies(buffer);
      }
      var uuid := jar.GetCookie("session");
      found, at, saved := session.InitSession(if uuid.Some? then uuid.value else "", action, generated);
      jar.AddCookie("session", session.uuid);
    }
  }

  // What a handler leaves: a redirect, a page, or an exception.
  datatype Outcome = Redirect(path: string) | Page | Handed(page: EditPage) | Thrown(error: Error)

  datatype EditPage = Main | New | SaveArticle | EditArticle | Upload | ViewUpload

  // ---------- EditHandler ----------

  // Which page a path is, with one slash at its end dropped.
  function Route(path: string): Option<EditPage>
    requires path != ""
  {
    var p := if path[|path| - 1] == '/' then path[..|path| - 1] else path;
    if p == "/edit" then Some(Main)
    else if p == "/edit/new" then Some(New)
    else if p == "/edit/savearticle" then Some(SaveArticle)
    else if "/edit/article" <= p then Some(EditArticle)
    else if p == "/edit/upload" then Some(Upload)
    else if p == "/edit/viewupload" then Some(ViewUpload)
    else None
  }

  // What processSaveArticle throws once the key is accepted, if anything.
  function Refusal(a: Action): Option<Error>
    requires a.PostArticle?
  {
    if a.content.None? || !Digits(a.articleId) then Some(HandlerError(400))
    else match Summarize(a.content.value.doc) case Ok(_) => None case Err(e) => Some(e)
  }

  // The content must be there, the number all digits, the summary one that can
  // be built.
  lemma RefusalMeans(csrf: Option<string>, content: Option<Content>, articleId: string)
    ensures var refusal := Refusal(PostArticle(csrf, content, articleId));
      if content.None? || exists c :: c in articleId && !('0' <= c <= '9') then refusal == Some(HandlerError(400))
      else if Summarize(content.value.doc).Err? then refusal == Some(Summarize(content.value.doc).error)
      else refusal == None && Acceptable(PostArticle(csrf, content, articleId))
  {
  }

  // The article that is written: its fields.
  lemma ArticleMeans(csrf: Option<string>, markdown: string, doc: Markdown.Node, articleId: string, u: int)
    requires Acceptable(PostArticle(csrf, Some(Content(markdown, doc)), articleId))
    ensures var a := ToArticle(PostArticle(csrf, Some(Content(markdown, doc)), articleId), u);
      && a.userid == u && a.content == markdown && Summarize(doc).Ok?
      && a.title == Summarize(doc).value.title && a.summary == Summarize(doc).value.preview
  {
  }

  lemma RouteMeans(path: string)
    requires path != ""
    ensures Route(path) == Some(Main) <==> path == "/edit" || path == "/edit/"
    ensures Route(path) == Some(New) <==> path == "/edit/new" || path == "/edit/new/"
    ensures Route(path) == Some(SaveArticle) <==> path == "/edit/savearticle" || path == "/edit/savearticle/"
  {
    var n := |path| - 1;
    assert path == path[..n] + [path[n]];
  }

  lemma RouteOfArticle(path: string)
    requires path != ""
    ensures Route(path) == Some(EditArticle) <==> "/edit/article" <= path
  {
    var n := |path| - 1;
    var prefix := "/edit/article";
    assert path == path[..n] + [path[n]];
    assert prefix[6] == 'a' && prefix[12] == 'e' && "/edit/savearticle"[6] == 's' && "/edit/new"[6] == 'n';
    if prefix <= path && path[n] == '/' {
      assert path[12] == prefix[12] && prefix <= path[..n];
    }
  }

  lemma RouteOfUploads(path: string)
    requires path != ""
    ensures Route(path) == Some(Upload) <==> path == "/edit/upload" || path == "/edit/upload/"
    ensures Route(path) == Some(ViewUpload) <==> path == "/edit/viewupload" || path == "/edit/viewupload/"
  {
    var n := |path| - 1;
    assert path == path[..n] + [path[n]];
    assert "/edit/article"[6] == 'a' && "/edit/upload"[6] == 'u' && "/edit/viewupload"[6] == 'v';
  }

  class EditHandler {
    const db: DBConn
    const session: UserSession
    var response: string
    var cookies: map<string, string>

    ghost predicate Valid()
      reads this, session, db
    {
      session.db == db && session.Valid()
    }

    constructor (session: UserSession)
      ensures this.session == session && db == session.db && response == "" && cookies == map[]
    {
      this.session, db, response, cookies := session, session.db, "", map[];
    }

    static method AllDigits(s: string) returns (ok: bool)
      ensures ok <==> Digits(s)
      ensures ok <==> forall c :: c in s ==> '0' <= c <= '9'
    {
      for i := 0 to |s|
        invariant Digits(s[..i])
      {
        if !('0' <= s[i] <= '9') {
          assert s[i] in s;
          return false;
        }
        assert s[..i + 1] == s[..i] + [s[i]];
      }
      assert s[..|s|] == s;
      return true;
    }

    // wrote is None when the number is that of no article.
    method StoreArticle(title: string, preview: string, markdown: string, articleId: string)
        returns (r: Result<()>, ghost wrote: Option<int>)
      requires Valid() && session.Now().pc.WriteArticle? && session.userId.Some?
      requires Writes(session.Now(), Article(session.userId.value, title, preview, markdown))
      requires session.Now().action.articleId == articleId
      modifies this`response, db
      ensures Valid() && session.Now() == old(session.Now()).(pc := Done)
      ensures Ran(db.h, old(db.world), db.world)
      ensures db.Entries(session.id) == old(db.Entries(session.id))
        + (if wrote.Some? then [Wrote(session.id, session.userId.value, wrote.value)] else [])
      ensures if r.Ok? then wrote.None? <==> articleId != "" && Number(articleId) !in db.world.tables.articles
              else r == Err(DbError) && wrote.None?
      ensures wrote.Some? ==>
        && wrote.value in db.world.tables.articles
        && db.world.tables.articles[wrote.value] == Article(session.userId.value, title, preview, markdown)
        && (articleId != "" ==> wrote.value == Number(articleId))
      ensures response == old(response) + (
        if r.Err? then ""
        else if articleId != "" then "<p>Article updated</p>"
        else if wrote == Some(0) then ""
        else "<p>New article ID: " + IntText(wrote.value) + "</p>")
    {
      wrote := None;
      var u := session.userId.value;
      if articleId == "" {
        var saved := db.SaveArticle(session.id, u, title, preview, markdown);
        if saved.Err? {
          return Err(DbError), None;
        }
        wrote := Some(saved.value);
        if saved.value != 0 {
          response := response + ("<p>New article ID: " + IntText(saved.value) + "</p>");
        }
      } else {
        var updated := db.UpdateArticle(session.id, u, title, preview, markdown, articleId);
        if updated.Err? {
          return Err(DbError), None;
        }
        wrote := if Number(articleId) in db.world.tables.articles then Some(Number(articleId)) else None;
        response := response + "<p>Article updated</p>";
      }
      r := Ok(());
    }

    // The summary is built, and the article stored.
    method BuildAndStore(content: Content, articleId: string) returns (r: Result<()>, ghost wrote: Option<int>)
      requires Valid() && session.userId.Some? && session.Now().action.PostArticle?
      requires session.Now().action.content == Some(content) && session.Now().action.articleId == articleId
      requires Digits(articleId)
      requires session.Now().pc == (if Acceptable(session.Now().action) then WriteArticle else Done)
      requires Markdown.WellFormed(content.doc) && content.doc.kind.Document?
      modifies this`response, db
      ensures Valid() && session.Now() == old(session.Now()).(pc := Done)
      ensures Ran(db.h, old(db.world), db.world)
      ensures db.Entries(session.id) == old(db.Entries(session.id))
        + (if wrote.Some? then [Wrote(session.id, session.userId.value, wrote.value)] else [])
      ensures match Summarize(content.doc)
              case Err(e) => r == Err(e)
              case Ok(_) => r.Err? ==> r == Err(DbError)
      ensures r.Err? ==> wrote.None?
      ensures r.Ok? ==> (wrote.None? <==> articleId != "" && Number(articleId) !in db.world.tables.articles)
      ensures wrote.Some? ==>
        && Acceptable(session.Now().action) && wrote.value in db.world.tables.articles
        && db.world.tables.articles[wrote.value] == ToArticle(session.Now().action, session.userId.value)
        && (articleId != "" ==> wrote.value == Number(articleId))
      ensures response == old(response) + (
        if r.Err? then ""
        else if articleId != "" then "<p>Article updated</p>"
        else if wrote == Some(0) then ""
        else "<p>New article ID: " + IntText(wrote.value) + "</p>")
    {
      RanNothing(db.h, db.world);
      var builder := new SummaryBuilder();
      var built := builder.Build(content.doc);
      if built.Err? {
        return built, None;
      }
      r, wrote := StoreArticle(builder.title, builder.preview, content.markdown, articleId);
    }

    // checked is what the check of the key said, if it was made; wrote is the
    // article that was written, if one was.
    method ProcessSaveArticle(post: bool, csrf: Option<string>, content: Option<Content>, articleId: string)
        returns (r: Result<()>, ghost checked: Option<bool>, ghost wrote: Option<int>)
      requires Valid() && session.userId.Some?
      requires session.Now().action == (if post then PostArticle(csrf, content, articleId) else Other)
      requires session.Now().pc == Dispatch(session.Now().action, session.userId)
      requires content.Some? ==> Markdown.WellFormed(content.value.doc) && content.value.doc.kind.Document?
      modifies this`response, db
      ensures Valid() && session.Now() == old(session.Now()).(pc := Done)
      ensures Ran(db.h, old(db.world), db.world)
      ensures checked.Some? ==> post && csrf.Some?
      ensures var u, sid := session.userId.value, session.uuid;
        db.Entries(session.id) == old(db.Entries(session.id))
          + (if checked.Some? then [KeyChecked(session.id, u, sid, csrf.value, checked.value)] else [])
          + (if wrote.Some? then [Wrote(session.id, u, wrote.value)] else [])
      // the exceptions, in the order of the checks
      ensures !post ==> r == Err(HandlerError(405))
      ensures post && (csrf.None? || checked == Some(false)) ==> r == Err(HandlerError(401))
      ensures post && csrf.Some? && checked.None? ==> r == Err(DbError)
      ensures checked == Some(true) ==>
        var refusal := Refusal(session.Now().action);
        if refusal.Some? then r == Err(refusal.value) else r.Err? ==> r == Err(DbError)
      // what is written
      ensures wrote.Some? ==>
        && r.Ok? && checked == Some(true) && Acceptable(session.Now().action)
        && wrote.value in db.world.tables.articles
        && db.world.tables.articles[wrote.value] == ToArticle(session.Now().action, session.userId.value)
        && (articleId != "" ==> wrote.value == Number(articleId))
      ensures r.Ok? ==> checked == Some(true) && Acceptable(session.Now().action)
      ensures r.Ok? ==> (wrote.None? <==> articleId != "" && Number(articleId) !in db.world.tables.articles)
      ensures response == old(response) + (
        if r.Err? then ""
        else if articleId != "" then "<p>Article updated</p>"
        else if wrote == Some(0) then ""
        else "<p>New article ID: " + IntText(wrote.value) + "</p>")
    {
      checked, wrote := None, None;
      RanNothing(db.h, db.world);
      if !post {
        return Err(HandlerError(405)), None, None;
      }
      if csrf.None? {
        return Err(HandlerError(401)), None, None;
      }
      var verified := session.VerifyCsrfKey(csrf.value);
      if verified.Err? {
        return Err(DbError), None, None;
      }
      checked := Some(verified.value);
      if !verified.value {
        return Err(HandlerError(401)), checked, None;
      }
      if content.None? {
        return Err(HandlerError(400)), checked, None;
      }
      var numeric := AllDigits(articleId);
      if !numeric {
        return Err(HandlerError(400)), checked, None;
      }
      ghost var kept := db.world;
      r, wrote := BuildAndStore(content.value, articleId);
      RanOn(db.h, old(db.world), kept, db.world);
    }

    // The gate: no page without a user.  made is what the calls of the request
    // did; wrote is the article that was written, if one was.
    method ProcessRequest(path: string, post: bool, csrf: Option<string>, content: Option<Content>, articleId: string)
        returns (r: Outcome, ghost made: seq<Entry>, ghost wrote: Option<int>)
      requires Valid() && path != ""
      requires Route(path) == Some(SaveArticle) ==>
        && session.Now().action == (if post then PostArticle(csrf, content, articleId) else Other)
        && session.Now().pc == Dispatch(session.Now().action, session.userId)
      requires content.Some? ==> Markdown.WellFormed(content.value.doc) && content.value.doc.kind.Document?
      modifies this, db
      ensures Valid() && db.Entries(session.id) == old(db.Entries(session.id)) + made
      ensures Ran(db.h, old(db.world), db.world) && session.Now().action == old(session.Now()).action
      ensures session.userId.None? ==>
        r == Redirect("/user/login") && cookies == old(cookies)["session" := session.uuid]
      ensures session.userId.Some? && Route(path).None? ==> r == Thrown(HandlerError(404))
      ensures session.userId.Some? && Route(path).Some? && Route(path).value != SaveArticle ==>
        r == Handed(Route(path).value)
      ensures session.userId.None? || Route(path) != Some(SaveArticle) ==> made == [] && db.world == old(db.world)
      ensures session.userId.Some? && Route(path) == Some(SaveArticle) ==>
        && (r == Page || r.Thrown?)
        && (!post ==> r == Thrown(HandlerError(405)) && made == [])
        && (post && csrf.None? ==> r == Thrown(HandlerError(401)) && made == [])
      ensures r == Page ==>
        && csrf.Some? && session.userId.Some? && Acceptable(session.Now().action)
        && made == [KeyChecked(session.id, session.userId.value, session.uuid, csrf.value, true)]
                   + (if wrote.Some? then [Wrote(session.id, session.userId.value, wrote.value)] else [])
      ensures r == Page ==> (wrote.None? <==> articleId != "" && Number(articleId) !in db.world.tables.articles)
      ensures r == Page && wrote.Some? ==>
        && wrote.value in db.world.tables.articles
        && db.world.tables.articles[wrote.value] == ToArticle(session.Now().action, session.userId.value)
        && (articleId != "" ==> wrote.value == Number(articleId))
      ensures r != Page ==> forall e :: e in made ==> !e.Wrote?
    {
      made, wrote := [], None;
      RanNothing(db.h, db.world);
      if !session.UserAuthenticated() {
        cookies := cookies["session" := session.uuid];
        return Redirect("/user/login"), [], None;
      }
      var page := Route(path);
      if page.None? {
        return Thrown(HandlerError(404)), [], None;
      }
      if page.value != SaveArticle {
        return Handed(page.value), [], None;
      }
      var saved;
      ghost var checked;
      saved, checked, wrote := ProcessSaveArticle(post, csrf, content, articleId);
      ghost var u, sid := session.userId.value, session.uuid;
      made := (if checked.Some? then [KeyChecked(session.id, u, sid, csrf.value, checked.value)] else [])
        + (if wrote.Some? then [Wrote(session.id, u, wrote.value)] else []);
      r := if saved.Ok? then Page else Thrown(saved.error);
    }
  }

  // ---------- UserHandler ----------

  // Of an email that a user had before: the users of it since.
  lemma EmailStays(w: World, v: World, email: string)
    requires Later(w, v) && EmailsUnique(v.tables)
    ensures EmailTaken(w.tables, email) ==> EmailTaken(v.tables, email)
    ensures EmailTaken(w.tables, email) && UserRow(w.tables, email, None) ==>
      forall u :: !UserRow(v.tables, email, Some(u))
  {
    if EmailTaken(w.tables, email) && UserRow(w.tables, email, None) {
      var u :| u in w.tables.users && w.tables.users[u].email == email;
      assert !w.tables.users[u].active && u in v.tables.users && v.tables.users[u].email == email;
    }
  }

  class UserHandler {
    const db: DBConn
    const session: UserSession
    var cookies: map<string, string>

    ghost predicate Valid()
      reads this, session, db
    {
      session.db == db && session.Valid()
    }

    constructor (session: UserSession)
      ensures this.session == session && db == session.db && cookies == map[]
    {
      this.session, db, cookies := session, session.db, map[];
    }

    // The user is the active one of that email whose password last set has the
    // same hash, as the database stood when it was asked (seen); a redirect comes
    // exactly when the session was mapped to that user.
    method ProcessLogin(login: Option<string>, pass: Option<string>)
        returns (r: Outcome, ghost user: Option<int>, ghost seen: World)
      requires Valid()
      requires login.Some? && pass.Some? ==>
        session.Now().pc.FetchLogin? && session.Now().action == Login(login.value, pass.value)
      modifies this`cookies, db
      ensures Valid() && Ran(db.h, old(db.world), seen) && Ran(db.h, seen, db.world)
      ensures login.Some? && pass.Some? ==>
        && session.Now() == old(session.Now()).(pc := Done)
        && session.id in seen.requests
        && seen.requests[session.id].pc == (if user.Some? then MapUser(user.value) else Done)
      ensures login.None? || pass.None? ==> r == Page && user.None?
      ensures r.Redirect? ==> user.Some?
      ensures user.Some? ==> r.Redirect? || r == Thrown(DbError)
      ensures login.Some? && pass.Some? && (r.Thrown? ==> user.Some?) ==>
        forall u :: user == Some(u) <==>
          UserRow(seen.tables, login.value, Some(u)) && RightPassword(db.h, db.passwords, seen, u, pass.value)
      ensures db.Entries(session.id) == old(db.Entries(session.id))
        + (if user.Some? then [Verified(session.id, user.value, pass.value)] else [])
        + (if r.Redirect? then [LoggedIn(session.id, user.value, session.uuid)] else [])
      ensures r.Redirect? ==>
        && r.path == "/" && cookies == old(cookies)["session" := session.uuid]
        && Active(db.world.log, user.value, session.uuid)
      ensures !r.Redirect? ==> cookies == old(cookies) && ((r == Page && user.None?) || r == Thrown(DbError))
    {
      user, seen := None, db.world;
      RanNothing(db.h, seen);
      if login.Some? && pass.Some? {
        var found, random := db.GetUserByEmail(session.id, login.value);
        seen := db.world;
        RanNothing(db.h, seen);
        if found.Err? {
          return Thrown(found.error), None, seen;
        }
        if found.value.Some? {
          var (uid, record) := found.value.value;
          assert forall u :: UserRow(seen.tables, login.value, Some(u)) ==> u == uid;
          AuthenticatesIff(db.h, db.passwords, seen, uid, pass.value, random);
          if Authenticates(db.h, record, pass.value, random) {
            user := Some(uid);
            var mapped := db.MapUuidToUser(session.id, session.uuid, uid);
            if mapped.Err? {
              return Thrown(DbError), user, seen;
            }
            assert Link(uid, session.uuid) in db.world.tables.userSessions <==> Active(db.world.log, uid, session.uuid);
            cookies := cookies["session" := session.uuid];
            return Redirect("/"), user, seen;
          }
        }
      }
      r := Page;
    }

    method ProcessLogout() returns (r: Outcome)
      requires Valid() && session.userId.Some? && session.Now().pc.UnmapUser?
      modifies session, db
      ensures Valid() && Ran(db.h, old(db.world), db.world)
      ensures session.Now() == old(session.Now()).(userId := session.userId, pc := Done)
      ensures r == Redirect("/") || r == Thrown(DbError)
      ensures r.Redirect? ==>
        && session.userId == None && !Active(db.world.log, old(session.userId.value), session.uuid)
        && db.Entries(session.id) == old(db.Entries(session.id))
             + [LoggedOut(session.id, old(session.userId.value), session.uuid)]
      ensures !r.Redirect? ==>
        session.userId == old(session.userId) && db.Entries(session.id) == old(db.Entries(session.id))
    {
      var done := session.LogoutUser();
      r := if done.Ok? then Redirect("/") else Thrown(DbError);
    }

    // The old password is accepted exactly when, as the database stood when it
    // was asked (seen), the user was active and the password last set has the
    // same hash; true means that the new one was then stored.
    method ChangeUserPassword(oldPass: string, newPass: string)
        returns (r: Result<bool>, ghost verified: bool, ghost seen: World)
      requires Valid()
      requires session.userId.Some? ==>
        session.Now().pc.FetchSelf? && session.Now().action == ChangePass(oldPass, newPass)
      modifies db
      ensures Valid() && Ran(db.h, old(db.world), seen) && Ran(db.h, seen, db.world)
      ensures session.userId.Some? ==>
        && session.Now() == old(session.Now()).(pc := Done)
        && session.id in seen.requests
        && (if verified then seen.requests[session.id].pc.StorePassword? else seen.requests[session.id].pc == Done)
      ensures session.userId.None? ==> r == Err(InvalidArgument)
      ensures session.userId.Some? && r.Err? ==> r == Err(DbError)
      ensures verified ==> session.userId.Some?
      ensures session.userId.Some? && (r.Err? ==> verified) ==>
        var u := session.userId.value;
        verified <==>
          (u in seen.tables.users && seen.tables.users[u].active && RightPassword(db.h, db.passwords, seen, u, oldPass))
      ensures r.Ok? ==> r.value == verified
      ensures db.Entries(session.id) == old(db.Entries(session.id))
        + (if verified then [Verified(session.id, session.userId.value, oldPass)] else [])
        + (if r == Ok(true) then [PasswordSet(session.id, session.userId.value, newPass)] else [])
      ensures r == Ok(true) && session.userId.value in db.world.tables.users ==>
        var user := db.world.tables.users[session.userId.value];
        user.salt != "" && user.password == db.h(user.salt + newPass)
    {
      verified, seen := false, db.world;
      RanNothing(db.h, seen);
      if session.userId.None? {
        return Err(InvalidArgument), false, seen;
      }
      var u := session.userId.value;
      var found, random := db.GetUserById(session.id, u);
      seen := db.world;
      RanNothing(db.h, seen);
      if found.Err? {
        return Err(DbError), false, seen;
      }
      if found.value.Some? { AuthenticatesIff(db.h, db.passwords, seen, u, oldPass, random); }
      if found.value.None? || !Authenticates(db.h, found.value.value, oldPass, random) {
        return Ok(false), false, seen;
      }
      verified := true;
      var (newHash, newSalt) := HashPassword(db.h, newPass, "", random);
      var saved := db.SavePassword(session.id, u, newHash, newSalt, newPass);
      r := if saved.Ok? then Ok(true) else Err(DbError);
    }

    // False when an active user has the email; a duplicate of an inactive one
    // is an exception.
    method CreateLogin(email: string, pass: string, name: string) returns (r: Result<bool>, ghost serial: int)
      requires Valid() && session.Now().pc.FetchEmail? && session.Now().action == AddUser(email, pass, name)
      modifies db
      ensures Valid() && Ran(db.h, old(db.world), db.world)
      ensures session.Now() == old(session.Now()).(pc := Done)
      ensures r.Err? ==> r == Err(DbError)
      ensures db.Entries(session.id) == old(db.Entries(session.id))
        + (if r == Ok(true) then [UserAdded(session.id, serial, pass)] else [])
      ensures r == Ok(false) ==> exists u :: UserRow(db.world.tables, email, Some(u))
      ensures old(EmailTaken(db.world.tables, email)) ==> r != Ok(true)
      ensures old(EmailTaken(db.world.tables, email) && UserRow(db.world.tables, email, None)) ==> r == Err(DbError)
      ensures r == Ok(true) ==>
        forall v :: v in db.world.tables.users && db.world.tables.users[v].email == email ==> v == serial
      ensures r == Ok(true) ==>
        && serial in db.world.tables.users
        && var user := db.world.tables.users[serial];
           user.email == email && user.fullname == name && user.active
           && user.salt != "" && user.password == db.h(user.salt + pass)
    {
      serial := 0;
      var found, random := db.GetUserByEmail(session.id, email);
      if found.Err? {
        return Err(DbError), 0;
      }
      if found.value.Some? {
        assert UserRow(db.world.tables, email, Some(found.value.value.0));
        EmailStays(old(db.world), db.world, email);
        return Ok(false), 0;
      }
      assert old(EmailTaken(db.world.tables, email)) ==> EmailTaken(db.world.tables, email) by {
        EmailStays(old(db.world), db.world, email);
      }
      var (hash, salt) := HashPassword(db.h, pass, "", random);
      var added;
      ghost var looked := db.world;
      added, serial := db.AddUser(session.id, email, hash, salt, name, pass);
      RanOn(db.h, old(db.world), looked, db.world);
      r := if added.Ok? then Ok(true) else Err(DbError);
    }
  }
}
