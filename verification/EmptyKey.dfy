/** The empty CSRF key: a run in which a request that presents it writes an
    article. */
module EmptyKey {
  import opened Common
  import opened Credentials
  import opened Sessions
  import opened SessionSafety
  import Summaries

  lemma Go(h: Hash, start: World, w: World, step: Step)
    requires Ran(h, start, w) && Enabled(w, step)
    ensures Ran(h, start, Do(h, w, step))
  {
    RanOne(h, w, step);
    RanOn(h, start, w, Do(h, w, step));
  }

  lemma {:induction false} NewNumber(taken: set<int>) returns (n: int)
    ensures n !in taken
    ensures forall t :: t in taken ==> t < n
    decreases taken
  {
    if t: int :| t in taken {
      n := NewNumber(taken - {t});
      assert forall x :: x in taken ==> x == t || x in taken - {t};
      if t >= n { n := t + 1; }
    } else {
      n := 0;
    }
  }

  // Request 0 starts a session.
  lemma StartSession(h: Hash, start: World, action: Action) returns (v: World)
    requires start.requests == map[] && start.issued == {} && start.tables.sessions == map[] && start.log == []
    ensures Ran(h, start, v)
    ensures v.tables == start.tables.(sessions := map["a" := start.now]) && v.now == start.now && v.issued == {"a"}
    ensures v.requests == map[0 := Request(action, "a", None, Dispatch(action, None))]
    ensures v.log == [Seen(0, "a", start.now)]
  {
    RanNothing(h, start);
    Go(h, start, start, Arrive(0, "", action, "a"));
    var w := Do(h, start, Arrive(0, "", action, "a"));
    var save := Exec(0, Choice(false, None, None, "b", "s", 0));
    Go(h, start, w, save);
    v := Do(h, w, save);
  }

  // It logs u in on it, with the password of the start.
  lemma LogIn(h: Hash, start: World, passwords: map<int, string>, u: int) returns (v: World)
    requires Initial(h, start, passwords) && u in start.tables.users && start.tables.users[u].active
    ensures Ran(h, start, v)
    ensures v.tables.users == start.tables.users && v.tables.articles == start.tables.articles
    ensures v.tables.sessions == map["a" := start.now] && v.tables.userSessions == map[Link(u, "a") := None]
    ensures v.now == start.now && v.issued == {"a"} && v.requests.Keys == {0}
    ensures v.log == [Seen(0, "a", start.now), Verified(0, u, passwords[u]), LoggedIn(0, u, "a")]
  {
    var action := Login(start.tables.users[u].email, passwords[u]);
    var w := StartSession(h, start, action);
    var fetch := Exec(0, Choice(false, None, Some(u), "b", "s", 0));
    assert UserRow(w.tables, start.tables.users[u].email, Some(u));
    Go(h, start, w, fetch);
    var w' := Do(h, w, fetch);
    assert w'.requests[0] == Request(action, "a", None, MapUser(u));
    var mapped := Exec(0, Choice(false, None, None, "b", "s", 0));
    Go(h, start, w', mapped);
    v := Do(h, w', mapped);
  }

  function Post(content: Content): Action {
    PostArticle(Some(""), Some(content), "")
  }

  // Request 1 brings the session's cookie and finds u there.
  lemma Return(h: Hash, start: World, w: World, u: int, action: Action) returns (v: World)
    requires Ran(h, start, w) && Live(w.tables, w.now, "a") && Link(u, "a") in w.tables.userSessions
    requires 1 !in w.requests && w.issued == {"a"} && w.tables.sessions.Keys == {"a"}
    ensures Ran(h, start, v)
    ensures v.tables == SaveSession(w.tables, "a", w.now) && v.now == w.now && v.issued == {"a"}
    ensures 1 in v.requests && v.requests[1] == Request(action, "a", Some(u), Dispatch(action, Some(u)))
    ensures v.log == w.log + [LookedUp(1, "a", Some(Some(u)), w.now), Seen(1, "a", w.now)]
  {
    var arrive := Arrive(1, "a", action, "b");
    Go(h, start, w, arrive);
    var w1 := Do(h, w, arrive);
    var look := Exec(1, Choice(false, Some(Some(u)), None, "b", "s", 0));
    Go(h, start, w1, look);
    var w2 := Do(h, w1, look);
    var save := Exec(1, Choice(false, None, None, "b", "s", 0));
    Go(h, start, w2, save);
    v := Do(h, w2, save);
  }

  // From any start with an active user, and for any content with a summary, some
  // run writes the article in a request that presents the empty key, although no
  // key has ever been stored.
  lemma EmptyKeyWrites(h: Hash, start: World, passwords: map<int, string>, u: int, content: Content)
      returns (steps: seq<Step>, article: int)
    requires Initial(h, start, passwords) && u in start.tables.users && start.tables.users[u].active
    requires Summaries.Summarize(content.doc).Ok?
    ensures Legal(h, start, steps)
    ensures var w := Run(h, start, steps);
      && |w.log| == 7 && w.log[5] == KeyChecked(1, u, "a", "", true) && w.log[6] == Wrote(1, u, article)
      && (forall e :: e in w.log ==> !e.KeyStored?)
      && article in w.tables.articles && w.tables.articles[article] == ToArticle(Post(content), u)
  {
    var action := Post(content);
    var w := LogIn(h, start, passwords, u);
    var w1 := Return(h, start, w, u, action);
    article := NewNumber(w1.tables.articles.Keys);
    var check := Exec(1, Choice(false, None, None, "b", "s", article));
    assert GetCsrfKey(w1.tables, Link(u, "a")) == Some("");
    Go(h, start, w1, check);
    var w2 := Do(h, w1, check);
    assert w2.requests[1] == Request(action, "a", Some(u), WriteArticle);
    Go(h, start, w2, check);
    var w3 := Do(h, w2, check);
    steps :| Legal(h, start, steps) && Run(h, start, steps) == w3;
  }
}
