/** SummaryBuilder: the title and the preview of an article, by scans that
    share one iterator and stop early. */
module Summaries {
  import opened Common
  import opened Markdown
  import R = RenderArticle

  // ---------- what is meant: the text of the tree ----------

  // The text runs under n, in order.
  function TextOf(n: Node): string {
    match n.kind
    case TextRun(literal) => literal
    case _ => TextOfAll(n.kids)
  }

  function TextOfAll(ns: seq<Node>): string {
    if ns == [] then "" else TextOf(ns[0]) + TextOfAll(ns[1..])
  }

  // The first paragraph in document order.
  function FirstParagraph(n: Node): Option<Node> {
    if n.kind.Paragraph? then Some(n) else FirstParagraphOf(n.kids)
  }

  function FirstParagraphOf(ns: seq<Node>): Option<Node> {
    if ns == [] then None
    else if FirstParagraph(ns[0]).Some? then FirstParagraph(ns[0])
    else FirstParagraphOf(ns[1..])
  }

  const PREVIEW_SIZE := 256

  function Shorten(s: string): string {
    if |s| > PREVIEW_SIZE then s[..PREVIEW_SIZE] else s
  }

  datatype Summary = Summary(title: string, preview: string)

  // The outcome for a fresh builder.
  function Summarize(doc: Node): Result<Summary> {
    if doc.kids == [] then Ok(Summary("", ""))
    else if !doc.kids[0].kind.Heading? then Err(HandlerError(400))
    else if TextOf(doc.kids[0]) == "" then Err(InvalidArgument)
    else
      match FirstParagraphOf(doc.kids[1..])
      case None => Ok(Summary(TextOf(doc.kids[0]), ""))
      case Some(par) =>
        if TextOf(par) == "" then Err(InvalidArgument)
        else Ok(Summary(TextOf(doc.kids[0]), Shorten(TextOf(par))))
  }

  // ---------- what the scans see: the rest of the event stream ----------

  datatype Target = ToHeading | ToParagraph

  predicate Stops(ev: Event, target: Target) {
    ev.Exit? && (if target.ToHeading? then ev.kind.Heading? else ev.kind.Paragraph?)
  }

  function EventText(ev: Event): string {
    if ev.Enter? && ev.kind.TextRun? then ev.kind.literal else ""
  }

  // The text runs entered before the scan stops.
  function TextBefore(evs: seq<Event>, target: Target): string {
    if evs == [] || Stops(evs[0], target) then "" else EventText(evs[0]) + TextBefore(evs[1..], target)
  }

  // How many events the scan takes.
  function Length(evs: seq<Event>, target: Target): (n: nat)
    ensures n <= |evs|
  {
    if evs == [] then 0 else if Stops(evs[0], target) then 1 else 1 + Length(evs[1..], target)
  }

  // Inlines are scanned through: their text, all of it, and on to what follows.
  lemma {:induction false} ScanInlines(ns: seq<Node>, rest: seq<Event>, target: Target)
    requires AllInline(ns)
    ensures TextBefore(EventsAll(ns) + rest, target) == TextOfAll(ns) + TextBefore(rest, target)
    ensures Length(EventsAll(ns) + rest, target) == |EventsAll(ns)| + Length(rest, target)
    decreases ns
  {
    if ns == [] {
      assert [] + rest == rest;
      assert "" + TextBefore(rest, target) == TextBefore(rest, target);
    } else {
      var n := ns[0];
      assert n in ns;
      var tail := EventsAll(ns[1..]) + rest;
      Assoc(Events(n), EventsAll(ns[1..]), rest);
      ScanInlines(ns[1..], rest, target);
      ScanInline(n, tail, target);
      Assoc(TextOf(n), TextOfAll(ns[1..]), TextBefore(rest, target));
    }
  }

  lemma {:induction false} ScanInline(n: Node, tail: seq<Event>, target: Target)
    requires WellFormed(n) && Inline(n.kind)
    ensures TextBefore(Events(n) + tail, target) == TextOf(n) + TextBefore(tail, target)
    ensures Length(Events(n) + tail, target) == |Events(n)| + Length(tail, target)
    decreases n, 0
  {
    var k := n.kind;
    if Leaf(k) {
      assert Events(n) == [Enter(k)];
      ScanOne(Enter(k), tail, target);
      assert TextOfAll(n.kids) == "";
    } else {
      var after := [Exit(k)] + tail;
      ScanInlines(n.kids, after, target);
      ScanOne(Exit(k), tail, target);
      ScanOne(Enter(k), EventsAll(n.kids) + after, target);
      assert Events(n) + tail == [Enter(k)] + (EventsAll(n.kids) + after);
      assert "" + TextBefore(EventsAll(n.kids) + after, target) == TextBefore(EventsAll(n.kids) + after, target);
      assert "" + TextBefore(tail, target) == TextBefore(tail, target);
    }
  }

  lemma ScanOne(ev: Event, rest: seq<Event>, target: Target)
    requires !Stops(ev, target)
    ensures TextBefore([ev] + rest, target) == EventText(ev) + TextBefore(rest, target)
    ensures Length([ev] + rest, target) == 1 + Length(rest, target)
  {
    assert ([ev] + rest)[1..] == rest;
  }

  lemma ScanStops(ev: Event, rest: seq<Event>, target: Target)
    requires Stops(ev, target)
    ensures TextBefore([ev] + rest, target) == "" && Length([ev] + rest, target) == 1
  {
  }

  // The stretch of events of the first paragraph, if there is one.
  lemma {:induction false} LocateParagraph(n: Node) returns (pre: seq<Event>, post: seq<Event>)
    requires WellFormed(n)
    ensures Enter(Paragraph) !in pre
    ensures FirstParagraph(n).None? ==> pre == Events(n)
    ensures FirstParagraph(n).Some? ==>
      var par := FirstParagraph(n).value;
      WellFormed(par) && par.kind.Paragraph? && Events(n) == pre + Events(par) + post
    decreases n, 0
  {
    if n.kind.Paragraph? {
      pre, post := [], [];
    } else {
      pre, post := LocateParagraphIn(n.kids);
      var exit := if Leaf(n.kind) then [] else [Exit(n.kind)];
      pre := [Enter(n.kind)] + pre;
      if FirstParagraphOf(n.kids).None? {
        pre := pre + exit;
      } else {
        post := post + exit;
        assert n.kids != [];
      }
    }
  }

  lemma {:induction false} LocateParagraphIn(ns: seq<Node>) returns (pre: seq<Event>, post: seq<Event>)
    requires AllWellFormed(ns)
    ensures Enter(Paragraph) !in pre
    ensures FirstParagraphOf(ns).None? ==> pre == EventsAll(ns)
    ensures FirstParagraphOf(ns).Some? ==>
      var par := FirstParagraphOf(ns).value;
      WellFormed(par) && par.kind.Paragraph? && EventsAll(ns) == pre + Events(par) + post
    decreases ns
  {
    if ns == [] {
      pre, post := [], [];
    } else {
      var first, after := LocateParagraph(ns[0]);
      var rest := EventsAll(ns[1..]);
      match FirstParagraph(ns[0])
      case Some(par) =>
        pre, post := first, after + rest;
        Assoc(first + Events(par), after, rest);
      case None =>
        var more;
        more, post := LocateParagraphIn(ns[1..]);
        pre := first + more;
        if FirstParagraphOf(ns[1..]).Some? {
          var par := FirstParagraphOf(ns[1..]).value;
          Assoc(first, more + Events(par), post);
          Assoc(first, more, Events(par));
        }
    }
  }

  // ---------- the builder ----------

  class SummaryBuilder {
    var title: string
    var preview: string
    var events: seq<Event>      // the iterator: its events and its position
    var pos: nat

    constructor ()
      ensures title == "" && preview == ""
    {
      title, preview, events, pos := "", "", [], 0;
    }

    // Collects text up to the end of the heading.
    method BuildTitle() returns (r: Result<()>)
      requires pos <= |events|
      modifies this`title, this`pos
      ensures title == old(title) + TextBefore(events[old(pos)..], ToHeading)
      ensures pos == old(pos) + Length(events[old(pos)..], ToHeading) <= |events|
      ensures r == if title == "" then Err(InvalidArgument) else Ok(())
    {
      ghost var all := old(title) + TextBefore(events[pos..], ToHeading);
      ghost var end := pos + Length(events[pos..], ToHeading);
      while pos < |events|
        invariant pos <= |events|
        invariant title + TextBefore(events[pos..], ToHeading) == all
        invariant pos + Length(events[pos..], ToHeading) == end
      {
        var ev := events[pos];
        assert events[pos..][0] == ev && events[pos..][1..] == events[pos + 1..];
        pos := pos + 1;
        if Stops(ev, ToHeading) {
          assert title + "" == title;
          break;
        }
        Assoc(title, EventText(ev), TextBefore(events[pos..], ToHeading));
        assert title + "" == title;
        if ev.Enter? && ev.kind.TextRun? {
          title := title + ev.kind.literal;
        }
      }
      if title == "" {
        return Err(InvalidArgument);
      }
      return Ok(());
    }

    // Collects text up to the end of the paragraph, or until there is enough.
    method BuildPreview() returns (r: Result<()>)
      requires pos <= |events|
      modifies this`preview, this`pos
      ensures preview == Shorten(old(preview) + TextBefore(events[old(pos)..], ToParagraph))
      ensures var text := old(preview) + TextBefore(events[old(pos)..], ToParagraph);
        preview <= text && (if |text| <= 256 then preview == text else |preview| == 256)
      ensures r == if preview == "" then Err(InvalidArgument) else Ok(())
    {
      ghost var all := old(preview) + TextBefore(events[pos..], ToParagraph);
      while pos < |events|
        invariant pos <= |events|
        invariant preview + TextBefore(events[pos..], ToParagraph) == all
      {
        var ev := events[pos];
        assert events[pos..][0] == ev && events[pos..][1..] == events[pos + 1..];
        if |preview| >= PREVIEW_SIZE {
          break;
        }
        pos := pos + 1;
        if Stops(ev, ToParagraph) {
          assert preview + "" == preview;
          preview := Shorten(preview);
          return if preview == "" then Err(InvalidArgument) else Ok(());
        }
        Assoc(preview, EventText(ev), TextBefore(events[pos..], ToParagraph));
        assert preview + "" == preview;
        if ev.Enter? && ev.kind.TextRun? {
          preview := preview + ev.kind.literal;
        }
      }
      preview := Shorten(preview);
      if preview == "" {
        return Err(InvalidArgument);
      }
      return Ok(());
    }

    // The loop that looks for the next paragraph.
    method FindParagraph(ghost pre: seq<Event>, ghost rest: seq<Event>) returns (found: bool)
      requires pos <= |events| && events[pos..] == pre + rest
      requires Enter(Paragraph) !in pre
      requires rest == [] || rest[0] == Enter(Paragraph)
      modifies this`pos
      ensures found <==> rest != []
      ensures found ==> pos <= |events| && events[pos..] == rest[1..]
    {
      ghost var start := pos;
      ghost var ahead := events[pos..];
      assert forall i :: start <= i < |events| ==> events[i] == ahead[i - start];
      assert forall i :: 0 <= i < |pre| ==> ahead[i] == pre[i];
      assert rest != [] ==> ahead[|pre|] == rest[0];
      while pos < |events|
        invariant start <= pos <= |events|
        invariant forall i :: start <= i < pos ==> events[i] != Enter(Paragraph)
      {
        if events[pos] == Enter(Paragraph) {
          assert pos == start + |pre| && rest != [];
          pos := pos + 1;
          assert events[pos..] == ahead[|pre| + 1..] == rest[1..];
          return true;
        }
        pos := pos + 1;
      }
      return false;
    }

    // The title of a document that starts with the heading h.
    method TakeTitle(ghost h: Node, ghost rest: seq<Event>) returns (r: Result<()>)
      requires WellFormed(h) && h.kind.Heading? && title == ""
      requires pos <= |events| && events[pos..] == EventsAll(h.kids) + ([Exit(h.kind)] + rest)
      modifies this`title, this`pos
      ensures title == TextOf(h) && (r == if title == "" then Err(InvalidArgument) else Ok(()))
      ensures pos <= |events| && events[pos..] == rest
    {
      assert AllInline(h.kids);
      ScanInlines(h.kids, [Exit(h.kind)] + rest, ToHeading);
      ScanStops(Exit(h.kind), rest, ToHeading);
      assert TextOf(h) + "" == TextOf(h);
      ghost var ahead, n := events[pos..], |EventsAll(h.kids)| + 1;
      assert ahead[n..] == rest && events[pos + n..] == ahead[n..];
      r := BuildTitle();
    }

    // The preview, from just inside the paragraph par.
    method TakePreview(ghost par: Node, ghost rest: seq<Event>) returns (r: Result<()>)
      requires WellFormed(par) && par.kind.Paragraph? && preview == ""
      requires pos <= |events| && events[pos..] == EventsAll(par.kids) + ([Exit(Paragraph)] + rest)
      modifies this`preview, this`pos
      ensures preview == Shorten(TextOf(par)) && (r == if preview == "" then Err(InvalidArgument) else Ok(()))
    {
      assert AllInline(par.kids);
      ScanInlines(par.kids, [Exit(Paragraph)] + rest, ToParagraph);
      ScanStops(Exit(Paragraph), rest, ToParagraph);
      assert TextOf(par) + "" == TextOf(par);
      r := BuildPreview();
    }

    // What follows the heading: the preview of the first paragraph, if any.
    method FindPreview(ghost ns: seq<Node>, ghost tail: seq<Event>) returns (r: Result<()>)
      requires AllWellFormed(ns) && preview == "" && Enter(Paragraph) !in tail
      requires pos <= |events| && events[pos..] == EventsAll(ns) + tail
      modifies this`preview, this`pos
      ensures match FirstParagraphOf(ns)
              case None => r == Ok(()) && preview == ""
              case Some(par) =>
                preview == Shorten(TextOf(par)) && (r == if preview == "" then Err(InvalidArgument) else Ok(()))
    {
      ghost var pre, post := LocateParagraphIn(ns);
      ghost var first := FirstParagraphOf(ns);
      ghost var rest := if first.None? then [] else Events(first.value) + (post + tail);
      if first.None? {
        pre := pre + tail;
      }
      assert EventsAll(ns) + tail == pre + rest;
      var found := FindParagraph(pre, rest);
      if found {
        ghost var par := first.value;
        assert rest[1..] == EventsAll(par.kids) + ([Exit(Paragraph)] + (post + tail));
        r := TakePreview(par, post + tail);
      } else {
        r := Ok(());
      }
    }

    // For the document parsed from the Markdown text.
    method Build(doc: Node) returns (r: Result<()>)
      requires WellFormed(doc) && doc.kind.Document?
      requires title == "" && preview == ""
      modifies this
      ensures match Summarize(doc)
              case Err(e) => r == Err(e)
              case Ok(summary) => r == Ok(()) && title == summary.title && preview == summary.preview
      // the same in full
      ensures doc.kids == [] ==> r == Ok(()) && title == "" && preview == ""
      ensures doc.kids != [] && !doc.kids[0].kind.Heading? ==> r == Err(HandlerError(400))
      ensures doc.kids != [] && doc.kids[0].kind.Heading? ==>
        var par := FirstParagraphOf(doc.kids[1..]);
        var text := if par.None? then "" else TextOf(par.value);
        if TextOf(doc.kids[0]) == "" || (par.Some? && text == "") then r == Err(InvalidArgument)
        else
          && r == Ok(()) && title == TextOf(doc.kids[0])
          && preview <= text && (if |text| <= 256 then preview == text else |preview| == 256)
    {
      // the enter event of the document, and the event after it
      events, pos := Events(doc), 2;
      DocumentEvents(doc);
      if events[1].Enter? {
        if !events[1].kind.Heading? {
          return Err(HandlerError(400));
        }
        ghost var h := doc.kids[0];
        assert h in doc.kids && AllWellFormed(doc.kids[1..]);
        r := TakeTitle(h, EventsAll(doc.kids[1..]) + [Exit(Document)]);
        if r.Err? {
          return r;
        }
        r := FindPreview(doc.kids[1..], [Exit(Document)]);
      } else {
        r := FindPreview([], []);
      }
    }
  }

  lemma DocumentEvents(doc: Node)
    requires WellFormed(doc) && doc.kind.Document?
    ensures doc.kids == [] ==> Events(doc) == [Enter(Document), Exit(Document)]
    ensures doc.kids != [] ==> |Events(doc)| > 2 && Events(doc)[1] == Enter(doc.kids[0].kind)
    ensures doc.kids != [] && doc.kids[0].kind.Heading? ==>
      Events(doc)[2..] ==
        EventsAll(doc.kids[0].kids) + ([Exit(doc.kids[0].kind)] + (EventsAll(doc.kids[1..]) + [Exit(Document)]))
  {
    if doc.kids != [] {
      var h := doc.kids[0];
      var tail := EventsAll(doc.kids[1..]);
      assert EventsAll(doc.kids) == Events(h) + tail;
      assert Events(doc) == [Enter(Document)] + (Events(h) + tail + [Exit(Document)]);
      if h.kind.Heading? {
        assert Events(doc) == [Enter(Document), Enter(h.kind)]
          + (EventsAll(h.kids) + ([Exit(h.kind)] + (tail + [Exit(Document)])));
      }
    }
  }

  // ---------- the two walkers agree ----------

  function TextTokens(tokens: seq<R.Token>): string {
    if tokens == [] then ""
    else (if tokens[0].Text? then tokens[0].literal else "") + TextTokens(tokens[1..])
  }

  lemma {:induction false} TextTokensConcat(a: seq<R.Token>, b: seq<R.Token>)
    ensures TextTokens(a + b) == TextTokens(a) + TextTokens(b)
  {
    if a == [] {
      assert a + b == b;
    } else {
      assert (a + b)[1..] == a[1..] + b;
      TextTokensConcat(a[1..], b);
    }
  }

  lemma {:induction false} InlineTokens(ns: seq<Node>, inItem: bool)
    requires AllInline(ns)
    ensures TextTokens(R.RenderAll(ns, inItem)) == TextOfAll(ns)
    decreases ns
  {
    if ns != [] {
      var n := ns[0];
      assert n in ns;
      InlineToken(n, inItem);
      InlineTokens(ns[1..], R.FlagOut(n, inItem));
      TextTokensConcat(R.Render(n, inItem), R.RenderAll(ns[1..], R.FlagOut(n, inItem)));
    }
  }

  lemma {:induction false} InlineToken(n: Node, inItem: bool)
    requires WellFormed(n) && Inline(n.kind)
    ensures TextTokens(R.Render(n, inItem)) == TextOf(n)
    decreases n, 0
  {
    var k := n.kind;
    if Leaf(k) {
      var t := R.Chunk(Enter(k), inItem)[0];
      assert R.Chunk(Enter(k), inItem) == [t] && [t][1..] == [];
    } else {
      InlineTokens(n.kids, inItem);
      WrapText(k, R.RenderAll(n.kids, inItem));
      assert R.Render(n, inItem) == R.Wrap(k, R.RenderAll(n.kids, inItem));
    }
  }

  lemma WrapText(k: Kind, inner: seq<R.Token>)
    ensures TextTokens(R.Wrap(k, inner)) == TextTokens(inner)
  {
    TextTokensConcat([R.Open(k)] + inner, [R.Close(k)]);
    TextTokensConcat([R.Open(k)], inner);
    assert [R.Open(k)][1..] == [] && [R.Close(k)][1..] == [];
  }

  // Inlines close nothing but inlines.
  lemma {:induction false} InlineClosings(ns: seq<Node>, inItem: bool)
    requires AllInline(ns)
    ensures forall t :: t in R.RenderAll(ns, inItem) && t.Close? ==> Inline(t.kind)
    decreases ns
  {
    if ns != [] {
      var n := ns[0];
      assert n in ns;
      InlineClosings(n.kids, inItem);
      InlineClosings(ns[1..], R.FlagOut(n, inItem));
    }
  }

  lemma {:induction false} PageOfRuns(ns: seq<Node>, inItem: bool)
    requires forall n :: n in ns ==> n.kind.TextRun? && n.kids == []
    ensures R.Page(R.RenderAll(ns, inItem)) == TextOfAll(ns)
    decreases ns
  {
    if ns != [] {
      assert ns[0] in ns && ns[0] == Node(ns[0].kind, []);
      var out := R.FlagOut(ns[0], inItem);
      R.PageConcat(R.Render(ns[0], inItem), R.RenderAll(ns[1..], out));
      R.PageOfLiterals(ns[0].kind.literal, inItem);
      PageOfRuns(ns[1..], out);
    }
  }

  // In bytes: of a document that starts with a heading of plain text, the page
  // starts with the title between the tags of the heading.
  lemma TitleAtHead(doc: Node)
    requires WellFormed(doc) && doc.kind.Document? && Summarize(doc).Ok? && doc.kids != []
    requires forall n :: n in doc.kids[0].kids ==> n.kind.TextRun?
    ensures doc.kids[0].kind.Heading? && 1 <= doc.kids[0].kind.level <= 6
    ensures var digit := "123456"[doc.kids[0].kind.level - 1..doc.kids[0].kind.level];
      R.Page(R.EmitAll(Events(doc), false))
        == "<h" + digit + ">" + Summarize(doc).value.title + "</h" + digit + ">\n"
           + R.Page(R.RenderAll(doc.kids[1..], false))
  {
    var h := doc.kids[0];
    assert h in doc.kids && forall n :: n in h.kids ==> WellFormed(n);
    R.LoopIsRecursion(doc, false);
    R.PageConcat(R.Render(h, false), R.RenderAll(doc.kids[1..], R.FlagOut(h, false)));
    assert h == Node(h.kind, h.kids);
    R.PageOfHeading(h.kind.level, h.kids, false);
    PageOfRuns(h.kids, false);
  }

  // The title is the text renderArticle emits between the first heading's open
  // tag and the close tag it meets.
  lemma WalkersAgree(doc: Node) returns (inner: seq<R.Token>, rest: seq<R.Token>)
    requires WellFormed(doc) && doc.kind.Document? && Summarize(doc).Ok? && doc.kids != []
    ensures doc.kids[0].kind.Heading?
    ensures R.EmitAll(Events(doc), false) == [R.Open(doc.kids[0].kind)] + inner + [R.Close(doc.kids[0].kind)] + rest
    ensures forall k: Kind :: k.Heading? ==> R.Close(k) !in inner
    ensures TextTokens(inner) == Summarize(doc).value.title
  {
    var h := doc.kids[0];
    assert h in doc.kids && AllInline(h.kids);
    R.LoopIsRecursion(doc, false);
    InlineTokens(h.kids, false);
    InlineClosings(h.kids, false);
    inner := R.RenderAll(h.kids, false);
    rest := R.RenderAll(doc.kids[1..], R.FlagOut(h, false));
    assert R.Render(h, false) == R.Wrap(h.kind, inner);
    assert R.Render(doc, false) == R.Render(h, false) + rest;
  }
}
