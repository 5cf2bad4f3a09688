/** PrimaryHandler::renderArticle: one flat loop over the iterator with the
    single flag inItem, against renderers that recurse on the tree. */
module RenderArticle {
  import opened Common
  import opened Markdown
  import opened Numbers
  import opened Response

  // ---------- what one event appends ----------

  datatype Token = Open(kind: Kind) | Close(kind: Kind) | Text(literal: string) | Raw(html: string)

  function TitleAttribute(title: string): string {
    if title == "" then "" else " title=\"" + title + "\""
  }

  function OpenTag(k: Kind): string {
    match k
    case Heading(level) => "<h" + Decimal(level) + ">"
    case Paragraph => "<p>"
    case List(ordered) => if ordered then "<ol>\n" else "<ul>\n"
    case Item => "<li>"
    case BlockQuote => "<blockquote>\n"
    case Link(url, title) => "<a href=\"" + url + "\"" + TitleAttribute(title) + ">"
    case Image(url, title) =>
      "<img class=\"mx-auto d-block\" src=\"" + url + "\"" + TitleAttribute(title) + " alt=\""
    case Emph => "<em>"
    case Strong => "<strong>"
    case _ => ""
  }

  function CloseTag(k: Kind): string {
    match k
    case Heading(level) => "</h" + Decimal(level) + ">\n"
    case Paragraph => "</p>\n"
    case List(ordered) => if ordered then "</ol>\n" else "</ul>\n"
    case Item => "</li>\n"
    case BlockQuote => "</blockquote>\n"
    case Link(_, _) => "</a>"
    case Image(_, _) => "\" />"
    case Emph => "</em>"
    case Strong => "</strong>"
    case _ => ""
  }

  function Html(t: Token): string {
    match t
    case Open(k) => OpenTag(k)
    case Close(k) => CloseTag(k)
    case Text(literal) => literal
    case Raw(html) => html
  }

  function Page(tokens: seq<Token>): string {
    if tokens == [] then "" else Html(tokens[0]) + Page(tokens[1..])
  }

  // The switch of the loop: at most one token an event.
  function Chunk(ev: Event, inItem: bool): seq<Token> {
    match ev
    case Enter(k) =>
      (match k
       case Document => []
       case Paragraph => if inItem then [] else [Open(k)]
       case CodeBlock(code) => [Raw("<pre><code>" + code + "</code></pre>\n")]
       case Code(code) => [Raw("<code>" + code + "</code>\n")]
       case HtmlBlock(html) => [Raw(html)]
       case HtmlInline(html) => [Raw(html)]
       case TextRun(literal) => [Text(literal)]
       case LineBreak => [Raw("<br />\n")]
       case SoftBreak => [Raw(" ")]
       case ThematicBreak => []
       case _ => [Open(k)])
    case Exit(k) =>
      (match k
       case Document => []
       case Paragraph => if inItem then [] else [Close(k)]
       case _ => [Close(k)])
  }

  function Flag(ev: Event, inItem: bool): bool {
    if ev == Enter(Item) then true else if ev == Exit(Item) then false else inItem
  }

  function EmitAll(evs: seq<Event>, inItem: bool): seq<Token> {
    if evs == [] then [] else Chunk(evs[0], inItem) + EmitAll(evs[1..], Flag(evs[0], inItem))
  }

  function FlagAfter(evs: seq<Event>, inItem: bool): bool {
    if evs == [] then inItem else FlagAfter(evs[1..], Flag(evs[0], inItem))
  }

  // ---------- the loop ----------

  lemma {:induction false} PageConcat(a: seq<Token>, b: seq<Token>)
    ensures Page(a + b) == Page(a) + Page(b)
  {
    if a == [] {
      assert a + b == b;
    } else {
      assert (a + b)[1..] == a[1..] + b;
      PageConcat(a[1..], b);
    }
  }

  method RenderEvents(chain: ResponseChain, events: seq<Event>)
    requires chain.Valid()
    modifies chain, chain.spine
    ensures chain.Valid()
    ensures chain.Body() == old(chain.Body()) + Page(EmitAll(events, false))
  {
    var inItem := false;
    var body := "";
    var i := 0;
    while i < |events|
      invariant i <= |events| && chain.Valid()
      invariant fresh(set b | b in chain.spine && b !in old(chain.spine))
      invariant chain.Body() + body + Page(EmitAll(events[i..], inItem))
             == old(chain.Body()) + Page(EmitAll(events, false))
    {
      var ev := events[i];
      assert events[i..][0] == ev && events[i..][1..] == events[i + 1..];
      var chunk := Page(Chunk(ev, inItem));
      PageConcat(Chunk(ev, inItem), EmitAll(events[i + 1..], Flag(ev, inItem)));
      ghost var rest := Page(EmitAll(events[i + 1..], Flag(ev, inItem)));
      Assoc(chain.Body() + body, chunk, rest);
      if ev == Enter(Item) {
        inItem := true;
      } else if ev == Exit(Item) {
        inItem := false;
      }
      body := chain.Buffer(body, chunk);
      i := i + 1;
    }
    chain.PrependResponse(body);
  }

  // ---------- the recursive renderer that threads the flag ----------

  function Wrap(k: Kind, inner: seq<Token>): seq<Token> {
    [Open(k)] + inner + [Close(k)]
  }

  // What the flag is once n has been rendered.
  function FlagOut(n: Node, inItem: bool): bool {
    inItem && !HasItem(n)
  }

  function Render(n: Node, inItem: bool): seq<Token> {
    match n.kind
    case Document => RenderAll(n.kids, inItem)
    case Item => Wrap(Item, RenderAll(n.kids, true))
    case Paragraph => if inItem then RenderAll(n.kids, true) else Wrap(Paragraph, RenderAll(n.kids, false))
    case _ =>
      if Leaf(n.kind) then Chunk(Enter(n.kind), inItem) else Wrap(n.kind, RenderAll(n.kids, inItem))
  }

  function RenderAll(ns: seq<Node>, inItem: bool): seq<Token> {
    if ns == [] then [] else Render(ns[0], inItem) + RenderAll(ns[1..], FlagOut(ns[0], inItem))
  }

  predicate AnyHasItem(ns: seq<Node>) {
    exists n :: n in ns && HasItem(n)
  }

  lemma {:induction false} EmitConcat(a: seq<Event>, b: seq<Event>, inItem: bool)
    ensures EmitAll(a + b, inItem) == EmitAll(a, inItem) + EmitAll(b, FlagAfter(a, inItem))
    ensures FlagAfter(a + b, inItem) == FlagAfter(b, FlagAfter(a, inItem))
    decreases |a|
  {
    if a == [] {
      assert a + b == b;
    } else {
      var flag := Flag(a[0], inItem);
      assert (a + b)[1..] == a[1..] + b;
      EmitConcat(a[1..], b, flag);
      Assoc(Chunk(a[0], inItem), EmitAll(a[1..], flag), EmitAll(b, FlagAfter(a, inItem)));
    }
  }

  lemma EmitAround(k: Kind, kids: seq<Event>, inItem: bool)
    ensures var flag := Flag(Enter(k), inItem);
      var out := FlagAfter(kids, flag);
      && EmitAll([Enter(k)] + (kids + [Exit(k)]), inItem)
         == Chunk(Enter(k), inItem) + (EmitAll(kids, flag) + Chunk(Exit(k), out))
      && FlagAfter([Enter(k)] + (kids + [Exit(k)]), inItem) == Flag(Exit(k), out)
  {
    EmitConcat([Enter(k)], kids + [Exit(k)], inItem);
    EmitConcat(kids, [Exit(k)], Flag(Enter(k), inItem));
    EmitOne(Enter(k), inItem);
    EmitOne(Exit(k), FlagAfter(kids, Flag(Enter(k), inItem)));
  }

  lemma EmitOne(ev: Event, inItem: bool)
    ensures EmitAll([ev], inItem) == Chunk(ev, inItem) && FlagAfter([ev], inItem) == Flag(ev, inItem)
  {
    assert [ev][1..] == [];
  }

  // For every well-formed tree the loop emits what the recursion renders.
  lemma {:induction false} LoopIsRecursion(n: Node, inItem: bool)
    requires WellFormed(n)
    ensures EmitAll(Events(n), inItem) == Render(n, inItem)
    ensures FlagAfter(Events(n), inItem) == FlagOut(n, inItem)
  {
    var k := n.kind;
    if Leaf(k) {
      assert [Enter(k)] + [] == [Enter(k)];
      EmitOne(Enter(k), inItem);
    } else {
      var flag := Flag(Enter(k), inItem);
      LoopIsRecursionAll(n.kids, flag);
      EmitAround(k, EventsAll(n.kids), inItem);
      if k.Paragraph? {
        InlineHasNoItem(n);
        assert !AnyHasItem(n.kids);
      }
      assert HasItem(n) == (k.Item? || AnyHasItem(n.kids));
      WrapIs(k, RenderAll(n.kids, flag));
    }
  }

  lemma WrapIs(k: Kind, inner: seq<Token>)
    ensures [Open(k)] + (inner + [Close(k)]) == Wrap(k, inner)
    ensures [] + (inner + []) == inner
  {
  }

  lemma {:induction false} LoopIsRecursionAll(ns: seq<Node>, inItem: bool)
    requires AllWellFormed(ns)
    ensures EmitAll(EventsAll(ns), inItem) == RenderAll(ns, inItem)
    ensures FlagAfter(EventsAll(ns), inItem) == (inItem && !AnyHasItem(ns))
  {
    if ns != [] {
      LoopIsRecursion(ns[0], inItem);
      LoopIsRecursionAll(ns[1..], FlagOut(ns[0], inItem));
      EmitConcat(Events(ns[0]), EventsAll(ns[1..]), inItem);
      assert forall n :: n in ns <==> n == ns[0] || n in ns[1..];
    }
  }

  // The flag says that the last item event was an enter.
  lemma {:induction false} FlagMeans(evs: seq<Event>, inItem: bool)
    ensures FlagAfter(evs, inItem) <==>
      || (inItem && Exit(Item) !in evs)
      || (exists i :: 0 <= i < |evs| && evs[i] == Enter(Item) && Exit(Item) !in evs[i..])
    decreases |evs|
  {
    if evs != [] {
      FlagMeans(evs[1..], Flag(evs[0], inItem));
      assert forall e :: e in evs <==> e == evs[0] || e in evs[1..];
      forall i | 0 <= i < |evs| - 1 ensures evs[1..][i..] == evs[i + 1..] && evs[1..][i] == evs[i + 1] { }
      if exists i :: 0 <= i < |evs[1..]| && evs[1..][i] == Enter(Item) && Exit(Item) !in evs[1..][i..] {
        var i :| 0 <= i < |evs[1..]| && evs[1..][i] == Enter(Item) && Exit(Item) !in evs[1..][i..];
        assert evs[i + 1] == Enter(Item) && Exit(Item) !in evs[i + 1..];
      }
      if exists i :: 0 <= i < |evs| && evs[i] == Enter(Item) && Exit(Item) !in evs[i..] {
        var i :| 0 <= i < |evs| && evs[i] == Enter(Item) && Exit(Item) !in evs[i..];
        if i > 0 {
          assert evs[1..][i - 1] == Enter(Item) && Exit(Item) !in evs[1..][i - 1..];
        } else {
          assert evs[0..] == evs;
        }
      }
      assert evs[0] == Enter(Item) && Exit(Item) !in evs[1..] ==> Exit(Item) !in evs[0..];
    }
  }

  // ---------- nesting ----------

  // Every close tag meets its own open tag, starting under the open tags of stack.
  predicate Nested(tokens: seq<Token>, stack: seq<Kind>)
    decreases |tokens|
  {
    if tokens == [] then stack == []
    else
      match tokens[0]
      case Open(k) => Nested(tokens[1..], [k] + stack)
      case Close(k) => stack != [] && stack[0] == k && Nested(tokens[1..], stack[1..])
      case _ => Nested(tokens[1..], stack)
  }

  lemma NestedWrap(k: Kind, inner: seq<Token>, rest: seq<Token>, stack: seq<Kind>)
    requires Nested(inner + ([Close(k)] + rest), [k] + stack) == Nested([Close(k)] + rest, [k] + stack)
    ensures Nested(Wrap(k, inner) + rest, stack) == Nested(rest, stack)
  {
    var tokens := Wrap(k, inner) + rest;
    assert tokens[1..] == inner + ([Close(k)] + rest);
    assert ([Close(k)] + rest)[1..] == rest && ([k] + stack)[1..] == stack;
  }

  lemma {:induction false} RenderNests(n: Node, inItem: bool, rest: seq<Token>, stack: seq<Kind>)
    requires WellFormed(n)
    ensures Nested(Render(n, inItem) + rest, stack) == Nested(rest, stack)
    decreases n, 0
  {
    var k := n.kind;
    if Leaf(k) {
      var chunk := Chunk(Enter(k), inItem);
      if chunk == [] { assert chunk + rest == rest; } else { assert (chunk + rest)[1..] == rest; }
    } else if k.Document? || (k.Paragraph? && inItem) {
      RenderAllNests(n.kids, inItem, rest, stack);
    } else {
      var flag := Flag(Enter(k), inItem);
      RenderAllNests(n.kids, flag, [Close(k)] + rest, [k] + stack);
      NestedWrap(k, RenderAll(n.kids, flag), rest, stack);
    }
  }

  lemma {:induction false} RenderAllNests(ns: seq<Node>, inItem: bool, rest: seq<Token>, stack: seq<Kind>)
    requires AllWellFormed(ns)
    ensures Nested(RenderAll(ns, inItem) + rest, stack) == Nested(rest, stack)
    decreases ns
  {
    if ns == [] {
      assert [] + rest == rest;
    } else {
      var tail := RenderAll(ns[1..], FlagOut(ns[0], inItem));
      Assoc(Render(ns[0], inItem), tail, rest);
      RenderNests(ns[0], inItem, tail + rest, stack);
      RenderAllNests(ns[1..], FlagOut(ns[0], inItem), rest, stack);
    }
  }

  // The page is well nested, although nested items reset the one flag.
  lemma PageNests(doc: Node)
    requires WellFormed(doc)
    ensures Nested(EmitAll(Events(doc), false), [])
  {
    LoopIsRecursion(doc, false);
    RenderNests(doc, false, [], []);
    assert Render(doc, false) + [] == Render(doc, false);
  }

  // ---------- the intended page ----------

  // No <p> in any list item: the decision is by real ancestry.
  function Intended(n: Node, inside: bool): seq<Token> {
    match n.kind
    case Document => IntendedAll(n.kids, inside)
    case Item => Wrap(Item, IntendedAll(n.kids, true))
    case Paragraph => if inside then IntendedAll(n.kids, inside) else Wrap(Paragraph, IntendedAll(n.kids, inside))
    case _ =>
      if Leaf(n.kind) then Chunk(Enter(n.kind), inside) else Wrap(n.kind, IntendedAll(n.kids, inside))
  }

  function IntendedAll(ns: seq<Node>, inside: bool): seq<Token> {
    if ns == [] then [] else Intended(ns[0], inside) + IntendedAll(ns[1..], inside)
  }

  // How many paragraphs of an item come after a completed item nested in that
  // same item; after says one has been completed before n.
  function Stray(n: Node, inside: bool, after: bool): nat {
    match n.kind
    case Paragraph => if inside && after then 1 else 0
    case Item => StrayAll(n.kids, true, false)
    case _ => StrayAll(n.kids, inside, after)
  }

  function StrayAll(ns: seq<Node>, inside: bool, after: bool): nat {
    if ns == [] then 0
    else Stray(ns[0], inside, after) + StrayAll(ns[1..], inside, after || HasItem(ns[0]))
  }

  // <p> tags that stand inside a list item.
  function ParagraphsInItems(tokens: seq<Token>, depth: int): nat {
    if tokens == [] then 0
    else
      (if tokens[0] == Open(Paragraph) && depth > 0 then 1 else 0)
      + ParagraphsInItems(tokens[1..],
          if tokens[0] == Open(Item) then depth + 1 else if tokens[0] == Close(Item) then depth - 1 else depth)
  }

  function Depth(tokens: seq<Token>): int {
    if tokens == [] then 0
    else (if tokens[0] == Open(Item) then 1 else if tokens[0] == Close(Item) then -1 else 0) + Depth(tokens[1..])
  }

  lemma {:induction false} CountConcat(a: seq<Token>, b: seq<Token>, depth: int)
    ensures Depth(a + b) == Depth(a) + Depth(b)
    ensures ParagraphsInItems(a + b, depth) == ParagraphsInItems(a, depth) + ParagraphsInItems(b, depth + Depth(a))
    decreases |a|
  {
    if a == [] {
      assert a + b == b;
    } else {
      assert (a + b)[1..] == a[1..] + b;
      CountConcat(a[1..], b,
        if a[0] == Open(Item) then depth + 1 else if a[0] == Close(Item) then depth - 1 else depth);
    }
  }

  // actual is intended with the tags of some stray paragraphs added.
  predicate Strays(actual: seq<Token>, intended: seq<Token>, stray: nat, depth: nat) {
    && |Page(actual)| == |Page(intended)| + 8 * stray
    && (stray == 0 ==> actual == intended)
    && Depth(actual) == 0
    && ParagraphsInItems(actual, depth) == stray
  }

  lemma CountWrap(k: Kind, inner: seq<Token>, depth: int)
    requires Depth(inner) == 0
    ensures Depth(Wrap(k, inner)) == 0
    ensures ParagraphsInItems(Wrap(k, inner), depth)
         == (if k.Paragraph? && depth > 0 then 1 else 0)
            + ParagraphsInItems(inner, if k.Item? then depth + 1 else depth)
  {
    CountConcat([Open(k)] + inner, [Close(k)], depth);
    CountConcat([Open(k)], inner, depth);
    assert [Open(k)][1..] == [] && [Close(k)][1..] == [];
  }

  lemma StraysWrap(k: Kind, actual: seq<Token>, intended: seq<Token>, stray: nat, depth: nat)
    requires Strays(actual, intended, stray, if k.Item? then depth + 1 else depth)
    requires k.Paragraph? ==> depth == 0
    ensures Strays(Wrap(k, actual), Wrap(k, intended), stray, depth)
  {
    CountWrap(k, actual, depth);
    PageWrap(k, actual);
    PageWrap(k, intended);
  }

  lemma StraysConcat(a: seq<Token>, ai: seq<Token>, m: nat, b: seq<Token>, bi: seq<Token>, n: nat, depth: nat)
    requires Strays(a, ai, m, depth) && Strays(b, bi, n, depth)
    ensures Strays(a + b, ai + bi, m + n, depth)
  {
    PageConcat(a, b);
    PageConcat(ai, bi);
    CountConcat(a, b, depth);
  }

  // A paragraph in an item, after a nested item: tagged, and should not be.
  lemma StraysParagraph(actual: seq<Token>, depth: nat)
    requires Strays(actual, actual, 0, depth) && depth > 0
    ensures Strays(Wrap(Paragraph, actual), actual, 1, depth)
  {
    CountWrap(Paragraph, actual, depth);
    PageWrap(Paragraph, actual);
  }

  // The flag is right exactly while no nested item has been completed; every
  // stray paragraph gets the eight characters of its tags.
  lemma {:induction false} StrayTags(n: Node, inside: bool, after: bool, depth: nat)
    requires WellFormed(n) && (inside <==> depth > 0)
    ensures Strays(Render(n, inside && !after), Intended(n, inside), Stray(n, inside, after), depth)
    decreases n, 0
  {
    var k := n.kind;
    var flag := inside && !after;
    if Leaf(k) {
      CountLeaf(k, flag, depth);
    } else if k.Item? {
      StrayTagsAll(n.kids, true, false, depth + 1);
      StraysWrap(k, RenderAll(n.kids, true), IntendedAll(n.kids, true), StrayAll(n.kids, true, false), depth);
    } else {
      StrayTagsAll(n.kids, inside, after, depth);
      if k.Paragraph? {
        NoStrayInline(n.kids, inside, after);
        RenderInline(n.kids, flag, inside);
        if inside && after {
          StraysParagraph(RenderAll(n.kids, flag), depth);
        } else if !inside {
          StraysWrap(k, RenderAll(n.kids, flag), IntendedAll(n.kids, inside), 0, depth);
        }
      } else {
        StraysWrap(k, RenderAll(n.kids, flag), IntendedAll(n.kids, inside), StrayAll(n.kids, inside, after), depth);
      }
    }
  }

  lemma {:induction false} StrayTagsAll(ns: seq<Node>, inside: bool, after: bool, depth: nat)
    requires AllWellFormed(ns) && (inside <==> depth > 0)
    ensures Strays(RenderAll(ns, inside && !after), IntendedAll(ns, inside), StrayAll(ns, inside, after), depth)
    decreases ns
  {
    if ns != [] {
      var flag := inside && !after;
      var later := after || HasItem(ns[0]);
      StrayTags(ns[0], inside, after, depth);
      StrayTagsAll(ns[1..], inside, later, depth);
      assert FlagOut(ns[0], flag) == (inside && !later);
      StraysConcat(Render(ns[0], flag), Intended(ns[0], inside), Stray(ns[0], inside, after),
                   RenderAll(ns[1..], inside && !later), IntendedAll(ns[1..], inside),
                   StrayAll(ns[1..], inside, later), depth);
    }
  }

  lemma CountLeaf(k: Kind, inItem: bool, depth: int)
    requires Leaf(k)
    ensures Depth(Chunk(Enter(k), inItem)) == 0 && ParagraphsInItems(Chunk(Enter(k), inItem), depth) == 0
  {
    var chunk := Chunk(Enter(k), inItem);
    if chunk != [] { assert chunk[1..] == []; }
  }

  lemma {:induction false} NoStrayInline(ns: seq<Node>, inside: bool, after: bool)
    requires AllInline(ns)
    ensures StrayAll(ns, inside, after) == 0
    decreases ns
  {
    if ns != [] {
      assert ns[0] in ns;
      assert forall k :: k in ns[0].kids ==> WellFormed(k) && MayHold(ns[0].kind, k.kind);
      NoStrayInline(ns[0].kids, inside, after);
      NoStrayInline(ns[1..], inside, after || HasItem(ns[0]));
    }
  }

  // Inlines render the same whatever the flag.
  lemma {:induction false} RenderInline(ns: seq<Node>, a: bool, b: bool)
    requires AllInline(ns)
    ensures RenderAll(ns, a) == RenderAll(ns, b)
    decreases ns
  {
    if ns != [] {
      assert ns[0] in ns;
      InlineHasNoItem(ns[0]);
      assert forall k :: k in ns[0].kids ==> WellFormed(k) && MayHold(ns[0].kind, k.kind);
      RenderInline(ns[0].kids, a, b);
      RenderInline(ns[1..], a, b);
    }
  }

  lemma PageWrap(k: Kind, inner: seq<Token>)
    ensures Page(Wrap(k, inner)) == OpenTag(k) + Page(inner) + CloseTag(k)
  {
    PageConcat([Open(k)] + inner, [Close(k)]);
    PageConcat([Open(k)], inner);
    assert [Open(k)][1..] == [] && [Close(k)][1..] == [];
    assert Page([Open(k)]) == OpenTag(k) + "" && Page([Close(k)]) == CloseTag(k) + "";
    assert OpenTag(k) + "" == OpenTag(k) && CloseTag(k) + "" == CloseTag(k);
  }

  // The rendered page is the intended one exactly when no paragraph follows a
  // completed nested item in its own item; each that does puts one <p> in an item.
  lemma PageIsIntended(doc: Node)
    requires WellFormed(doc) && doc.kind.Document?
    ensures Page(EmitAll(Events(doc), false)) == Page(Intended(doc, false)) <==> Stray(doc, false, false) == 0
    ensures ParagraphsInItems(EmitAll(Events(doc), false), 0) == Stray(doc, false, false)
  {
    LoopIsRecursion(doc, false);
    StrayTags(doc, false, false, 0);
  }

  lemma {:induction false} IntendedKeepsItemsPlain(n: Node, inside: bool, depth: nat)
    requires WellFormed(n) && (inside <==> depth > 0)
    ensures Depth(Intended(n, inside)) == 0 && ParagraphsInItems(Intended(n, inside), depth) == 0
    decreases n, 0
  {
    var k := n.kind;
    if Leaf(k) {
      CountLeaf(k, inside, depth);
    } else {
      var within := inside || k.Item?;
      IntendedAllKeepsItemsPlain(n.kids, within, if k.Item? then depth + 1 else depth);
      CountWrap(k, IntendedAll(n.kids, within), depth);
    }
  }

  lemma {:induction false} IntendedAllKeepsItemsPlain(ns: seq<Node>, inside: bool, depth: nat)
    requires AllWellFormed(ns) && (inside <==> depth > 0)
    ensures Depth(IntendedAll(ns, inside)) == 0 && ParagraphsInItems(IntendedAll(ns, inside), depth) == 0
    decreases ns
  {
    if ns != [] {
      IntendedKeepsItemsPlain(ns[0], inside, depth);
      IntendedAllKeepsItemsPlain(ns[1..], inside, depth);
      CountConcat(Intended(ns[0], inside), IntendedAll(ns[1..], inside), depth);
    }
  }

  lemma StrayOfTwo(a: Node, b: Node, inside: bool, after: bool)
    ensures StrayAll([a], inside, after) == Stray(a, inside, after)
    ensures StrayAll([a, b], inside, after) == Stray(a, inside, after) + Stray(b, inside, after || HasItem(a))
  {
    assert [a, b][1..] == [b] && [b][1..] == [] && [a][1..] == [];
    assert StrayAll([b], inside, after || HasItem(a)) == Stray(b, inside, after || HasItem(a));
  }

  lemma StrayOfOnly(n: Node, kid: Node, inside: bool, after: bool)
    requires n.kids == [kid] && !n.kind.Item? && !n.kind.Paragraph?
    ensures Stray(n, inside, after) == Stray(kid, inside, after)
  {
    StrayOfTwo(kid, kid, inside, after);
  }

  // A paragraph after a block that holds an item, in one item, is tagged.
  lemma StrayAfterBlock(item: Node)
    requires WellFormed(item) && item.kind.Item? && |item.kids| == 2
    requires HasItem(item.kids[0]) && item.kids[1].kind.Paragraph?
    ensures Stray(item, false, false) == Stray(item.kids[0], true, false) + 1
  {
    StrayOfTwo(item.kids[0], item.kids[1], true, false);
    assert item.kids == [item.kids[0], item.kids[1]];
  }

  function Par(text: string): Node {
    Node(Paragraph, [Node(TextRun(text), [])])
  }

  // A bullet list of one item.
  function Bullet(kids: seq<Node>): Node {
    Node(List(false), [Node(Item, kids)])
  }

  lemma ParWellFormed(text: string)
    ensures WellFormed(Par(text))
  {
    assert WellFormed(Node(TextRun(text), []));
  }

  lemma BulletWellFormed(kids: seq<Node>)
    requires forall k :: k in kids ==> WellFormed(k) && Block(k.kind)
    ensures WellFormed(Bullet(kids)) && HasItem(Bullet(kids))
  {
    assert WellFormed(Node(Item, kids));
    assert Node(Item, kids) in Bullet(kids).kids && HasItem(Node(Item, kids));
  }

  // An item that holds a list of one item, with the paragraph a, and then the
  // paragraph b.
  function StrayExample(a: string, b: string): Node {
    Node(Document, [Bullet([Bullet([Par(a)]), Par(b)])])
  }

  // Its page is not the intended one.
  lemma StrayHappens(a: string, b: string)
    ensures WellFormed(StrayExample(a, b)) && StrayExample(a, b).kind.Document?
    ensures Page(EmitAll(Events(StrayExample(a, b)), false)) != Page(Intended(StrayExample(a, b), false))
  {
    var doc, inner := StrayExample(a, b), Bullet([Par(a)]);
    var list := Bullet([inner, Par(b)]);
    var item := list.kids[0];
    ParWellFormed(a);
    ParWellFormed(b);
    BulletWellFormed([Par(a)]);
    BulletWellFormed([inner, Par(b)]);
    assert WellFormed(item) by { assert item in list.kids; }
    StrayAfterBlock(item);
    StrayOfOnly(list, item, false, false);
    StrayOfOnly(doc, list, false, false);
    PageIsIntended(doc);
  }

  // ---------- the page in bytes ----------

  // The page of the node k over kids.
  function PageOf(k: Kind, kids: seq<Node>, inItem: bool): string {
    Page(Render(Node(k, kids), inItem))
  }

  // The page of siblings, one after another: a completed item ends the flag.
  lemma {:induction false} PageOfSiblings(a: seq<Node>, b: seq<Node>, inItem: bool)
    ensures Page(RenderAll(a + b, inItem))
         == Page(RenderAll(a, inItem)) + Page(RenderAll(b, inItem && forall n :: n in a ==> !HasItem(n)))
    ensures Page(RenderAll([], inItem)) == ""
    ensures a != [] ==> Page(RenderAll([a[0]], inItem)) == Page(Render(a[0], inItem))
    decreases |a|
  {
    if a == [] {
      assert a + b == b && "" + Page(RenderAll(b, inItem)) == Page(RenderAll(b, inItem));
    } else {
      var out := FlagOut(a[0], inItem);
      assert (a + b)[1..] == a[1..] + b && [a[0]][1..] == [];
      PageOfSiblings(a[1..], b, out);
      assert forall n :: n in a <==> n == a[0] || n in a[1..];
      PageConcat(Render(a[0], inItem), RenderAll(a[1..] + b, out));
      PageConcat(Render(a[0], inItem), RenderAll(a[1..], out));
      PageConcat(Render(a[0], inItem), []);
      assert Page(Render(a[0], inItem)) + "" == Page(Render(a[0], inItem));
      Assoc(Page(Render(a[0], inItem)), Page(RenderAll(a[1..], out)),
            Page(RenderAll(b, inItem && forall n :: n in a ==> !HasItem(n))));
    }
  }

  lemma PageOfWrap(k: Kind, kids: seq<Node>, inItem: bool)
    requires !Leaf(k) && !k.Document? && !(k.Paragraph? && inItem)
    ensures PageOf(k, kids, inItem) == OpenTag(k) + Page(RenderAll(kids, k.Item? || inItem)) + CloseTag(k)
  {
    PageWrap(k, RenderAll(kids, k.Item? || inItem));
  }

  lemma PageOfBlocks(kids: seq<Node>, inItem: bool)
    ensures var inner := Page(RenderAll(kids, inItem));
      && PageOf(Document, kids, inItem) == inner
      && PageOf(Paragraph, kids, false) == "<p>" + Page(RenderAll(kids, false)) + "</p>\n"
      && PageOf(Paragraph, kids, true) == Page(RenderAll(kids, true))
      && PageOf(Item, kids, inItem) == "<li>" + Page(RenderAll(kids, true)) + "</li>\n"
      && PageOf(BlockQuote, kids, inItem) == "<blockquote>\n" + inner + "</blockquote>\n"
  {
    PageOfWrap(Paragraph, kids, false);
    PageOfWrap(Item, kids, inItem);
    PageOfWrap(BlockQuote, kids, inItem);
  }

  lemma PageOfLists(kids: seq<Node>, inItem: bool)
    ensures PageOf(List(false), kids, inItem) == "<ul>\n" + Page(RenderAll(kids, inItem)) + "</ul>\n"
    ensures PageOf(List(true), kids, inItem) == "<ol>\n" + Page(RenderAll(kids, inItem)) + "</ol>\n"
  {
    PageOfWrap(List(false), kids, inItem);
    PageOfWrap(List(true), kids, inItem);
  }

  lemma HeadingDigit(level: nat)
    requires 1 <= level <= 6
    ensures Decimal(level) == "123456"[level - 1..level]
  {
    assert "123456"[level - 1] == '0' + level as char;
  }

  lemma HeadingTags(level: nat)
    ensures OpenTag(Heading(level)) == "<h" + Decimal(level) + ">"
    ensures CloseTag(Heading(level)) == "</h" + Decimal(level) + ">\n"
  {
  }

  lemma PageOfHeading(level: nat, kids: seq<Node>, inItem: bool)
    requires 1 <= level <= 6
    ensures var digit := "123456"[level - 1..level];
      PageOf(Heading(level), kids, inItem)
        == "<h" + digit + ">" + Page(RenderAll(kids, inItem)) + "</h" + digit + ">\n"
  {
    HeadingDigit(level);
    HeadingTags(level);
    PageOfWrap(Heading(level), kids, inItem);
  }

  lemma PageOfInlines(kids: seq<Node>, inItem: bool)
    ensures var inner := Page(RenderAll(kids, inItem));
      && PageOf(Emph, kids, inItem) == "<em>" + inner + "</em>"
      && PageOf(Strong, kids, inItem) == "<strong>" + inner + "</strong>"
  {
    PageOfWrap(Emph, kids, inItem);
    PageOfWrap(Strong, kids, inItem);
  }

  lemma PageOfLinks(url: string, title: string, kids: seq<Node>, inItem: bool)
    ensures var inner := Page(RenderAll(kids, inItem));
      var titled := if title == "" then "" else " title=\"" + title + "\"";
      && PageOf(Link(url, title), kids, inItem) == "<a href=\"" + url + "\"" + titled + ">" + inner + "</a>"
      && PageOf(Image(url, title), kids, inItem)
         == "<img class=\"mx-auto d-block\" src=\"" + url + "\"" + titled + " alt=\"" + inner + "\" />"
  {
    PageOfWrap(Link(url, title), kids, inItem);
    PageOfWrap(Image(url, title), kids, inItem);
  }

  lemma PageOfToken(t: Token)
    ensures Page([t]) == Html(t)
  {
    assert [t][1..] == [] && Html(t) + "" == Html(t);
  }

  lemma PageOfLeaf(k: Kind, inItem: bool, t: Token)
    requires Leaf(k) && Chunk(Enter(k), inItem) == [t]
    ensures PageOf(k, [], inItem) == Html(t)
  {
    PageOfToken(t);
  }

  lemma PageOfLiterals(text: string, inItem: bool)
    ensures PageOf(TextRun(text), [], inItem) == text
    ensures PageOf(HtmlBlock(text), [], inItem) == text
    ensures PageOf(HtmlInline(text), [], inItem) == text
  {
    PageOfLeaf(TextRun(text), inItem, Text(text));
    PageOfLeaf(HtmlBlock(text), inItem, Raw(text));
    PageOfLeaf(HtmlInline(text), inItem, Raw(text));
  }

  lemma PageOfCode(text: string, inItem: bool)
    ensures PageOf(Code(text), [], inItem) == "<code>" + text + "</code>\n"
    ensures PageOf(CodeBlock(text), [], inItem) == "<pre><code>" + text + "</code></pre>\n"
  {
    PageOfLeaf(Code(text), inItem, Raw("<code>" + text + "</code>\n"));
    PageOfLeaf(CodeBlock(text), inItem, Raw("<pre><code>" + text + "</code></pre>\n"));
  }

  lemma PageOfBreaks(inItem: bool)
    ensures PageOf(LineBreak, [], inItem) == "<br />\n"
    ensures PageOf(SoftBreak, [], inItem) == " "
    ensures PageOf(ThematicBreak, [], inItem) == ""
  {
    PageOfLeaf(LineBreak, inItem, Raw("<br />\n"));
    PageOfLeaf(SoftBreak, inItem, Raw(" "));
    assert Render(Node(ThematicBreak, []), inItem) == [];
  }

  lemma PageAround(before: seq<Event>, ev: Event, after: seq<Event>)
    ensures var flag := FlagAfter(before, false);
      Page(EmitAll(before + ([ev] + after), false))
        == Page(EmitAll(before, false)) + (Page(Chunk(ev, flag)) + Page(EmitAll(after, Flag(ev, flag))))
  {
    var flag := FlagAfter(before, false);
    EmitConcat(before, [ev] + after, false);
    EmitConcat([ev], after, flag);
    EmitOne(ev, flag);
    PageConcat(EmitAll(before, false), EmitAll([ev] + after, flag));
    PageConcat(Chunk(ev, flag), EmitAll(after, Flag(ev, flag)));
  }

  lemma TextAlone(text: string, flag: bool)
    ensures Page(Chunk(Enter(TextRun(text)), flag)) == text && Flag(Enter(TextRun(text)), flag) == flag
  {
    PageOfToken(Text(text));
  }

  // Every text run stands in the page, between what the events before it give
  // and what those after it give.
  lemma TextStands(before: seq<Event>, text: string, after: seq<Event>)
    ensures Page(EmitAll(before + ([Enter(TextRun(text))] + after), false))
         == Page(EmitAll(before, false)) + (text + Page(EmitAll(after, FlagAfter(before, false))))
  {
    PageAround(before, Enter(TextRun(text)), after);
    TextAlone(text, FlagAfter(before, false));
  }

  // renderArticle: the page the tree calls for, appended to the response.
  method RenderArticle(chain: ResponseChain, doc: Node)
    requires chain.Valid() && WellFormed(doc)
    modifies chain, chain.spine
    ensures chain.Valid()
    ensures chain.Body() == old(chain.Body()) + Page(Render(doc, false))
  {
    RenderEvents(chain, Events(doc));
    LoopIsRecursion(doc, false);
  }
}
