/** The CommonMark tree as cmark presents it: nodes, and the enter and exit
    events of its iterator. */
module Markdown {

  datatype Kind =
    // blocks
    | Document
    | Heading(level: nat)
    | Paragraph
    | List(ordered: bool)
    | Item
    | BlockQuote
    | CodeBlock(code: string)
    | HtmlBlock(html: string)
    | ThematicBreak
    // inlines
    | TextRun(literal: string)
    | Code(code: string)
    | HtmlInline(html: string)
    | LineBreak
    | SoftBreak
    | Emph
    | Strong
    | Link(url: string, title: string)
    | Image(url: string, title: string)

  datatype Node = Node(kind: Kind, kids: seq<Node>)

  predicate Leaf(k: Kind) {
    k.CodeBlock? || k.HtmlBlock? || k.ThematicBreak? || k.TextRun? || k.Code? || k.HtmlInline?
    || k.LineBreak? || k.SoftBreak?
  }

  predicate Inline(k: Kind) {
    k.TextRun? || k.Code? || k.HtmlInline? || k.LineBreak? || k.SoftBreak? || k.Emph? || k.Strong?
    || k.Link? || k.Image?
  }

  predicate Block(k: Kind) { !Inline(k) && !k.Document? && !k.Item? }

  // What may stand directly under what (sections 4 to 6 of CommonMark 0.28).
  predicate MayHold(k: Kind, kid: Kind) {
    match k
    case Document => Block(kid)
    case BlockQuote => Block(kid)
    case Item => Block(kid)
    case List(_) => kid.Item?
    case _ => !Leaf(k) && Inline(kid)
  }

  predicate WellFormed(n: Node) {
    && (n.kind.Heading? ==> 1 <= n.kind.level <= 6)
    && (Leaf(n.kind) ==> n.kids == [])
    && (forall k :: k in n.kids ==> MayHold(n.kind, k.kind) && WellFormed(k))
  }

  predicate AllWellFormed(ns: seq<Node>) {
    forall n :: n in ns ==> WellFormed(n)
  }

  predicate AllInline(ns: seq<Node>) {
    forall n :: n in ns ==> WellFormed(n) && Inline(n.kind)
  }

  datatype Event = Enter(kind: Kind) | Exit(kind: Kind)

  // The iterator: a leaf has no exit event.
  function Events(n: Node): seq<Event> {
    [Enter(n.kind)] + (if Leaf(n.kind) then [] else EventsAll(n.kids) + [Exit(n.kind)])
  }

  function EventsAll(ns: seq<Node>): seq<Event> {
    if ns == [] then [] else Events(ns[0]) + EventsAll(ns[1..])
  }

  predicate HasItem(n: Node) {
    n.kind.Item? || exists k :: k in n.kids && HasItem(k)
  }

  lemma {:induction false} InlineHasNoItem(n: Node)
    requires WellFormed(n) && (Inline(n.kind) || n.kind.Heading? || n.kind.Paragraph?)
    ensures !HasItem(n)
  {
    forall k | k in n.kids ensures !HasItem(k) {
      InlineHasNoItem(k);
    }
  }
}
