/** The response body: folly's circular chain of buffers, prependResponse, and
    the flush policy shared by the page-building loops. */
module Response {

  class IOBuf {
    const data: string
    var next: IOBuf
    var prev: IOBuf

    // IOBuf::copyBuffer: one buffer, its own neighbour on both sides
    constructor (data: string)
      ensures this.data == data && next == this && prev == this
    {
      this.data := data;
      next, prev := this, this;
    }
  }

  ghost predicate Distinct(spine: seq<IOBuf>) {
    forall i, j :: 0 <= i < j < |spine| ==> spine[i] != spine[j]
  }

  ghost predicate Linked(spine: seq<IOBuf>)
    reads spine
  {
    forall i, j :: 0 <= i < |spine| && j == i + 1 < |spine| ==> spine[i].next == spine[j] && spine[j].prev == spine[i]
  }

  // spine lists the buffers of a ring, each once, from its head.
  ghost predicate Ring(spine: seq<IOBuf>)
    reads spine
  {
    && spine != [] && Distinct(spine) && Linked(spine)
    && spine[|spine| - 1].next == spine[0]
    && spine[0].prev == spine[|spine| - 1]
  }

  ghost predicate Apart(a: seq<IOBuf>, b: seq<IOBuf>) {
    forall i, j :: 0 <= i < |a| && 0 <= j < |b| ==> a[i] != b[j]
  }

  lemma Joined(a: seq<IOBuf>, b: seq<IOBuf>)
    requires a != [] && b != [] && Linked(a) && Linked(b) && Distinct(a) && Distinct(b) && Apart(a, b)
    requires a[|a| - 1].next == b[0] && b[0].prev == a[|a| - 1]
    requires b[|b| - 1].next == a[0] && a[0].prev == b[|b| - 1]
    ensures Ring(a + b)
  {
    var s := a + b;
    forall i, j | 0 <= i < |s| && j == i + 1 < |s| ensures s[i].next == s[j] && s[j].prev == s[i] {
      if i < |a| - 1 {
        assert s[i] == a[i] && s[j] == a[j];
      } else if i >= |a| {
        assert s[i] == b[i - |a|] && s[j] == b[j - |a|];
      }
    }
  }

  // The bytes a client receives: each buffer in turn from the head.
  ghost function Text(spine: seq<IOBuf>): string {
    if spine == [] then "" else spine[0].data + Text(spine[1..])
  }

  lemma {:induction false} TextConcat(a: seq<IOBuf>, b: seq<IOBuf>)
    ensures Text(a + b) == Text(a) + Text(b)
  {
    if a == [] {
      assert a + b == b;
    } else {
      assert (a + b)[1..] == a[1..] + b;
      TextConcat(a[1..], b);
    }
  }

  // IOBuf::prependChain: links a whole ring in before the head, which on a
  // circular list is after the tail.
  method PrependChain(head: IOBuf, other: IOBuf, ghost spine: seq<IOBuf>, ghost added: seq<IOBuf>)
    requires Ring(spine) && Ring(added) && spine[0] == head && added[0] == other
    requires Apart(spine, added)
    modifies spine, added
    ensures Ring(spine + added)
    ensures Text(spine + added) == Text(spine) + Text(added)
  {
    var tail, otherTail := head.prev, other.prev;
    tail.next := other;
    other.prev := tail;
    otherTail.next := head;
    head.prev := otherTail;
    assert tail == spine[|spine| - 1] && otherTail == added[|added| - 1];
    assert Linked(spine) && Linked(added);
    Joined(spine, added);
    TextConcat(spine, added);
  }

  class ResponseChain {
    var handlerResponse: IOBuf?
    ghost var spine: seq<IOBuf>

    ghost predicate Valid()
      reads this, spine
    {
      (handlerResponse == null <==> spine == []) &&
      (handlerResponse != null ==> Ring(spine) && spine[0] == handlerResponse)
    }

    ghost function Body(): string
      reads this
    {
      Text(spine)
    }

    constructor ()
      ensures Valid() && Body() == "" && spine == []
    {
      handlerResponse := null;
      spine := [];
    }

    method PrependResponse(data: string)
      requires Valid()
      modifies this, spine
      ensures Valid() && fresh(set b | b in spine && b !in old(spine))
      ensures Body() == old(Body()) + data
    {
      var buf := new IOBuf(data);
      assert Ring([buf]) && Text([buf]) == data + Text([buf][1..]);
      assert Text([buf]) == data;
      if handlerResponse != null {
        PrependChain(handlerResponse, buf, spine, [buf]);
        spine := spine + [buf];
      } else {
        handlerResponse := buf;
        spine := [buf];
      }
    }

    // The policy of renderArticle, buildArchive and buildEditSelect: a chunk
    // that does not fit in the spare capacity of the pending text, whatever the
    // string class reports that to be, sends the pending text off first.
    method Buffer(pending: string, chunk: string) returns (kept: string)
      requires Valid()
      modifies this, spine
      ensures Valid() && fresh(set b | b in spine && b !in old(spine))
      ensures Body() + kept == old(Body()) + pending + chunk
    {
      var spare: nat := *;
      if spare < |chunk| {
        PrependResponse(pending);
        kept := chunk;
      } else {
        kept := pending + chunk;
      }
    }
  }
}
