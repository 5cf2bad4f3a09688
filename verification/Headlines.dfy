/** The two lists of articles: PrimaryHandler::buildArchive and
    EditHandler::buildEditSelect, with the flush policy of renderArticle. */
module Headlines {
  import opened Common
  import opened Numbers
  import opened Response

  datatype Headline = Headline(id: nat, title: string, summary: string)

  function ArchiveLine(h: Headline): string {
    "<h1><a href=\"/article/" + Decimal(h.id) + "\">" + h.title
    + "</a></h1>\n<div class=\"col col-12\" >" + h.summary + "\n</div>\n"
  }

  function SelectLine(h: Headline): string {
    "<div class=\"row\">\n<div class=\"col\"><a href=\"/edit/article/" + Decimal(h.id) + "\">" + h.title
    + "</a></div>\n<div class=\"col-11\">" + h.summary + "</div>\n</div>\n"
  }

  function ArchivePage(headlines: seq<Headline>): string {
    if headlines == [] then "" else ArchiveLine(headlines[0]) + ArchivePage(headlines[1..])
  }

  function SelectPage(headlines: seq<Headline>): string {
    if headlines == [] then "" else SelectLine(headlines[0]) + SelectPage(headlines[1..])
  }

  // What stands where, of each headline.
  lemma LinesMean(id: nat, title: string, summary: string)
    ensures ArchivePage([Headline(id, title, summary)])
         == "<h1><a href=\"/article/" + Decimal(id) + "\">" + title + "</a></h1>\n<div class=\"col col-12\" >"
            + summary + "\n</div>\n"
    ensures SelectPage([Headline(id, title, summary)])
         == "<div class=\"row\">\n<div class=\"col\"><a href=\"/edit/article/" + Decimal(id) + "\">" + title
            + "</a></div>\n<div class=\"col-11\">" + summary + "</div>\n</div>\n"
  {
    var h := Headline(id, title, summary);
    assert [h][1..] == [] && ArchivePage([]) == "" && SelectPage([]) == "";
    assert ArchiveLine(h) + "" == ArchiveLine(h) && SelectLine(h) + "" == SelectLine(h);
  }

  // Lists of headlines give their pages one after the other.
  lemma {:induction false} PagesConcat(a: seq<Headline>, b: seq<Headline>)
    ensures ArchivePage(a + b) == ArchivePage(a) + ArchivePage(b)
    ensures SelectPage(a + b) == SelectPage(a) + SelectPage(b)
  {
    if a == [] {
      assert a + b == b;
    } else {
      assert (a + b)[1..] == a[1..] + b;
      PagesConcat(a[1..], b);
      Assoc(ArchiveLine(a[0]), ArchivePage(a[1..]), ArchivePage(b));
      Assoc(SelectLine(a[0]), SelectPage(a[1..]), SelectPage(b));
    }
  }

  // Every headline once and in order, wherever the buffer was flushed.
  method BuildArchive(chain: ResponseChain, headlines: seq<Headline>)
    requires chain.Valid()
    modifies chain, chain.spine
    ensures chain.Valid()
    ensures chain.Body() == old(chain.Body()) + ArchivePage(headlines)
  {
    var data := "";
    for i := 0 to |headlines|
      invariant chain.Valid()
      invariant fresh(set b | b in chain.spine && b !in old(chain.spine))
      invariant chain.Body() + data + ArchivePage(headlines[i..]) == old(chain.Body()) + ArchivePage(headlines)
    {
      assert headlines[i..][1..] == headlines[i + 1..];
      var line := ArchiveLine(headlines[i]);
      ghost var rest := ArchivePage(headlines[i + 1..]);
      assert ArchivePage(headlines[i..]) == line + rest;
      Assoc(chain.Body() + data, line, rest);
      data := chain.Buffer(data, line);
    }
    chain.PrependResponse(data);
  }

  method BuildEditSelect(chain: ResponseChain, headlines: seq<Headline>)
    requires chain.Valid()
    modifies chain, chain.spine
    ensures chain.Valid()
    ensures chain.Body() == old(chain.Body()) + SelectPage(headlines)
  {
    var data := "";
    for i := 0 to |headlines|
      invariant chain.Valid()
      invariant fresh(set b | b in chain.spine && b !in old(chain.spine))
      invariant chain.Body() + data + SelectPage(headlines[i..]) == old(chain.Body()) + SelectPage(headlines)
    {
      assert headlines[i..][1..] == headlines[i + 1..];
      var line := SelectLine(headlines[i]);
      ghost var rest := SelectPage(headlines[i + 1..]);
      assert SelectPage(headlines[i..]) == line + rest;
      Assoc(chain.Body() + data, line, rest);
      data := chain.Buffer(data, line);
    }
    chain.PrependResponse(data);
  }
}
