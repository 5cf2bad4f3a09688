/** HandlerBase::parseCookies: two nested strtok_r scans that write NULs into
    one buffer, and the cookie jar they fill. */
module Cookies {
  import opened Common

  const NUL := '\0'

  // ---------- the pure split ----------

  function Span(text: string, delims: string): (n: nat)
    ensures n <= |text|
  {
    if text == "" || text[0] in delims then 0 else 1 + Span(text[1..], delims)
  }

  // The fields of text between delimiters, empty ones dropped.
  function Tokens(text: string, delims: string): seq<string>
    decreases |text|
  {
    if text == "" then []
    else if text[0] in delims then Tokens(text[1..], delims)
    else [text[..Span(text, delims)]] + Tokens(text[Span(text, delims)..], delims)
  }

  predicate HasNameAndValue(field: string) {
    |Tokens(field, "=")| >= 2
  }

  // The jar after storing each field: its first part names its second.
  function Store(jar: map<string, string>, fields: seq<string>): map<string, string>
    requires forall f :: f in fields ==> HasNameAndValue(f)
    decreases |fields|
  {
    if fields == [] then jar
    else
      assert HasNameAndValue(fields[0]);
      var parts := Tokens(fields[0], "=");
      Store(jar[parts[0] := parts[1]], fields[1..])
  }

  // ---------- C strings in memory ----------

  predicate Terminated(mem: seq<char>, i: nat) {
    i < |mem| && mem[|mem| - 1] == NUL
  }

  function CString(mem: seq<char>, i: nat): string
    requires Terminated(mem, i)
    decreases |mem| - i
  {
    if mem[i] == NUL then "" else [mem[i]] + CString(mem, i + 1)
  }

  lemma {:induction false} CStringFits(mem: seq<char>, i: nat)
    requires Terminated(mem, i)
    ensures i + |CString(mem, i)| < |mem|
    decreases |mem| - i
  {
    if mem[i] != NUL { CStringFits(mem, i + 1); }
  }

  // A C string depends only on the memory it occupies.
  lemma {:induction false} CStringFrame(a: seq<char>, b: seq<char>, i: nat)
    requires Terminated(a, i) && Terminated(b, i) && |a| == |b|
    requires forall k :: i <= k <= i + |CString(a, i)| && k < |a| ==> a[k] == b[k]
    ensures CString(a, i) == CString(b, i)
    decreases |a| - i
  {
    if a[i] != NUL {
      CStringFrame(a, b, i + 1);
    }
  }

  // A stretch with no NUL heads the string that starts there.
  lemma {:induction false} CStringSplit(mem: seq<char>, i: nat, j: nat)
    requires Terminated(mem, i) && i <= j < |mem|
    requires forall k :: i <= k < j ==> mem[k] != NUL
    ensures CString(mem, i) == mem[i..j] + CString(mem, j)
    decreases j - i
  {
    if i == j {
      assert mem[i..j] == "" && "" + CString(mem, j) == CString(mem, j);
    } else {
      var rest := CString(mem, j);
      CStringSplit(mem, i + 1, j);
      assert CString(mem, i) == [mem[i]] + (mem[i + 1..j] + rest);
      assert [mem[i]] + (mem[i + 1..j] + rest) == ([mem[i]] + mem[i + 1..j]) + rest;
      assert mem[i..j] == [mem[i]] + mem[i + 1..j];
    }
  }

  lemma {:induction false} SpanOfField(field: string, rest: string, delims: string)
    requires forall c :: c in field ==> c !in delims
    requires rest == "" || rest[0] in delims
    ensures Span(field + rest, delims) == |field|
  {
    if field == "" {
      assert field + rest == rest;
    } else {
      assert (field + rest)[1..] == field[1..] + rest;
      SpanOfField(field[1..], rest, delims);
    }
  }

  // A delimiter-free field up to a delimiter or the end is the first token.
  lemma FirstToken(field: string, rest: string, delims: string)
    requires field != "" && forall c :: c in field ==> c !in delims
    requires rest == "" || rest[0] in delims
    ensures Tokens(field + rest, delims) == [field] + Tokens(rest, delims)
  {
    SpanOfField(field, rest, delims);
    assert (field + rest)[..|field|] == field;
    assert (field + rest)[|field|..] == rest;
  }

  // A delimiter in front is dropped.
  lemma LeadingDelimiter(c: char, text: string, delims: string)
    requires c in delims
    ensures Tokens([c] + text, delims) == Tokens(text, delims) && Tokens("", delims) == []
  {
    assert ([c] + text)[1..] == text;
  }

  // Skips delimiters.
  method SkipDelims(buf: array<char>, from: nat, delims: string) returns (s: nat)
    requires Terminated(buf[..], from) && NUL !in delims
    ensures from <= s && Terminated(buf[..], s) && buf[s] !in delims
    ensures Tokens(CString(buf[..], s), delims) == Tokens(CString(buf[..], from), delims)
    ensures s + |CString(buf[..], s)| == from + |CString(buf[..], from)|
  {
    s := from;
    while buf[s] in delims
      invariant from <= s < buf.Length
      invariant Tokens(CString(buf[..], s), delims) == Tokens(CString(buf[..], from), delims)
      invariant s + |CString(buf[..], s)| == from + |CString(buf[..], from)|
      decreases buf.Length - s
    {
      assert CString(buf[..], s)[1..] == CString(buf[..], s + 1);
      s := s + 1;
    }
  }

  // Skips to the next delimiter or NUL.
  method SkipToken(buf: array<char>, s: nat, delims: string) returns (e: nat)
    requires Terminated(buf[..], s) && NUL !in delims
    ensures s <= e && Terminated(buf[..], e) && (buf[e] == NUL || buf[e] in delims)
    ensures forall k :: s <= k < e ==> buf[k] != NUL && buf[k] !in delims
  {
    e := s;
    while buf[e] != NUL && buf[e] !in delims
      invariant s <= e < buf.Length
      invariant forall k :: s <= k < e ==> buf[k] != NUL && buf[k] !in delims
      decreases buf.Length - e
    {
      e := e + 1;
    }
  }

  // Ending a token with a NUL leaves the token before it and the rest after it.
  lemma CutToken(mem: seq<char>, s: nat, e: nat)
    requires Terminated(mem, s) && s <= e && Terminated(mem, e) && e + 1 < |mem|
    requires forall k :: s <= k < e ==> mem[k] != NUL
    ensures CString(mem[e := NUL], s) == mem[s..e]
    ensures CString(mem[e := NUL], e + 1) == CString(mem, e + 1)
  {
    var now := mem[e := NUL];
    CStringFits(mem, e + 1);
    CStringFrame(mem, now, e + 1);
    CStringSplit(now, s, e);
    assert now[s..e] == mem[s..e];
  }

  // strtok_r: finds the next token at or after from, ends it with a NUL and
  // says where the scan goes on.
  method StrtokR(buf: array<char>, from: nat, delims: string) returns (token: Option<nat>, save: nat)
    requires Terminated(buf[..], from) && NUL !in delims
    modifies buf
    ensures Terminated(buf[..], save)
    ensures forall k :: 0 <= k < buf.Length && (k < from || k >= from + |CString(old(buf[..]), from)|) ==>
      buf[k] == old(buf[k])
    ensures token.None? <==> Tokens(CString(old(buf[..]), from), delims) == []
    ensures token.Some? ==>
      var tokens := Tokens(CString(old(buf[..]), from), delims);
      && from <= token.value && Terminated(buf[..], token.value)
      && CString(buf[..], token.value) == tokens[0] && tokens[0] != ""
      && token.value + |tokens[0]| <= save
      && (token.value + |tokens[0]| == save ==> CString(buf[..], save) == "")
      && Tokens(CString(buf[..], save), delims) == tokens[1..]
      && save + |CString(buf[..], save)| == from + |CString(old(buf[..]), from)|
  {
    ghost var mem := buf[..];
    CStringFits(mem, from);
    var s := SkipDelims(buf, from, delims);
    if buf[s] == NUL {
      return None, s;
    }
    var e := SkipToken(buf, s, delims);
    CStringSplit(mem, s, e);
    FirstToken(mem[s..e], CString(mem, e), delims);
    token := Some(s);
    if buf[e] == NUL {
      save := e;
    } else {
      assert CString(mem, e)[1..] == CString(mem, e + 1);
      CStringFits(mem, s);
      CutToken(mem, s, e);
      buf[e] := NUL;
      save := e + 1;
      assert buf[..] == mem[e := NUL];
    }
  }

  // ---------- the jar ----------

  // Splits one field in place and stores it.
  method StoreField(jar: map<string, string>, buf: array<char>, cookie: nat) returns (stored: map<string, string>)
    requires Terminated(buf[..], cookie) && HasNameAndValue(CString(buf[..], cookie))
    modifies buf
    ensures forall k :: 0 <= k < buf.Length && (k < cookie || k >= cookie + |CString(old(buf[..]), cookie)|) ==>
      buf[k] == old(buf[k])
    ensures var parts := Tokens(CString(old(buf[..]), cookie), "=");
      stored == jar[parts[0] := parts[1]]
  {
    ghost var field := CString(buf[..], cookie);
    var name, save := StrtokR(buf, cookie, "=");
    ghost var mem := buf[..];
    CStringFits(mem, save);
    var value, _ := StrtokR(buf, save, "=");
    CStringFrame(mem, buf[..], name.value);
    stored := jar[ReadCString(buf, name.value) := ReadCString(buf, value.value)];
  }

  function ReadCString(buf: array<char>, i: nat): string
    requires Terminated(buf[..], i)
    reads buf
  {
    CString(buf[..], i)
  }

  class CookieJar {
    var cookieJar: map<string, string>

    constructor ()
      ensures cookieJar == map[]
    {
      cookieJar := map[];
    }

    // Every field of the header must have a name and a value.
    method ParseCookies(cookies: array<char>)
      requires Terminated(cookies[..], 0)
      requires forall f :: f in Tokens(CString(cookies[..], 0), "; ") ==> HasNameAndValue(f)
      modifies this, cookies
      ensures cookieJar == Store(old(cookieJar), Tokens(CString(old(cookies[..]), 0), "; "))
    {
      ghost var fields := Tokens(CString(cookies[..], 0), "; ");
      var cookie: Option<nat>, save: nat := StrtokR(cookies, 0, "; ");
      while cookie.Some?
        invariant Terminated(cookies[..], save)
        invariant cookie.Some? ==>
          && Terminated(cookies[..], cookie.value)
          && fields != [] && CString(cookies[..], cookie.value) == fields[0]
          && cookie.value + |fields[0]| <= save
          && Tokens(CString(cookies[..], save), "; ") == fields[1..]
        invariant cookie.None? ==> fields == []
        invariant forall f :: f in fields ==> HasNameAndValue(f)
        invariant Store(cookieJar, fields) == Store(old(cookieJar), Tokens(CString(old(cookies[..]), 0), "; "))
        decreases |fields|, cookie.Some?
      {
        ghost var mem := cookies[..];
        assert HasNameAndValue(fields[0]);
        cookieJar := StoreField(cookieJar, cookies, cookie.value);
        CStringFrame(mem, cookies[..], save);
        fields := fields[1..];
        cookie, save := StrtokR(cookies, save, "; ");
      }
    }

    method AddCookie(name: string, value: string)
      modifies this
      ensures cookieJar == old(cookieJar)[name := value]
    {
      cookieJar := cookieJar[name := value];
    }

    function GetCookie(name: string): Option<string>
      reads this
    {
      if name in cookieJar then Some(cookieJar[name]) else None
    }
  }

  // ---------- printing and parsing back ----------

  predicate Plain(s: string) {
    s != "" && forall c :: c in s ==> c !in "; =" && c != NUL
  }

  datatype Pair = Pair(name: string, value: string)

  predicate AllPlain(pairs: seq<Pair>) {
    forall p :: p in pairs ==> Plain(p.name) && Plain(p.value)
  }

  // The Cookie header of section 4.2.1 of RFC 6265.
  function Print(pairs: seq<Pair>): string {
    if pairs == [] then ""
    else pairs[0].name + "=" + pairs[0].value + (if |pairs| == 1 then "" else "; " + Print(pairs[1..]))
  }

  function Put(jar: map<string, string>, pairs: seq<Pair>): map<string, string>
    decreases |pairs|
  {
    if pairs == [] then jar else Put(jar[pairs[0].name := pairs[0].value], pairs[1..])
  }

  lemma FieldParts(p: Pair)
    requires Plain(p.name) && Plain(p.value)
    ensures Tokens(p.name + "=" + p.value, "=") == [p.name, p.value]
  {
    FirstToken(p.name, "=" + p.value, "=");
    assert p.name + ("=" + p.value) == p.name + "=" + p.value;
    assert ("=" + p.value)[1..] == p.value;
    FirstToken(p.value, "", "=");
    assert p.value + "" == p.value;
  }

  // Parsing a printed list of pairs stores exactly those pairs, in order.
  lemma {:induction false} PrintParses(jar: map<string, string>, pairs: seq<Pair>)
    requires AllPlain(pairs)
    ensures forall f :: f in Tokens(Print(pairs), "; ") ==> HasNameAndValue(f)
    ensures Store(jar, Tokens(Print(pairs), "; ")) == Put(jar, pairs)
    decreases |pairs|
  {
    if pairs != [] {
      var p := pairs[0];
      assert p in pairs && forall q :: q in pairs[1..] ==> q in pairs;
      var field := p.name + "=" + p.value;
      var rest := if |pairs| == 1 then "" else "; " + Print(pairs[1..]);
      FieldParts(p);
      FirstToken(field, rest, "; ");
      assert field + rest == Print(pairs);
      PrintParses(jar[p.name := p.value], pairs[1..]);
      if |pairs| > 1 {
        assert rest[1..][1..] == Print(pairs[1..]);
      }
      assert Tokens(Print(pairs), "; ") == [field] + Tokens(Print(pairs[1..]), "; ");
    }
  }

  // Of two fields with one name the last is kept, and a third part of a field
  // is dropped.
  lemma LastFieldWins(jar: map<string, string>, name: string, a: string, b: string, rest: string)
    requires Plain(name) && Plain(a) && Plain(b) && Plain(rest)
    ensures HasNameAndValue(name + "=" + a) && HasNameAndValue(name + ("=" + (b + ("=" + rest))))
    ensures Store(jar, [name + "=" + a, name + ("=" + (b + ("=" + rest)))]) == jar[name := b]
  {
    var one, two := name + "=" + a, name + ("=" + (b + ("=" + rest)));
    FieldParts(Pair(name, a));
    FirstToken(name, "=" + (b + ("=" + rest)), "=");
    LeadingDelimiter('=', b + ("=" + rest), "=");
    FirstToken(b, "=" + rest, "=");
    assert [one, two][1..] == [two] && [two][1..] == [];
    assert Store(jar[name := a][name := b], []) == jar[name := b];
  }

  // A buffer holding text and its NUL reads back as the text.
  lemma BufferHolds(text: string)
    requires NUL !in text
    ensures Terminated(text + [NUL], 0) && CString(text + [NUL], 0) == text
  {
    CStringSplit(text + [NUL], 0, |text|);
    assert (text + [NUL])[0..|text|] == text;
  }

  // The pairs list the map, each name once.
  predicate Lists(pairs: seq<Pair>, m: map<string, string>) {
    && (forall i, j :: 0 <= i < j < |pairs| ==> pairs[i].name != pairs[j].name)
    && (forall p :: p in pairs ==> p.name in m && m[p.name] == p.value)
    && (forall name :: name in m ==> Pair(name, m[name]) in pairs)
  }

  lemma {:induction false} PutLists(jar: map<string, string>, pairs: seq<Pair>, name: string)
    requires forall i, j :: 0 <= i < j < |pairs| ==> pairs[i].name != pairs[j].name
    ensures name in Put(jar, pairs) <==> name in jar || exists p :: p in pairs && p.name == name
    ensures forall p :: p in pairs && p.name == name ==> Put(jar, pairs)[name] == p.value
    ensures name in jar && (forall p :: p in pairs ==> p.name != name) ==> Put(jar, pairs)[name] == jar[name]
    decreases |pairs|
  {
    if pairs != [] {
      var p := pairs[0];
      PutLists(jar[p.name := p.value], pairs[1..], name);
      assert forall q :: q in pairs <==> q == p || q in pairs[1..];
      assert forall q :: q in pairs[1..] ==> q.name != p.name;
    }
  }

  // A cookie map printed in any order and parsed into an empty jar comes back unchanged.
  lemma CookieRoundTrip(m: map<string, string>, pairs: seq<Pair>)
    requires Lists(pairs, m) && AllPlain(pairs)
    ensures forall f :: f in Tokens(Print(pairs), "; ") ==> HasNameAndValue(f)
    ensures Store(map[], Tokens(Print(pairs), "; ")) == m
  {
    PrintParses(map[], pairs);
    var got := Put(map[], pairs);
    forall name
      ensures name in got <==> name in m
      ensures name in m ==> got[name] == m[name]
    {
      PutLists(map[], pairs, name);
      if name in m {
        assert Pair(name, m[name]) in pairs && Pair(name, m[name]).name == name;
      }
    }
  }
}
