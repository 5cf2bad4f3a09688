/** Percent encoding: DBConn::urlEncode and StaticHandler::parsePath. */
module PathCodec {
  import opened Common

  // ---------- the encoder ----------

  predicate Alnum(c: char) {
    '0' <= c <= '9' || 'A' <= c <= 'Z' || 'a' <= c <= 'z'
  }

  // The unreserved characters of section 2.3 of RFC 3986.
  predicate Unreserved(c: char) {
    Alnum(c) || c == '-' || c == '.' || c == '_' || c == '~'
  }

  function HexDigit(n: nat): char
    requires n < 16
  {
    if n < 10 then ('0' as int + n) as char else ('A' as int + n - 10) as char
  }

  function EncodeOctet(c: Octet): string {
    if Unreserved(c) then [c] else ['%', HexDigit(c as int / 16), HexDigit(c as int % 16)]
  }

  function Encode(s: seq<Octet>): string {
    if s == [] then "" else EncodeOctet(s[0]) + Encode(s[1..])
  }

  lemma EncodeStep(buf: string, rest: seq<Octet>)
    requires rest != []
    ensures buf + Encode(rest) == (buf + EncodeOctet(rest[0])) + Encode(rest[1..])
  {
    assert buf + (EncodeOctet(rest[0]) + Encode(rest[1..])) == (buf + EncodeOctet(rest[0])) + Encode(rest[1..]);
  }

  method UrlEncode(str: seq<Octet>) returns (buf: string)
    ensures buf == Encode(str)
  {
    buf := "";
    assert str[0..] == str;
    for i := 0 to |str|
      invariant buf + Encode(str[i..]) == Encode(str)
    {
      var ch := str[i];
      EncodeStep(buf, str[i..]);
      assert str[i..][0] == ch && str[i..][1..] == str[i + 1..];
      if Unreserved(ch) {
        buf := buf + [ch];
      } else {
        buf := buf + ['%', HexDigit(ch as int / 16), HexDigit(ch as int % 16)];
      }
    }
    assert str[|str|..] == [] && buf + "" == buf;
  }

  // ---------- the decoder ----------

  function HexValue(c: char): Option<nat> {
    if '0' <= c <= '9' then Some(c as int - '0' as int)
    else if 'A' <= c <= 'F' then Some(c as int - 'A' as int + 10)
    else if 'a' <= c <= 'f' then Some(c as int - 'a' as int + 10)
    else None
  }

  predicate Space(c: char) {
    c == ' ' || '\t' <= c <= '\r'
  }

  // stoi(tmp, &pos, 16) on two characters, kept only when pos is 2, and cast
  // to char: two hex digits, or one after a blank or a sign.
  function Stoi(a: char, b: char): (r: Option<nat>)
    ensures r.Some? ==> r.value < 256
  {
    match HexValue(b)
    case None => None
    case Some(low) =>
      if HexValue(a).Some? then Some(16 * HexValue(a).value + low)
      else if Space(a) || a == '+' then Some(low)
      else if a == '-' then Some((256 - low) % 256)
      else None
  }

  // Every % the scan reaches has two characters after it.
  predicate WellEscaped(path: string) {
    path == "" ||
    (if path[0] == '%' then
       |path| >= 3 && (Stoi(path[1], path[2]).Some? ==> WellEscaped(path[3..]))
     else WellEscaped(path[1..]))
  }

  function Prepend(c: char, rest: Result<string>): Result<string> {
    match rest case Ok(s) => Ok([c] + s) case Err(e) => Err(e)
  }

  function Decode(path: string): Result<string>
    requires WellEscaped(path)
  {
    if path == "" then Ok("")
    else if path[0] == '+' then Prepend(' ', Decode(path[1..]))
    else if path[0] == '%' then
      (match Stoi(path[1], path[2])
       case None => Err(HandlerError(400))
       case Some(n) => Prepend(n as char, Decode(path[3..])))
    else Prepend(path[0], Decode(path[1..]))
  }

  function Append(s: string, rest: Result<string>): Result<string> {
    match rest case Ok(t) => Ok(s + t) case Err(e) => Err(e)
  }

  lemma AppendNothing(r: Result<string>)
    ensures Append("", r) == r
  {
    if r.Ok? { assert "" + r.value == r.value; }
  }

  lemma AppendLast(s: string, c: char, rest: Result<string>)
    ensures Append(s, Prepend(c, rest)) == Append(s + [c], rest)
  {
    if rest.Ok? { assert s + ([c] + rest.value) == (s + [c]) + rest.value; }
  }

  method ParsePath(path: string) returns (r: Result<string>)
    requires WellEscaped(path)
    ensures r == Decode(path)
  {
    var retVal := "";
    var p := 0;
    AppendNothing(Decode(path));
    assert path[0..] == path;
    while p < |path|
      invariant p <= |path| && WellEscaped(path[p..])
      invariant Decode(path) == Append(retVal, Decode(path[p..]))
    {
      ghost var rest, was := path[p..], retVal;
      assert rest[0] == path[p];
      if path[p] == '+' {
        retVal := retVal + " ";
        p := p + 1;
        assert path[p..] == rest[1..];
      } else if path[p] == '%' {
        assert rest[1] == path[p + 1] && rest[2] == path[p + 2];
        var chr := Stoi(path[p + 1], path[p + 2]);
        if chr.None? {
          return Err(HandlerError(400));
        }
        retVal := retVal + [chr.value as char];
        p := p + 3;
        assert path[p..] == rest[3..];
      } else {
        retVal := retVal + [path[p]];
        p := p + 1;
        assert path[p..] == rest[1..];
      }
      AppendLast(was, retVal[|was|], Decode(path[p..]));
    }
    assert path[p..] == "" && retVal + "" == retVal;
    return Ok(retVal);
  }

  // ---------- round trips ----------

  lemma HexRoundTrip(n: nat)
    requires n < 16
    ensures HexValue(HexDigit(n)) == Some(n)
  {
  }

  lemma OctetRoundTrip(c: Octet, rest: string)
    requires WellEscaped(rest)
    ensures WellEscaped(EncodeOctet(c) + rest)
    ensures Decode(EncodeOctet(c) + rest) == Prepend(c, Decode(rest))
  {
    var code := EncodeOctet(c);
    if Unreserved(c) {
      assert (code + rest)[1..] == rest;
    } else {
      HexRoundTrip(c as int / 16);
      HexRoundTrip(c as int % 16);
      assert (code + rest)[3..] == rest;
      assert 16 * (c as int / 16) + c as int % 16 == c as int;
    }
  }

  // The encoder always meets the decoder's precondition, and the decoder undoes it.
  lemma {:induction false} RoundTrip(s: seq<Octet>)
    ensures WellEscaped(Encode(s))
    ensures Decode(Encode(s)) == Ok(s)
  {
    if s != [] {
      RoundTrip(s[1..]);
      OctetRoundTrip(s[0], Encode(s[1..]));
      assert [s[0]] + s[1..] == s;
    }
  }

  lemma EncodeInjective(s: seq<Octet>, t: seq<Octet>)
    ensures Encode(s) == Encode(t) <==> s == t
  {
    RoundTrip(s);
    RoundTrip(t);
  }

  predicate EscapeOf(n: nat, high: char, low: char)
    requires n < 256
  {
    !Unreserved(n as char) && high == HexDigit(n / 16) && low == HexDigit(n % 16)
  }

  // Unreserved characters and two-digit upper-case escapes of the others, as
  // section 2.1 of RFC 3986 asks of producers.
  predicate Canonical(path: string) {
    path == "" ||
    (if Unreserved(path[0]) then Canonical(path[1..])
     else
       && path[0] == '%' && |path| >= 3
       && (exists n: nat :: n < 256 && EscapeOf(n, path[1], path[2]))
       && Canonical(path[3..]))
  }

  lemma {:induction false} EncodeIsCanonical(s: seq<Octet>)
    ensures Canonical(Encode(s))
  {
    if s != [] {
      EncodeIsCanonical(s[1..]);
      var code := EncodeOctet(s[0]);
      assert Encode(s)[|code|..] == Encode(s[1..]);
      if !Unreserved(s[0]) {
        var n := s[0] as int;
        assert EscapeOf(n, Encode(s)[1], Encode(s)[2]);
      }
    }
  }

  // The canonical paths are exactly the encoder's outputs: each decodes, and
  // encoding the result gives it back.
  lemma {:induction false} CanonicalRoundTrip(path: string) returns (s: seq<Octet>)
    requires Canonical(path)
    ensures Encode(s) == path && WellEscaped(path) && Decode(path) == Ok(s)
  {
    if path == "" {
      s := [];
    } else if Unreserved(path[0]) {
      var rest := CanonicalRoundTrip(path[1..]);
      s := [path[0]] + rest;
      assert s[1..] == rest && path == [path[0]] + path[1..];
    } else {
      var n: nat :| n < 256 && EscapeOf(n, path[1], path[2]);
      var rest := CanonicalRoundTrip(path[3..]);
      s := [n as char] + rest;
      assert s[1..] == rest && path == EncodeOctet(n as char) + path[3..];
    }
    RoundTrip(s);
  }

  lemma AppendAfter(c: char, s: string, rest: Result<string>)
    ensures Prepend(c, Append(s, rest)) == Append([c] + s, rest)
  {
    if rest.Ok? { assert [c] + (s + rest.value) == ([c] + s) + rest.value; }
  }

  // Decoding goes piece by piece.
  lemma {:induction false} DecodeConcat(a: string, b: string)
    requires WellEscaped(a) && WellEscaped(b) && Decode(a).Ok?
    ensures WellEscaped(a + b)
    ensures Decode(a + b) == Append(Decode(a).value, Decode(b))
  {
    if a == "" {
      assert a + b == b;
      AppendNothing(Decode(b));
    } else {
      var n := if a[0] == '%' then 3 else 1;
      assert (a + b)[n..] == a[n..] + b;
      DecodeConcat(a[n..], b);
      var c := Decode(a).value[0];
      assert Decode(a) == Prepend(c, Decode(a[n..]));
      assert Decode(a + b) == Prepend(c, Decode(a[n..] + b));
      AppendAfter(c, Decode(a[n..]).value, Decode(b));
    }
  }

  // ---------- every spelling ----------

  predicate Hex(c: char) {
    '0' <= c <= '9' || 'a' <= c <= 'f' || 'A' <= c <= 'F'
  }

  lemma HexSpellings(n: nat)
    requires n < 16
    ensures HexValue("0123456789abcdef"[n]) == Some(n) && HexValue("0123456789ABCDEF"[n]) == Some(n)
    ensures HexDigit(n) == "0123456789ABCDEF"[n]
  {
  }

  lemma HexSpelled(c: char)
    ensures HexValue(c).Some? <==> Hex(c)
    ensures Hex(c) ==>
      HexValue(c).value < 16
      && (c == "0123456789abcdef"[HexValue(c).value] || c == "0123456789ABCDEF"[HexValue(c).value])
  {
  }

  // Two hex digits in either case are the byte they write.
  lemma EverySpelling(m: nat, n: nat, a: char, b: char)
    requires m < 16 && n < 16
    requires a == "0123456789abcdef"[m] || a == "0123456789ABCDEF"[m]
    requires b == "0123456789abcdef"[n] || b == "0123456789ABCDEF"[n]
    ensures Stoi(a, b) == Some(16 * m + n)
    ensures Stoi(' ', b) == Some(n) && Stoi('+', b) == Some(n)
    ensures Stoi('-', b) == Some(if n == 0 then 0 else 256 - n)
  {
    HexSpellings(m);
    HexSpellings(n);
  }

  // Neither two hex digits nor a blank or a sign and one.
  predicate BadEscape(a: char, b: char) {
    !Hex(b) || !(Hex(a) || a == ' ' || '\t' <= a <= '\r' || a == '+' || a == '-')
  }

  lemma StoiRefuses(a: char, b: char)
    ensures Stoi(a, b).None? <==> BadEscape(a, b)
  {
    HexSpelled(a);
    HexSpelled(b);
  }

  // One step of the scan: a character, a plus, an escape.
  lemma DecodeMeans(c: char, path: string, a: char, b: char)
    requires WellEscaped(path) && c != '%' && c != '+'
    ensures WellEscaped([c] + path) && Decode([c] + path) == Prepend(c, Decode(path))
    ensures WellEscaped("+" + path) && WellEscaped("%20" + path)
    ensures Decode("+" + path) == Prepend(' ', Decode(path)) && Decode("%20" + path) == Decode("+" + path)
    ensures WellEscaped(['%', a, b] + path)
    ensures Decode(['%', a, b] + path) ==
      if BadEscape(a, b) then Err(HandlerError(400)) else Prepend(Stoi(a, b).value as char, Decode(path))
  {
    StoiRefuses(a, b);
    assert ([c] + path)[1..] == path && ("+" + path)[1..] == path;
    assert ("%20" + path)[3..] == path && (['%', a, b] + path)[3..] == path;
    EverySpelling(2, 0, '2', '0');
  }

  // The scan reaches an escape that is no byte.
  predicate ReachesBadEscape(path: string)
    requires WellEscaped(path)
  {
    path != "" &&
    (if path[0] == '%' then
       BadEscape(path[1], path[2]) || (Stoi(path[1], path[2]).Some? && ReachesBadEscape(path[3..]))
     else ReachesBadEscape(path[1..]))
  }

  // Decoding fails exactly then, and with a bad request.
  lemma {:induction false} DecodeErrsIff(path: string)
    requires WellEscaped(path)
    ensures Decode(path).Err? <==> ReachesBadEscape(path)
    ensures Decode(path).Err? ==> Decode(path) == Err(HandlerError(400))
    decreases |path|
  {
    if path != "" {
      if path[0] != '%' {
        DecodeErrsIff(path[1..]);
      } else {
        StoiRefuses(path[1], path[2]);
        if Stoi(path[1], path[2]).Some? { DecodeErrsIff(path[3..]); }
      }
    }
  }

  function Lower(c: char): char {
    if 'A' <= c <= 'F' then "abcdef"[c as int - 'A' as int] else c
  }

  // The escapes that the scan reaches, with their hex digits in lower case.
  function Lowered(path: string): string
    requires WellEscaped(path)
  {
    if path == "" then ""
    else if path[0] != '%' then [path[0]] + Lowered(path[1..])
    else
      ['%', Lower(path[1]), Lower(path[2])]
      + (if Stoi(path[1], path[2]).Some? then Lowered(path[3..]) else path[3..])
  }

  lemma StoiLowered(a: char, b: char)
    ensures Stoi(Lower(a), Lower(b)) == Stoi(a, b)
  {
  }

  // The case of the hex digits does not matter.
  lemma {:induction false} LoweredDecodes(path: string)
    requires WellEscaped(path)
    ensures WellEscaped(Lowered(path)) && Decode(Lowered(path)) == Decode(path)
    decreases |path|
  {
    if path != "" {
      var n := if path[0] == '%' then 3 else 1;
      assert Lowered(path)[0] == path[0];
      if n == 1 {
        assert Lowered(path)[1..] == Lowered(path[1..]);
        LoweredDecodes(path[1..]);
      } else {
        StoiLowered(path[1], path[2]);
        if Stoi(path[1], path[2]).Some? {
          assert Lowered(path)[3..] == Lowered(path[3..]);
          LoweredDecodes(path[3..]);
        }
      }
    }
  }

  // What the encoder writes for one byte.
  lemma EncodeMeans(c: Octet)
    ensures var plain := '0' <= c <= '9' || 'A' <= c <= 'Z' || 'a' <= c <= 'z'
                         || c == '-' || c == '.' || c == '_' || c == '~';
      Encode([c]) ==
        if plain then [c]
        else ['%', "0123456789ABCDEF"[c as int / 16], "0123456789ABCDEF"[c as int % 16]]
  {
    assert [c][1..] == [] && EncodeOctet(c) + "" == EncodeOctet(c);
    HexSpellings(c as int / 16);
    HexSpellings(c as int % 16);
  }

  // Strings are encoded one after the other.
  lemma {:induction false} EncodeConcat(a: seq<Octet>, b: seq<Octet>)
    ensures Encode(a + b) == Encode(a) + Encode(b)
  {
    if a == [] {
      assert a + b == b;
    } else {
      assert (a + b)[1..] == a[1..] + b;
      EncodeConcat(a[1..], b);
      Assoc(EncodeOctet(a[0]), Encode(a[1..]), Encode(b));
    }
  }
}
