/** Numbers in decimal, as they stand in pages and in posted parameters. */
module Numbers {

  function Decimal(n: nat): string {
    if n < 10 then [('0' as int + n) as char] else Decimal(n / 10) + [('0' as int + n % 10) as char]
  }

  // std::to_string of an int.
  function IntText(n: int): string {
    if n < 0 then "-" + Decimal(-n) else Decimal(n)
  }

  predicate Digits(s: string) {
    forall c :: c in s ==> '0' <= c <= '9'
  }

  // The number that a text of digits is read as.
  function Number(s: string): int {
    if s == "" then 0 else 10 * Number(s[..|s| - 1]) + (s[|s| - 1] as int - '0' as int)
  }

  function Pow10(n: nat): nat {
    if n == 0 then 1 else 10 * Pow10(n - 1)
  }

  lemma OfDigit(d: nat)
    requires d < 10
    ensures Number(["0123456789"[d]]) == d && Decimal(d) == ["0123456789"[d]]
  {
    assert ["0123456789"[d]][..0] == "";
  }

  lemma DigitsAre(s: string)
    ensures Digits(s) <==> forall c :: c in s ==> c in "0123456789"
  {
    forall c | '0' <= c <= '9' ensures c in "0123456789" {
      assert "0123456789"[c as int - '0' as int] == c;
    }
  }

  lemma NumberSnoc(s: string, d: nat)
    requires d < 10
    ensures Number(s + ["0123456789"[d]]) == 10 * Number(s) + d
  {
    var text := s + ["0123456789"[d]];
    assert text[..|s|] == s && text[|s|] == "0123456789"[d];
  }

  lemma {:induction false} NumberConcat(a: string, b: string)
    ensures Number(a + b) == Number(a) * Pow10(|b|) + Number(b)
    decreases |b|
  {
    if b == "" {
      assert a + b == a;
    } else {
      var n := |b| - 1;
      assert (a + b)[..|a| + n] == a + b[..n];
      NumberConcat(a, b[..n]);
      assert 10 * (Number(a) * Pow10(n)) == Number(a) * (10 * Pow10(n));
    }
  }

  // A number written in decimal is digits with no zero in front, and is read
  // back as itself.
  lemma {:induction false} DecimalIsRead(n: nat)
    ensures Decimal(n) != "" && Digits(Decimal(n)) && (n > 0 ==> Decimal(n)[0] != '0')
    ensures Number(Decimal(n)) == n
  {
    if n < 10 {
      OfDigit(n);
    } else {
      DecimalIsRead(n / 10);
      assert [('0' as int + n % 10) as char] == ["0123456789"[n % 10]];
      NumberSnoc(Decimal(n / 10), n % 10);
    }
  }

  // And such a text is the number it is read as, written in decimal.
  lemma {:induction false} NumberIsWritten(s: string)
    requires Digits(s) && s != "" && (s[0] != '0' || |s| == 1)
    ensures Number(s) >= 0 && (s[0] != '0' ==> Number(s) > 0) && Decimal(Number(s)) == s
  {
    var n := |s| - 1;
    var last := s[n] as int - '0' as int;
    assert s == s[..n] + [s[n]] && s[n] in s;
    if n == 0 {
      OfDigit(last);
    } else {
      assert forall c :: c in s[..n] ==> c in s;
      NumberIsWritten(s[..n]);
      assert Number(s) / 10 == Number(s[..n]) && Number(s) % 10 == last;
    }
  }

  lemma IntTextMeans(n: nat)
    ensures IntText(n) == Decimal(n)
    ensures n > 0 ==> IntText(0 - n as int) == "-" + Decimal(n)
  {
  }
}
