/** Texts as the code writes and compares them: numbers, separators, and the order of texts. */
module Texts {
  predicate IsDigit(c: char) {
    '0' <= c <= '9'
  }

  predicate AllDigits(s: string) {
    forall i :: 0 <= i < |s| ==> IsDigit(s[i])
  }

  function DigitValue(c: char): (d: nat)
    requires IsDigit(c)
    ensures d < 10
  {
    (c as int) - ('0' as int)
  }

  function Digit(d: nat): (c: char)
    requires d < 10
    ensures IsDigit(c) && DigitValue(c) == d
  {
    ('0' as int + d) as char
  }

  /** The number as Rust displays it. */
  function Decimal(n: nat): (s: string)
    ensures |s| >= 1 && AllDigits(s)
  {
    if n < 10 then [Digit(n)] else Decimal(n / 10) + [Digit(n % 10)]
  }

  /** The number as Rust parses it. */
  function Value(s: string): nat
    requires AllDigits(s)
  {
    if s == "" then 0 else 10 * Value(s[..|s| - 1]) + DigitValue(s[|s| - 1])
  }

  lemma {:induction false} DecimalRoundTrip(n: nat)
    ensures Value(Decimal(n)) == n
  {
    if n < 10 {
      assert Value(Decimal(n)[..0]) == 0;
    } else {
      DecimalRoundTrip(n / 10);
      assert Decimal(n)[..|Decimal(n)| - 1] == Decimal(n / 10);
    }
  }

  lemma DecimalIsInjective(m: nat, n: nat)
    requires Decimal(m) == Decimal(n)
    ensures m == n
  {
    DecimalRoundTrip(m);
    DecimalRoundTrip(n);
  }

  // --- hexadecimal ------------------------------------------------------------------------------

  const HEX_DIGITS := "0123456789abcdef"

  function HexValueOf(c: char): nat {
    if '0' <= c <= '9' then (c as int) - ('0' as int)
    else if 'a' <= c <= 'f' then 10 + (c as int) - ('a' as int)
    else 0
  }

  function Hex(n: nat): (s: string)
    ensures |s| >= 1 && ':' !in s
  {
    if n < 16 then [HEX_DIGITS[n]] else Hex(n / 16) + [HEX_DIGITS[n % 16]]
  }

  function HexValue(s: string): nat {
    if s == "" then 0 else 16 * HexValue(s[..|s| - 1]) + HexValueOf(s[|s| - 1])
  }

  /** Zeros in front, up to a width. */
  function Padded(s: string, width: nat): (r: string)
    ensures ':' !in s ==> ':' !in r
    decreases width - |s|
  {
    if |s| >= width then s else Padded(['0'] + s, width)
  }

  lemma HexDigitValue(d: nat)
    requires d < 16
    ensures HexValueOf(HEX_DIGITS[d]) == d
  {
  }

  lemma {:induction false} HexRoundTrip(n: nat)
    ensures HexValue(Hex(n)) == n
  {
    hide HexValueOf;
    HexDigitValue(n % 16);
    if n < 16 {
      assert Hex(n)[..0] == "" && HexValue("") == 0;
    } else {
      HexRoundTrip(n / 16);
      assert Hex(n)[..|Hex(n)| - 1] == Hex(n / 16);
    }
  }

  lemma {:induction false} ZeroInFront(s: string)
    ensures HexValue(['0'] + s) == HexValue(s)
  {
    hide HexValueOf;
    HexDigitValue(0);
    if s == "" {
      assert (['0'] + s)[..0] == "" && HexValue("") == 0;
    } else {
      ZeroInFront(s[..|s| - 1]);
      assert (['0'] + s)[..|s|] == ['0'] + s[..|s| - 1];
    }
  }

  lemma {:induction false} PaddingKeepsValue(s: string, width: nat)
    ensures HexValue(Padded(s, width)) == HexValue(s)
    decreases width - |s|
  {
    hide HexValue;
    if |s| < width {
      ZeroInFront(s);
      PaddingKeepsValue(['0'] + s, width);
    }
  }

  lemma PaddedHexIsInjective(m: nat, n: nat, width: nat)
    requires Padded(Hex(m), width) == Padded(Hex(n), width)
    ensures m == n
  {
    HexRoundTrip(m);
    HexRoundTrip(n);
    PaddingKeepsValue(Hex(m), width);
    PaddingKeepsValue(Hex(n), width);
  }

  // --- the order of texts ------------------------------------------------------------------

  /** The order of texts, character by character. */
  predicate AtMost(a: string, b: string) {
    a == "" || (b != "" && (a[0] < b[0] || (a[0] == b[0] && AtMost(a[1..], b[1..]))))
  }

  lemma {:induction false} AtMostIsTotal(a: string, b: string)
    ensures AtMost(a, b) || AtMost(b, a)
    ensures AtMost(a, b) && AtMost(b, a) ==> a == b
  {
    if a != "" && b != "" && a[0] == b[0] {
      AtMostIsTotal(a[1..], b[1..]);
      assert a == [a[0]] + a[1..] && b == [b[0]] + b[1..];
    }
  }

  lemma {:induction false} AtMostIsTransitive(a: string, b: string, c: string)
    requires AtMost(a, b) && AtMost(b, c)
    ensures AtMost(a, c)
  {
    if a != "" && a[0] == b[0] == c[0] {
      AtMostIsTransitive(a[1..], b[1..], c[1..]);
    }
  }

  function Pow10(n: nat): (p: nat)
    ensures p >= 1
  {
    if n == 0 then 1 else 10 * Pow10(n - 1)
  }

  lemma ValueNext(s: string)
    requires s != "" && AllDigits(s)
    ensures Value(s) == 10 * Value(s[..|s| - 1]) + DigitValue(s[|s| - 1])
  {
  }

  lemma Single(s: string)
    requires |s| == 1 && AllDigits(s)
    ensures Value(s) == DigitValue(s[0]) && Value(s[1..]) == 0 && Pow10(0) == 1 && Pow10(1) == 10
  {
    assert s[..0] == "" && s[1..] == "";
  }

  lemma Shift(p: nat, d: nat, v: nat, last: nat)
    ensures 10 * (p * d + v) + last == (10 * p) * d + (10 * v + last)
  {
  }

  /** The first digit weighs most. */
  lemma {:induction false} LeadingDigit(s: string)
    requires s != "" && AllDigits(s)
    ensures Value(s) == Pow10(|s| - 1) * DigitValue(s[0]) + Value(s[1..])
    ensures Value(s) < Pow10(|s|)
  {
    var before, last := s[..|s| - 1], DigitValue(s[|s| - 1]);
    hide DigitValue;
    assert Pow10(|s|) == 10 * Pow10(|s| - 1);
    ValueNext(s);
    hide Value;
    if |s| == 1 {
      Single(s);
    } else {
      LeadingDigit(before);
      assert Pow10(|s| - 1) == 10 * Pow10(|s| - 2);
      hide Pow10;
      assert before[1..] == s[1..][..|s| - 2];
      ValueNext(s[1..]);
      Shift(Pow10(|s| - 2), DigitValue(s[0]), Value(before[1..]), last);
    }
  }

  /** Among digit texts of one length the order of texts is that of the numbers, and the number
      tells the text. */
  lemma {:induction false} SameLengthOrder(a: string, b: string)
    requires |a| == |b| && AllDigits(a) && AllDigits(b)
    ensures AtMost(a, b) <==> Value(a) <= Value(b)
    ensures Value(a) == Value(b) ==> a == b
  {
    if a != "" {
      var p, d, e := Pow10(|a| - 1), DigitValue(a[0]), DigitValue(b[0]);
      LeadingDigit(a);
      LeadingDigit(b);
      RestIsSmall(a);
      RestIsSmall(b);
      SameLengthOrder(a[1..], b[1..]);
      if d < e {
        LessByADigit(p, d, e);
      } else if e < d {
        LessByADigit(p, e, d);
      } else {
        assert a[0] == b[0] && a == [a[0]] + a[1..] && b == [b[0]] + b[1..];
      }
    }
  }

  lemma RestIsSmall(s: string)
    requires s != "" && AllDigits(s)
    ensures Value(s[1..]) < Pow10(|s| - 1)
  {
    if |s| > 1 {
      LeadingDigit(s[1..]);
    }
  }

  lemma LessByADigit(p: nat, d: nat, e: nat)
    requires d < e
    ensures p * d + p <= p * e
  {
    assert p * e == p * (d + 1) + p * (e - d - 1);
  }

  // --- separators ---------------------------------------------------------------------------

  /** How many characters there are before the first c. */
  function FirstAt(s: string, c: char): nat {
    if s == "" || s[0] == c then 0 else 1 + FirstAt(s[1..], c)
  }

  /** How many characters there are after the last c. */
  function LastAt(s: string, c: char): nat {
    if s == "" || s[|s| - 1] == c then 0 else 1 + LastAt(s[..|s| - 1], c)
  }

  lemma {:induction false} FirstAtOf(a: string, b: string, c: char)
    requires c !in a
    ensures FirstAt(a + [c] + b, c) == |a|
  {
    var s := a + [c] + b;
    if a != "" {
      assert s[0] == a[0] && s[1..] == a[1..] + [c] + b;
      FirstAtOf(a[1..], b, c);
    }
  }

  lemma {:induction false} LastAtOf(a: string, b: string, c: char)
    requires c !in b
    ensures LastAt(a + [c] + b, c) == |b|
  {
    var s := a + [c] + b;
    if b != "" {
      assert s[|s| - 1] == b[|b| - 1] && s[..|s| - 1] == a + [c] + b[..|b| - 1];
      LastAtOf(a, b[..|b| - 1], c);
    }
  }

  lemma Pieces(a: string, b: string, a': string, b': string, c: char)
    requires a + [c] + b == a' + [c] + b' && |a| == |a'|
    ensures a == a' && b == b'
  {
    var s := a + [c] + b;
    assert a == s[..|a|] && a' == s[..|a|];
    assert b == s[|a| + 1..] && b' == s[|a| + 1..];
  }

  /** What comes before the first separator, and what follows it, can be told. */
  lemma SplitAtFirst(a: string, b: string, a': string, b': string, c: char)
    requires a + [c] + b == a' + [c] + b' && c !in a && c !in a'
    ensures a == a' && b == b'
  {
    FirstAtOf(a, b, c);
    FirstAtOf(a', b', c);
    Pieces(a, b, a', b', c);
  }

  /** Likewise for the last separator. */
  lemma SplitAtLast(a: string, b: string, a': string, b': string, c: char)
    requires a + [c] + b == a' + [c] + b' && c !in b && c !in b'
    ensures a == a' && b == b'
  {
    LastAtOf(a, b, c);
    LastAtOf(a', b', c);
    assert |a + [c] + b| == |a' + [c] + b'|;
    Pieces(a, b, a', b', c);
  }

  lemma NoSeparator(n: nat, c: char)
    requires !IsDigit(c)
    ensures c !in Decimal(n)
  {
  }
}
