/** Decimal numerals, as produced by std::to_string and read back by std::stoul. */
module Decimal {
  import opened Common

  predicate IsDigit(c: char) { '0' <= c <= '9' }

  predicate AllDigits(s: string) {
    forall i :: 0 <= i < |s| ==> IsDigit(s[i])
  }

  function DigitChar(d: nat): (c: char)
    requires d < 10
    ensures IsDigit(c) && DigitValue(c) == d
  {
    '0' + d as char
  }

  function DigitValue(c: char): (d: nat)
    requires IsDigit(c)
    ensures d < 10
  {
    c as int - '0' as int
  }

  /** The shortest numeral of `n`. */
  function Numeral(n: nat): (s: string)
    ensures |s| >= 1 && AllDigits(s)
  {
    if n < 10 then [DigitChar(n)] else Numeral(n / 10) + [DigitChar(n % 10)]
  }

  function NumeralValue(s: string): nat
    requires AllDigits(s)
  {
    if s == [] then 0 else 10 * NumeralValue(s[..|s| - 1]) + DigitValue(s[|s| - 1])
  }

  lemma {:induction false} NumeralRoundTrip(n: nat)
    ensures NumeralValue(Numeral(n)) == n
  {
    if n < 10 {
      assert Numeral(n)[..0] == [];
    } else {
      NumeralRoundTrip(n / 10);
      assert Numeral(n)[..|Numeral(n)| - 1] == Numeral(n / 10);
    }
  }

  /** Number of digits at the front of `s`. */
  function DigitSpan(s: string): nat {
    if s == [] || !IsDigit(s[0]) then 0 else 1 + DigitSpan(s[1..])
  }

  lemma {:induction false} SpanOfDigits(x: string, s: string)
    requires AllDigits(x) && s != [] && !IsDigit(s[0])
    ensures DigitSpan(x + s) == |x|
  {
    if x == [] {
      assert x + s == s;
    } else {
      SpanOfDigits(x[1..], s);
      assert (x + s)[1..] == x[1..] + s;
    }
  }

  /** A numeral followed by text that starts with a non-digit splits in only one way. */
  lemma NumeralPrefixUnique(a: nat, b: nat, s: string, t: string)
    requires s != [] && t != [] && !IsDigit(s[0]) && !IsDigit(t[0])
    requires Numeral(a) + s == Numeral(b) + t
    ensures a == b && s == t
  {
    var x, y := Numeral(a), Numeral(b);
    SpanOfDigits(x, s);
    SpanOfDigits(y, t);
    assert x == (x + s)[..|x|] == (y + t)[..|y|] == y;
    assert s == (x + s)[|x|..] == (y + t)[|y|..] == t;
    NumeralRoundTrip(a);
    NumeralRoundTrip(b);
  }

  function Pow10(n: nat): (p: nat)
    ensures p >= 1
  {
    if n == 0 then 1 else 10 * Pow10(n - 1)
  }

  lemma {:induction false} NumeralFits(n: nat, width: nat)
    requires width >= 1 && n < Pow10(width)
    ensures |Numeral(n)| <= width
  {
    if n >= 10 {
      NumeralFits(n / 10, width - 1);
    }
  }
}
