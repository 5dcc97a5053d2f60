/**
 * Decimal digit strings: Python's `str.isdigit()` (restricted to ASCII
 * digits), `int(s)` on such a string, and `str(n)` on a non-negative int.
 */
module Decimal {

  predicate IsDigit(c: char)
  {
    '0' <= c <= '9'
  }

  /** `s.isdigit()` for a non-empty `s`; the empty case is handled separately. */
  predicate IsDigits(s: string)
  {
    forall i :: 0 <= i < |s| ==> IsDigit(s[i])
  }

  /** A decimal numeral as `str(n)` writes it: digits, no leading zero
      (except the numeral "0" itself). */
  predicate Canonical(s: string)
  {
    |s| > 0 && IsDigits(s) && (s[0] == '0' ==> |s| == 1)
  }

  function DigitValue(c: char): (d: nat)
    requires IsDigit(c)
    ensures d < 10
  {
    c as int - '0' as int
  }

  function DigitChar(d: nat): (c: char)
    requires d < 10
    ensures IsDigit(c) && DigitValue(c) == d
  {
    ('0' as int + d) as char
  }

  /** `int(s)` for a string of digits; leading zeros are allowed. */
  function ParseNat(s: string): nat
    requires IsDigits(s)
  {
    if |s| == 0 then 0 else 10 * ParseNat(s[..|s| - 1]) + DigitValue(s[|s| - 1])
  }

  /** `str(n)`: the canonical numeral of `n`, which `int` reads back as `n`. */
  function NatToString(n: nat): (s: string)
    ensures Canonical(s)
    ensures ParseNat(s) == n
  {
    if n < 10 then [DigitChar(n)]
    else
      var p := NatToString(n / 10);
      var s := p + [DigitChar(n % 10)];
      assert s[..|s| - 1] == p;
      s
  }

  /** A numeral that does not start with '0' denotes a positive number. */
  lemma {:induction false} LeadingNonZeroPositive(s: string)
    requires |s| > 0 && IsDigits(s) && s[0] != '0'
    ensures ParseNat(s) > 0
    decreases |s|
  {
    if |s| > 1 {
      var p := s[..|s| - 1];
      assert p[0] == s[0];
      LeadingNonZeroPositive(p);
    }
  }

  /** Reading a canonical numeral and writing it back gives the same text. */
  lemma {:induction false} CanonicalRoundTrip(s: string)
    requires Canonical(s)
    ensures NatToString(ParseNat(s)) == s
    decreases |s|
  {
    if |s| > 1 {
      var p := s[..|s| - 1];
      var c := s[|s| - 1];
      assert p[0] == s[0];
      LeadingNonZeroPositive(p);
      CanonicalRoundTrip(p);
      var q := ParseNat(p);
      var d := DigitValue(c);
      DivModTen(q, d);
      assert DigitChar(d) == c;
      assert NatToString(ParseNat(s)) == NatToString(q) + [DigitChar(d)];
      assert s == p + [c];
    }
  }

  lemma DivModTen(q: nat, d: nat)
    requires d < 10
    ensures 10 * q + d >= 10 ==> q > 0
    ensures (10 * q + d) / 10 == q && (10 * q + d) % 10 == d
  {
  }

  /** Two canonical numerals with the same value are the same string. */
  lemma CanonicalInjective(a: string, b: string)
    requires Canonical(a) && Canonical(b)
    requires ParseNat(a) == ParseNat(b)
    ensures a == b
  {
    CanonicalRoundTrip(a);
    CanonicalRoundTrip(b);
  }

  /** A leading zero does not change the value `int` reads: "0500" and "500"
      denote the same size. */
  lemma {:induction false} LeadingZeroSameValue(s: string)
    requires IsDigits(s)
    ensures IsDigits("0" + s) && ParseNat("0" + s) == ParseNat(s)
    decreases |s|
  {
    var z := "0" + s;
    assert IsDigits(z) by {
      assert forall i :: 1 <= i < |z| ==> z[i] == s[i - 1];
    }
    if |s| > 0 {
      var p := s[..|s| - 1];
      LeadingZeroSameValue(p);
      assert z[..|z| - 1] == "0" + p;
    }
  }
}
