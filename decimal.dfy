/**
 * Decimal rendering of integers, as a JavaScript template literal `${n}` writes an
 * integral number, with its parser as the partner that proves the rendering lossless.
 */
module Decimal {

  predicate IsDigit(c: char)
  {
    '0' <= c <= '9'
  }

  function DigitChar(d: nat): (c: char)
    requires d < 10
    ensures IsDigit(c)
  {
    ('0' as int + d) as char
  }

  function DigitValue(c: char): (d: nat)
    ensures d < 10
  {
    if IsDigit(c) then c as int - '0' as int else 0
  }

  /** Digits only, and no leading zero unless the numeral is "0". */
  predicate IsNatNumeral(s: string)
  {
    && |s| >= 1
    && (forall k :: 0 <= k < |s| ==> IsDigit(s[k]))
    && (|s| == 1 || s[0] != '0')
  }

  /** The text `${n}` gives for an integer: an optional '-' before a numeral other than "0". */
  predicate IsNumeral(s: string)
  {
    if |s| > 0 && s[0] == '-' then IsNatNumeral(s[1..]) && s[1] != '0' else IsNatNumeral(s)
  }

  /** Most significant digit first, no leading zeros. */
  function NatToString(n: nat): (s: string)
    ensures |s| >= 1
    ensures forall i :: 0 <= i < |s| ==> IsDigit(s[i])
    ensures s[0] == '0' <==> n == 0
    ensures |s| == 1 || s[0] != '0'
  {
    if n < 10 then [DigitChar(n)] else NatToString(n / 10) + [DigitChar(n % 10)]
  }

  /**
   * A leading '-' for negative numbers, then the digits of the magnitude; parsing
   * the text gives the integer back, so the rendering loses nothing.
   */
  function IntToString(i: int): (s: string)
    ensures |s| >= 1
    ensures forall k :: 0 <= k < |s| ==> IsDigit(s[k]) || s[k] == '-'
    ensures forall k :: 0 < k < |s| ==> IsDigit(s[k])
    ensures s[0] == '-' <==> i < 0
    ensures i >= 0 ==> |s| == 1 || s[0] != '0'
    ensures i < 0 ==> |s| >= 2 && s[1] != '0'
    ensures IsNumeral(s)
    ensures ParseInt(s) == i
  {
    if i < 0 then
      var digits := NatToString(-i);
      NatRoundTrip(-i);
      assert ("-" + digits)[1..] == digits;
      "-" + digits
    else
      NatRoundTrip(i);
      NatToString(i)
  }

  function ParseNat(s: string): nat
  {
    if s == [] then 0 else ParseNat(s[..|s| - 1]) * 10 + DigitValue(s[|s| - 1])
  }

  function ParseInt(s: string): int
  {
    if |s| > 0 && s[0] == '-' then -(ParseNat(s[1..]) as int) else ParseNat(s)
  }

  lemma {:induction false} NatRoundTrip(n: nat)
    ensures ParseNat(NatToString(n)) == n
  {
    if n >= 10 {
      var s := NatToString(n);
      NatRoundTrip(n / 10);
      assert s[..|s| - 1] == NatToString(n / 10);
      assert DigitValue(s[|s| - 1]) == n % 10;
    }
  }

  /** A numeral with a leading digit other than '0' stands for a positive number. */
  lemma {:induction false} LeadingDigitPositive(s: string)
    requires |s| >= 1 && s[0] != '0'
    requires forall k :: 0 <= k < |s| ==> IsDigit(s[k])
    ensures ParseNat(s) >= 1
    decreases |s|
  {
    var p := s[..|s| - 1];
    if |s| > 1 {
      LeadingDigitPositive(p);
    } else {
      assert p == [];
    }
  }

  /** Rendering what a digit numeral stands for gives the numeral back. */
  lemma {:induction false} NatNumeralRoundTrip(s: string)
    requires IsNatNumeral(s)
    ensures NatToString(ParseNat(s)) == s
    decreases |s|
  {
    var p, d := s[..|s| - 1], s[|s| - 1];
    var n := ParseNat(s);
    assert DigitChar(DigitValue(d)) == d;
    if |s| == 1 {
      assert p == [];
      assert s == [d];
    } else {
      LeadingDigitPositive(p);
      NatNumeralRoundTrip(p);
      assert n / 10 == ParseNat(p) && n % 10 == DigitValue(d);
      assert s == p + [d];
    }
  }

  /**
   * Rendering what a numeral stands for gives the numeral back; with the
   * contract of `IntToString`, integers and numerals correspond one to one.
   */
  lemma NumeralRoundTrip(s: string)
    requires IsNumeral(s)
    ensures IntToString(ParseInt(s)) == s
  {
    if s[0] == '-' {
      var m := s[1..];
      LeadingDigitPositive(m);
      NatNumeralRoundTrip(m);
      assert s == "-" + m;
    } else {
      NatNumeralRoundTrip(s);
    }
  }
}
