/** Decimal rendering of integers, as Swift's `String(_: Int)` produces it,
    together with the matching parser so that the rendering can be shown to
    lose no information. */
module Decimal {

  predicate IsDigit(c: char) {
    '0' <= c <= '9'
  }

  predicate AllDigits(s: string) {
    forall i :: 0 <= i < |s| ==> IsDigit(s[i])
  }

  /** The character of a single decimal digit. */
  function DigitChar(d: nat): (c: char)
    requires d < 10
    ensures IsDigit(c)
    ensures c as int - '0' as int == d
  {
    ('0' as int + d) as char
  }

  /** The value of a single decimal digit character. */
  function DigitValue(c: char): (d: nat)
    requires IsDigit(c)
    ensures d < 10 && DigitChar(d) == c
  {
    c as int - '0' as int
  }

  /** Shortest decimal rendering of a natural number: no leading zero except for 0 itself. */
  function NatToDecimal(n: nat): (s: string)
    ensures 1 <= |s|
    ensures AllDigits(s)
    ensures |s| == 1 <==> n < 10
    ensures s[0] == '0' ==> n == 0
    decreases n
  {
    if n < 10 then [DigitChar(n)] else NatToDecimal(n / 10) + [DigitChar(n % 10)]
  }

  /** Reads a string of digits as a natural number (most significant digit first). */
  function ParseNat(s: string): (n: nat)
    requires AllDigits(s)
    decreases |s|
  {
    if |s| == 0 then 0 else 10 * ParseNat(s[..|s| - 1]) + DigitValue(s[|s| - 1])
  }

  lemma {:induction false} ParseNatToDecimal(n: nat)
    ensures ParseNat(NatToDecimal(n)) == n
    decreases n
  {
    if n >= 10 {
      var s := NatToDecimal(n);
      assert s[..|s| - 1] == NatToDecimal(n / 10);
      ParseNatToDecimal(n / 10);
    }
  }

  /** `String(n)` for a Swift `Int`: a minus sign before the digits of |n| when n is negative. */
  function IntToDecimal(n: int): (s: string)
    ensures 1 <= |s|
    ensures s[0] == '-' <==> n < 0
    ensures IsCanonicalDecimal(s)
  {
    if n < 0 then "-" + NatToDecimal(-n) else NatToDecimal(n)
  }

  /** The strings `IntToDecimal` can produce the shape of: an optional minus sign and at least one digit. */
  predicate IsDecimal(s: string) {
    if 1 <= |s| && s[0] == '-' then 2 <= |s| && AllDigits(s[1..]) else 1 <= |s| && AllDigits(s)
  }

  /** The decimal strings without a leading zero (other than "0" itself) and without "-0". */
  predicate IsCanonicalDecimal(s: string) {
    && IsDecimal(s)
    && (s[0] == '0' ==> s == "0")
    && (s[0] == '-' ==> s[1] != '0')
  }

  function ParseInt(s: string): int
    requires IsDecimal(s)
  {
    if s[0] == '-' then 0 - ParseNat(s[1..]) else ParseNat(s)
  }

  /** Rendering an integer and reading it back gives the integer. */
  lemma IntToDecimalRoundTrip(n: int)
    ensures IsDecimal(IntToDecimal(n))
    ensures ParseInt(IntToDecimal(n)) == n
  {
    var s := IntToDecimal(n);
    if n < 0 {
      assert s[1..] == NatToDecimal(-n);
      ParseNatToDecimal(-n);
    } else {
      ParseNatToDecimal(n);
    }
  }

  /** Distinct integers have distinct renderings. */
  lemma IntToDecimalInjective(a: int, b: int)
    ensures IntToDecimal(a) == IntToDecimal(b) <==> a == b
  {
    IntToDecimalRoundTrip(a);
    IntToDecimalRoundTrip(b);
  }

  /** A digit string that does not start with 0 reads as a positive number. */
  lemma {:induction false} ParseNatLeadingNonZero(s: string)
    requires 1 <= |s| && AllDigits(s) && s[0] != '0'
    ensures ParseNat(s) >= 1
    decreases |s|
  {
    if |s| > 1 {
      ParseNatLeadingNonZero(s[..|s| - 1]);
    }
  }

  /** A digit string without a leading zero is the rendering of the number it reads as. */
  lemma {:induction false} NatToDecimalOfParse(s: string)
    requires 1 <= |s| && AllDigits(s) && (s[0] == '0' ==> |s| == 1)
    ensures NatToDecimal(ParseNat(s)) == s
    decreases |s|
  {
    if |s| > 1 {
      var front := s[..|s| - 1];
      ParseNatLeadingNonZero(front);
      NatToDecimalOfParse(front);
      var n := ParseNat(s);
      assert n / 10 == ParseNat(front) && n % 10 == DigitValue(s[|s| - 1]);
      assert s == front + [s[|s| - 1]];
    }
  }

  /** A canonical decimal string is the rendering of the integer it reads as. */
  lemma IntToDecimalOfParse(s: string)
    requires IsCanonicalDecimal(s)
    ensures IntToDecimal(ParseInt(s)) == s
  {
    if s[0] == '-' {
      var digits := s[1..];
      NatToDecimalOfParse(digits);
      ParseNatLeadingNonZero(digits);
      assert ParseInt(s) == 0 - ParseNat(digits) < 0;
      assert s == "-" + digits;
    } else {
      NatToDecimalOfParse(s);
    }
  }

  /** A string is the rendering of `n` exactly when it is a canonical decimal string that reads as `n`. */
  lemma CanonicalDecimalIff(s: string, n: int)
    ensures s == IntToDecimal(n) <==> IsCanonicalDecimal(s) && ParseInt(s) == n
  {
    IntToDecimalRoundTrip(n);
    if IsCanonicalDecimal(s) && ParseInt(s) == n {
      IntToDecimalOfParse(s);
    }
  }
}
