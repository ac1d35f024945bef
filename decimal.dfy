/**
 * Decimal text of integers, as written by `os << value` for a C++ `int`:
 * an optional '-' followed by the digits of the magnitude, without leading zeros.
 * ParseInt is the inverse used to show that the text really is the decimal form.
 */
module Decimal {

  predicate IsDigit(c: char) {
    '0' <= c <= '9'
  }

  predicate AllDigits(s: string) {
    forall i :: 0 <= i < |s| ==> IsDigit(s[i])
  }

  function DigitChar(d: nat): (c: char)
    requires d < 10
    ensures IsDigit(c)
  {
    ('0' as int + d) as char
  }

  function DigitValue(c: char): (d: nat)
    requires IsDigit(c)
    ensures d < 10
  {
    c as int - '0' as int
  }

  /** Digits of n, most significant first. */
  function NatToString(n: nat): (s: string)
    ensures |s| > 0 && AllDigits(s)
    ensures s[0] == '0' <==> n == 0
    ensures n == 0 ==> s == "0"
    decreases n
  {
    if n < 10 then [DigitChar(n)] else NatToString(n / 10) + [DigitChar(n % 10)]
  }

  /** A digit string without a leading zero, "0" itself excepted. */
  predicate CanonicalDigits(s: string) {
    |s| > 0 && AllDigits(s) && (s[0] == '0' ==> |s| == 1)
  }

  /** The form in which a stream with default flags writes an int: canonical digits,
      preceded by '-' for a negative value (so never "-0"). */
  predicate Canonical(s: string) {
    CanonicalDigits(s) || (|s| > 1 && s[0] == '-' && CanonicalDigits(s[1..]) && s[1..] != "0")
  }

  /** The text `os << i` produces for an integer i. */
  function IntToString(i: int): (s: string)
    ensures |s| > 0
    ensures s[0] == '-' <==> i < 0
    ensures forall k :: 0 <= k < |s| ==> IsDigit(s[k]) || s[k] == '-'
    ensures Canonical(s)
  {
    if i < 0 then
      var magnitude := NatToString(-i);
      assert ("-" + magnitude)[1..] == magnitude;
      "-" + magnitude
    else NatToString(i)
  }

  /** Value of a string of digits. */
  function ParseNat(s: string): nat
    requires AllDigits(s)
    decreases |s|
  {
    if s == [] then 0 else ParseNat(s[..|s| - 1]) * 10 + DigitValue(s[|s| - 1])
  }

  /** A non-empty digit string, possibly preceded by a minus sign. */
  predicate IsNumeral(s: string) {
    (|s| > 0 && AllDigits(s)) || (|s| > 1 && s[0] == '-' && AllDigits(s[1..]))
  }

  function ParseInt(s: string): int
    requires IsNumeral(s)
  {
    if s[0] == '-' then -(ParseNat(s[1..]) as int) else ParseNat(s)
  }

  lemma {:induction false} ParseNatToString(n: nat)
    ensures ParseNat(NatToString(n)) == n
    decreases n
  {
    var s := NatToString(n);
    if n < 10 {
      assert s[..|s| - 1] == [];
    } else {
      ParseNatToString(n / 10);
      assert s[..|s| - 1] == NatToString(n / 10);
    }
  }

  /** The decimal text of every integer is a numeral that reads back as that integer. */
  lemma IntToStringRoundTrip(i: int)
    ensures IsNumeral(IntToString(i))
    ensures ParseInt(IntToString(i)) == i
  {
    var s := IntToString(i);
    if i < 0 {
      assert s[1..] == NatToString(-i);
      ParseNatToString(-i);
    } else {
      ParseNatToString(i);
    }
  }

  /** A digit string that does not start with '0' has a positive value. */
  lemma {:induction false} ParseNatPositive(s: string)
    requires |s| > 0 && AllDigits(s) && s[0] != '0'
    ensures ParseNat(s) > 0
    decreases |s|
  {
    if |s| > 1 {
      ParseNatPositive(s[..|s| - 1]);
    }
  }

  /** Canonical digit strings are exactly the texts of their own values. */
  lemma {:induction false} NatToStringOfCanonical(s: string)
    requires CanonicalDigits(s)
    ensures NatToString(ParseNat(s)) == s
    decreases |s|
  {
    var last := s[|s| - 1];
    assert DigitChar(DigitValue(last)) == last;
    if |s| > 1 {
      var prefix := s[..|s| - 1];
      assert prefix[0] == s[0];
      ParseNatPositive(prefix);
      NatToStringOfCanonical(prefix);
      var n := ParseNat(s);
      assert n / 10 == ParseNat(prefix) && n % 10 == DigitValue(last);
      assert s == prefix + [last];
    } else {
      assert s == [last];
    }
  }

  /** Every canonical numeral is the text of the integer it denotes, so the printed
      form of an integer is the only canonical text for it. */
  lemma CanonicalIsIntToString(s: string)
    requires Canonical(s)
    ensures IsNumeral(s)
    ensures IntToString(ParseInt(s)) == s
  {
    if CanonicalDigits(s) {
      NatToStringOfCanonical(s);
    } else {
      var digits := s[1..];
      NatToStringOfCanonical(digits);
      ParseNatPositive(digits);
      assert s == "-" + digits;
    }
  }

  /** Distinct integers are printed differently. */
  lemma IntToStringInjective(a: int, b: int)
    requires IntToString(a) == IntToString(b)
    ensures a == b
  {
    IntToStringRoundTrip(a);
    IntToStringRoundTrip(b);
  }
}
