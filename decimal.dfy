/**
 * Decimal text of integers, as Java writes an `int` (`Integer.toString`, `%d`,
 * string concatenation), and the inverse parser for non-negative values.
 */
module Decimal {
  import opened Basics

  predicate IsDigit(c: char) { '0' <= c <= '9' }

  predicate AllDigits(s: string) { forall k :: 0 <= k < |s| ==> IsDigit(s[k]) }

  function DigitChar(d: nat): (c: char)
    requires d < 10
    ensures IsDigit(c)
  {
    "0123456789"[d]
  }

  function DigitValue(c: char): nat
    requires IsDigit(c)
  {
    c as int - '0' as int
  }

  /** Most significant digit first, no leading zeros. */
  function NatToString(n: nat): (s: string)
    ensures |s| > 0
    decreases n
  {
    if n < 10 then [DigitChar(n)] else NatToString(n / 10) + [DigitChar(n % 10)]
  }

  /** The text of a natural number is made of decimal digits only. */
  lemma {:induction false} NatToStringDigits(n: nat)
    ensures AllDigits(NatToString(n))
    decreases n
  {
    if n >= 10 {
      NatToStringDigits(n / 10);
    }
  }

  /** Java's decimal text of an int: a minus sign, then the digits of the magnitude. */
  function IntToString(i: int): (s: string)
    ensures |s| > 0 && (i < 0 <==> s[0] == '-')
    ensures i < 0 ==> ParseNat(s[1..]) == Some(-i)
    ensures i >= 0 ==> ParseNat(s) == Some(i)
  {
    if i < 0 then
      ParseNatToString(-i);
      assert ("-" + NatToString(-i))[1..] == NatToString(-i);
      "-" + NatToString(-i)
    else
      ParseNatToString(i);
      NatToStringDigits(i);
      assert IsDigit(NatToString(i)[0]);
      NatToString(i)
  }

  function ParseDigits(s: string): nat
    requires AllDigits(s)
  {
    if s == [] then 0 else ParseDigits(s[..|s| - 1]) * 10 + DigitValue(s[|s| - 1])
  }

  /** A non-empty run of decimal digits, read back as a number. */
  function ParseNat(s: string): Option<nat>
  {
    if s != [] && AllDigits(s) then Some(ParseDigits(s)) else None
  }

  lemma {:induction false} ParseNatToString(n: nat)
    ensures ParseNat(NatToString(n)) == Some(n)
  {
    var s := NatToString(n);
    NatToStringDigits(n);
    if n < 10 {
      assert s == [DigitChar(n)] && s[..|s| - 1] == [];
      assert DigitValue(DigitChar(n)) == n;
      assert ParseDigits(s) == ParseDigits([]) * 10 + DigitValue(s[0]);
    } else {
      assert s[..|s| - 1] == NatToString(n / 10);
      ParseNatToString(n / 10);
    }
  }

  /** Non-negative numbers print without a sign: the text is digits only. */
  lemma IntToStringNonNegative(i: int)
    requires i >= 0
    ensures IntToString(i) == NatToString(i)
    ensures AllDigits(IntToString(i)) && |IntToString(i)| > 0
  {
    NatToStringDigits(i);
  }

  lemma NatToStringInjective(a: nat, b: nat)
    requires NatToString(a) == NatToString(b)
    ensures a == b
  {
    ParseNatToString(a);
    ParseNatToString(b);
  }

  /** The text of an int is a minus sign or a digit at every position. */
  lemma IntToStringChars(i: int)
    ensures forall k :: 0 <= k < |IntToString(i)| ==> IntToString(i)[k] == '-' || IsDigit(IntToString(i)[k])
  {
    NatToStringDigits(if i < 0 then -i else i);
  }

  /** Distinct ints print differently. */
  lemma IntToStringInjective(a: int, b: int)
    requires IntToString(a) == IntToString(b)
    ensures a == b
  {
    NatToStringDigits(if a < 0 then -a else a);
    NatToStringDigits(if b < 0 then -b else b);
    assert IntToString(a)[0] == '-' <==> a < 0;
    assert IntToString(b)[0] == '-' <==> b < 0;
    if a < 0 && b < 0 {
      assert NatToString(-a) == IntToString(a)[1..];
      assert NatToString(-b) == IntToString(b)[1..];
      NatToStringInjective(-a, -b);
    } else if a >= 0 && b >= 0 {
      NatToStringInjective(a, b);
    }
  }
}
