/**
  Decimal rendering of integers, as `int.ToString()` produces it under the
  invariant culture (an optional ASCII '-' followed by digits, no leading
  zeros), together with the parser that undoes it.
 */
module Decimal {
  import opened Wrappers

  predicate IsDigit(c: char) {
    '0' <= c <= '9'
  }

  predicate IsDigits(s: string) {
    forall i :: 0 <= i < |s| ==> IsDigit(s[i])
  }

  function DigitValue(c: char): (d: nat)
    requires IsDigit(c)
    ensures d < 10
  {
    c as int - '0' as int
  }

  /** The character of a single decimal digit; `DigitValue` inverts it. */
  function DigitChar(d: nat): (c: char)
    requires d < 10
    ensures IsDigit(c) && DigitValue(c) == d
  {
    ('0' as int + d) as char
  }

  /** The decimal text of `n`: non-empty, digits only, and no leading zero. */
  function NatToString(n: nat): (s: string)
    ensures |s| > 0 && IsDigits(s)
    ensures s[0] == '0' ==> n == 0
    decreases n
  {
    if n < 10 then [DigitChar(n)] else NatToString(n / 10) + [DigitChar(n % 10)]
  }

  /** The number a string of digits denotes, most significant digit first. */
  function DigitsValue(s: string): (n: nat)
    requires IsDigits(s)
  {
    if |s| == 0 then 0 else DigitsValue(s[..|s| - 1]) * 10 + DigitValue(s[|s| - 1])
  }

  lemma {:induction false} DigitsValueOfNatToString(n: nat)
    ensures DigitsValue(NatToString(n)) == n
    decreases n
  {
    if n >= 10 {
      var s := NatToString(n);
      var prefix := NatToString(n / 10);
      assert s == prefix + [DigitChar(n % 10)];
      assert s[..|s| - 1] == prefix;
      DigitsValueOfNatToString(n / 10);
    }
  }

  /** `int.ToString()`: a '-' in front of the magnitude for negative numbers. */
  function IntToString(n: int): (s: string)
    ensures |s| > 0
    ensures forall i :: 0 <= i < |s| ==> s[i] == '-' || IsDigit(s[i])
    ensures n >= 0 <==> IsDigits(s)
  {
    if n < 0 then
      var s := "-" + NatToString(-n);
      assert !IsDigit(s[0]);
      s
    else NatToString(n)
  }

  /** Reads an optional '-' followed by at least one digit; anything else is `None`. */
  function ParseInt(s: string): (r: Option<int>)
    ensures r.Some? ==> |s| > 0
  {
    if |s| > 0 && s[0] == '-' then
      if |s| > 1 && IsDigits(s[1..]) then Some(0 - DigitsValue(s[1..])) else None
    else if |s| > 0 && IsDigits(s) then Some(DigitsValue(s))
    else None
  }

  /** Parsing the rendered text of any integer gives the integer back. */
  lemma ParseIntOfIntToString(n: int)
    ensures ParseInt(IntToString(n)) == Some(n)
  {
    if n < 0 {
      ParseNegative(-n);
    } else {
      var d := NatToString(n);
      assert IsDigit(d[0]);
      DigitsValueOfNatToString(n);
    }
  }

  /** A '-' followed by the digits of a positive magnitude parses as its negation. */
  lemma ParseNegative(m: nat)
    requires m > 0
    ensures ParseInt("-" + NatToString(m)) == Some(-(m as int))
  {
    var d := NatToString(m);
    var s := "-" + d;
    assert s[0] == '-' && |s| > 1;
    assert s[1..] == d;
    DigitsValueOfNatToString(m);
  }

  /** Distinct integers are rendered as distinct strings. */
  lemma IntToStringInjective(a: int, b: int)
    ensures IntToString(a) == IntToString(b) ==> a == b
  {
    ParseIntOfIntToString(a);
    ParseIntOfIntToString(b);
  }
}
