/**
 * Base-10 rendering of integers as Go's `fmt` package does it for `%d`
 * (and `fmt.Sprint` of an `int`), and for `%02d` (zero-padded to width two),
 * together with the reading back that shows nothing is lost.
 */
module Decimal {

  /** Go's `int` on a 64-bit platform; JSON decoding into an `int` field rejects anything wider. */
  newtype Int64 = x: int | -0x8000_0000_0000_0000 <= x < 0x8000_0000_0000_0000

  predicate IsDigit(c: char)
  {
    '0' <= c <= '9'
  }

  predicate AllDigits(s: string)
  {
    forall i :: 0 <= i < |s| ==> IsDigit(s[i])
  }

  /** An optional minus sign followed by at least one digit. */
  predicate IsDecimal(s: string)
  {
    if |s| > 0 && s[0] == '-' then |s| > 1 && AllDigits(s[1..]) else |s| > 0 && AllDigits(s)
  }

  function DigitChar(d: nat): (c: char)
    requires d < 10
    ensures IsDigit(c) && DigitValue(c) == d
  {
    ('0' as int + d) as char
  }

  function DigitValue(c: char): (d: nat)
    requires IsDigit(c)
    ensures d < 10
  {
    c as int - '0' as int
  }

  /** The value of a string of digits read left to right. */
  function ParseNat(s: string): nat
    requires AllDigits(s)
    decreases |s|
  {
    if |s| == 0 then 0 else ParseNat(s[..|s| - 1]) * 10 + DigitValue(s[|s| - 1])
  }

  /** The value of an optionally signed decimal. */
  function ParseInt(s: string): int
    requires IsDecimal(s)
  {
    if s[0] == '-' then -(ParseNat(s[1..]) as int) else ParseNat(s) as int
  }

  /**
   * Shortest base-10 form of `n`: only digits, no leading zero except for
   * zero itself, and reading it back gives `n`.
   */
  function NatToString(n: nat): (s: string)
    ensures |s| >= 1 && AllDigits(s)
    ensures s[0] == '0' <==> n == 0
    ensures n == 0 ==> s == "0"
    ensures ParseNat(s) == n
    decreases n
  {
    if n < 10 then
      [DigitChar(n)]
    else
      var high := NatToString(n / 10);
      var s := high + [DigitChar(n % 10)];
      assert s[..|s| - 1] == high;
      s
  }

  /** `%d` and `fmt.Sprint` of an integer: a minus sign for negatives, then the digits of the magnitude. */
  function IntToString(n: int): (s: string)
    ensures IsDecimal(s) && ParseInt(s) == n
    ensures s[0] == '-' <==> n < 0
    ensures n >= 0 ==> (s[0] == '0' <==> n == 0)
    ensures n == 0 ==> s == "0"
    ensures n < 0 ==> |s| >= 2 && s[1] != '0'
  {
    if n < 0 then
      var m := NatToString(-n);
      assert ("-" + m)[1..] == m;
      "-" + m
    else
      NatToString(n)
  }

  /** Leading zeros do not change the value of a digit string. */
  lemma {:induction false} LeadingZero(s: string)
    requires AllDigits(s)
    ensures AllDigits("0" + s) && ParseNat("0" + s) == ParseNat(s)
    decreases |s|
  {
    if |s| > 0 {
      var init := s[..|s| - 1];
      LeadingZero(init);
      assert ("0" + s)[..|"0" + s| - 1] == "0" + init;
    }
  }

  /** `%02d` of a non-negative value: its digits, with one zero in front when there is only one digit. */
  function Pad2(n: nat): (s: string)
    ensures AllDigits(s) && ParseNat(s) == n
    ensures |s| >= 2
    ensures n < 100 ==> |s| == 2
    ensures n >= 10 ==> s[0] != '0'
  {
    if n < 10 then
      LeadingZero(NatToString(n));
      "0" + NatToString(n)
    else
      var s := NatToString(n);
      assert n < 100 ==> |s| == 2 by {
        if n < 100 {
          assert NatToString(n / 10) == [DigitChar(n / 10)];
        }
      }
      s
  }

  /** Different integers print differently. */
  lemma IntToStringInjective(a: int, b: int)
    requires IntToString(a) == IntToString(b)
    ensures a == b
  {
  }

  /** Different values pad differently. */
  lemma Pad2Injective(a: nat, b: nat)
    requires Pad2(a) == Pad2(b)
    ensures a == b
  {
  }
}
