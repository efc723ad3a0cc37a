/**
 * Decimal rendering of non-negative integers, as Kotlin's string templates,
 * `"%d".format(n)` and `"%02d".format(n)` produce it, together with a reader
 * that turns the digits back into the number.
 */
module Decimal {

  predicate IsDigit(c: char) {
    '0' <= c <= '9'
  }

  predicate AllDigits(s: string) {
    forall i | 0 <= i < |s| :: IsDigit(s[i])
  }

  function DigitChar(d: nat): (c: char)
    requires d < 10
    ensures IsDigit(c)
  {
    (48 + d) as char
  }

  function DigitValue(c: char): (d: nat)
    requires IsDigit(c)
    ensures d < 10
  {
    c as int - 48
  }

  /** The decimal digits of `n`, most significant first, without leading zeros ("%d"). */
  function Digits(n: nat): (r: string)
    ensures 1 <= |r| && AllDigits(r)
    ensures (|r| == 1) == (n < 10)
    ensures n >= 100 ==> |r| >= 3
    ensures r[0] == '0' ==> n == 0
    decreases n
  {
    if n < 10 then [DigitChar(n)] else Digits(n / 10) + [DigitChar(n % 10)]
  }

  /** The number a string of decimal digits denotes (leading zeros allowed). */
  function ParseDigits(s: string): nat
    requires AllDigits(s)
    decreases |s|
  {
    if s == [] then 0 else ParseDigits(s[..|s| - 1]) * 10 + DigitValue(s[|s| - 1])
  }

  lemma {:induction false} ParseDigitsOfDigits(n: nat)
    ensures ParseDigits(Digits(n)) == n
    decreases n
  {
    if n >= 10 {
      var r := Digits(n);
      assert r[..|r| - 1] == Digits(n / 10);
      ParseDigitsOfDigits(n / 10);
    }
  }

  /**
   * `"%02d".format(n)`: the digits of `n`, left-padded with '0' to at least two
   * characters; exactly two below 100, and never truncated.
   */
  function Pad2(n: nat): (r: string)
    ensures AllDigits(r)
    ensures |r| == if n < 100 then 2 else |Digits(n)|
    ensures ParseDigits(r) == n
  {
    ParseDigitsOfDigits(n);
    if n < 10 then ['0', DigitChar(n)] else Digits(n)
  }
}
