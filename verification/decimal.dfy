/**
 * PHP's rendering of a non-negative integer when it is concatenated into a
 * string: decimal digits, no sign, no leading zero.
 */
module Decimal {

  predicate IsDigit(c: char) {
    '0' <= c <= '9'
  }

  function DigitChar(d: nat): (c: char)
    requires d < 10
    ensures IsDigit(c)
  {
    ('0' as int + d) as char
  }

  /** The decimal string of `n`. */
  function Dec(n: nat): (s: string)
    ensures |s| >= 1
    ensures forall i :: 0 <= i < |s| ==> IsDigit(s[i])
    ensures n >= 10 ==> |s| >= 2
    decreases n
  {
    if n < 10 then [DigitChar(n)] else Dec(n / 10) + [DigitChar(n % 10)]
  }

  /** Different numbers render differently, so a rendering names one number. */
  lemma {:induction false} DecInjective(x: nat, y: nat)
    requires Dec(x) == Dec(y)
    ensures x == y
    decreases x
  {
    if x >= 10 && y >= 10 {
      var sx, sy := Dec(x), Dec(y);
      assert sx[|sx| - 1] == sy[|sy| - 1];
      assert DigitChar(x % 10) == DigitChar(y % 10);
      assert Dec(x / 10) == sx[..|sx| - 1] == sy[..|sy| - 1] == Dec(y / 10);
      DecInjective(x / 10, y / 10);
    }
  }
}
