/** User ids are numbers stored as decimal text: registration writes
    `newUserId.toString()`, the handlers compare the text and read it back
    with `parseInt`. */
module Decimal {

  function Digit(d: nat): (c: char)
    requires d < 10
    ensures '0' <= c <= '9'
  {
    (('0' as int) + d) as char
  }

  function DigitValue(c: char): nat {
    if '0' <= c <= '9' then (c as int) - ('0' as int) else 0
  }

  /** `n.toString()` for a non-negative integer: canonical decimal digits,
      with a leading zero only for zero itself. */
  function IdText(n: nat): (s: string)
    ensures |s| >= 1
    ensures forall i :: 0 <= i < |s| ==> '0' <= s[i] <= '9'
    ensures s[0] == '0' <==> n == 0
    decreases n
  {
    if n < 10 then [Digit(n)] else IdText(n / 10) + [Digit(n % 10)]
  }

  /** `parseInt` on a string of decimal digits. Leading zeros do not change
      the value, so "01" reads as 1. */
  function ParseDecimal(s: string): (n: nat)
    ensures |s| > 0 && s[0] == '0' ==> n == ParseDecimal(s[1..])
    decreases |s|
  {
    if |s| == 0 then 0
    else
      var init := s[..|s| - 1];
      assert |s| > 1 && s[0] == '0' ==> init[0] == '0' && init[1..] == s[1..][..|s[1..]| - 1];
      ParseDecimal(init) * 10 + DigitValue(s[|s| - 1])
  }

  /** Reading an id back gives the number it was written from. */
  lemma {:induction false} ParseIdText(n: nat)
    ensures ParseDecimal(IdText(n)) == n
    decreases n
  {
    if n >= 10 {
      var s := IdText(n);
      assert s[..|s| - 1] == IdText(n / 10);
      ParseIdText(n / 10);
    }
  }

  /** Two distinct ids never share their text, so comparing id strings is
      comparing ids. */
  lemma IdTextInjective(a: nat, b: nat)
    ensures IdText(a) == IdText(b) ==> a == b
  {
    ParseIdText(a);
    ParseIdText(b);
  }
}
