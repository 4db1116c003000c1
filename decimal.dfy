/** Decimal digits: how version segments are read from and written to text. */
module Decimal {

  predicate IsDigit(c: char) {
    '0' <= c <= '9'
  }

  predicate AllDigits(s: string) {
    forall i | 0 <= i < |s| :: IsDigit(s[i])
  }

  function DigitChar(d: nat): (c: char)
    requires d < 10
    ensures IsDigit(c)
  {
    ('0' as int + d) as char
  }

  function DigitValue(c: char): (d: nat)
    requires IsDigit(c)
    ensures d < 10
    ensures DigitChar(d) == c
  {
    c as int - '0' as int
  }

  /** The number a run of digits denotes; leading zeros are allowed ("03" is 3). */
  function ValueOf(s: string): nat
    requires AllDigits(s)
  {
    if s == [] then 0 else ValueOf(s[..|s| - 1]) * 10 + DigitValue(s[|s| - 1])
  }

  /** The canonical decimal text of n: never empty, digits only, no leading zero. */
  function ToText(n: nat): (s: string)
    ensures s != [] && AllDigits(s)
    ensures ValueOf(s) == n
    ensures s[0] == '0' ==> n == 0
  {
    if n < 10 then [DigitChar(n)]
    else
      var t := ToText(n / 10);
      var s := t + [DigitChar(n % 10)];
      assert s[..|s| - 1] == t;
      s
  }

  /** Different numbers have different texts, so a numeric key can be compared as text. */
  lemma ToTextInjective(m: nat, n: nat)
    ensures ToText(m) == ToText(n) <==> m == n
  {
  }
}
