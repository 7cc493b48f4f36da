/** Decimal numerals. */
module Decimals {

  predicate IsDigit(c: char) {
    '0' <= c <= '9'
  }

  predicate AllDigits(s: string) {
    forall i :: 0 <= i < |s| ==> IsDigit(s[i])
  }

  /** The number a digit string denotes, leading zeros allowed. */
  function Decimal(s: string): nat
    requires AllDigits(s)
  {
    if s == "" then 0 else Decimal(s[..|s| - 1]) * 10 + (s[|s| - 1] - '0') as nat
  }

  lemma {:induction false} DecimalGrows(s: string, i: nat)
    requires AllDigits(s) && i <= |s|
    ensures Decimal(s[..i]) <= Decimal(s)
    decreases |s| - i
  {
    if i < |s| {
      assert s[..i + 1][..i] == s[..i];
      DecimalGrows(s, i + 1);
    } else {
      assert s[..i] == s;
    }
  }

  /** The numeral of a number, without leading zeros. */
  function Digits(v: nat): (s: string)
    ensures |s| >= 1 && AllDigits(s) && Decimal(s) == v
  {
    if v < 10 then [('0' as int + v) as char]
    else
      var front := Digits(v / 10);
      var s := front + [('0' as int + v % 10) as char];
      assert s[..|s| - 1] == front;
      s
  }
}
