/** Decimal numerals: the digits of int() and str() on natural numbers. */
module Numerals {

  predicate IsDigit(c: char)
  {
    '0' <= c <= '9'
  }

  predicate AllDigits(s: string)
  {
    forall i :: 0 <= i < |s| ==> IsDigit(s[i])
  }

  /** int() of a string of decimal digits (leading zeros allowed). */
  function Decimal(d: string): nat
    requires AllDigits(d)
  {
    if d == [] then 0 else 10 * Decimal(d[..|d| - 1]) + (d[|d| - 1] - '0') as nat
  }

  /** The decimal rendering of n, the inverse of Decimal. */
  function DecimalString(n: nat): (d: string)
    ensures |d| >= 1 && AllDigits(d)
  {
    if n < 10 then [('0' as int + n) as char]
    else DecimalString(n / 10) + [('0' as int + n % 10) as char]
  }

  lemma {:induction false} DecimalOfDecimalString(n: nat)
    ensures Decimal(DecimalString(n)) == n
  {
    if n >= 10 {
      var d := DecimalString(n);
      DecimalOfDecimalString(n / 10);
      assert d[..|d| - 1] == DecimalString(n / 10);
    }
  }
}
