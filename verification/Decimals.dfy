/** Numbers as decimal digits. */
module Decimals {
  import opened Bytes

  function Digit(n: nat): char
    requires n < 10
  {
    ('0' as int + n) as char
  }

  predicate IsDigit(c: char) {
    '0' <= c <= '9'
  }

  function DigitOf(c: char): nat
    requires IsDigit(c)
  {
    c as int - '0' as int
  }

  predicate AreDigits(text: string) {
    forall i :: 0 <= i < |text| ==> IsDigit(text[i])
  }

  /** The decimal digits of a number. */
  function Decimal(n: nat): (digits: string)
    ensures |digits| >= 1 && AreDigits(digits)
  {
    if n < 10 then [Digit(n)] else Decimal(n / 10) + [Digit(n % 10)]
  }

  /** The number that digits write. */
  function NumberOf(digits: string): nat
    requires AreDigits(digits)
  {
    if digits == [] then 0 else 10 * NumberOf(digits[..|digits| - 1]) + DigitOf(digits[|digits| - 1])
  }

  /** A number's digits write it: no two numbers share them. */
  lemma {:induction false} DecimalReads(n: nat)
    ensures NumberOf(Decimal(n)) == n
  {
    if n >= 10 {
      DecimalReads(n / 10);
      assert Decimal(n)[..|Decimal(n)| - 1] == Decimal(n / 10);
    }
  }

  /** No number but zero starts with one. */
  lemma {:induction false} DecimalStarts(n: nat)
    requires n > 0
    ensures Decimal(n)[0] != '0'
  {
    if n >= 10 {
      DecimalStarts(n / 10);
    }
  }

  function Tens(k: nat): nat {
    if k == 0 then 1 else 10 * Tens(k - 1)
  }

  lemma {:induction false} DecimalLength(n: nat, k: nat, bound: nat)
    requires k >= 1 && n < bound && bound == Tens(k)
    ensures |Decimal(n)| <= k
  {
    if n >= 10 {
      assert k > 1;
      DecimalLength(n / 10, k - 1, Tens(k - 1));
    }
  }
}
