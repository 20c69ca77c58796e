/** Natural numbers as decimal text, as a template string writes them and `Number` reads them. */
module Decimals {

  const DIGITS := "0123456789"

  predicate IsDigits(s: string) {
    forall i :: 0 <= i < |s| ==> s[i] in DIGITS
  }

  function Decimal(n: nat): (s: string)
    ensures s != [] && IsDigits(s)
  {
    if n < 10 then [DIGITS[n]] else Decimal(n / 10) + [DIGITS[n % 10]]
  }

  function DigitOf(c: char): (d: nat)
    requires c in DIGITS
    ensures d < 10 && DIGITS[d] == c
  {
    c as nat - '0' as nat
  }

  function NumberOf(s: string): nat
    requires IsDigits(s)
  {
    if s == [] then 0
    else
      assert s[|s| - 1] in DIGITS;
      10 * NumberOf(s[..|s| - 1]) + DigitOf(s[|s| - 1])
  }

  lemma {:induction false} ReadsBack(n: nat)
    ensures NumberOf(Decimal(n)) == n
  {
    var s := Decimal(n);
    if n < 10 {
      assert s[..|s| - 1] == [];
      assert NumberOf([]) == 0;
    } else {
      ReadsBack(n / 10);
      assert s[..|s| - 1] == Decimal(n / 10);
    }
  }

  function PowerOfTen(k: nat): nat {
    if k == 0 then 1 else 10 * PowerOfTen(k - 1)
  }

  lemma {:induction false} DecimalLength(n: nat, k: nat)
    requires k >= 1 && n < PowerOfTen(k)
    ensures |Decimal(n)| <= k
  {
    if n >= 10 {
      assert k > 1 by {
        assert PowerOfTen(1) == 10 * PowerOfTen(0);
      }
      DecimalLength(n / 10, k - 1);
    }
  }
}
