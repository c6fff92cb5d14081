/** Sizes and thresholds that only ever double. */
module Doubling {

  /** `n` is `base` doubled some number of times. */
  ghost predicate Doubled(base: nat, n: nat)
    decreases n
  {
    n == base || (base < n && n % 2 == 0 && Doubled(base, n / 2))
  }

  lemma DoubledAgain(base: nat, n: nat)
    requires Doubled(base, n) && 0 < base
    ensures base <= n && Doubled(base, 2 * n)
  {
    assert 2 * n / 2 == n;
  }

  /** `base` doubled `n` times. */
  function Twice(base: nat, n: nat): (r: nat)
    ensures 0 < base ==> 0 < r
  {
    if n == 0 then base else 2 * Twice(base, n - 1)
  }

  lemma {:induction false} TwiceSum(base: nat, a: nat, b: nat)
    ensures Twice(Twice(base, a), b) == Twice(base, a + b)
  {
    if b > 0 { TwiceSum(base, a, b - 1); }
  }

  lemma {:induction false} OrderOf(base: nat, n: nat) returns (k: nat)
    requires Doubled(base, n)
    ensures n == Twice(base, k)
    decreases n
  {
    if n == base {
      k := 0;
    } else {
      k := OrderOf(base, n / 2);
      k := k + 1;
    }
  }
}
