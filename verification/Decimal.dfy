/** Fixed-point decimals with 18 places, as their integer numerators over 10^18. */
module Decimal {
  import opened Arithmetic
  import Amm

  /** Product of two decimals, rounded to the nearest representable one, ties to even. */
  function Mul(a: nat, b: nat): (r: nat) {
    MulNat(a, b);
    var quotient, rest := a * b / Amm.P, a * b % Amm.P;
    if rest * 2 < Amm.P then quotient
    else if rest * 2 > Amm.P then quotient + 1
    else if quotient % 2 == 0 then quotient
    else quotient + 1
  }

  /** The whole amount that `rate` takes of the integer `n`. */
  function Share(n: nat, rate: nat): (r: nat) {
    Mul(n * Amm.P, rate) / Amm.P
  }

  /** Two roundings collapse into one: the share is exactly the rounded-down product. */
  lemma ShareIsFloor(n: nat, rate: nat)
    ensures 0 <= n * rate && Share(n, rate) == Quo(n * rate, Amm.P)
  {
    MulNat(n, rate);
    MulRotate(n, Amm.P, rate);
    MulRotate(rate, n, Amm.P);
    assert (n * Amm.P) * rate == (n * rate) * Amm.P;
    DivExact(n * rate, Amm.P);
  }

  /** A rate of at most one takes no more than the amount, and less of it exactly when the rate is below one. */
  lemma ShareBounds(n: nat, rate: nat)
    requires rate <= Amm.P
    ensures Share(n, rate) <= n
    ensures Share(n, rate) == n <==> n == 0 || rate == Amm.P
  {
    ShareIsFloor(n, rate);
    MulLe(rate, Amm.P, n);
    DivAtLeast(n * rate, Amm.P, n + 1);
    DivAtLeast(n * rate, Amm.P, n);
    if rate < Amm.P && 0 < n {
      MulPos(Amm.P - rate, n);
      assert (Amm.P - rate) * n == Amm.P * n - n * rate;
    }
  }
}
