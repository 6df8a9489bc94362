/** Facts about integer products and floor division used by the pricing and rounding proofs. */
module Arithmetic {

  /** Division of non-negative integers, rounded down. */
  function Quo(n: int, d: int): (q: nat)
    requires 0 <= n && 0 < d
  {
    n / d
  }

  function Rem(n: nat, d: nat): (r: nat)
    requires 0 < d
    ensures r < d
  {
    n % d
  }

  lemma MulLe(a: int, b: int, c: int)
    requires a <= b && 0 <= c
    ensures a * c <= b * c
  {
  }

  lemma MulRotate(a: int, b: int, c: int)
    ensures a * b * c == b * c * a && a * b * c == a * (b * c)
  {
  }

  lemma MulPair(a: int, b: int, c: int, d: int)
    ensures (a * b) * (c * d) == (a * c) * (b * d)
  {
    MulRotate(a, b, c * d);
    MulRotate(a, c, b * d);
    assert b * (c * d) == c * (b * d) by { MulRotate(b, c, d); MulRotate(c, b, d); }
  }

  lemma MulPos(a: int, b: int)
    requires 0 < a && 0 < b
    ensures 0 < a * b
  {
  }

  lemma MulNat(a: nat, b: nat)
    ensures 0 <= a * b
  {
  }

  lemma MulCancelLe(a: int, b: int, c: int)
    requires 0 < c && a * c <= b * c
    ensures a <= b
  {
    if b < a { MulLe(b + 1, a, c); }
  }

  /** Floor division as a Galois connection: it turns a bound on a quotient into a bound on a product. */
  lemma DivAtLeast(n: int, d: int, q: int)
    requires 0 <= n && 0 < d
    ensures Quo(n, d) >= q <==> n >= q * d
  {
    var k, r := n / d, n % d;
    assert n == k * d + r;
    if k >= q {
      MulLe(q, k, d);
    } else {
      MulLe(k + 1, q, d);
      assert (k + 1) * d == k * d + d;
    }
  }

  lemma DivBounds(n: int, d: int)
    requires 0 <= n && 0 < d
    ensures Quo(n, d) * d <= n < Quo(n, d) * d + d
  {
  }

  lemma DivMonotone(m: int, n: int, d: int)
    requires 0 <= m <= n && 0 < d
    ensures Quo(m, d) <= Quo(n, d)
  {
    DivBounds(m, d);
    DivAtLeast(n, d, Quo(m, d));
  }

  lemma DivExact(q: nat, d: nat)
    requires 0 < d
    ensures 0 <= q * d && Quo(q * d, d) == q
  {
    MulNat(q, d);
    DivAtLeast(q * d, d, q);
    DivAtLeast(q * d, d, q + 1);
    assert (q + 1) * d == q * d + d;
  }

  /** Cross-multiplied form of "q/d does not rise when n/l does not fall". */
  lemma FloorRatioMonotone(w: nat, x: nat, l: nat, x': nat, l': nat)
    requires 0 < l && 0 < l'
    requires x * l' <= x' * l
    ensures 0 <= w * x && 0 <= w * x' && Quo(w * x, l) <= Quo(w * x', l')
  {
    MulNat(w, x);
    MulNat(w, x');
    var q := Quo(w * x, l);
    DivBounds(w * x, l);
    // q * l <= w * x, so q * l * l' <= w * x * l' <= w * x' * l
    MulLe(q * l, w * x, l');
    MulLe(x * l', x' * l, w);
    assert (q * l') * l <= (w * x') * l by {
      assert (q * l') * l == (q * l) * l';
      assert (w * x) * l' == (x * l') * w;
      assert (w * x') * l == (x' * l) * w;
    }
    MulCancelLe(q * l', w * x', l);
    DivAtLeast(w * x', l', q);
  }
}
