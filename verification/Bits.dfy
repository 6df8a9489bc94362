/** Bitwise operations on non-negative integers and what they amount to arithmetically. */
module Bits {
  import opened Arithmetic

  function Pow2(k: nat): (p: nat)
    ensures 0 < p
  {
    if k == 0 then 1 else 2 * Pow2(k - 1)
  }

  function And(a: nat, b: nat): nat {
    if a == 0 || b == 0 then 0 else (if a % 2 == 1 && b % 2 == 1 then 1 else 0) + 2 * And(a / 2, b / 2)
  }

  function Or(a: nat, b: nat): nat {
    if a == 0 then b else if b == 0 then a
    else (if a % 2 == 1 || b % 2 == 1 then 1 else 0) + 2 * Or(a / 2, b / 2)
  }

  /** The number of bits needed to write `x`. */
  function Len(x: nat): nat {
    if x == 0 then 0 else 1 + Len(x / 2)
  }

  lemma {:induction false} AndMask(a: nat, k: nat)
    ensures And(a, Pow2(k) - 1) == Rem(a, Pow2(k))
  {
    hide And, Rem;
    if k == 0 {
      AndZero(a);
    } else {
      var p := Pow2(k - 1);
      AndOdd(a, p - 1);
      AndMask(a / 2, k - 1);
      ModDouble(a, p);
    }
  }

  lemma AndZero(a: nat)
    ensures And(a, 0) == Rem(a, 1)
  {
  }

  lemma AndOdd(a: nat, h: nat)
    ensures And(a, 2 * h + 1) == a % 2 + 2 * And(a / 2, h)
  {
    assert (2 * h + 1) / 2 == h && (2 * h + 1) % 2 == 1;
  }

  lemma ModDouble(a: nat, p: nat)
    requires 0 < p
    ensures Rem(a, 2 * p) == 2 * Rem(a / 2, p) + a % 2
  {
    var q, r := a / 2 / p, (a / 2) % p;
    assert a / 2 == q * p + r;
    var rest := 2 * r + a % 2;
    assert a == q * (2 * p) + rest by { assert q * (2 * p) == 2 * (q * p); }
    assert 0 <= rest < 2 * p;
    DivUnique(a, 2 * p, q, rest);
  }

  lemma DivUnique(a: nat, d: nat, q: nat, r: nat)
    requires a == q * d + r && r < d
    ensures a / d == q && a % d == r
  {
    DivAtLeast(a, d, q);
    DivAtLeast(a, d, q + 1);
    assert (q + 1) * d == q * d + d;
  }

  /** Bits above and below a cut do not interfere. */
  lemma {:induction false} OrDisjoint(a: nat, c: nat, k: nat)
    requires a < Pow2(k)
    ensures Or(a, c * Pow2(k)) == a + c * Pow2(k)
  {
    if k != 0 {
      var p := Pow2(k - 1);
      DoubleRight(c, p);
      MulNat(c, p);
      if a != 0 && c * p != 0 { OrDisjoint(a / 2, c, k - 1); }
    } else {
      assert a == 0;
    }
  }

  lemma {:induction false} LenShift(x: nat, k: nat)
    requires Pow2(k) <= x
    ensures Len(x) == k + Len(x / Pow2(k))
  {
    if k != 0 {
      var p := Pow2(k - 1);
      LenShift(x / 2, k - 1);
      assert x / (2 * p) == x / 2 / p by { HalfThenDivide(x, p); }
    }
  }

  lemma HalfThenDivide(x: nat, p: nat)
    requires 0 < p
    ensures x / (2 * p) == x / 2 / p
  {
    ModDouble(x, p);
    var q := x / 2 / p;
    assert x / 2 == q * p + (x / 2) % p;
    assert q * (2 * p) == 2 * (q * p);
    DivUnique(x, 2 * p, q, 2 * ((x / 2) % p) + x % 2);
  }

  lemma LenOrOne(x: nat)
    ensures Len(Or(x, 1)) == if x == 0 then 1 else Len(x)
  {
    if x != 0 {
      assert Or(x / 2, 0) == x / 2;
      assert Or(x, 1) / 2 == x / 2;
    }
  }

  lemma {:induction false} OrBound(a: nat, b: nat, k: nat)
    requires a < Pow2(k) && b < Pow2(k)
    ensures Or(a, b) < Pow2(k)
  {
    if a != 0 && b != 0 { OrBound(a / 2, b / 2, k - 1); }
  }

  lemma {:induction false} Pow2Monotone(m: nat, n: nat)
    requires m <= n
    ensures Pow2(m) <= Pow2(n)
  {
    if m < n { Pow2Monotone(m, n - 1); }
  }

  lemma DoubleRight(a: nat, b: nat)
    ensures a * (2 * b) == 2 * (a * b)
  {
  }

  lemma {:induction false} Pow2Adds(j: nat, k: nat)
    ensures Pow2(j + k) == Pow2(j) * Pow2(k)
  {
    if k != 0 {
      Pow2Adds(j, k - 1);
      DoubleRight(Pow2(j), Pow2(k - 1));
    }
  }

  lemma Powers()
    ensures Pow2(3) == 8 && Pow2(7) == 128 && Pow2(64) == 0x1_0000_0000_0000_0000
  {
    assert Pow2(3) == 8 && Pow2(7) == 128 && Pow2(8) == 256;
    hide Pow2;
    Pow2Adds(8, 8);
    Pow2Adds(16, 16);
    Pow2Adds(32, 32);
  }
}
