/**
  The constant-product pricing of the coinswap exchange: sell and buy prices under a fee, minting and
  redeeming liquidity shares. Every amount is a non-negative integer and every quotient is rounded down.
  A decimal (the fee) is its numerator over P = 10^18.
 */
module Amm {
  import opened Arithmetic

  const P: nat := 1_000_000_000_000_000_000

  /** What a sale of `a` pays out of the reserve `y`, the other reserve being `x`. */
  function InputPrice(a: nat, x: nat, y: nat, fee: nat): (out: nat)
    requires 0 < x && fee < P
  {
    MulNat(a, P - fee);
    var inputWithFee: nat := a * (P - fee);
    MulNat(inputWithFee, y);
    Quo(inputWithFee * y, x * P + inputWithFee)
  }

  /** What buying exactly `q` from the reserve `y` costs, the other reserve being `x`. */
  function OutputPrice(q: nat, x: nat, y: nat, fee: nat): (cost: nat)
    requires q < y && fee < P
  {
    MulPos(y - q, P - fee);
    MulNat(x, q);
    Quo(x * q * P, (y - q) * (P - fee)) + 1
  }

  /** The division-free meaning of the sell price: selling `a` yields at least `q` exactly when ... */
  lemma SaleYields(a: nat, x: nat, y: nat, fee: nat, q: nat)
    requires 0 < x && fee < P
    ensures InputPrice(a, x, y, fee) >= q <==> a * (P - fee) * (y - q) >= q * (x * P)
  {
    var af := a * (P - fee);
    assert x * P > 0;
    DivAtLeast(af * y, x * P + af, q);
    assert q * (x * P + af) == q * (x * P) + af * q;
    assert af * (y - q) == af * y - af * q;
  }

  /** A sale never drains the reserve it is paid from. */
  lemma SaleLeavesReserve(a: nat, x: nat, y: nat, fee: nat)
    requires 0 < x && 0 < y && fee < P
    ensures InputPrice(a, x, y, fee) < y
  {
    SaleYields(a, x, y, fee, y);
    assert y * (x * P) > 0;
  }

  /** Selling never lowers the product of the reserves. */
  lemma SaleKeepsProduct(a: nat, x: nat, y: nat, fee: nat)
    requires 0 < x && 0 < y && fee < P
    ensures var out := InputPrice(a, x, y, fee);
      out < y && (x + a) * (y - out) >= x * y
  {
    SaleLeavesReserve(a, x, y, fee);
    var out := InputPrice(a, x, y, fee);
    SaleYields(a, x, y, fee, out);
    var d := P - fee;
    var rest := y - out;
    // a * d * rest >= out * x * P, and d <= P
    MulLe(d, P, a * rest);
    assert (a * rest) * P >= (out * x) * P by {
      assert a * d * rest == d * (a * rest);
      assert out * (x * P) == (out * x) * P;
    }
    MulCancelLe(out * x, a * rest, P);
    assert (x + a) * rest == x * rest + a * rest;
    assert x * rest == x * y - x * out;
  }

  /** Buying raises the product of the reserves strictly. */
  lemma PurchaseRaisesProduct(q: nat, x: nat, y: nat, fee: nat)
    requires 0 < x && q < y && fee < P
    ensures (x + OutputPrice(q, x, y, fee)) * (y - q) > x * y
  {
    var cost, d, rest := OutputPrice(q, x, y, fee), P - fee, y - q;
    PurchaseCovers(q, x, y, fee);
    MulLe(d, P, cost * rest);
    assert (cost * rest) * P > (x * q) * P by {
      assert cost * (rest * d) == d * (cost * rest);
    }
    if cost * rest <= x * q { MulLe(cost * rest, x * q, P); }
    assert (x + cost) * rest == x * rest + cost * rest;
    assert x * rest == x * y - x * q;
  }

  lemma PurchaseCovers(q: nat, x: nat, y: nat, fee: nat)
    requires q < y && fee < P
    ensures var cost, unit := OutputPrice(q, x, y, fee), (y - q) * (P - fee);
      0 < unit && (cost - 1) * unit <= x * q * P < cost * unit
  {
    var unit := (y - q) * (P - fee);
    assert unit > 0;
    DivBounds(x * q * P, unit);
  }

  /**
    Splitting a sale in two never pays more than selling at once, for all amounts, reserves and fees
    and with both roundings counted.
   */
  lemma SplitSaleNeverPaysMore(a: nat, b: nat, x: nat, y: nat, fee: nat)
    requires 0 < x && 0 < y && fee < P
    ensures var first := InputPrice(a, x, y, fee);
      first < y && first + InputPrice(b, x + a, y - first, fee) <= InputPrice(a + b, x, y, fee)
  {
    hide InputPrice;
    SaleLeavesReserve(a, x, y, fee);
    var first := InputPrice(a, x, y, fee);
    var mid := y - first;
    SaleLeavesReserve(b, x + a, mid, fee);
    var second := InputPrice(b, x + a, mid, fee);
    var rest, d := mid - second, P - fee;
    MulNat(a, d);
    MulNat(b, d);
    var u: nat, v: nat := a * d, b * d;
    assert u * mid >= (y - mid) * (x * P) by { SaleYields(a, x, y, fee, first); }
    assert v * rest >= (mid - rest) * (x * P + a * P) by { SaleYields(b, x + a, mid, fee, second); }
    assert u <= a * P by { MulLe(d, P, a); }
    SplitAlgebra(u, v, x * P, a * P, y, mid, rest);
    assert (a + b) * d == u + v;
    SaleYields(a + b, x, y, fee, first + second);
  }

  /** The algebra behind splitting: `u`, `v` are the fee-weighted inputs, `w` the weighted reserve. */
  lemma SplitAlgebra(u: nat, v: nat, w: nat, step: nat, y: nat, mid: nat, rest: nat)
    requires 0 < w && u <= step && rest <= mid <= y
    requires u * mid >= (y - mid) * w
    requires v * rest >= (mid - rest) * (w + step)
    ensures (u + v) * rest >= (y - rest) * w
  {
    // (w + u) * mid >= y * w and (w + step + v) * rest >= mid * (w + step)
    assert (w + u) * mid >= y * w by {
      assert (w + u) * mid == w * mid + u * mid;
      assert (y - mid) * w == y * w - w * mid;
    }
    assert (w + step + v) * rest >= mid * (w + step) by {
      assert (w + step + v) * rest == (w + step) * rest + v * rest;
      assert (mid - rest) * (w + step) == mid * (w + step) - (w + step) * rest;
    }
    var g := w + step;
    assert (w + u) * (g + v) <= (w + u + v) * g by {
      MulLe(w + u, g, v);
      assert (w + u) * (g + v) == (w + u) * g + (w + u) * v;
      assert (w + u + v) * g == (w + u) * g + g * v;
    }
    SplitChain(w + u, g + v, w + u + v, g, y * w, mid, rest);
    assert (w + u + v) * rest == w * rest + (u + v) * rest;
    assert (y - rest) * w == y * w - w * rest;
  }

  lemma SplitChain(c: nat, d: nat, e: nat, g: nat, z: nat, mid: nat, rest: nat)
    requires 0 < g
    requires z <= c * mid && mid * g <= d * rest && c * d <= e * g
    ensures z <= e * rest
  {
    calc {
      z * g;
    <= { MulLe(z, c * mid, g); }
      c * mid * g;
    == { MulRotate(c, mid, g); }
      mid * g * c;
    <= { MulLe(mid * g, d * rest, c); }
      d * rest * c;
    == { MulRotate(c, d, rest); }
      c * d * rest;
    <= { MulLe(c * d, e * g, rest); }
      e * g * rest;
    == { MulRotate(rest, e, g); MulRotate(e, g, rest); }
      (rest * e) * g;
    }
    MulCancelLe(z, rest * e, g);
  }

  /** The buy price always buys what it is quoted for. */
  lemma PurchaseInvertsSale(q: nat, x: nat, y: nat, fee: nat)
    requires 0 < x && q < y && fee < P
    ensures InputPrice(OutputPrice(q, x, y, fee), x, y, fee) >= q
  {
    var cost, unit := OutputPrice(q, x, y, fee), (y - q) * (P - fee);
    PurchaseCovers(q, x, y, fee);
    SaleYields(cost, x, y, fee, q);
    assert cost * (P - fee) * (y - q) == cost * unit;
    assert q * (x * P) == x * q * P;
  }

  /** The buy price is at most one unit above any input that buys as much. */
  lemma PurchaseNearLeast(q: nat, x: nat, y: nat, fee: nat, m: nat)
    requires 0 < x && q < y && fee < P
    requires InputPrice(m, x, y, fee) >= q
    ensures OutputPrice(q, x, y, fee) <= m + 1
  {
    var cost, unit := OutputPrice(q, x, y, fee), (y - q) * (P - fee);
    PurchaseCovers(q, x, y, fee);
    SaleYields(m, x, y, fee, q);
    assert m * (P - fee) * (y - q) == m * unit;
    assert q * (x * P) == x * q * P;
    MulCancelLe(cost - 1, m, unit);
  }

  /** Exactly when the quoted buy price is one more than the least input that would buy `q`. */
  lemma PurchaseOverpaysIff(q: nat, x: nat, y: nat, fee: nat)
    requires 0 < x && 0 < q < y && fee < P
    ensures 0 < OutputPrice(q, x, y, fee)
    ensures InputPrice(OutputPrice(q, x, y, fee) - 1, x, y, fee) >= q
       <==> (x * q * P) % ((y - q) * (P - fee)) == 0
  {
    var cost, unit := OutputPrice(q, x, y, fee), (y - q) * (P - fee);
    PurchaseCovers(q, x, y, fee);
    SaleYields(cost - 1, x, y, fee, q);
    assert (cost - 1) * (P - fee) * (y - q) == (cost - 1) * unit;
    assert q * (x * P) == x * q * P;
    var n := x * q * P;
    assert n == Quo(n, unit) * unit + n % unit;
  }

  /** Quoting back what a sale paid never asks for more than one unit above what was sold. */
  lemma SaleInvertsPurchase(a: nat, x: nat, y: nat, fee: nat)
    requires 0 < x && 0 < y && fee < P
    ensures var out := InputPrice(a, x, y, fee);
      out < y && OutputPrice(out, x, y, fee) <= a + 1
  {
    SaleLeavesReserve(a, x, y, fee);
    PurchaseNearLeast(InputPrice(a, x, y, fee), x, y, fee, a);
  }

  // ---- Liquidity shares -------------------------------------------------------------------------

  /** Shares minted for `dx` of the standard coin into a pool with reserve `x` and share supply `l`. */
  function MintedShares(dx: nat, x: nat, l: nat): (m: nat)
    requires 0 < x
  {
    MulNat(l, dx);
    Quo(l * dx, x)
  }

  /** Token deposit asked for beside `dx` of the standard coin. */
  function TokenDeposit(dx: nat, x: nat, y: nat): (dy: nat)
    requires 0 < x
  {
    MulNat(y, dx);
    Quo(y * dx, x) + 1
  }

  /** What burning `w` of `l` shares pays out of a reserve. */
  function Redeemed(w: nat, reserve: nat, l: nat): (r: nat)
    requires 0 < l
  {
    MulNat(w, reserve);
    Quo(w * reserve, l)
  }

  /** A deposit never lowers what one share stands for, in either coin, and is pro rata to within one unit. */
  lemma DepositKeepsShareValue(dx: nat, x: nat, y: nat, l: nat)
    requires 0 < x
    ensures var m, dy := MintedShares(dx, x, l), TokenDeposit(dx, x, y);
      x * (l + m) <= (x + dx) * l && y * (l + m) <= (y + dy) * l
    ensures var m, dy := MintedShares(dx, x, l), TokenDeposit(dx, x, y);
      m * x <= l * dx < (m + 1) * x && (dy - 1) * x <= y * dx < dy * x
  {
    var m, dy := MintedShares(dx, x, l), TokenDeposit(dx, x, y);
    DivBounds(l * dx, x);
    DivBounds(y * dx, x);
    assert dy * x == Quo(y * dx, x) * x + x && (m + 1) * x == m * x + x;
    DepositOutweighsMint(m, dy, dx, x, y, l);
    assert x * (l + m) == x * l + m * x && (x + dx) * l == x * l + l * dx;
    assert y * (l + m) == y * l + y * m && (y + dy) * l == y * l + dy * l;
  }

  lemma DepositOutweighsMint(m: nat, dy: nat, dx: nat, x: nat, y: nat, l: nat)
    requires 0 < x && m * x <= l * dx && y * dx <= dy * x
    ensures y * m <= dy * l
  {
    calc {
      y * m * x;
    == { MulRotate(y, m, x); }
      m * x * y;
    <= { MulLe(m * x, l * dx, y); }
      l * dx * y;
    == { MulRotate(y, l, dx); MulRotate(l, dx, y); assert dx * y == y * dx; }
      y * dx * l;
    <= { MulLe(y * dx, dy * x, l); }
      dy * x * l;
    == { MulRotate(l, dy, x); }
      l * dy * x;
    }
    MulCancelLe(y * m, l * dy, x);
  }

  /** Redeeming shares never lowers what a remaining share stands for, and never drains the pool. */
  lemma RedeemKeepsShareValue(w: nat, reserve: nat, l: nat)
    requires w <= l && 0 < l
    ensures var r := Redeemed(w, reserve, l);
      r <= reserve && reserve * (l - w) <= (reserve - r) * l
    ensures w < l && 0 < reserve ==> Redeemed(w, reserve, l) < reserve
    ensures w == l ==> Redeemed(w, reserve, l) == reserve
    ensures var r := Redeemed(w, reserve, l); r * l <= w * reserve < (r + 1) * l
  {
    var r := Redeemed(w, reserve, l);
    DivBounds(w * reserve, l);
    MulLe(w, l, reserve);
    MulCancelLe(r, reserve, l);
    assert reserve * (l - w) == reserve * l - w * reserve;
    assert (reserve - r) * l == reserve * l - r * l && (r + 1) * l == r * l + l;
    if w < l && 0 < reserve {
      MulLe(w + 1, l, reserve);
      assert (w + 1) * reserve == w * reserve + reserve;
      assert r * l < reserve * l;
    }
    if w == l { DivExact(reserve, l); }
  }

  /** Depositing and at once redeeming the minted shares returns no more of either coin than was paid. */
  lemma DepositThenRedeemNeverGains(dx: nat, x: nat, y: nat, l: nat)
    requires 0 < x && 0 < l
    ensures var m, dy := MintedShares(dx, x, l), TokenDeposit(dx, x, y);
      Redeemed(m, x + dx, l + m) <= dx && Redeemed(m, y + dy, l + m) <= dy
  {
    var m, dy := MintedShares(dx, x, l), TokenDeposit(dx, x, y);
    DepositKeepsShareValue(dx, x, y, l);
    RedeemAtMost(m, x, dx, l);
    RedeemAtMost(m, y, dy, l);
  }

  lemma RedeemAtMost(m: nat, reserve: nat, paid: nat, l: nat)
    requires 0 < l && reserve * (l + m) <= (reserve + paid) * l
    ensures Redeemed(m, reserve + paid, l + m) <= paid
  {
    assert reserve * (l + m) == reserve * l + reserve * m && (reserve + paid) * l == reserve * l + paid * l;
    assert m * (reserve + paid) == m * reserve + m * paid && paid * (l + m) == paid * l + m * paid;
    DivAtLeast(m * (reserve + paid), l + m, paid + 1);
    assert (paid + 1) * (l + m) == paid * (l + m) + (l + m);
  }

  // ---- The value of a share, squared --------------------------------------------------------------

  /** A pool seen from outside: its two reserves and its share supply. */
  datatype View = View(x: nat, y: nat, l: nat)

  /** x*y/l^2 did not fall from `v` to `w`, written without division. */
  ghost predicate NoWorse(v: View, w: View) {
    v.x * v.y * (w.l * w.l) <= w.x * w.y * (v.l * v.l)
  }

  lemma NoWorseFromShares(v: View, w: View)
    requires v.x * w.l <= w.x * v.l && v.y * w.l <= w.y * v.l
    ensures NoWorse(v, w)
  {
    var a, b, c, d := v.x * w.l, w.x * v.l, v.y * w.l, w.y * v.l;
    MulLe(a, b, c);
    MulLe(c, d, b);
    MulPair(v.x, w.l, v.y, w.l);
    MulPair(w.x, v.l, w.y, v.l);
  }

  lemma NoWorseTransitive(u: View, v: View, w: View)
    requires 0 < v.l && NoWorse(u, v) && NoWorse(v, w)
    ensures NoWorse(u, w)
  {
    var uu, vv, ww := u.l * u.l, v.l * v.l, w.l * w.l;
    var ux, vx, wx := u.x * u.y, v.x * v.y, w.x * w.y;
    assert vv > 0;
    MulLe(ux * vv, vx * uu, ww);
    MulLe(vx * ww, wx * vv, uu);
    assert ux * vv * ww == ux * ww * vv;
    assert vx * uu * ww == vx * ww * uu;
    assert wx * vv * uu == wx * uu * vv;
    MulCancelLe(ux * ww, wx * uu, vv);
  }

  lemma NoWorseFromProduct(v: View, w: View)
    requires v.l == w.l && v.x * v.y <= w.x * w.y
    ensures NoWorse(v, w)
  {
    MulLe(v.x * v.y, w.x * w.y, v.l * v.l);
  }
}
