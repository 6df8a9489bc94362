/** Whole runs of coinswap messages. */
module CoinswapRuns {
  import opened Arithmetic
  import opened Basics
  import opened Text
  import opened Bank
  import opened PoolRegistry
  import opened Coinswap
  import opened CoinswapSteps
  import Amm
  import Decimal

  /** The state after the first `i` messages. */
  function After(s: State, ms: seq<Msg>, i: nat): (r: State)
    requires FeeValid(s.params) && i <= |ms|
    ensures FeeValid(r.params)
  {
    if i == 0 then s else Deliver(After(s, ms, i - 1), ms[i - 1])
  }

  /** All messages are signed, and pool numbers fit in 64 bits all along. */
  ghost predicate Legit(s: State, ms: seq<Msg>)
    requires FeeValid(s.params)
  {
    forall i :: 0 <= i < |ms| ==> Signed(ms[i]) && After(s, ms, i).reg.sequence + 1 < UINT64
  }

  /**
    Every state of every run: indexes and counter agree, balances sum to supply, and every pool with
    shares outstanding holds both coins.
   */
  lemma {:induction false} RunKeepsInv(s: State, ms: seq<Msg>, i: nat)
    requires Inv(s) && Legit(s, ms) && i <= |ms|
    ensures Inv(After(s, ms, i))
  {
    hide Inv, Apply;
    FeeBelowOne(s);
    if i != 0 {
      RunKeepsInv(s, ms, i - 1);
      var t := After(s, ms, i - 1);
      if Apply(t, ms[i - 1]).Ok? { ApplyKeepsInv(t, ms[i - 1]); }
    }
  }

  /** Each message of a run, failed or not, seen from one pool. */
  lemma RunSteps(s: State, ms: seq<Msg>, i: nat, id: string)
    requires Inv(s) && Legit(s, ms) && i < |ms| && id in After(s, ms, i).reg.pools
    ensures Stepped(After(s, ms, i), After(s, ms, i + 1), ms[i], id)
  {
    hide Inv, Apply, ViewOf, Advances, KeepsShares;
    FeeBelowOne(s);
    RunKeepsInv(s, ms, i);
    var t := After(s, ms, i);
    if Apply(t, ms[i]).Ok? {
      ApplySteps(t, ms[i], id);
    } else {
      GrowthAdvances(ViewOf(t, id), ViewOf(t, id));
    }
  }

  /** Pools are never removed and their records never change. */
  lemma {:induction false} PoolsPersist(s: State, ms: seq<Msg>, i: nat, id: string)
    requires Inv(s) && Legit(s, ms) && i <= |ms| && id in s.reg.pools
    ensures id in After(s, ms, i).reg.pools && After(s, ms, i).reg.pools[id] == s.reg.pools[id]
    ensures After(s, ms, i).standard == s.standard
  {
    hide Inv, Deliver, ViewOf, Advances, KeepsShares, Legit;
    if i != 0 {
      PoolsPersist(s, ms, i - 1, id);
      RunSteps(s, ms, i - 1, id);
    }
  }

  /** A chain starts with no pools, no shares and balances that sum to supply. */
  lemma GenesisSatisfiesInv(bank: Ledger, standard: Denom, params: Params)
    requires Conserved(bank) && ValidDenom(standard) && !HasLptPrefix(standard) && ParamsValid(params)
    requires forall d :: HasLptPrefix(d) ==> Sup(bank, d) == 0
    ensures Inv(State(bank, Registry(map[], map[], 1), standard, params))
  {
  }

  /** At every point of every run the exported genesis is valid and importing it rebuilds the registry. */
  lemma RunExportsValidGenesis(s: State, ms: seq<Msg>, i: nat, order: seq<string>)
    requires Inv(s) && Legit(s, ms) && i <= |ms| && Enumerates(order, After(s, ms, i).reg.pools.Keys)
    ensures var t := After(s, ms, i);
      && GenesisValid(Genesis(t.params, t.standard, Listed(t.reg, order), t.reg.sequence))
      && Import(Listed(t.reg, order), t.reg.sequence) == t.reg
  {
    hide After, ValidDenom, HasLptPrefix, GenesisValid, Import, Agree, NoStrayShares, Conserved;
    RunKeepsInv(s, ms, i);
    var t := After(s, ms, i);
    assert forall id :: id in t.reg.pools ==> PoolSound(t, id);
    ExportImportRoundTrip(t.reg, order, t.params, t.standard);
  }

  function ViewAfter(s: State, ms: seq<Msg>, i: nat, id: string): Amm.View
    requires FeeValid(s.params) && i <= |ms| && id in After(s, ms, i).reg.pools
  {
    ViewOf(After(s, ms, i), id)
  }

  ghost predicate SharesOutstanding(s: State, ms: seq<Msg>, i: nat, id: string)
    requires FeeValid(s.params) && i <= |ms|
  {
    forall j :: 0 <= j <= i ==> id in After(s, ms, j).reg.pools && 0 < ViewAfter(s, ms, j, id).l
  }

  /**
    Over every run of deposits, withdrawals, sales, purchases, parameter changes and transfers that keeps
    shares outstanding, reserve product over squared share supply never falls.
   */
  lemma {:induction false} ShareValueNeverFalls(s: State, ms: seq<Msg>, i: nat, id: string)
    requires Inv(s) && Legit(s, ms) && i <= |ms| && SharesOutstanding(s, ms, i, id)
    ensures id in s.reg.pools && id in After(s, ms, i).reg.pools
    ensures Amm.NoWorse(ViewOf(s, id), ViewAfter(s, ms, i, id))
  {
    hide Inv, Deliver, Legit, Amm.NoWorse, ViewOf, Backed, KeepsShares;
    FeeBelowOne(s);
    assert After(s, ms, 0) == s && id in s.reg.pools;
    if i == 0 {
      SameIsNoWorse(ViewOf(s, id));
    } else {
      ShareValueNeverFalls(s, ms, i - 1, id);
      RunSteps(s, ms, i - 1, id);
      Amm.NoWorseTransitive(ViewOf(s, id), ViewAfter(s, ms, i - 1, id), ViewAfter(s, ms, i, id));
    }
  }

  lemma SameIsNoWorse(v: Amm.View)
    ensures Amm.NoWorse(v, v)
  {
  }

  /**
    Without deposits and withdrawals, whatever swaps, parameter changes and transfers are made, the product
    of a pool's reserves never falls and its share supply never changes.
   */
  lemma {:induction false} SwapsNeverLowerProduct(s: State, ms: seq<Msg>, i: nat, id: string)
    requires Inv(s) && Legit(s, ms) && i <= |ms| && id in s.reg.pools
    requires forall j :: 0 <= j < i ==> !ms[j].AddLiquidity? && !ms[j].RemoveLiquidity?
    ensures id in After(s, ms, i).reg.pools
    ensures var v, w := ViewOf(s, id), ViewAfter(s, ms, i, id); w.l == v.l && v.x * v.y <= w.x * w.y
  {
    hide Inv, Deliver, Legit, ViewOf, Advances, KeepsShares;
    FeeBelowOne(s);
    if i != 0 {
      SwapsNeverLowerProduct(s, ms, i - 1, id);
      RunSteps(s, ms, i - 1, id);
    }
  }

  /** In such a run nothing is taken from one reserve of a pool with shares without adding to the other. */
  lemma SwapsNeverDrain(s: State, ms: seq<Msg>, i: nat, id: string)
    requires Inv(s) && Legit(s, ms) && i <= |ms| && id in s.reg.pools && 0 < ViewOf(s, id).l
    requires forall j :: 0 <= j < i ==> !ms[j].AddLiquidity? && !ms[j].RemoveLiquidity?
    ensures id in After(s, ms, i).reg.pools
    ensures var v, w := ViewOf(s, id), ViewAfter(s, ms, i, id);
      && 0 < w.x && 0 < w.y
      && (w.x < v.x ==> v.y < w.y) && (w.y < v.y ==> v.x < w.x)
  {
    hide Inv, ViewOf, Legit, After;
    FeeBelowOne(s);
    SwapsNeverLowerProduct(s, ms, i, id);
    RunKeepsInv(s, ms, i);
    SharesAreBacked(s, id);
    SharesAreBacked(After(s, ms, i), id);
    var v, w := ViewOf(s, id), ViewAfter(s, ms, i, id);
    if w.x < v.x && w.y <= v.y { ProductDrops(v.x, v.y, w.x, w.y); }
    if w.y < v.y && w.x <= v.x { ProductDrops(v.y, v.x, w.y, w.x); }
  }

  lemma SharesAreBacked(s: State, id: string)
    requires Inv(s) && id in s.reg.pools
    ensures Backed(ViewOf(s, id))
  {
    hide Inv;
    PoolFacts(s, id);
  }

  lemma ProductDrops(x: nat, y: nat, x': nat, y': nat)
    requires x' < x && y' <= y && 0 < y
    ensures x' * y' < x * y && y' * x' < y * x
  {
    MulLe(y', y, x');
    MulLe(x' + 1, x, y);
    assert (x' + 1) * y == x' * y + y;
  }

  // ---- Holders' claims ------------------------------------------------------------------------------------

  /** What `h` shares would be paid of each coin. */
  function Claim(v: Amm.View, h: nat): (nat, nat)
    requires 0 < v.l
  {
    (Amm.Redeemed(h, v.x, v.l), Amm.Redeemed(h, v.y, v.l))
  }

  lemma ClaimKept(v: Amm.View, w: Amm.View, h: nat)
    requires 0 < v.l && 0 < w.l && KeepsShares(v, w)
    ensures Claim(v, h).0 <= Claim(w, h).0 && Claim(v, h).1 <= Claim(w, h).1
  {
    FloorRatioMonotone(h, v.x, v.l, w.x, w.l);
    FloorRatioMonotone(h, v.y, v.l, w.y, w.l);
  }

  /**
    No run without swaps - deposits and withdrawals by anyone into any pool, parameter changes, transfers -
    lowers the claim of any number of shares.
   */
  lemma {:induction false} LiquidityRunsKeepClaims(s: State, ms: seq<Msg>, i: nat, id: string, h: nat)
    requires Inv(s) && Legit(s, ms) && i <= |ms| && SharesOutstanding(s, ms, i, id)
    requires forall j :: 0 <= j < i ==> !ms[j].SwapOrder?
    ensures id in s.reg.pools && 0 < ViewOf(s, id).l && id in After(s, ms, i).reg.pools && 0 < ViewAfter(s, ms, i, id).l
    ensures var before, after := Claim(ViewOf(s, id), h), Claim(ViewAfter(s, ms, i, id), h);
      before.0 <= after.0 && before.1 <= after.1
  {
    hide Inv, Deliver, Legit, ViewOf, KeepsShares, Advances, Claim;
    FeeBelowOne(s);
    assert After(s, ms, 0) == s && id in s.reg.pools && ViewAfter(s, ms, 0, id) == ViewOf(s, id);
    if i != 0 {
      LiquidityRunsKeepClaims(s, ms, i - 1, id, h);
      RunSteps(s, ms, i - 1, id);
      ClaimKept(ViewAfter(s, ms, i - 1, id), ViewAfter(s, ms, i, id), h);
    }
  }

  /** Adding to a pool with shares and at once removing the shares received never gains either coin. */
  lemma AddThenRemoveNeverGains(s: State, sender: Addr, maxToken: Coin, exactStandard: nat, minLiquidity: nat,
                                minToken: nat, minStandard: nat, minted: nat)
    requires Inv(s) && sender.User? && s.reg.sequence + 1 < UINT64
    requires var id := PoolId(maxToken.denom); id in s.reg.pools && 0 < ViewOf(s, id).l
    requires Add(s, sender, maxToken, exactStandard, minLiquidity).Ok?
    requires var s1, lpt := Add(s, sender, maxToken, exactStandard, minLiquidity).value,
        s.reg.pools[PoolId(maxToken.denom)].lptDenom;
      && Sup(s1.bank, lpt) == Sup(s.bank, lpt) + minted
      && Remove(s1, sender, Coin(lpt, minted), minToken, minStandard).Ok?
    ensures var s1, lpt := Add(s, sender, maxToken, exactStandard, minLiquidity).value,
        s.reg.pools[PoolId(maxToken.denom)].lptDenom;
      var s2 := Remove(s1, sender, Coin(lpt, minted), minToken, minStandard).value;
      && Bal(s2.bank, sender, s.standard) <= Bal(s.bank, sender, s.standard)
      && Bal(s2.bank, sender, maxToken.denom) <= Bal(s.bank, sender, maxToken.denom)
      && Sup(s2.bank, lpt) == Sup(s.bank, lpt)
  {
    hide Inv, Add, Remove, Amm.MintedShares, Amm.TokenDeposit, Amm.Redeemed, ValidDenom, HasLptPrefix, PoolId,
        Decimal.Share, CreatePool,
      Numbered, Legit;
    var id := PoolId(maxToken.denom);
    var v, lpt := ViewOf(s, id), s.reg.pools[id].lptDenom;
    PoolFacts(s, id);
    var k := AddDeposits(s, sender, maxToken, exactStandard, minLiquidity);
    var s1 := Add(s, sender, maxToken, exactStandard, minLiquidity).value;
    assert Inv(s1) by {
      FeeBelowOne(s);
      ApplyKeepsInv(s, AddLiquidity(sender, maxToken, exactStandard, minLiquidity));
    }
    assert k.terms.minted == minted && k.tax == 0 && k.burned == 0;
    var at := RemoveWithdraws(s1, sender, Coin(lpt, minted), minToken, minStandard);
    PoolFacts(s1, id);
    PoolFacts(s1, at);
    assert at == id;
    assert ViewOf(s1, id) == Amm.View(v.x + k.terms.dx, v.y + k.terms.dy, v.l + minted);
    Amm.DepositThenRedeemNeverGains(k.terms.dx, v.x, v.y, v.l);
  }

  /** Withdrawing the whole share supply pays out exactly all of both reserves. */
  lemma WithdrawingAllEmptiesPool(s: State, sender: Addr, withdraw: Coin, minToken: nat, minStandard: nat)
    requires Inv(s) && sender.User? && Remove(s, sender, withdraw, minToken, minStandard).Ok?
    requires withdraw.amount == Sup(s.bank, withdraw.denom)
    ensures var s' := Remove(s, sender, withdraw, minToken, minStandard).value;
      && withdraw.denom in s.reg.byLpt && s.reg.byLpt[withdraw.denom] in s.reg.pools
      && var p := s.reg.pools[s.reg.byLpt[withdraw.denom]];
        && Bal(s'.bank, sender, s.standard) == Bal(s.bank, sender, s.standard) + Bal(s.bank, p.escrow, s.standard)
        && Bal(s'.bank, sender, p.counterpartyDenom) == Bal(s.bank, sender, p.counterpartyDenom)
          + Bal(s.bank, p.escrow, p.counterpartyDenom)
        && Bal(s'.bank, p.escrow, s.standard) == 0 && Bal(s'.bank, p.escrow, p.counterpartyDenom) == 0
        && Sup(s'.bank, withdraw.denom) == 0
  {
    hide Inv, Remove, Amm.Redeemed, ValidDenom, HasLptPrefix, PoolId, Numbered;
    var at := RemoveWithdraws(s, sender, withdraw, minToken, minStandard);
    PoolFacts(s, at);
    var v := ViewOf(s, at);
    Amm.RedeemKeepsShareValue(withdraw.amount, v.x, v.l);
    Amm.RedeemKeepsShareValue(withdraw.amount, v.y, v.l);
  }

  /** In no state satisfying the invariant does a message divide by zero or miss an escrow account. */
  lemma NoDivisionByZero(s: State, m: Msg)
    requires Inv(s)
    ensures Apply(s, m) != Err(DivisionByZero)
    ensures m.AddLiquidity? ==> Apply(s, m) != Err(ReservePoolNotExists)
  {
    hide Inv, ValidDenom, HasLptPrefix, ParseLptDenom, PoolId, LptDenom, SaleFits, PurchaseFits, Amm.InputPrice,
        Amm.OutputPrice, Amm.Redeemed,
      Add, LptDenomFromDenoms, Send, Burn;
    FeeBelowOne(s);
    match m
    case AddLiquidity(sender, maxToken, exactStandard, minLiquidity) =>
      AddNeverDivides(s, sender, maxToken, exactStandard, minLiquidity);
    case RemoveLiquidity(_, _, _, _) =>
    case SwapOrder(_, input, _, output, _) => RouteErrors(s, input.denom, output.denom);
    case UpdateParams(_) =>
    case BankSend(_, _, _) =>
  }

  lemma RouteErrors(s: State, d1: Denom, d2: Denom)
    ensures LptDenomFromDenoms(s.reg, s.standard, d1, d2) != Err(DivisionByZero)
    ensures LptDenomFromDenoms(s.reg, s.standard, d2, d1) != Err(DivisionByZero)
  {
  }

  lemma AddNeverDivides(s: State, sender: Addr, maxToken: Coin, exactStandard: nat, minLiquidity: nat)
    requires Inv(s)
    ensures var r := Add(s, sender, maxToken, exactStandard, minLiquidity);
      r != Err(DivisionByZero) && r != Err(ReservePoolNotExists)
  {
    hide Inv, ValidDenom, HasLptPrefix, PoolId, LptDenom, Amm.MintedShares, Amm.TokenDeposit, Numbered, CreatePool,
        Decimal.Share,
      Send, Burn, Mint;
    var id := PoolId(maxToken.denom);
    if id in s.reg.pools {
      PoolFacts(s, id);
      PoolIdInjective(maxToken.denom, s.reg.pools[id].counterpartyDenom);
    }
  }
}
