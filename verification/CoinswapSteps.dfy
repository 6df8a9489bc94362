/** What each coinswap message does to every pool, and the invariant all of them keep. */
module CoinswapSteps {
  import opened Arithmetic
  import opened Basics
  import opened Text
  import opened Bank
  import opened PoolRegistry
  import opened Coinswap
  import Amm
  import Decimal

  function ViewOf(s: State, id: string): Amm.View
    requires id in s.reg.pools
  {
    PoolView(s.bank, s.reg.pools[id].lptDenom, s.standard, s.reg.pools[id].counterpartyDenom)
  }

  /** Shares outstanding are backed by both coins. */
  ghost predicate Backed(v: Amm.View) {
    0 < v.l ==> 0 < v.x && 0 < v.y
  }

  ghost predicate PoolSound(s: State, id: string)
    requires id in s.reg.pools
  {
    var p := s.reg.pools[id];
    && p.standardDenom == s.standard && p.counterpartyDenom != s.standard
    && ValidDenom(p.counterpartyDenom) && !HasLptPrefix(p.counterpartyDenom)
    && Escrow(p.lptDenom) in s.bank.accounts
    && Backed(ViewOf(s, id))
  }

  /** No shares exist of a denomination that has no pool yet. */
  ghost predicate NoStrayShares(s: State) {
    forall d :: HasLptPrefix(d) && d !in s.reg.byLpt ==> Sup(s.bank, d) == 0
  }

  ghost predicate Inv(s: State) {
    && Agree(s.reg) && ParamsValid(s.params) && Conserved(s.bank)
    && ValidDenom(s.standard) && !HasLptPrefix(s.standard)
    && NoStrayShares(s)
    && forall id :: id in s.reg.pools ==> PoolSound(s, id)
  }

  /** One message seen from one pool: the squared share value does not fall and shares stay backed. */
  ghost predicate Advances(v: Amm.View, w: Amm.View) {
    (0 < v.l ==> Amm.NoWorse(v, w)) && (Backed(v) ==> Backed(w))
  }

  /** One share stands for no less of either coin. */
  ghost predicate KeepsShares(v: Amm.View, w: Amm.View) {
    0 < v.l ==> v.x * w.l <= w.x * v.l && v.y * w.l <= w.y * v.l
  }

  lemma SharesAdvance(v: Amm.View, w: Amm.View)
    requires KeepsShares(v, w) && (Backed(v) ==> Backed(w))
    ensures Advances(v, w)
  {
    hide Amm.NoWorse;
    if 0 < v.l { Amm.NoWorseFromShares(v, w); }
  }

  lemma GrowthAdvances(v: Amm.View, w: Amm.View)
    requires v.x <= w.x && v.y <= w.y && w.l <= v.l
    ensures KeepsShares(v, w) && Advances(v, w)
  {
    hide Amm.NoWorse;
    MulLe(v.x, w.x, w.l);
    MulLe(w.l, v.l, w.x);
    MulLe(v.y, w.y, w.l);
    MulLe(w.l, v.l, w.y);
    SharesAdvance(v, w);
  }

  // ---- Swaps --------------------------------------------------------------------------------------

  /** The two coins of a successful swap and the pool it went through. */
  datatype Trade = Trade(id: string, sold: Coin, bought: Coin)

  ghost predicate Moves(b: Ledger, b': Ledger, sender: Addr, e: Addr, recipient: Addr, sold: Coin, bought: Coin) {
    forall a, d {:trigger Bal(b', a, d)} ::
      Bal(b', a, d) == Bal(b, a, d) + Moved(a, d, sender, e, sold.denom, sold.amount)
                                    + Moved(a, d, e, recipient, bought.denom, bought.amount)
  }

  /** Paying `a` in and `b` out does not lower the product of the reserves. */
  ghost predicate ProductKept(x: nat, y: nat, a: nat, b: nat)
    requires b <= y
  {
    x * y <= (x + a) * (y - b)
  }

  /**
    The price of a sale of `a` into reserves `x` and `y`: what is paid, `b`, is covered by the amount sold
    less the fee, and one more would not be.
   */
  ghost predicate SalePriced(a: nat, b: nat, x: nat, y: nat, fee: nat) {
    && a * (Amm.P - fee) * (y - b) >= b * (x * Amm.P)
    && a * (Amm.P - fee) * (y - (b + 1)) < (b + 1) * (x * Amm.P)
  }

  /** The price of a purchase of `q`: the least cost that, less the fee, more than covers it. */
  ghost predicate PurchasePriced(c: nat, q: nat, x: nat, y: nat, fee: nat) {
    (c - 1) * ((y - q) * (Amm.P - fee)) <= x * q * Amm.P < c * ((y - q) * (Amm.P - fee))
  }

  /** A trade at the price its kind of order calls for, given the reserves it met and the fee in force. */
  ghost predicate Priced(s: State, t: Trade, isBuy: bool)
    requires t.id in s.reg.pools
  {
    var e := Escrow(s.reg.pools[t.id].lptDenom);
    var x, y := Bal(s.bank, e, t.sold.denom), Bal(s.bank, e, t.bought.denom);
    if isBuy then PurchasePriced(t.sold.amount, t.bought.amount, x, y, s.params.fee)
    else SalePriced(t.sold.amount, t.bought.amount, x, y, s.params.fee)
  }

  /** What a swap did to the bank, and that its price kept the product of the reserves it met. */
  ghost predicate TradeHappened(s: State, b: Ledger, sender: Addr, recipient: Addr, t: Trade) {
    && t.id in s.reg.pools
    && var p := s.reg.pools[t.id];
      var e := Escrow(p.lptDenom);
      && b.supply == s.bank.supply && b.accounts == s.bank.accounts + {e, recipient}
      && ((t.sold.denom == s.standard && t.bought.denom == p.counterpartyDenom)
          || (t.bought.denom == s.standard && t.sold.denom == p.counterpartyDenom))
      && Moves(s.bank, b, sender, e, recipient, t.sold, t.bought)
      && var x, y := Bal(s.bank, e, t.sold.denom), Bal(s.bank, e, t.bought.denom);
        0 < x && 0 < t.bought.amount < y && ProductKept(x, y, t.sold.amount, t.bought.amount)
  }

  /** The coin beside the standard one is whitelisted, and no more of it changes hands than allowed. */
  ghost predicate WithinLimit(s: State, t: Trade) {
    var token := if t.sold.denom == s.standard then t.bought else t.sold;
    Allows(s.params.maxSwap, token.denom, token.amount)
  }

  lemma LimitIsKept(p: Params, quote: Coin)
    ensures CheckSwapLimit(p, quote).Ok? ==> Allows(p.maxSwap, quote.denom, quote.amount)
    ensures CoinsValid(p.maxSwap) && Allows(p.maxSwap, quote.denom, quote.amount) ==> CheckSwapLimit(p, quote).Ok?
  {
    hide Allows, LimitOf, CoinsValid;
    LimitAllows(p.maxSwap, quote.denom, quote.amount);
    LimitAllows(p.maxSwap, quote.denom, 0);
  }

  /** Two denominations route to the pool that holds exactly these two. */
  lemma Routed(s: State, d1: Denom, d2: Denom) returns (id: string)
    requires Inv(s) && LptDenomFromDenoms(s.reg, s.standard, d1, d2).Ok?
    ensures id in s.reg.pools && LptDenomFromDenoms(s.reg, s.standard, d1, d2).value == s.reg.pools[id].lptDenom
    ensures d1 != d2
    ensures var c := s.reg.pools[id].counterpartyDenom; (d1 == s.standard && d2 == c) || (d2 == s.standard && d1 == c)
  {
    hide ValidDenom, HasLptPrefix, PoolId, Numbered, Conserved, NoStrayShares;
    var token := if d1 == s.standard then d2 else d1;
    id := PoolId(token);
    assert WellFiled(s.reg, id) && PoolSound(s, id);
    PoolIdInjective(token, s.reg.pools[id].counterpartyDenom);
  }

  lemma FeeBelowOne(s: State)
    requires Inv(s)
    ensures s.params.fee < Amm.P
  {
  }

  lemma RouteSymmetric(reg: Registry, standard: Denom, d1: Denom, d2: Denom)
    requires LptDenomFromDenoms(reg, standard, d1, d2).Ok?
    ensures LptDenomFromDenoms(reg, standard, d1, d2) == LptDenomFromDenoms(reg, standard, d2, d1)
  {
  }

  lemma SwapCoinsMoves(s: State, sender: Addr, recipient: Addr, sold: Coin, bought: Coin, e: Addr)
    requires LptDenomFromDenoms(s.reg, s.standard, sold.denom, bought.denom).Ok?
    requires e == Escrow(LptDenomFromDenoms(s.reg, s.standard, sold.denom, bought.denom).value)
    requires SwapCoins(s, sender, recipient, sold, bought).Ok?
    ensures var b := SwapCoins(s, sender, recipient, sold, bought).value;
      b.supply == s.bank.supply && b.accounts == s.bank.accounts + {e, recipient}
      && Moves(s.bank, b, sender, e, recipient, sold, bought)
  {
    hide LptDenomFromDenoms, Send;
  }

  lemma SaleQuoteKeepsProduct(s: State, sold: Coin, bought: Denom, e: Addr)
    requires FeeValid(s.params) && QuoteSale(s, sold, bought).Ok?
    requires e == Escrow(LptDenomFromDenoms(s.reg, s.standard, sold.denom, bought).value)
    ensures var x, y, out := Bal(s.bank, e, sold.denom), Bal(s.bank, e, bought), QuoteSale(s, sold, bought).value;
      0 < x && out < y && ProductKept(x, y, sold.amount, out) && SalePriced(sold.amount, out, x, y, s.params.fee)
  {
    hide Amm.InputPrice, SaleFits, LptDenomFromDenoms;
    var x, y, out := Bal(s.bank, e, sold.denom), Bal(s.bank, e, bought), QuoteSale(s, sold, bought).value;
    Amm.SaleKeepsProduct(sold.amount, x, y, s.params.fee);
    Amm.SaleYields(sold.amount, x, y, s.params.fee, out);
    Amm.SaleYields(sold.amount, x, y, s.params.fee, out + 1);
  }

  lemma PurchaseQuoteKeepsProduct(s: State, bought: Coin, sold: Denom, e: Addr)
    requires FeeValid(s.params) && QuotePurchase(s, bought, sold).Ok?
    requires e == Escrow(LptDenomFromDenoms(s.reg, s.standard, bought.denom, sold).value)
    ensures var x, y, cost := Bal(s.bank, e, sold), Bal(s.bank, e, bought.denom), QuotePurchase(s, bought, sold).value;
      && 0 < x && bought.amount < y && ProductKept(x, y, cost, bought.amount)
      && PurchasePriced(cost, bought.amount, x, y, s.params.fee)
  {
    hide Amm.OutputPrice, PurchaseFits, LptDenomFromDenoms;
    Amm.PurchaseRaisesProduct(bought.amount, Bal(s.bank, e, sold), Bal(s.bank, e, bought.denom), s.params.fee);
    Amm.PurchaseCovers(bought.amount, Bal(s.bank, e, sold), Bal(s.bank, e, bought.denom), s.params.fee);
  }

  lemma SaleTrades(s: State, sender: Addr, input: Coin, recipient: Addr, output: Coin) returns (t: Trade)
    requires Inv(s) && 0 < output.amount && Sell(s, sender, input, recipient, output).Ok?
    ensures TradeHappened(s, Sell(s, sender, input, recipient, output).value, sender, recipient, t)
    ensures t.sold == input && t.bought.denom == output.denom && output.amount <= t.bought.amount && WithinLimit(s, t)
    ensures Priced(s, t, false)
  {
    hide QuoteSale, Inv, LptDenomFromDenoms, SwapCoins, Moves, ProductKept, SalePriced, CheckSwapLimit, Allows;
    FeeBelowOne(s);
    QuotedIsRouted(s, input, output);
    var id := Routed(s, input.denom, output.denom);
    var e := Escrow(s.reg.pools[id].lptDenom);
    SaleQuoteKeepsProduct(s, input, output.denom, e);
    t := Trade(id, input, Coin(output.denom, QuoteSale(s, input, output.denom).value));
    LimitIsKept(s.params, if t.bought.denom != s.standard then t.bought else t.sold);
    SwapCoinsMoves(s, sender, recipient, t.sold, t.bought, e);
  }

  lemma PurchaseTrades(s: State, sender: Addr, input: Coin, recipient: Addr, output: Coin) returns (t: Trade)
    requires Inv(s) && 0 < output.amount && Buy(s, sender, input, recipient, output).Ok?
    ensures TradeHappened(s, Buy(s, sender, input, recipient, output).value, sender, recipient, t)
    ensures t.bought == output && t.sold.denom == input.denom && t.sold.amount <= input.amount && WithinLimit(s, t)
    ensures Priced(s, t, true)
  {
    hide QuotePurchase, Inv, LptDenomFromDenoms, SwapCoins, Moves, ProductKept, PurchasePriced, CheckSwapLimit, Allows;
    FeeBelowOne(s);
    QuotedIsRouted(s, input, output);
    var id := Routed(s, output.denom, input.denom);
    RouteSymmetric(s.reg, s.standard, output.denom, input.denom);
    var e := Escrow(s.reg.pools[id].lptDenom);
    PurchaseQuoteKeepsProduct(s, output, input.denom, e);
    t := Trade(id, Coin(input.denom, QuotePurchase(s, output, input.denom).value), output);
    LimitIsKept(s.params, if t.sold.denom != s.standard then t.sold else t.bought);
    SwapCoinsMoves(s, sender, recipient, t.sold, t.bought, e);
  }

  lemma QuotedIsRouted(s: State, input: Coin, output: Coin)
    requires FeeValid(s.params)
    ensures QuoteSale(s, input, output.denom).Ok? ==>
      LptDenomFromDenoms(s.reg, s.standard, input.denom, output.denom).Ok?
    ensures QuotePurchase(s, output, input.denom).Ok? ==>
      LptDenomFromDenoms(s.reg, s.standard, output.denom, input.denom).Ok?
  {
    hide LptDenomFromDenoms, SaleFits, PurchaseFits, Amm.InputPrice, Amm.OutputPrice;
  }

  /**
    Every successful order trades through the pool of its token, at exactly the price that the reserves and
    the fee call for, within the limits it states and the limit set for the token, without draining the pool
    or lowering the product of its reserves.
   */
  lemma SwapTrades(s: State, sender: Addr, input: Coin, recipient: Addr, output: Coin, isBuy: bool) returns (t: Trade)
    requires Inv(s) && Swap(s, sender, input, recipient, output, isBuy).Ok?
    ensures TradeHappened(s, Swap(s, sender, input, recipient, output, isBuy).value.bank, sender, recipient, t)
    ensures if isBuy then t.bought == output && t.sold.denom == input.denom && t.sold.amount <= input.amount
            else t.sold == input && t.bought.denom == output.denom && output.amount <= t.bought.amount
    ensures WithinLimit(s, t) && Priced(s, t, isBuy)
  {
    hide Sell, Buy, Inv, TradeHappened, WithinLimit, Priced;
    if isBuy {
      t := PurchaseTrades(s, sender, input, recipient, output);
    } else {
      t := SaleTrades(s, sender, input, recipient, output);
    }
  }

  lemma PoolIdInjective(c: Denom, d: Denom)
    ensures PoolId(c) == PoolId(d) ==> c == d
  {
    assert PoolId(c)[5..] == c && PoolId(d)[5..] == d;
  }

  lemma TradeAdvances(s: State, s': State, sender: Addr, recipient: Addr, t: Trade, id: string)
    requires Inv(s) && sender.User? && s' == s.(bank := s'.bank)
    requires TradeHappened(s, s'.bank, sender, recipient, t)
    requires id in s.reg.pools
    ensures Advances(ViewOf(s, id), ViewOf(s', id))
    ensures ViewOf(s', id).l == ViewOf(s, id).l
    ensures ViewOf(s, id).x * ViewOf(s, id).y <= ViewOf(s', id).x * ViewOf(s', id).y
  {
    hide ValidDenom, HasLptPrefix, PoolId, Numbered, Conserved, NoStrayShares, Amm.NoWorse;
    var v, w := ViewOf(s, id), ViewOf(s', id);
    assert WellFiled(s.reg, id) && WellFiled(s.reg, t.id);
    assert PoolSound(s, id) && PoolSound(s, t.id);
    if id == t.id && recipient != Escrow(s.reg.pools[id].lptDenom) {
      Amm.NoWorseFromProduct(v, w);
    } else {
      GrowthAdvances(v, w);
      MulLe(v.x, w.x, v.y);
      MulLe(v.y, w.y, w.x);
    }
  }

  // ---- Deposits -----------------------------------------------------------------------------------

  /** A deposit: the share denomination, its terms, and how the creation fee was split (zero if none). */
  datatype Deposited = Deposited(lpt: Denom, terms: Terms, tax: nat, burned: nat)

  function If(c: bool, n: int): int {
    if c then n else 0
  }

  ghost predicate DepositBalances(b: Ledger, b': Ledger, sender: Addr, standard: Denom, token: Denom, fee: Denom,
      k: Deposited) {
    forall a, d {:trigger Bal(b', a, d)} ::
      Bal(b', a, d) == Bal(b, a, d)
        + Moved(a, d, sender, FEE_COLLECTOR, fee, k.tax) - If(a == sender && d == fee, k.burned)
        + Moved(a, d, sender, Escrow(k.lpt), standard, k.terms.dx)
        + Moved(a, d, sender, Escrow(k.lpt), token, k.terms.dy)
        + If(a == sender && d == k.lpt, k.terms.minted)
  }

  ghost predicate DepositSupply(b: Ledger, b': Ledger, fee: Denom, k: Deposited) {
    forall d {:trigger Sup(b', d)} :: Sup(b', d) == Sup(b, d) - If(d == fee, k.burned) + If(d == k.lpt, k.terms.minted)
  }

  /** The terms are pro rata on a pool with shares, and one share per standard coin on one without. */
  ghost predicate FairTerms(v: Amm.View, t: Terms, maxStandard: nat, exactStandard: nat, maxToken: nat) {
    if v.l == 0 then t == Terms(exactStandard, maxToken, exactStandard) && exactStandard <= maxStandard
    else
      && 0 < v.x && v.x + t.dx <= maxStandard && t.dx <= exactStandard && t.dy <= maxToken
      && (t.dx == exactStandard || v.x + t.dx == maxStandard)
      && t.minted == Amm.MintedShares(t.dx, v.x, v.l) && t.dy == Amm.TokenDeposit(t.dx, v.x, v.y)
  }

  ghost predicate DepositHappened(s: State, s': State, sender: Addr, maxToken: Coin, exactStandard: nat, k: Deposited) {
    var id, token, fee := PoolId(maxToken.denom), maxToken.denom, s.params.poolCreationFee;
    && s' == s.(bank := s'.bank, reg := s'.reg)
    && id in s'.reg.pools && s'.reg.pools[id].lptDenom == k.lpt && s'.reg.pools[id].counterpartyDenom == token
    && (if id in s.reg.pools then s'.reg == s.reg && k.tax == 0 && k.burned == 0
        else s'.reg == CreatePool(s.reg, s.standard, token) && k.tax + k.burned == fee.amount
             && k.tax == Decimal.Share(fee.amount, s.params.taxRate))
    && DepositBalances(s.bank, s'.bank, sender, s.standard, token, fee.denom, k)
    && DepositSupply(s.bank, s'.bank, fee.denom, k)
    && s.bank.accounts + {Escrow(k.lpt)} <= s'.bank.accounts
    && FairTerms(PoolView(s.bank, k.lpt, s.standard, token), k.terms, s.params.maxStandard, exactStandard,
        maxToken.amount)
  }

  lemma TermsAreFair(maxStandard: nat, v: Amm.View, maxToken: nat, exactStandard: nat, minLiquidity: nat)
    requires DepositTerms(maxStandard, v, maxToken, exactStandard, minLiquidity).Ok?
    ensures var t := DepositTerms(maxStandard, v, maxToken, exactStandard, minLiquidity).value;
      FairTerms(v, t, maxStandard, exactStandard, maxToken) && minLiquidity <= t.minted
  {
    hide Amm.MintedShares, Amm.TokenDeposit;
  }

  /**
    The creation fee leaves the payer; the tax reaches the collector, the rest is destroyed, the module
    keeps nothing.
   */
  lemma CreationFeeSplit(b: Ledger, p: Params, creator: Addr)
    requires DeductPoolCreationFee(b, p, creator).Ok? && creator != COINSWAP
    ensures var b', fee, tax := DeductPoolCreationFee(b, p, creator).value, p.poolCreationFee,
        Decimal.Share(p.poolCreationFee.amount, p.taxRate);
      && tax <= fee.amount && b.accounts <= b'.accounts
      && (forall a, d {:trigger Bal(b', a, d)} :: Bal(b', a, d)
            == Bal(b, a, d) + Moved(a, d, creator, FEE_COLLECTOR, fee.denom, tax)
             - If(a == creator && d == fee.denom, fee.amount - tax))
      && (forall d {:trigger Sup(b', d)} :: Sup(b', d) == Sup(b, d) - If(d == fee.denom, fee.amount - tax))
  {
    hide Decimal.Share, Send, Burn;
  }

  lemma DepositMoves(b: Ledger, sender: Addr, lpt: Denom, standard: Denom, token: Denom, t: Terms)
    requires Deposit(b, sender, lpt, standard, token, t).Ok? && sender != COINSWAP
    ensures var b' := Deposit(b, sender, lpt, standard, token, t).value;
      && DepositBalances(b, b', sender, standard, token, standard, Deposited(lpt, t, 0, 0))
      && DepositSupply(b, b', standard, Deposited(lpt, t, 0, 0))
      && b.accounts + {Escrow(lpt)} <= b'.accounts
  {
    hide Send, Mint;
  }

  /** The pool a deposit goes into, and what reaching it cost the sender. */
  ghost predicate TargetReached(s: State, sender: Addr, token: Denom, t: Target, tax: nat, burned: nat) {
    var id, fee := PoolId(token), s.params.poolCreationFee;
    && id in t.reg.pools && t.reg.pools[id].lptDenom == t.lpt && t.reg.pools[id].counterpartyDenom == token
    && (if id in s.reg.pools then t.reg == s.reg && tax == 0 && burned == 0
        else t.reg == CreatePool(s.reg, s.standard, token) && tax + burned == fee.amount
             && tax == Decimal.Share(fee.amount, s.params.taxRate))
    && (forall a, d {:trigger Bal(t.bank, a, d)} :: Bal(t.bank, a, d)
          == Bal(s.bank, a, d) + Moved(a, d, sender, FEE_COLLECTOR, fee.denom, tax)
           - If(a == sender && d == fee.denom, burned))
    && (forall d {:trigger Sup(t.bank, d)} :: Sup(t.bank, d) == Sup(s.bank, d) - If(d == fee.denom, burned))
    && s.bank.accounts <= t.bank.accounts
    && t.view.l == Sup(s.bank, t.lpt)
    && (0 < t.view.l ==> t.view == PoolView(s.bank, t.lpt, s.standard, token))
  }

  lemma ReachTarget(s: State, sender: Addr, token: Denom) returns (tax: nat, burned: nat)
    requires Inv(s) && sender.User? && DepositTarget(s, sender, token).Ok?
    ensures TargetReached(s, sender, token, DepositTarget(s, sender, token).value, tax, burned)
  {
    hide ValidDenom, HasLptPrefix, PoolId, LptDenom, DeductPoolCreationFee, Decimal.Share, Numbered, Conserved;
    var id, fee := PoolId(token), s.params.poolCreationFee;
    if id in s.reg.pools {
      assert WellFiled(s.reg, id);
      PoolIdInjective(token, s.reg.pools[id].counterpartyDenom);
      tax, burned := 0, 0;
    } else {
      NextDenomIsFresh(s.reg);
      CreationFeeSplit(s.bank, s.params, sender);
      tax := Decimal.Share(fee.amount, s.params.taxRate);
      burned := fee.amount - tax;
    }
  }

  /** Every successful AddLiquidity is a deposit of a whitelisted token on fair terms. */
  lemma AddDeposits(s: State, sender: Addr, maxToken: Coin, exactStandard: nat, minLiquidity: nat)
    returns (k: Deposited)
    requires Inv(s) && sender.User? && Add(s, sender, maxToken, exactStandard, minLiquidity).Ok?
    ensures DepositHappened(s, Add(s, sender, maxToken, exactStandard, minLiquidity).value, sender, maxToken,
        exactStandard, k)
    ensures minLiquidity <= k.terms.minted && 0 < exactStandard && 0 < maxToken.amount
    ensures maxToken.denom != s.standard && ValidDenom(maxToken.denom) && !HasLptPrefix(maxToken.denom)
    ensures Allows(s.params.maxSwap, maxToken.denom, 1)
  {
    hide Inv, ValidDenom, HasLptPrefix, LimitOf, Allows, PoolId, CreatePool, DepositTarget, DepositTerms, Deposit,
      Decimal.Share, Amm.MintedShares, Amm.TokenDeposit;
    var token := maxToken.denom;
    LimitAllows(s.params.maxSwap, token, 1);
    var t := DepositTarget(s, sender, token).value;
    var terms := DepositTerms(s.params.maxStandard, t.view, maxToken.amount, exactStandard, minLiquidity).value;
    var tax, burned := ReachTarget(s, sender, token);
    TermsAreFair(s.params.maxStandard, t.view, maxToken.amount, exactStandard, minLiquidity);
    DepositMoves(t.bank, sender, t.lpt, s.standard, token, terms);
    k := Deposited(t.lpt, terms, tax, burned);
  }

  /** The pool receiving a deposit: one share stands for no less of either coin than before. */
  lemma DepositAdvancesTarget(v: Amm.View, t: Terms, maxStandard: nat, exactStandard: nat, maxToken: nat)
    requires FairTerms(v, t, maxStandard, exactStandard, maxToken) && 0 < exactStandard && 0 < maxToken
    ensures var w := Amm.View(v.x + t.dx, v.y + t.dy, v.l + t.minted); KeepsShares(v, w) && Backed(w)
  {
    hide Amm.MintedShares;
    if 0 < v.l { Amm.DepositKeepsShareValue(t.dx, v.x, v.y, v.l); }
  }

  lemma DepositElsewhere(s: State, s': State, sender: Addr, maxToken: Coin, exactStandard: nat, k: Deposited,
      id: string)
    requires Inv(s) && DepositHappened(s, s', sender, maxToken, exactStandard, k)
    requires id in s.reg.pools && id != PoolId(maxToken.denom)
    ensures s.reg.pools[id].lptDenom != k.lpt && id in s'.reg.pools && s'.reg.pools[id] == s.reg.pools[id]
  {
    hide ValidDenom, HasLptPrefix, PoolId, LptDenom, Numbered, Conserved, Decimal.Share, NoStrayShares, PoolSound,
        FairTerms,
      DepositBalances, DepositSupply;
    assert WellFiled(s.reg, id);
    if PoolId(maxToken.denom) in s.reg.pools {
      assert WellFiled(s.reg, PoolId(maxToken.denom));
    } else {
      NextDenomIsFresh(s.reg);
    }
  }

  lemma DepositAdvances(s: State, s': State, sender: Addr, maxToken: Coin, exactStandard: nat, k: Deposited, id: string)
    requires Inv(s) && sender.User? && 0 < exactStandard && 0 < maxToken.amount && maxToken.denom != s.standard
    requires DepositHappened(s, s', sender, maxToken, exactStandard, k)
    requires id in s.reg.pools
    ensures id in s'.reg.pools && s'.reg.pools[id] == s.reg.pools[id]
    ensures KeepsShares(ViewOf(s, id), ViewOf(s', id)) && Advances(ViewOf(s, id), ViewOf(s', id))
  {
    hide Inv, ValidDenom, HasLptPrefix, PoolId, CreatePool, Decimal.Share, Advances, KeepsShares, FairTerms;
    PoolFacts(s, id);
    var v := ViewOf(s, id);
    if id == PoolId(maxToken.denom) {
      DepositAdvancesTarget(v, k.terms, s.params.maxStandard, exactStandard, maxToken.amount);
      SharesAdvance(v, ViewOf(s', id));
    } else {
      DepositElsewhere(s, s', sender, maxToken, exactStandard, k, id);
      GrowthAdvances(v, ViewOf(s', id));
    }
  }

  lemma PoolFacts(s: State, id: string)
    requires Inv(s) && id in s.reg.pools
    ensures WellFiled(s.reg, id) && PoolSound(s, id)
    ensures s.reg.pools[id].lptDenom != s.standard && s.reg.pools[id].lptDenom != s.reg.pools[id].counterpartyDenom
  {
    hide ValidDenom, PoolId, Conserved, NoStrayShares;
    assert WellFiled(s.reg, id);
    assert Numbered(s.reg.pools[id].lptDenom, s.reg.sequence);
    assert HasLptPrefix(s.reg.pools[id].lptDenom);
  }

  // ---- Withdrawals ----------------------------------------------------------------------------------

  ghost predicate WithdrawalBalances(b: Ledger, b': Ledger, sender: Addr, e: Addr, shares: Coin, standard: Coin,
      token: Coin) {
    forall a, d {:trigger Bal(b', a, d)} ::
      Bal(b', a, d) == Bal(b, a, d) - If(a == sender && d == shares.denom, shares.amount)
        + Moved(a, d, e, sender, standard.denom, standard.amount) + Moved(a, d, e, sender, token.denom, token.amount)
  }

  ghost predicate WithdrawalHappened(s: State, s': State, sender: Addr, shares: Coin, id: string) {
    && id in s.reg.pools && s' == s.(bank := s'.bank)
    && var p, v := s.reg.pools[id], ViewOf(s, id);
      && p.lptDenom == shares.denom && 0 < shares.amount <= v.l
      && WithdrawalBalances(s.bank, s'.bank, sender, Escrow(p.lptDenom), shares,
          Coin(s.standard, Amm.Redeemed(shares.amount, v.x, v.l)),
              Coin(p.counterpartyDenom, Amm.Redeemed(shares.amount, v.y, v.l)))
      && (forall d {:trigger Sup(s'.bank, d)} ::
            Sup(s'.bank, d) == Sup(s.bank, d) - If(d == shares.denom, shares.amount))
      && s.bank.accounts <= s'.bank.accounts
  }

  lemma WithdrawMoves(b: Ledger, sender: Addr, e: Addr, shares: Coin, standard: Coin, token: Coin)
    requires Withdraw(b, sender, e, shares, standard, token).Ok? && sender != COINSWAP && e != COINSWAP
    ensures var b' := Withdraw(b, sender, e, shares, standard, token).value;
      && WithdrawalBalances(b, b', sender, e, shares, standard, token)
      && (forall d {:trigger Sup(b', d)} :: Sup(b', d) == Sup(b, d) - If(d == shares.denom, shares.amount))
      && b.accounts <= b'.accounts
  {
    hide Send, Burn;
  }

  /** Every successful RemoveLiquidity burns shares for their rounded-down part of both reserves. */
  lemma RemoveWithdraws(s: State, sender: Addr, withdraw: Coin, minToken: nat, minStandard: nat) returns (id: string)
    requires Inv(s) && sender.User? && Remove(s, sender, withdraw, minToken, minStandard).Ok?
    ensures WithdrawalHappened(s, Remove(s, sender, withdraw, minToken, minStandard).value, sender, withdraw, id)
    ensures var v := ViewOf(s, id);
      minStandard <= Amm.Redeemed(withdraw.amount, v.x, v.l) && minToken <= Amm.Redeemed(withdraw.amount, v.y, v.l)
  {
    hide ValidDenom, ParseLptDenom, PoolId, Numbered, Conserved, Withdraw, PoolSound, NoStrayShares, WithdrawalBalances;
    var pool := GetPoolByLptDenom(s.reg, withdraw.denom).value;
    id := s.reg.byLpt[withdraw.denom];
    assert WellFiled(s.reg, id);
    var v := ViewOf(s, id);
    WithdrawMoves(s.bank, sender, pool.escrow, withdraw, Coin(s.standard, Amm.Redeemed(withdraw.amount, v.x, v.l)),
      Coin(pool.counterpartyDenom, Amm.Redeemed(withdraw.amount, v.y, v.l)));
  }

  lemma WithdrawalAdvances(s: State, s': State, sender: Addr, shares: Coin, at: string, id: string)
    requires Inv(s) && sender.User? && WithdrawalHappened(s, s', sender, shares, at)
    requires id in s.reg.pools
    ensures KeepsShares(ViewOf(s, id), ViewOf(s', id)) && Advances(ViewOf(s, id), ViewOf(s', id))
    ensures id == at && shares.amount == ViewOf(s, id).l ==> ViewOf(s', id) == Amm.View(0, 0, 0)
  {
    hide Inv, ValidDenom, HasLptPrefix, PoolId, Numbered, Advances, Amm.Redeemed;
    PoolFacts(s, id);
    PoolFacts(s, at);
    var v, w := ViewOf(s, id), ViewOf(s', id);
    if id == at {
      Amm.RedeemKeepsShareValue(shares.amount, v.x, v.l);
      Amm.RedeemKeepsShareValue(shares.amount, v.y, v.l);
      SharesAdvance(v, w);
    } else {
      GrowthAdvances(v, w);
    }
  }

  // ---- The invariant ------------------------------------------------------------------------------------

  lemma SwapConserves(s: State, sender: Addr, recipient: Addr, sold: Coin, bought: Coin)
    requires Conserved(s.bank) && SwapCoins(s, sender, recipient, sold, bought).Ok?
    ensures Conserved(SwapCoins(s, sender, recipient, sold, bought).value)
  {
    hide Conserved, LptDenomFromDenoms, Send;
    var e := Escrow(LptDenomFromDenoms(s.reg, s.standard, sold.denom, bought.denom).value);
    SendConserves(s.bank, sender, e, sold);
    SendConserves(Send(s.bank, sender, e, sold).value, e, recipient, bought);
  }

  lemma CreationFeeConserves(b: Ledger, p: Params, creator: Addr)
    requires Conserved(b) && DeductPoolCreationFee(b, p, creator).Ok?
    ensures Conserved(DeductPoolCreationFee(b, p, creator).value)
  {
    hide Conserved, Send, Burn, Decimal.Share;
    var fee := p.poolCreationFee;
    var tax := Coin(fee.denom, Decimal.Share(fee.amount, p.taxRate));
    var b1 := Send(b, creator, COINSWAP, fee).value;
    var b2 := Send(b1, COINSWAP, FEE_COLLECTOR, tax).value;
    SendConserves(b, creator, COINSWAP, fee);
    SendConserves(b1, COINSWAP, FEE_COLLECTOR, tax);
    BurnConserves(b2, COINSWAP, Coin(fee.denom, fee.amount - tax.amount));
  }

  lemma DepositConserves(b: Ledger, sender: Addr, lpt: Denom, standard: Denom, token: Denom, t: Terms)
    requires Conserved(b) && Deposit(b, sender, lpt, standard, token, t).Ok?
    ensures Conserved(Deposit(b, sender, lpt, standard, token, t).value)
  {
    hide Conserved, Send, Mint;
    var b1 := Send(b, sender, Escrow(lpt), Coin(standard, t.dx)).value;
    var b2 := Send(b1, sender, Escrow(lpt), Coin(token, t.dy)).value;
    SendConserves(b, sender, Escrow(lpt), Coin(standard, t.dx));
    SendConserves(b1, sender, Escrow(lpt), Coin(token, t.dy));
    MintConserves(b2, COINSWAP, Coin(lpt, t.minted));
    SendConserves(Mint(b2, COINSWAP, Coin(lpt, t.minted)), COINSWAP, sender, Coin(lpt, t.minted));
  }

  lemma WithdrawConserves(b: Ledger, sender: Addr, e: Addr, shares: Coin, standard: Coin, token: Coin)
    requires Conserved(b) && Withdraw(b, sender, e, shares, standard, token).Ok?
    ensures Conserved(Withdraw(b, sender, e, shares, standard, token).value)
  {
    hide Conserved, Send, Burn;
    var b1 := Send(b, sender, COINSWAP, shares).value;
    var b2 := Burn(b1, COINSWAP, shares).value;
    SendConserves(b, sender, COINSWAP, shares);
    BurnConserves(b1, COINSWAP, shares);
    SendConserves(b2, e, sender, standard);
    SendConserves(Send(b2, e, sender, standard).value, e, sender, token);
  }

  /** Balances keep adding up to the supply, whatever the message. */
  lemma ApplyConserves(s: State, m: Msg)
    requires FeeValid(s.params) && Conserved(s.bank) && Apply(s, m).Ok?
    ensures Conserved(Apply(s, m).value.bank)
  {
    hide Conserved, ValidDenom, HasLptPrefix, ParseLptDenom, PoolId, LptDenom, QuoteSale, QuotePurchase, SwapCoins,
        Send,
      DeductPoolCreationFee, Deposit, DepositTerms, Withdraw, WithdrawalTerms, ParamsValid, CreatePool,
          LptDenomFromDenoms;
    match m
    case AddLiquidity(sender, maxToken, exactStandard, minLiquidity) =>
      var t := DepositTarget(s, sender, maxToken.denom).value;
      if GetPool(s.reg, PoolId(maxToken.denom)).None? { CreationFeeConserves(s.bank, s.params, sender); }
      DepositConserves(t.bank, sender, t.lpt, s.standard, maxToken.denom,
        DepositTerms(s.params.maxStandard, t.view, maxToken.amount, exactStandard, minLiquidity).value);
    case RemoveLiquidity(sender, withdraw, minToken, minStandard) =>
      var pool := GetPoolByLptDenom(s.reg, withdraw.denom).value;
      var v := Amm.View(Bal(s.bank, pool.escrow, s.standard), Bal(s.bank, pool.escrow, pool.counterpartyDenom),
          Sup(s.bank, withdraw.denom));
      var (dx, dy) := WithdrawalTerms(v, withdraw.amount, minStandard, minToken).value;
      WithdrawConserves(s.bank, sender, pool.escrow, withdraw, Coin(s.standard, dx), Coin(pool.counterpartyDenom, dy));
    case SwapOrder(sender, input, recipient, output, isBuy) =>
      if isBuy {
        SwapConserves(s, sender, recipient, Coin(input.denom, QuotePurchase(s, output, input.denom).value), output);
      } else {
        SwapConserves(s, sender, recipient, input, Coin(output.denom, QuoteSale(s, input, output.denom).value));
      }
    case UpdateParams(_) =>
    case BankSend(sender, recipient, coin) => SendConserves(s.bank, sender, recipient, coin);
  }

  /** Pool `id` across one message: the same record, shares backed, and what each kind of message keeps. */
  ghost predicate Stepped(s: State, s': State, m: Msg, id: string)
    requires id in s.reg.pools
  {
    && s'.standard == s.standard && s.bank.accounts <= s'.bank.accounts
    && id in s'.reg.pools && s'.reg.pools[id] == s.reg.pools[id]
    && var v, w := ViewOf(s, id), ViewOf(s', id);
      && Advances(v, w)
      && (!m.SwapOrder? ==> KeepsShares(v, w))
      && (!m.AddLiquidity? && !m.RemoveLiquidity? ==> w.l == v.l && v.x * v.y <= w.x * w.y)
  }

  lemma AddSteps(s: State, m: Msg, id: string)
    requires Inv(s) && Signed(m) && m.AddLiquidity? && Apply(s, m).Ok? && id in s.reg.pools
    ensures Stepped(s, Apply(s, m).value, m, id)
  {
    hide Inv, Add, Advances, KeepsShares, DepositBalances, DepositSupply, FairTerms, PoolId, CreatePool,
        Decimal.Share, ViewOf;
    FeeBelowOne(s);
    var k := AddDeposits(s, m.sender, m.maxToken, m.exactStandard, m.minLiquidity);
    DepositAdvances(s, Apply(s, m).value, m.sender, m.maxToken, m.exactStandard, k, id);
  }

  lemma RemoveSteps(s: State, m: Msg, id: string)
    requires Inv(s) && Signed(m) && m.RemoveLiquidity? && Apply(s, m).Ok? && id in s.reg.pools
    ensures Stepped(s, Apply(s, m).value, m, id)
  {
    hide Inv, Remove, Advances, KeepsShares, WithdrawalBalances, ViewOf;
    FeeBelowOne(s);
    var at := RemoveWithdraws(s, m.sender, m.withdraw, m.minToken, m.minStandard);
    WithdrawalAdvances(s, Apply(s, m).value, m.sender, m.withdraw, at, id);
  }

  lemma SwapSteps(s: State, m: Msg, id: string)
    requires Inv(s) && Signed(m) && m.SwapOrder? && Apply(s, m).Ok? && id in s.reg.pools
    ensures Stepped(s, Apply(s, m).value, m, id)
  {
    hide Inv, Buy, Sell, Advances, Moves, ViewOf;
    FeeBelowOne(s);
    var t := SwapTrades(s, m.sender, m.input, m.recipient, m.output, m.isBuy);
    TradeAdvances(s, Apply(s, m).value, m.sender, m.recipient, t, id);
  }

  lemma OtherSteps(s: State, m: Msg, id: string)
    requires Inv(s) && Signed(m) && (m.UpdateParams? || m.BankSend?) && Apply(s, m).Ok? && id in s.reg.pools
    ensures Stepped(s, Apply(s, m).value, m, id)
  {
    hide Inv, Advances, KeepsShares, ParamsValid;
    FeeBelowOne(s);
    var v, w := ViewOf(s, id), ViewOf(Apply(s, m).value, id);
    GrowthAdvances(v, w);
    MulLe(v.x, w.x, v.y);
    MulLe(v.y, w.y, w.x);
  }

  /** Each pool under each message. */
  lemma ApplySteps(s: State, m: Msg, id: string)
    requires Inv(s) && Signed(m) && Apply(s, m).Ok? && id in s.reg.pools
    ensures Stepped(s, Apply(s, m).value, m, id)
  {
    hide Inv, Apply, Stepped;
    match m
    case AddLiquidity(_, _, _, _) => AddSteps(s, m, id);
    case RemoveLiquidity(_, _, _, _) => RemoveSteps(s, m, id);
    case SwapOrder(_, _, _, _, _) => SwapSteps(s, m, id);
    case UpdateParams(_) => OtherSteps(s, m, id);
    case BankSend(_, _, _) => OtherSteps(s, m, id);
  }

  /** The registry and the share supply after a message: still in agreement, and every new pool sound. */
  ghost predicate Filing(s: State, s': State) {
    && s'.standard == s.standard && ParamsValid(s'.params) && Agree(s'.reg) && NoStrayShares(s')
    && forall id :: id in s'.reg.pools && id !in s.reg.pools ==> PoolSound(s', id)
  }

  lemma NewPoolFiles(s: State, s': State, sender: Addr, maxToken: Coin, exactStandard: nat, k: Deposited)
    requires Inv(s) && sender.User? && DepositHappened(s, s', sender, maxToken, exactStandard, k)
    requires PoolId(maxToken.denom) !in s.reg.pools && 0 < exactStandard && 0 < maxToken.amount
    requires maxToken.denom != s.standard && ValidDenom(maxToken.denom) && !HasLptPrefix(maxToken.denom)
    requires s.reg.sequence + 1 < UINT64
    ensures Filing(s, s')
  {
    hide ValidDenom, HasLptPrefix, PoolId, LptDenom, Numbered, Conserved, DepositBalances, Decimal.Share, FairTerms,
      PoolSound, Agree, ParamsValid;
    CreatePoolKeepsAgreement(s.reg, s.standard, maxToken.denom);
    NewPoolIsSound(s, s', sender, maxToken, exactStandard, k);
  }

  lemma OldPoolFiles(s: State, s': State, sender: Addr, maxToken: Coin, exactStandard: nat, k: Deposited)
    requires Inv(s) && DepositHappened(s, s', sender, maxToken, exactStandard, k)
    requires PoolId(maxToken.denom) in s.reg.pools
    ensures Filing(s, s')
  {
    hide ValidDenom, HasLptPrefix, PoolId, Numbered, Conserved, DepositBalances, Decimal.Share, FairTerms, PoolSound,
      ParamsValid;
    assert WellFiled(s.reg, PoolId(maxToken.denom));
  }

  lemma AddFiles(s: State, m: Msg)
    requires Inv(s) && Signed(m) && m.AddLiquidity? && Apply(s, m).Ok? && s.reg.sequence + 1 < UINT64
    ensures Filing(s, Apply(s, m).value)
  {
    hide Inv, Add, ValidDenom, HasLptPrefix, DepositHappened, Filing;
    FeeBelowOne(s);
    var s' := Apply(s, m).value;
    var k := AddDeposits(s, m.sender, m.maxToken, m.exactStandard, m.minLiquidity);
    if PoolId(m.maxToken.denom) in s.reg.pools {
      OldPoolFiles(s, s', m.sender, m.maxToken, m.exactStandard, k);
    } else {
      NewPoolFiles(s, s', m.sender, m.maxToken, m.exactStandard, k);
    }
  }

  /** A message that creates no shares leaves the filing as it is. */
  lemma SameFiles(s: State, s': State)
    requires Inv(s) && s'.reg == s.reg && s'.standard == s.standard && ParamsValid(s'.params)
    requires forall d {:trigger Sup(s'.bank, d)} :: Sup(s'.bank, d) <= Sup(s.bank, d)
    ensures Filing(s, s')
  {
    hide ValidDenom, HasLptPrefix, Conserved, Agree, PoolSound, ParamsValid;
  }

  lemma RemoveFiles(s: State, m: Msg)
    requires Inv(s) && Signed(m) && m.RemoveLiquidity? && Apply(s, m).Ok?
    ensures Filing(s, Apply(s, m).value)
  {
    hide Inv, Remove, ParamsValid, WithdrawalBalances, Filing;
    FeeBelowOne(s);
    var at := RemoveWithdraws(s, m.sender, m.withdraw, m.minToken, m.minStandard);
    ParamsStayValid(s);
    SameFiles(s, Apply(s, m).value);
  }

  lemma SwapFiles(s: State, m: Msg)
    requires Inv(s) && Signed(m) && m.SwapOrder? && Apply(s, m).Ok?
    ensures Filing(s, Apply(s, m).value)
  {
    hide Inv, Buy, Sell, ParamsValid, Moves, Filing;
    FeeBelowOne(s);
    var t := SwapTrades(s, m.sender, m.input, m.recipient, m.output, m.isBuy);
    ParamsStayValid(s);
    SameFiles(s, Apply(s, m).value);
  }

  lemma OtherFiles(s: State, m: Msg)
    requires Inv(s) && (m.UpdateParams? || m.BankSend?) && Apply(s, m).Ok?
    ensures Filing(s, Apply(s, m).value)
  {
    hide Inv, ParamsValid, Send, Filing;
    FeeBelowOne(s);
    ParamsStayValid(s);
    SameFiles(s, Apply(s, m).value);
  }

  lemma ParamsStayValid(s: State)
    requires Inv(s)
    ensures ParamsValid(s.params)
  {
  }

  lemma ApplyFiles(s: State, m: Msg)
    requires Inv(s) && Signed(m) && Apply(s, m).Ok? && s.reg.sequence + 1 < UINT64
    ensures Filing(s, Apply(s, m).value)
  {
    hide Inv, Apply, Filing;
    match m
    case AddLiquidity(_, _, _, _) => AddFiles(s, m);
    case RemoveLiquidity(_, _, _, _) => RemoveFiles(s, m);
    case SwapOrder(_, _, _, _, _) => SwapFiles(s, m);
    case UpdateParams(_) => OtherFiles(s, m);
    case BankSend(_, _, _) => OtherFiles(s, m);
  }

  lemma NewPoolIsSound(s: State, s': State, sender: Addr, maxToken: Coin, exactStandard: nat, k: Deposited)
    requires Inv(s) && sender.User? && DepositHappened(s, s', sender, maxToken, exactStandard, k)
    requires PoolId(maxToken.denom) !in s.reg.pools && 0 < exactStandard && 0 < maxToken.amount
    requires maxToken.denom != s.standard && ValidDenom(maxToken.denom) && !HasLptPrefix(maxToken.denom)
    ensures PoolSound(s', PoolId(maxToken.denom))
  {
    hide ValidDenom, PoolId, Conserved, Decimal.Share, Agree, Numbered;
    assert HasLptPrefix(k.lpt);
  }

  /** Every signed message keeps the invariant, while pool numbers fit in 64 bits. */
  lemma ApplyKeepsInv(s: State, m: Msg)
    requires Inv(s) && Signed(m) && Apply(s, m).Ok? && s.reg.sequence + 1 < UINT64
    ensures Inv(Apply(s, m).value)
  {
    hide Apply, Conserved, ValidDenom, HasLptPrefix, Agree, ParamsValid, NoStrayShares, Advances, KeepsShares;
    FeeBelowOne(s);
    var s' := Apply(s, m).value;
    ApplyConserves(s, m);
    ApplyFiles(s, m);
    forall id | id in s'.reg.pools ensures PoolSound(s', id) {
      if id in s.reg.pools {
        ApplySteps(s, m, id);
        BackedCarries(ViewOf(s, id), ViewOf(s', id));
      }
    }
  }

  lemma BackedCarries(v: Amm.View, w: Amm.View)
    requires Advances(v, w) && Backed(v)
    ensures Backed(w)
  {
  }
}
