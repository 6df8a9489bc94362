/** When coinswap messages succeed: nothing but the sender's own means and limits can stand in the way. */
module CoinswapProgress {
  import opened Arithmetic
  import opened Basics
  import opened Text
  import opened Bank
  import opened PoolRegistry
  import opened Coinswap
  import opened CoinswapSteps
  import Amm
  import Decimal

  // ---- Pool denominations are valid denominations -----------------------------------------------------

  function Pow10(k: nat): nat {
    if k == 0 then 1 else 10 * Pow10(k - 1)
  }

  lemma {:induction false} DigitCount(n: nat, k: nat)
    requires n < Pow10(k) && 0 < k
    ensures |Digits(n)| <= k
  {
    if 10 <= n { DigitCount(n / 10, k - 1); }
  }

  lemma LptDenomIsValid(k: nat)
    requires k < UINT64
    ensures ValidDenom(LptDenom(k))
  {
    assert Pow10(10) == 10_000_000_000;
    assert Pow10(20) == 100_000_000_000_000_000_000;
    DigitCount(k, 20);
    NumeralParses(k);
    var d, n := LptDenom(k), Numeral(k);
    forall i | 1 <= i < |d| ensures IsDenomChar(d[i]) {
      if 4 <= i { assert d[i] == n[i - 4]; }
    }
  }

  // ---- Withdrawals ----------------------------------------------------------------------------------------

  lemma ShareDenom(s: State, lpt: Denom)
    requires Inv(s) && lpt in s.reg.byLpt
    ensures s.reg.byLpt[lpt] in s.reg.pools && s.reg.pools[s.reg.byLpt[lpt]].lptDenom == lpt
    ensures ValidDenom(lpt) && ParseLptDenom(lpt).Some?
  {
    hide ValidDenom, ParseLptDenom, LptDenom, PoolId, Conserved, NoStrayShares, PoolSound;
    var id := s.reg.byLpt[lpt];
    assert WellFiled(s.reg, id);
    LptDenomIsValid(ParseLptDenom(lpt).value);
  }

  /** Burning and paying out fail only if the sender does not hold the shares. */
  lemma PayoutNeverFails(s: State, id: string, sender: Addr, w: nat)
    requires Inv(s) && sender.User? && id in s.reg.pools && 0 < w <= ViewOf(s, id).l
    ensures var p, v := s.reg.pools[id], ViewOf(s, id);
      var dx, dy := Coin(s.standard, Amm.Redeemed(w, v.x, v.l)), Coin(p.counterpartyDenom, Amm.Redeemed(w, v.y, v.l));
      var paid := Withdraw(s.bank, sender, Escrow(p.lptDenom), Coin(p.lptDenom, w), dx, dy);
      paid.Ok? <==> w <= Bal(s.bank, sender, p.lptDenom)
  {
    hide Inv, Send, Burn, Conserved, ValidDenom, HasLptPrefix, PoolId, Numbered, Amm.Redeemed;
    PoolFacts(s, id);
    BankConserved(s);
    var p, v := s.reg.pools[id], ViewOf(s, id);
    var shares := Coin(p.lptDenom, w);
    Amm.RedeemKeepsShareValue(w, v.x, v.l);
    Amm.RedeemKeepsShareValue(w, v.y, v.l);
    var sent := Send(s.bank, sender, COINSWAP, shares);
    if sent.Ok? {
      SendConserves(s.bank, sender, COINSWAP, shares);
      BurnNeedsOnlyBalance(sent.value, COINSWAP, shares);
    }
  }

  lemma BankConserved(s: State)
    requires Inv(s)
    ensures Conserved(s.bank)
  {
  }

  /** The shares are the sender's, of a pool, and worth what the sender asks for. */
  ghost predicate WithdrawalSuits(s: State, sender: Addr, withdraw: Coin, minToken: nat, minStandard: nat) {
    && withdraw.denom in s.reg.byLpt && s.reg.byLpt[withdraw.denom] in s.reg.pools
    && 0 < withdraw.amount <= Bal(s.bank, sender, withdraw.denom)
    && var w, v := withdraw.amount, ViewOf(s, s.reg.byLpt[withdraw.denom]);
      && w * v.x < INT_LIMIT && w * v.y < INT_LIMIT
      && minStandard * v.l <= w * v.x && minToken * v.l <= w * v.y
  }

  /**
    A withdrawal succeeds exactly when the denomination is that of a pool, the sender holds the shares, the
    amounts stay within 256 bits and both parts of the reserves are at least what the sender asks for.
   */
  lemma WithdrawalSucceedsIff(s: State, sender: Addr, withdraw: Coin, minToken: nat, minStandard: nat)
    requires Inv(s) && sender.User?
    ensures Remove(s, sender, withdraw, minToken, minStandard).Ok? <==>
      WithdrawalSuits(s, sender, withdraw, minToken, minStandard)
  {
    hide Inv, ValidDenom, ParseLptDenom, PoolId, Numbered, Withdraw, Conserved, Amm.Redeemed, HasLptPrefix;
    var lpt, w := withdraw.denom, withdraw.amount;
    if lpt in s.reg.byLpt && 0 < w {
      ShareDenom(s, lpt);
      var id := s.reg.byLpt[lpt];
      PoolFacts(s, id);
      BankConserved(s);
      BurnNeedsOnlyBalance(s.bank, sender, Coin(lpt, w));
      var v := ViewOf(s, id);
      if w <= v.l {
        PayoutNeverFails(s, id, sender, w);
        RedeemedAtLeast(w, v.x, v.l, minStandard);
        RedeemedAtLeast(w, v.y, v.l, minToken);
      }
    }
  }

  /** A redemption reaches a minimum exactly when it does so without rounding. */
  lemma RedeemedAtLeast(w: nat, reserve: nat, l: nat, least: nat)
    requires 0 < l && w <= l
    ensures least <= Amm.Redeemed(w, reserve, l) <==> least * l <= w * reserve
    ensures Amm.Redeemed(w, reserve, l) <= reserve
  {
    Amm.RedeemKeepsShareValue(w, reserve, l);
    DivAtLeast(w * reserve, l, least);
  }

  // ---- Swaps ------------------------------------------------------------------------------------------------

  /** What both coins of an order must be, whatever the order. */
  ghost predicate Tradable(s: State, input: Coin, output: Coin) {
    && 0 < input.amount && 0 < output.amount && ValidDenom(input.denom) && ValidDenom(output.denom)
    && !HasLptPrefix(input.denom) && !HasLptPrefix(output.denom) && input.denom != output.denom
    && (input.denom == s.standard || output.denom == s.standard)
  }

  /** The reserves an order meets: of the coin it pays in and of the coin it takes out. */
  ghost predicate Meets(s: State, input: Denom, output: Denom, x: nat, y: nat) {
    var id := PoolId(if input == s.standard then output else input);
    && id in s.reg.pools && 0 < x && 0 < y
    && var e := Escrow(s.reg.pools[id].lptDenom); x == Bal(s.bank, e, input) && y == Bal(s.bank, e, output)
  }

  /** The sale of `input` for `out` of the other coin is within 256 bits, the sender's minimum, means and the limit. */
  ghost predicate CanSell(s: State, sender: Addr, input: Coin, output: Coin, x: nat, y: nat, out: nat) {
    var paid := input.amount * (Amm.P - s.params.fee);
    && paid * y < INT_LIMIT && x * Amm.P + paid < INT_LIMIT
    && SalePriced(input.amount, out, x, y, s.params.fee) && output.amount <= out
    && input.amount <= Bal(s.bank, sender, input.denom)
    && (if output.denom != s.standard then Allows(s.params.maxSwap, output.denom, out)
        else Allows(s.params.maxSwap, input.denom, input.amount))
  }

  /** The purchase of `output` for `cost` is within 256 bits, the sender's maximum, means and the limit. */
  ghost predicate CanBuy(s: State, sender: Addr, input: Coin, output: Coin, x: nat, y: nat, cost: nat) {
    && output.amount < y && x * output.amount * Amm.P < INT_LIMIT
    && (y - output.amount) * (Amm.P - s.params.fee) < INT_LIMIT
    && PurchasePriced(cost, output.amount, x, y, s.params.fee) && cost <= input.amount
    && cost <= Bal(s.bank, sender, input.denom)
    && (if input.denom != s.standard then Allows(s.params.maxSwap, input.denom, cost)
        else Allows(s.params.maxSwap, output.denom, output.amount))
  }

  ghost predicate CanTrade(s: State, sender: Addr, input: Coin, output: Coin, isBuy: bool, x: nat, y: nat, n: nat) {
    if isBuy then CanBuy(s, sender, input, output, x, y, n) else CanSell(s, sender, input, output, x, y, n)
  }

  /** The pool exists with both reserves, and the order can be traded at the price they call for. */
  ghost predicate OrderSuits(s: State, sender: Addr, input: Coin, output: Coin, isBuy: bool) {
    exists x, y, n ::
      Meets(s, input.denom, output.denom, x, y) && CanTrade(s, sender, input, output, isBuy, x, y, n)
  }

  /** There is one sale price. */
  lemma SalePriceIs(a: nat, x: nat, y: nat, fee: nat, out: nat)
    requires 0 < x && fee < Amm.P
    ensures SalePriced(a, out, x, y, fee) <==> out == Amm.InputPrice(a, x, y, fee)
  {
    hide Amm.InputPrice;
    Amm.SaleYields(a, x, y, fee, out);
    Amm.SaleYields(a, x, y, fee, out + 1);
  }

  /** There is one purchase price. */
  lemma PurchasePriceIs(q: nat, x: nat, y: nat, fee: nat, cost: nat)
    requires q < y && fee < Amm.P
    ensures PurchasePriced(cost, q, x, y, fee) <==> cost == Amm.OutputPrice(q, x, y, fee)
  {
    Amm.PurchaseCovers(q, x, y, fee);
    var price, unit := Amm.OutputPrice(q, x, y, fee), (y - q) * (Amm.P - fee);
    hide Amm.OutputPrice;
    if PurchasePriced(cost, q, x, y, fee) {
      if cost < price { MulLe(cost, price - 1, unit); }
      if price < cost { MulLe(price, cost - 1, unit); }
    }
  }

  lemma RouteIff(s: State, input: Denom, output: Denom)
    requires Inv(s) && input != output && (input == s.standard || output == s.standard)
    ensures var id, route := PoolId(if input == s.standard then output else input),
        LptDenomFromDenoms(s.reg, s.standard, input, output);
      && (route.Ok? <==> id in s.reg.pools)
      && (route.Ok? ==> route.value == s.reg.pools[id].lptDenom && Escrow(route.value) in s.bank.accounts)
      && route == LptDenomFromDenoms(s.reg, s.standard, output, input)
  {
    hide Inv, PoolId;
    var id := PoolId(if input == s.standard then output else input);
    if id in s.reg.pools { PoolFacts(s, id); }
  }

  /** A sale meets its pool exactly as described, and fails only for the reasons described. */
  lemma SaleSucceedsIff(s: State, sender: Addr, input: Coin, recipient: Addr, output: Coin)
    requires Inv(s) && sender.User? && input.denom != output.denom
    requires input.denom == s.standard || output.denom == s.standard
    ensures FeeValid(s.params)
    ensures Sell(s, sender, input, recipient, output).Ok? <==>
      OrderSuits(s, sender, input, output, false)
  {
    hide Inv, Amm.InputPrice, LptDenomFromDenoms, Send, PoolId, SalePriced, CheckSwapLimit, Allows;
    FeeBelowOne(s);
    RouteIff(s, input.denom, output.denom);
    var id := PoolId(if input.denom == s.standard then output.denom else input.denom);
    if id in s.reg.pools {
      var e := Escrow(s.reg.pools[id].lptDenom);
      var x, y := Bal(s.bank, e, input.denom), Bal(s.bank, e, output.denom);
      if 0 < x && 0 < y {
        var out := Amm.InputPrice(input.amount, x, y, s.params.fee);
        Amm.SaleLeavesReserve(input.amount, x, y, s.params.fee);
        forall n: nat ensures SalePriced(input.amount, n, x, y, s.params.fee) <==> n == out {
          SalePriceIs(input.amount, x, y, s.params.fee, n);
        }
        SaleFitsIff(input.amount, x, y, s.params.fee);
        LimitKeptIff(s, if output.denom != s.standard then Coin(output.denom, out) else input);
        assert Meets(s, input.denom, output.denom, x, y);
        assert Sell(s, sender, input, recipient, output).Ok? <==> CanTrade(s, sender, input, output, false, x, y, out);
      }
    }
  }

  lemma SaleFitsIff(a: nat, x: nat, y: nat, fee: nat)
    requires fee < Amm.P && 0 < y
    ensures var paid := a * (Amm.P - fee);
      SaleFits(a, x, y, fee) <==> paid * y < INT_LIMIT && x * Amm.P + paid < INT_LIMIT
  {
    var paid := a * (Amm.P - fee);
    MulNat(a, Amm.P - fee);
    MulLe(1, y, paid);
  }

  lemma PurchaseFitsIff(q: nat, x: nat, y: nat, fee: nat)
    requires q < y && fee < Amm.P
    ensures PurchaseFits(q, x, y, fee) <==> x * q * Amm.P < INT_LIMIT && (y - q) * (Amm.P - fee) < INT_LIMIT
  {
    MulNat(x, q);
  }

  lemma LimitKeptIff(s: State, quote: Coin)
    requires Inv(s)
    ensures CheckSwapLimit(s.params, quote).Ok? <==> Allows(s.params.maxSwap, quote.denom, quote.amount)
  {
    hide CheckSwapLimit, Allows, CoinsValid;
    LimitIsKept(s.params, quote);
  }

  /** A purchase meets its pool exactly as described, and fails only for the reasons described. */
  lemma PurchaseSucceedsIff(s: State, sender: Addr, input: Coin, recipient: Addr, output: Coin)
    requires Inv(s) && sender.User? && input.denom != output.denom
    requires input.denom == s.standard || output.denom == s.standard
    ensures FeeValid(s.params)
    ensures Buy(s, sender, input, recipient, output).Ok? <==>
      OrderSuits(s, sender, input, output, true)
  {
    hide Inv, Amm.OutputPrice, LptDenomFromDenoms, Send, PoolId, PurchasePriced, PurchaseFits, CheckSwapLimit, Allows;
    FeeBelowOne(s);
    RouteIff(s, input.denom, output.denom);
    var id := PoolId(if input.denom == s.standard then output.denom else input.denom);
    if id in s.reg.pools {
      var e, q := Escrow(s.reg.pools[id].lptDenom), output.amount;
      var x, y := Bal(s.bank, e, input.denom), Bal(s.bank, e, output.denom);
      if 0 < x && q < y {
        var cost := Amm.OutputPrice(q, x, y, s.params.fee);
        forall n: nat ensures PurchasePriced(n, q, x, y, s.params.fee) <==> n == cost {
          PurchasePriceIs(q, x, y, s.params.fee, n);
        }
        PurchaseFitsIff(q, x, y, s.params.fee);
        LimitKeptIff(s, if input.denom != s.standard then Coin(input.denom, cost) else output);
        assert Meets(s, input.denom, output.denom, x, y);
        assert Buy(s, sender, input, recipient, output).Ok? <==> CanTrade(s, sender, input, output, true, x, y, cost);
      }
    }
  }

  /**
    An order succeeds exactly when its coins can be traded, the recipient may receive, its pool exists with
    both reserves, and the one price there is suits the sender's limit, the sender's means and the whitelist.
   */
  lemma SwapSucceedsIff(s: State, sender: Addr, input: Coin, recipient: Addr, output: Coin, isBuy: bool)
    requires Inv(s) && sender.User?
    ensures FeeValid(s.params)
    ensures Swap(s, sender, input, recipient, output, isBuy).Ok? <==>
      Tradable(s, input, output) && !recipient.Module? && OrderSuits(s, sender, input, output, isBuy)
  {
    hide Inv, Sell, Buy, ValidDenom, HasLptPrefix, OrderSuits;
    FeeBelowOne(s);
    if Tradable(s, input, output) {
      if isBuy {
        PurchaseSucceedsIff(s, sender, input, recipient, output);
      } else {
        SaleSucceedsIff(s, sender, input, recipient, output);
      }
    }
  }

  // ---- Deposits -----------------------------------------------------------------------------------------------

  /** What any deposit must be: positive amounts, the token valid, whitelisted, no share and not the standard coin. */
  ghost predicate Depositable(s: State, maxToken: Coin, exactStandard: nat) {
    && 0 < maxToken.amount && 0 < exactStandard
    && ValidDenom(maxToken.denom) && !HasLptPrefix(maxToken.denom) && maxToken.denom != s.standard
    && Allows(s.params.maxSwap, maxToken.denom, 1)
  }

  lemma DepositableIff(s: State, maxToken: Coin, exactStandard: nat)
    requires Inv(s)
    ensures CheckDeposit(s, maxToken, exactStandard).Ok? <==> Depositable(s, maxToken, exactStandard)
  {
    ParamsStayValid(s);
    hide Inv, LimitOf, Allows, ValidDenom, HasLptPrefix, CoinsValid;
    LimitAllows(s.params.maxSwap, maxToken.denom, 1);
  }

  /** What a deposit into a pool with shares takes of the standard coin: all of it, or what the cap leaves. */
  function Taken(exactStandard: nat, room: nat): nat {
    if exactStandard < room then exactStandard else room
  }

  /**
    The terms of a deposit suit the sender and the sender can pay them. In a pool without shares they are
    the amounts offered. In a pool with shares they are pro rata: as many shares as the standard coin is
    worth, rounded down, at least the minimum; and more than the token is worth, rounded up, of the token.
   */
  ghost predicate TermsSuit(s: State, sender: Addr, v: Amm.View, maxToken: Coin, exactStandard: nat,
      minLiquidity: nat) {
    var standard, token := Bal(s.bank, sender, s.standard), Bal(s.bank, sender, maxToken.denom);
    if v.l == 0 then
      minLiquidity <= exactStandard <= s.params.maxStandard && exactStandard <= standard && maxToken.amount <= token
    else
      && v.x < s.params.maxStandard
      && var dx := Taken(exactStandard, s.params.maxStandard - v.x);
        && v.l * dx < INT_LIMIT && v.y * dx < INT_LIMIT
        && minLiquidity * v.x <= v.l * dx
        && v.y * dx < maxToken.amount * v.x && v.y * dx < token * v.x && dx <= standard
  }

  lemma PricesOfDeposit(dx: nat, v: Amm.View, n: nat)
    requires 0 < v.x
    ensures n <= Amm.MintedShares(dx, v.x, v.l) <==> n * v.x <= v.l * dx
    ensures Amm.TokenDeposit(dx, v.x, v.y) <= n <==> v.y * dx < n * v.x
  {
    MulNat(v.l, dx);
    MulNat(v.y, dx);
    DivAtLeast(v.l * dx, v.x, n);
    DivAtLeast(v.y * dx, v.x, n);
  }

  lemma TermsSuitIff(s: State, sender: Addr, v: Amm.View, maxToken: Coin, exactStandard: nat, minLiquidity: nat)
    requires 0 < v.l ==> 0 < v.x
    ensures var terms := DepositTerms(s.params.maxStandard, v, maxToken.amount, exactStandard, minLiquidity);
      TermsSuit(s, sender, v, maxToken, exactStandard, minLiquidity) <==>
        && terms.Ok? && terms.value.dx <= Bal(s.bank, sender, s.standard)
        && terms.value.dy <= Bal(s.bank, sender, maxToken.denom)
  {
    hide Amm.MintedShares, Amm.TokenDeposit, Bal;
    if 0 < v.l && v.x < s.params.maxStandard {
      var dx := Taken(exactStandard, s.params.maxStandard - v.x);
      PricesOfDeposit(dx, v, minLiquidity);
      PricesOfDeposit(dx, v, maxToken.amount);
      PricesOfDeposit(dx, v, Bal(s.bank, sender, maxToken.denom));
    }
  }

  /** A deposit into an existing pool succeeds exactly when it may be made and its terms suit. */
  lemma DepositSucceedsIff(s: State, sender: Addr, maxToken: Coin, exactStandard: nat, minLiquidity: nat)
    requires Inv(s) && sender.User? && PoolId(maxToken.denom) in s.reg.pools
    ensures Add(s, sender, maxToken, exactStandard, minLiquidity).Ok? <==>
      && Depositable(s, maxToken, exactStandard)
      && TermsSuit(s, sender, ViewOf(s, PoolId(maxToken.denom)), maxToken, exactStandard, minLiquidity)
  {
    hide Inv, CheckDeposit, Depositable, TermsSuit, DepositTerms, Deposit, ValidDenom, HasLptPrefix, PoolId, Numbered;
    var id := PoolId(maxToken.denom);
    PoolFacts(s, id);
    PoolIdInjective(maxToken.denom, s.reg.pools[id].counterpartyDenom);
    DepositableIff(s, maxToken, exactStandard);
    var v := ViewOf(s, id);
    TermsSuitIff(s, sender, v, maxToken, exactStandard, minLiquidity);
    var terms := DepositTerms(s.params.maxStandard, v, maxToken.amount, exactStandard, minLiquidity);
    if terms.Ok? {
      DepositPaysIff(s.bank, sender, s.reg.pools[id].lptDenom, s.standard, maxToken.denom, terms.value);
    }
  }

  /** The creation fee is taken exactly when the creator holds it. */
  lemma CreationFeeSucceedsIff(b: Ledger, p: Params, creator: Addr)
    requires Conserved(b) && p.taxRate < Amm.P && creator.User?
    ensures DeductPoolCreationFee(b, p, creator).Ok? <==>
      p.poolCreationFee.amount <= Bal(b, creator, p.poolCreationFee.denom)
  {
    hide Conserved, Send, Burn, Decimal.Share;
    var fee := p.poolCreationFee;
    Decimal.ShareBounds(fee.amount, p.taxRate);
    var tax := Coin(fee.denom, Decimal.Share(fee.amount, p.taxRate));
    var collected := Send(b, creator, COINSWAP, fee);
    if collected.Ok? {
      SendConserves(b, creator, COINSWAP, fee);
      var taxed := Send(collected.value, COINSWAP, FEE_COLLECTOR, tax);
      assert taxed.Ok?;
      SendConserves(collected.value, COINSWAP, FEE_COLLECTOR, tax);
      BurnNeedsOnlyBalance(taxed.value, COINSWAP, Coin(fee.denom, fee.amount - tax.amount));
    }
  }

  /** A deposit moves both coins exactly when the sender holds both. */
  lemma DepositPaysIff(b: Ledger, sender: Addr, lpt: Denom, standard: Denom, token: Denom, t: Terms)
    requires sender.User? && standard != token
    ensures Deposit(b, sender, lpt, standard, token, t).Ok? <==>
      t.dx <= Bal(b, sender, standard) && t.dy <= Bal(b, sender, token)
  {
    hide Send, Mint;
  }

  /** A first deposit is within the cap and the minimum, and the sender can pay it together with the creation fee. */
  ghost predicate CreationSuits(s: State, sender: Addr, maxToken: Coin, exactStandard: nat, minLiquidity: nat) {
    var fee := s.params.poolCreationFee;
    && minLiquidity <= exactStandard <= s.params.maxStandard
    && fee.amount <= Bal(s.bank, sender, fee.denom)
    && exactStandard + If(fee.denom == s.standard, fee.amount) <= Bal(s.bank, sender, s.standard)
    && maxToken.amount + If(fee.denom == maxToken.denom, fee.amount) <= Bal(s.bank, sender, maxToken.denom)
  }

  /**
    The first deposit into a pool succeeds exactly when it may be made, its amount is within the cap and the
    sender's own minimum, and the sender can pay the creation fee, the standard coin and the token, also
    where the fee is charged in one of the two.
   */
  lemma FirstDepositSucceedsIff(s: State, sender: Addr, maxToken: Coin, exactStandard: nat, minLiquidity: nat)
    requires Inv(s) && sender.User? && PoolId(maxToken.denom) !in s.reg.pools
    ensures Add(s, sender, maxToken, exactStandard, minLiquidity).Ok? <==>
      Depositable(s, maxToken, exactStandard) && CreationSuits(s, sender, maxToken, exactStandard, minLiquidity)
  {
    hide Inv, Conserved, CheckDeposit, Depositable, PoolId, LptDenom, CreatePool, DeductPoolCreationFee, Deposit,
      Decimal.Share;
    RatesBelowOne(s);
    DepositableIff(s, maxToken, exactStandard);
    TokenIsNotStandard(s, maxToken, exactStandard);
    CreationFeeSucceedsIff(s.bank, s.params, sender);
    var charged := DeductPoolCreationFee(s.bank, s.params, sender);
    if charged.Ok? && maxToken.denom != s.standard {
      CreationFeeSplit(s.bank, s.params, sender);
      DepositPaysIff(charged.value, sender, LptDenom(s.reg.sequence), s.standard, maxToken.denom,
        Terms(exactStandard, maxToken.amount, exactStandard));
    }
  }

  lemma TokenIsNotStandard(s: State, maxToken: Coin, exactStandard: nat)
    ensures Depositable(s, maxToken, exactStandard) ==> maxToken.denom != s.standard
  {
    hide ValidDenom, HasLptPrefix, Allows;
  }

  lemma RatesBelowOne(s: State)
    requires Inv(s)
    ensures s.params.taxRate < Amm.P && Conserved(s.bank)
  {
  }

  // ---- All messages ---------------------------------------------------------------------------------------------

  /** Fee and tax rate in [0, 1), a positive cap, and positive limits of valid denominations in alphabetical order. */
  ghost predicate ParamsSuit(p: Params) {
    && p.fee < Amm.P && p.taxRate < Amm.P && 0 < p.maxStandard
    && (forall i :: 0 <= i < |p.maxSwap| ==> 0 < p.maxSwap[i].amount && ValidDenom(p.maxSwap[i].denom))
    && (forall i, j :: 0 <= i < j < |p.maxSwap| ==> Before(p.maxSwap[i].denom, p.maxSwap[j].denom))
  }

  /** Everything a message needs to succeed, in terms of the state it meets. */
  ghost predicate Suits(s: State, m: Msg) {
    match m
    case AddLiquidity(sender, maxToken, exactStandard, minLiquidity) =>
      && Depositable(s, maxToken, exactStandard)
      && (if PoolId(maxToken.denom) in s.reg.pools
          then TermsSuit(s, sender, ViewOf(s, PoolId(maxToken.denom)), maxToken, exactStandard, minLiquidity)
          else CreationSuits(s, sender, maxToken, exactStandard, minLiquidity))
    case RemoveLiquidity(sender, withdraw, minToken, minStandard) =>
      WithdrawalSuits(s, sender, withdraw, minToken, minStandard)
    case SwapOrder(sender, input, recipient, output, isBuy) =>
      Tradable(s, input, output) && !recipient.Module? && OrderSuits(s, sender, input, output, isBuy)
    case UpdateParams(params) => ParamsSuit(params)
    case BankSend(sender, recipient, coin) => !recipient.Module? && coin.amount <= Bal(s.bank, sender, coin.denom)
  }

  lemma ParamsSuitIff(s: State, p: Params)
    requires FeeValid(s.params)
    ensures Apply(s, UpdateParams(p)).Ok? <==> ParamsSuit(p)
  {
    hide ValidDenom, Before;
  }

  lemma TransferSucceedsIff(s: State, sender: Addr, recipient: Addr, coin: Coin)
    requires FeeValid(s.params)
    ensures Apply(s, BankSend(sender, recipient, coin)).Ok? <==>
      !recipient.Module? && coin.amount <= Bal(s.bank, sender, coin.denom)
  {
    hide Send;
  }

  /** Every signed message succeeds exactly when it suits the state. */
  lemma ApplySucceedsIff(s: State, m: Msg)
    requires Inv(s) && Signed(m)
    ensures FeeValid(s.params) && (Apply(s, m).Ok? <==> Suits(s, m))
  {
    hide Inv, Depositable, TermsSuit, CreationSuits, WithdrawalSuits, Tradable, OrderSuits, ParamsSuit, PoolId;
    FeeBelowOne(s);
    match m {
      case AddLiquidity(sender, maxToken, exactStandard, minLiquidity) =>
        hide Add;
        if PoolId(maxToken.denom) in s.reg.pools {
          DepositSucceedsIff(s, sender, maxToken, exactStandard, minLiquidity);
        } else {
          FirstDepositSucceedsIff(s, sender, maxToken, exactStandard, minLiquidity);
        }
      case RemoveLiquidity(sender, withdraw, minToken, minStandard) =>
        hide Remove;
        WithdrawalSucceedsIff(s, sender, withdraw, minToken, minStandard);
      case SwapOrder(sender, input, recipient, output, isBuy) =>
        hide Swap;
        SwapSucceedsIff(s, sender, input, recipient, output, isBuy);
      case UpdateParams(params) => hide Apply; ParamsSuitIff(s, params);
      case BankSend(sender, recipient, coin) => hide Apply; TransferSucceedsIff(s, sender, recipient, coin);
    }
  }
}
