/** The coinswap keeper: the store and the bank it updates message by message. */
module CoinswapKeeper {
  import opened Basics
  import opened Text
  import opened Bank
  import opened PoolRegistry
  import opened Coinswap
  import CoinswapSteps
  import Amm
  import Decimal

  class Keeper {
    var bank: Ledger
    var pools: map<string, Pool>
    var byLpt: map<Denom, string>
    var sequence: nat
    var standard: Denom
    var params: Params

    function Reg(): Registry
      reads this
    {
      Registry(pools, byLpt, sequence)
    }

    function Current(): State
      reads this
    {
      State(bank, Reg(), standard, params)
    }

    constructor (bank: Ledger)
      ensures this.bank == bank && Reg() == Registry(map[], map[], 1)
    {
      this.bank := bank;
      pools, byLpt, sequence := map[], map[], 1;
      standard := "";
      params := Params(0, 0, Coin("", 0), 1, []);
    }

    // ---- The store ----

    /** File a pool: both lookups find it afterwards, and every other entry of either index stays. */
    method SetPool(pool: Pool)
      modifies this`pools, this`byLpt
      ensures Filed(old(Reg()), Reg(), pool) && byLpt[pool.lptDenom] == pool.id
    {
      pools := pools[pool.id := pool];
      byLpt := byLpt[pool.lptDenom := pool.id];
    }

    method CreatePool(counterparty: Denom) returns (pool: Pool)
      modifies this`pools, this`byLpt, this`sequence
      ensures pool == NewPool(standard, counterparty, old(sequence))
      ensures Reg() == PoolRegistry.CreatePool(old(Reg()), standard, counterparty)
    {
      var lpt := LptDenom(sequence);
      pool := Pool(PoolId(counterparty), standard, counterparty, Escrow(lpt), lpt);
      sequence := (sequence + 1) % UINT64;
      ghost var before := Reg();
      SetPool(pool);
      FiledIsSetPool(before, Reg(), pool);
    }

    /** All pools, in the order in which the store iterates over its keys. */
    method GetAllPools(order: seq<string>) returns (all: seq<Pool>)
      requires Enumerates(order, pools.Keys)
      ensures all == Listed(Reg(), order)
    {
      all := [];
      for i := 0 to |order|
        invariant |all| == i && forall j :: 0 <= j < i ==> all[j] == pools[order[j]]
      {
        all := all + [pools[order[i]]];
      }
    }

    /** Fill an empty store; an invalid genesis, or a parameter its store rejects, makes the chain stop. */
    method InitGenesis(g: Genesis) returns (ok: bool)
      requires pools == map[] && byLpt == map[]
      modifies this`pools, this`byLpt, this`sequence, this`standard, this`params
      ensures ok <==> GenesisValid(g) && ParamsValid(g.params)
      ensures ok ==> Reg() == Import(g.pools, g.sequence) && standard == g.standardDenom && params == g.params
    {
      hide GenesisValid, Filed, ParamsValid;
      ok := ValidateGenesis(g);
      if !ParamsValid(g.params) { return false; }
      if ok {
        params, standard, sequence := g.params, g.standardDenom, g.sequence;
        for i := 0 to |g.pools|
          invariant Reg() == Import(g.pools[..i], g.sequence) && standard == g.standardDenom && params == g.params
        {
          assert g.pools[..i + 1][..i] == g.pools[..i];
          ghost var before := Reg();
          SetPool(g.pools[i]);
          FiledIsSetPool(before, Reg(), g.pools[i]);
        }
        assert g.pools[..|g.pools|] == g.pools;
      }
    }

    method ExportGenesis(order: seq<string>) returns (g: Genesis)
      requires Enumerates(order, pools.Keys)
      ensures g == Genesis(params, standard, Listed(Reg(), order), sequence)
    {
      var all := GetAllPools(order);
      g := Genesis(params, standard, all, sequence);
    }

    // ---- The bank ----

    method SendCoin(src: Addr, dst: Addr, c: Coin) returns (r: Result<()>)
      modifies this`bank
      ensures var spec := Send(old(bank), src, dst, c);
        if spec.Ok? then r == Ok(()) && bank == spec.value else r == Err(spec.error) && bank == old(bank)
    {
      hide Send;
      var sent := Send(bank, src, dst, c);
      if sent.Err? { return Err(sent.error); }
      bank := sent.value;
      return Ok(());
    }

    // ---- Swaps ----

    method SwapCoins(sender: Addr, recipient: Addr, sold: Coin, bought: Coin) returns (r: Result<()>)
      modifies this`bank
      ensures var spec := Coinswap.SwapCoins(old(Current()), sender, recipient, sold, bought);
        if spec.Ok? then r == Ok(()) && bank == spec.value else r == Err(spec.error)
    {
      hide Send, LptDenomFromDenoms;
      var lpt := LptDenomFromDenoms(Reg(), standard, sold.denom, bought.denom);
      if lpt.Err? { return Err(lpt.error); }
      var escrow := Escrow(lpt.value);
      r := SendCoin(sender, escrow, sold);
      if r.Err? { return r; }
      r := SendCoin(escrow, recipient, bought);
    }

    method TradeExactInputForOutput(sender: Addr, input: Coin, recipient: Addr, output: Coin) returns (r: Result<nat>)
      requires FeeValid(params)
      modifies this`bank
      ensures var spec := Sell(old(Current()), sender, input, recipient, output);
        if spec.Ok? then r.Ok? && r == QuoteSale(old(Current()), input, output.denom) && bank == spec.value
          else r == Err(spec.error)
      ensures r.Ok? ==> var route := LptDenomFromDenoms(old(Reg()), standard, input.denom, output.denom);
        && route.Ok?
        && CoinswapSteps.Moves(old(bank), bank, sender, Escrow(route.value), recipient, input,
            Coin(output.denom, r.value))
    {
      hide QuoteSale, LptDenomFromDenoms, Coinswap.SwapCoins, CoinswapSteps.Moves;
      CoinswapSteps.QuotedIsRouted(Current(), input, output);
      r := QuoteSale(Current(), input, output.denom);
      if r.Err? { return r; }
      if r.value < output.amount { return Err(ConstraintNotMet); }
      var bought := Coin(output.denom, r.value);
      var quote := if bought.denom != standard then bought else input;
      var limit := GetMaximumSwapAmount(quote.denom);
      if limit.Err? { return Err(limit.error); }
      if quote.amount > limit.value { return Err(ConstraintNotMet); }
      ghost var before := Current();
      var swapped := SwapCoins(sender, recipient, input, bought);
      if swapped.Err? { return Err(swapped.error); }
      CoinswapSteps.SwapCoinsMoves(before, sender, recipient, input, bought,
        Escrow(LptDenomFromDenoms(before.reg, standard, input.denom, bought.denom).value));
    }

    method TradeInputForExactOutput(sender: Addr, input: Coin, recipient: Addr, output: Coin) returns (r: Result<nat>)
      requires FeeValid(params)
      modifies this`bank
      ensures var spec := Buy(old(Current()), sender, input, recipient, output);
        if spec.Ok? then r.Ok? && r == QuotePurchase(old(Current()), output, input.denom) && bank == spec.value
          else r == Err(spec.error)
      ensures r.Ok? ==> var route := LptDenomFromDenoms(old(Reg()), standard, input.denom, output.denom);
        && route.Ok?
        && CoinswapSteps.Moves(old(bank), bank, sender, Escrow(route.value), recipient, Coin(input.denom, r.value),
            output)
    {
      hide QuotePurchase, LptDenomFromDenoms, Coinswap.SwapCoins, CoinswapSteps.Moves;
      CoinswapSteps.QuotedIsRouted(Current(), input, output);
      r := QuotePurchase(Current(), output, input.denom);
      if r.Err? { return r; }
      if r.value > input.amount { return Err(ConstraintNotMet); }
      var sold := Coin(input.denom, r.value);
      var quote := if sold.denom != standard then sold else output;
      var limit := GetMaximumSwapAmount(quote.denom);
      if limit.Err? { return Err(limit.error); }
      if quote.amount > limit.value { return Err(ConstraintNotMet); }
      ghost var before := Current();
      CoinswapSteps.RouteSymmetric(Reg(), standard, output.denom, input.denom);
      var swapped := SwapCoins(sender, recipient, sold, output);
      if swapped.Err? { return Err(swapped.error); }
      CoinswapSteps.SwapCoinsMoves(before, sender, recipient, sold, output,
        Escrow(LptDenomFromDenoms(before.reg, standard, sold.denom, output.denom).value));
    }

    /** Search the list for a denomination: the first entry found is the limit, and in a valid list the only one. */
    method GetMaximumSwapAmount(denom: Denom) returns (r: Result<nat>)
      ensures r.Err? ==> r.error == InvalidDenom
      ensures r.Err? <==> forall i :: 0 <= i < |params.maxSwap| ==> params.maxSwap[i].denom != denom
      ensures r.Ok? ==> LimitOf(params.maxSwap, denom) == Some(r.value)
      ensures r.Err? ==> LimitOf(params.maxSwap, denom) == None
      ensures ParamsValid(params) ==> forall i :: 0 <= i < |params.maxSwap| && params.maxSwap[i].denom == denom ==>
        r == Ok(params.maxSwap[i].amount)
    {
      hide ParamsValid;
      ghost var coins := params.maxSwap;
      if ParamsValid(params) {
        forall i | 0 <= i < |coins| ensures LimitOf(coins, coins[i].denom) == Some(coins[i].amount) {
          ListedLimit(params, i);
        }
      }
      for i := 0 to |params.maxSwap|
        invariant forall j :: 0 <= j < i ==> params.maxSwap[j].denom != denom
        invariant LimitOf(params.maxSwap, denom) == LimitOf(params.maxSwap[i..], denom)
      {
        if params.maxSwap[i].denom == denom { return Ok(params.maxSwap[i].amount); }
        assert params.maxSwap[i..][1..] == params.maxSwap[i + 1..];
      }
      return Err(InvalidDenom);
    }

    lemma ListedLimit(p: Params, i: nat)
      requires ParamsValid(p) && i < |p.maxSwap|
      ensures LimitOf(p.maxSwap, p.maxSwap[i].denom) == Some(p.maxSwap[i].amount)
    {
      LimitIsUnique(p.maxSwap, i);
    }

    method Swap(sender: Addr, input: Coin, recipient: Addr, output: Coin, isBuy: bool) returns (r: Result<()>)
      requires FeeValid(params)
      modifies this`bank
      ensures var spec := Coinswap.Swap(old(Current()), sender, input, recipient, output, isBuy);
        if spec.Ok? then r == Ok(()) && Current() == spec.value else r == Err(spec.error)
    {
      hide Buy, Sell, QuoteSale, QuotePurchase, ValidDenom, HasLptPrefix;
      r := CheckSwapCoin(input);
      if r.Err? { return r; }
      r := CheckSwapCoin(output);
      if r.Err? { return r; }
      if input.denom == output.denom { return Err(EqualDenom); }
      if recipient.Module? { return Err(Unauthorized); }
      if input.denom != standard && output.denom != standard { return Err(NotContainStandardDenom); }
      var amount;
      if isBuy {
        amount := TradeInputForExactOutput(sender, input, recipient, output);
      } else {
        amount := TradeExactInputForOutput(sender, input, recipient, output);
      }
      if amount.Err? { return Err(amount.error); }
    }

    // ---- Liquidity ----

    method DeductPoolCreationFee(creator: Addr) returns (r: Result<()>)
      modifies this`bank
      ensures var spec := Coinswap.DeductPoolCreationFee(old(bank), params, creator);
        if spec.Ok? then r == Ok(()) && bank == spec.value else r == Err(spec.error)
    {
      hide Decimal.Share, Send, Burn;
      var fee := params.poolCreationFee;
      var tax := Decimal.Share(fee.amount, params.taxRate);
      if tax > fee.amount { return Err(InvalidCoins); }
      r := SendCoin(creator, COINSWAP, fee);
      if r.Err? { return r; }
      r := SendCoin(COINSWAP, FEE_COLLECTOR, Coin(fee.denom, tax));
      if r.Err? { return r; }
      var burned := Burn(bank, COINSWAP, Coin(fee.denom, fee.amount - tax));
      if burned.Err? { return Err(burned.error); }
      bank := burned.value;
    }

    method DepositAndMint(sender: Addr, lpt: Denom, token: Denom, t: Terms) returns (r: Result<()>)
      modifies this`bank
      ensures var spec := Deposit(old(bank), sender, lpt, standard, token, t);
        if spec.Ok? then r == Ok(()) && bank == spec.value else r == Err(spec.error)
    {
      hide Send, Mint;
      r := SendCoin(sender, Escrow(lpt), Coin(standard, t.dx));
      if r.Err? { return r; }
      r := SendCoin(sender, Escrow(lpt), Coin(token, t.dy));
      if r.Err? { return r; }
      bank := Mint(bank, COINSWAP, Coin(lpt, t.minted));
      r := SendCoin(COINSWAP, sender, Coin(lpt, t.minted));
    }

    method AddLiquidity(sender: Addr, maxToken: Coin, exactStandard: nat, minLiquidity: nat) returns (r: Result<Coin>)
      modifies this`bank, this`pools, this`byLpt, this`sequence
      ensures var spec := Add(old(Current()), sender, maxToken, exactStandard, minLiquidity);
        if spec.Ok? then r.Ok? && Current() == spec.value else r == Err(spec.error)
      ensures r.Ok? ==>
        var t := DepositTarget(old(Current()), sender, maxToken.denom).value;
        r.value == Coin(t.lpt, DepositTerms(params.maxStandard, t.view, maxToken.amount, exactStandard,
            minLiquidity).value.minted)
    {
      hide ValidDenom, HasLptPrefix, DepositTerms, Deposit, Coinswap.DeductPoolCreationFee, PoolRegistry.CreatePool,
          LptDenom, PoolId;
      ghost var before := Current();
      var checked := CheckDeposit(Current(), maxToken, exactStandard);
      if checked.Err? { return Err(checked.error); }
      var found := GetPool(Reg(), PoolId(maxToken.denom));
      var lpt, terms;
      if found.None? {
        var charged := DeductPoolCreationFee(sender);
        if charged.Err? { return Err(charged.error); }
        terms := DepositTerms(params.maxStandard, Amm.View(0, 0, 0), maxToken.amount, exactStandard, minLiquidity);
        if terms.Err? { return Err(terms.error); }
        var pool := CreatePool(maxToken.denom);
        lpt := pool.lptDenom;
        assert DepositTarget(before, sender, maxToken.denom) == Ok(Target(bank, Reg(), lpt, Amm.View(0, 0, 0)));
      } else {
        var pool := found.value;
        if pool.escrow !in bank.accounts { return Err(ReservePoolNotExists); }
        var view := Amm.View(Bal(bank, pool.escrow, standard), Bal(bank, pool.escrow, maxToken.denom),
            Sup(bank, pool.lptDenom));
        terms := DepositTerms(params.maxStandard, view, maxToken.amount, exactStandard, minLiquidity);
        if terms.Err? { return Err(terms.error); }
        lpt := pool.lptDenom;
      }
      var deposited := DepositAndMint(sender, lpt, maxToken.denom, terms.value);
      if deposited.Err? { return Err(deposited.error); }
      return Ok(Coin(lpt, terms.value.minted));
    }

    method BurnAndWithdraw(sender: Addr, escrow: Addr, shares: Coin, standardCoin: Coin, tokenCoin: Coin)
      returns (r: Result<()>)
      modifies this`bank
      ensures var spec := Withdraw(old(bank), sender, escrow, shares, standardCoin, tokenCoin);
        if spec.Ok? then r == Ok(()) && bank == spec.value else r == Err(spec.error)
    {
      hide Send, Burn;
      r := SendCoin(sender, COINSWAP, shares);
      if r.Err? { return r; }
      var burned := Burn(bank, COINSWAP, shares);
      if burned.Err? { return Err(burned.error); }
      bank := burned.value;
      r := SendCoin(escrow, sender, standardCoin);
      if r.Err? { return r; }
      r := SendCoin(escrow, sender, tokenCoin);
    }

    method RemoveLiquidity(sender: Addr, withdraw: Coin, minToken: nat, minStandard: nat)
      returns (r: Result<(Coin, Coin)>)
      modifies this`bank
      ensures var spec := Remove(old(Current()), sender, withdraw, minToken, minStandard);
        if spec.Ok? then r.Ok? && Current() == spec.value else r == Err(spec.error)
      ensures r.Ok? ==>
        var p, l := GetPoolByLptDenom(Reg(), withdraw.denom).value, old(Sup(bank, withdraw.denom));
        && r.value.0 == Coin(standard, Amm.Redeemed(withdraw.amount, old(Bal(bank, p.escrow, standard)), l))
        && r.value.1 == Coin(p.counterpartyDenom,
            Amm.Redeemed(withdraw.amount, old(Bal(bank, p.escrow, p.counterpartyDenom)), l))
    {
      hide ValidDenom, ParseLptDenom, Withdraw;
      if withdraw.amount == 0 || !ValidDenom(withdraw.denom) { return Err(InvalidCoins); }
      if ParseLptDenom(withdraw.denom).None? { return Err(InvalidDenom); }
      var found := GetPoolByLptDenom(Reg(), withdraw.denom);
      if found.None? { return Err(ReservePoolNotExists); }
      var pool := found.value;
      if pool.escrow !in bank.accounts { return Err(ReservePoolNotExists); }
      var token := pool.counterpartyDenom;
      var view := Amm.View(Bal(bank, pool.escrow, standard), Bal(bank, pool.escrow, token), Sup(bank, withdraw.denom));
      var terms := WithdrawalTerms(view, withdraw.amount, minStandard, minToken);
      if terms.Err? { return Err(terms.error); }
      var standardCoin, tokenCoin := Coin(standard, terms.value.0), Coin(token, terms.value.1);
      var paid := BurnAndWithdraw(sender, pool.escrow, withdraw, standardCoin, tokenCoin);
      if paid.Err? { return Err(paid.error); }
      return Ok((standardCoin, tokenCoin));
    }

    // ---- Transactions ----

    /** Run one message; on an error everything it wrote is thrown away. */
    method Deliver(m: Msg) returns (r: Result<()>)
      requires FeeValid(params)
      modifies this
      ensures Current() == Coinswap.Deliver(old(Current()), m)
      ensures r.Ok? <==> Apply(old(Current()), m).Ok?
      ensures r.Err? ==> r.error == Apply(old(Current()), m).error
    {
      hide Add, Remove, Coinswap.Swap, ParamsValid;
      var bank0, pools0, byLpt0, sequence0 := bank, pools, byLpt, sequence;
      match m {
        case AddLiquidity(sender, maxToken, exactStandard, minLiquidity) =>
          var minted := AddLiquidity(sender, maxToken, exactStandard, minLiquidity);
          r := if minted.Ok? then Ok(()) else Err(minted.error);
        case RemoveLiquidity(sender, withdraw, minToken, minStandard) =>
          var paid := RemoveLiquidity(sender, withdraw, minToken, minStandard);
          r := if paid.Ok? then Ok(()) else Err(paid.error);
        case SwapOrder(sender, input, recipient, output, isBuy) =>
          r := Swap(sender, input, recipient, output, isBuy);
        case UpdateParams(p) =>
          if ParamsValid(p) { params := p; r := Ok(()); } else { r := Err(InvalidRequest); }
        case BankSend(sender, recipient, coin) =>
          if recipient.Module? { r := Err(Unauthorized); } else { r := SendCoin(sender, recipient, coin); }
      }
      if r.Err? {
        bank, pools, byLpt, sequence := bank0, pools0, byLpt0, sequence0;
      }
    }
  }
}
