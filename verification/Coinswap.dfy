/**
  The coinswap messages as functions from a state to a new state or an error. An error stands for a
  transaction that is rolled back. `CoinswapKeeper` performs the same messages step by step.
 */
module Coinswap {
  import opened Basics
  import opened Text
  import opened Bank
  import opened PoolRegistry
  import Amm
  import Decimal

  const COINSWAP := Module("coinswap")
  const FEE_COLLECTOR := Module("fee_collector")

  datatype State = State(bank: Ledger, reg: Registry, standard: Denom, params: Params)

  datatype Msg =
    | AddLiquidity(sender: Addr, maxToken: Coin, exactStandard: nat, minLiquidity: nat)
    | RemoveLiquidity(sender: Addr, withdraw: Coin, minToken: nat, minStandard: nat)
    | SwapOrder(sender: Addr, input: Coin, recipient: Addr, output: Coin, isBuy: bool)
    | UpdateParams(params: Params)
    | BankSend(sender: Addr, recipient: Addr, coin: Coin)

  // ---- Swaps ----------------------------------------------------------------------------------------

  function LptDenomFromDenoms(reg: Registry, standard: Denom, d1: Denom, d2: Denom): (r: Result<Denom>) {
    if d1 == d2 then Err(EqualDenom)
    else if d1 != standard && d2 != standard then Err(NotContainStandardDenom)
    else
      match GetPool(reg, PoolId(if d1 == standard then d2 else d1))
      case None => Err(ReservePoolNotExists)
      case Some(pool) => Ok(pool.lptDenom)
  }

  predicate SaleFits(a: nat, x: nat, y: nat, fee: nat)
    requires fee < Amm.P
  {
    var inputWithFee := a * (Amm.P - fee);
    inputWithFee < INT_LIMIT && inputWithFee * y < INT_LIMIT && x * Amm.P + inputWithFee < INT_LIMIT
  }

  predicate PurchaseFits(q: nat, x: nat, y: nat, fee: nat)
    requires q < y && fee < Amm.P
  {
    x * q < INT_LIMIT && x * q * Amm.P < INT_LIMIT && (y - q) * (Amm.P - fee) < INT_LIMIT
  }

  /** What selling `sold` would pay in `bought`. */
  function QuoteSale(s: State, sold: Coin, bought: Denom): (r: Result<nat>)
    requires FeeValid(s.params)
  {
    var lpt :- LptDenomFromDenoms(s.reg, s.standard, sold.denom, bought);
    if Escrow(lpt) !in s.bank.accounts then Err(ReservePoolNotExists) else
      var x, y := Bal(s.bank, Escrow(lpt), sold.denom), Bal(s.bank, Escrow(lpt), bought);
      if x == 0 || y == 0 then Err(InsufficientFunds)
      else if !SaleFits(sold.amount, x, y, s.params.fee) then Err(IntOverflow)
      else Ok(Amm.InputPrice(sold.amount, x, y, s.params.fee))
  }

  /** What buying exactly `bought` would cost in `sold`. */
  function QuotePurchase(s: State, bought: Coin, sold: Denom): (r: Result<nat>)
    requires FeeValid(s.params)
  {
    var lpt :- LptDenomFromDenoms(s.reg, s.standard, bought.denom, sold);
    if Escrow(lpt) !in s.bank.accounts then Err(ReservePoolNotExists) else
      var x, y := Bal(s.bank, Escrow(lpt), sold), Bal(s.bank, Escrow(lpt), bought.denom);
      if x == 0 || y == 0 || bought.amount >= y then Err(InsufficientFunds)
      else if !PurchaseFits(bought.amount, x, y, s.params.fee) then Err(IntOverflow)
      else Ok(Amm.OutputPrice(bought.amount, x, y, s.params.fee))
  }

  function CheckSwapLimit(p: Params, quote: Coin): (r: Result<()>) {
    match LimitOf(p.maxSwap, quote.denom)
    case None => Err(InvalidDenom)
    case Some(limit) => if quote.amount > limit then Err(ConstraintNotMet) else Ok(())
  }

  function SwapCoins(s: State, sender: Addr, recipient: Addr, sold: Coin, bought: Coin): (r: Result<Ledger>) {
    var lpt :- LptDenomFromDenoms(s.reg, s.standard, sold.denom, bought.denom);
    var paid :- Send(s.bank, sender, Escrow(lpt), sold);
    Send(paid, Escrow(lpt), recipient, bought)
  }

  function Sell(s: State, sender: Addr, input: Coin, recipient: Addr, output: Coin): (r: Result<Ledger>)
    requires FeeValid(s.params)
  {
    var amount :- QuoteSale(s, input, output.denom);
    if amount < output.amount then Err(ConstraintNotMet) else
      var bought := Coin(output.denom, amount);
      var _ :- CheckSwapLimit(s.params, if bought.denom != s.standard then bought else input);
      SwapCoins(s, sender, recipient, input, bought)
  }

  function Buy(s: State, sender: Addr, input: Coin, recipient: Addr, output: Coin): (r: Result<Ledger>)
    requires FeeValid(s.params)
  {
    var amount :- QuotePurchase(s, output, input.denom);
    if amount > input.amount then Err(ConstraintNotMet) else
      var sold := Coin(input.denom, amount);
      var _ :- CheckSwapLimit(s.params, if sold.denom != s.standard then sold else output);
      SwapCoins(s, sender, recipient, sold, output)
  }

  function CheckSwapCoin(c: Coin): (r: Result<()>) {
    if c.amount == 0 || !ValidDenom(c.denom) then Err(InvalidCoins)
    else if HasLptPrefix(c.denom) then Err(InvalidRequest)
    else Ok(())
  }

  function Swap(s: State, sender: Addr, input: Coin, recipient: Addr, output: Coin, isBuy: bool): (r: Result<State>)
    requires FeeValid(s.params)
  {
    var _ :- CheckSwapCoin(input);
    var _ :- CheckSwapCoin(output);
    if input.denom == output.denom then Err(EqualDenom)
    else if recipient.Module? then Err(Unauthorized)
    else if input.denom != s.standard && output.denom != s.standard then Err(NotContainStandardDenom)
    else
      var bank :- if isBuy then Buy(s, sender, input, recipient, output) else Sell(s, sender, input, recipient, output);
      Ok(s.(bank := bank))
  }

  // ---- Adding liquidity --------------------------------------------------------------------------------

  /** Charge the pool creation fee: a tax goes to the fee collector, the rest is burned. */
  function DeductPoolCreationFee(b: Ledger, p: Params, creator: Addr): (r: Result<Ledger>) {
    var fee := p.poolCreationFee;
    var tax := Decimal.Share(fee.amount, p.taxRate);
    if tax > fee.amount then Err(InvalidCoins) else
      var b1 :- Send(b, creator, COINSWAP, fee);
      var b2 :- Send(b1, COINSWAP, FEE_COLLECTOR, Coin(fee.denom, tax));
      Burn(b2, COINSWAP, Coin(fee.denom, fee.amount - tax))
  }

  /** Standard coin and token paid in, and shares minted. */
  datatype Terms = Terms(dx: nat, dy: nat, minted: nat)

  /** The terms of a deposit into a pool with reserves `x`, `y` and share supply `l`. */
  function DepositTerms(maxStandard: nat, v: Amm.View, maxToken: nat, exactStandard: nat,
      minLiquidity: nat): (r: Result<Terms>) {
    if v.l == 0 then
      if exactStandard > maxStandard then Err(MaxedStandardDenom)
      else if exactStandard < minLiquidity then Err(ConstraintNotMet)
      else Ok(Terms(exactStandard, maxToken, exactStandard))
    else if v.x >= maxStandard then Err(MaxedStandardDenom)
    else
      var room := maxStandard - v.x;
      var dx := if exactStandard < room then exactStandard else room;
      if v.x == 0 then Err(DivisionByZero)
      else if v.l * dx >= INT_LIMIT then Err(IntOverflow)
      else if Amm.MintedShares(dx, v.x, v.l) < minLiquidity then Err(ConstraintNotMet)
      else if v.y * dx >= INT_LIMIT then Err(IntOverflow)
      else if Amm.TokenDeposit(dx, v.x, v.y) > maxToken then Err(ConstraintNotMet)
      else Ok(Terms(dx, Amm.TokenDeposit(dx, v.x, v.y), Amm.MintedShares(dx, v.x, v.l)))
  }

  function Deposit(b: Ledger, sender: Addr, lpt: Denom, standard: Denom, token: Denom, t: Terms): (r: Result<Ledger>) {
    var b1 :- Send(b, sender, Escrow(lpt), Coin(standard, t.dx));
    var b2 :- Send(b1, sender, Escrow(lpt), Coin(token, t.dy));
    Send(Mint(b2, COINSWAP, Coin(lpt, t.minted)), COINSWAP, sender, Coin(lpt, t.minted))
  }

  function PoolView(b: Ledger, lpt: Denom, standard: Denom, token: Denom): Amm.View {
    Amm.View(Bal(b, Escrow(lpt), standard), Bal(b, Escrow(lpt), token), Sup(b, lpt))
  }

  /** What a deposit starts from: the pool it goes into, after creating it if there is none. */
  datatype Target = Target(bank: Ledger, reg: Registry, lpt: Denom, view: Amm.View)

  function DepositTarget(s: State, sender: Addr, token: Denom): (r: Result<Target>) {
    match GetPool(s.reg, PoolId(token))
    case None =>
      var bank :- DeductPoolCreationFee(s.bank, s.params, sender);
      Ok(Target(bank, CreatePool(s.reg, s.standard, token), LptDenom(s.reg.sequence), Amm.View(0, 0, 0)))
    case Some(pool) =>
      if pool.escrow !in s.bank.accounts then Err(ReservePoolNotExists) else
        Ok(Target(s.bank, s.reg, pool.lptDenom, Amm.View(
          Bal(s.bank, pool.escrow, s.standard), Bal(s.bank, pool.escrow, token), Sup(s.bank, pool.lptDenom))))
  }

  predicate Whitelisted(p: Params, d: Denom) {
    var limit := LimitOf(p.maxSwap, d);
    limit.Some? && 0 < limit.value
  }

  function CheckDeposit(s: State, maxToken: Coin, exactStandard: nat): (r: Result<()>) {
    if maxToken.amount == 0 || !ValidDenom(maxToken.denom) then Err(InvalidCoins)
    else if HasLptPrefix(maxToken.denom) || exactStandard == 0 then Err(InvalidRequest)
    else if s.standard == maxToken.denom then Err(InvalidDenom)
    else if Whitelisted(s.params, maxToken.denom) then Ok(())
    else Err(InvalidDenom)
  }

  function Add(s: State, sender: Addr, maxToken: Coin, exactStandard: nat, minLiquidity: nat): (r: Result<State>) {
    var _ :- CheckDeposit(s, maxToken, exactStandard);
    var t :- DepositTarget(s, sender, maxToken.denom);
    var terms :- DepositTerms(s.params.maxStandard, t.view, maxToken.amount, exactStandard, minLiquidity);
    var bank :- Deposit(t.bank, sender, t.lpt, s.standard, maxToken.denom, terms);
    Ok(s.(bank := bank, reg := t.reg))
  }

  // ---- Removing liquidity --------------------------------------------------------------------------------

  /** What burning `w` shares pays out of each reserve. */
  function WithdrawalTerms(v: Amm.View, w: nat, minStandard: nat, minToken: nat): (r: Result<(nat, nat)>)
    requires 0 < w
  {
    if v.x < minStandard || v.y < minToken || v.l < w then Err(InsufficientFunds)
    else if w * v.x >= INT_LIMIT || w * v.y >= INT_LIMIT then Err(IntOverflow)
    else
      var dx, dy := Amm.Redeemed(w, v.x, v.l), Amm.Redeemed(w, v.y, v.l);
      if dx < minStandard || dy < minToken then Err(ConstraintNotMet) else Ok((dx, dy))
  }

  function Withdraw(b: Ledger, sender: Addr, escrow: Addr, shares: Coin, standard: Coin,
      token: Coin): (r: Result<Ledger>) {
    var b1 :- Send(b, sender, COINSWAP, shares);
    var b2 :- Burn(b1, COINSWAP, shares);
    var b3 :- Send(b2, escrow, sender, standard);
    Send(b3, escrow, sender, token)
  }

  function Remove(s: State, sender: Addr, withdraw: Coin, minToken: nat, minStandard: nat): (r: Result<State>) {
    if withdraw.amount == 0 || !ValidDenom(withdraw.denom) then Err(InvalidCoins)
    else if ParseLptDenom(withdraw.denom).None? then Err(InvalidDenom)
    else
      match GetPoolByLptDenom(s.reg, withdraw.denom)
      case None => Err(ReservePoolNotExists)
      case Some(pool) =>
        if pool.escrow !in s.bank.accounts then Err(ReservePoolNotExists) else
          var token := pool.counterpartyDenom;
          var v := Amm.View(Bal(s.bank, pool.escrow, s.standard), Bal(s.bank, pool.escrow, token),
              Sup(s.bank, withdraw.denom));
          var (dx, dy) :- WithdrawalTerms(v, withdraw.amount, minStandard, minToken);
          var bank :- Withdraw(s.bank, sender, pool.escrow, withdraw, Coin(s.standard, dx), Coin(token, dy));
          Ok(s.(bank := bank))
  }

  // ---- Messages -------------------------------------------------------------------------------------------

  function Apply(s: State, m: Msg): (r: Result<State>)
    requires FeeValid(s.params)
  {
    match m
    case AddLiquidity(sender, maxToken, exactStandard, minLiquidity) =>
      Add(s, sender, maxToken, exactStandard, minLiquidity)
    case RemoveLiquidity(sender, withdraw, minToken, minStandard) => Remove(s, sender, withdraw, minToken, minStandard)
    case SwapOrder(sender, input, recipient, output, isBuy) => Swap(s, sender, input, recipient, output, isBuy)
    case UpdateParams(params) => if ParamsValid(params) then Ok(s.(params := params)) else Err(InvalidRequest)
    case BankSend(sender, recipient, coin) =>
      if recipient.Module? then Err(Unauthorized) else
        var bank :- Send(s.bank, sender, recipient, coin);
        Ok(s.(bank := bank))
  }

  /** A failing message leaves the state as it was. */
  function Deliver(s: State, m: Msg): (s': State)
    requires FeeValid(s.params)
    ensures FeeValid(s'.params)
  {
    match Apply(s, m)
    case Ok(s') => s'
    case Err(_) => s
  }

  /** Messages are signed by user accounts: nobody holds a key to an escrow or a module account. */
  predicate Signed(m: Msg) {
    m.UpdateParams? || m.sender.User?
  }
}
