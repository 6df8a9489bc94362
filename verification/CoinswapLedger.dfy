/** Where coins come from and go to over whole runs: supply, the module account, and the escrow accounts. */
module CoinswapLedger {
  import opened Arithmetic
  import opened Text
  import opened Bank
  import opened PoolRegistry
  import opened Coinswap
  import opened CoinswapSteps
  import opened CoinswapRuns
  import Amm
  import Decimal

  // ---- Supply -------------------------------------------------------------------------------------------

  /** What a message destroys of `d` as pool creation fee: the fee less its rounded-down tax. */
  function FeeBurned(s: State, m: Msg, d: Denom): (n: int)
    requires FeeValid(s.params)
  {
    if m.AddLiquidity? && Apply(s, m).Ok? && PoolId(m.maxToken.denom) !in s.reg.pools
      && s.params.poolCreationFee.denom == d then
      MulNat(s.params.poolCreationFee.amount, s.params.taxRate);
      s.params.poolCreationFee.amount - Quo(s.params.poolCreationFee.amount * s.params.taxRate, Amm.P)
    else 0
  }

  /** The share denomination of the pool of `token`, or of the pool that would be created for it. */
  function SharesOf(reg: Registry, token: Denom): Denom {
    if PoolId(token) in reg.pools then reg.pools[PoolId(token)].lptDenom else LptDenom(reg.sequence)
  }

  /** What a message mints of `d`: the shares its deposit is worth in the pool as it stands. */
  function Minted(s: State, m: Msg, d: Denom): (n: nat)
    requires FeeValid(s.params)
  {
    if m.AddLiquidity? && Apply(s, m).Ok? && d == SharesOf(s.reg, m.maxToken.denom) then
      var v := PoolView(s.bank, d, s.standard, m.maxToken.denom);
      var terms := DepositTerms(s.params.maxStandard, v, m.maxToken.amount, m.exactStandard, m.minLiquidity);
      if terms.Ok? then terms.value.minted else 0
    else 0
  }

  /** What a message burns of `d` as shares withdrawn. */
  function Withdrawn(s: State, m: Msg, d: Denom): (n: nat)
    requires FeeValid(s.params)
  {
    if m.RemoveLiquidity? && Apply(s, m).Ok? && d == m.withdraw.denom then m.withdraw.amount else 0
  }

  /**
    The supply of every denomination moves by what is minted, withdrawn and burned as fee and by nothing
    else; the coinswap module account ends every message as it began.
   */
  ghost predicate Accounted(s: State, s': State, m: Msg)
    requires FeeValid(s.params)
  {
    && (forall d {:trigger Sup(s'.bank, d)} ::
          Sup(s'.bank, d) + FeeBurned(s, m, d) + Withdrawn(s, m, d) == Sup(s.bank, d) + Minted(s, m, d))
    && (forall d {:trigger Bal(s'.bank, COINSWAP, d)} :: Bal(s'.bank, COINSWAP, d) == Bal(s.bank, COINSWAP, d))
  }

  /** Fair terms leave no choice. */
  lemma FairTermsUnique(v: Amm.View, t: Terms, u: Terms, maxStandard: nat, exactStandard: nat, maxToken: nat)
    requires FairTerms(v, t, maxStandard, exactStandard, maxToken)
    requires FairTerms(v, u, maxStandard, exactStandard, maxToken)
    ensures t == u
  {
    hide Amm.MintedShares, Amm.TokenDeposit;
  }

  /** Reserves do not matter where there are no shares. */
  lemma TermsWithoutShares(maxStandard: nat, v: Amm.View, w: Amm.View, maxToken: nat, exactStandard: nat,
      minLiquidity: nat)
    requires v == w || (v.l == 0 && w.l == 0)
    ensures DepositTerms(maxStandard, v, maxToken, exactStandard, minLiquidity)
         == DepositTerms(maxStandard, w, maxToken, exactStandard, minLiquidity)
  {
    hide Amm.MintedShares, Amm.TokenDeposit;
  }

  lemma TermsAtPool(s: State, m: Msg)
    requires Inv(s) && Signed(m) && m.AddLiquidity? && Apply(s, m).Ok?
    ensures var v := PoolView(s.bank, SharesOf(s.reg, m.maxToken.denom), s.standard, m.maxToken.denom);
      DepositTerms(s.params.maxStandard, v, m.maxToken.amount, m.exactStandard, m.minLiquidity).Ok?
  {
    hide Inv, ValidDenom, HasLptPrefix, PoolId, LptDenom, CreatePool, DepositTerms, Deposit, Decimal.Share,
      DeductPoolCreationFee, LimitOf;
    FeeBelowOne(s);
    var t := DepositTarget(s, m.sender, m.maxToken.denom).value;
    var tax, burned := ReachTarget(s, m.sender, m.maxToken.denom);
    TermsWithoutShares(s.params.maxStandard, t.view, PoolView(s.bank, t.lpt, s.standard, m.maxToken.denom),
      m.maxToken.amount, m.exactStandard, m.minLiquidity);
  }

  lemma MintedByDeposit(s: State, m: Msg, k: Deposited)
    requires Inv(s) && Signed(m) && m.AddLiquidity? && Apply(s, m).Ok?
    requires DepositHappened(s, Apply(s, m).value, m.sender, m.maxToken, m.exactStandard, k)
    ensures k.lpt == SharesOf(s.reg, m.maxToken.denom) && Minted(s, m, k.lpt) == k.terms.minted
  {
    hide Inv, Apply, PoolId, LptDenom, DepositBalances, DepositSupply, FairTerms, Decimal.Share, DepositTerms;
    FeeBelowOne(s);
    TermsAtPool(s, m);
    var v := PoolView(s.bank, k.lpt, s.standard, m.maxToken.denom);
    TermsAreFair(s.params.maxStandard, v, m.maxToken.amount, m.exactStandard, m.minLiquidity);
    FairTermsUnique(v, k.terms,
      DepositTerms(s.params.maxStandard, v, m.maxToken.amount, m.exactStandard, m.minLiquidity).value,
      s.params.maxStandard, m.exactStandard, m.maxToken.amount);
  }

  lemma AddAccounted(s: State, m: Msg)
    requires Inv(s) && Signed(m) && m.AddLiquidity? && Apply(s, m).Ok?
    ensures Accounted(s, Apply(s, m).value, m)
  {
    hide Inv, Add, HasLptPrefix, ValidDenom, PoolId, CreatePool, Decimal.Share, FairTerms, SharesOf, DepositTerms;
    FeeBelowOne(s);
    var k := AddDeposits(s, m.sender, m.maxToken, m.exactStandard, m.minLiquidity);
    Decimal.ShareIsFloor(s.params.poolCreationFee.amount, s.params.taxRate);
    MintedByDeposit(s, m, k);
  }

  lemma PoolFactsAfter(s: State, m: Msg)
    requires Inv(s) && Signed(m) && m.AddLiquidity? && Apply(s, m).Ok?
    ensures var s', id := Apply(s, m).value, PoolId(m.maxToken.denom);
      id in s'.reg.pools && HasLptPrefix(s'.reg.pools[id].lptDenom)
  {
    hide ValidDenom, PoolId, DepositBalances, DepositSupply, FairTerms, Decimal.Share, Add;
    var k := AddDeposits(s, m.sender, m.maxToken, m.exactStandard, m.minLiquidity);
    var id := PoolId(m.maxToken.denom);
    if id in s.reg.pools {
      assert WellFiled(s.reg, id);
      assert Numbered(s.reg.pools[id].lptDenom, s.reg.sequence);
    }
  }

  lemma RemoveAccounted(s: State, m: Msg)
    requires Inv(s) && Signed(m) && m.RemoveLiquidity? && Apply(s, m).Ok?
    ensures Accounted(s, Apply(s, m).value, m)
  {
    hide Inv, Remove, ValidDenom, PoolId, Amm.Redeemed;
    FeeBelowOne(s);
    var at := RemoveWithdraws(s, m.sender, m.withdraw, m.minToken, m.minStandard);
  }

  lemma SwapAccounted(s: State, m: Msg)
    requires Inv(s) && Signed(m) && m.SwapOrder? && Apply(s, m).Ok?
    ensures Accounted(s, Apply(s, m).value, m)
  {
    hide Inv, Buy, Sell, ValidDenom, HasLptPrefix;
    FeeBelowOne(s);
    var t := SwapTrades(s, m.sender, m.input, m.recipient, m.output, m.isBuy);
  }

  lemma OtherAccounted(s: State, m: Msg)
    requires Inv(s) && Signed(m) && (m.UpdateParams? || m.BankSend?) && Apply(s, m).Ok?
    ensures Accounted(s, Apply(s, m).value, m)
  {
    hide Inv, ParamsValid, Send;
    FeeBelowOne(s);
  }

  lemma ApplyAccounted(s: State, m: Msg)
    requires Inv(s) && Signed(m) && Apply(s, m).Ok?
    ensures Accounted(s, Apply(s, m).value, m)
  {
    hide Inv, Apply, Accounted;
    match m
    case AddLiquidity(_, _, _, _) => AddAccounted(s, m);
    case RemoveLiquidity(_, _, _, _) => RemoveAccounted(s, m);
    case SwapOrder(_, _, _, _, _) => SwapAccounted(s, m);
    case UpdateParams(_) => OtherAccounted(s, m);
    case BankSend(_, _, _) => OtherAccounted(s, m);
  }

  lemma DeliverAccounted(s: State, m: Msg, d: Denom)
    requires Inv(s) && Signed(m) && FeeValid(s.params)
    ensures Sup(Deliver(s, m).bank, d) + FeeBurned(s, m, d) + Withdrawn(s, m, d) == Sup(s.bank, d) + Minted(s, m, d)
    ensures Bal(Deliver(s, m).bank, COINSWAP, d) == Bal(s.bank, COINSWAP, d)
  {
    hide Inv, Apply, SharesOf, DepositTerms;
    if Apply(s, m).Ok? { ApplyAccounted(s, m); }
  }

  /** All that the first `i` messages burned of `d` as pool creation fees. */
  function FeesBurned(s: State, ms: seq<Msg>, i: nat, d: Denom): (n: int)
    requires FeeValid(s.params) && i <= |ms|
  {
    if i == 0 then 0 else FeesBurned(s, ms, i - 1, d) + FeeBurned(After(s, ms, i - 1), ms[i - 1], d)
  }

  /** All that the first `i` messages minted of `d`. */
  function AllMinted(s: State, ms: seq<Msg>, i: nat, d: Denom): (n: nat)
    requires FeeValid(s.params) && i <= |ms|
  {
    if i == 0 then 0 else AllMinted(s, ms, i - 1, d) + Minted(After(s, ms, i - 1), ms[i - 1], d)
  }

  /** All shares of `d` that the first `i` messages withdrew. */
  function AllWithdrawn(s: State, ms: seq<Msg>, i: nat, d: Denom): (n: nat)
    requires FeeValid(s.params) && i <= |ms|
  {
    if i == 0 then 0 else AllWithdrawn(s, ms, i - 1, d) + Withdrawn(After(s, ms, i - 1), ms[i - 1], d)
  }

  /**
    Over every run the supply of every denomination is what it was, plus the shares minted in it, less the
    shares withdrawn and the creation fees burned in it. The module account holds what it held at the start.
   */
  lemma {:induction false} RunAccounted(s: State, ms: seq<Msg>, i: nat, d: Denom)
    requires Inv(s) && Legit(s, ms) && i <= |ms|
    ensures Sup(After(s, ms, i).bank, d) + FeesBurned(s, ms, i, d) + AllWithdrawn(s, ms, i, d)
         == Sup(s.bank, d) + AllMinted(s, ms, i, d)
    ensures Bal(After(s, ms, i).bank, COINSWAP, d) == Bal(s.bank, COINSWAP, d)
  {
    hide Inv, Deliver, FeeBurned, Minted, Withdrawn, Bal, Sup;
    FeeBelowOne(s);
    if i != 0 {
      RunAccounted(s, ms, i - 1, d);
      RunKeepsInv(s, ms, i - 1);
      DeliverAccounted(After(s, ms, i - 1), ms[i - 1], d);
    }
  }

  /** Ordinary coins are never minted or withdrawn: over every run their supply falls by the fees burned in them. */
  lemma {:induction false} OrdinaryCoinsOnlyBurn(s: State, ms: seq<Msg>, i: nat, d: Denom)
    requires Inv(s) && Legit(s, ms) && i <= |ms| && !HasLptPrefix(d)
    ensures Sup(After(s, ms, i).bank, d) + FeesBurned(s, ms, i, d) == Sup(s.bank, d)
  {
    hide Inv, Deliver, FeeBurned, Minted, Withdrawn, Sup, HasLptPrefix;
    FeeBelowOne(s);
    if i != 0 {
      OrdinaryCoinsOnlyBurn(s, ms, i - 1, d);
      RunKeepsInv(s, ms, i - 1);
      DeliverAccounted(After(s, ms, i - 1), ms[i - 1], d);
      OrdinaryIsNoShare(After(s, ms, i - 1), ms[i - 1], d);
    }
  }

  lemma OrdinaryIsNoShare(s: State, m: Msg, d: Denom)
    requires Inv(s) && Signed(m) && FeeValid(s.params) && !HasLptPrefix(d)
    ensures Minted(s, m, d) == 0 && Withdrawn(s, m, d) == 0
  {
    hide Inv, Add, Remove, HasLptPrefix, PoolId, DepositTerms, LimitOf;
    if m.AddLiquidity? && Apply(s, m).Ok? {
      SharesHavePrefix(s, m.maxToken.denom);
    } else if m.RemoveLiquidity? && Apply(s, m).Ok? {
      var at := RemoveWithdraws(s, m.sender, m.withdraw, m.minToken, m.minStandard);
      PoolFacts(s, at);
      NumberedHasPrefix(m.withdraw.denom, s.reg.sequence);
    }
  }

  lemma SharesHavePrefix(s: State, token: Denom)
    requires Inv(s)
    ensures HasLptPrefix(SharesOf(s.reg, token))
  {
    hide Inv, HasLptPrefix, PoolId;
    if PoolId(token) in s.reg.pools {
      PoolFacts(s, PoolId(token));
      NumberedHasPrefix(s.reg.pools[PoolId(token)].lptDenom, s.reg.sequence);
    }
  }

  lemma NumberedHasPrefix(lpt: Denom, sequence: nat)
    requires Numbered(lpt, sequence)
    ensures HasLptPrefix(lpt)
  {
    hide HasLptPrefix, ParseLptDenom;
  }

  // ---- Escrow accounts and the cap on the standard coin -----------------------------------------------------

  /** Escrow accounts hold only the two coins of their pool, and nothing once the pool has no shares. */
  ghost predicate Tidy(s: State) {
    forall l, d {:trigger Bal(s.bank, Escrow(l), d)} :: 0 < Bal(s.bank, Escrow(l), d) ==> Rightful(s, l, d)
  }

  ghost predicate Rightful(s: State, l: Denom, d: Denom) {
    && l in s.reg.byLpt && s.reg.byLpt[l] in s.reg.pools && 0 < Sup(s.bank, l)
    && (d == s.standard || d == s.reg.pools[s.reg.byLpt[l]].counterpartyDenom)
  }

  /** A pool creation whose fee is the whole share supply of another pool, with a tax that rounds down to nothing. */
  ghost predicate BurnsLastShares(s: State, m: Msg)
    requires m.AddLiquidity?
  {
    var fee := s.params.poolCreationFee;
    && PoolId(m.maxToken.denom) !in s.reg.pools && HasLptPrefix(fee.denom)
    && 0 < Sup(s.bank, fee.denom) == fee.amount && fee.amount * s.params.taxRate < Amm.P
  }

  /**
    The message pays no escrow account a coin it has no use for, and does not burn the last shares of a pool
    that still holds coins.
   */
  ghost predicate Contained(s: State, m: Msg) {
    match m
    case AddLiquidity(_, _, _, _) => !BurnsLastShares(s, m)
    case SwapOrder(_, _, recipient, output, _) =>
      recipient.Escrow? ==> Rightful(s, recipient.lptDenom, output.denom)
    case BankSend(_, recipient, coin) =>
      recipient.Escrow? && 0 < coin.amount ==> Rightful(s, recipient.lptDenom, coin.denom)
    case _ => true
  }

  /** The standard reserve of the pool a deposit went into, afterwards. */
  lemma DepositReserve(s: State, m: Msg) returns (k: Deposited)
    requires Inv(s) && Signed(m) && m.AddLiquidity? && Apply(s, m).Ok?
    ensures DepositHappened(s, Apply(s, m).value, m.sender, m.maxToken, m.exactStandard, k)
    ensures Bal(Apply(s, m).value.bank, Escrow(k.lpt), s.standard) == Bal(s.bank, Escrow(k.lpt), s.standard)
      + k.terms.dx
  {
    hide Inv, Add, HasLptPrefix, ValidDenom, PoolId, CreatePool, Decimal.Share, FairTerms;
    FeeBelowOne(s);
    k := AddDeposits(s, m.sender, m.maxToken, m.exactStandard, m.minLiquidity);
    PoolFactsAfter(s, m);
    StandardIsNoShare(s);
    assert HasLptPrefix(k.lpt);
  }

  lemma StandardIsNoShare(s: State)
    requires Inv(s)
    ensures !HasLptPrefix(s.standard)
  {
  }

  /**
    A deposit leaves the standard reserve within the cap exactly when the pool had shares, or the coins
    already lying in its escrow account leave room for the deposit.
   */
  lemma CapHoldsIff(s: State, m: Msg) returns (k: Deposited)
    requires Inv(s) && Signed(m) && m.AddLiquidity? && Apply(s, m).Ok?
    ensures DepositHappened(s, Apply(s, m).value, m.sender, m.maxToken, m.exactStandard, k)
    ensures Bal(Apply(s, m).value.bank, Escrow(k.lpt), s.standard) <= s.params.maxStandard
       <==> 0 < Sup(s.bank, k.lpt) || Bal(s.bank, Escrow(k.lpt), s.standard) + m.exactStandard <= s.params.maxStandard
  {
    hide Inv, Apply, DepositBalances, DepositSupply, PoolId, CreatePool, Decimal.Share, Amm.MintedShares,
        Amm.TokenDeposit;
    k := DepositReserve(s, m);
  }

  /** Where nobody pays escrow accounts from outside, every successful deposit respects the cap. */
  lemma CapRespected(s: State, m: Msg) returns (k: Deposited)
    requires Inv(s) && Tidy(s) && Signed(m) && m.AddLiquidity? && Apply(s, m).Ok?
    ensures DepositHappened(s, Apply(s, m).value, m.sender, m.maxToken, m.exactStandard, k)
    ensures Bal(Apply(s, m).value.bank, Escrow(k.lpt), s.standard) <= s.params.maxStandard
  {
    hide Inv, Apply, DepositBalances, DepositSupply, PoolId, CreatePool, Decimal.Share, Amm.MintedShares,
        Amm.TokenDeposit, HasLptPrefix;
    k := CapHoldsIff(s, m);
    assert Sup(s.bank, k.lpt) == 0 ==> Bal(s.bank, Escrow(k.lpt), s.standard) == 0;
  }

  /** What the registry files under a share denomination stays filed. */
  lemma IndexGrows(s: State, s': State, sender: Addr, maxToken: Coin, exactStandard: nat, k: Deposited, l: Denom)
    requires Inv(s) && DepositHappened(s, s', sender, maxToken, exactStandard, k)
    ensures l in s.reg.byLpt ==>
      && l in s'.reg.byLpt && s.reg.byLpt[l] in s.reg.pools
      && s'.reg.byLpt[l] == s.reg.byLpt[l] && s.reg.byLpt[l] in s'.reg.pools
      && s'.reg.pools[s.reg.byLpt[l]] == s.reg.pools[s.reg.byLpt[l]]
    ensures k.lpt in s'.reg.byLpt && s'.reg.byLpt[k.lpt] == PoolId(maxToken.denom)
  {
    hide ValidDenom, PoolId, LptDenom, Numbered, Conserved, Decimal.Share, FairTerms, NoStrayShares, PoolSound,
        DepositBalances, DepositSupply;
    var id := PoolId(maxToken.denom);
    if id in s.reg.pools { assert WellFiled(s.reg, id); } else { NextDenomIsFresh(s.reg); }
  }

  /** A deposit on the escrow accounts and the supplies. */
  lemma DepositEscrows(s: State, s': State, sender: Addr, maxToken: Coin, exactStandard: nat, k: Deposited, l: Denom,
      d: Denom)
    requires DepositHappened(s, s', sender, maxToken, exactStandard, k) && sender.User?
    ensures l != k.lpt || (d != s.standard && d != maxToken.denom) ==>
      Bal(s'.bank, Escrow(l), d) == Bal(s.bank, Escrow(l), d)
    ensures Bal(s.bank, Escrow(l), d) <= Bal(s'.bank, Escrow(l), d)
    ensures Sup(s'.bank, l) == Sup(s.bank, l) - If(l == s.params.poolCreationFee.denom, k.burned)
      + If(l == k.lpt, k.terms.minted)
  {
    hide PoolId, CreatePool, Decimal.Share, FairTerms;
  }

  /** What a creation fee burns, the creator held: never more than there is. */
  lemma FeeWasHeld(s: State, m: Msg, k: Deposited)
    requires Inv(s) && Signed(m) && m.AddLiquidity? && Apply(s, m).Ok?
    requires DepositHappened(s, Apply(s, m).value, m.sender, m.maxToken, m.exactStandard, k)
    ensures var fee := s.params.poolCreationFee;
      && (PoolId(m.maxToken.denom) in s.reg.pools ==> k.burned == 0 && k.tax == 0)
      && (PoolId(m.maxToken.denom) !in s.reg.pools ==>
            && k.tax + k.burned == fee.amount <= Sup(s.bank, fee.denom)
            && (k.tax == 0 <==> fee.amount * s.params.taxRate < Amm.P))
  {
    hide Inv, ValidDenom, HasLptPrefix, PoolId, CreatePool, DepositTerms, Deposit, Decimal.Share, Burn, Conserved,
      DepositBalances, DepositSupply, FairTerms, LimitOf;
    FeeBelowOne(s);
    BankIsConserved(s);
    var fee := s.params.poolCreationFee;
    BurnNeedsOnlyBalance(s.bank, m.sender, fee);
    Decimal.ShareIsFloor(fee.amount, s.params.taxRate);
    DivAtLeast(fee.amount * s.params.taxRate, Amm.P, 1);
  }

  lemma BankIsConserved(s: State)
    requires Inv(s)
    ensures Conserved(s.bank)
  {
  }

  /** The pool deposited into has shares afterwards. */
  lemma DepositLeavesShares(s: State, m: Msg, k: Deposited)
    requires Inv(s) && Signed(m) && m.AddLiquidity? && Apply(s, m).Ok?
    requires DepositHappened(s, Apply(s, m).value, m.sender, m.maxToken, m.exactStandard, k)
    ensures 0 < Sup(Apply(s, m).value.bank, k.lpt)
    ensures PoolId(m.maxToken.denom) !in s.reg.pools ==> Sup(s.bank, k.lpt) == 0
  {
    hide Inv, Apply, DepositHappened;
    FeeBelowOne(s);
    DepositIsBacked(s, m, k);
    FeeWasHeld(s, m, k);
    DepositEscrows(s, Apply(s, m).value, m.sender, m.maxToken, m.exactStandard, k, k.lpt, s.standard);
    if PoolId(m.maxToken.denom) !in s.reg.pools { NewSharesAreFresh(s, m, k); }
  }

  lemma NewSharesAreFresh(s: State, m: Msg, k: Deposited)
    requires Inv(s) && m.AddLiquidity? && PoolId(m.maxToken.denom) !in s.reg.pools
    requires FeeValid(s.params) && Apply(s, m).Ok?
    requires DepositHappened(s, Apply(s, m).value, m.sender, m.maxToken, m.exactStandard, k)
    ensures Sup(s.bank, k.lpt) == 0
  {
    hide Apply, ValidDenom, HasLptPrefix, PoolId, LptDenom, Numbered, Conserved, DepositBalances, DepositSupply,
      FairTerms, Decimal.Share, PoolSound;
    NextDenomIsFresh(s.reg);
  }

  /** Shares outstanding after a deposit, unless it burned the last of them. */
  lemma SharesRemain(s: State, m: Msg, k: Deposited, l: Denom)
    requires Inv(s) && Signed(m) && m.AddLiquidity? && Apply(s, m).Ok? && 0 < Sup(s.bank, l) && HasLptPrefix(l)
    requires DepositHappened(s, Apply(s, m).value, m.sender, m.maxToken, m.exactStandard, k)
    ensures Sup(Apply(s, m).value.bank, l) == 0 <==> BurnsLastShares(s, m) && l == s.params.poolCreationFee.denom
  {
    hide Inv, Apply, DepositHappened, HasLptPrefix;
    FeeBelowOne(s);
    FeeWasHeld(s, m, k);
    DepositLeavesShares(s, m, k);
    DepositEscrows(s, Apply(s, m).value, m.sender, m.maxToken, m.exactStandard, k, l, s.standard);
  }

  lemma AddKeepsTidy(s: State, m: Msg)
    requires Inv(s) && Tidy(s) && Signed(m) && m.AddLiquidity? && Apply(s, m).Ok? && !BurnsLastShares(s, m)
    ensures Tidy(Apply(s, m).value)
  {
    hide Inv, Apply, BurnsLastShares, DepositBalances, DepositSupply, PoolId, CreatePool, Decimal.Share, FairTerms;
    FeeBelowOne(s);
    var s' := Apply(s, m).value;
    var k := DepositReserve(s, m);
    DepositLeavesShares(s, m, k);
    forall l, d | 0 < Bal(s'.bank, Escrow(l), d) ensures Rightful(s', l, d) {
      IndexGrows(s, s', m.sender, m.maxToken, m.exactStandard, k, l);
      DepositEscrows(s, s', m.sender, m.maxToken, m.exactStandard, k, l, d);
      if l != k.lpt || (d != s.standard && d != m.maxToken.denom) {
        assert Rightful(s, l, d);
        IndexedAreShares(s, l);
        SharesRemain(s, m, k, l);
      }
    }
  }

  /** Burning the last shares of a pool leaves its coins behind with nobody entitled to them. */
  lemma LastSharesLeaveCoins(s: State, m: Msg)
    requires Inv(s) && Signed(m) && m.AddLiquidity? && Apply(s, m).Ok? && BurnsLastShares(s, m)
    ensures var s', l := Apply(s, m).value, s.params.poolCreationFee.denom;
      && l in s.reg.byLpt && s.reg.byLpt[l] in s.reg.pools && Sup(s'.bank, l) == 0
      && 0 < Bal(s'.bank, Escrow(l), s.standard)
      && 0 < Bal(s'.bank, Escrow(l), s.reg.pools[s.reg.byLpt[l]].counterpartyDenom)
  {
    var l := s.params.poolCreationFee.denom;
    StrayIsIndexed(s, l);
    hide Inv, Apply, DepositHappened, HasLptPrefix;
    FeeBelowOne(s);
    IndexedPool(s, l);
    PoolFacts(s, s.reg.byLpt[l]);
    var k := DepositReserve(s, m);
    SharesRemain(s, m, k, l);
    DepositEscrows(s, Apply(s, m).value, m.sender, m.maxToken, m.exactStandard, k, l, s.standard);
    DepositEscrows(s, Apply(s, m).value, m.sender, m.maxToken, m.exactStandard, k, l,
      s.reg.pools[s.reg.byLpt[l]].counterpartyDenom);
  }

  lemma StrayIsIndexed(s: State, l: Denom)
    requires Inv(s) && HasLptPrefix(l) && 0 < Sup(s.bank, l)
    ensures l in s.reg.byLpt
  {
    hide HasLptPrefix;
  }

  lemma AddTidyIff(s: State, m: Msg)
    requires Inv(s) && Tidy(s) && Signed(m) && m.AddLiquidity? && Apply(s, m).Ok?
    ensures Tidy(Apply(s, m).value) <==> !BurnsLastShares(s, m)
  {
    hide Inv, Apply, BurnsLastShares;
    FeeBelowOne(s);
    if BurnsLastShares(s, m) {
      LastSharesLeaveCoins(s, m);
      assert !Rightful(Apply(s, m).value, s.params.poolCreationFee.denom, s.standard);
    } else {
      AddKeepsTidy(s, m);
    }
  }

  lemma IndexedAreShares(s: State, l: Denom)
    requires Inv(s)
    ensures l in s.reg.byLpt ==> HasLptPrefix(l)
  {
    hide Inv;
    if l in s.reg.byLpt {
      IndexedPool(s, l);
      PoolFacts(s, s.reg.byLpt[l]);
      assert Numbered(l, s.reg.sequence);
    }
  }

  lemma IndexedPool(s: State, l: Denom)
    requires Inv(s) && l in s.reg.byLpt
    ensures s.reg.byLpt[l] in s.reg.pools && s.reg.pools[s.reg.byLpt[l]].lptDenom == l
  {
  }

  lemma DepositIsBacked(s: State, m: Msg, k: Deposited)
    requires Inv(s) && Signed(m) && m.AddLiquidity? && Apply(s, m).Ok?
    requires DepositHappened(s, Apply(s, m).value, m.sender, m.maxToken, m.exactStandard, k)
    ensures 0 < Sup(s.bank, k.lpt) + k.terms.minted
  {
    hide Inv, Apply, DepositBalances, DepositSupply, PoolId, CreatePool, Decimal.Share, Amm.MintedShares,
        Amm.TokenDeposit;
    FeeBelowOne(s);
    AddChecks(s, m);
  }

  lemma AddChecks(s: State, m: Msg)
    requires FeeValid(s.params) && m.AddLiquidity? && Apply(s, m).Ok?
    ensures 0 < m.exactStandard
  {
    hide ValidDenom, HasLptPrefix, DepositTarget, DepositTerms, Deposit;
  }

  lemma RemoveKeepsTidy(s: State, m: Msg)
    requires Inv(s) && Tidy(s) && Signed(m) && m.RemoveLiquidity? && Apply(s, m).Ok?
    ensures Tidy(Apply(s, m).value)
  {
    hide Inv, Remove, ValidDenom, HasLptPrefix, PoolId, Numbered, Amm.Redeemed;
    FeeBelowOne(s);
    var s' := Apply(s, m).value;
    var at := RemoveWithdraws(s, m.sender, m.withdraw, m.minToken, m.minStandard);
    PoolFacts(s, at);
    var v := ViewOf(s, at);
    Amm.RedeemKeepsShareValue(m.withdraw.amount, v.x, v.l);
    Amm.RedeemKeepsShareValue(m.withdraw.amount, v.y, v.l);
    forall l, d | 0 < Bal(s'.bank, Escrow(l), d) ensures Rightful(s', l, d) {
      assert Bal(s'.bank, Escrow(l), d) <= Bal(s.bank, Escrow(l), d);
      assert Rightful(s, l, d);
    }
  }

  lemma SwapTidyIff(s: State, m: Msg)
    requires Inv(s) && Tidy(s) && Signed(m) && m.SwapOrder? && Apply(s, m).Ok?
    ensures Tidy(Apply(s, m).value) <==> Contained(s, m)
  {
    hide Inv, Buy, Sell, ValidDenom, HasLptPrefix, PoolId, Numbered, ProductKept;
    FeeBelowOne(s);
    var s' := Apply(s, m).value;
    var t := SwapTrades(s, m.sender, m.input, m.recipient, m.output, m.isBuy);
    PoolFacts(s, t.id);
    var e := Escrow(s.reg.pools[t.id].lptDenom);
    SwapEscrows(s, m, t);
    assert 0 < Bal(s.bank, e, t.bought.denom);
    assert Rightful(s, s.reg.pools[t.id].lptDenom, t.bought.denom);
    if Contained(s, m) {
      forall l, d | 0 < Bal(s'.bank, Escrow(l), d) ensures Rightful(s', l, d) {
        assert (Escrow(l) == e && d == t.sold.denom) || (Escrow(l) == m.recipient && d == t.bought.denom)
          || Bal(s'.bank, Escrow(l), d) <= Bal(s.bank, Escrow(l), d);
      }
    }
    if Tidy(s') && m.recipient.Escrow? && m.recipient != e {
      assert 0 < Bal(s'.bank, Escrow(m.recipient.lptDenom), m.output.denom);
    }
  }

  /** A swap on the escrow accounts: only two of their balances can rise. */
  lemma SwapEscrows(s: State, m: Msg, t: Trade)
    requires m.SwapOrder? && m.sender.User? && FeeValid(s.params) && Apply(s, m).Ok?
    requires TradeHappened(s, Apply(s, m).value.bank, m.sender, m.recipient, t)
    ensures var s', e := Apply(s, m).value, Escrow(s.reg.pools[t.id].lptDenom);
      && s' == s.(bank := s'.bank) && s'.bank.supply == s.bank.supply
      && (forall l, d {:trigger Bal(s'.bank, Escrow(l), d)} ::
            (Escrow(l) == e && d == t.sold.denom) || (Escrow(l) == m.recipient && d == t.bought.denom)
            || Bal(s'.bank, Escrow(l), d) <= Bal(s.bank, Escrow(l), d))
      && (m.recipient.Escrow? && m.recipient != e ==>
            t.bought.amount <= Bal(s'.bank, Escrow(m.recipient.lptDenom), t.bought.denom))
  {
    hide Buy, Sell, ValidDenom, HasLptPrefix, ProductKept, Bal;
  }

  lemma OtherTidyIff(s: State, m: Msg)
    requires Inv(s) && Tidy(s) && Signed(m) && (m.UpdateParams? || m.BankSend?) && Apply(s, m).Ok?
    ensures Tidy(Apply(s, m).value) <==> Contained(s, m)
  {
    hide Inv, ParamsValid, Send;
    FeeBelowOne(s);
    var s' := Apply(s, m).value;
    assert forall l, d :: Rightful(s', l, d) <==> Rightful(s, l, d);
    if m.BankSend? && m.recipient.Escrow? && 0 < m.coin.amount {
      assert 0 < Bal(s'.bank, Escrow(m.recipient.lptDenom), m.coin.denom);
    }
  }

  /** Each message keeps escrow accounts tidy exactly when it is contained. */
  lemma ApplyTidyIff(s: State, m: Msg)
    requires Inv(s) && Tidy(s) && Signed(m) && Apply(s, m).Ok?
    ensures Tidy(Apply(s, m).value) <==> Contained(s, m)
  {
    hide Inv, Apply, Tidy, BurnsLastShares, Rightful;
    match m
    case AddLiquidity(_, _, _, _) => AddTidyIff(s, m);
    case RemoveLiquidity(_, _, _, _) => RemoveKeepsTidy(s, m);
    case SwapOrder(_, _, _, _, _) => SwapTidyIff(s, m);
    case UpdateParams(_) => OtherTidyIff(s, m);
    case BankSend(_, _, _) => OtherTidyIff(s, m);
  }

  /** Message `j` of a run fails, or is contained where it is run. */
  ghost predicate ContainedAt(s: State, ms: seq<Msg>, j: nat)
    requires FeeValid(s.params) && j < |ms|
  {
    Apply(After(s, ms, j), ms[j]).Ok? ==> Contained(After(s, ms, j), ms[j])
  }

  lemma DeliverTidyIff(s: State, m: Msg)
    requires Inv(s) && Tidy(s) && Signed(m) && FeeValid(s.params)
    ensures Tidy(Deliver(s, m)) <==> (Apply(s, m).Ok? ==> Contained(s, m))
  {
    hide Inv, Apply, Tidy, Contained;
    if Apply(s, m).Ok? { ApplyTidyIff(s, m); }
  }

  ghost predicate TidyUpTo(s: State, ms: seq<Msg>, n: nat)
    requires FeeValid(s.params) && n <= |ms|
  {
    forall i :: 0 <= i <= n ==> Tidy(After(s, ms, i))
  }

  ghost predicate ContainedUpTo(s: State, ms: seq<Msg>, n: nat)
    requires FeeValid(s.params) && n <= |ms|
  {
    forall j :: 0 <= j < n ==> ContainedAt(s, ms, j)
  }

  /** Both conditions grow by one message. */
  lemma UpToNext(s: State, ms: seq<Msg>, n: nat)
    requires FeeValid(s.params) && n < |ms|
    ensures TidyUpTo(s, ms, n + 1) <==> TidyUpTo(s, ms, n) && Tidy(After(s, ms, n + 1))
    ensures ContainedUpTo(s, ms, n + 1) <==> ContainedUpTo(s, ms, n) && ContainedAt(s, ms, n)
    ensures TidyUpTo(s, ms, n) ==> Tidy(After(s, ms, n))
  {
    hide Tidy, ContainedAt, After;
  }

  /** Escrow accounts stay tidy all along a run exactly when every successful message of it is contained. */
  lemma {:induction false} RunTidyIff(s: State, ms: seq<Msg>, n: nat)
    requires Inv(s) && Tidy(s) && Legit(s, ms) && n <= |ms|
    ensures FeeValid(s.params) && (TidyUpTo(s, ms, n) <==> ContainedUpTo(s, ms, n))
    ensures TidyUpTo(s, ms, n) ==> Tidy(After(s, ms, n))
  {
    hide Inv, Deliver, Tidy, Apply, Contained, TidyUpTo, ContainedUpTo;
    FeeBelowOne(s);
    if n == 0 {
      UpToStart(s, ms);
    } else {
      RunTidyIff(s, ms, n - 1);
      RunKeepsInv(s, ms, n - 1);
      UpToNext(s, ms, n - 1);
      if Tidy(After(s, ms, n - 1)) { DeliverTidyIff(After(s, ms, n - 1), ms[n - 1]); }
    }
  }

  lemma UpToStart(s: State, ms: seq<Msg>)
    requires FeeValid(s.params) && Tidy(s)
    ensures TidyUpTo(s, ms, 0) && ContainedUpTo(s, ms, 0) && After(s, ms, 0) == s
  {
    hide Tidy, ContainedAt;
  }

  /** What tidiness means: a pool without shares has nothing in its escrow account. */
  lemma TidyMeansEmpty(s: State, l: Denom, d: Denom)
    requires Tidy(s) && Sup(s.bank, l) == 0
    ensures Bal(s.bank, Escrow(l), d) == 0
  {
  }

  /** In every such run, every successful deposit leaves the standard reserve of its pool within the cap. */
  lemma RunRespectsCap(s: State, ms: seq<Msg>, i: nat) returns (k: Deposited)
    requires Inv(s) && Tidy(s) && Legit(s, ms) && i < |ms| && ms[i].AddLiquidity?
    requires ContainedUpTo(s, ms, i) && Apply(After(s, ms, i), ms[i]).Ok?
    ensures var t, t' := After(s, ms, i), After(s, ms, i + 1);
      && DepositHappened(t, t', ms[i].sender, ms[i].maxToken, ms[i].exactStandard, k)
      && Bal(t'.bank, Escrow(k.lpt), t.standard) <= t.params.maxStandard
  {
    hide Inv, Apply, Tidy, DepositHappened, ContainedUpTo, TidyUpTo;
    FeeBelowOne(s);
    RunKeepsInv(s, ms, i);
    RunTidyIff(s, ms, i);
    k := CapRespected(After(s, ms, i), ms[i]);
  }
}
