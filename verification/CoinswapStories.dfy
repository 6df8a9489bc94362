/**
  Runs in which the cap on the standard coin is exceeded and in which a pool's last shares are burned while
  it still holds coins, both from an ordinary start and for accepted parameters.
 */
module CoinswapStories {
  import opened Text
  import opened Bank
  import opened Basics
  import opened PoolRegistry
  import opened Coinswap
  import opened CoinswapSteps
  import opened CoinswapRuns
  import opened CoinswapLedger
  import opened CoinswapProgress
  import Decimal

  const ALICE := User("alice")
  const STANDARD: Denom := "acanto"
  const USDC: Denom := "usdc"
  const USDT: Denom := "usdt"

  /** No fees, a cap of ten, two whitelisted tokens. */
  const PARAMS := Params(0, 0, Coin(STANDARD, 0), 10, [Coin(USDC, 100), Coin(USDT, 100)])

  const HOLDINGS: map<Addr, nat> := map[ALICE := 20]

  /** A chain without pools on which Alice holds twenty of each coin. */
  function Start(): State {
    State(Ledger(map[STANDARD := HOLDINGS, USDC := HOLDINGS, USDT := HOLDINGS],
      map[STANDARD := 20, USDC := 20, USDT := 20], {ALICE}), Registry(map[], map[], 1), STANDARD, PARAMS)
  }

  lemma DenomsAreValid()
    ensures ValidDenom(STANDARD) && ValidDenom(USDC) && ValidDenom(USDT)
    ensures !HasLptPrefix(STANDARD) && !HasLptPrefix(USDC) && !HasLptPrefix(USDT)
    ensures Before(USDC, USDT)
  {
    assert STANDARD[..3] == "aca" && USDC[..3] == "usd" && USDT[..3] == "usd";
    assert Before("c", "t");
    assert Before("dc", "dt");
    assert Before("sdc", "sdt");
  }

  lemma ParamsAreValid()
    ensures ParamsValid(PARAMS) && Whitelisted(PARAMS, USDC) && Whitelisted(PARAMS, USDT)
  {
    DenomsAreValid();
    hide ValidDenom, Before;
    assert PARAMS.maxSwap[1..] == [Coin(USDT, 100)];
    assert USDC[3] != USDT[3];
    assert LimitOf(PARAMS.maxSwap, USDT) == LimitOf([Coin(USDT, 100)], USDT);
  }

  lemma StartSatisfiesInv()
    ensures Inv(Start()) && FeeValid(Start().params)
    ensures forall d :: d == STANDARD || d == USDC || d == USDT ==> Bal(Start().bank, ALICE, d) == 20
  {
    DenomsAreValid();
    ParamsAreValid();
    TotalPick(HOLDINGS, ALICE);
    assert HOLDINGS - {ALICE} == map[];
    GenesisSatisfiesInv(Start().bank, STANDARD, PARAMS);
  }

  // ---- The cap --------------------------------------------------------------------------------------------

  /** Pay the escrow account of the pool to come, then create the pool. */
  function Prefunding(s: State, sender: Addr, token: Denom): seq<Msg> {
    [BankSend(sender, Escrow(LptDenom(s.reg.sequence)), Coin(s.standard, s.params.maxStandard)),
     AddLiquidity(sender, Coin(token, 1), 1, 1)]
  }

  /** Where creating pools is free, whoever holds one coin more than the cap can take a new pool above it. */
  lemma CapCanBeExceeded(s: State, sender: Addr, token: Denom)
    requires Inv(s) && sender.User? && PoolId(token) !in s.reg.pools && CheckDeposit(s, Coin(token, 1), 1).Ok?
    requires s.params.poolCreationFee.amount == 0 && s.reg.sequence + 1 < UINT64
    requires s.params.maxStandard < Bal(s.bank, sender, s.standard) && 0 < Bal(s.bank, sender, token)
    ensures FeeValid(s.params)
    ensures var ms, e := Prefunding(s, sender, token), Escrow(LptDenom(s.reg.sequence));
      && Apply(s, ms[0]).Ok? && Apply(After(s, ms, 1), ms[1]).Ok? && !Contained(s, ms[0])
      && s.params.maxStandard < Bal(After(s, ms, 2).bank, e, s.standard)
  {
    hide Inv, Add, Send, PoolId, LptDenom, HasLptPrefix, ValidDenom, LimitOf, Allows;
    FeeBelowOne(s);
    CapIsPositive(s);
    var ms := Prefunding(s, sender, token);
    var s1 := Apply(s, ms[0]).value;
    assert After(s, ms, 0) == s && After(s, ms, 1) == s1;
    ApplyKeepsInv(s, ms[0]);
    FreshIsNotRightful(s);
    DepositableIff(s1, Coin(token, 1), 1);
    FirstDepositSucceedsIff(s1, sender, Coin(token, 1), 1, 1);
    var s2 := Apply(s1, ms[1]).value;
    assert After(s, ms, 2) == s2;
    NewPoolReserve(s1, ms[1]);
  }

  lemma CapIsPositive(s: State)
    requires Inv(s)
    ensures 0 < s.params.maxStandard
  {
  }

  lemma FreshIsNotRightful(s: State)
    requires Inv(s)
    ensures !Rightful(s, LptDenom(s.reg.sequence), s.standard)
  {
    hide LptDenom, PoolId, ValidDenom, HasLptPrefix, Numbered;
    NextDenomIsFresh(s.reg);
  }

  /** The reserve of a new pool is over the cap if its escrow account already held that much. */
  lemma NewPoolReserve(s: State, m: Msg)
    requires Inv(s) && Signed(m) && m.AddLiquidity? && Apply(s, m).Ok? && PoolId(m.maxToken.denom) !in s.reg.pools
    requires s.params.maxStandard <= Bal(s.bank, Escrow(LptDenom(s.reg.sequence)), s.standard) && 0 < m.exactStandard
    ensures s.params.maxStandard < Bal(Apply(s, m).value.bank, Escrow(LptDenom(s.reg.sequence)), s.standard)
  {
    hide Inv, Apply, DepositHappened, PoolId, LptDenom;
    FeeBelowOne(s);
    var k := CapHoldsIff(s, m);
    MintedByDeposit(s, m, k);
    NewSharesAreFresh(s, m, k);
  }

  /** From the start: the escrow account is paid the cap, and the pool then created holds eleven of at most ten. */
  lemma CapExceeded()
    ensures FeeValid(Start().params) && Inv(Start())
    ensures var s, ms := Start(), Prefunding(Start(), ALICE, USDC);
      10 == s.params.maxStandard < Bal(After(s, ms, 2).bank, Escrow(LptDenom(1)), STANDARD)
  {
    StartSatisfiesInv();
    DenomsAreValid();
    ParamsAreValid();
    hide Inv, After, ValidDenom, HasLptPrefix, LptDenom, LimitOf, Allows;
    CapCanBeExceeded(Start(), ALICE, USDC);
  }

  // ---- The last shares ------------------------------------------------------------------------------------

  /** Set the creation fee to all shares of a pool, then create another pool. */
  function FeeInShares(p: Params, lpt: Denom, amount: nat, sender: Addr, token: Denom): seq<Msg> {
    [UpdateParams(p.(taxRate := 0, poolCreationFee := Coin(lpt, amount))), AddLiquidity(sender, Coin(token, 1), 1, 1)]
  }

  /**
    Whoever holds all shares of a pool, and one standard coin and one token besides, burns them by creating
    a pool once the fee is set to them. The coins of the pool stay in its escrow account.
   */
  lemma LastSharesCanBurn(s: State, sender: Addr, lpt: Denom, token: Denom)
    requires Inv(s) && sender.User? && s.reg.sequence + 1 < UINT64
    requires lpt in s.reg.byLpt && 0 < Sup(s.bank, lpt) <= Bal(s.bank, sender, lpt)
    requires PoolId(token) !in s.reg.pools && CheckDeposit(s, Coin(token, 1), 1).Ok?
    requires 0 < Bal(s.bank, sender, s.standard) && 0 < Bal(s.bank, sender, token)
    ensures FeeValid(s.params) && s.reg.byLpt[lpt] in s.reg.pools
    ensures var ms := FeeInShares(s.params, lpt, Sup(s.bank, lpt), sender, token);
      && Apply(s, ms[0]).Ok? && Apply(After(s, ms, 1), ms[1]).Ok?
      && var b := After(s, ms, 2).bank;
        && Sup(b, lpt) == 0 && 0 < Bal(b, Escrow(lpt), s.standard)
        && 0 < Bal(b, Escrow(lpt), s.reg.pools[s.reg.byLpt[lpt]].counterpartyDenom)
  {
    hide Inv, Apply, PoolId, CheckDeposit;
    FeeBelowOne(s);
    IndexedPool(s, lpt);
    var ms := FeeInShares(s.params, lpt, Sup(s.bank, lpt), sender, token);
    SettingTheFee(s, lpt, token);
    var s1 := Apply(s, ms[0]).value;
    assert After(s, ms, 0) == s && After(s, ms, 1) == s1;
    CreatingBurns(s1, sender, lpt, token);
    assert After(s, ms, 2) == Apply(s1, ms[1]).value;
  }

  lemma SettingTheFee(s: State, lpt: Denom, token: Denom)
    requires Inv(s) && s.reg.sequence + 1 < UINT64 && CheckDeposit(s, Coin(token, 1), 1).Ok?
    ensures FeeValid(s.params)
    ensures var p := s.params.(taxRate := 0, poolCreationFee := Coin(lpt, Sup(s.bank, lpt)));
      && Apply(s, UpdateParams(p)) == Ok(s.(params := p)) && Inv(s.(params := p))
      && CheckDeposit(s.(params := p), Coin(token, 1), 1).Ok?
  {
    ParamsStayValid(s);
    hide Inv, CoinsValid, ValidDenom, HasLptPrefix, LimitOf;
    var p := s.params.(taxRate := 0, poolCreationFee := Coin(lpt, Sup(s.bank, lpt)));
    ApplyKeepsInv(s, UpdateParams(p));
  }

  lemma CreatingBurns(s: State, sender: Addr, lpt: Denom, token: Denom)
    requires Inv(s) && sender.User? && lpt in s.reg.byLpt && 0 < Sup(s.bank, lpt) <= Bal(s.bank, sender, lpt)
    requires s.params.taxRate == 0 && s.params.poolCreationFee == Coin(lpt, Sup(s.bank, lpt))
    requires PoolId(token) !in s.reg.pools && CheckDeposit(s, Coin(token, 1), 1).Ok?
    requires 0 < Bal(s.bank, sender, s.standard) && 0 < Bal(s.bank, sender, token)
    ensures FeeValid(s.params) && s.reg.byLpt[lpt] in s.reg.pools
    ensures var m := AddLiquidity(sender, Coin(token, 1), 1, 1);
      && Apply(s, m).Ok? && var b := Apply(s, m).value.bank;
        && Sup(b, lpt) == 0 && 0 < Bal(b, Escrow(lpt), s.standard)
        && 0 < Bal(b, Escrow(lpt), s.reg.pools[s.reg.byLpt[lpt]].counterpartyDenom)
  {
    IndexedAreShares(s, lpt);
    hide Inv, Add, PoolId, HasLptPrefix, CheckDeposit, Bal, Sup;
    FeeBelowOne(s);
    IndexedPool(s, lpt);
    CreatingSucceeds(s, sender, lpt, token);
    LastSharesLeaveCoins(s, AddLiquidity(sender, Coin(token, 1), 1, 1));
  }

  lemma CreatingSucceeds(s: State, sender: Addr, lpt: Denom, token: Denom)
    requires Inv(s) && sender.User? && lpt in s.reg.byLpt && 0 < Sup(s.bank, lpt) <= Bal(s.bank, sender, lpt)
    requires s.params.poolCreationFee == Coin(lpt, Sup(s.bank, lpt))
    requires PoolId(token) !in s.reg.pools && CheckDeposit(s, Coin(token, 1), 1).Ok?
    requires 0 < Bal(s.bank, sender, s.standard) && 0 < Bal(s.bank, sender, token)
    ensures Add(s, sender, Coin(token, 1), 1, 1).Ok?
  {
    hide Inv, Add, PoolId, CheckDeposit, Depositable, CreationSuits, Bal, Sup;
    LptIsNeither(s, lpt, token);
    CapIsPositive(s);
    FeeIsPayable(s, sender, lpt, token);
    DepositableIff(s, Coin(token, 1), 1);
    FirstDepositSucceedsIff(s, sender, Coin(token, 1), 1, 1);
  }

  lemma FeeIsPayable(s: State, sender: Addr, lpt: Denom, token: Denom)
    requires lpt != s.standard && lpt != token && 0 < s.params.maxStandard
    requires s.params.poolCreationFee == Coin(lpt, Sup(s.bank, lpt)) && Sup(s.bank, lpt) <= Bal(s.bank, sender, lpt)
    requires 0 < Bal(s.bank, sender, s.standard) && 0 < Bal(s.bank, sender, token)
    ensures CreationSuits(s, sender, Coin(token, 1), 1, 1)
  {
    hide Bal, Sup;
  }

  lemma LptIsNeither(s: State, lpt: Denom, token: Denom)
    requires Inv(s) && lpt in s.reg.byLpt && CheckDeposit(s, Coin(token, 1), 1).Ok?
    ensures lpt != s.standard && lpt != token
  {
    hide Inv, HasLptPrefix, CheckDeposit;
    IndexedAreShares(s, lpt);
    StandardIsNoShare(s);
    TokenIsNoShare(s, token);
  }

  lemma TokenIsNoShare(s: State, token: Denom)
    requires CheckDeposit(s, Coin(token, 1), 1).Ok?
    ensures !HasLptPrefix(token)
  {
    hide LimitOf;
  }

  /** What a first deposit of one coin each leaves, where creating pools is free. */
  lemma FirstDepositOfOne(s: State, m: Msg)
    requires Inv(s) && m.AddLiquidity? && m.sender.User? && Apply(s, m).Ok? && PoolId(m.maxToken.denom) !in s.reg.pools
    requires m.maxToken.amount == 1 == m.exactStandard && s.params.poolCreationFee.amount == 0
    ensures var s', lpt := Apply(s, m).value, LptDenom(s.reg.sequence);
      && s'.reg == CreatePool(s.reg, s.standard, m.maxToken.denom) && s'.params == s.params
      && s'.standard == s.standard && Sup(s'.bank, lpt) == 1
      && Bal(s'.bank, m.sender, lpt) == Bal(s.bank, m.sender, lpt) + 1
      && Bal(s.bank, m.sender, s.standard) <= Bal(s'.bank, m.sender, s.standard) + 1
      && (forall d {:trigger Bal(s'.bank, m.sender, d)} :: d != s.standard && d != m.maxToken.denom ==>
            Bal(s.bank, m.sender, d) <= Bal(s'.bank, m.sender, d))
  {
    FeeBelowOne(s);
    PrefixesDiffer(s, m);
    hide Inv, Add, PoolId, LptDenom, CreatePool, FairTerms, Decimal.Share, HasLptPrefix, ValidDenom, DepositTerms;
    var k := AddDeposits(s, m.sender, m.maxToken, m.exactStandard, m.minLiquidity);
    FeeWasHeld(s, m, k);
    MintedByDeposit(s, m, k);
    NewSharesAreFresh(s, m, k);
    FairTermsOfOne(s, m, k);
  }

  lemma FairTermsOfOne(s: State, m: Msg, k: Deposited)
    requires FeeValid(s.params) && m.AddLiquidity? && m.maxToken.amount == 1 == m.exactStandard
    requires Sup(s.bank, k.lpt) == 0
    requires FairTerms(PoolView(s.bank, k.lpt, s.standard, m.maxToken.denom), k.terms, s.params.maxStandard, 1, 1)
    ensures k.terms == Terms(1, 1, 1)
  {
  }

  lemma PrefixesDiffer(s: State, m: Msg)
    requires Inv(s) && m.AddLiquidity? && FeeValid(s.params) && Apply(s, m).Ok?
    ensures LptDenom(s.reg.sequence) != s.standard && LptDenom(s.reg.sequence) != m.maxToken.denom
    ensures m.maxToken.denom != s.standard
  {
    StandardIsNoShare(s);
    hide Inv, LptDenom, ValidDenom, HasLptPrefix, DepositTarget, DepositTerms, Deposit, LimitOf;
  }

  /** From the start: Alice opens a pool, the fee is set to its one share, and Alice opens another pool. */
  function Opening(): Msg {
    AddLiquidity(ALICE, Coin(USDC, 1), 1, 1)
  }

  lemma OpeningSucceeds()
    ensures FeeValid(Start().params) && Inv(Start()) && Apply(Start(), Opening()).Ok?
    ensures var s := Apply(Start(), Opening()).value;
      && Inv(s) && s.params == PARAMS && s.standard == STANDARD
      && s.reg == CreatePool(Start().reg, STANDARD, USDC)
      && Sup(s.bank, LptDenom(1)) == 1 <= Bal(s.bank, ALICE, LptDenom(1))
      && 0 < Bal(s.bank, ALICE, STANDARD) && 0 < Bal(s.bank, ALICE, USDT)
  {
    StartSatisfiesInv();
    DenomsAreValid();
    ParamsAreValid();
    LptsDiffer();
    hide Inv, Add, ValidDenom, HasLptPrefix, LptDenom, PoolId, LimitOf, Allows, CoinsValid, Bal, CreatePool;
    DepositableIff(Start(), Coin(USDC, 1), 1);
    FirstDepositSucceedsIff(Start(), ALICE, Coin(USDC, 1), 1, 1);
    ApplyKeepsInv(Start(), Opening());
    FirstDepositOfOne(Start(), Opening());
  }

  lemma LptsDiffer()
    ensures LptDenom(1) != STANDARD && LptDenom(1) != USDC && LptDenom(1) != USDT && USDC != USDT
      && STANDARD != USDC && STANDARD != USDT
  {
    DenomsAreValid();
    hide LptDenom;
    assert USDC[3] != USDT[3] && |STANDARD| != |USDC| && |STANDARD| != |USDT|;
  }

  lemma LastSharesBurned()
    ensures FeeValid(Start().params) && Inv(Start())
    ensures var ms := [Opening()] + FeeInShares(PARAMS, LptDenom(1), 1, ALICE, USDT);
      var b := After(Start(), ms, 3).bank;
      Sup(b, LptDenom(1)) == 0 && 0 < Bal(b, Escrow(LptDenom(1)), STANDARD) && 0 < Bal(b, Escrow(LptDenom(1)), USDC)
  {
    OpeningSucceeds();
    DenomsAreValid();
    ParamsAreValid();
    PoolIdInjective(USDC, USDT);
    LptsDiffer();
    hide Inv, Apply, ValidDenom, HasLptPrefix, LptDenom, LimitOf, Allows, PoolId;
    assert 1 == Start().reg.sequence;
    var s, rest := Apply(Start(), Opening()).value, FeeInShares(PARAMS, LptDenom(1), 1, ALICE, USDT);
    LastSharesCanBurn(s, ALICE, LptDenom(1), USDT);
    Continues(Start(), Opening(), rest);
  }

  /** A run of three messages is one message and a run of two. */
  lemma Continues(s: State, m: Msg, rest: seq<Msg>)
    requires FeeValid(s.params) && |rest| == 2
    ensures After(s, [m] + rest, 3) == After(Deliver(s, m), rest, 2)
  {
    hide Deliver;
    var ms, t := [m] + rest, Deliver(s, m);
    assert After(s, ms, 0) == s && After(s, ms, 1) == t;
    assert After(t, rest, 0) == t;
    assert After(s, ms, 2) == After(t, rest, 1);
  }
}
