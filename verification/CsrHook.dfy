/** The fee hook of the CSR module, run after every EVM transaction. */
module CsrHook {
  import opened Arithmetic
  import opened Basics
  import opened Wire
  import opened CsrCodec
  import opened CsrRegistry
  import opened Bank
  import Decimal
  import Amm

  // ---- One transaction --------------------------------------------------------------------------------

  /** What became of a fee. */
  datatype Outcome = Idle | Burned(fee: nat) | Distributed(id: nat, csrFee: nat, rest: nat)

  datatype Failure = Panic | FeeDistribution | NonexistentCsr | NoTurnstile

  datatype HookResult = Committed(state: State, outcome: Outcome) | Failed(failure: Failure)

  /** A coin literal with a zero amount is rejected by the bank. */
  function SendLiteral(b: Ledger, src: Addr, dst: Addr, c: Coin): Bank.Result<Ledger> {
    if c.amount == 0 then Bank.Err(InvalidCoins) else Send(b, src, dst, c)
  }

  function BurnLiteral(b: Ledger, a: Addr, c: Coin): Bank.Result<Ledger> {
    if c.amount == 0 then Bank.Err(InvalidCoins) else Burn(b, a, c)
  }

  /** The record of an NFT after it was paid a share. */
  function Paid(c: Csr, share: nat): Csr {
    c.(txs := (c.txs + 1) % UINT64, revenue := c.revenue + share)
  }

  /** Pay the CSR share to the Turnstile, which refuses a call without value; burn the rest; book both on the record. */
  function Distribute(s: State, tx: Tx, fee: nat, id: nat): (r: HookResult)
    requires SharesValid(s.params)
    ensures r.Committed? ==> r.state.params == s.params
  {
    if id !in s.csrs then Failed(NonexistentCsr) else
      var c := s.csrs[id];
      Decimal.ShareBounds(fee, s.params.shares);
      var csrFee := Decimal.Share(fee, s.params.shares);
      if s.turnstile.None? then Failed(NoTurnstile)
      else if csrFee == 0 || !tx.callOk then Failed(FeeDistribution)
      else
        var paid := Send(s.bank, CSR_MODULE, TURNSTILE, Coin(s.denom, csrFee));
        if paid.Err? then Failed(FeeDistribution) else
          var burned := BurnLiteral(paid.value, CSR_MODULE, Coin(s.denom, fee - csrFee));
          if burned.Err? then Failed(FeeDistribution)
          else if c.revenue + csrFee >= INT_LIMIT then Failed(Panic)
          else
            if !Storable(Paid(c, csrFee)) then Failed(Panic)
            else Committed(SetCsr(s.(bank := burned.value), Paid(c, csrFee)), Distributed(id, csrFee, fee - csrFee))
  }

  function Fee(tx: Tx): nat {
    MulNat(tx.gasUsed, tx.gasPrice);
    tx.gasUsed * tx.gasPrice
  }

  /** The part after the events: collect the fee, then burn or distribute it. */
  function SettleFee(s: State, tx: Tx): (r: HookResult)
    requires SharesValid(s.params)
    ensures r.Committed? ==> r.state.params == s.params
  {
    if tx.gasUsed == 0 then Committed(s, Idle) else
      var fee := Fee(tx);
      if fee >= INT_LIMIT then Failed(Panic) else
        var taken := SendLiteral(s.bank, FEE_COLLECTOR, CSR_MODULE, Coin(s.denom, fee));
        if taken.Err? then Failed(FeeDistribution) else
          var s1 := s.(bank := taken.value);
          if tx.to.None? || tx.to.value !in s.index then
            var burned := BurnLiteral(s1.bank, CSR_MODULE, Coin(s.denom, fee));
            if burned.Err? then Failed(FeeDistribution) else Committed(s1.(bank := burned.value), Burned(fee))
          else Distribute(s1, tx, fee, s.index[tx.to.value])
  }

  ghost function Hook(s: State, tx: Tx): (r: HookResult)
    requires SharesValid(s.params)
    ensures r.Committed? ==> r.state.params == s.params
  {
    if !s.params.enable then Committed(s, Idle) else
      match ProcessEvents(s, tx)
      case None => Failed(Panic)
      case Some(s1) => SettleFee(s1, tx)
  }

  // ---- What a transaction owes, from the transaction alone --------------------------------------------

  /** The part of a fee that goes to the NFT: the fee times the share, rounded down. */
  function ShareOf(fee: nat, shares: nat): (n: nat) {
    MulNat(fee, shares);
    Quo(fee * shares, Amm.P)
  }

  /** There is one share: what it is worth is at most its part of the fee, and one more would be more than that. */
  lemma ShareIs(fee: nat, shares: nat, n: nat)
    ensures n * Amm.P <= fee * shares < (n + 1) * Amm.P <==> n == ShareOf(fee, shares)
  {
    MulNat(fee, shares);
    DivAtLeast(fee * shares, Amm.P, n);
    DivAtLeast(fee * shares, Amm.P, n + 1);
  }

  /** The NFT of the called contract, if it is registered. */
  function Payee(s: State, tx: Tx): Option<nat> {
    if tx.to.Some? && tx.to.value in s.index then Some(s.index[tx.to.value]) else None
  }

  /** The NFT that earns from a transaction: its own events are processed first. */
  ghost function Beneficiary(s: State, tx: Tx): Option<nat> {
    match ProcessEvents(s, tx)
    case None => None
    case Some(s1) => Payee(s1, tx)
  }

  function FeeOf(o: Outcome): nat {
    match o
    case Idle => 0
    case Burned(fee) => fee
    case Distributed(_, csrFee, rest) => csrFee + rest
  }

  function RevenueOf(o: Outcome): nat {
    if o.Distributed? then o.csrFee else 0
  }

  /** How a settled fee shows in the balance of `a`. */
  function HookGain(fee: nat, share: nat, a: Addr): int {
    (if a == TURNSTILE then share else 0) - (if a == FEE_COLLECTOR then fee else 0)
  }

  /**
    The fee leaves the collector, the share reaches the Turnstile, the rest is destroyed. No other balance
    and no other supply changes; in particular the module account keeps nothing.
   */
  ghost predicate Settled(b: Ledger, b': Ledger, d: Denom, fee: nat, share: nat) {
    && (forall a, d' {:trigger Bal(b', a, d')} ::
          Bal(b', a, d') == Bal(b, a, d') + if d' == d then HookGain(fee, share, a) else 0)
    && (forall d' {:trigger Sup(b', d')} :: Sup(b', d') == Sup(b, d') - if d' == d then fee - share else 0)
  }

  /** Exactly one record is credited, with the share and one more transaction modulo 2^64. */
  ghost predicate Credited(s: State, s': State, o: Outcome) {
    if o.Distributed? then
      o.id in s.csrs && s'.csrs == s.csrs[o.id := Paid(s.csrs[o.id], o.csrFee)]
    else s'.csrs == s.csrs
  }

  /** The outcome is the one the transaction calls for, to the coin. */
  ghost predicate Attributed(enabled: bool, payee: Option<nat>, shares: nat, tx: Tx, o: Outcome) {
    match o
    case Idle => !enabled || tx.gasUsed == 0
    case Burned(fee) => enabled && 0 < tx.gasUsed && payee == None && fee == tx.gasUsed * tx.gasPrice
    case Distributed(id, csrFee, rest) =>
      && enabled && 0 < tx.gasUsed && payee == Some(id) && csrFee + rest == tx.gasUsed * tx.gasPrice
      && csrFee * Amm.P <= (csrFee + rest) * shares < (csrFee + 1) * Amm.P
  }

  /** The amounts of an outcome, as functions of the transaction. */
  lemma OutcomeAmounts(enabled: bool, payee: Option<nat>, shares: nat, tx: Tx, o: Outcome)
    requires Attributed(enabled, payee, shares, tx, o)
    ensures FeeOf(o) == if enabled then Fee(tx) else 0
    ensures o.Distributed? <==> enabled && 0 < tx.gasUsed && payee.Some?
    ensures o.Distributed? ==> o.id == payee.value && o.csrFee == ShareOf(Fee(tx), shares)
    ensures tx.gasUsed == 0 ==> Fee(tx) == 0
  {
    hide ShareOf;
    if o.Distributed? { ShareIs(o.csrFee + o.rest, shares, o.csrFee); }
  }

  lemma BurnSettles(s: State, tx: Tx)
    requires SharesValid(s.params) && SettleFee(s, tx).Committed? && 0 < tx.gasUsed && Payee(s, tx).None?
    ensures var r := SettleFee(s, tx);
      && r.outcome == Burned(Fee(tx)) && r.state == s.(bank := r.state.bank)
      && Settled(s.bank, r.state.bank, s.denom, Fee(tx), 0)
  {
    hide Send, Burn, Fee, Distribute;
  }

  lemma DistributionSettles(s: State, tx: Tx, fee: nat, id: nat)
    requires SharesValid(s.params) && Distribute(s, tx, fee, id).Committed? && id in s.csrs && s.csrs[id].id == id
    ensures var r, share := Distribute(s, tx, fee, id), ShareOf(fee, s.params.shares);
      && share <= fee && r.outcome == Distributed(id, share, fee - share) && Credited(s, r.state, r.outcome)
      && r.state == s.(bank := r.state.bank, csrs := r.state.csrs, index := r.state.index)
      && (forall a, d {:trigger Bal(r.state.bank, a, d)} :: Bal(r.state.bank, a, d)
            == Bal(s.bank, a, d) + Moved(a, d, CSR_MODULE, TURNSTILE, s.denom, share)
             - if a == CSR_MODULE && d == s.denom then fee - share else 0)
      && (forall d {:trigger Sup(r.state.bank, d)} :: Sup(r.state.bank, d)
            == Sup(s.bank, d) - if d == s.denom then fee - share else 0)
  {
    hide Storable, Decimal.Share, IndexAll, Send, Burn;
    Decimal.ShareIsFloor(fee, s.params.shares);
    Decimal.ShareBounds(fee, s.params.shares);
  }

  lemma DistributionAgrees(s: State, tx: Tx, fee: nat, id: nat)
    requires Agree(s) && SharesValid(s.params) && Distribute(s, tx, fee, id).Committed? && id in s.csrs
    ensures Agree(Distribute(s, tx, fee, id).state) && Distribute(s, tx, fee, id).state.index == s.index
  {
    hide Storable, Decimal.Share, IndexAll, Send, Burn, Agree;
    FoundRecord(s, id);
    IndexAllContents(s.index, s.csrs[id].contracts, id);
    Decimal.ShareBounds(fee, s.params.shares);
    var c, csrFee := s.csrs[id], Decimal.Share(fee, s.params.shares);
    SetCsrKeepsAgreement(s, Paid(c, csrFee));
    AgreeIgnoresBank(SetCsr(s, Paid(c, csrFee)), Distribute(s, tx, fee, id).state);
  }

  lemma FoundRecord(s: State, id: nat)
    requires Agree(s) && id in s.csrs
    ensures RecordSound(s, id)
  {
  }

  /** Collecting the fee, then distributing it: the module account is where it passes through. */
  lemma PassedThrough(b: Ledger, b1: Ledger, b2: Ledger, d: Denom, fee: nat, share: nat)
    requires share <= fee
    requires forall a, d' {:trigger Bal(b1, a, d')} ::
      Bal(b1, a, d') == Bal(b, a, d') + Moved(a, d', FEE_COLLECTOR, CSR_MODULE, d, fee)
    requires forall d' {:trigger Sup(b1, d')} :: Sup(b1, d') == Sup(b, d')
    requires forall a, d' {:trigger Bal(b2, a, d')} ::
      Bal(b2, a, d') == Bal(b1, a, d') + Moved(a, d', CSR_MODULE, TURNSTILE, d, share)
        - if a == CSR_MODULE && d' == d then fee - share else 0
    requires forall d' {:trigger Sup(b2, d')} :: Sup(b2, d') == Sup(b1, d') - if d' == d then fee - share else 0
    ensures Settled(b, b2, d, fee, share)
  {
    hide Bal, Sup;
  }

  /** The whole of one settlement: who is paid what, what is destroyed, and what is booked where. */
  lemma SettleFeeEffect(s: State, tx: Tx)
    requires Agree(s) && SharesValid(s.params) && s.turnstile.Some? && SettleFee(s, tx).Committed?
    ensures var r := SettleFee(s, tx);
      && Attributed(true, Payee(s, tx), s.params.shares, tx, r.outcome)
      && RevenueOf(r.outcome) <= FeeOf(r.outcome)
      && Settled(s.bank, r.state.bank, s.denom, FeeOf(r.outcome), RevenueOf(r.outcome))
      && Credited(s, r.state, r.outcome) && Agree(r.state)
      && r.state == s.(bank := r.state.bank, csrs := r.state.csrs)
  {
    hide Storable, Send, Burn, Agree, Distribute, Settled;
    var r := SettleFee(s, tx);
    if tx.gasUsed == 0 {
      NothingSettled(s.bank, s.denom);
    } else if Payee(s, tx).None? {
      BurnSettles(s, tx);
      AgreeIgnoresBank(s, r.state);
    } else {
      var id, fee := Payee(s, tx).value, Fee(tx);
      IndexedRecord(s, tx.to.value);
      var s1 := s.(bank := Send(s.bank, FEE_COLLECTOR, CSR_MODULE, Coin(s.denom, fee)).value);
      AgreeIgnoresBank(s, s1);
      DistributionSettles(s1, tx, fee, id);
      DistributionAgrees(s1, tx, fee, id);
      PassedThrough(s.bank, s1.bank, r.state.bank, s.denom, fee, ShareOf(fee, s.params.shares));
      ShareIs(fee, s.params.shares, ShareOf(fee, s.params.shares));
    }
  }

  lemma NothingSettled(b: Ledger, d: Denom)
    ensures Settled(b, b, d, 0, 0)
  {
    assert forall a :: HookGain(0, 0, a) == 0;
  }

  lemma IndexedRecord(s: State, c: Bytes)
    requires Agree(s) && c in s.index
    ensures s.index[c] in s.csrs && RecordSound(s, s.index[c])
  {
  }

  lemma AgreeIgnoresBank(s: State, s': State)
    requires Agree(s) && s'.csrs == s.csrs && s'.index == s.index
    ensures Agree(s')
  {
    forall n | n in s'.csrs ensures RecordSound(s', n) { assert RecordSound(s, n); }
  }

  /** With consistent indexes, an NFT that is found always has its record. */
  lemma RecordIsAlwaysFound(s: State, tx: Tx)
    requires Agree(s) && SharesValid(s.params)
    ensures Hook(s, tx) != Failed(NonexistentCsr)
  {
    hide Storable, Decimal.Share, IndexAll, Send, Burn, Fee, Agree, ProcessFrom;
    if s.turnstile.Some? {
      ProcessKeepsAgreement(s, s.turnstile.value, tx.logs, 0, tx.coded);
      var r := ProcessEvents(s, tx);
      if r.Some? && tx.to.Some? && tx.to.value in r.value.index { IndexedRecord(r.value, tx.to.value); }
    }
  }

  /**
    What a distribution needs beyond the fee itself: a share below one, so that something is left to burn;
    at least one whole coin for the Turnstile, which refuses a call without value; and room on the record.
   */
  predicate CanDistribute(s: State, tx: Tx, id: nat) {
    MulNat(tx.gasUsed, tx.gasPrice);
    var fee: nat := tx.gasUsed * tx.gasPrice;
    && s.params.shares < Amm.P && Amm.P <= fee * s.params.shares && tx.callOk
    && id in s.csrs && var share := ShareOf(fee, s.params.shares);
      s.csrs[id].revenue + share < INT_LIMIT && Storable(Paid(s.csrs[id], share))
  }

  /** A share is at least one coin, and leaves at least one, exactly within these bounds. */
  lemma ShareLeavesBoth(fee: nat, shares: nat)
    requires shares <= Amm.P && 0 < fee
    ensures Decimal.Share(fee, shares) == ShareOf(fee, shares) <= fee
    ensures 0 < ShareOf(fee, shares) < fee <==> shares < Amm.P && Amm.P <= fee * shares
  {
    hide Decimal.Share;
    Decimal.ShareIsFloor(fee, shares);
    Decimal.ShareBounds(fee, shares);
    DivAtLeast(fee * shares, Amm.P, 1);
  }

  /** When exactly a fee that has been collected for a registered contract is distributed. */
  lemma DistributionSucceedsIff(s: State, tx: Tx, id: nat)
    requires SharesValid(s.params) && s.turnstile.Some? && Conserved(s.bank)
    requires 0 < Fee(tx) <= Bal(s.bank, CSR_MODULE, s.denom)
    ensures Distribute(s, tx, Fee(tx), id).Committed? <==> CanDistribute(s, tx, id)
  {
    hide Storable, Decimal.Share, IndexAll, Send, Burn, Conserved, ShareOf;
    var fee := Fee(tx);
    var share := ShareOf(fee, s.params.shares);
    ShareLeavesBoth(fee, s.params.shares);
    var paid := Send(s.bank, CSR_MODULE, TURNSTILE, Coin(s.denom, share));
    SendConserves(s.bank, CSR_MODULE, TURNSTILE, Coin(s.denom, share));
    BurnNeedsOnlyBalance(paid.value, CSR_MODULE, Coin(s.denom, fee - share));
  }

  /** What settling needs of a transaction with gas. */
  predicate CanSettle(s: State, tx: Tx) {
    && 0 < tx.gasUsed * tx.gasPrice < INT_LIMIT && tx.gasUsed * tx.gasPrice <= Bal(s.bank, FEE_COLLECTOR, s.denom)
    && (Payee(s, tx).Some? ==> CanDistribute(s, tx, Payee(s, tx).value))
  }

  lemma SettlesIff(s: State, tx: Tx)
    requires SharesValid(s.params) && s.turnstile.Some? && Conserved(s.bank)
    ensures SettleFee(s, tx).Committed? <==> tx.gasUsed == 0 || CanSettle(s, tx)
  {
    hide Send, Burn, Conserved, Distribute, CanDistribute;
    var fee := Fee(tx);
    var coin := Coin(s.denom, fee);
    var taken := Send(s.bank, FEE_COLLECTOR, CSR_MODULE, coin);
    if taken.Ok? && 0 < fee {
      SendConserves(s.bank, FEE_COLLECTOR, CSR_MODULE, coin);
      if Payee(s, tx).Some? {
        var s1 := s.(bank := taken.value);
        DistributionSucceedsIff(s1, tx, Payee(s, tx).value);
        SameMeans(s, s1, tx, Payee(s, tx).value);
      } else {
        BurnNeedsOnlyBalance(taken.value, CSR_MODULE, coin);
      }
    }
  }

  lemma SameMeans(s: State, s1: State, tx: Tx, id: nat)
    requires s1.csrs == s.csrs && s1.params == s.params
    ensures CanDistribute(s1, tx, id) <==> CanDistribute(s, tx, id)
  {
  }

  /** When exactly the hook lets a transaction commit. */
  lemma HookSucceedsIff(s: State, tx: Tx)
    requires SharesValid(s.params) && Conserved(s.bank)
    ensures Hook(s, tx).Committed? <==>
      !s.params.enable || (ProcessEvents(s, tx).Some?
        && (tx.gasUsed == 0 || CanSettle(ProcessEvents(s, tx).value, tx)))
  {
    hide SettleFee, ProcessFrom, CanSettle, Conserved;
    if s.params.enable && ProcessEvents(s, tx).Some? { SettlesIff(ProcessEvents(s, tx).value, tx); }
  }

  /**
    With a share of one, of zero, or with a fee so small that its share rounds down to nothing, no
    transaction that spends gas on a registered contract commits, whatever it carries.
   */
  lemma RoundSharesNeverSettle(s: State, tx: Tx)
    requires SharesValid(s.params) && Conserved(s.bank) && s.params.enable
    requires 0 < tx.gasUsed && Beneficiary(s, tx).Some?
    requires s.params.shares == 0 || s.params.shares == Amm.P || tx.gasUsed * tx.gasPrice * s.params.shares < Amm.P
    ensures Hook(s, tx).Failed?
  {
    hide Hook, ProcessFrom, Conserved;
    HookSucceedsIff(s, tx);
    var s1 := ProcessEvents(s, tx).value;
    assert CanSettle(s1, tx) ==> CanDistribute(s1, tx, Payee(s1, tx).value);
  }

  // ---- Conservation -------------------------------------------------------------------------------------

  lemma SettleFeeConserves(s: State, tx: Tx)
    requires SharesValid(s.params) && Conserved(s.bank) && SettleFee(s, tx).Committed?
    ensures Conserved(SettleFee(s, tx).state.bank)
  {
    hide Send, Burn, Fee, Conserved, Storable, Decimal.Share, IndexAll;
    if tx.gasUsed != 0 {
      var fee := Fee(tx);
      var taken := Send(s.bank, FEE_COLLECTOR, CSR_MODULE, Coin(s.denom, fee)).value;
      SendConserves(s.bank, FEE_COLLECTOR, CSR_MODULE, Coin(s.denom, fee));
      if Payee(s, tx).None? {
        BurnConserves(taken, CSR_MODULE, Coin(s.denom, fee));
      } else {
        Decimal.ShareBounds(fee, s.params.shares);
        var share := Decimal.Share(fee, s.params.shares);
        var paid := Send(taken, CSR_MODULE, TURNSTILE, Coin(s.denom, share)).value;
        SendConserves(taken, CSR_MODULE, TURNSTILE, Coin(s.denom, share));
        BurnConserves(paid, CSR_MODULE, Coin(s.denom, fee - share));
      }
    }
  }

  lemma HookConserves(s: State, tx: Tx)
    requires SharesValid(s.params) && Conserved(s.bank) && Hook(s, tx).Committed?
    ensures Conserved(Hook(s, tx).state.bank)
  {
    hide SettleFee, ProcessFrom, Conserved;
    if s.params.enable { SettleFeeConserves(ProcessEvents(s, tx).value, tx); }
  }

  // ---- Revenue and transaction counts ---------------------------------------------------------------------

  function RevenueAt(csrs: map<nat, Csr>, n: nat): nat {
    if n in csrs then csrs[n].revenue else 0
  }

  function TxsAt(csrs: map<nat, Csr>, n: nat): nat {
    if n in csrs then csrs[n].txs else 0
  }

  ghost function RevenueTotal(csrs: map<nat, Csr>): nat {
    if csrs == map[] then 0 else
      var n :| n in csrs;
      csrs[n].revenue + RevenueTotal(csrs - {n})
  }

  lemma {:induction false} RevenuePick(csrs: map<nat, Csr>, n: nat)
    requires n in csrs
    ensures RevenueTotal(csrs) == csrs[n].revenue + RevenueTotal(csrs - {n})
    decreases |csrs|
  {
    var k :| k in csrs && RevenueTotal(csrs) == csrs[k].revenue + RevenueTotal(csrs - {k});
    if k != n {
      RevenuePick(csrs - {k}, n);
      assert (csrs - {k}) - {n} == (csrs - {n}) - {k};
      RevenuePick(csrs - {n}, k);
    }
  }

  lemma RevenueUpdate(csrs: map<nat, Csr>, n: nat, c: Csr)
    ensures RevenueTotal(csrs[n := c]) == RevenueTotal(csrs) - RevenueAt(csrs, n) + c.revenue
  {
    RevenuePick(csrs[n := c], n);
    assert csrs[n := c] - {n} == csrs - {n};
    if n in csrs { RevenuePick(csrs, n); } else { assert csrs - {n} == csrs; }
  }

  /** Events book no revenue and no transactions. */
  ghost predicate SameBooks(a: map<nat, Csr>, b: map<nat, Csr>) {
    RevenueTotal(a) == RevenueTotal(b) && forall n :: RevenueAt(a, n) == RevenueAt(b, n) && TxsAt(a, n) == TxsAt(b, n)
  }

  lemma HandleKeepsBooks(s: State, coded: set<Bytes>, e: Event)
    requires Agree(s)
    ensures var h := HandleEvent(s, coded, e); h.Done? ==> SameBooks(s.csrs, h.state.csrs)
  {
    hide Storable, IndexAll, CsrValid;
    var h := HandleEvent(s, coded, e);
    if h.Done? && !e.OtherEvent? {
      var (contract, token) := e.data.value;
      var id := token % UINT64;
      if e.Assign? { assert RecordSound(s, id); }
      RevenueUpdate(s.csrs, id, h.state.csrs[id]);
    }
  }

  lemma {:induction false} ProcessKeepsBooks(s: State, turnstile: Bytes, logs: seq<Log>, i: nat, coded: set<Bytes>)
    requires Agree(s)
    ensures var r := ProcessFrom(s, turnstile, logs, i, coded); r.Some? ==> SameBooks(s.csrs, r.value.csrs)
    decreases |logs| - i
  {
    hide HandleEvent, Agree;
    if i < |logs| {
      if Relevant(logs[i], turnstile) {
        HandleKeepsAgreement(s, coded, logs[i].event);
        HandleKeepsBooks(s, coded, logs[i].event);
        var h := HandleEvent(s, coded, logs[i].event);
        if h.Done? { ProcessKeepsBooks(h.state, turnstile, logs, i + 1, coded); }
      } else {
        ProcessKeepsBooks(s, turnstile, logs, i + 1, coded);
      }
    }
  }

  /** The books after a transaction. */
  ghost predicate Booked(a: map<nat, Csr>, b: map<nat, Csr>, o: Outcome) {
    && RevenueTotal(b) == RevenueTotal(a) + RevenueOf(o)
    && forall n ::
      && RevenueAt(b, n) == RevenueAt(a, n) + (if o.Distributed? && o.id == n then o.csrFee else 0)
      && TxsAt(b, n) == if o.Distributed? && o.id == n then (TxsAt(a, n) + 1) % UINT64 else TxsAt(a, n)
  }

  lemma CreditIsBooked(s: State, s': State, o: Outcome)
    requires Credited(s, s', o)
    ensures Booked(s.csrs, s'.csrs, o)
  {
    if o.Distributed? {
      RevenueUpdate(s.csrs, o.id, Paid(s.csrs[o.id], o.csrFee));
    }
  }

  /**
    Everything a committed transaction does: the outcome its gas, its price, its called contract and the
    share in force call for, and exactly that outcome on every balance, every supply and every record.
   */
  lemma HookEffect(s: State, tx: Tx)
    requires Agree(s) && SharesValid(s.params) && Hook(s, tx).Committed?
    ensures var r := Hook(s, tx);
      && Attributed(s.params.enable, Beneficiary(s, tx), s.params.shares, tx, r.outcome)
      && RevenueOf(r.outcome) <= FeeOf(r.outcome)
      && Settled(s.bank, r.state.bank, s.denom, FeeOf(r.outcome), RevenueOf(r.outcome))
      && Booked(s.csrs, r.state.csrs, r.outcome) && Agree(r.state)
      && (s.params.enable ==> ProcessEvents(s, tx).Some? && var s1 := ProcessEvents(s, tx).value;
            r.state.index == s1.index && Credited(s1, r.state, r.outcome))
      && (!s.params.enable ==> r.state == s)
      && r.state == s.(bank := r.state.bank, csrs := r.state.csrs, index := r.state.index)
  {
    hide SettleFee, ProcessFrom, Agree, Attributed, Settled, Booked, Credited;
    if s.params.enable {
      ProcessKeepsAgreement(s, s.turnstile.value, tx.logs, 0, tx.coded);
      ProcessKeepsBooks(s, s.turnstile.value, tx.logs, 0, tx.coded);
      var s1, r := ProcessEvents(s, tx).value, Hook(s, tx);
      SettleFeeEffect(s1, tx);
      CreditIsBooked(s1, r.state, r.outcome);
      SameBooksThenBooked(s.csrs, s1.csrs, r.state.csrs, r.outcome);
    } else {
      NothingSettled(s.bank, s.denom);
      NothingHappens(s, tx);
    }
  }

  lemma SameBooksThenBooked(a: map<nat, Csr>, b: map<nat, Csr>, c: map<nat, Csr>, o: Outcome)
    requires SameBooks(a, b) && Booked(b, c, o)
    ensures Booked(a, c, o)
  {
  }

  lemma NothingHappens(s: State, tx: Tx)
    ensures Booked(s.csrs, s.csrs, Idle) && Attributed(false, Beneficiary(s, tx), s.params.shares, tx, Idle)
  {
  }
}
