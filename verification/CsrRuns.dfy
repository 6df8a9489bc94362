/** Whole runs of blocks over the CSR module. */
module CsrRuns {
  import opened Basics
  import opened Wire
  import opened CsrRegistry
  import opened CsrEvents
  import opened CsrHook
  import opened Bank
  import CsrGenesis

  /**
    A step of the chain: the begin-blocker with the address a deployment would have, the hook of a
    transaction, a parameter change, or anything else that moves, creates or destroys coins. Transfers are
    fees paid into the collector, gas refunds, value sent by a transaction before its hook runs, withdrawals
    from the Turnstile, and the begin-blocker of the distribution module emptying the collector.
   */
  datatype Step =
    | Begin(deployed: Bytes)
    | Evm(tx: Tx)
    | SetParams(params: Params)
    | Transfer(src: Addr, dst: Addr, coin: Coin)
    | Issue(to: Addr, coin: Coin)
    | Destroy(holder: Addr, coin: Coin)

  /** The begin-blocker deploys the Turnstile once, as soon as the module is enabled. */
  function BeginBlock(s: State, deployed: Bytes): State {
    if s.turnstile.None? && s.params.enable then s.(turnstile := Some(deployed)) else s
  }

  ghost function Next(s: State, step: Step): (s': State)
    requires SharesValid(s.params)
    ensures SharesValid(s'.params)
  {
    match step
    case Begin(deployed) => BeginBlock(s, deployed)
    case Evm(tx) => if Hook(s, tx).Committed? then Hook(s, tx).state else s
    case SetParams(params) => if SharesValid(params) then s.(params := params) else s
    case Transfer(src, dst, coin) =>
      var sent := Send(s.bank, src, dst, coin);
      if sent.Ok? then s.(bank := sent.value) else s
    case Issue(to, coin) => s.(bank := Mint(s.bank, to, coin))
    case Destroy(holder, coin) =>
      var burned := Burn(s.bank, holder, coin);
      if burned.Ok? then s.(bank := burned.value) else s
  }

  ghost function After(s: State, steps: seq<Step>, i: nat): (r: State)
    requires SharesValid(s.params) && i <= |steps|
    ensures SharesValid(r.params)
  {
    if i == 0 then s else Next(After(s, steps, i - 1), steps[i - 1])
  }

  // ---- What one step moves ------------------------------------------------------------------------------

  /** How a step other than a hook shows in the balance of `a` in `d`. */
  ghost function OutsideGain(s: State, step: Step, a: Addr, d: Denom): int {
    match step
    case Transfer(src, dst, coin) =>
      if Send(s.bank, src, dst, coin).Ok? then Moved(a, d, src, dst, coin.denom, coin.amount) else 0
    case Issue(to, coin) => if a == to && d == coin.denom then coin.amount else 0
    case Destroy(holder, coin) =>
      if Burn(s.bank, holder, coin).Ok? && a == holder && d == coin.denom then 0 - coin.amount else 0
    case _ => 0
  }

  /** How a step other than a hook shows in the supply of `d`. */
  ghost function OutsideSupply(s: State, step: Step, d: Denom): int {
    match step
    case Issue(_, coin) => if d == coin.denom then coin.amount else 0
    case Destroy(holder, coin) => if Burn(s.bank, holder, coin).Ok? && d == coin.denom then 0 - coin.amount else 0
    case _ => 0
  }

  /** A transaction whose fee the hook settled. */
  ghost predicate Charged(s: State, step: Step)
    requires SharesValid(s.params)
  {
    step.Evm? && s.params.enable && Hook(s, step.tx).Committed?
  }

  ghost function FeeTaken(s: State, step: Step): nat
    requires SharesValid(s.params)
  {
    if Charged(s, step) then Fee(step.tx) else 0
  }

  ghost function EarnedBy(s: State, step: Step, n: nat): nat
    requires SharesValid(s.params)
  {
    if Charged(s, step) && Beneficiary(s, step.tx) == Some(n) then ShareOf(Fee(step.tx), s.params.shares) else 0
  }

  ghost function ShareTaken(s: State, step: Step): nat
    requires SharesValid(s.params)
  {
    if Charged(s, step) && Beneficiary(s, step.tx).Some? then ShareOf(Fee(step.tx), s.params.shares) else 0
  }

  ghost function CountedBy(s: State, step: Step, n: nat): nat
    requires SharesValid(s.params)
  {
    if Charged(s, step) && Beneficiary(s, step.tx) == Some(n) && 0 < step.tx.gasUsed then 1 else 0
  }

  /** One step on every balance and every supply. */
  ghost predicate Flows(s: State, s': State, step: Step)
    requires SharesValid(s.params)
  {
    var fee, share := FeeTaken(s, step), ShareTaken(s, step);
    && share <= fee
    && (forall a, d {:trigger Bal(s'.bank, a, d)} :: Bal(s'.bank, a, d)
          == Bal(s.bank, a, d) + OutsideGain(s, step, a, d) + if d == s.denom then HookGain(fee, share, a) else 0)
    && (forall d {:trigger Sup(s'.bank, d)} :: Sup(s'.bank, d)
          == Sup(s.bank, d) + OutsideSupply(s, step, d) - if d == s.denom then fee - share else 0)
  }

  /** One step on the books. */
  ghost predicate Books(s: State, s': State, step: Step)
    requires SharesValid(s.params)
  {
    && RevenueTotal(s'.csrs) == RevenueTotal(s.csrs) + ShareTaken(s, step)
    && forall n ::
      && RevenueAt(s'.csrs, n) == RevenueAt(s.csrs, n) + EarnedBy(s, step, n)
      && TxsAt(s'.csrs, n)
        == if CountedBy(s, step, n) == 1 then (TxsAt(s.csrs, n) + 1) % UINT64 else TxsAt(s.csrs, n)
  }

  lemma NothingOwed(shares: nat)
    ensures ShareOf(0, shares) == 0
  {
  }

  /** What the hook takes and pays is what the transaction owes. */
  lemma HookAmounts(s: State, tx: Tx)
    requires Agree(s) && SharesValid(s.params) && Hook(s, tx).Committed?
    ensures var o, step := Hook(s, tx).outcome, Evm(tx);
      && FeeTaken(s, step) == FeeOf(o) && ShareTaken(s, step) == RevenueOf(o)
      && (forall n :: EarnedBy(s, step, n) == if o.Distributed? && o.id == n then o.csrFee else 0)
      && (forall n :: CountedBy(s, step, n) == if o.Distributed? && o.id == n then 1 else 0)
  {
    hide Hook, Agree, Beneficiary, ShareOf, Fee, Attributed, Settled, Booked, Credited, ProcessEvents;
    HookEffect(s, tx);
    NothingOwed(s.params.shares);
    OutcomeAmounts(s.params.enable, Beneficiary(s, tx), s.params.shares, tx, Hook(s, tx).outcome);
  }

  lemma HookFlows(s: State, tx: Tx)
    requires Agree(s) && SharesValid(s.params) && Hook(s, tx).Committed?
    ensures Flows(s, Next(s, Evm(tx)), Evm(tx))
  {
    hide Hook, Agree, Attributed, Booked, Credited, ProcessEvents, FeeTaken, ShareTaken, EarnedBy, CountedBy, HookGain,
      Bal, Sup;
    HookEffect(s, tx);
    HookAmounts(s, tx);
  }

  lemma HookBooks(s: State, tx: Tx)
    requires Agree(s) && SharesValid(s.params) && Hook(s, tx).Committed?
    ensures Books(s, Next(s, Evm(tx)), Evm(tx))
  {
    hide Hook, Agree, Attributed, Settled, Credited, ProcessEvents, FeeTaken, ShareTaken, EarnedBy, CountedBy,
      RevenueTotal, RevenueAt, TxsAt;
    HookEffect(s, tx);
    HookAmounts(s, tx);
  }

  lemma HookStep(s: State, tx: Tx)
    requires Agree(s) && SharesValid(s.params) && Hook(s, tx).Committed?
    ensures var s', step := Next(s, Evm(tx)), Evm(tx);
      && Agree(s') && Flows(s, s', step) && Books(s, s', step)
      && s' == s.(bank := s'.bank, csrs := s'.csrs, index := s'.index)
  {
    hide Hook, Agree, Attributed, Settled, Booked, Credited, ProcessEvents, Flows, Books;
    HookEffect(s, tx);
    HookFlows(s, tx);
    HookBooks(s, tx);
  }

  lemma BankStep(s: State, step: Step)
    requires SharesValid(s.params) && (step.Transfer? || step.Issue? || step.Destroy?)
    ensures var s' := Next(s, step); Flows(s, s', step) && Books(s, s', step) && s' == s.(bank := s'.bank)
  {
    hide Hook, RevenueTotal, RevenueAt, TxsAt, Send, Mint, Burn, Bal, Sup, Moved;
    NothingGained();
  }

  lemma QuietStep(s: State, step: Step)
    requires SharesValid(s.params) && (step.Begin? || step.SetParams? || (step.Evm? && Hook(s, step.tx).Failed?))
    ensures var s' := Next(s, step);
      Flows(s, s', step) && Books(s, s', step) && s' == s.(turnstile := s'.turnstile, params := s'.params)
  {
    hide Hook, RevenueTotal, RevenueAt, TxsAt, Bal, Sup;
    NothingGained();
  }

  lemma NothingGained()
    ensures forall a :: HookGain(0, 0, a) == 0
  {
  }

  /** Everything one step keeps and moves. */
  lemma StepEffect(s: State, step: Step)
    requires Agree(s) && SharesValid(s.params)
    ensures var s' := Next(s, step);
      && Agree(s') && s'.denom == s.denom && Flows(s, s', step) && Books(s, s', step)
      && (!step.Begin? ==> s'.turnstile == s.turnstile) && (!step.SetParams? ==> s'.params == s.params)
  {
    hide Hook, Agree, Send, Mint, Burn, Flows, Books;
    if step.Evm? && Hook(s, step.tx).Committed? {
      HookStep(s, step.tx);
    } else {
      if step.Transfer? || step.Issue? || step.Destroy? { BankStep(s, step); } else { QuietStep(s, step); }
      AgreeIgnoresBank(s, Next(s, step));
    }
  }

  // ---- What every run keeps -----------------------------------------------------------------------------

  /** From any consistent state, in particular from the empty registry, the two indexes agree all along. */
  lemma {:induction false} RunKeepsAgreement(s: State, steps: seq<Step>, i: nat)
    requires Agree(s) && SharesValid(s.params) && i <= |steps|
    ensures Agree(After(s, steps, i)) && After(s, steps, i).denom == s.denom
  {
    hide Agree, Next, Flows, Books;
    if i != 0 {
      RunKeepsAgreement(s, steps, i - 1);
      StepEffect(After(s, steps, i - 1), steps[i - 1]);
    }
  }

  lemma EmptyRegistryAgrees(s: State)
    requires s.csrs == map[] && s.index == map[]
    ensures Agree(s) && RevenueTotal(s.csrs) == 0
  {
  }

  /** The index only grows, and only by what a log of the Turnstile in the step's transaction names. */
  lemma StepEntries(s: State, step: Step, c: Bytes)
    requires Agree(s) && SharesValid(s.params)
    ensures c in s.index ==> c in Next(s, step).index && Next(s, step).index[c] == s.index[c]
    ensures c in Next(s, step).index && c !in s.index ==>
      && step.Evm? && s.turnstile.Some?
      && exists l :: l in step.tx.logs && Names(l, s.turnstile.value, c, Next(s, step).index[c])
  {
    hide Hook, Agree, Send, Mint, Burn, Names, Settled, Booked, Credited, Attributed, ProcessFrom, Beneficiary;
    if step.Evm? && Hook(s, step.tx).Committed? {
      HookEffect(s, step.tx);
      if s.params.enable { EntriesComeFromLogs(s, step.tx); }
    }
  }

  /**
    Over every run, a contract that is in the index and was not at the start is there because some
    transaction carried a log of the Turnstile that registers or assigns it to that very NFT.
   */
  lemma {:induction false} RunEntriesComeFromLogs(s: State, steps: seq<Step>, i: nat, c: Bytes) returns (j: nat)
    requires Agree(s) && SharesValid(s.params) && i <= |steps|
    requires c in After(s, steps, i).index && c !in s.index
    ensures j < i && steps[j].Evm? && After(s, steps, j).turnstile.Some?
    ensures exists l ::
      l in steps[j].tx.logs && Names(l, After(s, steps, j).turnstile.value, c, After(s, steps, i).index[c])
  {
    hide Agree, Next, Names;
    RunKeepsAgreement(s, steps, i - 1);
    StepEntries(After(s, steps, i - 1), steps[i - 1], c);
    if c in After(s, steps, i - 1).index {
      j := RunEntriesComeFromLogs(s, steps, i - 1, c);
    } else {
      j := i - 1;
    }
  }

  lemma StepConserves(s: State, step: Step)
    requires SharesValid(s.params) && Conserved(s.bank)
    ensures Conserved(Next(s, step).bank)
  {
    hide Conserved, Send, Mint, Burn, Hook;
    match step
    case Begin(_) =>
    case Evm(tx) => if Hook(s, tx).Committed? { HookConserves(s, tx); }
    case SetParams(_) =>
    case Transfer(src, dst, coin) => if Send(s.bank, src, dst, coin).Ok? { SendConserves(s.bank, src, dst, coin); }
    case Issue(to, coin) => MintConserves(s.bank, to, coin);
    case Destroy(holder, coin) => if Burn(s.bank, holder, coin).Ok? { BurnConserves(s.bank, holder, coin); }
  }

  /** Balances add up to supply at every point of every run. */
  lemma {:induction false} RunConserves(s: State, steps: seq<Step>, i: nat)
    requires SharesValid(s.params) && Conserved(s.bank) && i <= |steps|
    ensures Conserved(After(s, steps, i).bank)
  {
    hide Conserved, Next;
    if i != 0 {
      RunConserves(s, steps, i - 1);
      StepConserves(After(s, steps, i - 1), steps[i - 1]);
    }
  }

  /** At every point of every run, exactly when the next transaction commits. */
  lemma TransactionCommitsIff(s: State, steps: seq<Step>, i: nat)
    requires SharesValid(s.params) && Conserved(s.bank) && i < |steps| && steps[i].Evm?
    ensures var p, tx := After(s, steps, i), steps[i].tx;
      Hook(p, tx).Committed? <==>
        !p.params.enable || (ProcessEvents(p, tx).Some?
          && (tx.gasUsed == 0 || CanSettle(ProcessEvents(p, tx).value, tx)))
  {
    hide *;
    RunConserves(s, steps, i);
    HookSucceedsIff(After(s, steps, i), steps[i].tx);
  }

  /** At every point of every run the exported genesis is valid and a fresh chain that imports it continues the run. */
  lemma RunExportsGenesis(s: State, steps: seq<Step>, i: nat, order: seq<nat>, empty: State)
    requires Agree(s) && SharesValid(s.params) && i <= |steps| && CsrGenesis.Fresh(empty)
    requires Enumerates(order, After(s, steps, i).csrs.Keys)
    requires empty.bank == After(s, steps, i).bank && empty.denom == s.denom
    ensures var g := CsrGenesis.Export(After(s, steps, i), order);
      CsrGenesis.GenesisValid(g) && CsrGenesis.Import(empty, g) == After(s, steps, i)
  {
    hide Agree, Next, CsrGenesis.Import;
    RunKeepsAgreement(s, steps, i);
    CsrGenesis.ExportImportRoundTrip(After(s, steps, i), order, empty);
  }

  // ---- Sums over a run ------------------------------------------------------------------------------------

  /** All that the first `i` steps moved into the balance of `a` outside the hook. */
  ghost function OutsideGains(s: State, steps: seq<Step>, i: nat, a: Addr, d: Denom): int
    requires SharesValid(s.params) && i <= |steps|
  {
    if i == 0 then 0
    else OutsideGains(s, steps, i - 1, a, d) + OutsideGain(After(s, steps, i - 1), steps[i - 1], a, d)
  }

  ghost function OutsideSupplies(s: State, steps: seq<Step>, i: nat, d: Denom): int
    requires SharesValid(s.params) && i <= |steps|
  {
    if i == 0 then 0 else OutsideSupplies(s, steps, i - 1, d) + OutsideSupply(After(s, steps, i - 1), steps[i - 1], d)
  }

  /** All fees the hook took: gas used times gas price of every charged transaction. */
  ghost function FeesTaken(s: State, steps: seq<Step>, i: nat): nat
    requires SharesValid(s.params) && i <= |steps|
  {
    if i == 0 then 0 else FeesTaken(s, steps, i - 1) + FeeTaken(After(s, steps, i - 1), steps[i - 1])
  }

  /** All shares owed to NFTs, each rounded down on its own. */
  ghost function SharesTaken(s: State, steps: seq<Step>, i: nat): nat
    requires SharesValid(s.params) && i <= |steps|
  {
    if i == 0 then 0 else SharesTaken(s, steps, i - 1) + ShareTaken(After(s, steps, i - 1), steps[i - 1])
  }

  /** What NFT `n` earned, and how many transactions earned it. */
  ghost function Earned(s: State, steps: seq<Step>, i: nat, n: nat): nat
    requires SharesValid(s.params) && i <= |steps|
  {
    if i == 0 then 0 else Earned(s, steps, i - 1, n) + EarnedBy(After(s, steps, i - 1), steps[i - 1], n)
  }

  ghost function Counted(s: State, steps: seq<Step>, i: nat, n: nat): nat
    requires SharesValid(s.params) && i <= |steps|
  {
    if i == 0 then 0 else Counted(s, steps, i - 1, n) + CountedBy(After(s, steps, i - 1), steps[i - 1], n)
  }

  lemma StepFlows(s: State, step: Step, a: Addr, d: Denom)
    requires Agree(s) && SharesValid(s.params)
    ensures var s', fee, share := Next(s, step), FeeTaken(s, step), ShareTaken(s, step);
      && share <= fee
      && Bal(s'.bank, a, d) == Bal(s.bank, a, d) + OutsideGain(s, step, a, d)
          + (if d == s.denom then HookGain(fee, share, a) else 0)
      && Sup(s'.bank, d) == Sup(s.bank, d) + OutsideSupply(s, step, d) - (if d == s.denom then fee - share else 0)
  {
    hide Agree, Next, FeeTaken, ShareTaken, OutsideGain, OutsideSupply, HookGain, Books;
    StepEffect(s, step);
  }

  /**
    Over every run, for every account and every denomination: the balance is what it was, plus what others
    moved, less the fees taken if it is the collector, plus the shares paid if it is the Turnstile. The
    supply falls, besides what others created or destroyed, by exactly the fees less the shares.
   */
  lemma {:induction false} RunAccounts(s: State, steps: seq<Step>, i: nat, a: Addr, d: Denom)
    requires Agree(s) && SharesValid(s.params) && i <= |steps|
    ensures var s', fees, shares := After(s, steps, i), FeesTaken(s, steps, i), SharesTaken(s, steps, i);
      && shares <= fees
      && Bal(s'.bank, a, d) == Bal(s.bank, a, d) + OutsideGains(s, steps, i, a, d)
          + (if d == s.denom then HookGain(fees, shares, a) else 0)
      && Sup(s'.bank, d) == Sup(s.bank, d) + OutsideSupplies(s, steps, i, d)
          - (if d == s.denom then fees - shares else 0)
  {
    hide Agree, Next, FeeTaken, ShareTaken, OutsideGain, OutsideSupply, Bal, Sup;
    if i != 0 {
      RunAccounts(s, steps, i - 1, a, d);
      RunKeepsAgreement(s, steps, i - 1);
      StepFlows(After(s, steps, i - 1), steps[i - 1], a, d);
    }
  }

  /** No step but the hook names the module account. */
  predicate LeavesModuleAlone(step: Step) {
    match step
    case Transfer(src, dst, _) => src != CSR_MODULE && dst != CSR_MODULE
    case Issue(to, _) => to != CSR_MODULE
    case Destroy(holder, _) => holder != CSR_MODULE
    case _ => true
  }

  /** The module account is only passed through: over every run it holds what it held, in every denomination. */
  lemma {:induction false} ModuleKeepsNothing(s: State, steps: seq<Step>, i: nat, d: Denom)
    requires Agree(s) && SharesValid(s.params) && i <= |steps|
    requires forall k :: 0 <= k < i ==> LeavesModuleAlone(steps[k])
    ensures Bal(After(s, steps, i).bank, CSR_MODULE, d) == Bal(s.bank, CSR_MODULE, d)
  {
    hide Agree, Next, FeeTaken, ShareTaken, Bal, Sup;
    if i != 0 {
      ModuleKeepsNothing(s, steps, i - 1, d);
      RunKeepsAgreement(s, steps, i - 1);
      StepFlows(After(s, steps, i - 1), steps[i - 1], CSR_MODULE, d);
    }
  }

  lemma StepBooks(s: State, step: Step, n: nat)
    requires Agree(s) && SharesValid(s.params)
    ensures var s' := Next(s, step);
      && RevenueTotal(s'.csrs) == RevenueTotal(s.csrs) + ShareTaken(s, step)
      && RevenueAt(s'.csrs, n) == RevenueAt(s.csrs, n) + EarnedBy(s, step, n)
      && TxsAt(s'.csrs, n)
        == if CountedBy(s, step, n) == 1 then (TxsAt(s.csrs, n) + 1) % UINT64 else TxsAt(s.csrs, n)
    ensures CountedBy(s, step, n) <= 1
  {
    hide Agree, Next, ShareTaken, EarnedBy, RevenueTotal, Flows, Charged, Beneficiary;
    StepEffect(s, step);
  }

  lemma CountsModulo(k: nat)
    ensures (k % UINT64 + 1) % UINT64 == (k + 1) % UINT64
  {
  }

  /**
    The books are true: over every run each NFT's revenue is the sum of its rounded-down shares and its
    counter the number of its transactions modulo 2^64, and all revenue is all shares.
   */
  lemma {:induction false} RunBooks(s: State, steps: seq<Step>, i: nat, n: nat)
    requires Agree(s) && SharesValid(s.params) && i <= |steps| && TxsAt(s.csrs, n) < UINT64
    ensures var csrs := After(s, steps, i).csrs;
      && RevenueTotal(csrs) == RevenueTotal(s.csrs) + SharesTaken(s, steps, i)
      && RevenueAt(csrs, n) == RevenueAt(s.csrs, n) + Earned(s, steps, i, n)
      && TxsAt(csrs, n) == (TxsAt(s.csrs, n) + Counted(s, steps, i, n)) % UINT64
  {
    hide Agree, Next, ShareTaken, EarnedBy, CountedBy, RevenueTotal, RevenueAt, TxsAt;
    if i != 0 {
      RunBooks(s, steps, i - 1, n);
      CountsModulo(TxsAt(s.csrs, n) + Counted(s, steps, i - 1, n));
      RunKeepsAgreement(s, steps, i - 1);
      StepBooks(After(s, steps, i - 1), steps[i - 1], n);
    }
  }

  /**
    From the empty registry: the gas used times gas price of all charged transactions is all revenue on the
    books plus all supply lost beyond what others created and destroyed.
   */
  lemma FeesAreRevenueOrBurned(s: State, steps: seq<Step>, i: nat)
    requires s.csrs == map[] && s.index == map[] && SharesValid(s.params) && i <= |steps|
    ensures FeesTaken(s, steps, i) == RevenueTotal(After(s, steps, i).csrs)
      + (Sup(s.bank, s.denom) + OutsideSupplies(s, steps, i, s.denom) - Sup(After(s, steps, i).bank, s.denom))
  {
    EmptyRegistryAgrees(s);
    assert TxsAt(s.csrs, 0) == 0;
    hide *;
    RunAccounts(s, steps, i, CSR_MODULE, s.denom);
    RunBooks(s, steps, i, 0);
  }

  // ---- The Turnstile address ----------------------------------------------------------------------------

  /** Parameters change only between blocks: what follows a change is the next begin-blocker. */
  ghost predicate InBlocks(steps: seq<Step>) {
    && (steps != [] ==> steps[0].Begin?)
    && forall i :: 0 <= i < |steps| - 1 && steps[i].SetParams? ==> steps[i + 1].Begin? || steps[i + 1].SetParams?
  }

  /** Outside the gap after a parameter change, an enabled module has its Turnstile. */
  lemma {:induction false} EnabledHasTurnstile(s: State, steps: seq<Step>, i: nat)
    requires Agree(s) && SharesValid(s.params) && 0 < i <= |steps| && InBlocks(steps)
    requires !steps[i - 1].SetParams?
    ensures After(s, steps, i).params.enable ==> After(s, steps, i).turnstile.Some?
  {
    hide Agree, Hook, Flows, Books, Send, Mint, Burn;
    RunKeepsAgreement(s, steps, i - 1);
    StepEffect(After(s, steps, i - 1), steps[i - 1]);
    if !steps[i - 1].Begin? { EnabledHasTurnstile(s, steps, i - 1); }
  }

  /** Every transaction of an enabled module finds the Turnstile, so the event loop has an address to compare with. */
  lemma TransactionsFindTurnstile(s: State, steps: seq<Step>, i: nat)
    requires Agree(s) && SharesValid(s.params) && i < |steps| && InBlocks(steps) && steps[i].Evm?
    ensures After(s, steps, i).params.enable ==> After(s, steps, i).turnstile.Some?
  {
    hide *;
    TransactionFollowsNoChange(steps, i);
    EnabledHasTurnstile(s, steps, i);
  }

  lemma TransactionFollowsNoChange(steps: seq<Step>, i: nat)
    requires i < |steps| && InBlocks(steps) && steps[i].Evm?
    ensures 0 < i && !steps[i - 1].SetParams?
  {
  }

  /** Once set, the Turnstile address never changes. */
  lemma {:induction false} TurnstileIsSetOnce(s: State, steps: seq<Step>, i: nat, j: nat)
    requires Agree(s) && SharesValid(s.params) && i <= j <= |steps|
    requires After(s, steps, i).turnstile.Some?
    ensures After(s, steps, j).turnstile == After(s, steps, i).turnstile
  {
    hide Agree, Hook, Flows, Books, Send, Mint, Burn;
    if i < j {
      TurnstileIsSetOnce(s, steps, i, j - 1);
      RunKeepsAgreement(s, steps, j - 1);
      StepEffect(After(s, steps, j - 1), steps[j - 1]);
    }
  }

  /** The proviso is needed: enabled without a Turnstile, every transaction panics. */
  lemma EnabledMidBlockPanics(s: State, tx: Tx)
    requires SharesValid(s.params)
    ensures s.params.enable && s.turnstile.None? ==> Hook(s, tx) == Failed(Panic)
  {
  }
}
