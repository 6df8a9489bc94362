/** A run in which fees on a registered contract cannot be settled, for shares the parameters accept. */
module CsrStall {
  import opened Basics
  import opened Wire
  import opened CsrCodec
  import opened CsrRegistry
  import opened CsrHook
  import opened CsrRuns
  import opened Bank
  import Amm

  const DENOM: Denom := "acanto"

  /** 0x1111111111111111111111111111111111111111 */
  const CONTRACT: Bytes := [
    48, 120,
    49, 49, 49, 49, 49, 49, 49, 49, 49, 49, 49, 49, 49, 49, 49, 49, 49, 49, 49, 49,
    49, 49, 49, 49, 49, 49, 49, 49, 49, 49, 49, 49, 49, 49, 49, 49, 49, 49, 49, 49]

  /** An enabled module with nothing registered, and five coins of fees in the collector. */
  function Opening(shares: nat): State {
    State(Ledger(map[DENOM := map[FEE_COLLECTOR := 5]], map[DENOM := 5], {}), DENOM, map[], map[], None,
      Params(true, shares))
  }

  /** The contract registers itself as NFT 1. */
  function Registration(turnstile: Bytes): Tx {
    Tx([Log(1, turnstile, Register(Some((CONTRACT, 1))))], 0, 0, None, {CONTRACT}, true)
  }

  /** A call of the contract that uses five gas at price one. */
  function Call(): Tx {
    Tx([], 5, 1, Some(CONTRACT), {}, true)
  }

  function Story(turnstile: Bytes): seq<Step> {
    [Begin(turnstile), Evm(Registration(turnstile)), Evm(Call())]
  }

  lemma ContractIsAddress()
    ensures IsContractAddress(CONTRACT)
  {
    var ds := AddressDigits(CONTRACT);
    assert |ds| == 40 && forall i :: 0 <= i < 40 ==> ds[i] == 49;
    assert ds[0] != 48;
  }

  lemma RecordFits(txs: nat, revenue: nat)
    requires txs < UINT64 && revenue < 10
    ensures Storable(Csr([CONTRACT], 1, txs, revenue))
  {
    hide Encode;
    SmallRecordFits(CONTRACT, 1, txs, revenue);
  }

  lemma OpeningConserved(shares: nat)
    ensures Conserved(Opening(shares).bank)
  {
    var m := map[FEE_COLLECTOR := 5];
    TotalPick(m, FEE_COLLECTOR);
    assert m - {FEE_COLLECTOR} == map[];
  }

  /** The opening with the contract registered. */
  function Ready(turnstile: Bytes, shares: nat): State {
    Opening(shares).(
      csrs := map[1 := Csr([CONTRACT], 1, 0, 0)], index := map[CONTRACT := 1], turnstile := Some(turnstile))
  }

  lemma CanSettleIff(turnstile: Bytes, shares: nat)
    requires shares <= Amm.P
    ensures CanSettle(Ready(turnstile, shares), Call()) <==> Amm.P <= 5 * shares && shares < Amm.P
  {
    hide Storable, ShareOf;
    var s, tx := Ready(turnstile, shares), Call();
    assert Fee(tx) == 5 && Payee(s, tx) == Some(1);
    ShareLeavesBoth(5, shares);
    RecordFits(1, ShareOf(5, shares));
  }

  /** After two steps the contract is registered and everything else is as it was. */
  lemma Registered(turnstile: Bytes, shares: nat)
    requires shares <= Amm.P
    ensures After(Opening(shares), Story(turnstile), 2) == Ready(turnstile, shares)
  {
    ContractIsAddress();
    RecordFits(0, 0);
    var s, steps, tx := Opening(shares), Story(turnstile), Registration(turnstile);
    EmptyRegistryAgrees(s);
    hide IsContractAddress, Storable, HandleRegister;
    assert After(s, steps, 0) == s;
    var s1 := After(s, steps, 1);
    assert s1 == s.(turnstile := Some(turnstile));
    AgreeIgnoresBank(s, s1);
    RegisterIsRecorded(s1, tx.coded, CONTRACT, 1);
    var s2 := s1.(csrs := map[1 := Csr([CONTRACT], 1, 0, 0)], index := map[CONTRACT := 1]);
    assert HandleEvent(s1, tx.coded, tx.logs[0].event) == Done(s2);
    assert ProcessFrom(s2, turnstile, tx.logs, 1, tx.coded) == Some(s2);
    assert ProcessEvents(s1, tx) == Some(s2);
    assert Hook(s1, tx) == Committed(s2, Idle);
  }

  /**
    The call then finds its contract registered, its fee in the collector and a Turnstile that would take
    the payment. It commits exactly when the share of its five coins is neither nothing nor everything:
    with shares of zero, of one, or below a fifth, all of which are accepted parameters, it never does.
   */
  lemma CallCommitsIff(turnstile: Bytes, shares: nat)
    requires shares <= Amm.P
    ensures var s2 := After(Opening(shares), Story(turnstile), 2);
      && SharesValid(s2.params) && Agree(s2) && Payee(s2, Call()) == Some(1)
      && Fee(Call()) == 5 == Bal(s2.bank, FEE_COLLECTOR, s2.denom)
      && (Hook(s2, Call()).Committed? <==> Amm.P <= 5 * shares && shares < Amm.P)
  {
    Registered(turnstile, shares);
    OpeningConserved(shares);
    EmptyRegistryAgrees(Opening(shares));
    RunKeepsAgreement(Opening(shares), Story(turnstile), 2);
    CanSettleIff(turnstile, shares);
    hide After, Agree, Hook, Conserved, CanSettle;
    HookSucceedsIff(Ready(turnstile, shares), Call());
  }
}
