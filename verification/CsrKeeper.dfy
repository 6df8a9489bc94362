/** The CSR keeper over its byte store: records under little-endian ids, ids under contract addresses. */
module CsrKeeper {
  import opened Basics
  import opened Wire
  import opened CsrCodec
  import opened CsrRegistry
  import opened CsrHook
  import opened Bits
  import Bank
  import Decimal
  import CsrRuns
  import CsrGenesis

  // ---- Ids as eight bytes, least significant first ------------------------------------------------------

  function LittleEndian(n: nat, k: nat): (bs: Bytes)
    ensures |bs| == k
  {
    if k == 0 then [] else [n % 256] + LittleEndian(n / 256, k - 1)
  }

  function FromLittleEndian(bs: Bytes): nat {
    if bs == [] then 0 else bs[0] + 256 * FromLittleEndian(bs[1..])
  }

  lemma {:induction false} LittleEndianRoundTrip(n: nat, k: nat)
    requires n < Pow2(8 * k)
    ensures FromLittleEndian(LittleEndian(n, k)) == n
  {
    if k != 0 {
      assert Pow2(8 * k) == 256 * Pow2(8 * (k - 1)) by { Pow2Adds(8, 8 * (k - 1)); assert Pow2(8) == 256; }
      LittleEndianRoundTrip(n / 256, k - 1);
    }
  }

  /** Byte `j` holds bits 8j to 8j + 7. */
  lemma {:induction false} LittleEndianByte(n: nat, k: nat, j: nat)
    requires j < k
    ensures LittleEndian(n, k)[j] == n / Pow2(8 * j) % 256
  {
    if j == 0 {
      assert Pow2(8 * 0) == 1;
    } else {
      LittleEndianByte(n / 256, k - 1, j - 1);
      var p := Pow2(8 * (j - 1));
      assert Pow2(8 * j) == 256 * p by { Pow2Adds(8, 8 * (j - 1)); assert Pow2(8) == 256; }
      DivTwice(n, p);
    }
  }

  lemma DivTwice(n: nat, p: nat)
    requires 0 < p
    ensures n / (256 * p) == n / 256 / p
  {
    var q, r := n / 256 / p, n / 256 % p;
    assert n / 256 == q * p + r;
    assert q * (256 * p) == 256 * (q * p);
    DivUnique(n, 256 * p, q, 256 * r + n % 256);
  }

  function IdBytes(id: nat): Bytes {
    LittleEndian(id, 8)
  }

  lemma IdRoundTrip(id: nat)
    requires id < UINT64
    ensures FromLittleEndian(IdBytes(id)) == id
  {
    Powers();
    LittleEndianRoundTrip(id, 8);
  }

  lemma IdsAreDistinct(id: nat)
    requires id < UINT64
    ensures forall n: nat :: n < UINT64 && IdBytes(n) == IdBytes(id) ==> n == id
  {
    forall n: nat | n < UINT64 && IdBytes(n) == IdBytes(id) ensures n == id {
      IdRoundTrip(n);
      IdRoundTrip(id);
    }
  }

  class Keeper {
    var csrStore: map<Bytes, Bytes>
    var contractStore: map<Bytes, Bytes>
    var turnstile: Option<Bytes>
    var params: Params
    var bank: Bank.Ledger
    const denom: string
    ghost var csrs: map<nat, Csr>
    ghost var index: map<Bytes, nat>

    /** The bytes hold exactly the records. */
    ghost predicate RecordsValid()
      reads this`csrs, this`csrStore
    {
      && (forall n :: n in csrs ==> n < UINT64 && csrs[n].id == n && Storable(csrs[n]))
      && (forall n :: n in csrs ==> IdBytes(n) in csrStore && csrStore[IdBytes(n)] == Encode(csrs[n]))
      && (forall n: nat :: n < UINT64 && IdBytes(n) in csrStore ==> n in csrs)
    }

    /** The bytes hold exactly the index. */
    ghost predicate IndexValid()
      reads this`index, this`contractStore
    {
      && (forall c :: c in index <==> c in contractStore)
      && (forall c :: c in index ==> index[c] < UINT64 && contractStore[c] == IdBytes(index[c]))
    }

    ghost predicate Valid()
      reads this
    {
      RecordsValid() && IndexValid()
    }

    ghost function Abs(): State
      reads this
    {
      State(bank, denom, csrs, index, turnstile, params)
    }

    constructor (bank: Bank.Ledger, denom: string, params: Params)
      ensures Valid() && Abs() == State(bank, denom, map[], map[], None, params)
    {
      this.bank, this.denom, this.params := bank, denom, params;
      csrStore, contractStore, turnstile := map[], map[], None;
      csrs, index := map[], map[];
    }

    /** Read a record back from its bytes; decoding cannot fail and finds every stored record. */
    method GetCSR(id: nat) returns (r: Option<Csr>)
      requires Valid() && id < UINT64
      ensures r == if id in csrs then Some(csrs[id]) else None
    {
      hide Encode, DecodeFrom, IdBytes, InRange;
      var key := IdBytes(id);
      if key !in csrStore || csrStore[key] == [] { return None; }
      RoundTrip(csrs[id]);
      var decoded := Unmarshal(csrStore[key]);
      return Some(decoded.value);
    }

    method GetNFTByContract(contract: Bytes) returns (r: Option<nat>)
      requires Valid()
      ensures r == if contract in index then Some(index[contract]) else None
    {
      if contract !in contractStore { return None; }
      IdRoundTrip(index[contract]);
      return Some(FromLittleEndian(contractStore[contract]));
    }

    method StoreRecord(c: Csr)
      requires RecordsValid() && Storable(c)
      modifies this`csrStore, this`csrs
      ensures RecordsValid() && csrs == old(csrs)[c.id := c]
    {
      hide Encode, IdBytes;
      var bytes := Marshal(c);
      IdsAreDistinct(c.id);
      csrStore := csrStore[IdBytes(c.id) := bytes];
      csrs := csrs[c.id := c];
    }

    method IndexContracts(contracts: seq<Bytes>, id: nat)
      requires IndexValid() && id < UINT64
      modifies this`contractStore, this`index
      ensures IndexValid() && index == IndexAll(old(index), contracts, id)
    {
      hide IdBytes;
      for i := 0 to |contracts|
        invariant IndexValid() && index == IndexAll(old(index), contracts[..i], id)
      {
        contractStore := contractStore[contracts[i] := IdBytes(id)];
        index := index[contracts[i] := id];
        assert contracts[..i + 1][..i] == contracts[..i];
      }
      assert contracts[..|contracts|] == contracts;
    }

    /** Write the record and point every contract at it; a record that does not fit its buffer panics. */
    method SetCSR(c: Csr) returns (ok: bool)
      requires Valid() && InRange(c)
      modifies this`csrStore, this`contractStore, this`csrs, this`index
      ensures ok <==> Storable(c)
      ensures ok ==> Valid() && Abs() == SetCsr(old(Abs()), c)
      ensures !ok ==> unchanged(this)
    {
      hide Encode, RecordsValid, IndexValid, IndexAll;
      var size := Size(c);
      if size >= INT64 { return false; }
      StoreRecord(c);
      IndexContracts(c.contracts, c.id);
      return true;
    }

    method ValidateContract(coded: set<Bytes>, contract: Bytes) returns (ok: bool)
      requires Valid()
      ensures ok <==> ContractFree(Abs(), coded, contract)
    {
      var found := GetNFTByContract(contract);
      if found.Some? { return false; }
      return contract in coded;
    }

    method RegisterEvent(coded: set<Bytes>, contract: Bytes, token: nat) returns (h: Verdict)
      requires Valid()
      modifies this`csrStore, this`contractStore, this`csrs, this`index
      ensures Performed(h, HandleRegister(old(Abs()), coded, contract, token))
    {
      hide Storable, IndexAll, SetCsr;
      var free := ValidateContract(coded, contract);
      if !free { return Rejected; }
      var id := token % UINT64;
      var found := GetCSR(id);
      if found.Some? { return Rejected; }
      var c := Csr([contract], id, 0, 0);
      var valid := Validate(c);
      if !valid { return Rejected; }
      var stored := SetCSR(c);
      return if stored then Accepted else Crashed;
    }

    method UpdateEvent(coded: set<Bytes>, contract: Bytes, token: nat) returns (h: Verdict)
      requires Valid()
      modifies this`csrStore, this`contractStore, this`csrs, this`index
      ensures Performed(h, HandleAssign(old(Abs()), coded, contract, token))
    {
      hide IndexAll, SetCsr, Encode;
      var free := ValidateContract(coded, contract);
      if !free { return Rejected; }
      var id := token % UINT64;
      var found := GetCSR(id);
      if found.None? { return Rejected; }
      var c := found.value.(contracts := found.value.contracts + [contract]);
      var valid := Validate(c);
      if !valid { return Rejected; }
      var stored := SetCSR(c);
      return if stored then Accepted else Crashed;
    }

    /** The effect of handling one event, as the specification gives it. */
    twostate predicate Performed(h: Verdict, spec: Handled)
      reads this
    {
      match spec
      case Done(s) => h == Accepted && Valid() && Abs() == s
      case Refused => h == Rejected && unchanged(this)
      case Panicked => h == Crashed && unchanged(this)
    }

    method HandleLog(coded: set<Bytes>, e: Event) returns (h: Verdict)
      requires Valid()
      modifies this`csrStore, this`contractStore, this`csrs, this`index
      ensures Performed(h, HandleEvent(old(Abs()), coded, e))
    {
      hide HandleRegister, HandleAssign;
      match e
      case UnknownId => h := Rejected;
      case Register(None) => h := Rejected;
      case Register(Some((contract, token))) => h := RegisterEvent(coded, contract, token);
      case Assign(None) => h := Rejected;
      case Assign(Some((contract, token))) => h := UpdateEvent(coded, contract, token);
      case OtherEvent => h := Accepted;
    }

    /** Process the Turnstile's own events in order, up to the first that is refused. */
    method ProcessLogs(tx: Tx) returns (ok: bool)
      requires Valid()
      modifies this`csrStore, this`contractStore, this`csrs, this`index
      ensures var spec := ProcessEvents(old(Abs()), tx);
        if spec.Some? then ok && Valid() && Abs() == spec.value else !ok
    {
      hide HandleEvent, Valid;
      if turnstile.None? { return false; }
      var address := turnstile.value;
      for i := 0 to |tx.logs|
        invariant Valid() && turnstile == Some(address)
        invariant ProcessFrom(old(Abs()), address, tx.logs, 0, tx.coded)
               == ProcessFrom(Abs(), address, tx.logs, i, tx.coded)
      {
        if tx.logs[i].topics != 0 && tx.logs[i].address == address {
          var h := HandleLog(tx.coded, tx.logs[i].event);
          if h == Crashed { return false; }
          if h == Rejected { return true; }
        }
      }
      return true;
    }

    /** Move coins given as a literal; a zero amount is rejected. */
    method SendLiteralCoin(src: Bank.Addr, dst: Bank.Addr, amount: nat) returns (ok: bool)
      modifies this`bank
      ensures var spec := SendLiteral(old(bank), src, dst, Bank.Coin(denom, amount));
        ok == spec.Ok? && bank == if spec.Ok? then spec.value else old(bank)
    {
      var sent := SendLiteral(bank, src, dst, Bank.Coin(denom, amount));
      if sent.Ok? { bank := sent.value; }
      return sent.Ok?;
    }

    method BurnLiteralCoin(amount: nat) returns (ok: bool)
      modifies this`bank
      ensures var spec := BurnLiteral(old(bank), CSR_MODULE, Bank.Coin(denom, amount));
        ok == spec.Ok? && bank == if spec.Ok? then spec.value else old(bank)
    {
      var burned := BurnLiteral(bank, CSR_MODULE, Bank.Coin(denom, amount));
      if burned.Ok? { bank := burned.value; }
      return burned.Ok?;
    }

    method DistributeFee(tx: Tx, fee: nat, id: nat) returns (failure: Option<Failure>, outcome: Outcome)
      requires Valid() && SharesValid(params) && id < UINT64
      modifies this`csrStore, this`contractStore, this`csrs, this`index, this`bank
      ensures Settled(failure, outcome, Distribute(old(Abs()), tx, fee, id))
    {
      hide Decimal.Share, Encode, IndexAll, RecordsValid, IndexValid, SendLiteral, BurnLiteral;
      outcome := Idle;
      var found := GetCSR(id);
      if found.None? { return Some(NonexistentCsr), Idle; }
      var c := found.value;
      RecordIsStorable(id);
      Decimal.ShareBounds(fee, params.shares);
      var csrFee := Decimal.Share(fee, params.shares);
      if turnstile.None? { return Some(NoTurnstile), Idle; }
      if csrFee == 0 || !tx.callOk { return Some(FeeDistribution), Idle; }
      var paid := Bank.Send(bank, CSR_MODULE, TURNSTILE, Bank.Coin(denom, csrFee));
      if paid.Err? { return Some(FeeDistribution), Idle; }
      bank := paid.value;
      var burned := BurnLiteralCoin(fee - csrFee);
      if !burned { return Some(FeeDistribution), Idle; }
      if c.revenue + csrFee >= INT_LIMIT { return Some(Panic), Idle; }
      var stored := SetCSR(Paid(c, csrFee));
      if !stored { return Some(Panic), Idle; }
      return None, Distributed(id, csrFee, fee - csrFee);
    }

    lemma RecordIsStorable(id: nat)
      requires Valid() && id in csrs
      ensures InRange(csrs[id]) && csrs[id].id == id
    {
      hide Encode;
    }

    lemma IndexedIdsFit(c: Bytes)
      requires Valid() && c in index
      ensures index[c] < UINT64
    {
      hide Encode;
    }

    /** The whole hook run after an EVM transaction. */
    method PostTxProcessing(tx: Tx) returns (failure: Option<Failure>, outcome: Outcome)
      requires Valid() && SharesValid(params)
      modifies this`csrStore, this`contractStore, this`csrs, this`index, this`bank
      ensures Settled(failure, outcome, Hook(old(Abs()), tx))
    {
      hide RecordsValid, IndexValid, ProcessEvents, Distribute, Fee, SendLiteral, BurnLiteral;
      if !params.enable { return None, Idle; }
      var processed := ProcessLogs(tx);
      if !processed { return Some(Panic), Idle; }
      if tx.gasUsed == 0 { return None, Idle; }
      var fee := Fee(tx);
      if fee >= INT_LIMIT { return Some(Panic), Idle; }
      var taken := SendLiteralCoin(FEE_COLLECTOR, CSR_MODULE, fee);
      if !taken { return Some(FeeDistribution), Idle; }
      var id: Option<nat> := None;
      if tx.to.Some? { id := GetNFTByContract(tx.to.value); }
      if id.None? {
        var burned := BurnLiteralCoin(fee);
        if !burned { return Some(FeeDistribution), Idle; }
        return None, Burned(fee);
      }
      IndexedIdsFit(tx.to.value);
      failure, outcome := DistributeFee(tx, fee, id.value);
    }

    /** What the hook left behind, as the specification gives it. */
    ghost predicate Settled(failure: Option<Failure>, outcome: Outcome, spec: HookResult)
      reads this
    {
      match spec
      case Committed(s, o) => failure == None && outcome == o && Valid() && Abs() == s
      case Failed(f) => failure == Some(f)
    }

    /** Run a transaction's hook; if it fails the transaction is reverted with everything it wrote. */
    method RunTx(tx: Tx)
      requires Valid() && SharesValid(params)
      modifies this
      ensures Valid() && Abs() == CsrRuns.Next(old(Abs()), CsrRuns.Evm(tx))
    {
      hide Hook, RecordsValid, IndexValid;
      var csrStore0, contractStore0, bank0 := csrStore, contractStore, bank;
      ghost var csrs0, index0 := csrs, index;
      var failure, outcome := PostTxProcessing(tx);
      if failure.Some? {
        csrStore, contractStore, bank := csrStore0, contractStore0, bank0;
        csrs, index := csrs0, index0;
      }
    }

    /** Deploy the Turnstile once the module is enabled: an enabled module has one, and one that is set stays. */
    method BeginBlock(deployed: Bytes)
      modifies this`turnstile
      ensures params.enable ==> turnstile.Some?
      ensures old(turnstile).Some? || !params.enable ==> turnstile == old(turnstile)
      ensures turnstile != old(turnstile) ==> turnstile == Some(deployed)
      ensures Abs() == CsrRuns.BeginBlock(old(Abs()), deployed)
    {
      if turnstile.None? {
        if params.enable { turnstile := Some(deployed); }
      }
    }

    // ---- Genesis ----

    /** Every record, decoded, in the order in which the store iterates over its keys. */
    method GetAllCSRs(order: seq<nat>) returns (all: seq<Csr>)
      requires Valid() && Enumerates(order, csrs.Keys)
      ensures all == CsrGenesis.Listed(csrs, order)
    {
      hide Encode;
      all := [];
      for i := 0 to |order|
        invariant |all| == i && forall j :: 0 <= j < i ==> all[j] == csrs[order[j]]
      {
        var c := GetCSR(order[i]);
        all := all + [c.value];
      }
    }

    method ExportGenesis(order: seq<nat>) returns (g: CsrGenesis.Genesis)
      requires Valid() && Enumerates(order, csrs.Keys)
      ensures g == CsrGenesis.Export(Abs(), order)
    {
      hide Valid;
      var all := GetAllCSRs(order);
      g := CsrGenesis.Genesis(params, all, turnstile);
    }

    /** Invalid parameters and records that do not fit their buffer make the chain stop. */
    method InitGenesis(g: CsrGenesis.Genesis) returns (ok: bool)
      requires Valid() && forall i :: 0 <= i < |g.csrs| ==> InRange(g.csrs[i])
      modifies this
      ensures ok <==> SharesValid(g.params) && forall i :: 0 <= i < |g.csrs| ==> Storable(g.csrs[i])
      ensures ok ==> Valid() && Abs() == CsrGenesis.Import(old(Abs()), g)
    {
      hide Storable, RecordsValid, IndexValid, SetCsr, InRange;
      if !SharesValid(g.params) { return false; }
      params := g.params;
      ghost var start := old(Abs()).(params := g.params);
      for i := 0 to |g.csrs|
        invariant Valid() && Abs() == CsrGenesis.Filled(start, g.csrs[..i])
        invariant forall j :: 0 <= j < i ==> Storable(g.csrs[j])
      {
        assert g.csrs[..i + 1][..i] == g.csrs[..i];
        var stored := SetCSR(g.csrs[i]);
        if !stored { return false; }
      }
      assert g.csrs[..|g.csrs|] == g.csrs;
      if g.turnstile.Some? { turnstile := g.turnstile; }
      CsrGenesis.TurnstileRides(start, g.csrs);
      CsrGenesis.TurnstileRides(start.(turnstile := turnstile), g.csrs);
      return true;
    }
  }

  datatype Verdict = Accepted | Rejected | Crashed
}
