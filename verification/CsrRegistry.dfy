/** Contract-secured revenue: a registry of NFTs and the contracts assigned to them, kept from Turnstile events. */
module CsrRegistry {
  import opened Basics
  import opened Wire
  import opened CsrCodec
  import Bank
  import Amm

  const FEE_COLLECTOR := Bank.Module("fee_collector")
  const CSR_MODULE := Bank.Module("csr")
  const TURNSTILE := Bank.User("turnstile")

  predicate IsHexDigit(b: Byte) {
    48 <= b <= 57 || 65 <= b <= 70 || 97 <= b <= 102
  }

  /** The forty digits of an address text, without its optional 0x. */
  function AddressDigits(s: Bytes): Bytes {
    if 2 <= |s| && s[0] == 48 && (s[1] == 120 || s[1] == 88) then s[2..] else s
  }

  /** A contract address: forty hexadecimal digits, not all of them zero. */
  predicate IsContractAddress(s: Bytes) {
    var ds := AddressDigits(s);
    |ds| == 40 && (forall i :: 0 <= i < 40 ==> IsHexDigit(ds[i])) && exists i :: 0 <= i < 40 && ds[i] != 48
  }

  /** Addresses are accepted with 0x, with 0X and bare; nothing else is, and not the zero address. */
  lemma AddressForms(s: Bytes)
    ensures IsContractAddress(s) <==>
      exists ds: Bytes :: NonzeroHex(ds) && (s == ds || s == [48, 120] + ds || s == [48, 88] + ds)
  {
    if IsContractAddress(s) {
      assert NonzeroHex(AddressDigits(s));
      assert s == AddressDigits(s) || s == s[..2] + AddressDigits(s);
    }
    forall ds: Bytes | NonzeroHex(ds) && (s == ds || s == [48, 120] + ds || s == [48, 88] + ds)
      ensures AddressDigits(s) == ds
    {
      assert IsHexDigit(ds[1]);
    }
  }

  ghost predicate NonzeroHex(ds: Bytes) {
    |ds| == 40 && (forall i :: 0 <= i < 40 ==> IsHexDigit(ds[i])) && ds != seq(40, _ => 48)
  }

  datatype Params = Params(enable: bool, shares: nat)

  predicate SharesValid(p: Params) {
    p.shares <= Amm.P
  }

  datatype State = State(
    bank: Bank.Ledger, denom: string, csrs: map<nat, Csr>, index: map<Bytes, nat>,
    turnstile: Option<Bytes>, params: Params)

  /** Event data is a contract and a token id, unless it does not unpack. */
  datatype Event = UnknownId | Register(data: Option<(Bytes, nat)>) | Assign(data: Option<(Bytes, nat)>) | OtherEvent

  datatype Log = Log(topics: nat, address: Bytes, event: Event)

  /** `coded` are the addresses that hold code; `callOk` tells whether the Turnstile accepts a payment. */
  datatype Tx = Tx(logs: seq<Log>, gasUsed: nat, gasPrice: nat, to: Option<Bytes>, coded: set<Bytes>, callOk: bool)

  // ---- The registry ------------------------------------------------------------------------------------

  function IndexAll(index: map<Bytes, nat>, contracts: seq<Bytes>, id: nat): map<Bytes, nat> {
    if contracts == [] then index
    else IndexAll(index, contracts[..|contracts| - 1], id)[contracts[|contracts| - 1] := id]
  }

  lemma {:induction false} IndexAllContents(index: map<Bytes, nat>, contracts: seq<Bytes>, id: nat)
    ensures forall c :: c in IndexAll(index, contracts, id) <==> c in index || c in contracts
    ensures forall c :: c in IndexAll(index, contracts, id) ==>
      IndexAll(index, contracts, id)[c] == if c in contracts then id else index[c]
  {
    if contracts != [] {
      var n := |contracts| - 1;
      IndexAllContents(index, contracts[..n], id);
      assert forall c :: c in contracts <==> c in contracts[..n] || c == contracts[n];
    }
  }

  function SetCsr(s: State, c: Csr): State {
    s.(csrs := s.csrs[c.id := c], index := IndexAll(s.index, c.contracts, c.id))
  }

  ghost predicate NoDuplicates(cs: seq<Bytes>) {
    forall i, j :: 0 <= i < j < |cs| ==> cs[i] != cs[j]
  }

  /** Stateless validity: at least one contract, all of them non-zero addresses, none twice. */
  ghost predicate CsrValid(c: Csr) {
    0 < |c.contracts| && NoDuplicates(c.contracts)
      && forall i :: 0 <= i < |c.contracts| ==> IsContractAddress(c.contracts[i])
  }

  method Validate(c: Csr) returns (ok: bool)
    ensures ok <==> CsrValid(c)
  {
    hide IsContractAddress;
    var seen: set<Bytes> := {};
    for n := 0 to |c.contracts|
      invariant forall i :: 0 <= i < n ==> IsContractAddress(c.contracts[i])
      invariant forall x :: x in seen <==> exists i :: 0 <= i < n && c.contracts[i] == x
      invariant forall i, j :: 0 <= i < j < n ==> c.contracts[i] != c.contracts[j]
    {
      if !IsContractAddress(c.contracts[n]) { return false; }
      if c.contracts[n] in seen { return false; }
      seen := seen + {c.contracts[n]};
    }
    return |c.contracts| >= 1;
  }

  /** A record too long for its buffer makes the allocation panic. */
  predicate Storable(c: Csr) {
    InRange(c) && |Encode(c)| < INT64
  }

  predicate ContractFree(s: State, coded: set<Bytes>, contract: Bytes) {
    contract !in s.index && contract in coded
  }

  datatype Handled = Done(state: State) | Refused | Panicked

  ghost function HandleRegister(s: State, coded: set<Bytes>, contract: Bytes, token: nat): Handled {
    var id := token % UINT64;
    var c := Csr([contract], id, 0, 0);
    if !ContractFree(s, coded, contract) || id in s.csrs || !CsrValid(c) then Refused
    else if !Storable(c) then Panicked
    else Done(SetCsr(s, c))
  }

  ghost function HandleAssign(s: State, coded: set<Bytes>, contract: Bytes, token: nat): Handled {
    var id := token % UINT64;
    if !ContractFree(s, coded, contract) || id !in s.csrs then Refused
    else
      var c := s.csrs[id].(contracts := s.csrs[id].contracts + [contract]);
      if !CsrValid(c) then Refused
      else if !Storable(c) then Panicked
      else Done(SetCsr(s, c))
  }

  ghost function HandleEvent(s: State, coded: set<Bytes>, e: Event): Handled {
    match e
    case UnknownId => Refused
    case Register(None) => Refused
    case Register(Some((contract, token))) => HandleRegister(s, coded, contract, token)
    case Assign(None) => Refused
    case Assign(Some((contract, token))) => HandleAssign(s, coded, contract, token)
    case OtherEvent => Done(s)
  }

  predicate Relevant(l: Log, turnstile: Bytes) {
    l.topics != 0 && l.address == turnstile
  }

  /** Process logs from `i` on; the first refused event ends the loop, keeping what was done. */
  ghost function ProcessFrom(s: State, turnstile: Bytes, logs: seq<Log>, i: nat, coded: set<Bytes>): (r: Option<State>)
    ensures r.Some? ==> r.value == s.(csrs := r.value.csrs, index := r.value.index)
    decreases |logs| - i
  {
    if i >= |logs| then Some(s)
    else if !Relevant(logs[i], turnstile) then ProcessFrom(s, turnstile, logs, i + 1, coded)
    else
      match HandleEvent(s, coded, logs[i].event)
      case Done(s') => ProcessFrom(s', turnstile, logs, i + 1, coded)
      case Refused => Some(s)
      case Panicked => None
  }

  /** A missing Turnstile address is a panic. */
  ghost function ProcessEvents(s: State, tx: Tx): Option<State> {
    match s.turnstile
    case None => None
    case Some(turnstile) => ProcessFrom(s, turnstile, tx.logs, 0, tx.coded)
  }

  // ---- The index agrees with the records ----------------------------------------------------------------

  ghost predicate RecordSound(s: State, n: nat)
    requires n in s.csrs
  {
    var c := s.csrs[n];
    c.id == n && Storable(c) && CsrValid(c)
    && forall i :: 0 <= i < |c.contracts| ==> c.contracts[i] in s.index && s.index[c.contracts[i]] == n
  }

  ghost predicate Agree(s: State) {
    && (forall n :: n in s.csrs ==> RecordSound(s, n))
    && (forall c :: c in s.index ==> s.index[c] in s.csrs && c in s.csrs[s.index[c]].contracts)
  }

  /** Contract c maps to n exactly when record n exists and lists c, and then it lists it once. */
  lemma IndexIsExact(s: State, c: Bytes, n: nat)
    requires Agree(s)
    ensures c in s.index && s.index[c] == n <==> n in s.csrs && c in s.csrs[n].contracts
    ensures n in s.csrs ==> multiset(s.csrs[n].contracts)[c] <= 1
  {
    if n in s.csrs {
      assert RecordSound(s, n);
      CountAtMostOne(s.csrs[n].contracts, c);
    }
  }

  lemma {:induction false} CountAtMostOne(cs: seq<Bytes>, c: Bytes)
    requires NoDuplicates(cs)
    ensures multiset(cs)[c] <= 1 && (c in cs <==> multiset(cs)[c] == 1)
  {
    if cs != [] {
      var n := |cs| - 1;
      CountAtMostOne(cs[..n], c);
      assert cs == cs[..n] + [cs[n]];
    }
  }

  lemma SetCsrKeepsAgreement(s: State, c: Csr)
    requires Agree(s) && Storable(c) && CsrValid(c)
    requires forall i :: 0 <= i < |c.contracts| ==> c.contracts[i] !in s.index || s.index[c.contracts[i]] == c.id
    requires c.id in s.csrs ==> forall x :: x in s.csrs[c.id].contracts ==> x in c.contracts
    ensures Agree(SetCsr(s, c))
  {
    hide Storable;
    IndexAllContents(s.index, c.contracts, c.id);
    var s' := SetCsr(s, c);
    forall n | n in s'.csrs ensures RecordSound(s', n) {
      if n != c.id { assert RecordSound(s, n); }
    }
  }

  lemma HandleKeepsAgreement(s: State, coded: set<Bytes>, e: Event)
    requires Agree(s)
    ensures var h := HandleEvent(s, coded, e);
      h.Done? ==> Agree(h.state) && h.state == s.(csrs := h.state.csrs, index := h.state.index)
  {
    hide Storable, IndexAll;
    var h := HandleEvent(s, coded, e);
    if h.Done? && !e.OtherEvent? {
      var (contract, token) := e.data.value;
      var id := token % UINT64;
      if e.Register? {
        SetCsrKeepsAgreement(s, Csr([contract], id, 0, 0));
      } else {
        assert RecordSound(s, id);
        SetCsrKeepsAgreement(s, s.csrs[id].(contracts := s.csrs[id].contracts + [contract]));
      }
    }
  }

  /** What registering changes: one new record and one index entry. */
  lemma RegisterIsRecorded(s: State, coded: set<Bytes>, contract: Bytes, token: nat)
    requires Agree(s)
    ensures var id := token % UINT64;
      var c := Csr([contract], id, 0, 0);
      if contract !in s.index && contract in coded && IsContractAddress(contract) && id !in s.csrs && Storable(c)
      then HandleRegister(s, coded, contract, token)
        == Done(s.(csrs := s.csrs[id := c], index := s.index[contract := id]))
      else !HandleRegister(s, coded, contract, token).Done?
  {
    hide Storable, IsContractAddress;
    IndexAllContents(s.index, [contract], token % UINT64);
  }

  /** What assigning changes: the contract is appended to the record's list and indexed; other entries stay. */
  lemma AssignIsRecorded(s: State, coded: set<Bytes>, contract: Bytes, token: nat)
    requires Agree(s)
    ensures var id := token % UINT64;
      if contract !in s.index && contract in coded && IsContractAddress(contract) && id in s.csrs
         && Storable(s.csrs[id].(contracts := s.csrs[id].contracts + [contract]))
      then HandleAssign(s, coded, contract, token) == Done(s.(
             csrs := s.csrs[id := s.csrs[id].(contracts := s.csrs[id].contracts + [contract])],
                 index := s.index[contract := id]))
      else !HandleAssign(s, coded, contract, token).Done?
  {
    hide Storable, IndexAll, IsContractAddress;
    var id := token % UINT64;
    if ContractFree(s, coded, contract) && id in s.csrs {
      assert RecordSound(s, id);
      var c := s.csrs[id].(contracts := s.csrs[id].contracts + [contract]);
      assert forall i :: 0 <= i < |s.csrs[id].contracts| ==> s.csrs[id].contracts[i] != contract;
      assert CsrValid(c) <==> IsContractAddress(contract) by {
        assert c.contracts[|s.csrs[id].contracts|] == contract;
      }
      AppendedIndex(s, id, contract);
    }
  }

  lemma AppendedIndex(s: State, id: nat, contract: Bytes)
    requires Agree(s) && id in s.csrs
    ensures IndexAll(s.index, s.csrs[id].contracts + [contract], id) == s.index[contract := id]
  {
    hide Storable, IndexAll, CsrValid;
    assert RecordSound(s, id);
    IndexAllContents(s.index, s.csrs[id].contracts + [contract], id);
  }

  lemma {:induction false} ProcessKeepsAgreement(s: State, turnstile: Bytes, logs: seq<Log>, i: nat, coded: set<Bytes>)
    requires Agree(s)
    ensures var r := ProcessFrom(s, turnstile, logs, i, coded);
      r.Some? ==> Agree(r.value)
    decreases |logs| - i
  {
    hide HandleEvent, Agree;
    if i < |logs| {
      if Relevant(logs[i], turnstile) {
        HandleKeepsAgreement(s, coded, logs[i].event);
        var h := HandleEvent(s, coded, logs[i].event);
        if h.Done? { ProcessKeepsAgreement(h.state, turnstile, logs, i + 1, coded); }
      } else {
        ProcessKeepsAgreement(s, turnstile, logs, i + 1, coded);
      }
    }
  }
}
