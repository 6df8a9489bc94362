/** The genesis form of the CSR module: parameters, the list of records, and the Turnstile address if there is one. */
module CsrGenesis {
  import opened Basics
  import opened Wire
  import opened CsrCodec
  import opened CsrRegistry

  datatype Genesis = Genesis(params: Params, csrs: seq<Csr>, turnstile: Option<Bytes>)

  /** Validation looks at the parameters only. */
  predicate GenesisValid(g: Genesis) {
    SharesValid(g.params)
  }

  /** Store records one after the other. */
  function Filled(s: State, cs: seq<Csr>): (r: State)
    ensures r == s.(csrs := r.csrs, index := r.index)
  {
    if cs == [] then s else SetCsr(Filled(s, cs[..|cs| - 1]), cs[|cs| - 1])
  }

  function Import(s: State, g: Genesis): State {
    Filled(s.(params := g.params, turnstile := if g.turnstile.Some? then g.turnstile else s.turnstile), g.csrs)
  }

  function Listed(csrs: map<nat, Csr>, order: seq<nat>): (cs: seq<Csr>)
    requires forall i :: 0 <= i < |order| ==> order[i] in csrs
  {
    seq(|order|, i requires 0 <= i < |order| => csrs[order[i]])
  }

  function Export(s: State, order: seq<nat>): Genesis
    requires forall i :: 0 <= i < |order| ==> order[i] in s.csrs
  {
    Genesis(s.params, Listed(s.csrs, order), s.turnstile)
  }

  predicate Fresh(s: State) {
    s.csrs == map[] && s.index == map[] && s.turnstile == None
  }

  // ---- Import undoes export -----------------------------------------------------------------------------

  function Restrict(csrs: map<nat, Csr>, order: seq<nat>): map<nat, Csr> {
    map n | n in csrs && n in order :: csrs[n]
  }

  function RestrictIndex(index: map<Bytes, nat>, order: seq<nat>): map<Bytes, nat> {
    map c | c in index && index[c] in order :: index[c]
  }

  lemma RestrictNext(s: State, order: seq<nat>)
    requires Agree(s) && order != [] && order[|order| - 1] in s.csrs
    ensures var init, last := order[..|order| - 1], order[|order| - 1];
      && s.csrs[last].id == last
      && Restrict(s.csrs, order) == Restrict(s.csrs, init)[last := s.csrs[last]]
      && RestrictIndex(s.index, order) == IndexAll(RestrictIndex(s.index, init), s.csrs[last].contracts, last)
  {
    hide Storable, CsrValid, IndexAll;
    var init, last := order[..|order| - 1], order[|order| - 1];
    assert RecordSound(s, last);
    IndexAllContents(RestrictIndex(s.index, init), s.csrs[last].contracts, last);
    assert forall n :: n in order <==> n in init || n == last;
    forall c ensures c in s.csrs[last].contracts <==> c in s.index && s.index[c] == last {
      IndexIsExact(s, c, last);
    }
  }

  lemma {:induction false} FilledFromListed(s: State, empty: State, order: seq<nat>)
    requires Agree(s) && Fresh(empty) && forall i :: 0 <= i < |order| ==> order[i] in s.csrs
    ensures Filled(empty, Listed(s.csrs, order))
      == empty.(csrs := Restrict(s.csrs, order), index := RestrictIndex(s.index, order))
  {
    hide Agree, IndexAll;
    if order != [] {
      var n := |order| - 1;
      FilledFromListed(s, empty, order[..n]);
      assert Listed(s.csrs, order)[..n] == Listed(s.csrs, order[..n]);
      RestrictNext(s, order);
    }
  }

  /** Whatever order the store lists records in, a fresh chain that imports an export has the state exported. */
  lemma ExportImportRoundTrip(s: State, order: seq<nat>, empty: State)
    requires Agree(s) && Enumerates(order, s.csrs.Keys) && Fresh(empty)
    requires empty.bank == s.bank && empty.denom == s.denom
    ensures Import(empty, Export(s, order)) == s
  {
    hide Agree, Filled;
    var start := empty.(params := s.params, turnstile := s.turnstile);
    FilledFromListed(s, start.(turnstile := None), order);
    TurnstileRides(start, Listed(s.csrs, order));
    assert Restrict(s.csrs, order) == s.csrs;
    IndexIsCovered(s, order);
  }

  lemma IndexIsCovered(s: State, order: seq<nat>)
    requires Agree(s) && Enumerates(order, s.csrs.Keys)
    ensures RestrictIndex(s.index, order) == s.index
  {
    hide RecordSound;
  }

  lemma {:induction false} TurnstileRides(s: State, cs: seq<Csr>)
    ensures Filled(s, cs) == Filled(s.(turnstile := None), cs).(turnstile := s.turnstile)
  {
    hide IndexAll;
    if cs != [] { TurnstileRides(s, cs[..|cs| - 1]); }
  }

  // ---- What validation does not see -----------------------------------------------------------------------

  /** No later record has the same id, so this is the one that stays. */
  ghost predicate Stays(cs: seq<Csr>, e: int) {
    0 <= e < |cs| && forall j :: e < j < |cs| ==> cs[j].id != cs[e].id
  }

  /** The last record to list contract `c`, so this is the one the index points at. */
  ghost predicate ListsLast(cs: seq<Csr>, j: int, c: Bytes) {
    0 <= j < |cs| && c in cs[j].contracts && forall k :: j < k < |cs| ==> c !in cs[k].contracts
  }

  /**
    The records that stay are valid and share no contract, and whichever record lists a contract last, the
    record that stays under its id lists it too.
   */
  ghost predicate Consistent(cs: seq<Csr>) {
    && (forall e :: Stays(cs, e) ==> CsrValid(cs[e]))
    && (forall e, f, c :: Stays(cs, e) && Stays(cs, f) && c in cs[e].contracts && c in cs[f].contracts ==> e == f)
    && (forall j, e, c :: ListsLast(cs, j, c) && Stays(cs, e) && cs[e].id == cs[j].id ==> c in cs[e].contracts)
  }

  /** Importing files exactly the records that stay. */
  lemma {:induction false} FilledRecords(s: State, cs: seq<Csr>)
    requires Fresh(s)
    ensures forall i :: 0 <= i < |cs| ==> cs[i].id in Filled(s, cs).csrs
    ensures forall n :: n in Filled(s, cs).csrs ==>
      exists e :: Stays(cs, e) && cs[e].id == n && Filled(s, cs).csrs[n] == cs[e]
  {
    hide IndexAll;
    if cs != [] {
      var k, r := |cs| - 1, Filled(s, cs);
      FilledRecords(s, cs[..k]);
      forall i | 0 <= i < |cs| ensures cs[i].id in r.csrs {
        if i < k { assert cs[..k][i].id in Filled(s, cs[..k]).csrs; }
      }
      forall n | n in r.csrs ensures exists e :: Stays(cs, e) && cs[e].id == n && r.csrs[n] == cs[e] {
        if n == cs[k].id {
          assert Stays(cs, k);
        } else {
          var e :| Stays(cs[..k], e) && cs[..k][e].id == n && Filled(s, cs[..k]).csrs[n] == cs[..k][e];
          StaysOn(cs, e);
        }
      }
    }
  }

  lemma StaysOn(cs: seq<Csr>, e: int)
    requires cs != [] && Stays(cs[..|cs| - 1], e) && cs[e].id != cs[|cs| - 1].id
    ensures Stays(cs, e)
  {
    forall j | e < j < |cs| ensures cs[j].id != cs[e].id {
      if j < |cs| - 1 { assert cs[..|cs| - 1][j].id != cs[..|cs| - 1][e].id; }
    }
  }

  lemma ListsLastOn(cs: seq<Csr>, j: int, c: Bytes)
    requires cs != [] && ListsLast(cs[..|cs| - 1], j, c) && c !in cs[|cs| - 1].contracts
    ensures ListsLast(cs, j, c)
  {
    forall k | j < k < |cs| ensures c !in cs[k].contracts {
      if k < |cs| - 1 { assert c !in cs[..|cs| - 1][k].contracts; }
    }
  }

  /** Importing indexes exactly the contracts that are listed, each under the record that lists it last. */
  lemma {:induction false} FilledIndex(s: State, cs: seq<Csr>)
    requires Fresh(s)
    ensures forall i, c :: 0 <= i < |cs| && c in cs[i].contracts ==> c in Filled(s, cs).index
    ensures forall c :: c in Filled(s, cs).index ==>
      exists j :: ListsLast(cs, j, c) && cs[j].id == Filled(s, cs).index[c]
  {
    hide IndexAll;
    if cs != [] {
      var k := |cs| - 1;
      var p, r := Filled(s, cs[..k]), Filled(s, cs);
      FilledIndex(s, cs[..k]);
      IndexAllContents(p.index, cs[k].contracts, cs[k].id);
      forall i, c | 0 <= i < |cs| && c in cs[i].contracts ensures c in r.index {
        if i < k { assert c in cs[..k][i].contracts; }
      }
      forall c | c in r.index ensures exists j :: ListsLast(cs, j, c) && cs[j].id == r.index[c] {
        if c in cs[k].contracts {
          assert ListsLast(cs, k, c);
        } else {
          var j :| ListsLast(cs[..k], j, c) && cs[..k][j].id == p.index[c];
          ListsLastOn(cs, j, c);
        }
      }
    }
  }

  /** What importing leaves, in terms of the list. */
  ghost predicate FiledFrom(r: State, cs: seq<Csr>) {
    && (forall i :: 0 <= i < |cs| ==> cs[i].id in r.csrs)
    && (forall n :: n in r.csrs ==> exists e :: Stays(cs, e) && cs[e].id == n && r.csrs[n] == cs[e])
    && (forall i, c :: 0 <= i < |cs| && c in cs[i].contracts ==> c in r.index)
    && (forall c :: c in r.index ==> exists j :: ListsLast(cs, j, c) && cs[j].id == r.index[c])
  }

  lemma StayingRecord(r: State, cs: seq<Csr>, e: int)
    requires FiledFrom(r, cs) && Stays(cs, e)
    ensures cs[e].id in r.csrs && r.csrs[cs[e].id] == cs[e]
  {
    var f :| Stays(cs, f) && cs[f].id == cs[e].id && r.csrs[cs[e].id] == cs[f];
    OneStays(cs, e, f);
  }

  lemma IndexedLast(r: State, cs: seq<Csr>, j: int, c: Bytes)
    requires FiledFrom(r, cs) && ListsLast(cs, j, c)
    ensures c in r.index && r.index[c] == cs[j].id
  {
    assert c in cs[j].contracts;
    var k :| ListsLast(cs, k, c) && cs[k].id == r.index[c];
    OneListsLast(cs, j, k, c);
  }

  lemma OneListsLast(cs: seq<Csr>, j: int, k: int, c: Bytes)
    requires ListsLast(cs, j, c) && ListsLast(cs, k, c)
    ensures j == k
  {
  }

  lemma AgreementIsConsistent(r: State, cs: seq<Csr>)
    requires FiledFrom(r, cs) && Agree(r)
    ensures Consistent(cs)
  {
    hide Storable, CsrValid, Agree, FiledFrom;
    forall e | Stays(cs, e) ensures CsrValid(cs[e]) {
      StayingRecord(r, cs, e);
      SoundRecord(r, cs[e].id);
    }
    forall e, f, c | Stays(cs, e) && Stays(cs, f) && c in cs[e].contracts && c in cs[f].contracts ensures e == f {
      StayingRecord(r, cs, e);
      StayingRecord(r, cs, f);
      IndexIsExact(r, c, cs[e].id);
      IndexIsExact(r, c, cs[f].id);
      OneStays(cs, e, f);
    }
    forall j, e, c | ListsLast(cs, j, c) && Stays(cs, e) && cs[e].id == cs[j].id ensures c in cs[e].contracts {
      StayingRecord(r, cs, e);
      IndexedLast(r, cs, j, c);
      IndexIsExact(r, c, cs[e].id);
    }
  }

  lemma OneStays(cs: seq<Csr>, e: int, f: int)
    requires Stays(cs, e) && Stays(cs, f) && cs[e].id == cs[f].id
    ensures e == f
  {
  }

  lemma SoundRecord(r: State, n: nat)
    requires Agree(r) && n in r.csrs
    ensures RecordSound(r, n)
  {
  }

  /** An indexed contract is listed by the record that stays under the id it points at. */
  lemma IndexedIsListed(r: State, cs: seq<Csr>, c: Bytes) returns (e: int)
    requires FiledFrom(r, cs) && Consistent(cs) && c in r.index
    ensures Stays(cs, e) && cs[e].id == r.index[c] && c in cs[e].contracts
    ensures r.index[c] in r.csrs && r.csrs[r.index[c]] == cs[e]
  {
    hide CsrValid;
    var j :| ListsLast(cs, j, c) && cs[j].id == r.index[c];
    assert cs[j].id in r.csrs;
    e :| Stays(cs, e) && cs[e].id == r.index[c] && r.csrs[r.index[c]] == cs[e];
  }

  lemma ConsistentIsSound(r: State, cs: seq<Csr>, e: int)
    requires FiledFrom(r, cs) && Consistent(cs) && Stays(cs, e) && Storable(cs[e])
    ensures cs[e].id in r.csrs && r.csrs[cs[e].id] == cs[e] && RecordSound(r, cs[e].id)
  {
    hide Storable, CsrValid;
    StayingRecord(r, cs, e);
    forall k | 0 <= k < |cs[e].contracts|
      ensures cs[e].contracts[k] in r.index && r.index[cs[e].contracts[k]] == cs[e].id
    {
      var c := cs[e].contracts[k];
      assert c in cs[e].contracts && c in r.index;
      var f := IndexedIsListed(r, cs, c);
    }
  }

  lemma ConsistentAgrees(r: State, cs: seq<Csr>)
    requires FiledFrom(r, cs) && Consistent(cs) && forall i :: 0 <= i < |cs| ==> Storable(cs[i])
    ensures Agree(r)
  {
    hide Storable, RecordSound, Consistent;
    forall n | n in r.csrs ensures RecordSound(r, n) {
      var e :| Stays(cs, e) && cs[e].id == n && r.csrs[n] == cs[e];
      ConsistentIsSound(r, cs, e);
    }
    forall c | c in r.index ensures r.index[c] in r.csrs && c in r.csrs[r.index[c]].contracts {
      var e := IndexedIsListed(r, cs, c);
    }
  }

  /**
    Validation accepts any records. A fresh chain that imports them has an index that agrees with its
    records exactly when the list is consistent.
   */
  lemma ImportAgreesIff(s: State, g: Genesis)
    requires Fresh(s) && forall i :: 0 <= i < |g.csrs| ==> Storable(g.csrs[i])
    ensures Agree(Import(s, g)) <==> Consistent(g.csrs)
  {
    hide Storable, Filled, Consistent, Agree, Stays, ListsLast;
    var start := s.(params := g.params, turnstile := None);
    TurnstileRides(start.(turnstile := g.turnstile), g.csrs);
    FilledRecords(start, g.csrs);
    FilledIndex(start, g.csrs);
    assert FiledFrom(Import(s, g), g.csrs);
    if Agree(Import(s, g)) { AgreementIsConsistent(Import(s, g), g.csrs); }
    if Consistent(g.csrs) { ConsistentAgrees(Import(s, g), g.csrs); }
  }

  lemma AddressesFit(contract: Bytes, id: nat)
    requires IsContractAddress(contract) && id < UINT64
    ensures Storable(Csr([contract], id, 0, 0))
  {
    hide Encode;
    SmallRecordFits(contract, id, 0, 0);
  }

  /** Two valid records that list the same contract pass validation and break the agreement. */
  lemma SharedContractIsAccepted(s: State, params: Params, contract: Bytes)
    requires Fresh(s) && SharesValid(params) && IsContractAddress(contract)
    ensures var g := Genesis(params, [Csr([contract], 1, 0, 0), Csr([contract], 2, 0, 0)], None);
      GenesisValid(g) && CsrValid(g.csrs[0]) && CsrValid(g.csrs[1]) && !Agree(Import(s, g))
  {
    AddressesFit(contract, 1);
    AddressesFit(contract, 2);
    hide Storable, IsContractAddress, Import, Agree;
    var cs := [Csr([contract], 1, 0, 0), Csr([contract], 2, 0, 0)];
    ImportAgreesIff(s, Genesis(params, cs, None));
    assert Stays(cs, 0) && Stays(cs, 1) && contract in cs[0].contracts && contract in cs[1].contracts;
  }
}
