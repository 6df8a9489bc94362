/** The pool registry of the coinswap module: two indexes, a sequence counter, and its genesis form. */
module PoolRegistry {
  import opened Basics
  import opened Text
  import opened Bank
  import Amm

  /** Module parameters; a decimal is its numerator over Amm.P. `maxSwap` lists the whitelisted denoms. */
  datatype Params = Params(fee: nat, taxRate: nat, poolCreationFee: Coin, maxStandard: nat, maxSwap: seq<Coin>)

  predicate FeeValid(p: Params) {
    p.fee < Amm.P
  }

  /** What the parameter store accepts: a fee and a tax rate in [0,1), a positive cap, a valid list of limits. */
  predicate ParamsValid(p: Params) {
    FeeValid(p) && p.taxRate < Amm.P && 0 < p.maxStandard && CoinsValid(p.maxSwap)
  }

  predicate IsLetter(c: char) {
    'a' <= c <= 'z' || 'A' <= c <= 'Z'
  }

  predicate IsDenomChar(c: char) {
    IsLetter(c) || '0' <= c <= '9' || c in "/:._-"
  }

  predicate ValidDenom(d: Denom) {
    3 <= |d| <= 128 && IsLetter(d[0]) && forall i :: 1 <= i < |d| ==> IsDenomChar(d[i])
  }

  /** Alphabetical order. */
  predicate Before(a: string, b: string) {
    b != [] && (a == [] || a[0] < b[0] || (a[0] == b[0] && Before(a[1..], b[1..])))
  }

  /** Positive amounts of valid denominations in strictly alphabetical order. */
  predicate CoinsValid(coins: seq<Coin>) {
    && (forall i :: 0 <= i < |coins| ==> ValidDenom(coins[i].denom) && 0 < coins[i].amount)
    && (forall i, j :: 0 <= i < j < |coins| ==> Before(coins[i].denom, coins[j].denom))
  }

  /** The amount of the first coin of denomination `d`. */
  function LimitOf(coins: seq<Coin>, d: Denom): (r: Option<nat>) {
    if coins == [] then None
    else if coins[0].denom == d then Some(coins[0].amount)
    else LimitOf(coins[1..], d)
  }

  /** The list sets a limit of at least `n` for denomination `d`. */
  ghost predicate Allows(coins: seq<Coin>, d: Denom, n: nat) {
    exists i :: 0 <= i < |coins| && coins[i].denom == d && n <= coins[i].amount
  }

  /** What the search finds stands in the list; in a valid list it finds whatever stands there. */
  lemma {:induction false} LimitAllows(coins: seq<Coin>, d: Denom, n: nat)
    ensures LimitOf(coins, d).Some? && n <= LimitOf(coins, d).value ==> Allows(coins, d, n)
    ensures CoinsValid(coins) && Allows(coins, d, n) ==> LimitOf(coins, d).Some? && n <= LimitOf(coins, d).value
  {
    hide CoinsValid;
    if LimitOf(coins, d).Some? && n <= LimitOf(coins, d).value {
      if coins[0].denom != d {
        LimitAllows(coins[1..], d, n);
        var i :| 0 <= i < |coins| - 1 && coins[1..][i].denom == d && n <= coins[1..][i].amount;
        assert coins[i + 1].denom == d;
      }
    }
    if CoinsValid(coins) && Allows(coins, d, n) {
      var i :| 0 <= i < |coins| && coins[i].denom == d && n <= coins[i].amount;
      LimitIsUnique(coins, i);
    }
  }

  lemma {:induction false} BeforeIrreflexive(a: string)
    ensures !Before(a, a)
  {
    if a != [] { BeforeIrreflexive(a[1..]); }
  }

  /** A valid list has one limit per denomination, wherever it stands in the list. */
  lemma {:induction false} LimitIsUnique(coins: seq<Coin>, i: nat)
    requires CoinsValid(coins) && i < |coins|
    ensures LimitOf(coins, coins[i].denom) == Some(coins[i].amount)
  {
    hide ValidDenom, Before;
    if i != 0 {
      BeforeIrreflexive(coins[i].denom);
      assert Before(coins[0].denom, coins[i].denom);
      LimitIsUnique(coins[1..], i - 1);
    }
  }

  datatype Pool = Pool(id: string, standardDenom: Denom, counterpartyDenom: Denom, escrow: Addr, lptDenom: Denom)

  datatype Registry = Registry(pools: map<string, Pool>, byLpt: map<Denom, string>, sequence: nat)

  function GetPool(r: Registry, id: string): Option<Pool> {
    if id in r.pools then Some(r.pools[id]) else None
  }

  function GetPoolByLptDenom(r: Registry, lpt: Denom): Option<Pool> {
    if lpt in r.byLpt then GetPool(r, r.byLpt[lpt]) else None
  }

  function SetPool(r: Registry, p: Pool): Registry {
    r.(pools := r.pools[p.id := p], byLpt := r.byLpt[p.lptDenom := p.id])
  }

  /** `r'` is `r` with the pool filed: both lookups find it, and every other entry of either index is as it was. */
  ghost predicate Filed(r: Registry, r': Registry, p: Pool) {
    && r'.sequence == r.sequence
    && GetPool(r', p.id) == Some(p) && GetPoolByLptDenom(r', p.lptDenom) == Some(p)
    && (forall id :: id != p.id ==> GetPool(r', id) == GetPool(r, id))
    && (forall l :: l != p.lptDenom ==> (l in r'.byLpt <==> l in r.byLpt))
    && (forall l :: l != p.lptDenom && l in r.byLpt ==> r'.byLpt[l] == r.byLpt[l])
  }

  /** Filing a pool is the only way to get there, provided its denomination points at its id. */
  lemma FiledIsSetPool(r: Registry, r': Registry, p: Pool)
    requires Filed(r, r', p) && r'.byLpt[p.lptDenom] == p.id
    ensures r' == SetPool(r, p)
  {
    forall id ensures (id in r'.pools <==> id in SetPool(r, p).pools)
      && (id in r'.pools ==> r'.pools[id] == SetPool(r, p).pools[id])
    {
      assert GetPool(r', id) == if id == p.id then Some(p) else GetPool(r, id);
    }
    assert r'.byLpt == SetPool(r, p).byLpt;
  }

  function NewPool(standard: Denom, counterparty: Denom, sequence: nat): Pool {
    var lpt := LptDenom(sequence);
    Pool(PoolId(counterparty), standard, counterparty, Escrow(lpt), lpt)
  }

  function CreatePool(r: Registry, standard: Denom, counterparty: Denom): Registry {
    SetPool(r.(sequence := (r.sequence + 1) % UINT64), NewPool(standard, counterparty, r.sequence))
  }

  // ---- Agreement of the two indexes and the counter -------------------------------------------------

  predicate Numbered(lpt: Denom, sequence: nat) {
    match ParseLptDenom(lpt)
    case Some(k) => 1 <= k < sequence && lpt == LptDenom(k)
    case None => false
  }

  ghost predicate WellFiled(r: Registry, id: string)
    requires id in r.pools
  {
    var p := r.pools[id];
    p.id == id && id == PoolId(p.counterpartyDenom) && p.escrow == Escrow(p.lptDenom)
    && Numbered(p.lptDenom, r.sequence) && p.lptDenom in r.byLpt && r.byLpt[p.lptDenom] == id
  }

  ghost predicate Agree(r: Registry) {
    && 1 <= r.sequence < UINT64
    && (forall id :: id in r.pools ==> WellFiled(r, id))
    && (forall lpt :: lpt in r.byLpt ==> r.byLpt[lpt] in r.pools && r.pools[r.byLpt[lpt]].lptDenom == lpt)
    && (forall k {:trigger LptDenom(k)} :: 1 <= k < r.sequence ==> LptDenom(k) in r.byLpt)
  }

  /** Lookup by pool id and lookup by pool denomination find the same records. */
  lemma LookupsAgree(r: Registry, p: Pool)
    requires Agree(r)
    ensures GetPool(r, p.id) == Some(p) <==> GetPoolByLptDenom(r, p.lptDenom) == Some(p)
  {
    hide ParseLptDenom, LptDenom, PoolId;
    if GetPool(r, p.id) == Some(p) {
      assert WellFiled(r, p.id);
    }
    if GetPoolByLptDenom(r, p.lptDenom) == Some(p) {
      assert WellFiled(r, r.byLpt[p.lptDenom]);
    }
  }

  /** Below the last 64-bit number the next denomination is fresh. */
  lemma NextDenomIsFresh(r: Registry)
    requires Agree(r)
    ensures LptDenom(r.sequence) !in r.byLpt
    ensures forall id :: id in r.pools ==> r.pools[id].lptDenom != LptDenom(r.sequence)
  {
    hide ParseLptDenom, LptDenom, PoolId;
    LptDenomRoundTrip(r.sequence);
    forall id | id in r.pools ensures r.pools[id].lptDenom != LptDenom(r.sequence) {
      assert WellFiled(r, id);
    }
  }

  lemma CreatePoolKeepsAgreement(r: Registry, standard: Denom, counterparty: Denom)
    requires Agree(r) && PoolId(counterparty) !in r.pools && r.sequence + 1 < UINT64
    ensures Agree(CreatePool(r, standard, counterparty))
  {
    hide ParseLptDenom, LptDenom, PoolId;
    NextDenomIsFresh(r);
    LptDenomRoundTrip(r.sequence);
    var r' := CreatePool(r, standard, counterparty);
    assert r'.sequence == r.sequence + 1;
    forall id | id in r'.pools ensures WellFiled(r', id) {
      if id in r.pools { assert WellFiled(r, id); }
    }
    forall k | 1 <= k < r'.sequence ensures LptDenom(k) in r'.byLpt {
      if k < r.sequence { assert LptDenom(k) in r.byLpt; }
    }
  }

  // ---- Genesis ------------------------------------------------------------------------------------

  datatype Genesis = Genesis(params: Params, standardDenom: Denom, pools: seq<Pool>, sequence: nat)

  function SequenceOf(p: Pool): nat {
    match ParseLptDenom(p.lptDenom)
    case Some(k) => k
    case None => 0
  }

  /** The highest sequence number among the first `n` pool denominations; 0 if there is none. */
  function MaxSequence(pools: seq<Pool>, n: nat): nat
    requires n <= |pools|
  {
    if n == 0 then 0 else
      var rest, last := MaxSequence(pools, n - 1), SequenceOf(pools[n - 1]);
      if last > rest then last else rest
  }

  lemma {:induction false} MaxSequenceIsMaximum(pools: seq<Pool>, n: nat)
    requires n <= |pools|
    ensures forall i :: 0 <= i < n ==> SequenceOf(pools[i]) <= MaxSequence(pools, n)
    ensures MaxSequence(pools, n) == 0 || exists i :: 0 <= i < n && SequenceOf(pools[i]) == MaxSequence(pools, n)
  {
    hide SequenceOf;
    if n != 0 { MaxSequenceIsMaximum(pools, n - 1); }
  }

  predicate PoolRecordValid(p: Pool) {
    ParseLptDenom(p.lptDenom).Some? && ValidDenom(p.counterpartyDenom) && ValidDenom(p.standardDenom)
  }

  ghost predicate NoDuplicates(pools: seq<Pool>, n: nat)
    requires n <= |pools|
  {
    forall i, j :: 0 <= i < j < n ==> pools[i].id != pools[j].id && pools[i].lptDenom != pools[j].lptDenom
  }

  ghost predicate GenesisValid(g: Genesis) {
    && ValidDenom(g.standardDenom)
    && (forall i :: 0 <= i < |g.pools| ==> PoolRecordValid(g.pools[i]))
    && NoDuplicates(g.pools, |g.pools|)
    && (MaxSequence(g.pools, |g.pools|) + 1) % UINT64 == g.sequence
    && FeeValid(g.params)
  }

  /** The sequential duplicate and sequence check, with its seen-sets and running maximum. */
  method ValidateGenesis(g: Genesis) returns (ok: bool)
    ensures ok <==> GenesisValid(g)
  {
    hide ParseLptDenom, ValidDenom;
    if !ValidDenom(g.standardDenom) { return false; }
    var poolIds: set<string>, lptDenoms: set<Denom> := {}, {};
    var maxSequence := 0;
    for n := 0 to |g.pools|
      invariant forall i :: 0 <= i < n ==> PoolRecordValid(g.pools[i])
      invariant NoDuplicates(g.pools, n)
      invariant forall id :: id in poolIds <==> exists i :: 0 <= i < n && g.pools[i].id == id
      invariant forall d :: d in lptDenoms <==> exists i :: 0 <= i < n && g.pools[i].lptDenom == d
      invariant maxSequence == MaxSequence(g.pools, n)
    {
      var pool := g.pools[n];
      if pool.id in poolIds || pool.lptDenom in lptDenoms {
        ghost var i :| 0 <= i < n && (g.pools[i].id == pool.id || g.pools[i].lptDenom == pool.lptDenom);
        assert !NoDuplicates(g.pools, |g.pools|);
        return false;
      }
      poolIds, lptDenoms := poolIds + {pool.id}, lptDenoms + {pool.lptDenom};
      var seqNo := ParseLptDenom(pool.lptDenom);
      if seqNo.None? { assert !PoolRecordValid(pool); return false; }
      if !ValidDenom(pool.counterpartyDenom) || !ValidDenom(pool.standardDenom) {
        assert !PoolRecordValid(pool);
        return false;
      }
      if seqNo.value > maxSequence { maxSequence := seqNo.value; }
    }
    return (maxSequence + 1) % UINT64 == g.sequence && FeeValid(g.params);
  }

  function Import(pools: seq<Pool>, sequence: nat): Registry {
    if pools == [] then Registry(map[], map[], sequence)
    else SetPool(Import(pools[..|pools| - 1], sequence), pools[|pools| - 1])
  }

  /** A pool of a list without duplicates is filed under its id and under its share denomination. */
  lemma {:induction false} ImportFinds(pools: seq<Pool>, sequence: nat, i: nat)
    requires i < |pools| && NoDuplicates(pools, |pools|)
    ensures var r := Import(pools, sequence);
      && GetPool(r, pools[i].id) == Some(pools[i]) && GetPoolByLptDenom(r, pools[i].lptDenom) == Some(pools[i])
      && pools[i].lptDenom in r.byLpt && r.byLpt[pools[i].lptDenom] == pools[i].id
  {
    var n := |pools| - 1;
    if i < n {
      ImportFinds(pools[..n], sequence, i);
      assert pools[i].id != pools[n].id && pools[i].lptDenom != pools[n].lptDenom;
    }
  }

  /** What is filed was listed. */
  lemma {:induction false} ImportListsId(pools: seq<Pool>, sequence: nat, id: string) returns (i: nat)
    requires id in Import(pools, sequence).pools
    ensures i < |pools| && pools[i].id == id
  {
    var n := |pools| - 1;
    if pools[n].id == id { i := n; } else { i := ImportListsId(pools[..n], sequence, id); }
  }

  lemma {:induction false} ImportListsLpt(pools: seq<Pool>, sequence: nat, lpt: Denom) returns (i: nat)
    requires lpt in Import(pools, sequence).byLpt
    ensures i < |pools| && pools[i].lptDenom == lpt
  {
    var n := |pools| - 1;
    if pools[n].lptDenom == lpt { i := n; } else { i := ImportListsLpt(pools[..n], sequence, lpt); }
  }

  lemma {:induction false} ImportKeepsSequence(pools: seq<Pool>, sequence: nat)
    ensures Import(pools, sequence).sequence == sequence
  {
    if pools != [] { ImportKeepsSequence(pools[..|pools| - 1], sequence); }
  }

  lemma NextIsUnused(g: Genesis)
    requires GenesisValid(g) && 0 < g.sequence
    ensures LptDenom(g.sequence) !in Import(g.pools, g.sequence).byLpt
  {
    hide ParseLptDenom, LptDenom, ValidDenom, Import, MaxSequence, NoDuplicates;
    if LptDenom(g.sequence) in Import(g.pools, g.sequence).byLpt {
      var i := ImportListsLpt(g.pools, g.sequence, LptDenom(g.sequence));
      MaxSequenceIsMaximum(g.pools, |g.pools|);
      SequenceBelow(g.pools, |g.pools|);
      LptDenomRoundTrip(g.sequence);
    }
  }

  /**
    What validation is for: after importing a valid genesis both lookups find every pool that was listed, no
    other is filed, and, below the last 64-bit number, the next share denomination is not in use.
   */
  lemma ValidGenesisIsFiled(g: Genesis)
    requires GenesisValid(g)
    ensures var r := Import(g.pools, g.sequence);
      && (forall i :: 0 <= i < |g.pools| ==>
            && GetPool(r, g.pools[i].id) == Some(g.pools[i])
            && GetPoolByLptDenom(r, g.pools[i].lptDenom) == Some(g.pools[i]))
      && (forall id :: id in r.pools ==> exists i :: 0 <= i < |g.pools| && g.pools[i].id == id)
      && (0 < g.sequence ==> LptDenom(r.sequence) !in r.byLpt)
  {
    hide LptDenom, PoolRecordValid, ValidDenom, Import, MaxSequence, GetPool, GetPoolByLptDenom;
    var r := Import(g.pools, g.sequence);
    forall i | 0 <= i < |g.pools|
      ensures GetPool(r, g.pools[i].id) == Some(g.pools[i])
      ensures GetPoolByLptDenom(r, g.pools[i].lptDenom) == Some(g.pools[i])
    {
      ImportFinds(g.pools, g.sequence, i);
    }
    forall id | id in r.pools ensures exists i :: 0 <= i < |g.pools| && g.pools[i].id == id {
      var i := ImportListsId(g.pools, g.sequence, id);
    }
    ImportKeepsSequence(g.pools, g.sequence);
    if 0 < g.sequence { NextIsUnused(g); }
  }

  lemma {:induction false} SequenceBelow(pools: seq<Pool>, n: nat)
    requires n <= |pools|
    ensures MaxSequence(pools, n) < UINT64
  {
    hide ParseLptDenom;
    if n != 0 {
      SequenceBelow(pools, n - 1);
      ParsedBelow(pools[n - 1].lptDenom);
    }
  }

  lemma ParsedBelow(lpt: Denom)
    ensures ParseLptDenom(lpt).Some? ==> ParseLptDenom(lpt).value < UINT64
  {
  }

  function Listed(r: Registry, order: seq<string>): (pools: seq<Pool>)
    requires forall i :: 0 <= i < |order| ==> order[i] in r.pools
  {
    seq(|order|, i requires 0 <= i < |order| => r.pools[order[i]])
  }

  /** Importing some of a registry's pools files exactly those pools, in both indexes. */
  lemma {:induction false} ImportListed(r: Registry, order: seq<string>, sequence: nat)
    requires Agree(r) && forall i :: 0 <= i < |order| ==> order[i] in r.pools
    ensures Import(Listed(r, order), sequence) == Registry(Restrict(r.pools, order), RestrictIndex(r.byLpt, order),
        sequence)
  {
    hide Numbered, PoolId;
    if order != [] {
      var n := |order| - 1;
      ImportListed(r, order[..n], sequence);
      assert Listed(r, order)[..n] == Listed(r, order[..n]);
      assert WellFiled(r, order[n]);
      RestrictNext(r, order);
    }
  }

  function Restrict(pools: map<string, Pool>, order: seq<string>): map<string, Pool> {
    map id | id in pools && id in order :: pools[id]
  }

  function RestrictIndex(byLpt: map<Denom, string>, order: seq<string>): map<Denom, string> {
    map l | l in byLpt && byLpt[l] in order :: byLpt[l]
  }

  lemma RestrictNext(r: Registry, order: seq<string>)
    requires Agree(r) && order != [] && order[|order| - 1] in r.pools
    ensures var init, last := order[..|order| - 1], order[|order| - 1];
      && Restrict(r.pools, order) == Restrict(r.pools, init)[last := r.pools[last]]
      && RestrictIndex(r.byLpt, order) == RestrictIndex(r.byLpt, init)[r.pools[last].lptDenom := last]
  {
    hide Numbered, PoolId;
    var init, last := order[..|order| - 1], order[|order| - 1];
    assert WellFiled(r, last);
    assert forall id :: id in order <==> id in init || id == last;
  }

  /** Whatever order the store lists pools in, the exported genesis is valid and importing it undoes the export. */
  lemma ExportImportRoundTrip(r: Registry, order: seq<string>, params: Params, standard: Denom)
    requires Agree(r) && Enumerates(order, r.pools.Keys)
    requires FeeValid(params) && ValidDenom(standard)
    requires forall id :: id in r.pools ==>
      ValidDenom(r.pools[id].counterpartyDenom) && ValidDenom(r.pools[id].standardDenom)
    ensures GenesisValid(Genesis(params, standard, Listed(r, order), r.sequence))
    ensures Import(Listed(r, order), r.sequence) == r
  {
    hide ParseLptDenom, LptDenom, PoolId, ValidDenom, Import, WellFiled;
    ExportedMaximum(r, order);
    ExportedDistinct(r, order);
    ImportListed(r, order, r.sequence);
    assert r.pools == Restrict(r.pools, order) && r.byLpt == RestrictIndex(r.byLpt, order);
  }

  lemma ExportedDistinct(r: Registry, order: seq<string>)
    requires Agree(r) && Enumerates(order, r.pools.Keys)
    ensures NoDuplicates(Listed(r, order), |order|)
  {
    hide Numbered, PoolId;
    forall i | 0 <= i < |order| ensures WellFiled(r, order[i]) {
    }
  }

  lemma ExportedMaximum(r: Registry, order: seq<string>)
    requires Agree(r) && Enumerates(order, r.pools.Keys)
    ensures forall i :: 0 <= i < |order| ==> ParseLptDenom(Listed(r, order)[i].lptDenom).Some?
    ensures MaxSequence(Listed(r, order), |order|) + 1 == r.sequence
  {
    var pools, top := Listed(r, order), MaxSequence(Listed(r, order), |order|);
    forall i | 0 <= i < |order|
      ensures ParseLptDenom(pools[i].lptDenom).Some? && 1 <= SequenceOf(pools[i]) < r.sequence
    {
      ListedPoolIsNumbered(r, order[i]);
    }
    hide Agree, SequenceOf, ParseLptDenom;
    MaxSequenceIsMaximum(pools, |order|);
    if 1 < r.sequence {
      var i := LastPoolIsListed(r, order);
      assert SequenceOf(pools[i]) <= top;
    }
    if top != 0 {
      var j :| 0 <= j < |order| && SequenceOf(pools[j]) == top;
    }
    SequenceIsPositive(r);
  }

  lemma SequenceIsPositive(r: Registry)
    requires Agree(r)
    ensures 1 <= r.sequence
  {
  }

  lemma ListedPoolIsNumbered(r: Registry, id: string)
    requires Agree(r) && id in r.pools
    ensures ParseLptDenom(r.pools[id].lptDenom).Some? && 1 <= SequenceOf(r.pools[id]) < r.sequence
  {
    hide ParseLptDenom, LptDenom, PoolId;
    assert WellFiled(r, id);
  }

  lemma LastPoolIsListed(r: Registry, order: seq<string>) returns (i: nat)
    requires Agree(r) && Enumerates(order, r.pools.Keys) && 1 < r.sequence
    ensures i < |order| && SequenceOf(r.pools[order[i]]) == r.sequence - 1
  {
    hide ParseLptDenom, LptDenom, WellFiled;
    var top := LptDenom(r.sequence - 1);
    LptDenomRoundTrip(r.sequence - 1);
    i :| 0 <= i < |order| && order[i] == r.byLpt[top];
  }
}
