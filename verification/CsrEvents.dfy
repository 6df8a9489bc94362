/** Which events of a transaction the CSR module acts on, and what becomes of the registry. */
module CsrEvents {
  import opened Basics
  import opened Wire
  import opened CsrCodec
  import opened CsrRegistry

  // ---- One event ------------------------------------------------------------------------------------------

  /** The registry takes the event: a new contract with code, for a new NFT or for one that exists. */
  ghost predicate Admissible(s: State, coded: set<Bytes>, e: Event) {
    match e
    case Register(Some((contract, token))) =>
      contract !in s.index && contract in coded && IsContractAddress(contract) && token % UINT64 !in s.csrs
    case Assign(Some((contract, token))) =>
      contract !in s.index && contract in coded && IsContractAddress(contract) && token % UINT64 in s.csrs
    case OtherEvent => true
    case _ => false
  }

  /** What the registry looks like with the event recorded. */
  function Recorded(s: State, e: Event): State {
    match e
    case Register(Some((contract, token))) =>
      var id := token % UINT64;
      s.(csrs := s.csrs[id := Csr([contract], id, 0, 0)], index := s.index[contract := id])
    case Assign(Some((contract, token))) =>
      var id := token % UINT64;
      if id !in s.csrs then s
      else
        s.(csrs := s.csrs[id := s.csrs[id].(contracts := s.csrs[id].contracts + [contract])],
          index := s.index[contract := id])
    case _ => s
  }

  /** The record an event writes can be stored. */
  ghost predicate Fits(s: State, e: Event) {
    match e
    case Register(Some((_, token))) => Storable(Recorded(s, e).csrs[token % UINT64])
    case Assign(Some((_, token))) => token % UINT64 in s.csrs ==> Storable(Recorded(s, e).csrs[token % UINT64])
    case _ => true
  }

  /** Handling an event records it, refuses it or stops the chain, exactly as described. */
  lemma EventIsHandled(s: State, coded: set<Bytes>, e: Event)
    requires Agree(s)
    ensures HandleEvent(s, coded, e) ==
      if !Admissible(s, coded, e) then Refused else if !Fits(s, e) then Panicked else Done(Recorded(s, e))
  {
    hide Storable, IsContractAddress, IndexAll, Agree;
    match e
    case Register(Some((contract, token))) =>
      RegisterIsRecorded(s, coded, contract, token);
      SingleIsValid(contract, token % UINT64);
    case Assign(Some((contract, token))) =>
      AssignIsRecorded(s, coded, contract, token);
      if contract !in s.index && token % UINT64 in s.csrs { AppendedIsValid(s, token % UINT64, contract); }
    case _ =>
  }

  lemma SingleIsValid(contract: Bytes, id: nat)
    ensures CsrValid(Csr([contract], id, 0, 0)) <==> IsContractAddress(contract)
  {
    hide IsContractAddress;
    assert Csr([contract], id, 0, 0).contracts[0] == contract;
  }

  lemma AppendedIsValid(s: State, id: nat, contract: Bytes)
    requires Agree(s) && id in s.csrs && contract !in s.index
    ensures CsrValid(s.csrs[id].(contracts := s.csrs[id].contracts + [contract])) <==> IsContractAddress(contract)
  {
    hide Storable, IsContractAddress;
    assert RecordSound(s, id);
    var prior, c := s.csrs[id].contracts, s.csrs[id].(contracts := s.csrs[id].contracts + [contract]);
    assert forall i :: 0 <= i < |prior| ==> prior[i] != contract;
    assert c.contracts[|prior|] == contract;
  }

  // ---- The Turnstile's own events, in order -----------------------------------------------------------------

  /** The logs that carry an event of the Turnstile, in order. */
  function OwnLogs(logs: seq<Log>, turnstile: Bytes): (own: seq<Log>) {
    if logs == [] then [] else
      (if logs[0].topics != 0 && logs[0].address == turnstile then [logs[0]] else []) + OwnLogs(logs[1..], turnstile)
  }

  lemma {:induction false} OwnLogsConcat(a: seq<Log>, b: seq<Log>, turnstile: Bytes)
    ensures OwnLogs(a + b, turnstile) == OwnLogs(a, turnstile) + OwnLogs(b, turnstile)
  {
    if a == [] {
      assert a + b == b;
    } else {
      assert (a + b)[1..] == a[1..] + b;
      OwnLogsConcat(a[1..], b, turnstile);
    }
  }

  /** The registry after the first `n` of these events. */
  function RecordedAll(s: State, own: seq<Log>, n: nat): State
    requires n <= |own|
  {
    if n == 0 then s else Recorded(RecordedAll(s, own, n - 1), own[n - 1].event)
  }

  lemma {:induction false} RecordedFirst(s: State, own: seq<Log>, n: nat)
    requires own != [] && n <= |own| - 1
    ensures RecordedAll(s, own, n + 1) == RecordedAll(Recorded(s, own[0].event), own[1..], n)
  {
    hide Recorded;
    if n == 0 {
      assert RecordedAll(s, own, 0) == s;
    } else {
      RecordedFirst(s, own, n - 1);
    }
  }

  /** The first `n` events are taken, one after the other. */
  ghost predicate TakenUpTo(s: State, own: seq<Log>, coded: set<Bytes>, n: nat)
    requires n <= |own|
  {
    forall k :: 0 <= k < n ==>
      var t := RecordedAll(s, own, k); Admissible(t, coded, own[k].event) && Fits(t, own[k].event)
  }

  lemma TakenFirst(s: State, own: seq<Log>, coded: set<Bytes>, n: nat)
    requires own != [] && n <= |own| - 1 && Admissible(s, coded, own[0].event) && Fits(s, own[0].event)
    requires TakenUpTo(Recorded(s, own[0].event), own[1..], coded, n)
    ensures TakenUpTo(s, own, coded, n + 1)
  {
    hide Admissible, Fits, Recorded;
    forall k | 0 <= k < n + 1
      ensures var t := RecordedAll(s, own, k); Admissible(t, coded, own[k].event) && Fits(t, own[k].event)
    {
      if k != 0 { RecordedFirst(s, own, k - 1); }
    }
  }

  /** How the event loop ended after taking `n` events: at the end of the list, at a refusal, or in a panic. */
  ghost predicate EndedAfter(s: State, own: seq<Log>, coded: set<Bytes>, n: nat, r: Option<State>) {
    && n <= |own| && TakenUpTo(s, own, coded, n)
    && var t := RecordedAll(s, own, n);
      match r
      case Some(s') => s' == t && (n == |own| || !Admissible(t, coded, own[n].event))
      case None => n < |own| && Admissible(t, coded, own[n].event) && !Fits(t, own[n].event)
  }

  lemma EndedFirst(s: State, own: seq<Log>, coded: set<Bytes>, n: nat, r: Option<State>)
    requires own != [] && Admissible(s, coded, own[0].event) && Fits(s, own[0].event)
    requires EndedAfter(Recorded(s, own[0].event), own[1..], coded, n, r)
    ensures EndedAfter(s, own, coded, n + 1, r)
  {
    hide Admissible, Fits, Recorded, TakenUpTo;
    TakenFirst(s, own, coded, n);
    RecordedFirst(s, own, n);
  }

  lemma {:induction false} LoopEnds(s: State, turnstile: Bytes, logs: seq<Log>, i: nat, coded: set<Bytes>)
    returns (n: nat)
    requires Agree(s) && i <= |logs|
    ensures EndedAfter(s, OwnLogs(logs[i..], turnstile), coded, n, ProcessFrom(s, turnstile, logs, i, coded))
    decreases |logs| - i
  {
    hide Agree, HandleEvent, Admissible, Fits, Recorded;
    var own := OwnLogs(logs[i..], turnstile);
    if i == |logs| {
      n := 0;
    } else {
      assert logs[i..][0] == logs[i] && logs[i..][1..] == logs[i + 1..];
      if logs[i].topics == 0 || logs[i].address != turnstile {
        assert own == OwnLogs(logs[i + 1..], turnstile);
        n := LoopEnds(s, turnstile, logs, i + 1, coded);
      } else {
        assert own == [logs[i]] + OwnLogs(logs[i + 1..], turnstile);
        EventIsHandled(s, coded, logs[i].event);
        HandleKeepsAgreement(s, coded, logs[i].event);
        if HandleEvent(s, coded, logs[i].event).Done? {
          assert own[1..] == OwnLogs(logs[i + 1..], turnstile);
          n := LoopEnds(Recorded(s, logs[i].event), turnstile, logs, i + 1, coded);
          EndedFirst(s, own, coded, n, ProcessFrom(s, turnstile, logs, i, coded));
          n := n + 1;
        } else {
          n := 0;
          assert RecordedAll(s, own, 0) == s;
        }
      }
    }
  }

  /**
    The events acted on are the Turnstile's own, in order, up to the first that is refused. Each has its own
    effect and no other; the refused one and all later ones have none.
   */
  lemma EventsAreRecorded(s: State, tx: Tx) returns (n: nat)
    requires Agree(s) && s.turnstile.Some?
    ensures EndedAfter(s, OwnLogs(tx.logs, s.turnstile.value), tx.coded, n, ProcessEvents(s, tx))
  {
    hide Agree, ProcessFrom, EndedAfter;
    assert tx.logs[0..] == tx.logs;
    n := LoopEnds(s, s.turnstile.value, tx.logs, 0, tx.coded);
  }

  // ---- Logs of others do nothing -----------------------------------------------------------------------------

  lemma {:induction false} EndIsUnique(s: State, own: seq<Log>, coded: set<Bytes>, m: nat, q: Option<State>, n: nat,
      r: Option<State>)
    requires EndedAfter(s, own, coded, m, q) && EndedAfter(s, own, coded, n, r)
    ensures m == n && q == r
  {
    hide Admissible, Fits, Recorded;
  }

  /** The result depends on the Turnstile's own logs only. */
  lemma OwnLogsDecide(s: State, tx: Tx, tx': Tx)
    requires Agree(s) && s.turnstile.Some? && tx.coded == tx'.coded
    requires OwnLogs(tx.logs, s.turnstile.value) == OwnLogs(tx'.logs, s.turnstile.value)
    ensures ProcessEvents(s, tx) == ProcessEvents(s, tx')
  {
    hide Agree, ProcessEvents, EndedAfter;
    var m := EventsAreRecorded(s, tx);
    var n := EventsAreRecorded(s, tx');
    EndIsUnique(s, OwnLogs(tx.logs, s.turnstile.value), tx.coded, m, ProcessEvents(s, tx), n, ProcessEvents(s, tx'));
  }

  /** A log without topics or of another address can be struck from the list. */
  lemma ForeignLogsDoNothing(s: State, tx: Tx, before: seq<Log>, l: Log, after: seq<Log>)
    requires Agree(s) && s.turnstile.Some? && tx.logs == before + [l] + after
    requires l.topics == 0 || l.address != s.turnstile.value
    ensures ProcessEvents(s, tx) == ProcessEvents(s, tx.(logs := before + after))
  {
    hide Agree, ProcessEvents;
    var t := s.turnstile.value;
    OwnLogsConcat(before + [l], after, t);
    OwnLogsConcat(before, [l], t);
    OwnLogsConcat(before, after, t);
    assert OwnLogs([l], t) == [];
    OwnLogsDecide(s, tx, tx.(logs := before + after));
  }

  // ---- Every entry comes from a log ---------------------------------------------------------------------------

  /** The log is the Turnstile's and names contract `c` and NFT `n`. */
  predicate Names(l: Log, turnstile: Bytes, c: Bytes, n: nat) {
    && l.topics != 0 && l.address == turnstile && (l.event.Register? || l.event.Assign?)
    && l.event.data.Some? && l.event.data.value.0 == c && l.event.data.value.1 % UINT64 == n
  }

  /** Nothing is lost: entries of the index stay, records keep their contracts and their books. */
  ghost predicate Extends(s: State, s': State) {
    && (forall c :: c in s.index ==> c in s'.index && s'.index[c] == s.index[c])
    && (forall n :: n in s.csrs ==>
          && n in s'.csrs && s.csrs[n].contracts <= s'.csrs[n].contracts
          && s'.csrs[n] == s.csrs[n].(contracts := s'.csrs[n].contracts))
  }

  /** What is new among the entries was named by one of the first `n` events, a new record by a register event. */
  ghost predicate Logged(s: State, s': State, own: seq<Log>, turnstile: Bytes, n: nat)
    requires n <= |own|
  {
    && (forall c :: c in s'.index && c !in s.index ==>
          exists k :: 0 <= k < n && Names(own[k], turnstile, c, s'.index[c]))
    && (forall id :: id in s'.csrs && id !in s.csrs ==>
          exists k, c :: 0 <= k < n && own[k].event.Register? && Names(own[k], turnstile, c, id))
  }

  lemma RecordedExtends(s: State, coded: set<Bytes>, e: Event)
    requires Admissible(s, coded, e)
    ensures Extends(s, Recorded(s, e))
  {
    hide IsContractAddress;
  }

  lemma ExtendsTransitive(a: State, b: State, c: State)
    requires Extends(a, b) && Extends(b, c)
    ensures Extends(a, c)
  {
    forall n | n in a.csrs
      ensures n in c.csrs && a.csrs[n].contracts <= c.csrs[n].contracts
        && c.csrs[n] == a.csrs[n].(contracts := c.csrs[n].contracts)
    {
      assert a.csrs[n].contracts <= b.csrs[n].contracts <= c.csrs[n].contracts;
    }
  }

  lemma {:induction false} OwnLogsAreOwn(logs: seq<Log>, turnstile: Bytes)
    ensures forall k :: 0 <= k < |OwnLogs(logs, turnstile)| ==>
      && OwnLogs(logs, turnstile)[k].topics != 0 && OwnLogs(logs, turnstile)[k].address == turnstile
      && OwnLogs(logs, turnstile)[k] in logs
  {
    if logs != [] { OwnLogsAreOwn(logs[1..], turnstile); }
  }

  lemma LoggedNext(s: State, t: State, own: seq<Log>, turnstile: Bytes, coded: set<Bytes>, n: nat)
    requires n < |own| && Logged(s, t, own, turnstile, n) && Admissible(t, coded, own[n].event)
    requires own[n].topics != 0 && own[n].address == turnstile
    ensures Logged(s, Recorded(t, own[n].event), own, turnstile, n + 1)
  {
    hide IsContractAddress;
    var t', e := Recorded(t, own[n].event), own[n].event;
    forall c | c in t'.index && c !in s.index
      ensures exists k :: 0 <= k < n + 1 && Names(own[k], turnstile, c, t'.index[c])
    {
      if (e.Register? || e.Assign?) && e.data.value.0 == c {
        assert Names(own[n], turnstile, c, t'.index[c]);
      } else {
        var k :| 0 <= k < n && Names(own[k], turnstile, c, t.index[c]);
        assert Names(own[k], turnstile, c, t'.index[c]);
      }
    }
    forall id | id in t'.csrs && id !in s.csrs
      ensures exists k, c :: 0 <= k < n + 1 && own[k].event.Register? && Names(own[k], turnstile, c, id)
    {
      if e.Register? && e.data.value.1 % UINT64 == id {
        assert Names(own[n], turnstile, e.data.value.0, id);
      } else {
        var k, c :| 0 <= k < n && own[k].event.Register? && Names(own[k], turnstile, c, id);
        assert k < n + 1;
      }
    }
  }

  lemma {:induction false} RecordedAllIsLogged(s: State, own: seq<Log>, turnstile: Bytes, coded: set<Bytes>, n: nat)
    requires n <= |own| && TakenUpTo(s, own, coded, n)
    requires forall k :: 0 <= k < |own| ==> own[k].topics != 0 && own[k].address == turnstile
    ensures Extends(s, RecordedAll(s, own, n)) && Logged(s, RecordedAll(s, own, n), own, turnstile, n)
  {
    hide Recorded, Admissible, Fits;
    if n != 0 {
      RecordedAllIsLogged(s, own, turnstile, coded, n - 1);
      var t := RecordedAll(s, own, n - 1);
      RecordedExtends(t, coded, own[n - 1].event);
      ExtendsTransitive(s, t, RecordedAll(s, own, n));
      LoggedNext(s, t, own, turnstile, coded, n - 1);
    }
  }

  /**
    An entry of the index appears only if a log of the Turnstile in the transaction registers or assigns that
    contract to that NFT, and a record only if one registers that NFT. Nothing that was there is lost.
   */
  lemma EntriesComeFromLogs(s: State, tx: Tx)
    requires Agree(s) && s.turnstile.Some? && ProcessEvents(s, tx).Some?
    ensures var t, r := s.turnstile.value, ProcessEvents(s, tx).value;
      && Extends(s, r)
      && (forall c :: c in r.index && c !in s.index ==> exists l :: l in tx.logs && Names(l, t, c, r.index[c]))
      && (forall n :: n in r.csrs && n !in s.csrs ==>
            exists l, c :: l in tx.logs && l.event.Register? && Names(l, t, c, n))
  {
    hide Agree, ProcessFrom, Names, RecordedAll, TakenUpTo, Extends, Admissible, Fits, OwnLogs;
    var t, r := s.turnstile.value, ProcessEvents(s, tx).value;
    var own := OwnLogs(tx.logs, t);
    var n := EventsAreRecorded(s, tx);
    OwnLogsAreOwn(tx.logs, t);
    RecordedAllIsLogged(s, own, t, tx.coded, n);
    forall c | c in r.index && c !in s.index ensures exists l :: l in tx.logs && Names(l, t, c, r.index[c]) {
      var k :| 0 <= k < n && Names(own[k], t, c, r.index[c]);
      assert own[k] in tx.logs;
    }
    forall id | id in r.csrs && id !in s.csrs
      ensures exists l, c :: l in tx.logs && l.event.Register? && Names(l, t, c, id)
    {
      var k, c :| 0 <= k < n && own[k].event.Register? && Names(own[k], t, c, id);
      assert own[k] in tx.logs;
    }
  }
}
