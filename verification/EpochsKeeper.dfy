/** The epochs keeper: it steps every timer of its store once per block and calls the hooks. */
module EpochsKeeper {
  import opened Basics
  import opened Epochs

  /** The zero time, 1 January of year 1, relative to the Unix epoch. */
  const ZERO_TIME: int := -62_135_596_800_000_000_000

  /** A genesis timer as stored: a missing start time becomes the block time. */
  function Initial(e: EpochInfo, b: Block): EpochInfo {
    e.(startTime := if e.startTime == ZERO_TIME then b.time else e.startTime, startHeight := b.height)
  }

  class Keeper {
    var store: Store
    var trace: seq<HookCall>
    const hooks: nat

    constructor (hooks: nat)
      ensures this.hooks == hooks && store == map[] && trace == []
    {
      this.hooks := hooks;
      store, trace := map[], [];
    }

    method SetEpochInfo(e: EpochInfo)
      modifies this`store
      ensures store == old(store)[e.identifier := e]
    {
      store := store[e.identifier := e];
    }

    /** Call every hook, in registration order. */
    method CallHooks(identifier: string, notice: Notice)
      modifies this`trace
      ensures trace == old(trace) + Dispatch(hooks, identifier, notice)
    {
      for i := 0 to hooks
        invariant trace == old(trace) + Dispatch(i, identifier, notice)
      {
        trace := trace + [HookCall(i, identifier, notice)];
        assert Dispatch(i + 1, identifier, notice) == Dispatch(i, identifier, notice)
          + [HookCall(i, identifier, notice)];
      }
    }

    /** The per-block callback on one timer. */
    method StepTimer(id: string, b: Block)
      requires Keyed(store) && id in store
      modifies this`store, this`trace
      ensures store == old(store)[id := Tick(old(store)[id], b.time, b.height)] && Keyed(store)
      ensures trace == old(trace) + DispatchAll(hooks, id, Notices(old(store)[id], b.time))
    {
      hide Dispatch;
      var epoch := store[id];
      var shouldStart := !epoch.started && epoch.startTime <= b.time;
      var endTime := epoch.currentStart + epoch.duration;
      var shouldEnd := endTime < b.time && !shouldStart && epoch.startTime <= b.time;
      epoch := epoch.(startHeight := b.height);
      if shouldStart {
        epoch := epoch.(started := true, currentEpoch := 1, currentStart := epoch.startTime);
      } else if shouldEnd {
        epoch := epoch.(currentEpoch := epoch.currentEpoch + 1, currentStart := epoch.currentStart + epoch.duration);
        CallHooks(id, Notice(AfterEpochEnd, epoch.currentEpoch));
      } else {
        assert old(store) == old(store)[id := old(store)[id]];
        return;
      }
      SetEpochInfo(epoch);
      CallHooks(id, Notice(BeforeEpochStart, epoch.currentEpoch));
      ghost var last := Notice(BeforeEpochStart, epoch.currentEpoch);
      assert DispatchAll(hooks, id, [last]) == Dispatch(hooks, id, last);
      assert shouldEnd ==> Notices(old(store)[id], b.time)[1..] == [last];
    }

    /** One block: every timer ticks once, and the hooks hear of each in iteration order. */
    method BeginBlocker(order: seq<string>, b: Block)
      requires Keyed(store) && Enumerates(order, store.Keys)
      modifies this`store, this`trace
      ensures store == TickAll(old(store), b) && Keyed(store)
      ensures trace == old(trace) + BlockCalls(old(store), order, b.time, hooks)
    {
      hide Notices, DispatchAll, Tick, TickSome, TickAll;
      TickSomeBounds(store, order, b);
      assert BlockCalls(store, [], b.time, hooks) == [];
      hide BlockCalls;
      for i := 0 to |order|
        invariant Keyed(store) && store == TickSome(old(store), order[..i], b)
        invariant trace == old(trace) + BlockCalls(old(store), order[..i], b.time, hooks)
      {
        TickSomeNext(old(store), order, i, b);
        BlockCallsNext(old(store), order, i, b.time, hooks);
        StepTimer(order[i], b);
      }
      assert order[..|order|] == order;
    }

    /** Store every genesis timer, one after the other. */
    method InitGenesis(epochs: seq<EpochInfo>, b: Block)
      requires Keyed(store)
      modifies this`store
      ensures store == Seeded(old(store), epochs, b) && Keyed(store)
    {
      for n := 0 to |epochs|
        invariant store == Seeded(old(store), epochs[..n], b) && Keyed(store)
      {
        var epoch := epochs[n];
        if epoch.startTime == ZERO_TIME { epoch := epoch.(startTime := b.time); }
        epoch := epoch.(startHeight := b.height);
        SetEpochInfo(epoch);
        assert epochs[..n + 1][..n] == epochs[..n];
      }
      assert epochs[..|epochs|] == epochs;
    }
  }

  // ---- Genesis ----------------------------------------------------------------------------------------------

  function Seeded(store: Store, epochs: seq<EpochInfo>, b: Block): Store {
    if epochs == [] then store else
      var last := epochs[|epochs| - 1];
      Seeded(store, epochs[..|epochs| - 1], b)[last.identifier := Initial(last, b)]
  }

  /**
    Where an identifier is listed more than once the last entry wins. It is stored as listed, except that the
    start height is that of the block and a start time that is missing is its time.
   */
  lemma {:induction false} LastEntryWins(store: Store, epochs: seq<EpochInfo>, b: Block, i: nat)
    requires i < |epochs| && forall j :: i < j < |epochs| ==> epochs[j].identifier != epochs[i].identifier
    ensures epochs[i].identifier in Seeded(store, epochs, b)
    ensures var e, stored := epochs[i], Seeded(store, epochs, b)[epochs[i].identifier];
      && stored == e.(startTime := stored.startTime, startHeight := b.height)
      && (e.startTime != ZERO_TIME ==> stored.startTime == e.startTime)
      && (e.startTime == ZERO_TIME ==> stored.startTime == b.time)
  {
    var n := |epochs| - 1;
    if i < n {
      LastEntryWins(store, epochs[..n], b, i);
      assert epochs[n].identifier != epochs[i].identifier;
    }
  }

  /** Timers the genesis does not mention are as they were. */
  lemma {:induction false} OthersStay(store: Store, epochs: seq<EpochInfo>, b: Block, id: string)
    requires forall i :: 0 <= i < |epochs| ==> epochs[i].identifier != id
    ensures id in Seeded(store, epochs, b) <==> id in store
    ensures id in store ==> Seeded(store, epochs, b)[id] == store[id]
  {
    if epochs != [] {
      var n := |epochs| - 1;
      assert epochs[n].identifier != id;
      OthersStay(store, epochs[..n], b, id);
    }
  }

  /** The sequential check of a genesis: no identifier twice and every timer valid. */
  method ValidateGenesis(epochs: seq<EpochInfo>) returns (ok: bool)
    ensures ok <==>
      && (forall i :: 0 <= i < |epochs| ==> TimerValid(epochs[i]))
      && (forall i, j :: 0 <= i < j < |epochs| ==> epochs[i].identifier != epochs[j].identifier)
  {
    hide TimerValid;
    var seen: set<string> := {};
    for n := 0 to |epochs|
      invariant forall i :: 0 <= i < n ==> TimerValid(epochs[i])
      invariant forall i, j :: 0 <= i < j < n ==> epochs[i].identifier != epochs[j].identifier
      invariant forall id :: id in seen <==> exists i :: 0 <= i < n && epochs[i].identifier == id
    {
      if epochs[n].identifier in seen { return false; }
      if !TimerValid(epochs[n]) { return false; }
      seen := seen + {epochs[n].identifier};
    }
    return true;
  }
}
