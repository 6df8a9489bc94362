/** The epoch timers: a per-block step over a store of timers, with hooks called as epochs end and start. */
module Epochs {
  import opened Arithmetic
  import opened Basics

  /** Times and durations are in nanoseconds. */
  datatype EpochInfo = EpochInfo(
    identifier: string, startTime: int, duration: int, currentEpoch: int,
    currentStart: int, started: bool, startHeight: int)

  /** White space as in Unicode. */
  predicate IsSpace(c: char) {
    || '\t' <= c <= '\r' || c == ' ' || c == '\U{85}' || c == '\U{A0}' || c == '\U{1680}'
    || '\U{2000}' <= c <= '\U{200A}' || c == '\U{2028}' || c == '\U{2029}' || c == '\U{202F}'
    || c == '\U{205F}' || c == '\U{3000}'
  }

  predicate Blank(s: string) {
    forall i :: 0 <= i < |s| ==> IsSpace(s[i])
  }

  /** Stateless validity; of the duration it asks only that it is not zero. */
  predicate TimerValid(e: EpochInfo) {
    !Blank(e.identifier) && e.duration != 0 && 0 <= e.currentEpoch && 0 <= e.startHeight
  }

  datatype Kind = AfterEpochEnd | BeforeEpochStart
  datatype Notice = Notice(kind: Kind, number: int)
  datatype HookCall = HookCall(hook: nat, identifier: string, notice: Notice)

  predicate ShouldStart(e: EpochInfo, t: int) {
    !e.started && e.startTime <= t
  }

  predicate ShouldEnd(e: EpochInfo, t: int) {
    e.currentStart + e.duration < t && !ShouldStart(e, t) && e.startTime <= t
  }

  /** One timer in one block. */
  function Tick(e: EpochInfo, t: int, height: int): EpochInfo {
    if ShouldStart(e, t) then e.(started := true, currentEpoch := 1, currentStart := e.startTime, startHeight := height)
    else if ShouldEnd(e, t) then
      e.(currentEpoch := e.currentEpoch + 1, currentStart := e.currentStart + e.duration, startHeight := height)
    else e
  }

  /** What the hooks hear of one timer in one block. The number passed is already the new one in both calls. */
  function Notices(e: EpochInfo, t: int): seq<Notice> {
    if ShouldStart(e, t) then [Notice(BeforeEpochStart, 1)]
    else if ShouldEnd(e, t) then
      [Notice(AfterEpochEnd, e.currentEpoch + 1), Notice(BeforeEpochStart, e.currentEpoch + 1)]
    else []
  }

  // ---- One timer over a run of blocks ----------------------------------------------------------------

  datatype Block = Block(time: int, height: int)

  function After(e: EpochInfo, bs: seq<Block>, i: nat): (r: EpochInfo)
    requires i <= |bs|
    ensures r.identifier == e.identifier && r.startTime == e.startTime && r.duration == e.duration
  {
    if i == 0 then e else Tick(After(e, bs, i - 1), bs[i - 1].time, bs[i - 1].height)
  }

  ghost predicate Nondecreasing(bs: seq<Block>) {
    forall i, j :: 0 <= i < j < |bs| ==> bs[i].time <= bs[j].time
  }

  /** n divided by d, rounded up. */
  function CeilDiv(n: nat, d: nat): nat
    requires 0 < d
  {
    Quo(n + d - 1, d)
  }

  lemma CeilDivAtMost(n: nat, d: nat, q: nat)
    requires 0 < d
    ensures CeilDiv(n, d) <= q <==> n <= q * d
  {
    DivAtLeast(n + d - 1, d, q + 1);
    assert (q + 1) * d == q * d + d;
  }

  /** The epoch that time `t` falls into, counting from `start`. */
  function Target(start: int, duration: nat, t: int): nat
    requires 0 < duration && start <= t
  {
    var c := CeilDiv(t - start, duration);
    if c < 1 then 1 else c
  }

  function Min(a: int, b: int): int {
    if a < b then a else b
  }

  /** A running timer has not drifted and has not run ahead of time `t`. */
  ghost predicate OnSchedule(e: EpochInfo, t: int)
    requires 0 < e.duration
  {
    e.started && e.startTime <= t && 1 <= e.currentEpoch
    && e.currentStart == e.startTime + (e.currentEpoch - 1) * e.duration
    && e.currentEpoch <= Target(e.startTime, e.duration, t)
  }

  lemma TargetMonotone(start: int, duration: nat, t: int, t': int)
    requires 0 < duration && start <= t <= t'
    ensures Target(start, duration, t) <= Target(start, duration, t')
  {
    DivMonotone(t - start + duration - 1, t' - start + duration - 1, duration);
  }

  /** One block moves a running timer one epoch closer to the block's time and no further. */
  lemma TickFollowsTime(e: EpochInfo, t: int, t': int, height: int)
    requires 0 < e.duration && OnSchedule(e, t) && t <= t'
    ensures OnSchedule(Tick(e, t', height), t')
    ensures Tick(e, t', height).currentEpoch == Min(e.currentEpoch + 1, Target(e.startTime, e.duration, t'))
  {
    var n, d, s := e.currentEpoch, e.duration, e.startTime;
    TargetMonotone(s, d, t, t');
    CeilDivAtMost(t' - s, d, n);
    assert e.currentStart + d == s + n * d by { assert (n - 1) * d + d == n * d; }
    assert ShouldEnd(e, t') <==> n < CeilDiv(t' - s, d);
  }

  lemma StartIsOnSchedule(e: EpochInfo, t: int, height: int)
    requires 0 < e.duration && ShouldStart(e, t)
    ensures OnSchedule(Tick(e, t, height), t) && Tick(e, t, height).currentEpoch == 1
  {
    assert (1 - 1) * e.duration == 0;
  }

  /**
    From an unstarted timer, over every run of nondecreasing block times: until the start time is reached
    nothing happens; from then on the timer is on schedule after every block.
   */
  lemma {:induction false} RunStaysOnSchedule(e: EpochInfo, bs: seq<Block>, i: nat)
    requires 0 < e.duration && !e.started && Nondecreasing(bs) && i <= |bs|
    ensures if i == 0 || bs[i - 1].time < e.startTime then After(e, bs, i) == e
            else OnSchedule(After(e, bs, i), bs[i - 1].time)
  {
    if i != 0 {
      RunStaysOnSchedule(e, bs, i - 1);
      var p, b := After(e, bs, i - 1), bs[i - 1];
      hide OnSchedule;
      if i == 1 || bs[i - 2].time < e.startTime {
        if e.startTime <= b.time { StartIsOnSchedule(p, b.time, b.height); }
      } else {
        TickFollowsTime(p, bs[i - 2].time, b.time, b.height);
      }
    }
  }

  /** The exact law of the counter: one block later it is one higher or at the block's own epoch, whichever is less. */
  lemma CounterLaw(e: EpochInfo, bs: seq<Block>, i: nat)
    requires 0 < e.duration && !e.started && Nondecreasing(bs) && 0 < i < |bs| && e.startTime <= bs[i - 1].time
    ensures After(e, bs, i + 1).currentEpoch
         == Min(After(e, bs, i).currentEpoch + 1, Target(e.startTime, e.duration, bs[i].time))
  {
    hide OnSchedule, Target;
    RunStaysOnSchedule(e, bs, i);
    TickFollowsTime(After(e, bs, i), bs[i - 1].time, bs[i].time, bs[i].height);
  }

  /** While the target stays put the lag shrinks by one per block until it is gone. */
  lemma {:induction false} CatchesUp(e: EpochInfo, bs: seq<Block>, i: nat, k: nat, target: nat)
    requires 0 < e.duration && !e.started && Nondecreasing(bs) && 0 < i && i + k <= |bs|
      && e.startTime <= bs[i - 1].time
    requires forall j :: i <= j < i + k ==>
      e.startTime <= bs[j].time && Target(e.startTime, e.duration, bs[j].time) == target
    ensures 0 < k ==> After(e, bs, i + k).currentEpoch == Min(After(e, bs, i).currentEpoch + k, target)
  {
    hide Target, Tick;
    if k != 0 {
      CatchesUp(e, bs, i, k - 1, target);
      assert bs[i - 1].time <= bs[i + k - 2].time;
      CounterLaw(e, bs, i + k - 1);
    }
  }

  /** With a negative duration, which validation lets through, the counter rises with every block instead. */
  lemma {:induction false} NegativeDurationRunsAway(e: EpochInfo, bs: seq<Block>, i: nat)
    requires TimerValid(e) && e.duration < 0 && !e.started && 0 < i <= |bs|
    requires forall j :: 0 <= j < i ==> e.startTime <= bs[j].time
    ensures After(e, bs, i).started && After(e, bs, i).currentEpoch == i && After(e, bs, i).currentStart <= e.startTime
  {
    hide TimerValid;
    if 1 < i { NegativeDurationRunsAway(e, bs, i - 1); } else { assert After(e, bs, 0) == e; }
  }

  function Abs(n: int): nat {
    if n < 0 then -n else n
  }

  /** The counter law, at block `i` of a run, for a timer that counts in steps of its duration's length. */
  ghost predicate CountsAt(e: EpochInfo, bs: seq<Block>, i: nat)
    requires e.duration != 0
  {
    0 < i < |bs| && Nondecreasing(bs) && e.startTime <= bs[i - 1].time ==>
      After(e, bs, i + 1).currentEpoch
        == Min(After(e, bs, i).currentEpoch + 1, Target(e.startTime, Abs(e.duration), bs[i].time))
  }

  /** Among the timers validation accepts, exactly those with a positive duration keep the counter law on all runs. */
  lemma CounterLawIff(e: EpochInfo)
    requires TimerValid(e) && !e.started
    ensures (forall bs: seq<Block>, i: nat :: CountsAt(e, bs, i)) <==> 0 < e.duration
  {
    if 0 < e.duration {
      forall bs: seq<Block>, i: nat ensures CountsAt(e, bs, i) {
        if 0 < i < |bs| && Nondecreasing(bs) && e.startTime <= bs[i - 1].time { CounterLaw(e, bs, i); }
      }
    } else {
      StandstillMiscounts(e);
    }
  }

  /** Two blocks at the start time: no time has passed, and the counter is at two. */
  lemma StandstillMiscounts(e: EpochInfo)
    requires TimerValid(e) && !e.started && e.duration < 0
    ensures var b := Block(e.startTime, 1);
      After(e, [b, b], 2).currentEpoch == 2 && Target(e.startTime, Abs(e.duration), b.time) == 1
        && !CountsAt(e, [b, b], 1)
  {
    hide TimerValid;
    var b := Block(e.startTime, 1);
    NegativeDurationRunsAway(e, [b, b], 1);
    NegativeDurationRunsAway(e, [b, b], 2);
    CeilDivAtMost(0, Abs(e.duration), 0);
  }

  /** The stored height is that of the block that opened the current epoch. */
  lemma {:induction false} HeightOfOpeningBlock(e: EpochInfo, bs: seq<Block>, i: nat) returns (j: nat)
    requires !e.started && i <= |bs| && After(e, bs, i).started
    ensures j < i && After(e, bs, i).startHeight == bs[j].height
    ensures After(e, bs, j) != After(e, bs, j + 1)
    ensures !After(e, bs, j).started || After(e, bs, j).currentEpoch + 1 == After(e, bs, i).currentEpoch
    ensures forall k :: j < k <= i ==> After(e, bs, k) == After(e, bs, i)
  {
    assert i != 0;
    if After(e, bs, i) == After(e, bs, i - 1) {
      j := HeightOfOpeningBlock(e, bs, i - 1);
    } else {
      j := i - 1;
    }
  }

  // ---- The hook trace ----------------------------------------------------------------------------------

  /** Start of epoch 1, then for each later epoch its announcement as ended and as starting. */
  function Script(n: nat): (s: seq<Notice>) {
    if n == 0 then []
    else if n == 1 then [Notice(BeforeEpochStart, 1)]
    else Script(n - 1) + [Notice(AfterEpochEnd, n), Notice(BeforeEpochStart, n)]
  }

  function Epoch(e: EpochInfo): int {
    if e.started then e.currentEpoch else 0
  }

  lemma TickFollowsScript(e: EpochInfo, t: int, height: int)
    requires e.started ==> 1 <= e.currentEpoch
    ensures 0 <= Epoch(e) <= Epoch(Tick(e, t, height)) <= Epoch(e) + 1
    ensures Script(Epoch(e)) + Notices(e, t) == Script(Epoch(Tick(e, t, height)))
    ensures Tick(e, t, height).started ==> 1 <= Tick(e, t, height).currentEpoch
  {
  }

  /** Dispatch to every hook in order. */
  function Dispatch(hooks: nat, identifier: string, notice: Notice): seq<HookCall> {
    seq(hooks, i requires 0 <= i < hooks => HookCall(i, identifier, notice))
  }

  function DispatchAll(hooks: nat, identifier: string, notices: seq<Notice>): seq<HookCall> {
    if notices == [] then [] else Dispatch(hooks, identifier, notices[0]) + DispatchAll(hooks, identifier, notices[1..])
  }

  /** The notices of timer `identifier` that `hook` received. */
  function Heard(trace: seq<HookCall>, hook: nat, identifier: string): seq<Notice> {
    if trace == [] then [] else
      var last := trace[|trace| - 1];
      Heard(trace[..|trace| - 1], hook, identifier)
        + if last.hook == hook && last.identifier == identifier then [last.notice] else []
  }

  lemma {:induction false} HeardConcat(a: seq<HookCall>, b: seq<HookCall>, hook: nat, identifier: string)
    ensures Heard(a + b, hook, identifier) == Heard(a, hook, identifier) + Heard(b, hook, identifier)
  {
    if b == [] {
      assert a + b == a;
    } else {
      var n := |b| - 1;
      assert (a + b)[..|a + b| - 1] == a + b[..n];
      HeardConcat(a, b[..n], hook, identifier);
    }
  }

  lemma {:induction false} HeardDispatch(hooks: nat, id: string, notice: Notice, hook: nat, identifier: string)
    ensures Heard(Dispatch(hooks, id, notice), hook, identifier) == if hook < hooks && id == identifier
      then [notice] else []
  {
    if hooks != 0 {
      assert Dispatch(hooks, id, notice)[..hooks - 1] == Dispatch(hooks - 1, id, notice);
      HeardDispatch(hooks - 1, id, notice, hook, identifier);
    }
  }

  lemma {:induction false} HeardDispatchAll(hooks: nat, id: string, notices: seq<Notice>, hook: nat, identifier: string)
    ensures Heard(DispatchAll(hooks, id, notices), hook, identifier) == if hook < hooks && id == identifier
      then notices else []
  {
    if notices != [] {
      HeardConcat(Dispatch(hooks, id, notices[0]), DispatchAll(hooks, id, notices[1..]), hook, identifier);
      HeardDispatch(hooks, id, notices[0], hook, identifier);
      HeardDispatchAll(hooks, id, notices[1..], hook, identifier);
    }
  }

  type Store = map<string, EpochInfo>

  ghost predicate Keyed(store: Store) {
    forall id :: id in store ==> store[id].identifier == id
  }

  function TickAll(store: Store, b: Block): Store {
    map id | id in store :: Tick(store[id], b.time, b.height)
  }

  /** The store midway through a block, the timers in `done` having ticked. */
  function TickSome(store: Store, done: seq<string>, b: Block): (r: Store)
    ensures r.Keys == store.Keys
  {
    map id | id in store :: if id in done then Tick(store[id], b.time, b.height) else store[id]
  }

  lemma TickSomeNext(store: Store, order: seq<string>, i: nat, b: Block)
    requires i < |order| && order[i] in store && order[i] !in order[..i]
    ensures TickSome(store, order[..i], b)[order[i]] == store[order[i]]
    ensures TickSome(store, order[..i + 1], b)
         == TickSome(store, order[..i], b)[order[i] := Tick(store[order[i]], b.time, b.height)]
  {
    hide Tick;
    assert order[..i + 1] == order[..i] + [order[i]];
  }

  lemma TickSomeBounds(store: Store, order: seq<string>, b: Block)
    requires Enumerates(order, store.Keys)
    ensures TickSome(store, [], b) == store && TickSome(store, order, b) == TickAll(store, b)
  {
    hide Tick;
  }

  /** All hook calls of one block, the store being iterated in `order`. */
  function BlockCalls(store: Store, order: seq<string>, t: int, hooks: nat): seq<HookCall>
    requires forall i :: 0 <= i < |order| ==> order[i] in store
  {
    if order == [] then [] else
      var n := |order| - 1;
      BlockCalls(store, order[..n], t, hooks) + DispatchAll(hooks, order[n], Notices(store[order[n]], t))
  }

  lemma BlockCallsNext(store: Store, order: seq<string>, i: nat, t: int, hooks: nat)
    requires i < |order| && forall j :: 0 <= j < |order| ==> order[j] in store
    ensures BlockCalls(store, order[..i + 1], t, hooks)
         == BlockCalls(store, order[..i], t, hooks) + DispatchAll(hooks, order[i], Notices(store[order[i]], t))
  {
    assert order[..i + 1][..i] == order[..i];
  }

  lemma HeardNothing(hook: nat, id: string)
    ensures Heard([], hook, id) == []
  {
  }

  lemma {:induction false} HeardBlockCalls(store: Store, order: seq<string>, t: int, hooks: nat, hook: nat, id: string)
    requires forall i :: 0 <= i < |order| ==> order[i] in store
    requires forall i, j :: 0 <= i < j < |order| ==> order[i] != order[j]
    ensures Heard(BlockCalls(store, order, t, hooks), hook, id)
         == if hook < hooks && id in order then Notices(store[id], t) else []
  {
    hide Heard, DispatchAll, Notices;
    if order == [] {
      HeardNothing(hook, id);
    } else {
      var n := |order| - 1;
      var last := order[n];
      var earlier, calls := BlockCalls(store, order[..n], t, hooks), DispatchAll(hooks, last, Notices(store[last], t));
      HeardBlockCalls(store, order[..n], t, hooks, hook, id);
      HeardConcat(earlier, calls, hook, id);
      HeardDispatchAll(hooks, last, Notices(store[last], t), hook, id);
      assert id in order <==> id in order[..n] || id == last;
    }
  }

  /** A chain of blocks: the store after them and everything the hooks heard. */
  datatype State = State(store: Store, trace: seq<HookCall>)

  ghost function RunBlocks(s: State, bs: seq<Block>, orders: seq<seq<string>>, hooks: nat, i: nat): (r: State)
    requires i <= |bs| == |orders| && forall k :: 0 <= k < |orders| ==> Enumerates(orders[k], s.store.Keys)
    ensures r.store.Keys == s.store.Keys
  {
    if i == 0 then s else
      var p := RunBlocks(s, bs, orders, hooks, i - 1);
      State(TickAll(p.store, bs[i - 1]), p.trace + BlockCalls(p.store, orders[i - 1], bs[i - 1].time, hooks))
  }

  /** In the store every timer runs exactly as it would alone: no timer's step touches another. */
  lemma {:induction false} TimersAreIndependent(s: State, bs: seq<Block>, orders: seq<seq<string>>, hooks: nat,
      i: nat, id: string)
    requires i <= |bs| == |orders| && forall k :: 0 <= k < |orders| ==> Enumerates(orders[k], s.store.Keys)
    requires id in s.store
    ensures RunBlocks(s, bs, orders, hooks, i).store[id] == After(s.store[id], bs, i)
  {
    hide Tick, BlockCalls;
    if i != 0 { TimersAreIndependent(s, bs, orders, hooks, i - 1, id); }
  }

  /**
    From unstarted timers, in whatever order the store is iterated in each block, every hook has heard of
    each timer exactly the script up to its current epoch, one epoch change per block at most.
   */
  lemma {:induction false} HooksHearScript(s: State, bs: seq<Block>, orders: seq<seq<string>>, hooks: nat, i: nat,
      id: string, hook: nat)
    requires i <= |bs| == |orders| && forall k :: 0 <= k < |orders| ==> Enumerates(orders[k], s.store.Keys)
    requires s.trace == [] && id in s.store && !s.store[id].started && hook < hooks
    ensures var e := After(s.store[id], bs, i);
      && 0 <= Epoch(e) && (e.started ==> 1 <= e.currentEpoch)
      && Heard(RunBlocks(s, bs, orders, hooks, i).trace, hook, id) == Script(Epoch(e))
    ensures 0 < i ==> var d := Epoch(After(s.store[id], bs, i)) - Epoch(After(s.store[id], bs, i - 1)); 0 <= d <= 1
  {
    hide BlockCalls, Script, Notices, Tick, Enumerates;
    if i != 0 {
      HooksHearScript(s, bs, orders, hooks, i - 1, id, hook);
      var p, b := RunBlocks(s, bs, orders, hooks, i - 1), bs[i - 1];
      TimersAreIndependent(s, bs, orders, hooks, i - 1, id);
      HeardNextBlock(p, orders[i - 1], b.time, hooks, hook, id);
      TickFollowsScript(p.store[id], b.time, b.height);
    } else {
      EmptyScript();
    }
  }

  lemma HeardNextBlock(p: State, order: seq<string>, t: int, hooks: nat, hook: nat, id: string)
    requires Enumerates(order, p.store.Keys) && id in p.store && hook < hooks
    ensures Heard(p.trace + BlockCalls(p.store, order, t, hooks), hook, id) == Heard(p.trace, hook, id)
      + Notices(p.store[id], t)
  {
    hide BlockCalls, Notices;
    HeardBlockCalls(p.store, order, t, hooks, hook, id);
    HeardConcat(p.trace, BlockCalls(p.store, order, t, hooks), hook, id);
  }

  lemma EmptyScript()
    ensures Script(0) == []
  {
  }
}
