/** The ante-handler check on nested authorization messages. */
module AuthzLimiter {
  import opened Bits
  const MAX_NESTED_MSGS: nat := 7

  /**
    A message. `Exec` wraps messages, `Grant` names a message type; either may fail to decode.
    Anything else is known by its type only.
   */
  datatype Msg = Exec(inner: seq<Msg>, decodes: bool) | Grant(url: string, decodes: bool) | Other(url: string)

  // ---- The tree of messages -----------------------------------------------------------------------------

  /** A path of indexes leads to a message: each step but the last goes into an `Exec`. */
  ghost predicate Leads(ms: seq<Msg>, path: seq<nat>)
    decreases |path|
  {
    && path != [] && path[0] < |ms|
    && (|path| == 1 || (ms[path[0]].Exec? && Leads(ms[path[0]].inner, path[1..])))
  }

  ghost function MsgAt(ms: seq<Msg>, path: seq<nat>): Msg
    requires Leads(ms, path)
    decreases |path|
  {
    if |path| == 1 then ms[path[0]] else MsgAt(ms[path[0]].inner, path[1..])
  }

  /** A message that is let through by itself, `wrapped` telling whether an `Exec` stands above it. */
  predicate Innocent(disabled: set<string>, m: Msg, wrapped: bool) {
    match m
    case Exec(_, decodes) => decodes
    case Grant(url, decodes) => decodes && url !in disabled
    case Other(url) => !wrapped || url !in disabled
  }

  /** Every message at every depth is let through by itself. */
  ghost predicate Harmless(disabled: set<string>, ms: seq<Msg>, wrapped: bool) {
    forall path :: Leads(ms, path) ==> Innocent(disabled, MsgAt(ms, path), wrapped || 1 < |path|)
  }

  /** Paths that start at the first message, and paths that start later. */
  lemma PathsBelow(ms: seq<Msg>, path: seq<nat>)
    requires ms != [] && ms[0].Exec? && Leads(ms[0].inner, path)
    ensures Leads(ms, [0] + path) && MsgAt(ms, [0] + path) == MsgAt(ms[0].inner, path)
  {
    assert ([0] + path)[1..] == path;
  }

  lemma PathsBeside(ms: seq<Msg>, path: seq<nat>)
    requires ms != [] && path != []
    ensures var later := [path[0] + 1] + path[1..];
      && (Leads(ms, later) <==> Leads(ms[1..], path))
      && (Leads(ms, later) ==> MsgAt(ms, later) == MsgAt(ms[1..], path))
  {
    var later := [path[0] + 1] + path[1..];
    assert later[1..] == path[1..];
    if path[0] < |ms| - 1 { assert ms[later[0]] == ms[1..][path[0]]; }
  }

  lemma HarmlessSplits(disabled: set<string>, ms: seq<Msg>, wrapped: bool)
    requires ms != [] && Harmless(disabled, ms, wrapped)
    ensures Innocent(disabled, ms[0], wrapped) && Harmless(disabled, ms[1..], wrapped)
    ensures ms[0].Exec? ==> Harmless(disabled, ms[0].inner, true)
  {
    hide Innocent;
    assert Leads(ms, [0]) && MsgAt(ms, [0]) == ms[0];
    forall path | Leads(ms[1..], path) ensures Innocent(disabled, MsgAt(ms[1..], path), wrapped || 1 < |path|) {
      PathsBeside(ms, path);
      var later := [path[0] + 1] + path[1..];
      assert Leads(ms, later) && |later| == |path|;
    }
    if ms[0].Exec? {
      forall path | Leads(ms[0].inner, path) ensures Innocent(disabled, MsgAt(ms[0].inner, path), true) {
        PathsBelow(ms, path);
        assert Leads(ms, [0] + path);
      }
    }
  }

  lemma HarmlessJoins(disabled: set<string>, ms: seq<Msg>, wrapped: bool)
    requires ms != [] && Innocent(disabled, ms[0], wrapped) && Harmless(disabled, ms[1..], wrapped)
    requires ms[0].Exec? ==> Harmless(disabled, ms[0].inner, true)
    ensures Harmless(disabled, ms, wrapped)
  {
    hide Innocent;
    forall path | Leads(ms, path) ensures Innocent(disabled, MsgAt(ms, path), wrapped || 1 < |path|) {
      if path[0] == 0 {
        if 1 < |path| { assert Leads(ms[0].inner, path[1..]); }
      } else {
        var earlier := [path[0] - 1] + path[1..];
        assert path == [earlier[0] + 1] + earlier[1..];
        PathsBeside(ms, earlier);
        assert Leads(ms[1..], earlier);
      }
    }
  }

  lemma HarmlessCons(disabled: set<string>, ms: seq<Msg>, wrapped: bool)
    requires ms != []
    ensures Harmless(disabled, ms, wrapped) <==>
      && Innocent(disabled, ms[0], wrapped) && Harmless(disabled, ms[1..], wrapped)
      && (ms[0].Exec? ==> Harmless(disabled, ms[0].inner, true))
  {
    hide Innocent, Harmless;
    if Harmless(disabled, ms, wrapped) {
      HarmlessSplits(disabled, ms, wrapped);
    } else if Innocent(disabled, ms[0], wrapped) && Harmless(disabled, ms[1..], wrapped)
        && (ms[0].Exec? ==> Harmless(disabled, ms[0].inner, true)) {
      HarmlessJoins(disabled, ms, wrapped);
    }
  }

  /** Something to refuse: undecodable, a grant of a disabled type, or of a disabled type with an `Exec` above it. */
  ghost predicate Offence(disabled: set<string>, ms: seq<Msg>, path: seq<nat>, wrapped: bool) {
    && Leads(ms, path)
    && var m := MsgAt(ms, path);
      || (m.Exec? && !m.decodes)
      || (m.Grant? && (!m.decodes || m.url in disabled))
      || (m.Other? && m.url in disabled && (wrapped || 1 < |path|))
  }

  /**
    Messages are refused for what they are exactly when an offence can be pointed at. Nothing else is; in
    particular a disabled type outside any `Exec` is let through.
   */
  lemma HarmlessIff(disabled: set<string>, ms: seq<Msg>, wrapped: bool)
    ensures Harmless(disabled, ms, wrapped) <==> !exists path :: Offence(disabled, ms, path, wrapped)
  {
    forall path | Leads(ms, path)
      ensures Offence(disabled, ms, path, wrapped) <==> !Innocent(disabled, MsgAt(ms, path), wrapped || 1 < |path|)
    {
    }
  }

  /** Messages that are neither wrappers nor grants cost nothing and are harmless, whatever their types. */
  lemma {:induction false} PlainMessages(disabled: set<string>, ms: seq<Msg>)
    requires forall i :: 0 <= i < |ms| ==> ms[i].Other?
    ensures Cost(ms) == 0 && Harmless(disabled, ms, false)
  {
    hide Harmless;
    if ms == [] {
      HarmlessEmpty(disabled, false);
    } else {
      PlainMessages(disabled, ms[1..]);
      HarmlessCons(disabled, ms, false);
    }
  }

  lemma HarmlessEmpty(disabled: set<string>, wrapped: bool)
    ensures Harmless(disabled, [], wrapped)
  {
  }

  function Max(a: nat, b: nat): nat {
    if a < b then b else a
  }

  /**
    How far the level counter climbs: an `Exec` raises it for what it wraps and also for its later
    siblings, so the cost is the height of the tree that has both as children.
   */
  function Cost(ms: seq<Msg>): nat
    decreases ms
  {
    if ms == [] then 0
    else if ms[0].Exec? then 1 + Max(Cost(ms[0].inner), Cost(ms[1..]))
    else Cost(ms[1..])
  }

  // ---- What the level counter counts ---------------------------------------------------------------------

  /** How many of the first `n` messages are `Exec`s. */
  function ExecsUpTo(ms: seq<Msg>, n: nat): nat
    requires n <= |ms|
  {
    if n == 0 then 0 else (if ms[0].Exec? then 1 else 0) + ExecsUpTo(ms[1..], n - 1)
  }

  /** How far the level has risen when the check enters the message at `path`: by every `Exec` before it or above it. */
  ghost function Climb(ms: seq<Msg>, path: seq<nat>): nat
    requires Leads(ms, path)
    decreases |path|
  {
    ExecsUpTo(ms, path[0] + 1) + if |path| == 1 then 0 else Climb(ms[path[0]].inner, path[1..])
  }

  ghost predicate LeadsToExec(ms: seq<Msg>, path: seq<nat>) {
    Leads(ms, path) && MsgAt(ms, path).Exec?
  }

  lemma ClimbBeside(ms: seq<Msg>, path: seq<nat>)
    requires ms != [] && Leads(ms[1..], path)
    ensures var later := [path[0] + 1] + path[1..];
      Leads(ms, later) && Climb(ms, later) == (if ms[0].Exec? then 1 else 0) + Climb(ms[1..], path)
  {
    PathsBeside(ms, path);
    var later := [path[0] + 1] + path[1..];
    assert later[1..] == path[1..];
    assert ms[later[0]] == ms[1..][path[0]];
  }

  lemma ClimbBelow(ms: seq<Msg>, path: seq<nat>)
    requires ms != [] && ms[0].Exec? && Leads(ms[0].inner, path)
    ensures Leads(ms, [0] + path) && Climb(ms, [0] + path) == 1 + Climb(ms[0].inner, path)
  {
    PathsBelow(ms, path);
    assert ([0] + path)[1..] == path;
    assert ExecsUpTo(ms, 1) == 1;
  }

  /** No `Exec` is entered higher than the cost. */
  lemma {:induction false} ClimbAtMostCost(ms: seq<Msg>, path: seq<nat>)
    requires LeadsToExec(ms, path)
    ensures Climb(ms, path) <= Cost(ms)
    decreases ms
  {
    if path[0] == 0 {
      assert ExecsUpTo(ms, 1) == if ms[0].Exec? then 1 else 0;
      if 1 < |path| { ClimbAtMostCost(ms[0].inner, path[1..]); }
    } else {
      var earlier := [path[0] - 1] + path[1..];
      assert path == [earlier[0] + 1] + earlier[1..];
      PathsBeside(ms, earlier);
      ClimbBeside(ms, earlier);
      ClimbAtMostCost(ms[1..], earlier);
    }
  }

  /** Some `Exec` is entered as high as the cost. */
  lemma {:induction false} CostIsClimbed(ms: seq<Msg>) returns (path: seq<nat>)
    requires 0 < Cost(ms)
    ensures LeadsToExec(ms, path) && Climb(ms, path) == Cost(ms)
    decreases ms
  {
    var below, beside := if ms[0].Exec? then Cost(ms[0].inner) else 0, Cost(ms[1..]);
    if beside != 0 && below <= beside {
      var rest := CostIsClimbed(ms[1..]);
      PathsBeside(ms, rest);
      ClimbBeside(ms, rest);
      path := [rest[0] + 1] + rest[1..];
    } else if below != 0 {
      var rest := CostIsClimbed(ms[0].inner);
      PathsBelow(ms, rest);
      ClimbBelow(ms, rest);
      path := [0] + rest;
    } else {
      path := [0];
      assert ExecsUpTo(ms, 1) == 1;
    }
  }

  /** The cost fits under the limit exactly when every `Exec` is entered below it. */
  lemma CostFitsIff(ms: seq<Msg>, level: nat)
    ensures level + Cost(ms) < MAX_NESTED_MSGS <==>
      level < MAX_NESTED_MSGS && forall path :: LeadsToExec(ms, path) ==> level + Climb(ms, path) < MAX_NESTED_MSGS
  {
    hide Cost, Climb;
    forall path | LeadsToExec(ms, path) ensures Climb(ms, path) <= Cost(ms) { ClimbAtMostCost(ms, path); }
    if 0 < Cost(ms) { var path := CostIsClimbed(ms); }
  }

  class Decorator {
    const disabledTypes: seq<string>

    constructor (disabledTypes: seq<string>)
      ensures this.disabledTypes == disabledTypes
    {
      this.disabledTypes := disabledTypes;
    }

    function Disabled(): set<string> {
      set u | u in disabledTypes
    }

    method IsDisabledMsg(url: string) returns (found: bool)
      ensures found <==> url in Disabled()
    {
      for i := 0 to |disabledTypes|
        invariant url !in disabledTypes[..i]
      {
        if url == disabledTypes[i] { return true; }
        assert disabledTypes[..i + 1] == disabledTypes[..i] + [disabledTypes[i]];
      }
      assert disabledTypes[..|disabledTypes|] == disabledTypes;
      return false;
    }

    /** Accepts exactly the harmless messages whose cost fits under the limit at the given level. */
    method CheckDisabledMsgs(ms: seq<Msg>, wrapped: bool, level: nat) returns (ok: bool)
      ensures ok <==> level + Cost(ms) < MAX_NESTED_MSGS && Harmless(Disabled(), ms, wrapped)
      decreases ms
    {
      hide Harmless, Disabled;
      if level >= MAX_NESTED_MSGS { return false; }
      var nested := level;
      for i := 0 to |ms|
        invariant level <= nested < MAX_NESTED_MSGS
        invariant level + Cost(ms) < MAX_NESTED_MSGS && Harmless(Disabled(), ms, wrapped)
             <==> nested + Cost(ms[i..]) < MAX_NESTED_MSGS && Harmless(Disabled(), ms[i..], wrapped)
      {
        assert ms[i..][0] == ms[i] && ms[i..][1..] == ms[i + 1..];
        HarmlessCons(Disabled(), ms[i..], wrapped);
        match ms[i] {
          case Exec(inner, decodes) =>
            if !decodes { return false; }
            nested := nested + 1;
            var accepted := CheckDisabledMsgs(inner, true, nested);
            if !accepted { return false; }
          case Grant(url, decodes) =>
            if !decodes { return false; }
            var disabled := IsDisabledMsg(url);
            if disabled { return false; }
          case Other(url) =>
            var disabled := IsDisabledMsg(url);
            if wrapped && disabled { return false; }
        }
      }
      HarmlessEmpty(Disabled(), wrapped);
      return true;
    }

    /** A whole transaction: nothing in it offends, and no `Exec` has five or more others before it and above it. */
    method AnteHandle(ms: seq<Msg>) returns (ok: bool)
      ensures ok <==>
        && (forall path :: LeadsToExec(ms, path) ==> Climb(ms, path) <= 5)
        && !exists path :: Offence(Disabled(), ms, path, false)
    {
      hide Harmless, Offence, Disabled, Cost, Climb;
      CostFitsIff(ms, 1);
      HarmlessIff(Disabled(), ms, false);
      ok := CheckDisabledMsgs(ms, false, 1);
    }
  }

  // ---- What the limit means ---------------------------------------------------------------------------

  /** The number of `Exec` messages at all depths. */
  function Execs(ms: seq<Msg>): nat
    decreases ms
  {
    if ms == [] then 0 else (if ms[0].Exec? then 1 + Execs(ms[0].inner) else 0) + Execs(ms[1..])
  }

  /** The longest chain of `Exec` within `Exec`. */
  function Depth(ms: seq<Msg>): nat
    decreases ms
  {
    if ms == [] then 0 else Max(if ms[0].Exec? then 1 + Depth(ms[0].inner) else 0, Depth(ms[1..]))
  }

  /** Because siblings raise the level too, messages of cost c hold fewer than 2^c `Exec`s in all. */
  lemma {:induction false} CostBoundsExecs(ms: seq<Msg>)
    ensures Execs(ms) < Pow2(Cost(ms)) && Depth(ms) <= Cost(ms)
    decreases ms
  {
    if ms != [] {
      CostBoundsExecs(ms[1..]);
      if ms[0].Exec? {
        CostBoundsExecs(ms[0].inner);
        var a, b := Cost(ms[0].inner), Cost(ms[1..]);
        Pow2Monotone(a, Max(a, b));
        Pow2Monotone(b, Max(a, b));
      }
    }
  }

  /** What acceptance at a level guarantees; a whole transaction is checked unwrapped at level 1. */
  lemma AcceptedMessages(disabled: set<string>, ms: seq<Msg>, wrapped: bool, level: nat)
    requires level + Cost(ms) < MAX_NESTED_MSGS && Harmless(disabled, ms, wrapped)
    ensures Execs(ms) <= Pow2(6 - level) - 1 && Depth(ms) <= 6 - level
    ensures level == 1 ==> Execs(ms) <= 31 && Depth(ms) <= 5
    ensures forall path :: Leads(ms, path) ==>
      var m := MsgAt(ms, path);
      (m.Other? && (wrapped || 1 < |path|) ==> m.url !in disabled) && (m.Grant? ==> m.url !in disabled)
  {
    CostBoundsExecs(ms);
    Pow2Monotone(Cost(ms), 6 - level);
    assert Pow2(5) == 32;
  }

  /** The fullest messages of cost c. */
  function Fullest(c: nat): (ms: seq<Msg>) {
    if c == 0 then [] else [Exec(Fullest(c - 1), true)] + Fullest(c - 1)
  }

  /** The bounds are attained: 2^c - 1 `Exec`s, and a chain of c. */
  lemma {:induction false} BoundsAreTight(disabled: set<string>, c: nat, wrapped: bool)
    ensures Cost(Fullest(c)) == c && Execs(Fullest(c)) == Pow2(c) - 1 && Depth(Fullest(c)) == c
    ensures Harmless(disabled, Fullest(c), wrapped)
  {
    hide Harmless;
    if c == 0 {
      HarmlessEmpty(disabled, wrapped);
    } else {
      BoundsAreTight(disabled, c - 1, true);
      BoundsAreTight(disabled, c - 1, wrapped);
      assert Fullest(c)[1..] == Fullest(c - 1);
      HarmlessCons(disabled, Fullest(c), wrapped);
    }
  }

  /** `n` empty wrappers side by side. */
  function Siblings(n: nat): (ms: seq<Msg>) {
    if n == 0 then [] else [Exec([], true)] + Siblings(n - 1)
  }

  /**
    Nothing is nested here and nothing is forbidden, yet six siblings are one too many: a whole transaction,
    checked unwrapped at level 1, is accepted exactly when n <= 5.
   */
  lemma {:induction false} SiblingsCostAsMuchAsNesting(disabled: set<string>, n: nat, wrapped: bool)
    ensures Cost(Siblings(n)) == n && Depth(Siblings(n)) <= 1 && Harmless(disabled, Siblings(n), wrapped)
    ensures 1 + Cost(Siblings(n)) < MAX_NESTED_MSGS && Harmless(disabled, Siblings(n), wrapped) <==> n <= 5
  {
    hide Harmless;
    HarmlessEmpty(disabled, wrapped);
    if n != 0 {
      SiblingsCostAsMuchAsNesting(disabled, n - 1, wrapped);
      assert Siblings(n)[1..] == Siblings(n - 1);
      HarmlessEmpty(disabled, true);
      HarmlessCons(disabled, Siblings(n), wrapped);
    }
  }
}
