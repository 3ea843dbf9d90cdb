/** Properly nested programs: scanning for markers does what block structure says (inc/inlineC.h, src/binds.c,
    inc/tosfns.h). */
module StackBlocks {
  import opened Frames
  import opened ControlStack
  import opened StackRuns

  /** A step, a binding block closed by UNBIND or DUNBIND, or a call with all that runs until it returns. */
  datatype Item =
    | Do(op: Op)
    | Block(byte1: int, slot: int, body: seq<Item>, keep: bool)
    | Calls(op: Op, body: seq<Item>)

  /** The operations a program comes to. */
  function Flat(items: seq<Item>): seq<Op>
    decreases items, 0
  {
    if items == [] then [] else FlatOne(items[0]) + Flat(items[1..])
  }

  function FlatOne(item: Item): seq<Op>
    decreases item, 1
  {
    match item
    case Do(op) => [op]
    case Block(byte1, slot, body, keep) => [BindSlots(byte1, slot)] + Flat(body)
        + [if keep then UnbindSlots else DunbindSlots]
    case Calls(op, body) => [op] + Flat(body) + [Return]
  }

  /** Steps that leave bindings and frames alone, and push no value with its top bit set. */
  predicate Simple(op: Op)
  {
    op.PopValue? || op.GoTo? || op.ArgCount? || (op.PushValue? && !Marked(op.v))
  }

  // ---- what block structure says ----

  /** The block that began at `s` has ended: its slots unbound, the stack below its values as it was. No marker is
      looked for. */
  ghost function Ended(s: State, s2: State, byte1: int, slot: int, keep: bool): State
    requires byte1 % 16 <= |Stacked(s)| && (!keep ==> byte1 % 16 < |Stacked(s)|)
  {
    var l := Stacked(s)[..|Stacked(s)| - byte1 % 16];
    var f := s2.top.(pvars := Unbound(s2.top.pvars, byte1 / 16 + byte1 % 16, slot));
    if keep then s2.(top := f.(temps := l)) else WithStacked(s2.(top := f), l)
  }

  /** The program can run from `s` without reaching the `d` lowest values of the running frame. A block closed by UNBIND
      leaves a value on top; a callee pushes a result. */
  ghost predicate Nests(c: Setting, s: State, items: seq<Item>, d: nat)
    decreases items, 0
  {
    items == [] || (NestsOne(c, s, items[0], d) && Nests(c, AfterOne(c, s, items[0], d), items[1..], d))
  }

  ghost predicate NestsOne(c: Setting, s: State, item: Item, d: nat)
    decreases item, 0
  {
    match item
    case Do(op) => Enabled(c, s, op) && Simple(op) && d <= Leaves(c, s, op)
    case Block(byte1, slot, body, keep) =>
      && Enabled(c, s, BindSlots(byte1, slot)) && d <= |Stacked(s)| - byte1 % 16 &&
        (!keep ==> byte1 % 16 < |Stacked(s)|)
      && var s1 := Step(c, s, BindSlots(byte1, slot));
         Nests(c, s1, body, |Stacked(s1)|) && (keep ==> |Stacked(After(c, s1, body, |Stacked(s1)|))| > |Stacked(s1)|)
    case Calls(op, body) =>
      && Enabled(c, s, op) && IsCall(op) && TakesOperand(op) && d <= Leaves(c, s, op) <= |Stacked(s)|
      && var s1 := Step(c, s, op);
         Nests(c, s1, body, 1) && |Stacked(After(c, s1, body, 1))| > 1
  }

  ghost function After(c: Setting, s: State, items: seq<Item>, d: nat): State
    requires Nests(c, s, items, d)
    decreases items, 1
  {
    if items == [] then s else After(c, AfterOne(c, s, items[0], d), items[1..], d)
  }

  ghost function AfterOne(c: Setting, s: State, item: Item, d: nat): State
    requires NestsOne(c, s, item, d)
    decreases item, 1
  {
    match item
    case Do(op) => Step(c, s, op)
    case Block(byte1, slot, body, keep) =>
      var s1 := Step(c, s, BindSlots(byte1, slot));
      Ended(s, After(c, s1, body, |Stacked(s1)|), byte1, slot, keep)
    case Calls(op, body) =>
      State(s.callers, Waiting(c, s, op), After(c, Step(c, s, op), body, 1).tos)
  }

  // ---- runs put together ----

  lemma {:induction false} RunsAppend(c: Setting, s: State, a: seq<Op>, b: seq<Op>)
    requires Runs(c, s, a) && Runs(c, Run(c, s, a), b)
    ensures Runs(c, s, a + b) && Run(c, s, a + b) == Run(c, Run(c, s, a), b)
    decreases |a|
  {
    hide Step, Enabled;
    if a == [] {
      assert a + b == b;
    } else {
      assert (a + b)[0] == a[0] && (a + b)[1..] == a[1..] + b;
      RunsAppend(c, Step(c, s, a[0]), a[1..], b);
    }
  }

  lemma {:induction false} StaysAppend(c: Setting, s: State, a: seq<Op>, b: seq<Op>, k: nat, d: nat)
    requires Runs(c, s, a) && Runs(c, Run(c, s, a), b)
    requires RunStays(c, s, a, k, d) && RunStays(c, Run(c, s, a), b, k, d)
    ensures Runs(c, s, a + b) && RunStays(c, s, a + b, k, d)
    decreases |a|
  {
    hide Step, Enabled, Stays;
    RunsAppend(c, s, a, b);
    if a == [] {
      assert a + b == b;
    } else {
      assert (a + b)[0] == a[0] && (a + b)[1..] == a[1..] + b;
      StaysAppend(c, Step(c, s, a[0]), a[1..], b, k, d);
    }
  }

  /** One more operation in front, or by itself. */
  lemma OneRuns(c: Setting, s: State, op: Op, k: nat, d: nat)
    requires Enabled(c, s, op) && Stays(c, s, op, k, d)
    ensures Runs(c, s, [op]) && Run(c, s, [op]) == Step(c, s, op) && RunStays(c, s, [op], k, d)
  {
    hide Step, Enabled, Stays;
    assert [op][1..] == [];
  }

  /** A run above a higher floor stays above a lower one. */
  lemma {:induction false} LowerFloor(c: Setting, s: State, ops: seq<Op>, k: nat, d: nat, e: nat)
    requires Runs(c, s, ops) && RunStays(c, s, ops, k, d) && e <= d
    ensures RunStays(c, s, ops, k, e)
    decreases |ops|
  {
    hide Step, Enabled, Leaves;
    if ops != [] {
      LowerFloor(c, Step(c, s, ops[0]), ops[1..], k, d, e);
    }
  }

  /** A run inside a callee does not touch its caller. */
  lemma {:induction false} CallerFloor(c: Setting, s: State, ops: seq<Op>, k: nat, d: nat, e: nat)
    requires Runs(c, s, ops) && RunStays(c, s, ops, k + 1, d)
    ensures RunStays(c, s, ops, k, e)
    decreases |ops|
  {
    hide Step, Enabled, Leaves;
    if ops != [] {
      CallerFloor(c, Step(c, s, ops[0]), ops[1..], k, d, e);
    }
  }

  // ---- the theorem ----

  /** No value above the `d` lowest looks like a marker. */
  ghost predicate Clean(s: State, d: nat)
  {
    d <= |Stacked(s)| && forall j :: d <= j < |Stacked(s)| ==> !Marked(Stacked(s)[j])
  }

  /** The run of `ops` from `s` is possible, ends in `s'`, and leaves the callers and the `d` lowest values alone. */
  ghost predicate Reaches(c: Setting, s: State, ops: seq<Op>, s': State, d: nat)
  {
    && Runs(c, s, ops) && Run(c, s, ops) == s' && RunStays(c, s, ops, |s.callers|, d)
    && s'.callers == s.callers && Clean(s', d)
  }

  lemma ReachesTwo(c: Setting, s: State, a: seq<Op>, s1: State, b: seq<Op>, s2: State, d: nat)
    requires Reaches(c, s, a, s1, d) && Reaches(c, s1, b, s2, d)
    ensures Reaches(c, s, a + b, s2, d)
  {
    hide Runs, Run, RunStays, Clean;
    RunsAppend(c, s, a, b);
    StaysAppend(c, s, a, b, |s.callers|, d);
  }

  /** A simple step pushes nothing that looks like a marker. */
  lemma DoReaches(c: Setting, s: State, op: Op, d: nat)
    requires NestsOne(c, s, Do(op), d) && Clean(s, d)
    ensures Reaches(c, s, [op], Step(c, s, op), d)
  {
    hide Fits, Runs, Run, RunStays;
    OneRuns(c, s, op, |s.callers|, d);
    var s' := Step(c, s, op);
    forall j | d <= j < |Stacked(s')|
      ensures !Marked(Stacked(s')[j])
    {
      if j < |Stacked(s)| {
        assert !Marked(Stacked(s)[j]);
      }
    }
  }

  /** Flattened and run, a properly nested program does what its block structure says: every UNBIND and DUNBIND finds
      the marker of its own block, and every return the frame of its own call. */
  lemma {:induction false} NestedRuns(c: Setting, s: State, items: seq<Item>, d: nat)
    requires Nests(c, s, items, d) && Clean(s, d)
    ensures Reaches(c, s, Flat(items), After(c, s, items, d), d)
    decreases items, 1
  {
    hide Reaches, Clean, NestsOne, AfterOne, FlatOne;
    if items == [] {
      NoneReaches(c, s, d);
    } else {
      ItemRuns(c, s, items[0], d);
      var s1 := AfterOne(c, s, items[0], d);
      ReachesClean(c, s, FlatOne(items[0]), s1, d);
      NestedRuns(c, s1, items[1..], d);
      ReachesTwo(c, s, FlatOne(items[0]), s1, Flat(items[1..]), After(c, s1, items[1..], d), d);
    }
  }

  lemma NoneReaches(c: Setting, s: State, d: nat)
    requires Clean(s, d)
    ensures Reaches(c, s, Flat([]), s, d)
  {
  }

  lemma ReachesClean(c: Setting, s: State, ops: seq<Op>, s': State, d: nat)
    requires Reaches(c, s, ops, s', d)
    ensures Clean(s', d) && s'.callers == s.callers
  {
    hide Clean;
  }

  lemma {:induction false} ItemRuns(c: Setting, s: State, item: Item, d: nat)
    requires NestsOne(c, s, item, d) && Clean(s, d)
    ensures Reaches(c, s, FlatOne(item), AfterOne(c, s, item, d), d)
    decreases item, 2
  {
    hide Reaches, Clean, Flat, Enabled, Step, Leaves, Nests, After, Ended, Waiting;
    match item
    case Do(op) => DoReaches(c, s, op, d);
    case Block(byte1, slot, body, keep) =>
      var s1 := Step(c, s, BindSlots(byte1, slot));
      BlockStarts(c, s, byte1, slot);
      NestedRuns(c, s1, body, |Stacked(s1)|);
      if keep {
        KeepBlock(c, s, byte1, slot, Flat(body), After(c, s1, body, |Stacked(s1)|), d);
      } else {
        DropBlock(c, s, byte1, slot, Flat(body), After(c, s1, body, |Stacked(s1)|), d);
      }
    case Calls(op, body) =>
      var s1 := Step(c, s, op);
      CalleeStarts(c, s, op);
      NestedRuns(c, s1, body, 1);
      CallReaches(c, s, op, Flat(body), After(c, s1, body, 1), d);
  }

  /** Above the marker there is nothing yet. */
  lemma BlockStarts(c: Setting, s: State, byte1: int, slot: int)
    requires Enabled(c, s, BindSlots(byte1, slot))
    ensures Clean(Step(c, s, BindSlots(byte1, slot)), |Stacked(Step(c, s, BindSlots(byte1, slot)))|)
  {
  }

  /** A callee's stack starts with what its caller left in the register. */
  lemma CalleeStarts(c: Setting, s: State, op: Op)
    requires Enabled(c, s, op) && IsCall(op)
    ensures Clean(Step(c, s, op), 1)
  {
    hide Fits, Adapt, Slots, Machine.Prepared;
  }

  lemma KeepBlock(c: Setting, s: State, byte1: int, slot: int, ops: seq<Op>, s2: State, d: nat)
    requires Enabled(c, s, BindSlots(byte1, slot)) && Clean(s, d) && d <= |Stacked(s)| - byte1 % 16
    requires var s1 := Step(c, s, BindSlots(byte1, slot));
      Reaches(c, s1, ops, s2, |Stacked(s1)|) && |Stacked(s2)| > |Stacked(s1)|
    ensures Reaches(c, s, [BindSlots(byte1, slot)] + ops + [UnbindSlots], Ended(s, s2, byte1, slot, true), d)
  {
    hide Runs, Run, RunStays, Bound, Unbound, Marker, Marked, Fits, LastMark, MarkFits, Step, Enabled;
    var s1 := Step(c, s, BindSlots(byte1, slot));
    BindFacts(c, s, byte1, slot);
    UnmarkedTemps(s2, |Stacked(s1)|);
    MatchedUnbind(c, s, byte1, slot, ops);
    RunKeeps(c, s1, ops, |s.callers|, |Stacked(s1)|);
    MarkPlace(c, s, byte1, slot, s1, s2);
    BlockRuns(c, s, byte1, slot, ops, s2, UnbindSlots, d);
    EndedClean(s, s2, byte1, slot, true, d);
  }

  lemma DropBlock(c: Setting, s: State, byte1: int, slot: int, ops: seq<Op>, s2: State, d: nat)
    requires Enabled(c, s, BindSlots(byte1, slot)) && Clean(s, d) && d <= |Stacked(s)| - byte1 % 16
    requires byte1 % 16 < |Stacked(s)|
    requires var s1 := Step(c, s, BindSlots(byte1, slot));
      Reaches(c, s1, ops, s2, |Stacked(s1)|)
    ensures Reaches(c, s, [BindSlots(byte1, slot)] + ops + [DunbindSlots], Ended(s, s2, byte1, slot, false), d)
  {
    hide Runs, Run, RunStays, Bound, Unbound, Marker, Marked, Fits, LastMark, MarkFits, Step, Enabled;
    var s1 := Step(c, s, BindSlots(byte1, slot));
    BindFacts(c, s, byte1, slot);
    MatchedDunbind(c, s, byte1, slot, ops);
    RunKeeps(c, s1, ops, |s.callers|, |Stacked(s1)|);
    MarkPlace(c, s, byte1, slot, s1, s2);
    BlockRuns(c, s, byte1, slot, ops, s2, DunbindSlots, d);
    EndedClean(s, s2, byte1, slot, false, d);
  }

  lemma BindFacts(c: Setting, s: State, byte1: int, slot: int)
    requires Enabled(c, s, BindSlots(byte1, slot))
    ensures var s1 := Step(c, s, BindSlots(byte1, slot));
      && s1.callers == s.callers && |Stacked(s1)| == |Stacked(s)| - byte1 % 16 + 1
      && Marked(s1.tos) && byte1 % 16 <= |Stacked(s)|
    ensures Leaves(c, s, BindSlots(byte1, slot)) == |Stacked(s)| - byte1 % 16
  {
    hide Fits, Bound;
    MarkerFields(byte1 / 16 + byte1 % 16, slot);
  }

  lemma UnmarkedTemps(s: State, d: nat)
    requires Clean(s, d)
    ensures forall j :: d <= j < |s.top.temps| ==> !Marked(s.top.temps[j])
  {
    hide Marked;
    forall j | d <= j < |s.top.temps|
      ensures !Marked(s.top.temps[j])
    {
      assert Stacked(s)[j] == s.top.temps[j];
    }
  }

  /** The block's end stays above the floor: its marker is where the block put it. */
  lemma MarkPlace(c: Setting, s: State, byte1: int, slot: int, s1: State, s2: State)
    requires |Stacked(s1)| == |Stacked(s)| - byte1 % 16 + 1 && Marked(s1.tos)
    requires s2.callers == s1.callers && Kept(s1, s2, |s1.callers|, |Stacked(s1)|) && Clean(s2, |Stacked(s1)|)
    ensures |Stacked(s2)| > |Stacked(s1)| ==> LastMark(s2.top.temps) == |Stacked(s)| - byte1 % 16 && !Marked(s2.tos)
    ensures |Stacked(s2)| == |Stacked(s1)| ==> Marked(s2.tos) && |s2.top.temps| == |Stacked(s)| - byte1 % 16
  {
    hide Marked, LastMark;
    var d := |Stacked(s1)|;
    BlockTop(s1, s2, d);
    if |Stacked(s2)| > d {
      UnmarkedTemps(s2, d);
      LastMarkIs(s2.top.temps, d - 1);
      assert Stacked(s2)[|Stacked(s2)| - 1] == s2.tos;
    }
  }

  lemma BlockRuns(c: Setting, s: State, byte1: int, slot: int, ops: seq<Op>, s2: State, end: Op, d: nat)
    requires Enabled(c, s, BindSlots(byte1, slot)) && d <= |Stacked(s)| - byte1 % 16
    requires var s1 := Step(c, s, BindSlots(byte1, slot));
      && |Stacked(s1)| == |Stacked(s)| - byte1 % 16 + 1 && s1.callers == s.callers == s2.callers
      && Runs(c, s1, ops) && Run(c, s1, ops) == s2 && RunStays(c, s1, ops, |s.callers|, |Stacked(s1)|)
    requires end == UnbindSlots || end == DunbindSlots
    requires Enabled(c, s2, end) && Leaves(c, s2, end) == |Stacked(s)| - byte1 % 16
    requires Leaves(c, s, BindSlots(byte1, slot)) == |Stacked(s)| - byte1 % 16
    ensures var all := [BindSlots(byte1, slot)] + ops + [end];
      Runs(c, s, all) && Run(c, s, all) == Step(c, s2, end) && RunStays(c, s, all, |s.callers|, d)
  {
    hide Runs, Run, RunStays, Step, Enabled, Leaves;
    var s1, k := Step(c, s, BindSlots(byte1, slot)), |s.callers|;
    OneRuns(c, s, BindSlots(byte1, slot), k, d);
    LowerFloor(c, s1, ops, k, |Stacked(s1)|, d);
    RunsAppend(c, s, [BindSlots(byte1, slot)], ops);
    StaysAppend(c, s, [BindSlots(byte1, slot)], ops, k, d);
    OneRuns(c, s2, end, k, d);
    RunsAppend(c, s, [BindSlots(byte1, slot)] + ops, [end]);
    StaysAppend(c, s, [BindSlots(byte1, slot)] + ops, [end], k, d);
  }

  lemma EndedClean(s: State, s2: State, byte1: int, slot: int, keep: bool, d: nat)
    requires Clean(s, d) && d <= |Stacked(s)| - byte1 % 16 && (!keep ==> byte1 % 16 < |Stacked(s)|)
    requires keep ==> !Marked(s2.tos)
    ensures Clean(Ended(s, s2, byte1, slot, keep), d)
  {
    hide Marked, Unbound;
    var e := Ended(s, s2, byte1, slot, keep);
    forall j | d <= j < |Stacked(e)|
      ensures !Marked(Stacked(e)[j])
    {
      if !keep || j < |Stacked(e)| - 1 {
        assert Stacked(e)[j] == Stacked(s)[j];
      }
    }
  }

  lemma CallReaches(c: Setting, s: State, op: Op, ops: seq<Op>, s2: State, d: nat)
    requires Enabled(c, s, op) && IsCall(op) && TakesOperand(op) && d <= Leaves(c, s, op) <= |Stacked(s)| && Clean(s, d)
    requires Reaches(c, Step(c, s, op), ops, s2, 1) && |Stacked(s2)| > 1
    ensures Reaches(c, s, [op] + ops + [Return], State(s.callers, Waiting(c, s, op), s2.tos), d)
  {
    hide Runs, Run, RunStays, Step, Enabled, Leaves, Marked, Waiting;
    var s1, k := Step(c, s, op), |s.callers|;
    CallSuspends(c, s, op);
    LowerFloor(c, s1, ops, k + 1, 1, 0);
    MatchedReturn(c, s, op, ops);
    CallStays(c, s, op, k, d);
    OneRuns(c, s, op, k, d);
    CallerFloor(c, s1, ops, k, 1, d);
    RunsAppend(c, s, [op], ops);
    StaysAppend(c, s, [op], ops, k, d);
    ReturnStays(c, s2, k, d);
    OneRuns(c, s2, Return, k, d);
    RunsAppend(c, s, [op] + ops, [Return]);
    StaysAppend(c, s, [op] + ops, [Return], k, d);
    ReturnClean(c, s, op, s2, d);
  }

  lemma CallStays(c: Setting, s: State, op: Op, k: nat, d: nat)
    requires Enabled(c, s, op) && IsCall(op) && k == |s.callers| && d <= Leaves(c, s, op)
    ensures Stays(c, s, op, k, d)
  {
    hide Leaves, Enabled;
  }

  lemma ReturnStays(c: Setting, s: State, k: nat, d: nat)
    requires |s.callers| == k + 1
    ensures Enabled(c, s, Return) && Stays(c, s, Return, k, d)
  {
  }

  lemma ReturnClean(c: Setting, s: State, op: Op, s2: State, d: nat)
    requires Enabled(c, s, op) && IsCall(op) && d <= Leaves(c, s, op) <= |Stacked(s)|
    requires Clean(s, d) && Clean(s2, 1) && |Stacked(s2)| > 1
    ensures Clean(State(s.callers, Waiting(c, s, op), s2.tos), d)
  {
    hide Marked, Leaves, Enabled;
    var e := State(s.callers, Waiting(c, s, op), s2.tos);
    assert Stacked(s2)[|Stacked(s2)| - 1] == s2.tos;
    forall j | d <= j < |Stacked(e)|
      ensures !Marked(Stacked(e)[j])
    {
      if j < |Stacked(e)| - 1 {
        assert Stacked(e)[j] == Stacked(s)[j];
      }
    }
  }

  // ---- what is left of the variables ----

  /** The program has a block of the running frame that binds slot `k`. Blocks of callees bind in their own frames. */
  predicate Binds(items: seq<Item>, k: int)
    decreases items, 1
  {
    items != [] && (BindsOne(items[0], k) || Binds(items[1..], k))
  }

  predicate BindsOne(item: Item, k: int)
    decreases item, 0
  {
    item.Block? && (item.slot - item.byte1 / 16 - item.byte1 % 16 < k <= item.slot || Binds(item.body, k))
  }

  /** After a properly nested program exactly the slots that its blocks have bound are unbound; every other variable of
      the frame is as it was. */
  lemma {:induction false} VariablesAfter(c: Setting, s: State, items: seq<Item>, d: nat, k: int)
    requires Nests(c, s, items, d) && 0 <= k < |s.top.pvars|
    ensures |After(c, s, items, d).top.pvars| == |s.top.pvars|
    ensures After(c, s, items, d).top.pvars[k] == if Binds(items, k) then UNBOUND else s.top.pvars[k]
    decreases items, 1
  {
    hide NestsOne, AfterOne, BindsOne;
    if items != [] {
      VariablesAfterOne(c, s, items[0], d, k);
      VariablesAfter(c, AfterOne(c, s, items[0], d), items[1..], d, k);
    }
  }

  lemma {:induction false} VariablesAfterOne(c: Setting, s: State, item: Item, d: nat, k: int)
    requires NestsOne(c, s, item, d) && 0 <= k < |s.top.pvars|
    ensures |AfterOne(c, s, item, d).top.pvars| == |s.top.pvars|
    ensures AfterOne(c, s, item, d).top.pvars[k] == if BindsOne(item, k) then UNBOUND else s.top.pvars[k]
    decreases item, 2
  {
    hide Fits, Leaves, Nests, After, Binds;
    match item
    case Do(op) =>
    case Block(byte1, slot, body, keep) =>
      var s1 := Step(c, s, BindSlots(byte1, slot));
      VariablesAfter(c, s1, body, |Stacked(s1)|, k);
    case Calls(op, body) =>
  }

  // ---- what the variables read inside a block ----

  /** The first items of a nested program are one, and the next runs from where they end. */
  lemma {:induction false} NestsPrefix(c: Setting, s: State, items: seq<Item>, d: nat, i: int)
    requires Nests(c, s, items, d) && 0 <= i <= |items|
    ensures Nests(c, s, items[..i], d)
    ensures i < |items| ==> NestsOne(c, After(c, s, items[..i], d), items[i], d)
    decreases i
  {
    hide NestsOne, AfterOne;
    if i > 0 {
      var s1 := AfterOne(c, s, items[0], d);
      NestsPrefix(c, s1, items[1..], d, i - 1);
      assert items[..i][0] == items[0] && items[..i][1..] == items[1..][..i - 1];
    }
  }

  /** Inside a block, after any of its items, a variable reads what the block bound it to, NIL or its value from the
      stack, and one the block has not bound reads as before; until an inner block has bound the same slot. */
  lemma BoundReads(c: Setting, s: State, byte1: int, slot: int, body: seq<Item>, i: int, k: int)
    requires Enabled(c, s, BindSlots(byte1, slot)) && 0 <= i <= |body| && 0 <= k < |s.top.pvars|
    requires var s1 := Step(c, s, BindSlots(byte1, slot)); Nests(c, s1, body, |Stacked(s1)|)
    ensures var ops, n1, n2 := [BindSlots(byte1, slot)] + Flat(body[..i]), byte1 / 16, byte1 % 16;
      var l := s.top.temps + [s.tos];
      && Runs(c, s, ops) && Run(c, s, ops).callers == s.callers && |Run(c, s, ops).top.pvars| == |s.top.pvars|
      && Run(c, s, ops).top.pvars[k] ==
         if Binds(body[..i], k) then 0xFFFF_FFFF
         else if slot - n1 < k <= slot then 0
         else if slot - n1 - n2 < k <= slot - n1 then l[|l| - 1 - (slot - n1 - k)]
         else s.top.pvars[k]
  {
    hide Runs, Run, RunStays, Nests, After, Binds, Flat, Bound, Clean;
    var s1, d := Step(c, s, BindSlots(byte1, slot)), |Stacked(Step(c, s, BindSlots(byte1, slot)))|;
    BindIs(s, byte1 / 16, byte1 % 16, slot);
    BlockStarts(c, s, byte1, slot);
    InBlock(c, s, byte1, slot, body, i);
    VariablesAfter(c, s1, body[..i], d, k);
  }

  /** The run up to there, and that the item there, if it is a block, may begin. */
  lemma InBlock(c: Setting, s: State, byte1: int, slot: int, body: seq<Item>, i: int)
    requires Enabled(c, s, BindSlots(byte1, slot)) && 0 <= i <= |body|
    requires var s1 := Step(c, s, BindSlots(byte1, slot)); Nests(c, s1, body, |Stacked(s1)|)
    ensures var s1, ops := Step(c, s, BindSlots(byte1, slot)), [BindSlots(byte1, slot)] + Flat(body[..i]);
      && Nests(c, s1, body[..i], |Stacked(s1)|) && Runs(c, s, ops)
      && Run(c, s, ops) == After(c, s1, body[..i], |Stacked(s1)|) && Run(c, s, ops).callers == s1.callers
      && (i < |body| && body[i].Block? ==>
            Enabled(c, Run(c, s, ops), BindSlots(body[i].byte1, body[i].slot)) &&
            var s2 := Step(c, Run(c, s, ops), BindSlots(body[i].byte1, body[i].slot));
            Nests(c, s2, body[i].body, |Stacked(s2)|))
  {
    hide Runs, Run, RunStays, Nests, After, Flat, Step, Enabled, Clean, Leaves;
    var s1, d := Step(c, s, BindSlots(byte1, slot)), |Stacked(Step(c, s, BindSlots(byte1, slot)))|;
    NestsPrefix(c, s1, body, d, i);
    BlockStarts(c, s, byte1, slot);
    NestedRuns(c, s1, body[..i], d);
    BindFacts(c, s, byte1, slot);
    BindRuns(c, s, byte1, slot);
    RunsAppend(c, s, [BindSlots(byte1, slot)], Flat(body[..i]));
  }

  lemma BindRuns(c: Setting, s: State, byte1: int, slot: int)
    requires Enabled(c, s, BindSlots(byte1, slot))
    ensures Runs(c, s, [BindSlots(byte1, slot)])
    ensures Run(c, s, [BindSlots(byte1, slot)]) == Step(c, s, BindSlots(byte1, slot))
  {
    hide Step, Enabled;
    assert [BindSlots(byte1, slot)][1..] == [];
  }
}
