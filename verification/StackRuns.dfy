/** Whole runs of the control stack: what a call, a return and a binding leave alone, and that the machine follows. */
module StackRuns {
  import opened Memory
  import opened Frames
  import opened StackLayout
  import opened ControlStack
  import Arith

  /** What the stack code reads elsewhere, and the extent of the stack area. */
  datatype Setting = Setting(world: World, base: int, cells: int)

  datatype Op =
    | PushValue(v: Cell)
    | PopValue
    | GoTo(pc: int)
    | CallFn(n: int, fn: int, size: int)
    | CallCommon(def: Definition, atom: Cell, how: FnApply, n: int, size: int)
    | CallApply(size: int)
    | CallEnv(size: int)
    | Return
    | ArgCount
    | BindSlots(byte1: int, slot: int)
    | UnbindSlots
    | DunbindSlots

  // ---- one step ----

  predicate IsCall(op: Op)
  {
    op.CallFn? || op.CallCommon? || op.CallApply? || op.CallEnv?
  }

  ghost predicate Fits(c: Setting, s: State, n: int)
  {
    EndOf(Start(c.base, s.callers), s.top) + n < c.cells
  }

  ghost predicate Callable(c: Setting, s: State, n: int, fn: int, size: int)
  {
    && 0 <= n && fn in c.world.code && 0 <= fn < 0x1000_0000 && 0 <= s.top.pc + size < 65536
    && Fits(c, s, Machine.FrameRoom(c.world.code[fn]))
  }

  function Entry(c: Setting, def: Definition): int
  {
    if def.NotCompiled? then c.world.interpreter else def.fn
  }

  function More(def: Definition): int
  {
    if def.NotCompiled? then 1 else 0
  }

  ghost predicate CanCommon(c: Setting, s: State, def: Definition, atom: Cell, how: FnApply, n: int, size: int)
  {
    && (how.Apply? ==> |s.top.temps| >= 2) && Callable(c, s, n, Entry(c, def), size)
    && n + More(def) <= |Stacked(Machine.Prepared(s, def, atom, how))|
  }

  /** The count below the top of the stack. */
  function ApplyCount(s: State): int
    requires s.top.temps != []
  {
    s.top.temps[|s.top.temps| - 1] % 65536
  }

  /** OPAPPLY's count is a positive small integer, and the function on top and the values are there. */
  ghost predicate CanApply(c: Setting, s: State, size: int)
  {
    && |s.top.temps| >= 2 && Machine.IsCount(s.top.temps[|s.top.temps| - 1])
    && CanCommon(c, s, c.world.Define(s.tos), s.tos, Apply, ApplyCount(s), size)
  }

  /** ENVCALL's count is an integer, small or boxed, and the values are there. */
  ghost predicate CanEnvCall(c: Setting, s: State, size: int)
  {
    var l, n := s.top.temps, |s.top.temps|;
    && n >= 2 && c.world.Number(l[n - 2]).Value? && c.world.Number(l[n - 2]).value <= n - 2
    && Callable(c, s, c.world.Number(l[n - 2]).value, l[n - 1], size)
  }

  ghost predicate Enabled(c: Setting, s: State, op: Op)
  {
    match op
    case PushValue(v) => Fits(c, s, 1)
    case PopValue => s.top.temps != []
    case GoTo(pc) => true
    case CallFn(n, fn, size) => Callable(c, s, n, fn, size) && n <= |Stacked(s)|
    case CallCommon(def, atom, how, n, size) => CanCommon(c, s, def, atom, how, n, size)
    case CallApply(size) => CanApply(c, s, size)
    case CallEnv(size) => CanEnvCall(c, s, size)
    case Return => s.callers != []
    case ArgCount => Fits(c, s, 1) && |s.top.args| < 65536 && s.callers != []
    case BindSlots(byte1, slot) => Fits(c, s, 2) && 0 <= byte1 < 256 && CanBind(s, byte1 / 16, byte1 % 16, slot)
    case UnbindSlots => CanUnbind(s)
    case DunbindSlots => CanDunbind(s)
  }

  function CommonEntered(c: Setting, s: State, def: Definition, n: int, size: int): State
    requires Entry(c, def) in c.world.code && 0 <= n + More(def) <= |Stacked(s)|
  {
    var h := c.world.code[Entry(c, def)];
    Enter(s, Stacked(s), Entry(c, def), h.startpc, n + More(def), if h.na < 0 then h.na else h.na + More(def),
          Slots(Machine.ClosureEnv(def), if h.pv < 0 then 0 else h.pv), s.top.pc + size)
  }

  function EnvEntered(c: Setting, s: State, size: int): State
    requires |s.top.temps| >= 2 && s.top.temps[|s.top.temps| - 1] in c.world.code
    requires var count := c.world.Number(s.top.temps[|s.top.temps| - 2]);
      count.Value? && 0 <= count.value <= |s.top.temps| - 2
  {
    var l, n := s.top.temps, |s.top.temps|;
    var h, env := c.world.code[l[n - 1]], if s.tos == NIL then UNBOUND else s.tos;
    Enter(s, l[..n - 2], l[n - 1], h.startpc, c.world.Number(l[n - 2]).value, h.na, Slots(env, h.pv), s.top.pc + size)
  }

  ghost function Step(c: Setting, s: State, op: Op): State
    requires Enabled(c, s, op)
  {
    match op
    case PushValue(v) => Push(s, v)
    case PopValue => Pop(s)
    case GoTo(pc) => s.(top := s.top.(pc := pc))
    case CallFn(n, fn, size) =>
      var h := c.world.code[fn];
      Enter(s, Stacked(s), fn, h.startpc, n, h.na, Slots(UNBOUND, h.pv), s.top.pc + size)
    case CallCommon(def, atom, how, n, size) => CommonEntered(c, Machine.Prepared(s, def, atom, how), def, n, size)
    case CallApply(size) =>
      var def := c.world.Define(s.tos);
      CommonEntered(c, Machine.Prepared(s, def, s.tos, Apply), def, ApplyCount(s), size)
    case CallEnv(size) => EnvEntered(c, s, size)
    case Return => Leave(s)
    case ArgCount => Push(s, Arith.S_POSITIVE + |s.top.args|)
    case BindSlots(byte1, slot) => Bind(s, byte1 / 16, byte1 % 16, slot)
    case UnbindSlots => Unbind(s)
    case DunbindSlots => Dunbind(s)
  }

  // ---- runs ----

  /** Every step of the run is possible. */
  ghost predicate Runs(c: Setting, s: State, ops: seq<Op>)
    decreases |ops|
  {
    ops == [] || (Enabled(c, s, ops[0]) && Runs(c, Step(c, s, ops[0]), ops[1..]))
  }

  ghost function Run(c: Setting, s: State, ops: seq<Op>): State
    requires Runs(c, s, ops)
    decreases |ops|
  {
    if ops == [] then s else Run(c, Step(c, s, ops[0]), ops[1..])
  }

  // ---- what a run does not reach ----

  /** The evaluation stack of frame `k`; the running frame's includes the register. */
  function StackOf(s: State, k: nat): seq<Cell>
    requires k <= |s.callers|
  {
    if k < |s.callers| then s.callers[k].temps else Stacked(s)
  }

  function CommonLeaves(s: State, def: Definition, atom: Cell, how: FnApply, n: int): int
    requires how.Apply? ==> |s.top.temps| >= 2
  {
    var l := |Stacked(Machine.Prepared(s, def, atom, how))| - n - More(def);
    if how.Apply? && l > |Stacked(s)| - 2 then |Stacked(s)| - 2
    else if l > |Stacked(s)| then |Stacked(s)| else l
  }

  /** How much of the running frame's evaluation stack the operation leaves alone. */
  ghost function Leaves(c: Setting, s: State, op: Op): int
    requires Enabled(c, s, op)
  {
    match op
    case PushValue(_) => |Stacked(s)|
    case PopValue => |Stacked(s)| - 1
    case GoTo(_) => |Stacked(s)|
    case CallFn(n, _, _) => |Stacked(s)| - n
    case CallCommon(def, atom, how, n, _) => CommonLeaves(s, def, atom, how, n)
    case CallApply(_) => CommonLeaves(s, c.world.Define(s.tos), s.tos, Apply, ApplyCount(s))
    case CallEnv(_) => |s.top.temps| - 2 - c.world.Number(s.top.temps[|s.top.temps| - 2]).value
    case Return => 0
    case ArgCount => |Stacked(s)|
    case BindSlots(byte1, _) => |Stacked(s)| - byte1 % 16
    case UnbindSlots => LastMark(s.top.temps)
    case DunbindSlots => if Marked(s.tos) then |s.top.temps| else LastMark(s.top.temps)
  }

  /** The operation stays above the `d` lowest values of frame `k`. */
  ghost predicate Stays(c: Setting, s: State, op: Op, k: nat, d: nat)
    requires Enabled(c, s, op)
  {
    |s.callers| > k || (|s.callers| == k && op != Return && d <= Leaves(c, s, op))
  }

  ghost predicate RunStays(c: Setting, s: State, ops: seq<Op>, k: nat, d: nat)
    requires Runs(c, s, ops)
    decreases |ops|
  {
    ops == [] || (Stays(c, s, ops[0], k, d) && RunStays(c, Step(c, s, ops[0]), ops[1..], k, d))
  }

  /** Frame `k`, with the code and arguments it was entered with, and the `d` lowest values of its stack. */
  ghost predicate Kept(s: State, s': State, k: nat, d: nat)
  {
    && k <= |s.callers| && k <= |s'.callers| && s'.callers[..k] == s.callers[..k]
    && d <= |StackOf(s, k)| && d <= |StackOf(s', k)| && StackOf(s', k)[..d] == StackOf(s, k)[..d]
    && FrameNo(s', k).fn == FrameNo(s, k).fn && FrameNo(s', k).args == FrameNo(s, k).args
    && |FrameNo(s', k).pvars| == |FrameNo(s, k).pvars|
  }

  function FrameNo(s: State, k: nat): Frame
    requires k <= |s.callers|
  {
    if k < |s.callers| then s.callers[k] else s.top
  }

  lemma EnterKeeps(s: State, l: seq<Cell>, fn: int, startpc: int, n: int, na: int, pvars: seq<Cell>, pc: int, k: nat,
                   d: nat)
    requires 0 <= n <= |l| && k <= |s.callers| && d <= |StackOf(s, k)|
    requires |s.callers| == k ==> d <= |l| - n && l[..d] == Stacked(s)[..d]
    ensures Kept(s, Enter(s, l, fn, startpc, n, na, pvars, pc), k, d)
  {
    hide Adapt;
    var s' := Enter(s, l, fn, startpc, n, na, pvars, pc);
    assert s'.callers[..k] == s.callers[..k];
    if |s.callers| == k {
      assert l[..|l| - n][..d] == l[..d];
    }
  }

  lemma PreparedStack(c: Setting, s: State, def: Definition, atom: Cell, how: FnApply, n: int, size: int, d: nat)
    requires Enabled(c, s, CallCommon(def, atom, how, n, size))
    requires d <= Leaves(c, s, CallCommon(def, atom, how, n, size))
    ensures var p := Machine.Prepared(s, def, atom, how);
      d <= |Stacked(p)| - n - More(def) && Stacked(p)[..d] == Stacked(s)[..d]
  {
    hide Enter, Slots, Adapt, Callable, Fits;
    assert how.Apply? ==> Stacked(Pop(Pop(s))) == Stacked(s)[..|Stacked(s)| - 2];
  }

  lemma PreparedFrame(s: State, def: Definition, atom: Cell, how: FnApply)
    requires how.Apply? ==> |s.top.temps| >= 2
    ensures var p := Machine.Prepared(s, def, atom, how);
      p.callers == s.callers && p.top.fn == s.top.fn && p.top.args == s.top.args && p.top.pvars == s.top.pvars &&
          p.top.pc == s.top.pc
  {
  }

  lemma CallFnKeeps(c: Setting, s: State, op: Op, k: nat, d: nat)
    requires op.CallFn?
    requires Enabled(c, s, op) && Stays(c, s, op, k, d) && d <= |StackOf(s, k)|
    ensures Kept(s, Step(c, s, op), k, d)
  {
    hide Adapt, Slots, Bound, Unbound, LastMark, Fits, Machine.Prepared, Kept;
    var h := c.world.code[op.fn];
    EnterKeeps(s, Stacked(s), op.fn, h.startpc, op.n, h.na, Slots(UNBOUND, h.pv), s.top.pc + op.size, k, d);
  }

  lemma CallCommonKeeps(c: Setting, s: State, op: Op, k: nat, d: nat)
    requires op.CallCommon?
    requires Enabled(c, s, op) && Stays(c, s, op, k, d) && d <= |StackOf(s, k)|
    ensures Kept(s, Step(c, s, op), k, d)
  {
    hide Adapt, Slots, Bound, Unbound, LastMark, Fits, Machine.Prepared;
    var p := Machine.Prepared(s, op.def, op.atom, op.how);
    PreparedFrame(s, op.def, op.atom, op.how);
    if |s.callers| == k {
      PreparedStack(c, s, op.def, op.atom, op.how, op.n, op.size, d);
    }
    var h := c.world.code[Entry(c, op.def)];
    EnterKeeps(p, Stacked(p), Entry(c, op.def), h.startpc, op.n + More(op.def),
               if h.na < 0 then h.na else h.na + More(op.def),
               Slots(Machine.ClosureEnv(op.def), if h.pv < 0 then 0 else h.pv), p.top.pc + op.size, k, d);
    if |s.callers| == k {
      assert Stacked(p)[..d] == Stacked(s)[..d];
    }
  }

  /** OPAPPLY is a common call of what it finds on the stack. */
  function AsCommon(c: Setting, s: State, op: Op): Op
    requires op.CallApply? && s.top.temps != []
  {
    CallCommon(c.world.Define(s.tos), s.tos, Apply, ApplyCount(s), op.size)
  }

  lemma ApplyIsCommon(c: Setting, s: State, op: Op)
    requires op.CallApply? && Enabled(c, s, op)
    ensures Enabled(c, s, AsCommon(c, s, op)) && Step(c, s, AsCommon(c, s, op)) == Step(c, s, op)
    ensures Leaves(c, s, AsCommon(c, s, op)) == Leaves(c, s, op)
  {
    hide Adapt, Slots, Fits, Machine.Prepared;
  }

  lemma CallApplyKeeps(c: Setting, s: State, op: Op, k: nat, d: nat)
    requires op.CallApply?
    requires Enabled(c, s, op) && Stays(c, s, op, k, d) && d <= |StackOf(s, k)|
    ensures Kept(s, Step(c, s, op), k, d)
  {
    hide Enabled, Step, Kept, Leaves;
    ApplyHasCount(c, s, op);
    ApplyIsCommon(c, s, op);
    CallCommonKeeps(c, s, AsCommon(c, s, op), k, d);
  }

  lemma ApplyHasCount(c: Setting, s: State, op: Op)
    requires op.CallApply? && Enabled(c, s, op)
    ensures s.top.temps != []
  {
  }

  lemma CallEnvKeeps(c: Setting, s: State, op: Op, k: nat, d: nat)
    requires op.CallEnv?
    requires Enabled(c, s, op) && Stays(c, s, op, k, d) && d <= |StackOf(s, k)|
    ensures Kept(s, Step(c, s, op), k, d)
  {
    hide Adapt, Slots, Bound, Unbound, LastMark, Fits, Machine.Prepared, Kept;
    var l := s.top.temps;
    var h, env := c.world.code[l[|l| - 1]], if s.tos == NIL then UNBOUND else s.tos;
    if |s.callers| == k {
      assert l[..|l| - 2][..d] == Stacked(s)[..d];
    }
    EnterKeeps(s, l[..|l| - 2], l[|l| - 1], h.startpc, c.world.Number(l[|l| - 2]).value, h.na, Slots(env, h.pv),
               s.top.pc + op.size, k, d);
  }

  lemma ReturnKeeps(c: Setting, s: State, op: Op, k: nat, d: nat)
    requires op.Return?
    requires Enabled(c, s, op) && Stays(c, s, op, k, d) && d <= |StackOf(s, k)|
    ensures Kept(s, Step(c, s, op), k, d)
  {
    var n := |s.callers| - 1;
    assert s.callers[..n][..k] == s.callers[..k];
  }

  predicate IsBinding(op: Op)
  {
    op.BindSlots? || op.UnbindSlots? || op.DunbindSlots?
  }

  lemma BindKeeps(c: Setting, s: State, op: Op, k: nat, d: nat)
    requires op.BindSlots?
    requires Enabled(c, s, op) && Stays(c, s, op, k, d) && d <= |StackOf(s, k)|
    ensures Kept(s, Step(c, s, op), k, d)
  {
    hide Fits, Bound, Marker;
  }

  lemma UnbindKeeps(c: Setting, s: State, op: Op, k: nat, d: nat)
    requires op.UnbindSlots?
    requires Enabled(c, s, op) && Stays(c, s, op, k, d) && d <= |StackOf(s, k)|
    ensures Kept(s, Step(c, s, op), k, d)
  {
    hide Fits, Unbound, LastMark, Marked, MarkFits;
    if |s.callers| == k {
      CutBack(s, LastMark(s.top.temps), d);
    }
  }

  lemma DunbindKeeps(c: Setting, s: State, op: Op, k: nat, d: nat)
    requires op.DunbindSlots?
    requires Enabled(c, s, op) && Stays(c, s, op, k, d) && d <= |StackOf(s, k)|
    ensures Kept(s, Step(c, s, op), k, d)
  {
    hide Fits, Unbound, LastMark, Marked, MarkFits;
    if |s.callers| == k {
      CutBack(s, Leaves(c, s, op), d);
    }
  }

  lemma CutBack(s: State, keep: int, d: nat)
    requires d <= keep <= |s.top.temps|
    ensures s.top.temps[..keep][..d] == Stacked(s)[..d]
  {
  }

  /** Other operations within the running frame. */
  lemma WithinKeeps(c: Setting, s: State, op: Op, k: nat, d: nat)
    requires !IsCall(op) && !op.Return? && !IsBinding(op)
    requires Enabled(c, s, op) && Stays(c, s, op, k, d) && d <= |StackOf(s, k)|
    ensures Kept(s, Step(c, s, op), k, d)
  {
    hide Fits, Bound, Unbound, LastMark, Marker, MarkFits, Callable, CanEnvCall;
  }

  lemma StepKeeps(c: Setting, s: State, op: Op, k: nat, d: nat)
    requires Enabled(c, s, op) && Stays(c, s, op, k, d) && d <= |StackOf(s, k)|
    ensures Kept(s, Step(c, s, op), k, d)
  {
    hide Enabled, Step, Stays, Kept;
    match op
    case CallFn(_, _, _) => CallFnKeeps(c, s, op, k, d);
    case CallCommon(_, _, _, _, _) => CallCommonKeeps(c, s, op, k, d);
    case CallApply(_) => CallApplyKeeps(c, s, op, k, d);
    case CallEnv(_) => CallEnvKeeps(c, s, op, k, d);
    case Return => ReturnKeeps(c, s, op, k, d);
    case BindSlots(_, _) => BindKeeps(c, s, op, k, d);
    case UnbindSlots => UnbindKeeps(c, s, op, k, d);
    case DunbindSlots => DunbindKeeps(c, s, op, k, d);
    case _ => WithinKeeps(c, s, op, k, d);
  }

  lemma {:induction false} RunKeeps(c: Setting, s: State, ops: seq<Op>, k: nat, d: nat)
    requires Runs(c, s, ops) && RunStays(c, s, ops, k, d) && k <= |s.callers| && d <= |StackOf(s, k)|
    ensures Kept(s, Run(c, s, ops), k, d)
    decreases |ops|
  {
    hide Step, Enabled, Stays;
    if ops != [] {
      StepKeeps(c, s, ops[0], k, d);
      RunKeeps(c, Step(c, s, ops[0]), ops[1..], k, d);
    }
  }

  // ---- a call and the return that matches it ----

  /** A UFN's operand is one of the arguments counted. */
  predicate TakesOperand(op: Op)
  {
    op.CallCommon? && op.how.Operand? ==> op.n >= 1
  }

  /** The running frame, suspended by a call: it goes on past the call, with what the call has left of its stack. */
  ghost function Waiting(c: Setting, s: State, op: Op): Frame
    requires Enabled(c, s, op) && IsCall(op) && 0 <= Leaves(c, s, op) <= |Stacked(s)|
  {
    s.top.(pc := s.top.pc + op.size, temps := Stacked(s)[..Leaves(c, s, op)])
  }

  lemma CallFnSuspends(c: Setting, s: State, op: Op)
    requires op.CallFn?
    requires Enabled(c, s, op) && TakesOperand(op)
    ensures 0 <= Leaves(c, s, op) <= |Stacked(s)|
    ensures Step(c, s, op).callers == s.callers + [Waiting(c, s, op)]
  {
    hide Adapt, Slots, Fits;
  }

  lemma CallCommonSuspends(c: Setting, s: State, op: Op)
    requires op.CallCommon?
    requires Enabled(c, s, op) && TakesOperand(op)
    ensures 0 <= Leaves(c, s, op) <= |Stacked(s)|
    ensures Step(c, s, op).callers == s.callers + [Waiting(c, s, op)]
  {
    hide Adapt, Slots, Fits, Machine.Prepared;
    PreparedFrame(s, op.def, op.atom, op.how);
    PreparedSize(s, op.def, op.atom, op.how);
    PreparedStack(c, s, op.def, op.atom, op.how, op.n, op.size, Leaves(c, s, op));
  }

  lemma CallApplySuspends(c: Setting, s: State, op: Op)
    requires op.CallApply?
    requires Enabled(c, s, op) && TakesOperand(op)
    ensures 0 <= Leaves(c, s, op) <= |Stacked(s)|
    ensures Step(c, s, op).callers == s.callers + [Waiting(c, s, op)]
  {
    hide Enabled, Step, Leaves;
    ApplyHasCount(c, s, op);
    ApplyIsCommon(c, s, op);
    CallCommonSuspends(c, s, AsCommon(c, s, op));
  }

  lemma CallEnvSuspends(c: Setting, s: State, op: Op)
    requires op.CallEnv?
    requires Enabled(c, s, op) && TakesOperand(op)
    ensures 0 <= Leaves(c, s, op) <= |Stacked(s)|
    ensures Step(c, s, op).callers == s.callers + [Waiting(c, s, op)]
  {
    hide Adapt, Slots, Fits;
    var keep := Leaves(c, s, op);
    assert s.top.temps[..|s.top.temps| - 2][..keep] == Stacked(s)[..keep];
  }

  /** After a call one more frame is suspended: the caller, to go on past the call. */
  lemma CallSuspends(c: Setting, s: State, op: Op)
    requires Enabled(c, s, op) && IsCall(op) && TakesOperand(op)
    ensures 0 <= Leaves(c, s, op) <= |Stacked(s)|
    ensures Step(c, s, op).callers == s.callers + [Waiting(c, s, op)]
  {
    hide Enabled, Step, Leaves, Waiting;
    match op
    case CallFn(_, _, _) => CallFnSuspends(c, s, op);
    case CallCommon(_, _, _, _, _) => CallCommonSuspends(c, s, op);
    case CallApply(_) => CallApplySuspends(c, s, op);
    case CallEnv(_) => CallEnvSuspends(c, s, op);
  }

  lemma PreparedSize(s: State, def: Definition, atom: Cell, how: FnApply)
    requires how.Apply? ==> |s.top.temps| >= 2
    ensures |Stacked(Machine.Prepared(s, def, atom, how))| ==
            |Stacked(s)| + (match how case Plain => 0 case Apply => -2 case Operand(_) => 1) + More(def)
  {
  }

  /** Whatever runs between a call and the return that matches it, the caller is found as it was left, its arguments to
      the call replaced by the result. */
  lemma MatchedReturn(c: Setting, s: State, op: Op, ops: seq<Op>)
    requires Enabled(c, s, op) && IsCall(op) && TakesOperand(op)
    requires Runs(c, Step(c, s, op), ops) && RunStays(c, Step(c, s, op), ops, |s.callers| + 1, 0)
    requires |Run(c, Step(c, s, op), ops).callers| == |s.callers| + 1
    ensures 0 <= Leaves(c, s, op) <= |Stacked(s)|
    ensures var s2 := Run(c, Step(c, s, op), ops);
      Step(c, s2, Return) == State(s.callers, Waiting(c, s, op), s2.tos)
  {
    hide Runs, Run, RunStays, Waiting, Leaves, Step, Enabled;
    var s1, k := Step(c, s, op), |s.callers|;
    CallSuspends(c, s, op);
    var s2 := Run(c, s1, ops);
    RunKeeps(c, s1, ops, k + 1, 0);
    ReturnIs(c, s2);
    assert s1.callers[..k + 1] == s1.callers && s2.callers[..k + 1] == s2.callers;
    assert s2.callers[..k] == s.callers;
  }

  lemma ReturnIs(c: Setting, s: State)
    requires s.callers != []
    ensures Enabled(c, s, Return) && Step(c, s, Return) == Leave(s)
  {
  }

  /** So the registers are those of the caller again, and the program counter is past the call. */
  lemma RegistersRestored(c: Setting, s: State, op: Op, ops: seq<Op>, before: Regs, after: Regs)
    requires Enabled(c, s, op) && IsCall(op) && TakesOperand(op)
    requires Runs(c, Step(c, s, op), ops) && RunStays(c, Step(c, s, op), ops, |s.callers| + 1, 0)
    requires |Run(c, Step(c, s, op), ops).callers| == |s.callers| + 1
    requires RegsOk(before, c.base, s)
    requires RegsOk(after, c.base, Step(c, Run(c, Step(c, s, op), ops), Return))
    ensures after.ivar == before.ivar && after.pvar == before.pvar && after.func == before.func
    ensures after.pcmac == before.pcmac + op.size
    ensures after.sp == before.sp + 1 - (|Stacked(s)| - Leaves(c, s, op))
  {
    hide Runs, Run, RunStays, Leaves, Step, Enabled;
    MatchedReturn(c, s, op, ops);
  }

  // ---- a binding and the unbinding that matches it ----

  /** The block's own marker is the last one when nothing marked is left above it; its slots, and no others, are
      unbound, and the stack is as it was below the values bound. */
  lemma MatchedUnbind(c: Setting, s: State, byte1: int, slot: int, ops: seq<Op>)
    requires Enabled(c, s, BindSlots(byte1, slot))
    requires var s1 := Step(c, s, BindSlots(byte1, slot));
      && Runs(c, s1, ops) && RunStays(c, s1, ops, |s.callers|, |Stacked(s1)|)
      && var s2 := Run(c, s1, ops);
         && |s2.callers| == |s.callers| && |Stacked(s2)| > |Stacked(s1)|
         && forall j :: |Stacked(s1)| <= j < |s2.top.temps| ==> !Marked(s2.top.temps[j])
    ensures var s2, l := Run(c, Step(c, s, BindSlots(byte1, slot)), ops), Stacked(s);
      && Enabled(c, s2, UnbindSlots)
      && Step(c, s2, UnbindSlots) ==
         s2.(top := s2.top.(temps := l[..|l| - byte1 % 16],
             pvars := Unbound(s2.top.pvars, byte1 / 16 + byte1 % 16, slot)))
  {
    hide Runs, Run, RunStays, Bound, Unbound, Marker, Marked, MarkedNum, MarkedSlot, Fits;
    var s1 := Step(c, s, BindSlots(byte1, slot));
    var l := Stacked(s);
    var k, d := |s.callers|, |Stacked(s1)|;
    var s2 := Run(c, s1, ops);
    RunKeeps(c, s1, ops, k, d);
    MarkerFields(byte1 / 16 + byte1 % 16, slot);
    BlockTop(s1, s2, d);
    LastMarkIs(s2.top.temps, d - 1);
    assert s2.top.temps[..d - 1] == s1.top.temps;
  }

  /** The values the block found are still below it. */
  lemma BlockTop(s1: State, s2: State, d: nat)
    requires d == |Stacked(s1)| && |Stacked(s2)| >= d && Stacked(s2)[..d] == Stacked(s1)[..d]
    ensures |Stacked(s2)| > d ==> s2.top.temps[d - 1] == s1.tos && s2.top.temps[..d - 1] == s1.top.temps
    ensures |Stacked(s2)| == d ==> s2.tos == s1.tos && s2.top.temps == s1.top.temps
  {
    var l1, l2 := Stacked(s1), Stacked(s2);
    assert l1[..d] == l1 && l2[..d][d - 1] == l2[d - 1] == l1[d - 1];
    assert l2[..d][..d - 1] == l2[..d - 1] && l1[..d - 1] == s1.top.temps;
    if |l2| > d {
      assert l2[..d - 1] == s2.top.temps[..d - 1];
    } else {
      assert l2[..d - 1] == s2.top.temps;
    }
  }

  lemma LastMarkIs(l: seq<Cell>, k: int)
    requires 0 <= k < |l| && Marked(l[k]) && forall j :: k < j < |l| ==> !Marked(l[j])
    ensures LastMark(l) == k
  {
    assert Marked(l[k]);
  }

  /** The same for DUNBIND, which drops what is above the marker, if anything is, and leaves the value below on top. */
  lemma MatchedDunbind(c: Setting, s: State, byte1: int, slot: int, ops: seq<Op>)
    requires Enabled(c, s, BindSlots(byte1, slot)) && byte1 % 16 < |Stacked(s)|
    requires var s1 := Step(c, s, BindSlots(byte1, slot));
      && Runs(c, s1, ops) && RunStays(c, s1, ops, |s.callers|, |Stacked(s1)|)
      && var s2 := Run(c, s1, ops);
         && |s2.callers| == |s.callers|
         && forall j :: |Stacked(s1)| <= j < |Stacked(s2)| ==> !Marked(Stacked(s2)[j])
    ensures var s2, l := Run(c, Step(c, s, BindSlots(byte1, slot)), ops), Stacked(s);
      && Enabled(c, s2, DunbindSlots)
      && Step(c, s2, DunbindSlots) ==
         WithStacked(s2.(top := s2.top.(pvars := Unbound(s2.top.pvars, byte1 / 16 + byte1 % 16, slot))),
             l[..|l| - byte1 % 16])
  {
    hide Runs, Run, RunStays, Bound, Unbound, Marker, Marked, MarkedNum, MarkedSlot, Fits, LastMark;
    var s1 := Step(c, s, BindSlots(byte1, slot));
    var k, d := |s.callers|, |Stacked(s1)|;
    var s2 := Run(c, s1, ops);
    RunKeeps(c, s1, ops, k, d);
    MarkerFields(byte1 / 16 + byte1 % 16, slot);
    BlockTop(s1, s2, d);
    if |Stacked(s2)| > d {
      assert Stacked(s2)[|Stacked(s2)| - 1] == s2.tos;
      forall j | d <= j < |s2.top.temps|
        ensures !Marked(s2.top.temps[j])
      {
        assert Stacked(s2)[j] == s2.top.temps[j];
      }
      LastMarkIs(s2.top.temps, d - 1);
    }
  }

  // ---- the four call sequences ----

  /** A direct call and the common code agree on compiled code exactly when it has a variable slot for an
      environment. */
  lemma DirectAgrees(c: Setting, s: State, n: int, fn: int, size: int, atom: Cell)
    requires Enabled(c, s, CallFn(n, fn, size))
    ensures Enabled(c, s, CallCommon(Compiled(fn), atom, Plain, n, size))
    ensures Step(c, s, CallCommon(Compiled(fn), atom, Plain, n, size)) == Step(c, s, CallFn(n, fn, size)) <==>
        c.world.code[fn].pv >= 0
  {
    hide Adapt, Fits;
    var h := c.world.code[fn];
    var direct, common := Step(c, s, CallFn(n, fn, size)), Step(c, s, CallCommon(Compiled(fn), atom, Plain, n, size));
    assert |direct.top.pvars| == if h.pv < 0 then 0 else 2 * h.pv + 2;
    assert |common.top.pvars| == if h.pv < 0 then 2 else 2 * h.pv + 2;
  }

  /** `s'` is `s` after a plain call with this definition, under the name `f`. */
  ghost predicate PlainCall(c: Setting, s: State, s': State, def: Definition, f: Cell, n: int, size: int)
  {
    Enabled(c, s, CallCommon(def, f, Plain, n, size)) && s' == Step(c, s, CallCommon(def, f, Plain, n, size))
  }

  /** OPAPPLY, on a count and a function pushed for it, is a plain call of that function's definition with that many
      arguments. */
  lemma ApplyAgrees(c: Setting, s: State, n: int, f: Cell, size: int)
    requires 0 <= n < 65536
    ensures var a, def := Push(Push(s, Arith.S_POSITIVE + n), f), c.world.Define(f);
      && (Callable(c, a, n, Entry(c, def), size) ==>
            (Enabled(c, a, CallApply(size)) <==> n + More(def) <= |Stacked(Machine.Prepared(s, def, f, Plain))|))
      && (Enabled(c, a, CallApply(size)) ==> PlainCall(c, s, Step(c, a, CallApply(size)), def, f, n, size))
  {
    hide Callable, World.Define, Machine.Prepared, Entry, More, Stacked, CommonEntered;
    var a, def := Push(Push(s, Arith.S_POSITIVE + n), f), c.world.Define(f);
    ApplyTaken(s, n, f);
    PreparedAgrees(s, def, n, f);
    if Callable(c, a, n, Entry(c, def), size) {
      CallableBelow(c, s, n, f, Entry(c, def), n, size);
    }
  }

  /** The count and the function are where OPAPPLY looks. */
  lemma ApplyTaken(s: State, n: int, f: Cell)
    requires 0 <= n < 65536
    ensures var a := Push(Push(s, Arith.S_POSITIVE + n), f);
      && |a.top.temps| >= 2 && Machine.IsCount(a.top.temps[|a.top.temps| - 1]) && ApplyCount(a) == n && a.tos == f
  {
  }

  lemma PreparedAgrees(s: State, def: Definition, n: int, f: Cell)
    requires 0 <= n < 65536
    ensures var a := Push(Push(s, Arith.S_POSITIVE + n), f);
      |a.top.temps| >= 2 && Machine.Prepared(a, def, f, Apply) == Machine.Prepared(s, def, f, Plain)
  {
    assert Pop(Pop(Push(Push(s, Arith.S_POSITIVE + n), f))) == s;
  }

  /** With the two operands gone there is only more room. */
  lemma CallableBelow(c: Setting, s: State, n: int, f: Cell, fn: int, count: int, size: int)
    requires 0 <= n < 65536 && Callable(c, Push(Push(s, Arith.S_POSITIVE + n), f), count, fn, size)
    ensures Callable(c, s, count, fn, size)
  {
    hide Start;
  }

  /** Whose definition OPAPPLY enters: a symbol's own, if it has one, else the interpreter on its name; a closure
      itself; and NIL's definition only for what is neither symbol nor closure. */
  lemma ApplyFinds(c: Setting, s: State, n: int, f: Cell, size: int)
    requires 0 <= n < 65536 && Enabled(c, Push(Push(s, Arith.S_POSITIVE + n), f), CallApply(size))
    ensures var w, s' := c.world, Step(c, Push(Push(s, Arith.S_POSITIVE + n), f), CallApply(size));
      if f / 65536 % 4096 == 0 || f in w.newAtoms then
        PlainCall(c, s, s', if f in w.cells then w.cells[f] else NotCompiled, f, n, size)
      else if f in w.closures then PlainCall(c, s, s', Closure(w.closures[f].0, w.closures[f].1), f, n, size)
      else PlainCall(c, s, s', if 0 in w.cells then w.cells[0] else NotCompiled, f, n, size)
  {
    hide Enabled, Step, Callable, PlainCall, Machine.Prepared;
    ApplyAgrees(c, s, n, f, size);
  }

  /** What a common call gives, place by place: the caller's top values, as they stand when the two operands of APPLY
      are gone, then the operand of a UFN, and last, if and only if the definition is not compiled, its name. */
  lemma CommonArguments(c: Setting, s: State, def: Definition, atom: Cell, how: FnApply, n: int, size: int)
    requires Enabled(c, s, CallCommon(def, atom, how, n, size))
    ensures var more, fn := if def.NotCompiled? then 1 else 0, if def.NotCompiled? then c.world.interpreter else def.fn;
      && fn in c.world.code && (how.Apply? ==> |s.top.temps| >= 2)
      && var h, l := c.world.code[fn],
             (match how
              case Plain => s.top.temps + [s.tos]
              case Apply => s.top.temps[..|s.top.temps| - 1]
              case Operand(v) => s.top.temps + [s.tos] + [v]) + if def.NotCompiled? then [atom] else [];
         CallMade(s, Step(c, s, CallCommon(def, atom, how, n, size)), l, fn, h.startpc, n + more,
                  if h.na < 0 then h.na else h.na + more, if def.Closure? && def.env != 0 then def.env else 0xFFFF_FFFF,
                  if h.pv < 0 then 2 else 2 * h.pv + 2, s.top.pc + size)
  {
    hide Adapt, Slots, Fits, Machine.Prepared, CallMade, Enter, Machine.ClosureEnv;
    var p, h := Machine.Prepared(s, def, atom, how), c.world.code[Entry(c, def)];
    Machine.PreparedIs(s, def, atom, how);
    Machine.EnvIs(def);
    PreparedFrame(s, def, atom, how);
    EnterIs(s, p, Stacked(p), Entry(c, def), h.startpc, n + More(def), if h.na < 0 then h.na else h.na + More(def),
            Machine.ClosureEnv(def), if h.pv < 0 then 0 else h.pv, p.top.pc + size);
  }

  /** ENVCALL and a call of the closure build the same frame, for code that has a slot for the environment and only for
      it. */
  lemma EnvAgrees(c: Setting, s: State, n: int, fn: int, env: Cell, size: int)
    requires 0 <= n < 65536 && n <= |Stacked(s)| && fn in c.world.code && 0 <= fn < 0x1000_0000
    ensures var e := Push(Push(Push(s, Arith.S_POSITIVE + n), fn), env);
      && |e.top.temps| >= 2 && e.top.temps[|e.top.temps| - 1] == fn
      && c.world.Number(e.top.temps[|e.top.temps| - 2]) == Arith.Value(n) && n <= |e.top.temps| - 2
      && EnvEntered(c, e, size).callers == CommonEntered(c, s, Closure(fn, env), n, size).callers
      && (EnvEntered(c, e, size).top == CommonEntered(c, s, Closure(fn, env), n, size).top <==>
        c.world.code[fn].pv >= 0)
  {
    hide Adapt;
    var e := Push(Push(Push(s, Arith.S_POSITIVE + n), fn), env);
    var h := c.world.code[fn];
    assert e.top.temps[..|e.top.temps| - 2] == Stacked(s);
    var a, b := EnvEntered(c, e, size), CommonEntered(c, s, Closure(fn, env), n, size);
    assert |a.top.pvars| == if h.pv < 0 then 0 else 2 * h.pv + 2;
    assert |b.top.pvars| == if h.pv < 0 then 2 else 2 * h.pv + 2;
  }

  /** A callee's arguments: na of them, or as many as given when na is negative; each the caller's value or NIL. */
  lemma ArgumentsSeen(args: seq<Cell>, na: int)
    ensures |Adapt(args, na)| == if na >= 0 then na else |args|
    ensures forall k :: 0 <= k < |Adapt(args, na)| ==> Adapt(args, na)[k] == if k < |args| then args[k] else NIL
  {
  }

  /** The number of arguments a call gives: by opcode, from the stack, and one more for the interpreter. */
  ghost function Given(c: Setting, s: State, op: Op): int
    requires Enabled(c, s, op) && IsCall(op)
  {
    match op
    case CallFn(n, _, _) => n
    case CallCommon(def, _, _, n, _) => n + More(def)
    case CallApply(_) => ApplyCount(s) + More(c.world.Define(s.tos))
    case CallEnv(_) => c.world.Number(s.top.temps[|s.top.temps| - 2]).value
  }

  /** The number of arguments the code called asks for; negative if it takes all. */
  ghost function Wanted(c: Setting, s: State, op: Op): int
    requires Enabled(c, s, op) && IsCall(op)
  {
    match op
    case CallFn(_, fn, _) => c.world.code[fn].na
    case CallCommon(def, _, _, _, _) => WantedBy(c, def)
    case CallApply(_) => WantedBy(c, c.world.Define(s.tos))
    case CallEnv(_) => c.world.code[s.top.temps[|s.top.temps| - 1]].na
  }

  function WantedBy(c: Setting, def: Definition): int
    requires Entry(c, def) in c.world.code
  {
    var na := c.world.code[Entry(c, def)].na;
    if na < 0 then na else na + More(def)
  }

  lemma ArgumentsOfCall(c: Setting, s: State, op: Op)
    requires Enabled(c, s, op) && IsCall(op)
    ensures |Step(c, s, op).callers| == |s.callers| + 1
    ensures |Step(c, s, op).top.args| == if Wanted(c, s, op) >= 0 then Wanted(c, s, op) else Given(c, s, op)
  {
    hide Adapt, Slots, Fits, Machine.Prepared, Enter;
    match op
    case CallFn(n, fn, size) =>
      var h := c.world.code[fn];
      EnterSizes(s, Stacked(s), fn, h.startpc, n, h.na, Slots(UNBOUND, h.pv), s.top.pc + size);
    case CallCommon(def, atom, how, n, size) =>
      CommonSizes(c, s, def, atom, how, n, size);
    case CallApply(size) =>
      CommonSizes(c, s, c.world.Define(s.tos), s.tos, Apply, ApplyCount(s), size);
    case CallEnv(size) =>
      var l := s.top.temps;
      var h, env := c.world.code[l[|l| - 1]], if s.tos == NIL then UNBOUND else s.tos;
      EnterSizes(s, l[..|l| - 2], l[|l| - 1], h.startpc, c.world.Number(l[|l| - 2]).value, h.na, Slots(env, h.pv),
                 s.top.pc + size);
  }

  lemma EnterSizes(s: State, l: seq<Cell>, fn: int, startpc: int, n: int, na: int, pvars: seq<Cell>, pc: int)
    requires 0 <= n <= |l|
    ensures var s' := Enter(s, l, fn, startpc, n, na, pvars, pc);
      |s'.callers| == |s.callers| + 1 && |s'.top.args| == if na >= 0 then na else n
  {
    hide Adapt;
    ArgumentsSeen(l[|l| - n..], na);
  }

  lemma CommonSizes(c: Setting, s: State, def: Definition, atom: Cell, how: FnApply, n: int, size: int)
    requires CanCommon(c, s, def, atom, how, n, size)
    ensures var s' := CommonEntered(c, Machine.Prepared(s, def, atom, how), def, n, size);
      && |s'.callers| == |s.callers| + 1
      && |s'.top.args| == if WantedBy(c, def) >= 0 then WantedBy(c, def) else n + More(def)
  {
    hide Slots, Fits, Machine.Prepared, Enter;
    PreparedFrame(s, def, atom, how);
    var p, h := Machine.Prepared(s, def, atom, how), c.world.code[Entry(c, def)];
    EnterSizes(p, Stacked(p), Entry(c, def), h.startpc, n + More(def), if h.na < 0 then h.na else h.na + More(def),
               Slots(Machine.ClosureEnv(def), if h.pv < 0 then 0 else h.pv), p.top.pc + size);
  }

  /** At any time in a callee, whatever it has run and called since, MYARGCOUNT says how many arguments it has: as many
      as its code asks for, or as many as were given if the code takes all. */
  lemma CountSeen(c: Setting, s: State, op: Op, ops: seq<Op>)
    requires Enabled(c, s, op) && IsCall(op)
    requires Runs(c, Step(c, s, op), ops) && RunStays(c, Step(c, s, op), ops, |s.callers| + 1, 0)
    requires |Run(c, Step(c, s, op), ops).callers| == |s.callers| + 1
    requires Enabled(c, Run(c, Step(c, s, op), ops), ArgCount)
    ensures Step(c, Run(c, Step(c, s, op), ops), ArgCount).tos
         == Arith.S_POSITIVE + if Wanted(c, s, op) >= 0 then Wanted(c, s, op) else Given(c, s, op)
  {
    hide Runs, Run, RunStays, Wanted, Given, Fits;
    ArgumentsOfCall(c, s, op);
    RunKeeps(c, Step(c, s, op), ops, |s.callers| + 1, 0);
  }

  // ---- the machine follows ----

  ghost predicate InSetting(m: Machine, c: Setting)
    reads m
  {
    m.world == c.world && m.base == c.base && m.stk.Length == c.cells
  }

  method PerformFn(m: Machine, c: Setting, op: Op)
    requires m.Valid() && InSetting(m, c) && Enabled(c, m.state, op) && op.CallFn?
    modifies m, m.stk
    ensures m.Valid() && m.state == Step(c, old(m.state), op)
  {
    hide StackAt, Slots, Adapt, Enter, Leave, Bind, Unbind, Dunbind, Machine.Prepared;
    m.OpFn(op.n, op.fn, op.size);
  }

  method PerformCommon(m: Machine, c: Setting, op: Op)
    requires m.Valid() && InSetting(m, c) && Enabled(c, m.state, op) && op.CallCommon?
    modifies m, m.stk
    ensures m.Valid() && m.state == Step(c, old(m.state), op)
  {
    hide StackAt, Slots, Adapt, Enter, Leave, Bind, Unbind, Dunbind, Machine.Prepared;
    PreparedFrame(m.state, op.def, op.atom, op.how);
    m.FnCommon(op.def, op.atom, op.how, op.n, op.size);
  }

  method PerformApply(m: Machine, c: Setting, op: Op)
    requires m.Valid() && InSetting(m, c) && Enabled(c, m.state, op) && op.CallApply?
    modifies m, m.stk
    ensures m.Valid() && m.state == Step(c, old(m.state), op)
  {
    hide StackAt, Slots, Adapt, Enter, Leave, Bind, Unbind, Dunbind, Machine.Prepared;
    PreparedFrame(m.state, c.world.Define(m.state.tos), m.state.tos, Apply);
    var done := m.OpApply(op.size);
  }

  method PerformEnv(m: Machine, c: Setting, op: Op)
    requires m.Valid() && InSetting(m, c) && Enabled(c, m.state, op) && op.CallEnv?
    modifies m, m.stk
    ensures m.Valid() && m.state == Step(c, old(m.state), op)
  {
    hide StackAt, Slots, Adapt, Enter, Leave, Bind, Unbind, Dunbind, Machine.Prepared;
    var done := m.EnvCall(op.size);
  }

  /** The machine's step for an operation. */
  method Perform(m: Machine, c: Setting, op: Op)
    requires m.Valid() && InSetting(m, c) && Enabled(c, m.state, op)
    modifies m, m.stk
    ensures m.Valid() && m.state == Step(c, old(m.state), op)
  {
    hide StackAt, Bound, Unbound, LastMark, Slots, Adapt, Callable;
    match op
    case PushValue(v) => m.Push(v);
    case PopValue => m.Pop();
    case GoTo(pc) => m.Goto(pc);
    case CallFn(_, _, _) => PerformFn(m, c, op);
    case CallCommon(_, _, _, _, _) => PerformCommon(m, c, op);
    case CallApply(_) => PerformApply(m, c, op);
    case CallEnv(_) => PerformEnv(m, c, op);
    case Return => m.OpReturn();
    case ArgCount => m.MyArgCount();
    case BindSlots(byte1, slot) => m.Bind(byte1, slot);
    case UnbindSlots => m.Unbind();
    case DunbindSlots => m.Dunbind();
  }

  /** Over any run, the stack area and the registers represent the list of frames. */
  method Follow(m: Machine, c: Setting, ops: seq<Op>)
    requires m.Valid() && InSetting(m, c) && Runs(c, m.state, ops)
    modifies m, m.stk
    ensures m.Valid() && m.state == Run(c, old(m.state), ops)
  {
    hide StackAt, RegsOk, Enabled, Step;
    var i := 0;
    while i < |ops|
      invariant 0 <= i <= |ops| && m.Valid()
      invariant Runs(c, m.state, ops[i..])
      invariant Run(c, m.state, ops[i..]) == Run(c, old(m.state), ops)
    {
      assert ops[i..][0] == ops[i] && ops[i..][1..] == ops[i + 1..];
      Perform(m, c, ops[i]);
      i := i + 1;
    }
  }
}
