/** How frames lie in the stack area (inc/stack.h, inc/tosfns.h). */
module StackLayout {
  import opened Memory
  import opened Frames

  const BF_MARK32 := 0x8000_0000
  const FX_MARK := 0xC000

  /** A frame extension is FRAMESIZE words, five cells. */
  const FX_CELLS := 5

  /** The stack is addressed by sixteen-bit word offsets. */
  const STACK_CELLS := 32768

  // ---- where the parts of a frame are, from its first argument ----

  function FxOf(at: int, f: Frame): int { at + |f.args| + 1 }

  function PvarOf(at: int, f: Frame): int { FxOf(at, f) + FX_CELLS }

  /** One cell is skipped after the variables. */
  function TempsOf(at: int, f: Frame): int { PvarOf(at, f) + |f.pvars| + 1 }

  function EndOf(at: int, f: Frame): int { TempsOf(at, f) + |f.temps| }

  ghost predicate Cells(m: seq<Cell>, at: int, s: seq<Cell>)
  {
    0 <= at && at + |s| <= |m| && forall k :: 0 <= k < |s| ==> m[at + k] == s[k]
  }

  /** The frame lies at `at`: arguments, basic frame, frame extension, variables, evaluation stack. */
  ghost predicate FrameAt(m: seq<Cell>, at: int, f: Frame)
  {
    && 0 <= at && EndOf(at, f) <= |m|
    && Cells(m, at, f.args)
    && m[at + |f.args|] == BF_MARK32 + 2 * at
    && m[FxOf(at, f) + 1] == f.fn
    && Cells(m, PvarOf(at, f), f.pvars)
    && Cells(m, TempsOf(at, f), f.temps)
  }

  /** Its alink names the variables of its caller. */
  ghost predicate Linked(m: seq<Cell>, at: int, f: Frame, callerPvar: int)
  {
    0 <= at && EndOf(at, f) <= |m| && m[FxOf(at, f)] == FX_MARK * 65536 + 2 * callerPvar
  }

  /** A suspended frame has saved where the next one begins and where to go on. */
  ghost predicate Suspended(m: seq<Cell>, at: int, f: Frame)
  {
    && 0 <= at && EndOf(at, f) <= |m| && 0 <= f.pc < 65536 && 0 <= f.fn < 0x1000_0000
    && m[FxOf(at, f) + 2] == 2 * EndOf(at, f) * 65536 + f.pc
  }

  /** Where the frame after `callers` begins. */
  function Start(base: int, callers: seq<Frame>): int
  {
    if callers == [] then base else EndOf(Start(base, callers[..|callers| - 1]), callers[|callers| - 1])
  }

  /** Where the variables of the innermost caller are. */
  function CallerPvar(base: int, callers: seq<Frame>): int
    requires callers != []
  {
    PvarOf(Start(base, callers[..|callers| - 1]), callers[|callers| - 1])
  }

  ghost predicate CallersAt(m: seq<Cell>, base: int, callers: seq<Frame>)
  {
    if callers == [] then 0 <= base
    else
      var rest, f := callers[..|callers| - 1], callers[|callers| - 1];
      var at := Start(base, rest);
      && CallersAt(m, base, rest) && FrameAt(m, at, f) && Suspended(m, at, f)
      && (rest != [] ==> Linked(m, at, f, CallerPvar(base, rest)))
  }

  ghost predicate StackAt(m: seq<Cell>, base: int, s: State)
  {
    && |m| <= STACK_CELLS && 0 <= s.top.fn < 0x1000_0000
    && CallersAt(m, base, s.callers)
    && FrameAt(m, Start(base, s.callers), s.top)
    && (s.callers != [] ==> Linked(m, Start(base, s.callers), s.top, CallerPvar(base, s.callers)))
  }

  // ---- framing ----

  ghost predicate SameBelow(m: seq<Cell>, m': seq<Cell>, a: int)
  {
    |m'| == |m| && forall k :: 0 <= k < a && k < |m| ==> m'[k] == m[k]
  }

  lemma FrameKept(m: seq<Cell>, m': seq<Cell>, at: int, f: Frame)
    requires FrameAt(m, at, f) && SameBelow(m, m', EndOf(at, f))
    ensures FrameAt(m', at, f)
    ensures Suspended(m, at, f) ==> Suspended(m', at, f)
    ensures forall p :: Linked(m, at, f, p) ==> Linked(m', at, f, p)
  {
  }

  /** Callers are untouched by anything that happens above them. */
  lemma {:induction false} CallersKept(m: seq<Cell>, m': seq<Cell>, base: int, callers: seq<Frame>)
    requires CallersAt(m, base, callers) && SameBelow(m, m', Start(base, callers))
    ensures CallersAt(m', base, callers)
  {
    hide FrameAt, Suspended, Linked;
    if callers != [] {
      var rest, f := callers[..|callers| - 1], callers[|callers| - 1];
      CallersKept(m, m', base, rest);
      FrameKept(m, m', Start(base, rest), f);
    }
  }

  /** The running frame has changed above its frame extension. */
  lemma TopChanged(m: seq<Cell>, m': seq<Cell>, base: int, s: State, s': State)
    requires StackAt(m, base, s) && s'.callers == s.callers && s'.top.fn == s.top.fn && s'.top.args == s.top.args
    requires SameBelow(m, m', PvarOf(Start(base, s.callers), s.top)) && EndOf(Start(base, s.callers), s'.top) <= |m|
    requires Cells(m', PvarOf(Start(base, s.callers), s.top), s'.top.pvars)
    requires Cells(m', TempsOf(Start(base, s.callers), s'.top), s'.top.temps)
    ensures StackAt(m', base, s')
  {
    hide CallersAt;
    var at := Start(base, s.callers);
    CallersKept(m, m', base, s.callers);
    assert Cells(m', at, s.top.args);
  }

  // ---- a call ----

  /** The new frame has been laid out above the caller, which has saved where it goes on. */
  lemma Entered(m: seq<Cell>, m': seq<Cell>, base: int, s: State, s': State)
    requires StackAt(m, base, s) && s'.callers != [] && s'.callers[..|s'.callers| - 1] == s.callers
    requires var at, f, c := Start(base, s.callers), s.top, s'.callers[|s'.callers| - 1];
      && c.fn == f.fn && c.args == f.args && c.pvars == f.pvars && 0 <= c.pc < 65536
      && EndOf(at, c) <= |m| && SameBelow(m, m', FxOf(at, f) + 2)
      && m'[FxOf(at, f) + 2] == 2 * EndOf(at, c) * 65536 + c.pc
      && (forall a :: PvarOf(at, f) <= a < TempsOf(at, f) ==> m'[a] == m[a])
      && Cells(m', TempsOf(at, c), c.temps)
      && FrameAt(m', EndOf(at, c), s'.top) && Linked(m', EndOf(at, c), s'.top, PvarOf(at, f)) &&
        0 <= s'.top.fn < 0x1000_0000
    ensures StackAt(m', base, s')
  {
    hide CallersAt;
    var at, f, c := Start(base, s.callers), s.top, s'.callers[|s'.callers| - 1];
    CallersKept(m, m', base, s.callers);
    assert Cells(m', at, c.args);
    assert Cells(m', PvarOf(at, c), c.pvars);
    assert FrameAt(m', at, c) && Suspended(m', at, c);
    if s.callers != [] {
      assert Linked(m', at, c, CallerPvar(base, s.callers));
    }
    CallersGrown(m', base, s'.callers);
  }

  lemma CallersGrown(m: seq<Cell>, base: int, callers: seq<Frame>)
    requires callers != []
    requires var rest, f := callers[..|callers| - 1], callers[|callers| - 1];
      && CallersAt(m, base, rest) && FrameAt(m, Start(base, rest), f) && Suspended(m, Start(base, rest), f)
      && (rest != [] ==> Linked(m, Start(base, rest), f, CallerPvar(base, rest)))
    ensures CallersAt(m, base, callers)
    ensures Start(base, callers) == EndOf(Start(base, callers[..|callers| - 1]), callers[|callers| - 1])
  {
    hide FrameAt, Suspended, Linked;
  }

  // ---- a return ----

  /** What a suspended frame has saved. */
  lemma SavedFields(m: seq<Cell>, at: int, f: Frame)
    requires FrameAt(m, at, f) && Suspended(m, at, f) && |m| <= STACK_CELLS
    ensures 0 <= at && at + 6 <= PvarOf(at, f) < |m| && 0 < FxOf(at, f) && FxOf(at, f) == PvarOf(at, f) - FX_CELLS
    ensures m[FxOf(at, f) - 1] == BF_MARK32 + 2 * at && m[FxOf(at, f) + 1] == f.fn && 0 <= f.fn < 0x1000_0000
    ensures m[FxOf(at, f) + 2] % 65536 == f.pc
  {
    hide Cells;
    LowWord(2 * EndOf(at, f), f.pc);
  }

  lemma LowWord(hi: int, lo: int)
    requires 0 <= lo < 65536
    ensures (hi * 65536 + lo) % 65536 == lo
  {
  }

  lemma LinkField(m: seq<Cell>, at: int, f: Frame, p: int)
    requires Linked(m, at, f, p)
    ensures 0 <= FxOf(at, f) < |m| && m[FxOf(at, f)] == FX_MARK * 65536 + 2 * p
  {
  }

  /** A return finds the caller as it was left: its variables, its arguments, its code and where it goes on. */
  lemma Left(m: seq<Cell>, base: int, s: State)
    requires StackAt(m, base, s) && s.callers != []
    ensures StackAt(m, base, Leave(s))
    ensures var n, at := |s.callers| - 1, Start(base, s.callers);
      var c, below := s.callers[n], Start(base, s.callers[..n]);
      && at == EndOf(below, c) && 0 <= FxOf(at, s.top) < |m| &&
        m[FxOf(at, s.top)] == FX_MARK * 65536 + 2 * PvarOf(below, c)
      && FrameAt(m, below, c) && Suspended(m, below, c)
  {
    hide CallersAt, FrameAt, Suspended, Linked, PvarOf, FxOf, EndOf;
    CallersShrunk(m, base, s.callers);
    LinkField(m, Start(base, s.callers), s.top, CallerPvar(base, s.callers));
    SavedCode(m, Start(base, s.callers[..|s.callers| - 1]), s.callers[|s.callers| - 1]);
  }

  lemma SavedCode(m: seq<Cell>, at: int, f: Frame)
    requires Suspended(m, at, f)
    ensures 0 <= f.fn < 0x1000_0000
  {
  }

  lemma CallersShrunk(m: seq<Cell>, base: int, callers: seq<Frame>)
    requires callers != [] && CallersAt(m, base, callers)
    ensures var rest, f := callers[..|callers| - 1], callers[|callers| - 1];
      && CallersAt(m, base, rest) && FrameAt(m, Start(base, rest), f) && Suspended(m, Start(base, rest), f)
      && (rest != [] ==> Linked(m, Start(base, rest), f, CallerPvar(base, rest)))
      && Start(base, callers) == EndOf(Start(base, rest), f)
  {
    hide FrameAt, Suspended, Linked;
  }

  // ---- building a frame ----

  ghost predicate Filled(m: seq<Cell>, at: int, v: Cell, to: int)
  {
    0 <= at && to <= |m| && forall a :: at <= a < to ==> m[a] == v
  }

  lemma FilledCells(m: seq<Cell>, at: int, v: Cell, n: int)
    requires Filled(m, at, v, at + n) && at <= |m|
    ensures Cells(m, at, Repeat(v, n))
  {
  }

  /** Missing arguments filled in, or surplus ones passed over. */
  lemma Adapted(m: seq<Cell>, m': seq<Cell>, at: int, args: seq<Cell>, na: int)
    requires Cells(m, at, args) && SameBelow(m, m', at + |args|) && Filled(m', at + |args|, NIL, at + na)
    ensures Cells(m', at, Adapt(args, na))
  {
    var r := Adapt(args, na);
    forall k | 0 <= k < |r|
      ensures at + k < |m'| && m'[at + k] == r[k]
    {
      if k < |args| {
        assert m[at + k] == args[k];
      }
    }
  }

  /** The machine registers: the next free cell, the arguments, the variables, the top value, the byte after the one
      being executed, and the code. */
  datatype Regs = Regs(sp: int, ivar: int, pvar: int, tos: Cell, pcmac: int, func: int)

  ghost predicate RegsOk(r: Regs, base: int, s: State)
  {
    && r.ivar == Start(base, s.callers) && r.pvar == PvarOf(r.ivar, s.top) && r.sp == EndOf(r.ivar, s.top)
    && r.tos == s.tos && r.func == 2 * s.top.fn && r.pcmac == r.func + s.top.pc + 1
  }

  /** Arguments, basic frame and the first cells of a frame extension. */
  ghost predicate HeadAt(m: seq<Cell>, at: int, args: seq<Cell>, fn: int, callerPvar: int)
  {
    && Cells(m, at, args) && at + |args| + 6 <= |m|
    && m[at + |args|] == BF_MARK32 + 2 * at
    && m[at + |args| + 1] == FX_MARK * 65536 + 2 * callerPvar
    && m[at + |args| + 2] == fn
  }

  lemma FrameBuilt(m: seq<Cell>, m': seq<Cell>, at: int, f: Frame, callerPvar: int)
    requires HeadAt(m, at, f.args, f.fn, callerPvar) && SameBelow(m, m', PvarOf(at, f))
    requires Cells(m', PvarOf(at, f), f.pvars) && f.temps == [] && EndOf(at, f) <= |m|
    ensures FrameAt(m', at, f) && Linked(m', at, f, callerPvar)
  {
  }

  /** The caller has saved where it goes on and where the next frame starts, and has all of `l` in memory. */
  ghost predicate CallerReady(m0: seq<Cell>, m: seq<Cell>, base: int, s: State, l: seq<Cell>, next: int, pc: int)
  {
    var at := Start(base, s.callers);
    && 0 <= at && EndOf(at, s.top) <= |m0| && 0 <= pc < 65536
    && SameBelow(m0, m, FxOf(at, s.top) + 2)
    && m[FxOf(at, s.top) + 2] == 2 * next * 65536 + pc
    && (forall a :: PvarOf(at, s.top) <= a < TempsOf(at, s.top) ==> m[a] == m0[a])
    && Cells(m, TempsOf(at, s.top), l)
  }

  lemma CellsSplit(m: seq<Cell>, at: int, l: seq<Cell>, n: int)
    requires Cells(m, at, l) && 0 <= n <= |l|
    ensures Cells(m, at, l[..|l| - n]) && Cells(m, at + |l| - n, l[|l| - n..])
  {
  }

  lemma CellsKept(m: seq<Cell>, m': seq<Cell>, at: int, l: seq<Cell>, a: int)
    requires Cells(m, at, l) && SameBelow(m, m', a) && at + |l| <= a
    ensures Cells(m', at, l)
  {
  }

  /** All that a call sequence has laid out, put together. */
  lemma CallDone(m0: seq<Cell>, m: seq<Cell>, m': seq<Cell>, base: int, s: State, l: seq<Cell>, fn: int, startpc: int,
                 n: int, na: int, pvars: seq<Cell>, pc: int)
    requires StackAt(m0, base, s) && 0 <= n <= |l| && 0 <= fn < 0x1000_0000
    requires var next := TempsOf(Start(base, s.callers), s.top) + |l| - n;
      && CallerReady(m0, m, base, s, l, next, pc) && SameBelow(m, m', next)
      && FrameAt(m', next, Enter(s, l, fn, startpc, n, na, pvars, pc).top)
      && Linked(m', next, Enter(s, l, fn, startpc, n, na, pvars, pc).top, PvarOf(Start(base, s.callers), s.top))
    ensures StackAt(m', base, Enter(s, l, fn, startpc, n, na, pvars, pc))
    ensures Start(base, Enter(s, l, fn, startpc, n, na, pvars, pc).callers)
        == TempsOf(Start(base, s.callers), s.top) + |l| - n
  {
    hide CallersAt, FrameAt, Linked, Adapt;
    var s' := Enter(s, l, fn, startpc, n, na, pvars, pc);
    var at := Start(base, s.callers);
    var c := s'.callers[|s'.callers| - 1];
    assert s'.callers[..|s'.callers| - 1] == s.callers;
    CellsSplit(m, TempsOf(at, s.top), l, n);
    CellsKept(m, m', TempsOf(at, s.top), c.temps, EndOf(at, c));
    Entered(m0, m', base, s, s');
  }

  /** From the caller's saves to the last variable: the head of the frame on top of the saves, the variables on top of
      that. */
  lemma CallLaid(m0: seq<Cell>, m1: seq<Cell>, m2: seq<Cell>, m3: seq<Cell>, base: int, s: State, l: seq<Cell>, fn: int,
                 startpc: int, n: int, na: int, pvars: seq<Cell>, pc: int)
    requires StackAt(m0, base, s) && 0 <= n <= |l| && 0 <= fn < 0x1000_0000
    requires var next, args := TempsOf(Start(base, s.callers), s.top) + |l| - n, Adapt(l[|l| - n..], na);
      && CallerReady(m0, m1, base, s, l, next, pc) && SameBelow(m1, m2, next)
      && HeadAt(m2, next, args, fn, PvarOf(Start(base, s.callers), s.top)) && SameBelow(m2, m3, next + |args| + 6)
      && Cells(m3, next + |args| + 6, pvars) && next + |args| + 6 + |pvars| + 1 <= |m0|
    ensures StackAt(m3, base, Enter(s, l, fn, startpc, n, na, pvars, pc))
    ensures Start(base, Enter(s, l, fn, startpc, n, na, pvars, pc).callers)
        == TempsOf(Start(base, s.callers), s.top) + |l| - n
  {
    hide StackAt, FrameAt, HeadAt, Cells, Linked, Adapt, CallerReady;
    var next := TempsOf(Start(base, s.callers), s.top) + |l| - n;
    var s' := Enter(s, l, fn, startpc, n, na, pvars, pc);
    SameSize(m0, m1, base, s, l, next, pc);
    FrameBuilt(m2, m3, next, s'.top, PvarOf(Start(base, s.callers), s.top));
    CallDone(m0, m1, m3, base, s, l, fn, startpc, n, na, pvars, pc);
  }

  /** The registers at the first instruction of the callee. */
  lemma CallRegs(base: int, s: State, l: seq<Cell>, fn: int, startpc: int, n: int, na: int, pvars: seq<Cell>, pc: int,
                 newPvar: int)
    requires 0 <= n <= |l|
    requires Start(base, Enter(s, l, fn, startpc, n, na, pvars, pc).callers)
          == TempsOf(Start(base, s.callers), s.top) + |l| - n
    requires newPvar == TempsOf(Start(base, s.callers), s.top) + |l| - n + |Adapt(l[|l| - n..], na)| + 6
    ensures var next := TempsOf(Start(base, s.callers), s.top) + |l| - n;
      RegsOk(Regs(newPvar + |pvars| + 1, next, newPvar, s.tos, 2 * fn + startpc + 1, 2 * fn), base,
             Enter(s, l, fn, startpc, n, na, pvars, pc))
  {
    hide Adapt, Start;
  }

  lemma SameSize(m0: seq<Cell>, m: seq<Cell>, base: int, s: State, l: seq<Cell>, next: int, pc: int)
    requires CallerReady(m0, m, base, s, l, next, pc)
    ensures |m| == |m0|
  {
  }

  lemma TopCells(m: seq<Cell>, base: int, s: State)
    requires StackAt(m, base, s)
    ensures var at := Start(base, s.callers);
      && 0 <= at && EndOf(at, s.top) <= |m|
      && Cells(m, PvarOf(at, s.top), s.top.pvars) && Cells(m, TempsOf(at, s.top), s.top.temps)
  {
  }

  /** Where the running frame is. */
  lemma TopPlace(m: seq<Cell>, base: int, s: State)
    requires StackAt(m, base, s)
    ensures 0 <= Start(base, s.callers) && EndOf(Start(base, s.callers), s.top) <= |m| <= STACK_CELLS
  {
  }

  /** The cell below the next free one holds the last value pushed. */
  lemma TopValue(m: seq<Cell>, base: int, s: State)
    requires StackAt(m, base, s) && s.top.temps != []
    ensures var end := EndOf(Start(base, s.callers), s.top);
      0 < end <= |m| && m[end - 1] == s.top.temps[|s.top.temps| - 1]
  {
    hide CallersAt;
    TopCells(m, base, s);
    assert m[TempsOf(Start(base, s.callers), s.top) + (|s.top.temps| - 1)] == s.top.temps[|s.top.temps| - 1];
  }

  /** A frame made by a call has an even alink. */
  lemma LinkIsEven(m: seq<Cell>, base: int, s: State)
    requires StackAt(m, base, s) && s.callers != []
    ensures var fx := FxOf(Start(base, s.callers), s.top);
      0 <= fx < |m| && m[fx] % 2 == 0
  {
    hide CallersAt, FrameAt;
    LinkField(m, Start(base, s.callers), s.top, CallerPvar(base, s.callers));
  }

  lemma CellsPushed(m: seq<Cell>, m': seq<Cell>, at: int, l: seq<Cell>, v: Cell)
    requires Cells(m, at, l) && at + |l| < |m| && m' == m[at + |l| := v]
    ensures Cells(m', at, l + [v])
  {
  }

  lemma AdaptedSize(args: seq<Cell>, na: int)
    ensures |Adapt(args, na)| == if na < 0 then |args| else na
  {
  }

  lemma UnboundSlots(pv: int)
    ensures Slots(UNBOUND, pv) == Repeat(UNBOUND, 2 * (pv + 1))
  {
  }

  lemma NoSlots(m: seq<Cell>, at: int, env: Cell, pv: int)
    requires 0 <= at <= |m| && pv < 0
    ensures Cells(m, at, Slots(env, pv)) && |Slots(env, pv)| == 0
  {
  }

  lemma SameBelowSelf(m: seq<Cell>, a: int)
    ensures SameBelow(m, m, a)
  {
  }

  /** The caller's two saves; its stack is in memory already. */
  lemma CallerSavedOnly(m0: seq<Cell>, m: seq<Cell>, base: int, s: State, l: seq<Cell>, next: int, pc: int)
    requires StackAt(m0, base, s) && 0 <= pc < 65536 && 0 <= 2 * next < 65536
    requires l <= s.top.temps && m == m0[PvarOf(Start(base, s.callers), s.top) - 3 := (2 * next * 65536 + pc) as Cell]
    ensures CallerReady(m0, m, base, s, l, next, pc)
    ensures Cells(m, TempsOf(Start(base, s.callers), s.top), l)
  {
    hide CallersAt;
    assert Cells(m0, TempsOf(Start(base, s.callers), s.top), s.top.temps);
    assert Cells(m, TempsOf(Start(base, s.callers), s.top), l);
  }

  lemma SlotCells(m: seq<Cell>, m': seq<Cell>, at: int, env: Cell, pv: int)
    requires 0 <= at && at + 2 <= |m| && 0 <= pv && m[at] == env && m[at + 1] == UNBOUND
    requires SameBelow(m, m', at + 2) && Cells(m', at + 2, Repeat(UNBOUND, 2 * pv))
    ensures |Slots(env, pv)| == 2 * pv + 2 && Cells(m', at, Slots(env, pv))
  {
    var r, rest := Slots(env, pv), Repeat(UNBOUND, 2 * pv);
    forall k | 0 <= k < |r|
      ensures m'[at + k] == r[k]
    {
      if k >= 2 {
        assert m'[at + 2 + (k - 2)] == rest[k - 2];
      }
    }
  }

  /** The caller's two saves, with the top of its stack pushed. */
  lemma CallerSaved(m0: seq<Cell>, m: seq<Cell>, base: int, s: State, next: int, pc: int)
    requires StackAt(m0, base, s) && 0 <= pc < 65536 && 0 <= 2 * next < 65536
    requires EndOf(Start(base, s.callers), s.top) < |m0|
    requires m == m0[PvarOf(Start(base, s.callers), s.top) - 3 := (2 * next * 65536 + pc) as Cell]
                    [EndOf(Start(base, s.callers), s.top) := s.tos]
    ensures CallerReady(m0, m, base, s, Stacked(s), next, pc)
    ensures Cells(m, TempsOf(Start(base, s.callers), s.top), Stacked(s))
  {
    hide CallersAt;
    var at := Start(base, s.callers);
    var m1 := m0[PvarOf(at, s.top) - 3 := (2 * next * 65536 + pc) as Cell];
    assert Cells(m0, TempsOf(at, s.top), s.top.temps);
    assert Cells(m1, TempsOf(at, s.top), s.top.temps);
    CellsPushed(m1, m, TempsOf(at, s.top), s.top.temps, s.tos);
  }

  // ---- bindings ----

  /** The variables at `pvar` are now `p`; nothing else in memory has changed. */
  ghost predicate SlotsAre(m0: seq<Cell>, m: seq<Cell>, pvar: int, p: seq<Cell>)
  {
    && |m| == |m0| && Cells(m, pvar, p)
    && forall a :: 0 <= a < |m| && !(pvar <= a < pvar + |p|) ==> m[a] == m0[a]
  }

  lemma SlotStored(m0: seq<Cell>, m: seq<Cell>, pvar: int, p: seq<Cell>, k: int, v: Cell)
    requires SlotsAre(m0, m, pvar, p) && 0 <= k < |p|
    ensures 0 <= pvar + k < |m| && SlotsAre(m0, m[pvar + k := v], pvar, p[k := v])
  {
  }

  lemma SlotsStart(m: seq<Cell>, pvar: int, p: seq<Cell>)
    requires Cells(m, pvar, p)
    ensures SlotsAre(m, m, pvar, p)
  {
  }

  lemma BoundNil(p: seq<Cell>, i: int, slot: int)
    requires 0 <= i <= slot < |p|
    ensures Bound(p, i, slot, [])[slot - i := NIL] == Bound(p, i + 1, slot, [])
  {
  }

  lemma BoundNone(p: seq<Cell>, slot: int)
    ensures Bound(p, 0, slot, []) == p
  {
  }

  lemma BoundValue(p: seq<Cell>, n1: int, slot: int, l: seq<Cell>, j: int)
    requires 0 <= n1 && 0 <= j < |l| && n1 + j <= slot < |p|
    ensures Bound(p, n1, slot, l[|l| - j..])[slot - n1 - j := l[|l| - 1 - j]] == Bound(p, n1, slot, l[|l| - j - 1..])
  {
    var x, y := Bound(p, n1, slot, l[|l| - j..])[slot - n1 - j := l[|l| - 1 - j]], Bound(p, n1, slot, l[|l| - j - 1..]);
    forall k | 0 <= k < |p|
      ensures x[k] == y[k]
    {
    }
  }

  lemma UnboundOne(p: seq<Cell>, i: int, slot: int)
    requires 0 <= i <= slot < |p|
    ensures Unbound(p, i, slot)[slot - i := UNBOUND] == Unbound(p, i + 1, slot)
  {
  }

  lemma UnboundNone(p: seq<Cell>, slot: int)
    ensures Unbound(p, 0, slot) == p
  {
  }

  /** The running frame has other variables, and another evaluation stack in memory. */
  lemma FrameRebound(m: seq<Cell>, m1: seq<Cell>, m': seq<Cell>, base: int, s: State, s': State)
    requires StackAt(m, base, s) && s'.callers == s.callers && s'.top.fn == s.top.fn && s'.top.args == s.top.args
    requires |s'.top.pvars| == |s.top.pvars| && EndOf(Start(base, s.callers), s'.top) <= |m|
    requires SlotsAre(m, m1, PvarOf(Start(base, s.callers), s.top), s'.top.pvars)
    requires SameBelow(m1, m', TempsOf(Start(base, s.callers), s.top))
    requires Cells(m', TempsOf(Start(base, s.callers), s.top), s'.top.temps)
    ensures StackAt(m', base, s')
  {
    hide CallersAt, FrameAt;
    TopPlace(m, base, s);
    TopChanged(m, m', base, s, s');
  }

  lemma CellsFit(m: seq<Cell>, at: int, l: seq<Cell>)
    requires Cells(m, at, l)
    ensures 0 <= at && at + |l| <= |m|
  {
  }

  /** Slots lie below the evaluation stack. */
  lemma SlotsApart(m0: seq<Cell>, m: seq<Cell>, pvar: int, p: seq<Cell>, at: int, l: seq<Cell>)
    requires SlotsAre(m0, m, pvar, p) && Cells(m0, at, l) && pvar + |p| <= at
    ensures Cells(m, at, l) && |m| == |m0|
  {
  }

  lemma OneAbove(m: seq<Cell>, a: int, v: Cell, at: int)
    requires at <= a < |m| && 0 <= a
    ensures SameBelow(m, m[a := v], at)
  {
  }

  lemma NothingCleared(m: seq<Cell>, pvar: int, p: seq<Cell>, slot: int)
    requires Cells(m, pvar, p)
    ensures SlotsAre(m, m, pvar, Unbound(p, 0, slot))
  {
    UnboundNone(p, slot);
  }

  /** The slots of the last marker cleared, and the stack cut back to it. */
  lemma MarkRestored(m: seq<Cell>, m': seq<Cell>, base: int, s: State, k: int)
    requires StackAt(m, base, s) && CanUnbind(s) && k == LastMark(s.top.temps)
    requires SlotsAre(m, m', PvarOf(Start(base, s.callers), s.top),
                      Unbound(s.top.pvars, MarkedNum(s.top.temps[k]), MarkedSlot(s.top.temps[k])))
    ensures StackAt(m', base, Unbind(s))
  {
    hide StackAt, SlotsAre, Unbound, LastMark, Cells;
    TopPlace(m, base, s);
    TopCells(m, base, s);
    var at := TempsOf(Start(base, s.callers), s.top);
    SlotsApart(m, m', PvarOf(Start(base, s.callers), s.top),
               Unbound(s.top.pvars, MarkedNum(s.top.temps[k]), MarkedSlot(s.top.temps[k])), at, s.top.temps);
    CellsSplit(m', at, s.top.temps, |s.top.temps| - k);
    SameBelowSelf(m', at);
    FrameRebound(m, m', m', base, s, Unbind(s));
  }

  lemma MarkOnTop(m: seq<Cell>, m': seq<Cell>, base: int, s: State, c: Cell)
    requires StackAt(m, base, s)
    requires SlotsAre(m, m', PvarOf(Start(base, s.callers), s.top), Unbound(s.top.pvars, MarkedNum(c), MarkedSlot(c)))
    ensures StackAt(m', base, s.(top := Cleared(s.top, c)))
  {
    hide StackAt, SlotsAre, Unbound, Cells;
    TopPlace(m, base, s);
    TopCells(m, base, s);
    var at := TempsOf(Start(base, s.callers), s.top);
    SlotsApart(m, m', PvarOf(Start(base, s.callers), s.top), Unbound(s.top.pvars, MarkedNum(c), MarkedSlot(c)), at,
               s.top.temps);
    SameBelowSelf(m', at);
    FrameRebound(m, m', m', base, s, s.(top := Cleared(s.top, c)));
  }
}
