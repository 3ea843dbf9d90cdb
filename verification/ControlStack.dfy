/** The machine that works the control stack: pushes and pops, the call sequences, the fast return, and bindings
    (inc/tosfns.h, inc/tosret.h, inc/inlineC.h, src/binds.c). */
module ControlStack {
  import opened Memory
  import opened Frames
  import opened StackLayout
  import Arith

  // ---- pieces of the call sequences ----

  /** BCE_CURRENTFX->pc and ->nextblock share a cell. */
  method SaveCaller(stk: array<Cell>, pvar: int, pc: int, next: int)
    requires FX_CELLS <= pvar + 2 && pvar - 3 < stk.Length && 3 <= pvar && 0 <= pc < 65536 && 0 <= 2 * next < 65536
    modifies stk
    ensures stk[..] == old(stk[..])[pvar - 3 := (2 * next * 65536 + pc) as Cell]
  {
    stk[pvar - 3] := stk[pvar - 3] / 65536 * 65536 + pc;
    LowWord(old(stk[pvar - 3]) / 65536, pc);
    stk[pvar - 3] := 2 * next * 65536 + stk[pvar - 3] % 65536;
  }

  /** "if (na >= 0)": push NILs for the arguments that are missing, then step back over those too many. */
  method AdaptArgs(stk: array<Cell>, sp: int, n: int, na: int, ghost at: int, ghost args: seq<Cell>) returns (sp': int)
    requires Cells(stk[..], at, args) && |args| == n && sp == at + n && (na > n ==> at + na <= stk.Length)
    modifies stk
    ensures sp' == at + |Adapt(args, na)| && Cells(stk[..], at, Adapt(args, na))
    ensures SameBelow(old(stk[..]), stk[..], at)
  {
    sp' := sp;
    if na >= 0 {
      var restArgs := n - na;
      while restArgs < 0
        invariant n - na <= restArgs && (n - na <= 0 ==> restArgs <= 0) && (n - na > 0 ==> restArgs == n - na)
        invariant sp' == sp + (restArgs - (n - na))
        invariant Filled(stk[..], sp, NIL, sp')
        invariant SameBelow(old(stk[..]), stk[..], sp)
      {
        stk[sp'] := NIL;
        sp' := sp' + 1;
        restArgs := restArgs + 1;
      }
      sp' := sp' - restArgs;
    }
    Adapted(old(stk[..]), stk[..], at, args, na);
  }

  /** The basic frame, the mark and alink, and the function header. */
  method LayFrame(stk: array<Cell>, sp: int, next: int, fn: int, callerPvar: int, ghost args: seq<Cell>)
    returns (pvar: int)
    requires Cells(stk[..], next, args) && sp == next + |args| && sp + 6 <= stk.Length <= STACK_CELLS
    requires 0 <= callerPvar < STACK_CELLS && 0 <= fn < 0x1000_0000
    modifies stk
    ensures pvar == sp + 6 && HeadAt(stk[..], next, args, fn, callerPvar)
    ensures SameBelow(old(stk[..]), stk[..], next)
  {
    stk[sp] := BF_MARK32 + 2 * next;
    stk[sp + 1] := FX_MARK * 65536 + 2 * callerPvar;
    stk[sp + 2] := fn;
    pvar := sp + 1 + FX_CELLS;
  }

  /** The arguments adapted, and the head of the frame. */
  method LayCall(stk: array<Cell>, sp: int, n: int, na: int, next: int, fn: int, callerPvar: int, ghost args: seq<Cell>)
    returns (pvar: int)
    requires Cells(stk[..], next, args) && |args| == n && sp == next + n && stk.Length <= STACK_CELLS
    requires sp + 6 <= stk.Length && next + na + 6 <= stk.Length && 0 <= callerPvar < STACK_CELLS
    requires 0 <= fn < 0x1000_0000
    modifies stk
    ensures pvar == next + |Adapt(args, na)| + 6 && HeadAt(stk[..], next, Adapt(args, na), fn, callerPvar)
    ensures SameBelow(old(stk[..]), stk[..], next)
  {
    hide Cells, HeadAt, Adapt;
    ghost var m1 := stk[..];
    AdaptedSize(args, na);
    var sp' := AdaptArgs(stk, sp, n, na, next, args);
    pvar := LayFrame(stk, sp', next, fn, callerPvar, Adapt(args, na));
  }

  /** Pairs of unbound cells; none if `pairs` is negative. */
  method FillUnbound(stk: array<Cell>, sp: int, pairs: int) returns (sp': int)
    requires 0 <= sp && (pairs > 0 ==> sp + 2 * pairs <= stk.Length) && sp <= stk.Length
    modifies stk
    ensures sp' == sp + |Repeat(UNBOUND, 2 * pairs)| && Cells(stk[..], sp, Repeat(UNBOUND, 2 * pairs))
    ensures SameBelow(old(stk[..]), stk[..], sp)
  {
    sp' := sp;
    var result := pairs;
    while result > 0
      invariant result <= pairs && (pairs >= 0 ==> 0 <= result) && (pairs < 0 ==> result == pairs)
      invariant sp' == sp + 2 * (pairs - result)
      invariant Filled(stk[..], sp, UNBOUND, sp')
      invariant SameBelow(old(stk[..]), stk[..], sp)
    {
      stk[sp'] := UNBOUND;
      stk[sp' + 1] := UNBOUND;
      sp' := sp' + 2;
      result := result - 1;
    }
    FilledCells(stk[..], sp, UNBOUND, 2 * pairs);
  }

  /** An environment and an unbound cell, then `pv` more pairs. */
  method FillSlots(stk: array<Cell>, sp: int, env: Cell, pv: int) returns (sp': int)
    requires 0 <= sp && sp + 2 + 2 * (if pv > 0 then pv else 0) <= stk.Length
    modifies stk
    ensures sp' == sp + 2 + 2 * (if pv > 0 then pv else 0) == sp + |Slots(env, if pv < 0 then 0 else pv)|
    ensures Cells(stk[..], sp, Slots(env, if pv < 0 then 0 else pv))
    ensures SameBelow(old(stk[..]), stk[..], sp)
  {
    stk[sp] := env;
    stk[sp + 1] := UNBOUND;
    ghost var m := stk[..];
    sp' := FillUnbound(stk, sp + 2, pv);
    SlotCells(m, stk[..], sp, env, if pv < 0 then 0 else pv);
  }

  // ---- loops over variable slots ----

  /** "for (...) *--ppvar = NIL_PTR" */
  method BindNils(stk: array<Cell>, pvar: int, n1: int, slot: int, ghost p: seq<Cell>) returns (ppvar: int)
    requires Cells(stk[..], pvar, p) && 0 <= n1 <= slot + 1 && slot < |p| && 0 <= slot
    modifies stk
    ensures ppvar == pvar + slot + 1 - n1 && SlotsAre(old(stk[..]), stk[..], pvar, Bound(p, n1, slot, []))
  {
    hide Cells, SlotsAre, Bound;
    ghost var m0 := stk[..];
    SlotsStart(m0, pvar, p);
    BoundNone(p, slot);
    ppvar := pvar + 1 + slot;
    var i := 0;
    while i < n1
      invariant 0 <= i <= n1 && ppvar == pvar + slot + 1 - i
      invariant SlotsAre(m0, stk[..], pvar, Bound(p, i, slot, []))
    {
      SlotStored(m0, stk[..], pvar, Bound(p, i, slot, []), slot - i, NIL);
      BoundNil(p, i, slot);
      ppvar := ppvar - 1;
      stk[ppvar] := NIL;
      i := i + 1;
    }
  }

  /** The top of the stack, and then values from memory, into the slots below. */
  method BindValues(stk: array<Cell>, pvar: int, from: int, n1: int, n2: int, slot: int, sp: int, tos: Cell,
                    ghost m0: seq<Cell>, ghost p: seq<Cell>, ghost at: int, ghost l: seq<Cell>) returns (sp': int)
    requires SlotsAre(m0, stk[..], pvar, Bound(p, n1, slot, [])) && from == pvar + slot + 1 - n1
    requires 0 <= n1 && 1 <= n2 <= |l| && n1 + n2 - 1 <= slot < |p| && l[|l| - 1] == tos
    requires Cells(m0, at, l[..|l| - 1]) && sp == at + |l| - 1 && pvar + |p| <= at
    modifies stk
    ensures sp' == sp - (n2 - 1)
    ensures SlotsAre(m0, stk[..], pvar, Bound(p, n1, slot, l[|l| - n2..]))
  {
    hide SlotsAre, Bound;
    var ppvar := from - 1;
    SlotStored(m0, stk[..], pvar, Bound(p, n1, slot, []), slot - n1, tos);
    assert l[|l|..] == [];
    BoundValue(p, n1, slot, l, 0);
    stk[ppvar] := tos;
    sp' := sp;
    var i := 1;
    while i < n2
      invariant 1 <= i <= n2 && ppvar == pvar + slot + 1 - n1 - i && sp' == sp - (i - 1)
      invariant SlotsAre(m0, stk[..], pvar, Bound(p, n1, slot, l[|l| - i..]))
    {
      SlotStored(m0, stk[..], pvar, Bound(p, n1, slot, l[|l| - i..]), slot - n1 - i, l[|l| - 1 - i]);
      BoundValue(p, n1, slot, l, i);
      ppvar := ppvar - 1;
      sp' := sp' - 1;
      ValueKept(m0, stk[..], pvar, Bound(p, n1, slot, l[|l| - i..]), at, l, |l| - 1 - i);
      stk[ppvar] := stk[sp'];
      i := i + 1;
    }
  }

  lemma ValueKept(m0: seq<Cell>, m: seq<Cell>, pvar: int, p: seq<Cell>, at: int, l: seq<Cell>, k: int)
    requires SlotsAre(m0, m, pvar, p) && l != [] && Cells(m0, at, l[..|l| - 1]) && 0 <= k < |l| - 1 && pvar + |p| <= at
    ensures 0 <= at + k < |m| && m[at + k] == l[k]
  {
  }

  /** "for (...) *--ppvar = 0xffffffff" */
  method ClearSlots(stk: array<Cell>, pvar: int, num: int, slot: int, ghost p: seq<Cell>)
    requires Cells(stk[..], pvar, p) && 0 <= num <= slot + 1 && slot < |p|
    modifies stk
    ensures SlotsAre(old(stk[..]), stk[..], pvar, Unbound(p, num, slot))
  {
    hide Cells, SlotsAre, Unbound;
    ghost var m0 := stk[..];
    SlotsStart(m0, pvar, p);
    UnboundNone(p, slot);
    var ppvar := pvar + slot + 1;
    var i := 0;
    while i < num
      invariant 0 <= i <= num && ppvar == pvar + slot + 1 - i
      invariant SlotsAre(m0, stk[..], pvar, Unbound(p, i, slot))
    {
      SlotStored(m0, stk[..], pvar, Unbound(p, i, slot), slot - i, UNBOUND);
      UnboundOne(p, i, slot);
      ppvar := ppvar - 1;
      stk[ppvar] := UNBOUND;
      i := i + 1;
    }
  }

  /** "for (; (int)*--CSTKPTRL >= 0;)": back to the last marker. */
  method FindMark(stk: array<Cell>, sp: int, ghost at: int, ghost l: seq<Cell>) returns (sp': int)
    requires Cells(stk[..], at, l) && sp == at + |l| && LastMark(l) >= 0
    ensures sp' == at + LastMark(l) && 0 <= sp' < stk.Length && stk[sp'] == l[LastMark(l)]
  {
    hide LastMark;
    sp' := sp - 1;
    while !Marked(stk[sp'])
      invariant LastMark(l) <= sp' - at < |l|
      decreases sp'
    {
      sp' := sp' - 1;
    }
    ghost var k := sp' - at;
    assert Marked(l[k]);
  }

  /** Both forms of BIND up to the marker: the slots bound, the values taken from the stack, or the top pushed on it. */
  method BindSlots(stk: array<Cell>, pvar: int, sp: int, tos: Cell, n1: int, n2: int, slot: int, ghost p: seq<Cell>,
                   ghost at: int, ghost l: seq<Cell>) returns (sp': int, ghost m1: seq<Cell>)
    requires Cells(stk[..], pvar, p) && l != [] && l[|l| - 1] == tos && Cells(stk[..], at, l[..|l| - 1])
    requires sp == at + |l| - 1 && sp < stk.Length && pvar + |p| <= at
    requires 0 <= n1 && 0 <= n2 <= |l| && n1 + n2 - 1 <= slot < |p| && 0 <= slot
    modifies stk
    ensures sp' == at + |l| - n2
    ensures SlotsAre(old(stk[..]), m1, pvar, Bound(p, n1, slot, l[|l| - n2..])) && SameBelow(m1, stk[..], at)
    ensures Cells(stk[..], at, l[..|l| - n2])
  {
    hide Cells, SlotsAre, Bound, SameBelow;
    ghost var m0 := stk[..];
    var ppvar := BindNils(stk, pvar, n1, slot, p);
    m1 := stk[..];
    if n2 == 0 {
      NoneTaken(l);
      SlotsApart(m0, m1, pvar, Bound(p, n1, slot, []), at, l[..|l| - 1]);
      stk[sp] := tos;
      sp' := sp + 1;
      CellsPushed(m1, stk[..], at, l[..|l| - 1], tos);
      OneAbove(m1, sp, tos, at);
    } else {
      sp' := BindValues(stk, pvar, ppvar, n1, n2, slot, sp, tos, m0, p, at, l);
      m1 := stk[..];
      SomeTaken(m0, m1, pvar, Bound(p, n1, slot, l[|l| - n2..]), at, l, n2);
    }
  }

  lemma NoneTaken(l: seq<Cell>)
    requires l != []
    ensures l[|l|..] == [] && l[..|l|] == l[..|l| - 1] + [l[|l| - 1]]
  {
  }

  lemma SomeTaken(m0: seq<Cell>, m1: seq<Cell>, pvar: int, p: seq<Cell>, at: int, l: seq<Cell>, n: int)
    requires SlotsAre(m0, m1, pvar, p) && 1 <= n <= |l| && Cells(m0, at, l[..|l| - 1]) && pvar + |p| <= at
    ensures Cells(m1, at, l[..|l| - n]) && SameBelow(m1, m1, at)
  {
    hide Cells, SlotsAre;
    SlotsApart(m0, m1, pvar, p, at, l[..|l| - 1]);
    CellsSplit(m1, at, l[..|l| - 1], n - 1);
    assert l[..|l| - 1][..|l| - n] == l[..|l| - n];
  }

  /** N_OP_bind: the marker goes to memory, where the new top is. */
  method NOpBind(stk: array<Cell>, pvar: int, sp: int, tos: Cell, n1: int, n2: int, slot: int, ghost p: seq<Cell>,
                 ghost at: int, ghost l: seq<Cell>) returns (sp': int, ghost m1: seq<Cell>)
    requires Cells(stk[..], pvar, p) && l != [] && l[|l| - 1] == tos && Cells(stk[..], at, l[..|l| - 1])
    requires sp == at + |l| - 1 && sp + 1 < stk.Length && pvar + |p| <= at
    requires 0 <= n1 < 16 && 0 <= n2 < 16 && n2 <= |l| && n1 + n2 - 1 <= slot < |p| && 0 <= slot < 256
    modifies stk
    ensures sp' == at + |l| - n2 && stk[sp'] == Marker(n1 + n2, slot)
    ensures SlotsAre(old(stk[..]), m1, pvar, Bound(p, n1, slot, l[|l| - n2..])) && SameBelow(m1, stk[..], at)
    ensures Cells(stk[..], at, l[..|l| - n2])
  {
    hide SlotsAre, Bound;
    sp', m1 := BindSlots(stk, pvar, sp, tos, n1, n2, slot, p, at, l);
    stk[sp'] := (65535 - (n1 + n2)) * 65536 + 2 * slot;
  }

  /** N_OP_unbind: the pointer comes back at the marker. */
  method NOpUnbind(stk: array<Cell>, pvar: int, sp: int, ghost p: seq<Cell>, ghost at: int, ghost l: seq<Cell>)
    returns (sp': int)
    requires Cells(stk[..], pvar, p) && Cells(stk[..], at, l) && sp == at + |l|
    requires LastMark(l) >= 0 && MarkFits(p, l[LastMark(l)])
    modifies stk
    ensures sp' == at + LastMark(l)
    ensures SlotsAre(old(stk[..]), stk[..], pvar, Unbound(p, MarkedNum(l[LastMark(l)]), MarkedSlot(l[LastMark(l)])))
  {
    hide Cells, SlotsAre, Unbound, LastMark;
    sp' := FindMark(stk, sp, at, l);
    var value := stk[sp'];
    ClearSlots(stk, pvar, 65535 - value / 65536, value % 65536 / 2, p);
  }

  /** N_OP_dunbind: a marker in the register leaves the pointer where it is. */
  method NOpDunbind(stk: array<Cell>, pvar: int, sp: int, tos: Cell, ghost p: seq<Cell>, ghost at: int,
                    ghost l: seq<Cell>) returns (sp': int)
    requires Cells(stk[..], pvar, p) && Cells(stk[..], at, l) && sp == at + |l|
    requires if Marked(tos) then MarkFits(p, tos) else LastMark(l) >= 0 && MarkFits(p, l[LastMark(l)])
    modifies stk
    ensures var mark := if Marked(tos) then tos else l[LastMark(l)];
      && sp' == (if Marked(tos) then sp else at + LastMark(l))
      && SlotsAre(old(stk[..]), stk[..], pvar, Unbound(p, MarkedNum(mark), MarkedSlot(mark)))
  {
    hide Cells, SlotsAre, Unbound, LastMark;
    if tos >= 0x8000_0000 {
      var num := 65535 - tos / 65536;
      if num != 0 {
        ClearSlots(stk, pvar, num, tos % 65536 / 2, p);
      } else {
        NothingCleared(stk[..], pvar, p, tos % 65536 / 2);
      }
      sp' := sp;
    } else {
      sp' := NOpUnbind(stk, pvar, sp, p, at, l);
    }
  }

  // ---- the machine ----

  /** What a definition cell leads to: compiled code, a closure over an environment, or neither. */
  datatype Definition = Compiled(fn: int) | Closure(fn: int, env: Cell) | NotCompiled

  /** fn_apply: a plain call, an APPLY, or a UFN with an operand from the code stream. */
  datatype FnApply = Plain | Apply | Operand(v: Cell)

  /** What the stack code reads elsewhere: function headers by address, the interpreter's header, the definition cells
      of symbols, the symbols outside segment 0, the closures, and the contents of boxed integers. */
  datatype World = World(code: map<int, FnHead>, interpreter: int, cells: map<int, Definition>, newAtoms: set<int>,
                         closures: map<int, (int, Cell)>, boxes: map<int, int>)
  {
    /** What a definition cell leads to. */
    function CellOf(atom: int): Definition
    {
      if atom in cells then cells[atom] else NotCompiled
    }

    /** The definition OPAPPLY takes: a symbol's own, a closure itself, and NIL's for anything else. */
    function Define(f: Cell): Definition
    {
      if f / 65536 % 4096 == 0 || f in newAtoms then CellOf(f)
      else if f in closures then Closure(closures[f].0, closures[f].1)
      else CellOf(NIL)
    }

    /** N_GETNUMBER on an argument count. */
    function Number(c: int): Arith.Result
    {
      Arith.GetNumber(c, boxes)
    }
  }

  class Machine {
    const stk: array<Cell>
    const world: World
    var cstkptr: int
    var ivar: int
    var pvar: int
    var tos: Cell
    /** One past the address of the byte being executed. */
    var pcmac: int
    /** The byte address of the running code. */
    var funcObj: int
    ghost const base: int
    ghost var state: State

    /** A machine taken up where a stack area and its registers were left. */
    constructor (stk: array<Cell>, world: World, r: Regs, ghost base: int, ghost s: State)
      requires StackAt(stk[..], base, s) && RegsOk(r, base, s)
      ensures Valid() && state == s && this.stk == stk && this.world == world && this.base == base
    {
      this.stk, this.world, this.base := stk, world, base;
      cstkptr, ivar, pvar, tos, pcmac, funcObj := r.sp, r.ivar, r.pvar, r.tos, r.pcmac, r.func;
      state := s;
    }

    ghost predicate Valid()
      reads this, stk
    {
      StackAt(stk[..], base, state) && RegsOk(Regs(cstkptr, ivar, pvar, tos, pcmac, funcObj), base, state)
    }

    /** The running frame as it lies in memory, in cells: the arguments at IVAR, the basic frame word, the alink, the
        header, the variables at PVAR, one cell skipped, the values up to CSTKPTR; the top of stack and the place in the
        code are in registers. */
    lemma FrameInMemory()
      requires Valid()
      ensures var f := state.top;
        && 0 <= ivar && pvar == ivar + |f.args| + 6 && cstkptr == pvar + |f.pvars| + 1 + |f.temps| <= stk.Length
        && (forall k :: 0 <= k < |f.args| ==> stk[ivar + k] == f.args[k])
        && stk[pvar - 6] == 0x8000_0000 + 2 * ivar && stk[pvar - 4] == f.fn
        && (forall k :: 0 <= k < |f.pvars| ==> stk[pvar + k] == f.pvars[k])
        && (forall k :: 0 <= k < |f.temps| ==> stk[pvar + |f.pvars| + 1 + k] == f.temps[k])
        && tos == state.tos && funcObj == 2 * f.fn && pcmac == funcObj + f.pc + 1
    {
      hide CallersAt, Linked;
    }

    /** The caller of the running frame: the alink leads to its variables, and it has saved where to go on. */
    lemma CallerInMemory()
      requires Valid() && state.callers != []
      ensures var c, p := state.callers[|state.callers| - 1], stk[pvar - 5] % 65536 / 2;
        && 6 <= p && p + |c.pvars| + 1 + |c.temps| == ivar && stk[pvar - 5] % 2 == 0
        && stk[p - 4] == c.fn && stk[p - 3] % 65536 == c.pc
        && (forall k :: 0 <= k < |c.pvars| ==> stk[p + k] == c.pvars[k])
        && (forall k :: 0 <= k < |c.temps| ==> stk[p + |c.pvars| + 1 + k] == c.temps[k])
    {
      hide CallersAt;
      var n := |state.callers| - 1;
      var c, below := state.callers[n], Start(base, state.callers[..n]);
      Left(stk[..], base, state);
      TopPlace(stk[..], base, state);
      SavedFields(stk[..], below, c);
      LowWord(FX_MARK, 2 * PvarOf(below, c));
    }

    /** There is stack for `n` more cells. */
    predicate Room(n: int)
      reads this
    {
      cstkptr + n < stk.Length
    }

    // ---- PUSH, POP, and going on in the code ----

    method Push(v: Cell)
      requires Valid() && Room(1)
      modifies this, stk
      ensures Valid() && state == Frames.Push(old(state), v)
      ensures state == State(old(state).callers, old(state).top.(temps := old(state).top.temps + [old(state).tos]), v)
      ensures cstkptr == old(cstkptr) + 1 && pcmac == old(pcmac) && funcObj == old(funcObj)
    {
      hide CallersAt, FrameAt;
      ghost var m, s := stk[..], state;
      TopCells(m, base, s);
      stk[cstkptr] := tos;
      tos := v;
      cstkptr := cstkptr + 1;
      state := Frames.Push(s, v);
      CellsPushed(m, stk[..], TempsOf(ivar, s.top), s.top.temps, s.tos);
      CellsKept(m, stk[..], pvar, s.top.pvars, TempsOf(ivar, s.top));
      TopChanged(m, stk[..], base, s, state);
    }

    method Pop()
      requires Valid() && state.top.temps != []
      modifies this
      ensures Valid() && state == Frames.Pop(old(state))
      ensures state.callers == old(state).callers && state.top.temps + [state.tos] == old(state).top.temps
      ensures state.top.(temps := []) == old(state).top.(temps := [])
      ensures cstkptr == old(cstkptr) - 1 && pcmac == old(pcmac) && funcObj == old(funcObj)
    {
      hide CallersAt, FrameAt;
      ghost var m, s := stk[..], state;
      TopCells(m, base, s);
      cstkptr := cstkptr - 1;
      tos := stk[cstkptr];
      state := Frames.Pop(s);
      TopChanged(m, m, base, s, state);
    }

    /** Other code moves the program counter. */
    method Goto(pc: int)
      requires Valid()
      modifies `pcmac, `state
      ensures Valid() && state == old(state).(top := old(state).top.(pc := pc))
    {
      hide CallersAt;
      pcmac := funcObj + pc + 1;
      state := state.(top := state.top.(pc := pc));
    }

    // ---- calls ----

    /** The cells a frame of this code needs, whatever it is called with. */
    static function FrameRoom(h: FnHead): int
    {
      13 + (if h.na > 0 then h.na else 0) + 2 * (if h.pv > 0 then h.pv else 0)
    }

    /** Calling `n` arguments into `fn` is possible: the code is there, the code offset fits, the stack check passes. */
    predicate CanCall(n: int, fn: int, size: int)
      reads this
    {
      0 <= n && fn in world.code && 0 <= fn < 0x1000_0000 && 0 <= pcmac - 1 - funcObj + size < 65536 &&
          Room(FrameRoom(world.code[fn]))
    }

    /** OPFN, and OPFNX with the count from the code stream. */
    method OpFn(argcount: int, fn: int, size: int)
      requires Valid() && CanCall(argcount, fn, size) && argcount <= |Stacked(state)|
      modifies this, stk
      ensures Valid()
      ensures var s, h := old(state), world.code[fn];
        state == Enter(s, Stacked(s), fn, h.startpc, argcount, h.na, Slots(UNBOUND, h.pv), s.top.pc + size)
      ensures var s, h := old(state), world.code[fn];
        CallMade(s, state, s.top.temps + [s.tos], fn, h.startpc, argcount, h.na, 0xFFFF_FFFF,
              if h.pv < 0 then 0 else 2 * h.pv + 2, s.top.pc + size)
      ensures state.tos == old(state).tos
    {
      hide StackAt, HeadAt, Cells, SameBelow, Adapt, CallerReady, Slots, Enter, Start, Repeat, CallMade;
      var h := world.code[fn];
      ghost var m0, s, l := stk[..], state, Stacked(state);
      var next := cstkptr - argcount + 1;
      TopPlace(m0, base, s);
      SaveCaller(stk, pvar, pcmac - 1 - funcObj + size, next);
      stk[cstkptr] := tos;
      ghost var m1 := stk[..];
      CallerSaved(m0, m1, base, s, next, s.top.pc + size);
      CellsSplit(m1, TempsOf(ivar, s.top), l, argcount);
      AdaptedSize(l[|l| - argcount..], h.na);
      var newPvar := LayCall(stk, cstkptr + 1, argcount, h.na, next, fn, pvar, l[|l| - argcount..]);
      ghost var m2 := stk[..];
      var sp := FillUnbound(stk, newPvar, h.pv + 1);
      UnboundSlots(h.pv);
      CallLaid(m0, m1, m2, stk[..], base, s, l, fn, h.startpc, argcount, h.na, Slots(UNBOUND, h.pv), s.top.pc + size);
      CallRegs(base, s, l, fn, h.startpc, argcount, h.na, Slots(UNBOUND, h.pv), s.top.pc + size, newPvar);
      state := Enter(s, l, fn, h.startpc, argcount, h.na, Slots(UNBOUND, h.pv), s.top.pc + size);
      EnterIs(s, s, l, fn, h.startpc, argcount, h.na, UNBOUND, h.pv, s.top.pc + size);
      StartCode(fn, h.startpc, next, newPvar, sp + 1);
    }

    /** The registers of a new frame. */
    method StartCode(fn: int, startpc: int, next: int, newPvar: int, sp: int)
      modifies `cstkptr, `ivar, `pvar, `pcmac, `funcObj
      ensures cstkptr == sp && ivar == next && pvar == newPvar && pcmac == 2 * fn + startpc + 1 && funcObj == 2 * fn
    {
      cstkptr, ivar, pvar := sp, next, newPvar;
      pcmac := 2 * fn + startpc + 1;
      funcObj := 2 * fn;
    }

    /** The environment a closure brings: none if it is NIL. */
    static function ClosureEnv(def: Definition): Cell
    {
      if def.Closure? && def.env != NIL then def.env else UNBOUND
    }

    /** The header to be entered: the interpreter's, if the definition is not compiled. */
    function Target(def: Definition): int
    {
      if def.NotCompiled? then world.interpreter else def.fn
    }

    /** The stack after APPLY has popped its operands, a UFN has pushed its own, and the interpreter has been told the
        name. */
    static function Prepared(s: State, def: Definition, atom: Cell, how: FnApply): State
      requires how.Apply? ==> |s.top.temps| >= 2
    {
      var s1 := match how
        case Plain => s
        case Apply => Frames.Pop(Frames.Pop(s))
        case Operand(v) => Frames.Push(s, v);
      if def.NotCompiled? then Frames.Push(s1, atom) else s1
    }

    /** A common call's evaluation stack: without APPLY's two operands, or with a UFN's own, and with the name last if
        and only if the definition is not compiled. */
    static lemma PreparedIs(s: State, def: Definition, atom: Cell, how: FnApply)
      requires how.Apply? ==> |s.top.temps| >= 2
      ensures var p := Prepared(s, def, atom, how);
        && p.callers == s.callers && p.top.(temps := []) == s.top.(temps := [])
        && p.top.temps + [p.tos] == Stacked(p) ==
           (match how
            case Plain => s.top.temps + [s.tos]
            case Apply => s.top.temps[..|s.top.temps| - 1]
            case Operand(v) => s.top.temps + [s.tos] + [v]) + if def.NotCompiled? then [atom] else []
    {
    }

    static lemma EnvIs(def: Definition)
      ensures ClosureEnv(def) == if def.Closure? && def.env != 0 then def.env else 0xFFFF_FFFF
    {
    }

    method Prepare(def: Definition, atom: Cell, how: FnApply)
      requires Valid() && (how.Apply? ==> |state.top.temps| >= 2) && Room(2)
      modifies this, stk
      ensures Valid() && state == Prepared(old(state), def, atom, how)
      ensures cstkptr <= old(cstkptr) + 2 && pcmac == old(pcmac) && funcObj == old(funcObj)
    {
      hide StackAt, RegsOk;
      match how {
        case Plain =>
        case Apply =>
          Pop();
          Pop();
        case Operand(v) =>
          Push(v);
      }
      if def.NotCompiled? {
        Push(atom);
      }
    }

    /** op_fn_common: everything but a direct call of compiled code. */
    method FnCommon(def: Definition, atom: Cell, how: FnApply, numArgs: int, size: int)
      requires Valid() && (how.Apply? ==> |state.top.temps| >= 2)
      requires CanCall(numArgs, Target(def), size)
      requires numArgs + (if def.NotCompiled? then 1 else 0) <= |Stacked(Prepared(state, def, atom, how))|
      modifies this, stk
      ensures Valid()
      ensures var s, h, more := Prepared(old(state), def, atom, how), world.code[Target(def)],
          if def.NotCompiled? then 1 else 0;
        state == Enter(s, Stacked(s), Target(def), h.startpc, numArgs + more, if h.na < 0 then h.na else h.na + more,
                       Slots(ClosureEnv(def), if h.pv < 0 then 0 else h.pv), s.top.pc + size)
      ensures var s, more := old(state), if def.NotCompiled? then 1 else 0;
        var fn := if def.NotCompiled? then world.interpreter else def.fn;
        var h, l := world.code[fn],
            (match how
             case Plain => s.top.temps + [s.tos]
             case Apply => s.top.temps[..|s.top.temps| - 1]
             case Operand(v) => s.top.temps + [s.tos] + [v]) + if def.NotCompiled? then [atom] else [];
        CallMade(s, state, l, fn, h.startpc, numArgs + more, if h.na < 0 then h.na else h.na + more,
              if def.Closure? && def.env != 0 then def.env else 0xFFFF_FFFF, if h.pv < 0 then 2 else 2 * h.pv + 2,
              s.top.pc + size)
    {
      hide StackAt, RegsOk, Slots, Enter, Prepared, ClosureEnv, Stacked, CallMade;
      var fn := Target(def);
      var h := world.code[fn];
      var needpush := if def.NotCompiled? then 1 else 0;
      ghost var s := state;
      PreparedIs(s, def, atom, how);
      Prepare(def, atom, how);
      EnterIs(s, state, Stacked(state), fn, h.startpc, numArgs + needpush, if h.na < 0 then h.na else h.na + needpush,
              ClosureEnv(def), if h.pv < 0 then 0 else h.pv, state.top.pc + size);
      EnvIs(def);
      EnterCommon(fn, h, numArgs + needpush, if h.na < 0 then h.na else h.na + needpush, ClosureEnv(def), size);
    }

    /** A count that OPAPPLY takes: a positive small integer, all sixteen bits of its segment. */
    static predicate IsCount(c: Cell)
    {
      c / 65536 == 0xE
    }

    /** OPAPPLY: the function is on top, the argument count below it; any other count goes to the UFN. */
    method OpApply(size: int) returns (done: bool)
      requires Valid() && |state.top.temps| >= 2
      requires IsCount(state.top.temps[|state.top.temps| - 1]) ==>
        var def, n := world.Define(state.tos), state.top.temps[|state.top.temps| - 1] % 65536;
        CanCall(n, Target(def), size) &&
            n + (if def.NotCompiled? then 1 else 0) <= |Stacked(Prepared(state, def, state.tos, Apply))|
      modifies this, stk
      ensures Valid() && done == IsCount(old(state).top.temps[|old(state).top.temps| - 1])
      ensures !done ==> state == old(state)
      ensures done <==> old(state).top.temps[|old(state).top.temps| - 1] / 65536 == 0xE
      ensures done ==>
          var s, def := old(state), world.Define(old(state).tos);
          var more, n := if def.NotCompiled? then 1 else 0, s.top.temps[|s.top.temps| - 1] % 65536;
          var fn := if def.NotCompiled? then world.interpreter else def.fn;
          var h, l := world.code[fn], s.top.temps[..|s.top.temps| - 1] + if def.NotCompiled? then [s.tos] else [];
          CallMade(s, state, l, fn, h.startpc, n + more, if h.na < 0 then h.na else h.na + more,
                if def.Closure? && def.env != 0 then def.env else 0xFFFF_FFFF, if h.pv < 0 then 2 else 2 * h.pv + 2,
                s.top.pc + size)
      ensures done ==>
          var def, n := world.Define(old(state).tos), old(state).top.temps[|old(state).top.temps| - 1] % 65536;
          var s, h, more := Prepared(old(state), def, old(state).tos, Apply), world.code[Target(def)],
              if def.NotCompiled? then 1 else 0;
          state == Enter(s, Stacked(s), Target(def), h.startpc, n + more, if h.na < 0 then h.na else h.na + more,
                         Slots(ClosureEnv(def), if h.pv < 0 then 0 else h.pv), s.top.pc + size)
    {
      hide StackAt, Slots, Adapt, Cells, CallMade;
      ghost var all := state.top.temps;
      TopPlace(stk[..], base, state);
      TopValue(stk[..], base, state);
      assert stk[cstkptr - 1] == all[|all| - 1];
      if !IsCount(stk[cstkptr - 1]) {
        return false;
      }
      FnCommon(world.Define(tos), tos, Apply, stk[cstkptr - 1] % 65536, size);
      done := true;
    }

    /** From the saved top of stack on. The surplus of arguments is numArgs - na, with or without the interpreter's. */
    method EnterCommon(fn: int, h: FnHead, n: int, na: int, env: Cell, size: int)
      requires Valid() && 0 <= n <= |Stacked(state)| && 0 <= fn < 0x1000_0000 && 0 <= pcmac - 1 - funcObj + size < 65536
      requires Room(10 + (if na > 0 then na else 0) + 2 * (if h.pv > 0 then h.pv else 0))
      modifies this, stk
      ensures Valid()
      ensures state == Enter(old(state), Stacked(old(state)), fn, h.startpc, n, na,
                             Slots(env, if h.pv < 0 then 0 else h.pv), old(state).top.pc + size)
    {
      hide StackAt, HeadAt, Cells, SameBelow, Adapt, CallerReady, Slots, Enter, Start, Repeat;
      ghost var m0, s, l := stk[..], state, Stacked(state);
      var next := cstkptr + 1 - n;
      TopPlace(m0, base, s);
      SaveCaller(stk, pvar, pcmac - 1 - funcObj + size, next);
      stk[cstkptr] := tos;
      ghost var m1 := stk[..];
      CallerSaved(m0, m1, base, s, next, s.top.pc + size);
      CellsSplit(m1, TempsOf(ivar, s.top), l, n);
      AdaptedSize(l[|l| - n..], na);
      var newPvar := LayCall(stk, cstkptr + 1, n, na, next, fn, pvar, l[|l| - n..]);
      ghost var m2 := stk[..];
      var sp := FillSlots(stk, newPvar, env, h.pv);
      ghost var pvars := Slots(env, if h.pv < 0 then 0 else h.pv);
      CallLaid(m0, m1, m2, stk[..], base, s, l, fn, h.startpc, n, na, pvars, s.top.pc + size);
      CallRegs(base, s, l, fn, h.startpc, n, na, pvars, s.top.pc + size, newPvar);
      state := Enter(s, l, fn, h.startpc, n, na, pvars, s.top.pc + size);
      StartCode(fn, h.startpc, next, newPvar, sp + 1);
    }

    /** OP_ENVCALL: the environment is on top, the code below it, the argument count below that. */
    method EnvCall(size: int) returns (done: bool)
      requires Valid() && |state.top.temps| >= 2
      requires var l, n := state.top.temps, |state.top.temps|;
        var count := world.Number(l[n - 2]);
        count.Value? ==> CanCall(count.value, l[n - 1], size) && count.value <= n - 2
      modifies this, stk
      ensures Valid() && done == world.Number(old(state).top.temps[|old(state).top.temps| - 2]).Value?
      ensures !done ==> state == old(state)
      ensures done ==>
          var s, l, n := old(state), old(state).top.temps, |old(state).top.temps|;
          var h, env := world.code[l[n - 1]], if s.tos == NIL then UNBOUND else s.tos;
          state == Enter(s, l[..n - 2], l[n - 1], h.startpc, world.Number(l[n - 2]).value, h.na, Slots(env, h.pv),
              s.top.pc + size) &&
          CallMade(s, state, l[..n - 2], l[n - 1], h.startpc, world.Number(l[n - 2]).value, h.na,
                if s.tos == 0 then 0xFFFF_FFFF else s.tos, if h.pv < 0 then 0 else 2 * h.pv + 2, s.top.pc + size)
    {
      hide StackAt, Slots, Adapt, World.Number, CallMade, Enter, Start;
      ghost var all := state.top.temps;
      TopCells(stk[..], base, state);
      TopPlace(stk[..], base, state);
      assert stk[cstkptr - 1] == all[|all| - 1] && stk[cstkptr - 2] == all[|all| - 2];
      var count := world.Number(stk[cstkptr - 2]);
      if count.NotANumber? {
        return false;
      }
      ghost var s, h := state, world.code[stk[cstkptr - 1]];
      EnterIs(s, s, all[..|all| - 2], stk[cstkptr - 1], h.startpc, count.value, h.na,
              if tos == NIL then UNBOUND else tos, h.pv, s.top.pc + size);
      EnterEnv(stk[cstkptr - 1], world.code[stk[cstkptr - 1]], count.value, tos, size);
      done := true;
    }

    /** From "CSTKPTRL -= 2" on. */
    method EnterEnv(fn: int, h: FnHead, numArgs: int, closureEnv: Cell, size: int)
      requires Valid() && |state.top.temps| >= 2 && 0 <= numArgs <= |state.top.temps| - 2
      requires 0 <= fn < 0x1000_0000 && 0 <= pcmac - 1 - funcObj + size < 65536 && Room(FrameRoom(h))
      modifies this, stk
      ensures Valid()
      ensures var s, l := old(state), old(state).top.temps;
        state == Enter(s, l[..|l| - 2], fn, h.startpc, numArgs, h.na,
                       Slots(if closureEnv == NIL then UNBOUND else closureEnv, h.pv), s.top.pc + size)
    {
      hide StackAt, HeadAt, Cells, SameBelow, Adapt, CallerReady, Slots, Enter, Start, Repeat;
      ghost var m0, s, l := stk[..], state, state.top.temps[..|state.top.temps| - 2];
      TopPlace(m0, base, s);
      var env := if closureEnv == NIL then UNBOUND else closureEnv;
      var sp := cstkptr - 2;
      var next := sp - numArgs;
      SaveCaller(stk, pvar, pcmac - 1 - funcObj + size, next);
      ghost var m1 := stk[..];
      CallerSavedOnly(m0, m1, base, s, l, next, s.top.pc + size);
      CellsSplit(m1, TempsOf(ivar, s.top), l, numArgs);
      AdaptedSize(l[|l| - numArgs..], h.na);
      var newPvar := LayCall(stk, sp, numArgs, h.na, next, fn, pvar, l[|l| - numArgs..]);
      ghost var m2 := stk[..];
      sp := newPvar;
      if h.pv >= 0 {
        sp := FillSlots(stk, newPvar, env, h.pv);
      } else {
        NoSlots(stk[..], newPvar, env, h.pv);
        SameBelowSelf(m2, newPvar);
      }
      CallLaid(m0, m1, m2, stk[..], base, s, l, fn, h.startpc, numArgs, h.na, Slots(env, h.pv), s.top.pc + size);
      CallRegs(base, s, l, fn, h.startpc, numArgs, h.na, Slots(env, h.pv), s.top.pc + size, newPvar);
      state := Enter(s, l, fn, h.startpc, numArgs, h.na, Slots(env, h.pv), s.top.pc + size);
      StartCode(fn, h.startpc, next, newPvar, sp + 1);
    }

    // ---- return ----

    /** OPRETURN, fast: the alink of a frame that a call has made is even. */
    method OpReturn()
      requires Valid() && state.callers != []
      modifies this
      ensures Valid() && state == Leave(old(state))
      ensures state.callers + [state.top] == old(state).callers && state.tos == old(state).tos
    {
      hide StackAt, FrameAt, Suspended, CallersAt;
      ghost var m, s := stk[..], state;
      ghost var n := |s.callers| - 1;
      ghost var c, below := s.callers[n], Start(base, s.callers[..n]);
      Left(m, base, s);
      TopPlace(m, base, s);
      SavedFields(m, below, c);
      var alink := stk[pvar - FX_CELLS] % 65536;
      LowWord(FX_MARK, 2 * PvarOf(below, c));
      assert alink % 2 == 0;
      cstkptr := ivar;
      pvar := alink / 2;
      var returnFX := pvar - FX_CELLS;
      LowWord(0x8000, 2 * below);
      ivar := stk[returnFX - 1] % 65536 / 2;
      funcObj := 2 * (stk[returnFX + 1] % 0x1000_0000);
      pcmac := stk[returnFX + 2] % 65536 + funcObj + 1;
      state := Leave(s);
    }

    /** MYARGCOUNT: of a frame with an even alink, as a call makes it, the number of its arguments; of a slow frame, the
        distance from IVAR to its blink. */
    method MyArgCount()
      requires Valid() && Room(1)
      modifies this, stk
      ensures Valid() && |old(state).top.args| < 65536 && 0 <= old(pvar) - FX_CELLS && old(pvar) <= stk.Length
      ensures old(stk[pvar - FX_CELLS]) % 2 == 0 ==>
          state == Frames.Push(old(state), Arith.S_POSITIVE + |old(state).top.args|)
      ensures old(stk[pvar - FX_CELLS]) % 2 == 1 ==>
          state == Frames.Push(old(state), Arith.S_POSITIVE + (old(stk[pvar - 1]) / 65536 / 2 - old(ivar)) % 65536)
      ensures old(state).callers != [] ==> old(stk[pvar - FX_CELLS]) % 2 == 0
    {
      hide CallersAt, FrameAt;
      TopPlace(stk[..], base, state);
      if state.callers != [] {
        LinkIsEven(stk[..], base, state);
      }
      var argNum := if stk[pvar - FX_CELLS] % 2 == 0 then pvar - FX_CELLS - 1 else stk[pvar - 1] / 65536 / 2;
      Push(Arith.S_POSITIVE + (argNum - ivar) % 65536);
    }

    // ---- bindings ----

    /** BIND, inline. */
    method Bind(byte1: int, byte2: int)
      requires Valid() && Room(2) && 0 <= byte1 < 256 && CanBind(state, byte1 / 16, byte1 % 16, byte2)
      modifies this, stk
      ensures Valid() && state == Frames.Bind(old(state), byte1 / 16, byte1 % 16, byte2)
      ensures BindMade(old(state), state, byte1 / 16, byte1 % 16, byte2)
      ensures pcmac == old(pcmac) && funcObj == old(funcObj)
    {
      hide StackAt, Cells, SlotsAre, Bound, SameBelow, BindMade;
      ghost var m, s, l := stk[..], state, Stacked(state);
      TopCells(m, base, s);
      assert l[..|l| - 1] == s.top.temps;
      ghost var m1;
      cstkptr, m1 := BindSlots(stk, pvar, cstkptr, tos, byte1 / 16, byte1 % 16, byte2, s.top.pvars,
                               TempsOf(ivar, s.top), l);
      tos := (65535 - (byte1 / 16 + byte1 % 16)) * 65536 + 2 * byte2;
      state := Frames.Bind(s, byte1 / 16, byte1 % 16, byte2);
      BindIs(s, byte1 / 16, byte1 % 16, byte2);
      CellsFit(stk[..], TempsOf(ivar, s.top), l[..|l| - byte1 % 16]);
      FrameRebound(m, m1, stk[..], base, s, state);
    }

    /** BIND by way of N_OP_bind, the new top read back from memory. */
    method BindByCall(byte1: int, byte2: int)
      requires Valid() && Room(2) && 0 <= byte1 < 256 && CanBind(state, byte1 / 16, byte1 % 16, byte2)
      modifies this, stk
      ensures Valid() && state == Frames.Bind(old(state), byte1 / 16, byte1 % 16, byte2)
      ensures BindMade(old(state), state, byte1 / 16, byte1 % 16, byte2)
    {
      hide StackAt, Cells, SlotsAre, Bound, SameBelow, BindMade;
      ghost var m, s, l := stk[..], state, Stacked(state);
      TopCells(m, base, s);
      assert l[..|l| - 1] == s.top.temps;
      ghost var m1;
      cstkptr, m1 := NOpBind(stk, pvar, cstkptr, tos, byte1 / 16, byte1 % 16, byte2, s.top.pvars, TempsOf(ivar, s.top),
                             l);
      tos := stk[cstkptr];
      state := Frames.Bind(s, byte1 / 16, byte1 % 16, byte2);
      BindIs(s, byte1 / 16, byte1 % 16, byte2);
      CellsFit(stk[..], TempsOf(ivar, s.top), l[..|l| - byte1 % 16]);
      FrameRebound(m, m1, stk[..], base, s, state);
    }

    /** UNBIND, inline. */
    method Unbind()
      requires Valid() && CanUnbind(state)
      modifies this, stk
      ensures Valid() && state == Frames.Unbind(old(state))
      ensures UnbindToMark(old(state), state)
      ensures pcmac == old(pcmac) && funcObj == old(funcObj)
    {
      hide StackAt, Cells, SlotsAre, Unbound, SameBelow, LastMark, UnbindToMark, DunbindToMark;
      ghost var m, s := stk[..], state;
      UnbindIs(s);
      TopCells(m, base, s);
      cstkptr := FindMark(stk, cstkptr, TempsOf(ivar, s.top), s.top.temps);
      var value := stk[cstkptr];
      ClearSlots(stk, pvar, 65535 - value / 65536, value % 65536 / 2, s.top.pvars);
      state := Frames.Unbind(s);
      MarkRestored(m, stk[..], base, s, LastMark(s.top.temps));
    }

    /** DUNBIND: a marker on top is enough; otherwise back to the last one. */
    method Dunbind()
      requires Valid() && CanDunbind(state)
      modifies this, stk
      ensures Valid() && state == Frames.Dunbind(old(state))
      ensures DunbindToMark(old(state), state)
      ensures pcmac == old(pcmac) && funcObj == old(funcObj)
    {
      hide StackAt, Cells, SlotsAre, Unbound, SameBelow, LastMark, UnbindToMark, DunbindToMark;
      DunbindIs(state);
      if tos >= 0x8000_0000 {
        ghost var m, s := stk[..], state;
        TopCells(m, base, s);
        var num := 65535 - tos / 65536;
        if num != 0 {
          ClearSlots(stk, pvar, num, tos % 65536 / 2, s.top.pvars);
        } else {
          NothingCleared(m, pvar, s.top.pvars, tos % 65536 / 2);
        }
        state := s.(top := Cleared(s.top, tos));
        MarkOnTop(m, stk[..], base, s, tos);
      } else {
        Unbind();
      }
      Pop();
    }

    /** UNBIND by way of N_OP_unbind; the top stays in its register. */
    method UnbindByCall()
      requires Valid() && CanUnbind(state)
      modifies this, stk
      ensures Valid() && state == Frames.Unbind(old(state))
      ensures UnbindToMark(old(state), state)
    {
      hide StackAt, Cells, SlotsAre, Unbound, SameBelow, LastMark, UnbindToMark, DunbindToMark;
      ghost var m, s := stk[..], state;
      UnbindIs(s);
      TopCells(m, base, s);
      cstkptr := NOpUnbind(stk, pvar, cstkptr, s.top.pvars, TempsOf(ivar, s.top), s.top.temps);
      state := Frames.Unbind(s);
      MarkRestored(m, stk[..], base, s, LastMark(s.top.temps));
    }

    /** DUNBIND by way of N_OP_dunbind, and the pop that follows it. */
    method DunbindByCall()
      requires Valid() && CanDunbind(state)
      modifies this, stk
      ensures Valid() && state == Frames.Dunbind(old(state))
      ensures DunbindToMark(old(state), state)
    {
      hide StackAt, Cells, SlotsAre, Unbound, SameBelow, LastMark, UnbindToMark, DunbindToMark;
      DunbindIs(state);
      ghost var m, s := stk[..], state;
      TopCells(m, base, s);
      cstkptr := NOpDunbind(stk, pvar, cstkptr, tos, s.top.pvars, TempsOf(ivar, s.top), s.top.temps);
      if Marked(s.tos) {
        state := s.(top := Cleared(s.top, s.tos));
        MarkOnTop(m, stk[..], base, s, s.tos);
      } else {
        state := Frames.Unbind(s);
        MarkRestored(m, stk[..], base, s, LastMark(s.top.temps));
      }
      Pop();
    }
  }
}
