/** What the control stack means: a list of frames, and what calls, returns and bindings do to it
    (inc/tosfns.h, inc/tosret.h, inc/inlineC.h, src/binds.c). */
module Frames {
  import opened Memory

  const NIL: Cell := 0
  const UNBOUND: Cell := 0xFFFF_FFFF

  /** The fields of a function header that a call reads. */
  datatype FnHead = FnHead(na: int, pv: int, startpc: int)

  /** A frame: its code, the offset in it where it goes on, its arguments, its variables, and its evaluation stack
      (without the value kept in a register). */
  datatype Frame = Frame(fn: int, pc: int, args: seq<Cell>, pvars: seq<Cell>, temps: seq<Cell>)

  /** The suspended callers, outermost first, the running frame, and the top of its evaluation stack. */
  datatype State = State(callers: seq<Frame>, top: Frame, tos: Cell)

  /** The whole evaluation stack of the running frame. */
  function Stacked(s: State): seq<Cell>
  {
    s.top.temps + [s.tos]
  }

  /** The state with this evaluation stack. */
  function WithStacked(s: State, l: seq<Cell>): State
    requires l != []
  {
    s.(top := s.top.(temps := l[..|l| - 1]), tos := l[|l| - 1])
  }

  function Repeat(v: Cell, n: int): (r: seq<Cell>)
    ensures |r| == if n > 0 then n else 0
    ensures forall k :: 0 <= k < |r| ==> r[k] == v
  {
    if n <= 0 then [] else seq(n, _ => v)
  }

  // ---- push and pop ----

  function Push(s: State, v: Cell): State
  {
    s.(top := s.top.(temps := s.top.temps + [s.tos]), tos := v)
  }

  function Pop(s: State): State
    requires s.top.temps != []
  {
    WithStacked(s, s.top.temps)
  }

  // ---- calls ----

  /** The arguments a callee of `na` sees: the surplus cut off, the rest NIL; all of them if `na` is negative. */
  function Adapt(args: seq<Cell>, na: int): seq<Cell>
  {
    if na < 0 then args
    else if na <= |args| then args[..na]
    else args + Repeat(NIL, na - |args|)
  }

  /** The variables of a new frame: an environment or nothing in the first slot, all others unbound. */
  function Slots(env: Cell, pv: int): seq<Cell>
  {
    if pv < 0 then [] else [env] + Repeat(UNBOUND, 2 * pv + 1)
  }

  /** A call from evaluation stack `l`: its top `n` values become arguments; the caller goes on at `pc`. */
  function Enter(s: State, l: seq<Cell>, fn: int, startpc: int, n: int, na: int, pvars: seq<Cell>, pc: int): State
    requires 0 <= n <= |l|
  {
    State(s.callers + [s.top.(pc := pc, temps := l[..|l| - n])], Frame(fn, startpc, Adapt(l[|l| - n..], na), pvars, []),
        s.tos)
  }

  /** A return: the caller goes on, with the result on top. */
  function Leave(s: State): State
    requires s.callers != []
  {
    var n := |s.callers| - 1;
    State(s.callers[..n], s.callers[n], s.tos)
  }

  // ---- bindings ----

  /** What BIND leaves on the stack: how many slots it bound, and the highest of them. */
  function Marker(num: int, slot: int): Cell
    requires 0 <= num < 31 && 0 <= slot < 256
  {
    (65535 - num) * 65536 + 2 * slot
  }

  predicate Marked(c: Cell)
  {
    c >= 0x8000_0000
  }

  function MarkedNum(c: Cell): int
  {
    65535 - c / 65536
  }

  function MarkedSlot(c: Cell): int
  {
    c % 65536 / 2
  }

  lemma MarkerFields(num: int, slot: int)
    requires 0 <= num < 31 && 0 <= slot < 256
    ensures Marked(Marker(num, slot)) && MarkedNum(Marker(num, slot)) == num && MarkedSlot(Marker(num, slot)) == slot
    ensures Marker(num, slot) % 2 == 0
  {
    HalvesOf(Marker(num, slot), 65535 - num, 2 * slot);
  }

  lemma HalvesOf(c: int, hi: int, lo: int)
    requires c == 65536 * hi + lo && 0 <= lo < 65536
    ensures c / 65536 == hi && c % 65536 == lo
  {
  }

  /** The `num` slots from `slot` downwards, unbound. */
  function Unbound(pvars: seq<Cell>, num: int, slot: int): (r: seq<Cell>)
    ensures |r| == |pvars|
  {
    seq(|pvars|, k requires 0 <= k < |pvars| => if slot - num < k <= slot then UNBOUND else pvars[k])
  }

  /** The slots from `slot` downwards: `n1` of them NIL, then the values `l` from the last to the first. */
  function Bound(pvars: seq<Cell>, n1: int, slot: int, l: seq<Cell>): (r: seq<Cell>)
    ensures |r| == |pvars|
  {
    seq(|pvars|, k requires 0 <= k < |pvars| =>
      if slot - n1 < k <= slot then NIL
      else if slot - n1 - |l| < k <= slot - n1 then l[|l| - 1 - (slot - n1 - k)]
      else pvars[k])
  }

  predicate CanBind(s: State, n1: int, n2: int, slot: int)
  {
    0 <= n1 < 16 && 0 <= n2 < 16 && n2 <= |Stacked(s)| && n1 + n2 - 1 <= slot < |s.top.pvars| && 0 <= slot < 256
  }

  function Bind(s: State, n1: int, n2: int, slot: int): State
    requires CanBind(s, n1, n2, slot)
  {
    var l := Stacked(s);
    var keep := |l| - n2;
    State(s.callers, s.top.(temps := l[..keep], pvars := Bound(s.top.pvars, n1, slot, l[keep..])),
        Marker(n1 + n2, slot))
  }

  /** The highest marker on the stack, -1 if there is none. */
  function LastMark(l: seq<Cell>): (k: int)
    ensures -1 <= k < |l|
    ensures k >= 0 ==> Marked(l[k])
    ensures forall j :: k < j < |l| ==> !Marked(l[j])
  {
    if l == [] then -1 else if Marked(l[|l| - 1]) then |l| - 1 else LastMark(l[..|l| - 1])
  }

  /** The slots a marker names are there. */
  predicate MarkFits(pvars: seq<Cell>, c: Cell)
  {
    Marked(c) && c % 2 == 0 && MarkedNum(c) - 1 <= MarkedSlot(c) < |pvars|
  }

  function Cleared(f: Frame, c: Cell): Frame
  {
    f.(pvars := Unbound(f.pvars, MarkedNum(c), MarkedSlot(c)))
  }

  predicate CanUnbind(s: State)
  {
    LastMark(s.top.temps) >= 0 && MarkFits(s.top.pvars, s.top.temps[LastMark(s.top.temps)])
  }

  /** UNBIND drops the values from the last marker below the top, and unbinds its slots; the top stays. */
  function Unbind(s: State): State
    requires CanUnbind(s)
  {
    var k := LastMark(s.top.temps);
    s.(top := Cleared(s.top, s.top.temps[k]).(temps := s.top.temps[..k]))
  }

  predicate CanDunbind(s: State)
  {
    if Marked(s.tos) then MarkFits(s.top.pvars, s.tos) && s.top.temps != []
    else CanUnbind(s) && LastMark(s.top.temps) > 0
  }

  /** DUNBIND drops the last marker and everything above it, the top too. */
  function Dunbind(s: State): State
    requires CanDunbind(s)
  {
    if Marked(s.tos) then Pop(s.(top := Cleared(s.top, s.tos)))
    else Pop(Unbind(s))
  }

  // ---- the same, place by place ----

  /** A call from evaluation stack `l`: the top `n` values of it are the arguments, in their order, cut off at `na` or
      filled up with NIL if `na` is not negative; of `vars` variables the first is `env` and the others are unbound. */
  ghost predicate CallMade(s: State, s': State, l: seq<Cell>, fn: int, startpc: int, n: int, na: int, env: Cell,
                           vars: int, pc: int)
  {
    && 0 <= n <= |l|
    && s'.callers == s.callers + [Frame(s.top.fn, pc, s.top.args, s.top.pvars, l[..|l| - n])]
    && s'.top.fn == fn && s'.top.pc == startpc && s'.top.temps == []
    && |s'.top.args| == (if na < 0 then n else na)
    && (forall k :: 0 <= k < |s'.top.args| ==> s'.top.args[k] == if k < n then l[|l| - n + k] else 0)
    && |s'.top.pvars| == vars
    && (forall k :: 0 <= k < vars ==> s'.top.pvars[k] == if k == 0 then env else 0xFFFF_FFFF)
  }

  lemma EnterIs(s0: State, s: State, l: seq<Cell>, fn: int, startpc: int, n: int, na: int, env: Cell, pv: int, pc: int)
    requires 0 <= n <= |l|
    requires s.callers == s0.callers && s.top.fn == s0.top.fn && s.top.args == s0.top.args
    requires s.top.pvars == s0.top.pvars
    ensures CallMade(s0, Enter(s, l, fn, startpc, n, na, Slots(env, pv), pc), l, fn, startpc, n, na, env,
                  if pv < 0 then 0 else 2 * pv + 2, pc)
    ensures Enter(s, l, fn, startpc, n, na, Slots(env, pv), pc).tos == s.tos
  {
  }

  /** BIND: the slots from `slot` down become NIL, `n1` of them, and then, `n2` of them, the values from the top of the
      stack down; all others stay. The values go, and a marker that names the slots is the new top. */
  ghost predicate BindMade(s: State, s': State, n1: int, n2: int, slot: int)
  {
    var l := s.top.temps + [s.tos];
    && 0 <= n2 <= |l| && 0 <= n1 && n1 + n2 - 1 <= slot < |s.top.pvars| == |s'.top.pvars|
    && s'.callers == s.callers && s'.top.(pvars := [], temps := []) == s.top.(pvars := [], temps := [])
    && (forall k :: slot - n1 < k <= slot ==> s'.top.pvars[k] == 0)
    && (forall k :: slot - n1 - n2 < k <= slot - n1 ==> s'.top.pvars[k] == l[|l| - 1 - (slot - n1 - k)])
    && (forall k :: 0 <= k < |s.top.pvars| && !(slot - n1 - n2 < k <= slot) ==> s'.top.pvars[k] == s.top.pvars[k])
    && s'.top.temps == l[..|l| - n2] && s'.tos == (65535 - n1 - n2) * 65536 + 2 * slot
  }

  lemma BindIs(s: State, n1: int, n2: int, slot: int)
    requires CanBind(s, n1, n2, slot)
    ensures BindMade(s, Bind(s, n1, n2, slot), n1, n2, slot)
  {
    hide Bound;
    BoundAt(s.top.pvars, n1, n2, slot, Stacked(s));
  }

  lemma BoundAt(pvars: seq<Cell>, n1: int, n2: int, slot: int, l: seq<Cell>)
    requires 0 <= n1 && 0 <= n2 <= |l| && n1 + n2 - 1 <= slot < |pvars|
    ensures var r := Bound(pvars, n1, slot, l[|l| - n2..]);
      && (forall k :: slot - n1 < k <= slot ==> r[k] == NIL)
      && (forall k :: slot - n1 - n2 < k <= slot - n1 ==> r[k] == l[|l| - 1 - (slot - n1 - k)])
      && (forall k :: 0 <= k < |pvars| && !(slot - n1 - n2 < k <= slot) ==> r[k] == pvars[k])
  {
    var t := l[|l| - n2..];
    forall k | slot - n1 - n2 < k <= slot - n1
      ensures Bound(pvars, n1, slot, t)[k] == l[|l| - 1 - (slot - n1 - k)]
    {
      var j := n2 - 1 - (slot - n1 - k);
      assert t[j] == l[|l| - n2 + j];
    }
  }

  /** Exactly the slots that `mark` names are unbound, and the evaluation stack is `l`. */
  ghost predicate UnbindMade(s: State, s': State, mark: Cell, l: seq<Cell>)
  {
    var num, slot := 65535 - mark / 65536, mark % 65536 / 2;
    && s'.callers == s.callers && s'.top.(pvars := [], temps := []) == s.top.(pvars := [], temps := [])
    && |s'.top.pvars| == |s.top.pvars| && s'.top.temps + [s'.tos] == l
    && (forall k :: 0 <= k < |s.top.pvars| ==>
          s'.top.pvars[k] == if slot - num < k <= slot then 0xFFFF_FFFF else s.top.pvars[k])
  }

  /** Place `k` holds the last value of `l` with its top bit set. */
  predicate LastSet(l: seq<Cell>, k: int)
  {
    0 <= k < |l| && l[k] >= 0x8000_0000 && forall j :: k < j < |l| ==> l[j] < 0x8000_0000
  }

  /** UNBIND: back to the last marker below the top, which stays. */
  ghost predicate UnbindToMark(s: State, s': State)
  {
    exists k :: LastSet(s.top.temps, k) && UnbindMade(s, s', s.top.temps[k], s.top.temps[..k] + [s.tos])
  }

  /** DUNBIND: the marker on top, or else the last one below it, goes with all above it. */
  ghost predicate DunbindToMark(s: State, s': State)
  {
    if s.tos >= 0x8000_0000 then UnbindMade(s, s', s.tos, s.top.temps)
    else exists k :: LastSet(s.top.temps, k) && UnbindMade(s, s', s.top.temps[k], s.top.temps[..k])
  }

  lemma UnbindIs(s: State)
    requires CanUnbind(s)
    ensures UnbindToMark(s, Unbind(s))
  {
    var k := LastMark(s.top.temps);
    assert LastSet(s.top.temps, k) && UnbindMade(s, Unbind(s), s.top.temps[k], s.top.temps[..k] + [s.tos]);
  }

  lemma DunbindIs(s: State)
    requires CanDunbind(s)
    ensures DunbindToMark(s, Dunbind(s))
  {
    if !Marked(s.tos) {
      var k := LastMark(s.top.temps);
      assert LastSet(s.top.temps, k) && UnbindMade(s, Dunbind(s), s.top.temps[k], s.top.temps[..k]);
    }
  }
}
