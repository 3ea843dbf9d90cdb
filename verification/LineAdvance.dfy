/** Starting a transfer, and moving the line state from one line to the next (inc/bb.h). */
module LineAdvance {
  import opened Words
  import opened LineState

  // ---- *_init ----

  /** x32byta: the byte that holds bit `x` of a map whose first byte is `base`. */
  function ByteAddress(base: int, x: int): int
  {
    if x < 0 then base - (7 - x) / 8 else base + x / 8
  }

  /** The bit within its 32-bit word, from the byte's place and the bit's place in the byte. */
  function BitInWord(byta: int, x: int): (bit: int)
    ensures 0 <= bit < 32
  {
    8 * (byta % 4) + x % 8
  }

  function ForwardDstInit(dstbase: int, dx: int, w: int): DstState
  {
    var x32byta := ByteAddress(dstbase, dx);
    ForwardDstAt((x32byta - x32byta % 4) / 4, BitInWord(x32byta, dx), w)
  }

  function ForwardSrcInit(srcbase: int, sx: int, w: int, ds: DstState): SrcState
  {
    var x32byta := ByteAddress(srcbase, sx);
    ForwardSrcAt((x32byta - x32byta % 4) / 4, BitInWord(x32byta, sx), ds.lbit, w)
  }

  function BackwardDstInit(dstbase: int, dx: int, w: int): DstState
  {
    var abc := dx + w - 1;
    var x32byta := ByteAddress(dstbase, abc);
    BackwardDstAt((x32byta - x32byta % 4) / 4, BitInWord(x32byta, abc), w)
  }

  function BackwardSrcInit(srcbase: int, sx: int, w: int, ds: DstState): SrcState
  {
    var abc := sx + w - 1;
    var x32byta := ByteAddress(srcbase, abc);
    BackwardSrcAt((x32byta - x32byta % 4) / 4, BitInWord(x32byta, abc), ds.lbit, w)
  }

  lemma ByteAddressBits(base: int, x: int)
    ensures var byta := ByteAddress(base, x);
      && (byta - byta % 4) / 4 == (8 * base + x) / 32
      && BitInWord(byta, x) == (8 * base + x) % 32
  {
    assert ByteAddress(base, x) == base + x / 8;
    var bits := 8 * base + x;
    assert bits == 8 * (base + x / 8) + x % 8;
  }

  /** Initialising gives the line state of the addressed bits, for any base and any (even negative) offset. */
  lemma InitIsFresh(srcbase: int, dstbase: int, sx: int, dx: int, w: int)
    ensures ForwardDstInit(dstbase, dx, w) == ForwardDst(8 * dstbase + dx, w)
    ensures ForwardSrcInit(srcbase, sx, w, ForwardDstInit(dstbase, dx, w))
         == ForwardSrc(8 * srcbase + sx, ForwardDst(8 * dstbase + dx, w).lbit, w)
    ensures BackwardDstInit(dstbase, dx, w) == BackwardDst(8 * dstbase + dx, w)
    ensures BackwardSrcInit(srcbase, sx, w, BackwardDstInit(dstbase, dx, w))
         == BackwardSrc(8 * srcbase + sx, BackwardDst(8 * dstbase + dx, w).lbit, w)
  {
    hide ByteAddress, BitInWord, ForwardDstAt, ForwardSrcAt, BackwardDstAt, BackwardSrcAt;
    ByteAddressBits(dstbase, dx);
    ByteAddressBits(srcbase, sx);
    ByteAddressBits(dstbase, dx + w - 1);
    ByteAddressBits(srcbase, sx + w - 1);
  }

  // ---- *_advance ----

  function ForwardDstAdvance(ds: DstState, w: int, dstbpl: int, fast: bool): DstState
  {
    if fast then ds.(addr := ds.addr + dstbpl / 32)
    else ForwardDstAt(ds.addr + (ds.lbit + dstbpl) / 32, (ds.lbit + dstbpl) % 32, w)
  }

  function ForwardSrcAdvance(ss: SrcState, ds: DstState, w: int, srcbpl: int, fast: bool): SrcState
  {
    if fast then ss.(addr := ss.addr + srcbpl / 32)
    else ForwardSrcAt(ss.addr + (ss.lbit + srcbpl) / 32, (ss.lbit + srcbpl) % 32, ds.lbit, w)
  }

  function BackwardSrcAdvance(ss: SrcState, ds: DstState, w: int, srcbpl: int, fast: bool): SrcState
  {
    if fast then ss.(addr := ss.addr + srcbpl / 32)
    else
      var rbit := ss.rbit + srcbpl;
      var addr := if rbit < 0 then ss.addr - (31 - rbit) / 32 else ss.addr + rbit / 32;
      BackwardSrcAt(addr, rbit % 32, ds.lbit, w)
  }

  /** The source adds `dst32lbit >> 5` here where the other three advances use the bit position that moved. */
  function BackwardDstAdvance(ds: DstState, w: int, dstbpl: int, fast: bool): DstState
  {
    if fast then ds.(addr := ds.addr + dstbpl / 32)
    else
      var rbit := ds.rbit + dstbpl;
      var addr := if rbit < 0 then ds.addr - (31 - rbit) / 32 else ds.addr + ds.lbit / 32;
      BackwardDstAt(addr, rbit % 32, w)
  }

  /** bb_fast may be set only for strides of whole words. */
  predicate Fast(srcbpl: int, dstbpl: int)
  {
    srcbpl % 32 == 0 && dstbpl % 32 == 0
  }

  /** Going up, advancing is the same as starting afresh one stride on: for every stride, fast or not. */
  lemma ForwardAdvanceIsFresh(d: int, s: int, w: int, dstbpl: int, srcbpl: int, fast: bool)
    requires fast ==> Fast(srcbpl, dstbpl)
    ensures var ds := ForwardDst(d, w);
      var ds1 := ForwardDstAdvance(ds, w, dstbpl, fast);
      && ds1 == ForwardDst(d + dstbpl, w)
      && ForwardSrcAdvance(ForwardSrc(s, ds.lbit, w), ds1, w, srcbpl, fast) == ForwardSrc(s + srcbpl, ds1.lbit, w)
  {
    hide FromMask, UpToMask, LowMask, And;
    Rounding(d, dstbpl);
    Rounding(s, srcbpl);
  }

  lemma RoundingDown(a: int)
    requires a < 0
    ensures (31 - a) / 32 == -(a / 32)
  {
  }

  /** Going down, advancing the source is the same as starting afresh, for every stride. */
  lemma BackwardSrcAdvanceIsFresh(s: int, w: int, lbit0: int, ds1: DstState, srcbpl: int, fast: bool)
    requires fast ==> srcbpl % 32 == 0 && ds1.lbit == lbit0
    ensures BackwardSrcAdvance(BackwardSrc(s, lbit0, w), ds1, w, srcbpl, fast) == BackwardSrc(s + srcbpl, ds1.lbit, w)
  {
    hide BackwardSrcAt;
    var addr, rbit := (s + w - 1) / 32, (s + w - 1) % 32;
    assert (s + srcbpl) + w - 1 == (s + w - 1) + srcbpl;
    BackwardSrcFields(addr, rbit, lbit0, w);
    if fast {
      WholeWords(s + w - 1, srcbpl);
      BackwardSrcFast(addr, rbit, lbit0, w, addr + srcbpl / 32);
    } else {
      Rounding(s + w - 1, srcbpl);
      if rbit + srcbpl < 0 {
        RoundingDown(rbit + srcbpl);
      }
    }
  }

  lemma BackwardSrcFields(addr: int, rbit: int, lbit: int, w: int)
    ensures BackwardSrcAt(addr, rbit, lbit, w).addr == addr && BackwardSrcAt(addr, rbit, lbit, w).rbit == rbit
  {
    hide LowMask;
  }

  lemma BackwardSrcFast(addr: int, rbit: int, lbit: int, w: int, addr1: int)
    ensures BackwardSrcAt(addr, rbit, lbit, w).(addr := addr1) == BackwardSrcAt(addr1, rbit, lbit, w)
  {
    hide LowMask;
  }

  /** Going down, advancing the destination is right exactly when the stride is fast
      or does not carry the right end into a later word: in particular for every stride <= 0. */
  lemma BackwardDstAdvanceIsFresh(d: int, w: int, dstbpl: int, fast: bool)
    requires fast ==> dstbpl % 32 == 0
    ensures BackwardDstAdvance(BackwardDst(d, w), w, dstbpl, fast) == BackwardDst(d + dstbpl, w)
       <==> fast || BackwardDst(d, w).rbit + dstbpl < 32
  {
    hide BackwardDstAt;
    var addr, rbit := (d + w - 1) / 32, (d + w - 1) % 32;
    BackwardDstFields(addr, rbit, w);
    if fast {
      WholeWords(d + w - 1, dstbpl);
      BackwardDstFast(addr, rbit, w, addr + dstbpl / 32);
    } else {
      var moved := rbit + dstbpl;
      Rounding(d + w - 1, dstbpl);
      BackwardDstFields((d + w - 1 + dstbpl) / 32, (d + w - 1 + dstbpl) % 32, w);
      BackwardDstFields(addr, moved % 32, w);
      if moved < 0 {
        RoundingDown(moved);
      }
      BackwardLbit(rbit, w);
    }
  }

  lemma BackwardDstFields(addr: int, rbit: int, w: int)
    requires 0 <= rbit < 32
    ensures BackwardDstAt(addr, rbit, w).addr == addr && BackwardDstAt(addr, rbit, w).rbit == rbit
  {
    hide FromMask, UpToMask, And;
  }

  lemma BackwardDstFast(addr: int, rbit: int, w: int, addr1: int)
    requires 0 <= rbit < 32
    ensures BackwardDstAt(addr, rbit, w).(addr := addr1) == BackwardDstAt(addr1, rbit, w)
  {
    hide FromMask, UpToMask, And;
  }

  lemma BackwardLbit(rbit: int, w: int)
    requires 0 <= rbit < 32
    ensures forall addr :: BackwardDstAt(addr, rbit, w).lbit / 32 == 0
  {
    hide FromMask, UpToMask, And;
  }

  lemma WholeWords(a: int, bpl: int)
    requires bpl % 32 == 0
    ensures (a + bpl) / 32 == a / 32 + bpl / 32 && (a + bpl) % 32 == a % 32
  {
  }

  /** One stride where it is not: a 16-bit line at bit 16 of word 2 moves to word 4, but the state stays on word 2. */
  lemma BackwardDstAdvanceSlips()
    ensures BackwardDstAdvance(BackwardDst(80, 16), 16, 48, false).addr == 2
    ensures BackwardDst(80 + 48, 16).addr == 4
  {
    hide FromMask, UpToMask, And;
  }
}
