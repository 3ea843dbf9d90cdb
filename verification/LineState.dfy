/** The line state of the transfer engine (inc/bb.h): addresses, bits, masks, counts and shifts. */
module LineState {
  import opened Words
  import opened BitSpec
  import opened LineWords

  // ---- line state ----

  /** Destination side: first word, first and last bit, masks, and the number of whole words between. */
  datatype DstState = DstState(addr: int, lbit: int, rbit: int, preloopMask: Word, postloopMask: Word, sdwMask: Word,
      numL: int)

  /** Source side: first word, first and last bit, and the shifts that line it up with the destination. */
  datatype SrcState = SrcState(addr: int, lbit: int, rbit: int, lshift: int, rshift: int, rmask: Word)

  /** Words from destination to source, and bits beyond whole words. */
  function WordSkew(tr: Transfer): int { (tr.s - tr.d) / 32 }

  function BitSkew(tr: Transfer): int { (tr.s - tr.d) % 32 }

  /** Going up: everything follows from the first word and bit. */
  function ForwardDstAt(addr: int, lbit: int, w: int): DstState
    requires 0 <= lbit < 32
  {
    var rbit := (lbit + w - 1) % 32;
    var preloopMask, postloopMask := FromMask(lbit), UpToMask(rbit);
    DstState(addr, lbit, rbit, preloopMask, postloopMask, And(preloopMask, postloopMask), (lbit + w) / 32 - 1)
  }

  function ForwardSrcAt(addr: int, lbit: int, dstLbit: int, w: int): SrcState
  {
    var lshift := (lbit - dstLbit) % 32;
    SrcState(addr, lbit, (lbit + w - 1) % 32, lshift, (dstLbit - lbit) % 32, LowMask(lshift, ONES))
  }

  /** The forward line state for a line at bit address `d`. */
  function ForwardDst(d: int, w: int): DstState
  {
    ForwardDstAt(d / 32, d % 32, w)
  }

  function ForwardSrc(s: int, dstLbit: int, w: int): SrcState
  {
    ForwardSrcAt(s / 32, s % 32, dstLbit, w)
  }

  lemma Rounding(a: int, b: int)
    ensures (a % 32 + b) % 32 == (a + b) % 32
    ensures a / 32 + (a % 32 + b) / 32 == (a + b) / 32
  {
  }

  lemma ForwardFields(d: int, s: int, w: int)
    ensures var ds := ForwardDst(d, w);
      && ds.addr == d / 32 && ds.lbit == d % 32 && ds.rbit == (d + w - 1) % 32
    ensures var ss := ForwardSrc(s, ForwardDst(d, w).lbit, w);
      && ss.addr == s / 32 && ss.lbit == s % 32 && ss.rbit == (s + w - 1) % 32
      && ss.lshift == (s % 32 - d % 32) % 32 && ss.rshift == (d % 32 - s % 32) % 32
      && ss.rmask == LowMask((s % 32 - d % 32) % 32, ONES)
  {
    hide FromMask, UpToMask, LowMask, And;
    Rounding(d, w - 1);
    Rounding(s, w - 1);
  }

  /** How source and destination words lie against each other, in linear terms. */
  lemma ForwardGeometry(tr: Transfer)
    requires 1 <= tr.w
    ensures var ds, ss := ForwardDst(tr.d, tr.w), ForwardSrc(tr.s, ForwardDst(tr.d, tr.w).lbit, tr.w);
      && 0 <= ds.lbit < 32 && 0 <= ds.rbit < 32 && tr.d == 32 * ds.addr + ds.lbit
      && 0 <= ss.lbit < 32 && 0 <= ss.rbit < 32 && tr.s == 32 * ss.addr + ss.lbit
      && Offset(tr, WordSkew(tr), BitSkew(tr))
      && ss.lshift == BitSkew(tr) && ss.rshift == (if BitSkew(tr) == 0 then 0 else 32 - BitSkew(tr))
      && ss.rmask == LowMask(BitSkew(tr), ONES)
      && (ss.rbit == ds.rbit + BitSkew(tr) || ss.rbit == ds.rbit + BitSkew(tr) - 32)
      && (ss.lbit > ds.lbit ==> BitSkew(tr) == ss.lbit - ds.lbit && ss.addr == ds.addr + WordSkew(tr))
      && (ss.lbit == ds.lbit <==> BitSkew(tr) == 0)
      && (ss.lbit == ds.lbit ==> ss.addr == ds.addr + WordSkew(tr))
      && (ss.lbit < ds.lbit ==> BitSkew(tr) == ss.lbit - ds.lbit + 32 && ss.addr == ds.addr + WordSkew(tr) + 1)
  {
    hide ForwardDst, ForwardSrc, LowMask, WordSkew, BitSkew;
    ForwardFields(tr.d, tr.s, tr.w);
    Skews(tr, 0);
    Skews(tr, tr.w - 1);
    SkewShifts(tr);
  }

  /** The bit `k` places into the line: where it lies in its word on either side. */
  lemma Skews(tr: Transfer, k: int)
    ensures Offset(tr, WordSkew(tr), BitSkew(tr))
    ensures var dw, db, sw, sb := (tr.d + k) / 32, (tr.d + k) % 32, (tr.s + k) / 32, (tr.s + k) % 32;
      && (sb == db + BitSkew(tr) || sb == db + BitSkew(tr) - 32)
      && sw == dw + WordSkew(tr) + (if db + BitSkew(tr) < 32 then 0 else 1)
  {
  }

  lemma SkewShifts(tr: Transfer)
    ensures (tr.s % 32 - tr.d % 32) % 32 == BitSkew(tr)
    ensures (tr.d % 32 - tr.s % 32) % 32 == if BitSkew(tr) == 0 then 0 else 32 - BitSkew(tr)
  {
  }

  /** What the forward masks select, and where the last word lies. */
  lemma ForwardMasks(tr: Transfer)
    requires 1 <= tr.w
    ensures var ds, end := ForwardDst(tr.d, tr.w), tr.d + tr.w;
      && Selects(ds.preloopMask, ds.lbit, 31)
      && Selects(ds.postloopMask, 0, ds.rbit)
      && Selects(ds.sdwMask, ds.lbit, ds.rbit)
      && (ds.lbit + tr.w <= 32 ==> ds.rbit == ds.lbit + tr.w - 1)
      && (ds.lbit + tr.w > 32 ==> 0 <= ds.numL)
      && (ds.rbit == 31 ==> end == 32 * (ds.addr + 1 + ds.numL))
      && (ds.rbit != 31 ==> end == 32 * (ds.addr + 1 + ds.numL) + ds.rbit + 1)
  {
    hide Bit, FromMask, UpToMask, And;
    Rounding(tr.d, tr.w - 1);
    FromMaskBits(tr.d % 32);
    UpToMaskBits((tr.d + tr.w - 1) % 32);
    AndBits(FromMask(tr.d % 32), UpToMask((tr.d + tr.w - 1) % 32));
  }

  /** Going down: everything follows from the last word and bit. */
  function BackwardDstAt(addr: int, rbit: int, w: int): DstState
    requires 0 <= rbit < 32
  {
    var lbit := (rbit - w + 1) % 32;
    var preloopMask, postloopMask := UpToMask(rbit), FromMask(lbit);
    DstState(addr, lbit, rbit, preloopMask, postloopMask, And(preloopMask, postloopMask),
             if w - rbit - 1 > 0 then (w - rbit - 1) / 32 else 0)
  }

  function BackwardSrcAt(addr: int, rbit: int, dstLbit: int, w: int): SrcState
  {
    var lbit := (rbit - w + 1) % 32;
    var lshift := (lbit - dstLbit) % 32;
    SrcState(addr, lbit, rbit, lshift, (dstLbit - lbit) % 32, LowMask(lshift, NONE))
  }

  /** The backward line state for a line whose first bit is at bit address `d`. */
  function BackwardDst(d: int, w: int): DstState
  {
    BackwardDstAt((d + w - 1) / 32, (d + w - 1) % 32, w)
  }

  function BackwardSrc(s: int, dstLbit: int, w: int): SrcState
  {
    BackwardSrcAt((s + w - 1) / 32, (s + w - 1) % 32, dstLbit, w)
  }

  lemma LeftBit(d: int, w: int)
    ensures ((d + w - 1) % 32 - w + 1) % 32 == d % 32
  {
  }

  lemma BackwardFields(d: int, s: int, w: int)
    ensures var ds := BackwardDst(d, w);
      && ds.addr == (d + w - 1) / 32 && ds.lbit == d % 32 && ds.rbit == (d + w - 1) % 32
    ensures var ss := BackwardSrc(s, BackwardDst(d, w).lbit, w);
      && ss.addr == (s + w - 1) / 32 && ss.lbit == s % 32 && ss.rbit == (s + w - 1) % 32
      && ss.lshift == (s % 32 - d % 32) % 32 && ss.rshift == (d % 32 - s % 32) % 32
      && ss.rmask == LowMask((s % 32 - d % 32) % 32, NONE)
  {
    hide FromMask, UpToMask, LowMask, And;
    LeftBit(d, w);
    LeftBit(s, w);
  }

  lemma BackwardGeometry(tr: Transfer)
    requires 1 <= tr.w
    ensures var ds, ss := BackwardDst(tr.d, tr.w), BackwardSrc(tr.s, BackwardDst(tr.d, tr.w).lbit, tr.w);
      && 0 <= ds.lbit < 32 && 0 <= ds.rbit < 32 && tr.d + tr.w - 1 == 32 * ds.addr + ds.rbit
      && 0 <= ss.lbit < 32 && 0 <= ss.rbit < 32 && tr.s + tr.w - 1 == 32 * ss.addr + ss.rbit
      && Offset(tr, WordSkew(tr), BitSkew(tr))
      && ss.lshift == BitSkew(tr) && ss.rshift == (if BitSkew(tr) == 0 then 0 else 32 - BitSkew(tr))
      && ss.rmask == LowMask(BitSkew(tr), NONE)
      && (ss.lbit == ds.lbit + BitSkew(tr) || ss.lbit == ds.lbit + BitSkew(tr) - 32)
      && (ss.rbit >= ds.rbit ==> BitSkew(tr) == ss.rbit - ds.rbit && ss.addr == ds.addr + WordSkew(tr))
      && (ss.lbit == ds.lbit <==> BitSkew(tr) == 0)
      && (ss.rbit < ds.rbit ==> BitSkew(tr) == ss.rbit - ds.rbit + 32 && ss.addr == ds.addr + WordSkew(tr) + 1)
  {
    hide BackwardDst, BackwardSrc, LowMask, WordSkew, BitSkew;
    BackwardFields(tr.d, tr.s, tr.w);
    Skews(tr, 0);
    Skews(tr, tr.w - 1);
    SkewShifts(tr);
  }

  /** What the backward masks select, and where the first word lies. */
  lemma BackwardMasks(tr: Transfer)
    requires 1 <= tr.w
    ensures var ds := BackwardDst(tr.d, tr.w);
      && Selects(ds.preloopMask, 0, ds.rbit)
      && Selects(ds.postloopMask, ds.lbit, 31)
      && Selects(ds.sdwMask, ds.lbit, ds.rbit)
      && (ds.lbit + tr.w <= 32 ==> ds.rbit == ds.lbit + tr.w - 1)
      && (ds.lbit + tr.w > 32 ==> 0 <= ds.numL && ds.rbit + 1 < tr.w)
      && (ds.lbit + tr.w > 32 && ds.lbit == 0 ==> tr.d == 32 * (ds.addr - ds.numL))
      && (ds.lbit + tr.w > 32 && ds.lbit != 0 ==> tr.d == 32 * (ds.addr - ds.numL - 1) + ds.lbit)
  {
    hide Bit, FromMask, UpToMask, And;
    LeftBit(tr.d, tr.w);
    FromMaskBits(tr.d % 32);
    UpToMaskBits((tr.d + tr.w - 1) % 32);
    AndBits(UpToMask((tr.d + tr.w - 1) % 32), FromMask(tr.d % 32));
  }
}
