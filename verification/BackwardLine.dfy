/** One line of a transfer, going down through memory. */
module BackwardLine {
  import opened Words
  import opened BitSpec
  import opened LineWords
  import opened LineState

  // ---- words in flight, going down ----

  /** Ready for destination word `t`: the source address to read next, and what was saved of the last word. */
  ghost predicate Descending(src32addr: int, savedS: Word, m0: seq<Word>, tr: Transfer, t: int)
    requires tr.Reads(32 * |m0|)
  {
    && src32addr == t + WordSkew(tr)
    && if BitSkew(tr) == 0 then Blank(savedS) else Back(savedS, m0, tr, t, BitSkew(tr), tr.d, 32 * t + 32)
  }

  /** B_two_preloop_src reads a word below the source: the source lies in one word, ends further left in it than the
      destination in its last word, and begins right enough. */
  predicate Strays(d: int, s: int, w: int)
  {
    s % 32 + w <= 32 && (s + w - 1) % 32 < (d + w - 1) % 32 && s % 32 + w > d % 32 + 1
  }

  /** A memory word lies below the source, if the setup is going to read it. */
  ghost predicate Guarded(tr: Transfer)
  {
    Strays(tr.d, tr.s, tr.w) ==> 32 <= tr.s
  }

  /** The setup reads below the source exactly when it strays. */
  lemma StraysBelow(d: int, s: int, w: int)
    requires 0 <= d && 0 <= s && 1 <= w
    ensures var ds := BackwardDst(d, w);
      var ss := BackwardSrc(s, ds.lbit, w);
      ss.rbit < ds.rbit && ss.lbit + w > ds.lbit + 1 && ss.addr - 1 < s / 32 <==> Strays(d, s, w)
  {
    hide BackwardDst, BackwardSrc;
    BackwardFields(d, s, w);
  }

  /** So the guard word is needed: three bits at address 9, moved to 10, make the setup read word -1. */
  lemma GuardNeeded()
    ensures var ds := BackwardDst(10, 3);
      var ss := BackwardSrc(9, ds.lbit, 3);
      ss.rbit < ds.rbit && ss.lbit + 3 > ds.lbit + 1 && ss.addr - 1 == -1
  {
    hide BackwardDst, BackwardSrc;
    BackwardFields(10, 9, 3);
  }

  /** With the guard word the setup stays within memory. */
  lemma GuardedRead(tr: Transfer)
    requires Guarded(tr) && 0 <= tr.d && 0 <= tr.s && 1 <= tr.w
    ensures var ds := BackwardDst(tr.d, tr.w);
      var ss := BackwardSrc(tr.s, ds.lbit, tr.w);
      ss.rbit < ds.rbit && ss.lbit + tr.w > ds.lbit + 1 ==> 1 <= ss.addr
  {
    hide BackwardDst, BackwardSrc;
    BackwardFields(tr.d, tr.s, tr.w);
    StraysBelow(tr.d, tr.s, tr.w);
  }

  /** B_do_src_setup: the last destination word's worth of source bits. */
  method BackwardSrcSetup(mem: array<Word>, ds: DstState, ss: SrcState, w: int, srcComp: bool, savedS0: Word,
                          ghost tr: Transfer)
    returns (shS: Word, savedS: Word, src32addr: int)
    requires 1 <= w == tr.w && srcComp == tr.comp && tr.Within(32 * mem.Length) && Guarded(tr)
    requires ds == BackwardDst(tr.d, w) && ss == BackwardSrc(tr.s, ds.lbit, w)
    ensures Stream(shS, mem[..], tr, ds.addr, tr.d, tr.d + tr.w, srcComp)
    ensures ds.lbit + w > 32 ==> Descending(src32addr, savedS, mem[..], tr, ds.addr - 1)
  {
    hide Bit, BackwardDst, BackwardSrc, WordSkew, BitSkew, Shl, Shr, And, Or, Not, LowMask, Selects, Stream, Src,
      MemBit, Fetched, Back, Blank, Descending;
    BackwardGeometry(tr);
    BackwardMasks(tr);
    hide Strays, Guarded;
    var newS;
    src32addr, savedS := ss.addr, savedS0;
    if ss.rbit < ds.rbit && ss.lbit + w > ds.lbit + 1 {
      GuardedRead(tr);
      newS := mem[src32addr];
      src32addr := src32addr - 1;
      savedS := And(Shr(newS, ss.rshift), ss.rmask);
      newS := mem[src32addr];
      src32addr := src32addr - 1;
      shS := Or(savedS, Shl(newS, ss.lshift));
      savedS := And(Shr(newS, ss.rshift), ss.rmask);
      FirstFromTwo(mem[..], tr, ds.addr);
    } else if ss.rbit >= ds.rbit {
      newS := mem[src32addr];
      src32addr := src32addr - 1;
      shS := Shl(newS, ss.lshift);
      savedS := And(Shr(newS, ss.rshift), ss.rmask);
      if BitSkew(tr) == 0 {
        FirstAligned(mem[..], tr, ds.addr);
      } else {
        FirstFromPrevious(mem[..], tr, ds.addr);
      }
    } else {
      newS := mem[src32addr];
      src32addr := src32addr - 1;
      shS := And(Shr(newS, ss.rshift), ss.rmask);
      FirstFromOne(mem[..], tr, ds.addr);
    }
    if srcComp {
      StreamComplement(shS, mem[..], tr, ds.addr, tr.d, tr.d + tr.w);
      shS := Not(shS);
    }
  }

  /** GetSrcB and GetSrcCB: shift the next destination word's bits out of two source words. */
  method GetSrcBackward(mem: array<Word>, ss: SrcState, srcComp: bool, saved: Word, from: int, ghost m0: seq<Word>,
                        ghost tr: Transfer, ghost t: int)
    returns (shS: Word, savedS: Word, src32addr: int)
    requires Written(mem[..], m0, m0, tr, 32 * t + 32, tr.d + tr.w) && BackwardSafe(tr) && srcComp == tr.comp
    requires Offset(tr, WordSkew(tr), BitSkew(tr)) && 0 < BitSkew(tr)
    requires ss.lshift == BitSkew(tr) && ss.rshift == 32 - BitSkew(tr)
    requires tr.d <= 32 * t && 32 * t + 32 <= tr.d + tr.w
    requires Descending(from, saved, m0, tr, t)
    ensures Stream(shS, m0, tr, t, 32 * t, 32 * t + 32, srcComp)
    ensures Descending(src32addr, savedS, m0, tr, t - 1)
  {
    hide Bit, WordSkew, BitSkew, Shl, Shr, Or, Not, Stream, Front, Back, Fetched, Src, MemBit, Raster;
    src32addr := from;
    var newS := mem[src32addr];
    src32addr := src32addr - 1;
    FetchBackward(mem[..], m0, tr, from, 32 * t + 32);
    ShiftedFront(newS, m0, tr, t, WordSkew(tr), BitSkew(tr), tr.d, 32 * t + 32);
    JoinBack(saved, Shl(newS, ss.lshift), m0, tr, t, BitSkew(tr), tr.d, 32 * t + 32);
    shS := Or(saved, Shl(newS, ss.lshift));
    StreamPart(shS, m0, tr, t, tr.d, 32 * t + 32, 32 * t, 32 * t + 32, false);
    if srcComp {
      StreamComplement(shS, m0, tr, t, 32 * t, 32 * t + 32);
      shS := Not(shS);
    }
    savedS := Shr(newS, ss.rshift);
    ShiftedBackTo(newS, m0, tr, t - 1, WordSkew(tr), BitSkew(tr), 32 * t + 32);
  }

  /** The aligned loops take each source word as it is. */
  method GetAlignedBackward(mem: array<Word>, srcComp: bool, savedS: Word, src32addr: int, ghost m0: seq<Word>,
                            ghost tr: Transfer, ghost t: int)
    returns (shS: Word)
    requires Written(mem[..], m0, m0, tr, 32 * t + 32, tr.d + tr.w) && BackwardSafe(tr) && srcComp == tr.comp
    requires Offset(tr, WordSkew(tr), BitSkew(tr)) && BitSkew(tr) == 0
    requires tr.d <= 32 * t && 32 * t + 32 <= tr.d + tr.w
    requires Descending(src32addr, savedS, m0, tr, t)
    ensures Stream(shS, m0, tr, t, 32 * t, 32 * t + 32, srcComp)
    ensures Descending(src32addr - 1, savedS, m0, tr, t - 1)
  {
    hide Bit, WordSkew, BitSkew, Not, Stream, Blank, Fetched, Src, MemBit, Raster;
    shS := mem[src32addr];
    FetchBackward(mem[..], m0, tr, src32addr, 32 * t + 32);
    AlignedStream(shS, m0, tr, t, WordSkew(tr), tr.d, 32 * t + 32);
    StreamPart(shS, m0, tr, t, tr.d, 32 * t + 32, 32 * t, 32 * t + 32, false);
    if srcComp {
      StreamComplement(shS, m0, tr, t, 32 * t, 32 * t + 32);
      shS := Not(shS);
    }
  }

  /** B_do_postloop_src_prep: the source bits for the first, partial word. */
  method BackwardPostloopPrep(mem: array<Word>, ds: DstState, ss: SrcState, srcComp: bool, savedS: Word, src32addr: int,
                              ghost m0: seq<Word>, ghost tr: Transfer, ghost t: int)
    returns (shS: Word)
    requires 1 <= tr.w && srcComp == tr.comp && BackwardSafe(tr)
    requires Written(mem[..], m0, m0, tr, 32 * t + 32, tr.d + tr.w)
    requires ds == BackwardDst(tr.d, tr.w) && ss == BackwardSrc(tr.s, ds.lbit, tr.w)
    requires tr.d == 32 * t + ds.lbit && 32 * t + 32 <= tr.d + tr.w
    requires Descending(src32addr, savedS, m0, tr, t)
    ensures Stream(shS, m0, tr, t, tr.d, 32 * t + 32, srcComp)
  {
    hide Bit, BackwardDst, BackwardSrc, WordSkew, BitSkew, Shl, Shr, And, Or, Not, LowMask, Stream, Fetched, Src,
      MemBit, Raster, Back, Blank;
    BackwardGeometry(tr);
    if ss.lbit >= ds.lbit {
      var newS := mem[src32addr];
      FetchBackward(mem[..], m0, tr, src32addr, 32 * t + 32);
      shS := Or(savedS, Shl(newS, ss.lshift));
      if BitSkew(tr) == 0 {
        LastAligned(newS, savedS, m0, tr, t);
      } else {
        ShiftedFront(newS, m0, tr, t, WordSkew(tr), BitSkew(tr), tr.d, 32 * t + 32);
        JoinBack(savedS, Shl(newS, ss.lshift), m0, tr, t, BitSkew(tr), tr.d, 32 * t + 32);
      }
    } else {
      shS := savedS;
      LastFromOne(savedS, m0, tr, t);
    }
    if srcComp {
      StreamComplement(shS, m0, tr, t, tr.d, 32 * t + 32);
      shS := Not(shS);
    }
  }

  /** One line, going down: B_do_src_setup, B_do_transfer and the do_fpt tail. */
  method BackwardOneLine(mem: array<Word>, ds: DstState, ss: SrcState, w: int, op: RasterOp, srcComp: bool,
                         savedS0: Word, ghost tr: Transfer)
    returns (savedS: Word)
    requires 1 <= w && tr == Transfer(tr.d, tr.s, w, op, srcComp) && tr.Within(32 * mem.Length) && BackwardSafe(tr)
    requires Guarded(tr)
    requires ds == BackwardDst(tr.d, w) && ss == BackwardSrc(tr.s, ds.lbit, w)
    modifies mem
    ensures BitsOf(mem[..]) == Line(old(BitsOf(mem[..])), tr)
  {
    hide Bit, BackwardDst, BackwardSrc, WordSkew, BitSkew, Shl, Shr, And, Or, Not, LowMask, FromMask, UpToMask, Stream,
      Src, MemBit, Raster, Back, Blank, Selects, Merge, Apply, Written, Descending, BitsOf, Line;
    ghost var m0, end := mem[..], tr.d + tr.w;
    BackwardGeometry(tr);
    BackwardMasks(tr);
    var shS, src32addr;
    shS, savedS, src32addr := BackwardSrcSetup(mem, ds, ss, w, srcComp, savedS0, tr);
    var dst32addr := ds.addr;
    NothingWritten(m0, m0, tr, end);
    if ds.lbit + w <= 32 {
      PutPart(mem, dst32addr, op, ds.sdwMask, shS, m0, m0, tr, end, end, tr.d, end);
    } else {
      StreamPart(shS, m0, tr, ds.addr, tr.d, end, 32 * ds.addr, end, srcComp);
      PutPart(mem, dst32addr, op, ds.preloopMask, shS, m0, m0, tr, end, end, 32 * ds.addr, end);
      dst32addr := dst32addr - 1;
      dst32addr, savedS, src32addr := BackwardWords(mem, ds, ss, op, srcComp, savedS, src32addr, m0, tr);
      if ds.lbit != 0 {
        shS := BackwardPostloopPrep(mem, ds, ss, srcComp, savedS, src32addr, m0, tr, dst32addr);
        PutPart(mem, dst32addr, op, ds.postloopMask, shS, m0, m0, tr, 32 * dst32addr + 32, end, tr.d,
                32 * dst32addr + 32);
      }
    }
    LineWritten(mem[..], m0, tr);
  }

  /** The inner loops of B_do_transfer: whole destination words. */
  method BackwardWords(mem: array<Word>, ds: DstState, ss: SrcState, op: RasterOp, srcComp: bool, saved: Word,
                       from: int, ghost m0: seq<Word>, ghost tr: Transfer)
    returns (dst32addr: int, savedS: Word, src32addr: int)
    requires 1 <= tr.w && op == tr.op && srcComp == tr.comp && BackwardSafe(tr)
    requires ds == BackwardDst(tr.d, tr.w) && ss == BackwardSrc(tr.s, ds.lbit, tr.w) && ds.lbit + tr.w > 32
    requires |m0| == mem.Length && tr.Within(32 * |m0|)
    requires Written(mem[..], m0, m0, tr, 32 * ds.addr, tr.d + tr.w)
    requires Descending(from, saved, m0, tr, ds.addr - 1)
    modifies mem
    ensures dst32addr == ds.addr - 1 - ds.numL
    ensures Written(mem[..], m0, m0, tr, 32 * dst32addr + 32, tr.d + tr.w)
    ensures Descending(src32addr, savedS, m0, tr, dst32addr)
  {
    hide Bit, BackwardDst, BackwardSrc, WordSkew, BitSkew, Shl, Shr, And, Or, Not, LowMask, Stream, Src, MemBit, Raster,
      Back, Blank, Selects, Apply, Written, Descending;
    BackwardGeometry(tr);
    BackwardMasks(tr);
    dst32addr, savedS, src32addr := ds.addr - 1, saved, from;
    var cnt := ds.numL - 1;
    if ss.lbit == ds.lbit {
      while cnt >= 0
        invariant -1 <= cnt && dst32addr == ds.addr - 1 - ds.numL + (cnt + 1)
        invariant Written(mem[..], m0, m0, tr, 32 * dst32addr + 32, tr.d + tr.w)
        invariant Descending(src32addr, savedS, m0, tr, dst32addr)
      {
        var shS := GetAlignedBackward(mem, srcComp, savedS, src32addr, m0, tr, dst32addr);
        PutWhole(mem, dst32addr, op, shS, m0, m0, tr, 32 * dst32addr + 32, tr.d + tr.w);
        dst32addr, src32addr := dst32addr - 1, src32addr - 1;
        cnt := cnt - 1;
      }
    } else {
      while cnt >= 0
        invariant -1 <= cnt && dst32addr == ds.addr - 1 - ds.numL + (cnt + 1)
        invariant Written(mem[..], m0, m0, tr, 32 * dst32addr + 32, tr.d + tr.w)
        invariant Descending(src32addr, savedS, m0, tr, dst32addr)
      {
        var shS;
        shS, savedS, src32addr := GetSrcBackward(mem, ss, srcComp, savedS, src32addr, m0, tr, dst32addr);
        PutWhole(mem, dst32addr, op, shS, m0, m0, tr, 32 * dst32addr + 32, tr.d + tr.w);
        dst32addr := dst32addr - 1;
        cnt := cnt - 1;
      }
    }
  }

  // ---- the words as they are shifted ----

  lemma JoinBack(b: Word, f: Word, m0: seq<Word>, tr: Transfer, t: int, l: int, lo: int, hi: int)
    requires tr.Reads(32 * |m0|) && 0 <= l < 32
    requires Front(f, m0, tr, t, l, lo, hi) && Back(b, m0, tr, t, l, lo, hi)
    ensures Stream(Or(b, f), m0, tr, t, lo, hi, false)
  {
    hide Bit, MemBit, Or;
    OrBits(b, f);
  }

  lemma ShiftedBackTo(x: Word, m0: seq<Word>, tr: Transfer, t: int, q: int, l: int, hi: int)
    requires tr.Reads(32 * |m0|) && Offset(tr, q, l) && 0 < l && 32 * t + 32 <= hi
    requires Fetched(x, m0, tr, t + q + 1, tr.d, hi)
    ensures Back(Shr(x, 32 - l), m0, tr, t, l, tr.d, 32 * t + 32)
  {
    hide Bit, Shr, Src;
    ShiftedBack(x, m0, tr, t, q, l, tr.d, 32 * t + 32);
  }

  /** What is saved of a word is the back of the previous destination word. */
  lemma SavedBack(x: Word, m0: seq<Word>, tr: Transfer, t: int, q: int, l: int)
    requires tr.Reads(32 * |m0|) && Offset(tr, q, l) && 0 < l && 32 * t + 32 <= tr.d + tr.w
    requires Fetched(x, m0, tr, t + q + 1, tr.d, tr.d + tr.w)
    ensures Back(And(Shr(x, 32 - l), LowMask(l, NONE)), m0, tr, t, l, tr.d, 32 * t + 32)
  {
    hide Bit, Shr, And, LowMask, Src;
    ShiftedBackTo(x, m0, tr, t, q, l, tr.d + tr.w);
    MaskedBack(Shr(x, 32 - l), m0, tr, t, l, tr.d, 32 * t + 32, NONE);
  }

  /** The last destination word may straddle two source words. */
  lemma FirstFromTwo(m0: seq<Word>, tr: Transfer, t: int)
    requires tr.Reads(32 * |m0|) && Offset(tr, WordSkew(tr), BitSkew(tr)) && 0 < BitSkew(tr)
    requires 0 <= t + WordSkew(tr) && t + WordSkew(tr) + 1 < |m0|
    requires 32 * t <= tr.d + tr.w
    ensures var l, u := BitSkew(tr), t + WordSkew(tr);
      && Stream(Or(And(Shr(m0[u + 1], 32 - l), LowMask(l, NONE)), Shl(m0[u], l)), m0, tr, t, tr.d, tr.d + tr.w, false)
      && Descending(u - 1, And(Shr(m0[u], 32 - l), LowMask(l, NONE)), m0, tr, t - 1)
  {
    hide Bit, Shl, Shr, And, Or, LowMask, Src, Stream, Front, Back, Fetched, WordSkew, BitSkew;
    var end, l, u := tr.d + tr.w, BitSkew(tr), t + WordSkew(tr);
    FetchedAtStart(m0, tr, u);
    FetchedAtStart(m0, tr, u + 1);
    ShiftedFront(m0[u], m0, tr, t, WordSkew(tr), l, tr.d, end);
    ShiftedBack(m0[u + 1], m0, tr, t, WordSkew(tr), l, tr.d, end);
    MaskedBack(Shr(m0[u + 1], 32 - l), m0, tr, t, l, tr.d, end, NONE);
    JoinBack(And(Shr(m0[u + 1], 32 - l), LowMask(l, NONE)), Shl(m0[u], l), m0, tr, t, l, tr.d, end);
    SavedBack(m0[u], m0, tr, t - 1, WordSkew(tr), l);
  }

  /** The last destination word ends within the front of its source word. */
  lemma FirstFromPrevious(m0: seq<Word>, tr: Transfer, t: int)
    requires tr.Reads(32 * |m0|) && Offset(tr, WordSkew(tr), BitSkew(tr)) && 0 < BitSkew(tr)
    requires 0 <= t + WordSkew(tr) < |m0| && tr.d + tr.w <= 32 * t + 32 - BitSkew(tr)
    requires 32 * t <= tr.d + tr.w
    ensures var l, u := BitSkew(tr), t + WordSkew(tr);
      && Stream(Shl(m0[u], l), m0, tr, t, tr.d, tr.d + tr.w, false)
      && Descending(u - 1, And(Shr(m0[u], 32 - l), LowMask(l, NONE)), m0, tr, t - 1)
  {
    hide Bit, Shl, Shr, And, LowMask, Src, Back, Fetched, WordSkew, BitSkew;
    var end, l, u := tr.d + tr.w, BitSkew(tr), t + WordSkew(tr);
    FetchedAtStart(m0, tr, u);
    ShiftedFront(m0[u], m0, tr, t, WordSkew(tr), l, tr.d, end);
    SavedBack(m0[u], m0, tr, t - 1, WordSkew(tr), l);
  }

  /** The whole line goes into the back of one destination word. */
  lemma FirstFromOne(m0: seq<Word>, tr: Transfer, t: int)
    requires tr.Reads(32 * |m0|) && Offset(tr, WordSkew(tr), BitSkew(tr)) && 0 < BitSkew(tr)
    requires 0 <= t + WordSkew(tr) + 1 < |m0| && 32 * t + 32 - BitSkew(tr) <= tr.d
    ensures var l := BitSkew(tr);
      Stream(And(Shr(m0[t + WordSkew(tr) + 1], 32 - l), LowMask(l, NONE)), m0, tr, t, tr.d, tr.d + tr.w, false)
  {
    hide Bit, Shr, And, LowMask, Src, Fetched, WordSkew, BitSkew;
    var x, l := m0[t + WordSkew(tr) + 1], BitSkew(tr);
    FetchedAtStart(m0, tr, t + WordSkew(tr) + 1);
    ShiftedBack(x, m0, tr, t, WordSkew(tr), l, tr.d, tr.d + tr.w);
    MaskedBack(Shr(x, 32 - l), m0, tr, t, l, tr.d, tr.d + tr.w, NONE);
  }

  /** Aligned words pass through unshifted, and nothing is saved. */
  lemma FirstAligned(m0: seq<Word>, tr: Transfer, t: int)
    requires tr.Reads(32 * |m0|) && Offset(tr, WordSkew(tr), BitSkew(tr)) && BitSkew(tr) == 0
    requires 0 <= t + WordSkew(tr) < |m0|
    ensures var u := t + WordSkew(tr);
      && Stream(Shl(m0[u], 0), m0, tr, t, tr.d, tr.d + tr.w, false)
      && Descending(u - 1, And(Shr(m0[u], 0), LowMask(0, NONE)), m0, tr, t - 1)
  {
    hide Bit, Shr, Shl, And, Src, Stream, Fetched, WordSkew, BitSkew;
    var x := m0[t + WordSkew(tr)];
    FetchedAtStart(m0, tr, t + WordSkew(tr));
    AlignedStream(x, m0, tr, t, WordSkew(tr), tr.d, tr.d + tr.w);
    UnshiftedBits(x);
    SameStream(Shl(x, 0), x, m0, tr, t, tr.d, tr.d + tr.w, false);
    BlankMasked(Shr(x, 0));
  }

  lemma LastAligned(x: Word, saved: Word, m0: seq<Word>, tr: Transfer, t: int)
    requires tr.Reads(32 * |m0|) && Offset(tr, WordSkew(tr), BitSkew(tr)) && BitSkew(tr) == 0
    requires Blank(saved)
    requires Fetched(x, m0, tr, t + WordSkew(tr), tr.d, 32 * t + 32)
    ensures Stream(Or(saved, Shl(x, 0)), m0, tr, t, tr.d, 32 * t + 32, false)
  {
    hide Bit, Shl, Or, Src, Stream, Fetched, WordSkew, BitSkew, Blank;
    AlignedStream(x, m0, tr, t, WordSkew(tr), tr.d, 32 * t + 32);
    UnshiftedBits(x);
    BlankOr(saved, Shl(x, 0));
    SameStream(Or(saved, Shl(x, 0)), x, m0, tr, t, tr.d, 32 * t + 32, false);
  }

  /** The first word needs no more than was saved. */
  lemma LastFromOne(saved: Word, m0: seq<Word>, tr: Transfer, t: int)
    requires tr.Reads(32 * |m0|) && 0 < BitSkew(tr) < 32
    requires Back(saved, m0, tr, t, BitSkew(tr), tr.d, 32 * t + 32)
    requires 32 * t + 32 - BitSkew(tr) <= tr.d
    ensures Stream(saved, m0, tr, t, tr.d, 32 * t + 32, false)
  {
    hide Src, BitSkew;
  }
}
