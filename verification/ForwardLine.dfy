/** One line of a transfer, going up through memory. */
module ForwardLine {
  import opened Words
  import opened BitSpec
  import opened LineWords
  import opened LineState

  // ---- words in flight, going up ----

  /** Ready for destination word `t`: the source address to read next, and what was saved of the last word. */
  ghost predicate Ascending(src32addr: int, savedS: Word, m0: seq<Word>, tr: Transfer, t: int)
    requires tr.Reads(32 * |m0|)
  {
    if BitSkew(tr) == 0 then src32addr == t + WordSkew(tr) && Blank(savedS)
    else src32addr == t + WordSkew(tr) + 1 && Front(savedS, m0, tr, t, BitSkew(tr), 32 * t, tr.d + tr.w)
  }

  /** F_do_src_setup: the first destination word's worth of source bits. */
  method ForwardSrcSetup(mem: array<Word>, ds: DstState, ss: SrcState, w: int, srcComp: bool, savedS0: Word,
                         ghost tr: Transfer)
    returns (shS: Word, savedS: Word, src32addr: int)
    requires 1 <= w == tr.w && srcComp == tr.comp && tr.Within(32 * mem.Length)
    requires ds == ForwardDst(tr.d, w) && ss == ForwardSrc(tr.s, ds.lbit, w)
    ensures Stream(shS, mem[..], tr, ds.addr, tr.d, tr.d + tr.w, srcComp)
    ensures ds.lbit + w > 32 ==> Ascending(src32addr, savedS, mem[..], tr, ds.addr + 1)
  {
    hide ForwardDst, ForwardSrc, WordSkew, BitSkew, Shl, Shr, And, Or, Not, LowMask, Stream, Ascending;
    ForwardGeometry(tr);
    var newS;
    src32addr, savedS := ss.addr, savedS0;
    if ss.lbit > ds.lbit && ss.lbit + w > 32 {
      newS := mem[src32addr];
      src32addr := src32addr + 1;
      savedS := Shl(newS, ss.lshift);
      newS := mem[src32addr];
      src32addr := src32addr + 1;
      shS := Or(savedS, And(Shr(newS, ss.rshift), ss.rmask));
      savedS := And(Shl(newS, ss.lshift), Not(ss.rmask));
      FirstFromTwo(mem[..], tr, ds.addr);
    } else if ss.lbit <= ds.lbit {
      newS := mem[src32addr];
      src32addr := src32addr + 1;
      shS := And(Shr(newS, ss.rshift), ss.rmask);
      savedS := And(Shl(newS, ss.lshift), Not(ss.rmask));
      if ss.lbit == ds.lbit {
        FirstAligned(mem[..], tr, ds.addr);
      } else {
        FirstFromNext(mem[..], tr, ds.addr);
      }
    } else {
      newS := mem[src32addr];
      src32addr := src32addr + 1;
      shS := Shl(newS, ss.lshift);
      FirstFromOne(mem[..], tr, ds.addr);
    }
    if srcComp {
      StreamComplement(shS, mem[..], tr, ds.addr, tr.d, tr.d + tr.w);
      shS := Not(shS);
    }
  }

  /** GetSrcF and GetSrcCF: shift the next destination word's bits out of two source words. */
  method GetSrcForward(mem: array<Word>, ss: SrcState, srcComp: bool, saved: Word, from: int, ghost m0: seq<Word>,
                       ghost tr: Transfer, ghost t: int)
    returns (shS: Word, savedS: Word, src32addr: int)
    requires Written(mem[..], m0, m0, tr, tr.d, 32 * t) && ForwardSafe(tr) && srcComp == tr.comp
    requires Offset(tr, WordSkew(tr), BitSkew(tr)) && 0 < BitSkew(tr)
    requires ss.lshift == BitSkew(tr) && ss.rshift == 32 - BitSkew(tr)
    requires tr.d <= 32 * t && 32 * t + 32 <= tr.d + tr.w
    requires Ascending(from, saved, m0, tr, t)
    ensures Stream(shS, m0, tr, t, 32 * t, 32 * t + 32, srcComp)
    ensures Ascending(src32addr, savedS, m0, tr, t + 1)
  {
    hide Bit, WordSkew, BitSkew, Shl, Shr, Or, Not, Stream, Front, Back, Fetched, Src, MemBit, Raster;
    src32addr := from;
    var newS := mem[src32addr];
    src32addr := src32addr + 1;
    FetchForward(mem[..], m0, tr, from, 32 * t);
    ShiftedBack(newS, m0, tr, t, WordSkew(tr), BitSkew(tr), 32 * t, tr.d + tr.w);
    Join(saved, Shr(newS, ss.rshift), m0, tr, t, BitSkew(tr), 32 * t, tr.d + tr.w);
    shS := Or(saved, Shr(newS, ss.rshift));
    StreamPart(shS, m0, tr, t, 32 * t, tr.d + tr.w, 32 * t, 32 * t + 32, false);
    if srcComp {
      StreamComplement(shS, m0, tr, t, 32 * t, 32 * t + 32);
      shS := Not(shS);
    }
    savedS := Shl(newS, ss.lshift);
    ShiftedFrontFrom(newS, m0, tr, t + 1, WordSkew(tr), BitSkew(tr), 32 * t);
  }

  /** The aligned loops take each source word as it is. */
  method GetAlignedForward(mem: array<Word>, srcComp: bool, savedS: Word, src32addr: int, ghost m0: seq<Word>,
                           ghost tr: Transfer, ghost t: int)
    returns (shS: Word)
    requires Written(mem[..], m0, m0, tr, tr.d, 32 * t) && ForwardSafe(tr) && srcComp == tr.comp
    requires Offset(tr, WordSkew(tr), BitSkew(tr)) && BitSkew(tr) == 0
    requires tr.d <= 32 * t && 32 * t + 32 <= tr.d + tr.w
    requires Ascending(src32addr, savedS, m0, tr, t)
    ensures Stream(shS, m0, tr, t, 32 * t, 32 * t + 32, srcComp)
    ensures Ascending(src32addr + 1, savedS, m0, tr, t + 1)
  {
    hide Bit, WordSkew, BitSkew, Not, Stream, Blank, Fetched, Src, MemBit, Raster;
    shS := mem[src32addr];
    FetchForward(mem[..], m0, tr, src32addr, 32 * t);
    AlignedStream(shS, m0, tr, t, WordSkew(tr), 32 * t, tr.d + tr.w);
    StreamPart(shS, m0, tr, t, 32 * t, tr.d + tr.w, 32 * t, 32 * t + 32, false);
    if srcComp {
      StreamComplement(shS, m0, tr, t, 32 * t, 32 * t + 32);
      shS := Not(shS);
    }
  }

  /** F_do_postloop_src_prep: the source bits for the last, partial word. */
  method ForwardPostloopPrep(mem: array<Word>, ds: DstState, ss: SrcState, srcComp: bool, savedS: Word, src32addr: int,
                             ghost m0: seq<Word>, ghost tr: Transfer, ghost t: int)
    returns (shS: Word)
    requires 1 <= tr.w && srcComp == tr.comp && ForwardSafe(tr)
    requires Written(mem[..], m0, m0, tr, tr.d, 32 * t)
    requires ds == ForwardDst(tr.d, tr.w) && ss == ForwardSrc(tr.s, ds.lbit, tr.w)
    requires tr.d <= 32 * t && tr.d + tr.w == 32 * t + ds.rbit + 1
    requires Ascending(src32addr, savedS, m0, tr, t)
    ensures Stream(shS, m0, tr, t, 32 * t, tr.d + tr.w, srcComp)
  {
    hide Bit, ForwardDst, ForwardSrc, WordSkew, BitSkew, Shl, Shr, And, Or, Not, LowMask, Stream, Fetched, Src, MemBit,
      Raster, Front, Blank;
    ForwardGeometry(tr);
    if ss.rbit <= ds.rbit {
      var newS := mem[src32addr];
      FetchForward(mem[..], m0, tr, src32addr, 32 * t);
      shS := Or(savedS, And(Shr(newS, ss.rshift), ss.rmask));
      if BitSkew(tr) == 0 {
        LastAligned(newS, savedS, m0, tr, t);
      } else {
        LastFromTwo(newS, savedS, m0, tr, t);
      }
    } else {
      shS := savedS;
      LastFromOne(savedS, m0, tr, t);
    }
    if srcComp {
      StreamComplement(shS, m0, tr, t, 32 * t, tr.d + tr.w);
      shS := Not(shS);
    }
  }

  lemma LastAligned(x: Word, saved: Word, m0: seq<Word>, tr: Transfer, t: int)
    requires tr.Reads(32 * |m0|) && Offset(tr, WordSkew(tr), BitSkew(tr)) && BitSkew(tr) == 0
    requires Blank(saved)
    requires Fetched(x, m0, tr, t + WordSkew(tr), 32 * t, tr.d + tr.w)
    ensures Stream(Or(saved, And(Shr(x, 0), LowMask(0, ONES))), m0, tr, t, 32 * t, tr.d + tr.w, false)
  {
    hide Bit, Shr, And, Or, Src, Stream, Fetched, WordSkew, BitSkew, Blank;
    AlignedStream(x, m0, tr, t, WordSkew(tr), 32 * t, tr.d + tr.w);
    UnshiftedBits(x);
    BlankOr(saved, And(Shr(x, 0), ONES));
    SameStream(Or(saved, And(Shr(x, 0), ONES)), x, m0, tr, t, 32 * t, tr.d + tr.w, false);
  }

  lemma LastFromTwo(x: Word, saved: Word, m0: seq<Word>, tr: Transfer, t: int)
    requires tr.Reads(32 * |m0|) && Offset(tr, WordSkew(tr), BitSkew(tr)) && 0 < BitSkew(tr)
    requires Front(saved, m0, tr, t, BitSkew(tr), 32 * t, tr.d + tr.w)
    requires Fetched(x, m0, tr, t + WordSkew(tr) + 1, 32 * t, tr.d + tr.w)
    ensures var l := BitSkew(tr);
      Stream(Or(saved, And(Shr(x, 32 - l), LowMask(l, ONES))), m0, tr, t, 32 * t, tr.d + tr.w, false)
  {
    hide Bit, Shr, And, Or, LowMask, Src, Stream, Front, Back, Fetched, WordSkew, BitSkew;
    var end, l := tr.d + tr.w, BitSkew(tr);
    ShiftedBack(x, m0, tr, t, WordSkew(tr), l, 32 * t, end);
    MaskedBack(Shr(x, 32 - l), m0, tr, t, l, 32 * t, end, ONES);
    Join(saved, And(Shr(x, 32 - l), LowMask(l, ONES)), m0, tr, t, l, 32 * t, end);
  }

  /** The last word needs no more than was saved. */
  lemma LastFromOne(saved: Word, m0: seq<Word>, tr: Transfer, t: int)
    requires tr.Reads(32 * |m0|) && 0 < BitSkew(tr) < 32
    requires Front(saved, m0, tr, t, BitSkew(tr), 32 * t, tr.d + tr.w)
    requires tr.d + tr.w <= 32 * t + 32 - BitSkew(tr)
    ensures Stream(saved, m0, tr, t, 32 * t, tr.d + tr.w, false)
  {
    hide Src, BitSkew;
  }

  /** One line, going up: F_do_src_setup, F_do_transfer and the do_fpt tail. */
  method ForwardOneLine(mem: array<Word>, ds: DstState, ss: SrcState, w: int, op: RasterOp, srcComp: bool,
                        savedS0: Word, ghost tr: Transfer)
    returns (savedS: Word)
    requires 1 <= w && tr == Transfer(tr.d, tr.s, w, op, srcComp) && tr.Within(32 * mem.Length) && ForwardSafe(tr)
    requires ds == ForwardDst(tr.d, w) && ss == ForwardSrc(tr.s, ds.lbit, w)
    modifies mem
    ensures BitsOf(mem[..]) == Line(old(BitsOf(mem[..])), tr)
  {
    hide Bit, ForwardDst, ForwardSrc, WordSkew, BitSkew, Shl, Shr, And, Or, Not, LowMask, FromMask, UpToMask, Stream,
      Src, MemBit, Raster, Front, Blank, Selects, Merge, Apply, Written, Ascending, BitsOf, Line;
    ghost var m0, end := mem[..], tr.d + tr.w;
    ForwardGeometry(tr);
    ForwardMasks(tr);
    var shS, src32addr;
    shS, savedS, src32addr := ForwardSrcSetup(mem, ds, ss, w, srcComp, savedS0, tr);
    var dst32addr := ds.addr;
    NothingWritten(m0, m0, tr, tr.d);
    if ds.lbit + w <= 32 {
      StreamPart(shS, m0, tr, ds.addr, tr.d, end, tr.d, end, srcComp);
      PutPart(mem, dst32addr, op, ds.sdwMask, shS, m0, m0, tr, tr.d, tr.d, tr.d, end);
    } else {
      StreamPart(shS, m0, tr, ds.addr, tr.d, end, tr.d, 32 * (ds.addr + 1), srcComp);
      PutPart(mem, dst32addr, op, ds.preloopMask, shS, m0, m0, tr, tr.d, tr.d, tr.d, 32 * (ds.addr + 1));
      dst32addr := dst32addr + 1;
      dst32addr, savedS, src32addr := ForwardWords(mem, ds, ss, op, srcComp, savedS, src32addr, m0, tr);
      if ds.rbit != 31 {
        shS := ForwardPostloopPrep(mem, ds, ss, srcComp, savedS, src32addr, m0, tr, dst32addr);
        PutPart(mem, dst32addr, op, ds.postloopMask, shS, m0, m0, tr, tr.d, 32 * dst32addr, 32 * dst32addr, end);
      }
    }
    LineWritten(mem[..], m0, tr);
  }

  /** The inner loops of F_do_transfer: whole destination words. */
  method ForwardWords(mem: array<Word>, ds: DstState, ss: SrcState, op: RasterOp, srcComp: bool, saved: Word, from: int,
                      ghost m0: seq<Word>, ghost tr: Transfer)
    returns (dst32addr: int, savedS: Word, src32addr: int)
    requires 1 <= tr.w && op == tr.op && srcComp == tr.comp && ForwardSafe(tr)
    requires ds == ForwardDst(tr.d, tr.w) && ss == ForwardSrc(tr.s, ds.lbit, tr.w) && ds.lbit + tr.w > 32
    requires |m0| == mem.Length && tr.Within(32 * |m0|)
    requires Written(mem[..], m0, m0, tr, tr.d, 32 * (ds.addr + 1))
    requires Ascending(from, saved, m0, tr, ds.addr + 1)
    modifies mem
    ensures dst32addr == ds.addr + 1 + ds.numL
    ensures Written(mem[..], m0, m0, tr, tr.d, 32 * dst32addr)
    ensures Ascending(src32addr, savedS, m0, tr, dst32addr)
  {
    hide Bit, ForwardDst, ForwardSrc, WordSkew, BitSkew, Shl, Shr, And, Or, Not, LowMask, Stream, Src, MemBit, Raster,
      Front, Blank, Selects, Apply, Written, Ascending;
    ForwardGeometry(tr);
    ForwardMasks(tr);
    dst32addr, savedS, src32addr := ds.addr + 1, saved, from;
    var cnt := ds.numL - 1;
    if ss.lbit == ds.lbit {
      while cnt >= 0
        invariant -1 <= cnt && dst32addr == ds.addr + 1 + ds.numL - (cnt + 1)
        invariant Written(mem[..], m0, m0, tr, tr.d, 32 * dst32addr)
        invariant Ascending(src32addr, savedS, m0, tr, dst32addr)
      {
        var shS := GetAlignedForward(mem, srcComp, savedS, src32addr, m0, tr, dst32addr);
        PutWhole(mem, dst32addr, op, shS, m0, m0, tr, tr.d, 32 * dst32addr);
        dst32addr, src32addr := dst32addr + 1, src32addr + 1;
        cnt := cnt - 1;
      }
    } else {
      while cnt >= 0
        invariant -1 <= cnt && dst32addr == ds.addr + 1 + ds.numL - (cnt + 1)
        invariant Written(mem[..], m0, m0, tr, tr.d, 32 * dst32addr)
        invariant Ascending(src32addr, savedS, m0, tr, dst32addr)
      {
        var shS;
        shS, savedS, src32addr := GetSrcForward(mem, ss, srcComp, savedS, src32addr, m0, tr, dst32addr);
        PutWhole(mem, dst32addr, op, shS, m0, m0, tr, tr.d, 32 * dst32addr);
        dst32addr := dst32addr + 1;
        cnt := cnt - 1;
      }
    }
  }

  lemma ShiftedFrontFrom(x: Word, m0: seq<Word>, tr: Transfer, t: int, q: int, l: int, lo: int)
    requires tr.Reads(32 * |m0|) && Offset(tr, q, l) && lo <= 32 * t
    requires Fetched(x, m0, tr, t + q, lo, tr.d + tr.w)
    ensures Front(Shl(x, l), m0, tr, t, l, 32 * t, tr.d + tr.w)
  {
    hide Bit, Shl, Src;
    ShiftedFront(x, m0, tr, t, q, l, 32 * t, tr.d + tr.w);
  }

  /** What is saved of a word is the front of the next destination word. */
  lemma SavedFront(x: Word, m0: seq<Word>, tr: Transfer, t: int, q: int, l: int, ifZero: Word)
    requires tr.Reads(32 * |m0|) && Offset(tr, q, l) && 0 < l
    requires Fetched(x, m0, tr, t + q, tr.d, tr.d + tr.w)
    ensures Front(And(Shl(x, l), Not(LowMask(l, ifZero))), m0, tr, t, l, 32 * t, tr.d + tr.w)
  {
    hide Bit, Shl, And, Not, LowMask, Src;
    ShiftedFront(x, m0, tr, t, q, l, 32 * t, tr.d + tr.w);
    MaskedFront(Shl(x, l), m0, tr, t, l, 32 * t, tr.d + tr.w, ifZero);
  }

  /** The first destination word straddles two source words. */
  lemma FirstFromTwo(m0: seq<Word>, tr: Transfer, t: int)
    requires tr.Reads(32 * |m0|) && Offset(tr, WordSkew(tr), BitSkew(tr)) && 0 < BitSkew(tr)
    requires 0 <= t + WordSkew(tr) && t + WordSkew(tr) + 1 < |m0|
    ensures var l, u := BitSkew(tr), t + WordSkew(tr);
      && Stream(Or(Shl(m0[u], l), And(Shr(m0[u + 1], 32 - l), LowMask(l, ONES))), m0, tr, t, tr.d, tr.d + tr.w, false)
      && Ascending(u + 2, And(Shl(m0[u + 1], l), Not(LowMask(l, ONES))), m0, tr, t + 1)
  {
    hide Bit, Shl, Shr, And, Or, Not, LowMask, Src, Stream, Front, Back, Fetched, WordSkew, BitSkew;
    var end, l, u := tr.d + tr.w, BitSkew(tr), t + WordSkew(tr);
    var x := m0[u + 1];
    FetchedAtStart(m0, tr, u);
    FetchedAtStart(m0, tr, u + 1);
    ShiftedFront(m0[u], m0, tr, t, WordSkew(tr), l, tr.d, end);
    ShiftedBack(x, m0, tr, t, WordSkew(tr), l, tr.d, end);
    MaskedBack(Shr(x, 32 - l), m0, tr, t, l, tr.d, end, ONES);
    Join(Shl(m0[u], l), And(Shr(x, 32 - l), LowMask(l, ONES)), m0, tr, t, l, tr.d, end);
    SavedFront(x, m0, tr, t + 1, WordSkew(tr), l, ONES);
  }

  /** The first destination word begins where the source word's own front has passed. */
  lemma FirstFromNext(m0: seq<Word>, tr: Transfer, t: int)
    requires tr.Reads(32 * |m0|) && Offset(tr, WordSkew(tr), BitSkew(tr)) && 0 < BitSkew(tr)
    requires 0 <= t + WordSkew(tr) + 1 < |m0| && 32 * t + 32 - BitSkew(tr) <= tr.d
    ensures var l, u := BitSkew(tr), t + WordSkew(tr) + 1;
      && Stream(And(Shr(m0[u], 32 - l), LowMask(l, ONES)), m0, tr, t, tr.d, tr.d + tr.w, false)
      && Ascending(u + 1, And(Shl(m0[u], l), Not(LowMask(l, ONES))), m0, tr, t + 1)
  {
    hide Bit, Shl, Shr, And, Not, LowMask, Src, Fetched, WordSkew, BitSkew;
    var end, l, u := tr.d + tr.w, BitSkew(tr), t + WordSkew(tr) + 1;
    FetchedAtStart(m0, tr, u);
    ShiftedBack(m0[u], m0, tr, t, WordSkew(tr), l, tr.d, end);
    MaskedBack(Shr(m0[u], 32 - l), m0, tr, t, l, tr.d, end, ONES);
    SavedFront(m0[u], m0, tr, t + 1, WordSkew(tr), l, ONES);
  }

  /** The whole line comes out of one source word and goes into one destination word. */
  lemma FirstFromOne(m0: seq<Word>, tr: Transfer, t: int)
    requires tr.Reads(32 * |m0|) && Offset(tr, WordSkew(tr), BitSkew(tr))
    requires 0 <= t + WordSkew(tr) < |m0| && tr.d + tr.w <= 32 * t + 32 - BitSkew(tr)
    ensures Stream(Shl(m0[t + WordSkew(tr)], BitSkew(tr)), m0, tr, t, tr.d, tr.d + tr.w, false)
  {
    hide Bit, Shl, Src, Fetched, WordSkew, BitSkew;
    FetchedAtStart(m0, tr, t + WordSkew(tr));
    ShiftedFront(m0[t + WordSkew(tr)], m0, tr, t, WordSkew(tr), BitSkew(tr), tr.d, tr.d + tr.w);
  }

  /** Aligned words pass through unshifted, and nothing is saved. */
  lemma FirstAligned(m0: seq<Word>, tr: Transfer, t: int)
    requires tr.Reads(32 * |m0|) && Offset(tr, WordSkew(tr), BitSkew(tr)) && BitSkew(tr) == 0
    requires 0 <= t + WordSkew(tr) < |m0|
    ensures var u := t + WordSkew(tr);
      && Stream(And(Shr(m0[u], 0), LowMask(0, ONES)), m0, tr, t, tr.d, tr.d + tr.w, false)
      && Ascending(u + 1, And(Shl(m0[u], 0), Not(LowMask(0, ONES))), m0, tr, t + 1)
  {
    hide Bit, Shr, Shl, And, Not, Src, Stream, Fetched, WordSkew, BitSkew;
    var x := m0[t + WordSkew(tr)];
    FetchedAtStart(m0, tr, t + WordSkew(tr));
    AlignedStream(x, m0, tr, t, WordSkew(tr), tr.d, tr.d + tr.w);
    UnshiftedBits(x);
    SameStream(And(Shr(x, 0), ONES), x, m0, tr, t, tr.d, tr.d + tr.w, false);
    BlankMasked(Shl(x, 0));
  }
}
