/** One line transfer done a word at a time: what the words in flight must hold. */
module LineWords {
  import opened Words
  import opened BitSpec

  // ---- memory as words and as bits ----

  predicate MemBit(m: seq<Word>, a: int)
    requires 0 <= a < 32 * |m|
  {
    Bit(m[a / 32], a % 32)
  }

  ghost function BitsOf(m: seq<Word>): (b: seq<bool>)
    ensures |b| == 32 * |m|
    ensures forall a :: 0 <= a < |b| ==> b[a] == MemBit(m, a)
  {
    seq(32 * |m|, a requires 0 <= a < 32 * |m| => MemBit(m, a))
  }

  lemma BitInWord(m: seq<Word>, u: int, i: int)
    requires 0 <= u < |m| && 0 <= i < 32
    ensures MemBit(m, 32 * u + i) == Bit(m[u], i)
  {
    hide Bit;
    assert (32 * u + i) / 32 == u && (32 * u + i) % 32 == i;
  }

  lemma BitAfterStore(m: seq<Word>, u: int, x: Word, a: int)
    requires 0 <= u < |m| && 0 <= a < 32 * |m|
    ensures 32 * u <= a < 32 * u + 32 ==> MemBit(m[u := x], a) == Bit(x, a - 32 * u)
    ensures !(32 * u <= a < 32 * u + 32) ==> MemBit(m[u := x], a) == MemBit(m, a)
  {
    hide Bit;
  }

  /** Bit address `a`, seen in the word at index `t`. */
  predicate WordBit(x: Word, t: int, a: int)
    requires 32 * t <= a < 32 * t + 32
  {
    Bit(x, a - 32 * t)
  }

  /** The source bit for destination address `a`. */
  predicate Src(m: seq<Word>, tr: Transfer, a: int)
    requires tr.Reads(32 * |m|) && tr.d <= a < tr.d + tr.w
  {
    MemBit(m, tr.s + (a - tr.d))
  }

  // ---- raster operations on words ----

  function Apply(op: RasterOp, dst: Word, src: Word): Word
  {
    match op
    case OpReplSrc => src
    case OpFnAnd => And(dst, src)
    case OpFnOr => Or(dst, src)
    case OpFnXor => Xor(dst, src)
  }

  lemma ApplyBits(op: RasterOp, dst: Word, src: Word)
    ensures forall i :: 0 <= i < 32 ==> Bit(Apply(op, dst, src), i) == Raster(op, Bit(src, i), Bit(dst, i))
  {
    hide Bit, And, Or, Xor;
    AndBits(dst, src);
    OrBits(dst, src);
    XorBits(dst, src);
  }

  /** do_partial_transfer: only the masked bits change. */
  function Merge(op: RasterOp, mask: Word, dst: Word, src: Word): Word
  {
    Or(And(Apply(op, dst, src), mask), And(dst, Not(mask)))
  }

  /** The mask selects bits `from` to `to` of a word. */
  predicate Selects(mask: Word, from: int, to: int)
  {
    forall i :: 0 <= i < 32 ==> Bit(mask, i) == (from <= i <= to)
  }

  lemma MergeBits(op: RasterOp, mask: Word, dst: Word, src: Word)
    ensures forall i :: 0 <= i < 32 ==>
      Bit(Merge(op, mask, dst, src), i) == if Bit(mask, i) then Raster(op, Bit(src, i), Bit(dst, i)) else Bit(dst, i)
  {
    hide Bit, And, Or, Not, Apply, Raster;
    ApplyBits(op, dst, src);
    NotBits(mask);
    AndBits(Apply(op, dst, src), mask);
    AndBits(dst, Not(mask));
    OrBits(And(Apply(op, dst, src), mask), And(dst, Not(mask)));
  }

  // ---- the state of memory inside a line ----

  /** Destination bits lo..hi of the line are final; every other bit is still as in `m0`. The source bits are those of
      `src`. */
  ghost predicate Written(m: seq<Word>, m0: seq<Word>, src: seq<Word>, tr: Transfer, lo: int, hi: int)
  {
    && |m| == |m0| && tr.Writes(32 * |m0|) && tr.Reads(32 * |src|) && tr.d <= lo && hi <= tr.d + tr.w
    && forall a :: 0 <= a < 32 * |m0| ==>
         MemBit(m, a) == if lo <= a < hi then Raster(tr.op, Src(src, tr, a) != tr.comp, MemBit(m0, a))
                         else MemBit(m0, a)
  }

  lemma NothingWritten(m: seq<Word>, src: seq<Word>, tr: Transfer, at: int)
    requires tr.Writes(32 * |m|) && tr.Reads(32 * |src|) && tr.d <= at <= tr.d + tr.w
    ensures Written(m, m, src, tr, at, at)
  {
    hide MemBit;
  }

  /** When all of the line is final, the source bits have been put into memory. */
  lemma AllWritten(m: seq<Word>, m0: seq<Word>, src: seq<Word>, tr: Transfer)
    requires Written(m, m0, src, tr, tr.d, tr.d + tr.w)
    ensures BitsOf(m) == Put(BitsOf(m0), tr.d, BitsOf(src)[tr.s..tr.s + tr.w], tr.op, tr.comp)
  {
    hide MemBit;
  }

  lemma LineWritten(m: seq<Word>, m0: seq<Word>, tr: Transfer)
    requires Written(m, m0, m0, tr, tr.d, tr.d + tr.w)
    ensures tr.Within(32 * |m0|) && BitsOf(m) == Line(BitsOf(m0), tr)
  {
    hide MemBit, BitsOf;
    AllWritten(m, m0, m0, tr);
  }

  /** The bits of `x` that fall in destination word `t` and in lo..hi are the source bits (complemented for `c`). */
  ghost predicate Stream(x: Word, m0: seq<Word>, tr: Transfer, t: int, lo: int, hi: int, c: bool)
    requires tr.Reads(32 * |m0|)
  {
    forall a :: tr.d <= a < tr.d + tr.w && lo <= a < hi && 32 * t <= a < 32 * t + 32 ==>
      WordBit(x, t, a) == (Src(m0, tr, a) != c)
  }

  lemma StreamComplement(x: Word, m0: seq<Word>, tr: Transfer, t: int, lo: int, hi: int)
    requires tr.Reads(32 * |m0|)
    requires Stream(x, m0, tr, t, lo, hi, false)
    ensures Stream(Not(x), m0, tr, t, lo, hi, true)
  {
    hide Bit, Not, MemBit;
    NotBits(x);
  }

  /** Storing a word makes the destination bits p..q of word `t` final. */
  lemma StoreWord(m: seq<Word>, m0: seq<Word>, src: seq<Word>, tr: Transfer, lo: int, hi: int, t: int, p: int, q: int,
                  sh: Word, x: Word)
    requires Written(m, m0, src, tr, lo, hi)
    requires 0 <= t < |m| && tr.d <= p <= q <= tr.d + tr.w && 32 * t <= p && q <= 32 * t + 32
    requires lo <= hi && (p == hi || q == lo)
    requires Stream(sh, src, tr, t, p, q, tr.comp)
    requires forall i :: 0 <= i < 32 ==>
      Bit(x, i) == if p <= 32 * t + i < q then Raster(tr.op, Bit(sh, i), Bit(m[t], i)) else Bit(m[t], i)
    ensures Written(m[t := x], m0, src, tr, if p == hi then lo else p, if p == hi then q else hi)
  {
    hide Bit, MemBit, Raster;
    var m1 := m[t := x];
    var lo1, hi1 := if p == hi then lo else p, if p == hi then q else hi;
    forall a | 0 <= a < 32 * |m0|
      ensures MemBit(m1, a) == if lo1 <= a < hi1 then Raster(tr.op, Src(src, tr, a) != tr.comp, MemBit(m0, a))
                               else MemBit(m0, a)
    {
      BitAfterStore(m, t, x, a);
      if 32 * t <= a < 32 * t + 32 {
        BitInWord(m, t, a - 32 * t);
        assert 32 * t + (a - 32 * t) == a;
        assert WordBit(sh, t, a) == Bit(sh, a - 32 * t);
      }
    }
  }

  lemma StreamPart(x: Word, m0: seq<Word>, tr: Transfer, t: int, lo: int, hi: int, p: int, q: int, c: bool)
    requires tr.Reads(32 * |m0|)
    requires Stream(x, m0, tr, t, lo, hi, c) && lo <= p && q <= hi
    ensures Stream(x, m0, tr, t, p, q, c)
  {
    hide WordBit, Src;
  }

  /** Storing under a mask that selects bits p..q. */
  lemma StoreMerged(m: seq<Word>, m0: seq<Word>, src: seq<Word>, tr: Transfer, lo: int, hi: int, t: int, p: int, q: int,
                    sh: Word, mask: Word)
    requires Written(m, m0, src, tr, lo, hi)
    requires 0 <= t < |m| && tr.d <= p <= q <= tr.d + tr.w && 32 * t <= p && q <= 32 * t + 32
    requires lo <= hi && (p == hi || q == lo)
    requires Stream(sh, src, tr, t, p, q, tr.comp)
    requires Selects(mask, p - 32 * t, q - 1 - 32 * t)
    ensures Written(m[t := Merge(tr.op, mask, m[t], sh)], m0, src, tr, if p == hi then lo else p,
        if p == hi then q else hi)
  {
    hide Bit, MemBit, Raster, Merge, Stream, Written;
    MergeBits(tr.op, mask, m[t], sh);
    StoreWord(m, m0, src, tr, lo, hi, t, p, q, sh, Merge(tr.op, mask, m[t], sh));
  }

  /** Storing a whole word. */
  lemma StoreWhole(m: seq<Word>, m0: seq<Word>, src: seq<Word>, tr: Transfer, lo: int, hi: int, t: int, sh: Word)
    requires Written(m, m0, src, tr, lo, hi)
    requires 0 <= t < |m| && tr.d <= 32 * t && 32 * t + 32 <= tr.d + tr.w
    requires lo <= hi && (32 * t == hi || 32 * t + 32 == lo)
    requires Stream(sh, src, tr, t, 32 * t, 32 * t + 32, tr.comp)
    ensures Written(m[t := Apply(tr.op, m[t], sh)], m0, src, tr,
                    if 32 * t == hi then lo else 32 * t, if 32 * t == hi then 32 * t + 32 else hi)
  {
    hide Bit, MemBit, Raster, Apply, Stream, Written;
    ApplyBits(tr.op, m[t], sh);
    StoreWord(m, m0, src, tr, lo, hi, t, 32 * t, 32 * t + 32, sh, Apply(tr.op, m[t], sh));
  }

  // ---- source words and the two halves they are split into ----

  /** Word `x` holds, for destination bits lo..hi, the bits of word `u` of the source as it was. */
  ghost predicate Fetched(x: Word, m0: seq<Word>, tr: Transfer, u: int, lo: int, hi: int)
    requires tr.Reads(32 * |m0|)
  {
    forall a :: tr.d <= a < tr.d + tr.w && lo <= a < hi && 32 * u <= tr.s + (a - tr.d) < 32 * u + 32 ==>
      WordBit(x, u, tr.s + (a - tr.d)) == Src(m0, tr, a)
  }

  /** A transfer within one line that may run to higher addresses. */
  ghost predicate ForwardSafe(tr: Transfer)
  {
    tr.d <= tr.s || tr.s + tr.w <= tr.d
  }

  /** A transfer within one line that may run to lower addresses. */
  ghost predicate BackwardSafe(tr: Transfer)
  {
    tr.s <= tr.d || tr.d + tr.w <= tr.s
  }

  /** Going up, source bits for the words still to come have not been overwritten. */
  lemma FetchForward(m: seq<Word>, m0: seq<Word>, tr: Transfer, u: int, done: int)
    requires 0 <= u < |m0| && Written(m, m0, m0, tr, tr.d, done) && ForwardSafe(tr)
    ensures Fetched(m[u], m0, tr, u, done, tr.d + tr.w)
  {
    hide Bit, MemBit, Raster;
    forall a | tr.d <= a < tr.d + tr.w && done <= a && 32 * u <= tr.s + (a - tr.d) < 32 * u + 32
      ensures WordBit(m[u], u, tr.s + (a - tr.d)) == Src(m0, tr, a)
    {
      var i := tr.s + (a - tr.d) - 32 * u;
      BitInWord(m, u, i);
      assert 32 * u + i == tr.s + (a - tr.d);
    }
  }

  /** Going down, likewise. */
  lemma FetchBackward(m: seq<Word>, m0: seq<Word>, tr: Transfer, u: int, done: int)
    requires 0 <= u < |m0| && Written(m, m0, m0, tr, done, tr.d + tr.w) && BackwardSafe(tr)
    ensures Fetched(m[u], m0, tr, u, tr.d, done)
  {
    hide Bit, MemBit, Raster;
    forall a | tr.d <= a < tr.d + tr.w && a < done && 32 * u <= tr.s + (a - tr.d) < 32 * u + 32
      ensures WordBit(m[u], u, tr.s + (a - tr.d)) == Src(m0, tr, a)
    {
      var i := tr.s + (a - tr.d) - 32 * u;
      BitInWord(m, u, i);
      assert 32 * u + i == tr.s + (a - tr.d);
    }
  }

  /** Source and destination are `32 * q + l` bits apart. */
  ghost predicate Offset(tr: Transfer, q: int, l: int)
  {
    tr.s - tr.d == 32 * q + l && 0 <= l < 32
  }

  /** `x` holds the first 32 - l bits of destination word `t`, and zeros after them. */
  ghost predicate Front(x: Word, m0: seq<Word>, tr: Transfer, t: int, l: int, lo: int, hi: int)
    requires tr.Reads(32 * |m0|)
  {
    && Stream(x, m0, tr, t, lo, if hi < 32 * t + 32 - l then hi else 32 * t + 32 - l, false)
    && forall i :: 32 - l <= i < 32 ==> 0 <= i && !Bit(x, i)
  }

  /** `x` holds the last l bits of destination word `t`, and zeros before them. */
  ghost predicate Back(x: Word, m0: seq<Word>, tr: Transfer, t: int, l: int, lo: int, hi: int)
    requires tr.Reads(32 * |m0|)
  {
    && Stream(x, m0, tr, t, if 32 * t + 32 - l < lo then lo else 32 * t + 32 - l, hi, false)
    && forall i :: 0 <= i < 32 - l ==> i < 32 && !Bit(x, i)
  }

  lemma ShiftedFront(x: Word, m0: seq<Word>, tr: Transfer, t: int, q: int, l: int, lo: int, hi: int)
    requires tr.Reads(32 * |m0|) && Offset(tr, q, l)
    requires Fetched(x, m0, tr, t + q, lo, hi)
    ensures Front(Shl(x, l), m0, tr, t, l, lo, hi)
  {
    hide Bit, MemBit, Shl;
    ShlBits(x, l);
  }

  lemma ShiftedBack(x: Word, m0: seq<Word>, tr: Transfer, t: int, q: int, l: int, lo: int, hi: int)
    requires tr.Reads(32 * |m0|) && Offset(tr, q, l) && 0 < l
    requires Fetched(x, m0, tr, t + q + 1, lo, hi)
    ensures Back(Shr(x, 32 - l), m0, tr, t, l, lo, hi)
  {
    hide Bit, MemBit, Shr;
    ShrBits(x, 32 - l);
  }

  lemma Join(f: Word, b: Word, m0: seq<Word>, tr: Transfer, t: int, l: int, lo: int, hi: int)
    requires tr.Reads(32 * |m0|) && 0 <= l < 32
    requires Front(f, m0, tr, t, l, lo, hi) && Back(b, m0, tr, t, l, lo, hi)
    ensures Stream(Or(f, b), m0, tr, t, lo, hi, false)
  {
    hide Bit, MemBit, Or;
    OrBits(f, b);
  }

  /** The source's masking with srcRmask changes nothing after the shift. */
  lemma MaskedBack(b: Word, m0: seq<Word>, tr: Transfer, t: int, l: int, lo: int, hi: int, ifZero: Word)
    requires tr.Reads(32 * |m0|) && 0 < l < 32
    requires Back(b, m0, tr, t, l, lo, hi)
    ensures Back(And(b, LowMask(l, ifZero)), m0, tr, t, l, lo, hi)
  {
    hide Bit, MemBit, And, LowMask;
    AndBits(b, LowMask(l, ifZero));
    LowMaskBits(l, ifZero);
  }

  lemma MaskedFront(f: Word, m0: seq<Word>, tr: Transfer, t: int, l: int, lo: int, hi: int, ifZero: Word)
    requires tr.Reads(32 * |m0|) && 0 < l < 32
    requires Front(f, m0, tr, t, l, lo, hi)
    ensures Front(And(f, Not(LowMask(l, ifZero))), m0, tr, t, l, lo, hi)
  {
    hide Bit, MemBit, And, Not, LowMask;
    NotBits(LowMask(l, ifZero));
    AndBits(f, Not(LowMask(l, ifZero)));
    LowMaskBits(l, ifZero);
  }

  /** A fetched word is the stream itself when source and destination are aligned. */
  lemma AlignedStream(x: Word, m0: seq<Word>, tr: Transfer, t: int, q: int, lo: int, hi: int)
    requires tr.Reads(32 * |m0|) && Offset(tr, q, 0)
    requires Fetched(x, m0, tr, t + q, lo, hi)
    ensures Stream(x, m0, tr, t, lo, hi, false)
  {
    hide Bit, MemBit;
  }

  /** Before anything is written every source word can be fetched. */
  lemma FetchedAtStart(m0: seq<Word>, tr: Transfer, u: int)
    requires 0 <= u < |m0| && tr.Reads(32 * |m0|)
    ensures Fetched(m0[u], m0, tr, u, tr.d, tr.d + tr.w)
  {
    hide Bit, MemBit;
    forall a | tr.d <= a < tr.d + tr.w && 32 * u <= tr.s + (a - tr.d) < 32 * u + 32
      ensures WordBit(m0[u], u, tr.s + (a - tr.d)) == Src(m0, tr, a)
    {
      BitInWord(m0, u, tr.s + (a - tr.d) - 32 * u);
      assert 32 * u + (tr.s + (a - tr.d) - 32 * u) == tr.s + (a - tr.d);
    }
  }

  /** No bit of the word is set. */
  ghost predicate Blank(x: Word)
  {
    forall i :: 0 <= i < 32 ==> !Bit(x, i)
  }

  lemma BlankMasked(x: Word)
    ensures Blank(And(x, Not(ONES))) && Blank(And(x, NONE))
  {
    hide Bit, And, Not;
    AndBits(x, Not(ONES));
    AndBits(x, NONE);
    NotBits(ONES);
    OnesBits();
  }

  lemma BlankOr(x: Word, y: Word)
    requires Blank(x)
    ensures forall i :: 0 <= i < 32 ==> Bit(Or(x, y), i) == Bit(y, i)
  {
    hide Bit, Or;
    OrBits(x, y);
  }

  /** With no shift, and masking by all ones, no bit changes. */
  lemma UnshiftedBits(x: Word)
    ensures forall i :: 0 <= i < 32 ==> Bit(And(Shr(x, 0), ONES), i) == Bit(x, i)
    ensures forall i :: 0 <= i < 32 ==> Bit(Shl(x, 0), i) == Bit(x, i)
  {
    hide Bit, And, Shr, Shl;
    ShrBits(x, 0);
    ShlBits(x, 0);
    AndBits(Shr(x, 0), ONES);
    OnesBits();
  }

  /** Words with the same bits carry the same stream. */
  lemma SameStream(x: Word, y: Word, m0: seq<Word>, tr: Transfer, t: int, lo: int, hi: int, c: bool)
    requires tr.Reads(32 * |m0|)
    requires forall i :: 0 <= i < 32 ==> Bit(x, i) == Bit(y, i)
    requires Stream(y, m0, tr, t, lo, hi, c)
    ensures Stream(x, m0, tr, t, lo, hi, c)
  {
    hide Bit, Src;
    forall a | tr.d <= a < tr.d + tr.w && lo <= a < hi && 32 * t <= a < 32 * t + 32
      ensures WordBit(x, t, a) == (Src(m0, tr, a) != c)
    {
      assert WordBit(y, t, a) == (Src(m0, tr, a) != c);
    }
  }

  // ---- the word-sized stores ----

  /** do_partial_transfer */
  method PartialTransfer(mem: array<Word>, dst32addr: int, op: RasterOp, mask: Word, shS: Word)
    requires 0 <= dst32addr < mem.Length
    modifies mem
    ensures mem[..] == old(mem[..])[dst32addr := Merge(op, mask, old(mem[dst32addr]), shS)]
  {
    var dstdata := mem[dst32addr];
    var dstold := And(dstdata, Not(mask));
    match op {
      case OpReplSrc => dstdata := shS;
      case OpFnAnd => dstdata := And(dstdata, shS);
      case OpFnOr => dstdata := Or(dstdata, shS);
      case OpFnXor => dstdata := Xor(dstdata, shS);
    }
    dstdata := And(dstdata, mask);
    dstdata := Or(dstdata, dstold);
    mem[dst32addr] := dstdata;
  }

  /** DestGetsF and DestGetsB, for the four operations. */
  method DestGets(mem: array<Word>, dst32addr: int, op: RasterOp, shS: Word)
    requires 0 <= dst32addr < mem.Length
    modifies mem
    ensures mem[..] == old(mem[..])[dst32addr := Apply(op, old(mem[dst32addr]), shS)]
  {
    match op {
      case OpReplSrc => mem[dst32addr] := shS;
      case OpFnAnd => mem[dst32addr] := And(mem[dst32addr], shS);
      case OpFnOr => mem[dst32addr] := Or(mem[dst32addr], shS);
      case OpFnXor => mem[dst32addr] := Xor(mem[dst32addr], shS);
    }
  }

  // ---- the same, keeping track of the line ----

  /** A masked word of the line: its bits p..q become final. */
  method PutPart(mem: array<Word>, dst32addr: int, op: RasterOp, mask: Word, shS: Word, ghost m0: seq<Word>,
                 ghost src: seq<Word>, ghost tr: Transfer, ghost lo: int, ghost hi: int, ghost p: int, ghost q: int)
    requires Written(mem[..], m0, src, tr, lo, hi) && op == tr.op
    requires 0 <= dst32addr < mem.Length && tr.d <= p <= q <= tr.d + tr.w
    requires 32 * dst32addr <= p && q <= 32 * dst32addr + 32 && lo <= hi && (p == hi || q == lo)
    requires tr.Reads(32 * |src|) && Stream(shS, src, tr, dst32addr, p, q, tr.comp)
    requires Selects(mask, p - 32 * dst32addr, q - 1 - 32 * dst32addr)
    modifies mem
    ensures Written(mem[..], m0, src, tr, if p == hi then lo else p, if p == hi then q else hi)
  {
    hide *;
    StoreMerged(mem[..], m0, src, tr, lo, hi, dst32addr, p, q, shS, mask);
    PartialTransfer(mem, dst32addr, op, mask, shS);
  }

  /** A whole word of the line. */
  method PutWhole(mem: array<Word>, dst32addr: int, op: RasterOp, shS: Word, ghost m0: seq<Word>, ghost src: seq<Word>,
                  ghost tr: Transfer, ghost lo: int, ghost hi: int)
    requires Written(mem[..], m0, src, tr, lo, hi) && op == tr.op
    requires 0 <= dst32addr < mem.Length && tr.d <= 32 * dst32addr && 32 * dst32addr + 32 <= tr.d + tr.w
    requires lo <= hi && (32 * dst32addr == hi || 32 * dst32addr + 32 == lo)
    requires tr.Reads(32 * |src|) && Stream(shS, src, tr, dst32addr, 32 * dst32addr, 32 * dst32addr + 32, tr.comp)
    modifies mem
    ensures Written(mem[..], m0, src, tr, if 32 * dst32addr == hi then lo else 32 * dst32addr,
                    if 32 * dst32addr == hi then 32 * dst32addr + 32 else hi)
  {
    hide *;
    StoreWhole(mem[..], m0, src, tr, lo, hi, dst32addr, shS);
    DestGets(mem, dst32addr, op, shS);
  }
}
