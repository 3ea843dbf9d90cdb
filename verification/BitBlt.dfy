/** The transfer engine: whole rectangles, line by line (new_bitblt_code, new_gray_bitblt_code of inc/bb.h). */
module BitBlt {
  import opened Words
  import opened BitSpec
  import opened LineWords
  import opened LineState
  import opened LineAdvance
  import opened ForwardLine
  import opened BackwardLine

  /** What the engine needs of each line it is given: room in memory, no bit overwritten within the line before it is
      read, and, going down, a word of memory below the source and a destination stride that advances rightly. */
  ghost predicate Runnable(n: int, tr: Transfer, h: int, dstbpl: int, srcbpl: int, backward: bool)
    decreases h
  {
    h <= 0 ||
    (&& tr.Within(n)
     && (if backward then BackwardSafe(tr) && Guarded(tr) else ForwardSafe(tr))
     && (backward && 1 < h ==> Fast(srcbpl, dstbpl) || BackwardDst(tr.d, tr.w).rbit + dstbpl < 32)
     && Runnable(n, tr.Moved(dstbpl, srcbpl), h - 1, dstbpl, srcbpl, backward))
  }

  lemma {:induction false} RunnableFits(n: int, tr: Transfer, h: int, dstbpl: int, srcbpl: int, backward: bool)
    requires Runnable(n, tr, h, dstbpl, srcbpl, backward)
    ensures Fits(n, tr.d, tr.w, h, dstbpl) && Fits(n, tr.s, tr.w, h, srcbpl)
    decreases h
  {
    if h > 0 {
      RunnableFits(n, tr.Moved(dstbpl, srcbpl), h - 1, dstbpl, srcbpl, backward);
    }
  }

  /** The line state is what a fresh start at this line would give. */
  predicate Fresh(ds: DstState, ss: SrcState, tr: Transfer, backward: bool)
  {
    if backward then ds == BackwardDst(tr.d, tr.w) && ss == BackwardSrc(tr.s, ds.lbit, tr.w)
    else ds == ForwardDst(tr.d, tr.w) && ss == ForwardSrc(tr.s, ds.lbit, tr.w)
  }

  /** bitblt with gray off: `h` line transfers, in the direction asked for. */
  method Bitblt(mem: array<Word>, srcbase: int, dstbase: int, sx: int, dx: int, w: int, h: int, srcbpl: int,
                dstbpl: int, backwardflg: bool, srcComp: bool, op: RasterOp)
    requires 1 <= w
    requires Runnable(32 * mem.Length, Transfer(8 * dstbase + dx, 8 * srcbase + sx, w, op, srcComp), h, dstbpl, srcbpl,
        backwardflg)
    modifies mem
    ensures var tr := Transfer(8 * dstbase + dx, 8 * srcbase + sx, w, op, srcComp);
      && Fits(32 * mem.Length, tr.d, w, h, dstbpl) && Fits(32 * mem.Length, tr.s, w, h, srcbpl)
      && BitsOf(mem[..]) == Lines(old(BitsOf(mem[..])), tr, h, dstbpl, srcbpl)
  {
    hide ForwardDst, BackwardDst, ForwardSrc, BackwardSrc, ForwardDstInit, ForwardSrcInit, BackwardDstInit,
      BackwardSrcInit, BitsOf, Line, Fresh;
    ghost var tr := Transfer(8 * dstbase + dx, 8 * srcbase + sx, w, op, srcComp);
    ghost var b0 := BitsOf(mem[..]);
    RunnableFits(32 * mem.Length, tr, h, dstbpl, srcbpl, backwardflg);
    var numLinesRemaining := h;
    var fast := Fast(srcbpl, dstbpl);
    var ds, ss := Start(srcbase, dstbase, sx, dx, w, backwardflg, op, srcComp);
    var savedS := NONE;
    while numLinesRemaining > 0
      invariant tr.w == w && tr.op == op && tr.comp == srcComp
      invariant Runnable(32 * mem.Length, tr, numLinesRemaining, dstbpl, srcbpl, backwardflg)
      invariant Fits(32 * mem.Length, tr.d, w, numLinesRemaining, dstbpl)
      invariant Fits(32 * mem.Length, tr.s, w, numLinesRemaining, srcbpl)
      invariant numLinesRemaining > 0 ==> Fresh(ds, ss, tr, backwardflg)
      invariant |BitsOf(mem[..])| == 32 * mem.Length
      invariant Lines(BitsOf(mem[..]), tr, numLinesRemaining, dstbpl, srcbpl)
             == Lines(b0, Transfer(8 * dstbase + dx, 8 * srcbase + sx, w, op, srcComp), h, dstbpl, srcbpl)
    {
      numLinesRemaining := numLinesRemaining - 1;
      savedS := OneLine(mem, ds, ss, w, op, srcComp, savedS, backwardflg, tr);
      ds, ss := Advance(ds, ss, w, dstbpl, srcbpl, fast, backwardflg, numLinesRemaining, tr);
      tr := tr.Moved(dstbpl, srcbpl);
    }
  }

  /** some_init */
  method Start(srcbase: int, dstbase: int, sx: int, dx: int, w: int, backward: bool, ghost op: RasterOp,
               ghost srcComp: bool)
    returns (ds: DstState, ss: SrcState)
    ensures Fresh(ds, ss, Transfer(8 * dstbase + dx, 8 * srcbase + sx, w, op, srcComp), backward)
  {
    hide ForwardDst, BackwardDst, ForwardSrc, BackwardSrc, ForwardDstInit, ForwardSrcInit, BackwardDstInit,
      BackwardSrcInit;
    InitIsFresh(srcbase, dstbase, sx, dx, w);
    if !backward {
      ds := ForwardDstInit(dstbase, dx, w);
      ss := ForwardSrcInit(srcbase, sx, w, ds);
    } else {
      ds := BackwardDstInit(dstbase, dx, w);
      ss := BackwardSrcInit(srcbase, sx, w, ds);
    }
  }

  method OneLine(mem: array<Word>, ds: DstState, ss: SrcState, w: int, op: RasterOp, srcComp: bool, savedS0: Word,
                 backward: bool, ghost tr: Transfer)
    returns (savedS: Word)
    requires 1 <= w && tr == Transfer(tr.d, tr.s, w, op, srcComp) && tr.Within(32 * mem.Length)
    requires if backward then BackwardSafe(tr) && Guarded(tr) else ForwardSafe(tr)
    requires Fresh(ds, ss, tr, backward)
    modifies mem
    ensures BitsOf(mem[..]) == Line(old(BitsOf(mem[..])), tr)
  {
    hide ForwardDst, BackwardDst, ForwardSrc, BackwardSrc, BitsOf, Line;
    if !backward {
      savedS := ForwardOneLine(mem, ds, ss, w, op, srcComp, savedS0, tr);
    } else {
      savedS := BackwardOneLine(mem, ds, ss, w, op, srcComp, savedS0, tr);
    }
  }

  /** F_do_advance and B_do_advance */
  method Advance(ds0: DstState, ss0: SrcState, w: int, dstbpl: int, srcbpl: int, fast: bool, backward: bool,
                 remaining: int, ghost tr: Transfer)
    returns (ds: DstState, ss: SrcState)
    requires tr.w == w && fast == Fast(srcbpl, dstbpl) && Fresh(ds0, ss0, tr, backward)
    requires backward && 0 < remaining ==> fast || BackwardDst(tr.d, tr.w).rbit + dstbpl < 32
    ensures 0 < remaining ==> Fresh(ds, ss, tr.Moved(dstbpl, srcbpl), backward)
  {
    hide ForwardDst, ForwardSrc, BackwardSrc, ForwardDstAdvance, ForwardSrcAdvance, BackwardSrcAdvance, BackwardDstAt;
    if !backward {
      ForwardAdvanceIsFresh(tr.d, tr.s, w, dstbpl, srcbpl, fast);
      ds := ForwardDstAdvance(ds0, w, dstbpl, fast);
      ss := ForwardSrcAdvance(ss0, ds, w, srcbpl, fast);
    } else {
      BackwardDstAdvanceIsFresh(tr.d, w, dstbpl, fast);
      ds := BackwardDstAdvance(ds0, w, dstbpl, fast);
      BackwardSrcAdvanceIsFresh(tr.s, w, ds0.lbit, ds, srcbpl, fast);
      ss := BackwardSrcAdvance(ss0, ds, w, srcbpl, fast);
    }
  }

  // ---- gray: a brick 16 bits wide, repeated ----

  /** A brick row as the low half of a word. */
  function Widened(row: bv16): Word
  {
    Word(row as bv32)
  }

  /** Bit `i` of a brick row. */
  predicate BrickBit(row: bv16, i: int)
    requires 0 <= i < 16
  {
    Bit(Widened(row), 16 + i)
  }

  /** `w` bits of a brick row, from bit `phase` on, round and round. */
  ghost function BrickRow(row: bv16, phase: int, w: int): (r: seq<bool>)
    requires 0 <= w
    ensures |r| == w
  {
    seq(w, k requires 0 <= k < w => BrickBit(row, (phase + k) % 16))
  }

  /** do_src_gray_advance */
  function NextRow(brick: seq<bv16>, curr: int): (next: int)
    requires 0 <= curr < |brick|
    ensures 0 <= next < |brick|
  {
    if curr + 1 >= |brick| then 0 else curr + 1
  }

  /** `h` such rows, from row `first` of the brick on, round and round. */
  ghost function BrickRows(brick: seq<bv16>, first: int, phase: int, w: int, h: int): (rows: seq<seq<bool>>)
    requires 0 <= w && 0 <= first < |brick|
    ensures |rows| == (if h <= 0 then 0 else h) && forall i :: 0 <= i < |rows| ==> |rows[i]| == w
    decreases h
  {
    if h <= 0 then [] else [BrickRow(brick[first], phase, w)] + BrickRows(brick, NextRow(brick, first), phase, w, h - 1)
  }

  /** Row `i` shows row first + i of the brick, modulo its height. */
  lemma {:induction false} BrickRowAt(brick: seq<bv16>, first: int, phase: int, w: int, h: int, i: int)
    requires 0 <= w && 0 <= first < |brick| && 0 <= i < h
    ensures 0 <= (first + i) % |brick| < |brick|
    ensures BrickRows(brick, first, phase, w, h)[i] == BrickRow(brick[(first + i) % |brick|], phase, w)
    decreases h
  {
    hide BrickRow;
    if i == 0 {
      DivUnique(first, |brick|, 0, first);
    } else {
      BrickRowAt(brick, NextRow(brick, first), phase, w, h - 1, i - 1);
      if first + 1 >= |brick| {
        AddModulus(i - 1, |brick|);
      }
    }
  }

  lemma AddModulus(x: int, n: int)
    requires 0 < n
    ensures (x + n) % n == x % n
  {
    assert n * (x / n + 1) == n * (x / n) + n;
    DivUnique(x + n, n, x / n + 1, x % n);
  }

  lemma DivUnique(a: int, n: int, q: int, r: int)
    requires 0 <= r < n && a == n * q + r
    ensures a % n == r && a / n == q
  {
    var p := a / n;
    assert a == n * p + a % n;
    if p < q {
      Scaled(n, p + 1, q);
    } else if q < p {
      Scaled(n, q + 1, p);
    }
  }

  lemma Scaled(n: int, x: int, y: int)
    requires 0 <= n && x <= y
    ensures n * x <= n * y && n * x == n * (x - 1) + n
  {
    assert n * (y - x) >= 0;
  }

  /** The row laid end to end: at place `lbit` of the word, the row's column `phase`. */
  predicate Turned(shS: Word, row: bv16, phase: int, lbit: int, comp: bool)
  {
    forall i :: 0 <= i < 32 ==> Bit(shS, i) == (BrickBit(row, (i + phase - lbit) % 16) != comp)
  }

  /** do_src_gray_setup: the row, replicated and rotated to line up with the destination. */
  method GraySetup(row: bv16, src32lbit: int, dst32lbit: int, srcComp: bool) returns (shS: Word)
    ensures Turned(shS, row, src32lbit, dst32lbit, srcComp)
  {
    hide *;
    var srcLshift := (src32lbit - dst32lbit) % 16;
    shS := Widened(row);
    shS := Or(shS, Shl(shS, 16));
    shS := Shl(shS, srcLshift);
    shS := Or(shS, And(LOW_HALF, Shr(shS, 16)));
    RotatedBits(row, srcLshift);
    ghost var s := shS;
    forall i | 0 <= i < 32
      ensures Bit(s, i) == BrickBit(row, (i + src32lbit - dst32lbit) % 16)
    {
      SumMod(i, src32lbit - dst32lbit);
    }
    if srcComp {
      NotBits(shS);
      shS := Not(shS);
    }
    IsTurned(shS, row, src32lbit, dst32lbit, srcComp);
  }

  lemma IsTurned(shS: Word, row: bv16, phase: int, lbit: int, comp: bool)
    requires forall i :: 0 <= i < 32 ==> Bit(shS, i) == (BrickBit(row, (i + phase - lbit) % 16) != comp)
    ensures Turned(shS, row, phase, lbit, comp)
  {
  }

  const LOW_HALF: Word := Word(0xFFFF)

  lemma SumMod(a: int, b: int)
    ensures (a + b % 16) % 16 == (a + b) % 16
  {
  }

  lemma RotatedBits(row: bv16, n: int)
    requires 0 <= n < 16
    ensures var s1 := Or(Widened(row), Shl(Widened(row), 16));
      var s2 := Shl(s1, n);
      var s3 := Or(s2, And(LOW_HALF, Shr(s2, 16)));
      forall i :: 0 <= i < 32 ==> Bit(s3, i) == BrickBit(row, (i + n) % 16)
  {
    hide *;
    var s0 := Widened(row);
    var s1 := Or(s0, Shl(s0, 16));
    var s2 := Shl(s1, n);
    var s3 := Or(s2, And(LOW_HALF, Shr(s2, 16)));
    ReplicatedBits(row);
    forall i | 0 <= i < 32
      ensures Bit(s3, i) == BrickBit(row, (i + n) % 16)
    {
      RejoinedBit(s2, i);
      RotatedBit(s0, s1, s2, s3, n, i);
      BrickBitIs(row, (i + n) % 16);
    }
  }

  /** The low half of `s0`, twice. */
  ghost predicate Replicated(s1: Word, s0: Word)
  {
    forall j :: 0 <= j < 32 ==> Bit(s1, j) == Bit(s0, 16 + j % 16)
  }

  lemma ReplicatedBits(row: bv16)
    ensures Replicated(Or(Widened(row), Shl(Widened(row), 16)), Widened(row))
  {
    hide Bit, Or, Shl, Widened;
    var s0 := Widened(row);
    HighHalf(row);
    ShlBits(s0, 16);
    OrBits(s0, Shl(s0, 16));
  }

  lemma RejoinedBit(s2: Word, i: int)
    requires 0 <= i < 32
    ensures Bit(Or(s2, And(LOW_HALF, Shr(s2, 16))), i) == (Bit(s2, i) || (16 <= i && Bit(s2, i - 16)))
  {
    hide *;
    ShrBit(s2, 16, i);
    HalfMask();
    LogicBit(LOW_HALF, Shr(s2, 16), i);
    LogicBit(s2, And(LOW_HALF, Shr(s2, 16)), i);
  }

  lemma BrickBitIs(row: bv16, i: int)
    requires 0 <= i < 16
    ensures BrickBit(row, i) == Bit(Widened(row), 16 + i)
  {
    hide Bit, Widened;
  }

  /** The replicated word, rotated left by `n`, bit by bit. */
  lemma RotatedBit(s0: Word, s1: Word, s2: Word, s3: Word, n: int, i: int)
    requires 0 <= n < 16 && 0 <= i < 32
    requires Replicated(s1, s0) && s2 == Shl(s1, n)
    requires Bit(s3, i) == (Bit(s2, i) || (16 <= i && Bit(s2, i - 16)))
    ensures Bit(s3, i) == Bit(s0, 16 + (i + n) % 16)
  {
    hide *;
    ShlBit(s1, n, i);
    if i >= 16 {
      ShlBit(s1, n, i - 16);
      ReplicatedAt(s1, s0, i - 16 + n);
      SameColumn(i + n);
    }
    if i + n < 32 {
      ReplicatedAt(s1, s0, i + n);
    }
  }

  lemma SameColumn(x: int)
    ensures (x - 16) % 16 == x % 16
  {
  }

  lemma ReplicatedAt(s1: Word, s0: Word, j: int)
    requires 0 <= j < 32 && Replicated(s1, s0)
    ensures Bit(s1, j) == Bit(s0, 16 + j % 16)
  {
    hide Bit;
  }

  lemma HighHalf(row: bv16)
    ensures forall i :: 0 <= i < 16 ==> !Bit(Widened(row), i)
  {
    hide Bit, Widened, Amount, LowBit;
    forall i | 0 <= i < 16
      ensures !Bit(Widened(row), i)
    {
      BitIsLowBit(Widened(row), i);
      AmountOrder(31 - i, 16);
      SixteenAmount();
      HighLowBit(row, Amount(31 - i));
    }
  }

  lemma SixteenAmount()
    ensures Amount(16) == 16
  {
    AmountConverts(16);
  }

  lemma HighLowBit(row: bv16, k: bv6)
    requires 16 <= k < 32
    ensures !LowBit(Widened(row), k)
  {
  }

  lemma HalfMask()
    ensures forall i :: 0 <= i < 32 ==> Bit(LOW_HALF, i) == (16 <= i)
  {
    hide Bit;
    LowMaskBits(16, NONE);
    assert LowMask(16, NONE) == LOW_HALF;
  }

  // ---- gray lines ----

  /** A brick row laid end to end through `n` words. */
  ghost function Tiled(row: bv16, n: nat): (m: seq<Word>)
    ensures |m| == n && forall u :: 0 <= u < n ==> m[u] == Or(Widened(row), Shl(Widened(row), 16))
  {
    seq(n, _ => Or(Widened(row), Shl(Widened(row), 16)))
  }

  lemma TiledBit(row: bv16, n: nat, a: int)
    requires 0 <= a < 32 * n
    ensures MemBit(Tiled(row, n), a) == BrickBit(row, a % 16)
  {
    hide Bit, Shl, Or, Widened, BrickBit;
    var s0 := Widened(row);
    HighHalf(row);
    ShlBits(s0, 16);
    OrBits(s0, Shl(s0, 16));
    BrickBitIs(row, a % 16);
    assert a % 32 == a % 16 || a % 32 == a % 16 + 16;
  }

  /** A gray line is a transfer from the brick row laid end to end. */
  function GrayTransfer(d: int, w: int, op: RasterOp, comp: bool, phase: int): Transfer
  {
    Transfer(d, phase % 16, w, op, comp)
  }

  ghost function GraySource(row: bv16, w: int): seq<Word>
    requires 0 <= w
  {
    Tiled(row, w / 32 + 2)
  }

  lemma GraySourceBits(row: bv16, d: int, w: int, op: RasterOp, comp: bool, phase: int)
    requires 0 <= w
    ensures var src, tr := GraySource(row, w), GrayTransfer(d, w, op, comp, phase);
      && tr.Reads(32 * |src|)
      && BitsOf(src)[tr.s..tr.s + w] == BrickRow(row, phase, w)
      && forall a :: d <= a < d + w ==> Src(src, tr, a) == BrickBit(row, (phase + (a - d)) % 16)
  {
    hide MemBit, BrickBit, Tiled;
    var src, tr := GraySource(row, w), GrayTransfer(d, w, op, comp, phase);
    var bits, pattern := BitsOf(src)[tr.s..tr.s + w], BrickRow(row, phase, w);
    forall k | 0 <= k < w
      ensures bits[k] == pattern[k]
    {
      TiledBit(row, w / 32 + 2, tr.s + k);
      SumMod(k, phase);
    }
    assert bits == pattern;
    forall a | d <= a < d + w
      ensures Src(src, tr, a) == BrickBit(row, (phase + (a - d)) % 16)
    {
      assert bits[a - d] == pattern[a - d];
    }
  }

  /** The shaded word serves every word of the line. */
  lemma GrayStream(shS: Word, row: bv16, d: int, w: int, op: RasterOp, comp: bool, phase: int, t: int, lo: int, hi: int)
    requires 0 <= w
    requires forall i :: 0 <= i < 32 ==> Bit(shS, i) == (BrickBit(row, (i + phase - d % 32) % 16) != comp)
    ensures GrayTransfer(d, w, op, comp, phase).Reads(32 * |GraySource(row, w)|)
    ensures Stream(shS, GraySource(row, w), GrayTransfer(d, w, op, comp, phase), t, lo, hi, comp)
  {
    hide Bit, Src, BrickBit, GraySource;
    var tr := GrayTransfer(d, w, op, comp, phase);
    GraySourceBits(row, d, w, op, comp, phase);
    forall a | d <= a < d + w && lo <= a < hi && 32 * t <= a < 32 * t + 32
      ensures WordBit(shS, t, a) == (Src(GraySource(row, w), tr, a) != comp)
    {
      GrayColumn(d, phase, t, a);
    }
  }

  lemma GrayColumn(d: int, phase: int, t: int, a: int)
    ensures (a - 32 * t + phase - d % 32) % 16 == (phase + (a - d)) % 16
  {
    assert a - 32 * t + phase - d % 32 == phase + (a - d) + 16 * (2 * (d / 32) - 2 * t);
    SumMod(phase + (a - d), 16 * (2 * (d / 32) - 2 * t));
  }

  /** do_gray_transfer: one line of one shaded word. */
  method GrayLine(mem: array<Word>, ds: DstState, w: int, op: RasterOp, srcComp: bool, shS: Word, ghost d: int,
                  ghost phase: int, ghost row: bv16)
    requires 1 <= w && 0 <= d && d + w <= 32 * mem.Length && ds == ForwardDst(d, w)
    requires Turned(shS, row, phase, ds.lbit, srcComp)
    modifies mem
    ensures BitsOf(mem[..]) == Put(old(BitsOf(mem[..])), d, BrickRow(row, phase, w), op, srcComp)
  {
    hide Bit, ForwardDst, Stream, Src, MemBit, Raster, Selects, Merge, Apply, Written, BrickBit, BitsOf, Put, And,
      FromMask, UpToMask, GraySource;
    ghost var m0, end := mem[..], d + w;
    ghost var src, tr := GraySource(row, w), GrayTransfer(d, w, op, srcComp, phase);
    GraySourceBits(row, d, w, op, srcComp, phase);
    GrayGeometry(d, w, tr);
    ForwardMasks(tr);
    var dst32addr := ds.addr;
    NothingWritten(m0, src, tr, d);
    if ds.lbit + w <= 32 {
      GrayStream(shS, row, d, w, op, srcComp, phase, dst32addr, d, end);
      PutPart(mem, dst32addr, op, ds.sdwMask, shS, m0, src, tr, d, d, d, end);
    } else {
      GrayStream(shS, row, d, w, op, srcComp, phase, dst32addr, d, 32 * (dst32addr + 1));
      PutPart(mem, dst32addr, op, ds.preloopMask, shS, m0, src, tr, d, d, d, 32 * (dst32addr + 1));
      dst32addr := dst32addr + 1;
      var cnt := ds.numL - 1;
      while cnt >= 0
        invariant -1 <= cnt && dst32addr == ds.addr + 1 + ds.numL - (cnt + 1)
        invariant Written(mem[..], m0, src, tr, d, 32 * dst32addr)
      {
        GrayStream(shS, row, d, w, op, srcComp, phase, dst32addr, 32 * dst32addr, 32 * dst32addr + 32);
        PutWhole(mem, dst32addr, op, shS, m0, src, tr, d, 32 * dst32addr);
        dst32addr := dst32addr + 1;
        cnt := cnt - 1;
      }
      if ds.rbit != 31 {
        GrayStream(shS, row, d, w, op, srcComp, phase, dst32addr, 32 * dst32addr, end);
        PutPart(mem, dst32addr, op, ds.postloopMask, shS, m0, src, tr, d, 32 * dst32addr, 32 * dst32addr, end);
      }
    }
    AllWritten(mem[..], m0, src, tr);
  }

  lemma GrayGeometry(d: int, w: int, tr: Transfer)
    requires 1 <= w == tr.w && d == tr.d
    ensures var ds := ForwardDst(d, w);
      0 <= ds.lbit < 32 && 0 <= ds.rbit < 32 && d == 32 * ds.addr + ds.lbit && ds.lbit == d % 32
  {
    hide FromMask, UpToMask, And;
  }

  /** bitblt with gray on, and new_gray_bitblt_code: always going up, whatever the direction flag. */
  method BitbltGray(mem: array<Word>, dstbase: int, sx: int, dx: int, w: int, h: int, dstbpl: int, srcComp: bool,
                    op: RasterOp, brick: seq<bv16>, first: int)
    requires 1 <= w && 0 <= first < |brick|
    requires Fits(32 * mem.Length, 8 * dstbase + dx, w, h, dstbpl)
    modifies mem
    ensures FitsRows(32 * mem.Length, 8 * dstbase + dx, brick, first, sx, w, h, dstbpl)
    ensures BitsOf(mem[..])
         == Grayed(old(BitsOf(mem[..])), 8 * dstbase + dx, brick, first, sx, w, h, dstbpl, op, srcComp)
  {
    hide ForwardDst, BackwardDst, ForwardSrc, BackwardSrc, ForwardDstInit, ForwardSrcInit, BackwardDstInit,
      BackwardSrcInit, ForwardDstAdvance, ForwardSrcAdvance, BitsOf, MemBit, Put, BrickRow, Turned, Fits, FitsRows,
      Grayed;
    ghost var d, b0 := 8 * dstbase + dx, BitsOf(mem[..]);
    var numLinesRemaining, currGrayLine, row := h, first, first;
    var fast := dstbpl % 32 == 0;
    InitIsFresh(0, dstbase, 0, dx, w);
    BrickFits(32 * mem.Length, d, brick, first, sx, w, h, dstbpl);
    var ds := ForwardDstInit(dstbase, dx, w);
    var src32lbit := sx % 16;
    while numLinesRemaining > 0
      invariant 0 <= currGrayLine < |brick| && row == currGrayLine
      invariant Fits(32 * mem.Length, d, w, numLinesRemaining, dstbpl)
      invariant ds == ForwardDst(d, w)
      invariant |BitsOf(mem[..])| == 32 * mem.Length
      invariant FitsRows(|BitsOf(mem[..])|, d, brick, currGrayLine, sx, w, numLinesRemaining, dstbpl)
      invariant Grayed(BitsOf(mem[..]), d, brick, currGrayLine, sx, w, numLinesRemaining, dstbpl, op, srcComp)
             == Grayed(b0, 8 * dstbase + dx, brick, first, sx, w, h, dstbpl, op, srcComp)
    {
      var shS := GraySetup(brick[row], src32lbit, ds.lbit, srcComp);
      GrayPhase(shS, brick[row], sx, ds.lbit, srcComp);
      GrayStep(BitsOf(mem[..]), d, brick, currGrayLine, sx, w, numLinesRemaining, dstbpl, op, srcComp);
      LbitIs(d, w);
      GrayLine(mem, ds, w, op, srcComp, shS, d, sx, brick[row]);
      ForwardAdvanceIsFresh(d, 0, w, dstbpl, 0, fast);
      ds := ForwardDstAdvance(ds, w, dstbpl, fast);
      numLinesRemaining := numLinesRemaining - 1;
      currGrayLine := currGrayLine + 1;
      if currGrayLine >= |brick| {
        currGrayLine := 0;
        row := row - (|brick| - 1);
      } else {
        row := row + 1;
      }
      d := d + dstbpl;
    }
    NoGray(BitsOf(mem[..]), d, brick, currGrayLine, sx, w, numLinesRemaining, dstbpl, op, srcComp);
  }

  lemma LbitIs(d: int, w: int)
    ensures ForwardDst(d, w).lbit == d % 32
  {
    hide FromMask, UpToMask, And;
  }

  /** The lines of the brick, from row `first` on, put one after the other. */
  ghost function Grayed(b: seq<bool>, d: int, brick: seq<bv16>, first: int, phase: int, w: int, h: int, bpl: int,
                        op: RasterOp, comp: bool): seq<bool>
    requires 0 <= w && 0 <= first < |brick| && FitsRows(|b|, d, brick, first, phase, w, h, bpl)
  {
    PutLines(b, d, w, BrickRows(brick, first, phase, w, h), bpl, op, comp)
  }

  /** The brick rows are as wide as the line, and the lines fit. */
  ghost predicate FitsRows(n: int, d: int, brick: seq<bv16>, first: int, phase: int, w: int, h: int, bpl: int)
    requires 0 <= w && 0 <= first < |brick|
  {
    var rows := BrickRows(brick, first, phase, w, h);
    (forall i :: 0 <= i < |rows| ==> |rows[i]| == w) && Fits(n, d, w, |rows|, bpl)
  }

  lemma BrickFits(n: int, d: int, brick: seq<bv16>, first: int, phase: int, w: int, h: int, bpl: int)
    requires 0 <= w && 0 <= first < |brick| && Fits(n, d, w, h, bpl)
    ensures FitsRows(n, d, brick, first, phase, w, h, bpl)
  {
    EmptyFits(n, d, w, h, bpl);
  }

  lemma GrayStep(b: seq<bool>, d: int, brick: seq<bv16>, curr: int, phase: int, w: int, h: int, bpl: int, op: RasterOp,
                 comp: bool)
    requires 0 <= w && 0 <= curr < |brick| && 0 < h && Fits(|b|, d, w, h, bpl)
    ensures 0 <= d && d + w <= |b| && Fits(|b|, d + bpl, w, h - 1, bpl)
    ensures FitsRows(|b|, d, brick, curr, phase, w, h, bpl)
    ensures FitsRows(|b|, d + bpl, brick, NextRow(brick, curr), phase, w, h - 1, bpl)
    ensures Grayed(b, d, brick, curr, phase, w, h, bpl, op, comp)
         == Grayed(Put(b, d, BrickRow(brick[curr], phase, w), op, comp), d + bpl, brick, NextRow(brick, curr), phase, w,
                   h - 1, bpl, op, comp)
  {
    hide Put, PutLines, BrickRow;
    EmptyFits(|b|, d + bpl, w, h - 1, bpl);
    PutLinesCons(b, d, w, BrickRow(brick[curr], phase, w), BrickRows(brick, NextRow(brick, curr), phase, w, h - 1), bpl,
                 op, comp);
  }

  lemma EmptyFits(n: int, d: int, w: int, h: int, bpl: int)
    requires Fits(n, d, w, h, bpl)
    ensures Fits(n, d, w, if h <= 0 then 0 else h, bpl)
  {
  }

  lemma NoGray(b: seq<bool>, d: int, brick: seq<bv16>, first: int, phase: int, w: int, h: int, bpl: int, op: RasterOp,
               comp: bool)
    requires 0 <= w && 0 <= first < |brick| && h <= 0
    ensures FitsRows(|b|, d, brick, first, phase, w, h, bpl)
    ensures Grayed(b, d, brick, first, phase, w, h, bpl, op, comp) == b
  {
  }

  lemma GrayPhase(shS: Word, row: bv16, sx: int, lbit: int, comp: bool)
    requires Turned(shS, row, sx % 16, lbit, comp)
    ensures Turned(shS, row, sx, lbit, comp)
  {
    hide Bit, BrickBit;
    forall i | 0 <= i < 32
      ensures Bit(shS, i) == (BrickBit(row, (i + sx - lbit) % 16) != comp)
    {
      SumMod(i - lbit, sx);
    }
  }
}
