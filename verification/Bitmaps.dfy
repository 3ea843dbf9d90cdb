/** Bitmaps, and the Lisp entry points that transfer between them (src/bbtsub.c). */
module Bitmaps {
  import opened Words
  import opened BitSpec
  import opened LineWords
  import opened LineState
  import opened BackwardLine
  import opened BitBlt

  /** A one-bit-per-pixel bitmap: the address of its record, its first 16-bit word, words per row, and extent in
      pixels. */
  datatype Bitmap = Bitmap(addr: int, base: int, rasterwidth: int, width: int, height: int)

  /** The bit address of column `x` of row `y`, rows counted from the top. */
  function Px(bm: Bitmap, x: int, y: int): int
  {
    16 * (bm.base + bm.rasterwidth * y) + x
  }

  ghost predicate Stored(bm: Bitmap, n: int)
  {
    && 0 <= bm.base && 0 <= bm.width <= 16 * bm.rasterwidth && 0 <= bm.height
    && 16 * (bm.base + bm.rasterwidth * bm.height) <= n
  }

  /** Both bitmaps lie in memory; the same record is the same bitmap. */
  ghost predicate Placed(src: Bitmap, dst: Bitmap, n: int)
  {
    Stored(src, n) && Stored(dst, n) && (src.addr == dst.addr ==> src == dst)
  }

  /** No bit of the source rectangle is a bit of the destination rectangle. */
  ghost predicate Apart(src: Bitmap, dst: Bitmap, slx: int, sty: int, dlx: int, dty: int, w: int, h: int)
  {
    forall x, y, x', y' :: slx <= x < slx + w && sty <= y < sty + h && dlx <= x' < dlx + w && dty <= y' < dty + h ==>
      Px(dst, x', y') != Px(src, x, y)
  }

  /** What the code takes for granted: rectangles of different records do not overlap, and going backward there is a
      word of memory below every source line that the setup reads below. */
  ghost predicate MayMove(src: Bitmap, dst: Bitmap, slx: int, sty: int, dlx: int, dty: int, w: int, h: int)
  {
    && (src.addr != dst.addr ==> Apart(src, dst, slx, sty, dlx, dty, w, h))
    && LinesGuarded(src, dst, slx, sty, dlx, dty, w, h)
  }

  ghost predicate LinesGuarded(src: Bitmap, dst: Bitmap, slx: int, sty: int, dlx: int, dty: int, w: int, h: int)
  {
    GoBackward(src, dst, slx, sty, dlx, dty, w, h) ==>
      forall y :: 0 <= y < h ==> LineGuarded(src, dst, slx, sty, dlx, dty, w, y)
  }

  ghost predicate LineGuarded(src: Bitmap, dst: Bitmap, slx: int, sty: int, dlx: int, dty: int, w: int, y: int)
  {
    Strays(Px(dst, dlx, dty + y), Px(src, slx, sty + y), w) ==> 32 <= Px(src, slx, sty + y)
  }

  ghost predicate Inside(bm: Bitmap, x: int, y: int, w: int, h: int)
  {
    0 <= x && x + w <= 16 * bm.rasterwidth && 0 <= y && y + h <= bm.height
  }

  // ---- pixels and bits ----

  lemma RowsBelow(r: int, y: int, z: int)
    requires 0 <= r && y <= z
    ensures r * y <= r * z
  {
    assert r * (z - y) >= 0;
  }

  lemma PxInside(bm: Bitmap, n: int, x: int, y: int)
    requires Stored(bm, n) && 0 <= x < 16 * bm.rasterwidth && 0 <= y < bm.height
    ensures 16 * bm.base <= Px(bm, x, y) < 16 * (bm.base + bm.rasterwidth * bm.height)
    ensures 0 <= Px(bm, x, y) < n
  {
    RowsBelow(bm.rasterwidth, y + 1, bm.height);
    RowsBelow(bm.rasterwidth, 0, y);
    assert bm.rasterwidth * (y + 1) == bm.rasterwidth * y + bm.rasterwidth;
  }

  /** Different pixels lie at different bits. */
  lemma PxUnique(bm: Bitmap, x: int, y: int, x': int, y': int)
    requires 0 <= x < 16 * bm.rasterwidth && 0 <= x' < 16 * bm.rasterwidth
    requires Px(bm, x, y) == Px(bm, x', y')
    ensures x == x' && y == y'
  {
    var r := bm.rasterwidth;
    assert r * (y + 1) == r * y + r && r * (y' + 1) == r * y' + r;
    if y < y' {
      RowsBelow(r, y + 1, y');
    } else if y' < y {
      RowsBelow(r, y' + 1, y);
    }
  }

  /** Line `i` of a rectangle, taken from the top down. */
  lemma PxDown(bm: Bitmap, x: int, y: int, i: int, k: int)
    ensures At(Px(bm, x, y), 16 * bm.rasterwidth, i, k) == Px(bm, x + k, y + i)
  {
    assert bm.rasterwidth * (y + i) == bm.rasterwidth * y + bm.rasterwidth * i;
    assert i * (16 * bm.rasterwidth) == 16 * (bm.rasterwidth * i);
  }

  /** Line `i` of a rectangle, taken from the bottom up. */
  lemma PxUp(bm: Bitmap, x: int, y: int, h: int, i: int, k: int)
    ensures At(Px(bm, x, y + h - 1), 0 - 16 * bm.rasterwidth, i, k) == Px(bm, x + k, y + (h - 1 - i))
  {
    PxDown(bm, x, y + h - 1, -i, k);
    assert -i * (16 * bm.rasterwidth) == i * (0 - 16 * bm.rasterwidth);
  }

  ghost predicate InRect(bm: Bitmap, x: int, y: int, w: int, h: int, a: int)
  {
    exists px, py :: x <= px < x + w && y <= py < y + h && a == Px(bm, px, py)
  }

  /** Pixel (x, y) of `r` is combined with the source pixel that lies at (sx, sy) as it lies at (dx, dy). */
  ghost predicate PixelCopied(b: seq<bool>, r: seq<bool>, src: Bitmap, sx: int, sy: int, dst: Bitmap, dx: int, dy: int,
                              op: RasterOp, comp: bool, x: int, y: int)
    requires |r| == |b|
  {
    && 0 <= Px(dst, x, y) < |b| && 0 <= Px(src, x + (sx - dx), y + (sy - dy)) < |b|
    && r[Px(dst, x, y)] == Raster(op, b[Px(src, x + (sx - dx), y + (sy - dy))] != comp, b[Px(dst, x, y)])
  }

  /** `r` is `b` with the rectangle at (dx, dy) combined with the one at (sx, sy) as it was in `b`. */
  ghost predicate Copied(b: seq<bool>, r: seq<bool>, src: Bitmap, sx: int, sy: int, dst: Bitmap, dx: int, dy: int,
                         w: int, h: int, op: RasterOp, comp: bool)
  {
    && |r| == |b|
    && (forall x, y :: dx <= x < dx + w && dy <= y < dy + h ==>
          PixelCopied(b, r, src, sx, sy, dst, dx, dy, op, comp, x, y))
    && (forall a :: 0 <= a < |b| && !InRect(dst, dx, dy, w, h, a) ==> r[a] == b[a])
  }

  // ---- the operation: bbop and bbsrc_type ----

  datatype SourceType = InputSource | InvertSource | TextureSource

  datatype Operation = Replace | Paint | Erase | Invert

  function BbOp(operation: Operation): RasterOp
  {
    match operation
    case Paint => OpFnOr
    case Erase => OpFnAnd
    case Invert => OpFnXor
    case Replace => OpReplSrc
  }

  predicate BbSrcType(sourcetype: SourceType, operation: Operation)
  {
    if sourcetype == InvertSource then operation != Erase else operation == Erase
  }

  /** What the pixel operation means: PixOperationLisp. */
  predicate PixOperation(sourcetype: SourceType, operation: Operation, src: bool, dst: bool)
  {
    match operation
    case Replace => if sourcetype == InvertSource then !src else src
    case Paint => (if sourcetype == InvertSource then !src else src) || dst
    case Erase => (if sourcetype == InvertSource then src else !src) && dst
    case Invert => (if sourcetype == InvertSource then !src else src) != dst
  }

  lemma OperationMeaning(sourcetype: SourceType, operation: Operation, src: bool, dst: bool)
    ensures Raster(BbOp(operation), src != BbSrcType(sourcetype, operation), dst)
         == PixOperation(sourcetype, operation, src, dst)
  {
  }

  // ---- which way to go ----

  predicate GoBackward(src: Bitmap, dst: Bitmap, slx: int, sty: int, dlx: int, dty: int, w: int, h: int)
  {
    if src.addr != dst.addr then false
    else if sty > dty then false
    else if dty > sty + h then false
    else sty != dty || (slx < dlx && dlx < slx + w)
  }

  /** The first line transferred. */
  function FirstLine(src: Bitmap, dst: Bitmap, slx: int, sty: int, dlx: int, dty: int, w: int, h: int, op: RasterOp,
                     comp: bool): Transfer
  {
    if GoBackward(src, dst, slx, sty, dlx, dty, w, h)
    then Transfer(Px(dst, dlx, dty + h - 1), Px(src, slx, sty + h - 1), w, op, comp)
    else Transfer(Px(dst, dlx, dty), Px(src, slx, sty), w, op, comp)
  }

  function Stride(bm: Bitmap, backward: bool): int
  {
    if backward then 0 - 16 * bm.rasterwidth else 16 * bm.rasterwidth
  }

  /** The row, from the top of the rectangle, that the i-th line moves. */
  function RowAt(backward: bool, h: int, i: int): int
  {
    if backward then h - 1 - i else i
  }

  lemma LineAt(src: Bitmap, dst: Bitmap, slx: int, sty: int, dlx: int, dty: int, w: int, h: int, op: RasterOp,
               comp: bool, i: int, k: int)
    ensures var back, tr := GoBackward(src, dst, slx, sty, dlx, dty, w, h),
                FirstLine(src, dst, slx, sty, dlx, dty, w, h, op, comp);
      && At(tr.d, Stride(dst, back), i, k) == Px(dst, dlx + k, dty + RowAt(back, h, i))
      && At(tr.s, Stride(src, back), i, k) == Px(src, slx + k, sty + RowAt(back, h, i))
  {
    hide At, Px;
    PxDown(dst, dlx, dty, i, k);
    PxDown(src, slx, sty, i, k);
    PxUp(dst, dlx, dty, h, i, k);
    PxUp(src, slx, sty, h, i, k);
  }

  /** The chosen direction never overwrites a source row that is still to be read. */
  lemma DirectionReadsFirst(src: Bitmap, dst: Bitmap, n: int, slx: int, sty: int, dlx: int, dty: int, w: int, h: int,
                            op: RasterOp, comp: bool)
    requires Placed(src, dst, n) && Inside(src, slx, sty, w, h) && Inside(dst, dlx, dty, w, h)
    requires MayMove(src, dst, slx, sty, dlx, dty, w, h)
    ensures var back := GoBackward(src, dst, slx, sty, dlx, dty, w, h);
      ReadsFirst(FirstLine(src, dst, slx, sty, dlx, dty, w, h, op, comp), h, Stride(dst, back), Stride(src, back))
  {
    hide At, Px, Stride;
    var back, tr := GoBackward(src, dst, slx, sty, dlx, dty, w, h),
        FirstLine(src, dst, slx, sty, dlx, dty, w, h, op, comp);
    forall i', k', i, k | 0 <= i' < i < h && 0 <= k' < tr.w && 0 <= k < tr.w
      ensures At(tr.d, Stride(dst, back), i', k') != At(tr.s, Stride(src, back), i, k)
    {
      LineAt(src, dst, slx, sty, dlx, dty, w, h, op, comp, i', k');
      LineAt(src, dst, slx, sty, dlx, dty, w, h, op, comp, i, k);
      PointsDiffer(src, dst, n, slx, sty, dlx, dty, w, h, i', k', i, k);
    }
  }

  lemma PointsDiffer(src: Bitmap, dst: Bitmap, n: int, slx: int, sty: int, dlx: int, dty: int, w: int, h: int, i': int,
                     k': int, i: int, k: int)
    requires Placed(src, dst, n) && Inside(src, slx, sty, w, h) && Inside(dst, dlx, dty, w, h)
    requires MayMove(src, dst, slx, sty, dlx, dty, w, h)
    requires 0 <= i' < i < h && 0 <= k' < w && 0 <= k < w
    ensures var back := GoBackward(src, dst, slx, sty, dlx, dty, w, h);
      Px(dst, dlx + k', dty + RowAt(back, h, i')) != Px(src, slx + k, sty + RowAt(back, h, i))
  {
    hide Px;
    var back := GoBackward(src, dst, slx, sty, dlx, dty, w, h);
    var x', y', x, y := dlx + k', dty + RowAt(back, h, i'), slx + k, sty + RowAt(back, h, i);
    if src.addr == dst.addr && Px(dst, x', y') == Px(src, x, y) {
      PxUnique(dst, x', y', x, y);
    }
  }

  /** Within a line the chosen direction reads before it writes. */
  lemma DirectionLineSafe(src: Bitmap, dst: Bitmap, n: int, slx: int, sty: int, dlx: int, dty: int, w: int, h: int,
                          y: int)
    requires Placed(src, dst, n) && Inside(src, slx, sty, w, h) && Inside(dst, dlx, dty, w, h)
    requires MayMove(src, dst, slx, sty, dlx, dty, w, h)
    requires 1 <= w && 0 <= y < h
    ensures var d, s := Px(dst, dlx, dty + y), Px(src, slx, sty + y);
      if GoBackward(src, dst, slx, sty, dlx, dty, w, h) then s <= d || d + w <= s else d <= s || s + w <= d
  {
    if src.addr != dst.addr {
      var d, s := Px(dst, dlx, dty + y), Px(src, slx, sty + y);
      if s < d < s + w {
        var shared := Px(src, slx + (d - s), sty + y);
      }
    } else {
      var r := src.rasterwidth;
      assert r * (dty + y) - r * (sty + y) == r * (dty - sty);
      if sty > dty {
        RowsBelow(r, 1, sty - dty);
        assert r * (dty - sty) == -(r * (sty - dty));
      } else if sty < dty {
        RowsBelow(r, 1, dty - sty);
      }
    }
  }

  // ---- the transfer itself ----

  /** The engine can run when every line can. */
  lemma {:induction false} RunnableByLines(n: int, tr: Transfer, h: int, dstbpl: int, srcbpl: int, backward: bool)
    requires 0 <= tr.w
    requires forall i {:trigger At(tr.d, dstbpl, i, 0)} :: 0 <= i < h ==>
      LineReady(n, At(tr.d, dstbpl, i, 0), At(tr.s, srcbpl, i, 0), tr.w, backward)
    requires backward ==> dstbpl <= 0
    ensures Runnable(n, tr, h, dstbpl, srcbpl, backward)
    decreases h
  {
    if h > 0 {
      var tr1 := tr.Moved(dstbpl, srcbpl);
      AtFirst(tr.d, dstbpl, 0);
      AtFirst(tr.s, srcbpl, 0);
      assert LineReady(n, At(tr.d, dstbpl, 0, 0), At(tr.s, srcbpl, 0, 0), tr.w, backward);
      forall i {:trigger At(tr1.d, dstbpl, i, 0)} | 0 <= i < h - 1
        ensures LineReady(n, At(tr1.d, dstbpl, i, 0), At(tr1.s, srcbpl, i, 0), tr.w, backward)
      {
        AtNext(tr.d, dstbpl, i, 0);
        AtNext(tr.s, srcbpl, i, 0);
        assert LineReady(n, At(tr.d, dstbpl, i + 1, 0), At(tr.s, srcbpl, i + 1, 0), tr.w, backward);
      }
      RunnableByLines(n, tr1, h - 1, dstbpl, srcbpl, backward);
      RightBit(tr.d, tr.w);
    }
  }

  lemma RightBit(d: int, w: int)
    ensures BackwardDst(d, w).rbit < 32
  {
    hide FromMask, UpToMask, And;
  }

  ghost predicate LineReady(n: int, d: int, s: int, w: int, backward: bool)
  {
    && 0 <= d && d + w <= n && 0 <= s && s + w <= n
    && (if backward then (Strays(d, s, w) ==> 32 <= s) && (s <= d || d + w <= s) else d <= s || s + w <= d)
  }

  lemma DirectionRunnable(src: Bitmap, dst: Bitmap, n: int, slx: int, sty: int, dlx: int, dty: int, w: int, h: int,
                          op: RasterOp, comp: bool)
    requires Placed(src, dst, n) && Inside(src, slx, sty, w, h) && Inside(dst, dlx, dty, w, h) && 1 <= w
    requires MayMove(src, dst, slx, sty, dlx, dty, w, h)
    ensures var back := GoBackward(src, dst, slx, sty, dlx, dty, w, h);
      Runnable(n, FirstLine(src, dst, slx, sty, dlx, dty, w, h, op, comp), h, Stride(dst, back), Stride(src, back),
          back)
  {
    hide At, Px, Placed;
    var back, tr := GoBackward(src, dst, slx, sty, dlx, dty, w, h),
        FirstLine(src, dst, slx, sty, dlx, dty, w, h, op, comp);
    forall i {:trigger At(tr.d, Stride(dst, back), i, 0)} | 0 <= i < h
      ensures LineReady(n, At(tr.d, Stride(dst, back), i, 0), At(tr.s, Stride(src, back), i, 0), tr.w, back)
    {
      LineAt(src, dst, slx, sty, dlx, dty, w, h, op, comp, i, 0);
      DirectionLineReady(src, dst, n, slx, sty, dlx, dty, w, h, RowAt(back, h, i));
    }
    PlacedStrides(src, dst, n);
    RunnableByLines(n, tr, h, Stride(dst, back), Stride(src, back), back);
  }

  lemma PlacedStrides(src: Bitmap, dst: Bitmap, n: int)
    requires Placed(src, dst, n)
    ensures 0 <= src.rasterwidth && 0 <= dst.rasterwidth
  {
  }

  lemma DirectionLineReady(src: Bitmap, dst: Bitmap, n: int, slx: int, sty: int, dlx: int, dty: int, w: int, h: int,
                           y: int)
    requires Placed(src, dst, n) && Inside(src, slx, sty, w, h) && Inside(dst, dlx, dty, w, h)
    requires MayMove(src, dst, slx, sty, dlx, dty, w, h)
    requires 1 <= w && 0 <= y < h
    ensures LineReady(n, Px(dst, dlx, dty + y), Px(src, slx, sty + y), w,
        GoBackward(src, dst, slx, sty, dlx, dty, w, h))
  {
    hide Px, Strays, Apart, GoBackward;
    assert GoBackward(src, dst, slx, sty, dlx, dty, w, h) ==> LineGuarded(src, dst, slx, sty, dlx, dty, w, y);
    DirectionLineSafe(src, dst, n, slx, sty, dlx, dty, w, h, y);
    PxInside(dst, n, dlx, dty + y);
    PxInside(dst, n, dlx + w - 1, dty + y);
    PxRight(dst, dlx, dty + y, w - 1);
    PxInside(src, n, slx, sty + y);
    PxInside(src, n, slx + w - 1, sty + y);
    PxRight(src, slx, sty + y, w - 1);
  }

  lemma PxRight(bm: Bitmap, x: int, y: int, k: int)
    ensures Px(bm, x + k, y) == Px(bm, x, y) + k
  {
  }

  /** The rectangle of lines is the rectangle of pixels. */
  lemma RectIsCopied(b: seq<bool>, r: seq<bool>, src: Bitmap, dst: Bitmap, slx: int, sty: int, dlx: int, dty: int,
                     w: int, h: int, op: RasterOp, comp: bool)
    requires var back := GoBackward(src, dst, slx, sty, dlx, dty, w, h);
      IsRect(b, r, FirstLine(src, dst, slx, sty, dlx, dty, w, h, op, comp), h, Stride(dst, back), Stride(src, back))
    ensures Copied(b, r, src, slx, sty, dst, dlx, dty, w, h, op, comp)
  {
    hide At, Px, Raster, GoBackward, IsRect, RestKept, Covered, InRect;
    var back, tr := GoBackward(src, dst, slx, sty, dlx, dty, w, h),
        FirstLine(src, dst, slx, sty, dlx, dty, w, h, op, comp);
    RectRest(b, r, tr, h, Stride(dst, back), Stride(src, back));
    forall x, y | dlx <= x < dlx + w && dty <= y < dty + h
      ensures PixelCopied(b, r, src, slx, sty, dst, dlx, dty, op, comp, x, y)
    {
      var i := RowAt(back, h, y - dty);
      RectAt(b, r, tr, h, Stride(dst, back), Stride(src, back), i, x - dlx);
      LineAt(src, dst, slx, sty, dlx, dty, w, h, op, comp, i, x - dlx);
      assert RowAt(back, h, i) == y - dty;
    }
    RestIsOutside(b, r, src, dst, slx, sty, dlx, dty, w, h, op, comp);
  }

  lemma RestIsOutside(b: seq<bool>, r: seq<bool>, src: Bitmap, dst: Bitmap, slx: int, sty: int, dlx: int, dty: int,
                      w: int, h: int, op: RasterOp, comp: bool)
    requires |r| == |b|
    requires var back := GoBackward(src, dst, slx, sty, dlx, dty, w, h);
      RestKept(b, r, FirstLine(src, dst, slx, sty, dlx, dty, w, h, op, comp).d, w, h, Stride(dst, back))
    ensures forall a :: 0 <= a < |b| && !InRect(dst, dlx, dty, w, h, a) ==> r[a] == b[a]
  {
    hide At, Px, GoBackward;
    var back, tr := GoBackward(src, dst, slx, sty, dlx, dty, w, h),
        FirstLine(src, dst, slx, sty, dlx, dty, w, h, op, comp);
    forall a | 0 <= a < |b| && !InRect(dst, dlx, dty, w, h, a)
      ensures r[a] == b[a]
    {
      if Covered(tr.d, w, h, Stride(dst, back), a) {
        var i, k :| 0 <= i < h && 0 <= k < w && a == At(tr.d, Stride(dst, back), i, k);
        LineAt(src, dst, slx, sty, dlx, dty, w, h, op, comp, i, k);
      }
    }
  }

  /** The common tail of bitbltsub and bitblt_bitmap: pick a direction, and run the engine. */
  method BltRect(mem: array<Word>, src: Bitmap, dst: Bitmap, slx: int, sty: int, dlx: int, dty: int, w: int, h: int,
                 srcComp: bool, op: RasterOp)
    requires Placed(src, dst, 32 * mem.Length) && 1 <= w && 1 <= h
    requires Inside(src, slx, sty, w, h) && Inside(dst, dlx, dty, w, h) && MayMove(src, dst, slx, sty, dlx, dty, w, h)
    modifies mem
    ensures Copied(old(BitsOf(mem[..])), BitsOf(mem[..]), src, slx, sty, dst, dlx, dty, w, h, op, srcComp)
  {
    hide BitsOf, Lines, IsRect, Copied, Runnable, ReadsFirst, Fits, MayMove;
    var backwardflg := GoBackward(src, dst, slx, sty, dlx, dty, w, h);
    var srcbpl, dstbpl := 16 * src.rasterwidth, 16 * dst.rasterwidth;
    var srcbase, dstbase;
    if backwardflg {
      srcbase := src.base + src.rasterwidth * (sty + h - 1);
      dstbase := dst.base + dst.rasterwidth * (dty + h - 1);
      srcbpl := 0 - srcbpl;
      dstbpl := 0 - dstbpl;
    } else {
      srcbase := src.base + src.rasterwidth * sty;
      dstbase := dst.base + dst.rasterwidth * dty;
    }
    ghost var b, tr := BitsOf(mem[..]), FirstLine(src, dst, slx, sty, dlx, dty, w, h, op, srcComp);
    DirectionRunnable(src, dst, 32 * mem.Length, slx, sty, dlx, dty, w, h, op, srcComp);
    Bitblt(mem, 2 * srcbase, 2 * dstbase, slx, dlx, w, h, srcbpl, dstbpl, backwardflg, srcComp, op);
    DirectionReadsFirst(src, dst, 32 * mem.Length, slx, sty, dlx, dty, w, h, op, srcComp);
    LinesAreRect(b, tr, h, dstbpl, srcbpl);
    RectIsCopied(b, BitsOf(mem[..]), src, dst, slx, sty, dlx, dty, w, h, op, srcComp);
  }

  // ---- bitbltsub: INPUT and INVERT sources ----

  method BitbltSub(mem: array<Word>, srcebm: Bitmap, slx: int, sty: int, destbm: Bitmap, dlx: int, dty: int,
                   pbtwidth: int, pbtheight: int, sourcetype: SourceType, operation: Operation)
    requires Placed(srcebm, destbm, 32 * mem.Length) && sourcetype != TextureSource
    requires 0 < pbtwidth && 0 < pbtheight ==>
      && Inside(srcebm, slx % 0x10000, sty % 0x10000, pbtwidth, pbtheight)
      && Inside(destbm, dlx % 0x10000, dty % 0x10000, pbtwidth, pbtheight)
      && MayMove(srcebm, destbm, slx % 0x10000, sty % 0x10000, dlx % 0x10000, dty % 0x10000, pbtwidth, pbtheight)
    modifies mem
    ensures if 0 < pbtwidth && 0 < pbtheight
            then Copied(old(BitsOf(mem[..])), BitsOf(mem[..]), srcebm, slx % 0x10000, sty % 0x10000,
                        destbm, dlx % 0x10000, dty % 0x10000, pbtwidth, pbtheight,
                        BbOp(operation), BbSrcType(sourcetype, operation))
            else mem[..] == old(mem[..])
  {
    if pbtheight <= 0 || pbtwidth <= 0 {
      return;
    }
    BltRect(mem, srcebm, destbm, slx % 0x10000, sty % 0x10000, dlx % 0x10000, dty % 0x10000, pbtwidth, pbtheight,
            BbSrcType(sourcetype, operation), BbOp(operation));
  }

  // ---- bitblt_bitmap ----

  /** A clipping region as Lisp gives it: left, bottom, width, height. */
  datatype ClipRegion = NoClip | Clip(left: int, bottom: int, width: int, height: int)

  function Max(a: int, b: int): int { if a > b then a else b }

  function Min(a: int, b: int): int { if a < b then a else b }

  /** The bit address of the pixel at (x, y), y counted from the bottom as Lisp does. */
  function Pixel(bm: Bitmap, x: int, y: int): int
  {
    Px(bm, x, bm.height - 1 - y)
  }

  predicate InClip(clip: ClipRegion, x: int, y: int)
  {
    clip.NoClip? || (clip.left <= x < clip.left + clip.width && clip.bottom <= y < clip.bottom + clip.height)
  }

  /** The arguments of the Lisp function \BITBLT.BITMAP. */
  datatype BltArgs = BltArgs(sleft: int, sbottom: int, dleft: int, dbottom: int, width: int, height: int,
                             clip: ClipRegion, clipleft: int, clipbottom: int)
  {
    function Stodx(): int { dleft - sleft }

    function Stody(): int { dbottom - sbottom }

    /** Destination pixel (x, y) is to be written: it lies in the destination, in the clipping region, in the requested
        rectangle, and the pixel it comes from lies in the source and in the clipped source window. */
    predicate Wanted(src: Bitmap, dst: Bitmap, x: int, y: int)
    {
      && 0 <= x < dst.width && 0 <= y < dst.height
      && InClip(clip, x, y)
      && dleft <= x < dleft + width && dbottom <= y < dbottom + height
      && 0 <= x - Stodx() < src.width && 0 <= y - Stody() < src.height
      && clipleft <= x - Stodx() < clipleft + width && clipbottom <= y - Stody() < clipbottom + height
    }

    /** Column `i` of row `j` of the request lies in it, and its two ends in the destination and the clipping region,
        and in the source and the source window. */
    predicate Asked(src: Bitmap, dst: Bitmap, i: int, j: int)
    {
      && 0 <= i < width && 0 <= j < height
      && 0 <= dleft + i < dst.width && 0 <= dbottom + j < dst.height
      && (clip.Clip? ==> clip.left <= dleft + i < clip.left + clip.width)
      && (clip.Clip? ==> clip.bottom <= dbottom + j < clip.bottom + clip.height)
      && 0 <= sleft + i < src.width && 0 <= sbottom + j < src.height
      && clipleft <= sleft + i < clipleft + width && clipbottom <= sbottom + j < clipbottom + height
    }
  }

  /** The bit at column dleft + i, row dbottom + j of the destination, rows counted from the bottom. */
  function ToBit(dst: Bitmap, args: BltArgs, i: int, j: int): int
  {
    16 * (dst.base + dst.rasterwidth * (dst.height - 1 - (args.dbottom + j))) + args.dleft + i
  }

  /** The bit at column sleft + i, row sbottom + j of the source. */
  function FromBit(src: Bitmap, args: BltArgs, i: int, j: int): int
  {
    16 * (src.base + src.rasterwidth * (src.height - 1 - (args.sbottom + j))) + args.sleft + i
  }

  /** What Lisp asks for, column by column and row by row of the request: the pixel at (dleft + i, dbottom + j) becomes
      the operation of the old pixel at (sleft + i, sbottom + j) and its own, and every other bit is kept. */
  ghost predicate Moved(b: seq<bool>, r: seq<bool>, src: Bitmap, dst: Bitmap, args: BltArgs, sourcetype: SourceType,
                        operation: Operation)
  {
    && |r| == |b|
    && (forall i, j :: args.Asked(src, dst, i, j) ==> PixelMoved(b, r, src, dst, args, sourcetype, operation, i, j))
    && (forall a :: 0 <= a < |b| && !Touched(src, dst, args, a) ==> r[a] == b[a])
  }

  ghost predicate PixelMoved(b: seq<bool>, r: seq<bool>, src: Bitmap, dst: Bitmap, args: BltArgs,
                             sourcetype: SourceType, operation: Operation, i: int, j: int)
    requires |r| == |b|
  {
    && 0 <= ToBit(dst, args, i, j) < |b| && 0 <= FromBit(src, args, i, j) < |b|
    && r[ToBit(dst, args, i, j)]
       == PixOperation(sourcetype, operation, b[FromBit(src, args, i, j)], b[ToBit(dst, args, i, j)])
  }

  ghost predicate Touched(src: Bitmap, dst: Bitmap, args: BltArgs, a: int)
  {
    exists i, j :: args.Asked(src, dst, i, j) && a == ToBit(dst, args, i, j)
  }

  /** What the code takes for granted: for different records no wanted pixel is a source pixel of another; for one
      record, the lines of the clipped rectangle are guarded. */
  ghost predicate MayBlt(src: Bitmap, dst: Bitmap, args: BltArgs)
  {
    if src.addr == dst.addr then
      forall left, right, bottom, top :: ClipsTo(src, dst, args, left, right, bottom, top) ==>
        RectGuarded(src, dst, args, left, right, bottom, top)
    else
      forall x, y, x', y' :: args.Wanted(src, dst, x, y) && args.Wanted(src, dst, x', y') ==>
        Pixel(dst, x', y') != Pixel(src, x - args.Stodx(), y - args.Stody())
  }

  ghost predicate RectGuarded(src: Bitmap, dst: Bitmap, args: BltArgs, left: int, right: int, bottom: int, top: int)
  {
    left < right && bottom < top ==>
      LinesGuarded(src, dst, left, src.height - top, left + args.Stodx(), dst.height - (top + args.Stody()),
                   right - left, top - bottom)
  }

  /** A bitmap that begins past the first word of memory may be moved within itself, whatever the arguments. */
  lemma PastFirstWord(src: Bitmap, dst: Bitmap, n: int, args: BltArgs)
    requires Placed(src, dst, n) && src.addr == dst.addr && 2 <= src.base
    ensures MayBlt(src, dst, args)
  {
    hide ClipsTo, BltArgs.Wanted, LinesGuarded;
    forall left, right, bottom, top | ClipsTo(src, dst, args, left, right, bottom, top)
      ensures RectGuarded(src, dst, args, left, right, bottom, top)
    {
      if left < right && bottom < top {
        ClipInside(src, dst, n, args, left, right, bottom, top);
        LinesPastFirst(src, dst, n, left, src.height - top, left + args.Stodx(), dst.height - (top + args.Stody()),
                       right - left, top - bottom);
      }
    }
  }

  lemma LinesPastFirst(src: Bitmap, dst: Bitmap, n: int, slx: int, sty: int, dlx: int, dty: int, w: int, h: int)
    requires Placed(src, dst, n) && 2 <= src.base && Inside(src, slx, sty, w, h) && 0 < w
    ensures LinesGuarded(src, dst, slx, sty, dlx, dty, w, h)
  {
    hide Px, Strays, GoBackward;
    forall y | 0 <= y < h
      ensures LineGuarded(src, dst, slx, sty, dlx, dty, w, y)
    {
      PxInside(src, n, slx, sty + y);
    }
  }

  /** `r` is `b` with exactly the wanted pixels combined, each with its own source pixel as it was in `b`. */
  ghost predicate Blitted(b: seq<bool>, r: seq<bool>, src: Bitmap, dst: Bitmap, args: BltArgs, op: RasterOp, comp: bool)
  {
    && |r| == |b|
    && (forall x, y :: 0 <= x < dst.width && 0 <= y < dst.height ==>
          && 0 <= Pixel(dst, x, y) < |b|
          && (args.Wanted(src, dst, x, y) ==> 0 <= Pixel(src, x - args.Stodx(), y - args.Stody()) < |b|)
          && r[Pixel(dst, x, y)] ==
             if args.Wanted(src, dst, x, y)
             then Raster(op, b[Pixel(src, x - args.Stodx(), y - args.Stody())] != comp, b[Pixel(dst, x, y)])
             else b[Pixel(dst, x, y)])
    && (forall a :: 0 <= a < |b| && !InRect(dst, 0, 0, dst.width, dst.height, a) ==> r[a] == b[a])
  }

  method BitbltBitmap(mem: array<Word>, src: Bitmap, dst: Bitmap, args: BltArgs, sourcetype: SourceType,
                      operation: Operation)
    returns (done: bool)
    requires Placed(src, dst, 32 * mem.Length) && MayBlt(src, dst, args)
    modifies mem
    ensures Blitted(old(BitsOf(mem[..])), BitsOf(mem[..]), src, dst, args, BbOp(operation),
        BbSrcType(sourcetype, operation))
    ensures done <==> exists x, y :: args.Wanted(src, dst, x, y)
    ensures Moved(old(BitsOf(mem[..])), BitsOf(mem[..]), src, dst, args, sourcetype, operation)
    ensures done <==> exists i, j :: args.Asked(src, dst, i, j)
  {
    hide BitsOf, Placed, Copied, Blitted, Moved, BltArgs.Asked, MayBlt, MayMove, Max, Min;
    ghost var b := BitsOf(mem[..]);
    WantedIsAsked(src, dst, args);
    var left, bottom, top, right := 0, 0, dst.height, dst.width;
    if args.clip.Clip? {
      left := Max(left, args.clip.left);
      bottom := Max(bottom, args.clip.bottom);
      right := Min(right, args.clip.left + args.clip.width);
      top := Min(top, args.clip.bottom + args.clip.height);
    }
    left := Max(left, args.dleft);
    right := Min(right, args.dleft + args.width);
    bottom := Max(bottom, args.dbottom);
    top := Min(top, args.dbottom + args.height);
    ghost var left0, right0, bottom0, top0 := left, right, bottom, top;
    var stody, stodx := args.dbottom - args.sbottom, args.dleft - args.sleft;
    left := Max(args.clipleft, Max(0, left - stodx));
    bottom := Max(args.clipbottom, Max(0, bottom - stody));
    right := Min(src.width, Min(right - stodx, args.clipleft + args.width));
    top := Min(src.height, Min(top - stody, args.clipbottom + args.height));
    ClippedTo(src, dst, args, left0, right0, bottom0, top0, left, right, bottom, top);
    if right <= left || top <= bottom {
      done := false;
      NothingBlitted(b, src, dst, 32 * mem.Length, args, BbOp(operation), BbSrcType(sourcetype, operation), left, right,
                     bottom, top);
      BlittedIsMoved(b, b, src, dst, args, sourcetype, operation);
      return;
    }
    done := true;
    assert args.Wanted(src, dst, left + stodx, bottom + stody);
    var height, width := top - bottom, right - left;
    var dty, dlx := dst.height - (top + stody), left + stodx;
    var sty, slx := src.height - top, left;
    ClipInside(src, dst, 32 * mem.Length, args, left, right, bottom, top);
    ClipMayMove(src, dst, 32 * mem.Length, args, left, right, bottom, top);
    BltRect(mem, src, dst, slx, sty, dlx, dty, width, height, BbSrcType(sourcetype, operation), BbOp(operation));
    CopiedIsBlitted(b, BitsOf(mem[..]), src, dst, 32 * mem.Length, args, BbOp(operation),
                    BbSrcType(sourcetype, operation), left, right, bottom, top);
    BlittedIsMoved(b, BitsOf(mem[..]), src, dst, args, sourcetype, operation);
  }

  /** The pixel asked for at (i, j) is the wanted one at that distance from the corner of the request. */
  lemma WantedIsAsked(src: Bitmap, dst: Bitmap, args: BltArgs)
    ensures forall i, j :: args.Asked(src, dst, i, j) <==> args.Wanted(src, dst, args.dleft + i, args.dbottom + j)
    ensures (exists x, y :: args.Wanted(src, dst, x, y)) <==> exists i, j :: args.Asked(src, dst, i, j)
  {
    forall x, y | args.Wanted(src, dst, x, y)
      ensures args.Asked(src, dst, x - args.dleft, y - args.dbottom)
    {
    }
    forall i, j | args.Asked(src, dst, i, j)
      ensures args.Wanted(src, dst, args.dleft + i, args.dbottom + j)
    {
    }
  }

  /** Wanted pixels, each displaced, are the pixels asked for, each from its own place in the source. */
  lemma BlittedIsMoved(b: seq<bool>, r: seq<bool>, src: Bitmap, dst: Bitmap, args: BltArgs, sourcetype: SourceType,
                       operation: Operation)
    requires Blitted(b, r, src, dst, args, BbOp(operation), BbSrcType(sourcetype, operation))
    ensures Moved(b, r, src, dst, args, sourcetype, operation)
  {
    hide Blitted, InRect, BltArgs.Asked, BltArgs.Wanted, PixelMoved, Touched;
    BlittedSize(b, r, src, dst, args, BbOp(operation), BbSrcType(sourcetype, operation));
    forall i, j | args.Asked(src, dst, i, j)
      ensures PixelMoved(b, r, src, dst, args, sourcetype, operation, i, j)
    {
      BlittedAsked(b, r, src, dst, args, sourcetype, operation, i, j);
    }
    forall a | 0 <= a < |b| && !Touched(src, dst, args, a)
      ensures r[a] == b[a]
    {
      if r[a] != b[a] {
        BlittedChanged(b, r, src, dst, args, BbOp(operation), BbSrcType(sourcetype, operation), a);
      }
    }
  }

  lemma BlittedSize(b: seq<bool>, r: seq<bool>, src: Bitmap, dst: Bitmap, args: BltArgs, op: RasterOp, comp: bool)
    requires Blitted(b, r, src, dst, args, op, comp)
    ensures |r| == |b|
  {
    hide Pixel, InRect, BltArgs.Wanted;
  }

  lemma BlittedAsked(b: seq<bool>, r: seq<bool>, src: Bitmap, dst: Bitmap, args: BltArgs, sourcetype: SourceType,
                     operation: Operation, i: int, j: int)
    requires Blitted(b, r, src, dst, args, BbOp(operation), BbSrcType(sourcetype, operation))
    requires args.Asked(src, dst, i, j)
    ensures |r| == |b| && PixelMoved(b, r, src, dst, args, sourcetype, operation, i, j)
  {
    hide InRect, Raster, BbOp, BbSrcType, PixOperation;
    var x, y := args.dleft + i, args.dbottom + j;
    assert args.Wanted(src, dst, x, y);
    assert Pixel(dst, x, y) == ToBit(dst, args, i, j);
    assert src.height - 1 - (y - args.Stody()) == src.height - 1 - (args.sbottom + j);
    assert Pixel(src, x - args.Stodx(), y - args.Stody()) == FromBit(src, args, i, j);
    OperationMeaning(sourcetype, operation, b[FromBit(src, args, i, j)], b[ToBit(dst, args, i, j)]);
  }

  lemma BlittedChanged(b: seq<bool>, r: seq<bool>, src: Bitmap, dst: Bitmap, args: BltArgs, op: RasterOp, comp: bool,
                       a: int)
    requires Blitted(b, r, src, dst, args, op, comp) && 0 <= a < |b| == |r| && r[a] != b[a]
    ensures Touched(src, dst, args, a)
  {
    hide Raster;
    assert InRect(dst, 0, 0, dst.width, dst.height, a);
    var px, py :| 0 <= px < dst.width && 0 <= py < dst.height && a == Px(dst, px, py);
    var y := dst.height - 1 - py;
    assert Pixel(dst, px, y) == a;
    var i, j := px - args.dleft, y - args.dbottom;
    assert args.Asked(src, dst, i, j);
    assert dst.height - 1 - (args.dbottom + j) == py;
    assert ToBit(dst, args, i, j) == a;
  }

  /** left..right and bottom..top, in the source, bound exactly the wanted pixels. */
  ghost predicate ClipsTo(src: Bitmap, dst: Bitmap, args: BltArgs, left: int, right: int, bottom: int, top: int)
  {
    forall x, y :: args.Wanted(src, dst, x, y) <==>
      left <= x - args.Stodx() < right && bottom <= y - args.Stody() < top
  }

  /** Clipping is done axis by axis: first to the destination, then in the coordinates of the source. */
  lemma ClippedTo(src: Bitmap, dst: Bitmap, args: BltArgs, left0: int, right0: int, bottom0: int, top0: int,
                  left: int, right: int, bottom: int, top: int)
    requires left0 == Max(if args.clip.Clip? then Max(0, args.clip.left) else 0, args.dleft)
    requires right0 == Min(if args.clip.Clip? then Min(dst.width, args.clip.left + args.clip.width) else dst.width,
                           args.dleft + args.width)
    requires bottom0 == Max(if args.clip.Clip? then Max(0, args.clip.bottom) else 0, args.dbottom)
    requires top0 == Min(if args.clip.Clip? then Min(dst.height, args.clip.bottom + args.clip.height) else dst.height,
                         args.dbottom + args.height)
    requires left == Max(args.clipleft, Max(0, left0 - args.Stodx()))
    requires right == Min(src.width, Min(right0 - args.Stodx(), args.clipleft + args.width))
    requires bottom == Max(args.clipbottom, Max(0, bottom0 - args.Stody()))
    requires top == Min(src.height, Min(top0 - args.Stody(), args.clipbottom + args.height))
    ensures ClipsTo(src, dst, args, left, right, bottom, top)
  {
    forall x, y
      ensures args.Wanted(src, dst, x, y) <==>
              left <= x - args.Stodx() < right && bottom <= y - args.Stody() < top
    {
      assert left <= x - args.Stodx() < right <==>
             (0 <= x < dst.width && (args.clip.Clip? ==> args.clip.left <= x < args.clip.left + args.clip.width) &&
              args.dleft <= x < args.dleft + args.width && 0 <= x - args.Stodx() < src.width &&
              args.clipleft <= x - args.Stodx() < args.clipleft + args.width);
      assert bottom <= y - args.Stody() < top <==>
             (0 <= y < dst.height &&
              (args.clip.Clip? ==> args.clip.bottom <= y < args.clip.bottom + args.clip.height) &&
              args.dbottom <= y < args.dbottom + args.height && 0 <= y - args.Stody() < src.height &&
              args.clipbottom <= y - args.Stody() < args.clipbottom + args.height);
    }
  }

  lemma NothingBlitted(b: seq<bool>, src: Bitmap, dst: Bitmap, n: int, args: BltArgs, op: RasterOp, comp: bool,
                       left: int, right: int, bottom: int, top: int)
    requires Placed(src, dst, n) && n == |b|
    requires ClipsTo(src, dst, args, left, right, bottom, top) && (right <= left || top <= bottom)
    ensures Blitted(b, b, src, dst, args, op, comp)
  {
    hide Px, InRect;
    forall x, y | 0 <= x < dst.width && 0 <= y < dst.height
      ensures 0 <= Pixel(dst, x, y) < |b| && !args.Wanted(src, dst, x, y)
    {
      PxInside(dst, n, x, dst.height - 1 - y);
    }
  }

  lemma ClipInside(src: Bitmap, dst: Bitmap, n: int, args: BltArgs, left: int, right: int, bottom: int, top: int)
    requires Placed(src, dst, n) && ClipsTo(src, dst, args, left, right, bottom, top) && left < right && bottom < top
    ensures Inside(src, left, src.height - top, right - left, top - bottom)
    ensures Inside(dst, left + args.Stodx(), dst.height - (top + args.Stody()), right - left, top - bottom)
  {
    assert args.Wanted(src, dst, left + args.Stodx(), bottom + args.Stody());
    assert args.Wanted(src, dst, right - 1 + args.Stodx(), top - 1 + args.Stody());
  }

  /** What holds of the wanted pixels holds of the clipped rectangle. */
  lemma ClipMayMove(src: Bitmap, dst: Bitmap, n: int, args: BltArgs, left: int, right: int, bottom: int, top: int)
    requires Placed(src, dst, n) && ClipsTo(src, dst, args, left, right, bottom, top) && left < right && bottom < top
    requires MayBlt(src, dst, args)
    ensures MayMove(src, dst, left, src.height - top, left + args.Stodx(), dst.height - (top + args.Stody()),
        right - left, top - bottom)
  {
    var dlx, dty, sty, w, h := left + args.Stodx(), dst.height - (top + args.Stody()), src.height - top, right - left,
        top - bottom;
    if src.addr != dst.addr {
      ClipApart(src, dst, args, left, right, bottom, top);
    } else {
      assert RectGuarded(src, dst, args, left, right, bottom, top);
    }
  }

  lemma ClipApart(src: Bitmap, dst: Bitmap, args: BltArgs, left: int, right: int, bottom: int, top: int)
    requires ClipsTo(src, dst, args, left, right, bottom, top) && src.addr != dst.addr && MayBlt(src, dst, args)
    ensures Apart(src, dst, left, src.height - top, left + args.Stodx(), dst.height - (top + args.Stody()),
        right - left, top - bottom)
  {
    hide BltArgs.Wanted;
    var dlx, dty, sty, w, h := left + args.Stodx(), dst.height - (top + args.Stody()), src.height - top, right - left,
        top - bottom;
    forall x, y, x', y' | left <= x < left + w && sty <= y < sty + h && dlx <= x' < dlx + w && dty <= y' < dty + h
      ensures Px(dst, x', y') != Px(src, x, y)
    {
      var px, py, py' := x + args.Stodx(), src.height - 1 - y + args.Stody(), dst.height - 1 - y';
      assert args.Wanted(src, dst, px, py) && args.Wanted(src, dst, x', py');
      assert Pixel(dst, x', py') == Px(dst, x', y') &&
        Pixel(src, px - args.Stodx(), py - args.Stody()) == Px(src, x, y);
    }
  }

  lemma CopiedIsBlitted(b: seq<bool>, r: seq<bool>, src: Bitmap, dst: Bitmap, n: int, args: BltArgs, op: RasterOp,
                        comp: bool, left: int, right: int, bottom: int, top: int)
    requires Placed(src, dst, n) && n == |b|
    requires ClipsTo(src, dst, args, left, right, bottom, top) && left < right && bottom < top
    requires Copied(b, r, src, left, src.height - top, dst, left + args.Stodx(), dst.height - (top + args.Stody()),
                    right - left, top - bottom, op, comp)
    ensures Blitted(b, r, src, dst, args, op, comp)
  {
    hide Px, Pixel, InRect, Raster, Copied, ClipsTo, Placed, BltArgs.Wanted;
    CopiedOutside(b, r, src, dst, n, args, op, comp, left, right, bottom, top);
    forall x, y | 0 <= x < dst.width && 0 <= y < dst.height
      ensures 0 <= Pixel(dst, x, y) < |b|
      ensures args.Wanted(src, dst, x, y) ==> 0 <= Pixel(src, x - args.Stodx(), y - args.Stody()) < |b|
      ensures r[Pixel(dst, x, y)] ==
              if args.Wanted(src, dst, x, y)
              then Raster(op, b[Pixel(src, x - args.Stodx(), y - args.Stody())] != comp, b[Pixel(dst, x, y)])
              else b[Pixel(dst, x, y)]
    {
      CopiedPixel(b, r, src, dst, n, args, op, comp, left, right, bottom, top, x, y);
    }
  }

  lemma CopiedPixel(b: seq<bool>, r: seq<bool>, src: Bitmap, dst: Bitmap, n: int, args: BltArgs, op: RasterOp,
                    comp: bool, left: int, right: int, bottom: int, top: int, x: int, y: int)
    requires Placed(src, dst, n) && n == |b|
    requires ClipsTo(src, dst, args, left, right, bottom, top) && left < right && bottom < top
    requires Copied(b, r, src, left, src.height - top, dst, left + args.Stodx(), dst.height - (top + args.Stody()),
                    right - left, top - bottom, op, comp)
    requires 0 <= x < dst.width && 0 <= y < dst.height
    ensures 0 <= Pixel(dst, x, y) < |b| == |r|
    ensures args.Wanted(src, dst, x, y) ==> 0 <= Pixel(src, x - args.Stodx(), y - args.Stody()) < |b|
    ensures r[Pixel(dst, x, y)] ==
            if args.Wanted(src, dst, x, y)
            then Raster(op, b[Pixel(src, x - args.Stodx(), y - args.Stody())] != comp, b[Pixel(dst, x, y)])
            else b[Pixel(dst, x, y)]
  {
    hide Px, InRect, Raster;
    var dlx, dty, w, h := left + args.Stodx(), dst.height - (top + args.Stody()), right - left, top - bottom;
    var row := dst.height - 1 - y;
    PxInside(dst, n, x, row);
    if args.Wanted(src, dst, x, y) {
      assert PixelCopied(b, r, src, left, src.height - top, dst, dlx, dty, op, comp, x, row);
      assert x + (left - dlx) == x - args.Stodx();
      assert row + (src.height - top - dty) == src.height - 1 - (y - args.Stody());
    } else {
      ClipInside(src, dst, n, args, left, right, bottom, top);
      NotInRect(dst, dlx, dty, w, h, x, row);
    }
  }

  lemma CopiedOutside(b: seq<bool>, r: seq<bool>, src: Bitmap, dst: Bitmap, n: int, args: BltArgs, op: RasterOp,
                      comp: bool, left: int, right: int, bottom: int, top: int)
    requires ClipsTo(src, dst, args, left, right, bottom, top) && left < right && bottom < top
    requires Copied(b, r, src, left, src.height - top, dst, left + args.Stodx(), dst.height - (top + args.Stody()),
                    right - left, top - bottom, op, comp)
    ensures |r| == |b| && forall a :: 0 <= a < |b| && !InRect(dst, 0, 0, dst.width, dst.height, a) ==> r[a] == b[a]
  {
    hide Px, InRect, Raster;
    var dlx, dty, w, h := left + args.Stodx(), dst.height - (top + args.Stody()), right - left, top - bottom;
    assert args.Wanted(src, dst, left + args.Stodx(), bottom + args.Stody());
    assert args.Wanted(src, dst, right - 1 + args.Stodx(), top - 1 + args.Stody());
    forall a | 0 <= a < |b| && !InRect(dst, 0, 0, dst.width, dst.height, a)
      ensures r[a] == b[a]
    {
      SmallerRect(dst, dlx, dty, w, h, 0, 0, dst.width, dst.height, a);
    }
  }

  lemma NotInRect(bm: Bitmap, x: int, y: int, w: int, h: int, px: int, py: int)
    requires 0 <= px < 16 * bm.rasterwidth && 0 <= x && x + w <= 16 * bm.rasterwidth
    requires !(x <= px < x + w && y <= py < y + h)
    ensures !InRect(bm, x, y, w, h, Px(bm, px, py))
  {
    hide Px;
    if InRect(bm, x, y, w, h, Px(bm, px, py)) {
      var qx, qy :| x <= qx < x + w && y <= qy < y + h && Px(bm, px, py) == Px(bm, qx, qy);
      PxUnique(bm, px, py, qx, qy);
    }
  }

  lemma SmallerRect(bm: Bitmap, x: int, y: int, w: int, h: int, x': int, y': int, w': int, h': int, a: int)
    requires x' <= x && x + w <= x' + w' && y' <= y && y + h <= y' + h'
    requires !InRect(bm, x', y', w', h', a)
    ensures !InRect(bm, x, y, w, h, a)
  {
    hide Px;
  }
}
