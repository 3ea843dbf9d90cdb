/** What a bit-block transfer means, bit by bit, over memory seen as one string of bits. */
module BitSpec {

  /** The four raster operations (op_repl_src, op_fn_and, op_fn_or, op_fn_xor). */
  datatype RasterOp = OpReplSrc | OpFnAnd | OpFnOr | OpFnXor

  predicate Raster(op: RasterOp, src: bool, dst: bool)
  {
    match op
    case OpReplSrc => src
    case OpFnAnd => dst && src
    case OpFnOr => dst || src
    case OpFnXor => dst != src
  }

  /** One line: `w` bits from bit address `s` to bit address `d`. */
  datatype Transfer = Transfer(d: int, s: int, w: int, op: RasterOp, comp: bool)
  {
    /** The source bits lie inside `n` bits. */
    ghost predicate Reads(n: int)
    {
      0 <= w && 0 <= s && s + w <= n
    }

    /** The destination bits do. */
    ghost predicate Writes(n: int)
    {
      0 <= w && 0 <= d && d + w <= n
    }

    ghost predicate Within(n: int)
    {
      Reads(n) && Writes(n)
    }

    function Moved(dd: int, ds: int): Transfer
    {
      this.(d := d + dd, s := s + ds)
    }
  }

  /** Combine the bits `row` into `b` from bit address `d` on. */
  ghost function Put(b: seq<bool>, d: int, row: seq<bool>, op: RasterOp, comp: bool): (r: seq<bool>)
    requires 0 <= d && d + |row| <= |b|
    ensures |r| == |b|
  {
    seq(|b|, a requires 0 <= a < |b| =>
      if d <= a < d + |row| then Raster(op, row[a - d] != comp, b[a]) else b[a])
  }

  /** The line transfer reads all of its source before it writes. */
  ghost function Line(b: seq<bool>, tr: Transfer): (r: seq<bool>)
    requires tr.Within(|b|)
    ensures |r| == |b|
  {
    Put(b, tr.d, b[tr.s..tr.s + tr.w], tr.op, tr.comp)
  }

  /** `h` lines from `base`, `bpl` bits apart, lie inside `n` bits. */
  ghost predicate Fits(n: int, base: int, w: int, h: int, bpl: int)
    decreases h
  {
    h <= 0 || (0 <= base && base + w <= n && Fits(n, base + bpl, w, h - 1, bpl))
  }

  /** `h` line transfers, one after the other. */
  ghost function Lines(b: seq<bool>, tr: Transfer, h: int, dstbpl: int, srcbpl: int): (r: seq<bool>)
    requires 0 <= tr.w
    requires Fits(|b|, tr.d, tr.w, h, dstbpl) && Fits(|b|, tr.s, tr.w, h, srcbpl)
    ensures |r| == |b|
    decreases h
  {
    if h <= 0 then b else Lines(Line(b, tr), tr.Moved(dstbpl, srcbpl), h - 1, dstbpl, srcbpl)
  }

  /** Rows of bits put one after the other, `bpl` bits apart. */
  ghost function PutLines(b: seq<bool>, d: int, w: int, rows: seq<seq<bool>>, bpl: int, op: RasterOp, comp: bool)
    : (r: seq<bool>)
    requires (forall i :: 0 <= i < |rows| ==> |rows[i]| == w) && Fits(|b|, d, w, |rows|, bpl)
    ensures |r| == |b|
    decreases |rows|
  {
    if rows == [] then b else PutLines(Put(b, d, rows[0], op, comp), d + bpl, w, rows[1..], bpl, op, comp)
  }

  // ---- the rectangle as a whole ----

  function At(base: int, bpl: int, i: int, k: int): int
  {
    base + i * bpl + k
  }

  ghost predicate Covered(base: int, w: int, h: int, bpl: int, a: int)
  {
    exists i, k :: 0 <= i < h && 0 <= k < w && a == At(base, bpl, i, k)
  }

  /** Every bit of every row has been combined into the bits of `b`. */
  ghost predicate RowsPut(b: seq<bool>, r: seq<bool>, d: int, w: int, rows: seq<seq<bool>>, bpl: int, op: RasterOp,
                          comp: bool)
    requires |r| == |b| && forall i :: 0 <= i < |rows| ==> |rows[i]| == w
  {
    forall i, k :: 0 <= i < |rows| && 0 <= k < w ==>
      && 0 <= At(d, bpl, i, k) < |b|
      && r[At(d, bpl, i, k)] == Raster(op, rows[i][k] != comp, b[At(d, bpl, i, k)])
  }

  /** Every bit outside the rectangle keeps its value. */
  ghost predicate RestKept(b: seq<bool>, r: seq<bool>, d: int, w: int, h: int, bpl: int)
    requires |r| == |b|
  {
    forall a :: 0 <= a < |b| && !Covered(d, w, h, bpl, a) ==> r[a] == b[a]
  }

  /** No two destination lines share a bit. */
  ghost predicate RowsApart(w: int, h: int, bpl: int)
  {
    h <= 1 || w <= bpl || bpl <= -w
  }

  lemma AtNext(base: int, bpl: int, i: int, k: int)
    ensures At(base + bpl, bpl, i, k) == At(base, bpl, i + 1, k)
  {
    assert (i + 1) * bpl == i * bpl + bpl;
  }

  lemma AtFirst(base: int, bpl: int, k: int)
    ensures At(base, bpl, 0, k) == base + k
  {
  }

  lemma Growing(i: int, n: int)
    requires 1 <= i && 0 <= n
    ensures i * n >= n
  {
  }

  /** A stride of at least the width keeps a later line off the first one. */
  lemma RowsDiffer(w: int, h: int, bpl: int, base: int, i: int, k: int)
    requires 1 <= i < h && 0 <= k < w && RowsApart(w, h, bpl)
    ensures !(base <= At(base, bpl, i, k) < base + w)
  {
    if w <= bpl {
      assert i * bpl >= bpl by { Growing(i, bpl); }
    } else {
      assert i * -bpl >= -bpl by { Growing(i, -bpl); }
      assert i * bpl == -(i * -bpl);
    }
  }

  /** Line by line, rows that do not overlap land exactly where they should, and nowhere else. */
  lemma {:induction false} PutLinesBits(b: seq<bool>, d: int, w: int, rows: seq<seq<bool>>, bpl: int, op: RasterOp,
                                        comp: bool)
    requires (forall i :: 0 <= i < |rows| ==> |rows[i]| == w) && Fits(|b|, d, w, |rows|, bpl)
    requires RowsApart(w, |rows|, bpl)
    ensures RowsPut(b, PutLines(b, d, w, rows, bpl, op, comp), d, w, rows, bpl, op, comp)
    ensures RestKept(b, PutLines(b, d, w, rows, bpl, op, comp), d, w, |rows|, bpl)
    decreases |rows|
  {
    if rows != [] {
      var b1 := Put(b, d, rows[0], op, comp);
      var r := PutLines(b, d, w, rows, bpl, op, comp);
      assert r == PutLines(b1, d + bpl, w, rows[1..], bpl, op, comp);
      hide RowsPut, RestKept, PutLines, Put, At, Raster;
      PutLinesBits(b1, d + bpl, w, rows[1..], bpl, op, comp);
      RowsStep(b, r, d, w, rows, bpl, op, comp);
      RestStep(b, r, d, w, rows, bpl, op, comp);
    }
  }

  lemma RowsStep(b: seq<bool>, r: seq<bool>, d: int, w: int, rows: seq<seq<bool>>, bpl: int, op: RasterOp, comp: bool)
    requires (forall i :: 0 <= i < |rows| ==> |rows[i]| == w) && rows != []
    requires |r| == |b| && 0 <= d && d + w <= |b| && RowsApart(w, |rows|, bpl)
    requires RowsPut(Put(b, d, rows[0], op, comp), r, d + bpl, w, rows[1..], bpl, op, comp)
    requires RestKept(Put(b, d, rows[0], op, comp), r, d + bpl, w, |rows| - 1, bpl)
    ensures RowsPut(b, r, d, w, rows, bpl, op, comp)
  {
    hide RestKept, At, Raster;
    var b1, d1 := Put(b, d, rows[0], op, comp), d + bpl;
    forall i, k | 0 <= i < |rows| && 0 <= k < w
      ensures 0 <= At(d, bpl, i, k) < |b|
      ensures r[At(d, bpl, i, k)] == Raster(op, rows[i][k] != comp, b[At(d, bpl, i, k)])
    {
      if i == 0 {
        AtFirst(d, bpl, k);
        FirstRowKept(b1, r, d, w, |rows|, bpl, k);
      } else {
        AtNext(d, bpl, i - 1, k);
        RowsDiffer(w, |rows|, bpl, d, i, k);
        assert rows[1..][i - 1] == rows[i];
        assert At(d1, bpl, i - 1, k) == At(d, bpl, i, k);
      }
    }
  }

  lemma FirstRowKept(b1: seq<bool>, r: seq<bool>, d: int, w: int, h: int, bpl: int, k: int)
    requires |r| == |b1| && 0 <= d && d + w <= |b1| && 0 <= k < w && RowsApart(w, h, bpl) && 0 < h
    requires RestKept(b1, r, d + bpl, w, h - 1, bpl)
    ensures r[d + k] == b1[d + k]
  {
    var d1 := d + bpl;
    forall i, k' | 0 <= i < h - 1 && 0 <= k' < w
      ensures At(d1, bpl, i, k') != d + k
    {
      AtNext(d, bpl, i, k');
      RowsDiffer(w, h, bpl, d, i + 1, k');
    }
    assert !Covered(d1, w, h - 1, bpl, d + k);
  }

  lemma RestStep(b: seq<bool>, r: seq<bool>, d: int, w: int, rows: seq<seq<bool>>, bpl: int, op: RasterOp, comp: bool)
    requires |r| == |b| && rows != [] && |rows[0]| == w && 0 <= d && d + w <= |b|
    requires RestKept(Put(b, d, rows[0], op, comp), r, d + bpl, w, |rows| - 1, bpl)
    ensures RestKept(b, r, d, w, |rows|, bpl)
  {
    hide Covered;
    forall a | 0 <= a < |b| && !Covered(d, w, |rows|, bpl, a)
      ensures r[a] == b[a]
    {
      Uncovered(d, w, |rows|, bpl, a);
    }
  }

  lemma Uncovered(d: int, w: int, h: int, bpl: int, a: int)
    requires 0 < h && !Covered(d, w, h, bpl, a)
    ensures !(d <= a < d + w) && !Covered(d + bpl, w, h - 1, bpl, a)
  {
    var k := a - d;
    assert a == At(d, bpl, 0, k);
    if Covered(d + bpl, w, h - 1, bpl, a) {
      var i, k :| 0 <= i < h - 1 && 0 <= k < w && a == At(d + bpl, bpl, i, k);
      AtNext(d, bpl, i, k);
    }
  }

  // ---- transfers: where the rows come from ----

  /** The source rows as they stand in `b`. */
  ghost function SourceRows(b: seq<bool>, s: int, w: int, h: int, bpl: int): (rows: seq<seq<bool>>)
    requires 0 <= w && Fits(|b|, s, w, h, bpl)
    ensures |rows| == (if h <= 0 then 0 else h) && forall i :: 0 <= i < |rows| ==> |rows[i]| == w
    decreases h
  {
    if h <= 0 then [] else [b[s..s + w]] + SourceRows(b, s + bpl, w, h - 1, bpl)
  }

  lemma {:induction false} SourceBit(b: seq<bool>, s: int, w: int, h: int, bpl: int, i: int, k: int)
    requires 0 <= w && Fits(|b|, s, w, h, bpl) && 0 <= i < h && 0 <= k < w
    ensures 0 <= At(s, bpl, i, k) < |b| && SourceRows(b, s, w, h, bpl)[i][k] == b[At(s, bpl, i, k)]
    decreases h
  {
    if i == 0 {
      AtFirst(s, bpl, k);
    } else {
      SourceBit(b, s + bpl, w, h - 1, bpl, i - 1, k);
      AtNext(s, bpl, i - 1, k);
    }
  }

  /** No line writes a bit that a later line still has to read. */
  ghost predicate ReadsFirst(tr: Transfer, h: int, dstbpl: int, srcbpl: int)
  {
    forall i', k', i, k :: 0 <= i' < i < h && 0 <= k' < tr.w && 0 <= k < tr.w ==>
      At(tr.d, dstbpl, i', k') != At(tr.s, srcbpl, i, k)
  }

  lemma ReadsFirstNext(tr: Transfer, h: int, dstbpl: int, srcbpl: int)
    requires ReadsFirst(tr, h, dstbpl, srcbpl)
    ensures ReadsFirst(tr.Moved(dstbpl, srcbpl), h - 1, dstbpl, srcbpl)
  {
    var tr1 := tr.Moved(dstbpl, srcbpl);
    forall i', k', i, k | 0 <= i' < i < h - 1 && 0 <= k' < tr.w && 0 <= k < tr.w
      ensures At(tr1.d, dstbpl, i', k') != At(tr1.s, srcbpl, i, k)
    {
      AtNext(tr.d, dstbpl, i', k');
      AtNext(tr.s, srcbpl, i, k);
      assert At(tr.d, dstbpl, i' + 1, k') != At(tr.s, srcbpl, i + 1, k);
    }
  }

  /** Line transfers, one after the other, put the source rows as they stood at the start. */
  lemma {:induction false} LinesPutSource(b: seq<bool>, tr: Transfer, h: int, dstbpl: int, srcbpl: int)
    requires 0 <= tr.w && Fits(|b|, tr.d, tr.w, h, dstbpl) && Fits(|b|, tr.s, tr.w, h, srcbpl)
    requires ReadsFirst(tr, h, dstbpl, srcbpl)
    ensures Lines(b, tr, h, dstbpl, srcbpl)
         == PutLines(b, tr.d, tr.w, SourceRows(b, tr.s, tr.w, h, srcbpl), dstbpl, tr.op, tr.comp)
    decreases h
  {
    hide ReadsFirst, Put, Raster, At;
    if h > 0 {
      ReadsFirstNext(tr, h, dstbpl, srcbpl);
      LinesPutSource(Line(b, tr), tr.Moved(dstbpl, srcbpl), h - 1, dstbpl, srcbpl);
      SourceKept(b, tr, h, dstbpl, srcbpl);
      LinesPutStep(b, tr, h, dstbpl, srcbpl);
    }
  }

  lemma LinesPutStep(b: seq<bool>, tr: Transfer, h: int, dstbpl: int, srcbpl: int)
    requires 0 < h && tr.Within(|b|) && Fits(|b|, tr.d, tr.w, h, dstbpl) && Fits(|b|, tr.s, tr.w, h, srcbpl)
    requires SourceRows(Line(b, tr), tr.s + srcbpl, tr.w, h - 1, srcbpl)
        == SourceRows(b, tr.s + srcbpl, tr.w, h - 1, srcbpl)
    requires Lines(Line(b, tr), tr.Moved(dstbpl, srcbpl), h - 1, dstbpl, srcbpl)
          == PutLines(Line(b, tr), tr.d + dstbpl, tr.w, SourceRows(Line(b, tr), tr.s + srcbpl, tr.w, h - 1, srcbpl),
              dstbpl, tr.op, tr.comp)
    ensures Lines(b, tr, h, dstbpl, srcbpl)
         == PutLines(b, tr.d, tr.w, SourceRows(b, tr.s, tr.w, h, srcbpl), dstbpl, tr.op, tr.comp)
  {
    hide PutLines, Put, Raster;
    PutLinesCons(b, tr.d, tr.w, b[tr.s..tr.s + tr.w], SourceRows(b, tr.s + srcbpl, tr.w, h - 1, srcbpl), dstbpl, tr.op,
                 tr.comp);
  }

  lemma PutLinesCons(b: seq<bool>, d: int, w: int, row: seq<bool>, rest: seq<seq<bool>>, bpl: int, op: RasterOp,
                     comp: bool)
    requires |row| == w && (forall i :: 0 <= i < |rest| ==> |rest[i]| == w)
    requires 0 <= d && d + w <= |b| && Fits(|b|, d + bpl, w, |rest|, bpl)
    ensures PutLines(b, d, w, [row] + rest, bpl, op, comp)
        == PutLines(Put(b, d, row, op, comp), d + bpl, w, rest, bpl, op, comp)
  {
    var rows := [row] + rest;
    assert rows[0] == row && rows[1..] == rest;
  }

  /** The first line leaves the rows still to be read as they were. */
  lemma SourceKept(b: seq<bool>, tr: Transfer, h: int, dstbpl: int, srcbpl: int)
    requires 0 < h && tr.Within(|b|) && Fits(|b|, tr.s, tr.w, h, srcbpl)
    requires ReadsFirst(tr, h, dstbpl, srcbpl)
    ensures SourceRows(Line(b, tr), tr.s + srcbpl, tr.w, h - 1, srcbpl)
        == SourceRows(b, tr.s + srcbpl, tr.w, h - 1, srcbpl)
  {
    var s1 := tr.s + srcbpl;
    var old', new' := SourceRows(b, s1, tr.w, h - 1, srcbpl), SourceRows(Line(b, tr), s1, tr.w, h - 1, srcbpl);
    forall i | 0 <= i < h - 1
      ensures old'[i] == new'[i]
    {
      forall k | 0 <= k < tr.w
        ensures old'[i][k] == new'[i][k]
      {
        SourceBit(b, s1, tr.w, h - 1, srcbpl, i, k);
        SourceBit(Line(b, tr), s1, tr.w, h - 1, srcbpl, i, k);
        AtNext(tr.s, srcbpl, i, k);
        NotOverwritten(tr, h, dstbpl, srcbpl, i + 1, k);
      }
    }
  }

  lemma NotOverwritten(tr: Transfer, h: int, dstbpl: int, srcbpl: int, i: int, k: int)
    requires 0 < i < h && 0 <= k < tr.w && ReadsFirst(tr, h, dstbpl, srcbpl)
    ensures !(tr.d <= At(tr.s, srcbpl, i, k) < tr.d + tr.w)
  {
    var written := At(tr.d, dstbpl, 0, At(tr.s, srcbpl, i, k) - tr.d);
  }

  /** `r` is `b` with every destination bit of the rectangle computed from the bits of `b`, all else kept. */
  ghost predicate IsRect(b: seq<bool>, r: seq<bool>, tr: Transfer, h: int, dstbpl: int, srcbpl: int)
  {
    && |r| == |b|
    && (forall i, k :: 0 <= i < h && 0 <= k < tr.w ==>
          && 0 <= At(tr.d, dstbpl, i, k) < |b|
          && 0 <= At(tr.s, srcbpl, i, k) < |b|
          && r[At(tr.d, dstbpl, i, k)]
             == Raster(tr.op, b[At(tr.s, srcbpl, i, k)] != tr.comp, b[At(tr.d, dstbpl, i, k)]))
    && RestKept(b, r, tr.d, tr.w, h, dstbpl)
  }

  lemma RectAt(b: seq<bool>, r: seq<bool>, tr: Transfer, h: int, dstbpl: int, srcbpl: int, i: int, k: int)
    requires IsRect(b, r, tr, h, dstbpl, srcbpl) && 0 <= i < h && 0 <= k < tr.w
    ensures |r| == |b| && 0 <= At(tr.d, dstbpl, i, k) < |b| && 0 <= At(tr.s, srcbpl, i, k) < |b|
    ensures r[At(tr.d, dstbpl, i, k)]
         == Raster(tr.op, b[At(tr.s, srcbpl, i, k)] != tr.comp, b[At(tr.d, dstbpl, i, k)])
  {
    hide At, Raster, RestKept;
  }

  lemma RectRest(b: seq<bool>, r: seq<bool>, tr: Transfer, h: int, dstbpl: int, srcbpl: int)
    requires IsRect(b, r, tr, h, dstbpl, srcbpl)
    ensures |r| == |b| && RestKept(b, r, tr.d, tr.w, h, dstbpl)
  {
    hide At, Raster, RestKept;
  }

  /** Line by line equals all at once, when no line overwrites what a later one reads. */
  lemma LinesAreRect(b: seq<bool>, tr: Transfer, h: int, dstbpl: int, srcbpl: int)
    requires 0 <= tr.w && Fits(|b|, tr.d, tr.w, h, dstbpl) && Fits(|b|, tr.s, tr.w, h, srcbpl)
    requires RowsApart(tr.w, h, dstbpl) && ReadsFirst(tr, h, dstbpl, srcbpl)
    ensures IsRect(b, Lines(b, tr, h, dstbpl, srcbpl), tr, h, dstbpl, srcbpl)
  {
    hide Lines, PutLines, At, Raster, RestKept;
    var rows := SourceRows(b, tr.s, tr.w, h, srcbpl);
    LinesPutSource(b, tr, h, dstbpl, srcbpl);
    PutLinesBits(b, tr.d, tr.w, rows, dstbpl, tr.op, tr.comp);
    var r := Lines(b, tr, h, dstbpl, srcbpl);
    forall i, k | 0 <= i < h && 0 <= k < tr.w
      ensures 0 <= At(tr.d, dstbpl, i, k) < |b| && 0 <= At(tr.s, srcbpl, i, k) < |b|
      ensures r[At(tr.d, dstbpl, i, k)]
           == Raster(tr.op, b[At(tr.s, srcbpl, i, k)] != tr.comp, b[At(tr.d, dstbpl, i, k)])
    {
      SourceBit(b, tr.s, tr.w, h, srcbpl, i, k);
    }
    assert RestKept(b, r, tr.d, tr.w, h, dstbpl) by { EmptyRest(b, r, tr.d, tr.w, |rows|, h, dstbpl); }
  }

  lemma EmptyRest(b: seq<bool>, r: seq<bool>, d: int, w: int, n: int, h: int, bpl: int)
    requires |r| == |b| && n == (if h <= 0 then 0 else h)
    requires RestKept(b, r, d, w, n, bpl)
    ensures RestKept(b, r, d, w, h, bpl)
  {
    assert forall a :: Covered(d, w, n, bpl, a) == Covered(d, w, h, bpl, a);
  }

  // ---- lines that fit ----

  /** Lines fit when the first and the last do. */
  lemma {:induction false} FitsByEnds(n: int, base: int, w: int, h: int, bpl: int)
    requires 0 < h
    requires 0 <= base && base + w <= n
    requires 0 <= base + (h - 1) * bpl && base + (h - 1) * bpl + w <= n
    ensures Fits(n, base, w, h, bpl)
    decreases h
  {
    if h > 1 {
      assert (h - 1) * bpl == (h - 2) * bpl + bpl;
      if bpl >= 0 {
        Growing(h - 1, bpl);
      } else {
        Growing(h - 1, -bpl);
        assert (h - 1) * bpl == -((h - 1) * -bpl);
      }
      FitsByEnds(n, base + bpl, w, h - 1, bpl);
    }
  }
}
