/** Shading a rectangle with a texture: bitshade_bitmap, and the texture case of bitbltsub (src/bbtsub.c). */
module Shade {
  import opened Words
  import opened BitSpec
  import opened LineWords
  import opened BitBlt
  import opened Bitmaps

  // ---- textures ----

  /** NIL, a 16-bit number (a 4x4 pattern), or a bitmap 16 bits wide. */
  datatype Texture = NoTexture | Number(n: bv16) | Brick(rows: seq<bv16>)

  /** The pixel a texture shows at column `x` of row `y`. */
  predicate TextureBit(texture: Texture, x: int, y: int)
    requires texture.Brick? ==> texture.rows != []
  {
    match texture
    case NoTexture => false
    case Number(n) => BrickBit(n, 4 * (y % 4) + x % 4)
    case Brick(rows) => BrickBit(rows[y % Min(|rows|, 16)], x % 16)
  }

  /** Replicate a four-bit pattern through a word. */
  function Expand4Bit(bits: bv16): bv16
  {
    bits | (bits << 4) | (bits << 8) | (bits << 12)
  }

  /** Nibble `y` of a 4x4 texture. */
  function Nibble(n: bv16, y: int): bv16
    requires 0 <= y < 4
  {
    if y == 0 then (n >> 12) & 0xf
    else if y == 1 then (n >> 8) & 0xf
    else if y == 2 then (n >> 4) & 0xf
    else n & 0xf
  }

  // Over six-bit places, where bit-blasting works.

  lemma ExpandLow(bits: bv16, k: bv6)
    requires k < 16 && bits < 16
    ensures LowBit(Widened(Expand4Bit(bits)), k) == LowBit(Widened(bits), k & 3)
  {
  }

  lemma NibbleLow(n: bv16, k: bv6)
    requires k < 4
    ensures LowBit(Widened((n >> 12) & 0xf), k) == LowBit(Widened(n), 12 + k)
    ensures LowBit(Widened((n >> 8) & 0xf), k) == LowBit(Widened(n), 8 + k)
    ensures LowBit(Widened((n >> 4) & 0xf), k) == LowBit(Widened(n), 4 + k)
    ensures LowBit(Widened(n & 0xf), k) == LowBit(Widened(n), k)
  {
  }

  lemma NibbleSmall(n: bv16, y: int, k: bv6)
    requires 0 <= y < 4
    ensures Nibble(n, y) < 16 && k & 3 < 4
  {
  }

  lemma {:induction false} AmountLowTwo(i: nat)
    requires i < 16
    ensures Amount(i) & 3 == Amount(i % 4)
  {
    if i >= 4 {
      AmountLowTwo(i - 4);
      AmountAdd(i - 4, 4);
      AmountConverts(4);
      AmountLowTwoStep(Amount(i - 4), Amount(i), Amount(4));
    } else {
      AmountBelowFour(i);
    }
  }

  lemma AmountLowTwoStep(a: bv6, b: bv6, four: bv6)
    requires b == a + four && four == 4
    ensures b & 3 == a & 3
  {
  }

  lemma AmountBelowFour(i: nat)
    requires i < 4
    ensures Amount(i) & 3 == Amount(i)
  {
    assert Amount(0) == 0;
    assert Amount(1) == 1;
    assert Amount(2) == 2;
    assert Amount(3) == 3;
  }

  lemma BrickLow(row: bv16, i: int)
    requires 0 <= i < 16
    ensures Amount(15 - i) < 16
    ensures BrickBit(row, i) == LowBit(Widened(row), Amount(15 - i))
  {
    hide Bit, LowBit, Widened, Amount;
    BrickBitIs(row, i);
    BitIsLowBit(Widened(row), 16 + i);
    AmountOrder(15, 15 - i);
    AmountFifteen();
  }

  lemma AmountFifteen()
    ensures Amount(15) == 15 && Amount(12) == 12 && Amount(8) == 8 && Amount(4) == 4 && Amount(0) == 0
  {
    AmountConverts(15);
    AmountConverts(12);
    AmountConverts(8);
    AmountConverts(4);
  }

  /** Column `c` of an expanded nibble shows the nibble's own bit c mod 4. */
  lemma NibbleBit(n: bv16, y: int, c: int)
    requires 0 <= y < 4 && 0 <= c < 16
    ensures BrickBit(Expand4Bit(Nibble(n, y)), c) == BrickBit(n, 4 * y + c % 4)
  {
    hide BrickBit, LowBit, Widened, Expand4Bit, Amount;
    var k := Amount(15 - c);
    BrickLow(Expand4Bit(Nibble(n, y)), c);
    BrickLow(n, 4 * y + c % 4);
    NibbleSmall(n, y, k);
    ExpandLow(Nibble(n, y), k);
    NibbleLow(n, k & 3);
    AmountLowTwo(15 - c);
    ThreeLess(c);
    AmountFifteen();
    AmountAdd(12 - 4 * y, 3 - c % 4);
    assert 15 - (4 * y + c % 4) == (12 - 4 * y) + (3 - c % 4);
  }

  lemma ThreeLess(c: int)
    requires 0 <= c < 16
    ensures (15 - c) % 4 == 3 - c % 4
  {
  }

  lemma PlainBits(i: int)
    requires 0 <= i < 16
    ensures !BrickBit(0, i) && BrickBit(0xffff, i)
  {
    hide BrickBit, Bit, Amount;
    BrickLow(0, i);
    BrickLow(0xffff, i);
    PlainLow(Amount(15 - i));
  }

  lemma PlainLow(k: bv6)
    requires k < 16
    ensures !LowBit(Widened(0), k) && LowBit(Widened(0xffff), k)
  {
  }

  // ---- the brick for a texture ----

  /** The brick, from row `curr` on, shows the texture from row `line` on. */
  ghost predicate Shows(brick: seq<bv16>, curr: int, texture: Texture, line: int)
    requires texture.Brick? ==> texture.rows != []
  {
    && 0 <= curr < |brick|
    && forall y, c :: line <= y && 0 <= c < 16 ==>
         && 0 <= (curr + (y - line)) % |brick| < |brick|
         && BrickBit(brick[(curr + (y - line)) % |brick|], c) == TextureBit(texture, c, y)
  }

  /** The texture choice made by both bitbltsub and bitshade_bitmap. */
  method ChooseBrick(texture: Texture, line: int) returns (brick: seq<bv16>, currGrayLine: int)
    requires texture.Brick? ==> texture.rows != []
    ensures Shows(brick, currGrayLine, texture, line)
  {
    hide BrickBit, Expand4Bit, Nibble;
    match texture {
      case NoTexture =>
        brick, currGrayLine := [0], 0;
        PlainShows(0, texture, line);
      case Number(n) =>
        if n == 0 {
          brick, currGrayLine := [0], 0;
          PlainShows(0, texture, line);
        } else if n == 0xffff {
          brick, currGrayLine := [0xffff], 0;
          PlainShows(0xffff, texture, line);
        } else {
          brick := FourRows(n);
          currGrayLine := line % 4;
          NumberShows(n, line);
        }
      case Brick(rows) =>
        var numGray := Min(|rows|, 16);
        brick, currGrayLine := rows[..numGray], line % numGray;
        RowsShow(rows, line);
    }
  }

  lemma PlainShows(n: bv16, texture: Texture, line: int)
    requires n == 0 || n == 0xffff
    requires texture == Number(n) || (n == 0 && texture == NoTexture)
    ensures Shows([n], 0, texture, line)
  {
    hide BrickBit;
    forall y, c | line <= y && 0 <= c < 16
      ensures BrickBit([n][(0 + (y - line)) % 1], c) == TextureBit(texture, c, y)
    {
      PlainBits(c);
      PlainBits(4 * (y % 4) + c % 4);
    }
  }

  /** The brick of a 4x4 texture. */
  function FourRows(n: bv16): (brick: seq<bv16>)
    ensures |brick| == 4
  {
    [Expand4Bit(Nibble(n, 0)), Expand4Bit(Nibble(n, 1)), Expand4Bit(Nibble(n, 2)), Expand4Bit(Nibble(n, 3))]
  }

  lemma FourRowsAt(n: bv16, k: int)
    requires 0 <= k < 4
    ensures FourRows(n)[k] == Expand4Bit(Nibble(n, k))
  {
    hide Expand4Bit, Nibble;
  }

  lemma NumberShows(n: bv16, line: int)
    ensures Shows(FourRows(n), line % 4, Number(n), line)
  {
    hide BrickBit, Expand4Bit, Nibble, FourRows;
    forall y, c | line <= y && 0 <= c < 16
      ensures BrickBit(FourRows(n)[(line % 4 + (y - line)) % 4], c) == TextureBit(Number(n), c, y)
    {
      ModPlus(line, y - line, 4);
      assert line + (y - line) == y;
      FourRowsAt(n, y % 4);
      NibbleBit(n, y % 4, c);
    }
  }

  lemma RowsShow(rows: seq<bv16>, line: int)
    requires rows != []
    ensures Shows(rows[..Min(|rows|, 16)], line % Min(|rows|, 16), Brick(rows), line)
  {
    hide BrickBit, TextureBit;
    var n := Min(|rows|, 16);
    forall y, c | line <= y && 0 <= c < 16
      ensures 0 <= (line % n + (y - line)) % n < n
      ensures BrickBit(rows[..n][(line % n + (y - line)) % n], c) == TextureBit(Brick(rows), c, y)
    {
      RowShown(rows, line, y, c);
    }
  }

  lemma RowShown(rows: seq<bv16>, line: int, y: int, c: int)
    requires rows != [] && line <= y && 0 <= c < 16
    ensures var n := Min(|rows|, 16);
      && 0 <= (line % n + (y - line)) % n < n
      && BrickBit(rows[..n][(line % n + (y - line)) % n], c) == TextureBit(Brick(rows), c, y)
  {
    hide BrickBit;
    var n := Min(|rows|, 16);
    ModPlus(line, y - line, n);
    assert line + (y - line) == y;
    assert rows[..n][y % n] == rows[y % n];
  }

  lemma ModPlus(a: int, i: int, n: int)
    requires 0 < n
    ensures (a % n + i) % n == (a + i) % n && 0 <= (a + i) % n < n
  {
    var r := a % n + i;
    assert a == n * (a / n) + a % n;
    assert r == n * (r / n) + r % n;
    assert a + i == n * (a / n + r / n) + r % n;
    DivUnique(a + i, n, a / n + r / n, r % n);
  }

  // ---- the shaded rectangle ----

  /** `r` is `b` with the rectangle combined with the texture, laid out from (wx, -wy); all other bits kept. */
  ghost predicate Shaded(b: seq<bool>, r: seq<bool>, dst: Bitmap, dx: int, dy: int, w: int, h: int, texture: Texture,
                         wx: int, wy: int, op: RasterOp, comp: bool)
    requires texture.Brick? ==> texture.rows != []
  {
    && |r| == |b|
    && (forall x, y :: dx <= x < dx + w && dy <= y < dy + h ==>
          && 0 <= Px(dst, x, y) < |b|
          && r[Px(dst, x, y)] == Raster(op, TextureBit(texture, x - wx, y + wy) != comp, b[Px(dst, x, y)]))
    && (forall a :: 0 <= a < |b| && !InRect(dst, dx, dy, w, h, a) ==> r[a] == b[a])
  }

  /** The gray call at the end of both functions. */
  method ShadeRect(mem: array<Word>, dst: Bitmap, slx: int, left: int, dty: int, w: int, h: int, srcComp: bool,
                   op: RasterOp, brick: seq<bv16>, currGrayLine: int, ghost texture: Texture, ghost wx: int,
                   ghost wy: int)
    requires Stored(dst, 32 * mem.Length) && Inside(dst, left, dty, w, h) && 1 <= w && 1 <= h
    requires texture.Brick? ==> texture.rows != []
    requires Shows(brick, currGrayLine, texture, dty + wy) && slx % 16 == (left - wx) % 16
    modifies mem
    ensures Shaded(old(BitsOf(mem[..])), BitsOf(mem[..]), dst, left, dty, w, h, texture, wx, wy, op, srcComp)
  {
    hide BitsOf, PutLines, BrickRows, Shaded, Shows, Px, Stored, Fits, FitsRows;
    ghost var b, n, bpl := BitsOf(mem[..]), 32 * mem.Length, 16 * dst.rasterwidth;
    RectFits(dst, n, left, dty, w, h);
    ShowsCurr(brick, currGrayLine, texture, dty + wy);
    var dstbase := dst.base + dst.rasterwidth * dty;
    PxIs(dst, left, dty);
    BitbltGray(mem, 2 * dstbase, slx, left, w, h, 16 * dst.rasterwidth, srcComp, op, brick, currGrayLine);
    GrayIsShaded(b, BitsOf(mem[..]), dst, n, slx, left, dty, w, h, srcComp, op, brick, currGrayLine, texture, wx, wy);
  }

  lemma PxIs(bm: Bitmap, x: int, y: int)
    ensures Px(bm, x, y) == 16 * (bm.base + bm.rasterwidth * y) + x
  {
  }

  lemma ShowsCurr(brick: seq<bv16>, curr: int, texture: Texture, line: int)
    requires (texture.Brick? ==> texture.rows != []) && Shows(brick, curr, texture, line)
    ensures 0 <= curr < |brick|
  {
  }

  lemma RectFits(bm: Bitmap, n: int, x: int, y: int, w: int, h: int)
    requires Stored(bm, n) && Inside(bm, x, y, w, h) && 1 <= w && 1 <= h
    ensures Fits(n, Px(bm, x, y), w, h, 16 * bm.rasterwidth)
  {
    hide Px;
    PxInside(bm, n, x, y);
    PxInside(bm, n, x + w - 1, y);
    PxInside(bm, n, x, y + h - 1);
    PxInside(bm, n, x + w - 1, y + h - 1);
    PxDown(bm, x, y, 0, w - 1);
    PxDown(bm, x, y, h - 1, 0);
    PxDown(bm, x, y, h - 1, w - 1);
    FitsByEnds(n, Px(bm, x, y), w, h, 16 * bm.rasterwidth);
  }

  lemma GrayIsShaded(b: seq<bool>, r: seq<bool>, dst: Bitmap, n: int, slx: int, left: int, dty: int, w: int, h: int,
                     comp: bool, op: RasterOp, brick: seq<bv16>, curr: int, texture: Texture, wx: int, wy: int)
    requires Stored(dst, n) && Inside(dst, left, dty, w, h) && 1 <= w && 1 <= h && |b| == n
    requires texture.Brick? ==> texture.rows != []
    requires Shows(brick, curr, texture, dty + wy) && slx % 16 == (left - wx) % 16
    requires FitsRows(n, Px(dst, left, dty), brick, curr, slx, w, h, 16 * dst.rasterwidth)
    requires r == PutLines(b, Px(dst, left, dty), w, BrickRows(brick, curr, slx, w, h), 16 * dst.rasterwidth, op, comp)
    ensures Shaded(b, r, dst, left, dty, w, h, texture, wx, wy, op, comp)
  {
    hide Px, At, PutLines, Raster, BrickBit, Covered, InRect, TextureBit, Shows, RestKept;
    ShowsCurr(brick, curr, texture, dty + wy);
    var rows, bpl, d := BrickRows(brick, curr, slx, w, h), 16 * dst.rasterwidth, Px(dst, left, dty);
    PutLinesBits(b, d, w, rows, bpl, op, comp);
    forall x, y | left <= x < left + w && dty <= y < dty + h
      ensures 0 <= Px(dst, x, y) < |b|
      ensures r[Px(dst, x, y)] == Raster(op, TextureBit(texture, x - wx, y + wy) != comp, b[Px(dst, x, y)])
    {
      PxDown(dst, left, dty, y - dty, x - left);
      GrayBit(brick, curr, texture, dty, wy, slx, left, wx, w, h, y - dty, x - left);
      var at := At(d, bpl, y - dty, x - left);
    }
    forall a | 0 <= a < |b| && !InRect(dst, left, dty, w, h, a)
      ensures r[a] == b[a]
    {
      RestOutside(b, r, dst, left, dty, w, h, a);
    }
  }

  lemma RestOutside(b: seq<bool>, r: seq<bool>, dst: Bitmap, x: int, y: int, w: int, h: int, a: int)
    requires |r| == |b| && RestKept(b, r, Px(dst, x, y), w, h, 16 * dst.rasterwidth)
    requires 0 <= a < |b| && !InRect(dst, x, y, w, h, a)
    ensures r[a] == b[a]
  {
    hide Px, At;
    var d, bpl := Px(dst, x, y), 16 * dst.rasterwidth;
    if Covered(d, w, h, bpl, a) {
      var i, k :| 0 <= i < h && 0 <= k < w && a == At(d, bpl, i, k);
      PxDown(dst, x, y, i, k);
    }
  }

  /** The bit the gray engine puts at column `k` of line `i` is the texture's at that place. */
  lemma GrayBit(brick: seq<bv16>, curr: int, texture: Texture, dty: int, wy: int, slx: int, left: int, wx: int, w: int,
                h: int, i: int, k: int)
    requires texture.Brick? ==> texture.rows != []
    requires Shows(brick, curr, texture, dty + wy) && slx % 16 == (left - wx) % 16
    requires 0 <= i < h && 0 <= k < w
    ensures BrickRows(brick, curr, slx, w, h)[i][k] == TextureBit(texture, left + k - wx, dty + i + wy)
  {
    hide BrickBit, BrickRows;
    BrickRowAt(brick, curr, slx, w, h, i);
    var c := (slx + k) % 16;
    SumMod(k, slx);
    SumMod(k, left - wx);
    assert c == (left + k - wx) % 16;
    assert BrickBit(brick[(curr + (dty + wy + i - (dty + wy))) % |brick|], c) == TextureBit(texture, c, dty + wy + i);
    SameTexture(texture, c, left + k - wx, dty + wy + i);
  }

  lemma SameTexture(texture: Texture, c: int, x: int, y: int)
    requires (texture.Brick? ==> texture.rows != []) && c == x % 16
    ensures TextureBit(texture, c, y) == TextureBit(texture, x, y)
  {
    hide BrickBit;
    var q := x / 16;
    assert x == 16 * q + c;
    DivUnique(x, 4, 4 * q + c / 4, c % 4);
    DivUnique(c, 16, 0, c);
  }

  // ---- bitbltsub: TEXTURE source ----

  /** C's remainder: the sign follows the dividend. */
  function CRem(a: int, n: int): int
    requires 0 < n
  {
    if a >= 0 then a % n else -(-a % n)
  }

  lemma CRemSame(a: int)
    ensures CRem(a, 16) % 16 == a % 16
  {
    if a < 0 {
      var q, r := -a / 16, -a % 16;
      assert a == 16 * -q - r;
    }
  }

  method BitbltSubTexture(mem: array<Word>, destbm: Bitmap, dlx: int, dty: int, pbtwidth: int, pbtheight: int,
                          operation: Operation, texture: Texture, wxoffset: int, wyoffset: int)
    requires Stored(destbm, 32 * mem.Length) && (texture.Brick? ==> texture.rows != [])
    requires 0 < pbtwidth && 0 < pbtheight ==> Inside(destbm, dlx, dty, pbtwidth, pbtheight)
    modifies mem
    ensures if 0 < pbtwidth && 0 < pbtheight
            then Shaded(old(BitsOf(mem[..])), BitsOf(mem[..]), destbm, dlx, dty, pbtwidth, pbtheight,
                        texture, wxoffset, wyoffset, BbOp(operation), BbSrcType(TextureSource, operation))
            else mem[..] == old(mem[..])
  {
    if pbtheight <= 0 || pbtwidth <= 0 {
      return;
    }
    var sx := CRem(if wxoffset != 0 then dlx - wxoffset else dlx, 16);
    CRemSame(dlx - wxoffset);
    var brick, currGrayLine := ChooseBrick(texture, dty + wyoffset);
    ShadeRect(mem, destbm, sx, dlx, dty, pbtwidth, pbtheight, BbSrcType(TextureSource, operation), BbOp(operation),
              brick, currGrayLine, texture, wxoffset, wyoffset);
  }

  // ---- bitshade_bitmap ----

  datatype Extent = Unbounded | Length(n: int)

  /** Arguments of the Lisp function \BLTSHADE.BITMAP; width and height may be NIL. */
  datatype ShadeArgs = ShadeArgs(dleft: int, dbottom: int, width: Extent, height: Extent, clip: ClipRegion)
  {
    predicate Wanted(dst: Bitmap, x: int, y: int)
    {
      && 0 <= x < dst.width && 0 <= y < dst.height
      && (clip.Clip? ==> clip.left <= x < clip.left + clip.width && clip.bottom <= y < clip.bottom + clip.height)
      && dleft <= x && (width.Unbounded? || x < dleft + width.n)
      && dbottom <= y && (height.Unbounded? || y < dbottom + height.n)
    }
  }

  /** `r` is `b` with exactly the wanted pixels combined with the texture at their own place in the bitmap. */
  ghost predicate ShadedBitmap(b: seq<bool>, r: seq<bool>, dst: Bitmap, args: ShadeArgs, texture: Texture, op: RasterOp,
                               comp: bool)
    requires texture.Brick? ==> texture.rows != []
  {
    && |r| == |b|
    && (forall x, y :: 0 <= x < dst.width && 0 <= y < dst.height ==>
          && 0 <= Pixel(dst, x, y) < |b|
          && r[Pixel(dst, x, y)] ==
             if args.Wanted(dst, x, y)
             then Raster(op, TextureBit(texture, x, dst.height - 1 - y) != comp, b[Pixel(dst, x, y)])
             else b[Pixel(dst, x, y)])
    && (forall a :: 0 <= a < |b| && !InRect(dst, 0, 0, dst.width, dst.height, a) ==> r[a] == b[a])
  }

  /** left..right and bottom..top bound exactly the wanted pixels. */
  ghost predicate ShadeClipsTo(dst: Bitmap, args: ShadeArgs, left: int, right: int, bottom: int, top: int)
  {
    forall x, y :: args.Wanted(dst, x, y) <==> left <= x < right && bottom <= y < top
  }

  /** Of the four consistency checks only "bottom suspicious" can fail. The flag stands for a call of error, which stops
      in the debugger; what follows is what the code does when the operator lets it go on. */
  method BitshadeBitmap(mem: array<Word>, texture: Texture, dst: Bitmap, args: ShadeArgs, operation: Operation)
    returns (done: bool, dtyBad: bool, bottomBad: bool, suspicious: bool, leftRightBad: bool)
    requires Stored(dst, 32 * mem.Length) && (texture.Brick? ==> texture.rows != [])
    modifies mem
    ensures ShadedBitmap(old(BitsOf(mem[..])), BitsOf(mem[..]), dst, args, texture, BbOp(operation),
        BbSrcType(InputSource, operation))
    ensures done <==> exists x, y :: args.Wanted(dst, x, y)
    ensures !dtyBad && !bottomBad && !leftRightBad
    ensures suspicious <==> done && forall x, y :: args.Wanted(dst, x, y) ==> 2048 < y
  {
    hide BitsOf, Stored, Shaded, ShadedBitmap, Shows, TextureBit, InRect, ShadeClipsTo;
    ghost var b := BitsOf(mem[..]);
    done, dtyBad, bottomBad, suspicious, leftRightBad := false, false, false, false, false;
    var left, right, bottom, top := ShadeClip(dst, args);
    ShadeClipFacts(dst, args, left, right, bottom, top);
    if right <= left || top <= bottom {
      NothingShaded(b, dst, 32 * mem.Length, args, texture, BbOp(operation), BbSrcType(InputSource, operation), left,
                    right, bottom, top);
      return;
    }
    done := true;
    var height, width := top - bottom, right - left;
    var dty := dst.height - top;
    StoredWidth(dst, 32 * mem.Length);
    dtyBad := dty < 0 || dty + height > dst.height;
    bottomBad := bottom < 0;
    suspicious := bottom > 2048;
    var dstbpl := 16 * dst.rasterwidth;
    leftRightBad := left < 0 || right > dstbpl;
    var slx := CRem(left, 16);
    var brick, currGrayLine := ChooseBrick(texture, dty);
    ShadeRect(mem, dst, slx, left, dty, width, height, BbSrcType(InputSource, operation), BbOp(operation), brick,
              currGrayLine, texture, 0, 0);
    ShadedIsWanted(b, BitsOf(mem[..]), dst, 32 * mem.Length, args, texture, BbOp(operation),
                   BbSrcType(InputSource, operation), left, right, bottom, top);
  }

  /** The clipping at the head of bitshade_bitmap. */
  method ShadeClip(dst: Bitmap, args: ShadeArgs) returns (left: int, right: int, bottom: int, top: int)
    ensures ShadeClipsTo(dst, args, left, right, bottom, top)
  {
    left, bottom, top, right := 0, 0, dst.height, dst.width;
    if args.clip.Clip? {
      left := Max(left, args.clip.left);
      bottom := Max(bottom, args.clip.bottom);
      right := Min(right, args.clip.left + args.clip.width);
      top := Min(top, args.clip.bottom + args.clip.height);
    }
    left := Max(left, args.dleft);
    bottom := Max(bottom, args.dbottom);
    if args.width.Length? {
      right := Min(right, args.dleft + args.width.n);
    }
    if args.height.Length? {
      top := Min(top, args.dbottom + args.height.n);
    }
  }

  lemma ShadeClipFacts(dst: Bitmap, args: ShadeArgs, left: int, right: int, bottom: int, top: int)
    requires ShadeClipsTo(dst, args, left, right, bottom, top)
    ensures (exists x, y :: args.Wanted(dst, x, y)) <==> left < right && bottom < top
    ensures left < right && bottom < top ==>
      && 0 <= left && right <= dst.width && 0 <= bottom && top <= dst.height
      && ((forall x, y :: args.Wanted(dst, x, y) ==> 2048 < y) <==> 2048 < bottom)
  {
    if left < right && bottom < top {
      assert args.Wanted(dst, left, bottom);
      assert args.Wanted(dst, right - 1, top - 1);
    }
  }

  lemma StoredWidth(dst: Bitmap, n: int)
    requires Stored(dst, n)
    ensures dst.width <= 16 * dst.rasterwidth
  {
  }

  lemma NothingShaded(b: seq<bool>, dst: Bitmap, n: int, args: ShadeArgs, texture: Texture, op: RasterOp, comp: bool,
                      left: int, right: int, bottom: int, top: int)
    requires Stored(dst, n) && n == |b| && (texture.Brick? ==> texture.rows != [])
    requires ShadeClipsTo(dst, args, left, right, bottom, top) && (right <= left || top <= bottom)
    ensures ShadedBitmap(b, b, dst, args, texture, op, comp)
  {
    hide Px, InRect, TextureBit, Raster;
    forall x, y | 0 <= x < dst.width && 0 <= y < dst.height
      ensures 0 <= Pixel(dst, x, y) < |b| && !args.Wanted(dst, x, y)
    {
      PxInside(dst, n, x, dst.height - 1 - y);
    }
  }

  lemma ShadedIsWanted(b: seq<bool>, r: seq<bool>, dst: Bitmap, n: int, args: ShadeArgs, texture: Texture, op: RasterOp,
                       comp: bool, left: int, right: int, bottom: int, top: int)
    requires Stored(dst, n) && n == |b| && (texture.Brick? ==> texture.rows != [])
    requires ShadeClipsTo(dst, args, left, right, bottom, top) && left < right && bottom < top
    requires Shaded(b, r, dst, left, dst.height - top, right - left, top - bottom, texture, 0, 0, op, comp)
    ensures ShadedBitmap(b, r, dst, args, texture, op, comp)
  {
    hide Px, InRect, TextureBit, Raster;
    assert args.Wanted(dst, left, bottom) && args.Wanted(dst, right - 1, top - 1);
    forall x, y | 0 <= x < dst.width && 0 <= y < dst.height
      ensures 0 <= Pixel(dst, x, y) < |b|
      ensures r[Pixel(dst, x, y)] ==
              if args.Wanted(dst, x, y)
              then Raster(op, TextureBit(texture, x, dst.height - 1 - y) != comp, b[Pixel(dst, x, y)])
              else b[Pixel(dst, x, y)]
    {
      PxInside(dst, n, x, dst.height - 1 - y);
      if !args.Wanted(dst, x, y) {
        NotInRect(dst, left, dst.height - top, right - left, top - bottom, x, dst.height - 1 - y);
      }
    }
    forall a | 0 <= a < |b| && !InRect(dst, 0, 0, dst.width, dst.height, a)
      ensures r[a] == b[a]
    {
      SmallerRect(dst, left, dst.height - top, right - left, top - bottom, 0, 0, dst.width, dst.height, a);
    }
  }

  /** What Lisp asks for, pixel by pixel: where the destination, the clipping region and the request meet, the operation
      with the texture as it lies from the top left corner of the bitmap; elsewhere nothing. */
  lemma ShadedPixel(b: seq<bool>, r: seq<bool>, dst: Bitmap, args: ShadeArgs, texture: Texture, operation: Operation,
                    x: int, y: int)
    requires texture.Brick? ==> texture.rows != []
    requires ShadedBitmap(b, r, dst, args, texture, BbOp(operation), BbSrcType(InputSource, operation))
    requires 0 <= x < dst.width && 0 <= y < dst.height
    ensures var row := dst.height - 1 - y;
      var a := 16 * (dst.base + dst.rasterwidth * row) + x;
      var shown := match texture
        case NoTexture => false
        case Number(n) => BrickBit(n, 4 * (row % 4) + x % 4)
        case Brick(rows) => BrickBit(rows[row % if |rows| < 16 then |rows| else 16], x % 16);
      && 0 <= a < |b| == |r|
      && r[a] ==
         if && args.dleft <= x && (args.width.Length? ==> x < args.dleft + args.width.n)
            && args.dbottom <= y && (args.height.Length? ==> y < args.dbottom + args.height.n)
            && (args.clip.Clip? ==>
                  && args.clip.left <= x < args.clip.left + args.clip.width
                  && args.clip.bottom <= y < args.clip.bottom + args.clip.height)
         then PixOperation(InputSource, operation, shown, b[a])
         else b[a]
  {
    hide BrickBit, Raster, BbOp, BbSrcType, PixOperation, InRect;
    var row := dst.height - 1 - y;
    assert Pixel(dst, x, y) == 16 * (dst.base + dst.rasterwidth * row) + x;
    OperationMeaning(InputSource, operation, TextureBit(texture, x, row), b[Pixel(dst, x, y)]);
  }

  // ---- the pattern does not depend on how the rectangle is cut up ----

  datatype Rect = Rect(x: int, y: int, w: int, h: int)
  {
    predicate Has(px: int, py: int)
    {
      x <= px < x + w && y <= py < y + h
    }
  }

  /** Each of `bs` is the one before it with one more of the rectangles replaced by the texture. */
  ghost predicate ShadedInTurn(bs: seq<seq<bool>>, dst: Bitmap, rects: seq<Rect>, texture: Texture)
    requires texture.Brick? ==> texture.rows != []
  {
    && |bs| == |rects| + 1
    && forall i :: 0 <= i < |rects| ==>
         Shaded(bs[i], bs[i + 1], dst, rects[i].x, rects[i].y, rects[i].w, rects[i].h, texture, 0, 0, OpReplSrc, false)
  }

  /** A point of one of the first `n` rectangles. */
  ghost predicate Hit(rects: seq<Rect>, n: int, px: int, py: int)
    requires 0 <= n <= |rects|
  {
    exists i :: 0 <= i < n && rects[i].Has(px, py)
  }

  /** After n rectangles, a pixel shows the texture where one of them hit it, and what it was elsewhere. */
  lemma {:induction false} ShadedSoFar(bs: seq<seq<bool>>, dst: Bitmap, rects: seq<Rect>, whole: Rect, texture: Texture,
                                       n: int, px: int, py: int)
    requires (texture.Brick? ==> texture.rows != []) && ShadedInTurn(bs, dst, rects, texture)
    requires 0 <= n <= |rects| && 0 <= px < 16 * dst.rasterwidth
    requires forall i :: 0 <= i < |rects| ==> Inside(dst, rects[i].x, rects[i].y, rects[i].w, rects[i].h)
    requires 0 <= Px(dst, px, py) < |bs[0]|
    ensures |bs[n]| == |bs[0]|
    ensures bs[n][Px(dst, px, py)] == if Hit(rects, n, px, py) then TextureBit(texture, px, py)
        else bs[0][Px(dst, px, py)]
  {
    hide Px, TextureBit, InRect;
    if n > 0 {
      ShadedSoFar(bs, dst, rects, whole, texture, n - 1, px, py);
      var r := rects[n - 1];
      assert Shaded(bs[n - 1], bs[n - 1 + 1], dst, r.x, r.y, r.w, r.h, texture, 0, 0, OpReplSrc, false);
      if r.Has(px, py) {
        assert Hit(rects, n, px, py);
        assert px - 0 == px && py + 0 == py;
      } else {
        NotInRect(dst, r.x, r.y, r.w, r.h, px, py);
        assert Hit(rects, n, px, py) == Hit(rects, n - 1, px, py);
      }
    }
  }

  /** Replacing a rectangle by a texture is the same as replacing, in any order and with any overlap,
      rectangles that cover it and lie within it. */
  lemma CoverShadesTheSame(bs: seq<seq<bool>>, dst: Bitmap, rects: seq<Rect>, whole: Rect, texture: Texture)
    requires (texture.Brick? ==> texture.rows != []) && ShadedInTurn(bs, dst, rects, texture)
    requires Stored(dst, |bs[0]|) && Inside(dst, whole.x, whole.y, whole.w, whole.h)
    requires forall i :: 0 <= i < |rects| ==> Inside(dst, rects[i].x, rects[i].y, rects[i].w, rects[i].h)
    requires forall px, py :: whole.Has(px, py) <==> Hit(rects, |rects|, px, py)
    ensures Shaded(bs[0], bs[|rects|], dst, whole.x, whole.y, whole.w, whole.h, texture, 0, 0, OpReplSrc, false)
  {
    hide Px, TextureBit, InRect;
    var b, r, n := bs[0], bs[|rects|], |rects|;
    SameLength(bs, dst, rects, texture, n);
    forall x, y | whole.x <= x < whole.x + whole.w && whole.y <= y < whole.y + whole.h
      ensures 0 <= Px(dst, x, y) < |b|
      ensures r[Px(dst, x, y)] == Raster(OpReplSrc, TextureBit(texture, x - 0, y + 0) != false, b[Px(dst, x, y)])
    {
      assert whole.Has(x, y) && x - 0 == x && y + 0 == y;
      PxInside(dst, |b|, x, y);
      ShadedSoFar(bs, dst, rects, whole, texture, n, x, y);
    }
    forall a | 0 <= a < |b| && !InRect(dst, whole.x, whole.y, whole.w, whole.h, a)
      ensures r[a] == b[a]
    {
      OutsideAll(bs, dst, rects, whole, texture, n, a);
    }
  }

  lemma {:induction false} SameLength(bs: seq<seq<bool>>, dst: Bitmap, rects: seq<Rect>, texture: Texture, n: int)
    requires (texture.Brick? ==> texture.rows != []) && ShadedInTurn(bs, dst, rects, texture) && 0 <= n <= |rects|
    ensures |bs[n]| == |bs[0]|
  {
    if n > 0 {
      SameLength(bs, dst, rects, texture, n - 1);
      var r := rects[n - 1];
      assert Shaded(bs[n - 1], bs[n - 1 + 1], dst, r.x, r.y, r.w, r.h, texture, 0, 0, OpReplSrc, false);
    }
  }

  lemma {:induction false} OutsideAll(bs: seq<seq<bool>>, dst: Bitmap, rects: seq<Rect>, whole: Rect, texture: Texture,
                                      n: int, a: int)
    requires (texture.Brick? ==> texture.rows != []) && ShadedInTurn(bs, dst, rects, texture) && 0 <= n <= |rects|
    requires forall px, py :: whole.Has(px, py) <==> Hit(rects, |rects|, px, py)
    requires 0 <= a < |bs[0]| && !InRect(dst, whole.x, whole.y, whole.w, whole.h, a)
    ensures |bs[n]| == |bs[0]| && bs[n][a] == bs[0][a]
  {
    hide Px, TextureBit;
    if n > 0 {
      OutsideAll(bs, dst, rects, whole, texture, n - 1, a);
      var r := rects[n - 1];
      assert Shaded(bs[n - 1], bs[n - 1 + 1], dst, r.x, r.y, r.w, r.h, texture, 0, 0, OpReplSrc, false);
      OutsideOne(dst, rects, whole, n - 1, a);
    }
  }

  lemma OutsideOne(dst: Bitmap, rects: seq<Rect>, whole: Rect, i: int, a: int)
    requires 0 <= i < |rects|
    requires forall px, py :: whole.Has(px, py) <==> Hit(rects, |rects|, px, py)
    requires !InRect(dst, whole.x, whole.y, whole.w, whole.h, a)
    ensures !InRect(dst, rects[i].x, rects[i].y, rects[i].w, rects[i].h, a)
  {
    hide Px;
    forall px, py | rects[i].x <= px < rects[i].x + rects[i].w && rects[i].y <= py < rects[i].y + rects[i].h
      ensures a != Px(dst, px, py)
    {
      assert rects[i].Has(px, py);
      assert Hit(rects, |rects|, px, py);
      assert whole.Has(px, py);
    }
  }
}
