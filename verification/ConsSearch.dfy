/** Taking cells from one page: the five searches, popping the chain, and a fresh page
    (src/conspage.c, src/car-cdr.c). */
module ConsSearch {
  import opened Memory
  import opened ConsPage

  // ---- pairs: find_pair_in_page and find_cdrpair_in_page ----

  /** Two cells off the chain: `car` coded to reach `cdr`, and `cdr` holding `v`. */
  ghost predicate PairMade(m: seq<Cell>, m': seq<Cell>, pg: int, chain: seq<int>, car: int, cdr: int, v: int)
  {
    && PairTaken(m, m', pg, chain, car, cdr)
    && IsOffset(car) && IsOffset(cdr)
    && CdrCode(m'[CellAt(pg, car)]) == (cdr - car) / 2
    && m'[CellAt(pg, cdr)] == v
  }

  /** A cell off the chain can be written without disturbing the chain. */
  lemma WriteOff(m: seq<Cell>, pg: int, chain: seq<int>, x: int, v: Cell)
    requires Chained(m, pg, chain) && IsOffset(x) && x !in chain
    ensures Chained(m[CellAt(pg, x) := v], pg, chain)
  {
    hide NextFree, NextCell, Count, Distinct;
    CellsApart(pg, x, x);
    forall i | 0 <= i < |chain|
      ensures CellAt(pg, chain[i]) != CellAt(pg, x)
    {
      CellsApart(pg, chain[i], x);
    }
  }

  lemma PairOffsets(m: seq<Cell>, m': seq<Cell>, pg: int, chain: seq<int>, car: int, cdr: int)
    requires Chained(m, pg, chain) && PairTaken(m, m', pg, chain, car, cdr)
    ensures IsOffset(car) && IsOffset(cdr) && 1 <= (cdr - car) / 2 <= 7 && car + 2 * ((cdr - car) / 2) == cdr <= 254
    ensures car !in Without(Without(chain, cdr), car) && cdr !in Without(Without(chain, cdr), car)
    ensures |m'| == |m| && 0 < pg && 128 * pg + 128 <= |m|
  {
    hide NextFree, NextCell, Count, Distinct, Without, SameBut, CellAt, Links, IsOffset;
    LinksPage(m, pg, chain);
    MemberOffset(m, pg, chain, car);
    MemberOffset(m, pg, chain, cdr);
    WithoutMembers(chain, cdr);
    WithoutMembers(Without(chain, cdr), car);
    LinksPage(m', pg, Without(Without(chain, cdr), car));
    assert |m'| == |m| by { SameSize(m, m', pg, chain); }
    OffsetGap(car, cdr);
  }

  lemma SameSize(m: seq<Cell>, m': seq<Cell>, pg: int, chain: seq<int>)
    requires SameBut(m, m', pg, chain)
    ensures |m'| == |m|
  {
  }

  lemma OffsetGap(car: int, cdr: int)
    requires IsOffset(car) && IsOffset(cdr) && car < cdr <= car + 14
    ensures 1 <= (cdr - car) / 2 <= 7 && car + 2 * ((cdr - car) / 2) == cdr <= 254
  {
  }

  lemma MemberOffset(m: seq<Cell>, pg: int, chain: seq<int>, c: int)
    requires Links(m, pg, chain) && c in chain
    ensures IsOffset(c)
  {
    hide NextFree, NextCell, Distinct, CellAt;
    var i :| 0 <= i < |chain| && chain[i] == c;
  }

  lemma WriteTaken(m: seq<Cell>, m': seq<Cell>, pg: int, chain: seq<int>, car: int, cdr: int, x: int, v: Cell)
    requires Chained(m, pg, chain) && PairTaken(m, m', pg, chain, car, cdr) && (x == car || x == cdr)
    ensures 0 <= CellAt(pg, x) < |m'|
    ensures PairTaken(m, m'[CellAt(pg, x) := v], pg, chain, car, cdr)
  {
    hide NextFree, NextCell, Count, Distinct, Without, Links, Chained;
    PairOffsets(m, m', pg, chain, car, cdr);
    CellsApart(pg, x, x);
    WriteOff(m', pg, Without(Without(chain, cdr), car), x, v);
  }

  method FindPairInPage(mem: array<Cell>, pg: int, cdrval: Cell, ghost chain: seq<int>)
    returns (cell: int, ghost car: int, ghost cdr: int)
    requires Chained(mem[..], pg, chain)
    modifies mem
    ensures cell == 0 ==> mem[..] == old(mem[..]) && NoClosePair(chain, |chain|)
    ensures cell != 0 ==> cell == 256 * pg + car && PairMade(old(mem[..]), mem[..], pg, chain, car, cdr, cdrval)
    ensures cell != 0 ==> !NoClosePair(chain, |chain|)
  {
    hide NextCell, NextFree, Count, WithCdrCode, CdrCode, CarField, Links, Chained, PairTaken, Without, NoClosePair,
      CellAt;
    var carcell, cdrcell := TakePair(mem, pg, chain);
    car, cdr := carcell, cdrcell;
    if carcell == 0 {
      return 0, 0, 0;
    }
    ghost var m, m1 := old(mem[..]), mem[..];
    PairOffsets(m, m1, pg, chain, car, cdr);
    CellsApart(pg, car, cdr);
    CellsApart(pg, cdr, car);
    PageBounds(pg);
    WriteTaken(m, m1, pg, chain, car, cdr, car, WithCdrCode(mem[CellAt(pg, carcell)], (cdrcell - carcell) / 2));
    CellFields(mem[CellAt(pg, carcell)], (cdrcell - carcell) / 2, 0, 0);
    mem[CellAt(pg, carcell)] := WithCdrCode(mem[CellAt(pg, carcell)], (cdrcell - carcell) / 2);
    assert !((cdrcell - carcell) / 2 > 7) &&
      !(254 < carcell + 2 * ((cdrcell - carcell) / 2));  // neither error is reached
    WriteTaken(m, mem[..], pg, chain, car, cdr, cdr, cdrval);
    mem[CellAt(pg, cdrcell)] := cdrval;
    cell := 256 * pg + carcell;
    PairPositive(m, mem[..], pg, chain, car, cdr);
  }

  lemma PairPositive(m: seq<Cell>, m': seq<Cell>, pg: int, chain: seq<int>, car: int, cdr: int)
    requires Chained(m, pg, chain) && PairTaken(m, m', pg, chain, car, cdr)
    ensures 256 * pg + car > 0
  {
    hide NextFree, NextCell, Count, Distinct, Without, SameBut, CellAt, PairTaken;
    PairOffsets(m, m', pg, chain, car, cdr);
  }

  method FindCdrpairInPage(mem: array<Cell>, pg: int, carpart: Cell, cdrpart: Cell, ghost chain: seq<int>)
    returns (cell: int, ghost car: int, ghost cdr: int)
    requires Chained(mem[..], pg, chain)
    modifies mem
    ensures cell == 0 ==> mem[..] == old(mem[..]) && NoClosePair(chain, |chain|)
    ensures cell != 0 ==> cell == 256 * pg + car && PairMade(old(mem[..]), mem[..], pg, chain, car, cdr, cdrpart)
    ensures cell != 0 ==> !NoClosePair(chain, |chain|)
    ensures cell != 0 ==> 0 <= 128 * pg + car / 2 < mem.Length && CarField(mem[128 * pg + car / 2]) == CarField(carpart)
  {
    hide NextCell, NextFree, Count, WithCdrCode, CdrCode, CarField, Links, Chained, PairTaken, Without, NoClosePair,
      CellAt;
    var carcell, cdrcell := TakePair(mem, pg, chain);
    car, cdr := carcell, cdrcell;
    if carcell == 0 {
      return 0, 0, 0;
    }
    ghost var m := old(mem[..]);
    PairOffsets(m, mem[..], pg, chain, car, cdr);
    CellsApart(pg, car, cdr);
    CellsApart(pg, cdr, car);
    PageBounds(pg);
    WriteTaken(m, mem[..], pg, chain, car, cdr, car, carpart);
    mem[CellAt(pg, carcell)] := carpart;
    WriteTaken(m, mem[..], pg, chain, car, cdr, cdr, cdrpart);
    mem[CellAt(pg, cdrcell)] := cdrpart;
    CellFields(mem[CellAt(pg, carcell)], (cdrcell - carcell) / 2, 0, 0);
    WriteTaken(m, mem[..], pg, chain, car, cdr, car, WithCdrCode(mem[CellAt(pg, carcell)], (cdrcell - carcell) / 2));
    mem[CellAt(pg, carcell)] := WithCdrCode(mem[CellAt(pg, carcell)], (cdrcell - carcell) / 2);
    cell := 256 * pg + carcell;
    PairPositive(m, mem[..], pg, chain, car, cdr);
    CellIndex(pg, carcell);
  }

  lemma CellIndex(pg: int, off: int)
    ensures CellAt(pg, off) == 128 * pg + off / 2
  {
  }

  // ---- single cells ----

  /** The state of memory and chain after one cell has been taken. */
  ghost predicate OneTaken(m: seq<Cell>, m': seq<Cell>, pg: int, chain: seq<int>, x: int)
  {
    x in chain && IsOffset(x) && Chained(m', pg, Without(chain, x)) && SameBut(m, m', pg, chain)
  }

  /** Unlink place `i` and count it out. */
  method UnlinkAt(mem: array<Cell>, pg: int, prior: int, offset: int, ghost chain: seq<int>, ghost i: int)
    requires Chained(mem[..], pg, chain) && 0 <= i < |chain|
    requires prior == (if i == 0 then 0 else chain[i - 1]) && offset == chain[i]
    modifies mem
    ensures OneTaken(old(mem[..]), mem[..], pg, chain, offset)
  {
    hide NextCell, NextFree, Count, WithNextCell, WithNextFree, Links, Distinct, SameBut, Without;
    ghost var m := mem[..];
    LinksPage(m, pg, chain);
    LinkAt(m, pg, chain, i);
    DropOne(m, pg, chain, i);
    DroppedIsWithout(chain, i);
    SetLink(mem, pg, prior, NextFree(mem[CellAt(pg, offset)]), chain, i);
    ghost var m1 := mem[..];
    LinksPage(m1, pg, Without(chain, offset));
    CountBelow(m1[CellAt(pg, 4)]);
    SubtractCount(mem, pg, 1, Without(chain, offset));
    SameButCount(m, m1, mem[..], pg, chain);
  }

  /** A free cell lies close enough before the one at `oldoffset` to have it as an on-page cdr. */
  ghost predicate CloseBefore(chain: seq<int>, oldoffset: int)
  {
    exists c :: c in chain && c < oldoffset <= c + 14
  }

  /** find_close_prior_cell: the comparison with oldoffset - 14 is unsigned, so below offset 14 nothing is ever
      found. */
  method FindClosePriorCell(mem: array<Cell>, pg: int, oldoffset: int, ghost chain: seq<int>) returns (found: int)
    requires Chained(mem[..], pg, chain) && IsOffset(oldoffset)
    modifies mem
    ensures found != 0 <==> 14 <= oldoffset && CloseBefore(chain, oldoffset)
    ensures found == 0 ==> mem[..] == old(mem[..])
    ensures found != 0 ==> found < oldoffset <= found + 14 && OneTaken(old(mem[..]), mem[..], pg, chain, found)
    ensures found != 0 ==> CdrCode(mem[..][CellAt(pg, found)]) == 8 + (oldoffset - found) / 2
  {
    hide NextCell, NextFree, Count, WithNextCell, WithNextFree, WithCdrCode, CdrCode, Links, Distinct, SameBut, Without,
      CellAt;
    ghost var m := mem[..];
    LinksPage(m, pg, chain);
    PageBounds(pg);
    var low := if oldoffset >= 14 then oldoffset - 14 else 0x1_0000_0000 + oldoffset - 14;
    var offset := NextCell(mem[CellAt(pg, 4)]);
    var prior := 0;
    ghost var i := 0;
    while offset != 0
      invariant mem[..] == m
      invariant 0 <= i <= |chain| && offset == Nth(chain, i)
      invariant prior == if i == 0 then 0 else chain[i - 1]
      invariant 14 <= oldoffset ==> forall k :: 0 <= k < i ==> !(chain[k] < oldoffset <= chain[k] + 14)
      decreases |chain| - i
    {
      LinkAt(m, pg, chain, i);
      if offset < oldoffset && offset >= low {
        assert chain[i] in chain && chain[i] < oldoffset <= chain[i] + 14;
        var noffset := NextFree(mem[CellAt(pg, offset)]);
        while noffset > offset && noffset < oldoffset
          invariant mem[..] == m
          invariant 0 <= i < |chain| && offset == chain[i] && noffset == Nth(chain, i + 1)
          invariant prior == if i == 0 then 0 else chain[i - 1]
          invariant offset < oldoffset <= offset + 14
          decreases |chain| - i
        {
          prior := offset;
          offset := noffset;
          LinkAt(m, pg, chain, i + 1);
          noffset := NextFree(mem[CellAt(pg, offset)]);
          i := i + 1;
        }
        UnlinkAt(mem, pg, prior, offset, chain, i);
        CodeTaken(mem, pg, offset, 8 + (oldoffset - offset) / 2, m, chain);
        return offset;
      }
      prior := offset;
      offset := NextFree(mem[CellAt(pg, offset)]);
      i := i + 1;
    }
    found := 0;
  }

  /** Set the cdr code of a cell that has just been taken. */
  method CodeTaken(mem: array<Cell>, pg: int, x: int, k: int, ghost m: seq<Cell>, ghost chain: seq<int>)
    requires Chained(m, pg, chain) && OneTaken(m, mem[..], pg, chain, x) && 0 <= k < 16
    modifies mem
    ensures OneTaken(m, mem[..], pg, chain, x) && CdrCode(mem[..][CellAt(pg, x)]) == k
  {
    hide NextCell, NextFree, Count, WithCdrCode, CdrCode, Links, Without;
    TakenOffset(m, mem[..], pg, chain, x);
    CellsApart(pg, x, x);
    CellFields(mem[CellAt(pg, x)], k, 0, 0);
    WriteOff(mem[..], pg, Without(chain, x), x, WithCdrCode(mem[CellAt(pg, x)], k));
    mem[CellAt(pg, x)] := WithCdrCode(mem[CellAt(pg, x)], k);
  }

  lemma TakenOffset(m: seq<Cell>, m': seq<Cell>, pg: int, chain: seq<int>, x: int)
    requires Chained(m, pg, chain) && OneTaken(m, m', pg, chain, x)
    ensures IsOffset(x) && x !in Without(chain, x) && |m'| == |m| && 0 < pg && 128 * pg + 128 <= |m|
  {
    hide NextFree, NextCell, Count, Distinct, Without, CellAt, Links, IsOffset;
    LinksPage(m, pg, chain);
    WithoutMembers(chain, x);
  }

  /** find_close_cell */
  method FindCloseCell(mem: array<Cell>, pg: int, oldoffset: int, ghost chain: seq<int>) returns (found: int)
    requires Chained(mem[..], pg, chain) && IsOffset(oldoffset)
    modifies mem
    ensures found != 0 <==> exists c :: c in chain && oldoffset < c <= oldoffset + 14
    ensures found == 0 ==> mem[..] == old(mem[..])
    ensures found != 0 ==> oldoffset < found <= oldoffset + 14 && OneTaken(old(mem[..]), mem[..], pg, chain, found)
  {
    hide NextCell, NextFree, Count, WithNextCell, WithNextFree, Links, Distinct, SameBut, Without, CellAt;
    ghost var m := mem[..];
    LinksPage(m, pg, chain);
    PageBounds(pg);
    var offset := NextCell(mem[CellAt(pg, 4)]);
    var prior := 0;
    ghost var i := 0;
    while offset != 0
      invariant mem[..] == m
      invariant 0 <= i <= |chain| && offset == Nth(chain, i)
      invariant prior == if i == 0 then 0 else chain[i - 1]
      invariant forall k :: 0 <= k < i ==> !(oldoffset < chain[k] <= oldoffset + 14)
      decreases |chain| - i
    {
      LinkAt(m, pg, chain, i);
      if offset > oldoffset && offset <= oldoffset + 14 {
        assert chain[i] in chain && oldoffset < chain[i] <= oldoffset + 14;
        UnlinkAt(mem, pg, prior, offset, chain, i);
        return offset;
      }
      prior := offset;
      offset := NextFree(mem[CellAt(pg, offset)]);
      i := i + 1;
    }
    found := 0;
  }

  /** The first free cell of a page that has one (find_free_cons_cell, and the fresh-page case of N_OP_cons). */
  method PopCell(mem: array<Cell>, pg: int, ghost chain: seq<int>) returns (offset: int)
    requires Chained(mem[..], pg, chain) && chain != []
    modifies mem
    ensures offset == chain[0] && OneTaken(old(mem[..]), mem[..], pg, chain, offset)
  {
    hide NextCell, NextFree, Count, WithNextCell, WithNextFree, Links, Distinct, SameBut, Without, CellAt;
    LinksPage(mem[..], pg, chain);
    PageBounds(pg);
    offset := NextCell(mem[CellAt(pg, 4)]);
    UnlinkAt(mem, pg, 0, offset, chain, 0);
  }

  // ---- a fresh page ----

  /** Exclusive or, bit by bit. */
  function BitXor(a: nat, b: nat): nat
  {
    if a == 0 && b == 0 then 0
    else 2 * BitXor(a / 2, b / 2) + (if a % 2 != b % 2 then 1 else 0)
  }

  lemma {:induction false} BitXorZero(a: nat)
    ensures BitXor(a, 0) == a
  {
    if a > 0 {
      BitXorZero(a / 2);
    }
  }

  /** The source's 6 ^ j. */
  function Xor6(j: int): int
    requires 0 <= j < 256
  {
    BitXor(6, j)
  }

  /** Within each group of four cells the order is turned round. */
  lemma Xor6Is(j: int)
    requires 0 <= j < 256 && j % 2 == 0
    ensures Xor6(j) == j - j % 8 + (6 - j % 8)
  {
    var h, q, k := j / 2, j / 2 / 2, j / 2 / 2 / 2;
    BitXorStep(6, j);
    BitXorStep(3, h);
    BitXorStep(1, q);
    hide BitXor;
    BitXorSwap(k, 0);
    BitXorZero(k);
    assert BitXor(6, j) == 8 * k + 4 * (1 - q % 2) + 2 * (1 - h % 2);
    GroupOf(j, k, q % 2, h % 2);
  }

  lemma GroupOf(j: int, k: int, a: int, b: int)
    requires j == 8 * k + 4 * a + 2 * b && 0 <= a <= 1 && 0 <= b <= 1
    ensures j % 8 == 4 * a + 2 * b
  {
  }

  lemma BitXorStep(a: nat, b: nat)
    ensures BitXor(a, b) == 2 * BitXor(a / 2, b / 2) + (if a % 2 != b % 2 then 1 else 0)
  {
  }

  lemma BitXorSwap(a: nat, b: nat)
    ensures BitXor(a, b) == BitXor(b, a)
  {
  }

  /** The chain a fresh page starts with. */
  function FreshChain(): (chain: seq<int>)
    ensures |chain| == 124
  {
    seq(124, i requires 0 <= i < 124 => Xor6(254 - 2 * i))
  }

  function FreshAt(i: int): int
  {
    var j := 254 - 2 * i;
    j - j % 8 + (6 - j % 8)
  }

  lemma FreshAtOffset(i: int, k: int)
    requires 0 <= i < 124 && 0 <= k < 124
    ensures IsOffset(FreshAt(i)) && (FreshAt(i) == FreshAt(k) <==> i == k)
  {
    TurnedBack(254 - 2 * i);
    TurnedBack(254 - 2 * k);
  }

  /** Turning a group round twice gives it back. */
  lemma TurnedBack(j: int)
    requires 8 <= j <= 254 && j % 2 == 0
    ensures var x := j - j % 8 + (6 - j % 8);
      8 <= x <= 254 && x % 2 == 0 && x - x % 8 + (6 - x % 8) == j
  {
    assert (j - j % 8 + (6 - j % 8)) % 8 == 6 - j % 8;
  }

  lemma FreshAtOnto(x: int)
    requires IsOffset(x)
    ensures var i := (254 - (x - x % 8 + (6 - x % 8))) / 2;
      0 <= i < 124 && FreshAt(i) == x
  {
  }

  lemma FreshPlace(i: int)
    requires 0 <= i < 124
    ensures FreshChain()[i] == FreshAt(i) == Xor6(254 - 2 * i)
  {
    hide Xor6;
    Xor6Is(254 - 2 * i);
  }

  /** It visits every cell of the page exactly once, and its first two cells are neighbours. */
  lemma FreshChainCells()
    ensures Distinct(FreshChain())
    ensures forall x :: x in FreshChain() <==> IsOffset(x)
    ensures FreshChain()[0] == 248 && FreshChain()[1] == 250 && Close(248, 250)
  {
    hide Xor6, FreshAt, FreshChain, IsOffset;
    var chain := FreshChain();
    forall i | 0 <= i < 124
      ensures chain[i] == FreshAt(i) && IsOffset(chain[i])
    {
      FreshPlace(i);
      FreshAtOffset(i, i);
    }
    forall i, k | 0 <= i < k < 124
      ensures chain[i] != chain[k]
    {
      FreshAtOffset(i, k);
    }
    forall x | IsOffset(x)
      ensures x in chain
    {
      FreshAtOnto(x);
      var i := (254 - (x - x % 8 + (6 - x % 8))) / 2;
      assert chain[i] == x;
    }
    FirstFresh();
  }

  lemma FirstFresh()
    ensures FreshChain()[0] == 248 && FreshChain()[1] == 250
  {
    hide Xor6;
    FreshPlace(0);
    FreshPlace(1);
  }

  /** The first `i` cells of a page being made are linked, in fresh order. */
  ghost predicate FreshUpTo(m: seq<Cell>, pg: int, i: int)
  {
    && 0 < pg && 128 * pg + 128 <= |m| && 0 <= i <= 124
    && NextCell(m[CellAt(pg, 4)]) == FreshAt(0)
    && forall k {:trigger FreshAt(k)} :: 0 <= k < i ==>
         IsOffset(FreshAt(k)) && NextFree(m[CellAt(pg, FreshAt(k))]) == if k == 123 then 0 else FreshAt(k + 1)
  }

  /** One cell of the loop: a NIL car, and the link to the next. */
  method FreshCell(mem: array<Cell>, pg: int, ghost i: int, off: int, next: int)
    requires FreshUpTo(mem[..], pg, i) && i < 124
    requires off == FreshAt(i) && next == (if i == 123 then 0 else FreshAt(i + 1))
    modifies mem
    ensures FreshUpTo(mem[..], pg, i + 1)
    ensures forall a :: 0 <= a < mem.Length && !(128 * pg <= a < 128 * pg + 128) ==> mem[a] == old(mem[a])
  {
    hide NextCell, NextFree, WithNextFree, WithCarField, CarField, FreshAt, CellAt, IsOffset;
    FreshAtOffset(i, if i == 123 then 0 else i + 1);
    FreshAtOffset(if i == 123 then 0 else i + 1, i);
    PageBounds(pg);
    CellsApart(pg, off, off);
    FirstIsOffset(next, i);
    CellInPage(pg, off);
    var c := WithCarField(mem[CellAt(pg, off)], 0);
    LinkField(c, next);
    ghost var m := mem[..];
    mem[CellAt(pg, off)] := c;
    mem[CellAt(pg, off)] := WithNextFree(c, next);
    assert mem[..] == m[CellAt(pg, off) := WithNextFree(c, next)];
    FreshStep(m, mem[..], pg, i, WithNextFree(c, next));
  }

  lemma FirstIsOffset(next: int, i: int)
    requires 0 <= i < 124 && next == (if i == 123 then 0 else FreshAt(i + 1))
    ensures 0 <= next < 256
  {
  }

  lemma CellInPage(pg: int, off: int)
    requires IsOffset(off)
    ensures 128 * pg <= CellAt(pg, off) < 128 * pg + 128
  {
  }

  lemma FreshStep(m: seq<Cell>, m': seq<Cell>, pg: int, i: int, v: Cell)
    requires FreshUpTo(m, pg, i) && i < 124 && IsOffset(FreshAt(i))
    requires 0 <= CellAt(pg, FreshAt(i)) < |m| && m' == m[CellAt(pg, FreshAt(i)) := v]
    requires NextFree(v) == if i == 123 then 0 else FreshAt(i + 1)
    ensures FreshUpTo(m', pg, i + 1)
  {
    hide NextCell, NextFree, FreshAt, CellAt, IsOffset;
    CellsApart(pg, FreshAt(i), FreshAt(i));
    PageBounds(pg);
    forall k {:trigger FreshAt(k)} | 0 <= k < i + 1
      ensures IsOffset(FreshAt(k)) && 0 <= CellAt(pg, FreshAt(k)) < |m'|
      ensures NextFree(m'[CellAt(pg, FreshAt(k))]) == if k == 123 then 0 else FreshAt(k + 1)
    {
      FreshAtOffset(k, i);
      CellsApart(pg, FreshAt(k), FreshAt(i));
      CellInPage(pg, FreshAt(k));
    }
  }

  lemma FreshLinks(m: seq<Cell>, pg: int)
    requires FreshUpTo(m, pg, 124)
    ensures Links(m, pg, FreshChain())
  {
    hide NextCell, NextFree, CellAt, FreshAt, Xor6, FreshChain, IsOffset, Distinct;
    FreshChainCells();
    var chain := FreshChain();
    forall i | 0 <= i < 124
      ensures chain[i] == FreshAt(i)
    {
      FreshPlace(i);
    }
  }

  /** init_conspage: all 124 cells chained from the header, and the link to the next page. */
  method InitConspage(mem: array<Cell>, pg: int, link: Cell)
    requires 0 < pg && 128 * pg + 128 <= mem.Length
    modifies mem
    ensures Chained(mem[..], pg, FreshChain()) && mem[CellAt(pg, 6)] == link
    ensures forall a :: 0 <= a < mem.Length && !(128 * pg <= a < 128 * pg + 128) ==> mem[a] == old(mem[a])
  {
    hide NextCell, NextFree, Count, WithNextCell, WithCount, Xor6, FreshChain, FreshAt;
    var j := 254;
    FreshPlace(0);
    FreshAtOffset(0, 0);
    HeaderFields(mem[CellAt(pg, 4)], Xor6(j));
    mem[CellAt(pg, 4)] := WithNextCell(mem[CellAt(pg, 4)], Xor6(j));
    ghost var i := 0;
    while j > 8
      invariant 0 <= i <= 123 && j == 254 - 2 * i
      invariant FreshUpTo(mem[..], pg, i)
      invariant forall a :: 0 <= a < mem.Length && !(128 * pg <= a < 128 * pg + 128) ==> mem[a] == old(mem[a])
    {
      FreshPlace(i);
      FreshPlace(i + 1);
      FreshCell(mem, pg, i, Xor6(j), Xor6(j - 2));
      j := j - 2;
      i := i + 1;
    }
    FreshPlace(i);
    FreshCell(mem, pg, i, Xor6(j), 0);
    FreshLinks(mem[..], pg);
    FinishPage(mem, pg, link);
  }

  /** base->count = 124; base->next_page = link */
  method FinishPage(mem: array<Cell>, pg: int, link: Cell)
    requires Links(mem[..], pg, FreshChain())
    modifies mem
    ensures Chained(mem[..], pg, FreshChain()) && 128 * pg + 128 <= mem.Length && 0 < pg && mem[CellAt(pg, 6)] == link
    ensures forall a :: 0 <= a < mem.Length && !(128 * pg <= a < 128 * pg + 128) ==> mem[a] == old(mem[a])
  {
    hide NextCell, NextFree, Count, WithCount, FreshChain, Distinct;
    HeaderFields(mem[CellAt(pg, 4)], 124);
    mem[CellAt(pg, 4)] := WithCount(mem[CellAt(pg, 4)], 124);
    mem[CellAt(pg, 6)] := link;
  }
}
