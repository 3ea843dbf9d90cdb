/** One page of cons cells: the packed cell fields, the free chain, and the searches that take cells off it
    (inc/cell.h, src/conspage.c, src/car-cdr.c). */
module ConsPage {

  import opened Memory

  // ---- the overlaid fields of a cell ----

  /** ConsCell.cdr_code, the top four bits. */
  function CdrCode(c: Cell): (k: int)
    ensures 0 <= k < 16
  {
    c / 0x1000_0000
  }

  /** ConsCell.car_field, the low twenty-eight. */
  function CarField(c: Cell): (v: int)
    ensures 0 <= v < 0x1000_0000
  {
    c % 0x1000_0000
  }

  /** freecons.next_free, the top eight. */
  function NextFree(c: Cell): int { c / 0x100_0000 }

  function WithCdrCode(c: Cell, k: int): Cell
    requires 0 <= k < 16
  {
    k * 0x1000_0000 + c % 0x1000_0000
  }

  function WithCarField(c: Cell, v: int): Cell
  {
    c / 0x1000_0000 * 0x1000_0000 + v % 0x1000_0000
  }

  function WithNextFree(c: Cell, n: int): Cell
    requires 0 <= n < 256
  {
    n * 0x100_0000 + c % 0x100_0000
  }

  // ---- the page header: count and next_cell share the cell at offset 4 ----

  function Count(c: Cell): int { c / 0x100_0000 }

  function NextCell(c: Cell): int { c / 0x1_0000 % 256 }

  function WithCount(c: Cell, n: int): Cell
    requires 0 <= n < 256
  {
    n * 0x100_0000 + c % 0x100_0000
  }

  function WithNextCell(c: Cell, n: int): Cell
    requires 0 <= n < 256
  {
    c / 0x100_0000 * 0x100_0000 + n * 0x1_0000 + c % 0x1_0000
  }

  lemma CellFields(c: Cell, k: int, v: int, n: int)
    requires 0 <= k < 16 && 0 <= n < 256
    ensures CdrCode(WithCdrCode(c, k)) == k && CarField(WithCdrCode(c, k)) == CarField(c)
    ensures CdrCode(WithCarField(c, v)) == CdrCode(c) && CarField(WithCarField(c, v)) == v % 0x1000_0000
    ensures NextFree(WithNextFree(c, n)) == n
  {
  }

  lemma CountField(c: Cell, n: int)
    requires 0 <= n < 256
    ensures Count(WithCount(c, n)) == n && NextCell(WithCount(c, n)) == NextCell(c)
  {
    var low, r := c % 0x100_0000, n * 256 + c % 0x100_0000 / 0x1_0000;
    assert WithCount(c, n) / 0x1_0000 == r;
    assert c / 0x1_0000 == c / 0x100_0000 * 256 + low / 0x1_0000;
  }

  lemma NextCellField(c: Cell, n: int)
    requires 0 <= n < 256
    ensures NextCell(WithNextCell(c, n)) == n && Count(WithNextCell(c, n)) == Count(c)
  {
    var r := c / 0x100_0000 * 256 + n;
    assert WithNextCell(c, n) == r * 0x1_0000 + c % 0x1_0000;
    assert WithNextCell(c, n) / 0x1_0000 == r;
  }

  lemma CountBelow(c: Cell)
    ensures 0 <= Count(c) < 256
  {
  }

  lemma HeaderFields(c: Cell, n: int)
    requires 0 <= n < 256
    ensures Count(WithCount(c, n)) == n && NextCell(WithCount(c, n)) == NextCell(c)
    ensures NextCell(WithNextCell(c, n)) == n && Count(WithNextCell(c, n)) == Count(c)
  {
    hide *;
    CountField(c, n);
    NextCellField(c, n);
  }

  /** A cell is its cdr code above its car; a free one, its link above the rest; a header, the count above next_cell. */
  lemma CellBits(c: Cell)
    ensures c == CdrCode(c) * 0x1000_0000 + CarField(c)
    ensures 0 <= NextFree(c) < 256 && 0 <= c - NextFree(c) * 0x100_0000 < 0x100_0000
    ensures 0 <= Count(c) < 256 && 0 <= NextCell(c) < 256
    ensures 0 <= c - Count(c) * 0x100_0000 - NextCell(c) * 0x1_0000 < 0x1_0000
  {
    var r := c / 0x1_0000;
    assert r / 256 == c / 0x100_0000;
  }

  // ---- addresses ----

  /** The index of the cell at word offset `off` of page `pg`. */
  function CellAt(pg: int, off: int): int
  {
    128 * pg + off / 2
  }

  /** Offsets that hold cons cells: 124 of them, after the header. */
  predicate IsOffset(off: int)
  {
    8 <= off <= 254 && off % 2 == 0
  }

  // ---- the free chain ----

  /** The cells of `chain` are linked in that order from the header. */
  ghost predicate Links(m: seq<Cell>, pg: int, chain: seq<int>)
  {
    && 0 < pg && 128 * pg + 128 <= |m|
    && Distinct(chain) && (forall i :: 0 <= i < |chain| ==> IsOffset(chain[i]))
    && NextCell(m[CellAt(pg, 4)]) == Nth(chain, 0)
    && forall i :: 0 <= i < |chain| ==> NextFree(m[CellAt(pg, chain[i])]) == Nth(chain, i + 1)
  }

  /** The free cells of the page are exactly `chain`, linked in that order, and counted. */
  ghost predicate Chained(m: seq<Cell>, pg: int, chain: seq<int>)
  {
    Links(m, pg, chain) && Count(m[CellAt(pg, 4)]) == |chain|
  }

  /** Outside the header cell and the cells of `chain`, memory is the same. */
  ghost predicate SameBut(m: seq<Cell>, m': seq<Cell>, pg: int, chain: seq<int>)
  {
    && |m'| == |m|
    && forall a :: 0 <= a < |m| && a != CellAt(pg, 4) && !InChain(pg, chain, a) ==> m'[a] == m[a]
  }

  /** Cell index `a` is that of a chained cell. */
  predicate InChain(pg: int, chain: seq<int>, a: int)
  {
    a >= CellAt(pg, 0) && 2 * (a - CellAt(pg, 0)) in chain
  }

  /** The chain without the cell at offset `x`. */
  function Without(chain: seq<int>, x: int): seq<int>
  {
    if chain == [] then []
    else if chain[0] == x then chain[1..]
    else [chain[0]] + Without(chain[1..], x)
  }

  lemma {:induction false} DroppedIsWithout(chain: seq<int>, i: int)
    requires Distinct(chain) && 0 <= i < |chain|
    ensures Without(chain, chain[i]) == Dropped(chain, i)
  {
    if i > 0 {
      var rest := chain[1..];
      DistinctTail(chain);
      DroppedIsWithout(rest, i - 1);
      assert rest[i - 1] == chain[i] != chain[0];
      assert Dropped(chain, i) == [chain[0]] + Dropped(rest, i - 1);
    }
  }

  lemma DistinctTail(chain: seq<int>)
    requires Distinct(chain) && chain != []
    ensures Distinct(chain[1..]) && chain[0] !in chain[1..]
  {
  }

  lemma {:induction false} WithoutMembers(chain: seq<int>, x: int)
    requires Distinct(chain)
    ensures forall c :: c in Without(chain, x) <==> c in chain && c != x
    ensures Distinct(Without(chain, x))
    ensures |Without(chain, x)| == if x in chain then |chain| - 1 else |chain|
  {
    if chain != [] {
      var rest := chain[1..];
      DistinctTail(chain);
      assert forall c :: c in chain <==> c == chain[0] || c in rest;
      WithoutMembers(rest, x);
      if chain[0] != x {
        var r := [chain[0]] + Without(rest, x);
        assert r[1..] == Without(rest, x);
        assert forall c :: c in r <==> c == chain[0] || c in Without(rest, x);
        DistinctCons(chain[0], Without(rest, x));
      }
    }
  }

  lemma DistinctCons(x: int, s: seq<int>)
    requires Distinct(s) && x !in s
    ensures Distinct([x] + s)
  {
  }

  // ---- taking cells off the chain ----

  /** Memory with the link that leads to place `i` of the chain set to `v`. */
  function Relink(m: seq<Cell>, pg: int, chain: seq<int>, i: int, v: int): seq<Cell>
    requires 0 < pg && 128 * pg + 128 <= |m| && 0 <= i <= |chain| && 0 <= v < 256
    requires i > 0 ==> IsOffset(chain[i - 1])
  {
    if i == 0 then m[CellAt(pg, 4) := WithNextCell(m[CellAt(pg, 4)], v)]
    else m[CellAt(pg, chain[i - 1]) := WithNextFree(m[CellAt(pg, chain[i - 1])], v)]
  }

  lemma RelinkTwice(m: seq<Cell>, pg: int, chain: seq<int>, i: int, v: int, v': int)
    requires 0 < pg && 128 * pg + 128 <= |m| && 0 <= i <= |chain| && 0 <= v < 256 && 0 <= v' < 256
    requires i > 0 ==> IsOffset(chain[i - 1])
    ensures Relink(Relink(m, pg, chain, i, v), pg, chain, i, v') == Relink(m, pg, chain, i, v')
  {
    if i == 0 {
      var c := m[CellAt(pg, 4)];
      OverwriteNextCell(c, v, v');
    } else {
      var c := m[CellAt(pg, chain[i - 1])];
      assert WithNextFree(WithNextFree(c, v), v') == WithNextFree(c, v');
    }
  }

  lemma OverwriteNextCell(c: Cell, v: int, v': int)
    requires 0 <= v < 256 && 0 <= v' < 256
    ensures WithNextCell(WithNextCell(c, v), v') == WithNextCell(c, v')
  {
    NextCellField(c, v);
    assert WithNextCell(c, v) % 0x1_0000 == c % 0x1_0000;
  }

  lemma DistinctDropped(chain: seq<int>, i: int)
    requires Distinct(chain) && 0 <= i < |chain|
    ensures Distinct(Dropped(chain, i)) && chain[i] !in Dropped(chain, i)
  {
  }

  /** The cells of a page lie apart from each other and from its header. */
  lemma CellsApart(pg: int, x: int, y: int)
    requires IsOffset(x) && IsOffset(y)
    ensures CellAt(pg, 4) < CellAt(pg, x) < 128 * pg + 128
    ensures CellAt(pg, x) == CellAt(pg, y) <==> x == y
    ensures 2 * (CellAt(pg, x) - CellAt(pg, 0)) == x
  {
  }


  lemma LinksPage(m: seq<Cell>, pg: int, chain: seq<int>)
    requires Links(m, pg, chain)
    ensures 0 < pg && 128 * pg + 128 <= |m| && Distinct(chain)
    ensures NextCell(m[CellAt(pg, 4)]) == Nth(chain, 0)
    ensures forall i :: 0 <= i < |chain| ==> IsOffset(chain[i])
  {
    hide NextFree, NextCell, Distinct;
  }

  /** A place on the chain: its cell, and the link in it. */
  lemma LinkAt(m: seq<Cell>, pg: int, chain: seq<int>, i: int)
    requires Links(m, pg, chain) && 0 <= i < |chain|
    ensures IsOffset(chain[i]) && 0 <= CellAt(pg, chain[i]) < |m|
    ensures NextFree(m[CellAt(pg, chain[i])]) == Nth(chain, i + 1)
    ensures 0 <= Nth(chain, i + 1) < 256
    ensures InChain(pg, chain, CellAt(pg, chain[i]))
  {
    hide NextFree, NextCell, Distinct;
    CellsApart(pg, chain[i], chain[i]);
  }

  /** The chain as it lies in memory: the header, at the third cell of the page, holds the count and the first offset,
      and every free cell the offset of the next, all in the top bits. */
  lemma ChainBits(m: seq<Cell>, pg: int, chain: seq<int>)
    requires Chained(m, pg, chain)
    ensures 0 < pg && 128 * pg + 128 <= |m| && m[128 * pg + 2] / 0x100_0000 == |chain|
    ensures m[128 * pg + 2] / 0x1_0000 % 256 == if chain == [] then 0 else chain[0]
    ensures forall i :: 0 <= i < |chain| ==>
        8 <= chain[i] <= 254 && chain[i] % 2 == 0 &&
        m[128 * pg + chain[i] / 2] / 0x100_0000 == if i + 1 < |chain| then chain[i + 1] else 0
  {
    hide Links, Distinct, NextFree;
    LinksPage(m, pg, chain);
    forall i | 0 <= i < |chain|
      ensures 8 <= chain[i] <= 254 && chain[i] % 2 == 0
      ensures m[128 * pg + chain[i] / 2] / 0x100_0000 == if i + 1 < |chain| then chain[i + 1] else 0
    {
      LinkAt(m, pg, chain, i);
      NextFreeIs(m[CellAt(pg, chain[i])]);
    }
  }

  lemma NextFreeIs(c: Cell)
    ensures NextFree(c) == c / 0x100_0000
  {
  }

  /** Relinking past place `i` takes that cell off the chain and changes nothing else. */
  lemma DropOne(m: seq<Cell>, pg: int, chain: seq<int>, i: int)
    requires Links(m, pg, chain) && 0 <= i < |chain|
    ensures 0 <= Nth(chain, i + 1) < 256
    ensures i > 0 ==> IsOffset(chain[i - 1])
    ensures Links(Relink(m, pg, chain, i, Nth(chain, i + 1)), pg, Dropped(chain, i))
    ensures SameBut(m, Relink(m, pg, chain, i, Nth(chain, i + 1)), pg, chain)
    ensures Count(Relink(m, pg, chain, i, Nth(chain, i + 1))[CellAt(pg, 4)]) == Count(m[CellAt(pg, 4)])
  {
    hide NextCell, NextFree, Count, WithNextCell, WithNextFree, Distinct, CellAt, InChain, IsOffset;
    LinkAt(m, pg, chain, i);
    if i > 0 {
      LinkAt(m, pg, chain, i - 1);
    }
    PageBounds(pg);
    var v := Nth(chain, i + 1);
    var m', rest := Relink(m, pg, chain, i, v), Dropped(chain, i);
    HeaderFields(m[CellAt(pg, 4)], v);
    if i > 0 {
      CellsApart(pg, chain[i - 1], chain[i - 1]);
    }
    DistinctDropped(chain, i);
    forall k | 0 <= k < |rest|
      ensures IsOffset(rest[k]) && 0 <= CellAt(pg, rest[k]) < |m'|
      ensures NextFree(m'[CellAt(pg, rest[k])]) == Nth(rest, k + 1)
    {
      DropOneLink(m, pg, chain, i, k);
    }
  }

  lemma PageBounds(pg: int)
    requires 0 < pg
    ensures 0 <= CellAt(pg, 4) < 128 * pg + 128
  {
  }

  lemma DropOneLink(m: seq<Cell>, pg: int, chain: seq<int>, i: int, k: int)
    requires Links(m, pg, chain) && 0 <= i < |chain| && 0 <= k < |chain| - 1
    requires 0 <= Nth(chain, i + 1) < 256 && (i > 0 ==> IsOffset(chain[i - 1]))
    ensures var m', rest := Relink(m, pg, chain, i, Nth(chain, i + 1)), Dropped(chain, i);
      && IsOffset(rest[k]) && 0 <= CellAt(pg, rest[k]) < |m'|
      && NextFree(m'[CellAt(pg, rest[k])]) == Nth(rest, k + 1)
  {
    hide NextCell, NextFree, Count, WithNextCell, WithNextFree, CellAt, InChain, IsOffset, Links, Distinct;
    LinksPage(m, pg, chain);
    PageBounds(pg);
    if i > 0 {
      LinkAt(m, pg, chain, i - 1);
    }
    var m', rest := Relink(m, pg, chain, i, Nth(chain, i + 1)), Dropped(chain, i);
    var from := if k < i then k else k + 1;
    assert rest[k] == chain[from];
    LinkAt(m, pg, chain, from);
    CellsApart(pg, chain[from], chain[from]);
    if i > 0 {
      CellsApart(pg, chain[i - 1], chain[from]);
      LinkField(m[CellAt(pg, chain[i - 1])], Nth(chain, i + 1));
      DistinctAt(m, pg, chain, i - 1, from);
    }
  }

  lemma DistinctAt(m: seq<Cell>, pg: int, chain: seq<int>, i: int, j: int)
    requires Links(m, pg, chain) && 0 <= i < |chain| && 0 <= j < |chain|
    ensures chain[i] == chain[j] <==> i == j
  {
    hide NextCell, NextFree, CellAt;
  }

  lemma LinkField(c: Cell, n: int)
    requires 0 <= n < 256
    ensures NextFree(WithNextFree(c, n)) == n
  {
  }

  /** The code's "if (prior) ... else": set the link out of the cell at `prior`, or out of the header. */
  method SetLink(mem: array<Cell>, pg: int, prior: int, v: int, ghost chain: seq<int>, ghost i: int)
    requires 0 < pg && 128 * pg + 128 <= mem.Length && 0 <= i <= |chain| && 0 <= v < 256
    requires i > 0 ==> IsOffset(chain[i - 1])
    requires prior == if i == 0 then 0 else chain[i - 1]
    modifies mem
    ensures mem[..] == Relink(old(mem[..]), pg, chain, i, v)
  {
    hide WithNextFree, WithNextCell;
    if prior != 0 {
      mem[CellAt(pg, prior)] := WithNextFree(mem[CellAt(pg, prior)], v);
    } else {
      mem[CellAt(pg, 4)] := WithNextCell(mem[CellAt(pg, 4)], v);
    }
  }

  method SubtractCount(mem: array<Cell>, pg: int, n: int, ghost chain: seq<int>)
    requires Links(mem[..], pg, chain) && 0 <= n && |chain| + n < 256
    requires Count(mem[CellAt(pg, 4)]) == |chain| + n
    modifies mem
    ensures Chained(mem[..], pg, chain)
    ensures SameBut(old(mem[..]), mem[..], pg, [])
  {
    hide NextCell, NextFree, Count, WithCount;
    HeaderFields(mem[CellAt(pg, 4)], Count(mem[CellAt(pg, 4)]) - n);
    mem[CellAt(pg, 4)] := WithCount(mem[CellAt(pg, 4)], Count(mem[CellAt(pg, 4)]) - n);
  }

  /** Two cells within reach of a four-bit cdr code of each other. */
  predicate Close(a: int, b: int)
  {
    a < b <= a + 14 || b < a <= b + 14
  }

  ghost predicate NoClosePair(chain: seq<int>, n: int)
    requires n <= |chain|
  {
    forall k :: 1 <= k < n ==> !Close(chain[k - 1], chain[k])
  }

  /** The state of memory and chain after two cells have been taken. */
  ghost predicate PairTaken(m: seq<Cell>, m': seq<Cell>, pg: int, chain: seq<int>, car: int, cdr: int)
  {
    && car in chain && cdr in chain && car < cdr <= car + 14
    && Chained(m', pg, Without(Without(chain, cdr), car))
    && SameBut(m, m', pg, chain)
  }

  /** The search shared by find_pair_in_page and find_cdrpair_in_page: the first neighbours on the chain that are close,
      the lower one moved up a rising run towards the higher; both come off the chain. */
  method TakePair(mem: array<Cell>, pg: int, ghost chain: seq<int>) returns (car: int, cdr: int)
    requires Chained(mem[..], pg, chain)
    modifies mem
    ensures car == 0 ==> mem[..] == old(mem[..]) && NoClosePair(chain, |chain|)
    ensures car != 0 ==> PairTaken(old(mem[..]), mem[..], pg, chain, car, cdr) && !NoClosePair(chain, |chain|)
  {
    hide NextCell, NextFree, Count, WithNextCell, WithNextFree, Links, Distinct, Without, SameBut, PairTaken, CellAt;
    car, cdr := 0, 0;
    ghost var m := mem[..];
    LinksPage(m, pg, chain);
    PageBounds(pg);
    if Count(mem[CellAt(pg, 4)]) < 2 {
      return;
    }
    var prior, priorprior := 0, 0;
    var offset := NextCell(mem[CellAt(pg, 4)]);
    ghost var i := 0;
    while offset != 0
      invariant mem[..] == m
      invariant 0 <= i <= |chain| && offset == Nth(chain, i)
      invariant prior == if i == 0 then 0 else chain[i - 1]
      invariant priorprior == if i <= 1 then 0 else chain[i - 2]
      invariant NoClosePair(chain, i)
      decreases |chain| - i
    {
      LinkAt(m, pg, chain, i);
      assert prior != 0 && Close(prior, offset) ==> !NoClosePair(chain, |chain|);
      if prior != 0 && prior > offset && prior <= offset + 14 {
        var poffset, nprior := offset, 0;
        var noffset := NextFree(mem[CellAt(pg, offset)]);
        ghost var j := i;
        while noffset > offset && noffset < prior
          invariant mem[..] == m
          invariant i <= j < |chain| && offset == chain[j] && noffset == Nth(chain, j + 1)
          invariant nprior == if j == i then 0 else chain[j - 1]
          invariant poffset == if j == i then offset else prior
          invariant offset < prior <= offset + 14
          decreases |chain| - j
        {
          nprior := offset;
          poffset := prior;
          offset := noffset;
          LinkAt(m, pg, chain, j + 1);
          noffset := NextFree(mem[CellAt(pg, offset)]);
          j := j + 1;
        }
        UnlinkRun(mem, pg, priorprior, prior, poffset, nprior, offset, chain, i, j);
        car, cdr := offset, prior;
        return;
      } else if prior != 0 && offset > prior && offset <= prior + 14 {
        UnlinkNeighbours(mem, pg, priorprior, prior, offset, chain, i);
        car, cdr := prior, offset;
        return;
      }
      priorprior := prior;
      prior := offset;
      offset := NextFree(mem[CellAt(pg, offset)]);
      i := i + 1;
    }
  }

  /** Take places i - 1 and i off in one step. */
  method UnlinkNeighbours(mem: array<Cell>, pg: int, priorprior: int, prior: int, offset: int, ghost chain: seq<int>,
                          ghost i: int)
    requires Chained(mem[..], pg, chain) && 1 <= i < |chain|
    requires priorprior == if i == 1 then 0 else chain[i - 2]
    requires prior == chain[i - 1] && offset == chain[i] && prior < offset <= prior + 14
    modifies mem
    ensures PairTaken(old(mem[..]), mem[..], pg, chain, prior, offset)
  {
    hide NextCell, NextFree, Count, WithNextCell, WithNextFree, Links, Distinct, SameBut, Without;
    ghost var m := mem[..];
    LinksPage(m, pg, chain);
    LinkAt(m, pg, chain, i);
    SetLink(mem, pg, priorprior, NextFree(mem[CellAt(pg, offset)]), chain, i - 1);
    DropTwo(m, pg, chain, i, i);
    CountDown(mem, pg, offset, prior, m, chain);
  }

  lemma SameButCount(m: seq<Cell>, m1: seq<Cell>, m2: seq<Cell>, pg: int, chain: seq<int>)
    requires SameBut(m, m1, pg, chain) && SameBut(m1, m2, pg, [])
    ensures SameBut(m, m2, pg, chain)
  {
    hide CellAt;
  }

  /** The links, length and count after two cells have been unlinked, before they are discounted. */
  ghost predicate PairUnlinked(m: seq<Cell>, m': seq<Cell>, pg: int, chain: seq<int>, x: int, y: int)
  {
    && Links(m', pg, Without(Without(chain, x), y)) && Links(m', pg, Without(Without(chain, y), x))
    && |Without(Without(chain, x), y)| == |chain| - 2 && |Without(Without(chain, y), x)| == |chain| - 2
    && Count(m'[CellAt(pg, 4)]) == |chain|
    && SameBut(m, m', pg, chain)
  }

  method UnlinkRun(mem: array<Cell>, pg: int, priorprior: int, prior: int, poffset: int, nprior: int, offset: int,
                   ghost chain: seq<int>, ghost i: int, ghost j: int)
    requires Chained(mem[..], pg, chain) && 1 <= i <= j < |chain|
    requires priorprior == if i == 1 then 0 else chain[i - 2]
    requires offset == chain[j] && nprior == (if j == i then 0 else chain[j - 1])
    requires poffset == if j == i then offset else prior
    requires prior == chain[i - 1] && offset < prior <= offset + 14
    modifies mem
    ensures PairTaken(old(mem[..]), mem[..], pg, chain, offset, prior)
  {
    hide NextCell, NextFree, Count, WithNextCell, WithNextFree, Links, Distinct, SameBut, Without, PairUnlinked;
    ghost var m := mem[..];
    LinksPage(m, pg, chain);
    LinkAt(m, pg, chain, i - 1);
    LinkAt(m, pg, chain, j);
    if j > i {
      LinkAt(m, pg, chain, j - 1);
      if i > 1 {
        LinkAt(m, pg, chain, i - 2);
        DistinctAt(m, pg, chain, j, i - 2);
        CellsApart(pg, chain[j], chain[i - 2]);
      }
      CellsApart(pg, chain[j], chain[j]);
    }
    SetLink(mem, pg, priorprior, NextFree(mem[CellAt(pg, poffset)]), chain, i - 1);
    if nprior != 0 {
      SetLink(mem, pg, nprior, NextFree(mem[CellAt(pg, offset)]), chain, j);
    }
    DropTwo(m, pg, chain, i, j);
    CountDown(mem, pg, prior, offset, m, chain);
  }

  /** pg->count -= 2 */
  method CountDown(mem: array<Cell>, pg: int, x: int, y: int, ghost m: seq<Cell>, ghost chain: seq<int>)
    requires PairUnlinked(m, mem[..], pg, chain, x, y) && x in chain && y in chain && y < x <= y + 14
    modifies mem
    ensures PairTaken(m, mem[..], pg, chain, y, x)
  {
    hide NextCell, NextFree, Count, WithNextCell, WithNextFree, Links, Distinct, SameBut, Without;
    ghost var m1 := mem[..];
    LinksPage(m1, pg, Without(Without(chain, x), y));
    CountBelow(m1[CellAt(pg, 4)]);
    SubtractCount(mem, pg, 2, Without(Without(chain, x), y));
    SameButCount(m, m1, mem[..], pg, chain);
  }

  /** The two stores of the code, as one function of memory. */
  function TwoUnlinked(m: seq<Cell>, pg: int, chain: seq<int>, i: int, j: int): seq<Cell>
    requires 0 < pg && 128 * pg + 128 <= |m| && 1 <= i <= j < |chain|
    requires 0 <= Nth(chain, i) < 256 && 0 <= Nth(chain, j + 1) < 256
    requires forall k :: 0 <= k < |chain| ==> IsOffset(chain[k])
  {
    var m1 := Relink(m, pg, chain, i - 1, if j == i then Nth(chain, j + 1) else Nth(chain, i));
    if j == i then m1 else Relink(m1, pg, chain, j, Nth(chain, j + 1))
  }

  /** Taking off places i - 1 and j, one after the other, comes to the same memory. */
  lemma UnlinkedInTurn(m: seq<Cell>, pg: int, chain: seq<int>, i: int, j: int)
    requires 0 < pg && 128 * pg + 128 <= |m| && 1 <= i <= j < |chain|
    requires 0 <= Nth(chain, i) < 256 && 0 <= Nth(chain, j + 1) < 256
    requires forall k :: 0 <= k < |chain| ==> IsOffset(chain[k])
    ensures var rest := Dropped(chain, i - 1);
      && (j > 1 ==> IsOffset(rest[j - 2]))
      && TwoUnlinked(m, pg, chain, i, j)
        == Relink(Relink(m, pg, chain, i - 1, Nth(chain, i)), pg, rest, j - 1, Nth(chain, j + 1))
  {
    hide NextCell, NextFree, WithNextCell, WithNextFree, CellAt, IsOffset;
    var rest := Dropped(chain, i - 1);
    if j == i {
      RelinkTwice(m, pg, chain, i - 1, Nth(chain, i), Nth(chain, i + 1));
      if i > 1 {
        assert rest[i - 2] == chain[i - 2];
      }
    } else {
      assert rest[j - 2] == chain[j - 1];
    }
  }

  lemma DropTwo(m: seq<Cell>, pg: int, chain: seq<int>, i: int, j: int)
    requires Chained(m, pg, chain) && 1 <= i <= j < |chain|
    ensures 0 <= Nth(chain, i) < 256 && 0 <= Nth(chain, j + 1) < 256 && 0 < pg && 128 * pg + 128 <= |m|
    ensures forall k :: 0 <= k < |chain| ==> IsOffset(chain[k])
    ensures PairUnlinked(m, TwoUnlinked(m, pg, chain, i, j), pg, chain, chain[i - 1], chain[j])
  {
    hide NextCell, NextFree, Count, WithNextCell, WithNextFree, Links, Distinct, CellAt, IsOffset, SameBut, Without,
      Relink, TwoUnlinked;
    LinksPage(m, pg, chain);
    LinkAt(m, pg, chain, j);
    DropOne(m, pg, chain, i - 1);
    var m1, rest := Relink(m, pg, chain, i - 1, Nth(chain, i)), Dropped(chain, i - 1);
    assert rest[j - 1] == chain[j] && Nth(rest, j) == Nth(chain, j + 1);
    DropOne(m1, pg, rest, j - 1);
    LinksPage(m1, pg, rest);
    UnlinkedInTurn(m, pg, chain, i, j);
    SameButTwice(m, m1, Relink(m1, pg, rest, j - 1, Nth(rest, j)), pg, chain, i - 1);
    TwoWithout(chain, i - 1, j);
  }

  lemma SameButTwice(m: seq<Cell>, m1: seq<Cell>, m2: seq<Cell>, pg: int, chain: seq<int>, i: int)
    requires 0 <= i < |chain| && SameBut(m, m1, pg, chain) && SameBut(m1, m2, pg, Dropped(chain, i))
    ensures SameBut(m, m2, pg, chain)
  {
    hide CellAt;
  }

  lemma TwoWithout(chain: seq<int>, p: int, q: int)
    requires Distinct(chain) && 0 <= p < q < |chain|
    ensures Without(Without(chain, chain[p]), chain[q]) == Dropped(Dropped(chain, p), q - 1)
    ensures Without(Without(chain, chain[q]), chain[p]) == Dropped(Dropped(chain, p), q - 1)
  {
    hide Distinct, Without, Dropped;
    DroppedAt(chain, p, q - 1);
    DroppedAt(chain, q, p);
    WithoutTwice(chain, p, q - 1);
    WithoutTwice(chain, q, p);
    DroppedTwice(chain, p, q);
  }

  lemma WithoutTwice(chain: seq<int>, i: int, j: int)
    requires Distinct(chain) && 0 <= i < |chain| && 0 <= j < |Dropped(chain, i)|
    ensures Without(Without(chain, chain[i]), Dropped(chain, i)[j]) == Dropped(Dropped(chain, i), j)
  {
    hide Distinct, Without, Dropped;
    DroppedIsWithout(chain, i);
    DistinctDropped(chain, i);
    DroppedIsWithout(Dropped(chain, i), j);
  }

  lemma DroppedAt(chain: seq<int>, i: int, j: int)
    requires 0 <= i < |chain| && 0 <= j < |chain| - 1
    ensures |Dropped(chain, i)| == |chain| - 1 && Dropped(chain, i)[j] == chain[if j < i then j else j + 1]
  {
  }

  lemma DroppedTwice(chain: seq<int>, p: int, q: int)
    requires 0 <= p < q < |chain|
    ensures Dropped(Dropped(chain, q), p) == Dropped(Dropped(chain, p), q - 1)
  {
    assert Dropped(chain, p) == chain[..p] + chain[p + 1..];
  }
}
