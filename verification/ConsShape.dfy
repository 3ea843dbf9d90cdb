/** How the pages of the cons heap hang together: the free chains, the list of pages from dtd_nextpage,
    and what one page's search leaves of them (src/conspage.c). */
module ConsShape {
  import opened Memory
  import opened ConsPage
  import opened ConsSearch
  import opened ConsView

  /** The roles of all cells by address, the free chains of all cons pages, and the list of pages to search. */
  datatype Shape = Shape(roles: map<int, Role>, chains: map<int, seq<int>>, plist: seq<int>)

  ghost predicate ChainsOk(m: seq<Cell>, chains: map<int, seq<int>>)
  {
    forall pg :: pg in chains ==> pg < 0x10_0000 && Chained(m, pg, chains[pg])
  }

  /** The cells are the 124 of every page; the free ones are those on its chain. */
  ghost predicate CellsOk(roles: map<int, Role>, chains: map<int, seq<int>>)
  {
    && (forall a :: a in roles <==> a / 256 in chains && IsOffset(a % 256))
    && (forall a :: a in roles ==> (roles[a] == Free <==> a % 256 in chains[a / 256]))
  }

  /** The link of a page that has been taken off the list. */
  const CONSPAGE_LAST: Cell := 0xFFFF_FFFF

  /** From `first` the pages of `plist` are linked, each once; every other page is empty and marked. */
  ghost predicate ListOk(m: seq<Cell>, first: int, chains: map<int, seq<int>>, plist: seq<int>)
  {
    && Distinct(plist) && first == Nth(plist, 0)
    && (forall i :: 0 <= i < |plist| ==> LinkedPage(m, chains, plist, i))
    && (forall pg :: pg in chains && pg !in plist ==> OffList(m, chains, pg))
  }

  ghost predicate OffList(m: seq<Cell>, chains: map<int, seq<int>>, pg: int)
    requires pg in chains
  {
    chains[pg] == [] && 0 < pg && 128 * pg + 128 <= |m| && m[CellAt(pg, 6)] == CONSPAGE_LAST
  }

  ghost predicate LinkedPage(m: seq<Cell>, chains: map<int, seq<int>>, plist: seq<int>, i: int)
    requires 0 <= i < |plist|
  {
    plist[i] in chains && 0 < plist[i] && 128 * plist[i] + 128 <= |m| && m[CellAt(plist[i], 6)] == Nth(plist, i + 1)
  }

  ghost predicate ShapeOk(m: seq<Cell>, first: int, sh: Shape)
  {
    ChainsOk(m, sh.chains) && CellsOk(sh.roles, sh.chains) && ListOk(m, first, sh.chains, sh.plist)
  }

  /** No page has a free cell. */
  ghost predicate NoneFree(chains: map<int, seq<int>>)
  {
    forall pg :: pg in chains ==> chains[pg] == []
  }

  /** No page has two free cells next to each other on its chain and close enough to be a pair. */
  ghost predicate NoneClose(chains: map<int, seq<int>>)
  {
    forall pg :: pg in chains ==> NoClosePair(chains[pg], |chains[pg]|)
  }

  /** The page at place `i` of the list has no such pair. */
  ghost predicate NoPairAt(sh: Shape, i: int)
    requires 0 <= i < |sh.plist|
  {
    sh.plist[i] in sh.chains && NoClosePair(sh.chains[sh.plist[i]], |sh.chains[sh.plist[i]]|)
  }

  /** The first page of the list with such a pair. */
  ghost predicate FirstClose(sh: Shape, pg: int)
  {
    exists i :: 0 <= i < |sh.plist| && sh.plist[i] == pg && forall j :: 0 <= j < i ==> NoPairAt(sh, j)
  }

  /** Pages without a free cell have left the front of the list. */
  ghost predicate EmptyDropped(sh: Shape, sh': Shape)
  {
    exists n :: DroppedTo(sh, sh', n)
  }

  ghost predicate DroppedTo(sh: Shape, sh': Shape, n: int)
  {
    && 0 <= n <= |sh.plist| && sh'.plist == sh.plist[n..]
    && forall j :: 0 <= j < n ==> sh.plist[j] in sh.chains && sh.chains[sh.plist[j]] == []
  }

  lemma NoneDropped(sh: Shape)
    ensures EmptyDropped(sh, sh)
  {
    assert DroppedTo(sh, sh, 0);
  }

  lemma OneMoreDropped(sh: Shape, sh1: Shape, sh2: Shape)
    requires EmptyDropped(sh, sh1) && sh1.chains == sh.chains && sh1.plist != [] && sh2.plist == sh1.plist[1..]
    requires sh1.plist[0] in sh1.chains && sh1.chains[sh1.plist[0]] == []
    ensures EmptyDropped(sh, sh2)
  {
    var n :| DroppedTo(sh, sh1, n);
    assert DroppedTo(sh, sh2, n + 1);
  }

  // ---- memory changes within one page ----

  ghost predicate PageOnly(m: seq<Cell>, m': seq<Cell>, pg: int)
  {
    SameOutside(m, m', 128 * pg, 128 * pg + 128)
  }

  /** A page keeps its chain when none of its cells change. */
  lemma ChainElsewhere(m: seq<Cell>, m': seq<Cell>, pg: int, chain: seq<int>)
    requires Chained(m, pg, chain) && |m'| == |m|
    requires forall a :: 128 * pg <= a < 128 * pg + 128 ==> m'[a] == m[a]
    ensures Chained(m', pg, chain)
  {
    hide NextFree, NextCell, Count, Distinct;
  }

  lemma ChainsElsewhere(m: seq<Cell>, m': seq<Cell>, chains: map<int, seq<int>>, pg: int)
    requires ChainsOk(m, chains) && PageOnly(m, m', pg)
    ensures forall q :: q in chains && q != pg ==> Chained(m', q, chains[q])
  {
    hide NextFree, NextCell, Count, Distinct, Chained;
    forall q | q in chains && q != pg
      ensures Chained(m', q, chains[q])
    {
      ChainRoom(m, q, chains[q]);
      ChainElsewhere(m, m', q, chains[q]);
    }
  }

  lemma ChainRoom(m: seq<Cell>, pg: int, chain: seq<int>)
    requires Chained(m, pg, chain)
    ensures 0 < pg && 128 * pg + 128 <= |m| && Distinct(chain)
    ensures forall x :: x in chain ==> IsOffset(x)
  {
    hide NextFree, NextCell, Count, Distinct;
  }

  /** A search changes only its page, and there only the header cell and cells that were free. */
  lemma SearchKeeps(m: seq<Cell>, m': seq<Cell>, pg: int, chain: seq<int>)
    requires Chained(m, pg, chain) && SameBut(m, m', pg, chain)
    ensures PageOnly(m, m', pg)
    ensures 0 < pg && 128 * pg + 128 <= |m| && m'[CellAt(pg, 6)] == m[CellAt(pg, 6)]
    ensures forall x :: IsOffset(x) && x !in chain ==> 0 <= CellAt(pg, x) < |m| && m'[CellAt(pg, x)] == m[CellAt(pg, x)]
  {
    hide NextFree, NextCell, Count, Distinct;
    ChainRoom(m, pg, chain);
    forall a | 0 <= a < |m| && !(128 * pg <= a < 128 * pg + 128)
      ensures !InChain(pg, chain, a) && a != CellAt(pg, 4)
    {
    }
    assert !InChain(pg, chain, CellAt(pg, 6));
    forall x | IsOffset(x) && x !in chain
      ensures 0 <= CellAt(pg, x) < |m| && m'[CellAt(pg, x)] == m[CellAt(pg, x)]
    {
      CellsApart(pg, x, x);
    }
  }

  // ---- the list of pages ----

  lemma ListElsewhere(m: seq<Cell>, m': seq<Cell>, first: int, chains: map<int, seq<int>>, chains': map<int, seq<int>>,
                      plist: seq<int>)
    requires ListOk(m, first, chains, plist) && |m'| == |m| && chains'.Keys == chains.Keys
    requires forall pg :: pg in chains && 0 < pg && 128 * pg + 128 <= |m| ==> m'[CellAt(pg, 6)] == m[CellAt(pg, 6)]
    requires forall pg :: pg in chains && chains[pg] == [] ==> chains'[pg] == []
    ensures ListOk(m', first, chains', plist)
  {
    hide Distinct, CellAt, Nth;
    forall i | 0 <= i < |plist|
      ensures LinkedPage(m', chains', plist, i)
    {
      assert LinkedPage(m, chains, plist, i);
    }
    forall pg | pg in chains' && pg !in plist
      ensures OffList(m', chains', pg)
    {
      assert OffList(m, chains, pg);
    }
  }

  lemma AllSearched(m: seq<Cell>, first: int, sh: Shape)
    requires ShapeOk(m, first, sh) && forall i :: 0 <= i < |sh.plist| ==> NoPairAt(sh, i)
    ensures NoneClose(sh.chains)
  {
    hide CellsOk, ChainsOk, Distinct, Close;
    forall pg | pg in sh.chains
      ensures NoClosePair(sh.chains[pg], |sh.chains[pg]|)
    {
      if pg in sh.plist {
        var i :| 0 <= i < |sh.plist| && sh.plist[i] == pg;
        assert NoPairAt(sh, i);
      } else {
        assert OffList(m, sh.chains, pg);
      }
    }
  }

  lemma AllDropped(m: seq<Cell>, first: int, sh: Shape)
    requires ShapeOk(m, first, sh) && sh.plist == []
    ensures NoneFree(sh.chains)
  {
    hide CellsOk, ChainsOk, Distinct;
    forall pg | pg in sh.chains
      ensures sh.chains[pg] == []
    {
      assert OffList(m, sh.chains, pg);
    }
  }

  /** Of the pages in all, exactly those off the list carry the mark. */
  lemma MarkMeansOff(m: seq<Cell>, first: int, sh: Shape)
    requires ShapeOk(m, first, sh)
    ensures forall pg :: pg in sh.chains ==> 0 < pg && 128 * pg + 128 <= |m|
    ensures forall pg :: pg in sh.chains ==> (m[128 * pg + 3] == 0xFFFF_FFFF <==> pg !in sh.plist)
  {
    hide CellsOk, Chained, Distinct;
    BelowLimit(m, sh.chains);
    forall pg | pg in sh.chains
      ensures m[128 * pg + 3] == 0xFFFF_FFFF <==> pg !in sh.plist
    {
      if pg in sh.plist {
        var i :| 0 <= i < |sh.plist| && sh.plist[i] == pg;
        assert LinkedPage(m, sh.chains, sh.plist, i);
        if i + 1 < |sh.plist| {
          assert LinkedPage(m, sh.chains, sh.plist, i + 1);
        }
      } else {
        assert OffList(m, sh.chains, pg);
      }
    }
  }

  /** The list as it lies in memory. */
  lemma ListInMemory(m: seq<Cell>, first: int, sh: Shape)
    requires ShapeOk(m, first, sh)
    ensures sh.plist == [] ==> first == 0
    ensures sh.plist != [] ==> first == sh.plist[0] && first != 0
    ensures forall i :: 0 <= i < |sh.plist| ==> sh.plist[i] in sh.chains && 0 <= 128 * sh.plist[i] + 3 < |m|
    ensures forall i :: 0 <= i < |sh.plist| ==>
        m[128 * sh.plist[i] + 3] == if i + 1 < |sh.plist| then sh.plist[i + 1] else 0
  {
    hide ChainsOk, CellsOk, Distinct;
    forall i | 0 <= i < |sh.plist|
      ensures sh.plist[i] in sh.chains && 0 < sh.plist[i] && 0 <= 128 * sh.plist[i] + 3 < |m|
      ensures m[128 * sh.plist[i] + 3] == if i + 1 < |sh.plist| then sh.plist[i + 1] else 0
    {
      assert LinkedPage(m, sh.chains, sh.plist, i);
    }
  }

  lemma FreeOnList(m: seq<Cell>, first: int, sh: Shape)
    requires ShapeOk(m, first, sh)
    ensures forall a :: a in sh.roles && sh.roles[a] == Free ==> a / 256 in sh.plist
  {
    hide Chained, Distinct, LinkedPage, IsOffset;
    forall a | a in sh.roles && sh.roles[a] == Free
      ensures a / 256 in sh.plist
    {
      assert a / 256 in sh.chains && a % 256 in sh.chains[a / 256];
    }
  }

  // ---- what a search leaves ----

  /** The cells `taken` of page `pg` have left its chain and play new roles. */
  ghost predicate RolesTaken(roles: map<int, Role>, roles': map<int, Role>, pg: int, chain: seq<int>, chain': seq<int>)
  {
    && roles'.Keys == roles.Keys
    && (forall x :: x in chain' ==> x in chain)
    && (forall a :: a in roles ==>
          (roles'[a] == Free <==> roles[a] == Free && !(a / 256 == pg && a % 256 !in chain')))
  }

  /** A page whose chain a search has shortened. */
  lemma PageSearched(m: seq<Cell>, m': seq<Cell>, first: int, sh: Shape, pg: int, chain': seq<int>,
                     roles': map<int, Role>)
    requires ShapeOk(m, first, sh) && pg in sh.chains
    requires Chained(m', pg, chain') && SameBut(m, m', pg, sh.chains[pg])
    requires RolesTaken(sh.roles, roles', pg, sh.chains[pg], chain')
    ensures ShapeOk(m', first, Shape(roles', sh.chains[pg := chain'], sh.plist))
  {
    hide NextFree, NextCell, Count, Distinct, Chained, SameBut, ListOk, CellAt, IsOffset;
    var chain, chains' := sh.chains[pg], sh.chains[pg := chain'];
    SearchKeeps(m, m', pg, chain);
    ChainsElsewhere(m, m', sh.chains, pg);
    assert ChainsOk(m', chains');
    TakenCells(sh.roles, roles', sh.chains, pg, chain');
    forall q | q in sh.chains && 0 < q && 128 * q + 128 <= |m|
      ensures 0 <= CellAt(q, 6) < |m| && m'[CellAt(q, 6)] == m[CellAt(q, 6)]
    {
      LinkCell(q, pg);
    }
    ShorterEmpty(chain, chain');
    ListElsewhere(m, m', first, sh.chains, chains', sh.plist);
  }

  lemma LinkCell(q: int, pg: int)
    requires 0 < q
    ensures 0 <= CellAt(q, 6) < 128 * q + 128 && (q != pg ==> !(128 * pg <= CellAt(q, 6) < 128 * pg + 128))
  {
  }

  lemma ShorterEmpty(chain: seq<int>, chain': seq<int>)
    requires forall x :: x in chain' ==> x in chain
    ensures chain == [] ==> chain' == []
  {
    if chain' != [] {
      var x := chain'[0];
      assert x in chain' && x in chain;
    }
  }

  lemma TakenCells(roles: map<int, Role>, roles': map<int, Role>, chains: map<int, seq<int>>, pg: int, chain': seq<int>)
    requires CellsOk(roles, chains) && pg in chains && RolesTaken(roles, roles', pg, chains[pg], chain')
    ensures CellsOk(roles', chains[pg := chain'])
  {
    hide IsOffset;
    var chains' := chains[pg := chain'];
    assert chains'.Keys == chains.Keys;
    forall a
      ensures a in roles' <==> a / 256 in chains' && IsOffset(a % 256)
    {
      assert a in roles' <==> a in roles;
    }
  }

  /** Writing a cell that is not free disturbs no chain and no list. */
  lemma LiveWrite(m: seq<Cell>, first: int, sh: Shape, a: int, v: Cell)
    requires ShapeOk(m, first, sh) && a in sh.roles && sh.roles[a] != Free
    ensures InMemory(m, a) && a / 2 == CellAt(a / 256, a % 256)
    ensures ShapeOk(m[a / 2 := v], first, sh)
  {
    hide NextFree, NextCell, Count, Distinct, Chained, ListOk, CellAt, ChainsOk, IsOffset;
    var pg, x := a / 256, a % 256;
    assert pg in sh.chains && IsOffset(x) && x !in sh.chains[pg];
    PageOf(m, sh.chains, pg);
    CellAddress(m, a);
    var m' := m[a / 2 := v];
    WriteOff(m, pg, sh.chains[pg], x, v);
    CellsApart(pg, x, x);
    assert PageOnly(m, m', pg) by { CellInPage(pg, x); }
    ChainsElsewhere(m, m', sh.chains, pg);
    AllChained(m', sh.chains);
    forall q | q in sh.chains && 0 < q && 128 * q + 128 <= |m|
      ensures 0 <= CellAt(q, 6) < |m| && m'[CellAt(q, 6)] == m[CellAt(q, 6)]
    {
      LinkCell(q, pg);
      LinkApart(q, x);
    }
    ListElsewhere(m, m', first, sh.chains, sh.chains, sh.plist);
  }

  lemma LinkApart(pg: int, x: int)
    requires IsOffset(x)
    ensures CellAt(pg, 6) != CellAt(pg, x)
  {
  }

  lemma AllChained(m: seq<Cell>, chains: map<int, seq<int>>)
    requires forall q :: q in chains ==> q < 0x10_0000 && Chained(m, q, chains[q])
    ensures ChainsOk(m, chains)
  {
    hide Chained;
  }

  lemma PageOf(m: seq<Cell>, chains: map<int, seq<int>>, pg: int)
    requires ChainsOk(m, chains) && pg in chains
    ensures 0 < pg < 0x10_0000 && 128 * pg + 128 <= |m| && Chained(m, pg, chains[pg])
    ensures forall q :: q in chains ==> q < 0x10_0000
  {
    hide NextFree, NextCell, Count, Distinct;
  }

  /** The cell at an address is that at an offset of a page. */
  lemma CellAddress(m: seq<Cell>, a: int)
    requires 0 < a / 256 < 0x10_0000 && 128 * (a / 256) + 128 <= |m| && IsOffset(a % 256)
    ensures InMemory(m, a) && a / 2 == CellAt(a / 256, a % 256)
  {
  }

  lemma AddressOf(pg: int, x: int)
    requires IsOffset(x)
    ensures (256 * pg + x) / 256 == pg && (256 * pg + x) % 256 == x && (256 * pg + x) / 2 == CellAt(pg, x)
  {
  }

  // ---- dropping an empty page from the list ----

  /** find_free_cons_cell takes the first page off the list when it has no free cell, and marks its link. */
  lemma DropFirst(m: seq<Cell>, first: int, sh: Shape)
    requires ShapeOk(m, first, sh) && sh.plist != [] && first in sh.chains && sh.chains[first] == []
    ensures 0 < first && 128 * first + 128 <= |m| && m[CellAt(first, 6)] == Nth(sh.plist, 1)
    ensures ShapeOk(m[CellAt(first, 6) := CONSPAGE_LAST], Nth(sh.plist, 1), Shape(sh.roles, sh.chains, sh.plist[1..]))
  {
    hide NextFree, NextCell, Count, Chained, CellsOk, ChainsOk;
    assert LinkedPage(m, sh.chains, sh.plist, 0);
    var m' := m[CellAt(first, 6) := CONSPAGE_LAST];
    PageOf(m, sh.chains, first);
    ChainsElsewhere(m, m', sh.chains, first);
    LinkUnread(m, first, sh.chains[first], CONSPAGE_LAST);
    AllChained(m', sh.chains);
    DistinctTail(sh.plist);
    RestLinked(m, first, sh.chains, sh.plist);
  }

  lemma LinkUnread(m: seq<Cell>, pg: int, chain: seq<int>, v: Cell)
    requires Chained(m, pg, chain)
    ensures 0 <= CellAt(pg, 6) < |m| && Chained(m[CellAt(pg, 6) := v], pg, chain)
  {
    hide NextFree, NextCell, Count, Distinct;
  }

  lemma RestLinked(m: seq<Cell>, first: int, chains: map<int, seq<int>>, plist: seq<int>)
    requires ListOk(m, first, chains, plist) && plist != []
    requires 0 < first && 128 * first + 128 <= |m| && first in chains && chains[first] == []
    ensures ListOk(m[CellAt(first, 6) := CONSPAGE_LAST], Nth(plist, 1), chains, plist[1..])
  {
    hide Distinct;
    var m', rest := m[CellAt(first, 6) := CONSPAGE_LAST], plist[1..];
    assert Distinct(rest) && first !in rest by { DistinctTail(plist); }
    forall i | 0 <= i < |rest|
      ensures LinkedPage(m', chains, rest, i)
    {
      assert LinkedPage(m, chains, plist, i + 1);
      assert rest[i] in rest;
    }
    forall pg | pg in chains && pg !in rest
      ensures OffList(m', chains, pg)
    {
      if pg != first {
        assert pg !in plist;
        assert OffList(m, chains, pg);
        LinksDiffer(pg, first);
      }
    }
  }

  lemma LinksDiffer(p: int, q: int)
    requires p != q
    ensures CellAt(p, 6) != CellAt(q, 6)
  {
  }

  // ---- two fresh pages ----

  /** The cells of one page, all free. */
  function FreeCells(pg: int): map<int, Role>
  {
    map a | 256 * pg <= a < 256 * pg + 256 && IsOffset(a % 256) :: Free
  }

  /** The shape with two fresh pages at the end of the list. */
  function Grown(sh: Shape, pg: int): Shape
  {
    Shape(sh.roles + FreeCells(pg + 1) + FreeCells(pg), sh.chains[pg + 1 := FreshChain()][pg := FreshChain()],
          sh.plist + [pg, pg + 1])
  }

  /** One more page of free cells, not yet on the list. */
  lemma AddPage(m: seq<Cell>, m': seq<Cell>, roles: map<int, Role>, chains: map<int, seq<int>>, pg: int)
    requires ChainsOk(m, chains) && CellsOk(roles, chains) && pg !in chains && 0 < pg < 0x10_0000
    requires PageOnly(m, m', pg) && Chained(m', pg, FreshChain())
    ensures ChainsOk(m', chains[pg := FreshChain()])
    ensures CellsOk(roles + FreeCells(pg), chains[pg := FreshChain()])
    ensures forall a :: a in roles ==> (roles + FreeCells(pg))[a] == roles[a]
  {
    hide NextFree, NextCell, Count, Chained, FreshChain, IsOffset, PageOnly, ListOk;
    var chains' := chains[pg := FreshChain()];
    ChainsElsewhere(m, m', chains, pg);
    BelowLimit(m, chains);
    AllChained(m', chains');
    FreshChainCells();
    forall a | a in roles
      ensures a !in FreeCells(pg)
    {
      assert a / 256 in chains;
    }
    AddedCells(roles, chains, pg);
  }

  lemma AddedCells(roles: map<int, Role>, chains: map<int, seq<int>>, pg: int)
    requires CellsOk(roles, chains) && pg !in chains && 0 < pg
    ensures CellsOk(roles + FreeCells(pg), chains[pg := FreshChain()])
  {
    hide FreshChain, IsOffset;
    FreshChainCells();
    var chains', roles' := chains[pg := FreshChain()], roles + FreeCells(pg);
    forall a
      ensures a in FreeCells(pg) <==> a / 256 == pg && IsOffset(a % 256)
      ensures a in roles' <==> a in roles || a in FreeCells(pg)
    {
    }
    forall a | a in roles'
      ensures roles'[a] == Free <==> a % 256 in chains'[a / 256]
    {
      if a in FreeCells(pg) {
        assert roles'[a] == Free;
      } else {
        assert a in roles && roles'[a] == roles[a];
      }
    }
  }

  lemma BelowLimit(m: seq<Cell>, chains: map<int, seq<int>>)
    requires ChainsOk(m, chains)
    ensures forall q :: q in chains ==> 0 < q < 0x10_0000 && 128 * q + 128 <= |m|
  {
    hide NextFree, NextCell, Count, Distinct;
  }

  /** The list after two pages linked to each other have been hung on its end. */
  lemma ListGrown(m: seq<Cell>, m': seq<Cell>, first: int, first': int, sh: Shape, pg: int)
    requires ListOk(m, first, sh.chains, sh.plist) && |m'| == |m|
    requires pg !in sh.chains && pg + 1 !in sh.chains && 0 < pg && 128 * pg + 256 <= |m|
    requires forall q ::
        q in sh.chains && 0 < q && 128 * q + 128 <= |m| && !(sh.plist != [] && q == sh.plist[|sh.plist| - 1]) ==>
        m'[CellAt(q, 6)] == m[CellAt(q, 6)]
    requires sh.plist == [] ==> first' == pg
    requires sh.plist != [] ==>
        (first' == first
        && (0 < sh.plist[|sh.plist| - 1] && 128 * sh.plist[|sh.plist| - 1] + 128 <= |m| ==>
              m'[CellAt(sh.plist[|sh.plist| - 1], 6)] == pg))
    requires m'[CellAt(pg, 6)] == pg + 1 && m'[CellAt(pg + 1, 6)] == 0
    ensures ListOk(m', first', Grown(sh, pg).chains, Grown(sh, pg).plist)
  {
    hide CellAt, FreshChain, FreeCells, Distinct;
    var chains', plist' := Grown(sh, pg).chains, Grown(sh, pg).plist;
    var n := |sh.plist|;
    forall i | 0 <= i < n
      ensures sh.plist[i] in sh.chains
    {
      assert LinkedPage(m, sh.chains, sh.plist, i);
    }
    DistinctGrown(sh.plist, pg);
    forall i | 0 <= i < |plist'|
      ensures LinkedPage(m', chains', plist', i)
    {
      if i < n {
        assert LinkedPage(m, sh.chains, sh.plist, i);
        if i < n - 1 {
          DistinctPages(sh.plist, i);
        }
      }
    }
    assert pg in plist' && pg + 1 in plist' && forall q :: q in sh.plist ==> q in plist' by {
      assert plist'[n] == pg && plist'[n + 1] == pg + 1;
    }
    forall q | q in chains' && q !in plist'
      ensures OffList(m', chains', q)
    {
      assert OffList(m, sh.chains, q);
    }
  }

  lemma DistinctPages(plist: seq<int>, i: int)
    requires Distinct(plist) && 0 <= i < |plist| - 1
    ensures plist[i] != plist[|plist| - 1]
  {
  }

  lemma DistinctGrown(plist: seq<int>, pg: int)
    requires Distinct(plist) && pg !in plist && pg + 1 !in plist
    ensures Distinct(plist + [pg, pg + 1])
  {
  }
}
