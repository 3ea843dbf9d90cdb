/** The cons heap: allocation, car, cdr, rplaca and rplacd on raw cells (src/conspage.c, src/car-cdr.c). */
module ConsHeap {
  import opened Memory
  import opened ConsPage
  import opened ConsSearch
  import opened ConsView
  import opened ConsShape
  import opened ConsSteps

  const NIL := 0
  const ATOM_T := 76

  datatype Result = Value(value: int) | NotAList

  /** At most one unit of storage has been carved. */
  ghost predicate OneUnit(next0: int, units0: set<int>, next: int, units: set<int>)
  {
    (next == next0 && units == units0) || (next == next0 - 2 && units == units0 + {next0 / 2})
  }

  class Heap {
    const mem: array<Cell>
    /** ListpDTD->dtd_nextpage, the first page with free cells. */
    var dtdNextpage: int
    /** The page the next unit of storage will start at; units are carved downwards. */
    var nextMds: int
    /** The units the type table marks as lists. */
    var listUnits: set<int>
    ghost var shape: Shape

    /** A heap without list pages, over storage that ends at page `top`. */
    constructor (mem: array<Cell>, top: int)
      requires 0 <= top < 0x10_0000 - 1 && top % 2 == 0 && 128 * top + 256 <= mem.Length
      ensures Valid() && Contents() == map[] && this.mem == mem && nextMds == top
    {
      this.mem, dtdNextpage, nextMds, listUnits, shape := mem, 0, top, {}, Shape(map[], map[], []);
    }

    ghost predicate Valid()
      reads this, mem
    {
      StoreOk(mem[..], dtdNextpage, nextMds, listUnits, shape)
    }

    /** The pairs the heap represents, by handle. */
    ghost function Contents(): map<int, (int, int)>
      reads this, mem
      requires Valid()
    {
      Pairs(mem[..], shape.roles)
    }

    /** A list page carries the mark that the reclaimer looks for if and only if it is off the list of pages to search;
        and off the list there is no free cell. */
    lemma DroppedAreMarked()
      requires Valid()
      ensures forall pg :: pg / 2 in listUnits ==> 0 < pg && 128 * pg + 128 <= mem.Length
      ensures forall pg :: pg / 2 in listUnits ==> (mem[128 * pg + 3] == 0xFFFF_FFFF <==> pg !in shape.plist)
      ensures forall a :: a in shape.roles && shape.roles[a] == Free ==> a / 256 in shape.plist
      ensures shape.plist == [] <==> dtdNextpage == 0
      ensures shape.plist != [] ==> dtdNextpage == shape.plist[0]
      ensures forall i :: 0 <= i < |shape.plist| ==> shape.plist[i] / 2 in listUnits
      ensures forall i :: 0 <= i < |shape.plist| ==>
          mem[128 * shape.plist[i] + 3] == if i + 1 < |shape.plist| then shape.plist[i + 1] else 0
    {
      hide StoreOk, HeapOk, ShapeOk, ListOk, RolesOk, CellsOk, ChainsOk, UnitsOk, Nth;
      ShapeOfStore(mem[..], dtdNextpage, nextMds, listUnits, shape);
      MarkMeansOff(mem[..], dtdNextpage, shape);
      ListInMemory(mem[..], dtdNextpage, shape);
      FreeOnList(mem[..], dtdNextpage, shape);
    }

    /** There is storage for another unit. */
    predicate Room()
      reads this
    {
      2 <= nextMds
    }

    /** The type table says list. */
    predicate Listp(a: Cell)
      reads this
    {
      CarField(a) / 512 in listUnits
    }

    /** A value that claims to be a list is one. */
    ghost predicate Proper(a: Cell)
      reads this, mem
      requires Valid()
    {
      Listp(a) ==> CarField(a) in Contents()
    }

    // ---- storage ----

    /** alloc_mdspage(TYPE_LISTP) */
    method AllocMdspage() returns (page: int)
      requires Room()
      modifies `nextMds, `listUnits
      ensures page == old(nextMds) && nextMds == old(nextMds) - 2 && listUnits == old(listUnits) + {page / 2}
    {
      page := nextMds;
      nextMds := nextMds - 2;
      listUnits := listUnits + {page / 2};
    }

    /** next_conspage: two fresh pages at the end of the list. */
    method NextConspage() returns (page1: int)
      requires Valid() && Room()
      modifies this, mem
      ensures Valid() && Unseen(old(mem[..]), old(shape), mem[..], shape)
      ensures page1 in shape.chains && shape.chains[page1] == FreshChain() && page1 !in old(shape).chains
      ensures page1 == old(nextMds) && shape.plist == old(shape).plist + [page1, page1 + 1]
      ensures nextMds == old(nextMds) - 2 && listUnits == old(listUnits) + {old(nextMds) / 2}
    {
      hide HeapOk, UnitsOk, Chained, FreshChain, PageOnly, Unseen, CellAt, ListOk, ChainsOk, CellsOk;
      ghost var m, first, next0, units, sh := mem[..], dtdNextpage, nextMds, listUnits, shape;
      page1 := AllocMdspage();
      var page2 := page1 + 1;
      PageLinks(page1);
      InitConspage(mem, page2, 0);
      ghost var m1 := mem[..];
      InitConspage(mem, page1, page2);
      ghost var m2 := mem[..];
      OutsideIs(m, m1, page2);
      OutsideIs(m1, m2, page1);
      PagesHung(m, m1, m2, first, next0, units, sh);
      SameLength(m, m1, page2);
      SameLength(m1, m2, page1);
      var next, prior := dtdNextpage, 0;
      ghost var i := 0;
      ListStart(m, first, sh);
      while next != 0 && next != CONSPAGE_LAST
        invariant mem[..] == m2 && shape == sh && dtdNextpage == first
        invariant nextMds == next0 - 2 && listUnits == units + {page1 / 2}
        invariant 0 <= i <= |sh.plist| && next == Nth(sh.plist, i)
        invariant prior == if i == 0 then 0 else sh.plist[i - 1]
        decreases |sh.plist| - i
      {
        PageOnList(m, first, sh, i);
        PageStays(m, m1, m2, page1, sh.plist[i]);
        prior := next;
        next := mem[CellAt(prior, 6)];
        i := i + 1;
      }
      ListEnds(m, first, sh, i);
      LinkKept(m1, m2, page2, page1);
      shape := Grown(sh, page1);
      if prior != 0 {
        mem[CellAt(prior, 6)] := page1;
        assert mem[..] == Poke(m2, CellAt(prior, 6), page1);
      } else {
        dtdNextpage := page1;
      }
      // neither "page2 has a next page" nor "loop in conspage next_pages" is reached
      assert mem[CellAt(page2, 6)] == 0 && page2 != prior;
    }

    /** find_cdrcodable_pair: the first page of the list with a close pair, or a fresh page. */
    method FindCdrcodablePair(cdrval: Cell)
      returns (cell: int, ghost m1: seq<Cell>, ghost pg: int, ghost a: int, ghost b: int)
      requires Valid() && Room()
      modifies this, mem
      ensures Searched(old(mem[..]), old(shape), m1, dtdNextpage, nextMds, listUnits, shape, pg)
      ensures PairMade(m1, mem[..], pg, shape.chains[pg], a, b, cdrval) && cell == 256 * pg + a
      ensures OneUnit(old(nextMds), old(listUnits), nextMds, listUnits)
      ensures nextMds != old(nextMds) <==> NoneClose(old(shape).chains)
      ensures if nextMds != old(nextMds) then pg == old(nextMds) else FirstClose(old(shape), pg)
    {
      hide HeapOk, UnitsOk, Chained, FreshChain, Unseen, CellAt, PairMade, NoClosePair;
      m1 := mem[..];
      ghost var next0, units0 := nextMds, listUnits;
      UnseenSelf(m1, dtdNextpage, shape);
      ListStart(m1, dtdNextpage, shape);
      var pgno := dtdNextpage;
      ghost var i := 0;
      while pgno != 0
        invariant mem[..] == m1 && shape == old(shape) && dtdNextpage == old(dtdNextpage)
        invariant nextMds == next0 && listUnits == units0
        invariant 0 <= i <= |shape.plist| && pgno == Nth(shape.plist, i)
        invariant forall j :: 0 <= j < i ==> NoPairAt(shape, j)
        decreases |shape.plist| - i
      {
        ListEnds(m1, dtdNextpage, shape, i);
        PageOnList(m1, dtdNextpage, shape, i);
        cell, a, b := FindPairInPage(mem, pgno, cdrval, shape.chains[pgno]);
        if cell != 0 {
          pg := pgno;
          return;
        }
        pgno := mem[CellAt(pgno, 6)];
        i := i + 1;
      }
      ListEnds(m1, dtdNextpage, shape, i);
      ShapeSearched(m1, dtdNextpage, shape);
      var page := NextConspage();
      pg := page;
      m1 := mem[..];
      PageChained(m1, dtdNextpage, shape, pg);
      FreshHasPair();
      cell, a, b := FindPairInPage(mem, page, cdrval, shape.chains[pg]);
    }

    /** find_cdrable_pair: the same walk, storing both cells. */
    method FindCdrablePair(carpart: Cell, cdrpart: Cell)
      returns (cell: int, ghost m1: seq<Cell>, ghost pg: int, ghost a: int, ghost b: int)
      requires Valid() && Room()
      modifies this, mem
      ensures Searched(old(mem[..]), old(shape), m1, dtdNextpage, nextMds, listUnits, shape, pg)
      ensures PairMade(m1, mem[..], pg, shape.chains[pg], a, b, cdrpart) && cell == 256 * pg + a
      ensures 0 <= 128 * pg + a / 2 < mem.Length && CarField(mem[128 * pg + a / 2]) == CarField(carpart)
      ensures OneUnit(old(nextMds), old(listUnits), nextMds, listUnits)
      ensures nextMds != old(nextMds) <==> NoneClose(old(shape).chains)
      ensures if nextMds != old(nextMds) then pg == old(nextMds) else FirstClose(old(shape), pg)
    {
      hide HeapOk, UnitsOk, Chained, FreshChain, Unseen, CellAt, PairMade, NoClosePair;
      m1 := mem[..];
      ghost var next0, units0 := nextMds, listUnits;
      UnseenSelf(m1, dtdNextpage, shape);
      ListStart(m1, dtdNextpage, shape);
      var pgno := dtdNextpage;
      ghost var i := 0;
      while pgno != 0
        invariant mem[..] == m1 && shape == old(shape) && dtdNextpage == old(dtdNextpage)
        invariant nextMds == next0 && listUnits == units0
        invariant 0 <= i <= |shape.plist| && pgno == Nth(shape.plist, i)
        invariant forall j :: 0 <= j < i ==> NoPairAt(shape, j)
        decreases |shape.plist| - i
      {
        ListEnds(m1, dtdNextpage, shape, i);
        PageOnList(m1, dtdNextpage, shape, i);
        cell, a, b := FindCdrpairInPage(mem, pgno, carpart, cdrpart, shape.chains[pgno]);
        if cell != 0 {
          pg := pgno;
          return;
        }
        pgno := mem[CellAt(pgno, 6)];
        i := i + 1;
      }
      ListEnds(m1, dtdNextpage, shape, i);
      ShapeSearched(m1, dtdNextpage, shape);
      var page := NextConspage();
      pg := page;
      m1 := mem[..];
      PageChained(m1, dtdNextpage, shape, pg);
      FreshHasPair();
      cell, a, b := FindCdrpairInPage(mem, page, carpart, cdrpart, shape.chains[pg]);
    }

    /** find_free_cons_cell: the first cell of the first page that has one; empty pages met on the way leave the
        list. */
    method FindFreeConsCell() returns (cell: int, ghost m1: seq<Cell>, ghost pg: int, ghost off: int)
      requires Valid()
      modifies this, mem
      ensures nextMds == old(nextMds) && listUnits == old(listUnits)
      ensures cell == 0 ==> Valid() && Unseen(old(mem[..]), old(shape), mem[..], shape) && shape.plist == []
      ensures cell == 0 <==> NoneFree(old(shape).chains)
      ensures EmptyDropped(old(shape), shape) && (cell != 0 ==> shape.plist != [] && pg == shape.plist[0])
      ensures cell != 0 ==>
          Searched(old(mem[..]), old(shape), m1, dtdNextpage, nextMds, listUnits, shape, pg)
          && OneTaken(m1, mem[..], pg, shape.chains[pg], off) && cell == 256 * pg + off
    {
      hide HeapOk, UnitsOk, Chained, Unseen, CellAt, OneTaken, Count;
      ghost var m0, sh0, next0, units0 := mem[..], shape, nextMds, listUnits;
      UnseenSelf(m0, dtdNextpage, shape);
      NoneDropped(shape);
      ListStart(m0, dtdNextpage, shape);
      var pgno := dtdNextpage;
      while pgno != 0
        invariant Valid() && pgno == dtdNextpage == Nth(shape.plist, 0)
        invariant Unseen(m0, sh0, mem[..], shape)
        invariant nextMds == next0 && listUnits == units0 && shape.chains == sh0.chains
        invariant EmptyDropped(sh0, shape)
        decreases |shape.plist|
      {
        m1 := mem[..];
        ListEnds(m1, dtdNextpage, shape, 0);
        PageOnList(m1, dtdNextpage, shape, 0);
        PageChained(m1, dtdNextpage, shape, pgno);
        CountOfChain(m1, pgno, shape.chains[pgno]);
        if Count(mem[CellAt(pgno, 4)]) != 0 {
          var offset := PopCell(mem, pgno, shape.chains[pgno]);
          pg, off := pgno, offset;
          OneCell(m1, dtdNextpage, shape, pg, mem[..], off);
          return 256 * pgno + offset, m1, pg, off;
        } else {
          FirstDropped(m1, dtdNextpage, nextMds, listUnits, shape);
          ghost var sh := Shape(shape.roles, shape.chains, shape.plist[1..]);
          OneMoreDropped(sh0, shape, sh);
          dtdNextpage := mem[CellAt(pgno, 6)];
          mem[CellAt(pgno, 6)] := CONSPAGE_LAST;
          pgno := dtdNextpage;
          UnseenTwice(m0, sh0, m1, shape, mem[..], sh);
          shape := sh;
        }
      }
      ListEnds(mem[..], dtdNextpage, shape, 0);
      ShapeDropped(mem[..], dtdNextpage, shape);
      return 0, mem[..], 0, 0;
    }

    // ---- cons ----

    /** The cdr is a list whose page has a free cell at most seven cells before it, and it is not one of the first three
        cells of the page. */
    ghost predicate NearFree(cdr: int)
      reads this
    {
      && cdr / 512 in listUnits && cdr / 256 in shape.chains && 14 <= cdr % 256
      && exists c :: c in shape.chains[cdr / 256] && c < cdr % 256 <= c + 14
    }

    /** The cons at `x` is followed, at most seven cells on, by a free cell. */
    ghost predicate FreeBehind(x: int)
      reads this
    {
      x / 256 in shape.chains && exists c :: c in shape.chains[x / 256] && x % 256 < c <= x % 256 + 14
    }

    /** N_OP_cons */
    method Cons(consCar: Cell, consCdr: Cell) returns (r: int)
      requires Valid() && Room() && Proper(consCdr)
      modifies this, mem
      ensures Valid() && r !in old(Contents())
      ensures Contents() == old(Contents())[r := (CarField(consCar), CarField(consCdr))]
      ensures CodeFits(mem[..], r)  // "in CONS, cdr code too big" is not reached
      ensures OneUnit(old(nextMds), old(listUnits), nextMds, listUnits)
      ensures 0 <= r / 2 < mem.Length && r % 256 + 2 * (mem[r / 2] / 0x1000_0000 % 8) <= 254
      ensures var cdr, k := CarField(consCdr), mem[r / 2] / 0x1000_0000;
        if cdr == 0 then k == 8
        else if old(NearFree(cdr)) then 8 < k && cdr == r + 2 * (k - 8) && cdr / 256 == r / 256
        else 1 <= k <= 7
      ensures nextMds != old(nextMds) <==>
          if CarField(consCdr) == 0 then NoneFree(old(shape).chains)
          else !old(NearFree(CarField(consCdr))) && NoneClose(old(shape).chains)
    {
      hide StoreOk, Pairs;
      var cdr := CarField(consCdr);
      if cdr == NIL {
        r := ConsNil(consCar);
      } else {
        r := ConsNear(consCar, cdr);
        if r == 0 {
          r := ConsFar(consCar, cdr);
        }
      }
    }

    /** A list of one: a single cell, coded CDR_NIL. */
    method ConsNil(consCar: Cell) returns (r: int)
      requires Valid() && Room()
      modifies this, mem
      ensures Valid() && r !in old(Contents())
      ensures Contents() == old(Contents())[r := (CarField(consCar), NIL)] && CodeFits(mem[..], r)
      ensures OneUnit(old(nextMds), old(listUnits), nextMds, listUnits)
      ensures nextMds != old(nextMds) <==> NoneFree(old(shape).chains)
      ensures CdrCode(Peek(mem[..], r)) == 8
    {
      hide HeapOk, UnitsOk, Chained, Unseen, CellAt, OneTaken, CdrCode, WithCarField, WithCdrCode, Pairs, Becomes,
        Without, CodeFits, IsOffset, NoneFree, EmptyDropped, FreshChain, Nth;
      ghost var m0, sh0 := mem[..], shape;
      var cell; ghost var m1, pg, off;
      cell, m1, pg, off := FindFreeConsCell();
      if cell == 0 {
        ghost var ma, sha := mem[..], shape;
        var page := NextConspage();
        m1, pg := mem[..], page;
        UnseenTwice(m0, sh0, ma, sha, m1, shape);
        FreshHasPair();
        PageChained(m1, dtdNextpage, shape, page);
        var offset := PopCell(mem, page, shape.chains[page]);
        off := offset;
        cell := 256 * page + offset;
      }
      OneCell(m1, dtdNextpage, shape, pg, mem[..], off);
      var c := WithCdrCode(WithCarField(mem[cell / 2], consCar), 8);
      CellFields(mem[cell / 2], 0, consCar, 0);
      CellFields(WithCarField(mem[cell / 2], consCar), 8, 0, 0);
      ConsOne(m1, dtdNextpage, shape, pg, mem[..], off, c);
      mem[cell / 2] := c;
      ghost var sh := Reshaped(shape, pg, Without(shape.chains[pg], off), shape.roles[cell := Live]);
      Settled(m0, sh0, m1, dtdNextpage, nextMds, listUnits, shape, pg, mem[..], sh, cell, (CarField(consCar), 0));
      NilFits(mem[..], pg, off);
      shape := sh;
      r := cell;
    }

    /** The cdr is a cons: a cell close before it, if its page has one to spare. */
    method ConsNear(consCar: Cell, cdr: Cell) returns (r: int)
      requires Valid() && Proper(cdr) && cdr == CarField(cdr)
      modifies this, mem
      ensures r == 0 ==> mem[..] == old(mem[..]) && unchanged(this)
      ensures r != 0 ==>
          Valid() && r !in old(Contents()) && Contents() == old(Contents())[r := (CarField(consCar), cdr)]
      ensures r != 0 ==> CodeFits(mem[..], r)
      ensures nextMds == old(nextMds) && listUnits == old(listUnits)
      ensures r != 0 <==> old(NearFree(cdr))
      ensures r != 0 ==> 8 < CdrCode(Peek(mem[..], r)) && cdr == r + 2 * (CdrCode(Peek(mem[..], r)) - 8)
      ensures r != 0 ==> cdr / 256 == r / 256
    {
      hide HeapOk, UnitsOk, Chained, Unseen, CellAt, OneTaken, CdrCode, WithCarField, Pairs, Becomes, Without, Count,
        IsOffset, CodeFits;
      ghost var m := mem[..];
      if !Listp(cdr) {
        return 0;
      }
      var page := cdr / 256;
      HandleIsLive(m, dtdNextpage, shape, cdr);
      PageChained(m, dtdNextpage, shape, page);
      CountOfChain(m, page, shape.chains[page]);
      if Count(mem[CellAt(page, 4)]) == 0 {
        return 0;
      }
      var found := FindClosePriorCell(mem, page, cdr % 256, shape.chains[page]);
      if found == 0 {
        return 0;
      }
      OneCell(m, dtdNextpage, shape, page, mem[..], found);
      r := 256 * page + found;
      var c := WithCarField(mem[r / 2], consCar);
      CellFields(mem[r / 2], 0, consCar, 0);
      ConsNearDone(m, dtdNextpage, nextMds, listUnits, shape, page, mem[..], found, cdr, c);
      mem[r / 2] := c;
      shape := NearShape(shape, page, found);
    }

    /** A pair of cells, the second to hold the cdr. */
    method ConsFar(consCar: Cell, cdr: Cell) returns (r: int)
      requires Valid() && Room() && cdr == CarField(cdr)
      modifies this, mem
      ensures Valid() && r !in old(Contents())
      ensures Contents() == old(Contents())[r := (CarField(consCar), cdr)] && CodeFits(mem[..], r)
      ensures OneUnit(old(nextMds), old(listUnits), nextMds, listUnits)
      ensures nextMds != old(nextMds) <==> NoneClose(old(shape).chains)
      ensures 1 <= CdrCode(Peek(mem[..], r)) <= 7
    {
      hide HeapOk, UnitsOk, Chained, Unseen, CellAt, CdrCode, WithCarField, Pairs, Becomes, Without, PairMade, CodeFits;
      ghost var m0, sh0 := mem[..], shape;
      ghost var m1, pg, a, b;
      r, m1, pg, a, b := FindCdrcodablePair(cdr);
      PairCell(m1, dtdNextpage, shape, pg, mem[..], a, b, cdr);
      var c := WithCarField(mem[r / 2], consCar);
      CellFields(mem[r / 2], 0, consCar, 0);
      ConsPair(m1, dtdNextpage, shape, pg, mem[..], a, b, cdr, c);
      mem[r / 2] := c;
      ghost var sh := Reshaped(shape, pg, Without(Without(shape.chains[pg], b), a),
                               shape.roles[r := Live][256 * pg + b := Holder(r)]);
      Settled(m0, sh0, m1, dtdNextpage, nextMds, listUnits, shape, pg, mem[..], sh, r, (CarField(consCar), cdr));
      PairFits(mem[..], pg, a, b);
      shape := sh;
    }

    // ---- car and cdr ----

    /** car: of a list its car, of NIL and T themselves, of any other atom NIL. */
    method Car(datum: Cell) returns (r: Result)
      requires Valid() && Proper(datum) && datum == CarField(datum)
      ensures Listp(datum) ==> r == Value(Contents()[datum].0)
      ensures !Listp(datum) ==>
          r == if datum == 0 || datum == 76 then Value(datum)
               else if datum / 65536 == 0 then Value(NIL) else NotAList
    {
      hide HeapOk, UnitsOk, CdrCode, Pairs, CdrOf, HeldAt;
      if Listp(datum) {
        ConsParts(mem[..], dtdNextpage, nextMds, listUnits, shape, datum);
        if CdrCode(mem[datum / 2]) == 0 {
          r := Value(CarField(mem[CarField(mem[datum / 2]) / 2]));
        } else {
          r := Value(CarField(mem[datum / 2]));
        }
      } else if datum == NIL {
        r := Value(NIL);
      } else if datum == ATOM_T {
        r := Value(ATOM_T);
      } else if datum / 65536 == 0 {
        r := Value(NIL);
      } else {
        r := NotAList;
      }
    }

    /** The cell an indirect cons was moved out to; cdr calls itself on it. */
    ghost predicate IsTarget(a: int)
      reads this
    {
      a in shape.roles && shape.roles[a].Target?
    }

    /** cdr: an indirect cons is followed once, to a cell that is never indirect itself. */
    method Cdr(datum: Cell) returns (r: Result)
      requires Valid() && datum == CarField(datum) && (Listp(datum) ==> datum in Contents() || IsTarget(datum))
      ensures datum in Contents() ==> r == Value(Contents()[datum].1)
      ensures IsTarget(datum) ==>
          shape.roles[datum].owner in Contents() && r == Value(Contents()[shape.roles[datum].owner].1)
      ensures !Listp(datum) ==> r == if datum == NIL then Value(NIL) else NotAList
      decreases if IsTarget(datum) then 0 else 1
    {
      hide HeapOk, UnitsOk, CdrCode, Pairs, CarOf, CdrOf, CarAt, HeldAt;
      ghost var m := mem[..];
      if datum == NIL {
        r := Value(NIL);
        CdrOfNil();
        return;
      }
      if !Listp(datum) {
        r := NotAList;
        CdrOfUnlisted(datum);
        return;
      }
      if IsTarget(datum) {
        TargetListed(m, dtdNextpage, nextMds, listUnits, shape, datum);
        TargetParts(m, shape.roles, datum);
        HandleIsLive(m, dtdNextpage, shape, shape.roles[datum].owner);
        HandleIsLive(m, dtdNextpage, shape, datum);
      } else {
        ConsParts(m, dtdNextpage, nextMds, listUnits, shape, datum);
        CdrRead(m, datum);
      }
      var cdrCode := CdrCode(mem[datum / 2]);
      if cdrCode == 8 {
        r := Value(NIL);
      } else if cdrCode >= 8 {
        r := Value(datum + 2 * (cdrCode % 8));
      } else if cdrCode == 0 {
        r := Cdr(CarField(mem[datum / 2]));
      } else {
        r := Value(CarField(mem[(datum + 2 * cdrCode) / 2]));
      }
    }

    /** NIL is neither a handle nor a target. */
    lemma CdrOfNil()
      requires Valid()
      ensures NIL !in Contents() && !IsTarget(NIL) && !Listp(NIL)
    {
      hide HeapOk, CdrCode, Pairs, CarOf, CdrOf;
      HandleIsLive(mem[..], dtdNextpage, shape, NIL);
      if IsTarget(NIL) {
        TargetListed(mem[..], dtdNextpage, nextMds, listUnits, shape, NIL);
      }
    }

    lemma CdrOfUnlisted(datum: Cell)
      requires Valid() && datum == CarField(datum) && !Listp(datum)
      ensures datum !in Contents() && !IsTarget(datum)
    {
      hide HeapOk, UnitsOk, CdrCode, Pairs, CarOf, CdrOf;
      if datum in Contents() {
        ConsParts(mem[..], dtdNextpage, nextMds, listUnits, shape, datum);
      }
      if IsTarget(datum) {
        TargetListed(mem[..], dtdNextpage, nextMds, listUnits, shape, datum);
      }
    }

    // ---- rplaca and rplacd ----

    /** rplaca */
    method Rplaca(x: Cell, y: Cell) returns (r: Result)
      requires Valid() && Proper(x) && x == CarField(x)
      modifies mem, `shape
      ensures Valid()
      ensures Listp(x) ==> r == Value(x) && Contents() == old(Contents())[x := (CarField(y), old(Contents())[x].1)]
      ensures !Listp(x) ==> mem[..] == old(mem[..]) && Contents() == old(Contents())
      ensures !Listp(x) ==> r == if x == NIL && y == NIL then Value(NIL) else NotAList
    {
      hide HeapOk, UnitsOk, CdrCode, Pairs, CarOf, CdrOf, Becomes, WithCarField, HeldAt, Searched;
      ghost var m := mem[..];
      if !Listp(x) {
        if x == NIL {
          if y != NIL {
            r := NotAList;
          } else {
            r := Value(NIL);
          }
        } else {
          r := NotAList;
        }
        return;
      }
      ConsParts(m, dtdNextpage, nextMds, listUnits, shape, x);
      HandleIsLive(m, dtdNextpage, shape, x);
      NotSearched(m, dtdNextpage, nextMds, listUnits, shape, x / 256);
      var c := if CdrCode(mem[x / 2]) == 0 then CarField(mem[x / 2]) else x;
      CellFields(mem[c / 2], 0, y, 0);
      CarReplaced(m, dtdNextpage, shape, x, c, WithCarField(mem[c / 2], y));
      Settled(m, shape, m, dtdNextpage, nextMds, listUnits, shape, x / 256,
              m[c / 2 := WithCarField(mem[c / 2], y)], shape, x, (CarField(y), CdrOf(m, x)));
      mem[c / 2] := WithCarField(mem[c / 2], y);
      r := Value(x);
    }

    static lemma CodeIs(c: Cell)
      ensures CdrCode(c) == c / 0x1000_0000
    {
    }

    /** rplacd */
    method Rplacd(x: Cell, y: Cell) returns (r: Result)
      requires Valid() && Room() && Proper(x) && Proper(y) && x == CarField(x)
      modifies this, mem
      ensures Valid()
      ensures old(Listp(x)) ==>
          r == Value(x) && Contents() == old(Contents())[x := (old(Contents())[x].0, CarField(y))]
      ensures !old(Listp(x)) ==>
          mem[..] == old(mem[..]) && Contents() == old(Contents()) &&
          r == if x == NIL && y == NIL then Value(NIL) else NotAList
      ensures OneUnit(old(nextMds), old(listUnits), nextMds, listUnits)
      ensures old(Listp(x)) ==> 0 <= x / 2 < mem.Length
      ensures old(Listp(x)) ==>
          var k0, k := old(mem[x / 2]) / 0x1000_0000, mem[x / 2] / 0x1000_0000;
          if k0 <= 7 then k == k0
          else if y == 0 then k == 8
          else if x / 256 == CarField(y) / 256 && x < y <= x + 14 then k == 8 + (y - x) / 2
          else if old(FreeBehind(x)) then 1 <= k <= 7
          else k == 0
      ensures nextMds != old(nextMds) <==>
          && old(Listp(x)) && 0 <= x / 2 < mem.Length && old(mem[x / 2]) / 0x1000_0000 >= 8 && y != 0
          && !(x / 256 == CarField(y) / 256 && x < y <= x + 14)
          && !old(FreeBehind(x)) && NoneClose(old(shape).chains)
    {
      hide StoreOk, CdrCode, Pairs, CarOf, CdrOf;
      if !Listp(x) {
        if x == NIL {
          if y != NIL {
            r := NotAList;
          } else {
            r := Value(NIL);
          }
        } else {
          r := NotAList;
        }
        return;
      }
      ConsParts(mem[..], dtdNextpage, nextMds, listUnits, shape, x);
      CodeIs(mem[x / 2]);
      var cdrCode := CdrCode(mem[x / 2]);
      if cdrCode == 0 {
        var target := CarField(mem[x / 2]);
        RplacdHeld(x, target + 2 * CdrCode(mem[target / 2]), y);
      } else if cdrCode <= 7 {
        RplacdHeld(x, x + 2 * cdrCode, y);
      } else if y == NIL {
        RplacdCode(x, 8, y);
      } else if x / 256 == CarField(y) / 256 && x < y <= x + 14 {
        SamePage(x, y);
        ConsParts(mem[..], dtdNextpage, nextMds, listUnits, shape, y);
        RplacdCode(x, 8 + (y - x) / 2, y);
      } else {
        var done := RplacdNear(x, y);
        if !done {
          RplacdFar(x, y);
        }
      }
      CodeIs(mem[x / 2]);
      r := Value(x);
    }

    /** The cdr is in a cell of its own, directly or through the target. */
    method RplacdHeld(x: int, cell: int, y: Cell)
      requires Valid() && x in Contents() && InMemory(mem[..], x)
      requires CdrCode(Peek(mem[..], x)) <= 7 && cell == HeldAt(mem[..], x)
      modifies mem
      ensures Valid() && Contents() == old(Contents())[x := (old(Contents())[x].0, CarField(y))]
      ensures CdrCode(Peek(mem[..], x)) == CdrCode(Peek(old(mem[..]), x))
    {
      hide HeapOk, UnitsOk, CdrCode, Pairs, CarOf, CdrOf, Becomes, HeldAt, Searched;
      ghost var m := mem[..];
      ConsParts(m, dtdNextpage, nextMds, listUnits, shape, x);
      HandleIsLive(m, dtdNextpage, shape, x);
      HeldElsewhere(m, dtdNextpage, shape, x);
      NotSearched(m, dtdNextpage, nextMds, listUnits, shape, x / 256);
      CdrReplaced(m, dtdNextpage, shape, x, cell, CarField(y));
      Settled(m, shape, m, dtdNextpage, nextMds, listUnits, shape, x / 256,
              Poke(m, cell / 2, CarField(y)), shape, x, (CarOf(m, x), CarField(y)));
      mem[cell / 2] := CarField(y);
    }

    /** NIL, or a cons of the same page close behind: the code says it all. */
    method RplacdCode(x: int, k: int, y: Cell)
      requires Valid() && x in Contents() && InMemory(mem[..], x) && CdrCode(Peek(mem[..], x)) >= 8
      requires (k == 8 && y == NIL) || (8 < k < 16 && y == x + 2 * (k - 8) && y / 256 == x / 256 && y in Contents())
      modifies mem
      ensures Valid() && Contents() == old(Contents())[x := (old(Contents())[x].0, y)]
      ensures CdrCode(Peek(mem[..], x)) == k
    {
      hide HeapOk, UnitsOk, CdrCode, WithCdrCode, Pairs;
      CodeDone(mem[..], dtdNextpage, nextMds, listUnits, shape, x, k, y);
      CellFields(mem[x / 2], k, 0, 0);
      mem[x / 2] := WithCdrCode(mem[x / 2], k);
    }

    /** A free cell close behind takes the cdr, if the page has one. */
    method RplacdNear(x: int, y: Cell) returns (done: bool)
      requires Valid() && x in Contents() && InMemory(mem[..], x) && CdrCode(Peek(mem[..], x)) >= 8
      modifies mem, `shape
      ensures !done ==> mem[..] == old(mem[..]) && shape == old(shape)
      ensures done ==> Valid() && Contents() == old(Contents())[x := (old(Contents())[x].0, CarField(y))]
      ensures done <==> old(FreeBehind(x))
      ensures done ==> 1 <= CdrCode(Peek(mem[..], x)) <= 7
    {
      hide HeapOk, UnitsOk, Chained, CdrCode, WithCdrCode, Pairs, CarOf, CdrOf, CellAt, OneTaken, Count, Without,
        IsOffset, Poke;
      ghost var m := mem[..];
      HandleIsLive(m, dtdNextpage, shape, x);
      var page := x / 256;
      PageChained(m, dtdNextpage, shape, page);
      CountOfChain(m, page, shape.chains[page]);
      if Count(mem[CellAt(page, 4)]) == 0 {
        return false;
      }
      var found := FindCloseCell(mem, page, x % 256, shape.chains[page]);
      if found == 0 {
        return false;
      }
      ghost var m1 := mem[..];
      NearDone(m, dtdNextpage, nextMds, listUnits, shape, page, m1, found, x, CarField(y));
      var cell := 256 * page + found;
      ghost var sh := Reshaped(shape, page, Without(shape.chains[page], found), shape.roles[cell := Holder(x)]);
      WriteTwo(mem, cell / 2, CarField(y), x / 2, WithCdrCode(mem[x / 2], (cell - x) / 2));
      shape := sh;
      done := true;
    }

    /** The cons moves out to a pair of cells elsewhere, and goes indirect. */
    method RplacdFar(x: int, y: Cell)
      requires Valid() && Room() && x in Contents() && InMemory(mem[..], x) && CdrCode(Peek(mem[..], x)) >= 8
      modifies this, mem
      ensures Valid() && Contents() == old(Contents())[x := (old(Contents())[x].0, CarField(y))]
      ensures OneUnit(old(nextMds), old(listUnits), nextMds, listUnits)
      ensures nextMds != old(nextMds) <==> NoneClose(old(shape).chains)
      ensures CdrCode(Peek(mem[..], x)) == 0
    {
      hide HeapOk, UnitsOk, Unseen, CdrCode, CarField, WithCdrCode, WithCarField, Pairs, CarOf, CdrOf, CellAt, PairMade,
        Without, Poke;
      ghost var m0, sh0 := mem[..], shape;
      HandleIsLive(m0, dtdNextpage, shape, x);
      ghost var m1, pg, a, b;
      var cell;
      cell, m1, pg, a, b := FindCdrablePair(x, y);
      FarDone(m0, sh0, m1, dtdNextpage, nextMds, listUnits, shape, pg, mem[..], a, b, x, y);
      ghost var sh := Reshaped(shape, pg, Without(Without(shape.chains[pg], b), a),
                               shape.roles[cell := Target(x)][256 * pg + b := Holder(x)]);
      WriteTwo(mem, cell / 2, WithCarField(mem[cell / 2], CarField(mem[x / 2])),
               x / 2, WithCdrCode(WithCarField(mem[x / 2], cell), 0));
      shape := sh;
    }
  }

  lemma SamePage(x: Cell, y: Cell)
    requires x == CarField(x) && x / 256 == CarField(y) / 256 && x < y <= x + 14
    ensures y == CarField(y) && y / 256 == x / 256 && y / 512 == x / 512
  {
    assert y / 0x1000_0000 <= 1;
  }

  /** Two stores, one after the other. */
  method WriteTwo(mem: array<Cell>, i: int, u: Cell, j: int, v: Cell)
    requires 0 <= i < mem.Length && 0 <= j < mem.Length
    modifies mem
    ensures mem[..] == Poke(Poke(old(mem[..]), i, u), j, v)
  {
    mem[i] := u;
    mem[j] := v;
  }

  /** The distance from a close prior cell to its cdr, as a code. */}
