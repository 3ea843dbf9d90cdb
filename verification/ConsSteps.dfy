/** What each operation on the cons heap does to the whole heap, once a page's search has answered
    (src/conspage.c, src/car-cdr.c). */
module ConsSteps {
  import opened Memory
  import opened ConsPage
  import opened ConsSearch
  import opened ConsView
  import opened ConsShape

  /** Every cell plays its part, and the pages hang together. */
  ghost predicate HeapOk(m: seq<Cell>, first: int, sh: Shape)
  {
    RolesOk(m, sh.roles) && ShapeOk(m, first, sh)
  }

  /** The shape with the chain of `pg` replaced and the cell at `x` in a new role. */
  function Reshaped(sh: Shape, pg: int, chain': seq<int>, roles': map<int, Role>): Shape
  {
    Shape(roles', sh.chains[pg := chain'], sh.plist)
  }

  /** The heap is well formed again, and of the pairs only that at `x` has changed. */
  ghost predicate Becomes(m: seq<Cell>, sh: Shape, m': seq<Cell>, first: int, sh': Shape, x: int, p: (int, int))
  {
    && |m'| == |m| && HeapOk(m', first, sh') && Addressed(m, sh.roles) && sh'.chains.Keys == sh.chains.Keys
    && Pairs(m', sh'.roles) == Pairs(m, sh.roles)[x := p]
  }

  /** A search leaves every cell that is not free as it was. */
  lemma LiveCellsKept(m: seq<Cell>, m': seq<Cell>, first: int, sh: Shape, pg: int)
    requires HeapOk(m, first, sh) && pg in sh.chains && SameBut(m, m', pg, sh.chains[pg])
    ensures |m'| == |m| && Addressed(m, sh.roles)
    ensures forall a :: a in sh.roles && sh.roles[a] != Free ==> Peek(m', a) == Peek(m, a)
  {
    hide NextFree, NextCell, Count, Chained, ListOk, CellAt, ChainsOk, IsOffset, SameBut, RolesOk;
    AddressedSame(m, sh.roles);
    PageOf(m, sh.chains, pg);
    SearchKeeps(m, m', pg, sh.chains[pg]);
    forall a | a in sh.roles && sh.roles[a] != Free
      ensures Peek(m', a) == Peek(m, a)
    {
      var q, x := a / 256, a % 256;
      assert q in sh.chains && IsOffset(x) && x !in sh.chains[q];
      PageOf(m, sh.chains, q);
      CellAddress(m, a);
      if q != pg {
        CellInPage(q, x);
        OtherPage(q, pg, CellAt(q, x));
      }
    }
  }

  lemma OtherPage(q: int, pg: int, a: int)
    requires q != pg && 128 * q <= a < 128 * q + 128
    ensures !(128 * pg <= a < 128 * pg + 128)
  {
  }

  /** A cell on the chain of a page is a free cell of the heap. */
  lemma ChainIsFree(m: seq<Cell>, first: int, sh: Shape, pg: int, off: int)
    requires HeapOk(m, first, sh) && pg in sh.chains && off in sh.chains[pg] && IsOffset(off)
    ensures 256 * pg + off in sh.roles && sh.roles[256 * pg + off] == Free
    ensures InMemory(m, 256 * pg + off) && (256 * pg + off) / 2 == CellAt(pg, off) && 0 <= CellAt(pg, off) < |m|
    ensures (256 * pg + off) / 256 == pg && (256 * pg + off) % 256 == off
  {
    hide NextFree, NextCell, Count, Chained, ListOk, ChainsOk, IsOffset, RolesOk;
    AddressOf(pg, off);
    PageOf(m, sh.chains, pg);
    CellAddress(m, 256 * pg + off);
  }

  // ---- one cell taken ----

  lemma OneRole(sh: Shape, pg: int, off: int, r: Role)
    requires CellsOk(sh.roles, sh.chains) && pg in sh.chains && off in sh.chains[pg] && IsOffset(off)
    requires Distinct(sh.chains[pg]) && r != Free
    ensures RolesTaken(sh.roles, sh.roles[256 * pg + off := r], pg, sh.chains[pg], Without(sh.chains[pg], off))
  {
    hide IsOffset, Without, Distinct;
    WithoutMembers(sh.chains[pg], off);
    AddressOf(pg, off);
    var x, roles' := 256 * pg + off, sh.roles[256 * pg + off := r];
    assert x in sh.roles && roles'.Keys == sh.roles.Keys;
    forall a | a in sh.roles
      ensures roles'[a] == Free <==> sh.roles[a] == Free && !(a / 256 == pg && a % 256 !in Without(sh.chains[pg], off))
    {
      assert a == x <==> a / 256 == pg && a % 256 == off;
    }
  }

  /** The heap after one cell has left its chain for a new role. */
  lemma OneLeft(m: seq<Cell>, first: int, sh: Shape, pg: int, m': seq<Cell>, off: int, r: Role)
    requires HeapOk(m, first, sh) && pg in sh.chains && OneTaken(m, m', pg, sh.chains[pg], off) && r != Free
    ensures ShapeOk(m', first, Reshaped(sh, pg, Without(sh.chains[pg], off), sh.roles[256 * pg + off := r]))
    ensures 256 * pg + off in sh.roles && sh.roles[256 * pg + off] == Free
    ensures InMemory(m, 256 * pg + off) && (256 * pg + off) / 2 == CellAt(pg, off) && 0 <= CellAt(pg, off) < |m|
    ensures |m'| == |m| && Addressed(m, sh.roles)
    ensures forall a :: a in sh.roles && sh.roles[a] != Free ==> Peek(m', a) == Peek(m, a)
  {
    hide NextFree, NextCell, Count, Chained, ListOk, ChainsOk, CellsOk, IsOffset, SameBut, RolesOk, Without, RolesTaken;
    ChainIsFree(m, first, sh, pg, off);
    LiveCellsKept(m, m', first, sh, pg);
    PageOf(m, sh.chains, pg);
    ChainRoom(m, pg, sh.chains[pg]);
    OneRole(sh, pg, off, r);
    PageSearched(m, m', first, sh, pg, Without(sh.chains[pg], off), sh.roles[256 * pg + off := r]);
  }

  /** A cell coded with an on-page cdr code `k` means this cdr. */
  function OnPageCdr(x: int, k: int): int
  {
    if k == 8 then 0 else x + 2 * (k - 8)
  }

  /** An on-page cdr code `k` at `x` is NIL, or names a later cons of the same page. */
  ghost predicate OnPageCode(roles: map<int, Role>, x: int, k: int)
  {
    k == 8 || (8 < k && x + 2 * (k - 8) in roles && roles[x + 2 * (k - 8)] == Live &&
        (x + 2 * (k - 8)) / 256 == x / 256)
  }

  /** cons with a NIL or on-page cdr. */
  lemma ConsOne(m: seq<Cell>, first: int, sh: Shape, pg: int, m': seq<Cell>, off: int, v: Cell)
    requires HeapOk(m, first, sh) && pg in sh.chains && OneTaken(m, m', pg, sh.chains[pg], off)
    requires OnPageCode(sh.roles, 256 * pg + off, CdrCode(v))
    ensures 0 <= CellAt(pg, off) < |m'| && 256 * pg + off in sh.roles && sh.roles[256 * pg + off] == Free
    ensures Becomes(m, sh, m'[CellAt(pg, off) := v], first,
                    Reshaped(sh, pg, Without(sh.chains[pg], off), sh.roles[256 * pg + off := Live]),
                    256 * pg + off, (CarField(v), OnPageCdr(256 * pg + off, CdrCode(v))))
  {
    hide OneTaken, ShapeOk, RolesOk, CellAt, Without, CdrCode, CarField, Pairs;
    var x, roles' := 256 * pg + off, sh.roles[256 * pg + off := Live];
    OneLeft(m, first, sh, pg, m', off, Live);
    var m2, sh' := m'[CellAt(pg, off) := v], Reshaped(sh, pg, Without(sh.chains[pg], off), roles');
    LiveWrite(m', first, sh', x, v);
    NewCons(m, sh.roles, m2, x);
  }

  // ---- two cells taken ----

  lemma TwoRoles(sh: Shape, pg: int, a: int, b: int, r: Role, s: Role)
    requires CellsOk(sh.roles, sh.chains) && pg in sh.chains && a in sh.chains[pg] && b in sh.chains[pg]
    requires IsOffset(a) && IsOffset(b) && Distinct(sh.chains[pg]) && r != Free && s != Free
    ensures RolesTaken(sh.roles, sh.roles[256 * pg + a := r][256 * pg + b := s], pg, sh.chains[pg],
                       Without(Without(sh.chains[pg], b), a))
  {
    hide IsOffset, Without, Distinct;
    WithoutMembers(sh.chains[pg], b);
    WithoutMembers(Without(sh.chains[pg], b), a);
    AddressOf(pg, a);
    AddressOf(pg, b);
    var roles', chain' := sh.roles[256 * pg + a := r][256 * pg + b := s], Without(Without(sh.chains[pg], b), a);
    assert 256 * pg + a in sh.roles && 256 * pg + b in sh.roles && roles'.Keys == sh.roles.Keys;
    forall c | c in sh.roles
      ensures roles'[c] == Free <==> sh.roles[c] == Free && !(c / 256 == pg && c % 256 !in chain')
    {
      assert c == 256 * pg + a <==> c / 256 == pg && c % 256 == a;
      assert c == 256 * pg + b <==> c / 256 == pg && c % 256 == b;
    }
  }

  /** The heap after two cells have left their chain for new roles. */
  lemma TwoLeft(m: seq<Cell>, first: int, sh: Shape, pg: int, m': seq<Cell>, a: int, b: int, r: Role, s: Role)
    requires HeapOk(m, first, sh) && pg in sh.chains && PairTaken(m, m', pg, sh.chains[pg], a, b)
    requires IsOffset(a) && IsOffset(b) && r != Free && s != Free
    ensures ShapeOk(m', first, Reshaped(sh, pg, Without(Without(sh.chains[pg], b), a),
                                        sh.roles[256 * pg + a := r][256 * pg + b := s]))
    ensures 256 * pg + a in sh.roles && sh.roles[256 * pg + a] == Free && 256 * pg + b in sh.roles
    ensures sh.roles[256 * pg + b] == Free
    ensures (256 * pg + a) / 2 == CellAt(pg, a) && 0 <= CellAt(pg, a) < |m| && (256 * pg + b) / 2 == CellAt(pg, b)
    ensures 0 <= CellAt(pg, b) < |m|
    ensures |m'| == |m| && Addressed(m, sh.roles)
    ensures forall c :: c in sh.roles && sh.roles[c] != Free ==> Peek(m', c) == Peek(m, c)
  {
    hide NextFree, NextCell, Count, Chained, ListOk, ChainsOk, CellsOk, IsOffset, SameBut, RolesOk, Without, RolesTaken;
    ChainIsFree(m, first, sh, pg, a);
    ChainIsFree(m, first, sh, pg, b);
    LiveCellsKept(m, m', first, sh, pg);
    PageOf(m, sh.chains, pg);
    ChainRoom(m, pg, sh.chains[pg]);
    TwoRoles(sh, pg, a, b, r, s);
    PageSearched(m, m', first, sh, pg, Without(Without(sh.chains[pg], b), a),
                 sh.roles[256 * pg + a := r][256 * pg + b := s]);
  }

  /** A pair's code leads from its first cell to its second. */
  lemma PairCode(m: seq<Cell>, m': seq<Cell>, pg: int, chain: seq<int>, a: int, b: int, v: Cell)
    requires Chained(m, pg, chain) && PairMade(m, m', pg, chain, a, b, v)
    ensures PairTaken(m, m', pg, chain, a, b) && IsOffset(a) && IsOffset(b) && a != b
    ensures 0 <= CellAt(pg, a) < |m'| && 0 <= CellAt(pg, b) < |m'| && CellAt(pg, a) != CellAt(pg, b)
    ensures m'[CellAt(pg, b)] == v
    ensures 1 <= CdrCode(m'[CellAt(pg, a)]) <= 7 && 256 * pg + b == 256 * pg + a + 2 * CdrCode(m'[CellAt(pg, a)])
  {
    hide NextFree, NextCell, Count, Chained, SameBut, Without, CdrCode, CellAt, IsOffset;
    PairOffsets(m, m', pg, chain, a, b);
    CellsApart(pg, a, b);
    CellsApart(pg, b, a);
    PageBounds(pg);
  }

  /** cons with a cdr held in a second cell. */
  lemma ConsPair(m: seq<Cell>, first: int, sh: Shape, pg: int, m': seq<Cell>, a: int, b: int, h: Cell, v: Cell)
    requires HeapOk(m, first, sh) && pg in sh.chains && PairMade(m, m', pg, sh.chains[pg], a, b, h)
    requires 0 <= CellAt(pg, a) < |m'| && CdrCode(v) == CdrCode(m'[CellAt(pg, a)])
    ensures 256 * pg + a in sh.roles && sh.roles[256 * pg + a] == Free
    ensures Becomes(m, sh, m'[CellAt(pg, a) := v], first,
                    Reshaped(sh, pg, Without(Without(sh.chains[pg], b), a),
                             sh.roles[256 * pg + a := Live][256 * pg + b := Holder(256 * pg + a)]),
                    256 * pg + a, (CarField(v), CarField(h)))
  {
    hide PairMade, PairTaken, Chained, ListOk, CellsOk, ChainsOk, RolesOk, CellAt, Without, CdrCode, CarField, Pairs,
      IsOffset;
    var x, y := 256 * pg + a, 256 * pg + b;
    PageOf(m, sh.chains, pg);
    PairCode(m, m', pg, sh.chains[pg], a, b, h);
    TwoLeft(m, first, sh, pg, m', a, b, Live, Holder(x));
    var m2, sh' := m'[CellAt(pg, a) := v],
                   Reshaped(sh, pg, Without(Without(sh.chains[pg], b), a), sh.roles[x := Live][y := Holder(x)]);
    LiveWrite(m', first, sh', x, v);
    assert Peek(m2, x) == v && Peek(m2, y) == h;
    NewPair(m, sh.roles, m2, x, y);
  }

  // ---- changing a cons in place ----

  lemma LiveAt(m: seq<Cell>, first: int, sh: Shape, a: int)
    requires HeapOk(m, first, sh) && a in sh.roles
    ensures InMemory(m, a) && 0 <= a / 2 < |m| && Addressed(m, sh.roles)
  {
  }

  /** rplaca */
  lemma CarReplaced(m: seq<Cell>, first: int, sh: Shape, x: int, c: int, v: Cell)
    requires HeapOk(m, first, sh) && x in sh.roles && sh.roles[x] == Live
    requires InMemory(m, x) && c == CarAt(m, x) && InMemory(m, c) && CdrCode(v) == CdrCode(Peek(m, c))
    ensures Becomes(m, sh, m[c / 2 := v], first, sh, x, (CarField(v), CdrOf(m, x)))
  {
    hide ShapeOk, RolesOk, CdrCode, CarField, Pairs, CdrOf;
    LiveAt(m, first, sh, x);
    HeldCells(m, sh.roles, x);
    LiveWrite(m, first, sh, c, v);
    SetCar(m, sh.roles, m[c / 2 := v], x, c);
  }

  /** rplacd where the cdr is held in a cell of its own. */
  lemma CdrReplaced(m: seq<Cell>, first: int, sh: Shape, x: int, h: int, v: Cell)
    requires HeapOk(m, first, sh) && x in sh.roles && sh.roles[x] == Live
    requires InMemory(m, x) && CdrCode(Peek(m, x)) <= 7 && h == HeldAt(m, x)
    ensures InMemory(m, h)
    ensures Becomes(m, sh, m[h / 2 := v], first, sh, x, (CarOf(m, x), CarField(v)))
  {
    hide ShapeOk, RolesOk, CdrCode, CarField, Pairs, CarOf;
    LiveAt(m, first, sh, x);
    HeldCells(m, sh.roles, x);
    LiveWrite(m, first, sh, h, v);
    SetHeld(m, sh.roles, m[h / 2 := v], x, h);
  }

  /** rplacd by changing the cdr code alone. */
  lemma CodeReplaced(m: seq<Cell>, first: int, sh: Shape, x: int, v: Cell)
    requires HeapOk(m, first, sh) && x in sh.roles && sh.roles[x] == Live
    requires InMemory(m, x) && CdrCode(Peek(m, x)) >= 8 && CarField(v) == CarField(Peek(m, x))
    requires OnPageCode(sh.roles, x, CdrCode(v))
    ensures Becomes(m, sh, m[x / 2 := v], first, sh, x, (CarOf(m, x), OnPageCdr(x, CdrCode(v))))
  {
    hide ShapeOk, RolesOk, CdrCode, CarField, Pairs, CarOf;
    LiveAt(m, first, sh, x);
    LiveWrite(m, first, sh, x, v);
    SetCode(m, sh.roles, m[x / 2 := v], x);
  }

  /** rplacd with a cell close by to hold the cdr. */
  lemma CdrMovedOut(m: seq<Cell>, first: int, sh: Shape, pg: int, m': seq<Cell>, off: int, x: int, h: Cell, v: Cell)
    requires HeapOk(m, first, sh) && pg in sh.chains && OneTaken(m, m', pg, sh.chains[pg], off)
    requires x in sh.roles && sh.roles[x] == Live && InMemory(m, x) && CdrCode(Peek(m, x)) >= 8
    requires 1 <= CdrCode(v) <= 7 && 256 * pg + off == x + 2 * CdrCode(v) && CarField(v) == CarField(Peek(m, x))
    ensures 0 <= CellAt(pg, off) < |m'| && x / 2 < |m'|
    ensures Becomes(m, sh, Poke(Poke(m', CellAt(pg, off), h), x / 2, v), first,
                    Reshaped(sh, pg, Without(sh.chains[pg], off), sh.roles[256 * pg + off := Holder(x)]),
                    x, (CarOf(m, x), CarField(h)))
  {
    hide OneTaken, ShapeOk, RolesOk, CellAt, Without, CdrCode, CarField, Pairs, CarOf;
    var y := 256 * pg + off;
    OneLeft(m, first, sh, pg, m', off, Holder(x));
    var sh' := Reshaped(sh, pg, Without(sh.chains[pg], off), sh.roles[y := Holder(x)]);
    LiveWrite(m', first, sh', y, h);
    LiveWrite(m'[y / 2 := h], first, sh', x, v);
    AddHolder(m, sh.roles, m'[y / 2 := h][x / 2 := v], x, y);
  }

  /** rplacd by moving the cons out to a pair of cells elsewhere. */
  lemma WentIndirect(m: seq<Cell>, first: int, sh: Shape, pg: int, m': seq<Cell>, a: int, b: int, h: Cell, x: int,
                     t: Cell, v: Cell)
    requires HeapOk(m, first, sh) && pg in sh.chains && PairMade(m, m', pg, sh.chains[pg], a, b, h)
    requires x in sh.roles && sh.roles[x] == Live && InMemory(m, x) && CdrCode(Peek(m, x)) >= 8
    requires 0 <= CellAt(pg, a) < |m'| && CdrCode(t) == CdrCode(m'[CellAt(pg, a)])
    requires CarField(t) == CarField(Peek(m, x))
    requires CdrCode(v) == 0 && CarField(v) == 256 * pg + a
    ensures x / 2 < |m'|
    ensures Becomes(m, sh, Poke(Poke(m', CellAt(pg, a), t), x / 2, v), first,
                    Reshaped(sh, pg, Without(Without(sh.chains[pg], b), a),
                             sh.roles[256 * pg + a := Target(x)][256 * pg + b := Holder(x)]),
                    x, (CarOf(m, x), CarField(h)))
  {
    hide PairMade, PairTaken, Chained, ListOk, CellsOk, ChainsOk, RolesOk, CellAt, Without, CdrCode, CarField, Pairs,
      IsOffset, CarOf;
    var y, z := 256 * pg + a, 256 * pg + b;
    PageOf(m, sh.chains, pg);
    PairCode(m, m', pg, sh.chains[pg], a, b, h);
    TwoLeft(m, first, sh, pg, m', a, b, Target(x), Holder(x));
    var sh' := Reshaped(sh, pg, Without(Without(sh.chains[pg], b), a), sh.roles[y := Target(x)][z := Holder(x)]);
    LiveWrite(m', first, sh', y, t);
    LiveWrite(m'[y / 2 := t], first, sh', x, v);
    var m2 := m'[y / 2 := t][x / 2 := v];
    assert Peek(m2, x) == v && Peek(m2, y) == t && Peek(m2, z) == h;
    GoIndirect(m, sh.roles, m2, x, y, z);
  }

  // ---- changes no cons sees ----

  /** New free cells, or writes outside the cells, change no pair. */
  lemma QuietStep(m: seq<Cell>, roles: map<int, Role>, m': seq<Cell>, roles': map<int, Role>)
    requires RolesOk(m, roles) && Addressed(m', roles')
    requires forall a :: a in roles ==> a in roles' && roles'[a] == roles[a] && Peek(m', a) == Peek(m, a)
    requires forall a :: a in roles' && a !in roles ==> roles'[a] == Free
    requires |m'| == |m|
    ensures RolesOk(m', roles') && Addressed(m, roles) && Pairs(m', roles') == Pairs(m, roles)
  {
    hide CdrCode, CarField, CellOk, RolesOk, CarOf, CdrOf;
    AddressedSame(m, roles);
    forall a | a in roles'
      ensures CellOk(m', roles', a)
    {
      if a in roles && roles[a] != Free {
        QuietCell(m, roles, m', roles', a);
      } else {
        FreeOk(m', roles', a);
      }
    }
    AllOk(m', roles');
    forall a | a in roles && roles[a] == Live
      ensures CarOf(m', a) == CarOf(m, a) && CdrOf(m', a) == CdrOf(m, a)
    {
      QuietCell(m, roles, m', roles', a);
    }
    assert Pairs(m', roles').Keys == Pairs(m, roles).Keys;
  }

  lemma AllOk(m: seq<Cell>, roles: map<int, Role>)
    requires Addressed(m, roles) && forall a :: a in roles ==> CellOk(m, roles, a)
    ensures RolesOk(m, roles)
  {
    hide CellOk;
  }

  lemma QuietCell(m: seq<Cell>, roles: map<int, Role>, m': seq<Cell>, roles': map<int, Role>, a: int)
    requires RolesOk(m, roles) && Addressed(m', roles') && |m'| == |m|
    requires forall a :: a in roles ==> a in roles' && roles'[a] == roles[a] && Peek(m', a) == Peek(m, a)
    requires a in roles && roles[a] != Free
    ensures CellOk(m', roles', a)
    ensures roles[a] == Live ==> CarOf(m', a) == CarOf(m, a) && CdrOf(m', a) == CdrOf(m, a)
  {
    hide CdrCode, CarField, Peek;
    assert CellOk(m, roles, a);
    if roles[a].Holder? {
      assert CellOk(m, roles, roles[a].owner);
    }
  }

  // ---- the store as a whole ----

  /** List pages come in units of two, carved downwards: the next to be carved is page `next`. */
  ghost predicate UnitsOk(next: int, units: set<int>, chains: map<int, seq<int>>)
  {
    && 0 <= next && next % 2 == 0
    && (forall pg :: pg in chains <==> pg / 2 in units)
    && (forall u :: u in units ==> next < 2 * u)
  }

  ghost predicate StoreOk(m: seq<Cell>, first: int, next: int, units: set<int>, sh: Shape)
  {
    HeapOk(m, first, sh) && UnitsOk(next, units, sh.chains) && next + 2 <= 0x10_0000 && 128 * next + 256 <= |m|
  }

  /** Cells that were in use before still are, with the same contents. */
  ghost predicate Extends(m: seq<Cell>, roles: map<int, Role>, m': seq<Cell>, roles': map<int, Role>)
    requires Addressed(m, roles)
  {
    |m'| == |m| && forall a :: a in roles ==> a in roles' && roles'[a] == roles[a] && Peek(m', a) == Peek(m, a)
  }

  /** Nothing a program can see has changed. */
  ghost predicate Unseen(m: seq<Cell>, sh: Shape, m': seq<Cell>, sh': Shape)
  {
    && Addressed(m, sh.roles) && Extends(m, sh.roles, m', sh'.roles)
    && Addressed(m', sh'.roles) && Pairs(m', sh'.roles) == Pairs(m, sh.roles)
  }

  lemma UnseenSelf(m: seq<Cell>, first: int, sh: Shape)
    requires HeapOk(m, first, sh)
    ensures Unseen(m, sh, m, sh)
  {
    hide Pairs, ShapeOk;
  }

  lemma UnseenTwice(m: seq<Cell>, sh: Shape, m1: seq<Cell>, sh1: Shape, m2: seq<Cell>, sh2: Shape)
    requires Unseen(m, sh, m1, sh1) && Unseen(m1, sh1, m2, sh2)
    ensures Unseen(m, sh, m2, sh2)
  {
    hide Pairs;
  }

  /** The link of a page may change unseen. */
  lemma NoCellChanged(m: seq<Cell>, sh: Shape, pg: int, v: Cell)
    requires RolesOk(m, sh.roles) && CellsOk(sh.roles, sh.chains) && 0 < pg && 128 * pg + 128 <= |m|
    ensures RolesOk(m[CellAt(pg, 6) := v], sh.roles)
    ensures Unseen(m, sh, m[CellAt(pg, 6) := v], sh)
  {
    hide RolesOk, ListOk, ChainsOk, Pairs, Chained;
    AddressedSame(m, sh.roles);
    var m' := m[CellAt(pg, 6) := v];
    AddressedAfter(m, sh.roles, m', sh.roles);
    forall a | a in sh.roles
      ensures Peek(m', a) == Peek(m, a)
    {
      assert IsOffset(a % 256);
    }
    QuietStep(m, sh.roles, m', sh.roles);
  }

  /** An empty page leaves the list unseen. */
  lemma FirstDropped(m: seq<Cell>, first: int, next: int, units: set<int>, sh: Shape)
    requires StoreOk(m, first, next, units, sh) && sh.plist != [] && first in sh.chains && sh.chains[first] == []
    ensures 0 < first && 128 * first + 128 <= |m| && m[CellAt(first, 6)] == Nth(sh.plist, 1)
    ensures StoreOk(m[CellAt(first, 6) := CONSPAGE_LAST], Nth(sh.plist, 1), next, units,
        Shape(sh.roles, sh.chains, sh.plist[1..]))
    ensures Unseen(m, sh, m[CellAt(first, 6) := CONSPAGE_LAST], Shape(sh.roles, sh.chains, sh.plist[1..]))
  {
    hide RolesOk, ShapeOk, Pairs, CellAt;
    DropFirst(m, first, sh);
    RolesOfShape(m, first, sh);
    NoCellChanged(m, sh, first, CONSPAGE_LAST);
  }

  lemma RolesOfShape(m: seq<Cell>, first: int, sh: Shape)
    requires HeapOk(m, first, sh)
    ensures RolesOk(m, sh.roles) && CellsOk(sh.roles, sh.chains) && ChainsOk(m, sh.chains)
    ensures ListOk(m, first, sh.chains, sh.plist)
  {
    hide RolesOk, CellsOk, ChainsOk, ListOk;
  }

  // ---- next_conspage ----

  /** Two pages initialised one after the other hold only free cells, and change nothing else. */
  lemma PagesAdded(m: seq<Cell>, m1: seq<Cell>, m2: seq<Cell>, first: int, sh: Shape, pg: int)
    requires HeapOk(m, first, sh) && pg !in sh.chains && pg + 1 !in sh.chains && 0 < pg && pg + 1 < 0x10_0000
    requires PageOnly(m, m1, pg + 1) && Chained(m1, pg + 1, FreshChain())
    requires PageOnly(m1, m2, pg) && Chained(m2, pg, FreshChain())
    ensures ChainsOk(m2, Grown(sh, pg).chains) && CellsOk(Grown(sh, pg).roles, Grown(sh, pg).chains)
    ensures RolesOk(m2, Grown(sh, pg).roles) && Unseen(m, sh, m2, Grown(sh, pg))
  {
    hide RolesOk, CellsOk, ChainsOk, ListOk, Chained, FreshChain, PageOnly, FreeCells, IsOffset, Pairs;
    AddPage(m, m1, sh.roles, sh.chains, pg + 1);
    var chains1, roles1 := sh.chains[pg + 1 := FreshChain()], sh.roles + FreeCells(pg + 1);
    AddPage(m1, m2, roles1, chains1, pg);
    var roles2 := Grown(sh, pg).roles;
    AddressedSame(m, sh.roles);
    CellsAddressed(m2, roles2, Grown(sh, pg).chains);
    forall a | a in sh.roles
      ensures a in roles2 && roles2[a] == sh.roles[a] && |m2| == |m| && InMemory(m, a) && Peek(m2, a) == Peek(m, a)
    {
      assert a in roles1;
      AddedElsewhere(m, m1, m2, sh, pg, a);
    }
    forall a | a in roles2 && a !in sh.roles
      ensures roles2[a] == Free
    {
      FreshIsFree(pg, a);
      FreshIsFree(pg + 1, a);
    }
    assert |m2| == |m| by { SameLength(m, m1, pg + 1); SameLength(m1, m2, pg); }
    QuietStep(m, sh.roles, m2, roles2);
  }

  lemma SameLength(m: seq<Cell>, m': seq<Cell>, pg: int)
    requires PageOnly(m, m', pg)
    ensures |m'| == |m|
  {
  }

  lemma FreshIsFree(pg: int, a: int)
    ensures a in FreeCells(pg) ==> FreeCells(pg)[a] == Free
  {
  }

  lemma CellsAddressed(m: seq<Cell>, roles: map<int, Role>, chains: map<int, seq<int>>)
    requires CellsOk(roles, chains) && ChainsOk(m, chains)
    ensures Addressed(m, roles)
  {
    hide IsOffset, Chained;
    forall a | a in roles
      ensures InMemory(m, a)
    {
      PageOf(m, chains, a / 256);
      CellAddress(m, a);
    }
  }

  lemma AddedElsewhere(m: seq<Cell>, m1: seq<Cell>, m2: seq<Cell>, sh: Shape, pg: int, a: int)
    requires CellsOk(sh.roles, sh.chains) && ChainsOk(m, sh.chains) && pg !in sh.chains && pg + 1 !in sh.chains
    requires PageOnly(m, m1, pg + 1) && PageOnly(m1, m2, pg) && a in sh.roles
    ensures |m2| == |m| && InMemory(m, a) && Peek(m2, a) == Peek(m, a)
  {
    hide IsOffset, Chained, CellAt;
    PageOf(m, sh.chains, a / 256);
    CellAddress(m, a);
    CellInPage(a / 256, a % 256);
    OtherPage(a / 256, pg, a / 2);
    OtherPage(a / 256, pg + 1, a / 2);
  }

  /** Hanging them on the end of the list. */
  lemma PagesHung(m: seq<Cell>, m1: seq<Cell>, m2: seq<Cell>, first: int, next: int, units: set<int>, sh: Shape)
    requires StoreOk(m, first, next, units, sh) && 2 <= next
    requires PageOnly(m, m1, next + 1) && Chained(m1, next + 1, FreshChain()) && m1[CellAt(next + 1, 6)] == 0
    requires PageOnly(m1, m2, next) && Chained(m2, next, FreshChain()) && m2[CellAt(next, 6)] == next + 1
    ensures next !in sh.chains && next + 1 !in sh.chains
    ensures sh.plist == [] ==>
        StoreOk(m2, next, next - 2, units + {next / 2}, Grown(sh, next)) && Unseen(m, sh, m2, Grown(sh, next))
    ensures sh.plist != [] ==>
        (var last := sh.plist[|sh.plist| - 1];
        && 0 < last && 128 * last + 128 <= |m2|
        && StoreOk(m2[CellAt(last, 6) := next], first, next - 2, units + {next / 2}, Grown(sh, next))
        && Unseen(m, sh, m2[CellAt(last, 6) := next], Grown(sh, next)))
  {
    hide RolesOk, CellsOk, ChainsOk, ListOk, Chained, FreshChain, PageOnly, FreeCells, IsOffset, Pairs, CellAt, Unseen,
      Distinct;
    UnitsFresh(next, units, sh.chains);
    PagesAdded(m, m1, m2, first, sh, next);
    var sh' := Grown(sh, next);
    UnitsGrown(next, units, sh.chains);
    assert |m2| == |m| by { SameLength(m, m1, next + 1); SameLength(m1, m2, next); }
    BelowLimit(m, sh.chains);
    SameLength(m, m1, next + 1);
    LinkKept(m1, m2, next + 1, next);
    forall q | q in sh.chains
      ensures 0 <= CellAt(q, 6) < |m| && m2[CellAt(q, 6)] == m[CellAt(q, 6)]
    {
      LinkKept(m, m1, q, next + 1);
      LinkKept(m1, m2, q, next);
    }
    if sh.plist == [] {
      ListGrown(m, m2, first, next, sh, next);
    } else {
      var last := sh.plist[|sh.plist| - 1];
      LastPage(m, first, sh);
      var m3 := m2[CellAt(last, 6) := next];
      LinkWritten(m2, sh'.chains, last, next);
      NoCellChanged(m2, sh', last, next);
      UnseenTwice(m, sh, m2, sh', m3, sh');
      BelowLimit(m2, sh'.chains);
      forall q | q in sh'.chains && q != last
        ensures 0 <= CellAt(q, 6) < |m2| && m3[CellAt(q, 6)] == m2[CellAt(q, 6)]
      {
        LinkCell(q, q);
        LinksDiffer(q, last);
      }
      ListGrown(m, m3, first, first, sh, next);
    }
  }

  lemma LinkKept(m: seq<Cell>, m': seq<Cell>, q: int, pg: int)
    requires PageOnly(m, m', pg) && q != pg && 0 < q && 128 * q + 128 <= |m|
    ensures 0 <= CellAt(q, 6) < |m| && |m'| == |m| && m'[CellAt(q, 6)] == m[CellAt(q, 6)]
  {
    LinkCell(q, pg);
  }

  lemma LastPage(m: seq<Cell>, first: int, sh: Shape)
    requires ListOk(m, first, sh.chains, sh.plist) && sh.plist != []
    ensures sh.plist[|sh.plist| - 1] in sh.chains && 0 < sh.plist[|sh.plist| - 1]
    ensures 128 * sh.plist[|sh.plist| - 1] + 128 <= |m|
  {
    hide CellAt, Distinct;
    assert LinkedPage(m, sh.chains, sh.plist, |sh.plist| - 1);
  }

  lemma LinkWritten(m: seq<Cell>, chains: map<int, seq<int>>, pg: int, v: Cell)
    requires ChainsOk(m, chains) && pg in chains
    ensures 0 < pg && 128 * pg + 128 <= |m| && ChainsOk(m[CellAt(pg, 6) := v], chains)
  {
    hide Chained;
    PageOf(m, chains, pg);
    LinkUnread(m, pg, chains[pg], v);
    LinkCell(pg, pg);
    ChainsElsewhere(m, m[CellAt(pg, 6) := v], chains, pg);
  }

  lemma UnitsFresh(next: int, units: set<int>, chains: map<int, seq<int>>)
    requires UnitsOk(next, units, chains)
    ensures next !in chains && next + 1 !in chains
  {
  }

  lemma UnitsGrown(next: int, units: set<int>, chains: map<int, seq<int>>)
    requires UnitsOk(next, units, chains) && 2 <= next
    ensures UnitsOk(next - 2, units + {next / 2}, chains[next + 1 := FreshChain()][next := FreshChain()])
  {
    hide FreshChain;
  }

  // ---- walking the list of pages ----

  lemma ListStart(m: seq<Cell>, first: int, sh: Shape)
    requires HeapOk(m, first, sh)
    ensures first == Nth(sh.plist, 0)
  {
    hide RolesOk, CellsOk, ChainsOk, Distinct;
  }

  /** A page on the list: its chain, and its link. */
  lemma PageOnList(m: seq<Cell>, first: int, sh: Shape, i: int)
    requires HeapOk(m, first, sh) && 0 <= i < |sh.plist|
    ensures sh.plist[i] in sh.chains && 0 < sh.plist[i] < 0x10_0000 && 128 * sh.plist[i] + 128 <= |m|
    ensures 0 <= CellAt(sh.plist[i], 6) < |m| && m[CellAt(sh.plist[i], 6)] == Nth(sh.plist, i + 1)
    ensures Chained(m, sh.plist[i], sh.chains[sh.plist[i]])
  {
    hide RolesOk, CellsOk, Distinct, Chained, CellAt;
    assert LinkedPage(m, sh.chains, sh.plist, i);
    LinkCell(sh.plist[i], 0);
  }

  /** A link is 0 only at the end of the list, and never the mark of a dropped page. */
  lemma ListEnds(m: seq<Cell>, first: int, sh: Shape, i: int)
    requires HeapOk(m, first, sh) && 0 <= i <= |sh.plist|
    ensures Nth(sh.plist, i) == 0 <==> i == |sh.plist|
    ensures Nth(sh.plist, i) < 0x10_0000
    ensures i > 0 ==> sh.plist[i - 1] in sh.chains && 0 < sh.plist[i - 1] && 0 <= CellAt(sh.plist[i - 1], 6) < |m|
  {
    hide RolesOk, CellsOk, Distinct, Chained, CellAt, HeapOk;
    if i < |sh.plist| {
      PageOnList(m, first, sh, i);
    }
    if i > 0 {
      PageOnList(m, first, sh, i - 1);
    }
  }

  lemma ShapeSearched(m: seq<Cell>, first: int, sh: Shape)
    requires HeapOk(m, first, sh) && forall i :: 0 <= i < |sh.plist| ==> NoPairAt(sh, i)
    ensures NoneClose(sh.chains)
  {
    hide RolesOk, ShapeOk, NoPairAt, NoneClose;
    AllSearched(m, first, sh);
  }

  lemma ShapeDropped(m: seq<Cell>, first: int, sh: Shape)
    requires HeapOk(m, first, sh) && sh.plist == []
    ensures NoneFree(sh.chains)
  {
    hide RolesOk, ShapeOk;
    AllDropped(m, first, sh);
  }

  lemma ShapeOfStore(m: seq<Cell>, first: int, next: int, units: set<int>, sh: Shape)
    requires StoreOk(m, first, next, units, sh)
    ensures ShapeOk(m, first, sh) && forall pg :: pg in sh.chains <==> pg / 2 in units
  {
    hide RolesOk, ShapeOk;
  }

  lemma PageLinks(pg: int)
    requires 0 < pg
    ensures 0 <= CellAt(pg, 6) < 128 * pg + 128 && 0 <= CellAt(pg + 1, 6) < 128 * pg + 256
    ensures CellAt(pg, 6) != CellAt(pg + 1, 6)
    ensures forall q :: q != pg + 1 ==> CellAt(q, 6) != CellAt(pg + 1, 6)
  {
  }

  lemma OutsideIs(m: seq<Cell>, m': seq<Cell>, pg: int)
    requires |m'| == |m| && forall a :: 0 <= a < |m| && !(128 * pg <= a < 128 * pg + 128) ==> m'[a] == m[a]
    ensures PageOnly(m, m', pg)
  {
  }

  /** The link of an old page is not touched by initialising two new ones. */
  lemma PageStays(m: seq<Cell>, m1: seq<Cell>, m2: seq<Cell>, pg: int, q: int)
    requires PageOnly(m, m1, pg + 1) && PageOnly(m1, m2, pg) && q != pg && q != pg + 1 && 0 < q && 128 * q + 128 <= |m|
    ensures 0 <= CellAt(q, 6) < |m| && |m2| == |m| && m2[CellAt(q, 6)] == m[CellAt(q, 6)]
  {
    hide PageOnly, CellAt;
    SameLength(m, m1, pg + 1);
    LinkKept(m, m1, q, pg + 1);
    LinkKept(m1, m2, q, pg);
  }

  // ---- finding two cells, or one, anywhere ----

  /** The state between a search and what is done with its answer: the heap as it was when page `pg` was searched. */
  ghost predicate Searched(m0: seq<Cell>, sh0: Shape, m: seq<Cell>, first: int, next: int, units: set<int>, sh: Shape,
                           pg: int)
  {
    StoreOk(m, first, next, units, sh) && Unseen(m0, sh0, m, sh) && pg in sh.chains
  }

  lemma PageChained(m: seq<Cell>, first: int, sh: Shape, pg: int)
    requires HeapOk(m, first, sh) && pg in sh.chains
    ensures 0 < pg < 0x10_0000 && 128 * pg + 128 <= |m| && Chained(m, pg, sh.chains[pg])
    ensures 0 <= CellAt(pg, 4) < |m|
  {
    hide RolesOk, CellsOk, ListOk, Chained;
    PageOf(m, sh.chains, pg);
  }

  /** A page's count is the length of its chain. */
  lemma CountOfChain(m: seq<Cell>, pg: int, chain: seq<int>)
    requires Chained(m, pg, chain)
    ensures 0 <= CellAt(pg, 4) < |m| && Count(m[CellAt(pg, 4)]) == |chain|
  {
    hide NextFree, NextCell, Count, Distinct;
  }

  lemma FreshHasPair()
    ensures !NoClosePair(FreshChain(), |FreshChain()|) && FreshChain() != []
  {
    hide FreshChain, Close;
    FreshChainCells();
    assert Close(FreshChain()[1 - 1], FreshChain()[1]);
  }

  lemma PairCell(m: seq<Cell>, first: int, sh: Shape, pg: int, m': seq<Cell>, a: int, b: int, v: Cell)
    requires HeapOk(m, first, sh) && pg in sh.chains && PairMade(m, m', pg, sh.chains[pg], a, b, v)
    ensures (256 * pg + a) / 2 == CellAt(pg, a) && 0 <= CellAt(pg, a) < |m'| && 8 <= a && b <= 254 && |m'| == |m|
    ensures 1 <= CdrCode(m'[CellAt(pg, a)]) <= 7 && a + 2 * CdrCode(m'[CellAt(pg, a)]) == b
    ensures 0 < 256 * pg + a < 0x1000_0000
  {
    hide RolesOk, CellsOk, ListOk, Chained, CdrCode, PairTaken;
    PageChained(m, first, sh, pg);
    PairCode(m, m', pg, sh.chains[pg], a, b, v);
    AddressOf(pg, a);
    assert |m'| == |m| by { PairSize(m, m', pg, sh.chains[pg], a, b); }
  }

  lemma PairSize(m: seq<Cell>, m': seq<Cell>, pg: int, chain: seq<int>, a: int, b: int)
    requires PairTaken(m, m', pg, chain, a, b)
    ensures |m'| == |m|
  {
    hide Chained;
  }

  lemma OneCell(m: seq<Cell>, first: int, sh: Shape, pg: int, m': seq<Cell>, off: int)
    requires HeapOk(m, first, sh) && pg in sh.chains && OneTaken(m, m', pg, sh.chains[pg], off)
    ensures (256 * pg + off) / 2 == CellAt(pg, off) && 0 <= CellAt(pg, off) < |m'| && IsOffset(off) && |m'| == |m|
    ensures 0 < 256 * pg + off < 0x1000_0000
  {
    hide RolesOk, CellsOk, ListOk, Chained;
    PageChained(m, first, sh, pg);
    AddressOf(pg, off);
  }

  // ---- handles ----

  /** The handles are the live cells. */
  lemma HandleIsLive(m: seq<Cell>, first: int, sh: Shape, x: int)
    requires HeapOk(m, first, sh)
    ensures Addressed(m, sh.roles)
    ensures x in Pairs(m, sh.roles) <==> x in sh.roles && sh.roles[x] == Live
    ensures x in Pairs(m, sh.roles) ==> InMemory(m, x) && Pairs(m, sh.roles)[x] == (CarOf(m, x), CdrOf(m, x))
    ensures x in Pairs(m, sh.roles) ==> x / 256 in sh.chains && IsOffset(x % 256) && 0 < x / 256
  {
    hide ShapeOk, CarOf, CdrOf, CellOk;
    RolesOfShape(m, first, sh);
    if x in sh.roles {
      LiveOnPage(m, first, sh, x);
    }
  }

  lemma LiveOnPage(m: seq<Cell>, first: int, sh: Shape, x: int)
    requires HeapOk(m, first, sh) && x in sh.roles
    ensures x / 256 in sh.chains && IsOffset(x % 256) && 0 < x / 256
  {
    hide RolesOk, ListOk, Chained;
    PageOf(m, sh.chains, x / 256);
  }

  /** A handle is one that the type table calls a list. */
  lemma HandleIsListed(m: seq<Cell>, first: int, next: int, units: set<int>, sh: Shape, x: int)
    requires StoreOk(m, first, next, units, sh) && x in sh.roles && sh.roles[x] == Live
    ensures x / 512 in units && 0 < x < 0x1000_0000
  {
    hide RolesOk, ListOk, Chained;
    PageOf(m, sh.chains, x / 256);
  }

  /** What a search and the step after it amount to. */
  lemma Settled(m0: seq<Cell>, sh0: Shape, m: seq<Cell>, first: int, next: int, units: set<int>, sh: Shape, pg: int,
                m': seq<Cell>, sh': Shape, x: int, p: (int, int))
    requires Searched(m0, sh0, m, first, next, units, sh, pg) && Becomes(m, sh, m', first, sh', x, p)
    ensures StoreOk(m', first, next, units, sh')
    ensures Addressed(m0, sh0.roles) && Addressed(m', sh'.roles)
    ensures Pairs(m', sh'.roles) == Pairs(m0, sh0.roles)[x := p]
    ensures x in sh.roles && sh.roles[x] == Free ==> x !in Pairs(m0, sh0.roles)
  {
    hide RolesOk, ShapeOk, Pairs, Extends;
    HandleIsLive(m, first, sh, x);
    HandleIsLive(m', first, sh', x);
    UnitsKept(next, units, sh.chains, sh'.chains);
  }

  lemma UnitsKept(next: int, units: set<int>, chains: map<int, seq<int>>, chains': map<int, seq<int>>)
    requires UnitsOk(next, units, chains) && chains'.Keys == chains.Keys
    ensures UnitsOk(next, units, chains')
  {
  }

  /** No search is needed when a cons is changed in place. */
  lemma NotSearched(m: seq<Cell>, first: int, next: int, units: set<int>, sh: Shape, pg: int)
    requires StoreOk(m, first, next, units, sh) && pg in sh.chains
    ensures Searched(m, sh, m, first, next, units, sh, pg)
  {
    hide HeapOk, UnitsOk;
    UnseenSelf(m, first, sh);
  }

  // ---- reading and finding the parts of a cons ----

  /** The live cell of a cons, its car cell and its cdr cell. */
  lemma ConsParts(m: seq<Cell>, first: int, next: int, units: set<int>, sh: Shape, x: int)
    requires StoreOk(m, first, next, units, sh) && x in Pairs(m, sh.roles)
    ensures x in sh.roles && sh.roles[x] == Live && InMemory(m, x) && x / 512 in units
    ensures Pairs(m, sh.roles)[x] == (CarOf(m, x), CdrOf(m, x))
    ensures CdrCode(Peek(m, x)) <= 7 ==> InMemory(m, HeldAt(m, x))
    ensures CdrCode(Peek(m, x)) == 0 ==>
        CarAt(m, x) in sh.roles && sh.roles[CarAt(m, x)] == Target(x) && CarAt(m, x) / 512 in units
        && 1 <= CdrCode(Peek(m, CarAt(m, x))) <= 7
    ensures InMemory(m, CarAt(m, x))
  {
    hide ShapeOk, UnitsOk, CarOf, CdrOf, CdrCode, CarField, Pairs;
    HandleIsLive(m, first, sh, x);
    HandleIsListed(m, first, next, units, sh, x);
    HeldCells(m, sh.roles, x);
    assert CellOk(m, sh.roles, x);
    if CdrCode(Peek(m, x)) == 0 {
      CellIsListed(m, first, next, units, sh, CarAt(m, x));
    }
  }

  lemma CellIsListed(m: seq<Cell>, first: int, next: int, units: set<int>, sh: Shape, x: int)
    requires StoreOk(m, first, next, units, sh) && x in sh.roles
    ensures x / 512 in units
  {
    hide RolesOk, ListOk, Chained;
  }

  /** The cdr of a cons, if it is held at all, is held in another cell. */
  lemma HeldElsewhere(m: seq<Cell>, first: int, sh: Shape, x: int)
    requires HeapOk(m, first, sh) && x in sh.roles && sh.roles[x] == Live && InMemory(m, x)
    ensures CdrCode(Peek(m, x)) <= 7 ==> InMemory(m, HeldAt(m, x)) && HeldAt(m, x) / 2 != x / 2
  {
    hide ShapeOk, CdrCode, CarField, HeldAt, CellOk;
    HeldCells(m, sh.roles, x);
    AddressedSame(m, sh.roles);
  }

  /** What the cdr of a cons is read from, by its code. */
  lemma CdrRead(m: seq<Cell>, x: int)
    requires InMemory(m, x) && (CdrCode(Peek(m, x)) <= 7 ==> InMemory(m, HeldAt(m, x)))
    ensures var k := CdrCode(Peek(m, x));
      && (k == 8 ==> CdrOf(m, x) == 0) && (k > 8 ==> CdrOf(m, x) == x + 2 * (k % 8))
      && (0 < k < 8 ==> InMemory(m, x + 2 * k) && CdrOf(m, x) == CarField(Peek(m, x + 2 * k)))
      && (k == 0 ==> CarAt(m, x) == CarField(Peek(m, x)))
  {
    hide CdrCode, CarField;
    CodeOnPage(CdrCode(Peek(m, x)) % 8);
  }

  /** The pair at a handle as it lies in memory. The car is the low 28 bits; the top four say that the cdr is NIL (8), a
      cons further on (9 to 15) or held in a cell further on (1 to 7), or that the cons has moved out (0). */
  lemma PairBits(m: seq<Cell>, first: int, sh: Shape, x: int)
    requires HeapOk(m, first, sh) && Addressed(m, sh.roles) && x in Pairs(m, sh.roles)
    ensures 0 <= x / 2 < |m| && x % 2 == 0
    ensures var c := m[x / 2];
      var k, v, p := c / 0x1000_0000, c % 0x1000_0000, Pairs(m, sh.roles)[x];
      if k == 8 then p == (v, 0)
      else if k > 8 then p == (v, x + 2 * (k - 8))
      else if k > 0 then 0 <= x / 2 + k < |m| && p == (v, m[x / 2 + k] % 0x1000_0000)
      else
        && 0 <= v / 2 < |m| && v % 2 == 0
        && var j := m[v / 2] / 0x1000_0000;
           1 <= j <= 7 && v / 2 + j < |m| && p == (m[v / 2] % 0x1000_0000, m[v / 2 + j] % 0x1000_0000)
  {
    hide *;
    HandleIsLive(m, first, sh, x);
    RolesOfShape(m, first, sh);
    PairCodes(m, sh.roles, x);
    FieldBits(m, x, CarOf(m, x), CdrOf(m, x));
  }

  lemma FieldBits(m: seq<Cell>, x: int, car: int, cdr: int)
    requires InMemory(m, x)
    requires var k, v := CdrCode(Peek(m, x)), CarField(Peek(m, x));
      if k >= 8 then car == v && cdr == if k == 8 then 0 else x + 2 * (k - 8)
      else if k > 0 then car == v && InMemory(m, x + 2 * k) && cdr == CarField(Peek(m, x + 2 * k))
      else
        && InMemory(m, v) && car == CarField(Peek(m, v))
        && var j := CdrCode(Peek(m, v));
           1 <= j <= 7 && InMemory(m, v + 2 * j) && cdr == CarField(Peek(m, v + 2 * j))
    ensures 0 <= x / 2 < |m| && x % 2 == 0
    ensures var c := m[x / 2];
      var k, v := c / 0x1000_0000, c % 0x1000_0000;
      if k == 8 then (car, cdr) == (v, 0)
      else if k > 8 then (car, cdr) == (v, x + 2 * (k - 8))
      else if k > 0 then 0 <= x / 2 + k < |m| && (car, cdr) == (v, m[x / 2 + k] % 0x1000_0000)
      else
        && 0 <= v / 2 < |m| && v % 2 == 0
        && var j := m[v / 2] / 0x1000_0000;
           && 1 <= j <= 7 && v / 2 + j < |m|
           && (car, cdr) == (m[v / 2] % 0x1000_0000, m[v / 2 + j] % 0x1000_0000)
  {
    var k, v := CdrCode(Peek(m, x)), CarField(Peek(m, x));
    if k == 0 {
      HalfAddress(v, CdrCode(Peek(m, v)));
    } else if k <= 7 {
      HalfAddress(x, k);
    }
  }

  /** The same, by the fields of the cells. */
  lemma PairCodes(m: seq<Cell>, roles: map<int, Role>, x: int)
    requires RolesOk(m, roles) && x in roles && roles[x] == Live
    ensures InMemory(m, x)
    ensures var k, v := CdrCode(Peek(m, x)), CarField(Peek(m, x));
      if k >= 8 then CarOf(m, x) == v && CdrOf(m, x) == if k == 8 then 0 else x + 2 * (k - 8)
      else if k > 0 then CarOf(m, x) == v && InMemory(m, x + 2 * k) && CdrOf(m, x) == CarField(Peek(m, x + 2 * k))
      else
        && InMemory(m, v) && CarOf(m, x) == CarField(Peek(m, v))
        && var j := CdrCode(Peek(m, v));
           1 <= j <= 7 && InMemory(m, v + 2 * j) && CdrOf(m, x) == CarField(Peek(m, v + 2 * j))
  {
    hide CdrCode, CarField, RolesOk;
    CellOkAt(m, roles, x);
    var k, v := CdrCode(Peek(m, x)), CarField(Peek(m, x));
    if k == 0 {
      TargetParts(m, roles, v);
    } else if k <= 7 {
      CellOkAt(m, roles, x + 2 * k);
    }
  }

  lemma HalfAddress(x: int, k: int)
    ensures (x + 2 * k) / 2 == x / 2 + k
  {
  }

  /** The target of an indirect cons knows where its cdr is. */
  lemma TargetParts(m: seq<Cell>, roles: map<int, Role>, t: int)
    requires RolesOk(m, roles) && t in roles && roles[t].Target?
    ensures InMemory(m, t) && 1 <= CdrCode(Peek(m, t)) <= 7 && InMemory(m, t + 2 * CdrCode(Peek(m, t)))
    ensures var o := roles[t].owner;
      && o in roles && roles[o] == Live && InMemory(m, o)
      && CdrOf(m, o) == CarField(Peek(m, t + 2 * CdrCode(Peek(m, t))))
  {
    hide CdrCode, CarField;
    assert CellOk(m, roles, t);
    assert CellOk(m, roles, roles[t].owner);
  }

  /** A target, like a cons, is one that the type table calls a list. */
  lemma TargetListed(m: seq<Cell>, first: int, next: int, units: set<int>, sh: Shape, t: int)
    requires StoreOk(m, first, next, units, sh) && t in sh.roles
    ensures RolesOk(m, sh.roles) && t / 512 in units && t != 0
  {
    hide ShapeOk, UnitsOk;
    CellIsListed(m, first, next, units, sh, t);
    LiveOnPage(m, first, sh, t);
    RolesOfShape(m, first, sh);
  }

  lemma LiveCellKept(m: seq<Cell>, first: int, sh: Shape, pg: int, m': seq<Cell>, off: int, x: int)
    requires HeapOk(m, first, sh) && pg in sh.chains && OneTaken(m, m', pg, sh.chains[pg], off)
    requires x in sh.roles && sh.roles[x] != Free && InMemory(m, x)
    ensures |m'| == |m| && Peek(m', x) == Peek(m, x)
  {
    hide HeapOk, Chained, SameBut;
    LiveCellsKept(m, m', first, sh, pg);
  }

  lemma LiveCellsAfterPair(m: seq<Cell>, first: int, sh: Shape, pg: int, m': seq<Cell>, a: int, b: int, v: Cell, x: int)
    requires HeapOk(m, first, sh) && pg in sh.chains && PairMade(m, m', pg, sh.chains[pg], a, b, v)
    requires x in sh.roles && sh.roles[x] != Free && InMemory(m, x)
    ensures |m'| == |m| && Peek(m', x) == Peek(m, x) && x / 2 != CellAt(pg, a)
  {
    hide HeapOk, Chained, SameBut, CellAt;
    LiveCellsKept(m, m', first, sh, pg);
    ChainIsFree(m, first, sh, pg, a);
  }

  /** The distance from a cons to a close cell behind it, as a code. */
  lemma NearSpan(page: int, found: int, x: int)
    requires page == x / 256 && IsOffset(x % 256) && IsOffset(found) && x % 256 < found <= x % 256 + 14
    ensures var k := (256 * page + found - x) / 2;
      1 <= k <= 7 && 256 * page + found == x + 2 * k
  {
  }

  lemma LastPoked(m: seq<Cell>, x: int, v: Cell)
    requires InMemory(m, x)
    ensures InMemory(Poke(m, x / 2, v), x) && Peek(Poke(m, x / 2, v), x) == v
  {
  }

  /** rplacd with a close cell, from beginning to end. */
  lemma NearDone(m: seq<Cell>, first: int, next: int, units: set<int>, sh: Shape, page: int, m': seq<Cell>, found: int,
                 x: int, y: Cell)
    requires StoreOk(m, first, next, units, sh) && page in sh.chains && OneTaken(m, m', page, sh.chains[page], found)
    requires x in Pairs(m, sh.roles) && InMemory(m, x) && CdrCode(Peek(m, x)) >= 8 && page == x / 256
    requires x % 256 < found <= x % 256 + 14
    ensures (256 * page + found) / 2 == CellAt(page, found) && 0 <= CellAt(page, found) < |m'| && |m'| == |m|
    ensures 0 <= (256 * page + found - x) / 2 < 16
    ensures var m2, sh2 :=
              Poke(Poke(m', CellAt(page, found), y), x / 2, WithCdrCode(Peek(m', x), (256 * page + found - x) / 2)),
              Reshaped(sh, page, Without(sh.chains[page], found), sh.roles[256 * page + found := Holder(x)]);
      && StoreOk(m2, first, next, units, sh2) && InMemory(m2, x) && 1 <= CdrCode(Peek(m2, x)) <= 7
      && Pairs(m2, sh2.roles) == Pairs(m, sh.roles)[x := (Pairs(m, sh.roles)[x].0, CarField(y))]
  {
    hide HeapOk, UnitsOk, Searched, CdrCode, CarField, WithCdrCode, Pairs, CarOf, CdrOf, Becomes, CellAt, OneTaken,
      Without, IsOffset, Poke;
    HandleIsLive(m, first, sh, x);
    NotSearched(m, first, next, units, sh, page);
    OneCell(m, first, sh, page, m', found);
    LiveCellKept(m, first, sh, page, m', found, x);
    NearSpan(page, found, x);
    var k := (256 * page + found - x) / 2;
    CellFields(Peek(m', x), k, 0, 0);
    var c := WithCdrCode(Peek(m', x), k);
    CdrMovedOut(m, first, sh, page, m', found, x, y, c);
    var sh2 := Reshaped(sh, page, Without(sh.chains[page], found), sh.roles[256 * page + found := Holder(x)]);
    LastPoked(Poke(m', CellAt(page, found), y), x, c);
    Settled(m, sh, m, first, next, units, sh, page, Poke(Poke(m', CellAt(page, found), y), x / 2, c), sh2, x,
            (CarOf(m, x), CarField(y)));
  }

  /** rplacd with a pair of cells elsewhere, from beginning to end. */
  lemma FarDone(m0: seq<Cell>, sh0: Shape, m: seq<Cell>, first: int, next: int, units: set<int>, sh: Shape, pg: int,
                m': seq<Cell>, a: int, b: int, x: int, y: Cell)
    requires Searched(m0, sh0, m, first, next, units, sh, pg) && PairMade(m, m', pg, sh.chains[pg], a, b, y)
    requires x in Pairs(m0, sh0.roles) && InMemory(m0, x) && CdrCode(Peek(m0, x)) >= 8
    ensures (256 * pg + a) / 2 == CellAt(pg, a) && 0 <= CellAt(pg, a) < |m'| && |m'| == |m0| && x / 2 < |m'|
    ensures var t, v := WithCarField(m'[CellAt(pg, a)], CarField(Peek(m', x))),
                        WithCdrCode(WithCarField(Peek(m', x), 256 * pg + a), 0);
      var m2 := Poke(Poke(m', CellAt(pg, a), t), x / 2, v);
      var sh2 := Reshaped(sh, pg, Without(Without(sh.chains[pg], b), a),
                          sh.roles[256 * pg + a := Target(x)][256 * pg + b := Holder(x)]);
      && StoreOk(m2, first, next, units, sh2) && InMemory(m2, x) && CdrCode(Peek(m2, x)) == 0
      && Pairs(m2, sh2.roles) == Pairs(m0, sh0.roles)[x := (Pairs(m0, sh0.roles)[x].0, CarField(y))]
  {
    hide HeapOk, UnitsOk, CdrCode, CarField, WithCdrCode, WithCarField, Pairs, CarOf, CdrOf, Becomes, CellAt, PairMade,
      Without, IsOffset, Poke, Extends;
    HandleIsLive(m, first, sh, x);
    SeenLive(m0, sh0, m, sh, x);
    PairCell(m, first, sh, pg, m', a, b, y);
    LiveCellsAfterPair(m, first, sh, pg, m', a, b, y, x);
    var t, v := WithCarField(m'[CellAt(pg, a)], CarField(Peek(m', x))),
        WithCdrCode(WithCarField(Peek(m', x), 256 * pg + a), 0);
    StoredField(m'[CellAt(pg, a)], Peek(m', x));
    StoredAddress(Peek(m', x), 256 * pg + a);
    WentIndirect(m, first, sh, pg, m', a, b, y, x, t, v);
    var sh2 := Reshaped(sh, pg, Without(Without(sh.chains[pg], b), a),
                        sh.roles[256 * pg + a := Target(x)][256 * pg + b := Holder(x)]);
    LastPoked(Poke(m', CellAt(pg, a), t), x, v);
    Settled(m0, sh0, m, first, next, units, sh, pg, Poke(Poke(m', CellAt(pg, a), t), x / 2, v), sh2, x,
            (CarOf(m, x), CarField(y)));
  }

  lemma SeenLive(m0: seq<Cell>, sh0: Shape, m: seq<Cell>, sh: Shape, x: int)
    requires Unseen(m0, sh0, m, sh) && x in Pairs(m0, sh0.roles) && InMemory(m0, x)
    ensures |m| == |m0| && InMemory(m, x) && Peek(m, x) == Peek(m0, x) && x in sh.roles && sh.roles[x] == Live
    ensures Pairs(m0, sh0.roles) == Pairs(m, sh.roles)
  {
    hide CarOf, CdrOf;
    assert x in sh0.roles;
  }

  lemma StoredField(c: Cell, d: Cell)
    ensures CdrCode(WithCarField(c, CarField(d))) == CdrCode(c) && CarField(WithCarField(c, CarField(d))) == CarField(d)
  {
    CellFields(c, 0, CarField(d), 0);
  }

  lemma StoredAddress(c: Cell, a: int)
    requires 0 <= a < 0x1000_0000
    ensures CdrCode(WithCdrCode(WithCarField(c, a), 0)) == 0 && CarField(WithCdrCode(WithCarField(c, a), 0)) == a
  {
    CellFields(c, 0, a, 0);
    CellFields(WithCarField(c, a), 0, 0, 0);
  }

  // ---- counting ----

  function Offsets(): set<int>
  {
    set x | 8 <= x < 255 && IsOffset(x)
  }

  function FreeOn(sh: Shape, pg: int): set<int>
  {
    set x | x in Offsets() && 256 * pg + x in sh.roles && sh.roles[256 * pg + x] == Free
  }

  function UsedOn(sh: Shape, pg: int): set<int>
  {
    set x | x in Offsets() && 256 * pg + x in sh.roles && sh.roles[256 * pg + x] != Free
  }

  lemma {:induction false} DistinctSize(s: seq<int>)
    requires Distinct(s)
    ensures |set x | x in s| == |s|
  {
    if s != [] {
      DistinctTail(s);
      DistinctSize(s[1..]);
      assert (set x | x in s) == {s[0]} + set x | x in s[1..];
    }
  }

  lemma FreeIsChain(m: seq<Cell>, first: int, sh: Shape, pg: int)
    requires HeapOk(m, first, sh) && pg in sh.chains
    ensures FreeOn(sh, pg) == set x | x in sh.chains[pg]
    ensures FreeOn(sh, pg) <= Offsets() && UsedOn(sh, pg) == Offsets() - FreeOn(sh, pg)
  {
    hide RolesOk, ListOk, Chained, CellAt;
    PageChained(m, first, sh, pg);
    ChainRoom(m, pg, sh.chains[pg]);
    forall x
      ensures x in FreeOn(sh, pg) <==> x in sh.chains[pg]
      ensures x in UsedOn(sh, pg) <==> IsOffset(x) && x !in sh.chains[pg]
    {
      if IsOffset(x) {
        AddressOf(pg, x);
      }
    }
  }

  lemma OffsetTotal()
    ensures |Offsets()| == 124
  {
    hide FreshChain, Distinct;
    FreshChainCells();
    DistinctSize(FreshChain());
    assert (set x | x in FreshChain()) == Offsets();
  }

  /** A page's count is the number of its free cells, and its 124 cells are free or in use. */
  lemma PageTotals(m: seq<Cell>, first: int, sh: Shape, pg: int)
    requires HeapOk(m, first, sh) && pg in sh.chains
    ensures 0 <= CellAt(pg, 4) < |m|
    ensures |FreeOn(sh, pg)| == Count(m[CellAt(pg, 4)])
    ensures |FreeOn(sh, pg)| + |UsedOn(sh, pg)| == 124
  {
    hide HeapOk, Chained, FreshChain, Count, CellAt, IsOffset, Distinct, FreeOn, UsedOn, Offsets;
    PageChained(m, first, sh, pg);
    CountOfChain(m, pg, sh.chains[pg]);
    ChainRoom(m, pg, sh.chains[pg]);
    DistinctSize(sh.chains[pg]);
    FreeIsChain(m, first, sh, pg);
    OffsetTotal();
    assert Offsets() * FreeOn(sh, pg) == FreeOn(sh, pg);
  }

  // ---- the check at the end of N_OP_cons ----

  /** Neither the cdr cell of the cons at `a` nor its on-page cdr runs past the end of its page. */
  predicate CodeFits(m: seq<Cell>, a: int)
  {
    InMemory(m, a) && a % 256 + 2 * (CdrCode(Peek(m, a)) % 8) <= 254
  }

  lemma NilFits(m: seq<Cell>, pg: int, off: int)
    requires IsOffset(off) && InMemory(m, 256 * pg + off) && CdrCode(Peek(m, 256 * pg + off)) == 8
    ensures CodeFits(m, 256 * pg + off)
  {
  }

  lemma NearFits(m: seq<Cell>, pg: int, off: int, to: int)
    requires IsOffset(off) && InMemory(m, 256 * pg + off) && IsOffset(to) && off < to <= off + 14
    requires CdrCode(Peek(m, 256 * pg + off)) == 8 + (to - off) / 2
    ensures CodeFits(m, 256 * pg + off)
  {
    hide CdrCode;
    PlaceOnPage(pg, off);
    CodeOnPage((to - off) / 2);
  }

  lemma PlaceOnPage(pg: int, off: int)
    requires 0 <= off < 256
    ensures (256 * pg + off) % 256 == off
  {
  }

  lemma CodeOnPage(k: int)
    requires 0 <= k < 8
    ensures (8 + k) % 8 == k && k % 8 == k
  {
  }

  lemma PairFits(m: seq<Cell>, pg: int, a: int, b: int)
    requires 8 <= a < 256 && InMemory(m, 256 * pg + a) && b <= 254
    requires a + 2 * CdrCode(Peek(m, 256 * pg + a)) == b && 1 <= CdrCode(Peek(m, 256 * pg + a)) <= 7
    ensures CodeFits(m, 256 * pg + a)
  {
    hide CdrCode;
    PlaceOnPage(pg, a);
    CodeOnPage(CdrCode(Peek(m, 256 * pg + a)));
  }

  /** N_OP_cons with a cdr on the same page: the cell found before it becomes the cons. */
  lemma ConsNearDone(m: seq<Cell>, first: int, next: int, units: set<int>, sh: Shape, page: int, m': seq<Cell>,
                     found: int, cdr: int, c: Cell)
    requires StoreOk(m, first, next, units, sh) && page in sh.chains && OneTaken(m, m', page, sh.chains[page], found)
    requires cdr in Pairs(m, sh.roles) && page == cdr / 256 && found < cdr % 256 <= found + 14
    requires CdrCode(c) == 8 + (cdr % 256 - found) / 2
    ensures 0 <= CellAt(page, found) < |m'| && 256 * page + found != 0
    ensures 8 < CdrCode(c) && cdr == 256 * page + found + 2 * (CdrCode(c) - 8) && (256 * page + found) / 256 == page
    ensures StoreOk(Poke(m', CellAt(page, found), c), first, next, units, NearShape(sh, page, found))
    ensures CodeFits(Poke(m', CellAt(page, found), c), 256 * page + found)
    ensures 256 * page + found !in Pairs(m, sh.roles)
    ensures Pairs(Poke(m', CellAt(page, found), c), NearShape(sh, page, found).roles)
         == Pairs(m, sh.roles)[256 * page + found := (CarField(c), cdr)]
  {
    hide HeapOk, UnitsOk, Searched, CdrCode, CarField, Pairs, Becomes, CellAt, OneTaken, Without, IsOffset, CodeFits;
    HandleIsLive(m, first, sh, cdr);
    NotSearched(m, first, next, units, sh, page);
    OneCell(m, first, sh, page, m', found);
    OnPageSpan(page, found, cdr);
    ConsOne(m, first, sh, page, m', found, c);
    Settled(m, sh, m, first, next, units, sh, page, m'[CellAt(page, found) := c], NearShape(sh, page, found),
            256 * page + found, (CarField(c), cdr));
    NearFits(m'[CellAt(page, found) := c], page, found, cdr % 256);
  }

  /** The free cell found on a page has become a cons. */
  function NearShape(sh: Shape, page: int, found: int): Shape
    requires page in sh.chains
  {
    Reshaped(sh, page, Without(sh.chains[page], found), sh.roles[256 * page + found := Live])
  }

  lemma OnPageSpan(page: int, found: int, cdr: int)
    requires page == cdr / 256 && IsOffset(cdr % 256) && IsOffset(found)
    requires found < cdr % 256 <= found + 14
    ensures var k := 8 + (cdr % 256 - found) / 2;
      8 < k < 16 && 256 * page + found + 2 * (k - 8) == cdr && (256 * page + found) / 256 == page
  {
  }

  /** rplacd of a cons whose cdr is on its page by one on its page, or by NIL: only the code changes. */
  lemma CodeDone(m: seq<Cell>, first: int, next: int, units: set<int>, sh: Shape, x: int, k: int, y: int)
    requires StoreOk(m, first, next, units, sh) && x in Pairs(m, sh.roles)
    requires InMemory(m, x) && CdrCode(Peek(m, x)) >= 8
    requires (k == 8 && y == 0) ||
             (8 < k < 16 && y == x + 2 * (k - 8) && y / 256 == x / 256 && y in Pairs(m, sh.roles))
    ensures StoreOk(m[x / 2 := WithCdrCode(m[x / 2], k)], first, next, units, sh)
    ensures Pairs(m[x / 2 := WithCdrCode(m[x / 2], k)], sh.roles)
         == Pairs(m, sh.roles)[x := (Pairs(m, sh.roles)[x].0, y)]
  {
    hide HeapOk, UnitsOk, Searched, CdrCode, CarField, WithCdrCode, Pairs, CarOf, CdrOf, Becomes, IsOffset;
    HandleIsLive(m, first, sh, x);
    HandleIsLive(m, first, sh, y);
    NotSearched(m, first, next, units, sh, x / 256);
    CellFields(m[x / 2], k, 0, 0);
    var c := WithCdrCode(m[x / 2], k);
    OnPageIs(sh.roles, x, k, y);
    hide OnPageCode, OnPageCdr;
    CodeReplaced(m, first, sh, x, c);
    Settled(m, sh, m, first, next, units, sh, x / 256, m[x / 2 := c], sh, x, (CarOf(m, x), y));
  }

  lemma OnPageIs(roles: map<int, Role>, x: int, k: int, y: int)
    requires (k == 8 && y == 0) ||
             (8 < k && y == x + 2 * (k - 8) && y / 256 == x / 256 && y in roles && roles[y] == Live)
    ensures OnPageCode(roles, x, k) && OnPageCdr(x, k) == y
  {
  }

  // ---- a heap in which find_close_prior_cell misses a close cell ----

  /** One page in use, whose cells are all lists of one NIL but for the free cell at offset 8. */
  function OneFreeMemory(): (m: seq<Cell>)
    ensures |m| == 256 && forall a :: 0 <= a < 256 ==> m[a] == OneFreeCell(a)
  {
    seq(256, a requires 0 <= a < 256 => OneFreeCell(a))
  }

  /** The header, the link, the free cell; all other cells are coded CDR_NIL. */
  function OneFreeCell(a: int): Cell
  {
    if a == CellAt(1, 4) then 0x0108_0000 else if a == CellAt(1, 6) || a == CellAt(1, 8) then 0 else 0x8000_0000
  }

  function OneFreeShape(): Shape
  {
    Shape(map a | 256 <= a < 512 && IsOffset(a % 256) :: if a == 264 then Free else Live, map[1 := [8]], [1])
  }

  lemma OneFreeRoles()
    ensures RolesOk(OneFreeMemory(), OneFreeShape().roles)
  {
    var m, roles := OneFreeMemory(), OneFreeShape().roles;
    forall a | a in roles
      ensures InMemory(m, a)
    {
    }
    forall a | a in roles
      ensures CellOk(m, roles, a)
    {
      if a != 264 {
        assert a % 256 >= 8 && a >= 264;
        assert a / 2 > 132;
        assert m[a / 2] == OneFreeCell(a / 2);
      }
    }
  }

  lemma OneFreeHeap()
    ensures HeapOk(OneFreeMemory(), 1, OneFreeShape())
  {
    hide RolesOk;
    OneFreeRoles();
    var m, sh := OneFreeMemory(), OneFreeShape();
    assert m[CellAt(1, 4)] == 0x0108_0000 && m[CellAt(1, 8)] == 0 && m[CellAt(1, 6)] == 0;
    assert Chained(m, 1, [8]);
    forall a
      ensures a in sh.roles <==> a / 256 in sh.chains && IsOffset(a % 256)
    {
    }
    assert LinkedPage(m, sh.chains, sh.plist, 0);
  }

  /** In it the cons at offset 10 has a free cell close before it, and the search does not find it. */
  lemma PriorMissed()
    ensures HeapOk(OneFreeMemory(), 1, OneFreeShape())
    ensures 266 in OneFreeShape().roles && OneFreeShape().roles[266] == Live && OneFreeShape().chains == map[1 := [8]]
    ensures CloseBefore([8], 266 % 256) && !(14 <= 266 % 256 && CloseBefore([8], 266 % 256))
  {
    hide HeapOk;
    OneFreeHeap();
    assert 8 in [8] && 8 < 10 <= 8 + 14;
  }
}
