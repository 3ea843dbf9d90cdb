/** What the cells of the cons heap mean: who owns them, and which pairs they represent
    (the cdr codes of inc/cell.h, as src/conspage.c and src/car-cdr.c use them). */
module ConsView {
  import opened Memory
  import opened ConsPage

  /** Every cell of every cons page plays one part. A target or a holder belongs to one cons. */
  datatype Role = Free | Live | Target(owner: int) | Holder(owner: int)

  // ---- reading cells by address ----

  predicate InMemory(m: seq<Cell>, a: int)
  {
    0 <= a < 0x1000_0000 && a % 2 == 0 && a / 2 < |m|
  }

  function Peek(m: seq<Cell>, a: int): Cell
    requires InMemory(m, a)
  {
    m[a / 2]
  }

  function Poke(m: seq<Cell>, i: int, v: Cell): (m': seq<Cell>)
    requires 0 <= i < |m|
    ensures |m'| == |m|
  {
    m[i := v]
  }

  ghost predicate Addressed(m: seq<Cell>, roles: map<int, Role>)
  {
    forall a :: a in roles ==> InMemory(m, a)
  }

  // ---- ownership ----

  /** Address `a` belongs to cons `x`. */
  ghost predicate Owned(roles: map<int, Role>, x: int, a: int)
    requires a in roles
  {
    a == x || roles[a] == Target(x) || roles[a] == Holder(x)
  }

  /** Where the cdr of `o` is held, for cdr codes 0 to 7. */
  function HeldAt(m: seq<Cell>, o: int): int
    requires InMemory(m, o)
  {
    var k := CdrCode(Peek(m, o));
    if k == 0 then
      var t := CarField(Peek(m, o));
      if InMemory(m, t) then t + 2 * CdrCode(Peek(m, t)) else -1
    else o + 2 * k
  }

  /** The cell at `a` is coded as its role says. */
  ghost predicate CellOk(m: seq<Cell>, roles: map<int, Role>, a: int)
    requires a in roles && Addressed(m, roles)
  {
    match roles[a]
    case Free => true
    case Live =>
      var k := CdrCode(Peek(m, a));
      if k == 0 then
        var t := CarField(Peek(m, a));
        && t in roles && roles[t] == Target(a) && 1 <= CdrCode(Peek(m, t)) <= 7
        && t + 2 * CdrCode(Peek(m, t)) in roles && roles[t + 2 * CdrCode(Peek(m, t))] == Holder(a)
      else if k <= 7 then a + 2 * k in roles && roles[a + 2 * k] == Holder(a)
      else if k == 8 then true
      else a + 2 * (k - 8) in roles && roles[a + 2 * (k - 8)] == Live && (a + 2 * (k - 8)) / 256 == a / 256
    case Target(o) =>
      o in roles && roles[o] == Live && CdrCode(Peek(m, o)) == 0 && CarField(Peek(m, o)) == a
    case Holder(o) =>
      o in roles && roles[o] == Live && CdrCode(Peek(m, o)) <= 7 && HeldAt(m, o) == a
  }

  ghost predicate RolesOk(m: seq<Cell>, roles: map<int, Role>)
  {
    Addressed(m, roles) && forall a :: a in roles ==> CellOk(m, roles, a)
  }

  // ---- the pair a cons represents ----

  function CarOf(m: seq<Cell>, a: int): int
    requires InMemory(m, a)
  {
    if CdrCode(Peek(m, a)) == 0 && InMemory(m, CarField(Peek(m, a))) then CarField(Peek(m, CarField(Peek(m, a))))
    else CarField(Peek(m, a))
  }

  function CdrOf(m: seq<Cell>, a: int): int
    requires InMemory(m, a)
  {
    var k := CdrCode(Peek(m, a));
    if k == 8 then 0
    else if k > 8 then a + 2 * (k - 8)
    else if InMemory(m, HeldAt(m, a)) then CarField(Peek(m, HeldAt(m, a))) else 0
  }

  /** The abstract heap: a map from cons handles to pairs. */
  ghost function Pairs(m: seq<Cell>, roles: map<int, Role>): map<int, (int, int)>
    requires Addressed(m, roles)
  {
    map a | a in roles && roles[a] == Live :: (CarOf(m, a), CdrOf(m, a))
  }

  // ---- changing one cons ----

  /** Everything but `x`, what it owns and free cells is as it was; what changed is free or belongs to `x`. */
  ghost predicate OnlyChanges(m: seq<Cell>, roles: map<int, Role>, m': seq<Cell>, roles': map<int, Role>, x: int)
    requires Addressed(m, roles)
  {
    && |m'| == |m| && roles'.Keys == roles.Keys && x in roles
    && roles'[x] == Live
    && (roles[x] == Free || roles[x] == Live)
    && (forall a :: a in roles && roles[a] != Free && !Owned(roles, x, a) ==>
          Peek(m', a) == Peek(m, a) && roles'[a] == roles[a])
    && (forall a :: a in roles && (roles[a] == Free || Owned(roles, x, a)) ==> roles'[a] == Free || Owned(roles', x, a))
  }

  /** If `x` and what it owns are rightly coded afterwards, the whole heap is, and only the pair at `x` has changed. */
  lemma OneChanges(m: seq<Cell>, roles: map<int, Role>, m': seq<Cell>, roles': map<int, Role>, x: int)
    requires RolesOk(m, roles) && OnlyChanges(m, roles, m', roles', x)
    requires forall a :: a in roles' && Owned(roles', x, a) ==> CellOk(m', roles', a)
    ensures RolesOk(m', roles')
    ensures Pairs(m', roles') == Pairs(m, roles)[x := (CarOf(m', x), CdrOf(m', x))]
  {
    hide CarOf, CdrOf, Pairs, CellOk;
    forall a | a in roles'
      ensures CellOk(m', roles', a)
    {
      if roles'[a] == Free {
        FreeOk(m', roles', a);
      } else if !Owned(roles', x, a) {
        OthersKept(m, roles, m', roles', x, a);
      }
    }
    PairsKept(m, roles, m', roles', x);
  }

  lemma FreeOk(m: seq<Cell>, roles: map<int, Role>, a: int)
    requires a in roles && Addressed(m, roles) && roles[a] == Free
    ensures CellOk(m, roles, a)
  {
  }

  lemma CellOkAt(m: seq<Cell>, roles: map<int, Role>, a: int)
    requires RolesOk(m, roles) && a in roles
    ensures Addressed(m, roles) && CellOk(m, roles, a)
  {
    hide CellOk;
  }

  lemma AddressedSame(m: seq<Cell>, roles: map<int, Role>)
    requires RolesOk(m, roles)
    ensures Addressed(m, roles)
  {
  }

  lemma AddressedAfter(m: seq<Cell>, roles: map<int, Role>, m': seq<Cell>, roles': map<int, Role>)
    requires Addressed(m, roles) && |m'| == |m| && roles'.Keys == roles.Keys
    ensures Addressed(m', roles')
  {
  }

  lemma PairsKept(m: seq<Cell>, roles: map<int, Role>, m': seq<Cell>, roles': map<int, Role>, x: int)
    requires RolesOk(m, roles) && OnlyChanges(m, roles, m', roles', x)
    ensures Addressed(m', roles')
    ensures Pairs(m', roles') == Pairs(m, roles)[x := (CarOf(m', x), CdrOf(m', x))]
  {
    hide CarOf, CdrOf, RolesOk, Peek;
    AddressedSame(m, roles);
    AddressedAfter(m, roles, m', roles');
    forall a | a in roles && roles[a] != Free && a != x && !Owned(roles, x, a)
      ensures roles'[a] == roles[a]
      ensures roles[a] == Live ==> CarOf(m', a) == CarOf(m, a) && CdrOf(m', a) == CdrOf(m, a)
    {
      OthersKept(m, roles, m', roles', x, a);
    }
    var p, p' := Pairs(m, roles)[x := (CarOf(m', x), CdrOf(m', x))], Pairs(m', roles');
    forall a | a in roles
      ensures a in p <==> a in p'
      ensures a in p ==> p[a] == p'[a]
    {
    }
    assert p.Keys == p'.Keys;
  }

  /** A cell that does not belong to `x` keeps its role, its coding and its pair. */
  lemma OthersKept(m: seq<Cell>, roles: map<int, Role>, m': seq<Cell>, roles': map<int, Role>, x: int, a: int)
    requires RolesOk(m, roles) && OnlyChanges(m, roles, m', roles', x)
    requires a in roles && a != x && roles[a] != Free && !Owned(roles, x, a)
    ensures roles'[a] == roles[a] && CellOk(m', roles', a)
    ensures roles[a] == Live ==> CarOf(m', a) == CarOf(m, a) && CdrOf(m', a) == CdrOf(m, a)
  {
    hide CdrCode, CarField, Peek, RolesOk;
    CellOkAt(m, roles, a);
    assert Peek(m', a) == Peek(m, a);
    match roles[a]
    case Live =>
      var k := CdrCode(Peek(m, a));
      if k == 0 {
        var t := CarField(Peek(m, a));
        assert Peek(m', t) == Peek(m, t);
        var h := t + 2 * CdrCode(Peek(m, t));
        assert Peek(m', h) == Peek(m, h);
      } else if k <= 7 {
        var h := a + 2 * k;
        assert Peek(m', h) == Peek(m, h);
      }
    case Target(o) =>
      assert Peek(m', o) == Peek(m, o);
    case Holder(o) =>
      CellOkAt(m, roles, o);
      assert Peek(m', o) == Peek(m, o);
      if CdrCode(Peek(m, o)) == 0 {
        var t := CarField(Peek(m, o));
        assert Peek(m', t) == Peek(m, t);
      }
  }

  // ---- the eight ways the heap changes ----

  /** Cells that are not free keep their contents, `x` perhaps excepted. */
  ghost predicate LiveKept(m: seq<Cell>, m': seq<Cell>, roles: map<int, Role>, x: int)
    requires Addressed(m, roles)
  {
    |m'| == |m| && forall a :: a in roles && roles[a] != Free && a != x ==> Peek(m', a) == Peek(m, a)
  }

  lemma FreeOwnsNothing(m: seq<Cell>, roles: map<int, Role>, x: int)
    requires RolesOk(m, roles) && x in roles
    requires roles[x] == Free || CdrCode(Peek(m, x)) >= 8
    ensures forall a :: a in roles && Owned(roles, x, a) ==> a == x
  {
    hide CdrCode, CarField;
    forall a | a in roles && Owned(roles, x, a)
      ensures a == x
    {
      assert CellOk(m, roles, a);
    }
  }

  /** A free cell becomes a cons whose cdr is NIL or a later cons of its page. */
  lemma NewCons(m: seq<Cell>, roles: map<int, Role>, m': seq<Cell>, x: int)
    requires RolesOk(m, roles) && x in roles && roles[x] == Free && LiveKept(m, m', roles, x)
    requires var k := CdrCode(Peek(m', x));
      k == 8 || (8 < k && x + 2 * (k - 8) in roles && roles[x + 2 * (k - 8)] == Live &&
          (x + 2 * (k - 8)) / 256 == x / 256)
    ensures RolesOk(m', roles[x := Live])
    ensures var k := CdrCode(Peek(m', x));
      Pairs(m', roles[x := Live])
          == Pairs(m, roles)[x := (CarField(Peek(m', x)), if k == 8 then 0 else x + 2 * (k - 8))]
  {
    hide CdrCode, CarField, Pairs, RolesOk;
    FreeOwnsNothing(m, roles, x);
    AddressedSame(m, roles);
    OneChanges(m, roles, m', roles[x := Live], x);
  }

  /** Two free cells become a cons and the holder of its cdr. */
  lemma NewPair(m: seq<Cell>, roles: map<int, Role>, m': seq<Cell>, x: int, h: int)
    requires RolesOk(m, roles) && x in roles && roles[x] == Free && h in roles && roles[h] == Free
    requires LiveKept(m, m', roles, x)
    requires 1 <= CdrCode(Peek(m', x)) <= 7 && h == x + 2 * CdrCode(Peek(m', x))
    ensures RolesOk(m', roles[x := Live][h := Holder(x)])
    ensures Pairs(m', roles[x := Live][h := Holder(x)])
        == Pairs(m, roles)[x := (CarField(Peek(m', x)), CarField(Peek(m', h)))]
  {
    hide CdrCode, CarField, Pairs, RolesOk;
    FreeOwnsNothing(m, roles, x);
    AddressedSame(m, roles);
    OneChanges(m, roles, m', roles[x := Live][h := Holder(x)], x);
  }

  /** The cell that holds the car of `x`. */
  function CarAt(m: seq<Cell>, x: int): int
    requires InMemory(m, x)
  {
    if CdrCode(Peek(m, x)) == 0 then CarField(Peek(m, x)) else x
  }

  /** Storing a car. */
  lemma SetCar(m: seq<Cell>, roles: map<int, Role>, m': seq<Cell>, x: int, c: int)
    requires RolesOk(m, roles) && x in roles && roles[x] == Live
    requires c == CarAt(m, x) && c in roles && LiveKept(m, m', roles, c)
    requires CdrCode(Peek(m', c)) == CdrCode(Peek(m, c))
    ensures RolesOk(m', roles)
    ensures Pairs(m', roles) == Pairs(m, roles)[x := (CarField(Peek(m', c)), CdrOf(m, x))]
  {
    hide CdrCode, CarField, Pairs, RolesOk, CarOf, CdrOf;
    AddressedSame(m, roles);
    AddressedAfter(m, roles, m', roles);
    HeldCells(m, roles, x);
    forall a | a in roles && Owned(roles, x, a)
      ensures CellOk(m', roles, a)
    {
      CarSetOk(m, roles, m', x, c, a);
    }
    OneChanges(m, roles, m', roles, x);
    CarSetRead(m, roles, m', x, c);
  }

  lemma CarSetOk(m: seq<Cell>, roles: map<int, Role>, m': seq<Cell>, x: int, c: int, a: int)
    requires RolesOk(m, roles) && x in roles && roles[x] == Live
    requires c == CarAt(m, x) && c in roles && LiveKept(m, m', roles, c) && Addressed(m', roles)
    requires CdrCode(Peek(m', c)) == CdrCode(Peek(m, c))
    requires a in roles && Owned(roles, x, a)
    ensures CellOk(m', roles, a)
  {
    hide CdrCode, CarField, RolesOk;
    HeldCells(m, roles, x);
    CellOkAt(m, roles, x);
    CellOkAt(m, roles, a);
  }

  lemma CarSetRead(m: seq<Cell>, roles: map<int, Role>, m': seq<Cell>, x: int, c: int)
    requires RolesOk(m, roles) && x in roles && roles[x] == Live
    requires c == CarAt(m, x) && c in roles && LiveKept(m, m', roles, c) && Addressed(m', roles)
    requires CdrCode(Peek(m', c)) == CdrCode(Peek(m, c))
    ensures CarOf(m', x) == CarField(Peek(m', c)) && CdrOf(m', x) == CdrOf(m, x)
  {
    hide CdrCode, CarField, RolesOk;
    AddressedSame(m, roles);
    HeldCells(m, roles, x);
  }

  /** The cells of one cons are different cells. */
  lemma HeldCells(m: seq<Cell>, roles: map<int, Role>, x: int)
    requires RolesOk(m, roles) && x in roles && roles[x] == Live
    ensures CdrCode(Peek(m, x)) <= 7 ==> HeldAt(m, x) in roles && roles[HeldAt(m, x)] == Holder(x) && HeldAt(m, x) != x
    ensures CdrCode(Peek(m, x)) == 0 ==> CarAt(m, x) in roles && roles[CarAt(m, x)] == Target(x)
  {
    hide CdrCode, CarField;
    assert CellOk(m, roles, x);
  }

  /** Storing a cdr where it is held. */
  lemma SetHeld(m: seq<Cell>, roles: map<int, Role>, m': seq<Cell>, x: int, h: int)
    requires RolesOk(m, roles) && x in roles && roles[x] == Live && CdrCode(Peek(m, x)) <= 7
    requires h == HeldAt(m, x) && h in roles && LiveKept(m, m', roles, h)
    ensures RolesOk(m', roles)
    ensures Pairs(m', roles) == Pairs(m, roles)[x := (CarOf(m, x), CarField(Peek(m', h)))]
  {
    hide CdrCode, CarField, Pairs, RolesOk;
    AddressedSame(m, roles);
    AddressedAfter(m, roles, m', roles);
    HeldCells(m, roles, x);
    forall a | a in roles && Owned(roles, x, a)
      ensures CellOk(m', roles, a)
    {
      HeldSetOk(m, roles, m', x, h, a);
    }
    OneChanges(m, roles, m', roles, x);
  }

  lemma HeldSetOk(m: seq<Cell>, roles: map<int, Role>, m': seq<Cell>, x: int, h: int, a: int)
    requires RolesOk(m, roles) && x in roles && roles[x] == Live && CdrCode(Peek(m, x)) <= 7
    requires h == HeldAt(m, x) && h in roles && LiveKept(m, m', roles, h) && Addressed(m', roles)
    requires a in roles && Owned(roles, x, a)
    ensures CellOk(m', roles, a)
  {
    hide CdrCode, CarField, RolesOk;
    HeldCells(m, roles, x);
    CellOkAt(m, roles, x);
    CellOkAt(m, roles, a);
  }

  /** Giving a cons with an on-page cdr another on-page cdr. */
  lemma SetCode(m: seq<Cell>, roles: map<int, Role>, m': seq<Cell>, x: int)
    requires RolesOk(m, roles) && x in roles && roles[x] == Live && CdrCode(Peek(m, x)) >= 8
    requires LiveKept(m, m', roles, x)
    requires CarField(Peek(m', x)) == CarField(Peek(m, x))
    requires var k := CdrCode(Peek(m', x));
      k == 8 || (8 < k && x + 2 * (k - 8) in roles && roles[x + 2 * (k - 8)] == Live &&
          (x + 2 * (k - 8)) / 256 == x / 256)
    ensures RolesOk(m', roles)
    ensures var k := CdrCode(Peek(m', x));
      Pairs(m', roles) == Pairs(m, roles)[x := (CarOf(m, x), if k == 8 then 0 else x + 2 * (k - 8))]
  {
    hide CdrCode, CarField, Pairs, RolesOk;
    FreeOwnsNothing(m, roles, x);
    AddressedSame(m, roles);
    AddressedAfter(m, roles, m', roles);
    OneChanges(m, roles, m', roles, x);
  }

  /** Giving a cons with an on-page cdr a free cell to hold its cdr. */
  lemma AddHolder(m: seq<Cell>, roles: map<int, Role>, m': seq<Cell>, x: int, h: int)
    requires RolesOk(m, roles) && x in roles && roles[x] == Live && CdrCode(Peek(m, x)) >= 8
    requires h in roles && roles[h] == Free && LiveKept(m, m', roles, x)
    requires 1 <= CdrCode(Peek(m', x)) <= 7 && h == x + 2 * CdrCode(Peek(m', x))
    requires CarField(Peek(m', x)) == CarField(Peek(m, x))
    ensures RolesOk(m', roles[h := Holder(x)])
    ensures Pairs(m', roles[h := Holder(x)]) == Pairs(m, roles)[x := (CarOf(m, x), CarField(Peek(m', h)))]
  {
    hide CdrCode, CarField, Pairs, RolesOk;
    FreeOwnsNothing(m, roles, x);
    AddressedSame(m, roles);
    OneChanges(m, roles, m', roles[h := Holder(x)], x);
  }

  /** Moving a cons with an on-page cdr out to two free cells elsewhere. */
  lemma GoIndirect(m: seq<Cell>, roles: map<int, Role>, m': seq<Cell>, x: int, t: int, h: int)
    requires RolesOk(m, roles) && x in roles && roles[x] == Live && CdrCode(Peek(m, x)) >= 8
    requires t in roles && roles[t] == Free && h in roles && roles[h] == Free && LiveKept(m, m', roles, x)
    requires CdrCode(Peek(m', x)) == 0 && CarField(Peek(m', x)) == t
    requires 1 <= CdrCode(Peek(m', t)) <= 7 && h == t + 2 * CdrCode(Peek(m', t))
    requires CarField(Peek(m', t)) == CarField(Peek(m, x))
    ensures RolesOk(m', roles[t := Target(x)][h := Holder(x)])
    ensures Pairs(m', roles[t := Target(x)][h := Holder(x)])
        == Pairs(m, roles)[x := (CarOf(m, x), CarField(Peek(m', h)))]
  {
    hide CdrCode, CarField, Pairs, RolesOk;
    FreeOwnsNothing(m, roles, x);
    AddressedSame(m, roles);
    OneChanges(m, roles, m', roles[t := Target(x)][h := Holder(x)], x);
  }

  // ---- the cells a cons is made of ----

  /** The cons cell, the cell its car was moved out to, and the cell its cdr is held in. */
  function ConsCells(m: seq<Cell>, x: int): set<int>
    requires InMemory(m, x)
  {
    {x} + (if CdrCode(Peek(m, x)) == 0 then {CarAt(m, x)} else {})
        + (if CdrCode(Peek(m, x)) <= 7 then {HeldAt(m, x)} else {})
  }

  ghost predicate PartOf(m: seq<Cell>, roles: map<int, Role>, a: int, x: int)
  {
    x in roles && roles[x] == Live && InMemory(m, x) && a in ConsCells(m, x)
  }

  /** The cells of a cons are those that belong to it. */
  lemma CellsAreOwned(m: seq<Cell>, roles: map<int, Role>, x: int)
    requires RolesOk(m, roles) && x in roles && roles[x] == Live
    ensures InMemory(m, x)
    ensures forall a :: a in ConsCells(m, x) <==> a in roles && Owned(roles, x, a)
  {
    hide CdrCode, CarField;
    HeldCells(m, roles, x);
    forall a | a in roles && Owned(roles, x, a)
      ensures a in ConsCells(m, x)
    {
      assert CellOk(m, roles, a);
    }
  }

  /** Every cell in use belongs to exactly one cons. */
  lemma CellsPartitioned(m: seq<Cell>, roles: map<int, Role>, a: int)
    requires RolesOk(m, roles) && a in roles && roles[a] != Free
    ensures exists x :: PartOf(m, roles, a, x)
    ensures forall x, y :: PartOf(m, roles, a, x) && PartOf(m, roles, a, y) ==> x == y
  {
    hide CdrCode, CarField, HeldAt, ConsCells;
    var o := if roles[a] == Live then a else roles[a].owner;
    assert CellOk(m, roles, a);
    CellsAreOwned(m, roles, o);
    assert PartOf(m, roles, a, o);
    forall x | PartOf(m, roles, a, x)
      ensures x == o
    {
      CellsAreOwned(m, roles, x);
    }
  }
}
