/** Carving a unit of storage into objects threaded on a free list (src/allocmds.c). */
module MdsPage {
  import opened Memory

  /** A 16-bit word; pointers take two, the high one first. */
  type DLword = x: int | 0 <= x < 65536

  const DLWORDSPER_PAGE := 256
  const MDSINCREMENT := 512

  /** Objects of this size are carved page by page: what is left over at the end of a page is less than half an
      object. */
  predicate BySplitting(size: int)
    requires size > 0
  {
    DLWORDSPER_PAGE % size != 0 && DLWORDSPER_PAGE % size < size / 2 && size < DLWORDSPER_PAGE
  }

  /** How many objects a unit yields. */
  function Yield(size: int): int
    requires size > 0
  {
    if BySplitting(size) then 2 * (DLWORDSPER_PAGE / size) else MDSINCREMENT / size
  }

  /** The objects, in the order carved, lie one after the other, each within the unit, and within one page if split. */
  ghost predicate Carved(objs: seq<int>, base: int, size: int)
    requires size > 0
  {
    && (forall i :: 0 <= i < |objs| ==> base <= objs[i] && objs[i] + size <= base + MDSINCREMENT)
    && (forall i, j :: 0 <= i < j < |objs| ==> objs[i] + size <= objs[j])
    && (BySplitting(size) ==> forall i :: 0 <= i < |objs| ==> InOnePage(objs[i], base, size))
  }

  predicate InOnePage(obj: int, base: int, size: int)
  {
    obj + size <= base + DLWORDSPER_PAGE || base + DLWORDSPER_PAGE <= obj
  }

  /** The first two words of each object hold the address of the one before, that of the first `prev`; `last` is the
      end. */
  ghost predicate Threaded(mem: seq<DLword>, objs: seq<int>, prev: int, last: int)
  {
    && last == (if objs == [] then prev else objs[|objs| - 1])
    && forall i :: 0 <= i < |objs| ==> LinksBack(mem, objs, prev, i)
  }

  function PointerAt(mem: seq<DLword>, a: int): int
    requires 0 <= a && a + 1 < |mem|
  {
    mem[a] as int * 65536 + mem[a + 1] as int
  }

  function WithPointer(mem: seq<DLword>, a: int, p: Cell): (mem': seq<DLword>)
    requires 0 <= a && a + 1 < |mem|
    ensures |mem'| == |mem| && PointerAt(mem', a) == p
    ensures forall k :: 0 <= k < |mem| && k != a && k != a + 1 ==> mem'[k] == mem[k]
  {
    mem[a := p / 65536][a + 1 := p % 65536]
  }

  predicate LinksBack(mem: seq<DLword>, objs: seq<int>, prev: int, i: int)
    requires 0 <= i < |objs|
  {
    0 <= objs[i] && objs[i] + 1 < |mem| && PointerAt(mem, objs[i]) == if i == 0 then prev else objs[i - 1]
  }

  /** One more object behind all others. */
  lemma OneMore(mem: seq<DLword>, objs: seq<int>, prev: Cell, last: Cell, size: int, base: int, obj: int)
    requires size >= 2 && Carved(objs, base, size) && Threaded(mem, objs, prev, last)
    requires 0 <= base <= obj && obj + size <= base + MDSINCREMENT <= |mem|
    requires forall i :: 0 <= i < |objs| ==> objs[i] + size <= obj
    requires BySplitting(size) ==> InOnePage(obj, base, size)
    ensures Carved(objs + [obj], base, size) && Threaded(WithPointer(mem, obj, last), objs + [obj], prev, obj)
  {
    hide InOnePage, BySplitting, PointerAt;
    CarvedMore(objs, base, size, obj);
    OneMoreLink(mem, objs, prev, last, size, base, obj);
  }

  lemma CarvedMore(objs: seq<int>, base: int, size: int, obj: int)
    requires size > 0 && Carved(objs, base, size) && base <= obj && obj + size <= base + MDSINCREMENT
    requires forall i :: 0 <= i < |objs| ==> objs[i] + size <= obj
    requires BySplitting(size) ==> InOnePage(obj, base, size)
    ensures Carved(objs + [obj], base, size)
  {
    hide InOnePage, BySplitting;
  }

  lemma OneMoreLink(mem: seq<DLword>, objs: seq<int>, prev: Cell, last: Cell, size: int, base: int, obj: int)
    requires size >= 2 && Threaded(mem, objs, prev, last)
    requires 0 <= base <= obj && obj + size <= base + MDSINCREMENT <= |mem|
    requires forall i :: 0 <= i < |objs| ==> objs[i] + size <= obj
    ensures Threaded(WithPointer(mem, obj, last), objs + [obj], prev, obj)
  {
    var objs', mem' := objs + [obj], WithPointer(mem, obj, last);
    forall i | 0 <= i < |objs'|
      ensures LinksBack(mem', objs', prev, i)
    {
      if i < |objs| {
        assert LinksBack(mem, objs, prev, i);
      }
    }
  }

  /** All objects so far end before `at`. */
  ghost predicate Before(objs: seq<int>, size: int, at: int)
  {
    forall k :: 0 <= k < |objs| ==> objs[k] + size <= at
  }

  /** Nothing outside the unit has changed. */
  ghost predicate InUnit(m: seq<DLword>, m': seq<DLword>, base: int)
  {
    SameOutside(m, m', base, base + MDSINCREMENT)
  }

  lemma OneWrite(m: seq<DLword>, m': seq<DLword>, base: int, at: int, p: Cell)
    requires InUnit(m, m', base) && 0 <= base <= at && at + 2 <= base + MDSINCREMENT <= |m|
    ensures InUnit(m, WithPointer(m', at, p), base)
  {
  }

  lemma OneBefore(objs: seq<int>, size: int, at: int)
    requires Before(objs, size, at) && size > 0
    ensures Before(objs + [at], size, at + size)
  {
  }

  lemma Quotient(k: int, size: int, limit: int)
    requires size > 0 && k * size <= limit < (k + 1) * size
    ensures k == limit / size && limit - limit % size == k * size
  {
    var q, r := limit / size, limit % size;
    assert limit == q * size + r;
    if k < q {
      Multiples(k + 1, q, size);
    } else if k > q {
      Multiples(q + 1, k, size);
    }
  }

  lemma Multiples(a: int, b: int, size: int)
    requires a <= b && size > 0
    ensures a * size <= b * size
  {
  }

  /** "*base = prev" */
  method StorePointer(mem: array<DLword>, a: int, p: Cell)
    requires 0 <= a && a + 1 < mem.Length
    modifies mem
    ensures mem[..] == WithPointer(old(mem[..]), a, p)
  {
    mem[a] := p / 65536;
    mem[a + 1] := p % 65536;
  }

  /** The inner loop: objects from `at` while they fit in `limit` words. */
  method Carve(mem: array<DLword>, at: int, limit: int, size: int, prev0: Cell, prev: Cell, ghost objs0: seq<int>,
               ghost base: int)
    returns (last: Cell, at': int, ghost objs: seq<int>)
    requires 2 <= size && 0 <= base <= at
    requires at + limit <= base + MDSINCREMENT <= mem.Length && base + MDSINCREMENT < 0x1_0000_0000 && 0 <= limit
    requires BySplitting(size) ==> limit == DLWORDSPER_PAGE && (at == base || at == base + DLWORDSPER_PAGE)
    requires Carved(objs0, base, size) && Threaded(mem[..], objs0, prev0, prev) && Before(objs0, size, at)
    modifies mem
    ensures |objs| == |objs0| + limit / size && at' == at + limit - limit % size
    ensures Carved(objs, base, size) && Threaded(mem[..], objs, prev0, last) && Before(objs, size, at')
    ensures InUnit(old(mem[..]), mem[..], base)
  {
    hide Carved, Threaded, Before, InUnit, WithPointer;
    last, at', objs := prev, at, objs0;
    var used := size;
    ghost var k := 0;
    SameStart(mem[..], base);
    while used <= limit
      invariant 0 <= k && k * size == used - size <= limit && at' == at + used - size && |objs| == |objs0| + k
      invariant Carved(objs, base, size) && Threaded(mem[..], objs, prev0, last) && Before(objs, size, at')
      invariant InUnit(old(mem[..]), mem[..], base)
      decreases limit - used
    {
      BehindAll(objs, size, at');
      OneMore(mem[..], objs, prev0, last, size, base, at');
      OneWrite(old(mem[..]), mem[..], base, at', last);
      OneBefore(objs, size, at');
      StorePointer(mem, at', last);
      last := at';
      objs := objs + [at'];
      NextMultiple(k, size);
      at' := at' + size;
      used := used + size;
      k := k + 1;
    }
    NextMultiple(k, size);
    Quotient(k, size, limit);
  }

  lemma NextMultiple(k: int, size: int)
    ensures (k + 1) * size == k * size + size
  {
  }

  lemma SameStart(m: seq<DLword>, base: int)
    ensures InUnit(m, m, base)
  {
  }

  lemma SameTwice(m: seq<DLword>, m1: seq<DLword>, m2: seq<DLword>, base: int)
    requires InUnit(m, m1, base) && InUnit(m1, m2, base)
    ensures InUnit(m, m2, base)
  {
  }

  lemma BehindAll(objs: seq<int>, size: int, at: int)
    requires Before(objs, size, at)
    ensures forall i :: 0 <= i < |objs| ==> objs[i] + size <= at
  {
  }

  lemma NothingCarved(mem: seq<DLword>, base: int, size: int, prev: Cell)
    requires size > 0
    ensures Carved([], base, size) && Threaded(mem, [], prev, prev) && Before([], size, base)
  {
  }

  /** initmdspage: every object of the unit on the list, each once, and nothing outside the unit touched. */
  /** The free list as it lies in memory: the last object carved is its head, and the first two words of each hold the
      address of the one carved before it, the high word first. */
  lemma ThreadIs(mem: seq<DLword>, objs: seq<int>, prev: int, last: int)
    requires Threaded(mem, objs, prev, last)
    ensures last == if objs == [] then prev else objs[|objs| - 1]
    ensures forall i :: 0 <= i < |objs| ==> 0 <= objs[i] && objs[i] + 1 < |mem|
    ensures forall i :: 0 <= i < |objs| ==>
        mem[objs[i]] as int * 0x1_0000 + mem[objs[i] + 1] as int == if i == 0 then prev else objs[i - 1]
  {
    forall i | 0 <= i < |objs|
      ensures 0 <= objs[i] && objs[i] + 1 < |mem|
      ensures mem[objs[i]] as int * 0x1_0000 + mem[objs[i] + 1] as int == if i == 0 then prev else objs[i - 1]
    {
      assert LinksBack(mem, objs, prev, i);
    }
  }

  /** The number of objects carved and, when what is left over at the end of a page is less than half an object, that
      none crosses the end of the first page. */
  lemma YieldIs(objs: seq<int>, base: int, size: int)
    requires 2 <= size && |objs| == Yield(size) && Carved(objs, base, size)
    ensures |objs| == if 256 % size != 0 && 256 % size < size / 2 && size < 256 then 2 * (256 / size) else 512 / size
    ensures 256 % size != 0 && 256 % size < size / 2 && size < 256 ==>
        forall i :: 0 <= i < |objs| ==> objs[i] + size <= base + 256 || base + 256 <= objs[i]
  {
  }

  method InitMdsPage(mem: array<DLword>, base: int, size: int, prev: Cell) returns (last: Cell, ghost objs: seq<int>)
    requires 2 <= size && 0 <= base
    requires base + MDSINCREMENT <= mem.Length && base + MDSINCREMENT < 0x1_0000_0000
    modifies mem
    ensures |objs| == Yield(size) && Carved(objs, base, size) && Threaded(mem[..], objs, prev, last)
    ensures InUnit(old(mem[..]), mem[..], base)
  {
    hide Carved, Threaded, Before, InUnit, WithPointer;
    var remainSize := DLWORDSPER_PAGE % size;
    var numPages, limit;
    if remainSize != 0 && remainSize < size / 2 && size < DLWORDSPER_PAGE {
      numPages := MDSINCREMENT / DLWORDSPER_PAGE;
      limit := DLWORDSPER_PAGE;
    } else {
      numPages := 1;
      limit := MDSINCREMENT;
    }
    last, objs := prev, [];
    NothingCarved(mem[..], base, size, prev);
    SameStart(mem[..], base);
    var at := base;
    var i := 0;
    while i < numPages
      invariant 0 <= i <= numPages && (i < numPages ==> at == base + DLWORDSPER_PAGE * i)
      invariant |objs| == (if i == 0 then 0 else if i == 1 then limit / size else limit / size + limit / size)
      invariant Carved(objs, base, size) && Threaded(mem[..], objs, prev, last)
      invariant i < numPages ==> Before(objs, size, at)
      invariant InUnit(old(mem[..]), mem[..], base)
    {
      ghost var m := mem[..];
      last, at, objs := Carve(mem, at, limit, size, prev, last, objs, base);
      SameTwice(old(mem[..]), m, mem[..], base);
      LaterBefore(objs, size, at, at + remainSize);
      at := at + remainSize;
      i := i + 1;
    }
  }

  lemma LaterBefore(objs: seq<int>, size: int, at: int, later: int)
    requires Before(objs, size, at) && at <= later
    ensures Before(objs, size, later)
  {
  }
}
