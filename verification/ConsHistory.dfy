/** Any history of list operations: the cell heap behaves as a store of pairs that never run into each other. */
module ConsHistory {
  import opened Memory
  import opened ConsPage
  import opened ConsView
  import opened ConsSteps
  import opened ConsHeap

  /** A value of the abstract machine: an atom, or the pair made by the `i`th cons. */
  datatype Val = Atom(n: int) | Ref(i: nat)

  /** An operand: an atom, or the result of an earlier operation. */
  datatype Arg = Const(n: int) | Reg(k: nat)

  datatype Op =
    | OpCons(x: Arg, y: Arg)
    | OpCar(x: Arg)
    | OpCdr(x: Arg)
    | OpRplaca(x: Arg, y: Arg)
    | OpRplacd(x: Arg, y: Arg)

  /** The pairs made so far, the results so far, and whether no operation has failed. */
  datatype Machine = Machine(store: seq<(Val, Val)>, regs: seq<Val>, ok: bool)

  function Eval(s: Machine, a: Arg): Val
  {
    match a
    case Const(n) => Atom(n)
    case Reg(k) => if k < |s.regs| then s.regs[k] else Atom(NIL)
  }

  predicate Known(s: Machine, v: Val)
  {
    v.Ref? && v.i < |s.store|
  }

  function Answer(s: Machine, v: Val): Machine
  {
    s.(regs := s.regs + [v])
  }

  /** rplaca and rplacd of something that is not a pair: NIL may be given NIL. */
  function Refuse(s: Machine, x: Val, y: Val): Machine
  {
    if x == Atom(NIL) && y == Atom(NIL) then Answer(s, Atom(NIL)) else s.(ok := false)
  }

  /** What Lisp says the operations do. */
  function Step(s: Machine, op: Op): Machine
  {
    if !s.ok then s else
    match op
    case OpCons(x, y) =>
      Answer(s.(store := s.store + [(Eval(s, x), Eval(s, y))]), Ref(|s.store|))
    case OpCar(x) =>
      var v := Eval(s, x);
      if Known(s, v) then Answer(s, s.store[v.i].0)
      else if v == Atom(ATOM_T) then Answer(s, v)
      else if v.Atom? && 0 <= v.n < 65536 then Answer(s, Atom(NIL))
      else s.(ok := false)
    case OpCdr(x) =>
      var v := Eval(s, x);
      if Known(s, v) then Answer(s, s.store[v.i].1)
      else if v == Atom(NIL) then Answer(s, Atom(NIL))
      else s.(ok := false)
    case OpRplaca(x, y) =>
      var v, w := Eval(s, x), Eval(s, y);
      if Known(s, v) then Answer(s.(store := s.store[v.i := (w, s.store[v.i].1)]), v) else Refuse(s, v, w)
    case OpRplacd(x, y) =>
      var v, w := Eval(s, x), Eval(s, y);
      if Known(s, v) then Answer(s.(store := s.store[v.i := (s.store[v.i].0, w)]), v) else Refuse(s, v, w)
  }

  function Run(s: Machine, ops: seq<Op>): Machine
  {
    if ops == [] then s else Step(Run(s, ops[..|ops| - 1]), ops[|ops| - 1])
  }

  const START := Machine([], [], true)

  // ---- the heap that represents a machine ----

  /** The word that stands for a value, given the handles of the pairs. */
  function Word(handles: seq<int>, v: Val): int
  {
    match v
    case Atom(n) => n
    case Ref(i) => if i < |handles| then handles[i] else NIL
  }

  /** The storage a history may use for lists: the units that are lists when it starts, and those carved downwards from
      page `top` to above page `low`. */
  datatype Region = Region(units: set<int>, low: int, top: int)

  predicate Listable(rg: Region, n: int)
  {
    n / 512 in rg.units || rg.low < 2 * (n / 512) <= rg.top
  }

  /** Any 28-bit word that is no list, and will not become one, is an atom: a symbol, a small integer, any other
      pointer. */
  predicate IsAtom(rg: Region, n: int)
  {
    0 <= n < 0x1000_0000 && !Listable(rg, n)
  }

  ghost predicate Within(rg: Region, next: int, units: set<int>)
  {
    && 0 <= rg.low && 0 !in rg.units && next <= rg.top
    && forall u :: u in units ==> u in rg.units || rg.low < 2 * u <= rg.top
  }

  lemma WithinNext(rg: Region, next: int, units: set<int>, next': int, units': set<int>)
    requires Within(rg, next, units) && OneUnit(next, units, next', units') && rg.low < next && next % 2 == 0
    ensures Within(rg, next', units')
  {
  }

  predicate Sound(rg: Region, s: Machine, v: Val)
  {
    match v
    case Atom(n) => IsAtom(rg, n)
    case Ref(i) => i < |s.store|
  }

  ghost predicate SoundMachine(rg: Region, s: Machine)
  {
    && (forall k :: 0 <= k < |s.regs| ==> Sound(rg, s, s.regs[k]))
    && (forall i :: 0 <= i < |s.store| ==> Sound(rg, s, s.store[i].0) && Sound(rg, s, s.store[i].1))
  }

  /** The heap holds the pairs of the machine at distinct new handles, and what it held before. */
  ghost predicate Represents(was: map<int, (int, int)>, now: map<int, (int, int)>, handles: seq<int>, s: Machine)
  {
    && |handles| == |s.store| && Distinct(handles)
    && (forall i :: 0 <= i < |handles| ==> Holds(now, handles, s, i) && handles[i] !in was)
    && (forall h :: h in was ==> h in now && now[h] == was[h])
    && (forall h :: h in now ==> h in was || h in handles)
  }

  ghost predicate Holds(now: map<int, (int, int)>, handles: seq<int>, s: Machine, i: int)
    requires 0 <= i < |handles| == |s.store|
  {
    handles[i] in now && now[handles[i]] == (Word(handles, s.store[i].0), Word(handles, s.store[i].1))
  }

  ghost predicate SameWords(handles: seq<int>, regs: seq<int>, s: Machine)
  {
    |regs| == |s.regs| && forall k :: 0 <= k < |regs| ==> regs[k] == Word(handles, s.regs[k])
  }

  lemma ConsRepresents(rg: Region, was: map<int, (int, int)>, now: map<int, (int, int)>, handles: seq<int>, s: Machine,
                       a: Val, d: Val, r: int)
    requires Represents(was, now, handles, s) && SoundMachine(rg, s) && Sound(rg, s, a) && Sound(rg, s, d) && r !in now
    ensures var s' := s.(store := s.store + [(a, d)]);
      Represents(was, now[r := (Word(handles, a), Word(handles, d))], handles + [r], s')
  {
    hide Sound, Word;
    var now', handles', s' := now[r := (Word(handles, a), Word(handles, d))], handles + [r],
        s.(store := s.store + [(a, d)]);
    forall i | 0 <= i < |handles'|
      ensures Holds(now', handles', s', i)
    {
      if i < |handles| {
        assert Holds(now, handles, s, i);
        SameWord(rg, handles, r, s, s.store[i].0);
        SameWord(rg, handles, r, s, s.store[i].1);
      } else {
        SameWord(rg, handles, r, s, a);
        SameWord(rg, handles, r, s, d);
      }
    }
    forall i | 0 <= i < |handles|
      ensures handles[i] != r
    {
      assert Holds(now, handles, s, i);
    }
    assert handles'[|handles|] == r;
    forall h | h in now'
      ensures h in was || h in handles'
    {
      assert h in handles ==> h in handles';
    }
  }

  lemma SameWord(rg: Region, handles: seq<int>, r: int, s: Machine, v: Val)
    requires |handles| == |s.store| && Sound(rg, s, v)
    ensures Word(handles + [r], v) == Word(handles, v)
  {
  }

  lemma SetRepresents(was: map<int, (int, int)>, now: map<int, (int, int)>, handles: seq<int>, s: Machine, i: int,
                      p: (Val, Val))
    requires Represents(was, now, handles, s) && 0 <= i < |s.store|
    ensures Represents(was, now[handles[i] := (Word(handles, p.0), Word(handles, p.1))], handles,
        s.(store := s.store[i := p]))
  {
    hide Word;
    var now', s' := now[handles[i] := (Word(handles, p.0), Word(handles, p.1))], s.(store := s.store[i := p]);
    forall j | 0 <= j < |handles|
      ensures Holds(now', handles, s', j)
    {
      assert Holds(now, handles, s, j);
    }
  }

  // ---- what the type table says of operands ----

  /** The heap tells references from atoms as the machine does. */
  lemma Operand(rg: Region, heap: Heap, was: map<int, (int, int)>, handles: seq<int>, s: Machine, v: Val)
    requires heap.Valid() && Within(rg, heap.nextMds, heap.listUnits) && Represents(was, heap.Contents(), handles, s)
    requires Sound(rg, s, v)
    ensures 0 <= Word(handles, v) < 0x1000_0000 && CarField(Word(handles, v)) == Word(handles, v)
    ensures heap.Listp(Word(handles, v)) <==> Known(s, v)
    ensures Known(s, v) ==> Word(handles, v) == handles[v.i] && Word(handles, v) in heap.Contents()
    ensures Word(handles, v) == NIL <==> v == Atom(NIL)
    ensures Word(handles, v) == ATOM_T <==> v == Atom(ATOM_T)
  {
    hide HeapOk, UnitsOk, Pairs, CarOf, CdrOf, Distinct;
    if v.Ref? {
      assert Holds(heap.Contents(), handles, s, v.i);
      ConsParts(heap.mem[..], heap.dtdNextpage, heap.nextMds, heap.listUnits, heap.shape, handles[v.i]);
    }
    SmallUnlisted(rg, heap.nextMds, heap.listUnits);
  }

  /** The first unit is never list storage: NIL, T and the other low symbols are atoms. */
  lemma SmallUnlisted(rg: Region, next: int, units: set<int>)
    requires Within(rg, next, units)
    ensures 0 !in units && IsAtom(rg, NIL) && IsAtom(rg, ATOM_T)
  {
  }

  predicate SoundArg(rg: Region, a: Arg)
  {
    a.Const? ==> IsAtom(rg, a.n)
  }

  predicate SoundOp(rg: Region, op: Op)
  {
    SoundArg(rg, op.x) && (op.OpCons? || op.OpRplaca? || op.OpRplacd? ==> SoundArg(rg, op.y))
  }

  /** The word of an operand. */
  function Fetch(regs: seq<int>, a: Arg): int
  {
    match a
    case Const(n) => n
    case Reg(k) => if k < |regs| then regs[k] else NIL
  }

  lemma FetchIsWord(rg: Region, handles: seq<int>, regs: seq<int>, s: Machine, a: Arg)
    requires SameWords(handles, regs, s) && SoundMachine(rg, s) && SoundArg(rg, a) && IsAtom(rg, NIL)
    ensures Fetch(regs, a) == Word(handles, Eval(s, a)) && Sound(rg, s, Eval(s, a))
  {
  }

  lemma AnswerSound(rg: Region, s: Machine, v: Val)
    requires SoundMachine(rg, s) && Sound(rg, s, v)
    ensures SoundMachine(rg, Answer(s, v))
  {
  }

  lemma AnswerWords(handles: seq<int>, regs: seq<int>, s: Machine, v: Val)
    requires SameWords(handles, regs, s)
    ensures SameWords(handles, regs + [Word(handles, v)], Answer(s, v))
  {
  }

  lemma MoreHandles(rg: Region, handles: seq<int>, regs: seq<int>, s: Machine, r: int, p: (Val, Val))
    requires SameWords(handles, regs, s) && SoundMachine(rg, s) && |handles| == |s.store|
    ensures SameWords(handles + [r], regs, s.(store := s.store + [p]))
  {
    forall k | 0 <= k < |regs|
      ensures regs[k] == Word(handles + [r], s.regs[k])
    {
      SameWord(rg, handles, r, s, s.regs[k]);
    }
  }

  lemma CarvedEvenly(heap: Heap)
    requires heap.Valid()
    ensures heap.nextMds % 2 == 0
  {
    hide HeapOk;
  }

  /** The heap and the registers stand for the machine. */
  ghost predicate Mirrors(rg: Region, heap: Heap, was: map<int, (int, int)>, handles: seq<int>, regs: seq<int>,
                          s: Machine)
    reads heap, heap.mem
  {
    && heap.Valid() && Within(rg, heap.nextMds, heap.listUnits)
    && Represents(was, heap.Contents(), handles, s) && SoundMachine(rg, s) && SameWords(handles, regs, s)
  }

  method DoCons(ghost rg: Region, heap: Heap, x: Arg, y: Arg, regs: seq<int>, ghost handles: seq<int>, ghost s: Machine,
                ghost was: map<int, (int, int)>)
    returns (r: int, ghost handles': seq<int>)
    requires Mirrors(rg, heap, was, handles, regs, s) && rg.low + 2 <= heap.nextMds && SoundArg(rg, x)
    requires SoundArg(rg, y) && s.ok
    modifies heap, heap.mem
    ensures old(heap.nextMds) - 2 <= heap.nextMds
    ensures Mirrors(rg, heap, was, handles', regs + [r], Step(s, OpCons(x, y)))
  {
    hide StoreOk, Pairs, Represents, SoundMachine, SameWords, Sound, Word, Eval, Fetch, CarField, IsAtom;
    ghost var a, d := Eval(s, x), Eval(s, y);
    SmallUnlisted(rg, heap.nextMds, heap.listUnits);
    FetchIsWord(rg, handles, regs, s, x);
    FetchIsWord(rg, handles, regs, s, y);
    Operand(rg, heap, was, handles, s, a);
    Operand(rg, heap, was, handles, s, d);
    ghost var now, next, units := heap.Contents(), heap.nextMds, heap.listUnits;
    CarvedEvenly(heap);
    r := heap.Cons(Fetch(regs, x), Fetch(regs, y));
    WithinNext(rg, next, units, heap.nextMds, heap.listUnits);
    handles' := handles + [r];
    ConsRepresents(rg, was, now, handles, s, a, d, r);
    ConsSound(rg, s, a, d);
    HandlesMatch(was, now, handles, s);
    MoreHandles(rg, handles, regs, s, r, (a, d));
    AnswerWords(handles', regs, s.(store := s.store + [(a, d)]), Ref(|s.store|));
    NewWord(handles, r, |s.store|);
    AnswerRepresents(was, heap.Contents(), handles', s.(store := s.store + [(a, d)]), Ref(|s.store|));
  }

  lemma HandlesMatch(was: map<int, (int, int)>, now: map<int, (int, int)>, handles: seq<int>, s: Machine)
    requires Represents(was, now, handles, s)
    ensures |handles| == |s.store|
  {
  }

  lemma NewWord(handles: seq<int>, r: int, n: nat)
    requires n == |handles|
    ensures Word(handles + [r], Ref(n)) == r
  {
  }

  lemma ConsSound(rg: Region, s: Machine, a: Val, d: Val)
    requires SoundMachine(rg, s) && Sound(rg, s, a) && Sound(rg, s, d)
    ensures SoundMachine(rg, Answer(s.(store := s.store + [(a, d)]), Ref(|s.store|)))
  {
  }

  lemma SetSound(rg: Region, s: Machine, i: nat, p: (Val, Val))
    requires SoundMachine(rg, s) && i < |s.store| && Sound(rg, s, p.0) && Sound(rg, s, p.1)
    ensures SoundMachine(rg, Answer(s.(store := s.store[i := p]), Ref(i)))
  {
  }

  lemma AnswerRepresents(was: map<int, (int, int)>, now: map<int, (int, int)>, handles: seq<int>, s: Machine, v: Val)
    requires Represents(was, now, handles, s)
    ensures Represents(was, now, handles, Answer(s, v))
  {
    hide Word, Distinct;
    var s' := Answer(s, v);
    forall i | 0 <= i < |handles|
      ensures Holds(now, handles, s', i)
    {
      assert Holds(now, handles, s, i);
    }
  }

  lemma HeldWords(rg: Region, was: map<int, (int, int)>, now: map<int, (int, int)>, handles: seq<int>, s: Machine,
                  i: nat)
    requires Represents(was, now, handles, s) && SoundMachine(rg, s) && i < |s.store|
    ensures i < |handles| && handles[i] in now
    ensures now[handles[i]] == (Word(handles, s.store[i].0), Word(handles, s.store[i].1))
    ensures Sound(rg, s, s.store[i].0) && Sound(rg, s, s.store[i].1)
  {
    hide Word, Distinct, Sound;
    assert Holds(now, handles, s, i);
  }

  lemma Answered(rg: Region, was: map<int, (int, int)>, now: map<int, (int, int)>, handles: seq<int>, regs: seq<int>,
                 s: Machine, v: Val)
    requires Represents(was, now, handles, s) && SoundMachine(rg, s) && SameWords(handles, regs, s) && Sound(rg, s, v)
    ensures var s' := Answer(s, v);
      Represents(was, now, handles, s') && SoundMachine(rg, s') && SameWords(handles, regs + [Word(handles, v)], s')
  {
    hide Represents, SoundMachine, SameWords, Sound, Word, Answer;
    AnswerRepresents(was, now, handles, s, v);
    AnswerSound(rg, s, v);
    AnswerWords(handles, regs, s, v);
  }

  method DoCar(ghost rg: Region, heap: Heap, x: Arg, regs: seq<int>, ghost handles: seq<int>, ghost s: Machine,
               ghost was: map<int, (int, int)>)
    returns (r: Result)
    requires Mirrors(rg, heap, was, handles, regs, s) && SoundArg(rg, x) && s.ok
    ensures r.Value? == Step(s, OpCar(x)).ok
    ensures Mirrors(rg, heap, was, handles, if r.Value? then regs + [r.value] else regs, Step(s, OpCar(x)))
  {
    hide StoreOk, Pairs, Represents, SoundMachine, SameWords, Eval, Fetch, CarField, Sound, Word;
    ghost var v := Eval(s, x);
    SmallUnlisted(rg, heap.nextMds, heap.listUnits);
    FetchIsWord(rg, handles, regs, s, x);
    Operand(rg, heap, was, handles, s, v);
    AtomWord(rg, handles, s, v);
    r := heap.Car(Fetch(regs, x));
    if Known(s, v) {
      HeldWords(rg, was, heap.Contents(), handles, s, v.i);
      Answered(rg, was, heap.Contents(), handles, regs, s, s.store[v.i].0);
    } else if v == Atom(ATOM_T) {
      Answered(rg, was, heap.Contents(), handles, regs, s, v);
    } else if v.n < 65536 {
      Answered(rg, was, heap.Contents(), handles, regs, s, Atom(NIL));
    } else {
      StopMirrors(rg, was, heap.Contents(), handles, regs, s);
    }
  }

  lemma AtomWord(rg: Region, handles: seq<int>, s: Machine, v: Val)
    requires Sound(rg, s, v)
    ensures !Known(s, v) ==> v.Atom? && Word(handles, v) == v.n && 0 <= v.n
    ensures forall n :: Word(handles, Atom(n)) == n
    ensures IsAtom(rg, NIL) ==> Sound(rg, s, Atom(NIL))
  {
  }

  method DoCdr(ghost rg: Region, heap: Heap, x: Arg, regs: seq<int>, ghost handles: seq<int>, ghost s: Machine,
               ghost was: map<int, (int, int)>)
    returns (r: Result)
    requires Mirrors(rg, heap, was, handles, regs, s) && SoundArg(rg, x) && s.ok
    ensures r.Value? == Step(s, OpCdr(x)).ok
    ensures Mirrors(rg, heap, was, handles, if r.Value? then regs + [r.value] else regs, Step(s, OpCdr(x)))
  {
    hide StoreOk, Pairs, Represents, SoundMachine, SameWords, Eval, Fetch, CarField;
    ghost var v := Eval(s, x);
    SmallUnlisted(rg, heap.nextMds, heap.listUnits);
    FetchIsWord(rg, handles, regs, s, x);
    Operand(rg, heap, was, handles, s, v);
    r := heap.Cdr(Fetch(regs, x));
    if Known(s, v) {
      HeldWords(rg, was, heap.Contents(), handles, s, v.i);
      Answered(rg, was, heap.Contents(), handles, regs, s, s.store[v.i].1);
    } else if v == Atom(NIL) {
      Answered(rg, was, heap.Contents(), handles, regs, s, v);
    } else {
      StopMirrors(rg, was, heap.Contents(), handles, regs, s);
    }
  }

  lemma StopMirrors(rg: Region, was: map<int, (int, int)>, now: map<int, (int, int)>, handles: seq<int>, regs: seq<int>,
                    s: Machine)
    requires Represents(was, now, handles, s) && SoundMachine(rg, s) && SameWords(handles, regs, s)
    ensures var s' := s.(ok := false);
      Represents(was, now, handles, s') && SoundMachine(rg, s') && SameWords(handles, regs, s')
  {
    hide Word, Distinct;
    var s' := s.(ok := false);
    forall i | 0 <= i < |handles|
      ensures Holds(now, handles, s', i)
    {
      assert Holds(now, handles, s, i);
    }
  }

  lemma Refused(rg: Region, was: map<int, (int, int)>, now: map<int, (int, int)>, handles: seq<int>, regs: seq<int>,
                s: Machine, v: Val, w: Val)
    requires Represents(was, now, handles, s) && SoundMachine(rg, s) && SameWords(handles, regs, s)
    requires IsAtom(rg, NIL)
    ensures var s' := Refuse(s, v, w);
      && Represents(was, now, handles, s') && SoundMachine(rg, s')
      && SameWords(handles, if v == Atom(NIL) && w == Atom(NIL) then regs + [NIL] else regs, s')
  {
    hide Represents, SoundMachine, SameWords;
    if v == Atom(NIL) && w == Atom(NIL) {
      Answered(rg, was, now, handles, regs, s, v);
    } else {
      StopMirrors(rg, was, now, handles, regs, s);
    }
  }

  /** A pair of the machine has changed, and the heap with it. */
  lemma PairSet(rg: Region, was: map<int, (int, int)>, now: map<int, (int, int)>, handles: seq<int>, regs: seq<int>,
                s: Machine, i: nat, p: (Val, Val))
    requires Represents(was, now, handles, s) && SoundMachine(rg, s) && SameWords(handles, regs, s) && i < |s.store|
    requires Sound(rg, s, p.0) && Sound(rg, s, p.1)
    ensures i < |handles|
    ensures var s' := Answer(s.(store := s.store[i := p]), Ref(i));
      && Represents(was, now[handles[i] := (Word(handles, p.0), Word(handles, p.1))], handles, s')
      && SoundMachine(rg, s') && SameWords(handles, regs + [handles[i]], s')
  {
    hide Represents, SoundMachine, Sound;
    HandlesMatch(was, now, handles, s);
    SetRepresents(was, now, handles, s, i, p);
    SetSound(rg, s, i, p);
    AnswerWords(handles, regs, s.(store := s.store[i := p]), Ref(i));
    AnswerRepresents(was, now[handles[i] := (Word(handles, p.0), Word(handles, p.1))], handles,
                     s.(store := s.store[i := p]), Ref(i));
  }

  method DoRplaca(ghost rg: Region, heap: Heap, x: Arg, y: Arg, regs: seq<int>, ghost handles: seq<int>,
                  ghost s: Machine, ghost was: map<int, (int, int)>)
    returns (r: Result)
    requires Mirrors(rg, heap, was, handles, regs, s) && SoundArg(rg, x) && SoundArg(rg, y) && s.ok
    modifies heap.mem, heap`shape
    ensures r.Value? == Step(s, OpRplaca(x, y)).ok
    ensures Mirrors(rg, heap, was, handles, if r.Value? then regs + [r.value] else regs, Step(s, OpRplaca(x, y)))
  {
    hide StoreOk, Pairs, Represents, SoundMachine, SameWords, Eval, Fetch, CarField, Sound, Word;
    ghost var v, w := Eval(s, x), Eval(s, y);
    SmallUnlisted(rg, heap.nextMds, heap.listUnits);
    FetchIsWord(rg, handles, regs, s, x);
    FetchIsWord(rg, handles, regs, s, y);
    Operand(rg, heap, was, handles, s, v);
    Operand(rg, heap, was, handles, s, w);
    ghost var now := heap.Contents();
    r := heap.Rplaca(Fetch(regs, x), Fetch(regs, y));
    if Known(s, v) {
      HeldWords(rg, was, now, handles, s, v.i);
      PairSet(rg, was, now, handles, regs, s, v.i, (w, s.store[v.i].1));
    } else {
      Refused(rg, was, now, handles, regs, s, v, w);
    }
  }

  method DoRplacd(ghost rg: Region, heap: Heap, x: Arg, y: Arg, regs: seq<int>, ghost handles: seq<int>,
                  ghost s: Machine, ghost was: map<int, (int, int)>)
    returns (r: Result)
    requires Mirrors(rg, heap, was, handles, regs, s) && rg.low + 2 <= heap.nextMds && SoundArg(rg, x)
    requires SoundArg(rg, y) && s.ok
    modifies heap, heap.mem
    ensures old(heap.nextMds) - 2 <= heap.nextMds
    ensures r.Value? == Step(s, OpRplacd(x, y)).ok
    ensures Mirrors(rg, heap, was, handles, if r.Value? then regs + [r.value] else regs, Step(s, OpRplacd(x, y)))
  {
    hide StoreOk, Pairs, Represents, SoundMachine, SameWords, Eval, Fetch, CarField, Sound, Word;
    ghost var v, w := Eval(s, x), Eval(s, y);
    SmallUnlisted(rg, heap.nextMds, heap.listUnits);
    FetchIsWord(rg, handles, regs, s, x);
    FetchIsWord(rg, handles, regs, s, y);
    Operand(rg, heap, was, handles, s, v);
    Operand(rg, heap, was, handles, s, w);
    ghost var now, next, units := heap.Contents(), heap.nextMds, heap.listUnits;
    CarvedEvenly(heap);
    r := heap.Rplacd(Fetch(regs, x), Fetch(regs, y));
    WithinNext(rg, next, units, heap.nextMds, heap.listUnits);
    if Known(s, v) {
      HeldWords(rg, was, now, handles, s, v.i);
      PairSet(rg, was, now, handles, regs, s, v.i, (s.store[v.i].0, w));
    } else {
      Refused(rg, was, now, handles, regs, s, v, w);
    }
  }

  /** One operation on the heap does what the machine does. */
  method Do(ghost rg: Region, heap: Heap, op: Op, regs: seq<int>, ghost handles: seq<int>, ghost s: Machine,
            ghost was: map<int, (int, int)>)
    returns (r: Result, ghost handles': seq<int>)
    requires Mirrors(rg, heap, was, handles, regs, s) && rg.low + 2 <= heap.nextMds && SoundOp(rg, op) && s.ok
    modifies heap, heap.mem
    ensures old(heap.nextMds) - 2 <= heap.nextMds
    ensures r.Value? == Step(s, op).ok
    ensures Mirrors(rg, heap, was, handles', if r.Value? then regs + [r.value] else regs, Step(s, op))
  {
    hide Mirrors, Step;
    handles' := handles;
    match op
    case OpCons(x, y) =>
      var c;
      c, handles' := DoCons(rg, heap, x, y, regs, handles, s, was);
      r := Value(c);
      ConsGoesOn(s, x, y);
    case OpCar(x) =>
      r := DoCar(rg, heap, x, regs, handles, s, was);
    case OpCdr(x) =>
      r := DoCdr(rg, heap, x, regs, handles, s, was);
    case OpRplaca(x, y) =>
      r := DoRplaca(rg, heap, x, y, regs, handles, s, was);
    case OpRplacd(x, y) =>
      r := DoRplacd(rg, heap, x, y, regs, handles, s, was);
  }

  lemma ConsGoesOn(s: Machine, x: Arg, y: Arg)
    ensures Step(s, OpCons(x, y)).ok == s.ok
  {
  }

  /** A history may start with nothing made. */
  lemma StartMirrors(heap: Heap, n: nat)
    requires heap.Valid() && 2 * n <= heap.nextMds
    ensures Mirrors(Region(heap.listUnits, heap.nextMds - 2 * n, heap.nextMds), heap, heap.Contents(), [], [], START)
  {
    hide HeapOk, Pairs;
  }

  /** Any history of list operations, until one fails, from any state that mirrors a machine: the heap, whatever else it
      holds, and the results are those of the machine. Constants are any words outside the list storage of the
      history. */
  method RunHistory(ghost rg: Region, heap: Heap, ops: seq<Op>, regs0: seq<int>, ghost handles0: seq<int>,
                    ghost s0: Machine, ghost was: map<int, (int, int)>)
    returns (regs: seq<int>, ok: bool, ghost handles: seq<int>)
    requires Mirrors(rg, heap, was, handles0, regs0, s0) && s0.ok && rg.low + 2 * |ops| <= heap.nextMds
    requires forall i :: 0 <= i < |ops| ==> SoundOp(rg, ops[i])
    modifies heap, heap.mem
    ensures ok == Run(s0, ops).ok
    ensures Mirrors(rg, heap, was, handles, regs, Run(s0, ops))
  {
    hide Step, SoundOp, Mirrors;
    regs, ok, handles := regs0, true, handles0;
    var n := 0;
    while n < |ops|
      invariant 0 <= n <= |ops| && rg.low + 2 * (|ops| - n) <= heap.nextMds
      invariant ok == Run(s0, ops[..n]).ok
      invariant Mirrors(rg, heap, was, handles, regs, Run(s0, ops[..n]))
    {
      assert ops[..n + 1][..n] == ops[..n];
      if ok {
        var r;
        r, handles := Do(rg, heap, ops[n], regs, handles, Run(s0, ops[..n]), was);
        if r.Value? {
          regs := regs + [r.value];
        } else {
          ok := false;
        }
      } else {
        StoppedStays(Run(s0, ops[..n]), ops[n]);
      }
      n := n + 1;
    }
    assert ops[..n] == ops;
  }

  lemma StoppedStays(s: Machine, op: Op)
    ensures !s.ok ==> Step(s, op) == s
  {
  }
}
