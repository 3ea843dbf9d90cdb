/** Integer arithmetic: the portable overflow tests, and numbers as immediate or boxed values (src/arithops.c,
    inc/arith.h). */
module Arith {
  const MIN_FIXP := -0x8000_0000
  const MAX_FIXP := 0x7FFF_FFFF

  predicate Fixp(x: int)
  {
    MIN_FIXP <= x <= MAX_FIXP
  }

  /** What 32-bit two's complement arithmetic makes of a result. */
  function Wrap(x: int): (r: int)
    ensures Fixp(r) && (r - x) % 0x1_0000_0000 == 0
  {
    (x + 0x8000_0000) % 0x1_0000_0000 - 0x8000_0000
  }

  /** Division as in C, towards zero. */
  function Quotient(a: int, b: int): int
    requires b != 0
  {
    if a >= 0 then a / b else -(-a / b)
  }

  // ---- the tests, on the wrapped result ----

  /** N_OP_plus2, N_OP_iplus2 */
  predicate PlusTrips(arg1: int, arg2: int)
  {
    var result := Wrap(arg1 + arg2);
    (arg1 >= 0) == (arg2 >= 0) && (result >= 0) != (arg1 >= 0)
  }

  /** N_OP_difference, N_OP_idifference */
  predicate DifferenceTrips(arg1: int, arg2: int)
  {
    var result := Wrap(arg1 - arg2);
    (arg1 >= 0) == (arg2 < 0) && (result >= 0) != (arg1 >= 0)
  }

  /** N_OP_times2, N_OP_itimes2 */
  predicate TimesTrips(arg1: int, arg2: int)
  {
    var result := Wrap(arg1 * arg2);
    arg2 != 0 && Quotient(result, arg2) != arg1
  }

  /** N_OP_iplusn */
  predicate PlusNTrips(arg1: int, n: int)
  {
    Wrap(arg1 + n) < 0 && arg1 >= 0
  }

  /** N_OP_idifferencen */
  predicate DifferenceNTrips(arg1: int, n: int)
  {
    Wrap(arg1 - n) >= 0 && arg1 < 0
  }

  lemma WrapIn(x: int)
    ensures Fixp(x) <==> Wrap(x) == x
  {
  }

  lemma PlusExact(a: int, b: int)
    requires Fixp(a) && Fixp(b)
    ensures PlusTrips(a, b) <==> !Fixp(a + b)
    ensures !PlusTrips(a, b) ==> Wrap(a + b) == a + b
  {
    WrapNear(a + b);
  }

  lemma DifferenceExact(a: int, b: int)
    requires Fixp(a) && Fixp(b)
    ensures DifferenceTrips(a, b) <==> !Fixp(a - b)
    ensures !DifferenceTrips(a, b) ==> Wrap(a - b) == a - b
  {
    WrapNear(a - b);
  }

  /** A result that is out by less than one turn comes back by exactly one. */
  lemma WrapNear(x: int)
    requires -0x1_8000_0000 <= x < 0x1_8000_0000
    ensures Wrap(x) == if Fixp(x) then x else if x > 0 then x - 0x1_0000_0000 else x + 0x1_0000_0000
  {
  }

  /** The quotient test, division taken exactly: it trips on overflow and on nothing else. */
  lemma TimesExact(a: int, b: int)
    requires Fixp(a) && Fixp(b)
    ensures TimesTrips(a, b) <==> !Fixp(a * b)
    ensures !TimesTrips(a, b) ==> Wrap(a * b) == a * b
  {
    hide Wrap, Quotient;
    var w := Wrap(a * b);
    WrapIn(a * b);
    if b == 0 {
    } else if Fixp(a * b) {
      QuotientOfProduct(a, b);
    } else {
      QuotientBounds(w, b);
      if Quotient(w, b) == a {
        Turns(w - a * b);
      }
    }
  }

  lemma QuotientOfProduct(a: int, b: int)
    requires b != 0
    ensures Quotient(a * b, b) == a
  {
    var p := a * b;
    if p >= 0 {
      assert p == a * b + 0;
      DivisionUnique(p, b, a, 0);
    } else {
      assert -p == (-a) * b + 0;
      DivisionUnique(-p, b, -a, 0);
    }
  }

  lemma DivisionUnique(p: int, b: int, q: int, r: int)
    requires b != 0 && p == q * b + r && 0 <= r < (if b > 0 then b else -b)
    ensures p / b == q && p % b == r
  {
    var q', r' := p / b, p % b;
    assert p == q' * b + r';
    assert (q - q') * b == r' - r;
    if q != q' {
      OneMultiple(q - q', b);
    }
  }

  lemma OneMultiple(k: int, b: int)
    requires k != 0
    ensures b > 0 ==> k * b >= b || k * b <= -b
    ensures b < 0 ==> k * b >= -b || k * b <= b
  {
  }

  lemma QuotientBounds(w: int, b: int)
    requires b != 0
    ensures var d := w - Quotient(w, b) * b;
      -(if b > 0 then b else -b) < d < (if b > 0 then b else -b)
  {
    if w >= 0 {
      assert w == w / b * b + w % b;
    } else {
      assert -w == -w / b * b + -w % b;
      assert Quotient(w, b) * b == -(-w / b * b);
    }
  }

  lemma Turns(d: int)
    requires d % 0x1_0000_0000 == 0 && -0x8000_0000 <= d <= 0x8000_0000
    ensures d == 0
  {
  }

  /** The one case where the test's own division has no 32-bit answer. */
  lemma TimesTestDefined(a: int, b: int)
    requires Fixp(a) && Fixp(b) && b != 0
    ensures Fixp(Quotient(Wrap(a * b), b)) <==> !(a == MIN_FIXP && b == -1)
  {
    hide Wrap;
    WrapIn(a * b);
    if b == -1 {
      WrapNegated(a);
    } else {
      QuotientSmaller(Wrap(a * b), b);
    }
  }

  lemma WrapNegated(a: int)
    requires Fixp(a)
    ensures Wrap(a * -1) == if a == MIN_FIXP then a else -a
    ensures forall w :: Quotient(w, -1) == -w
  {
    forall w
      ensures Quotient(w, -1) == -w
    {
    }
  }

  lemma QuotientSmaller(w: int, b: int)
    requires Fixp(w) && b != 0 && b != -1
    ensures Fixp(Quotient(w, b))
  {
    var m := if w >= 0 then w else -w;
    var q, r := m / b, m % b;
    assert m == q * b + r;
    if b == 1 {
      assert q == m;
    } else {
      HalfAtMost(q, b, m, r);
    }
  }

  lemma HalfAtMost(q: int, b: int, m: int, r: int)
    requires m == q * b + r && 0 <= m && 0 <= r < (if b > 0 then b else -b) && (b >= 2 || b <= -2)
    ensures -m <= 2 * q <= m
  {
    if b >= 2 {
      if q < 0 {
        AtLeastDouble(-q, b);
        AtLeastFactor(-q, b);
      } else {
        AtLeastDouble(q, b);
      }
    } else if q > 0 {
      AtLeastDouble(q, -b);
      AtLeastFactor(q, -b);
    } else {
      AtLeastDouble(-q, -b);
    }
  }

  lemma AtLeastDouble(p: int, c: int)
    requires 0 <= p && c >= 2
    ensures p * c >= 2 * p
  {
  }

  lemma AtLeastFactor(p: int, c: int)
    requires 0 < p && c >= 2
    ensures p * c >= c
  {
  }

  /** The one-sided tests are exact for every argument just when the operand is not negative, as an opcode's byte is. */
  lemma PlusNExact(n: int)
    requires Fixp(n)
    ensures (forall a :: Fixp(a) ==> (PlusNTrips(a, n) <==> !Fixp(a + n))) <==> 0 <= n
  {
    forall a | Fixp(a)
      ensures 0 <= n ==> (PlusNTrips(a, n) <==> !Fixp(a + n))
    {
      WrapNear(a + n);
    }
    if n < 0 {
      WrapNear(n);
      assert Fixp(0) && PlusNTrips(0, n) && Fixp(0 + n);
    }
  }

  lemma DifferenceNExact(n: int)
    requires Fixp(n)
    ensures (forall a :: Fixp(a) ==> (DifferenceNTrips(a, n) <==> !Fixp(a - n))) <==> 0 <= n
  {
    forall a | Fixp(a)
      ensures 0 <= n ==> (DifferenceNTrips(a, n) <==> !Fixp(a - n))
    {
      WrapNear(a - n);
    }
    if n < 0 {
      WrapNear(-1 - n);
      assert Fixp(-1) && DifferenceNTrips(-1, n) && Fixp(-1 - n);
    }
  }

  // ---- immediate and boxed integers ----

  const S_POSITIVE := 0xE_0000
  const S_NEGATIVE := 0xF_0000

  /** The segment of a pointer, where it lies among the 28 bits. */
  function Segment(x: int): int
  {
    x % 0x1000_0000 / 65536 * 65536
  }

  datatype Result = Value(value: int) | NotANumber

  /** N_ARITH_SWITCH: small integers are immediate, others go in a fresh box; `boxes` is what the boxes hold. */
  function Box(v: int, newBox: int, boxes: map<int, int>): (int, map<int, int>)
    requires Fixp(v)
  {
    if 0 <= v < 65536 then (S_POSITIVE + v, boxes)
    else if -65536 <= v < 0 then (S_NEGATIVE + v % 65536, boxes)
    else (newBox, boxes[newBox := v])
  }

  /** N_GETNUMBER: what is neither small nor a FIXP is no integer. */
  function GetNumber(x: int, boxes: map<int, int>): Result
  {
    if Segment(x) == S_POSITIVE then Value(x % 65536)
    else if Segment(x) == S_NEGATIVE then Value(x % 65536 - 65536)
    else if x in boxes then Value(boxes[x])
    else NotANumber
  }

  /** Which words are which integers: in segment 0xE the sixteen low bits, in segment 0xF those less 65536, elsewhere
      what a box holds; and no other word is an integer. */
  lemma NumberIs(x: int, boxes: map<int, int>, v: int)
    requires 0 <= x < 0x1_0000_0000
    ensures GetNumber(x, boxes) == Value(v) <==>
            if x / 0x1_0000 % 0x1000 == 0xE then v == x % 0x1_0000
            else if x / 0x1_0000 % 0x1000 == 0xF then v == x % 0x1_0000 - 0x1_0000
            else x in boxes && v == boxes[x]
    ensures GetNumber(x, boxes).NotANumber? <==>
            x / 0x1_0000 % 0x1000 != 0xE && x / 0x1_0000 % 0x1000 != 0xF && x !in boxes
  {
    SegmentIs(x);
    hide Segment;
  }

  lemma SegmentIs(x: int)
    requires 0 <= x
    ensures Segment(x) == x / 0x1_0000 % 0x1000 * 0x1_0000
  {
    var q, r := x / 0x1000_0000, x % 0x1000_0000;
    var a, b := r / 0x1_0000, r % 0x1_0000;
    assert x == 0x1_0000 * (0x1000 * q + a) + b;
    assert x / 0x1_0000 == 0x1000 * q + a && 0 <= a < 0x1000;
  }

  /** Boxes lie outside the segments of small integers. */
  predicate IsBox(x: int)
  {
    0 <= x < 0x1000_0000 && Segment(x) != S_POSITIVE && Segment(x) != S_NEGATIVE
  }

  /** Boxing and unboxing gives the number back; it takes a box exactly when the number is not small; no other value
      changes. */
  lemma BoxRoundTrip(v: int, newBox: int, boxes: map<int, int>, other: int)
    requires Fixp(v) && IsBox(newBox) && newBox !in boxes
    ensures var (x, boxes') := Box(v, newBox, boxes);
      && GetNumber(x, boxes') == Value(v)
      && (boxes' == boxes <==> -65536 <= v <= 65535)
      && (other != newBox ==> GetNumber(other, boxes') == GetNumber(other, boxes))
  {
    var (x, boxes') := Box(v, newBox, boxes);
    if -65536 <= v <= 65535 {
      SmallField(if v >= 0 then 0xE else 0xF, v % 65536);
    } else {
      assert newBox in boxes';
    }
  }

  lemma SmallField(s: int, low: int)
    requires 0 <= s < 4096 && 0 <= low < 65536
    ensures Segment(s * 65536 + low) == s * 65536 && (s * 65536 + low) % 65536 == low
  {
  }

  /** What PLUS2 comes to: a sum, an overflow, or, if an operand is no integer, floating-point addition of the same
      operands. */
  datatype Outcome = Sum(word: int) | Overflow | HandedOn(x: int, y: int)

  /** PLUS2 on two values, from operands to result. */
  function Plus2(x: int, y: int, newBox: int, boxes: map<int, int>): (Outcome, map<int, int>)
    requires forall b :: b in boxes ==> Fixp(boxes[b])
  {
    var arg1, arg2 := GetNumber(y, boxes), GetNumber(x, boxes);
    if arg1.NotANumber? || arg2.NotANumber? then (HandedOn(x, y), boxes)
    else if PlusTrips(arg1.value, arg2.value) then (Overflow, boxes)
    else
      var (r, boxes') := Box(Wrap(arg1.value + arg2.value), newBox, boxes);
      (Sum(r), boxes')
  }

  /** It hands its operands on iff one is no integer, and otherwise gives the sum iff the sum is a 32-bit number. */
  lemma Plus2Adds(x: int, y: int, newBox: int, boxes: map<int, int>)
    requires (forall b :: b in boxes ==> Fixp(boxes[b])) && IsBox(newBox) && newBox !in boxes
    ensures var (r, boxes') := Plus2(x, y, newBox, boxes);
      var a, b := GetNumber(x, boxes), GetNumber(y, boxes);
      && (r == HandedOn(x, y) <==> a.NotANumber? || b.NotANumber?)
      && (r.Sum? <==> a.Value? && b.Value? && Fixp(a.value + b.value))
      && (r.Sum? ==> GetNumber(r.word, boxes') == Value(a.value + b.value))
      && (!r.Sum? ==> boxes' == boxes)
  {
    hide Wrap;
    var a, b := GetNumber(x, boxes), GetNumber(y, boxes);
    if a.Value? && b.Value? {
      PlusExact(b.value, a.value);
      if Fixp(a.value + b.value) {
        BoxRoundTrip(a.value + b.value, newBox, boxes, newBox);
      }
    }
  }
}
