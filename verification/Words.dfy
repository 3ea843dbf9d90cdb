/** 32-bit memory words and their bits. Bit 0 is the most significant one, as on the display. */
module Words {

  /** A memory word. (The wrapper keeps bit-vector reasoning inside this module.) */
  datatype Word = Word(bits: bv32)

  predicate Bit(x: Word, i: int)
    requires 0 <= i < 32
  {
    (x.bits >> (31 - i)) & 1 == 1
  }

  // The word operators of the source, named so that proofs can work with their bits alone.

  function Shl(x: Word, n: int): Word
    requires 0 <= n < 32
  {
    Word(x.bits << n)
  }

  function Shr(x: Word, n: int): Word
    requires 0 <= n < 32
  {
    Word(x.bits >> n)
  }

  function Not(x: Word): Word { Word(!x.bits) }

  function And(x: Word, y: Word): Word { Word(x.bits & y.bits) }

  function Or(x: Word, y: Word): Word { Word(x.bits | y.bits) }

  function Xor(x: Word, y: Word): Word { Word(x.bits ^ y.bits) }

  const ONES: Word := Word(0xFFFF_FFFF)

  const NONE: Word := Word(0)

  // ---- bits of shifted words: first over six-bit shift amounts, where bit-blasting works ----

  predicate LowBit(x: Word, k: bv6)
    requires k < 32
  {
    (x.bits >> k) & 1 == 1
  }

  predicate IsShl(y: Word, x: Word, n: bv6)
    requires n < 32
  {
    y.bits == x.bits << n
  }

  predicate IsShr(y: Word, x: Word, n: bv6)
    requires n < 32
  {
    y.bits == x.bits >> n
  }

  lemma LowBitOfShl(y: Word, x: Word, n: bv6, k: bv6)
    requires n < 32 && k < 32 && IsShl(y, x, n)
    ensures k < n ==> !LowBit(y, k)
  {
  }

  lemma LowBitOfShlAt(y: Word, x: Word, n: bv6, k: bv6, diff: bv6)
    requires n <= k < 32 && IsShl(y, x, n) && diff == k - n
    ensures LowBit(y, k) == LowBit(x, diff)
  {
  }

  lemma LowBitOfShr(y: Word, x: Word, n: bv6, k: bv6)
    requires n < 32 && k < 32 && IsShr(y, x, n)
    ensures k + n >= 32 ==> !LowBit(y, k)
  {
  }

  lemma LowBitOfShrAt(y: Word, x: Word, n: bv6, k: bv6, sum: bv6)
    requires n < 32 && k < 32 && IsShr(y, x, n) && sum == k + n && sum < 32
    ensures LowBit(y, k) == LowBit(x, sum)
  {
  }

  /** A shift amount as a six-bit numeral, counted up. */
  function Amount(n: nat): bv6
    requires n < 64
  {
    if n == 0 then 0 else Amount(n - 1) + 1
  }

  lemma NumeralSucc(a: bv6)
    requires a as int < 63
    ensures (a + 1) as int == a as int + 1
  {
  }

  lemma NumeralInjective(a: bv6, b: bv6)
    requires a as int == b as int
    ensures a == b
  {
  }

  lemma NumeralOf(n: int)
    requires 0 <= n < 64
    ensures (n as bv6) as int == n
  {
  }

  lemma {:induction false} AmountValue(n: nat)
    requires n < 64
    ensures Amount(n) as int == n
  {
    if n > 0 {
      AmountValue(n - 1);
      NumeralSucc(Amount(n - 1));
    }
  }

  lemma AmountConverts(n: nat)
    requires n < 64
    ensures Amount(n) == n as bv6
  {
    AmountValue(n);
    NumeralOf(n);
    NumeralInjective(Amount(n), n as bv6);
  }

  lemma {:induction false} AmountAdd(i: nat, n: nat)
    requires i + n < 64
    ensures Amount(i) + Amount(n) == Amount(i + n)
    decreases n
  {
    if n > 0 {
      AmountAdd(i, n - 1);
    }
  }

  lemma NumeralBelow(a: bv6)
    ensures (a < 63) == (a as int < 63)
    ensures (a < 32) == (a as int < 32)
  {
  }

  lemma AmountBelowTop(n: nat)
    requires n < 63
    ensures Amount(n) < 63
  {
    hide *;
    AmountValue(n);
    NumeralBelow(Amount(n));
  }

  lemma {:induction false} AmountOrder(i: nat, n: nat)
    requires n <= i < 64
    ensures Amount(n) <= Amount(i)
    ensures Amount(i) - Amount(n) == Amount(i - n)
    decreases i
  {
    AmountAdd(n, i - n);
    if n < i {
      AmountOrder(i - 1, n);
      AmountBelowTop(i - 1);
    }
  }

  lemma AmountStrict(i: nat, n: nat)
    requires n < i < 64
    ensures Amount(n) < Amount(i)
  {
    AmountOrder(i - 1, n);
    AmountBelowTop(i - 1);
  }

  lemma AmountBelow32(n: nat)
    requires n < 64
    ensures (Amount(n) < 32) == (n < 32)
  {
    hide *;
    AmountValue(n);
    NumeralBelow(Amount(n));
  }

  lemma BitIsLowBit(x: Word, i: int)
    requires 0 <= i < 32
    ensures Amount(31 - i) < 32
    ensures Bit(x, i) == LowBit(x, Amount(31 - i))
  {
    AmountConverts(31 - i);
  }

  lemma ShlIs(x: Word, n: int)
    requires 0 <= n < 32
    ensures Amount(n) < 32
    ensures IsShl(Shl(x, n), x, Amount(n))
  {
    AmountConverts(n);
  }

  lemma ShrIs(x: Word, n: int)
    requires 0 <= n < 32
    ensures Amount(n) < 32
    ensures IsShr(Shr(x, n), x, Amount(n))
  {
    AmountConverts(n);
  }

  lemma ShlBit(x: Word, n: int, i: int)
    requires 0 <= n < 32 && 0 <= i < 32
    ensures Bit(Shl(x, n), i) == (i + n < 32 && Bit(x, i + n))
  {
    hide *;
    BitIsLowBit(Shl(x, n), i);
    ShlIs(x, n);
    if i + n < 32 {
      BitIsLowBit(x, i + n);
      AmountOrder(31 - i, n);
      LowBitOfShlAt(Shl(x, n), x, Amount(n), Amount(31 - i), Amount(31 - i - n));
    } else {
      AmountStrict(n, 31 - i);
      LowBitOfShl(Shl(x, n), x, Amount(n), Amount(31 - i));
    }
  }

  lemma ShrBit(x: Word, n: int, i: int)
    requires 0 <= n < 32 && 0 <= i < 32
    ensures Bit(Shr(x, n), i) == (0 <= i - n && Bit(x, i - n))
  {
    hide *;
    BitIsLowBit(Shr(x, n), i);
    ShrIs(x, n);
    AmountAdd(31 - i, n);
    AmountBelow32(31 - i + n);
    if n <= i {
      BitIsLowBit(x, i - n);
      assert 31 - (i - n) == 31 - i + n;
      LowBitOfShrAt(Shr(x, n), x, Amount(n), Amount(31 - i), Amount(31 - i + n));
    } else {
      LowBitOfShr(Shr(x, n), x, Amount(n), Amount(31 - i));
    }
  }

  // ---- bits of the logical operators ----

  lemma LowBitOfNot(x: Word, k: bv6)
    requires k < 32
    ensures LowBit(Not(x), k) == !LowBit(x, k)
  {
  }

  lemma LowBitOfAnd(x: Word, y: Word, k: bv6)
    requires k < 32
    ensures LowBit(And(x, y), k) == (LowBit(x, k) && LowBit(y, k))
  {
  }

  lemma LowBitOfOr(x: Word, y: Word, k: bv6)
    requires k < 32
    ensures LowBit(Or(x, y), k) == (LowBit(x, k) || LowBit(y, k))
  {
  }

  lemma XorByOthers(x: Word, y: Word)
    ensures Xor(x, y) == And(Or(x, y), Not(And(x, y)))
  {
  }

  lemma LowBitOfXor(x: Word, y: Word, k: bv6)
    requires k < 32
    ensures LowBit(Xor(x, y), k) == (LowBit(x, k) != LowBit(y, k))
  {
    hide *;
    XorByOthers(x, y);
    LowBitOfAnd(Or(x, y), Not(And(x, y)), k);
    LowBitOfOr(x, y, k);
    LowBitOfNot(And(x, y), k);
    LowBitOfAnd(x, y, k);
  }

  lemma LowBitOfOnes(k: bv6)
    requires k < 32
    ensures LowBit(ONES, k)
  {
  }

  lemma LowBitOfNone(k: bv6)
    requires k < 32
    ensures !LowBit(NONE, k)
  {
  }

  lemma LogicBit(x: Word, y: Word, i: int)
    requires 0 <= i < 32
    ensures Bit(Not(x), i) == !Bit(x, i)
    ensures Bit(And(x, y), i) == (Bit(x, i) && Bit(y, i))
    ensures Bit(Or(x, y), i) == (Bit(x, i) || Bit(y, i))
    ensures Bit(Xor(x, y), i) == (Bit(x, i) != Bit(y, i))
    ensures Bit(ONES, i) && !Bit(NONE, i)
  {
    hide *;
    BitIsLowBit(x, i);
    BitIsLowBit(y, i);
    BitIsLowBit(Not(x), i);
    BitIsLowBit(And(x, y), i);
    BitIsLowBit(Or(x, y), i);
    BitIsLowBit(Xor(x, y), i);
    BitIsLowBit(ONES, i);
    BitIsLowBit(NONE, i);
    LowBitOfNot(x, Amount(31 - i));
    LowBitOfAnd(x, y, Amount(31 - i));
    LowBitOfOr(x, y, Amount(31 - i));
    LowBitOfXor(x, y, Amount(31 - i));
    LowBitOfOnes(Amount(31 - i));
    LowBitOfNone(Amount(31 - i));
  }

  // ---- whole-word forms ----

  lemma ShlBits(x: Word, n: int)
    requires 0 <= n < 32
    ensures forall i :: 0 <= i < 32 ==> Bit(Shl(x, n), i) == (i + n < 32 && Bit(x, i + n))
  {
    hide *;
    forall i | 0 <= i < 32
      ensures Bit(Shl(x, n), i) == (i + n < 32 && Bit(x, i + n))
    {
      ShlBit(x, n, i);
    }
  }

  lemma ShrBits(x: Word, n: int)
    requires 0 <= n < 32
    ensures forall i :: 0 <= i < 32 ==> Bit(Shr(x, n), i) == (0 <= i - n && Bit(x, i - n))
  {
    hide *;
    forall i | 0 <= i < 32
      ensures Bit(Shr(x, n), i) == (0 <= i - n && Bit(x, i - n))
    {
      ShrBit(x, n, i);
    }
  }

  lemma NotBits(x: Word)
    ensures forall i :: 0 <= i < 32 ==> Bit(Not(x), i) == !Bit(x, i)
  {
    hide *;
    forall i | 0 <= i < 32
      ensures Bit(Not(x), i) == !Bit(x, i)
    {
      LogicBit(x, x, i);
    }
  }

  lemma AndBits(x: Word, y: Word)
    ensures forall i :: 0 <= i < 32 ==> Bit(And(x, y), i) == (Bit(x, i) && Bit(y, i))
  {
    hide *;
    forall i | 0 <= i < 32
      ensures Bit(And(x, y), i) == (Bit(x, i) && Bit(y, i))
    {
      LogicBit(x, y, i);
    }
  }

  lemma OrBits(x: Word, y: Word)
    ensures forall i :: 0 <= i < 32 ==> Bit(Or(x, y), i) == (Bit(x, i) || Bit(y, i))
  {
    hide *;
    forall i | 0 <= i < 32
      ensures Bit(Or(x, y), i) == (Bit(x, i) || Bit(y, i))
    {
      LogicBit(x, y, i);
    }
  }

  lemma XorBits(x: Word, y: Word)
    ensures forall i :: 0 <= i < 32 ==> Bit(Xor(x, y), i) == (Bit(x, i) != Bit(y, i))
  {
    hide *;
    forall i | 0 <= i < 32
      ensures Bit(Xor(x, y), i) == (Bit(x, i) != Bit(y, i))
    {
      LogicBit(x, y, i);
    }
  }

  lemma OnesBits()
    ensures forall i :: 0 <= i < 32 ==> Bit(ONES, i)
    ensures forall i :: 0 <= i < 32 ==> !Bit(NONE, i)
  {
    hide *;
    forall i | 0 <= i < 32
      ensures Bit(ONES, i) && !Bit(NONE, i)
    {
      LogicBit(ONES, ONES, i);
    }
  }

  // ---- the masks ----

  /** All bits from `l` on: F_preloop_mask and B_postloop_mask. */
  function FromMask(l: int): Word
    requires 0 <= l < 32
  {
    if l != 0 then Not(Shl(ONES, 32 - l)) else ONES
  }

  /** All bits up to `r`: F_postloop_mask and B_preloop_mask. */
  function UpToMask(r: int): Word
    requires 0 <= r < 32
  {
    Shl(ONES, 31 - r)
  }

  /** The low `n` bits; for n = 0 the two directions differ. */
  function LowMask(n: int, ifZero: Word): Word
    requires 0 <= n < 32
  {
    if n != 0 then Not(Shl(ONES, n)) else ifZero
  }

  lemma FromMaskBits(l: int)
    requires 0 <= l < 32
    ensures forall i :: 0 <= i < 32 ==> Bit(FromMask(l), i) == (l <= i)
  {
    hide Bit, Shl, Not;
    OnesBits();
    if l != 0 {
      ShlBits(ONES, 32 - l);
      NotBits(Shl(ONES, 32 - l));
    }
  }

  lemma UpToMaskBits(r: int)
    requires 0 <= r < 32
    ensures forall i :: 0 <= i < 32 ==> Bit(UpToMask(r), i) == (i <= r)
  {
    hide Bit, Shl, Not;
    OnesBits();
    ShlBits(ONES, 31 - r);
  }

  lemma LowMaskBits(n: int, ifZero: Word)
    requires 0 < n < 32
    ensures forall i :: 0 <= i < 32 ==> Bit(LowMask(n, ifZero), i) == (32 - n <= i)
  {
    hide Bit, Shl, Not;
    OnesBits();
    ShlBits(ONES, n);
    NotBits(Shl(ONES, n));
  }
}
