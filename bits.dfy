/** The bit algebra of a Java `int`, as used by the hour masks. Every fact that
    needs bit-vector reasoning is stated for arbitrary bit patterns (`p` for a
    single bit) in a lemma of its own, as an equation where possible; the
    lemmas about `Bit(h)` and `Has` only apply them. */
module Bits {

  /** The bit pattern of a Java `int`. */
  type Int32 = bv32

  /** A shift amount that `1 << h` on a Java `int` uses without wrapping. */
  type BitIndex = h: int | 0 <= h < 32

  /** Java's `1 << h`, written as repeated doubling so that proofs about it
      stay within bit-vector reasoning; BitIsShift states that the two agree. */
  function Bit(h: BitIndex): Int32 {
    if h == 0 then 1 else Bit(h - 1) << 1
  }

  /** `m` and `p` share a set bit: Java's `(m & p) != 0`. */
  predicate Meets(m: Int32, p: Int32) {
    m & p != 0
  }

  /** Bit `h` of `m` is set: Java's `(m & (1 << h)) != 0`. */
  predicate Has(m: Int32, h: BitIndex) {
    Meets(m, Bit(h))
  }

  /** `p` has exactly one bit set. */
  predicate SingleBit(p: Int32) {
    p != 0 && p & (p - 1) == 0
  }

  // ---------------------------------------------------------------------------
  // Facts about arbitrary bit patterns

  /** `1 << h` doubles from one shift amount to the next (checked for each of
      the 31 amounts). */
  lemma ShiftStep(h: int)
    requires 0 < h < 32
    ensures (1 as Int32) << h == ((1 as Int32) << (h - 1)) << 1
  {
    match h
    case 1 => case 2 => case 3 => case 4 => case 5 => case 6 => case 7 => case 8 =>
    case 9 => case 10 => case 11 => case 12 => case 13 => case 14 => case 15 => case 16 =>
    case 17 => case 18 => case 19 => case 20 => case 21 => case 22 => case 23 => case 24 =>
    case 25 => case 26 => case 27 => case 28 => case 29 => case 30 => case 31 =>
  }

  lemma ShiftAsBv(h: BitIndex)
    ensures (1 as Int32) << h == (1 as Int32) << (h as bv32) && h as bv32 < 32
  {
  }

  lemma ShiftSingle(x: bv32)
    requires x < 32
    ensures SingleBit((1 as Int32) << x)
  {
  }

  lemma MeetsSelf(p: Int32)
    requires p != 0
    ensures Meets(p, p)
  {
  }

  lemma MeetsSym(a: Int32, b: Int32)
    ensures Meets(a, b) <==> Meets(b, a)
  {
  }

  lemma AndOverOr(a: Int32, b: Int32, p: Int32)
    ensures (a | b) & p == (a & p) | (b & p)
  {
  }

  lemma OrZero(x: Int32, y: Int32)
    ensures (x | y == 0) <==> (x == 0 && y == 0)
  {
  }

  lemma MeetsOr(a: Int32, b: Int32, p: Int32)
    ensures Meets(a | b, p) <==> Meets(a, p) || Meets(b, p)
  {
    AndOverOr(a, b, p);
    OrZero(a & p, b & p);
  }

  /** The same, for a pattern known to be an OR. */
  lemma MeetsOrOf(m: Int32, a: Int32, b: Int32, p: Int32)
    requires m == a | b
    ensures Meets(m, p) <==> Meets(a, p) || Meets(b, p)
  {
    MeetsOr(a, b, p);
  }

  lemma MeetsZero(p: Int32)
    ensures !Meets(0, p)
  {
  }

  lemma AndIntoOr(m: Int32, a: Int32, b: Int32)
    ensures m & (a | b) == (m & a) | (m & b)
  {
  }

  lemma MissesUnion(m: Int32, a: Int32, b: Int32)
    requires !Meets(m, a) && !Meets(m, b)
    ensures !Meets(m, a | b)
  {
    AndIntoOr(m, a, b);
  }

  lemma ComplementMeets(a: Int32, p: Int32)
    requires SingleBit(p)
    ensures Meets(!a, p) <==> !Meets(a, p)
  {
  }

  lemma XorMeets(a: Int32, b: Int32, p: Int32)
    requires SingleBit(p)
    requires Meets(a, p) <==> Meets(b, p)
    ensures !Meets(a ^ b, p)
  {
  }

  lemma XorZero(a: Int32, b: Int32)
    requires !Meets(a ^ b, 0xFFFF_FFFF)
    ensures a == b
  {
  }

  lemma BelowDoubled(p: Int32)
    requires SingleBit(p)
    ensures (p << 1) - 1 == (p - 1) | p
  {
  }

  lemma DoubledMeets(a: Int32, b: Int32)
    ensures (a << 1) & (b << 1) == (a & b) << 1
  {
  }

  lemma DoubledMisses(a: Int32, b: Int32)
    requires !Meets(a, b)
    ensures !Meets(a << 1, b << 1)
  {
    DoubledMeets(a, b);
  }

  lemma FirstMisses(a: Int32)
    ensures !Meets(1, a << 1)
  {
  }

  // ---------------------------------------------------------------------------
  // Single bits

  /** `Bit(h)` is Java's `1 << h`. */
  lemma {:induction false} BitIsShift(h: BitIndex)
    ensures Bit(h) == (1 as Int32) << h
  {
    if h > 0 {
      BitIsShift(h - 1);
      ShiftStep(h);
    }
  }

  lemma BitIsSingle(h: BitIndex)
    ensures SingleBit(Bit(h))
  {
    BitIsShift(h);
    ShiftAsBv(h);
    ShiftSingle(h as bv32);
  }

  lemma HasOwnBit(h: BitIndex)
    ensures Has(Bit(h), h)
  {
    BitIsSingle(h);
    MeetsSelf(Bit(h));
  }

  lemma FirstBitMisses(k: BitIndex)
    requires k > 0
    ensures !Has(Bit(0), k)
  {
    FirstMisses(Bit(k - 1));
  }

  lemma DoubledBitMisses(h: BitIndex, k: BitIndex)
    requires h > 0 && k > 0
    requires !Has(Bit(h - 1), k - 1)
    ensures !Has(Bit(h), k)
  {
    DoubledMisses(Bit(h - 1), Bit(k - 1));
  }

  /** `1 << h` has exactly bit h set. */
  lemma {:induction false} HasBit(h: BitIndex, k: BitIndex)
    ensures Has(Bit(h), k) <==> h == k
  {
    if h == k {
      HasOwnBit(h);
    } else if h == 0 {
      FirstBitMisses(k);
    } else if k == 0 {
      FirstBitMisses(h);
      MeetsSym(Bit(h), Bit(0));
    } else {
      HasBit(h - 1, k - 1);
      DoubledBitMisses(h, k);
    }
  }

  /** Bit h of an OR is set iff it is set in either operand. */
  lemma HasOr(a: Int32, b: Int32, h: BitIndex)
    ensures Has(a | b, h) <==> Has(a, h) || Has(b, h)
  {
    MeetsOr(a, b, Bit(h));
  }

  /** The same, for a pattern known to be an OR. */
  lemma HasOrOf(m: Int32, a: Int32, b: Int32, h: BitIndex)
    requires m == a | b
    ensures Has(m, h) <==> Has(a, h) || Has(b, h)
  {
    HasOr(a, b, h);
  }

  /** Java's `~m` flips every bit. */
  lemma HasNot(a: Int32, h: BitIndex)
    ensures Has(!a, h) <==> !Has(a, h)
  {
    BitIsSingle(h);
    ComplementMeets(a, Bit(h));
  }

  lemma HasZero(h: BitIndex)
    ensures !Has(0, h)
  {
  }

  /** Bit h of `a ^ b` is clear when `a` and `b` agree on it. */
  lemma XorHas(a: Int32, b: Int32, h: BitIndex)
    requires Has(a, h) <==> Has(b, h)
    ensures !Has(a ^ b, h)
  {
    BitIsSingle(h);
    XorMeets(a, b, Bit(h));
  }

  // ---------------------------------------------------------------------------
  // Extensionality

  /** The mask of the bits below `n`. */
  function LowBits(n: nat): Int32
    requires n <= 32
  {
    if n == 0 then 0 else LowBits(n - 1) | Bit(n - 1)
  }

  lemma BelowStep(p: Int32, lo: Int32)
    requires SingleBit(p) && lo == p - 1
    ensures lo | p == (p << 1) - 1
  {
    BelowDoubled(p);
  }

  /** The bits below `n` are `(1 << n) - 1`, written without a shift by `n`. */
  lemma {:induction false} LowBitsClosed(n: nat)
    requires 0 < n <= 32
    ensures LowBits(n) == (Bit(n - 1) << 1) - 1
  {
    if n > 1 {
      LowBitsClosed(n - 1);
      BitIsSingle(n - 1);
      BelowStep(Bit(n - 1), LowBits(n - 1));
    }
  }

  lemma LowBitsAll()
    ensures LowBits(32) == 0xFFFF_FFFF
  {
    LowBitsClosed(32);
    BitIsShift(31);
  }

  lemma ZeroStep(x: Int32, n: nat)
    requires 0 < n <= 32
    requires !Meets(x, LowBits(n - 1)) && !Has(x, n - 1)
    ensures !Meets(x, LowBits(n))
  {
    MissesUnion(x, LowBits(n - 1), Bit(n - 1));
  }

  /** A pattern with none of the bits below `n` misses `LowBits(n)`. */
  lemma {:induction false} ZeroBelow(x: Int32, n: nat)
    requires n <= 32
    requires forall h: BitIndex :: h < n ==> !Has(x, h)
    ensures !Meets(x, LowBits(n))
  {
    if n > 0 {
      ZeroBelow(x, n - 1);
      ZeroStep(x, n);
    }
  }

  /** Two bit patterns with the same bits are the same pattern. */
  lemma BitsExtensional(a: Int32, b: Int32)
    requires forall h: BitIndex :: Has(a, h) <==> Has(b, h)
    ensures a == b
  {
    var x := a ^ b;
    forall h: BitIndex | h < 32
      ensures !Has(x, h)
    {
      XorHas(a, b, h);
    }
    ZeroBelow(x, 32);
    LowBitsAll();
    XorZero(a, b);
  }
}
