/**
 * Machine words and the bit operations both `lowbit` functions are built
 * from: 64-bit `usize` values, bitwise NOT and AND on them, and an
 * arithmetic reference definition of "the value of the lowest set bit"
 * with the facts about it that the Fenwick tree relies on.
 */
module Bits {

  /** 2^64, one more than the largest `usize`. */
  const WORD_LIMIT: nat := 0x1_0000_0000_0000_0000
  /** `usize::MAX`. */
  const WORD_MAX: nat := 0xFFFF_FFFF_FFFF_FFFF
  /** `isize::MAX`, the largest length a Rust `Vec` of a non-zero-sized element type can have. */
  const ISIZE_MAX: nat := 0x7FFF_FFFF_FFFF_FFFF

  /** A 64-bit `usize`. */
  type Word = x: nat | x < 0x1_0000_0000_0000_0000

  /** Bitwise NOT of a word (`!x`). */
  function Not(x: Word): Word {
    WORD_MAX - x
  }

  /** Bitwise AND (`a & b`), taken bit by bit from the least significant end. */
  function And(a: nat, b: nat): (r: nat)
    ensures r <= a && r <= b
    decreases a
  {
    if a == 0 || b == 0 then 0
    else 2 * And(a / 2, b / 2) + (if a % 2 == 1 && b % 2 == 1 then 1 else 0)
  }

  /** The value of the lowest set bit of x, defined by halving; 0 has none. */
  function LowestSetBit(x: nat): (r: nat)
    ensures r == 0 <==> x == 0
    ensures r <= x
    decreases x
  {
    if x == 0 then 0
    else if x % 2 == 1 then 1
    else 2 * LowestSetBit(x / 2)
  }

  predicate IsPowerOfTwo(n: nat)
    decreases n
  {
    n == 1 || (n > 1 && n % 2 == 0 && IsPowerOfTwo(n / 2))
  }

  function Pow2(e: nat): (r: nat)
    ensures IsPowerOfTwo(r)
    decreases e
  {
    if e == 0 then 1 else 2 * Pow2(e - 1)
  }

  lemma WordLimitIsPowerOfTwo()
    ensures IsPowerOfTwo(WORD_LIMIT)
  {
    assert Pow2(8) == 0x100;
    assert Pow2(16) == 0x1_0000;
    assert Pow2(24) == 0x100_0000;
    assert Pow2(32) == 0x1_0000_0000;
    assert Pow2(40) == 0x100_0000_0000;
    assert Pow2(48) == 0x1_0000_0000_0000;
    assert Pow2(56) == 0x100_0000_0000_0000;
    assert Pow2(64) == WORD_LIMIT;
  }

  /** A number below a power of two m shares no bit with its (m-1)-complement. */
  lemma {:induction false} AndComplementIsZero(y: nat, m: nat)
    requires IsPowerOfTwo(m) && y < m
    ensures And(y, m - 1 - y) == 0
    decreases m
  {
    if m > 1 && y > 0 && m - 1 - y > 0 {
      assert (m - 1 - y) / 2 == m / 2 - 1 - y / 2;
      AndComplementIsZero(y / 2, m / 2);
    }
  }

  /**
   * The two's-complement identity behind `x & (!x + 1)`: in a word of m
   * values (m a power of two), `!x + 1` is m - x, and ANDing it with x
   * keeps exactly the lowest set bit of x.
   */
  lemma {:induction false} AndNegationIsLowestSetBit(x: nat, m: nat)
    requires IsPowerOfTwo(m) && 0 < x < m
    ensures And(x, m - x) == LowestSetBit(x)
    decreases m
  {
    if x % 2 == 1 {
      assert (m - x) / 2 == m / 2 - 1 - x / 2;
      AndComplementIsZero(x / 2, m / 2);
    } else {
      assert (m - x) / 2 == m / 2 - x / 2;
      AndNegationIsLowestSetBit(x / 2, m / 2);
    }
  }

  lemma {:induction false} AndSelf(x: nat)
    ensures And(x, x) == x
    decreases x
  {
    if x > 0 {
      AndSelf(x / 2);
    }
  }

  /** x - lowbit(x) is x with its lowest set bit cleared, that is `x & (x - 1)`. */
  lemma {:induction false} SubtractingLowestSetBitClearsIt(x: nat)
    requires x > 0
    ensures And(x, x - 1) == x - LowestSetBit(x)
    decreases x
  {
    if x % 2 == 1 {
      if x > 1 {
        assert (x - 1) / 2 == x / 2;
        AndSelf(x / 2);
      }
    } else {
      assert (x - 1) / 2 == x / 2 - 1;
      SubtractingLowestSetBitClearsIt(x / 2);
    }
  }

  lemma ExactDivision(n: nat, a: nat, q: nat)
    requires a > 0 && n == a * q
    ensures n % a == 0 && n / a == q
  {
    var d, r := n / a, n % a;
    assert a * q == a * d + r;
    if q > d {
      MultiplyMonotone(a, d + 1, q);
      assert false;
    } else if q < d {
      MultiplyMonotone(a, q + 1, d);
      assert false;
    }
  }

  lemma MultiplyMonotone(a: nat, x: int, y: int)
    requires x <= y
    ensures a * x <= a * y
  {
    assert a * y - a * x == a * (y - x);
  }

  /** What is left of x > 0 once its trailing zero bits are shifted out. */
  function OddPart(x: nat): nat
    requires x > 0
    decreases x
  {
    if x % 2 == 1 then x else OddPart(x / 2)
  }

  lemma {:induction false} LowestSetBitTimesOddPart(x: nat)
    requires x > 0
    ensures IsPowerOfTwo(LowestSetBit(x))
    ensures x == LowestSetBit(x) * OddPart(x) && OddPart(x) % 2 == 1
    decreases x
  {
    if x % 2 == 0 {
      LowestSetBitTimesOddPart(x / 2);
      assert LowestSetBit(x) * OddPart(x) == 2 * (LowestSetBit(x / 2) * OddPart(x / 2));
    }
  }

  /**
   * For x > 0, lowbit(x) is a power of two that divides x with an odd
   * quotient, so it is the largest power of two dividing x.
   */
  lemma LowestSetBitIsLargestPowerOfTwoDivisor(x: nat)
    requires x > 0
    ensures IsPowerOfTwo(LowestSetBit(x))
    ensures x % LowestSetBit(x) == 0 && (x / LowestSetBit(x)) % 2 == 1
  {
    LowestSetBitTimesOddPart(x);
    ExactDivision(x, LowestSetBit(x), OddPart(x));
  }

  /** Adding a positive t smaller than lowbit(j) to j gives a number whose lowest set bit is t's. */
  lemma {:induction false} LowestSetBitOfSumBelow(j: nat, t: nat)
    requires j > 0 && 0 < t < LowestSetBit(j)
    ensures LowestSetBit(j + t) == LowestSetBit(t)
    decreases t
  {
    if t % 2 == 0 {
      assert (j + t) / 2 == j / 2 + t / 2;
      LowestSetBitOfSumBelow(j / 2, t / 2);
    }
  }

  /** One upward Fenwick step j + lowbit(j) at least doubles the lowest set bit. */
  lemma {:induction false} LowestSetBitGrowsAlongStep(j: nat)
    requires j > 0
    ensures LowestSetBit(j + LowestSetBit(j)) >= 2 * LowestSetBit(j)
    decreases j
  {
    if j % 2 == 0 {
      assert (j + LowestSetBit(j)) / 2 == j / 2 + LowestSetBit(j / 2);
      LowestSetBitGrowsAlongStep(j / 2);
    } else {
      assert LowestSetBit((j + 1) / 2) >= 1;
    }
  }
}
