/** The public, zero-guarded `lowbit` helper of the repository's `utils` module. */
module Utils {
  import opened Bits

  /**
   * `utils::lowbit`: the value of the lowest set bit of x. The explicit
   * guard returns 0 for 0; every other x takes the bit expression
   * `x & (!x + 1)`, where `!x + 1` cannot overflow because x != 0.
   */
  function Lowbit(x: Word): (r: Word)
    ensures r == LowestSetBit(x)
    ensures x == 0 ==> r == 0
    ensures x > 0 ==> IsPowerOfTwo(r) && x % r == 0 && (x / r) % 2 == 1
    ensures x > 0 ==> And(x, x - 1) == x - r
  {
    if x == 0 then
      0
    else
      var negated: Word := Not(x) + 1;
      WordLimitIsPowerOfTwo();
      AndNegationIsLowestSetBit(x, WORD_LIMIT);
      LowestSetBitIsLargestPowerOfTwoDivisor(x);
      SubtractingLowestSetBitClearsIt(x);
      And(x, negated)
  }

  /** The documented examples: lowbit(0b0) == 0b0 and lowbit(0b100100) == 0b100. */
  lemma LowbitExamples()
    ensures Lowbit(0) == 0
    ensures Lowbit(0x24) == 0x4
  {
    assert LowestSetBit(0x24) == 2 * LowestSetBit(0x12) == 4 * LowestSetBit(0x9);
  }
}
