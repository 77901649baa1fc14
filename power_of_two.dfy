/**
 * `isPowerOf2(value)`, the texture-size test: clear the lowest set bit and
 * compare with zero, on the 32-bit two's-complement value that JavaScript's
 * bitwise and works on.
 */
module PowerOfTwo {

  /** Clears the lowest set bit and tests for zero; 0 passes as well. */
  function IsPowerOf2(value: bv32): bool
  {
    value & (value - 1) == 0
  }

  /** The 32-bit value 2^k. */
  function Pow2(k: bv5): bv32
  {
    1 << k
  }

  /** Every power of two passes. */
  lemma PowersPass(k: bv5)
    ensures IsPowerOf2(Pow2(k))
  {
  }

  /** 0 passes although it is not a power of two. */
  lemma ZeroPasses()
    ensures IsPowerOf2(0)
    ensures forall k: bv5 :: Pow2(k) != 0
  {
  }

  /**
   * If no bit of v below j is set and v passes, the lowest set bit of v, at j
   * or above, is its only one.
   */
  lemma {:induction false} SingleBitFrom(v: bv32, j: nat)
    requires j <= 32
    requires v != 0 && IsPowerOf2(v)
    requires v & ((1 << j) - 1) == 0
    ensures exists k: bv5 :: v == Pow2(k)
    decreases 32 - j
  {
    if j == 32 {
      assert false;
    } else if v & (1 << j) != 0 {
      assert v == Pow2(j as bv5);
    } else {
      SingleBitFrom(v, j + 1);
    }
  }

  /** For v != 0, isPowerOf2(v) holds exactly when v is 2^k for some k < 32. */
  lemma IsPowerOf2Iff(v: bv32)
    requires v != 0
    ensures IsPowerOf2(v) <==> exists k: bv5 :: v == Pow2(k)
  {
    if IsPowerOf2(v) {
      SingleBitFrom(v, 0);
    } else if k: bv5 :| v == Pow2(k) {
      PowersPass(k);
    }
  }
}
