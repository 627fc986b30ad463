/** Single bits of a byte. */
module Bits {
  predicate BitOf(b: bv8, k: nat)
    requires k < 8
  {
    b & (1 << k) != 0
  }

  lemma {:induction false} SetBit(b: bv8, k: nat, j: nat)
    requires k < 8 && j < 8
    ensures BitOf(b | (1 << k), j) == (BitOf(b, j) || j == k)
  {
    if j == k {
      assert (b | (1 << k)) & (1 << k) == 1 << k;
      assert 1 as bv8 << k != 0;
    }
  }

  /** A byte without any bit is zero. */
  lemma {:induction false} NoBits(b: bv8)
    ensures b == 0 <==> forall k :: 0 <= k < 8 ==> !BitOf(b, k)
  {
    if forall k :: 0 <= k < 8 ==> !BitOf(b, k) {
      assert !BitOf(b, 0) && !BitOf(b, 1) && !BitOf(b, 2) && !BitOf(b, 3);
      assert !BitOf(b, 4) && !BitOf(b, 5) && !BitOf(b, 6) && !BitOf(b, 7);
    }
  }
}
