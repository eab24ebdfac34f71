/** Bytes as numbers and as bit vectors. */
module Bits {
  /** A byte survives the way to eight bits and back. */
  lemma ThereAndBack(a: int)
    requires 0 <= a < 256
    ensures (a as bv8) as int == a
  {
  }
}
