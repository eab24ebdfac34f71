/** COMBINE_ID_INDEX, GET_SESSION_ID and GET_SESSION_INDEX on 64-bit words. */
module Handle {
  function Combine(id: bv64, index: bv64): bv64 {
    (id << 48) | index
  }

  function IdOf(h: bv64): bv64 {
    h >> 48
  }

  function IndexOf(h: bv64): bv64 {
    h & 0xffff
  }

  /** IDs that handles cannot tell apart. */
  predicate Alike(id1: bv64, id2: bv64) {
    id1 & 0xffff == id2 & 0xffff
  }

  const SENTINEL: bv64 := 0xFFFF_FFFF_FFFF_FFFF

  /** Unpacking: the index comes back exactly when it fits 16 bits, and then the ID's low 16 bits do too. */
  lemma Unpack(id: bv64, index: bv64)
    ensures IndexOf(Combine(id, index)) == index <==> index < 0x10000
    ensures index < 0x10000 ==> IdOf(Combine(id, index)) == id & 0xffff
  {
  }

  lemma SameIf(id1: bv64, id2: bv64, index: bv64)
    requires id1 & 0xffff == id2 & 0xffff
    ensures Combine(id1, index) == Combine(id2, index)
  {
  }

  lemma SameOnlyIf(id1: bv64, index1: bv64, id2: bv64, index2: bv64)
    requires index1 < 0x1_0000_0000_0000 && index2 < 0x1_0000_0000_0000
    requires Combine(id1, index1) == Combine(id2, index2)
    ensures index1 == index2 && id1 & 0xffff == id2 & 0xffff
  {
  }

  /** Two handles are equal exactly when their slots are equal and their IDs agree modulo 2^16. */
  lemma Same(id1: bv64, index1: bv64, id2: bv64, index2: bv64)
    requires index1 < 0x1_0000_0000_0000 && index2 < 0x1_0000_0000_0000
    ensures Combine(id1, index1) == Combine(id2, index2) <==> index1 == index2 && Alike(id1, id2)
  {
    if Combine(id1, index1) == Combine(id2, index2) {
      SameOnlyIf(id1, index1, id2, index2);
    }
    if index1 == index2 && id1 & 0xffff == id2 & 0xffff {
      SameIf(id1, id2, index1);
    }
  }

  lemma ReuseIf(id: bv64, k: bv64, index: bv64)
    requires k & 0xffff == 0
    ensures Combine(id + k, index) == Combine(id, index)
  {
  }

  lemma ReuseOnlyIf(id: bv64, k: bv64, index: bv64)
    requires index < 0x1_0000_0000_0000
    requires Combine(id + k, index) == Combine(id, index)
    ensures k & 0xffff == 0
  {
  }

  /** Two sessions of one slot, `k` IDs apart, share a handle exactly when `k` is a multiple of 2^16. */
  lemma Reuse(id: bv64, k: bv64, index: bv64)
    requires index < 0x1_0000_0000_0000
    ensures Combine(id + k, index) == Combine(id, index) <==> k & 0xffff == 0
  {
    if Combine(id + k, index) == Combine(id, index) {
      ReuseOnlyIf(id, k, index);
    }
    if k & 0xffff == 0 {
      ReuseIf(id, k, index);
    }
  }

  /** So the handles of any 65536 consecutive IDs are distinct. */
  lemma Window(id: bv64, k: bv64, index: bv64)
    requires index < 0x1_0000_0000_0000 && 0 < k < 0x10000
    ensures Combine(id + k, index) != Combine(id, index)
  {
    Reuse(id, k, index);
    assert k & 0xffff == k;
  }

  /** No handle of a slot below 2^16 is the value Session::Init stores. */
  lemma NotSentinel(id: bv64, index: bv64)
    requires index < 0x10000
    ensures Combine(id, index) != SENTINEL == 0xFFFF_FFFF_FFFF_FFFF
  {
  }
}
