/** Equality of bit vectors through their differing bits, which the solver finds much easier. */
module BitFacts {
  function Diff(a: bv64, b: bv64): bv64 { a ^ b }

  function Diff32(a: bv32, b: bv32): bv32 { a ^ b }

  lemma Same(a: bv64, b: bv64)
    requires Diff(a, b) == 0
    ensures a == b
  {
  }

  lemma Same32(a: bv32, b: bv32)
    requires Diff32(a, b) == 0
    ensures a == b
  {
  }
}
