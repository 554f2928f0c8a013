/** Arithmetic facts that several proofs use. */
module Arithmetic {

  lemma ProductGrows(a: int, b: int, c: nat)
    requires a <= b
    ensures a * c <= b * c
  {
  }
}
