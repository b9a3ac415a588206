/** Small facts of arithmetic several modules share. */
module Arithmetic {
  function Least(a: nat, b: nat): nat { if a <= b then a else b }

  lemma MulMonotone(a: nat, b: nat, c: nat)
    requires a <= b
    ensures a * c <= b * c && c * a <= c * b
  {
  }
}
