/** Facts about products of integers that the solver does not find unaided. */
module Arithmetic {
  /** Multiplying by a count keeps the order of the factors. */
  lemma MulLe(a: int, b: int, c: nat)
    requires a <= b
    ensures a * c <= b * c
  {
    assert b * c - a * c == (b - a) * c;
  }
}
