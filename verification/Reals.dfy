/** A fact about real products that the solver is told rather than left to find. */
module Reals {
  lemma ProductNonNegative(a: real, b: real)
    requires a >= 0.0 && b >= 0.0
    ensures a * b >= 0.0
  {
  }
}
