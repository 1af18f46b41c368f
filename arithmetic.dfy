/** Small facts of integer arithmetic shared by the other modules. */
module Arithmetic {

  /** Multiplying an inequality by a non-negative factor keeps it. */
  lemma MulLeft(a: int, b: int, c: int)
    requires a <= b && c >= 0
    ensures a * c <= b * c
  {
  }
}
