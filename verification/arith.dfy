/** Facts of natural-number arithmetic shared by the shape computations. */
module Arith {

  lemma MultiplyMonotone(a: nat, b: nat, c: nat)
    requires a <= b
    ensures a * c <= b * c
  {
  }

  lemma MultiplyByPositive(a: nat, b: nat)
    requires b >= 1
    ensures a * b >= a
  {
  }

  /** `x / s` whole blocks of `s` fit in `x`, and one more would not. */
  lemma FloorDivision(x: nat, s: nat)
    requires s >= 1
    ensures (x / s) * s <= x < (x / s) * s + s
    ensures (x / s) * s + s == (x / s + 1) * s
  {
  }
}
