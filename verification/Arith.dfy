/** Sign rules for products of reals, one call each: the solver does not find them inside larger terms. */
module Arith {

  lemma MulPos(u: real, v: real)
    requires u > 0.0 && v > 0.0
    ensures u * v > 0.0
  {
  }

  lemma MulNonneg(u: real, v: real)
    requires u >= 0.0 && v >= 0.0
    ensures u * v >= 0.0
  {
  }

  lemma MulLe(u: real, v: real, w: real)
    requires u <= v && w >= 0.0
    ensures u * w <= v * w
  {
  }

  lemma LessByFactor(u: real, v: real, k: real)
    requires k > 0.0 && u * k <= v * k
    ensures u <= v
  {
    if u > v { MulPos(u - v, k); }
  }

  lemma MulLeNat(u: nat, v: nat, w: nat)
    requires u <= v
    ensures u * w <= v * w
  {
  }

  lemma DivMul(u: real, v: real)
    requires v != 0.0
    ensures u / v * v == u
  {
  }

  lemma MulZero(u: real, v: real)
    requires v == 0.0
    ensures u * v == 0.0
  {
  }

  lemma ProductPos(u: real, v: real, w: real)
    requires u > 0.0 && v > 0.0 && w == u * v
    ensures w > 0.0
  {
  }

  lemma SquareNonneg(u: real)
    ensures u * u >= 0.0
  {
  }
}
