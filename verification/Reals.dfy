/** Products of reals, kept apart so that no other proof has to reason about them. */
module Reals {
  lemma ProductNonNegative(x: real, y: real)
    requires x >= 0.0 && y >= 0.0
    ensures x * y >= 0.0
  {
  }

  lemma ProductGrows(x: real, y: real, m: real)
    requires x <= y && m >= 0.0
    ensures x * m <= y * m
  {
    ProductNonNegative(y - x, m);
    assert (y - x) * m == y * m - x * m;
  }

  /** A positive factor can be cancelled. */
  lemma CancelFactor(x: real, y: real, m: real)
    requires m > 0.0 && x * m <= y * m
    ensures x <= y
  {
    assert (x - y) * m == x * m - y * m;
    PositiveProduct(x - y, m);
  }

  lemma PositiveProduct(x: real, m: real)
    requires m > 0.0
    ensures x > 0.0 ==> x * m > 0.0
  {
  }

  lemma QuotientTimes(x: real, m: real)
    requires m != 0.0
    ensures x / m * m == x
  {
  }
}
