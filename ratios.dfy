/** Facts about dividing by a positive real, used for frequencies and scores. */
module Ratios {

  /** A positive number divided by itself is 1. */
  lemma DivSelf(n: real)
    requires n > 0.0
    ensures n / n == 1.0
  {
  }

  /** Fractions over one positive denominator add numerator by numerator. */
  lemma DivAdd(a: real, b: real, n: real)
    requires n > 0.0
    ensures a / n + b / n == (a + b) / n
  {
  }

  /** Dividing by a positive number keeps the sign. */
  lemma DivSign(x: real, d: real)
    requires d > 0.0
    ensures x >= 0.0 ==> x / d >= 0.0
    ensures x / d == 0.0 <==> x == 0.0
  {
    assert (x / d) * d == x;
  }

  /** Dividing by a positive number keeps the order. */
  lemma DivOrder(x: real, y: real, d: real)
    requires d > 0.0
    ensures x < y <==> x / d < y / d
  {
    assert (x / d) * d == x && (y / d) * d == y;
    if x < y {
      assert (y - x) / d > 0.0;
      assert y / d - x / d == (y - x) / d;
    } else {
      assert (x - y) / d >= 0.0;
      assert x / d - y / d == (x - y) / d;
    }
  }
}
