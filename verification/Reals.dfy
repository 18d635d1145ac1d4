/** Sign laws of products, squares and quotients that the solver needs named. */
module Reals {
  /** `w` times `f` is `p`. */
  predicate Scales(w: real, f: real, p: real) {
    w * f == p
  }

  lemma ProductNonnegative(x: real, y: real)
    requires x >= 0.0 && y >= 0.0
    ensures x * y >= 0.0
  {
  }

  lemma ProductPositive(x: real, y: real)
    requires x > 0.0 && y > 0.0
    ensures x * y > 0.0
  {
  }

  lemma QuotientNonnegative(x: real, k: real)
    requires x >= 0.0 && k > 0.0
    ensures x / k >= 0.0
  {
  }

  lemma SquareSign(x: real, y: real)
    requires y == x * x
    ensures y >= 0.0 && (y == 0.0 <==> x == 0.0)
  {
    if x != 0.0 { assert y / x == x; }
  }

  lemma SameProduct(n: real, a: real, b: real)
    requires n > 0.0 && n * a == n * b
    ensures a == b
  {
    assert n * (a - b) == 0.0;
  }

  lemma RatioAtLeast(x: real, t: real, theta: real)
    requires t > 0.0
    ensures x / t >= theta <==> x >= theta * t
  {
    var d := x / t - theta;
    assert (x / t) * t == x && d * t == (x / t) * t - theta * t;
    if d >= 0.0 {
      ProductNonnegative(d, t);
    } else {
      ProductPositive(-d, t);
      assert -d * t == -(d * t);
    }
  }
}
