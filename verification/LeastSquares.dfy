/** Why the normal equations of backend/anomaly/structural_break.rs give the least residual
    sum of squares, and give it as y'y - beta'X'y. The rows of `X` are the regressors. */
module LeastSquares {
  import opened Reals
  import opened Vectors
  import opened GaussianElimination

  /** X c */
  function Fit(X: Mat, c: Vec): (r: Vec)
    requires Rect(X, |c|)
    ensures |r| == |X|
  {
    seq(|X|, t requires 0 <= t < |X| => Dot(X[t], c))
  }

  /** X' w, the sum of the rows weighted by `w`. */
  function Combine(X: Mat, k: nat, w: Vec): (r: Vec)
    requires Rect(X, k) && |w| == |X|
    ensures |r| == k
  {
    if X == [] then Zeros(k)
    else
      var m := |X| - 1;
      Axpy(Combine(X[..m], k, w[..m]), -w[m], X[m])
  }

  function Column(X: Mat, k: nat, i: nat): (r: Vec)
    requires Rect(X, k) && i < k
    ensures |r| == |X|
  {
    seq(|X|, t requires 0 <= t < |X| => X[t][i])
  }

  /** The rows (x, y). */
  function Augmented(X: Mat, y: Vec, k: nat): (r: Mat)
    requires Rect(X, k) && |y| == |X|
    ensures |r| == |X| && Rect(r, k + 1)
  {
    seq(|X|, t requires 0 <= t < |X| => X[t] + [y[t]])
  }

  /** Row `i` of [X'X | X'y]: the observations (x, y) summed with weights x[i]. */
  function NormalRow(X: Mat, y: Vec, k: nat, i: nat): (r: Vec)
    requires Rect(X, k) && |y| == |X| && i < k
    ensures |r| == k + 1
  {
    Combine(Augmented(X, y, k), k + 1, Column(X, k, i))
  }

  function NormalMatrix(X: Mat, y: Vec, k: nat): (m: Mat)
    requires Rect(X, k) && |y| == |X|
    ensures |m| == k && Rect(m, k + 1)
  {
    seq(k, i requires 0 <= i < k => NormalRow(X, y, k, i))
  }

  /** X'y, the last column of the normal matrix. */
  function CrossVector(X: Mat, y: Vec, k: nat): (r: Vec)
    requires Rect(X, k) && |y| == |X|
    ensures |r| == k
  {
    seq(k, i requires 0 <= i < k => NormalRow(X, y, k, i)[k])
  }

  function Residuals(X: Mat, y: Vec, b: Vec): (r: Vec)
    requires Rect(X, |b|) && |y| == |X|
    ensures |r| == |X|
  {
    Axpy(y, 1.0, Fit(X, b))
  }

  /** The residual sum of squares of coefficients `b`. */
  function SSR(X: Mat, y: Vec, b: Vec): real
    requires Rect(X, |b|) && |y| == |X|
  {
    Dot(Residuals(X, y, b), Residuals(X, y, b))
  }

  lemma {:induction false} SquareNonnegative(a: Vec)
    ensures Dot(a, a) >= 0.0
  {
    if a != [] {
      SquareNonnegative(a[..|a| - 1]);
      assert a[|a| - 1] * a[|a| - 1] >= 0.0;
    }
  }

  lemma {:induction false} ZeroSquare(a: Vec)
    requires Dot(a, a) == 0.0
    ensures forall i :: 0 <= i < |a| ==> a[i] == 0.0
  {
    if a != [] {
      var m := |a| - 1;
      SquareNonnegative(a[..m]);
      SquareSign(a[m], a[m] * a[m]);
      ZeroSquare(a[..m]);
    }
  }

  lemma FitStep(X: Mat, c: Vec, m: nat, f: real)
    requires Rect(X, |c|) && |X| == m + 1 && f == Dot(X[m], c)
    ensures Fit(X, c) == Fit(X[..m], c) + [f]
  {
  }

  lemma CombineStep(X: Mat, k: nat, w: Vec, m: nat, u: real)
    requires Rect(X, k) && |w| == |X| == m + 1 && u == w[m]
    ensures Combine(X, k, w) == Axpy(Combine(X[..m], k, w[..m]), -u, X[m])
  {
  }

  /** w'(Xc) == (X'w)'c */
  lemma {:induction false} Adjoint(X: Mat, w: Vec, c: Vec)
    requires Rect(X, |c|) && |w| == |X|
    ensures Dot(w, Fit(X, c)) == Dot(Combine(X, |c|, w), c)
  {
    if X == [] {
      DotZero(Zeros(|c|), c);
    } else {
      var m := |X| - 1;
      var k, p, u, v, x := |c|, Combine(X[..m], |c|, w[..m]), w[m], w[..m], X[m];
      var f, fit := Dot(x, c), Fit(X[..m], c);
      Adjoint(X[..m], v, c);
      FitStep(X, c, m, f);
      CombineStep(X, k, w, m, u);
      assert w == v + [u];
      DotLast(v, fit, u, f);
      DotPlus(p, u, x, c, f);
    }
  }

  lemma {:induction false} CombineAt(X: Mat, k: nat, w: Vec, i: nat)
    requires Rect(X, k) && |w| == |X| && i < k
    ensures Combine(X, k, w)[i] == Dot(w, Column(X, k, i))
  {
    if X != [] {
      var m := |X| - 1;
      CombineAt(X[..m], k, w[..m], i);
      assert Column(X, k, i)[..m] == Column(X[..m], k, i);
    }
  }

  /** X'X is symmetric. */
  lemma NormalSymmetric(X: Mat, y: Vec, k: nat, i: nat, j: nat)
    requires Rect(X, k) && |y| == |X| && i < k && j < k
    ensures NormalRow(X, y, k, i)[j] == NormalRow(X, y, k, j)[i] == Dot(Column(X, k, i), Column(X, k, j))
  {
    var A := Augmented(X, y, k);
    CombineAt(A, k + 1, Column(X, k, i), j);
    CombineAt(A, k + 1, Column(X, k, j), i);
    assert Column(A, k + 1, j) == Column(X, k, j) && Column(A, k + 1, i) == Column(X, k, i);
    DotSymmetric(Column(X, k, i), Column(X, k, j));
  }

  /** X'y is the combination of the rows weighted by `y`. */
  lemma CrossVectorIsCombine(X: Mat, y: Vec, k: nat)
    requires Rect(X, k) && |y| == |X|
    ensures CrossVector(X, y, k) == Combine(X, k, y)
  {
    forall i | 0 <= i < k ensures CrossVector(X, y, k)[i] == Combine(X, k, y)[i] {
      CombineAt(Augmented(X, y, k), k + 1, Column(X, k, i), k);
      assert Column(Augmented(X, y, k), k + 1, k) == y;
      CombineAt(X, k, y, i);
      DotSymmetric(y, Column(X, k, i));
    }
  }

  /** The rows (x, y) against (b, -1) give the residuals, negated. */
  lemma FitAugmented(X: Mat, y: Vec, b: Vec)
    requires Rect(X, |b|) && |y| == |X|
    ensures Fit(Augmented(X, y, |b|), b + [-1.0]) == Axpy(Zeros(|X|), 1.0, Residuals(X, y, b))
  {
    var v, e := b + [-1.0], Residuals(X, y, b);
    forall t | 0 <= t < |X| ensures Fit(Augmented(X, y, |b|), v)[t] == Axpy(Zeros(|X|), 1.0, e)[t] {
      DotConcat(X[t], [y[t]], b, [-1.0]);
      DotOne(y[t], -1.0);
      assert e[t] == y[t] - 1.0 * Dot(X[t], b);
    }
  }

  /** Row `i` of the normal equations says that the residuals are orthogonal to column `i`. */
  lemma NormalRowResidual(X: Mat, y: Vec, b: Vec, i: nat)
    requires Rect(X, |b|) && |y| == |X| && i < |b|
    ensures Dot(NormalRow(X, y, |b|, i), b + [-1.0]) == -Combine(X, |b|, Residuals(X, y, b))[i]
  {
    var k, e, v := |b|, Residuals(X, y, b), b + [-1.0];
    var col, minus := Column(X, k, i), Axpy(Zeros(|X|), 1.0, e);
    hide Dot, Combine, Residuals, Axpy;
    Adjoint(Augmented(X, y, k), col, v);
    FitAugmented(X, y, b);
    DotSymmetric(col, minus);
    DotMinus(e, col);
    CombineAt(X, k, e, i);
  }

  lemma {:induction false} DotMinus(e: Vec, w: Vec)
    requires |e| == |w|
    ensures Dot(Axpy(Zeros(|e|), 1.0, e), w) == -Dot(e, w)
  {
    if e != [] {
      var m, minus := |e| - 1, Axpy(Zeros(|e|), 1.0, e);
      assert minus[..m] == Axpy(Zeros(m), 1.0, e[..m]) && minus[m] == -e[m];
      DotMinus(e[..m], w[..m]);
    }
  }

  /** At a solution of the normal equations the residuals are orthogonal to every fit. */
  lemma ResidualsOrthogonal(X: Mat, y: Vec, b: Vec, c: Vec)
    requires Rect(X, |b|) && |y| == |X| && |c| == |b| && Solves(NormalMatrix(X, y, |b|), b)
    ensures Dot(Residuals(X, y, b), Fit(X, c)) == 0.0
  {
    var g := Combine(X, |b|, Residuals(X, y, b));
    forall i | 0 <= i < |b| ensures g[i] == 0.0 {
      assert NormalMatrix(X, y, |b|)[i] == NormalRow(X, y, |b|, i);
      NormalRowResidual(X, y, b, i);
    }
    Adjoint(X, Residuals(X, y, b), c);
    DotZero(g, c);
  }

  /** |e - f|^2 == |e|^2 - 2 e'f + |f|^2 */
  lemma SquareOfDifference(e: Vec, f: Vec)
    requires |e| == |f|
    ensures var r := Axpy(e, 1.0, f); Dot(r, r) == Dot(e, e) - 2.0 * Dot(e, f) + Dot(f, f)
  {
    hide Dot, Axpy;
    var r := Axpy(e, 1.0, f);
    AgainstDifference(e, f, e);
    AgainstDifference(e, f, f);
    DotAxpy(e, 1.0, f, r);
    DotSymmetric(e, f);
  }

  lemma AgainstDifference(e: Vec, f: Vec, w: Vec)
    requires |e| == |f| == |w|
    ensures Dot(w, Axpy(e, 1.0, f)) == Dot(e, w) - Dot(f, w)
  {
    hide Dot, Axpy;
    DotAxpy(e, 1.0, f, w);
    DotSymmetric(w, Axpy(e, 1.0, f));
  }

  lemma FitOfDifference(X: Mat, a: Vec, b: Vec)
    requires Rect(X, |a|) && |b| == |a|
    ensures Fit(X, Axpy(a, 1.0, b)) == Axpy(Fit(X, a), 1.0, Fit(X, b))
  {
    var d := Axpy(a, 1.0, b);
    forall t | 0 <= t < |X| ensures Fit(X, d)[t] == Axpy(Fit(X, a), 1.0, Fit(X, b))[t] {
      DotSymmetric(X[t], d);
      DotAxpy(a, 1.0, b, X[t]);
      DotSymmetric(a, X[t]);
      DotSymmetric(b, X[t]);
    }
  }

  lemma SSRConcat(X: Mat, y: Vec, Z: Mat, z: Vec, b: Vec)
    requires Rect(X, |b|) && |y| == |X| && Rect(Z, |b|) && |z| == |Z|
    ensures Rect(X + Z, |b|) && SSR(X + Z, y + z, b) == SSR(X, y, b) + SSR(Z, z, b)
  {
    var e, f := Residuals(X, y, b), Residuals(Z, z, b);
    assert Residuals(X + Z, y + z, b) == e + f;
    DotConcat(e, f, e, f);
  }

  /** A solution of the normal equations: y'y - beta'X'y is its residual sum of squares. */
  lemma RssFormula(X: Mat, y: Vec, beta: Vec)
    requires Rect(X, |beta|) && |y| == |X| && Solves(NormalMatrix(X, y, |beta|), beta)
    ensures Dot(y, y) - Dot(beta, CrossVector(X, y, |beta|)) == SSR(X, y, beta)
  {
    var e, f := Residuals(X, y, beta), Fit(X, beta);
    ResidualsOrthogonal(X, y, beta, beta);
    CrossVectorIsCombine(X, y, |beta|);
    Adjoint(X, y, beta);
    DotSymmetric(beta, CrossVector(X, y, |beta|));
    DotAxpy(y, 1.0, f, e);
    DotAxpy(y, 1.0, f, y);
    DotSymmetric(y, e);
    DotSymmetric(f, y);
    DotSymmetric(f, e);
  }

  /** No coefficients have a smaller residual sum of squares. */
  lemma NormalEquationsMinimise(X: Mat, y: Vec, beta: Vec, b: Vec)
    requires Rect(X, |beta|) && |y| == |X| && |b| == |beta| && Solves(NormalMatrix(X, y, |beta|), beta)
    ensures SSR(X, y, beta) <= SSR(X, y, b)
  {
    var c := Axpy(b, 1.0, beta);
    var e, f := Residuals(X, y, beta), Fit(X, c);
    FitOfDifference(X, b, beta);
    ResidualsOrthogonal(X, y, beta, c);
    assert Residuals(X, y, b) == Axpy(e, 1.0, f);
    SquareOfDifference(e, f);
    SquareNonnegative(f);
  }
}
