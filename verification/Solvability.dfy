/** Exactly when backend/anomaly/structural_break.rs gets a finite residual sum: enough
    observations, independent regressors, and no pivot of X'X lost to the fixed tolerance. */
module Solvability {
  import opened Options
  import opened Vectors
  import opened Floats
  import opened GaussianElimination
  import opened SingularSystems
  import opened LeastSquares
  import opened StructuralBreak

  /** X'X, the rows of `X` summed with the weights of each column. */
  function Gram(X: Mat, k: nat): (m: Mat)
    requires Rect(X, k)
    ensures |m| == k && Rect(m, k)
  {
    seq(k, i requires 0 <= i < k => Combine(X, k, Column(X, k, i)))
  }

  lemma GramIsFront(X: Mat, y: Vec, k: nat)
    requires Rect(X, k) && |y| == |X|
    ensures SameFront(NormalMatrix(X, y, k), k + 1, Gram(X, k), k)
  {
    forall i, j | 0 <= i < k && 0 <= j < k ensures NormalMatrix(X, y, k)[i][j] == Gram(X, k)[i][j] {
      NormalSymmetric(X, y, k, i, j);
      CombineAt(X, k, Column(X, k, i), j);
    }
  }

  /** Some regressor is a combination of the others. */
  ghost predicate Dependent(X: Mat, k: nat) {
    exists v: Vec :: |v| == k && Collinear(X, v)
  }

  /** Eliminating X'X meets a pivot that is not zero and below the tolerance. */
  predicate TinyPivot(X: Mat, k: nat)
    requires Rect(X, k)
  {
    var p := StoppingPivot(Gram(X, k), k, SINGULAR, 0);
    p.Some? && p.value > 0.0
  }

  lemma SolveStops(X: Mat, y: Vec, k: nat)
    requires Rect(X, k) && |y| == |X|
    ensures Solve(NormalMatrix(X, y, k)).None? <==> StoppingPivot(Gram(X, k), k, SINGULAR, 0).Some?
  {
    var m := NormalMatrix(X, y, k);
    StopsExactly(m, k + 1, SINGULAR, 0);
    GramIsFront(X, y, k);
    SameStop(m, k + 1, Gram(X, k), k, SINGULAR, 0);
  }

  /** What X'X sends to zero, `X` already does. */
  lemma GramKernel(X: Mat, k: nat, v: Vec)
    requires Rect(X, k) && |v| == k && Orthogonal(Gram(X, k), v)
    ensures forall t :: 0 <= t < |X| ==> Dot(X[t], v) == 0.0
  {
    var f := Fit(X, v);
    var g := Combine(X, k, f);
    forall i | 0 <= i < k ensures g[i] == 0.0 {
      var c := Column(X, k, i);
      Adjoint(X, c, v);
      assert Dot(Gram(X, k)[i], v) == 0.0;
      CombineAt(X, k, f, i);
      DotSymmetric(c, f);
    }
    Adjoint(X, f, v);
    DotZero(g, v);
    ZeroSquare(f);
    forall t | 0 <= t < |X| ensures Dot(X[t], v) == 0.0 { assert f[t] == 0.0; }
  }

  lemma ZeroPivotIsDependence(X: Mat, k: nat)
    requires Rect(X, k) && StoppingPivot(Gram(X, k), k, SINGULAR, 0) == Some(0.0)
    ensures Dependent(X, k)
  {
    var v, i := ZeroPivotKernel(Gram(X, k), k, SINGULAR, 0);
    GramKernel(X, k, v);
    assert v != Zeros(k) by { assert v[i] != Zeros(k)[i]; }
    assert Collinear(X, v);
  }

  /** The residual sum is finite exactly for more observations than regressors, none of them a
      combination of the others, and no pivot of X'X strictly between 0 and the tolerance. */
  lemma RssFiniteExactly(X: Mat, y: Vec, k: nat)
    requires Rect(X, k) && |y| == |X|
    ensures Rss(X, y, k).Num? <==> |X| > k && !Dependent(X, k) && !TinyPivot(X, k)
  {
    SolveStops(X, y, k);
    if Rss(X, y, k).Num? && Dependent(X, k) {
      var v: Vec :| |v| == k && Collinear(X, v);
      CollinearRss(X, y, v);
    }
    if |X| > k && Solve(NormalMatrix(X, y, k)).None? && !TinyPivot(X, k) {
      ZeroPivotIsDependence(X, k);
    }
  }

  /** Whether a regression solves depends on the regressors only. */
  lemma FiniteWhateverResponse(X: Mat, y: Vec, z: Vec, k: nat)
    requires Rect(X, k) && |y| == |z| == |X|
    ensures Rss(X, y, k).Num? <==> Rss(X, z, k).Num?
  {
    SolveStops(X, y, k);
    SolveStops(X, z, k);
  }

  // ----- one regressor: the tolerance is a matter of scale -----

  /** With one regressor the sum of its squares must reach the tolerance. */
  lemma OneRegressor(X: Mat, y: Vec)
    requires Rect(X, 1) && |y| == |X|
    ensures Rss(X, y, 1).Num? <==> |X| > 1 && Dot(Column(X, 1, 0), Column(X, 1, 0)) >= SINGULAR
  {
    var g := Gram(X, 1);
    SolveStops(X, y, 1);
    CombineAt(X, 1, Column(X, 1, 0), 0);
    SquareNonnegative(Column(X, 1, 0));
    assert PivotRow(g, 1, 0, 1) == 0;
  }

  lemma SegmentSquares(X: Mat, i: nat)
    requires Rect(X, 1) && i <= |X|
    ensures var c, head, tail := Column(X, 1, 0), Column(X[..i], 1, 0), Column(X[i..], 1, 0);
            Dot(head, head) <= Dot(c, c) && Dot(tail, tail) <= Dot(c, c)
  {
    var c, head, tail := Column(X, 1, 0), Column(X[..i], 1, 0), Column(X[i..], 1, 0);
    assert c[..i] == head && c[i..] == tail;
    DotSplit(c, c, i);
    SquareNonnegative(head);
    SquareNonnegative(tail);
  }

  /** When no break point leaves two segments that solve, the supremum is 0 whatever the data. */
  lemma UnsolvedScanIsBlind(X: Mat, y: Vec, k: nat, minObs: nat, start: nat, end: nat)
    requires Rect(X, k) && |y| == |X| && k > 0 && ScanOk(|X|, k, minObs, start, end)
    requires forall bp :: start <= bp < end ==> !SegmentsSolve(X, y, k, bp)
    ensures Scanned(ChowResults(X, y, k, minObs, start, end), start).sup == Num(0.0)
  {
    var test := ChowTester(X, y, k, minObs);
    forall bp: nat | start <= bp < end && test(bp).Some? ensures test(bp).value == NaN {
      ChowStatistic(X, y, k, minObs, bp);
    }
    BlindScan(test, start, end);
  }

  /** A regressor whose squares sum to less than the tolerance, independent or not, makes the
      scan report a supremum of 0 however large the break. */
  lemma SmallScaleScanIsBlind(X: Mat, y: Vec, minObs: nat, start: nat, end: nat)
    requires Rect(X, 1) && |y| == |X| && ScanOk(|X|, 1, minObs, start, end)
    requires Dot(Column(X, 1, 0), Column(X, 1, 0)) < SINGULAR
    ensures Scanned(ChowResults(X, y, 1, minObs, start, end), start).sup == Num(0.0)
  {
    forall bp | start <= bp < end ensures !SegmentsSolve(X, y, 1, bp) {
      if bp <= |X| {
        SegmentSquares(X, bp);
        OneRegressor(X[..bp], y[..bp]);
      }
    }
    UnsolvedScanIsBlind(X, y, 1, minObs, start, end);
  }

  /** Two observations of a regressor at 1e-6 are independent and do not solve; at 1e-5 they do. */
  lemma ScaleDecides(y: Vec)
    requires |y| == 2
    ensures Rss([[0.000001], [0.000001]], y, 1) == PosInf && !Dependent([[0.000001], [0.000001]], 1)
    ensures Rss([[0.00001], [0.00001]], y, 1).Num?
  {
    var X, Z: Mat := [[0.000001], [0.000001]], [[0.00001], [0.00001]];
    OneRegressor(X, y);
    OneRegressor(Z, y);
    TwoSquares(0.000001);
    TwoSquares(0.00001);
    assert Column(X, 1, 0) == [0.000001, 0.000001] && Column(Z, 1, 0) == [0.00001, 0.00001];
    forall v: Vec | |v| == 1 ensures !Collinear(X, v) {
      DotOne(0.000001, v[0]);
      assert X[0] == [0.000001] && v == [v[0]];
      if v[0] == 0.0 { assert v == Zeros(1); }
    }
  }

  lemma TwoSquares(x: real)
    ensures Dot([x, x], [x, x]) == 2.0 * (x * x)
  {
    DotOne(x, x);
    DotLast([x], [x], x, x);
    assert [x] + [x] == [x, x];
  }
}
