/** Runs of the estimator of backend/anomaly/mahalanobis_math.rs, its covariance matrix, and
    the squared distance computed from it. */
module CovarianceEstimator {
  import opened Options
  import opened Reals
  import opened Vectors
  import opened VectorLaws
  import opened Windows
  import opened LeastSquares
  import opened GaussJordan
  import opened Invertibility
  import opened RollingCovariance

  // ----- runs -----

  datatype Estimator = Estimator(moments: Moments, buffer: Mat)

  ghost predicate Fits(e: Estimator, d: nat) {
    |e.moments.mean| == d && |e.moments.m2| == |Cells(d)| && Rect(e.buffer, d)
  }

  function Initial(d: nat): Estimator {
    Estimator(Moments(0, Zeros(d), Zeros(|Cells(d)|)), [])
  }

  /** Whether the first sample is counted, and whether a removal clamps covariances at 0 as well
      as variances. */
  datatype Version = Version(counts: bool, clampAll: bool)

  const SHIPPED: Version := Version(false, true)
  const REPAIRED: Version := Version(true, false)

  /** One observation. */
  function Step(e: Estimator, x: Vec, w: nat, version: Version): (r: Estimator)
    requires Fits(e, |x|)
    ensures Fits(r, |x|)
  {
    if e.moments.n == 0 then
      Estimator(Moments(if version.counts then 1 else 0, x, e.moments.m2), e.buffer + [x])
    else
      var added := Inserted(e.moments, x);
      if |e.buffer| >= w && e.buffer != [] then
        Estimator(Removed(added, e.buffer[0], version.clampAll), e.buffer[1..] + [x])
      else
        Estimator(added, e.buffer + [x])
  }

  function Run(xs: Mat, d: nat, w: nat, version: Version): (r: Estimator)
    requires Rect(xs, d)
    ensures Fits(r, d)
  {
    if xs == [] then Initial(d)
    else Step(Run(xs[..|xs| - 1], d, w, version), xs[|xs| - 1], w, version)
  }

  /** As shipped the sample count never leaves 0: after any run the mean is the last
      observation, the products are all 0 and the buffer is the whole history. */
  lemma {:induction false} ShippedNeverCounts(xs: Mat, d: nat, w: nat)
    requires Rect(xs, d) && xs != []
    ensures Run(xs, d, w, SHIPPED) == Estimator(Moments(0, xs[|xs| - 1], Zeros(|Cells(d)|)), xs)
  {
    var m := |xs| - 1;
    assert xs == xs[..m] + [xs[m]];
    if m > 0 { ShippedNeverCounts(xs[..m], d, w); }
  }

  lemma SingleBatch(x: Vec)
    ensures Batch([x], |x|) == Moments(1, x, Zeros(|Cells(|x|)|))
  {
    var d, cells := |x|, Cells(|x|);
    forall i | 0 <= i < d ensures MeanOf([x], d)[i] == x[i] {
      assert Column([x], d, i) == [x[i]] && Ones(1) == [1.0];
      DotOne(1.0, x[i]);
    }
    assert MeanOf([x], d) == x;
    forall p | 0 <= p < |cells| ensures Batch([x], d).m2[p] == 0.0 {
      var c := Column(Centered([x], d), d, cells[p].0);
      assert c == [0.0];
      DotZero(c, Column(Centered([x], d), d, cells[p].1));
    }
  }

  /** One step on top of batch moments. */
  lemma RepairedStep(b: Mat, d: nat, x: Vec, w: nat)
    requires Rect(b, d) && b != [] && |x| == d
    ensures var e := Step(Estimator(Batch(b, d), b), x, w, REPAIRED);
            e.buffer == (if |b| >= w then b[1..] else b) + [x] && e.moments == Batch(e.buffer, d)
  {
    InsertIsBatch(b, d, x);
    if |b| >= w {
      var rest := b[1..] + [x];
      assert b + [x] == [b[0]] + rest;
      RemoveIsBatch(rest, d, b[0]);
    }
  }

  lemma LastOfStep(xs: Mat, x: Vec, w: nat)
    requires w >= 1
    ensures var l := LastOf(xs, w); (if |l| >= w then l[1..] else l) + [x] == LastOf(xs + [x], w)
  {
  }

  /** A removal never empties the window. */
  function Width(w: nat): nat {
    if w == 0 then 1 else w
  }

  ghost predicate Tracks(e: Estimator, xs: Mat, d: nat, w: nat) {
    && Rect(e.buffer, d) && e.buffer != []
    && e.buffer == LastOf(xs, Width(w))
    && e.moments == Batch(e.buffer, d)
  }

  lemma TracksStep(e: Estimator, xs: Mat, d: nat, x: Vec, w: nat)
    requires Rect(xs, d) && |x| == d && xs != [] && Tracks(e, xs, d, w)
    ensures Tracks(Step(e, x, w, REPAIRED), xs + [x], d, w)
  {
    RepairedStep(e.buffer, d, x, w);
    LastOfStep(xs, x, Width(w));
  }

  /** With the two repairs, after any run the moments are the batch moments of exactly the last
      window: mean vector, and centered cross products in every slot. */
  lemma {:induction false} RepairedIsBatch(xs: Mat, d: nat, w: nat)
    requires Rect(xs, d) && xs != []
    ensures Tracks(Run(xs, d, w, REPAIRED), xs, d, w)
  {
    var m := |xs| - 1;
    var x := xs[m];
    assert xs == xs[..m] + [x];
    if m == 0 {
      SingleBatch(x);
    } else {
      RepairedIsBatch(xs[..m], d, w);
      TracksStep(Run(xs[..m], d, w, REPAIRED), xs[..m], d, x, w);
    }
  }

  // ----- the covariance matrix -----

  function Entry(s: Moments, d: nat, i: nat, j: nat): real
    requires |s.m2| == |Cells(d)| && i < d && j < d && s.n >= 2
  {
    var (a, b) := if i <= j then (i, j) else (j, i);
    CellAt(d, a, b);
    s.m2[Slot(d, a, b)] / (s.n - 1) as real
  }

  /** The identity until there are two samples. */
  function CovarianceOf(s: Moments, d: nat): (c: Mat)
    requires |s.m2| == |Cells(d)|
    ensures |c| == d && Square(c)
  {
    if s.n < 2 then Identity(d)
    else seq(d, i requires 0 <= i < d => seq(d, j requires 0 <= j < d => Entry(s, d, i, j)))
  }

  function Regularised(c: Mat, reg: real): (r: Mat)
    requires Square(c)
    ensures |r| == |c| && Square(r)
  {
    seq(|c|, i requires 0 <= i < |c| => Axpy(c[i], -reg, Unit(|c|, i)))
  }

  lemma BatchEntry(D: Mat, d: nat, i: nat, j: nat)
    requires Rect(D, d) && |D| >= 2 && i < d && j < d
    ensures Entry(Batch(D, d), d, i, j) == Cross(D, d, i, j) / (|D| - 1) as real
  {
    var (a, b) := if i <= j then (i, j) else (j, i);
    CellAt(d, a, b);
    DotSymmetric(Column(Centered(D, d), d, i), Column(Centered(D, d), d, j));
  }

  /** The covariance is the identity for fewer than two samples, and otherwise the centered cross
      products over one less than their number. */
  lemma CovarianceEntries(D: Mat, d: nat, i: nat, j: nat)
    requires Rect(D, d) && D != [] && i < d && j < d
    ensures CovarianceOf(Batch(D, d), d)[i][j]
         == if |D| < 2 then (if i == j then 1.0 else 0.0) else Cross(D, d, i, j) / (|D| - 1) as real
  {
    if |D| >= 2 { BatchEntry(D, d, i, j); }
  }

  /** As shipped it is the identity after any run, and the observation just taken in is at
      distance 0, because it has become the mean. */
  lemma ShippedCovariance(xs: Mat, d: nat, w: nat, i: nat, j: nat)
    requires Rect(xs, d) && xs != [] && i < d && j < d
    ensures var s := Run(xs, d, w, SHIPPED).moments;
            CovarianceOf(s, d)[i][j] == (if i == j then 1.0 else 0.0) && xs[|xs| - 1][i] - s.mean[i] == 0.0
  {
    ShippedNeverCounts(xs, d, w);
  }

  /** Matrices whose entries are scaled dot products of the columns of X. */
  ghost predicate IsGram(c: Mat, X: Mat, k: real)
    requires Square(c) && Rect(X, |c|) && k != 0.0
  {
    forall i, j :: 0 <= i < |c| && 0 <= j < |c| ==>
      c[i][j] == Dot(Column(X, |c|, i), Column(X, |c|, j)) / k
  }

  lemma GramRow(c: Mat, X: Mat, k: real, i: nat, z: Vec)
    requires Square(c) && Rect(X, |c|) && k != 0.0 && IsGram(c, X, k) && i < |c| == |z|
    ensures Dot(c[i], z) == Combine(X, |c|, Fit(X, z))[i] / k
  {
    var d, col := |c|, Column(X, |c|, i);
    forall j | 0 <= j < d ensures c[i][j] == Scaled(Combine(X, d, col), k)[j] {
      CombineAt(X, d, col, j);
    }
    assert c[i] == Scaled(Combine(X, d, col), k);
    DotScaled(Combine(X, d, col), k, z);
    Adjoint(X, col, z);
    DotSymmetric(col, Fit(X, z));
    CombineAt(X, d, Fit(X, z), i);
  }

  lemma GramFit(c: Mat, X: Mat, k: real, z: Vec)
    requires Square(c) && Rect(X, |c|) && k != 0.0 && IsGram(c, X, k) && |z| == |c|
    ensures Fit(c, z) == Scaled(Combine(X, |c|, Fit(X, z)), k)
  {
    forall i | 0 <= i < |c| ensures Fit(c, z)[i] == Scaled(Combine(X, |c|, Fit(X, z)), k)[i] {
      GramRow(c, X, k, i, z);
    }
  }

  /** z'Cz == |Xz|^2 / k */
  lemma GramQuadratic(c: Mat, X: Mat, k: real, z: Vec)
    requires Square(c) && Rect(X, |c|) && k > 0.0 && IsGram(c, X, k) && |z| == |c|
    ensures Dot(z, Fit(c, z)) == Dot(Fit(X, z), Fit(X, z)) / k >= 0.0
  {
    var f := Fit(X, z);
    var g := Combine(X, |c|, f);
    calc {
      Dot(z, Fit(c, z));
      { GramFit(c, X, k, z); }
      Dot(z, Scaled(g, k));
      { DotSymmetric(z, Scaled(g, k)); }
      Dot(Scaled(g, k), z);
      { DotScaled(g, k, z); }
      Dot(g, z) / k;
      { Adjoint(X, f, z); }
      Dot(f, f) / k;
    }
    SquareNonnegative(f);
    QuotientNonnegative(Dot(f, f), k);
  }

  lemma GramSemidefinite(c: Mat, X: Mat, k: real)
    requires Square(c) && Rect(X, |c|) && k > 0.0 && IsGram(c, X, k)
    ensures PositiveSemidefinite(c)
  {
    forall z: Vec | |z| == |c| ensures Dot(z, Fit(c, z)) >= 0.0 {
      GramQuadratic(c, X, k, z);
    }
  }

  lemma BatchIsGram(D: Mat, d: nat)
    requires Rect(D, d) && |D| >= 2
    ensures IsGram(CovarianceOf(Batch(D, d), d), Centered(D, d), (|D| - 1) as real)
  {
    var c := CovarianceOf(Batch(D, d), d);
    forall i, j | 0 <= i < d && 0 <= j < d
      ensures c[i][j] == Dot(Column(Centered(D, d), d, i), Column(Centered(D, d), d, j)) / (|D| - 1) as real
    {
      BatchEntry(D, d, i, j);
    }
  }

  lemma CovarianceSymmetric(s: Moments, d: nat)
    requires |s.m2| == |Cells(d)|
    ensures Symmetric(CovarianceOf(s, d))
  {
  }

  lemma WindowSemidefinite(D: Mat, d: nat, c: Mat)
    requires Rect(D, d) && |D| >= 2 && c == CovarianceOf(Batch(D, d), d)
    ensures PositiveSemidefinite(c)
  {
    BatchIsGram(D, d);
    GramSemidefinite(c, Centered(D, d), (|D| - 1) as real);
  }

  /** The covariance of any batch is symmetric and positive semidefinite. */
  lemma CovarianceSemidefinite(D: Mat, d: nat, c: Mat)
    requires Rect(D, d) && D != [] && c == CovarianceOf(Batch(D, d), d)
    ensures Symmetric(c) && PositiveSemidefinite(c)
  {
    CovarianceSymmetric(Batch(D, d), d);
    if |D| >= 2 {
      WindowSemidefinite(D, d, c);
    } else {
      assert c == Identity(d);
      IdentitySemidefinite(d);
    }
  }

  lemma IdentityFit(z: Vec, c: Mat)
    requires c == Identity(|z|)
    ensures Fit(c, z) == z
  {
    forall i | 0 <= i < |z| ensures Fit(c, z)[i] == z[i] {
      DotSymmetric(Unit(|z|, i), z);
      DotUnit(z, i);
    }
  }

  lemma IdentitySemidefinite(d: nat)
    ensures PositiveSemidefinite(Identity(d))
  {
    forall z: Vec | |z| == d ensures Dot(z, Fit(Identity(d), z)) >= 0.0 {
      IdentityFit(z, Identity(d));
      SquareNonnegative(z);
    }
  }

  lemma RegularisedFit(c: Mat, reg: real, z: Vec)
    requires Square(c) && |z| == |c|
    ensures Fit(Regularised(c, reg), z) == Axpy(Fit(c, z), -reg, z)
  {
    var r, d := Regularised(c, reg), |c|;
    forall i | 0 <= i < d ensures Fit(r, z)[i] == Axpy(Fit(c, z), -reg, z)[i] {
      RegularisedRow(c[i], -reg, z, i, Dot(c[i], z), z[i]);
    }
  }

  lemma RegularisedRow(row: Vec, f: real, z: Vec, i: nat, p: real, x: real)
    requires |row| == |z| && i < |z| && p == Dot(row, z) && x == z[i]
    ensures Dot(Axpy(row, f, Unit(|z|, i)), z) == p - f * x
  {
    DotSymmetric(Unit(|z|, i), z);
    DotUnit(z, i);
    DotAxpyNamed(row, f, Unit(|z|, i), z, p, x);
  }

  lemma RegularisedSymmetric(c: Mat, reg: real)
    requires Square(c) && Symmetric(c)
    ensures Symmetric(Regularised(c, reg))
  {
    var r := Regularised(c, reg);
    forall i, j | 0 <= i < |c| && 0 <= j < |c| ensures r[i][j] == r[j][i] {
      assert c[i][j] == c[j][i];
    }
  }

  lemma RegularisedNonnegative(c: Mat, reg: real, z: Vec, p: real, q: real)
    requires Square(c) && |z| == |c| && p == Dot(z, Fit(c, z)) && q == Dot(z, z)
    requires p >= 0.0 && reg >= 0.0
    ensures Dot(z, Fit(Regularised(c, reg), z)) >= 0.0
  {
    SquareNonnegative(z);
    calc {
      Dot(z, Fit(Regularised(c, reg), z));
      { RegularisedFit(c, reg, z); }
      Dot(z, Axpy(Fit(c, z), -reg, z));
      { AddMultiple(z, Fit(c, z), reg, z, p, q); }
      p + reg * q;
      >= { ProductNonnegative(reg, q); }
      0.0;
    }
  }

  lemma RegularisedSemidefinite(c: Mat, reg: real)
    requires Square(c) && PositiveSemidefinite(c) && reg >= 0.0
    ensures PositiveSemidefinite(Regularised(c, reg))
  {
    hide Dot, Regularised;
    forall z: Vec | |z| == |c| ensures Dot(z, Fit(Regularised(c, reg), z)) >= 0.0 {
      RegularisedNonnegative(c, reg, z, Dot(z, Fit(c, z)), Dot(z, z));
    }
  }

  /** What distances are measured with: the inverse, or the identity where there is none. */
  function Metric(c: Mat, reg: real): (m: Mat)
    requires Square(c)
    ensures |m| == |c| && Square(m)
  {
    match Inverse(Regularised(c, reg))
    case Some(inv) => inv
    case None => Identity(|c|)
  }

  /** The squared distance: `diff` times the metric, then times `diff`. */
  function SquaredDistance(c: Mat, reg: real, diff: Vec): real
    requires Square(c) && |diff| == |c|
  {
    var m := Metric(c, reg);
    Dot(seq(|c|, i requires 0 <= i < |c| => Dot(diff, Column(m, |c|, i))), diff)
  }

  lemma SquaredDistanceForm(c: Mat, reg: real, diff: Vec, m: Mat)
    requires Square(c) && |diff| == |c| && m == Metric(c, reg)
    ensures SquaredDistance(c, reg, diff) == Dot(diff, Fit(m, diff))
  {
    var d := |c|;
    var left := seq(d, i requires 0 <= i < d => Dot(diff, Column(m, d, i)));
    forall i | 0 <= i < d ensures left[i] == Combine(m, d, diff)[i] { CombineAt(m, d, diff, i); }
    assert left == Combine(m, d, diff);
    Adjoint(m, diff, diff);
  }

  /** z is what the matrix sends to `diff`. */
  ghost predicate Sends(r: Mat, z: Vec, diff: Vec)
    requires Square(r) && |z| == |diff| == |r|
  {
    Fit(r, z) == diff
  }

  lemma LeftInverseFit(r: Mat, b: Mat, z: Vec, diff: Vec)
    requires Square(r) && |b| == |r| == |z| == |diff| && Square(b) && LeftInverse(b, r) && Sends(r, z, diff)
    ensures Fit(b, diff) == z
  {
    var n := |r|;
    forall i | 0 <= i < n ensures Dot(b[i], diff) == z[i] {
      var row := Combine(r, n, b[i]);
      forall c | 0 <= c < n ensures row[c] == Unit(n, i)[c] {
        CombineAt(r, n, b[i], c);
        assert Dot(b[i], Column(r, n, c)) == Unit(n, i)[c];
      }
      assert row == Unit(n, i);
      Adjoint(r, b[i], z);
      DotSymmetric(row, z);
      DotUnit(z, i);
    }
  }

  /** The squared distance is diff'z where the regularised covariance sends z to diff, if that is
      not singular and loses no pivot, and diff'diff otherwise. */
  lemma DistanceSolves(c: Mat, reg: real, diff: Vec, z: Vec)
    requires Square(c) && |diff| == |c| == |z| && Sends(Regularised(c, reg), z, diff)
    ensures var r := Regularised(c, reg);
            SquaredDistance(c, reg, diff) == if Singular(r) || LosesPivot(r) then Dot(diff, diff) else Dot(diff, z)
  {
    var r, m := Regularised(c, reg), Metric(c, reg);
    InverseExactly(r);
    SquaredDistanceForm(c, reg, diff, m);
    if Inverse(r).Some? {
      InverseIsLeft(r);
      LeftInverseFit(r, m, z, diff);
    } else {
      IdentityFit(diff, m);
    }
  }

  /** Without an inverse it is diff'diff, whether or not anything is sent to `diff`. */
  lemma FallbackDistance(c: Mat, reg: real, diff: Vec)
    requires Square(c) && |diff| == |c| && (Singular(Regularised(c, reg)) || LosesPivot(Regularised(c, reg)))
    ensures SquaredDistance(c, reg, diff) == Dot(diff, diff)
  {
    InverseExactly(Regularised(c, reg));
    SquaredDistanceForm(c, reg, diff, Metric(c, reg));
    IdentityFit(diff, Metric(c, reg));
  }

  lemma MetricNonnegative(c: Mat, reg: real, diff: Vec)
    requires Square(c) && Symmetric(c) && PositiveSemidefinite(c) && reg >= 0.0 && |diff| == |c|
    ensures SquaredDistance(c, reg, diff) >= 0.0
  {
    var r := Regularised(c, reg);
    SquaredDistanceForm(c, reg, diff, Metric(c, reg));
    if Inverse(r).Some? {
      RegularisedSymmetric(c, reg);
      RegularisedSemidefinite(c, reg);
      InverseIsLeft(r);
      InverseSemidefinite(r, Inverse(r).value, diff);
    } else {
      IdentitySemidefinite(|c|);
    }
  }

  /** With the batch moments the squared distance is never negative, with the inverse or with
      the identity it falls back to: the clamp before the square root is idle. */
  lemma DistanceClampIdle(D: Mat, d: nat, reg: real, diff: Vec)
    requires Rect(D, d) && D != [] && reg >= 0.0 && |diff| == d
    ensures SquaredDistance(CovarianceOf(Batch(D, d), d), reg, diff) >= 0.0
  {
    var c := CovarianceOf(Batch(D, d), d);
    CovarianceSemidefinite(D, d, c);
    MetricNonnegative(c, reg, diff);
  }

  lemma RegularisedKernel(c: Mat, reg: real, r: Mat, v: Vec, p: real, q: real)
    requires Square(c) && r == Regularised(c, reg) && |v| == |c| && Orthogonal(r, v)
    requires p == Dot(v, Fit(c, v)) && q == Dot(v, v)
    ensures p + reg * q == 0.0
  {
    calc {
      p + reg * q;
      { AddMultiple(v, Fit(c, v), reg, v, p, q); }
      Dot(v, Axpy(Fit(c, v), -reg, v));
      { RegularisedFit(c, reg, v); }
      Dot(v, Fit(r, v));
      { DotSymmetric(v, Fit(r, v)); ZeroFit(r, v); }
      0.0;
    }
  }

  lemma ZeroFit(r: Mat, v: Vec)
    requires Square(r) && |v| == |r| && Orthogonal(r, v)
    ensures Dot(Fit(r, v), v) == 0.0
  {
    forall i | 0 <= i < |r| ensures Fit(r, v)[i] == 0.0 { assert Dot(r[i], v) == 0.0; }
    DotZero(Fit(r, v), v);
  }

  lemma PositivePart(p: real, reg: real, q: real)
    requires p >= 0.0 && q >= 0.0 && reg > 0.0 && p + reg * q == 0.0
    ensures q == 0.0
  {
    if q > 0.0 { ProductPositive(reg, q); }
  }

  lemma RegularisedNotSingular(c: Mat, reg: real)
    requires Square(c) && PositiveSemidefinite(c) && reg > 0.0
    ensures !Singular(Regularised(c, reg))
  {
    hide Dot, Fit, Regularised, Orthogonal;
    var r := Regularised(c, reg);
    forall v: Vec | |v| == |r| && Orthogonal(r, v) ensures v == Zeros(|r|) {
      RegularisedKernel(c, reg, r, v, Dot(v, Fit(c, v)), Dot(v, v));
      SquareNonnegative(v);
      PositivePart(Dot(v, Fit(c, v)), reg, Dot(v, v));
      ZeroSquare(v);
    }
  }

  /** With a positive regularisation the fallback to the identity happens exactly when the
      inversion loses a pivot to its tolerance; without one also for singular windows. */
  lemma FallbackExactly(D: Mat, d: nat, reg: real)
    requires Rect(D, d) && D != [] && reg >= 0.0
    ensures var r := Regularised(CovarianceOf(Batch(D, d), d), reg);
            Inverse(r).None? <==> LosesPivot(r) || (reg == 0.0 && Singular(r))
  {
    var c := CovarianceOf(Batch(D, d), d);
    CovarianceSemidefinite(D, d, c);
    InverseExactly(Regularised(c, reg));
    if reg > 0.0 { RegularisedNotSingular(c, reg); }
  }

  // ----- the product updates of a whole triangle -----

  function Raised(v: real, x: real, y: real): real {
    v + x * y
  }

  function Lowered(v: real, x: real, y: real, clamp: bool): real {
    Clamped(v - x * y, clamp)
  }

  function ProductsAdded(d: nat, m2: Vec, delta: Vec, delta2: Vec): (r: Vec)
    requires |m2| == |Cells(d)| && |delta| == |delta2| == d
    ensures |r| == |m2|
  {
    seq(|m2|, p requires 0 <= p < |m2| => Raised(m2[p], delta[Cells(d)[p].0], delta2[Cells(d)[p].1]))
  }

  function ProductsSubtracted(d: nat, m2: Vec, delta: Vec, delta2: Vec, clampAll: bool): (r: Vec)
    requires |m2| == |Cells(d)| && |delta| == |delta2| == d
    ensures |r| == |m2|
  {
    seq(|m2|, p requires 0 <= p < |m2| =>
      Lowered(m2[p], delta[Cells(d)[p].0], delta2[Cells(d)[p].1], clampAll || Cells(d)[p].0 == Cells(d)[p].1))
  }

  /** `now` has the new entries up to `i` and the old ones from there on. */
  ghost predicate DoneTo(was: Vec, want: Vec, now: Vec, i: nat) {
    |was| == |want| == |now| && forall p :: 0 <= p < |was| ==> now[p] == if p < i then want[p] else was[p]
  }

  lemma DoneEnds(was: Vec, want: Vec)
    requires |was| == |want|
    ensures DoneTo(was, want, was, 0)
    ensures forall now :: DoneTo(was, want, now, |was|) ==> now == want
  {
  }

  lemma OneMoreDone(was: Vec, want: Vec, now: Vec, next: Vec, i: nat)
    requires i < |now| && DoneTo(was, want, now, i) && next == now[i := want[i]]
    ensures DoneTo(was, want, next, i + 1)
  {
  }

  lemma AddedAt(d: nat, m2: Vec, delta: Vec, delta2: Vec, i: nat, j: nat, p: nat, v: real, x: real,
                y: real)
    requires |m2| == |Cells(d)| && |delta| == |delta2| == d && i <= j < d
    requires p == Slot(d, i, j) < |m2| && v == m2[p] && x == delta[i] && y == delta2[j]
    ensures ProductsAdded(d, m2, delta, delta2)[p] == Raised(v, x, y)
  {
    CellAt(d, i, j);
  }

  lemma SubtractedAt(d: nat, m2: Vec, delta: Vec, delta2: Vec, clampAll: bool, i: nat, j: nat, p: nat, v: real,
                     x: real, y: real)
    requires |m2| == |Cells(d)| && |delta| == |delta2| == d && i <= j < d
    requires p == Slot(d, i, j) < |m2| && v == m2[p] && x == delta[i] && y == delta2[j]
    ensures ProductsSubtracted(d, m2, delta, delta2, clampAll)[p] == Lowered(v, x, y, clampAll || i == j)
  {
    CellAt(d, i, j);
  }

  ghost predicate IsDifference(r: Vec, a: Vec, b: Vec)
    requires |a| == |b|
  {
    |r| == |a| && forall i :: 0 <= i < |a| ==> r[i] == a[i] - b[i]
  }

  lemma AddedIsInserted(s: Moments, x: Vec, delta: Vec, delta2: Vec)
    requires |s.mean| == |x| && |s.m2| == |Cells(|x|)|
    requires IsDifference(delta, x, s.mean) && IsDifference(delta2, x, MeanWith(s, x))
    ensures ProductsAdded(|x|, s.m2, delta, delta2) == Inserted(s, x).m2
  {
    var r, t, mean := ProductsAdded(|x|, s.m2, delta, delta2), Inserted(s, x), MeanWith(s, x);
    forall p | 0 <= p < |s.m2| ensures r[p] == t.m2[p] {
      var (i, j) := Cells(|x|)[p];
      var a, b, a', b' := delta[i], delta2[j], x[i] - s.mean[i], x[j] - mean[j];
      SameProductOf(s.m2[p], a, b, a', b');
    }
  }

  lemma SubtractedIsRemoved(s: Moments, x: Vec, delta: Vec, delta2: Vec, clampAll: bool)
    requires |s.mean| == |x| && |s.m2| == |Cells(|x|)| && s.n >= 2
    requires IsDifference(delta, x, s.mean) && IsDifference(delta2, x, MeanWithout(s, x))
    ensures ProductsSubtracted(|x|, s.m2, delta, delta2, clampAll) == Removed(s, x, clampAll).m2
  {
    var r, t, mean := ProductsSubtracted(|x|, s.m2, delta, delta2, clampAll), Removed(s, x, clampAll), MeanWithout(s, x);
    forall p | 0 <= p < |s.m2| ensures r[p] == t.m2[p] {
      var (i, j) := Cells(|x|)[p];
      var a, b, a', b' := delta[i], delta2[j], x[i] - s.mean[i], x[j] - mean[j];
      SameReduction(s, x, i, j, s.m2[p], a, b, clampAll);
      assert t.m2[p] == CellWithout(s, x, i, j, s.m2[p], clampAll);
    }
  }

  lemma SameReduction(s: Moments, x: Vec, i: nat, j: nat, v: real, a: real, b: real, clampAll: bool)
    requires |s.mean| == |x| && s.n >= 2 && i < |x| && j < |x|
    requires a == x[i] - s.mean[i] && b == x[j] - MeanWithout(s, x)[j]
    ensures Lowered(v, a, b, clampAll || i == j) == CellWithout(s, x, i, j, v, clampAll)
  {
    var a', b' := x[i] - s.mean[i], x[j] - MeanWithout(s, x)[j];
    SameProductOf(v, a, b, a', b');
  }

  lemma SameProductOf(v: real, a: real, b: real, a': real, b': real)
    requires a == a' && b == b'
    ensures v + a * b == v + a' * b' && v - a * b == v - a' * b'
  {
  }

  // ----- the estimator object -----

  class RollingCovarianceEstimator {
    const d: nat
    const windowSize: nat
    const version: Version
    const mean: array<real>
    const m2: array<real>
    var buffer: seq<Vec>
    var n: nat

    ghost predicate Valid()
      reads this
    {
      mean.Length == d && m2.Length == |Cells(d)| && mean != m2 && Rect(buffer, d)
    }

    ghost function Now(): Moments
      reads this`n, mean, m2
    {
      Moments(n, mean[..], m2[..])
    }

    constructor (d: nat, windowSize: nat, version: Version)
      ensures Valid() && Estimator(Now(), buffer) == Initial(d)
      ensures this.d == d && this.windowSize == windowSize && this.version == version
      ensures fresh(mean) && fresh(m2)
    {
      this.d, this.windowSize, this.version := d, windowSize, version;
      mean := new real[d](_ => 0.0);
      var size := d * (d + 1) / 2;
      CellCount(d, d);
      m2 := new real[size](_ => 0.0);
      buffer, n := [], 0;
    }

    /** Adds delta[i] * delta2[j] to every cell, in storage order. */
    method AddProducts(delta: Vec, delta2: Vec)
      requires Valid() && |delta| == |delta2| == d
      modifies m2
      ensures m2[..] == ProductsAdded(d, old(m2[..]), delta, delta2)
    {
      var idx := 0;
      ghost var was := m2[..];
      ghost var want := ProductsAdded(d, was, delta, delta2);
      SlotEnds(d);
      DoneEnds(was, want);
      hide CellsBefore, Cells, Slot, DoneTo, ProductsAdded;
      for i := 0 to d
        invariant idx == Slot(d, i, i) <= m2.Length
        invariant DoneTo(was, want, m2[..], idx)
      {
        for j := i to d
          invariant idx == Slot(d, i, j) <= m2.Length
          invariant DoneTo(was, want, m2[..], idx)
        {
          SlotNext(d, i, j);
          AddProduct(idx, delta, delta2, i, j, was, want);
          idx := idx + 1;
        }
        SlotNextRow(d, i);
      }
    }

    method AddProduct(idx: nat, delta: Vec, delta2: Vec, i: nat, j: nat, ghost was: Vec, ghost want: Vec)
      requires Valid() && |delta| == |delta2| == d && i <= j < d && idx == Slot(d, i, j) < m2.Length == |was|
      requires want == ProductsAdded(d, was, delta, delta2) && DoneTo(was, want, m2[..], idx)
      modifies m2
      ensures DoneTo(was, want, m2[..], idx + 1)
    {
      var v, x, y := m2[idx], delta[i], delta2[j];
      ghost var now := m2[..];
      assert v == now[idx] == was[idx];
      AddedAt(d, was, delta, delta2, i, j, idx, v, x, y);
      SetDone(idx, Raised(v, x, y), now, was, want);
    }

    method SetDone(idx: nat, value: real, ghost now: Vec, ghost was: Vec, ghost want: Vec)
      requires idx < m2.Length == |was| == |want| && now == m2[..] && value == want[idx] && DoneTo(was, want, now, idx)
      modifies m2
      ensures DoneTo(was, want, m2[..], idx + 1)
    {
      m2[idx] := value;
      OneMoreDone(was, want, now, m2[..], idx);
    }

    method ShiftMean(x: Vec, count: nat)
      requires Valid() && |x| == d && count > 0
      modifies mean
      ensures forall i :: 0 <= i < d ==> mean[i] == old(mean[i]) + (x[i] - old(mean[i])) / count as real
    {
      for i := 0 to d
        invariant forall a :: 0 <= a < d ==>
          mean[a] == if a < i then old(mean[a]) + (x[a] - old(mean[a])) / count as real else old(mean[a])
      {
        var delta := x[i] - mean[i];
        mean[i] := mean[i] + delta / count as real;
      }
    }

    method Insert(x: Vec)
      requires Valid() && |x| == d
      modifies `n, mean, m2
      ensures Valid() && Now() == Inserted(old(Now()), x)
    {
      ghost var s := Now();
      var oldMean := mean[..];
      n := n + 1;
      ShiftMean(x, n);
      assert mean[..] == MeanWith(s, x);
      var delta := Difference(x, oldMean);
      var delta2 := Difference(x, mean[..]);
      AddProducts(delta, delta2);
      AddedIsInserted(s, x, delta, delta2);
    }

    /** Subtracts delta[i] * delta2[j] from every cell, clamping as configured. */
    method SubtractProducts(delta: Vec, delta2: Vec)
      requires Valid() && |delta| == |delta2| == d
      modifies m2
      ensures m2[..] == ProductsSubtracted(d, old(m2[..]), delta, delta2, version.clampAll)
    {
      var idx := 0;
      ghost var was := m2[..];
      ghost var want := ProductsSubtracted(d, was, delta, delta2, version.clampAll);
      SlotEnds(d);
      DoneEnds(was, want);
      hide CellsBefore, Cells, Slot, DoneTo, ProductsSubtracted;
      for i := 0 to d
        invariant idx == Slot(d, i, i) <= m2.Length
        invariant DoneTo(was, want, m2[..], idx)
      {
        for j := i to d
          invariant idx == Slot(d, i, j) <= m2.Length
          invariant DoneTo(was, want, m2[..], idx)
        {
          SlotNext(d, i, j);
          SubtractProduct(idx, delta, delta2, i, j, was, want);
          idx := idx + 1;
        }
        SlotNextRow(d, i);
      }
    }

    method SubtractProduct(idx: nat, delta: Vec, delta2: Vec, i: nat, j: nat, ghost was: Vec, ghost want: Vec)
      requires Valid() && |delta| == |delta2| == d && i <= j < d && idx == Slot(d, i, j) < m2.Length == |was|
      requires want == ProductsSubtracted(d, was, delta, delta2, version.clampAll) && DoneTo(was, want, m2[..], idx)
      modifies m2
      ensures DoneTo(was, want, m2[..], idx + 1)
    {
      var v, x, y := m2[idx], delta[i], delta2[j];
      ghost var now := m2[..];
      assert v == now[idx] == was[idx];
      SubtractedAt(d, was, delta, delta2, version.clampAll, i, j, idx, v, x, y);
      var val := v - x * y;
      if (version.clampAll || i == j) && val < 0.0 {
        val := 0.0;
      }
      assert val == Lowered(v, x, y, version.clampAll || i == j) == want[idx];
      m2[idx] := val;
      OneMoreDone(was, want, now, m2[..], idx);
    }

    method RemoveObservation(x: Vec)
      requires Valid() && |x| == d
      modifies `n, mean, m2
      ensures Valid() && Now() == Removed(old(Now()), x, version.clampAll)
      ensures old(n) <= 1 ==> n == 0 && forall i :: 0 <= i < d ==> mean[i] == 0.0
      ensures old(n) <= 1 ==> forall p :: 0 <= p < m2.Length ==> m2[p] == 0.0
    {
      if n <= 1 {
        n := 0;
        Fill(mean);
        Fill(m2);
        assert mean[..] == Zeros(d) && m2[..] == Zeros(m2.Length);
        return;
      }
      ghost var s := Now();
      var oldMean := mean[..];
      UnshiftMean(x, n);
      n := n - 1;
      assert mean[..] == MeanWithout(s, x);
      var deltaOld := Difference(x, oldMean);
      var deltaNew := Difference(x, mean[..]);
      SubtractProducts(deltaOld, deltaNew);
      SubtractedIsRemoved(s, x, deltaOld, deltaNew, version.clampAll);
    }

    method UnshiftMean(x: Vec, count: nat)
      requires Valid() && |x| == d && count > 1
      modifies mean
      ensures forall i :: 0 <= i < d ==> mean[i] == Unshifted(count, old(mean[i]), x[i])
    {
      for i := 0 to d
        invariant forall a :: 0 <= a < d ==>
          mean[a] == if a < i then Unshifted(count, old(mean[a]), x[a]) else old(mean[a])
      {
        mean[i] := Unshifted(count, mean[i], x[i]);
      }
    }

    method Update(observation: Vec)
      requires Valid() && |observation| == d
      modifies this, mean, m2
      ensures Valid()
      ensures Estimator(Now(), buffer) == Step(old(Estimator(Now(), buffer)), observation, windowSize, version)
    {
      if n == 0 {
        Copy(observation, mean);
        if version.counts { n := 1; }
      } else {
        Insert(observation);
        if |buffer| >= windowSize && buffer != [] {
          var oldest := buffer[0];
          buffer := buffer[1..];
          RemoveObservation(oldest);
        }
      }
      buffer := buffer + [observation];
    }

    method GetCovariance() returns (cov: array2<real>)
      requires Valid()
      ensures fresh(cov) && cov.Length0 == cov.Length1 == d
      ensures forall i, j :: 0 <= i < d && 0 <= j < d ==> cov[i, j] == CovarianceOf(Now(), d)[i][j]
    {
      if n < 2 {
        cov := new real[d, d]((i, j) => if i == j then 1.0 else 0.0);
        return;
      }
      cov := new real[d, d]((_, _) => 0.0);
      var idx, divisor := 0, (n - 1) as real;
      SlotEnds(d);
      hide CellsBefore, Cells, Slot, Entry;
      for i := 0 to d
        invariant idx == Slot(d, i, i) <= m2.Length
        invariant forall a, b :: 0 <= a < d && 0 <= b < d && (a < i || b < i) ==> cov[a, b] == Entry(Now(), d, a, b)
      {
        for j := i to d
          invariant idx == Slot(d, i, j) <= m2.Length
          invariant forall a, b ::
            (0 <= a < d && 0 <= b < d && (a < i || b < i || (a == i && b < j) || (b == i && a < j)))
            ==> cov[a, b] == Entry(Now(), d, a, b)
        {
          SlotNext(d, i, j);
          EntryAt(Now(), d, i, j, idx, divisor);
          var val := m2[idx] / divisor;
          cov[i, j] := val;
          cov[j, i] := val;
          idx := idx + 1;
        }
        SlotNextRow(d, i);
      }
    }
  }

  lemma EntryAt(s: Moments, d: nat, i: nat, j: nat, p: nat, divisor: real)
    requires |s.m2| == |Cells(d)| && i <= j < d && s.n >= 2 && p == Slot(d, i, j) && divisor == (s.n - 1) as real
    ensures p < |s.m2| && Entry(s, d, i, j) == Entry(s, d, j, i) == s.m2[p] / divisor
  {
    CellAt(d, i, j);
  }

  method Difference(a: Vec, b: Vec) returns (r: Vec)
    requires |a| == |b|
    ensures IsDifference(r, a, b)
  {
    r := seq(|a|, i requires 0 <= i < |a| => a[i] - b[i]);
  }

  method Copy(from: Vec, to: array<real>)
    requires |from| == to.Length
    modifies to
    ensures to[..] == from
  {
    for i := 0 to |from|
      invariant to[..i] == from[..i]
    {
      to[i] := from[i];
    }
  }

  method Fill(a: array<real>)
    modifies a
    ensures forall i :: 0 <= i < a.Length ==> a[i] == 0.0
  {
    for i := 0 to a.Length
      invariant forall p :: 0 <= p < i ==> a[p] == 0.0
    {
      a[i] := 0.0;
    }
  }
}
