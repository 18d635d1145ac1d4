/** The long-run variance of backend/analytics/forecast_eval.rs and the identity that makes it
    nonnegative: it is a scaled sum of squared sliding-window sums. */
module NeweyWest {
  import opened Reals
  import opened Vectors

  // ----- finite sums -----

  function Sum(f: int -> real, n: nat): real {
    if n == 0 then 0.0 else Sum(f, n - 1) + f(n - 1)
  }

  lemma {:induction false} SumSame(f: int -> real, g: int -> real, n: nat)
    requires forall i :: 0 <= i < n ==> f(i) == g(i)
    ensures Sum(f, n) == Sum(g, n)
  {
    if n > 0 { SumSame(f, g, n - 1); }
  }

  lemma {:induction false} SumLinear(f: int -> real, a: real, g: int -> real, n: nat)
    ensures Sum(i => f(i) + a * g(i), n) == Sum(f, n) + a * Sum(g, n)
  {
    if n > 0 {
      SumLinear(f, a, g, n - 1);
      assert a * (Sum(g, n - 1) + g(n - 1)) == a * Sum(g, n - 1) + a * g(n - 1);
    }
  }

  lemma {:induction false} SumShift(f: int -> real, n: nat)
    ensures Sum(i => f(i + 1), n) == Sum(f, n) + f(n) - f(0)
  {
    if n > 0 { SumShift(f, n - 1); }
  }

  lemma {:induction false} SumNonnegative(f: int -> real, n: nat)
    requires forall i :: 0 <= i < n ==> f(i) >= 0.0
    ensures Sum(f, n) >= 0.0
    ensures Sum(f, n) == 0.0 <==> forall i :: 0 <= i < n ==> f(i) == 0.0
  {
    if n > 0 { SumNonnegative(f, n - 1); }
  }

  lemma {:induction false} SumTail(f: int -> real, m: nat, n: nat)
    requires m <= n && forall i :: m <= i < n ==> f(i) == 0.0
    ensures Sum(f, n) == Sum(f, m)
  {
    if m < n { SumTail(f, m, n - 1); }
  }

  // ----- series, lag products, windows -----

  /** The series extended by zeros. */
  function At(c: Vec, t: int): real {
    if 0 <= t < |c| then c[t] else 0.0
  }

  /** Sum of the products of entries `k` apart: n times the autocovariance of a centered series. */
  function LagProduct(c: Vec, k: nat): real {
    if k >= |c| then 0.0 else Dot(c[..|c| - k], c[k..])
  }

  /** Sum of the `m` entries before position `s`. */
  function Window(c: Vec, s: int, m: nat): real {
    if m == 0 then 0.0 else Window(c, s, m - 1) + At(c, s - m)
  }

  /** Sum of the squared windows of length `m` ending before 0..n. */
  function Energy(c: Vec, m: nat, n: nat): real {
    Sum(SquareAt(c, m), n)
  }

  function SquareAt(c: Vec, m: nat): int -> real {
    s => Window(c, s, m) * Window(c, s, m)
  }

  function MixAt(c: Vec, m: nat): int -> real {
    s => At(c, s) * Window(c, s, m)
  }

  function LagAt(c: Vec, k: nat): int -> real {
    s => At(c, s) * At(c, s - k)
  }

  /** Sum of the first `m` lag products from lag 1 on. */
  function LagSum(c: Vec, m: nat): real {
    if m == 0 then 0.0 else LagSum(c, m - 1) + LagProduct(c, m)
  }

  /** m * G(0) + 2 * the sum over lags k up to j of (m - k) * G(k). */
  function Bartlett(c: Vec, m: nat, j: nat): real {
    if j == 0 then m as real * LagProduct(c, 0)
    else Bartlett(c, m, j - 1) + 2.0 * ((m - j) as real * LagProduct(c, j))
  }

  lemma {:induction false} DotIsSum(a: Vec, b: Vec, f: int -> real)
    requires |a| == |b| && forall i :: 0 <= i < |a| ==> f(i) == a[i] * b[i]
    ensures Dot(a, b) == Sum(f, |a|)
  {
    if a != [] { DotIsSum(a[..|a| - 1], b[..|a| - 1], f); }
  }

  lemma {:induction false} SumDropFront(f: int -> real, k: nat, n: nat)
    requires k <= n && forall i :: 0 <= i < k ==> f(i) == 0.0
    ensures Sum(f, n) == Sum(i => f(i + k), n - k)
  {
    if n == k {
      SumTail(f, 0, k);
    } else {
      SumDropFront(f, k, n - 1);
    }
  }

  /** A lag product is the full sum over the extended series. */
  lemma LagProductIsSum(c: Vec, k: nat, n: nat)
    requires n >= |c|
    ensures LagProduct(c, k) == Sum(LagAt(c, k), n)
  {
    var f, m := LagAt(c, k), |c|;
    if k >= m {
      forall i | 0 <= i < n ensures f(i) == 0.0 { LagAtZero(c, k, i); }
      SumTail(f, 0, n);
    } else {
      forall i | m <= i < n ensures f(i) == 0.0 { LagAtZero(c, k, i); }
      SumTail(f, m, n);
      LagDot(c, k, m, m - k, c[..m - k], c[k..]);
    }
  }

  lemma LagDot(c: Vec, k: nat, m: nat, q: nat, a: Vec, b: Vec)
    requires m == |c| && k < m && q == m - k && a == c[..q] && b == c[k..]
    ensures Dot(a, b) == Sum(LagAt(c, k), m)
  {
    var f := LagAt(c, k);
    forall i | 0 <= i < k ensures f(i) == 0.0 { LagAtZero(c, k, i); }
    SumDropFront(f, k, m);
    var g := i => f(i + k);
    forall i | 0 <= i < q ensures g(i) == a[i] * b[i] { LagAtInside(c, k, i, a[i], b[i]); }
    DotIsSum(a, b, g);
  }

  lemma LagAtZero(c: Vec, k: nat, i: int)
    requires i >= |c| || i < k || k >= |c|
    ensures LagAt(c, k)(i) == 0.0
  {
    assert At(c, i) == 0.0 || At(c, i - k) == 0.0;
  }

  lemma LagAtInside(c: Vec, k: nat, i: nat, x: real, y: real)
    requires i + k < |c| && x == c[i] && y == c[i + k]
    ensures LagAt(c, k)(i + k) == x * y
  {
    assert At(c, i + k) == y && At(c, i + k - k) == x;
  }

  lemma {:induction false} WindowZero(c: Vec, s: int, m: nat)
    requires s <= 0 || s >= |c| + m
    ensures Window(c, s, m) == 0.0
  {
    if m > 0 { WindowZero(c, s, m - 1); }
  }

  lemma {:induction false} WindowStep(c: Vec, s: int, m: nat)
    ensures Window(c, s + 1, m + 1) == At(c, s) + Window(c, s, m)
  {
    if m > 0 { WindowStep(c, s, m - 1); }
  }

  lemma ProductOfSum(a: real, w: real, b: real)
    ensures a * (w + b) == a * w + 1.0 * (a * b)
  {
  }

  /** An entry times the window before it, summed, is the sum of the lag products. */
  lemma {:induction false} CrossSum(c: Vec, m: nat, n: nat)
    requires n >= |c|
    ensures Sum(MixAt(c, m), n) == LagSum(c, m)
  {
    if m == 0 {
      SumTail(MixAt(c, 0), 0, n);
    } else {
      var g, h := MixAt(c, m - 1), LagAt(c, m);
      forall s | 0 <= s < n ensures MixAt(c, m)(s) == g(s) + 1.0 * h(s) {
        ProductOfSum(At(c, s), Window(c, s, m - 1), At(c, s - m));
      }
      calc {
        Sum(MixAt(c, m), n);
        { SumSame(MixAt(c, m), s => g(s) + 1.0 * h(s), n); }
        Sum(s => g(s) + 1.0 * h(s), n);
        { SumLinear(g, 1.0, h, n); }
        Sum(g, n) + 1.0 * Sum(h, n);
        { CrossSum(c, m - 1, n); LagProductIsSum(c, m, n); }
        LagSum(c, m);
      }
    }
  }

  lemma SquareOfSum(a: real, w: real)
    ensures (a + w) * (a + w) == (w * w + 1.0 * (a * a)) + 2.0 * (a * w)
  {
  }

  /** The squared windows one longer and one later, split into three sums. */
  lemma ShiftedSquares(c: Vec, m: nat, n: nat)
    ensures Sum(s => SquareAt(c, m + 1)(s + 1), n)
         == Sum(SquareAt(c, m), n) + Sum(LagAt(c, 0), n) + 2.0 * Sum(MixAt(c, m), n)
  {
    var sq, old_, self, mix := SquareAt(c, m + 1), SquareAt(c, m), LagAt(c, 0), MixAt(c, m);
    var partial := (s: int) => old_(s) + 1.0 * self(s);
    forall s | 0 <= s < n ensures sq(s + 1) == partial(s) + 2.0 * mix(s) {
      WindowStep(c, s, m);
      SquareOfSum(At(c, s), Window(c, s, m));
    }
    calc {
      Sum(s => sq(s + 1), n);
      { SumSame(s => sq(s + 1), s => partial(s) + 2.0 * mix(s), n); }
      Sum(s => partial(s) + 2.0 * mix(s), n);
      { SumLinear(partial, 2.0, mix, n); }
      Sum(partial, n) + 2.0 * Sum(mix, n);
      { SumLinear(old_, 1.0, self, n); }
      Sum(old_, n) + 1.0 * Sum(self, n) + 2.0 * Sum(mix, n);
    }
  }

  /** Lengthening the windows by one adds G(0) and twice the lag products so far. */
  lemma EnergyStep(c: Vec, m: nat, n: nat)
    requires n >= |c| + m + 1
    ensures Energy(c, m + 1, n) == Energy(c, m, n) + LagProduct(c, 0) + 2.0 * LagSum(c, m)
  {
    var sq := SquareAt(c, m + 1);
    SumShift(sq, n);
    WindowZero(c, 0, m + 1);
    WindowZero(c, n, m + 1);
    assert sq(0) == 0.0 && sq(n) == 0.0;
    ShiftedSquares(c, m, n);
    CrossSum(c, m, n);
    LagProductIsSum(c, 0, n);
  }

  lemma {:induction false} BartlettStep(c: Vec, m: nat, j: nat)
    ensures Bartlett(c, m + 1, j) == Bartlett(c, m, j) + LagProduct(c, 0) + 2.0 * LagSum(c, j)
  {
    if j == 0 {
      assert (m + 1) as real * LagProduct(c, 0) == m as real * LagProduct(c, 0) + LagProduct(c, 0);
    } else {
      BartlettStep(c, m, j - 1);
      assert (m + 1 - j) as real * LagProduct(c, j) == (m - j) as real * LagProduct(c, j) + LagProduct(c, j);
    }
  }

  /** The Bartlett-weighted lag products are the energy of the windows of length `m`. */
  lemma {:induction false} BartlettIsEnergy(c: Vec, m: nat, n: nat)
    requires n >= |c| + m
    ensures Bartlett(c, m, m) == Energy(c, m, n)
  {
    if m == 0 {
      SumTail(SquareAt(c, 0), 0, n);
    } else {
      BartlettIsEnergy(c, m - 1, n);
      EnergyStep(c, m - 1, n);
      BartlettStep(c, m - 1, m - 1);
    }
  }

  lemma EnergyNonnegative(c: Vec, m: nat, n: nat)
    ensures Energy(c, m, n) >= 0.0
    ensures Energy(c, m, n) == 0.0 <==> WindowsVanish(c, m, n)
  {
    var f := SquareAt(c, m);
    forall s | 0 <= s < n ensures f(s) >= 0.0 && (f(s) == 0.0 <==> Window(c, s, m) == 0.0) {
      SquareSign(Window(c, s, m), f(s));
    }
    SumNonnegative(f, n);
    if WindowsVanish(c, m, n) {
      assert forall s :: 0 <= s < n ==> f(s) == 0.0;
    } else {
      var s :| 0 <= s < n && Window(c, s, m) != 0.0;
      assert f(s) != 0.0;
    }
  }

  ghost predicate WindowsVanish(c: Vec, m: nat, n: nat) {
    forall s :: 0 <= s < n ==> Window(c, s, m) == 0.0
  }

  /** If all windows of one length sum to 0, the series is 0. */
  lemma {:induction false} ZeroWindows(c: Vec, m: nat, n: nat, t: nat)
    requires m >= 1 && n >= |c| + m && t < |c|
    requires WindowsVanish(c, m, n)
    ensures c[t] == 0.0
    decreases t
  {
    // Window(t + 1, m) + At(t - m) == At(t) + Window(t, m)
    WindowStep(c, t, m);
    assert Window(c, t + 1, m + 1) == Window(c, t + 1, m) + At(c, t - m);
    assert Window(c, t + 1, m) == 0.0 && Window(c, t, m) == 0.0;
    if t >= m { ZeroWindows(c, m, n, t - m); }
  }

  lemma {:induction false} ZeroSeries(c: Vec, s: int, m: nat)
    requires forall t :: 0 <= t < |c| ==> c[t] == 0.0
    ensures Window(c, s, m) == 0.0
  {
    if m > 0 { ZeroSeries(c, s, m - 1); }
  }

  lemma EnergyZero(c: Vec, m: nat, n: nat)
    requires m >= 1 && n >= |c| + m
    ensures Energy(c, m, n) == 0.0 <==> forall t :: 0 <= t < |c| ==> c[t] == 0.0
  {
    EnergyNonnegative(c, m, n);
    if Energy(c, m, n) == 0.0 {
      forall t | 0 <= t < |c| ensures c[t] == 0.0 { ZeroWindows(c, m, n, t); }
    }
    if forall t :: 0 <= t < |c| ==> c[t] == 0.0 {
      forall s | 0 <= s < n ensures Window(c, s, m) == 0.0 { ZeroSeries(c, s, m); }
    }
  }

  // ----- the estimator -----

  function Mean(x: Vec): real
    requires x != []
  {
    Total(x) / |x| as real
  }

  function Center(x: Vec): (c: Vec)
    requires x != []
    ensures |c| == |x|
  {
    seq(|x|, i requires 0 <= i < |x| => x[i] - Mean(x))
  }

  function Autocovariance(c: Vec, k: nat): real
    requires c != []
  {
    LagProduct(c, k) / |c| as real
  }

  function Weight(maxLag: nat, k: nat): real {
    1.0 - k as real / (maxLag as real + 1.0)
  }

  /** gamma_0 + 2 * the weighted autocovariances of the lags 1..j. */
  function Weighted(c: Vec, maxLag: nat, j: nat): real
    requires c != []
  {
    if j == 0 then Autocovariance(c, 0)
    else Weighted(c, maxLag, j - 1) + 2.0 * Weight(maxLag, j) * Autocovariance(c, j)
  }

  /** The estimate before the final clamp. */
  function RawVariance(x: Vec, maxLag: nat): real
    requires |x| >= 2
  {
    Weighted(Center(x), maxLag, if maxLag < |x| - 1 then maxLag else |x| - 1)
  }

  function LongRunVariance(x: Vec, maxLag: nat): real {
    if |x| < 2 then 0.0
    else if RawVariance(x, maxLag) < 0.0 then 0.0 else RawVariance(x, maxLag)
  }

  /** Weight times autocovariance, scaled by n * l. */
  lemma WeightScaled(k: real, n: real, l: real, nl: real, g: real, w: real, auto: real, m: real, b: real, q: real)
    requires n > 0.0 && l > 0.0 && nl == n * l && m == l - k && w == 1.0 - k / l && auto == g / n
    requires b == 2.0 * w * auto && q == 2.0 * (m * g)
    ensures Scales(b, nl, q)
  {
    assert w * l == m && auto * n == g;
    calc {
      b * nl;
      2.0 * (w * l) * (auto * n);
      q;
    }
  }

  lemma ScaledBack(g: real, n: real, l: real, nl: real, auto: real)
    requires n > 0.0 && nl == n * l && auto == g / n
    ensures Scales(auto, nl, l * g)
  {
    assert auto * n == g;
    calc { auto * nl; (auto * n) * l; l * g; }
  }

  lemma WeightedStep(c: Vec, maxLag: nat, j: nat, w: real, auto: real, b: real)
    requires c != [] && j > 0 && w == Weight(maxLag, j) && auto == Autocovariance(c, j) && b == 2.0 * w * auto
    ensures Weighted(c, maxLag, j) == Weighted(c, maxLag, j - 1) + b
  {
  }

  lemma BartlettUnfolds(c: Vec, m: nat, j: nat, d: real, g: real, q: real)
    requires j > 0 && d == (m - j) as real && g == LagProduct(c, j) && q == 2.0 * (d * g)
    ensures Bartlett(c, m, j) == Bartlett(c, m, j - 1) + q
  {
  }

  lemma {:induction false} WeightedIsBartlett(c: Vec, maxLag: nat, m: nat, j: nat, n: real, l: real, nl: real)
    requires c != [] && n == |c| as real && m == maxLag + 1 && l == m as real && nl == n * l
    ensures Scales(Weighted(c, maxLag, j), nl, Bartlett(c, m, j))
    decreases j
  {
    var g, auto := LagProduct(c, j), Autocovariance(c, j);
    if j == 0 {
      ScaledBack(g, n, l, nl, auto);
    } else {
      var w, k, d := Weight(maxLag, j), j as real, (m - j) as real;
      var b, q := 2.0 * w * auto, 2.0 * (d * g);
      WeightedIsBartlett(c, maxLag, m, j - 1, n, l, nl);
      WeightScaled(k, n, l, nl, g, w, auto, d, b, q);
      WeightedStep(c, maxLag, j, w, auto, b);
      BartlettUnfolds(c, m, j, d, g, q);
      AddScaled(Weighted(c, maxLag, j - 1), b, nl, Bartlett(c, m, j - 1), q, Weighted(c, maxLag, j), Bartlett(c, m, j));
    }
  }

  lemma AddScaled(a: real, b: real, f: real, p: real, q: real, ab: real, pq: real)
    requires Scales(a, f, p) && Scales(b, f, q) && ab == a + b && pq == p + q
    ensures Scales(ab, f, pq)
  {
  }

  /** Lags beyond the series, and the lag whose weight is 0, add nothing. */
  lemma {:induction false} BartlettTail(c: Vec, m: nat, i: nat, j: nat)
    requires i <= j <= m && (i + 1 >= |c| || i + 1 == m)
    ensures Bartlett(c, m, j) == Bartlett(c, m, i)
  {
    if i < j {
      BartlettTail(c, m, i, j - 1);
      assert LagProduct(c, j) == 0.0 || (m - j) as real == 0.0;
      assert (m - j) as real * LagProduct(c, j) == 0.0;
    }
  }

  lemma WeightedIsEnergy(c: Vec, maxLag: nat, j: nat, n: real, l: real, nl: real)
    requires c != [] && j == (if maxLag < |c| - 1 then maxLag else |c| - 1)
    requires n == |c| as real && l == (maxLag + 1) as real && nl == n * l
    ensures Scales(Weighted(c, maxLag, j), nl, Energy(c, maxLag + 1, |c| + maxLag + 1))
  {
    WeightedIsBartlett(c, maxLag, maxLag + 1, j, n, l, nl);
    BartlettTail(c, maxLag + 1, j, maxLag + 1);
    BartlettIsEnergy(c, maxLag + 1, |c| + maxLag + 1);
  }

  /** The estimate times n * (maxLag + 1) is the energy of the windows of length maxLag + 1 of
      the centered series. */
  lemma RawVarianceIsEnergy(x: Vec, maxLag: nat, n: real, l: real, nl: real)
    requires |x| >= 2 && n == |x| as real && l == (maxLag + 1) as real && nl == n * l
    ensures Scales(RawVariance(x, maxLag), nl, Energy(Center(x), maxLag + 1, |x| + maxLag + 1))
  {
    var c, j := Center(x), if maxLag < |x| - 1 then maxLag else |x| - 1;
    WeightedIsEnergy(c, maxLag, j, n, l, nl);
  }

  lemma SignOfFactor(a: real, n: real, l: real, b: real, p: real)
    requires n > 0.0 && l > 0.0 && b == n * l && Scales(a, b, p)
    ensures (a >= 0.0 <==> p >= 0.0) && (a == 0.0 <==> p == 0.0)
  {
    assert b > 0.0;
    if a > 0.0 {
      assert a * b > 0.0;
    } else if a < 0.0 {
      assert a * b < 0.0;
    }
  }

  ghost predicate IsConstant(x: Vec)
    requires x != []
  {
    forall t :: 0 <= t < |x| ==> x[t] == Mean(x)
  }

  /** For every series and every lag the clamp is idle, and the estimate is 0 exactly for a
      constant series. */
  lemma ClampIdle(x: Vec, maxLag: nat)
    requires |x| >= 2
    ensures RawVariance(x, maxLag) >= 0.0
    ensures LongRunVariance(x, maxLag) == RawVariance(x, maxLag)
    ensures RawVariance(x, maxLag) == 0.0 <==> IsConstant(x)
  {
    var c, m, top := Center(x), maxLag + 1, |x| + maxLag + 1;
    var n, l, v, e := |x| as real, m as real, RawVariance(x, maxLag), Energy(c, m, top);
    var nl := n * l;
    RawVarianceIsEnergy(x, maxLag, n, l, nl);
    EnergyNonnegative(c, m, top);
    EnergyZero(c, m, top);
    SignOfFactor(v, n, l, nl, e);
    assert forall t :: 0 <= t < |x| ==> c[t] == x[t] - Mean(x);
  }

  /** HACEstimator::estimate */
  method Estimate(series: Vec, maxLag: nat) returns (lrVar: real)
    ensures lrVar == LongRunVariance(series, maxLag)
    ensures lrVar >= 0.0 && (|series| < 2 ==> lrVar == 0.0)
    ensures |series| >= 2 ==> (lrVar == 0.0 <==> IsConstant(series))
  {
    var n := |series|;
    if n < 2 {
      return 0.0;
    }
    var centered := Center(series);
    var last := if maxLag < n - 1 then maxLag else n - 1;
    lrVar := AddLags(centered, maxLag, last);
    ClampIdle(series, maxLag);
    if lrVar < 0.0 {
      lrVar := 0.0;
    }
  }

  method AddLags(c: Vec, maxLag: nat, last: nat) returns (lrVar: real)
    requires last < |c|
    ensures lrVar == Weighted(c, maxLag, last)
  {
    lrVar := Dot(c, c) / |c| as real;
    assert c[..|c|] == c && c[0..] == c;
    for lag := 1 to last + 1
      invariant lrVar == Weighted(c, maxLag, lag - 1)
    {
      var gamma := Dot(c[..|c| - lag], c[lag..]) / |c| as real;
      assert gamma == Autocovariance(c, lag);
      var weight := 1.0 - lag as real / (maxLag as real + 1.0);
      assert weight == Weight(maxLag, lag);
      lrVar := lrVar + 2.0 * weight * gamma;
    }
  }
}
