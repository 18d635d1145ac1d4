/** Rolling regression, Chow test and QLR scan of backend/anomaly/structural_break.rs. */
module StructuralBreak {
  import opened Options
  import opened Reals
  import opened Vectors
  import opened Windows
  import opened Floats
  import opened GaussianElimination
  import opened LeastSquares

  // ----- the statistics as functions of the observations -----

  function Rss(X: Mat, y: Vec, k: nat): Float
    requires Rect(X, k) && |y| == |X|
  {
    if |X| <= k then PosInf
    else
      match Solve(NormalMatrix(X, y, k))
      case Some(beta) => Num(Dot(y, y) - Dot(beta, CrossVector(X, y, k)))
      case None => PosInf
  }

  /** Neither unsigned subtraction of the Chow test goes below zero. */
  predicate NoUnderflow(n: nat, k: nat, minObs: nat, bp: nat) {
    && (bp >= minObs ==> n >= minObs)
    && (minObs <= bp < n - minObs ==> n >= 2 * k)
  }

  /** The F statistic of three residual sums over `n` observations; None when there is next to
      no residual to compare with. */
  function FStatistic(full: Float, r1: Float, r2: Float, k: nat, n: nat): Option<Float>
    requires n >= 2 * k
  {
    var unrestricted := Plus(r1, r2);
    var numerator := Quotient(Minus(full, unrestricted), Num(k as real));
    var denominator := Quotient(unrestricted, Num((n - 2 * k) as real));
    if Greater(Num(0.0000000001), denominator) then None
    else Some(Quotient(numerator, denominator))
  }

  /** The Chow F statistic at break point `bp`; None when the test declines. */
  function ChowF(X: Mat, y: Vec, k: nat, minObs: nat, bp: nat): Option<Float>
    requires Rect(X, k) && |y| == |X| && NoUnderflow(|X|, k, minObs, bp)
  {
    var n := |X|;
    if bp < minObs || bp >= n - minObs || n < 2 * minObs then None
    else FStatistic(Rss(X, y, k), Rss(X[..bp], y[..bp], k), Rss(X[bp..], y[bp..], k), k, n)
  }

  /** A finite RSS is the least residual sum of squares over all coefficient vectors. */
  lemma RssIsLeast(X: Mat, y: Vec, k: nat, b: Vec)
    requires Rect(X, k) && |y| == |X| && |b| == k && Rss(X, y, k).Num?
    ensures Solve(NormalMatrix(X, y, k)).Some?
    ensures Rss(X, y, k).value == SSR(X, y, Solve(NormalMatrix(X, y, k)).value)
    ensures 0.0 <= Rss(X, y, k).value <= SSR(X, y, b)
  {
    var beta := Solve(NormalMatrix(X, y, k)).value;
    SolveIsExact(NormalMatrix(X, y, k), beta);
    RssFormula(X, y, beta);
    NormalEquationsMinimise(X, y, beta, b);
    SquareNonnegative(Residuals(X, y, beta));
  }

  predicate SegmentsSolve(X: Mat, y: Vec, k: nat, bp: nat)
    requires Rect(X, k) && |y| == |X|
  {
    bp <= |X| && Rss(X[..bp], y[..bp], k).Num? && Rss(X[bp..], y[bp..], k).Num?
  }

  /** Fitting two segments separately never leaves more residual than fitting them together. */
  lemma FullAtLeastSegments(X: Mat, y: Vec, k: nat, bp: nat)
    requires Rect(X, k) && |y| == |X| && bp <= |X|
    requires Rss(X, y, k).Num? && SegmentsSolve(X, y, k, bp)
    ensures Rss(X, y, k).value >= Rss(X[..bp], y[..bp], k).value + Rss(X[bp..], y[bp..], k).value
  {
    var beta := Solve(NormalMatrix(X, y, k)).value;
    hide Solve, NormalMatrix, Rss, SSR;
    RssIsLeast(X, y, k, beta);
    RssIsLeast(X[..bp], y[..bp], k, beta);
    RssIsLeast(X[bp..], y[bp..], k, beta);
    SegmentsAddUp(X, y, X[..bp], y[..bp], X[bp..], y[bp..], beta, bp);
  }

  lemma SegmentsAddUp(X: Mat, y: Vec, X1: Mat, y1: Vec, X2: Mat, y2: Vec, beta: Vec, bp: nat)
    requires Rect(X, |beta|) && |y| == |X| && bp <= |X|
    requires X1 == X[..bp] && X2 == X[bp..] && y1 == y[..bp] && y2 == y[bp..]
    ensures SSR(X1, y1, beta) + SSR(X2, y2, beta) == SSR(X, y, beta)
  {
    assert X == X1 + X2 && y == y1 + y2;
    SSRConcat(X1, y1, X2, y2, beta);
  }

  lemma RssRange(X: Mat, y: Vec, k: nat)
    requires Rect(X, k) && |y| == |X|
    ensures Rss(X, y, k).PosInf? || (Rss(X, y, k).Num? && Rss(X, y, k).value >= 0.0 && |X| > k)
  {
    if Rss(X, y, k).Num? { RssIsLeast(X, y, k, Zeros(k)); }
  }

  lemma QuotientSign(a: Float, b: Float)
    requires a.Num? && b.Num? && a.value >= 0.0 && b.value > 0.0
    ensures Quotient(a, b).Num? && Quotient(a, b).value >= 0.0
  {
    QuotientNonnegative(a.value, b.value);
  }

  predicate IsRss(f: Float) {
    f.PosInf? || (f.Num? && f.value >= 0.0)
  }

  /** What an F statistic can be. */
  predicate IsStatistic(f: Float) {
    f.NaN? || f.PosInf? || (f.Num? && f.value >= 0.0)
  }

  lemma FStatisticRange(full: Float, r1: Float, r2: Float, k: nat, n: nat)
    requires IsRss(full) && IsRss(r1) && IsRss(r2) && k > 0 && n >= 2 * k
    requires r1.Num? && r2.Num? ==> n > 2 * k
    requires full.Num? && r1.Num? && r2.Num? ==> full.value >= r1.value + r2.value
    requires FStatistic(full, r1, r2, k, n).Some?
    ensures var f := FStatistic(full, r1, r2, k, n).value;
            if !(r1.Num? && r2.Num?) then f == NaN
            else if !full.Num? then f == PosInf
            else f.Num? && f.value >= 0.0
  {
    if full.Num? && r1.Num? && r2.Num? {
      FStatisticNonnegative(full, r1, r2, k, n, Num(k as real), Num((n - 2 * k) as real));
    }
  }

  lemma FStatisticNonnegative(full: Float, r1: Float, r2: Float, k: nat, n: nat, c: Float, df: Float)
    requires full.Num? && r1.Num? && r2.Num? && r1.value >= 0.0 && r2.value >= 0.0
    requires full.value >= r1.value + r2.value && k > 0 && n > 2 * k && c == Num(k as real) && df == Num((n - 2 * k) as real)
    ensures var f := FStatistic(full, r1, r2, k, n); f.Some? ==> f.value.Num? && f.value.value >= 0.0
  {
    hide Quotient;
    var u := Plus(r1, r2);
    QuotientSign(Minus(full, u), c);
    QuotientSign(u, df);
    if FStatistic(full, r1, r2, k, n).Some? { QuotientSign(Quotient(Minus(full, u), c), Quotient(u, df)); }
  }

  /** Every Chow statistic is a nonnegative number when all three regressions solve, NaN when
      a segment does not, and infinite when only the full sample does not. */
  lemma ChowStatistic(X: Mat, y: Vec, k: nat, minObs: nat, bp: nat)
    requires Rect(X, k) && |y| == |X| && k > 0 && NoUnderflow(|X|, k, minObs, bp)
    requires ChowF(X, y, k, minObs, bp).Some?
    ensures bp < |X|
    ensures var f := ChowF(X, y, k, minObs, bp).value;
            if !SegmentsSolve(X, y, k, bp) then f == NaN
            else if !Rss(X, y, k).Num? then f == PosInf
            else f.Num? && f.value >= 0.0
  {
    var full, r1, r2 := Rss(X, y, k), Rss(X[..bp], y[..bp], k), Rss(X[bp..], y[bp..], k);
    RssRange(X, y, k);
    RssRange(X[..bp], y[..bp], k);
    RssRange(X[bp..], y[bp..], k);
    if full.Num? && r1.Num? && r2.Num? {
      FullAtLeastSegments(X, y, k, bp);
    }
    FStatisticRange(full, r1, r2, k, |X|);
  }

  // ----- what the Chow test answers -----

  /** `r` is the least residual sum of squares over all coefficients. */
  ghost predicate IsLeast(X: Mat, y: Vec, k: nat, r: real)
    requires Rect(X, k) && |y| == |X|
  {
    && (exists b: Vec :: |b| == k && SSR(X, y, b) == r)
    && (forall b: Vec :: |b| == k ==> r <= SSR(X, y, b))
  }

  lemma RssAttained(X: Mat, y: Vec, k: nat)
    requires Rect(X, k) && |y| == |X| && Rss(X, y, k).Num?
    ensures IsLeast(X, y, k, Rss(X, y, k).value)
  {
    var beta := Solve(NormalMatrix(X, y, k)).value;
    RssIsLeast(X, y, k, beta);
    forall b: Vec | |b| == k ensures Rss(X, y, k).value <= SSR(X, y, b) { RssIsLeast(X, y, k, b); }
  }

  lemma LeastUnique(X: Mat, y: Vec, k: nat, r: real, r': real)
    requires Rect(X, k) && |y| == |X| && IsLeast(X, y, k, r) && IsLeast(X, y, k, r')
    ensures r == r'
  {
  }

  /** With residual sum `u` of the two segments and `full` of the whole sample, if it solves: the
      test declines for next to no residual, and otherwise the statistic is
      ((full - u) / k) / (u / (n - 2k)). */
  ghost predicate IsRatio(f: Option<Float>, full: Option<real>, u: real, k: nat, n: nat) {
    var df := n as real - 2.0 * k as real;
    if u < 0.0000000001 * df then f.None?
    else
      match full
      case None => f == Some(PosInf)
      case Some(R) => f.Some? && f.value.Num? && f.value.value * k as real * u == (R - u) * df
  }

  /** What the test answers about break point `bp`, in terms of least residual sums. */
  ghost predicate IsChow(X: Mat, y: Vec, k: nat, minObs: nat, bp: nat, f: Option<Float>)
    requires Rect(X, k) && |y| == |X|
  {
    if bp < minObs || bp + minObs >= |X| || |X| < 2 * minObs then f.None?
    else if !SegmentsSolve(X, y, k, bp) then f == Some(NaN)
    else
      forall r1: real, r2: real :: IsLeast(X[..bp], y[..bp], k, r1) && IsLeast(X[bp..], y[bp..], k, r2) ==>
        if !Rss(X, y, k).Num? then IsRatio(f, None, r1 + r2, k, |X|)
        else forall R: real :: IsLeast(X, y, k, R) ==> IsRatio(f, Some(R), r1 + r2, k, |X|)
  }

  lemma RatioValue(f: real, a: real, b: real, k: real, df: real, u: real, gain: real)
    requires b != 0.0 && f == a / b && Scales(a, k, gain) && Scales(b, df, u)
    ensures f * k * u == gain * df
  {
    assert f * b == a;
    calc {
      f * k * u;
      f * k * (b * df);
      { Rearranged(f, k, b, df); }
      (f * b) * k * df;
      gain * df;
    }
  }

  lemma Rearranged(f: real, k: real, b: real, df: real)
    ensures f * k * (b * df) == (f * b) * k * df
  {
    assert k * (b * df) == b * (k * df);
    assert f * (b * (k * df)) == (f * b) * (k * df);
  }

  lemma QuotientScales(x: real, d: real)
    requires d != 0.0
    ensures Quotient(Num(x), Num(d)) == Num(x / d) && Scales(x / d, d, x)
  {
  }

  lemma FiniteRatio(R: real, r1: real, r2: real, k: nat, n: nat, c: real, df: real)
    requires k > 0 && n > 2 * k && c == k as real && df == (n - 2 * k) as real
    ensures IsRatio(FStatistic(Num(R), Num(r1), Num(r2), k, n), Some(R), r1 + r2, k, n)
  {
    var u, gain := r1 + r2, R - (r1 + r2);
    QuotientScales(gain, c);
    QuotientScales(u, df);
    var a, b := gain / c, u / df;
    Cutoff(b, df, u);
    if b >= 0.0000000001 { RatioValue(a / b, a, b, c, df, u, gain); }
    assert df == n as real - 2.0 * c;
    assert Minus(Num(R), Num(u)) == Num(gain);
  }

  lemma Cutoff(b: real, df: real, u: real)
    requires df > 0.0 && Scales(b, df, u)
    ensures b < 0.0000000001 <==> u < 0.0000000001 * df
  {
    var gap := b - 0.0000000001;
    assert gap * df == u - 0.0000000001 * df;
    if gap >= 0.0 { ProductNonnegative(gap, df); } else { ProductPositive(-gap, df); }
  }

  lemma InfiniteRatio(r1: real, r2: real, k: nat, n: nat, df: real)
    requires k > 0 && n > 2 * k && df == (n - 2 * k) as real
    ensures IsRatio(FStatistic(PosInf, Num(r1), Num(r2), k, n), None, r1 + r2, k, n)
  {
    var u := r1 + r2;
    QuotientScales(u, df);
    Cutoff(u / df, df, u);
    assert df == n as real - 2.0 * k as real;
  }

  /** The test answers exactly this. */
  lemma ChowAnswer(X: Mat, y: Vec, k: nat, minObs: nat, bp: nat)
    requires Rect(X, k) && |y| == |X| && k > 0 && NoUnderflow(|X|, k, minObs, bp)
    ensures IsChow(X, y, k, minObs, bp, ChowF(X, y, k, minObs, bp))
  {
    hide FStatistic, IsRatio, IsLeast, Rss;
    if !(bp < minObs || bp + minObs >= |X| || |X| < 2 * minObs) {
      var full, r1, r2 := Rss(X, y, k), Rss(X[..bp], y[..bp], k), Rss(X[bp..], y[bp..], k);
      RssRange(X, y, k);
      RssRange(X[..bp], y[..bp], k);
      RssRange(X[bp..], y[bp..], k);
      assert ChowF(X, y, k, minObs, bp) == FStatistic(full, r1, r2, k, |X|);
      if SegmentsSolve(X, y, k, bp) {
        SolvedAnswer(X, y, k, full, r1.value, r2.value, |X|);
        ChowOfSums(X, y, k, minObs, bp, FStatistic(full, r1, r2, k, |X|), r1.value, r2.value);
      } else {
        NoRatio(full, r1, r2, k, |X|);
      }
    }
  }

  lemma ChowOfSums(X: Mat, y: Vec, k: nat, minObs: nat, bp: nat, f: Option<Float>, s1: real, s2: real)
    requires Rect(X, k) && |y| == |X| && minObs <= bp && bp + minObs < |X| && SegmentsSolve(X, y, k, bp)
    requires s1 == Rss(X[..bp], y[..bp], k).value && s2 == Rss(X[bp..], y[bp..], k).value
    requires if !Rss(X, y, k).Num? then IsRatio(f, None, s1 + s2, k, |X|)
             else forall R: real :: IsLeast(X, y, k, R) ==> IsRatio(f, Some(R), s1 + s2, k, |X|)
    ensures IsChow(X, y, k, minObs, bp, f)
  {
    hide IsRatio, IsLeast, Rss;
    SegmentSums(X, y, k, bp);
  }

  lemma SolvedAnswer(X: Mat, y: Vec, k: nat, full: Float, r1: real, r2: real, n: nat)
    requires Rect(X, k) && |y| == |X| && k > 0 && n > 2 * k && full == Rss(X, y, k) && IsRss(full)
    ensures var f := FStatistic(full, Num(r1), Num(r2), k, n);
            if !full.Num? then IsRatio(f, None, r1 + r2, k, n)
            else forall R: real :: IsLeast(X, y, k, R) ==> IsRatio(f, Some(R), r1 + r2, k, n)
  {
    hide FStatistic, IsRatio, IsLeast, Rss;
    if full.Num? {
      RssAttained(X, y, k);
      forall R: real | IsLeast(X, y, k, R) ensures R == full.value { LeastUnique(X, y, k, R, full.value); }
      FiniteRatio(full.value, r1, r2, k, n, k as real, (n - 2 * k) as real);
    } else {
      InfiniteRatio(r1, r2, k, n, (n - 2 * k) as real);
    }
  }

  lemma SegmentSums(X: Mat, y: Vec, k: nat, bp: nat)
    requires Rect(X, k) && |y| == |X| && SegmentsSolve(X, y, k, bp)
    ensures forall r: real :: IsLeast(X[..bp], y[..bp], k, r) ==> r == Rss(X[..bp], y[..bp], k).value
    ensures forall r: real :: IsLeast(X[bp..], y[bp..], k, r) ==> r == Rss(X[bp..], y[bp..], k).value
  {
    var r1, r2 := Rss(X[..bp], y[..bp], k).value, Rss(X[bp..], y[bp..], k).value;
    RssAttained(X[..bp], y[..bp], k);
    RssAttained(X[bp..], y[bp..], k);
    forall r: real | IsLeast(X[..bp], y[..bp], k, r) ensures r == r1 { LeastUnique(X[..bp], y[..bp], k, r, r1); }
    forall r: real | IsLeast(X[bp..], y[bp..], k, r) ensures r == r2 { LeastUnique(X[bp..], y[bp..], k, r, r2); }
  }

  lemma NoRatio(full: Float, r1: Float, r2: Float, k: nat, n: nat)
    requires IsRss(full) && IsRss(r1) && IsRss(r2) && k > 0 && n >= 2 * k && !(r1.Num? && r2.Num?)
    ensures FStatistic(full, r1, r2, k, n) == Some(NaN)
  {
  }

  /** Regressor 1 throughout and responses 0, 2, 10, 10, 10, broken after the second: the three
      least residual sums are 99.2, 2 and 0, and F is 145.8. */
  lemma ChowExample(f: Option<Float>)
    requires IsRatio(f, Some(99.2), 2.0, 1, 5)
    ensures f == Some(Num(145.8))
  {
  }

  // ----- the QLR scan -----

  datatype Scan = Scan(stats: seq<Float>, sup: Float, best: nat)

  /** The scan loop over the outcomes of consecutive break points from `start` on. */
  function Scanned(results: seq<Option<Float>>, start: nat): Scan {
    if results == [] then Scan([], Num(0.0), start)
    else
      var m := |results| - 1;
      var s := Scanned(results[..m], start);
      match results[m]
      case None => s
      case Some(f) =>
        if Greater(f, s.sup) then Scan(s.stats + [f], f, start + m) else Scan(s.stats + [f], s.sup, s.best)
  }

  lemma ScanStep(before: seq<Option<Float>>, after: seq<Option<Float>>, start: nat, bp: nat, f: Option<Float>)
    requires after == before + [f] && bp == start + |before|
    ensures var s := Scanned(before, start);
            Scanned(after, start)
            == if f.None? then s
               else if Greater(f.value, s.sup) then Scan(s.stats + [f.value], f.value, bp)
               else Scan(s.stats + [f.value], s.sup, s.best)
  {
    assert after[..|before|] == before;
  }

  /** No scanned statistic exceeds `sup`, and `sup` is 0 or the statistic at `best`. */
  lemma {:induction false} ScanIsSupremum(results: seq<Option<Float>>, start: nat)
    requires forall r :: r in results && r.Some? ==> IsStatistic(r.value)
    ensures var s := Scanned(results, start);
            && (s.sup.PosInf? || (s.sup.Num? && s.sup.value >= 0.0))
            && (forall f :: f in s.stats ==> !Greater(f, s.sup))
            && (if s.sup == Num(0.0) then s.best == start
                else start <= s.best < start + |results| && results[s.best - start] == Some(s.sup)
                     && forall i :: 0 <= i < s.best - start ==> results[i] != Some(s.sup))
  {
    if results != [] {
      var m := |results| - 1;
      var before := Scanned(results[..m], start);
      ScanIsSupremum(results[..m], start);
      if results[m].Some? && Greater(results[m].value, before.sup) {
        forall i | 0 <= i < m ensures results[i] != results[m] {
          ScanCollects(results[..m], start, results[m].value);
          assert results[..m][i] == results[i];
        }
      }
    }
  }

  lemma {:induction false} ScanCollects(results: seq<Option<Float>>, start: nat, f: Float)
    ensures f in Scanned(results, start).stats <==> Some(f) in results
  {
    if results != [] {
      var m := |results| - 1;
      ScanCollects(results[..m], start, f);
      assert results == results[..m] + [results[m]];
    }
  }

  /** The statistics given, in order; a test that declines gives none. */
  function Given(results: seq<Option<Float>>): seq<Float> {
    if results == [] then []
    else (if results[0].Some? then [results[0].value] else []) + Given(results[1..])
  }

  lemma GivenFirst(r: Option<Float>, rest: seq<Option<Float>>, all: seq<Option<Float>>)
    requires all == [r] + rest
    ensures Given(all) == (if r.Some? then [r.value] else []) + Given(rest)
  {
    assert all[1..] == rest;
  }

  lemma {:induction false} GivenPush(results: seq<Option<Float>>, r: Option<Float>)
    ensures Given(results + [r]) == Given(results) + if r.Some? then [r.value] else []
  {
    hide Given;
    if results == [] {
      NothingGiven();
      GivenFirst(r, [], [] + [r]);
    } else {
      var rest := results[1..];
      GivenPush(rest, r);
      GivenFirst(results[0], rest, results);
      GivenFirst(results[0], rest + [r], results + [r]);
    }
  }

  lemma NothingGiven()
    ensures Given([]) == []
  {
  }

  lemma {:induction false} ScanGives(results: seq<Option<Float>>, start: nat)
    ensures Scanned(results, start).stats == Given(results)
  {
    if results != [] {
      var m := |results| - 1;
      ScanGives(results[..m], start);
      GivenPush(results[..m], results[m]);
      assert results == results[..m] + [results[m]];
    }
  }

  predicate ScanOk(n: nat, k: nat, minObs: nat, start: nat, end: nat) {
    start <= end && forall bp :: start <= bp < end ==> NoUnderflow(n, k, minObs, bp)
  }

  /** The outcomes of `test` at start..end. */
  function Outcomes(test: nat --> Option<Float>, start: nat, end: nat): (r: seq<Option<Float>>)
    requires start <= end && forall bp :: start <= bp < end ==> test.requires(bp)
    ensures |r| == end - start
    decreases end
  {
    if start == end then [] else Outcomes(test, start, end - 1) + [test(end - 1)]
  }

  lemma {:induction false} OutcomeAt(test: nat --> Option<Float>, start: nat, end: nat, bp: nat)
    requires start <= bp < end && forall b :: start <= b < end ==> test.requires(b)
    ensures Outcomes(test, start, end)[bp - start] == test(bp)
    decreases end
  {
    if bp < end - 1 { OutcomeAt(test, start, end - 1, bp); }
  }

  function ChowTester(X: Mat, y: Vec, k: nat, minObs: nat): nat --> Option<Float>
    requires Rect(X, k) && |y| == |X|
  {
    (bp: nat) requires Rect(X, k) && |y| == |X| && NoUnderflow(|X|, k, minObs, bp) => ChowF(X, y, k, minObs, bp)
  }

  /** The Chow tests of the break points start..end. */
  function ChowResults(X: Mat, y: Vec, k: nat, minObs: nat, start: nat, end: nat): (r: seq<Option<Float>>)
    requires Rect(X, k) && |y| == |X| && ScanOk(|X|, k, minObs, start, end)
    ensures |r| == end - start
  {
    Outcomes(ChowTester(X, y, k, minObs), start, end)
  }

  predicate IsNumber(r: Option<Float>) {
    r.Some? ==> IsStatistic(r.value) && r.value.Num?
  }

  ghost predicate AllNumbers(results: seq<Option<Float>>) {
    forall r :: r in results ==> IsNumber(r)
  }

  lemma {:induction false} OutcomesAreNumbers(test: nat --> Option<Float>, start: nat, end: nat)
    requires start <= end && forall bp :: start <= bp < end ==> test.requires(bp) && IsNumber(test(bp))
    ensures AllNumbers(Outcomes(test, start, end))
    decreases end
  {
    if start < end { OutcomesAreNumbers(test, start, end - 1); }
  }

  /** `sup` is the largest outcome, attained when there is one, and at `best` when positive. */
  ghost predicate IsMaximum(s: Scan, test: nat --> Option<Float>, start: nat, end: nat)
    requires forall bp :: start <= bp < end ==> test.requires(bp)
  {
    && s.sup.Num?
    && (forall bp: nat :: start <= bp < end && test(bp).Some? ==>
          test(bp).value.Num? && test(bp).value.value <= s.sup.value)
    && (s.stats != [] ==> exists bp: nat :: start <= bp < end && test(bp) == Some(s.sup))
    && (s.sup.value > 0.0 ==> start <= s.best < end && test(s.best) == Some(s.sup))
  }

  lemma OutcomeIn(test: nat --> Option<Float>, start: nat, end: nat, r: Option<Float>)
    requires start <= end && forall b :: start <= b < end ==> test.requires(b)
    ensures r in Outcomes(test, start, end) <==> exists bp: nat :: start <= bp < end && test(bp) == r
  {
    var results := Outcomes(test, start, end);
    if r in results {
      var i :| 0 <= i < |results| && results[i] == r;
      OutcomeAt(test, start, end, start + i);
    }
    if bp: nat :| start <= bp < end && test(bp) == r {
      OutcomeAt(test, start, end, bp);
      assert results[bp - start] in results;
    }
  }

  /** Over outcomes that are all numbers the scan finds their maximum. */
  lemma MaximumOfScan(test: nat --> Option<Float>, start: nat, end: nat)
    requires start <= end && forall bp :: start <= bp < end ==> test.requires(bp) && IsNumber(test(bp))
    ensures IsMaximum(Scanned(Outcomes(test, start, end), start), test, start, end)
  {
    var results := Outcomes(test, start, end);
    var s := Scanned(results, start);
    OutcomesAreNumbers(test, start, end);
    ScanIsSupremum(results, start);
    hide Outcomes, Scanned;
    forall bp: nat | start <= bp < end && test(bp).Some? ensures !Greater(test(bp).value, s.sup) {
      OutcomeIn(test, start, end, test(bp));
      ScanCollects(results, start, test(bp).value);
    }
    if s.sup != Num(0.0) { OutcomeAt(test, start, end, s.best); }
    if s.stats != [] { SomeOutcome(test, start, end, s); }
  }

  /** If any test gave a statistic one of them gave the supremum, be it 0. */
  lemma SomeOutcome(test: nat --> Option<Float>, start: nat, end: nat, s: Scan)
    requires start <= end && forall bp :: start <= bp < end ==> test.requires(bp) && IsNumber(test(bp))
    requires s == Scanned(Outcomes(test, start, end), start) && s.stats != []
    ensures exists bp: nat :: start <= bp < end && test(bp) == Some(s.sup)
  {
    var results := Outcomes(test, start, end);
    OutcomesAreNumbers(test, start, end);
    ScanIsSupremum(results, start);
    hide Outcomes, Scanned;
    if s.sup != Num(0.0) {
      OutcomeAt(test, start, end, s.best);
    } else {
      var f := s.stats[0];
      ScanCollects(results, start, f);
      OutcomeIn(test, start, end, Some(f));
      assert !Greater(f, s.sup);
    }
  }

  /** The full sample and both segments solve at every break point whose test does not decline. */
  ghost predicate TestsSolve(X: Mat, y: Vec, k: nat, minObs: nat, start: nat, end: nat)
    requires Rect(X, k) && |y| == |X| && ScanOk(|X|, k, minObs, start, end)
  {
    forall bp :: start <= bp < end && ChowF(X, y, k, minObs, bp).Some? ==>
      Rss(X, y, k).Num? && SegmentsSolve(X, y, k, bp)
  }

  /** The scan finds the largest Chow statistic exactly when the regressions of every test that
      does not decline solve. */
  lemma MaximumExactly(X: Mat, y: Vec, k: nat, minObs: nat, start: nat, end: nat)
    requires Rect(X, k) && |y| == |X| && k > 0 && ScanOk(|X|, k, minObs, start, end)
    ensures IsMaximum(Scanned(ChowResults(X, y, k, minObs, start, end), start), ChowTester(X, y, k, minObs), start, end)
       <==> TestsSolve(X, y, k, minObs, start, end)
  {
    hide ChowF, Rss, SegmentsSolve;
    var test := ChowTester(X, y, k, minObs);
    forall bp: nat | start <= bp < end
      ensures IsNumber(test(bp)) <==> (test(bp).Some? ==> Rss(X, y, k).Num? && SegmentsSolve(X, y, k, bp))
    {
      ChowIsNumber(X, y, k, minObs, bp);
    }
    if TestsSolve(X, y, k, minObs, start, end) {
      MaximumOfScan(test, start, end);
    } else {
      var bp: int :| start <= bp < end && ChowF(X, y, k, minObs, bp).Some? && !(Rss(X, y, k).Num? && SegmentsSolve(X, y, k, bp));
      assert test(bp) == ChowF(X, y, k, minObs, bp);
      assert !IsNumber(test(bp));
      ChowIsStatistic(X, y, k, minObs, bp);
    }
  }

  lemma ChowIsNumber(X: Mat, y: Vec, k: nat, minObs: nat, bp: nat)
    requires Rect(X, k) && |y| == |X| && k > 0 && NoUnderflow(|X|, k, minObs, bp)
    ensures var f := ChowF(X, y, k, minObs, bp);
            IsNumber(f) <==> (f.Some? ==> Rss(X, y, k).Num? && SegmentsSolve(X, y, k, bp))
  {
    if ChowF(X, y, k, minObs, bp).Some? { ChowStatistic(X, y, k, minObs, bp); }
  }

  lemma ChowIsStatistic(X: Mat, y: Vec, k: nat, minObs: nat, bp: nat)
    requires Rect(X, k) && |y| == |X| && k > 0 && NoUnderflow(|X|, k, minObs, bp)
    requires ChowF(X, y, k, minObs, bp).Some?
    ensures IsStatistic(ChowF(X, y, k, minObs, bp).value)
  {
    ChowStatistic(X, y, k, minObs, bp);
  }

  /** In particular when every regression solves. */
  lemma SupIsMaximum(X: Mat, y: Vec, k: nat, minObs: nat, start: nat, end: nat)
    requires Rect(X, k) && |y| == |X| && k > 0 && ScanOk(|X|, k, minObs, start, end)
    requires Rss(X, y, k).Num?
    requires forall bp :: start <= bp < end ==> SegmentsSolve(X, y, k, bp)
    ensures IsMaximum(Scanned(ChowResults(X, y, k, minObs, start, end), start), ChowTester(X, y, k, minObs), start, end)
  {
    MaximumExactly(X, y, k, minObs, start, end);
  }

  // ----- what the whole scan answers -----

  /** `trim` is n * p rounded down, and 0 for a negative p. */
  predicate IsTrim(trim: nat, n: nat, p: real) {
    if n as real * p < 0.0 then trim == 0 else trim as real <= n as real * p < trim as real + 1.0
  }

  /** The scan of tests from `start` on: their statistics in order, and the first of the largest of
      them unless none is above 0. */
  ghost predicate IsScan(s: Scan, tests: seq<Option<Float>>, start: nat) {
    && s.stats == Given(tests)
    && (s.sup.PosInf? || (s.sup.Num? && s.sup.value >= 0.0))
    && (forall f :: f in s.stats ==> !Greater(f, s.sup))
    && (if s.sup == Num(0.0) then s.best == start
        else start <= s.best < start + |tests| && tests[s.best - start] == Some(s.sup)
             && forall i :: 0 <= i < s.best - start ==> tests[i] != Some(s.sup))
  }

  /** The tests of the break points left after cutting `cut` observations off at both ends. */
  ghost predicate AreTests(X: Mat, y: Vec, k: nat, minObs: nat, cut: nat, tests: seq<Option<Float>>)
    requires Rect(X, k) && |y| == |X|
  {
    && 2 * cut + |tests| == |X|
    && forall i :: 0 <= i < |tests| ==> IsChow(X, y, k, minObs, cut + i, tests[i])
  }

  ghost predicate IsQlrFrom(X: Mat, y: Vec, k: nat, minObs: nat, cut: nat, r: Option<Scan>)
    requires Rect(X, k) && |y| == |X|
  {
    if 2 * cut >= |X| then r.None?
    else
      exists tests ::
        AreTests(X, y, k, minObs, cut, tests)
        && if Given(tests) == [] then r.None? else r.Some? && IsScan(r.value, tests, cut)
  }

  /** What the QLR test answers, in terms of least residual sums. */
  ghost predicate IsQlr(X: Mat, y: Vec, k: nat, minObs: nat, p: real, r: Option<Scan>)
    requires Rect(X, k) && |y| == |X|
  {
    if |X| < 2 * minObs then r.None?
    else
      exists trim: nat ::
        IsTrim(trim, |X|, p) && IsQlrFrom(X, y, k, minObs, if trim > minObs then trim else minObs, r)
  }

  lemma ResultsAreTests(X: Mat, y: Vec, k: nat, minObs: nat, cut: nat)
    requires Rect(X, k) && |y| == |X| && k > 0 && 2 * cut <= |X| && ScanOk(|X|, k, minObs, cut, |X| - cut)
    ensures AreTests(X, y, k, minObs, cut, ChowResults(X, y, k, minObs, cut, |X| - cut))
  {
    hide IsChow, ChowF;
    var test, end := ChowTester(X, y, k, minObs), |X| - cut;
    var tests := Outcomes(test, cut, end);
    forall i | 0 <= i < |tests| ensures IsChow(X, y, k, minObs, cut + i, tests[i]) {
      OutcomeAt(test, cut, end, cut + i);
      ChowAnswer(X, y, k, minObs, cut + i);
    }
  }

  lemma ResultsAreStatistics(X: Mat, y: Vec, k: nat, minObs: nat, start: nat, end: nat, r: Option<Float>)
    requires Rect(X, k) && |y| == |X| && k > 0 && ScanOk(|X|, k, minObs, start, end)
    requires r in ChowResults(X, y, k, minObs, start, end) && r.Some?
    ensures IsStatistic(r.value)
  {
    hide ChowF;
    var test := ChowTester(X, y, k, minObs);
    OutcomeIn(test, start, end, r);
    var bp: nat :| start <= bp < end && test(bp) == r;
    ChowIsStatistic(X, y, k, minObs, bp);
  }

  lemma ScannedIsScan(tests: seq<Option<Float>>, start: nat)
    requires forall r :: r in tests && r.Some? ==> IsStatistic(r.value)
    ensures IsScan(Scanned(tests, start), tests, start)
  {
    ScanIsSupremum(tests, start);
    ScanGives(tests, start);
  }

  /** The scan answers exactly this. */
  lemma QlrAnswer(X: Mat, y: Vec, k: nat, minObs: nat, p: real)
    requires Rect(X, k) && |y| == |X| && k > 0 && QlrOk(|X|, k, minObs, p)
    ensures IsQlr(X, y, k, minObs, p, QlrOf(X, y, k, minObs, p))
  {
    hide Scanned, IsScan, AreTests, ChowResults, Given;
    if |X| >= 2 * minObs {
      var n, trim, cut := |X|, TrimCount(|X|, p), ScanStart(|X|, minObs, p);
      assert IsTrim(trim, n, p);
      if 2 * cut < n {
        var tests := ChowResults(X, y, k, minObs, cut, n - cut);
        ResultsAreTests(X, y, k, minObs, cut);
        forall r | r in tests && r.Some? ensures IsStatistic(r.value) {
          ResultsAreStatistics(X, y, k, minObs, cut, n - cut, r);
        }
        ScannedIsScan(tests, cut);
        ScanGives(tests, cut);
      }
      assert IsQlrFrom(X, y, k, minObs, cut, QlrOf(X, y, k, minObs, p));
    }
  }

  // ----- collinear regressors -----

  ghost predicate Collinear(X: Mat, v: Vec) {
    Rect(X, |v|) && v != Zeros(|v|) && forall t :: 0 <= t < |X| ==> Dot(X[t], v) == 0.0
  }

  /** Adding to a solution coefficients that fit nothing gives another solution. */
  lemma CollinearShift(X: Mat, y: Vec, beta: Vec, v: Vec)
    requires Collinear(X, v) && |y| == |X| && |beta| == |v| && Solves(NormalMatrix(X, y, |v|), beta)
    ensures Solves(NormalMatrix(X, y, |v|), Axpy(beta, 1.0, v))
  {
    var k, w := |v|, Axpy(beta, 1.0, v);
    assert Residuals(X, y, w) == Residuals(X, y, beta) by {
      FitOfDifference(X, beta, v);
      assert forall t :: 0 <= t < |X| ==> Fit(X, v)[t] == 0.0;
    }
    forall i | 0 <= i < k ensures Dot(NormalMatrix(X, y, k)[i], w + [-1.0]) == 0.0 {
      assert Dot(NormalMatrix(X, y, k)[i], beta + [-1.0]) == 0.0;
      NormalRowResidual(X, y, beta, i);
      NormalRowResidual(X, y, w, i);
    }
  }

  /** Perfectly collinear regressors never give a finite RSS. */
  lemma CollinearRss(X: Mat, y: Vec, v: Vec)
    requires Collinear(X, v) && |y| == |X|
    ensures Rss(X, y, |v|) == PosInf
  {
    var m := NormalMatrix(X, y, |v|);
    if Solve(m).Some? {
      var beta := Solve(m).value;
      SolveIsExact(m, beta);
      CollinearNotUnique(X, y, beta, v);
      SolveIsExact(m, Axpy(beta, 1.0, v));
    }
  }

  lemma CollinearNotUnique(X: Mat, y: Vec, beta: Vec, v: Vec)
    requires Collinear(X, v) && |y| == |X| && |beta| == |v| && Solves(NormalMatrix(X, y, |v|), beta)
    ensures Solves(NormalMatrix(X, y, |v|), Axpy(beta, 1.0, v)) && Axpy(beta, 1.0, v) != beta
  {
    var other := Axpy(beta, 1.0, v);
    CollinearShift(X, y, beta, v);
    var i :| 0 <= i < |v| && v[i] != Zeros(|v|)[i];
    assert other[i] == beta[i] - v[i];
  }

  lemma {:induction false} BlindScan(test: nat --> Option<Float>, start: nat, end: nat)
    requires start <= end
    requires forall bp :: start <= bp < end ==> test.requires(bp) && (test(bp).Some? ==> test(bp).value == NaN)
    ensures Scanned(Outcomes(test, start, end), start).sup == Num(0.0)
    decreases end
  {
    if start < end {
      var last := end - 1;
      var before, after := Outcomes(test, start, last), Outcomes(test, start, end);
      BlindScan(test, start, last);
      assert after == before + [test(last)];
      ScanStep(before, after, start, last, test(last));
    }
  }

  /** On collinear regressors the scan reports a supremum of 0, however large the break. */
  lemma CollinearScanIsBlind(X: Mat, y: Vec, v: Vec, minObs: nat, start: nat, end: nat)
    requires Collinear(X, v) && |y| == |X| && |v| > 0 && ScanOk(|X|, |v|, minObs, start, end)
    ensures Scanned(ChowResults(X, y, |v|, minObs, start, end), start).sup == Num(0.0)
  {
    var test := ChowTester(X, y, |v|, minObs);
    forall bp: nat | start <= bp < end && test(bp).Some? ensures test(bp).value == NaN {
      ChowStatistic(X, y, |v|, minObs, bp);
      CollinearRss(X[..bp], y[..bp], v);
    }
    BlindScan(test, start, end);
  }

  // ----- the rolling regression -----

  lemma NormalStep(X: Mat, y: Vec, k: nat, x: Vec, v: real, i: nat)
    requires Rect(X, k) && |y| == |X| && |x| == k && i < k
    ensures NormalRow(X + [x], y + [v], k, i) == Axpy(NormalRow(X, y, k, i), -x[i], x + [v])
  {
    var A, B := Augmented(X, y, k), Augmented(X + [x], y + [v], k);
    assert B[..|X|] == A && B[|X|] == x + [v];
    assert Column(X + [x], k, i)[..|X|] == Column(X, k, i) && Column(X + [x], k, i)[|X|] == x[i];
  }

  lemma NormalStepAt(X: Mat, y: Vec, k: nat, x: Vec, v: real, i: nat, j: nat)
    requires Rect(X, k) && |y| == |X| && |x| == k && i < k && j <= k
    ensures NormalRow(X + [x], y + [v], k, i)[j] == NormalRow(X, y, k, i)[j] + x[i] * (if j < k then x[j] else v)
  {
    NormalStep(X, y, k, x, v, i);
  }

  class RollingRegression {
    const k: nat
    const xtx: array2<real>
    const xty: array<real>
    var yty: real
    var n: nat

    /** The accumulators of exactly these observations. */
    ghost predicate Holds(X: Mat, y: Vec)
      reads this, xtx, xty
    {
      && Rect(X, k) && |y| == |X| == n
      && HasProducts(X, y) && HasCross(X, y)
      && yty == Dot(y, y)
    }

    constructor (k: nat)
      ensures this.k == k && Holds([], []) && fresh(xtx) && fresh(xty)
    {
      this.k := k;
      xtx := new real[k, k]((_, _) => 0.0);
      xty := new real[k](_ => 0.0);
      yty, n := 0.0, 0;
    }

    /** Upper triangle first, mirrored entry by entry. */
    method UpdateProducts(x: Vec)
      requires |x| == k == xtx.Length0 == xtx.Length1
      requires forall i, j :: 0 <= i < k && 0 <= j < k ==> xtx[i, j] == xtx[j, i]
      modifies xtx
      ensures forall i, j :: 0 <= i < k && 0 <= j < k ==> xtx[i, j] == old(xtx[i, j]) + x[i] * x[j]
    {
      for i := 0 to k
        invariant forall a, b :: 0 <= a < k && 0 <= b < k ==>
          xtx[a, b] == if a < i || b < i then old(xtx[a, b]) + x[a] * x[b] else old(xtx[a, b])
      {
        for j := i to k
          invariant forall a, b :: 0 <= a < k && 0 <= b < k ==>
            xtx[a, b] == if a < i || b < i || (a == i && b < j) || (b == i && a < j)
                         then old(xtx[a, b]) + x[a] * x[b] else old(xtx[a, b])
        {
          xtx[i, j] := xtx[i, j] + x[i] * x[j];
          if i != j {
            xtx[j, i] := xtx[i, j];
          }
        }
      }
    }

    method UpdateCross(x: Vec, v: real)
      requires |x| == k == xty.Length
      modifies xty
      ensures forall i :: 0 <= i < k ==> xty[i] == old(xty[i]) + x[i] * v
    {
      for i := 0 to k
        invariant forall a :: 0 <= a < k ==> xty[a] == if a < i then old(xty[a]) + x[a] * v else old(xty[a])
      {
        xty[i] := xty[i] + x[i] * v;
      }
    }

    ghost predicate HasProducts(X: Mat, y: Vec)
      requires Rect(X, k) && |y| == |X|
      reads xtx
    {
      && xtx.Length0 == xtx.Length1 == k
      && (forall i, j :: 0 <= i < k && 0 <= j < k ==> xtx[i, j] == NormalRow(X, y, k, i)[j])
    }

    ghost predicate HasCross(X: Mat, y: Vec)
      requires Rect(X, k) && |y| == |X|
      reads xty
    {
      && xty.Length == k
      && (forall i :: 0 <= i < k ==> xty[i] == NormalRow(X, y, k, i)[k])
    }

    method UpdateProductRows(x: Vec, ghost v: real, ghost X: Mat, ghost y: Vec)
      requires Rect(X, k) && |y| == |X| && |x| == k && HasProducts(X, y)
      modifies xtx
      ensures Rect(X + [x], k) && HasProducts(X + [x], y + [v])
    {
      forall i, j | 0 <= i < k && 0 <= j < k ensures xtx[i, j] == xtx[j, i] {
        NormalSymmetric(X, y, k, i, j);
      }
      UpdateProducts(x);
      forall i, j | 0 <= i < k && 0 <= j < k ensures xtx[i, j] == NormalRow(X + [x], y + [v], k, i)[j] {
        NormalStepAt(X, y, k, x, v, i, j);
      }
    }

    method UpdateCrossRows(x: Vec, v: real, ghost X: Mat, ghost y: Vec)
      requires Rect(X, k) && |y| == |X| && |x| == k && HasCross(X, y)
      modifies xty
      ensures Rect(X + [x], k) && HasCross(X + [x], y + [v])
    {
      UpdateCross(x, v);
      forall i | 0 <= i < k ensures xty[i] == NormalRow(X + [x], y + [v], k, i)[k] {
        NormalStepAt(X, y, k, x, v, i, k);
      }
    }

    method Update(x: Vec, v: real, ghost X: Mat, ghost y: Vec)
      requires Holds(X, y) && |x| == k
      modifies this, xtx, xty
      ensures Holds(X + [x], y + [v])
    {
      UpdateProductRows(x, v, X, y);
      UpdateCrossRows(x, v, X, y);
      DotLast(y, y, v, v);
      yty := yty + v * v;
      n := n + 1;
    }

    method SolveNormalEquations(ghost X: Mat, ghost y: Vec) returns (beta: Option<Vec>)
      requires Holds(X, y)
      ensures beta == Solve(NormalMatrix(X, y, k))
    {
      var rows := new Vec[k](_ => []);
      for i := 0 to k
        invariant forall a :: 0 <= a < i ==> rows[a] == NormalRow(X, y, k, a)
      {
        var row: Vec := [];
        for j := 0 to k
          invariant row == NormalRow(X, y, k, i)[..j]
        {
          row := row + [xtx[i, j]];
        }
        row := row + [xty[i]];
        rows[i] := row;
      }
      assert rows[..] == NormalMatrix(X, y, k);
      beta := SolveRows(rows);
    }

    method ResidualSum(ghost X: Mat, ghost y: Vec) returns (r: Float)
      requires Holds(X, y)
      ensures r == Rss(X, y, k)
    {
      if n <= k {
        return PosInf;
      }
      var beta := SolveNormalEquations(X, y);
      if beta.None? {
        return PosInf;
      }
      ghost var cross := CrossVector(X, y, k);
      assert xty[..] == cross;
      var fit := DotLoop(beta.value, xty);
      r := Num(yty - fit);
    }
  }

  method DotLoop(b: Vec, a: array<real>) returns (sum: real)
    requires |b| == a.Length
    ensures sum == Dot(b, a[..])
  {
    sum := 0.0;
    for i := 0 to |b|
      invariant sum == Dot(b[..i], a[..i])
    {
      assert b[..i + 1][..i] == b[..i] && a[..i + 1][..i] == a[..i];
      sum := sum + b[i] * a[i];
    }
    assert b[..|b|] == b && a[..|b|] == a[..];
  }

  // ----- the detector -----

  class StructuralBreakDetector {
    const k: nat
    const minObs: nat
    const trimProportion: real
    var X: seq<Vec>
    var y: seq<real>
    var full: RollingRegression?

    /** The window is bounded and the stored regression is that of the whole window. */
    ghost predicate Valid()
      reads this, full, if full == null then {} else {full.xtx, full.xty}
    {
      && Rect(X, k) && |y| == |X| <= 4 * minObs
      && (full == null <==> |X| < 2 * minObs)
      && (full != null ==> full.k == k && full.Holds(X, y))
    }

    constructor (k: nat, minObs: nat, trimProportion: real)
      requires minObs > 0
      ensures Valid() && X == [] && this.k == k && this.minObs == minObs && this.trimProportion == trimProportion
    {
      this.k, this.minObs, this.trimProportion := k, minObs, trimProportion;
      X, y, full := [], [], null;
    }

    method AddObservation(x: Vec, v: real)
      requires Valid() && |x| == k
      modifies this
      ensures Valid()
      ensures X == LastOf(old(X) + [x], 4 * minObs) && y == LastOf(old(y) + [v], 4 * minObs)
    {
      X, y := X + [x], y + [v];
      EvictOldest();
      RebuildFullRegression();
    }

    method EvictOldest()
      requires |y| == |X|
      modifies `X, `y
      ensures X == LastOf(old(X), 4 * minObs) && y == LastOf(old(y), 4 * minObs)
    {
      var maxWindow := minObs * 4;
      while |X| > maxWindow
        invariant |X| == |y| <= |old(X)|
        invariant |X| < maxWindow ==> |X| == |old(X)|
        invariant X == old(X)[|old(X)| - |X|..] && y == old(y)[|old(X)| - |X|..]
      {
        X, y := X[1..], y[1..];
      }
    }

    method RebuildFullRegression()
      requires Rect(X, k) && |y| == |X| <= 4 * minObs
      modifies this`full
      ensures Valid()
    {
      if |X| < minObs * 2 {
        full := null;
        return;
      }
      var reg := RegressionOf(X, y, k);
      full := reg;
    }

    /** None: break point outside the allowed range, or next to no residual to compare with. */
    method ChowTest(bp: nat) returns (f: Option<Float>)
      requires Valid() && NoUnderflow(|X|, k, minObs, bp)
      ensures f == ChowF(X, y, k, minObs, bp)
      ensures k > 0 ==> IsChow(X, y, k, minObs, bp, f)
    {
      if k > 0 { ChowAnswer(X, y, k, minObs, bp); }
      var n := |X|;
      if bp < minObs || bp >= n - minObs {
        return None;
      }
      if full == null {
        return None;
      }
      var rssFull := full.ResidualSum(X, y);
      var reg1 := RegressionOf(X[..bp], y[..bp], k);
      var rss1 := reg1.ResidualSum(X[..bp], y[..bp]);
      var reg2 := RegressionOf(X[bp..], y[bp..], k);
      var rss2 := reg2.ResidualSum(X[bp..], y[bp..]);
      f := FStatistic(rssFull, rss1, rss2, k, n);
    }

    /** Scan of all break points left after trimming; None when there are none to test. */
    method QlrTest() returns (r: Option<Scan>)
      requires Valid() && QlrOk(|X|, k, minObs, trimProportion)
      ensures r == QlrOf(X, y, k, minObs, trimProportion)
      ensures k > 0 ==> IsQlr(X, y, k, minObs, trimProportion, r)
    {
      if k > 0 { QlrAnswer(X, y, k, minObs, trimProportion); }
      var n := |X|;
      if n < minObs * 2 {
        return None;
      }
      var trim := TrimCount(n, trimProportion);
      var start := if trim > minObs then trim else minObs;
      var end := if n - trim < n - minObs then n - trim else n - minObs;
      assert start == ScanStart(n, minObs, trimProportion) && end == ScanEnd(n, minObs, trimProportion);
      if start >= end {
        return None;
      }
      var s := ScanRange(start, end);
      r := if s.stats == [] then None else Some(s);
    }

    method ScanRange(start: nat, end: nat) returns (s: Scan)
      requires Valid() && ScanOk(|X|, k, minObs, start, end)
      ensures s == Scanned(ChowResults(X, y, k, minObs, start, end), start)
    {
      var stats: seq<Float> := [];
      var supF, bestBreak: nat := Num(0.0), start;
      for bp := start to end
        invariant Scan(stats, supF, bestBreak) == Scanned(ChowResults(X, y, k, minObs, start, bp), start)
      {
        var f := ChowTest(bp);
        ghost var before, after := ChowResults(X, y, k, minObs, start, bp), ChowResults(X, y, k, minObs, start, bp + 1);
        assert after == before + [ChowTester(X, y, k, minObs)(bp)];
        ScanStep(before, after, start, bp, f);
        if f.Some? {
          stats := stats + [f.value];
          if Greater(f.value, supF) {
            supF, bestBreak := f.value, bp;
          }
        }
      }
      s := Scan(stats, supF, bestBreak);
    }
  }

  method RegressionOf(X: Mat, y: Vec, k: nat) returns (reg: RollingRegression)
    requires Rect(X, k) && |y| == |X|
    ensures fresh(reg) && fresh(reg.xtx) && fresh(reg.xty) && reg.k == k && reg.Holds(X, y)
  {
    reg := new RollingRegression(k);
    for t := 0 to |X|
      invariant reg.Holds(X[..t], y[..t])
    {
      assert X[..t + 1] == X[..t] + [X[t]] && y[..t + 1] == y[..t] + [y[t]];
      reg.Update(X[t], y[t], X[..t], y[..t]);
    }
    assert X[..|X|] == X && y[..|X|] == y;
  }

  /** `(n * p) as usize`: truncated, and 0 for a negative product. */
  function TrimCount(n: nat, p: real): nat {
    var v := n as real * p;
    if v < 0.0 then 0 else v.Floor
  }

  function ScanStart(n: nat, minObs: nat, p: real): nat {
    var trim := TrimCount(n, p);
    if trim > minObs then trim else minObs
  }

  function ScanEnd(n: nat, minObs: nat, p: real): nat
    requires minObs <= n && TrimCount(n, p) <= n
  {
    var trim := TrimCount(n, p);
    if n - trim < n - minObs then n - trim else n - minObs
  }

  /** No unsigned subtraction that the scan gets to goes below zero. */
  predicate QlrOk(n: nat, k: nat, minObs: nat, p: real) {
    n >= 2 * minObs ==>
      TrimCount(n, p) <= n && (ScanStart(n, minObs, p) < ScanEnd(n, minObs, p) ==> n >= 2 * k)
  }

  function QlrOf(X: Mat, y: Vec, k: nat, minObs: nat, p: real): Option<Scan>
    requires Rect(X, k) && |y| == |X| && QlrOk(|X|, k, minObs, p)
  {
    var n := |X|;
    if n < 2 * minObs then None
    else
      var start, end := ScanStart(n, minObs, p), ScanEnd(n, minObs, p);
      if start >= end then None
      else
        var s := Scanned(ChowResults(X, y, k, minObs, start, end), start);
        if s.stats == [] then None else Some(s)
  }
}
