/** Losses and the Diebold-Mariano statistic of backend/analytics/forecast_eval.rs. The square
    root and the normal quantile are parameters. */
module ForecastEvaluation {
  import opened Reals
  import opened Vectors
  import opened NeweyWest

  datatype LossFunction = MSE | MAE | Huber(delta: real)

  function Loss(f: LossFunction, actual: real, predicted: real): real {
    var error := actual - predicted;
    match f
    case MSE => error * error
    case MAE => Abs(error)
    case Huber(delta) =>
      if Abs(error) <= delta then 0.5 * error * error else delta * (Abs(error) - 0.5 * delta)
  }

  datatype DMResult = DMResult(dm: real, model1Better: bool, model2Better: bool,
                               n: nat, meanDiff: real, lrVariance: real)

  function Min(a: nat, b: nat): nat {
    if a < b then a else b
  }

  function Shared(actuals: Vec, p1: Vec, p2: Vec): nat {
    Min(Min(|actuals|, |p1|), |p2|)
  }

  /** Loss of the first model minus loss of the second, observation by observation. */
  function LossDifferences(f: LossFunction, actuals: Vec, p1: Vec, p2: Vec): (d: Vec)
    ensures |d| == Shared(actuals, p1, p2)
  {
    seq(Shared(actuals, p1, p2), i requires 0 <= i < Shared(actuals, p1, p2) =>
      Loss(f, actuals[i], p1[i]) - Loss(f, actuals[i], p2[i]))
  }

  /** A square root may be any function that is positive on positive numbers. */
  ghost predicate IsRoot(sqrt: real -> real) {
    forall x: real :: x > 0.0 ==> sqrt(x) > 0.0
  }

  function Statistic(meanDiff: real, lrVariance: real, n: nat, sqrt: real -> real): real
    requires IsRoot(sqrt) && n > 0
  {
    if lrVariance > 0.0000000001 then
      assert lrVariance / n as real > 0.0;
      meanDiff / sqrt(lrVariance / n as real)
    else 0.0
  }

  function DieboldMariano(f: LossFunction, maxLag: nat, minObservations: nat, critical: real, sqrt: real -> real,
                          actuals: Vec, p1: Vec, p2: Vec): DMResult
    requires IsRoot(sqrt)
  {
    var n := Shared(actuals, p1, p2);
    if n < minObservations || n == 0 then DMResult(0.0, false, false, n, 0.0, 0.0)
    else
      var d := LossDifferences(f, actuals, p1, p2);
      var lr := LongRunVariance(d, maxLag);
      var dm := Statistic(Mean(d), lr, n, sqrt);
      DMResult(dm, dm > critical, dm < -critical, n, Mean(d), lr)
  }

  // ----- swapping the models -----

  lemma {:induction false} NegatedTotal(x: Vec)
    ensures Total(Negated(x)) == -Total(x)
  {
    if x != [] {
      assert Negated(x)[..|x| - 1] == Negated(x[..|x| - 1]);
      NegatedTotal(x[..|x| - 1]);
    }
  }

  lemma NegatedMean(x: Vec)
    requires x != []
    ensures Mean(Negated(x)) == -Mean(x) && Center(Negated(x)) == Negated(Center(x))
  {
    NegatedTotal(x);
    assert -Total(x) / |x| as real == -(Total(x) / |x| as real);
  }

  lemma {:induction false} NegatedDot(a: Vec, b: Vec)
    requires |a| == |b|
    ensures Dot(Negated(a), Negated(b)) == Dot(a, b)
  {
    if a != [] {
      var m := |a| - 1;
      assert Negated(a)[..m] == Negated(a[..m]) && Negated(b)[..m] == Negated(b[..m]);
      NegatedDot(a[..m], b[..m]);
      SignsCancel(a[m], b[m]);
    }
  }

  lemma SignsCancel(x: real, y: real)
    ensures -x * -y == x * y
  {
  }

  lemma NegatedLag(c: Vec, k: nat)
    ensures LagProduct(Negated(c), k) == LagProduct(c, k)
  {
    if k < |c| {
      assert Negated(c)[..|c| - k] == Negated(c[..|c| - k]) && Negated(c)[k..] == Negated(c[k..]);
      NegatedDot(c[..|c| - k], c[k..]);
    }
  }

  lemma {:induction false} NegatedWeighted(c: Vec, maxLag: nat, j: nat)
    requires c != []
    ensures Weighted(Negated(c), maxLag, j) == Weighted(c, maxLag, j)
  {
    NegatedLag(c, j);
    var e, auto := Negated(c), Autocovariance(c, j);
    assert Autocovariance(e, j) == auto;
    if j > 0 {
      var before, weight := Weighted(c, maxLag, j - 1), Weight(maxLag, j);
      NegatedWeighted(c, maxLag, j - 1);
      WeightedStep(c, maxLag, j, before, weight, auto);
      WeightedStep(e, maxLag, j, before, weight, auto);
    }
  }

  lemma WeightedStep(c: Vec, maxLag: nat, j: nat, before: real, weight: real, auto: real)
    requires c != [] && j > 0 && before == Weighted(c, maxLag, j - 1) && weight == Weight(maxLag, j)
    requires auto == Autocovariance(c, j)
    ensures Weighted(c, maxLag, j) == before + 2.0 * weight * auto
  {
  }

  lemma NegatedVariance(x: Vec, maxLag: nat)
    ensures LongRunVariance(Negated(x), maxLag) == LongRunVariance(x, maxLag)
  {
    if |x| >= 2 {
      NegatedMean(x);
      NegatedWeighted(Center(x), maxLag, if maxLag < |x| - 1 then maxLag else |x| - 1);
    }
  }

  /** Exchanging the two models negates the statistic and the mean difference, exchanges the two
      verdicts and leaves everything else as it was. */
  lemma SwapSymmetry(f: LossFunction, maxLag: nat, minObs: nat, critical: real, sqrt: real -> real,
                     actuals: Vec, p1: Vec, p2: Vec)
    requires IsRoot(sqrt)
    ensures var r := DieboldMariano(f, maxLag, minObs, critical, sqrt, actuals, p1, p2);
            DieboldMariano(f, maxLag, minObs, critical, sqrt, actuals, p2, p1)
            == DMResult(-r.dm, r.model2Better, r.model1Better, r.n, -r.meanDiff, r.lrVariance)
  {
    var n := Shared(actuals, p1, p2);
    if n >= minObs && n > 0 {
      var d, e := LossDifferences(f, actuals, p1, p2), LossDifferences(f, actuals, p2, p1);
      assert e == Negated(d);
      var mean, mean', lr := Mean(d), Mean(e), LongRunVariance(d, maxLag);
      NegatedMean(d);
      NegatedVariance(d, maxLag);
      SwappedStatistic(mean, mean', lr, n, sqrt);
      SwappedVerdicts(Statistic(mean, lr, n, sqrt), Statistic(mean', lr, n, sqrt), critical);
    }
  }

  lemma SwappedVerdicts(dm: real, dm': real, critical: real)
    requires dm' == -dm
    ensures (dm' > critical <==> dm < -critical) && (dm' < -critical <==> dm > critical)
  {
  }

  lemma SwappedStatistic(mean: real, mean': real, lr: real, n: nat, sqrt: real -> real)
    requires IsRoot(sqrt) && n > 0 && mean' == -mean
    ensures Statistic(mean', lr, n, sqrt) == -Statistic(mean, lr, n, sqrt)
  {
    if lr > 0.0000000001 {
      var c := n as real;
      var x := lr / c;
      assert x > 0.0;
      NegatedQuotient(mean, mean', sqrt(x));
    }
  }

  lemma NegatedQuotient(x: real, x': real, q: real)
    requires q != 0.0 && x' == -x
    ensures x' / q == -(x / q)
  {
  }

  /** Enough observations, a long-run variance above the cut-off, and a mean difference beyond
      `critical` standard errors. */
  predicate Decisive(d: Vec, maxLag: nat, minObs: nat, critical: real, sqrt: real -> real) {
    && |d| >= minObs && |d| > 0
    && LongRunVariance(d, maxLag) > 0.0000000001
    && Abs(Mean(d)) > critical * sqrt(LongRunVariance(d, maxLag) / |d| as real)
  }

  /** A model is called better exactly when the test is decisive and its mean loss is the larger. */
  lemma VerdictNamesLargerLoss(f: LossFunction, maxLag: nat, minObs: nat, critical: real, sqrt: real -> real,
                               actuals: Vec, p1: Vec, p2: Vec)
    requires IsRoot(sqrt) && critical >= 0.0
    ensures var r := DieboldMariano(f, maxLag, minObs, critical, sqrt, actuals, p1, p2);
            var decisive := Decisive(LossDifferences(f, actuals, p1, p2), maxLag, minObs, critical, sqrt);
            && (r.model1Better <==> decisive && r.meanDiff > 0.0)
            && (r.model2Better <==> decisive && r.meanDiff < 0.0)
  {
    hide Mean, LongRunVariance, Statistic;
    var n := Shared(actuals, p1, p2);
    if n >= minObs && n > 0 {
      var d := LossDifferences(f, actuals, p1, p2);
      var mean, lr := Mean(d), LongRunVariance(d, maxLag);
      StatisticBeyond(mean, lr, n, lr / n as real, sqrt, critical, Statistic(mean, lr, n, sqrt));
    }
  }

  lemma StatisticBeyond(mean: real, lr: real, n: nat, x: real, sqrt: real -> real, critical: real, dm: real)
    requires IsRoot(sqrt) && critical >= 0.0 && n > 0 && x == lr / n as real && dm == Statistic(mean, lr, n, sqrt)
    ensures dm > critical <==> lr > 0.0000000001 && Abs(mean) > critical * sqrt(x) && mean > 0.0
    ensures dm < -critical <==> lr > 0.0000000001 && Abs(mean) > critical * sqrt(x) && mean < 0.0
  {
    if lr > 0.0000000001 {
      QuotientNonnegative(lr, n as real);
      assert x * n as real == lr;
      assert x > 0.0;
      QuotientBeyond(mean, sqrt(x), critical);
    }
  }

  lemma QuotientBeyond(x: real, q: real, c: real)
    requires q > 0.0 && c >= 0.0
    ensures x / q > c <==> Abs(x) > c * q && x > 0.0
    ensures x / q < -c <==> Abs(x) > c * q && x < 0.0
  {
    ProductNonnegative(c, q);
    var u := x / q;
    assert u * q == x && (u - c) * q == u * q - c * q && (u + c) * q == u * q + c * q;
    SameSign(u - c, q, (u - c) * q);
    SameSign(u + c, q, (u + c) * q);
  }

  lemma SameSign(a: real, q: real, p: real)
    requires q > 0.0 && p == a * q
    ensures (a > 0.0 <==> p > 0.0) && (a < 0.0 <==> p < 0.0)
  {
    assert p / q == a;
  }

  /** "Better" means the smaller mean loss exactly when the test is not decisive, so that it
      names nobody. */
  lemma VerdictRightExactly(f: LossFunction, maxLag: nat, minObs: nat, critical: real, sqrt: real -> real,
                            actuals: Vec, p1: Vec, p2: Vec)
    requires IsRoot(sqrt) && critical >= 0.0
    ensures var r := DieboldMariano(f, maxLag, minObs, critical, sqrt, actuals, p1, p2);
            (r.model1Better ==> r.meanDiff < 0.0) && (r.model2Better ==> r.meanDiff > 0.0)
            <==> !Decisive(LossDifferences(f, actuals, p1, p2), maxLag, minObs, critical, sqrt)
  {
    hide LongRunVariance, Mean, Statistic;
    VerdictNamesLargerLoss(f, maxLag, minObs, critical, sqrt, actuals, p1, p2);
    var d := LossDifferences(f, actuals, p1, p2);
    if Decisive(d, maxLag, minObs, critical, sqrt) {
      DecisiveMean(d, maxLag, minObs, critical, sqrt);
    }
  }

  lemma DecisiveMean(d: Vec, maxLag: nat, minObs: nat, critical: real, sqrt: real -> real)
    requires IsRoot(sqrt) && critical >= 0.0 && Decisive(d, maxLag, minObs, critical, sqrt)
    ensures Mean(d) != 0.0
  {
    var x := LongRunVariance(d, maxLag) / |d| as real;
    assert x > 0.0;
    ProductNonnegative(critical, sqrt(x));
  }

  /** Absolute errors 1, 1, 5, 5 against a perfect forecast: at the 5% level the first model is
      called the better one. */
  lemma WorseModelCalledBetter(sqrt: real -> real)
    requires IsRoot(sqrt) && sqrt(1.0) == 1.0
    ensures var r := DieboldMariano(MAE, 0, 4, 1.96, sqrt, Zeros(4), [1.0, 1.0, 5.0, 5.0], Zeros(4));
            r.model1Better && !r.model2Better && r.meanDiff == 3.0
  {
    var d := LossDifferences(MAE, Zeros(4), [1.0, 1.0, 5.0, 5.0], Zeros(4));
    assert d == [1.0, 1.0, 5.0, 5.0];
    FourValues(d, 3.0, 4.0, -2.0, -2.0, 2.0, 2.0);
  }

  /** Mean and variance of four values, by their deviations from the mean. */
  lemma FourValues(d: Vec, m: real, v: real, a: real, b: real, c: real, e: real)
    requires |d| == 4 && 4.0 * m == d[0] + d[1] + d[2] + d[3]
    requires a == d[0] - m && b == d[1] - m && c == d[2] - m && e == d[3] - m
    requires 4.0 * v == a * a + b * b + c * c + e * e
    ensures Mean(d) == m && LongRunVariance(d, 0) == v
  {
    assert d[..3][..2] == d[..2] && d[..2][..1] == d[..1] && d[..1][..0] == [];
    assert Total(d[..1]) == d[0];
    assert Total(d[..2]) == Total(d[..1]) + d[1];
    assert Total(d[..3]) == Total(d[..2]) + d[2];
    assert Total(d) == Total(d[..3]) + d[3];
    assert Total(d) == 4.0 * m && |d| as real == 4.0 && Mean(d) == m;
    var x := Center(d);
    forall i | 0 <= i < 4 ensures x[i] == d[i] - m {}
    FourSquares(x, a, b, c, e);
    SquareSign(a, a * a);
    SquareSign(b, b * b);
    SquareSign(c, c * c);
    SquareSign(e, e * e);
    assert x[..4] == x && x[0..] == x;
    assert Autocovariance(x, 0) == Dot(x, x) / 4.0;
  }

  lemma FourSquares(x: Vec, a: real, b: real, c: real, e: real)
    requires |x| == 4 && a == x[0] && b == x[1] && c == x[2] && e == x[3]
    ensures Dot(x, x) == a * a + b * b + c * c + e * e
  {
    assert x == (([a] + [b]) + [c]) + [e];
    DotOne(a, a);
    DotLast([a], [a], b, b);
    DotLast([a] + [b], [a] + [b], c, c);
    DotLast(([a] + [b]) + [c], ([a] + [b]) + [c], e, e);
  }

  // ----- what the losses are -----

  /** `l` are the losses of errors `e`: squared, absolute, or half the square up to delta and its
      tangent beyond. */
  ghost predicate AreLosses(f: LossFunction, e: Vec, l: Vec) {
    && |l| == |e|
    && forall i :: 0 <= i < |e| ==> IsLoss(f, e[i], l[i])
  }

  predicate IsLoss(f: LossFunction, e: real, l: real) {
    match f
    case MSE => l == e * e
    case MAE => (l == e && e >= 0.0) || (l == -e && e <= 0.0)
    case Huber(delta) =>
      if -delta <= e <= delta then 2.0 * l == e * e
      else if e > 0.0 then l == 0.5 * (delta * delta) + delta * (e - delta)
      else l == 0.5 * (delta * delta) + delta * (-e - delta)
  }

  lemma LossIs(f: LossFunction, actual: real, predicted: real)
    ensures IsLoss(f, actual - predicted, Loss(f, actual, predicted))
  {
    var e := actual - predicted;
    if f.Huber? {
      var delta, a := f.delta, Abs(e);
      assert 0.5 * e * e == 0.5 * (e * e);
      assert delta * (a - 0.5 * delta) == 0.5 * (delta * delta) + delta * (a - delta) by {
        assert delta * (a - 0.5 * delta) == delta * a - delta * (0.5 * delta);
        assert delta * (a - delta) == delta * a - delta * delta;
        assert delta * (0.5 * delta) == 0.5 * (delta * delta);
      }
    }
  }

  /** Forecast errors on the first `n` observations. */
  function Errors(actuals: Vec, p: Vec, n: nat): (e: Vec)
    requires n <= |actuals| && n <= |p|
    ensures |e| == n
  {
    seq(n, i requires 0 <= i < n => actuals[i] - p[i])
  }

  function LossesUpTo(f: LossFunction, actuals: Vec, p: Vec, n: nat): (l: Vec)
    requires n <= |actuals| && n <= |p|
    ensures |l| == n
  {
    seq(n, i requires 0 <= i < n => Loss(f, actuals[i], p[i]))
  }

  lemma {:induction false} TotalDifference(a: Vec, b: Vec)
    requires |a| == |b|
    ensures Total(Axpy(a, 1.0, b)) == Total(a) - Total(b)
  {
    if a != [] {
      var m := |a| - 1;
      AxpyPrefix(a, 1.0, b, m);
      TotalDifference(a[..m], b[..m]);
    }
  }

  /** The mean difference, as the difference of the two models' total losses. */
  ghost predicate IsMeanLossDifference(f: LossFunction, e1: Vec, e2: Vec, mean: real)
    requires |e1| == |e2|
  {
    exists l1: Vec, l2: Vec :: AreLosses(f, e1, l1) && AreLosses(f, e2, l2)
                                && Scales(mean, |e1| as real, Total(l1) - Total(l2))
  }

  lemma MeanDifferenceIs(f: LossFunction, actuals: Vec, p1: Vec, p2: Vec, n: nat, mean: real)
    requires n == Shared(actuals, p1, p2) > 0 && mean == Mean(LossDifferences(f, actuals, p1, p2))
    ensures IsMeanLossDifference(f, Errors(actuals, p1, n), Errors(actuals, p2, n), mean)
  {
    hide Mean, Loss, Axpy, LossesUpTo, AreLosses, Errors, Total, LossDifferences, IsMeanLossDifference;
    var l1, l2, d := LossesUpTo(f, actuals, p1, n), LossesUpTo(f, actuals, p2, n), LossDifferences(f, actuals, p1, p2);
    LossesAre(f, actuals, p1, n);
    LossesAre(f, actuals, p2, n);
    DifferencesAre(f, actuals, p1, p2, n, l1, l2);
    TotalDifference(l1, l2);
    MeanScales(d, mean);
    Witnessed(f, Errors(actuals, p1, n), Errors(actuals, p2, n), l1, l2, mean, n as real);
  }

  lemma DifferencesAre(f: LossFunction, actuals: Vec, p1: Vec, p2: Vec, n: nat, l1: Vec, l2: Vec)
    requires n == Shared(actuals, p1, p2) && l1 == LossesUpTo(f, actuals, p1, n) && l2 == LossesUpTo(f, actuals, p2, n)
    ensures LossDifferences(f, actuals, p1, p2) == Axpy(l1, 1.0, l2)
  {
    hide Loss;
    forall i | 0 <= i < n ensures LossDifferences(f, actuals, p1, p2)[i] == Axpy(l1, 1.0, l2)[i] {}
  }

  lemma Witnessed(f: LossFunction, e1: Vec, e2: Vec, l1: Vec, l2: Vec, mean: real, n: real)
    requires |e1| == |e2| && n == |e1| as real && AreLosses(f, e1, l1) && AreLosses(f, e2, l2)
    requires Scales(mean, n, Total(l1) - Total(l2))
    ensures IsMeanLossDifference(f, e1, e2, mean)
  {
    hide Scales, AreLosses, Total;
  }

  lemma LossesAre(f: LossFunction, actuals: Vec, p: Vec, n: nat)
    requires n <= |actuals| && n <= |p|
    ensures AreLosses(f, Errors(actuals, p, n), LossesUpTo(f, actuals, p, n))
  {
    hide IsLoss, Loss;
    var e, l := Errors(actuals, p, n), LossesUpTo(f, actuals, p, n);
    forall i | 0 <= i < n ensures IsLoss(f, e[i], l[i]) { LossIs(f, actuals[i], p[i]); }
  }

  lemma MeanScales(d: Vec, mean: real)
    requires d != [] && mean == Mean(d)
    ensures mean * |d| as real == Total(d)
  {
  }

  lemma {:induction false} SquaredLosses(e: Vec, l: Vec)
    requires AreLosses(MSE, e, l)
    ensures Total(l) == Dot(e, e)
  {
    if e != [] {
      var m := |e| - 1;
      SquaredLosses(e[..m], l[..m]);
      assert IsLoss(MSE, e[m], l[m]);
    }
  }

  /** Under squared loss that is the difference of the sums of squared errors. */
  lemma SquaredMeanDifference(e1: Vec, e2: Vec, mean: real)
    requires |e1| == |e2| && IsMeanLossDifference(MSE, e1, e2, mean)
    ensures mean * |e1| as real == Dot(e1, e1) - Dot(e2, e2)
  {
    var l1: Vec, l2: Vec :| AreLosses(MSE, e1, l1) && AreLosses(MSE, e2, l2)
                             && Scales(mean, |e1| as real, Total(l1) - Total(l2));
    SquaredLosses(e1, l1);
    SquaredLosses(e2, l2);
  }

  /** The statistic is the mean difference in standard errors, or 0 for next to no variance. */
  predicate IsStatistic(dm: real, mean: real, lr: real, n: nat, sqrt: real -> real)
    requires n > 0
  {
    if lr > 0.0000000001 then dm * sqrt(lr / n as real) == mean else dm == 0.0
  }

  lemma StatisticIs(mean: real, lr: real, n: nat, sqrt: real -> real)
    requires IsRoot(sqrt) && n > 0
    ensures IsStatistic(Statistic(mean, lr, n, sqrt), mean, lr, n, sqrt)
  {
    if lr > 0.0000000001 {
      var q := sqrt(lr / n as real);
      assert lr / n as real > 0.0;
      assert (mean / q) * q == mean;
    }
  }

  /** One error of 6 against four of 2: at significance level 1 squared loss and absolute loss
      name different models. */
  lemma LossesDisagree(sqrt: real -> real)
    requires IsRoot(sqrt)
    ensures var p1, p2 := [0.0, 0.0, 0.0, 6.0], [2.0, 2.0, 2.0, 2.0];
            var r, s := DieboldMariano(MSE, 0, 4, 0.0, sqrt, Zeros(4), p1, p2), DieboldMariano(MAE, 0, 4, 0.0, sqrt, Zeros(4), p1, p2);
            && r.model1Better && !r.model2Better && r.meanDiff == 5.0
            && s.model2Better && !s.model1Better && s.meanDiff == -0.5
  {
    var p1, p2 := [0.0, 0.0, 0.0, 6.0], [2.0, 2.0, 2.0, 2.0];
    var d, e := LossDifferences(MSE, Zeros(4), p1, p2), LossDifferences(MAE, Zeros(4), p1, p2);
    assert d == [-4.0, -4.0, -4.0, 32.0] && e == [-2.0, -2.0, -2.0, 4.0];
    FourValues(d, 5.0, 243.0, -9.0, -9.0, -9.0, 27.0);
    FourValues(e, -0.5, 6.75, -1.5, -1.5, -1.5, 4.5);
    hide Mean, LongRunVariance, Loss, Statistic;
    VerdictNamesLargerLoss(MSE, 0, 4, 0.0, sqrt, Zeros(4), p1, p2);
    VerdictNamesLargerLoss(MAE, 0, 4, 0.0, sqrt, Zeros(4), p1, p2);
  }

  /** A loss is never negative, and 0 for a hit; for Huber's loss exactly when its threshold is
      not negative. */
  lemma LossNonnegative(f: LossFunction)
    ensures (forall a: real, p: real :: Loss(f, a, p) >= 0.0) <==> (f.Huber? ==> f.delta >= 0.0)
  {
    if f.Huber? && f.delta < 0.0 {
      HuberNegative(f.delta);
    } else {
      forall a: real, p: real ensures Loss(f, a, p) >= 0.0 {
        var e := a - p;
        SquareSign(e, e * e);
        assert 0.5 * e * e == 0.5 * (e * e);
        if f.Huber? && Abs(e) > f.delta { HuberTail(f.delta, Abs(e)); }
      }
    }
  }

  lemma HuberTail(delta: real, e: real)
    requires 0.0 <= delta < e
    ensures delta * (e - 0.5 * delta) >= 0.0
  {
  }

  lemma HuberNegative(delta: real)
    requires delta < 0.0
    ensures Loss(Huber(delta), 0.0, 0.0) < 0.0
  {
    var z := Abs(0.0) - 0.5 * delta;
    assert z > 0.0 && -delta * z > 0.0;
    assert Loss(Huber(delta), 0.0, 0.0) == delta * z;
  }

  /** What a comparison says: how many observations the three series share, the mean loss difference
      and the statistic, and the verdicts; nothing for too few observations. */
  ghost predicate IsComparison(f: LossFunction, minObservations: nat, critical: real, sqrt: real -> real,
                               actuals: Vec, p1: Vec, p2: Vec, r: DMResult) {
    && r.n <= |actuals| && r.n <= |p1| && r.n <= |p2| && (r.n == |actuals| || r.n == |p1| || r.n == |p2|)
    && (r.n < minObservations ==> r == DMResult(0.0, false, false, r.n, 0.0, 0.0))
    && (r.n >= minObservations && r.n > 0 ==>
          var e1, e2 := Errors(actuals, p1, r.n), Errors(actuals, p2, r.n);
          && IsMeanLossDifference(f, e1, e2, r.meanDiff)
          && (f == MSE ==> r.meanDiff * r.n as real == Dot(e1, e1) - Dot(e2, e2))
          && IsStatistic(r.dm, r.meanDiff, r.lrVariance, r.n, sqrt)
          && (r.model1Better <==> r.dm > critical) && (r.model2Better <==> r.dm < -critical))
  }

  lemma ComparisonMeans(f: LossFunction, maxLag: nat, minObs: nat, critical: real, sqrt: real -> real,
                        actuals: Vec, p1: Vec, p2: Vec)
    requires IsRoot(sqrt)
    ensures IsComparison(f, minObs, critical, sqrt, actuals, p1, p2,
                         DieboldMariano(f, maxLag, minObs, critical, sqrt, actuals, p1, p2))
  {
    hide Mean, LongRunVariance, Statistic, IsStatistic, LossDifferences, IsMeanLossDifference, Errors, Dot;
    var r := DieboldMariano(f, maxLag, minObs, critical, sqrt, actuals, p1, p2);
    if r.n >= minObs && r.n > 0 {
      MeanDifferenceIs(f, actuals, p1, p2, r.n, r.meanDiff);
      StatisticIs(r.meanDiff, r.lrVariance, r.n, sqrt);
      if f == MSE { SquaredMeanDifference(Errors(actuals, p1, r.n), Errors(actuals, p2, r.n), r.meanDiff); }
    }
  }

  /** ForecastEvaluator::diebold_mariano, without the p-value. */
  method Compare(f: LossFunction, maxLag: nat, minObservations: nat, critical: real, sqrt: real -> real,
                 actuals: Vec, p1: Vec, p2: Vec) returns (r: DMResult)
    requires IsRoot(sqrt) && minObservations > 0
    ensures r == DieboldMariano(f, maxLag, minObservations, critical, sqrt, actuals, p1, p2)
    ensures IsComparison(f, minObservations, critical, sqrt, actuals, p1, p2, r)
  {
    hide IsComparison;
    ComparisonMeans(f, maxLag, minObservations, critical, sqrt, actuals, p1, p2);
    var n := Shared(actuals, p1, p2);
    if n < minObservations {
      return DMResult(0.0, false, false, n, 0.0, 0.0);
    }
    var lossDiff := LossDifferences(f, actuals, p1, p2);
    var meanDiff := Mean(lossDiff);
    var lrVariance := Estimate(lossDiff, maxLag);
    var dm := Statistic(meanDiff, lrVariance, n, sqrt);
    r := DMResult(dm, dm > critical, dm < -critical, n, meanDiff, lrVariance);
  }
}
