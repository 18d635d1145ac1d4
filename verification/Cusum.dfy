/** The two-sided cumulative-sum control chart of backend/anomaly/cusum_engine.rs. */
module Cusum {
  import opened Reals
  import opened Vectors

  // ----- one side: the recursion and what it computes -----

  function Floored(x: real): real {
    if x > 0.0 then x else 0.0
  }

  /** Clamped accumulation of `xs` from zero. */
  function Clamped(xs: seq<real>): real {
    if xs == [] then 0.0 else Floored(Clamped(xs[..|xs| - 1]) + xs[|xs| - 1])
  }

  /** `s` is the largest sum over a segment of `xs` that ends now, the empty segment included. */
  ghost predicate IsLargestSegment(s: real, xs: seq<real>) {
    && (forall j :: 0 <= j <= |xs| ==> Total(xs[j..]) <= s)
    && (exists j :: 0 <= j <= |xs| && Total(xs[j..]) == s)
  }

  lemma SegmentGrows(xs: seq<real>, j: nat)
    requires j < |xs|
    ensures Total(xs[j..]) == Total(xs[..|xs| - 1][j..]) + xs[|xs| - 1]
  {
    assert xs[j..][..|xs[j..]| - 1] == xs[..|xs| - 1][j..];
  }

  /** The recursion keeps the largest sum over the segments ending now. */
  lemma {:induction false} ClampedIsLargestSegment(xs: seq<real>)
    ensures IsLargestSegment(Clamped(xs), xs)
  {
    assert Total(xs[|xs|..]) == 0.0;
    if xs != [] {
      var s, m := Clamped(xs), |xs| - 1;
      ClampedIsLargestSegment(xs[..m]);
      forall j | 0 <= j <= |xs| ensures Total(xs[j..]) <= s {
        if j < |xs| { SegmentGrows(xs, j); }
      }
      var j :| 0 <= j <= m && Total(xs[..m][j..]) == Clamped(xs[..m]);
      SegmentGrows(xs, j);
      assert Total(xs[if s > 0.0 then j else |xs|..]) == s;
    }
  }

  // ----- both sides -----

  function Ups(zs: seq<real>, k: real): seq<real> {
    seq(|zs|, i requires 0 <= i < |zs| => zs[i] - k)
  }

  function Downs(zs: seq<real>, k: real): seq<real> {
    seq(|zs|, i requires 0 <= i < |zs| => -zs[i] - k)
  }

  datatype Sums = Sums(up: real, down: real)

  const REST: Sums := Sums(0.0, 0.0)

  function Next(s: Sums, z: real, k: real): Sums {
    Sums(Floored(s.up + z - k), Floored(s.down - z - k))
  }

  function SumsOf(zs: seq<real>, k: real): Sums {
    Sums(Clamped(Ups(zs, k)), Clamped(Downs(zs, k)))
  }

  lemma NextIsSumsOf(zs: seq<real>, z: real, k: real)
    ensures SumsOf(zs + [z], k) == Next(SumsOf(zs, k), z, k)
  {
    assert Ups(zs + [z], k) == Ups(zs, k) + [z - k];
    assert Downs(zs + [z], k) == Downs(zs, k) + [-z - k];
    assert (Ups(zs, k) + [z - k])[..|zs|] == Ups(zs, k);
    assert (Downs(zs, k) + [-z - k])[..|zs|] == Downs(zs, k);
  }

  datatype Alarm = Quiet | Up | Down

  function Verdict(s: Sums, h: real): Alarm {
    if s.up > h then Up else if s.down > h then Down else Quiet
  }

  /** Some segment of `xs` ending now sums to more than `h`. */
  ghost predicate SomeSegmentExceeds(xs: seq<real>, h: real) {
    exists j :: 0 <= j <= |xs| && Total(xs[j..]) > h
  }

  /** An upward alarm sounds exactly when the excess of some segment ending now passes the
      threshold; a downward one when that holds of the mirrored excess and there is no upward one. */
  lemma AlarmIffSegment(zs: seq<real>, k: real, h: real)
    ensures Verdict(SumsOf(zs, k), h) == Up <==> SomeSegmentExceeds(Ups(zs, k), h)
    ensures Verdict(SumsOf(zs, k), h) == Down
       <==> SomeSegmentExceeds(Downs(zs, k), h) && !SomeSegmentExceeds(Ups(zs, k), h)
  {
    ClampedIsLargestSegment(Ups(zs, k));
    ClampedIsLargestSegment(Downs(zs, k));
  }

  // ----- runs: an alarm clears both sums -----

  function After(s: Sums, z: real, k: real, h: real): Sums {
    var n := Next(s, z, k);
    if Verdict(n, h) == Quiet then n else REST
  }

  function Alarms(s: Sums, zs: seq<real>, k: real, h: real): (r: seq<Alarm>)
    ensures |r| == |zs|
    decreases |zs|
  {
    if zs == [] then [] else [Verdict(Next(s, zs[0], k), h)] + Alarms(After(s, zs[0], k, h), zs[1..], k, h)
  }

  predicate Below(s: Sums, h: real) {
    0.0 <= s.up <= h && 0.0 <= s.down <= h
  }

  /** Inputs within the allowance raise no alarm, wherever the sums stand. */
  lemma {:induction false} SmallInputsAreQuiet(s: Sums, zs: seq<real>, k: real, h: real)
    requires Below(s, h)
    requires forall i :: 0 <= i < |zs| ==> -k <= zs[i] <= k
    ensures forall i :: 0 <= i < |zs| ==> Alarms(s, zs, k, h)[i] == Quiet
    decreases |zs|
  {
    if zs != [] {
      var n := Next(s, zs[0], k);
      assert -k <= zs[0] <= k && Below(n, h);
      SmallInputsAreQuiet(n, zs[1..], k, h);
    }
  }

  /** The first alarm of the run is `a`, at step `i`. */
  predicate FirstAlarm(alarms: seq<Alarm>, i: nat, a: Alarm) {
    i < |alarms| && alarms[i] == a && forall j :: 0 <= j < i ==> alarms[j] == Quiet
  }

  /** `delta` added up `n` times. */
  function Multiple(n: nat, delta: real): real {
    if n == 0 then 0.0 else Multiple(n - 1, delta) + delta
  }

  lemma {:induction false} MultipleIsProduct(n: nat, delta: real)
    ensures Multiple(n, delta) == n as real * delta
  {
    if n > 0 {
      MultipleIsProduct(n - 1, delta);
      OneMore((n - 1) as real, n as real, delta);
    }
  }

  lemma OneMore(m: real, n: real, delta: real)
    requires n == m + 1.0
    ensures n * delta == m * delta + delta
  {
  }

  /** A shift of at least `delta` above the allowance is found before its excess adds up to more
      than what the upper sum is short of the threshold. */
  lemma {:induction false} ShiftIsFound(s: Sums, zs: seq<real>, k: real, h: real, delta: real) returns (i: nat)
    requires Below(s, h) && k >= 0.0 && delta > 0.0
    requires forall i :: 0 <= i < |zs| ==> zs[i] >= k + delta
    requires Multiple(|zs|, delta) > h - s.up
    ensures FirstAlarm(Alarms(s, zs, k, h), i, Up) && Multiple(i, delta) <= h - s.up
    decreases |zs|
  {
    assert zs != [];
    var n, rest := Next(s, zs[0], k), zs[1..];
    assert zs[0] >= k + delta;
    ShiftStep(s, zs[0], k, h, delta, n);
    AlarmsStep(s, zs, k, h, n);
    if n.up > h {
      i := 0;
    } else {
      hide Next, Alarms, Verdict, After;
      var j := ShiftIsFound(n, rest, k, h, delta);
      i := j + 1;
    }
  }

  lemma ShiftStep(s: Sums, z: real, k: real, h: real, delta: real, n: Sums)
    requires Below(s, h) && k >= 0.0 && delta > 0.0 && z >= k + delta && n == Next(s, z, k)
    ensures n.up >= s.up + delta && (n.up <= h ==> Below(n, h))
    ensures Verdict(n, h) == if n.up > h then Up else Quiet
  {
  }

  lemma AlarmsStep(s: Sums, zs: seq<real>, k: real, h: real, n: Sums)
    requires zs != [] && n == Next(s, zs[0], k)
    ensures Alarms(s, zs, k, h) == [Verdict(n, h)] + Alarms(After(s, zs[0], k, h), zs[1..], k, h)
    ensures Verdict(n, h) == Quiet ==> After(s, zs[0], k, h) == n
  {
  }

  /** Steps a sustained shift of `delta` may go unnoticed. */
  function Delay(h: real, delta: real): (n: nat)
    requires h >= 0.0 && delta > 0.0
    ensures n as real * delta <= h < (n + 1) as real * delta
  {
    QuotientNonnegative(h, delta);
    var q := h / delta;
    var n := q.Floor;
    Bracket(q, n as real, (n + 1) as real, delta, h);
    n
  }

  lemma Bracket(q: real, lo: real, hi: real, d: real, h: real)
    requires d > 0.0 && q * d == h && lo <= q < hi
    ensures lo * d <= h < hi * d
  {
    var below, above := q - lo, hi - q;
    ProductNonnegative(below, d);
    ProductPositive(above, d);
    calc { below * d; q * d - lo * d; h - lo * d; }
    calc { above * d; hi * d - q * d; hi * d - h; }
  }

  /** From any state, a sustained shift sounds the upward alarm within the delay bound. */
  lemma ShiftIsFoundInTime(s: Sums, zs: seq<real>, k: real, h: real, delta: real) returns (i: nat)
    requires Below(s, h) && k >= 0.0 && delta > 0.0
    requires forall i :: 0 <= i < |zs| ==> zs[i] >= k + delta
    requires |zs| == Delay(h, delta) + 1
    ensures FirstAlarm(Alarms(s, zs, k, h), i, Up) && i <= Delay(h, delta)
  {
    MultipleIsProduct(|zs|, delta);
    i := ShiftIsFound(s, zs, k, h, delta);
    MultipleIsProduct(i, delta);
  }

  /** The bound is met: from rest, a shift of exactly `delta` sounds at the last step it allows. */
  lemma DelayIsTight(zs: seq<real>, k: real, h: real, delta: real)
    requires h >= 0.0 && k >= 0.0 && delta > 0.0 && |zs| == Delay(h, delta) + 1
    requires forall i :: 0 <= i < |zs| ==> zs[i] == k + delta
    ensures FirstAlarm(Alarms(REST, zs, k, h), Delay(h, delta), Up)
  {
    MultipleIsProduct(|zs|, delta);
    var i := ShiftIsFound(REST, zs, k, h, delta);
    MultipleIsProduct(i, delta);
    ConstantShift(REST, zs, k, h, delta, i);
    NotBefore(i + 1, Delay(h, delta), delta, h);
  }

  lemma NotBefore(a: nat, b: nat, delta: real, h: real)
    requires delta > 0.0 && a as real * delta > h >= b as real * delta
    ensures a > b
  {
    var gap := b as real - a as real;
    assert gap * delta == b as real * delta - a as real * delta;
    if gap >= 0.0 { ProductNonnegative(gap, delta); }
  }

  /** With constant input the sum at the first alarm is the number of steps times the excess. */
  lemma {:induction false} ConstantShift(s: Sums, zs: seq<real>, k: real, h: real, delta: real, i: nat)
    requires s.up >= 0.0 && delta > 0.0 && FirstAlarm(Alarms(s, zs, k, h), i, Up)
    requires forall i :: 0 <= i < |zs| ==> zs[i] == k + delta
    ensures s.up + (i + 1) as real * delta > h
    decreases |zs|
  {
    var n := Next(s, zs[0], k);
    assert n.up == s.up + delta;
    assert Alarms(s, zs, k, h) == [Verdict(n, h)] + Alarms(After(s, zs[0], k, h), zs[1..], k, h);
    if i > 0 {
      assert Alarms(s, zs, k, h)[0] == Quiet;
      var tail := Alarms(n, zs[1..], k, h);
      forall j | 0 <= j < i - 1 ensures tail[j] == Quiet { assert tail[j] == Alarms(s, zs, k, h)[j + 1]; }
      ConstantShift(n, zs[1..], k, h, delta, i - 1);
      assert (i + 1) as real * delta == i as real * delta + delta;
    }
  }

  // ----- the two directions are alike -----

  function Mirror(a: Alarm): Alarm {
    match a
    case Quiet => Quiet
    case Up => Down
    case Down => Up
  }

  function MirrorAll(alarms: seq<Alarm>): seq<Alarm> {
    seq(|alarms|, i requires 0 <= i < |alarms| => Mirror(alarms[i]))
  }

  /** The upward test comes first, and with a nonnegative allowance that never shows: mirrored
      input gives the mirrored alarms. */
  lemma {:induction false} AlarmsMirror(s: Sums, zs: seq<real>, k: real, h: real)
    requires k >= 0.0 && Below(s, h)
    ensures Alarms(Sums(s.down, s.up), Negated(zs), k, h) == MirrorAll(Alarms(s, zs, k, h))
    decreases |zs|
  {
    if zs != [] {
      var z, n, t := zs[0], Next(s, zs[0], k), Sums(s.down, s.up);
      assert Negated(zs)[0] == -z && Negated(zs)[1..] == Negated(zs[1..]);
      assert Next(t, -z, k) == Sums(n.down, n.up);
      assert !(n.up > h && n.down > h);
      assert Verdict(Next(t, -z, k), h) == Mirror(Verdict(n, h));
      var r := After(s, z, k, h);
      assert After(t, -z, k, h) == Sums(r.down, r.up);
      AlarmsMirror(r, zs[1..], k, h);
    }
  }

  // ----- scale -----

  const TINY: real := 0.0000000001

  function InverseAtStart(std: real): (r: real)
    ensures r > 0.0 && r * (if std > 0.0000000001 then std else 1.0) == 1.0
  {
    if std > TINY then QuotientPositive(std); 1.0 / std else 1.0
  }

  function InverseOnUpdate(std: real): (r: real)
    ensures r > 0.0 && r * (if std > 0.0000000001 then std else 0.0000000001) == 1.0
  {
    var d := if std > TINY then std else TINY;
    QuotientPositive(d);
    1.0 / d
  }

  lemma QuotientPositive(d: real)
    requires d > 0.0
    ensures 1.0 / d > 0.0
  {
  }

  /** A deviation given at construction scales the same as one given later, unless it is degenerate. */
  lemma ScalesAgree(std: real)
    ensures InverseAtStart(std) == InverseOnUpdate(std) <==> std > TINY
  {
    if std <= TINY { assert InverseOnUpdate(std) == 10000000000.0; }
  }

  function Standardized(x: real, mean: real, inverse: real): real {
    (x - mean) * inverse
  }

  /** In units of the reference deviation, the distance from the reference mean. */
  lemma StandardizedIs(x: real, mean: real, std: real)
    requires std > 0.0000000001
    ensures Standardized(x, mean, InverseAtStart(std)) * std == x - mean
    ensures Standardized(x, mean, InverseOnUpdate(std)) * std == x - mean
  {
    var u, v, y := InverseAtStart(std), InverseOnUpdate(std), x - mean;
    assert (y * u) * std == y * (u * std) && (y * v) * std == y * (v * std);
  }

  /** Changing the unit of the observations changes nothing. */
  lemma UnitFree(x: real, mean: real, std: real, a: real, b: real)
    requires std > TINY && a * std > TINY && a > 0.0
    ensures Standardized(a * x + b, a * mean + b, InverseAtStart(a * std)) == Standardized(x, mean, InverseAtStart(std))
  {
    InverseScaled(std, a, 1.0 / std, 1.0 / (a * std));
    DeviationScaled(x - mean, a, 1.0 / std, 1.0 / (a * std));
    assert a * x + b - (a * mean + b) == a * (x - mean);
  }

  lemma InverseScaled(std: real, a: real, u: real, v: real)
    requires std > 0.0 && a * std > 0.0 && u == 1.0 / std && v == 1.0 / (a * std)
    ensures Scales(a, v, u)
  {
    assert u * std == 1.0 && v * (a * std) == 1.0;
    calc {
      a * v;
      a * v * (u * std);
      u * (v * (a * std));
      u;
    }
  }

  lemma DeviationScaled(d: real, a: real, u: real, v: real)
    requires Scales(a, v, u)
    ensures a * d * v == d * u
  {
  }

  // ----- the engine -----

  datatype CusumState =
    | Accumulating(positiveSum: real, negativeSum: real)
    | PositiveShift(magnitude: real, detectionTimeUs: nat)
    | NegativeShift(magnitude: real, detectionTimeUs: nat)

  class CusumEngine {
    var referenceMean: real
    var referenceStd: real
    const allowance: real
    const threshold: real
    const warmupSamples: nat
    var positiveSum: real
    var negativeSum: real
    var sampleCount: nat
    var lastUpdate: nat
    var invStd: real
    /** The standardized observations accumulated since the sums were last cleared. */
    ghost var since: seq<real>

    ghost predicate Valid()
      reads this
    {
      && Sums(positiveSum, negativeSum) == SumsOf(since, allowance)
      && (since != [] ==> sampleCount > warmupSamples && Verdict(SumsOf(since, allowance), threshold) == Quiet)
      && invStd > 0.0
    }

    constructor (mean: real, std: real, allowance: real, threshold: real, warmup: nat, nowNs: nat)
      ensures Valid() && since == [] && sampleCount == 0
      ensures this.allowance == allowance && this.threshold == threshold && warmupSamples == warmup
      ensures referenceMean == mean && invStd == InverseAtStart(std) && lastUpdate == nowNs
    {
      referenceMean, referenceStd := mean, std;
      this.allowance, this.threshold, warmupSamples := allowance, threshold, warmup;
      positiveSum, negativeSum, sampleCount, lastUpdate := 0.0, 0.0, 0, nowNs;
      invStd := InverseAtStart(std);
      since := [];
    }

    /** During warm-up the observation is dropped. After it, an alarm sounds exactly when a segment
        of the observations kept since the last alarm passes the threshold, and clears the engine. */
    method Update(observation: real, nowNs: nat) returns (r: CusumState)
      requires Valid() && lastUpdate <= nowNs
      modifies this
      ensures Valid() && sampleCount == old(sampleCount) + 1
      ensures referenceMean == old(referenceMean) && referenceStd == old(referenceStd) && invStd == old(invStd)
      ensures sampleCount <= warmupSamples ==>
        since == old(since) && lastUpdate == old(lastUpdate) && r == Accumulating(positiveSum, negativeSum)
      ensures sampleCount > warmupSamples ==>
        var zs := old(since) + [Standardized(observation, referenceMean, invStd)];
        && lastUpdate == nowNs && Judged(r, zs, (nowNs - old(lastUpdate)) / 1000)
        && since == if r.Accumulating? then zs else []
    {
      sampleCount := sampleCount + 1;
      if sampleCount <= warmupSamples {
        return Accumulating(positiveSum, negativeSum);
      }
      var z := Standardized(observation, referenceMean, invStd);
      Accumulate(z);
      var elapsed := (nowNs - lastUpdate) / 1000;
      lastUpdate := nowNs;
      r := Judge(elapsed);
    }

    method Accumulate(z: real)
      requires Sums(positiveSum, negativeSum) == SumsOf(since, allowance)
      modifies `positiveSum, `negativeSum, `since
      ensures since == old(since) + [z] && Sums(positiveSum, negativeSum) == SumsOf(since, allowance)
    {
      positiveSum := Floored(positiveSum + z - allowance);
      negativeSum := Floored(negativeSum - z - allowance);
      NextIsSumsOf(since, z, allowance);
      since := since + [z];
    }

    method Judge(elapsed: nat) returns (r: CusumState)
      requires Sums(positiveSum, negativeSum) == SumsOf(since, allowance) && sampleCount > warmupSamples && invStd > 0.0
      modifies `positiveSum, `negativeSum, `since
      ensures Valid() && Judged(r, old(since), elapsed)
      ensures since == if r.Accumulating? then old(since) else []
    {
      AlarmIffSegment(since, allowance, threshold);
      ClampedIsLargestSegment(Ups(since, allowance));
      ClampedIsLargestSegment(Downs(since, allowance));
      if positiveSum > threshold {
        r := PositiveShift(positiveSum, elapsed);
        Reset();
      } else if negativeSum > threshold {
        r := NegativeShift(negativeSum, elapsed);
        Reset();
      } else {
        r := Accumulating(positiveSum, negativeSum);
      }
    }

    /** An alarm sounds exactly when a segment of `zs` ending now passes the threshold, upward
        first, and tells the largest one. */
    ghost predicate Judged(r: CusumState, zs: seq<real>, elapsed: nat)
      reads `positiveSum, `negativeSum
    {
      var ups, downs := Ups(zs, allowance), Downs(zs, allowance);
      && (r.PositiveShift? <==> SomeSegmentExceeds(ups, threshold))
      && (r.PositiveShift? ==> IsLargestSegment(r.magnitude, ups))
      && (r.NegativeShift? <==> SomeSegmentExceeds(downs, threshold) && !SomeSegmentExceeds(ups, threshold))
      && (r.NegativeShift? ==> IsLargestSegment(r.magnitude, downs))
      && (!r.Accumulating? ==> r.detectionTimeUs == elapsed)
      && (r.Accumulating? ==> r == Accumulating(positiveSum, negativeSum))
    }

    /** Clears the sums only: the warm-up is not repeated. */
    method Reset()
      requires invStd > 0.0
      modifies `positiveSum, `negativeSum, `since
      ensures Valid() && since == [] && positiveSum == negativeSum == 0.0
      ensures sampleCount == old(sampleCount) && lastUpdate == old(lastUpdate) && invStd == old(invStd)
      ensures referenceMean == old(referenceMean) && referenceStd == old(referenceStd)
    {
      positiveSum, negativeSum := 0.0, 0.0;
      since := [];
    }

    /** Later observations are standardized anew; what has been accumulated stays. */
    method UpdateReference(mean: real, std: real)
      requires Valid()
      modifies `referenceMean, `referenceStd, `invStd
      ensures Valid() && referenceMean == mean && invStd == InverseOnUpdate(std)
      ensures referenceStd == if std > 0.0000000001 then std else 0.0000000001
    {
      referenceMean, referenceStd := mean, if std > TINY then std else TINY;
      invStd := 1.0 / referenceStd;
      QuotientPositive(referenceStd);
    }
  }
}
