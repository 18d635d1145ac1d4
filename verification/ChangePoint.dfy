/** The run-length posterior of backend/anomaly/change_point.py. Likelihoods are parameters. */
module ChangePoint {
  import opened Options
  import opened Reals
  import opened Vectors

  datatype Config = Config(priorMean: real, priorVariance: real, priorSamples: real,
                           hazard: real, maxRun: nat, warmup: nat, threshold: real)

  datatype Event = Event(timestamp: real, runLength: nat, confidence: real,
                         previousMean: real, newMean: real, magnitude: real)

  ghost predicate IsProbabilities(p: Vec) {
    p != [] && forall r :: 0 <= r < |p| ==> p[r] >= 0.0
  }

  ghost predicate IsLikelihoods(l: Vec, n: nat) {
    |l| == n && forall r :: 0 <= r < n ==> 0.0 < l[r] <= 1.0
  }

  // ----- one Bayes step -----

  /** Mass moved to run length 0, then every run one longer; the last bin's run drops out. */
  function Evolved(p: Vec, l: Vec, hazard: real): (r: Vec)
    requires |p| == |l| > 0
    ensures |r| == |p|
  {
    [Share(Dot(p, l), hazard)] + Grown(p, l, 1.0 - hazard, |p| - 1)
  }

  function Share(mass: real, c: real): real {
    mass * c
  }

  function Grown(p: Vec, l: Vec, c: real, m: nat): (r: Vec)
    requires |p| == |l| && m <= |p|
    ensures |r| == m
  {
    seq(m, r requires 0 <= r < m => p[r] * l[r] * c)
  }

  const NEGLIGIBLE: real := 0.0000000001

  function Posterior(p: Vec, l: Vec, hazard: real): (r: Vec)
    requires |p| == |l| > 0
    ensures |r| == |p|
  {
    var e := Evolved(p, l, hazard);
    if Total(e) > NEGLIGIBLE then Scaled(e, Total(e)) else e
  }

  lemma {:induction false} TotalScaled(a: Vec, d: real)
    requires d != 0.0
    ensures Total(Scaled(a, d)) == Total(a) / d
  {
    if a != [] {
      var m := |a| - 1;
      assert Scaled(a, d)[..m] == Scaled(a[..m], d);
      TotalScaled(a[..m], d);
      assert Total(a[..m]) / d + a[m] / d == (Total(a[..m]) + a[m]) / d;
    }
  }

  lemma {:induction false} TotalConcat(a: Vec, b: Vec)
    ensures Total(a + b) == Total(a) + Total(b)
  {
    if b == [] {
      assert a + b == a;
    } else {
      assert (a + b)[..|a + b| - 1] == a + b[..|b| - 1];
      TotalConcat(a, b[..|b| - 1]);
    }
  }

  lemma {:induction false} TotalGrown(p: Vec, l: Vec, c: real, m: nat, kept: real)
    requires |p| == |l| && m <= |p| && kept == Dot(p[..m], l[..m])
    ensures Total(Grown(p, l, c, m)) == Share(kept, c)
  {
    if m > 0 {
      var s, k, x := Grown(p, l, c, m), Dot(p[..m - 1], l[..m - 1]), p[m - 1] * l[m - 1];
      TotalGrown(p, l, c, m - 1, k);
      assert s[..m - 1] == Grown(p, l, c, m - 1) && s[m - 1] == x * c;
      assert p[..m][..m - 1] == p[..m - 1] && l[..m][..m - 1] == l[..m - 1];
      Distribute(k, x, c);
      assert kept == k + x;
    }
  }

  lemma Distribute(x: real, y: real, c: real)
    ensures (x + y) * c == x * c + y * c
  {
  }

  /** Evidence of the runs that stay below the top bin. */
  function Kept(p: Vec, l: Vec): real
    requires |p| == |l| > 0
  {
    Dot(p[..|p| - 1], l[..|p| - 1])
  }

  /** Evidence of the top bin. */
  function Dropped(p: Vec, l: Vec): real
    requires |p| == |l| > 0
  {
    p[|p| - 1] * l[|p| - 1]
  }

  /** Only a hazard's share of the top bin's mass survives; all other mass does. */
  lemma EvolvedTotal(p: Vec, l: Vec, h: real, kept: real, dropped: real)
    requires |p| == |l| > 0 && kept == Kept(p, l) && dropped == Dropped(p, l)
    ensures Total(Evolved(p, l, h)) == kept + h * dropped
    ensures Evolved(p, l, h)[0] == h * (kept + dropped)
  {
    var c, m, all := 1.0 - h, |p| - 1, Dot(p, l);
    EvolvedParts(p, l, h, c, m, kept, all);
    StartsOver(p, l, h, all);
    MassBalance(kept, dropped, all, h, c);
  }

  /** What starts over and what grows. */
  lemma EvolvedParts(p: Vec, l: Vec, h: real, c: real, m: nat, kept: real, all: real)
    requires |p| == |l| > 0 && c == 1.0 - h && m == |p| - 1 && kept == Kept(p, l) && all == Dot(p, l)
    ensures Total(Evolved(p, l, h)) == Share(all, h) + Share(kept, c)
  {
    TotalGrown(p, l, c, m, kept);
    TotalPrepend(Share(all, h), Grown(p, l, c, m));
    assert Evolved(p, l, h) == [Share(all, h)] + Grown(p, l, c, m);
  }

  lemma StartsOver(p: Vec, l: Vec, h: real, all: real)
    requires |p| == |l| > 0 && all == Dot(p, l)
    ensures Evolved(p, l, h)[0] == Share(all, h)
  {
  }

  lemma TotalPrepend(x: real, a: Vec)
    ensures Total([x] + a) == x + Total(a)
  {
    TotalConcat([x], a);
    assert [x][..0] == [];
  }

  lemma MassBalance(s: real, q: real, all: real, h: real, c: real)
    requires all == s + q && c == 1.0 - h
    ensures Share(all, h) + Share(s, c) == s + h * q && Share(all, h) == h * (s + q)
  {
  }

  lemma {:induction false} DotNonnegative(a: Vec, b: Vec)
    requires |a| == |b| && forall r :: 0 <= r < |a| ==> a[r] >= 0.0 && b[r] >= 0.0
    ensures Dot(a, b) >= 0.0
  {
    if a != [] {
      var m := |a| - 1;
      DotNonnegative(a[..m], b[..m]);
      ProductNonnegative(a[m], b[m]);
    }
  }

  lemma EvolvedNonnegative(p: Vec, l: Vec, h: real)
    requires IsProbabilities(p) && IsLikelihoods(l, |p|) && 0.0 <= h <= 1.0
    ensures IsProbabilities(Evolved(p, l, h))
  {
    DotNonnegative(p, l);
    ProductNonnegative(Dot(p, l), h);
    forall r | 0 <= r < |p| - 1 ensures p[r] * l[r] * (1.0 - h) >= 0.0 {
      ProductNonnegative(p[r], l[r]);
      ProductNonnegative(p[r] * l[r], 1.0 - h);
    }
  }

  /** The posterior stays nonnegative. */
  lemma PosteriorNonnegative(p: Vec, l: Vec, h: real)
    requires IsProbabilities(p) && IsLikelihoods(l, |p|) && 0.0 <= h <= 1.0
    ensures IsProbabilities(Posterior(p, l, h))
  {
    var e := Evolved(p, l, h);
    EvolvedNonnegative(p, l, h);
    if Total(e) > NEGLIGIBLE {
      forall r | 0 <= r < |e| ensures e[r] / Total(e) >= 0.0 {
        QuotientNonnegative(e[r], Total(e));
      }
    }
  }

  /** Normalised, it sums to 1; otherwise all its mass is negligible. */
  lemma PosteriorTotal(p: Vec, l: Vec, h: real)
    requires |p| == |l| > 0
    ensures if Total(Evolved(p, l, h)) > NEGLIGIBLE then Total(Posterior(p, l, h)) == 1.0
            else Total(Posterior(p, l, h)) <= NEGLIGIBLE
  {
    var e := Evolved(p, l, h);
    var t := Total(e);
    if t > NEGLIGIBLE {
      TotalScaled(e, t);
      assert t / t == 1.0;
    }
  }

  /** What normalisation divides by: the evidence that survives, unless that is negligible. */
  function Divisor(p: Vec, l: Vec, h: real): real
    requires |p| == |l| > 0
  {
    var m := |p| - 1;
    var z := Dot(p[..m], l[..m]) + h * (p[m] * l[m]);
    if z > 0.0000000001 then z else 1.0
  }

  /** `q` is the posterior of `p` under likelihoods `l`: run length 0 has the hazard's share of all
      evidence, and every other run length the rest of its predecessor's. */
  ghost predicate IsBayes(p: Vec, l: Vec, h: real, q: Vec)
    requires |p| == |l| == |q| > 0
  {
    var z := Divisor(p, l, h);
    && Scales(q[0], z, h * Dot(p, l))
    && forall r :: 1 <= r < |q| ==> Scales(q[r], z, p[r - 1] * l[r - 1] * (1.0 - h))
  }

  lemma PosteriorEntry(p: Vec, l: Vec, h: real, r: nat, z: real, x: real)
    requires |p| == |l| > r && z == Divisor(p, l, h) && x == Evolved(p, l, h)[r]
    ensures Scales(Posterior(p, l, h)[r], z, x)
  {
    var t, q := Total(Evolved(p, l, h)), Posterior(p, l, h)[r];
    EvolvedTotal(p, l, h, Kept(p, l), Dropped(p, l));
    assert z == if t > NEGLIGIBLE then t else 1.0;
    hide Evolved, Total, Divisor, Kept, Dropped;
    if t > NEGLIGIBLE { QuotientBack(q, x, t); }
  }

  lemma QuotientBack(q: real, x: real, t: real)
    requires t != 0.0 && q == x / t
    ensures Scales(q, t, x)
  {
  }

  lemma PosteriorIsBayes(p: Vec, l: Vec, h: real)
    requires |p| == |l| > 0
    ensures IsBayes(p, l, h, Posterior(p, l, h))
  {
    var z, e := Divisor(p, l, h), Evolved(p, l, h);
    StartsOver(p, l, h, Dot(p, l));
    PosteriorEntry(p, l, h, 0, z, e[0]);
    ShareIs(Dot(p, l), h);
    forall r | 1 <= r < |p| ensures Scales(Posterior(p, l, h)[r], z, p[r - 1] * l[r - 1] * (1.0 - h)) {
      PosteriorEntry(p, l, h, r, z, e[r]);
      GrownEntry(p, l, h, r);
    }
    hide Posterior, Evolved, Divisor, Scales;
  }

  lemma ShareIs(mass: real, h: real)
    ensures Share(mass, h) == h * mass
  {
  }

  lemma GrownEntry(p: Vec, l: Vec, h: real, r: nat)
    requires |p| == |l| && 1 <= r < |p|
    ensures Evolved(p, l, h)[r] == p[r - 1] * l[r - 1] * (1.0 - h)
  {
  }

  lemma {:induction false} EntryAtMostTotal(a: Vec, i: nat)
    requires i < |a| && forall r :: 0 <= r < |a| ==> a[r] >= 0.0
    ensures 0.0 <= a[i] <= Total(a)
  {
    var m := |a| - 1;
    if m > 0 { EntryAtMostTotal(a[..m], if i < m then i else m - 1); }
  }

  lemma NormalisedFirst(p: Vec, l: Vec, h: real, x: real, t: real)
    requires |p| == |l| > 0 && t == Total(Evolved(p, l, h)) > NEGLIGIBLE && x == Evolved(p, l, h)[0]
    ensures Posterior(p, l, h)[0] == x / t
  {
  }

  /** While the top bin is empty the probability of a change point is the hazard rate, whatever
      was observed; unnormalised it is negligible. */
  lemma EmptyTopGivesHazard(p: Vec, l: Vec, h: real)
    requires IsProbabilities(p) && IsLikelihoods(l, |p|) && 0.0 <= h <= 1.0
    requires p[|p| - 1] == 0.0
    ensures if Total(Evolved(p, l, h)) > NEGLIGIBLE then Posterior(p, l, h)[0] == h
            else Posterior(p, l, h)[0] <= NEGLIGIBLE
  {
    var e, x, t, kept := Evolved(p, l, h), Evolved(p, l, h)[0], Total(Evolved(p, l, h)), Kept(p, l);
    EvolvedNonnegative(p, l, h);
    EmptyTop(p, l);
    EvolvedTotal(p, l, h, kept, 0.0);
    if t > NEGLIGIBLE {
      NormalisedFirst(p, l, h, x, t);
      ShareOfTotal(x, t, h, kept);
    } else {
      EntryAtMostTotal(e, 0);
    }
  }

  lemma EmptyTop(p: Vec, l: Vec)
    requires |p| == |l| > 0 && p[|p| - 1] == 0.0
    ensures Dropped(p, l) == 0.0
  {
  }

  lemma ShareOfTotal(x: real, t: real, h: real, kept: real)
    requires t > 0.0 && x == h * (kept + 0.0) && t == kept + h * 0.0
    ensures x / t == h
  {
    assert x == h * t;
  }

  /** The hazard's share of all evidence outweighs the threshold's share of what is kept. */
  predicate Outweighs(h: real, kept: real, dropped: real, theta: real) {
    h * (kept + dropped) >= theta * (kept + h * dropped)
  }

  /** A normalised step declares a change point exactly when the hazard's share of all evidence
      outweighs the threshold's share of the evidence that survives: with no evidence in the
      top bin, only if the threshold is at most the hazard. */
  lemma DetectionCondition(p: Vec, l: Vec, h: real, theta: real, kept: real, dropped: real)
    requires |p| == |l| > 0 && Total(Evolved(p, l, h)) > NEGLIGIBLE && kept == Kept(p, l) && dropped == Dropped(p, l)
    ensures Posterior(p, l, h)[0] >= theta <==> Outweighs(h, kept, dropped, theta)
  {
    var x, t := Evolved(p, l, h)[0], Total(Evolved(p, l, h));
    EvolvedTotal(p, l, h, kept, dropped);
    NormalisedFirst(p, l, h, x, t);
    RatioWeighing(Posterior(p, l, h)[0], x, t, h, kept, dropped, theta);
  }

  lemma RatioWeighing(ratio: real, x: real, t: real, h: real, s: real, q: real, theta: real)
    requires t > 0.0 && ratio == x / t && x == h * (s + q) && t == s + h * q
    ensures ratio >= theta <==> Outweighs(h, s, q, theta)
  {
    RatioAtLeast(x, t, theta);
    SameWeighing(x, t, h, s, q, theta);
  }

  lemma SameWeighing(x: real, t: real, h: real, s: real, q: real, theta: real)
    requires x == h * (s + q) && t == s + h * q
    ensures x >= theta * t <==> Outweighs(h, s, q, theta)
  {
  }

  // ----- runs -----

  /** No mass on run lengths above `m`. */
  ghost predicate Support(p: Vec, m: nat) {
    forall r :: m < r < |p| ==> p[r] == 0.0
  }

  lemma SupportGrows(p: Vec, l: Vec, h: real, m: nat)
    requires |p| == |l| > 0 && Support(p, m)
    ensures Support(Posterior(p, l, h), m + 1)
  {
    forall r | m + 1 < r < |p| ensures Posterior(p, l, h)[r] == 0.0 {
      EvolvedZero(p, l, h, r);
      PosteriorZero(p, l, h, r);
    }
  }

  lemma EvolvedZero(p: Vec, l: Vec, h: real, r: nat)
    requires |p| == |l| && 0 < r < |p| && p[r - 1] == 0.0
    ensures Evolved(p, l, h)[r] == 0.0
  {
    assert p[r - 1] * l[r - 1] == 0.0;
  }

  lemma PosteriorZero(p: Vec, l: Vec, h: real, r: nat)
    requires |p| == |l| && r < |p| && Evolved(p, l, h)[r] == 0.0
    ensures Posterior(p, l, h)[r] == 0.0
  {
  }

  /** The distribution written after a detection. */
  function ResetPosterior(n: nat): (r: Vec)
    requires n > 0
    ensures |r| == n
  {
    var raw := seq(n, r => if r == 0 then 0.5 else if r < 5 then 0.1 else 0.0);
    Scaled(raw, ResetTotal(n))
  }

  /** 0.5 and up to four times 0.1 */
  function ResetTotal(n: nat): (t: real)
    requires n > 0
    ensures t > 0.0
  {
    0.5 + 0.1 * (if n < 5 then n - 1 else 4) as real
  }

  lemma {:induction false} ResetRawTotal(n: nat)
    requires n > 0
    ensures Total(seq(n, r => if r == 0 then 0.5 else if r < 5 then 0.1 else 0.0)) == ResetTotal(n)
  {
    var raw := seq(n, r => if r == 0 then 0.5 else if r < 5 then 0.1 else 0.0);
    assert raw[..n - 1] == seq(n - 1, r => if r == 0 then 0.5 else if r < 5 then 0.1 else 0.0);
    if n > 1 { ResetRawTotal(n - 1); }
  }

  lemma ResetIsDistribution(n: nat)
    requires n > 0
    ensures IsProbabilities(ResetPosterior(n)) && Total(ResetPosterior(n)) == 1.0 && Support(ResetPosterior(n), 4)
  {
    var raw := seq(n, r => if r == 0 then 0.5 else if r < 5 then 0.1 else 0.0);
    ResetRawTotal(n);
    TotalScaled(raw, ResetTotal(n));
    forall r | 0 <= r < n ensures ResetPosterior(n)[r] >= 0.0 {
      QuotientNonnegative(raw[r], ResetTotal(n));
    }
  }

  /** Run length 0 weighs five times what each of the lengths 1 to 4 does. */
  lemma ResetWeights(n: nat, i: nat)
    requires 1 <= i < n && i < 5
    ensures ResetPosterior(n)[0] == 5.0 * ResetPosterior(n)[i]
  {
    var t := ResetTotal(n);
    assert ResetPosterior(n)[0] == 0.5 / t && ResetPosterior(n)[i] == 0.1 / t;
    assert 5.0 * (0.1 / t) == 0.5 / t;
  }

  /** One observation after warm-up: the stored distribution and whether an event is raised. */
  function Observe(cfg: Config, p: Vec, l: Vec): (Vec, bool)
    requires |p| == |l| > 0
  {
    Settled(cfg, Posterior(p, l, cfg.hazard))
  }

  function Settled(cfg: Config, q: Vec): (Vec, bool)
    requires q != []
  {
    if q[0] >= cfg.threshold then (ResetPosterior(|q|), true) else (q, false)
  }

  ghost predicate AllSized(ls: seq<Vec>, n: nat) {
    forall i :: 0 <= i < |ls| ==> |ls[i]| == n
  }

  ghost predicate AllLikelihoods(ls: seq<Vec>, n: nat)
    ensures AllLikelihoods(ls, n) ==> AllSized(ls, n)
  {
    forall i :: 0 <= i < |ls| ==> IsLikelihoods(ls[i], n)
  }

  ghost function Stored(cfg: Config, p: Vec, ls: seq<Vec>): (r: Vec)
    requires p != [] && AllSized(ls, |p|)
    ensures |r| == |p|
  {
    if ls == [] then p else Observe(cfg, Stored(cfg, p, ls[..|ls| - 1]), ls[|ls| - 1]).0
  }

  /** Whether the last of these observations raises an event. */
  ghost predicate Raises(cfg: Config, p: Vec, ls: seq<Vec>)
    requires p != [] && ls != [] && AllSized(ls, |p|)
  {
    Observe(cfg, Stored(cfg, p, ls[..|ls| - 1]), ls[|ls| - 1]).1
  }

  ghost predicate ValidRates(cfg: Config) {
    0.0 <= cfg.hazard <= 1.0 && cfg.threshold > cfg.hazard && cfg.threshold > NEGLIGIBLE
  }

  /** Until the mass can have reached the top bin, no data raises an event. */
  lemma {:induction false} QuietUntilTop(cfg: Config, p: Vec, ls: seq<Vec>, m: nat)
    requires ValidRates(cfg) && IsProbabilities(p) && Support(p, m) && m + |ls| < |p|
    requires AllLikelihoods(ls, |p|)
    ensures IsProbabilities(Stored(cfg, p, ls)) && Support(Stored(cfg, p, ls), m + |ls|)
    ensures ls != [] ==> !Raises(cfg, p, ls)
  {
    if ls != [] {
      var k := |ls| - 1;
      QuietUntilTop(cfg, p, ls[..k], m);
      var q := Stored(cfg, p, ls[..k]);
      EmptyTopGivesHazard(q, ls[k], cfg.hazard);
      PosteriorNonnegative(q, ls[k], cfg.hazard);
      SupportGrows(q, ls[k], cfg.hazard, m + k);
    }
  }

  function Initial(n: nat): (p: Vec)
    requires n > 0
    ensures |p| == n
  {
    Zeros(n)[0 := 1.0]
  }

  /** From the start, the first maxRun observations after warm-up raise no event. */
  lemma NoEarlyEvent(cfg: Config, ls: seq<Vec>)
    requires ValidRates(cfg) && 0 < |ls| <= cfg.maxRun
    requires AllLikelihoods(ls, cfg.maxRun + 1)
    ensures !Raises(cfg, Initial(cfg.maxRun + 1), ls)
  {
    QuietUntilTop(cfg, Initial(cfg.maxRun + 1), ls, 0);
  }

  /** After an event, the next maxRun - 4 observations raise none. */
  lemma EventsAreApart(cfg: Config, ls: seq<Vec>)
    requires ValidRates(cfg) && 0 < |ls| && |ls| + 4 <= cfg.maxRun
    requires AllLikelihoods(ls, cfg.maxRun + 1)
    ensures !Raises(cfg, ResetPosterior(cfg.maxRun + 1), ls)
  {
    ResetIsDistribution(cfg.maxRun + 1);
    QuietUntilTop(cfg, ResetPosterior(cfg.maxRun + 1), ls, 4);
  }

  // ----- predictive parameters -----

  function NextMean(k: real, mean: real, x: real): real
    requires k > 0.0
  {
    (1.0 - 1.0 / k) * mean + (1.0 / k) * x
  }

  /** `before` and `after` are the distances of the observation from the old and the new mean. */
  function NextVariance(k: real, variance: real, before: real, after: real): real
    requires k > 0.0
  {
    ((k - 1.0) * variance + before * after) / k
  }

  /** What the in-place pass leaves at run length `r`. */
  function MeanAfter(cfg: Config, x: real, r: nat): real
    requires cfg.priorSamples > 0.0
  {
    if r == 0 then cfg.priorMean else NextMean(cfg.priorSamples + r as real, MeanAfter(cfg, x, r - 1), x)
  }

  function VarianceAfter(cfg: Config, x: real, r: nat): real
    requires cfg.priorSamples > 0.0
  {
    if r == 0 then cfg.priorVariance * (1.0 + 1.0 / cfg.priorSamples)
    else NextVariance(cfg.priorSamples + r as real, VarianceAfter(cfg, x, r - 1),
                      x - MeanAfter(cfg, x, r - 1), x - MeanAfter(cfg, x, r))
  }

  lemma NextMeanScaled(k: real, m: real, x: real)
    requires k > 0.0
    ensures NextMean(k, m, x) * k == (k - 1.0) * m + x
  {
    var w := 1.0 / k;
    assert w * k == 1.0;
    assert ((1.0 - w) * m) * k == k * m - (w * k) * m;
    assert (w * x) * k == (w * k) * x;
  }

  lemma MeanStep(ps: real, r: real, m: real, m0: real, x: real)
    requires ps > 0.0 && r >= 1.0 && Scales(m, ps + (r - 1.0), ps * m0 + (r - 1.0) * x)
    ensures Scales(NextMean(ps + r, m, x), ps + r, ps * m0 + r * x)
  {
    NextMeanScaled(ps + r, m, x);
    assert (ps + r - 1.0) * m == m * (ps + (r - 1.0));
    assert (r - 1.0) * x + x == r * x;
  }

  /** The pass reads entries it has just written, so every run length's mean is the prior
      weighted against `r` copies of the last observation: no older data is left in it. */
  lemma {:induction false} MeanClosedForm(cfg: Config, x: real, r: nat)
    requires cfg.priorSamples > 0.0
    ensures Scales(MeanAfter(cfg, x, r), cfg.priorSamples + r as real, cfg.priorSamples * cfg.priorMean + r as real * x)
  {
    if r > 0 {
      MeanClosedForm(cfg, x, r - 1);
      assert r as real - 1.0 == (r - 1) as real;
      MeanStep(cfg.priorSamples, r as real, MeanAfter(cfg, x, r - 1), cfg.priorMean, x);
    }
  }

  lemma DeviationStep(ps: real, k: real, r: real, m: real, m0: real, x: real, d: real)
    requires k == ps + r && d == x - m && Scales(m, k, ps * m0 + r * x)
    ensures Scales(d, k, ps * (x - m0))
  {
    assert d * k == x * k - m * k;
    assert x * k == ps * x + r * x;
  }

  /** (1/j) * (1/k) telescopes for k = j + 1. */
  lemma TelescopeStep(ps: real, c: real, j: real, k: real, q: real, r: real, z: real, d: real, e: real, w: real, w': real)
    requires j > 0.0 && k == j + 1.0 && r == q + 1.0 && j == ps + q
    requires Scales(d, j, c) && Scales(e, k, c) && c * c == ps * z
    requires Scales(w, j, q * z) && w' == w + d * e
    ensures Scales(w', k, r * z)
  {
    assert k * (d * e) == d * (e * k) == d * c;
    assert j * (k * w') == k * (w * j) + j * (d * c);
    assert j * (d * c) == (d * j) * c == c * c;
    assert k * (q * z) + ps * z == j * (r * z) by {
      assert k * q + ps == j * r;
      assert k * (q * z) == (k * q) * z && j * (r * z) == (j * r) * z;
      assert (k * q + ps) * z == (k * q) * z + ps * z;
    }
    SameProduct(j, k * w', r * z);
  }

  /** What k * variance exceeds `start` by. */
  function Excess(k: real, variance: real, start: real): real {
    k * variance - start
  }

  lemma ExcessStep(j: real, k: real, v: real, d: real, e: real, start: real)
    requires j > 0.0 && k == j + 1.0
    ensures Excess(k, NextVariance(k, v, d, e), start) == Excess(j, v, start) + d * e
  {
    var v' := NextVariance(k, v, d, e);
    assert v' == (j * v + d * e) / k;
    assert k * v' == j * v + d * e;
  }

  lemma ExcessStepNamed(j: real, k: real, v: real, v': real, d: real, e: real, start: real)
    requires j > 0.0 && k == j + 1.0 && v' == NextVariance(k, v, d, e)
    ensures Excess(k, v', start) == Excess(j, v, start) + d * e
  {
    ExcessStep(j, k, v, d, e, start);
  }

  lemma MeanUnfolds(cfg: Config, x: real, r: nat, k: real, m: real)
    requires cfg.priorSamples > 0.0 && r > 0 && k == cfg.priorSamples + r as real && m == MeanAfter(cfg, x, r - 1)
    ensures MeanAfter(cfg, x, r) == NextMean(k, m, x)
  {
  }

  lemma VarianceUnfolds(cfg: Config, x: real, r: nat, k: real, v: real, v': real, d: real, e: real)
    requires cfg.priorSamples > 0.0 && r > 0 && k == cfg.priorSamples + r as real
    requires v == VarianceAfter(cfg, x, r - 1) && v' == VarianceAfter(cfg, x, r)
    requires d == x - MeanAfter(cfg, x, r - 1) && e == x - MeanAfter(cfg, x, r)
    ensures v' == NextVariance(k, v, d, e)
  {
  }

  /** `start` is the prior's share, `c` and `z` are priorSamples times the distance of the
      observation from the prior mean and times its square. */
  predicate PriorTerms(cfg: Config, x: real, start: real, c: real, z: real) {
    && start == (cfg.priorSamples + 1.0) * cfg.priorVariance
    && c == cfg.priorSamples * (x - cfg.priorMean) && z == c * (x - cfg.priorMean)
  }

  lemma VarianceStart(cfg: Config, x: real, start: real, c: real, z: real)
    requires cfg.priorSamples > 0.0 && PriorTerms(cfg, x, start, c, z)
    ensures Scales(Excess(cfg.priorSamples + 0.0, VarianceAfter(cfg, x, 0), start), cfg.priorSamples + 0.0, 0.0 * z)
  {
    var ps, pv := cfg.priorSamples, cfg.priorVariance;
    assert ps * (1.0 / ps) == 1.0;
    assert ps * (pv * (1.0 / ps)) == pv * (ps * (1.0 / ps));
    assert pv * (1.0 + 1.0 / ps) == pv + pv * (1.0 / ps);
  }

  lemma PriorSquare(cfg: Config, x: real, start: real, c: real, z: real)
    requires PriorTerms(cfg, x, start, c, z)
    ensures Scales(c, c, cfg.priorSamples * z)
  {
    var s := x - cfg.priorMean;
    calc { c * c; c * (cfg.priorSamples * s); cfg.priorSamples * (c * s); }
  }

  lemma Deviation(cfg: Config, x: real, r: nat, start: real, c: real, z: real, d: real, k: real)
    requires cfg.priorSamples > 0.0 && PriorTerms(cfg, x, start, c, z)
    requires d == x - MeanAfter(cfg, x, r) && k == cfg.priorSamples + r as real
    ensures Scales(d, k, c)
  {
    var n, m := r as real, MeanAfter(cfg, x, r);
    MeanClosedForm(cfg, x, r);
    DeviationStep(cfg.priorSamples, k, n, m, cfg.priorMean, x, d);
  }

  /** The same for the variance: (priorSamples + r) times it exceeds the prior's share by what `r`
      copies of the last observation add. */
  lemma {:induction false} VarianceClosedForm(cfg: Config, x: real, r: nat, start: real, c: real, z: real,
                                              n: real, k: real, v: real)
    requires cfg.priorSamples > 0.0 && PriorTerms(cfg, x, start, c, z)
    requires n == r as real && k == cfg.priorSamples + n && v == VarianceAfter(cfg, x, r)
    ensures Scales(Excess(k, v, start), k, n * z)
  {
    if r == 0 {
      VarianceStart(cfg, x, start, c, z);
    } else {
      var ps, j, q, u := cfg.priorSamples, k - 1.0, n - 1.0, VarianceAfter(cfg, x, r - 1);
      var d, e := x - MeanAfter(cfg, x, r - 1), x - MeanAfter(cfg, x, r);
      VarianceClosedForm(cfg, x, r - 1, start, c, z, q, j, u);
      VarianceUnfolds(cfg, x, r, k, u, v, d, e);
      Deviation(cfg, x, r - 1, start, c, z, d, j);
      Deviation(cfg, x, r, start, c, z, e, k);
      PriorSquare(cfg, x, start, c, z);
      VarianceStep(ps, c, j, k, q, n, z, d, e, start, u, v);
    }
  }

  lemma VarianceStep(ps: real, c: real, j: real, k: real, q: real, r: real, z: real, d: real, e: real, start: real,
                     v: real, v': real)
    requires j > 0.0 && k == j + 1.0 && r == q + 1.0 && j == ps + q && Scales(c, c, ps * z)
    requires Scales(d, j, c) && Scales(e, k, c) && v' == NextVariance(k, v, d, e)
    requires Scales(Excess(j, v, start), j, q * z)
    ensures Scales(Excess(k, v', start), k, r * z)
  {
    ExcessStepNamed(j, k, v, v', d, e, start);
    TelescopeStep(ps, c, j, k, q, r, z, d, e, Excess(j, v, start), Excess(k, v', start));
  }

  // ----- the detector object -----

  /** First of the largest entries among p[1..upto]. */
  function MostLikelyRun(p: Vec, upto: nat): (r: nat)
    requires 1 < upto <= |p|
    ensures 1 <= r < upto
    ensures forall i :: 1 <= i < upto ==> p[i] <= p[r]
    ensures forall i :: 1 <= i < r ==> p[i] < p[r]
  {
    if upto == 2 then 1
    else
      var best := MostLikelyRun(p, upto - 1);
      if p[upto - 1] > p[best] then upto - 1 else best
  }

  /** Run length reported for the run that ended: the most likely one, or the middle one when
      all of them are negligible. */
  function EndedRun(p: Vec): (r: nat)
    requires |p| >= 2
    ensures 1 <= r < |p|
  {
    var best := MostLikelyRun(p, |p|);
    if p[best] > NEGLIGIBLE then best else |p| / 2
  }

  /** The first most likely of the run lengths from 1 on, or, if all are negligible, their mean
      rounded down. */
  ghost predicate IsEndedRun(p: Vec, r: nat) {
    && 1 <= r < |p|
    && (if exists i :: 1 <= i < |p| && p[i] > 0.0000000001 then
          (forall i :: 1 <= i < |p| ==> p[i] <= p[r]) && (forall i :: 1 <= i < r ==> p[i] < p[r])
        else r as real <= |p| as real / 2.0 < r as real + 1.0)
  }

  lemma EndedRunIs(p: Vec)
    requires |p| >= 2
    ensures IsEndedRun(p, EndedRun(p))
  {
    var best := MostLikelyRun(p, |p|);
    if p[best] <= NEGLIGIBLE { Half(|p|, |p| / 2); }
  }

  lemma Half(n: nat, m: nat)
    requires m == n / 2
    ensures m as real <= n as real / 2.0 < m as real + 1.0
  {
    assert n == 2 * m || n == 2 * m + 1;
  }

  class BayesianOnlineChangePointDetector {
    const cfg: Config
    var probabilities: Vec
    const means: array<real>
    const variances: array<real>
    var sampleCount: nat
    var detected: seq<Event>
    var last: Option<Event>

    ghost predicate Valid()
      reads this
    {
      && cfg.priorSamples > 0.0 && cfg.maxRun >= 1
      && |probabilities| == means.Length == variances.Length == cfg.maxRun + 1
      && means != variances
    }

    constructor (cfg: Config)
      requires cfg.priorSamples > 0.0 && cfg.maxRun >= 1
      ensures Valid() && this.cfg == cfg && sampleCount == 0 && detected == [] && last == None
      ensures probabilities == Initial(cfg.maxRun + 1)
      ensures |probabilities| == means.Length == variances.Length == cfg.maxRun + 1
      ensures forall r :: 0 <= r <= cfg.maxRun ==> probabilities[r] == if r == 0 then 1.0 else 0.0
      ensures forall r :: 0 <= r <= cfg.maxRun ==> means[r] == cfg.priorMean && variances[r] == cfg.priorVariance
      ensures fresh(means) && fresh(variances)
    {
      this.cfg := cfg;
      probabilities := Initial(cfg.maxRun + 1);
      means := new real[cfg.maxRun + 1](_ => cfg.priorMean);
      variances := new real[cfg.maxRun + 1](_ => cfg.priorVariance);
      sampleCount, detected, last := 0, [], None;
    }

    /** Ascending pass over the run lengths, in place. */
    method UpdatePredictiveParams(x: real)
      requires Valid()
      modifies means, variances
      ensures forall r :: 0 <= r <= cfg.maxRun ==> means[r] == MeanAfter(cfg, x, r)
      ensures forall r :: 0 <= r <= cfg.maxRun ==> variances[r] == VarianceAfter(cfg, x, r)
    {
      means[0] := cfg.priorMean;
      variances[0] := cfg.priorVariance * (1.0 + 1.0 / cfg.priorSamples);
      for r := 1 to cfg.maxRun + 1
        invariant forall i :: 0 <= i < r ==> means[i] == MeanAfter(cfg, x, i) && variances[i] == VarianceAfter(cfg, x, i)
      {
        var prevMean, prevVar := means[r - 1], variances[r - 1];
        var k := cfg.priorSamples + r as real;
        var mean := NextMean(k, prevMean, x);
        MeanUnfolds(cfg, x, r, k, prevMean);
        var before, after := x - prevMean, x - mean;
        var variance := NextVariance(k, prevVar, before, after);
        VarianceUnfolds(cfg, x, r, k, prevVar, VarianceAfter(cfg, x, r), before, after);
        means[r], variances[r] := mean, variance;
      }
    }

    /** `likelihoods` stands for the Student-t densities of the observation. */
    method Update(x: real, timestamp: Option<real>, likelihoods: Vec) returns (event: Option<Event>)
      requires Valid() && |likelihoods| == cfg.maxRun + 1
      modifies this, means, variances
      ensures Valid() && sampleCount == old(sampleCount) + 1
      ensures forall r :: 0 <= r <= cfg.maxRun ==> means[r] == MeanAfter(cfg, x, r) && variances[r] == VarianceAfter(cfg, x, r)
      ensures sampleCount <= cfg.warmup ==> probabilities == old(probabilities) && event == None
      ensures sampleCount > cfg.warmup ==>
        (probabilities, event.Some?) == Observe(cfg, old(probabilities), likelihoods)
      ensures sampleCount > cfg.warmup && event.None? ==>
        IsBayes(old(probabilities), likelihoods, cfg.hazard, probabilities)
      ensures event.Some? ==> exists q: Vec ::
        |q| == cfg.maxRun + 1 && IsBayes(old(probabilities), likelihoods, cfg.hazard, q)
        && q[0] == event.value.confidence >= cfg.threshold && IsEndedRun(q, event.value.runLength)
      ensures event.Some? ==>
        Describes(event.value, Posterior(old(probabilities), likelihoods, cfg.hazard),
                  if timestamp.Some? then timestamp.value else sampleCount as real)
      ensures detected == old(detected) + (if event.Some? then [event.value] else [])
      ensures last == if event.Some? then event else old(last)
    {
      sampleCount := sampleCount + 1;
      var time := if timestamp.Some? then timestamp.value else sampleCount as real;
      if sampleCount <= cfg.warmup {
        UpdatePredictiveParams(x);
        return None;
      }
      PosteriorIsBayes(probabilities, likelihoods, cfg.hazard);
      probabilities := Posterior(probabilities, likelihoods, cfg.hazard);
      UpdatePredictiveParams(x);
      ghost var q := probabilities;
      EndedRunIs(q);
      event := Settle(time);
      assert event.Some? ==> q[0] == event.value.confidence && IsEndedRun(q, event.value.runLength);
    }

    /** The event tells the run that ended, its mean and the jump back to the prior mean. */
    ghost predicate Describes(e: Event, q: Vec, time: real)
      requires |q| == means.Length >= 2
      reads means
    {
      var r := EndedRun(q);
      e == Event(time, r, q[0], means[r], cfg.priorMean, Abs(cfg.priorMean - means[r]))
    }

    /** Raises and records an event, if one is due, and starts the distribution afresh. */
    method Settle(time: real) returns (event: Option<Event>)
      requires Valid() && means[0] == cfg.priorMean
      modifies `probabilities, `detected, `last
      ensures Valid() && (probabilities, event.Some?) == Settled(cfg, old(probabilities))
      ensures event.Some? ==> Describes(event.value, old(probabilities), time)
      ensures detected == old(detected) + (if event.Some? then [event.value] else [])
      ensures last == if event.Some? then event else old(last)
    {
      event := CheckDetection(time);
      if event.Some? {
        detected := detected + [event.value];
        last := event;
        probabilities := ResetPosterior(|probabilities|);
      }
    }

    method CheckDetection(time: real) returns (event: Option<Event>)
      requires Valid() && means[0] == cfg.priorMean
      ensures event.Some? <==> probabilities[0] >= cfg.threshold
      ensures event.Some? ==> Describes(event.value, probabilities, time)
      ensures event.Some? ==> IsEndedRun(probabilities, event.value.runLength)
    {
      if probabilities[0] < cfg.threshold {
        return None;
      }
      EndedRunIs(probabilities);
      var best := 1;
      for r := 2 to |probabilities|
        invariant best == MostLikelyRun(probabilities, r)
      {
        if probabilities[r] > probabilities[best] {
          best := r;
        }
      }
      var ended := if probabilities[best] > NEGLIGIBLE then best else |probabilities| / 2;
      event := Some(Event(time, ended, probabilities[0], means[ended], means[0], Abs(means[0] - means[ended])));
    }
  }
}
