/** What a whole scan of backend/arbitrage/bellman_ford_solver.py tells its caller. */
module ArbitrageScan {
  import opened Walks
  import opened Relaxation
  import opened PredecessorGraph
  import opened BellmanFordSolver
  import opened CyclePricing

  /** The relaxed edges met on the way back from `v`, in the order they are walked. */
  function BackPath(t: Labels, v: int, k: nat): seq<Edge>
    requires |t.pred| == |t.walk| && PredOk(t.pred) && -1 <= v < |t.pred|
    decreases k
  {
    if k == 0 || v == -1 then []
    else BackPath(t, t.pred[v], k - 1) + if t.walk[v] == [] then [] else [t.walk[v][|t.walk[v]| - 1]]
  }

  lemma {:induction false} BackPathIsWalk(t: Labels, g: seq<Edge>, s: nat, v: nat, k: nat)
    requires Inv(t, g, s) && PredOk(t.pred) && v < |t.pred| && Back(t.pred, v, k) != -1
    ensures var p := BackPath(t, v, k);
            Walk(g, Back(t.pred, v, k), p, v) && Weight(p) == BackWeight(t, v, k) && |p| == k
    decreases k
  {
    if k > 0 {
      assert Back(t.pred, v, k) == Back(t.pred, t.pred[v], k - 1);
      PredDrop(t, g, s, v);
      BackPathIsWalk(t, g, s, t.pred[v], k - 1);
      var e := t.walk[v][|t.walk[v]| - 1];
      WeightConcat(BackPath(t, t.pred[v], k - 1), [e]);
      assert [e][..0] == [];
    }
  }

  lemma PredCycleIsNegative(t: Labels, g: seq<Edge>, s: nat, c: seq<nat>)
    requires Inv(t, g, s) && PredOk(t.pred) && CyclesPay(t) && IsPredCycle(t.pred, c)
    ensures ClosedBelow(g, c[0], -EPSILON)
  {
    var k := |c|;
    CycleIsBack(t.pred, c, k - 1);
    BackPathIsWalk(t, g, s, c[0], k);
    assert BackPath(t, c[0], k) != [];
  }

  /** Whatever price is shown, a reported list of vertices runs over a real closed walk of the
      market that weighs less than -EPSILON, and it is flagged only if such a walk is in reach. */
  lemma ReportsAreNegativeCycles(g: seq<Edge>, n: nat, s: nat, profitable: real -> bool, cycles: seq<ArbCycle>, c: ArbCycle)
    requires ScanResult(g, n, s, profitable, cycles) && c in cycles
    ensures ClosedBelow(g, c.vertices[0], -EPSILON)
    ensures exists p, v :: Walk(g, s, p, v) && ClosedBelow(g, v, -EPSILON)
  {
    var t := Passes(Start(n, s), g, n - 1);
    AllPasses(g, n, s, t);
    assert Reported(g, t.pred, Flagged(g, t.dist), c);
    PredCycleIsNegative(t, g, s, c.vertices);
    var v :| v in Flagged(g, t.dist) && v < n && IsReport(g, t.pred, v, c);
    var e :| e in g && Relaxable(t.dist, e) && e.dst == v;
    var p, w := StillRelaxableMeansNegativeCycle(g, n, s, e);
  }

  /** Without a closed walk below -EPSILON a scan is silent. */
  lemma NoArbitrageNoReport(g: seq<Edge>, n: nat, s: nat, profitable: real -> bool, cycles: seq<ArbCycle>)
    requires ScanResult(g, n, s, profitable, cycles) && !SomeClosedBelow(g, -EPSILON)
    ensures cycles == []
  {
    if cycles != [] {
      assert cycles[0] in cycles;
      ReportsAreNegativeCycles(g, n, s, profitable, cycles, cycles[0]);
    }
  }

  lemma ReportedIsALoss(t: Labels, g: seq<Edge>, s: nat, c: ArbCycle)
    requires Inv(t, g, s) && PredOk(t.pred) && CyclesPay(t) && Reported(g, t.pred, Flagged(g, t.dist), c)
    requires TwoSided(g) && NoTwoLegGain(g)
    ensures c.total > EPSILON
  {
    var v :| v in Flagged(g, t.dist) && v < |t.pred| && IsReport(g, t.pred, v, c);
    ShippedPriceIsALoss(t, g, s, v, c);
  }

  /** In a market quoted both ways without two-leg gains a scan is silent too, whatever longer
      gains it has: each is priced in the losing direction and falls below the threshold. */
  lemma TwoSidedMarketIsSilent(g: seq<Edge>, n: nat, s: nat, profitable: real -> bool, cycles: seq<ArbCycle>)
    requires ScanResult(g, n, s, profitable, cycles)
    requires forall x: real :: x > 0.0 ==> !profitable(x)
    requires TwoSided(g) && NoTwoLegGain(g)
    ensures cycles == []
  {
    if cycles != [] {
      var c := cycles[0];
      assert c in cycles;
      var t := Passes(Start(n, s), g, n - 1);
      AllPasses(g, n, s, t);
      ReportedIsALoss(t, g, s, c);
    }
  }

  // ----- flagged vertices that lead nowhere -----

  lemma {:induction false} LabelledIsStuckAtStart(t: Labels, g: seq<Edge>, s: nat, v: nat, k: nat)
    requires Inv(t, g, s) && PredOk(t.pred) && v < |t.pred| && t.dist[v].Finite?
    ensures Back(t.pred, v, k) == -1 <==> t.pred[s] == -1 && MeetsOnWayBack(t.pred, v, k, s)
    decreases k
  {
    if k > 0 {
      if t.pred[v] == -1 {
        assert Justified(t, g, s, v);
        assert v == s && Back(t.pred, v, k) == Back(t.pred, -1, k - 1) == -1;
      } else {
        PredDrop(t, g, s, v);
        LabelledIsStuckAtStart(t, g, s, t.pred[v], k - 1);
      }
    }
  }

  /** Some vertex fewer than `k` steps back from `v` is `s`. */
  predicate MeetsOnWayBack(pred: seq<int>, v: int, k: nat, s: nat)
    requires PredOk(pred) && -1 <= v < |pred|
    decreases k
  {
    k > 0 && v != -1 && (v == s || MeetsOnWayBack(pred, pred[v], k - 1, s))
  }

  /** The walk back from `v` runs into the start vertex, and that was never relaxed. */
  predicate Lost(pred: seq<int>, n: nat, s: nat, v: nat)
    requires PredOk(pred) && s < |pred| && v < |pred|
  {
    pred[s] == -1 && MeetsOnWayBack(pred, v, n, s)
  }

  /** The walk back from `v` ends on a closed walk below -EPSILON. */
  ghost predicate LeadsToGain(g: seq<Edge>, pred: seq<int>, n: nat, v: nat)
    requires PredOk(pred) && v < |pred|
  {
    Back(pred, v, n) != -1 && ClosedBelow(g, Back(pred, v, n), -EPSILON)
  }

  /** A flagged vertex leads nowhere exactly when it is lost; otherwise it leads to a gain. */
  lemma FlaggedLeadsToGain(g: seq<Edge>, n: nat, s: nat, t: Labels, v: nat)
    requires s < n && Bounded(g, n) && t == Passes(Start(n, s), g, n - 1) && v in Flagged(g, t.dist)
    ensures PredOk(t.pred) && |t.pred| == n
    ensures Back(t.pred, v, n) == -1 <==> Lost(t.pred, n, s, v)
    ensures LeadsToGain(g, t.pred, n, v) <==> !Lost(t.pred, n, s, v)
  {
    AllPasses(g, n, s, t);
    var e :| e in g && Relaxable(t.dist, e) && e.dst == v;
    FlaggedIsLabelled(g, n, s, e);
    LabelledIsStuckAtStart(t, g, s, v, n);
    if Back(t.pred, v, n) != -1 { FoundIsGain(g, n, s, t, v); }
  }

  lemma FoundIsGain(g: seq<Edge>, n: nat, s: nat, t: Labels, v: nat)
    requires Inv(t, g, s) && PredOk(t.pred) && CyclesPay(t) && |t.pred| == n && v < n && Back(t.pred, v, n) != -1
    ensures LeadsToGain(g, t.pred, n, v)
  {
    var x := Back(t.pred, v, n);
    var d := LandsOnCycle(t.pred, v);
    BackPathIsWalk(t, g, s, x, d);
    assert BackPath(t, x, d) != [];
  }

  /** Some flagged vertex is not lost. */
  ghost predicate SomeKept(g: seq<Edge>, t: Labels, n: nat, s: nat)
    requires PredOk(t.pred) && |t.pred| == |t.dist| == n && s < n && Bounded(g, n)
  {
    exists v :: v in Flagged(g, t.dist) && !Lost(t.pred, n, s, v)
  }

  /** A closed walk of k edges within reach that weighs less than -k * EPSILON leaves a flagged
      vertex, and the scan finds a gain exactly when one of them is not lost. */
  lemma ReachableGainIsFound(g: seq<Edge>, n: nat, s: nat, t: Labels, p: seq<Edge>, x: nat, c: seq<Edge>)
    requires s < n && Bounded(g, n) && t == Passes(Start(n, s), g, n - 1)
    requires Walk(g, s, p, x) && Walk(g, x, c, x) && Weight(c) < -(|c| as real) * EPSILON
    ensures PredOk(t.pred) && |t.pred| == n && Flagged(g, t.dist) != {}
    ensures (exists v :: v in Flagged(g, t.dist) && LeadsToGain(g, t.pred, n, v)) <==> SomeKept(g, t, n, s)
    ensures t.pred[s] != -1 ==> SomeKept(g, t, n, s)
  {
    AllPasses(g, n, s, t);
    NegativeCycleIsDetected(t, g, s, p, x, c);
    var e :| e in g && Relaxable(t.dist, e);
    assert e.dst in Flagged(g, t.dist);
    forall v | v in Flagged(g, t.dist) ensures LeadsToGain(g, t.pred, n, v) <==> !Lost(t.pred, n, s, v) {
      FlaggedLeadsToGain(g, n, s, t, v);
    }
  }

  // ----- what of it is answered -----

  /** From a vertex on a predecessor cycle, the cycle listed once around. */
  lemma ListCycle(pred: seq<int>, x: nat, d: nat) returns (c: seq<nat>)
    requires PredOk(pred) && x < |pred| && d >= 1 && Back(pred, x, d) == x
    ensures IsPredCycle(pred, c) && c[0] == x
    decreases d
  {
    if i: nat, j: nat :| i < j < d && Back(pred, x, i) == Back(pred, x, j) {
      BackAdds(pred, x, i, d - j);
      BackAdds(pred, x, j, d - j);
      c := ListCycle(pred, x, i + (d - j));
    } else {
      forall i: nat | i < d ensures Back(pred, x, i) >= 0 { NeverStuck(pred, x, d, i); }
      c := seq(d, i requires 0 <= i < d => Back(pred, x, i) as nat);
      TracedIsCycle(pred, x, c);
    }
  }

  lemma KeptIsReported(g: seq<Edge>, n: nat, s: nat, t: Labels, v: nat) returns (r: ArbCycle)
    requires s < n && Bounded(g, n) && t == Passes(Start(n, s), g, n - 1) && v in Flagged(g, t.dist)
    requires TwoSided(g) && PredOk(t.pred) && |t.pred| == n && Back(t.pred, v, n) != -1
    ensures Reported(g, t.pred, Flagged(g, t.dist), r)
  {
    AllPasses(g, n, s, t);
    var x := Back(t.pred, v, n);
    var d := LandsOnCycle(t.pred, v);
    var c := ListCycle(t.pred, x, d);
    ListingIsQuoted(t, g, s, Closed(c));
    QuotesRunAlong(g, Closed(c));
    var q := Quotes(g, Closed(c));
    r := ArbCycle(c, q, Weight(q));
    assert IsReport(g, t.pred, v, r);
  }

  /** In a market quoted both ways, and but for the profit test, a scan answers something exactly
      when some flagged vertex is not lost. */
  lemma AnswersUnlessLost(g: seq<Edge>, n: nat, s: nat, profitable: real -> bool, cycles: seq<ArbCycle>, t: Labels)
    requires ScanResult(g, n, s, profitable, cycles) && t == Passes(Start(n, s), g, n - 1)
    requires TwoSided(g) && forall w: real :: profitable(w)
    ensures PredOk(t.pred) && |t.pred| == n
    ensures cycles != [] <==> SomeKept(g, t, n, s)
  {
    AllPasses(g, n, s, t);
    hide Flagged, IsReport, TwoSided, Passes;
    if cycles != [] {
      assert cycles[0] in cycles;
      ReportedIsKept(g, n, s, t, cycles[0]);
    }
    if v :| v in Flagged(g, t.dist) && !Lost(t.pred, n, s, v) {
      FlaggedLeadsToGain(g, n, s, t, v);
      var r := KeptIsReported(g, n, s, t, v);
    }
  }

  lemma ReportedIsKept(g: seq<Edge>, n: nat, s: nat, t: Labels, c: ArbCycle)
    requires s < n && Bounded(g, n) && t == Passes(Start(n, s), g, n - 1)
    requires PredOk(t.pred) && |t.pred| == n && Reported(g, t.pred, Flagged(g, t.dist), c)
    ensures SomeKept(g, t, n, s)
  {
    hide Passes;
    var v :| v in Flagged(g, t.dist) && v < n && IsReport(g, t.pred, v, c);
    FlaggedLeadsToGain(g, n, s, t, v);
  }

  /** A scan of a market quoted both ways, once for each pair, answers exactly the cycles whose
      walk in listing order passes the profit test. */
  lemma ScanAnswersListedGains(g: seq<Edge>, n: nat, s: nat, profitable: real -> bool, cycles: seq<ArbCycle>,
                               t: Labels, x: set<nat>)
    requires ScanResult(g, n, s, profitable, cycles) && t == Passes(Start(n, s), g, n - 1)
    requires TwoSided(g) && OneQuotePerPair(g)
    ensures PredOk(t.pred) && |t.pred| == |t.dist| && Bounded(g, |t.dist|)
    ensures HasVertices(cycles, x)
       <==> exists v, c, p :: ListedWalkPays(g, t, profitable, v, c, p) && Vertices(c) == x
  {
    AllPasses(g, n, s, t);
    AnsweredExactly(g, t, s, profitable, cycles, x);
  }

  /** The triangle's gain of 3 is in reach and found, and the scan answers nothing. */
  lemma TriangleIsSilent(profitable: real -> bool, cycles: seq<ArbCycle>)
    requires ScanResult(TRIANGLE, 3, 0, profitable, cycles)
    requires forall x: real :: x > 0.0 ==> !profitable(x)
    ensures ClosedBelow(TRIANGLE, 0, -2.5) && TwoSided(TRIANGLE) && NoTwoLegGain(TRIANGLE)
    ensures cycles == []
  {
    TriangleGains();
    TriangleTwoSided();
    TriangleQuotes();
    TwoSidedMarketIsSilent(TRIANGLE, 3, 0, profitable, cycles);
  }

  lemma NoReports(g: seq<Edge>, pred: seq<int>, flagged: set<nat>, cycles: seq<ArbCycle>)
    requires PredOk(pred) && AllReported(g, pred, flagged, cycles)
    requires forall c :: !Reported(g, pred, flagged, c)
    ensures cycles == []
  {
    if cycles != [] { HasMember(cycles); }
  }

  lemma HasMember(cycles: seq<ArbCycle>)
    requires cycles != []
    ensures exists c :: c in cycles
  {
    assert cycles[0] in cycles;
  }

  const TWO_WAY_GAIN: seq<Edge> := [Edge(1, 0, -1.0), Edge(0, 1, -1.0)]

  /** Two opposite quotes that both gain, the one into the start listed first: the only pass
      never relaxes the start, so its flag leads nowhere and the gain is missed. */
  lemma MissedCycle(profitable: real -> bool, cycles: seq<ArbCycle>)
    requires ScanResult(TWO_WAY_GAIN, 2, 0, profitable, cycles)
    ensures ClosedBelow(TWO_WAY_GAIN, 0, -1.5)
    ensures Flagged(TWO_WAY_GAIN, Passes(Start(2, 0), TWO_WAY_GAIN, 1).dist) == {0}
    ensures cycles == []
  {
    var g := TWO_WAY_GAIN;
    var p := [g[1], g[0]];
    assert p[..1] == [g[1]] && p[..1][..0] == [];
    assert Weight(p[..1]) == Weight(p[..1][..0]) + -1.0;
    assert p[1] in g && Walk(g, 0, p[..1], 1);
    assert Weight(p) == Weight(p[..1]) + -1.0;
    var t0 := Start(2, 0);
    var t1 := Relax(t0, g[0]);
    assert t1 == t0;
    var t2 := Relax(t1, g[1]);
    assert t2.dist == [Finite(0.0), Finite(-1.0)] && t2.pred == [-1, 0];
    assert Pass(t0, g, 1) == t1;
    assert Pass(t0, g, 2) == t2;
    assert Passes(t0, g, 1) == t2;
    var f := Flagged(g, t2.dist);
    assert g[0] in g && Relaxable(t2.dist, g[0]) && !Relaxable(t2.dist, g[1]);
    assert f == {0};
    assert Back(t2.pred, 0, 2) == -1;
    forall c ensures !Reported(g, t2.pred, f, c) {}
    NoReports(g, t2.pred, f, cycles);
  }

  const AWAY_FROM_START: seq<Edge> := [Edge(0, 1, 0.0), Edge(1, 2, -1.0), Edge(2, 1, -1.0)]

  lemma AwayPass(t: Labels, a: real, first: bool) returns (r: Labels)
    requires Sized(t, 3) && Bounded(AWAY_FROM_START, 3) && t.dist[0] == Finite(0.0) && t.pred[0] == -1 && a <= 0.0
    requires t.dist[1] == if first then Infinite else Finite(a)
    requires t.dist[2] == if first then Infinite else Finite(a + 1.0)
    requires first ==> a == 0.0
    ensures r == Pass(t, AWAY_FROM_START, 3) && Sized(r, 3)
    ensures r.dist == [Finite(0.0), Finite(a - 2.0), Finite(a - 1.0)] && r.pred == [-1, 2, 1]
  {
    var g := AWAY_FROM_START;
    var t1 := Relax(t, g[0]);
    var t2 := Relax(t1, g[1]);
    r := Relax(t2, g[2]);
    assert r.dist == [Finite(0.0), Finite(a - 2.0), Finite(a - 1.0)] && r.pred == [-1, 2, 1];
    assert Pass(t, g, 1) == t1;
    assert Pass(t, g, 2) == t2;
  }

  /** A gain that does not run through the start: the start is never relaxed, and yet the flagged
      vertex is not lost. */
  lemma KeptWithoutStart() returns (t: Labels)
    ensures Bounded(AWAY_FROM_START, 3) && t == Passes(Start(3, 0), AWAY_FROM_START, 2) && Sized(t, 3)
    ensures t.pred == [-1, 2, 1] && Flagged(AWAY_FROM_START, t.dist) >= {2}
    ensures PredOk(t.pred) && !Lost(t.pred, 3, 0, 2)
  {
    hide Pass, Relax;
    var g := AWAY_FROM_START;
    var t0 := Start(3, 0);
    assert t0.dist == [Finite(0.0), Infinite, Infinite] && t0.pred == [-1, -1, -1];
    var u := AwayPass(t0, 0.0, true);
    t := AwayPass(u, -2.0, false);
    TwoPasses(t0, g, u, t);
    assert g[1] in g && Relaxable(t.dist, g[1]);
    assert !MeetsOnWayBack(t.pred, 1, 2, 0) by { assert !MeetsOnWayBack(t.pred, 2, 1, 0); }
  }

  const REACHED_FROM_0: seq<Edge> := [Edge(0, 1, -1.0), Edge(1, 0, -1.0), Edge(0, 2, 0.0)]

  lemma ReachedPass(t: Labels, a: real, first: bool) returns (r: Labels)
    requires Sized(t, 3) && Bounded(REACHED_FROM_0, 3) && t.dist[0] == Finite(a)
    requires t.dist[1] == if first then Infinite else Finite(a + 1.0)
    requires t.dist[2] == if first then Infinite else Finite(a)
    ensures r == Pass(t, REACHED_FROM_0, 3) && Sized(r, 3)
    ensures r.dist == [Finite(a - 2.0), Finite(a - 1.0), Finite(a - 2.0)] && r.pred == [1, 0, 0]
  {
    var g := REACHED_FROM_0;
    var t1 := Relax(t, g[0]);
    var t2 := Relax(t1, g[1]);
    r := Relax(t2, g[2]);
    assert r.dist == [Finite(a - 2.0), Finite(a - 1.0), Finite(a - 2.0)] && r.pred == [1, 0, 0];
    assert Pass(t, g, 1) == t1;
    assert Pass(t, g, 2) == t2;
  }

  lemma ReachedRun() returns (t: Labels)
    ensures Bounded(REACHED_FROM_0, 3) && t == Passes(Start(3, 0), REACHED_FROM_0, 2) && Sized(t, 3)
    ensures t.pred == [1, 0, 0] && Flagged(REACHED_FROM_0, t.dist) >= {1}
  {
    hide Pass, Relax;
    var g := REACHED_FROM_0;
    var t0 := Start(3, 0);
    assert t0.dist == [Finite(0.0), Infinite, Infinite];
    var u := ReachedPass(t0, 0.0, true);
    t := ReachedPass(u, -2.0, false);
    TwoPasses(t0, g, u, t);
    assert g[0] in g && Relaxable(t.dist, g[0]);
  }

  lemma ReachedQuotes() returns (p: seq<Edge>)
    ensures Quotes(REACHED_FROM_0, Closed([0, 1])) == p && p != [] && Weight(p) == -2.0
  {
    var g, path := REACHED_FROM_0, Closed([0, 1]);
    p := [g[0], g[1]];
    assert g[0] in g && g[1] in g;
    assert FirstEdge(g, 0, 1).Some? && FirstEdge(g, 1, 0).Some?;
    hide FirstEdge, Quotes;
    assert Along(g, p, path);
    QuotesRunAlong(g, path);
    OneEach(g);
    AlongUnique(g, p, Quotes(g, path), path);
    assert p[..1][..0] == [];
    assert Weight(p[..1]) == -1.0;
  }

  lemma ReachedReport(pred: seq<int>) returns (r: ArbCycle)
    requires pred == [1, 0, 0]
    ensures PredOk(pred) && IsReport(REACHED_FROM_0, pred, 1, r) && r.total == -2.0
  {
    assert Back(pred, 1, 1) == 0;
    assert Back(pred, 0, 2) == 0;
    assert Back(pred, 1, 3) == 0;
    var p := ReachedQuotes();
    hide Quotes, Back, Weight;
    r := ArbCycle([0, 1], p, Weight(p));
    assert Closed([0, 1]) == r.vertices + [r.vertices[0]];
  }

  lemma OneEach(g: seq<Edge>)
    requires g == REACHED_FROM_0
    ensures OneQuotePerPair(g)
  {
    forall e | e in g ensures e == g[0] || e == g[1] || e == g[2] {}
  }

  /** Where a scan starts decides what it answers: from 0 the gain of 2 is answered, as without a
      start, and from 2, where no edge begins, nothing is. */
  lemma StartDecides(profitable: real -> bool, default_: seq<ArbCycle>, elsewhere: seq<ArbCycle>)
    requires profitable(-2.0)
    requires ScanResult(REACHED_FROM_0, 3, 0, profitable, default_)
    requires ScanResult(REACHED_FROM_0, 3, 2, profitable, elsewhere)
    ensures (exists c :: c in default_ && c.total == -2.0) && elsewhere == []
  {
    AnsweredFrom0(profitable, default_);
    SilentFrom2(profitable, elsewhere);
  }

  lemma AnsweredFrom0(profitable: real -> bool, cycles: seq<ArbCycle>)
    requires profitable(-2.0) && ScanResult(REACHED_FROM_0, 3, 0, profitable, cycles)
    ensures exists c :: c in cycles && c.total == -2.0
  {
    var t := ReachedRun();
    var r := ReachedReport(t.pred);
    assert Reported(REACHED_FROM_0, t.pred, Flagged(REACHED_FROM_0, t.dist), r);
  }

  lemma SilentFrom2(profitable: real -> bool, cycles: seq<ArbCycle>)
    requires ScanResult(REACHED_FROM_0, 3, 2, profitable, cycles)
    ensures cycles == []
  {
    var g, t := REACHED_FROM_0, Start(3, 2);
    assert Quiet(t, g);
    assert Passes(t, g, 0) == t;
    QuietPasses(t, g, 0, 2);
    assert Flagged(g, t.dist) == {};
    NoReports(g, t.pred, {}, cycles);
  }
}
