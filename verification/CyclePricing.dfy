/** When backend/arbitrage/bellman_ford_solver.py prices the cycle it has found, and when it
    prices another one: the listing follows predecessors, so its quotes run against the edges. */
module CyclePricing {
  import opened Walks
  import opened Relaxation
  import opened PredecessorGraph
  import opened BellmanFordSolver

  /** `p` runs through the vertices of `path` in that order. */
  ghost predicate Along(g: seq<Edge>, p: seq<Edge>, path: seq<nat>) {
    && |path| == |p| + 1
    && forall i :: 0 <= i < |p| ==> p[i] in g && p[i].src == path[i] && p[i].dst == path[i + 1]
  }

  lemma {:induction false} AlongIsWalk(g: seq<Edge>, p: seq<Edge>, path: seq<nat>)
    requires Along(g, p, path)
    ensures Walk(g, path[0], p, path[|p|])
  {
    if p != [] { AlongIsWalk(g, p[..|p| - 1], path[..|p|]); }
  }

  /** With one quote per pair a list of vertices is run through in one way at most. */
  lemma AlongUnique(g: seq<Edge>, p: seq<Edge>, q: seq<Edge>, path: seq<nat>)
    requires Along(g, p, path) && Along(g, q, path) && OneQuotePerPair(g)
    ensures p == q
  {
    assert |p| == |q|;
    forall i | 0 <= i < |p| ensures p[i] == q[i] {
      var e, f := p[i], q[i];
      assert e.dst == path[i + 1] && f.dst == path[i + 1];
      assert e in g && f in g && f.src == e.src && f.dst == e.dst;
    }
  }

  /** A quote exists for every step of `path`. */
  ghost predicate Quoted(g: seq<Edge>, path: seq<nat>) {
    forall i :: 0 <= i < |path| - 1 ==> FirstEdge(g, path[i], path[i + 1]).Some?
  }

  lemma {:induction false} QuotesRunAlong(g: seq<Edge>, path: seq<nat>)
    requires path != [] && Quoted(g, path)
    ensures Along(g, Quotes(g, path), path)
  {
    var m := |path| - 1;
    if m > 0 {
      QuotesRunAlong(g, path[..m]);
      QuotesPush(g, path, path[..m]);
      assert FirstEdge(g, path[m - 1], path[m]).Some?;
    }
  }

  lemma ListingIsQuoted(t: Labels, g: seq<Edge>, s: nat, path: seq<nat>)
    requires Inv(t, g, s) && TwoSided(g) && PredList(t.pred, path)
    ensures Quoted(g, path)
  {
    forall i | 0 <= i < |path| - 1 ensures FirstEdge(g, path[i], path[i + 1]).Some? {
      assert t.pred[path[i]] == path[i + 1];
      var e := ViaEdge(t, g, s, path[i]);
    }
  }

  /** Quoted both ways, a report is a closed walk of the market, run in the order of the
      listing, and its total is that walk's weight. */
  lemma ReportIsListedWalk(t: Labels, g: seq<Edge>, s: nat, v: nat, r: ArbCycle)
    requires Inv(t, g, s) && PredOk(t.pred) && v < |t.pred| && TwoSided(g) && IsReport(g, t.pred, v, r)
    ensures Along(g, r.edges, Closed(r.vertices)) && Walk(g, r.vertices[0], r.edges, r.vertices[0])
    ensures r.total == Weight(r.edges)
  {
    var path := Closed(r.vertices);
    ListingIsQuoted(t, g, s, path);
    QuotesRunAlong(g, path);
    AlongIsWalk(g, r.edges, path);
  }

  /** The cycle that relaxation left, read along its edges, weighs what its relaxations sum to. */
  lemma EdgeOrderWeight(t: Labels, g: seq<Edge>, s: nat, c: seq<nat>, q: seq<Edge>)
    requires Inv(t, g, s) && IsPredCycle(t.pred, c) && OneQuotePerPair(g)
    requires Along(g, q, Reversed(Closed(c)))
    ensures Weight(q) == ViaSum(t, c)
  {
    var path := Closed(c);
    var rev := Reversed(path);
    forall i | 0 <= i < |rev| - 1 ensures FirstEdge(g, rev[i], rev[i + 1]).Some? {
      assert q[i] in g;
    }
    QuotesRunAlong(g, rev);
    AlongUnique(g, q, Quotes(g, rev), rev);
    ForwardPrice(t, g, s, path);
    assert path[..|path| - 1] == c;
  }

  /** With `p` the cycle in listing order and `q` the same cycle along its edges: the report
      shows the weight of `p`, and that is the found gain exactly when both weigh the same. */
  lemma PricedRightExactly(t: Labels, g: seq<Edge>, s: nat, v: nat, r: ArbCycle, p: seq<Edge>, q: seq<Edge>)
    requires Inv(t, g, s) && PredOk(t.pred) && v < |t.pred| && IsReport(g, t.pred, v, r)
    requires TwoSided(g) && OneQuotePerPair(g)
    requires Along(g, p, Closed(r.vertices)) && Along(g, q, Reversed(Closed(r.vertices)))
    ensures r.edges == p && r.total == Weight(p)
    ensures r.total == ViaSum(t, r.vertices) <==> Weight(p) == Weight(q)
  {
    ReportIsListedWalk(t, g, s, v, r);
    AlongUnique(g, p, r.edges, Closed(r.vertices));
    EdgeOrderWeight(t, g, s, r.vertices, q);
  }

  /** Cycles of one or two vertices read the same both ways, so they are always priced right. */
  lemma ShortCyclePricedRight(t: Labels, g: seq<Edge>, s: nat, v: nat, r: ArbCycle)
    requires Inv(t, g, s) && PredOk(t.pred) && CyclesPay(t) && v < |t.pred| && IsReport(g, t.pred, v, r)
    requires TwoSided(g) && OneQuotePerPair(g) && |r.vertices| <= 2
    ensures r.total == ViaSum(t, r.vertices) < -EPSILON
  {
    var path := Closed(r.vertices);
    ReportIsListedWalk(t, g, s, v, r);
    assert Reversed(path) == path;
    EdgeOrderWeight(t, g, s, r.vertices, r.edges);
    CyclePays(t, r.vertices);
  }

  /** Flagged vertex `v` leads to the cycle `c`, and `p`, its walk in listing order, pays. */
  ghost predicate ListedWalkPays(g: seq<Edge>, t: Labels, profitable: real -> bool, v: nat, c: seq<nat>, p: seq<Edge>)
    requires PredOk(t.pred) && |t.pred| == |t.dist| && Bounded(g, |t.dist|)
  {
    && v in Flagged(g, t.dist) && Back(t.pred, v, |t.pred|) != -1
    && IsPredCycle(t.pred, c) && c[0] == Back(t.pred, v, |t.pred|)
    && Along(g, p, Closed(c)) && profitable(Weight(p))
  }

  /** A set of vertices is answered exactly when a flagged vertex leads to a cycle over them
      whose walk in listing order passes the profit test. */
  lemma AnsweredExactly(g: seq<Edge>, t: Labels, s: nat, profitable: real -> bool, cycles: seq<ArbCycle>, x: set<nat>)
    requires Inv(t, g, s) && IsAnswer(g, t, profitable, cycles)
    requires TwoSided(g) && OneQuotePerPair(g)
    ensures HasVertices(cycles, x)
       <==> exists v, c, p :: ListedWalkPays(g, t, profitable, v, c, p) && Vertices(c) == x
  {
    if HasVertices(cycles, x) {
      var r :| r in cycles && Vertices(r.vertices) == x;
      assert Reported(g, t.pred, Flagged(g, t.dist), r);
      var v :| v in Flagged(g, t.dist) && v < |t.pred| && IsReport(g, t.pred, v, r);
      ReportIsListedWalk(t, g, s, v, r);
      assert ListedWalkPays(g, t, profitable, v, r.vertices, r.edges);
    }
    if v, c, p :| ListedWalkPays(g, t, profitable, v, c, p) && Vertices(c) == x {
      var r := ReportOf(t, g, s, v, c, p);
      assert Reported(g, t.pred, Flagged(g, t.dist), r);
    }
  }

  lemma ReportOf(t: Labels, g: seq<Edge>, s: nat, v: nat, c: seq<nat>, p: seq<Edge>) returns (r: ArbCycle)
    requires Inv(t, g, s) && PredOk(t.pred) && v < |t.pred| && Back(t.pred, v, |t.pred|) != -1
    requires TwoSided(g) && OneQuotePerPair(g)
    requires IsPredCycle(t.pred, c) && c[0] == Back(t.pred, v, |t.pred|) && Along(g, p, Closed(c))
    ensures IsReport(g, t.pred, v, r) && r.vertices == c && r.total == Weight(p)
  {
    ListingIsQuoted(t, g, s, Closed(c));
    QuotesRunAlong(g, Closed(c));
    AlongUnique(g, p, Quotes(g, Closed(c)), Closed(c));
    r := ArbCycle(c, p, Weight(p));
  }

  /** A triangle that gains 3 along 0, 1, 2, quoted with the opposite sign the other way. */
  const TRIANGLE: seq<Edge> :=
    [Edge(0, 1, -1.0), Edge(1, 2, -1.0), Edge(2, 0, -1.0), Edge(1, 0, 1.0), Edge(2, 1, 1.0), Edge(0, 2, 1.0)]

  /** The edge from i to its neighbour: the gaining one to i + 1, the losing one to i + 2. */
  function Quote(i: nat, weight: real): Edge {
    Edge(i, if weight < 0.0 then (i + 1) % 3 else (i + 2) % 3, weight)
  }

  lemma TriangleEdges(e: Edge)
    ensures e in TRIANGLE <==> e.src < 3 && (e.weight == 1.0 || e.weight == -1.0) && e == Quote(e.src, e.weight)
  {
    var g := TRIANGLE;
    assert g[0] in g && g[1] in g && g[2] in g && g[3] in g && g[4] in g && g[5] in g;
  }

  lemma TriangleTwoSided()
    ensures TwoSided(TRIANGLE)
  {
    hide FirstEdge;
    var g := TRIANGLE;
    forall e | e in g ensures FirstEdge(g, e.dst, e.src).Some? {
      TriangleEdges(e);
      var f := Edge(e.dst, e.src, -e.weight);
      TriangleEdges(f);
      assert f in g && f.src == e.dst && f.dst == e.src;
    }
  }

  lemma TriangleQuotes()
    ensures NoTwoLegGain(TRIANGLE) && OneQuotePerPair(TRIANGLE) && Bounded(TRIANGLE, 3)
  {
    forall e | e in TRIANGLE ensures e.src < 3 && e.dst < 3 { TriangleEdges(e); }
    forall e, f | e in TRIANGLE && f in TRIANGLE
      ensures f.src == e.dst && f.dst == e.src ==> e.weight + f.weight >= 0.0
      ensures f.src == e.src && f.dst == e.dst ==> f == e
    {
      TriangleEdges(e);
      TriangleEdges(f);
    }
  }

  lemma TriangleGains()
    ensures ClosedBelow(TRIANGLE, 0, -2.5)
  {
    var p := [Quote(0, -1.0), Quote(1, -1.0), Quote(2, -1.0)];
    forall i | 0 <= i < 3 ensures p[i] in TRIANGLE { TriangleEdges(p[i]); }
    assert Along(TRIANGLE, p, [0, 1, 2, 0]);
    AlongIsWalk(TRIANGLE, p, [0, 1, 2, 0]);
    ThreeEdges(p);
  }

  lemma ThreeEdges(p: seq<Edge>)
    requires |p| == 3
    ensures Weight(p) == p[0].weight + p[1].weight + p[2].weight
  {
    assert p[..2][..1] == p[..1] && p[..1][..0] == [];
    assert Weight(p[..2]) == Weight(p[..1]) + p[1].weight;
  }

  lemma TriangleRun() returns (t: Labels)
    ensures Sized(Start(3, 0), 3) && Bounded(TRIANGLE, 3) && t == Passes(Start(3, 0), TRIANGLE, 2)
    ensures Sized(t, 3) && t.pred == [2, 0, 1] && Flagged(TRIANGLE, t.dist) >= {1}
  {
    hide Pass, Relax;
    TriangleQuotes();
    var t0 := Start(3, 0);
    assert t0.dist == [Finite(0.0), Infinite, Infinite];
    var u := TrianglePass(t0, 0.0, true);
    t := TrianglePass(u, -3.0, false);
    TwoPasses(t0, TRIANGLE, u, t);
    var e := Quote(0, -1.0);
    TriangleEdges(e);
    assert Relaxable(t.dist, e);
  }

  lemma TwoPasses(t: Labels, g: seq<Edge>, u: Labels, v: Labels)
    requires |t.dist| == |t.pred| == |t.walk| && Bounded(g, |t.dist|)
    requires u == Pass(t, g, |g|) && v == Pass(u, g, |g|)
    ensures v == Passes(t, g, 2)
  {
    assert Passes(t, g, 1) == u;
  }

  /** A pass lowers the labels to a - 1, a - 2, a - 3, where `a` is the label of the start. */
  lemma TrianglePass(t: Labels, a: real, first: bool) returns (r: Labels)
    requires Sized(t, 3) && Bounded(TRIANGLE, 3) && t.dist[0] == Finite(a)
    requires t.dist[1] == if first then Infinite else Finite(a + 2.0)
    requires t.dist[2] == if first then Infinite else Finite(a + 1.0)
    ensures r == Pass(t, TRIANGLE, 6) && Sized(r, 3)
    ensures r.dist == [Finite(a - 3.0), Finite(a - 1.0), Finite(a - 2.0)] && r.pred == [2, 0, 1]
  {
    var g := TRIANGLE;
    var t1 := Relax(t, g[0]);
    var t2 := Relax(t1, g[1]);
    var t3 := Relax(t2, g[2]);
    assert t3.dist == [Finite(a - 3.0), Finite(a - 1.0), Finite(a - 2.0)] && t3.pred == [2, 0, 1];
    assert Pass(t, g, 1) == t1;
    assert Pass(t, g, 2) == t2;
    assert Pass(t, g, 3) == t3;
    assert Pass(t, g, 4) == t3;
    assert Pass(t, g, 5) == t3;
    r := t3;
  }

  lemma TriangleWalks() returns (p: seq<Edge>, q: seq<Edge>)
    ensures Along(TRIANGLE, p, Closed([1, 0, 2])) && Weight(p) == 3.0
    ensures Along(TRIANGLE, q, Reversed(Closed([1, 0, 2]))) && Weight(q) == -3.0
  {
    p, q := [Quote(1, 1.0), Quote(0, 1.0), Quote(2, 1.0)], [Quote(1, -1.0), Quote(2, -1.0), Quote(0, -1.0)];
    forall i | 0 <= i < 3 ensures p[i] in TRIANGLE && q[i] in TRIANGLE { TriangleEdges(p[i]); TriangleEdges(q[i]); }
    ThreeEdges(p);
    ThreeEdges(q);
  }

  lemma TriangleBack(pred: seq<int>)
    requires pred == [2, 0, 1]
    ensures Back(pred, 1, 3) == 1 && IsPredCycle(pred, [1, 0, 2])
  {
    assert Back(pred, 2, 1) == 1;
    assert Back(pred, 0, 2) == 1;
  }

  /** The scan of the triangle finds the cycle that gains 3 and shows it as a loss of 3. */
  lemma GainShownAsLoss() returns (t: Labels, r: ArbCycle)
    ensures t == Passes(Start(3, 0), TRIANGLE, 2) && PredOk(t.pred) && |t.pred| == 3 && |t.walk| == 3
    ensures Bounded(TRIANGLE, |t.dist|) && Reported(TRIANGLE, t.pred, Flagged(TRIANGLE, t.dist), r)
    ensures r.vertices == [1, 0, 2] && ViaSum(t, r.vertices) == -3.0 && r.total == 3.0
  {
    hide Quotes, Weight, ViaSum, Back, Passes, Pass, IsPredCycle, Along, Reversed;
    var g, c := TRIANGLE, [1, 0, 2];
    TriangleTwoSided();
    TriangleQuotes();
    t := TriangleRun();
    AllPasses(g, 3, 0, t);
    TriangleBack(t.pred);
    var p, q := TriangleWalks();
    r := ReportOf(t, g, 0, 1, c, p);
    EdgeOrderWeight(t, g, 0, c, q);
  }
}
