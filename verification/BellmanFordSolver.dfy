/** The arbitrage detector of backend/arbitrage/bellman_ford_solver.py: relaxation passes,
    detection pass, walk back along predecessors, and pricing of what it finds. */
module BellmanFordSolver {
  import opened Options
  import opened Walks
  import opened Relaxation
  import opened PredecessorGraph

  /** `vertices` in the order the walk back lists them; `edges` are the quotes looked up for it. */
  datatype ArbCycle = ArbCycle(vertices: seq<nat>, edges: seq<Edge>, total: real)

  // ----- pricing -----

  /** The first quote from `u` to `v`, as the inner search finds it. */
  function FirstEdge(g: seq<Edge>, u: nat, v: nat): (r: Option<Edge>)
    ensures r.Some? ==> r.value in g && r.value.src == u && r.value.dst == v
    ensures r.None? ==> forall e :: e in g ==> !(e.src == u && e.dst == v)
  {
    if g == [] then None
    else if g[0].src == u && g[0].dst == v then Some(g[0])
    else FirstEdge(g[1..], u, v)
  }

  lemma {:induction false} FirstEdgeIsFirst(g: seq<Edge>, u: nat, v: nat)
    requires FirstEdge(g, u, v).Some?
    ensures exists i :: 0 <= i < |g| && g[i] == FirstEdge(g, u, v).value
                        && forall j :: 0 <= j < i ==> !(g[j].src == u && g[j].dst == v)
  {
    if g[0].src == u && g[0].dst == v {
      assert g[0] == FirstEdge(g, u, v).value;
    } else {
      FirstEdgeIsFirst(g[1..], u, v);
      var i :| 0 <= i < |g[1..]| && g[1..][i] == FirstEdge(g[1..], u, v).value
               && forall j :: 0 <= j < i ==> !(g[1..][j].src == u && g[1..][j].dst == v);
      assert g[i + 1] == FirstEdge(g, u, v).value;
      forall j | 0 <= j < i + 1 ensures !(g[j].src == u && g[j].dst == v) {
        if j > 0 { assert g[1..][j - 1] == g[j]; }
      }
    }
  }

  function Lookup(g: seq<Edge>, u: nat, v: nat): seq<Edge> {
    match FirstEdge(g, u, v)
    case Some(e) => [e]
    case None => []
  }

  /** The quotes found along consecutive entries of `path`; a missing quote is skipped. */
  function Quotes(g: seq<Edge>, path: seq<nat>): seq<Edge> {
    if |path| < 2 then []
    else Quotes(g, path[..|path| - 1]) + Lookup(g, path[|path| - 2], path[|path| - 1])
  }

  /** `r` is what extraction returns for vertex `v`. */
  ghost predicate IsReport(g: seq<Edge>, pred: seq<int>, v: nat, r: ArbCycle)
    requires PredOk(pred) && v < |pred|
  {
    && Back(pred, v, |pred|) != -1
    && IsPredCycle(pred, r.vertices)
    && r.vertices[0] == Back(pred, v, |pred|)
    && r.edges == Quotes(g, r.vertices + [r.vertices[0]])
    && r.edges != []
    && r.total == Weight(r.edges)
  }

  /** Quotes exist in both directions or in neither. */
  ghost predicate TwoSided(g: seq<Edge>) {
    forall e :: e in g ==> FirstEdge(g, e.dst, e.src).Some?
  }

  /** No pair of opposite quotes gains. */
  ghost predicate NoTwoLegGain(g: seq<Edge>) {
    forall e, f :: e in g && f in g && f.src == e.dst && f.dst == e.src ==> e.weight + f.weight >= 0.0
  }

  /** No quote has an opposite. */
  ghost predicate OneSided(g: seq<Edge>) {
    forall e :: e in g ==> FirstEdge(g, e.dst, e.src).None?
  }

  /** At most one quote for each ordered pair. */
  ghost predicate OneQuotePerPair(g: seq<Edge>) {
    forall e, f :: e in g && f in g && f.src == e.src && f.dst == e.dst ==> f == e
  }

  /** The list in which a cycle is read along its edges. */
  function Reversed(c: seq<nat>): (r: seq<nat>)
    ensures |r| == |c|
    ensures forall i :: 0 <= i < |c| ==> r[i] == c[|c| - 1 - i]
  {
    if c == [] then [] else [c[|c| - 1]] + Reversed(c[..|c| - 1])
  }

  lemma ViaEdge(t: Labels, g: seq<Edge>, s: nat, v: nat) returns (e: Edge)
    requires Inv(t, g, s) && v < |t.pred| && t.pred[v] != -1
    ensures e in g && e.src == t.pred[v] && e.dst == v && e.weight == Via(t, v)
  {
    PredDrop(t, g, s, v);
    e := t.walk[v][|t.walk[v]| - 1];
  }

  /** A list of vertices each followed by its predecessor. */
  ghost predicate PredList(pred: seq<int>, path: seq<nat>) {
    && (forall i :: 0 <= i < |path| ==> path[i] < |pred|)
    && (forall i :: 0 <= i < |path| - 1 ==> pred[path[i]] == path[i + 1])
  }

  lemma {:induction false} BackwardPrice(t: Labels, g: seq<Edge>, s: nat, path: seq<nat>)
    requires Inv(t, g, s) && path != [] && PredList(t.pred, path)
    requires TwoSided(g) && NoTwoLegGain(g)
    ensures |Quotes(g, path)| == |path| - 1
    ensures Weight(Quotes(g, path)) >= -ViaSum(t, path[..|path| - 1])
  {
    var m := |path| - 1;
    if m > 0 {
      BackwardPrice(t, g, s, path[..m]);
      var u, v := path[m - 1], path[m];
      var e := ViaEdge(t, g, s, u);
      var f := FirstEdge(g, u, v).value;
      assert e.weight + f.weight >= 0.0;
      assert path[..m][..|path[..m]| - 1] == path[..m][..m - 1];
      WeightConcat(Quotes(g, path[..m]), [f]);
      assert Weight([f]) == f.weight by { assert [f][..0] == []; }
    }
  }

  /** The listed order runs against the edges: where every quote has an opposite one and no
      such pair gains, every reported total is a loss, above +EPSILON. */
  lemma ShippedPriceIsALoss(t: Labels, g: seq<Edge>, s: nat, v: nat, r: ArbCycle)
    requires Inv(t, g, s) && PredOk(t.pred) && CyclesPay(t) && v < |t.pred|
    requires TwoSided(g) && NoTwoLegGain(g) && IsReport(g, t.pred, v, r)
    ensures r.total > EPSILON
  {
    var path := r.vertices + [r.vertices[0]];
    BackwardPrice(t, g, s, path);
    assert path[..|path| - 1] == r.vertices;
    CyclePays(t, r.vertices);
  }

  lemma {:induction false} OneSidedQuotes(t: Labels, g: seq<Edge>, s: nat, path: seq<nat>)
    requires Inv(t, g, s) && PredList(t.pred, path) && OneSided(g)
    ensures Quotes(g, path) == []
  {
    var m := |path| - 1;
    if m > 0 {
      OneSidedQuotes(t, g, s, path[..m]);
      assert t.pred[path[m - 1]] == path[m];
      var e := ViaEdge(t, g, s, path[m - 1]);
      assert FirstEdge(g, e.dst, e.src).None?;
    }
  }

  /** Where no quote has an opposite one nothing is ever reported, whatever cycles exist. */
  lemma OneSidedMarketIsSilent(t: Labels, g: seq<Edge>, s: nat, v: nat, r: ArbCycle)
    requires Inv(t, g, s) && PredOk(t.pred) && v < |t.pred| && OneSided(g)
    ensures !IsReport(g, t.pred, v, r)
  {
    if IsReport(g, t.pred, v, r) {
      OneSidedQuotes(t, g, s, r.vertices + [r.vertices[0]]);
    }
  }

  lemma {:induction false} ForwardPrice(t: Labels, g: seq<Edge>, s: nat, path: seq<nat>)
    requires Inv(t, g, s) && path != [] && PredList(t.pred, path) && OneQuotePerPair(g)
    ensures Weight(Quotes(g, Reversed(path))) == ViaSum(t, path[..|path| - 1])
    ensures |Quotes(g, Reversed(path))| == |path| - 1
  {
    // peel the first listed vertex, which is the last of the reversed list
    if |path| == 1 {
      NoQuotes(g, Reversed(path));
      WeightOfNothing();
    } else {
      var rest, c := path[1..], path[..|path| - 1];
      assert c[1..] == rest[..|rest| - 1] && c[0] == path[0];
      ViaSumFront(t, c);
      hide Quotes, Weight, Reversed, ViaSum, OneQuotePerPair;
      ForwardPrice(t, g, s, rest);
      ForwardQuote(t, g, s, path, Reversed(path), Reversed(rest));
    }
  }

  lemma ForwardQuote(t: Labels, g: seq<Edge>, s: nat, path: seq<nat>, rev: seq<nat>, r: seq<nat>)
    requires Inv(t, g, s) && |path| >= 2 && PredList(t.pred, path) && OneQuotePerPair(g)
    requires rev == Reversed(path) && r == Reversed(path[1..])
    ensures Weight(Quotes(g, rev)) == Weight(Quotes(g, r)) + Via(t, path[0])
    ensures |Quotes(g, rev)| == |Quotes(g, r)| + 1
  {
    hide Quotes, Weight;
    var m := |path| - 1;
    assert rev[..m] == r && rev[m] == path[0] && r[m - 1] == path[1];
    var e := ViaEdge(t, g, s, path[0]);
    QuotesPush(g, rev, r);
    OnlyQuote(g, e);
    WeightPush(Quotes(g, r), e);
  }

  lemma OnlyQuote(g: seq<Edge>, e: Edge)
    requires e in g && OneQuotePerPair(g)
    ensures Lookup(g, e.src, e.dst) == [e]
  {
    assert FirstEdge(g, e.src, e.dst).Some?;
  }

  lemma WeightOfNothing()
    ensures Weight([]) == 0.0
  {
  }

  lemma WeightPush(p: seq<Edge>, e: Edge)
    ensures Weight(p + [e]) == Weight(p) + e.weight
  {
    assert (p + [e])[..|p|] == p;
  }

  lemma {:induction false} ViaSumFront(t: Labels, c: seq<nat>)
    requires c != [] && forall i :: 0 <= i < |c| ==> c[i] < |t.walk|
    ensures ViaSum(t, c) == Via(t, c[0]) + ViaSum(t, c[1..])
  {
    var m := |c| - 1;
    if m == 0 {
      assert c[..0] == [];
    } else {
      ViaSumFront(t, c[..m]);
      assert c[..m][1..] == c[1..][..m - 1];
    }
  }

  /** Read along its edges, with one quote per pair, the same cycle prices as the gain it is. */
  lemma ForwardPriceIsAGain(t: Labels, g: seq<Edge>, s: nat, c: seq<nat>)
    requires Inv(t, g, s) && PredOk(t.pred) && CyclesPay(t)
    requires IsPredCycle(t.pred, c) && OneQuotePerPair(g)
    ensures Weight(Quotes(g, Reversed(c + [c[0]]))) < -EPSILON
    ensures |Quotes(g, Reversed(c + [c[0]]))| == |c|
  {
    hide Quotes, Weight, Reversed, ViaSum;
    var path := c + [c[0]];
    ForwardPrice(t, g, s, path);
    assert path[..|path| - 1] == c;
    CyclePays(t, c);
  }

  /** The requested start vertex, or 0 when none or an unknown one is given. */
  function StartIndex(start: Option<nat>, n: nat): (s: nat)
    requires n > 0
    ensures s < n
  {
    if start.Some? && start.value < n then start.value else 0
  }

  /** A trace of distinct vertices that returns to its first one is a predecessor cycle. */
  lemma TracedIsCycle(pred: seq<int>, v: nat, c: seq<nat>)
    requires PredOk(pred) && v < |pred| && c != [] && forall i :: 0 <= i < |c| ==> c[i] < |pred| && c[i] == Back(pred, v, i)
    requires forall i, j :: 0 <= i < j < |c| ==> c[i] != c[j]
    requires Back(pred, v, |c|) == c[0]
    ensures IsPredCycle(pred, c)
  {
    forall i | 0 <= i < |c| ensures pred[c[i]] == Back(pred, v, i + 1) {
      BackAdds(pred, v, i, 1);
      assert Back(pred, c[i], 1) == pred[c[i]];
    }
  }

  // ----- the same cycle listed from another vertex -----

  lemma {:induction false} QuotesSplit(g: seq<Edge>, p: seq<nat>, i: nat, head: seq<nat>, tail: seq<nat>)
    requires i < |p| && head == p[..i + 1] && tail == p[i..]
    ensures Quotes(g, p) == Quotes(g, head) + Quotes(g, tail)
    decreases |p|
  {
    hide Quotes, Lookup;
    var m := |p| - 1;
    if i == m {
      assert head == p && |tail| == 1;
      NoQuotes(g, tail);
    } else {
      var q, r := p[..m], p[i..m];
      QuotesSplit(g, q, i, head, r);
      QuotesPush(g, p, q);
      QuotesPush(g, tail, r);
      Reassociate(Quotes(g, head), Quotes(g, r), Lookup(g, p[m - 1], p[m]));
    }
  }

  lemma NoQuotes(g: seq<Edge>, p: seq<nat>)
    requires |p| < 2
    ensures Quotes(g, p) == []
  {
  }

  lemma Reassociate<T>(a: seq<T>, b: seq<T>, c: seq<T>)
    ensures (a + b) + c == a + (b + c)
  {
  }

  lemma QuotesPush(g: seq<Edge>, p: seq<nat>, r: seq<nat>)
    requires |p| >= 2 && r == p[..|p| - 1]
    ensures Quotes(g, p) == Quotes(g, r) + Lookup(g, r[|r| - 1], p[|p| - 1])
  {
  }

  function Closed(c: seq<nat>): seq<nat>
    requires c != []
  {
    c + [c[0]]
  }

  lemma PriceSplit(g: seq<Edge>, p: seq<nat>, i: nat, head: seq<nat>, tail: seq<nat>)
    requires i < |p| && head == p[..i + 1] && tail == p[i..]
    ensures Weight(Quotes(g, p)) == Weight(Quotes(g, head)) + Weight(Quotes(g, tail))
  {
    QuotesSplit(g, p, i, head, tail);
    WeightConcat(Quotes(g, head), Quotes(g, tail));
  }

  lemma RotationHalves(c: seq<nat>, k: nat, p: seq<nat>, r: seq<nat>, i: nat)
    requires 0 < k < |c| && i == |c| - k && p == Closed(c) && r == Closed(c[k..] + c[..k])
    ensures r[..i + 1] == p[k..] && r[i..] == p[..k + 1]
  {
  }

  /** The price of a cycle does not depend on the vertex it is listed from. */
  lemma RotationPrice(g: seq<Edge>, c: seq<nat>, k: nat)
    requires k < |c|
    ensures Weight(Quotes(g, Closed(c[k..] + c[..k]))) == Weight(Quotes(g, Closed(c)))
  {
    if k == 0 {
      assert c[k..] + c[..k] == c;
    } else {
      var p, r, i := Closed(c), Closed(c[k..] + c[..k]), |c| - k;
      RotationHalves(c, k, p, r, i);
      PriceSplit(g, p, k, p[..k + 1], p[k..]);
      PriceSplit(g, r, i, p[k..], p[..k + 1]);
    }
  }

  lemma RotatedCycle(pred: seq<int>, c: seq<nat>, k: nat)
    requires IsPredCycle(pred, c) && k < |c|
    ensures IsPredCycle(pred, c[k..] + c[..k])
  {
    var r, i := c[k..] + c[..k], |c| - k;
    forall j | 0 <= j < |r| ensures r[j] == if j < i then c[k + j] else c[j - i] {}
  }

  ghost function Vertices(c: seq<nat>): set<nat> {
    set v | v in c
  }

  /** Two reports over the same vertices are the same cycle at the same price, so dropping
      one of them loses nothing. */
  lemma SameVerticesSamePrice(g: seq<Edge>, pred: seq<int>, u: nat, a: ArbCycle, v: nat, b: ArbCycle)
    requires PredOk(pred) && u < |pred| && v < |pred|
    requires IsReport(g, pred, u, a) && IsReport(g, pred, v, b)
    requires Vertices(a.vertices) == Vertices(b.vertices)
    ensures a.total == b.total
  {
    assert b.vertices[0] in Vertices(a.vertices);
    var k :| 0 <= k < |a.vertices| && a.vertices[k] == b.vertices[0];
    var c := a.vertices;
    var r := c[k..] + c[..k];
    RotatedCycle(pred, c, k);
    SameCycle(pred, r, b.vertices);
    RotationPrice(g, c, k);
    assert Closed(c) == a.vertices + [a.vertices[0]];
    assert Closed(r) == b.vertices + [b.vertices[0]];
  }

  // ----- what a scan answers -----

  /** Targets of the edges that are still relaxable. */
  ghost function Flagged(g: seq<Edge>, dist: seq<Distance>): (r: set<nat>)
    requires Bounded(g, |dist|)
    ensures forall v :: v in r ==> v < |dist|
  {
    set e | e in g && Relaxable(dist, e) :: e.dst
  }

  ghost predicate Reported(g: seq<Edge>, pred: seq<int>, flagged: set<nat>, c: ArbCycle)
    requires PredOk(pred)
  {
    exists v :: v in flagged && v < |pred| && IsReport(g, pred, v, c)
  }

  ghost predicate AllReported(g: seq<Edge>, pred: seq<int>, flagged: set<nat>, cycles: seq<ArbCycle>)
    requires PredOk(pred)
  {
    forall c :: c in cycles ==> Reported(g, pred, flagged, c)
  }

  ghost predicate HasVertices(cycles: seq<ArbCycle>, x: set<nat>) {
    exists c :: c in cycles && Vertices(c.vertices) == x
  }

  ghost predicate DifferentCycles(cycles: seq<ArbCycle>) {
    forall i, j :: 0 <= i < j < |cycles| ==> Vertices(cycles[i].vertices) != Vertices(cycles[j].vertices)
  }

  /** Every report of a flagged vertex has a cycle over the same vertices in the list. */
  ghost predicate Represents(g: seq<Edge>, pred: seq<int>, flagged: set<nat>, cycles: seq<ArbCycle>)
    requires PredOk(pred)
  {
    forall r :: Reported(g, pred, flagged, r) ==> HasVertices(cycles, Vertices(r.vertices))
  }

  lemma NothingCollected(g: seq<Edge>, pred: seq<int>, flagged: set<nat>)
    requires PredOk(pred)
    ensures AllReported(g, pred, flagged, []) && DifferentCycles([]) && Represents(g, pred, {}, [])
    ensures forall x :: !HasVertices([], x)
  {
  }

  lemma NoReport(g: seq<Edge>, pred: seq<int>, done: set<nat>, cycles: seq<ArbCycle>, v: nat)
    requires PredOk(pred) && v < |pred| && forall c :: !IsReport(g, pred, v, c)
    requires Represents(g, pred, done, cycles)
    ensures Represents(g, pred, done + {v}, cycles)
  {
    forall r | Reported(g, pred, done + {v}, r) ensures HasVertices(cycles, Vertices(r.vertices)) {
      assert Reported(g, pred, done, r);
    }
  }

  lemma AddReport(g: seq<Edge>, pred: seq<int>, flagged: set<nat>, done: set<nat>, cycles: seq<ArbCycle>, v: nat, c: ArbCycle)
    requires PredOk(pred) && v in flagged && v < |pred| && IsReport(g, pred, v, c)
    requires AllReported(g, pred, flagged, cycles) && Represents(g, pred, done, cycles)
    ensures AllReported(g, pred, flagged, cycles + [c]) && Represents(g, pred, done + {v}, cycles + [c])
    ensures forall x :: HasVertices(cycles + [c], x) <==> HasVertices(cycles, x) || x == Vertices(c.vertices)
  {
    assert Reported(g, pred, flagged, c);
    forall x | HasVertices(cycles, x) || x == Vertices(c.vertices) ensures HasVertices(cycles + [c], x) {
      if HasVertices(cycles, x) {
        var d :| d in cycles && Vertices(d.vertices) == x;
        assert d in cycles + [c];
      } else {
        assert c in cycles + [c];
      }
    }
    SkipReport(g, pred, done, cycles + [c], v, c);
  }

  lemma AddDifferent(cycles: seq<ArbCycle>, c: ArbCycle)
    requires DifferentCycles(cycles) && !HasVertices(cycles, Vertices(c.vertices))
    ensures DifferentCycles(cycles + [c])
  {
    forall i | 0 <= i < |cycles| ensures Vertices(cycles[i].vertices) != Vertices(c.vertices) {
      assert cycles[i] in cycles;
    }
  }

  lemma SkipReport(g: seq<Edge>, pred: seq<int>, done: set<nat>, cycles: seq<ArbCycle>, v: nat, c: ArbCycle)
    requires PredOk(pred) && v < |pred| && IsReport(g, pred, v, c)
    requires Represents(g, pred, done, cycles) && HasVertices(cycles, Vertices(c.vertices))
    ensures Represents(g, pred, done + {v}, cycles)
  {
    forall r | Reported(g, pred, done + {v}, r) ensures HasVertices(cycles, Vertices(r.vertices)) {
      if !Reported(g, pred, done, r) {
        SameCycle(pred, r.vertices, c.vertices);
      }
    }
  }

  function Filtered(cycles: seq<ArbCycle>, profitable: real -> bool): seq<ArbCycle> {
    if cycles == [] then []
    else
      var m := |cycles| - 1;
      Filtered(cycles[..m], profitable) + if profitable(cycles[m].total) then [cycles[m]] else []
  }

  /** The answer of a scan: pairwise different profitable reports of flagged vertices, and
      every profitable report of a flagged vertex is in it, up to where its listing starts. */
  ghost predicate IsAnswer(g: seq<Edge>, t: Labels, profitable: real -> bool, cycles: seq<ArbCycle>)
  {
    && PredOk(t.pred) && |t.pred| == |t.dist| && Bounded(g, |t.dist|)
    && DifferentCycles(cycles)
    && AllReported(g, t.pred, Flagged(g, t.dist), cycles)
    && (forall c :: c in cycles ==> profitable(c.total))
    && (forall r :: Reported(g, t.pred, Flagged(g, t.dist), r) && profitable(r.total) ==>
          exists c :: c in cycles && Vertices(c.vertices) == Vertices(r.vertices) && c.total == r.total)
  }

  /** What a scan from vertex `s` answers. */
  ghost predicate ScanResult(g: seq<Edge>, n: nat, s: nat, profitable: real -> bool, cycles: seq<ArbCycle>) {
    && s < n && Bounded(g, n)
    && IsAnswer(g, Passes(Start(n, s), g, n - 1), profitable, cycles)
  }

  lemma {:induction false} FilteredMembers(cycles: seq<ArbCycle>, profitable: real -> bool)
    ensures forall c :: c in Filtered(cycles, profitable) <==> c in cycles && profitable(c.total)
    ensures DifferentCycles(cycles) ==> DifferentCycles(Filtered(cycles, profitable))
  {
    if cycles != [] {
      var m := |cycles| - 1;
      FilteredMembers(cycles[..m], profitable);
      assert cycles == cycles[..m] + [cycles[m]];
    }
  }

  lemma FilteredAnswer(g: seq<Edge>, t: Labels, flagged: set<nat>, unique: seq<ArbCycle>, profitable: real -> bool)
    requires PredOk(t.pred) && |t.pred| == |t.dist| && Bounded(g, |t.dist|) && flagged == Flagged(g, t.dist)
    requires AllReported(g, t.pred, flagged, unique) && DifferentCycles(unique) && Represents(g, t.pred, flagged, unique)
    ensures IsAnswer(g, t, profitable, Filtered(unique, profitable))
  {
    FilteredMembers(unique, profitable);
    forall r | Reported(g, t.pred, flagged, r) && profitable(r.total)
      ensures exists c :: c in Filtered(unique, profitable) && Vertices(c.vertices) == Vertices(r.vertices) && c.total == r.total
    {
      var c :| c in unique && Vertices(c.vertices) == Vertices(r.vertices);
      assert Reported(g, t.pred, flagged, c);
      var u :| u in flagged && u < |t.pred| && IsReport(g, t.pred, u, c);
      var v :| v in flagged && v < |t.pred| && IsReport(g, t.pred, v, r);
      SameVerticesSamePrice(g, t.pred, u, c, v, r);
    }
  }

  // ----- the solver -----

  class BellmanFordSolver {
    var edges: seq<Edge>
    var n: nat
    var dist: array<Distance>
    var predecessor: array<int>
    var detectionCount: nat
    var totalScans: nat
    ghost var walk: seq<seq<Edge>>

    ghost predicate Valid()
      reads this
    {
      dist.Length == n && predecessor.Length == n && |walk| == n && Bounded(edges, n) && dist as object != predecessor
    }

    ghost function LabelsNow(): Labels
      reads `dist, `predecessor, `walk, dist, predecessor
    {
      Labels(dist[..], predecessor[..], walk)
    }

    constructor ()
      ensures Valid() && edges == [] && n == 0 && detectionCount == 0 && totalScans == 0
      ensures fresh(dist) && fresh(predecessor)
    {
      edges, n, walk := [], 0, [];
      dist, predecessor := new Distance[0], new int[0];
      detectionCount, totalScans := 0, 0;
    }

    /** Replace the market by quotes among the vertices 0..count. */
    method UpdateGraph(quotes: seq<Edge>, count: nat)
      requires Bounded(quotes, count)
      modifies this
      ensures Valid() && edges == quotes && n == count
      ensures fresh(dist) && fresh(predecessor)
      ensures detectionCount == old(detectionCount) && totalScans == old(totalScans)
      ensures forall v :: 0 <= v < n ==> dist[v] == Infinite && predecessor[v] == -1
    {
      edges, n := quotes, count;
      dist := new Distance[count](_ => Infinite);
      predecessor := new int[count](_ => -1);
      walk := seq(count, _ => []);
    }

    method RelaxEdge(e: Edge) returns (changed: bool)
      requires Valid() && e.src < n && e.dst < n
      modifies dist, predecessor, this`walk
      ensures Valid() && LabelsNow() == Relax(old(LabelsNow()), e)
      ensures changed == old(Relaxable(dist[..], e))
      ensures changed <==> old(dist[e.src].Finite? && (dist[e.dst].Infinite?
                             || dist[e.dst].value > dist[e.src].value + e.weight + 0.0000000001))
    {
      var u, v := e.src, e.dst;
      changed := dist[u].Finite? && (dist[v].Infinite? || dist[v].value > dist[u].value + e.weight + EPSILON);
      if changed {
        dist[v] := Finite(dist[u].value + e.weight);
        predecessor[v] := u;
        walk := walk[v := walk[u] + [e]];
      }
    }

    method Initialise(s: nat)
      requires Valid() && s < n
      modifies dist, predecessor, this`walk
      ensures Valid() && LabelsNow() == Start(n, s)
    {
      for v := 0 to n
        modifies dist, predecessor
        invariant forall x :: 0 <= x < v ==> dist[x] == Infinite && predecessor[x] == -1
      {
        dist[v], predecessor[v] := Infinite, -1;
      }
      dist[s] := Finite(0.0);
      walk := seq(n, _ => []);
    }

    method RelaxEvery() returns (updated: bool)
      requires Valid()
      modifies dist, predecessor, this`walk
      ensures Valid() && LabelsNow() == Pass(old(LabelsNow()), edges, |edges|)
      ensures !updated ==> Quiet(LabelsNow(), edges)
    {
      updated := false;
      ghost var before := LabelsNow();
      for k := 0 to |edges|
        invariant Valid() && LabelsNow() == Pass(before, edges, k)
        invariant !updated ==> LabelsNow() == before
        invariant !updated ==> forall x :: 0 <= x < k ==> !Relaxable(before.dist, edges[x])
      {
        var changed := RelaxEdge(edges[k]);
        updated := updated || changed;
      }
    }

    /** The n - 1 passes with their early exit leave the labels of all n - 1 passes. */
    method RelaxAll(s: nat)
      requires Valid() && s < n
      modifies dist, predecessor, this`walk
      ensures Valid() && LabelsNow() == Passes(Start(n, s), edges, n - 1)
    {
      Initialise(s);
      RelaxPasses(n - 1);
    }

    method RelaxPasses(last: nat)
      requires Valid()
      modifies dist, predecessor, this`walk
      ensures Valid() && LabelsNow() == Passes(old(LabelsNow()), edges, last)
    {
      ghost var t0 := LabelsNow();
      for i := 0 to last
        invariant Valid() && LabelsNow() == Passes(t0, edges, i)
      {
        var updated := RelaxEvery();
        if !updated {
          QuietRest(t0, edges, i + 1, last);
          break;
        }
      }
    }

    /** Walk back n steps, trace the cycle, look up its quotes in the listed order. */
    method ExtractCycle(start: nat) returns (r: Option<ArbCycle>)
      requires Valid() && start < n && PredOk(predecessor[..])
      ensures r.Some? ==> IsReport(edges, predecessor[..], start, r.value)
      ensures r.None? ==> forall c :: !IsReport(edges, predecessor[..], start, c)
    {
      ghost var pred := predecessor[..];
      var current: int := start;
      for i := 0 to n
        invariant 0 <= current < n && current == Back(pred, start, i)
      {
        BackAdds(pred, start, i, 1);
        assert Back(pred, current, 1) == pred[current];
        if predecessor[current] == -1 {
          BackStuck(pred, start, i + 1, n);
          return None;
        }
        current := predecessor[current];
      }
      ghost var c0: nat := current;
      ghost var d := LandsOnCycle(pred, start);
      var listed: seq<nat> := [];
      while current !in listed
        invariant 0 <= current < n && current == Back(pred, c0, |listed|)
        invariant forall i :: 0 <= i < |listed| ==> listed[i] < n && listed[i] == Back(pred, c0, i)
        invariant forall i, j :: 0 <= i < j < |listed| ==> listed[i] != listed[j]
        invariant |listed| <= n
        decreases n - |listed|
      {
        listed := listed + [current];
        DistinctFit(listed, n);
        BackAdds(pred, c0, |listed| - 1, 1);
        NeverStuck(pred, c0, d, |listed|);
        current := predecessor[current];
      }
      ghost var hit :| 0 <= hit < |listed| && listed[hit] == current;
      FirstIsHit(pred, c0, d, listed, hit);
      var cycle := listed;
      TracedIsCycle(pred, c0, cycle);
      r := Price(cycle);
      forall c | IsReport(edges, pred, start, c) ensures c.vertices == cycle {
        SameCycle(pred, c.vertices, cycle);
      }
    }

    method Detect() returns (flagged: set<nat>)
      requires Valid()
      ensures flagged == Flagged(edges, dist[..])
    {
      flagged := {};
      for k := 0 to |edges|
        invariant flagged == Flagged(edges[..k], dist[..])
      {
        var e := edges[k];
        assert edges[..k + 1] == edges[..k] + [e];
        if dist[e.src].Finite? && (dist[e.dst].Infinite? || dist[e.dst].value > dist[e.src].value + e.weight + EPSILON) {
          flagged := flagged + {e.dst};
        }
      }
      assert edges[..|edges|] == edges;
    }

    /** One report for each set of vertices that a flagged vertex leads to. */
    method Collect(flagged: set<nat>) returns (unique: seq<ArbCycle>)
      requires Valid() && PredOk(predecessor[..]) && forall v :: v in flagged ==> v < n
      ensures AllReported(edges, predecessor[..], flagged, unique)
      ensures DifferentCycles(unique)
      ensures Represents(edges, predecessor[..], flagged, unique)
    {
      unique := [];
      var seen: set<set<nat>> := {};
      var pending := flagged;
      ghost var pred := predecessor[..];
      NothingCollected(edges, pred, flagged);
      assert flagged - pending == {};
      hide AllReported, DifferentCycles, Represents, HasVertices, IsReport;
      while pending != {}
        invariant pending <= flagged
        invariant forall x :: x in seen <==> HasVertices(unique, x)
        invariant AllReported(edges, pred, flagged, unique)
        invariant DifferentCycles(unique)
        invariant Represents(edges, pred, flagged - pending, unique)
      {
        var v :| v in pending;
        var report := ExtractCycle(v);
        if report.Some? {
          var c := report.value;
          var key := set x | x in c.vertices;
          assert key == Vertices(c.vertices);
          if key !in seen {
            AddReport(edges, pred, flagged, flagged - pending, unique, v, c);
            AddDifferent(unique, c);
            seen, unique := seen + {key}, unique + [c];
          } else {
            SkipReport(edges, pred, flagged - pending, unique, v, c);
          }
        } else {
          NoReport(edges, pred, flagged - pending, unique, v);
        }
        assert flagged - (pending - {v}) == flagged - pending + {v};
        pending := pending - {v};
      }
      assert flagged - pending == flagged;
    }

    method KeepProfitable(unique: seq<ArbCycle>, profitable: real -> bool) returns (cycles: seq<ArbCycle>)
      ensures cycles == Filtered(unique, profitable)
    {
      cycles := [];
      for i := 0 to |unique|
        invariant cycles == Filtered(unique[..i], profitable)
      {
        assert unique[..i + 1][..i] == unique[..i];
        if profitable(unique[i].total) {
          cycles := cycles + [unique[i]];
        }
      }
      assert unique[..|unique|] == unique;
    }

    /** `profitable` stands for the test of exp(-total) - 1 against the minimum profit. */
    method FindArbitrageCycles(start: Option<nat>, profitable: real -> bool) returns (cycles: seq<ArbCycle>)
      requires Valid()
      modifies this`totalScans, this`detectionCount, this`walk, dist, predecessor
      ensures Valid() && totalScans == old(totalScans) + 1
      ensures detectionCount == old(detectionCount) + |cycles|
      ensures n == 0 || edges == [] ==> cycles == []
      ensures n > 0 && edges != [] ==> LabelsNow() == Passes(Start(n, StartIndex(start, n)), edges, n - 1)
      ensures n > 0 && edges != [] ==> IsAnswer(edges, LabelsNow(), profitable, cycles)
      ensures n > 0 && edges != [] && start.Some? && start.value < n ==>
        ScanResult(edges, n, start.value, profitable, cycles)
      ensures n > 0 && edges != [] && (start.None? || start.value >= n) ==> ScanResult(edges, n, 0, profitable, cycles)
    {
      totalScans := totalScans + 1;
      if n == 0 || edges == [] {
        return [];
      }
      cycles := Scan(StartIndex(start, n), profitable);
      detectionCount := detectionCount + |cycles|;
    }

    method Scan(s: nat, profitable: real -> bool) returns (cycles: seq<ArbCycle>)
      requires Valid() && s < n
      modifies `walk, dist, predecessor
      ensures Valid() && LabelsNow() == Passes(Start(n, s), edges, n - 1)
      ensures IsAnswer(edges, LabelsNow(), profitable, cycles)
    {
      RelaxAll(s);
      ghost var t := LabelsNow();
      AllPasses(edges, n, s, t);
      hide IsAnswer, AllReported, DifferentCycles, Represents, Passes, Flagged;
      var flagged := Detect();
      var unique := Collect(flagged);
      cycles := KeepProfitable(unique, profitable);
      FilteredAnswer(edges, t, flagged, unique, profitable);
    }

    method FindQuote(u: nat, v: nat) returns (r: Option<Edge>)
      ensures r == FirstEdge(edges, u, v)
      ensures r.Some? ==> exists i :: 0 <= i < |edges| && edges[i] == r.value && r.value.src == u && r.value.dst == v
                                      && forall j :: 0 <= j < i ==> !(edges[j].src == u && edges[j].dst == v)
    {
      if FirstEdge(edges, u, v).Some? { FirstEdgeIsFirst(edges, u, v); }
      for k := 0 to |edges|
        invariant FirstEdge(edges, u, v) == FirstEdge(edges[k..], u, v)
      {
        if edges[k].src == u && edges[k].dst == v {
          return Some(edges[k]);
        }
      }
      return None;
    }

    method Price(cycle: seq<nat>) returns (r: Option<ArbCycle>)
      requires cycle != []
      ensures var q := Quotes(edges, cycle + [cycle[0]]);
              r == if q == [] then None else Some(ArbCycle(cycle, q, Weight(q)))
    {
      var path := cycle + [cycle[0]];
      var found: seq<Edge>, total := [], 0.0;
      NoQuotes(edges, path[..1]);
      hide Quotes, Weight;
      WeightOfNothing();
      for i := 0 to |cycle|
        invariant found == Quotes(edges, path[..i + 1]) && total == Weight(found)
      {
        var quote := FindQuote(path[i], path[i + 1]);
        assert path[..i + 2][..i + 1] == path[..i + 1];
        QuotesPush(edges, path[..i + 2], path[..i + 1]);
        if quote.Some? {
          WeightPush(found, quote.value);
          found, total := found + [quote.value], total + quote.value.weight;
        }
      }
      assert path[..|cycle| + 1] == path;
      r := if found == [] then None else Some(ArbCycle(cycle, found, total));
    }
  }

  lemma DistinctFit(s: seq<nat>, n: nat)
    requires forall i :: 0 <= i < |s| ==> s[i] < n
    requires forall i, j :: 0 <= i < j < |s| ==> s[i] != s[j]
    ensures |s| <= n
  {
    if |s| > n { var i, j := Repeats(s, n); }
  }

  /** The walk back first repeats its own first vertex, so `cycle_vertices.index` is 0. */
  lemma FirstIsHit(pred: seq<int>, c: nat, d: nat, listed: seq<nat>, hit: nat)
    requires PredOk(pred) && c < |pred| && d >= 1 && Back(pred, c, d) == c
    requires hit < |listed| && Back(pred, c, |listed|) == listed[hit]
    requires forall i :: 0 <= i < |listed| ==> listed[i] == Back(pred, c, i)
    requires forall i, j :: 0 <= i < j < |listed| ==> listed[i] != listed[j]
    ensures hit == 0
  {
    var m := |listed|;
    assert listed[0] == c;
    if hit > 0 {
      BackAdds(pred, c, hit, d - hit);
      BackAdds(pred, c, m, d - hit);
      BackAdds(pred, c, d, m - hit);
    }
  }

  lemma {:induction false} SameCyclePrefix(pred: seq<int>, a: seq<nat>, b: seq<nat>, k: nat)
    requires IsPredCycle(pred, a) && IsPredCycle(pred, b) && a[0] == b[0] && k < |a| && k < |b|
    ensures a[k] == b[k]
  {
    if k > 0 { SameCyclePrefix(pred, a, b, k - 1); }
  }

  lemma NextIsNotFirst(pred: seq<int>, c: seq<nat>, i: nat)
    requires IsPredCycle(pred, c) && i + 1 < |c|
    ensures pred[c[i]] == c[i + 1] != c[0]
  {
  }

  lemma NotLonger(pred: seq<int>, a: seq<nat>, b: seq<nat>)
    requires IsPredCycle(pred, a) && IsPredCycle(pred, b) && a[0] == b[0]
    ensures |b| <= |a|
  {
    if |a| < |b| {
      SameCyclePrefix(pred, a, b, |a| - 1);
      NextIsNotFirst(pred, b, |a| - 1);
    }
  }

  lemma SameCycle(pred: seq<int>, a: seq<nat>, b: seq<nat>)
    requires IsPredCycle(pred, a) && IsPredCycle(pred, b) && a[0] == b[0]
    ensures a == b
  {
    NotLonger(pred, a, b);
    NotLonger(pred, b, a);
    forall k | 0 <= k < |a| ensures a[k] == b[k] { SameCyclePrefix(pred, a, b, k); }
  }
}
