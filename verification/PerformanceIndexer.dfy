/** The time-bucket index of backend/analytics/performance_indexer.rs. */
module PerformanceIndexer {
  import opened Reals

  datatype TimeBucket = Minute1 | Minute5 | Minute15 | Hour1 | Hour4 | Day1

  function Seconds(b: TimeBucket): (s: nat)
    ensures s > 0
  {
    match b
    case Minute1 => 60
    case Minute5 => 300
    case Minute15 => 900
    case Hour1 => 3600
    case Hour4 => 14400
    case Day1 => 86400
  }

  const BILLION: nat := 1_000_000_000

  /** `k` is a multiple of `size`. */
  predicate Aligned(k: nat, size: nat)
    requires size > 0
  {
    k == 0 || (k >= size && Aligned(k - size, size))
  }

  lemma {:induction false} MultipleAligned(q: nat, size: nat)
    requires size > 0
    ensures q * size >= 0 && Aligned(q * size, size)
  {
    if q > 0 {
      MultipleAligned(q - 1, size);
      assert q * size == (q - 1) * size + size;
    }
  }

  /** Start, in seconds, of the bucket of `size` seconds that holds second `s`. */
  function AlignDown(s: nat, size: nat): (k: nat)
    requires size > 0
    ensures Aligned(k, size) && k <= s < k + size
  {
    MultipleAligned(s / size, size);
    (s / size) * size
  }

  /** Two multiples less than one size apart are the same. */
  lemma {:induction false} MultiplesApart(a: nat, b: nat, size: nat)
    requires size > 0 && Aligned(a, size) && Aligned(b, size) && a < b + size && b < a + size
    ensures a == b
    decreases a
  {
    if a >= size && b >= size { MultiplesApart(a - size, b - size, size); }
  }

  /** A second lies in one aligned interval only. */
  lemma AlignedUnique(s: nat, k: nat, size: nat)
    requires size > 0 && Aligned(k, size) && k <= s < k + size
    ensures k == AlignDown(s, size)
  {
    MultiplesApart(AlignDown(s, size), k, size);
  }

  lemma SecondsAre()
    ensures Seconds(Minute1) == 60 && Seconds(Minute5) == 300 && Seconds(Minute15) == 900
    ensures Seconds(Hour1) == 3600 && Seconds(Hour4) == 14400 && Seconds(Day1) == 86400
  {
  }

  /** The nanosecond lies in its bucket. */
  lemma BucketHolds(b: TimeBucket, timestampNs: nat)
    ensures var k := BucketKey(b, timestampNs);
            Aligned(k, Seconds(b)) && k * 1_000_000_000 <= timestampNs < (k + Seconds(b)) * 1_000_000_000
  {
    var s := timestampNs / BILLION;
    assert s * BILLION <= timestampNs < (s + 1) * BILLION;
  }

  function BucketKey(b: TimeBucket, timestampNs: nat): nat {
    AlignDown(timestampNs / BILLION, Seconds(b))
  }

  datatype Trade = Trade(quantity: real, pnl: real, durationMs: real, exitNs: nat, fees: real)

  datatype Metrics = Metrics(startNs: nat, count: nat, volume: real, pnl: real, profit: real, loss: real,
                             wins: nat, losses: nat, averageMs: real, maxDrawdown: real, cumulative: real)

  // ----- group-by on the plain trade list -----

  datatype Totals = Totals(count: nat, volume: real, pnl: real, profit: real, loss: real,
                           wins: nat, losses: nat, duration: real)

  const ZERO: Totals := Totals(0, 0.0, 0.0, 0.0, 0.0, 0, 0, 0.0)

  function Plus(a: Totals, b: Totals): Totals {
    Totals(a.count + b.count, a.volume + b.volume, a.pnl + b.pnl, a.profit + b.profit, a.loss + b.loss,
           a.wins + b.wins, a.losses + b.losses, a.duration + b.duration)
  }

  function Single(t: Trade): Totals {
    Totals(1, t.quantity, t.pnl, if t.pnl > 0.0 then t.pnl else 0.0, if t.pnl < 0.0 then -t.pnl else 0.0,
           if t.pnl > 0.0 then 1 else 0, if t.pnl < 0.0 then 1 else 0, t.durationMs)
  }

  /** The trade left in one of the seconds lo..hi. */
  predicate Within(t: Trade, lo: nat, hi: nat) {
    lo <= t.exitNs / BILLION < hi
  }

  function Tally(trades: seq<Trade>, lo: nat, hi: nat): Totals {
    if trades == [] then ZERO
    else
      var m := |trades| - 1;
      if Within(trades[m], lo, hi) then Plus(Tally(trades[..m], lo, hi), Single(trades[m]))
      else Tally(trades[..m], lo, hi)
  }

  function PnlSum(trades: seq<Trade>): real {
    if trades == [] then 0.0 else PnlSum(trades[..|trades| - 1]) + trades[|trades| - 1].pnl
  }

  /** The session's running PnL when the last trade of the interval was indexed. */
  function RunningPnl(trades: seq<Trade>, lo: nat, hi: nat): real {
    if trades == [] then 0.0
    else if Within(trades[|trades| - 1], lo, hi) then PnlSum(trades)
    else RunningPnl(trades[..|trades| - 1], lo, hi)
  }

  /** The metrics of a nonempty bucket, read off the trade list. */
  ghost predicate Matches(x: Metrics, trades: seq<Trade>, key: nat, size: nat) {
    var t := Tally(trades, key, key + size);
    && x.startNs == key * BILLION && x.maxDrawdown == 0.0
    && x.count == t.count > 0 && x.volume == t.volume && x.pnl == t.pnl
    && x.profit == t.profit && x.loss == t.loss && x.wins == t.wins && x.losses == t.losses
    && Scales(x.averageMs, x.count as real, t.duration)
    && x.cumulative == RunningPnl(trades, key, key + size)
  }

  /** The bucket map is the group-by of the trade list: a bucket for exactly the aligned
      intervals that hold a trade, with that interval's metrics. */
  ghost predicate IsGroupBy(m: map<nat, Metrics>, trades: seq<Trade>, size: nat)
    requires size > 0
  {
    && (forall k: nat {:trigger k in m} :: k in m <==> Aligned(k, size) && Tally(trades, k, k + size).count > 0)
    && (forall k: nat {:trigger k in m} :: k in m ==> Matches(m[k], trades, k, size))
  }

  // ----- one trade -----

  function Fresh(key: nat): Metrics {
    Metrics(key * BILLION, 0, 0.0, 0.0, 0.0, 0.0, 0, 0, 0.0, 0.0, 0.0)
  }

  function Added(x: Metrics, t: Trade, cumulative: real): Metrics {
    var n := x.count + 1;
    x.(count := n, volume := x.volume + t.quantity, pnl := x.pnl + t.pnl, cumulative := cumulative,
       wins := x.wins + (if t.pnl > 0.0 then 1 else 0),
       profit := x.profit + (if t.pnl > 0.0 then t.pnl else 0.0),
       losses := x.losses + (if t.pnl < 0.0 then 1 else 0),
       loss := x.loss + (if t.pnl < 0.0 then -t.pnl else 0.0),
       averageMs := x.averageMs + (t.durationMs - x.averageMs) / n as real)
  }

  function Indexed(m: map<nat, Metrics>, t: Trade, cumulative: real, size: nat): map<nat, Metrics>
    requires size > 0
  {
    var key := AlignDown(t.exitNs / BILLION, size);
    m[key := Added(if key in m then m[key] else Fresh(key), t, cumulative)]
  }

  lemma RunningMean(avg: real, n: real, d: real, sum: real)
    requires n >= 0.0 && Scales(avg, n, sum)
    ensures Scales(avg + (d - avg) / (n + 1.0), n + 1.0, sum + d)
  {
    var u := (d - avg) / (n + 1.0);
    assert u * (n + 1.0) == d - avg;
    assert (avg + u) * (n + 1.0) == avg * (n + 1.0) + u * (n + 1.0);
    assert avg * (n + 1.0) == avg * n + avg;
  }

  lemma AddedMatches(x: Metrics, trades: seq<Trade>, t: Trade, key: nat, size: nat)
    requires size > 0 && Within(t, key, key + size)
    requires Matches(x, trades, key, size) || (x == Fresh(key) && Tally(trades, key, key + size) == ZERO)
    ensures Matches(Added(x, t, PnlSum(trades + [t])), trades + [t], key, size)
  {
    assert (trades + [t])[..|trades|] == trades;
    RunningMean(x.averageMs, x.count as real, t.durationMs, Tally(trades, key, key + size).duration);
  }

  lemma {:induction false} EmptyTally(trades: seq<Trade>, lo: nat, hi: nat)
    requires Tally(trades, lo, hi).count == 0
    ensures Tally(trades, lo, hi) == ZERO
  {
    if trades != [] { EmptyTally(trades[..|trades| - 1], lo, hi); }
  }

  /** A trade changes no aligned interval but its own. */
  lemma OtherInterval(trades: seq<Trade>, t: Trade, size: nat, k: nat)
    requires size > 0 && Aligned(k, size) && k != AlignDown(t.exitNs / BILLION, size)
    ensures Tally(trades + [t], k, k + size) == Tally(trades, k, k + size)
    ensures RunningPnl(trades + [t], k, k + size) == RunningPnl(trades, k, k + size)
  {
    assert (trades + [t])[..|trades|] == trades;
    if Within(t, k, k + size) { AlignedUnique(t.exitNs / BILLION, k, size); }
  }

  /** Indexing a trade keeps the map the group-by of the list. */
  lemma IndexedIsGroupBy(m: map<nat, Metrics>, trades: seq<Trade>, t: Trade, size: nat)
    requires size > 0 && IsGroupBy(m, trades, size)
    ensures IsGroupBy(Indexed(m, t, PnlSum(trades + [t]), size), trades + [t], size)
  {
    var all, key := trades + [t], AlignDown(t.exitNs / BILLION, size);
    var r := Indexed(m, t, PnlSum(all), size);
    if key !in m { EmptyTally(trades, key, key + size); }
    AddedMatches(if key in m then m[key] else Fresh(key), trades, t, key, size);
    forall k: nat | Aligned(k, size) && k != key
      ensures k in r <==> Tally(all, k, k + size).count > 0
      ensures k in r ==> Matches(r[k], all, k, size)
    {
      OtherInterval(trades, t, size, k);
      if k in m { assert Matches(m[k], trades, k, size); }
    }
    forall k: nat | k in r ensures Aligned(k, size) {}
  }

  // ----- resolutions agree with each other -----

  lemma PlusAssociates(a: Totals, b: Totals, c: Totals)
    ensures Plus(Plus(a, b), c) == Plus(a, Plus(b, c))
  {
  }

  lemma PlusExchange(a: Totals, b: Totals, c: Totals)
    ensures Plus(Plus(a, b), c) == Plus(Plus(a, c), b)
  {
  }

  lemma PlusZero(a: Totals)
    ensures Plus(a, ZERO) == a
  {
  }

  /** `r` is the sum of `a` and `b`. */
  predicate IsSum(r: Totals, a: Totals, b: Totals) {
    r == Plus(a, b)
  }

  lemma SumsAgree(r: Totals, s: Totals, a: Totals, b: Totals, c: Totals, d: Totals)
    requires IsSum(r, a, b) && IsSum(s, c, d) && a == c && b == d
    ensures r == s
  {
  }

  function Grown(a: Totals, t: Trade, inside: bool): Totals {
    if inside then Plus(a, Single(t)) else a
  }

  lemma SumGrows(r: Totals, a: Totals, b: Totals, t: Trade, left: bool, right: bool)
    requires IsSum(r, a, b) && !(left && right)
    ensures IsSum(Grown(r, t, left || right), Grown(a, t, left), Grown(b, t, right))
  {
    var c := Single(t);
    if left { PlusExchange(a, b, c); } else if right { PlusAssociates(a, b, c); }
  }

  lemma TallyGrows(trades: seq<Trade>, lo: nat, hi: nat)
    requires trades != []
    ensures var m := |trades| - 1;
            Tally(trades, lo, hi) == Grown(Tally(trades[..m], lo, hi), trades[m], Within(trades[m], lo, hi))
  {
  }

  lemma {:induction false} TallySplit(trades: seq<Trade>, lo: nat, mid: nat, hi: nat)
    requires lo <= mid <= hi
    ensures IsSum(Tally(trades, lo, hi), Tally(trades, lo, mid), Tally(trades, mid, hi))
  {
    if trades == [] {
      PlusZero(ZERO);
    } else {
      var m := |trades| - 1;
      TallySplit(trades[..m], lo, mid, hi);
      TallyGrows(trades, lo, mid);
      TallyGrows(trades, mid, hi);
      TallyGrows(trades, lo, hi);
      SumGrows(Tally(trades[..m], lo, hi), Tally(trades[..m], lo, mid), Tally(trades[..m], mid, hi), trades[m],
               Within(trades[m], lo, mid), Within(trades[m], mid, hi));
    }
  }

  function TotalsOf(x: Metrics): Totals {
    Totals(x.count, x.volume, x.pnl, x.profit, x.loss, x.wins, x.losses, x.averageMs * x.count as real)
  }

  /** What a stored bucket says about its interval; nothing when there is no bucket. */
  function Stored(m: map<nat, Metrics>, k: nat): Totals {
    if k in m then TotalsOf(m[k]) else ZERO
  }

  lemma StoredIsTally(m: map<nat, Metrics>, trades: seq<Trade>, size: nat, k: nat)
    requires size > 0 && IsGroupBy(m, trades, size) && Aligned(k, size)
    ensures Stored(m, k) == Tally(trades, k, k + size)
  {
    if k in m {
      assert Matches(m[k], trades, k, size);
    } else {
      EmptyTally(trades, k, k + size);
    }
  }

  /** Sum of the `n` consecutive buckets from `k` on. */
  function StoredSum(m: map<nat, Metrics>, k: nat, size: nat, n: nat): Totals
    decreases n
  {
    if n == 0 then ZERO else Plus(Stored(m, k), StoredSum(m, k + size, size, n - 1))
  }

  lemma {:induction false} EmptyInterval(trades: seq<Trade>, k: nat)
    ensures Tally(trades, k, k) == ZERO
  {
    if trades != [] { EmptyInterval(trades[..|trades| - 1], k); }
  }

  /** A total per interval that adds up when intervals are joined. */
  ghost predicate Additive(tally: (nat, nat) -> Totals) {
    && (forall k :: tally(k, k) == ZERO)
    && (forall lo, mid, hi {:trigger IsSum(tally(lo, hi), tally(lo, mid), tally(mid, hi))} ::
          lo <= mid <= hi ==> IsSum(tally(lo, hi), tally(lo, mid), tally(mid, hi)))
  }

  /** Each aligned interval's total is what its bucket says. */
  ghost predicate Agrees(m: map<nat, Metrics>, tally: (nat, nat) -> Totals, size: nat)
    requires size > 0
  {
    forall k: nat {:trigger Stored(m, k)} :: Aligned(k, size) ==> Stored(m, k) == tally(k, k + size)
  }

  function Tallier(trades: seq<Trade>): (nat, nat) -> Totals {
    (lo: nat, hi: nat) => Tally(trades, lo, hi)
  }

  lemma TallierAgrees(m: map<nat, Metrics>, trades: seq<Trade>, size: nat)
    requires size > 0 && IsGroupBy(m, trades, size)
    ensures Additive(Tallier(trades)) && Agrees(m, Tallier(trades), size)
  {
    var tally := Tallier(trades);
    forall k: nat ensures tally(k, k) == ZERO { EmptyInterval(trades, k); }
    forall lo: nat, mid: nat, hi: nat | lo <= mid <= hi ensures IsSum(tally(lo, hi), tally(lo, mid), tally(mid, hi)) {
      TallySplit(trades, lo, mid, hi);
    }
    forall k: nat | Aligned(k, size) ensures Stored(m, k) == tally(k, k + size) {
      StoredIsTally(m, trades, size, k);
    }
  }

  lemma AdditiveAt(tally: (nat, nat) -> Totals, lo: nat, mid: nat, hi: nat)
    requires Additive(tally) && lo <= mid <= hi
    ensures IsSum(tally(lo, hi), tally(lo, mid), tally(mid, hi))
  {
  }

  lemma StoredSumGrows(m: map<nat, Metrics>, k: nat, size: nat, n: nat)
    requires n > 0
    ensures IsSum(StoredSum(m, k, size, n), Stored(m, k), StoredSum(m, k + size, size, n - 1))
  {
  }

  lemma StoredSumStep(m: map<nat, Metrics>, tally: (nat, nat) -> Totals, size: nat, k: nat, n: nat, end: nat)
    requires size > 0 && Additive(tally) && Agrees(m, tally, size) && Aligned(k, size) && k + size <= end && n > 0
    requires StoredSum(m, k + size, size, n - 1) == tally(k + size, end)
    ensures StoredSum(m, k, size, n) == tally(k, end)
  {
    AdditiveAt(tally, k, k + size, end);
    StoredSumGrows(m, k, size, n);
    SumsAgree(StoredSum(m, k, size, n), tally(k, end), Stored(m, k), StoredSum(m, k + size, size, n - 1),
              tally(k, k + size), tally(k + size, end));
  }

  lemma {:induction false} StoredSumAgrees(m: map<nat, Metrics>, tally: (nat, nat) -> Totals, size: nat,
                                           k: nat, n: nat, end: nat)
    requires size > 0 && Additive(tally) && Agrees(m, tally, size) && Aligned(k, size) && end == k + n * size
    ensures StoredSum(m, k, size, n) == tally(k, end)
    decreases n
  {
    if n > 0 {
      MultipleAligned(n - 1, size);
      assert n * size == size + (n - 1) * size;
      StoredSumAgrees(m, tally, size, k + size, n - 1, end);
      StoredSumStep(m, tally, size, k, n, end);
    }
  }

  /** Consecutive buckets sum to the trades of the interval they cover. */
  lemma StoredSumIsTally(m: map<nat, Metrics>, trades: seq<Trade>, size: nat, k: nat, n: nat, end: nat)
    requires size > 0 && IsGroupBy(m, trades, size) && Aligned(k, size) && end == k + n * size
    ensures StoredSum(m, k, size, n) == Tally(trades, k, end)
  {
    TallierAgrees(m, trades, size);
    StoredSumAgrees(m, Tallier(trades), size, k, n, end);
  }

  /** A coarse bucket is the sum of the fine buckets nested in it. */
  lemma CoarseIsSumOfFine(fine: map<nat, Metrics>, coarse: map<nat, Metrics>, trades: seq<Trade>,
                          size: nat, n: nat, wide: nat, k: nat)
    requires size > 0 && n > 0 && wide == n * size && Aligned(k, wide)
    requires IsGroupBy(fine, trades, size) && IsGroupBy(coarse, trades, wide)
    ensures Stored(coarse, k) == StoredSum(fine, k, size, n)
  {
    CoarserAligned(k, size, n, wide);
    StoredIsTally(coarse, trades, wide, k);
    StoredSumIsTally(fine, trades, size, k, n, k + wide);
  }

  lemma {:induction false} AlignedPlus(k: nat, size: nat, n: nat)
    requires size > 0 && Aligned(k, size)
    ensures k + n * size >= 0 && Aligned(k + n * size, size)
    decreases n
  {
    if n > 0 {
      AlignedPlus(k, size, n - 1);
      assert k + n * size == k + (n - 1) * size + size;
    }
  }

  lemma {:induction false} CoarserAligned(k: nat, size: nat, n: nat, wide: nat)
    requires size > 0 && n > 0 && wide == n * size && wide > 0 && Aligned(k, wide)
    ensures Aligned(k, size)
    decreases k
  {
    if k > 0 {
      CoarserAligned(k - wide, size, n, wide);
      AlignedPlus(k - wide, size, n);
    }
  }

  /** How many intervals of the i-th resolution make one of the next, in
      60 | 300 | 900 | 3600 | 14400 seconds. */
  function Factor(i: nat): (n: nat)
    requires i < 4
    ensures n > 1 && Seconds(RESOLUTIONS[i + 1]) == n * Seconds(RESOLUTIONS[i])
  {
    [5, 3, 4, 4][i]
  }

  // ----- range queries -----

  function AlignUp(s: nat, size: nat): (k: nat)
    requires size > 0
    ensures Aligned(k, size) && s <= k < s + size
  {
    var a := AlignDown(s, size);
    if a == s then s else a + size
  }

  /** The buckets whose start lies in first..last, in ascending order. */
  function RangeOf(m: map<nat, Metrics>, first: nat, last: int): seq<Metrics>
    decreases last - first + 1
  {
    if last < first then []
    else RangeOf(m, first, last - 1) + if last in m then [m[last]] else []
  }

  function SumOf(xs: seq<Metrics>): Totals {
    if xs == [] then ZERO else Plus(SumOf(xs[..|xs| - 1]), TotalsOf(xs[|xs| - 1]))
  }

  lemma AlignNeighbours(s: nat, size: nat)
    requires size > 0 && s > 0
    ensures AlignUp(s, size) == AlignDown(s - 1, size) + size
    ensures AlignDown(s, size) == if Aligned(s, size) then s else AlignDown(s - 1, size)
  {
    var a := AlignDown(s - 1, size);
    assert Aligned(a + size, size);
    MultiplesApart(AlignUp(s, size), a + size, size);
    if Aligned(s, size) {
      AlignedUnique(s, s, size);
    } else {
      AlignedUnique(s, a, size);
    }
  }

  lemma SumOfPush(m: map<nat, Metrics>, xs: seq<Metrics>, last: nat, all: seq<Metrics>)
    requires all == xs + if last in m then [m[last]] else []
    ensures IsSum(SumOf(all), SumOf(xs), Stored(m, last))
  {
    if last in m {
      assert all[..|xs|] == xs;
    } else {
      PlusZero(SumOf(xs));
      assert all == xs;
    }
  }

  lemma RangeGrows(m: map<nat, Metrics>, first: nat, last: nat)
    requires first <= last
    ensures RangeOf(m, first, last) == RangeOf(m, first, last - 1) + if last in m then [m[last]] else []
    ensures last !in m ==> RangeOf(m, first, last) == RangeOf(m, first, last - 1)
  {
  }

  /** The range up to `last` holds the trades from `lo` to `hi`. */
  ghost predicate Covers(m: map<nat, Metrics>, tally: (nat, nat) -> Totals, first: nat, last: int, lo: nat, hi: nat) {
    lo <= hi && SumOf(RangeOf(m, first, last)) == tally(lo, hi)
  }

  lemma CoversNothing(m: map<nat, Metrics>, tally: (nat, nat) -> Totals, first: nat, lo: nat)
    requires Additive(tally)
    ensures Covers(m, tally, first, first - 1, lo, lo)
  {
    assert tally(lo, lo) == ZERO;
  }

  /** Adding the bucket at `last`, or nothing when there is none, extends the covered interval. */
  lemma CoversMore(m: map<nat, Metrics>, tally: (nat, nat) -> Totals, size: nat, first: nat, last: nat, lo: nat)
    requires size > 0 && Additive(tally) && Agrees(m, tally, size) && Aligned(last, size) && first <= last
    requires Covers(m, tally, first, last - 1, lo, last)
    ensures Covers(m, tally, first, last, lo, last + size)
  {
    var all, xs := RangeOf(m, first, last), RangeOf(m, first, last - 1);
    RangeGrows(m, first, last);
    SumOfPush(m, xs, last, all);
    AdditiveAt(tally, lo, last, last + size);
    SumsAgree(SumOf(all), tally(lo, last + size), SumOf(xs), Stored(m, last), tally(lo, last), tally(last, last + size));
  }

  lemma CoversSame(m: map<nat, Metrics>, tally: (nat, nat) -> Totals, first: nat, last: nat, lo: nat, hi: nat)
    requires last !in m && first <= last && Covers(m, tally, first, last - 1, lo, hi)
    ensures Covers(m, tally, first, last, lo, hi)
  {
    RangeGrows(m, first, last);
  }

  lemma {:induction false} QueryAgrees(m: map<nat, Metrics>, tally: (nat, nat) -> Totals, size: nat, first: nat,
                                       last: nat, lo: nat, hi: nat)
    requires size > 0 && Additive(tally) && Agrees(m, tally, size) && first <= last
    requires forall k :: k in m ==> Aligned(k, size)
    requires lo == AlignUp(first, size) && hi == AlignDown(last, size) + size
    ensures Covers(m, tally, first, last, lo, hi)
    decreases last
  {
    if last > 0 { AlignNeighbours(last, size); }
    var before := if Aligned(last, size) then last else hi;
    if Aligned(last, size) { AlignedUnique(last, last, size); }
    if first == last {
      CoversNothing(m, tally, first, lo);
    } else {
      QueryAgrees(m, tally, size, first, last - 1, lo, before);
    }
    if Aligned(last, size) {
      CoversMore(m, tally, size, first, last, lo);
    } else {
      CoversSame(m, tally, first, last, lo, hi);
    }
  }

  /** A query answers for whole buckets: from the first bucket boundary not before its start to
      the end of the bucket its end falls in. */
  lemma QueryTotals(m: map<nat, Metrics>, trades: seq<Trade>, size: nat, first: nat, last: nat)
    requires size > 0 && IsGroupBy(m, trades, size) && first <= last
    ensures AlignUp(first, size) <= AlignDown(last, size) + size
    ensures SumOf(RangeOf(m, first, last)) == Tally(trades, AlignUp(first, size), AlignDown(last, size) + size)
  {
    TallierAgrees(m, trades, size);
    QueryAgrees(m, Tallier(trades), size, first, last, AlignUp(first, size), AlignDown(last, size) + size);
  }

  /** A query lists exactly the buckets whose start lies in its range, each once, in ascending
      order of their start. */
  ghost predicate IsRange(m: map<nat, Metrics>, first: nat, last: int, r: seq<Metrics>) {
    && (forall i, j :: 0 <= i < j < |r| ==> r[i].startNs < r[j].startNs)
    && (forall x :: x in r ==> exists k :: k in m && first <= k <= last && m[k] == x)
    && (forall k :: k in m && first <= k <= last ==> m[k] in r)
  }

  ghost predicate StampedByKey(m: map<nat, Metrics>) {
    forall k :: k in m ==> m[k].startNs == k * 1_000_000_000
  }

  lemma {:induction false} RangeIs(m: map<nat, Metrics>, first: nat, last: int)
    requires first <= last + 1 && StampedByKey(m)
    ensures IsRange(m, first, last, RangeOf(m, first, last))
    decreases last - first + 1
  {
    if first <= last {
      hide RangeOf;
      RangeIs(m, first, last - 1);
      RangeGrows(m, first, last);
      RangePush(m, first, last, RangeOf(m, first, last - 1), RangeOf(m, first, last));
    }
  }

  lemma RangePush(m: map<nat, Metrics>, first: nat, last: nat, before: seq<Metrics>, r: seq<Metrics>)
    requires first <= last && StampedByKey(m) && IsRange(m, first, last - 1, before)
    requires r == before + if last in m then [m[last]] else []
    ensures IsRange(m, first, last, r)
  {
    forall i | 0 <= i < |before| ensures before[i].startNs < last * 1_000_000_000 {
      assert before[i] in before;
      var k :| k in m && first <= k <= last - 1 && m[k] == before[i];
    }
    forall k | k in m && first <= k <= last ensures m[k] in r {
      if k < last { assert m[k] in before; }
    }
  }

  // ----- what a tally adds up -----

  function SumBy(trades: seq<Trade>, f: Trade -> real): real {
    if trades == [] then 0.0 else f(trades[0]) + SumBy(trades[1..], f)
  }

  lemma {:induction false} SumByPush(trades: seq<Trade>, f: Trade -> real, t: Trade)
    ensures SumBy(trades + [t], f) == SumBy(trades, f) + f(t)
  {
    if trades == [] {
      assert ([] + [t])[1..] == [];
    } else {
      assert (trades + [t])[1..] == trades[1..] + [t];
      SumByPush(trades[1..], f, t);
    }
  }

  function Quantity(t: Trade): real { t.quantity }

  function Pnl(t: Trade): real { t.pnl }

  function Duration(t: Trade): real { t.durationMs }

  function Won(t: Trade): real { if t.pnl > 0.0 then t.pnl else 0.0 }

  function Lost(t: Trade): real { if t.pnl < 0.0 then -t.pnl else 0.0 }

  /** The totals of `inside`, each a sum of its own. */
  ghost predicate AreTotals(t: Totals, inside: seq<Trade>) {
    && t.count == |inside| && t.volume == SumBy(inside, Quantity) && t.pnl == SumBy(inside, Pnl)
    && t.duration == SumBy(inside, Duration) && t.profit == SumBy(inside, Won) && t.loss == SumBy(inside, Lost)
    && t.wins == |Filtered(inside, Wins)| && t.losses == |Filtered(inside, Loses)|
  }

  /** The trades left in one of the seconds lo..hi, in order. */
  function Inside(trades: seq<Trade>, lo: nat, hi: nat): seq<Trade> {
    if trades == [] then []
    else
      var t := trades[|trades| - 1];
      Inside(trades[..|trades| - 1], lo, hi)
      + if lo * 1_000_000_000 <= t.exitNs < hi * 1_000_000_000 then [t] else []
  }

  lemma {:induction false} TallyIs(trades: seq<Trade>, lo: nat, hi: nat)
    ensures AreTotals(Tally(trades, lo, hi), Inside(trades, lo, hi))
  {
    hide SumBy, Plus, Single, Filtered, AreTotals;
    if trades != [] {
      var m := |trades| - 1;
      var t := trades[m];
      TallyIs(trades[..m], lo, hi);
      WithinNs(t, lo, hi);
      var inside := Inside(trades[..m], lo, hi);
      if Within(t, lo, hi) { OneMoreTotal(Tally(trades[..m], lo, hi), inside, t); } else { assert inside + [] == inside; }
    } else {
      NoTotals();
    }
  }

  lemma NoTotals()
    ensures AreTotals(ZERO, [])
  {
  }

  lemma WithinNs(t: Trade, lo: nat, hi: nat)
    ensures Within(t, lo, hi) <==> lo * 1_000_000_000 <= t.exitNs < hi * 1_000_000_000
  {
    var s := t.exitNs / BILLION;
    assert s * BILLION <= t.exitNs < (s + 1) * BILLION;
  }

  lemma OneMoreTotal(a: Totals, inside: seq<Trade>, t: Trade)
    requires AreTotals(a, inside)
    ensures AreTotals(Plus(a, Single(t)), inside + [t])
  {
    SumByPush(inside, Quantity, t);
    SumByPush(inside, Pnl, t);
    SumByPush(inside, Duration, t);
    SumByPush(inside, Won, t);
    SumByPush(inside, Lost, t);
    assert (inside + [t])[..|inside|] == inside;
    FilteredGrows(inside + [t], Wins);
    FilteredGrows(inside + [t], Loses);
  }

  // ----- the index object -----

  const RESOLUTIONS: seq<TimeBucket> := [Minute1, Minute5, Minute15, Hour1, Hour4]

  function Level(buckets: map<TimeBucket, map<nat, Metrics>>, b: TimeBucket): map<nat, Metrics> {
    if b in buckets then buckets[b] else map[]
  }

  /** The curve is the prefix sums of the trade list. */
  ghost predicate IsCurve(curve: seq<(nat, real)>, trades: seq<Trade>) {
    |curve| == |trades| && forall i :: 0 <= i < |trades| ==> curve[i] == (trades[i].exitNs, PnlSum(trades[..i + 1]))
  }

  lemma CurveGrows(curve: seq<(nat, real)>, before: seq<Trade>, t: Trade, sum: real)
    requires IsCurve(curve, before) && sum == PnlSum(before) + t.pnl
    ensures PnlSum(before + [t]) == sum && IsCurve(curve + [(t.exitNs, sum)], before + [t])
  {
    var trades, after := before + [t], curve + [(t.exitNs, sum)];
    assert trades[..|before|] == before && trades[..|trades|] == trades;
    forall i | 0 <= i < |trades| ensures after[i] == (trades[i].exitNs, PnlSum(trades[..i + 1])) {
      if i < |before| { assert trades[..i + 1] == before[..i + 1]; }
    }
  }

  lemma LevelReplaced(buckets: map<TimeBucket, map<nat, Metrics>>, b: TimeBucket, level: map<nat, Metrics>)
    ensures forall c :: Level(buckets[b := level], c) == if c == b then level else Level(buckets, c)
  {
    forall c ensures Level(buckets[b := level], c) == if c == b then level else Level(buckets, c) {
      assert c == b || (c in buckets[b := level] <==> c in buckets);
    }
  }

  class PerformanceIndexer {
    var buckets: map<TimeBucket, map<nat, Metrics>>
    var trades: seq<Trade>
    var pnlCurve: seq<(nat, real)>
    var currentCumulativePnl: real

    /** Every resolution is the group-by of the same list, days are not indexed, and the curve is
        the list's prefix sums. */
    ghost predicate Valid()
      reads this
    {
      && (forall b :: b in RESOLUTIONS ==> IsGroupBy(Level(buckets, b), trades, Seconds(b)))
      && Level(buckets, Day1) == map[]
      && currentCumulativePnl == PnlSum(trades)
      && IsCurve(pnlCurve, trades)
    }

    constructor ()
      ensures Valid() && trades == []
    {
      buckets, trades, pnlCurve, currentCumulativePnl := map[], [], [], 0.0;
    }

    method IndexTrade(t: Trade)
      requires Valid()
      modifies this
      ensures Valid() && trades == old(trades) + [t]
    {
      hide Indexed, IsGroupBy, IsCurve, PnlSum;
      CurveGrows(pnlCurve, trades, t, currentCumulativePnl + t.pnl);
      trades := trades + [t];
      currentCumulativePnl := currentCumulativePnl + t.pnl;
      pnlCurve := pnlCurve + [(t.exitNs, currentCumulativePnl)];
      UpdateBuckets(t);
      forall b | b in RESOLUTIONS ensures IsGroupBy(Level(buckets, b), trades, Seconds(b)) {
        IndexedIsGroupBy(Level(old(buckets), b), old(trades), t, Seconds(b));
      }
    }

    method UpdateLevel(level: map<nat, Metrics>, b: TimeBucket, t: Trade) returns (r: map<nat, Metrics>)
      ensures r == Indexed(level, t, currentCumulativePnl, Seconds(b))
    {
      var key := BucketKey(b, t.exitNs);
      var entry := if key in level then level[key] else Fresh(key);
      r := level[key := Added(entry, t, currentCumulativePnl)];
    }

    method UpdateBuckets(t: Trade)
      modifies `buckets
      ensures forall b :: b in RESOLUTIONS ==>
        Level(buckets, b) == Indexed(Level(old(buckets), b), t, currentCumulativePnl, Seconds(b))
      ensures forall b :: b !in RESOLUTIONS ==> Level(buckets, b) == Level(old(buckets), b)
    {
      hide Indexed, Level;
      for i := 0 to |RESOLUTIONS|
        invariant forall b :: b in RESOLUTIONS[..i] ==>
          Level(buckets, b) == Indexed(Level(old(buckets), b), t, currentCumulativePnl, Seconds(b))
        invariant forall b :: b !in RESOLUTIONS[..i] ==> Level(buckets, b) == Level(old(buckets), b)
      {
        var b := RESOLUTIONS[i];
        var level := UpdateLevel(Level(buckets, b), b, t);
        LevelReplaced(buckets, b, level);
        assert b !in RESOLUTIONS[..i];
        buckets := buckets[b := level];
      }
    }

    method GetBucketMetrics(b: TimeBucket, startNs: nat, endNs: nat) returns (r: seq<Metrics>)
      requires b in buckets ==> startNs / BILLION <= endNs / BILLION  // an inverted range panics
      ensures r == RangeOf(Level(buckets, b), startNs / BILLION, endNs / BILLION)
    {
      var level := Level(buckets, b);
      r := [];
      if endNs / BILLION < startNs / BILLION { return; }
      for k := startNs / BILLION to endNs / BILLION + 1
        invariant r == RangeOf(level, startNs / BILLION, k - 1)
      {
        if k in level { r := r + [level[k]]; }
      }
    }
  }

  // ----- session statistics -----

  function Filtered(trades: seq<Trade>, keep: Trade -> bool): seq<Trade> {
    if trades == [] then []
    else Filtered(trades[..|trades| - 1], keep) + if keep(trades[|trades| - 1]) then [trades[|trades| - 1]] else []
  }

  function AbsPnlSum(trades: seq<Trade>): real {
    if trades == [] then 0.0
    else
      var p := trades[|trades| - 1].pnl;
      AbsPnlSum(trades[..|trades| - 1]) + if p < 0.0 then -p else p
  }

  predicate Wins(t: Trade) { t.pnl > 0.0 }

  predicate Loses(t: Trade) { t.pnl < 0.0 }

  datatype SessionStats = SessionStats(total: nat, winning: nat, losing: nat, pnl: real, profit: real, loss: real,
                                       averagePnl: real)

  /** The statistics are read off the trade list, a pass for each figure. */
  function StatsOf(trades: seq<Trade>): SessionStats {
    if trades == [] then SessionStats(0, 0, 0, 0.0, 0.0, 0.0, 0.0)
    else
      SessionStats(|trades|, |Filtered(trades, Wins)|, |Filtered(trades, Loses)|, PnlSum(trades),
                   PnlSum(Filtered(trades, Wins)), AbsPnlSum(Filtered(trades, Loses)), PnlSum(trades) / |trades| as real)
  }

  lemma FilteredGrows(trades: seq<Trade>, keep: Trade -> bool)
    requires trades != []
    ensures var r, t := Filtered(trades[..|trades| - 1], keep), trades[|trades| - 1];
            && |Filtered(trades, keep)| == |r| + (if keep(t) then 1 else 0)
            && PnlSum(Filtered(trades, keep)) == PnlSum(r) + (if keep(t) then t.pnl else 0.0)
            && AbsPnlSum(Filtered(trades, keep)) == AbsPnlSum(r) + (if keep(t) then if t.pnl < 0.0 then -t.pnl else t.pnl else 0.0)
  {
    var r, t := Filtered(trades[..|trades| - 1], keep), trades[|trades| - 1];
    if keep(t) { assert (r + [t])[..|r|] == r; } else { assert r + [] == r; }
  }

  /** An interval that holds every trade has the session's figures. */
  lemma {:induction false} SessionTotals(trades: seq<Trade>, hi: nat)
    requires forall t :: t in trades ==> t.exitNs / BILLION < hi
    ensures var t := Tally(trades, 0, hi);
            && t.count == |trades| && t.pnl == PnlSum(trades) == t.profit - t.loss
            && t.wins == |Filtered(trades, Wins)| && t.losses == |Filtered(trades, Loses)|
            && t.profit == PnlSum(Filtered(trades, Wins)) && t.loss == AbsPnlSum(Filtered(trades, Loses))
  {
    if trades != [] {
      var m := |trades| - 1;
      SessionTotals(trades[..m], hi);
      assert trades[m] in trades;
      FilteredGrows(trades, Wins);
      FilteredGrows(trades, Loses);
    }
  }

  /** Any resolution's buckets, added up past the last trade, give the session statistics, and the
      net result is what was won less what was lost. */
  lemma SessionAgreesWithBuckets(m: map<nat, Metrics>, trades: seq<Trade>, size: nat, n: nat, end: nat)
    requires size > 0 && IsGroupBy(m, trades, size) && end == n * size
    requires forall t :: t in trades ==> t.exitNs / BILLION < end
    ensures var t, s := StoredSum(m, 0, size, n), StatsOf(trades);
            && t.count == s.total && t.wins == s.winning && t.losses == s.losing
            && t.pnl == s.pnl == s.profit - s.loss && t.profit == s.profit && t.loss == s.loss
  {
    StoredSumIsTally(m, trades, size, 0, n, end);
    SessionTotals(trades, end);
  }

  /** The win and loss counts leave room for break-even trades only. */
  lemma StatsConsistent(trades: seq<Trade>)
    ensures var s := StatsOf(trades);
            && s.winning + s.losing <= s.total && s.profit >= 0.0 && s.loss >= 0.0
            && (s.winning == 0 <==> s.profit == 0.0) && (s.losing == 0 <==> s.loss == 0.0)
            && Scales(s.averagePnl, s.total as real, s.pnl)
  {
    FilteredSigns(trades);
    if trades != [] { assert |trades| as real > 0.0; }
  }

  lemma {:induction false} FilteredSigns(trades: seq<Trade>)
    ensures var w, l := Filtered(trades, Wins), Filtered(trades, Loses);
            && |w| + |l| <= |trades| && PnlSum(w) >= 0.0 && AbsPnlSum(l) >= 0.0
            && (w == [] <==> PnlSum(w) == 0.0) && (l == [] <==> AbsPnlSum(l) == 0.0)
  {
    if trades != [] {
      FilteredSigns(trades[..|trades| - 1]);
      FilteredGrows(trades, Wins);
      FilteredGrows(trades, Loses);
    }
  }
}
