/** Cumulative volume delta and footprint chart of backend/analytics/order_flow.py: two views of one
    trade stream. Rounding to the price grid is a parameter. */
module OrderFlow {
  import opened Options
  import opened Windows

  datatype TradeSide = Buy | Sell | Unknown

  datatype Tick = Tick(price: real, quantity: real, side: TradeSide)

  /** `low` is nothing while no price has been seen. */
  datatype Cell = Cell(buy: real, sell: real, count: nat, high: real, low: Option<real>)

  const EMPTY: Cell := Cell(0.0, 0.0, 0, 0.0, None)

  type Symbol = string

  // ----- the cumulative delta -----

  function Delta(t: Tick): real {
    if t.side == Buy then t.quantity else -t.quantity
  }

  function Deltas(ticks: seq<Tick>): seq<real> {
    seq(|ticks|, i requires 0 <= i < |ticks| => Delta(ticks[i]))
  }

  function Cvd(ticks: seq<Tick>): real {
    if ticks == [] then 0.0 else Cvd(ticks[..|ticks| - 1]) + Delta(ticks[|ticks| - 1])
  }

  /** Quantity traded on side `side`. */
  function Volume(ticks: seq<Tick>, side: TradeSide): real {
    if ticks == [] then 0.0
    else
      var t := ticks[|ticks| - 1];
      Volume(ticks[..|ticks| - 1], side) + if t.side == side then t.quantity else 0.0
  }

  lemma {:induction false} CvdIsNetVolume(ticks: seq<Tick>)
    ensures Cvd(ticks) == Volume(ticks, Buy) - Volume(ticks, Sell) - Volume(ticks, Unknown)
  {
    if ticks != [] { CvdIsNetVolume(ticks[..|ticks| - 1]); }
  }

  // ----- the footprint -----

  function Traded(c: Cell, t: Tick): Cell {
    Cell(c.buy + (if t.side == Buy then t.quantity else 0.0), c.sell + (if t.side == Sell then t.quantity else 0.0),
         c.count + 1, if t.price > c.high then t.price else c.high,
         Some(if c.low.Some? && c.low.value <= t.price then c.low.value else t.price))
  }

  function CellAt(cells: map<real, Cell>, p: real): Cell {
    if p in cells then cells[p] else EMPTY
  }

  function Put(cells: map<real, Cell>, t: Tick, round: real -> real): map<real, Cell> {
    cells[round(t.price) := Traded(CellAt(cells, round(t.price)), t)]
  }

  function CellsOf(ticks: seq<Tick>, round: real -> real): map<real, Cell> {
    if ticks == [] then map[] else Put(CellsOf(ticks[..|ticks| - 1], round), ticks[|ticks| - 1], round)
  }

  /** The trades that round to level `p`. */
  function AtLevel(ticks: seq<Tick>, p: real, round: real -> real): seq<Tick> {
    if ticks == [] then []
    else
      var t := ticks[|ticks| - 1];
      AtLevel(ticks[..|ticks| - 1], p, round) + if round(t.price) == p then [t] else []
  }

  /** `c` sums up the trades `ts` of its level. */
  ghost predicate Summarises(c: Cell, ts: seq<Tick>) {
    && c.buy == Volume(ts, Buy) && c.sell == Volume(ts, Sell) && c.count == |ts|
    && (forall t :: t in ts ==> c.low.Some? && c.low.value <= t.price <= c.high)
    && (ts != [] ==> c.low.Some? && exists t :: t in ts && t.price == c.low.value)
    && (c.high == 0.0 || exists t :: t in ts && t.price == c.high) && c.high >= 0.0
  }

  lemma TradedSummarises(c: Cell, ts: seq<Tick>, t: Tick)
    requires Summarises(c, ts) && (ts == [] ==> c == EMPTY)
    ensures Summarises(Traded(c, t), ts + [t])
  {
    var all, r := ts + [t], Traded(c, t);
    assert all[..|ts|] == ts && t in all;
    if c.low.Some? && c.low.value <= t.price && ts != [] {
      var u :| u in ts && u.price == c.low.value;
      assert u in all;
    }
    if c.high != 0.0 && c.high >= t.price {
      var u :| u in ts && u.price == c.high;
      assert u in all;
    }
  }

  /** The footprint is the group-by of the trades on their rounded price: a level for each rounded
      price traded, and for no other. */
  lemma {:induction false} CellsAreGroupBy(ticks: seq<Tick>, round: real -> real, p: real)
    ensures p in CellsOf(ticks, round) <==> AtLevel(ticks, p, round) != []
    ensures Summarises(CellAt(CellsOf(ticks, round), p), AtLevel(ticks, p, round))
  {
    if ticks != [] {
      var m, t := |ticks| - 1, ticks[|ticks| - 1];
      CellsAreGroupBy(ticks[..m], round, p);
      var ts := AtLevel(ticks[..m], p, round);
      if round(t.price) == p {
        TradedSummarises(CellAt(CellsOf(ticks[..m], round), p), ts, t);
      } else {
        assert ts + [] == ts;
      }
    }
  }

  function RoundedPrices(ticks: seq<Tick>, round: real -> real): set<real> {
    set t | t in ticks :: round(t.price)
  }

  /** So there are as many levels as distinct rounded prices, and a limit on levels is kept
      exactly when the trades touch no more prices than that. */
  lemma LevelCount(ticks: seq<Tick>, round: real -> real, maxLevels: nat)
    ensures CellsOf(ticks, round).Keys == RoundedPrices(ticks, round)
    ensures |CellsOf(ticks, round)| <= maxLevels <==> |RoundedPrices(ticks, round)| <= maxLevels
  {
    forall p ensures p in CellsOf(ticks, round) <==> p in RoundedPrices(ticks, round) {
      CellsAreGroupBy(ticks, round, p);
      LevelTraded(ticks, p, round);
    }
    assert |CellsOf(ticks, round)| == |CellsOf(ticks, round).Keys|;
  }

  lemma {:induction false} LevelTraded(ticks: seq<Tick>, p: real, round: real -> real)
    ensures AtLevel(ticks, p, round) != [] <==> exists t :: t in ticks && round(t.price) == p
  {
    if ticks != [] {
      var m := |ticks| - 1;
      LevelTraded(ticks[..m], p, round);
      assert ticks == ticks[..m] + [ticks[m]];
    }
  }

  /** One trade at each of the prices 1, ..., k. */
  function Ladder(k: nat): seq<Tick> {
    if k == 0 then [] else Ladder(k - 1) + [Tick(k as real, 1.0, Buy)]
  }

  function Rungs(k: nat): set<real> {
    if k == 0 then {} else Rungs(k - 1) + {k as real}
  }

  lemma {:induction false} RungCount(k: nat)
    ensures |Rungs(k)| == k && forall p :: p in Rungs(k) ==> p <= k as real
  {
    if k > 0 {
      RungCount(k - 1);
      assert k as real !in Rungs(k - 1);
    }
  }

  lemma {:induction false} LadderPrices(k: nat, round: real -> real)
    requires forall p :: p in Rungs(k) ==> round(p) == p
    ensures RoundedPrices(Ladder(k), round) == Rungs(k)
  {
    if k > 0 {
      LadderPrices(k - 1, round);
      var t := Tick(k as real, 1.0, Buy);
      assert forall u :: u in Ladder(k) <==> u in Ladder(k - 1) || u == t;
      assert round(t.price) == k as real;
    }
  }

  /** No limit is kept by every stream: on a grid that holds 1, ..., k, k trades make k levels. */
  lemma LadderLevels(k: nat, round: real -> real)
    requires forall p :: p in Rungs(k) ==> round(p) == p
    ensures |CellsOf(Ladder(k), round)| == k
  {
    LevelCount(Ladder(k), round, k);
    LadderPrices(k, round);
    RungCount(k);
    assert |CellsOf(Ladder(k), round)| == |CellsOf(Ladder(k), round).Keys|;
  }

  // ----- sums over the levels -----

  lemma NoneFar(levels: map<real, Cell>, far: seq<real>, low: real, high: real)
    requires InRange(levels, low, high) && forall p :: p in far ==> p in levels && TooFar(p, low, high)
    ensures far == []
  {
    if far != [] {
      assert far[0] in far;
      NothingTooFar(far[0], low, high);
    }
  }

  ghost function AnyOf<T>(keys: set<T>): (p: T)
    requires keys != {}
    ensures p in keys
  {
    var p :| p in keys; p
  }

  /** Sum of a figure over all cells. */
  ghost function SumCells(cells: map<real, Cell>, f: Cell -> real): real
    decreases |cells|
  {
    if cells.Keys == {} then 0.0
    else
      var p := AnyOf(cells.Keys);
      f(cells[p]) + SumCells(cells - {p}, f)
  }

  /** Any cell may be split off the sum. */
  lemma {:induction false} SumSplit(cells: map<real, Cell>, f: Cell -> real, q: real)
    requires q in cells
    ensures SumCells(cells, f) == f(cells[q]) + SumCells(cells - {q}, f)
    decreases |cells|
  {
    var p := AnyOf(cells.Keys);
    if p != q {
      SumSplit(cells - {p}, f, q);
      SumSplit(cells - {q}, f, p);
      assert cells - {p} - {q} == cells - {q} - {p};
    }
  }

  lemma SumPut(cells: map<real, Cell>, f: Cell -> real, q: real, c: Cell)
    requires f(EMPTY) == 0.0
    ensures SumCells(cells[q := c], f) == SumCells(cells, f) - f(CellAt(cells, q)) + f(c)
  {
    var r := cells[q := c];
    SumSplit(r, f, q);
    assert r - {q} == cells - {q};
    if q in cells { SumSplit(cells, f, q); } else { assert cells - {q} == cells; }
  }

  function CellDelta(c: Cell): real {
    c.buy - c.sell
  }

  function CellVolume(c: Cell): real {
    c.buy + c.sell
  }

  /** The deltas of all levels add up to the cumulative delta but for the trades of unknown side,
      which the chart leaves out and the running delta counts as sells. */
  lemma {:induction false} ViewsDifferByUnknown(ticks: seq<Tick>, round: real -> real)
    ensures SumCells(CellsOf(ticks, round), CellDelta) == Cvd(ticks) + Volume(ticks, Unknown)
  {
    if ticks != [] {
      var m, t := |ticks| - 1, ticks[|ticks| - 1];
      ViewsDifferByUnknown(ticks[..m], round);
      var cells, p := CellsOf(ticks[..m], round), round(t.price);
      SumPut(cells, CellDelta, p, Traded(CellAt(cells, p), t));
    }
  }

  /** No traded volume is lost. */
  lemma {:induction false} VolumeIsConserved(ticks: seq<Tick>, round: real -> real)
    ensures SumCells(CellsOf(ticks, round), CellVolume) == Volume(ticks, Buy) + Volume(ticks, Sell)
  {
    if ticks != [] {
      var m, t := |ticks| - 1, ticks[|ticks| - 1];
      VolumeIsConserved(ticks[..m], round);
      var cells, p := CellsOf(ticks[..m], round), round(t.price);
      SumPut(cells, CellVolume, p, Traded(CellAt(cells, p), t));
    }
  }

  /** The two views agree exactly when the trades of unknown side net to nothing. */
  lemma ViewsAgree(ticks: seq<Tick>, round: real -> real)
    ensures SumCells(CellsOf(ticks, round), CellDelta) == Cvd(ticks) <==> Volume(ticks, Unknown) == 0.0
  {
    ViewsDifferByUnknown(ticks, round);
  }

  lemma {:induction false} NoUnknownVolume(ticks: seq<Tick>)
    requires forall t :: t in ticks ==> t.side != Unknown
    ensures Volume(ticks, Unknown) == 0.0
  {
    if ticks != [] {
      assert ticks[|ticks| - 1] in ticks;
      NoUnknownVolume(ticks[..|ticks| - 1]);
    }
  }

  // ----- pruning -----

  predicate InRange(cells: map<real, Cell>, low: real, high: real) {
    low <= high && forall p :: p in cells ==> low <= p <= high
  }

  function Distance(a: real, b: real): real {
    if a > b then a - b else b - a
  }

  predicate TooFar(p: real, low: real, high: real) {
    Distance(p, high) > (high - low) * 2.0 || Distance(p, low) > (high - low) * 2.0
  }

  /** The pruning test fails for every level of the active range. */
  lemma NothingTooFar(p: real, low: real, high: real)
    requires low <= p <= high
    ensures !TooFar(p, low, high)
  {
  }

  lemma {:induction false} LeastKey(keys: set<real>) returns (p: real)
    requires keys != {}
    ensures p in keys && forall q :: q in keys ==> p <= q
    decreases |keys|
  {
    p := AnyOf(keys);
    assert forall q :: q in keys ==> q == p || q in keys - {p};
    if keys - {p} != {} {
      var q := LeastKey(keys - {p});
      if q < p { p := q; }
    }
  }

  method SortedKeys(keys: set<real>) returns (sorted: seq<real>)
    ensures forall p :: p in sorted <==> p in keys
    ensures forall i, j :: 0 <= i < j < |sorted| ==> sorted[i] < sorted[j]
  {
    sorted := [];
    var rest := keys;
    while rest != {}
      invariant forall p :: p in keys <==> p in sorted || p in rest
      invariant forall p, q :: p in sorted && q in rest ==> p < q
      invariant forall i, j :: 0 <= i < j < |sorted| ==> sorted[i] < sorted[j]
      decreases |rest|
    {
      ghost var least := LeastKey(rest);
      var p :| p in rest && forall q :: q in rest ==> p <= q;
      assert forall i :: 0 <= i < |sorted| ==> sorted[i] in sorted;
      sorted := sorted + [p];
      rest := rest - {p};
    }
  }

  /** Level `q` has volume, and none has more. */
  ghost predicate IsPoc(cells: map<real, Cell>, q: real) {
    && q in cells && CellVolume(cells[q]) > 0.0
    && forall p :: p in cells ==> CellVolume(cells[p]) <= CellVolume(cells[q])
  }

  // ----- the running objects -----

  ghost function TicksOf(ticks: map<Symbol, seq<Tick>>, symbol: Symbol): seq<Tick> {
    if symbol in ticks then ticks[symbol] else []
  }

  ghost function Logged(ticks: map<Symbol, seq<Tick>>, symbol: Symbol, t: Tick): map<Symbol, seq<Tick>> {
    ticks[symbol := TicksOf(ticks, symbol) + [t]]
  }

  ghost function Cleared(ticks: map<Symbol, seq<Tick>>, symbol: Symbol): map<Symbol, seq<Tick>> {
    if symbol in ticks then ticks[symbol := []] else ticks
  }

  /** No trade is of unknown side. */
  ghost predicate Sided(ticks: map<Symbol, seq<Tick>>) {
    forall s, t :: s in ticks && t in ticks[s] ==> t.side != Unknown
  }

  lemma LoggedSided(ticks: map<Symbol, seq<Tick>>, symbol: Symbol, t: Tick)
    requires Sided(ticks) && t.side != Unknown
    ensures Sided(Logged(ticks, symbol, t))
  {
  }

  ghost predicate TracksDelta(total: real, changes: seq<real>, ticks: seq<Tick>, windowSize: nat) {
    total == Cvd(ticks) && changes == LastOf(Deltas(ticks), windowSize)
  }

  lemma TracksDeltaNext(total: real, changes: seq<real>, ticks: seq<Tick>, windowSize: nat, t: Tick)
    requires TracksDelta(total, changes, ticks, windowSize)
    ensures TracksDelta(total + Delta(t), LastOf(changes + [Delta(t)], windowSize), ticks + [t], windowSize)
  {
    assert (ticks + [t])[..|ticks|] == ticks;
    assert Deltas(ticks + [t]) == Deltas(ticks) + [Delta(t)];
  }

  class CumulativeVolumeDelta {
    const windowSize: nat
    var cumulativeDelta: map<Symbol, real>
    var deltaChanges: map<Symbol, seq<real>>
    /** Every trade of each symbol since its last reset. */
    ghost var ticks: map<Symbol, seq<Tick>>

    ghost predicate Valid()
      reads this
    {
      && cumulativeDelta.Keys == deltaChanges.Keys == ticks.Keys
      && forall s :: s in ticks ==> TracksDelta(cumulativeDelta[s], deltaChanges[s], ticks[s], windowSize)
    }

    constructor (windowSize: nat)
      ensures Valid() && ticks == map[] && this.windowSize == windowSize
    {
      this.windowSize, cumulativeDelta, deltaChanges, ticks := windowSize, map[], map[], map[];
    }

    method AddTrade(symbol: Symbol, t: Tick) returns (r: real)
      requires Valid()
      modifies this
      ensures Valid() && ticks == Logged(old(ticks), symbol, t)
      ensures r == Cvd(ticks[symbol])
    {
      Start(symbol);
      r := Append(symbol, t);
    }

    method Start(symbol: Symbol)
      requires Valid()
      modifies this
      ensures Valid() && ticks == old(ticks)[symbol := TicksOf(old(ticks), symbol)]
    {
      if symbol !in cumulativeDelta {
        cumulativeDelta := cumulativeDelta[symbol := 0.0];
        deltaChanges := deltaChanges[symbol := []];
        ticks := ticks[symbol := []];
      }
    }

    method Append(symbol: Symbol, t: Tick) returns (r: real)
      requires Valid() && symbol in ticks
      modifies this
      ensures Valid() && ticks == old(ticks)[symbol := old(ticks)[symbol] + [t]]
      ensures r == Cvd(ticks[symbol])
    {
      var delta := if t.side == Buy then t.quantity else -t.quantity;
      var changes := LastOf(deltaChanges[symbol] + [delta], windowSize);
      r := cumulativeDelta[symbol] + delta;
      ghost var now := ticks[symbol] + [t];
      assert TracksDelta(r, changes, now, windowSize) by {
        TracksDeltaNext(cumulativeDelta[symbol], deltaChanges[symbol], ticks[symbol], windowSize, t);
      }
      cumulativeDelta := cumulativeDelta[symbol := r];
      deltaChanges := deltaChanges[symbol := changes];
      ticks := ticks[symbol := now];
    }

    method Reset(symbol: Symbol)
      requires Valid()
      modifies this
      ensures Valid() && ticks == Cleared(old(ticks), symbol)
    {
      if symbol in cumulativeDelta {
        cumulativeDelta := cumulativeDelta[symbol := 0.0];
        deltaChanges := deltaChanges[symbol := []];
        ticks := ticks[symbol := []];
      }
    }
  }

  ghost predicate TracksCells(cells: map<real, Cell>, range: (real, real), ticks: seq<Tick>, round: real -> real) {
    cells == CellsOf(ticks, round) && InRange(cells, range.0, range.1)
  }

  lemma TracksCellsNext(cells: map<real, Cell>, range: (real, real), ticks: seq<Tick>, round: real -> real, t: Tick)
    requires TracksCells(cells, range, ticks, round)
    ensures TracksCells(Put(cells, t, round), Widened(range, round(t.price)), ticks + [t], round)
  {
    assert (ticks + [t])[..|ticks|] == ticks;
  }

  lemma TracksCellsCleared(cells: map<real, Cell>, range: (real, real), ticks: seq<Tick>, round: real -> real)
    requires TracksCells(cells, range, ticks, round)
    ensures TracksCells(map[], range, [], round)
  {
  }

  function Widened(range: (real, real), p: real): (real, real) {
    (if p < range.0 then p else range.0, if p > range.1 then p else range.1)
  }

  class FootprintChart {
    const round: real -> real
    const maxLevels: nat
    var footprintData: map<Symbol, map<real, Cell>>
    var activeRanges: map<Symbol, (real, real)>
    /** Every trade of each symbol since its last reset. */
    ghost var ticks: map<Symbol, seq<Tick>>

    ghost predicate Valid()
      reads this
    {
      && footprintData.Keys == activeRanges.Keys == ticks.Keys
      && forall s :: s in ticks ==> TracksCells(footprintData[s], activeRanges[s], ticks[s], round)
    }

    constructor (round: real -> real, maxLevels: nat)
      ensures Valid() && ticks == map[] && this.round == round && this.maxLevels == maxLevels
    {
      this.round, this.maxLevels := round, maxLevels;
      footprintData, activeRanges, ticks := map[], map[], map[];
    }

    /** Whatever the limit on levels, the chart keeps a level for each rounded price traded. */
    method AddTrade(symbol: Symbol, price: real, quantity: real, side: TradeSide)
      requires Valid()
      modifies this
      ensures Valid() && ticks == Logged(old(ticks), symbol, Tick(price, quantity, side))
    {
      hide TracksCells, CellsOf;
      Start(symbol, price);
      Record(symbol, price, quantity, side);
      PruneLevels(symbol);
    }

    method Start(symbol: Symbol, price: real)
      requires Valid()
      modifies this
      ensures Valid() && ticks == old(ticks)[symbol := TicksOf(old(ticks), symbol)]
    {
      if symbol !in footprintData {
        footprintData := footprintData[symbol := map[]];
        activeRanges := activeRanges[symbol := (price, price)];
        ticks := ticks[symbol := []];
      }
    }

    method Record(symbol: Symbol, price: real, quantity: real, side: TradeSide)
      requires Valid() && symbol in footprintData
      modifies this
      ensures Valid() && ticks == old(ticks)[symbol := old(ticks)[symbol] + [Tick(price, quantity, side)]]
    {
      ghost var t := Tick(price, quantity, side);
      TracksCellsNext(footprintData[symbol], activeRanges[symbol], ticks[symbol], round, t);
      var cells := Filled(footprintData[symbol], price, quantity, side);
      footprintData := footprintData[symbol := cells];
      var p := round(price);
      var (low, high) := activeRanges[symbol];
      activeRanges := activeRanges[symbol := (if p < low then p else low, if p > high then p else high)];
      ticks := ticks[symbol := ticks[symbol] + [t]];
    }

    /** The chart with one more trade on its level. */
    method Filled(levels: map<real, Cell>, price: real, quantity: real, side: TradeSide) returns (cells: map<real, Cell>)
      ensures cells == Put(levels, Tick(price, quantity, side), round)
    {
      var p := round(price);
      var cell := if p in levels then levels[p] else EMPTY;
      if side == Buy {
        cell := cell.(buy := cell.buy + quantity);
      } else if side == Sell {
        cell := cell.(sell := cell.sell + quantity);
      }
      cell := cell.(count := cell.count + 1, high := if price > cell.high then price else cell.high,
                    low := Some(if cell.low.Some? && cell.low.value <= price then cell.low.value else price));
      cells := levels[p := cell];
    }

    /** Deletes nothing, because no level is outside the active range. */
    method PruneLevels(symbol: Symbol)
      requires Valid()
      modifies `footprintData
      ensures Valid() && footprintData == old(footprintData)
    {
      if symbol !in footprintData { return; }
      assert TracksCells(footprintData[symbol], activeRanges[symbol], ticks[symbol], round);
      var levels := footprintData[symbol];
      if |levels| <= maxLevels { return; }
      var kept := Pruned(levels, activeRanges[symbol], maxLevels);
      footprintData := footprintData[symbol := kept];
    }

    /** What deleting too distant levels leaves of too many: all of them, inside the active range. */
    static method Pruned(levels: map<real, Cell>, range: (real, real), maxLevels: nat) returns (kept: map<real, Cell>)
      requires InRange(levels, range.0, range.1) && |levels| > maxLevels
      ensures kept == levels
    {
      var sorted := SortedKeys(levels.Keys);
      var (low, high) := range;
      var toRemove := FarLevels(sorted, low, high);
      var excess := |levels| - maxLevels;
      var doomed := if |toRemove| < excess then toRemove else toRemove[..excess];
      kept := Without(levels, doomed);
      NoneFar(levels, doomed, low, high);
    }

    static method FarLevels(sorted: seq<real>, low: real, high: real) returns (far: seq<real>)
      ensures forall p :: p in far <==> p in sorted && TooFar(p, low, high)
    {
      far := [];
      for i := 0 to |sorted|
        invariant forall p :: p in far <==> p in sorted[..i] && TooFar(p, low, high)
      {
        if TooFar(sorted[i], low, high) { far := far + [sorted[i]]; }
      }
    }

    static method Without(levels: map<real, Cell>, doomed: seq<real>) returns (rest: map<real, Cell>)
      ensures rest == levels - set p | p in doomed
    {
      rest := levels;
      for i := 0 to |doomed|
        invariant rest == levels - set p | p in doomed[..i]
      {
        rest := rest - {doomed[i]};
      }
    }

    /** Empties the chart of a symbol; the active range stays. */
    method Clear(symbol: Symbol)
      requires Valid()
      modifies `footprintData, `ticks
      ensures Valid() && ticks == Cleared(old(ticks), symbol)
    {
      if symbol in footprintData {
        TracksCellsCleared(footprintData[symbol], activeRanges[symbol], ticks[symbol], round);
        footprintData := footprintData[symbol := map[]];
        ticks := ticks[symbol := []];
      }
    }

    /** The level with the largest volume, when any level has volume. */
    method GetPoc(symbol: Symbol) returns (poc: Option<real>)
      ensures symbol !in footprintData ==> poc == None
      ensures symbol in footprintData ==>
        match poc
        case None => forall p :: p in footprintData[symbol] ==> CellVolume(footprintData[symbol][p]) <= 0.0
        case Some(q) => IsPoc(footprintData[symbol], q)
    {
      poc := None;
      if symbol !in footprintData { return; }
      var cells, maxVolume := footprintData[symbol], 0.0;
      var rest := cells.Keys;
      while rest != {}
        invariant rest <= cells.Keys && maxVolume >= 0.0
        invariant forall p :: p in cells && p !in rest ==> CellVolume(cells[p]) <= maxVolume
        invariant poc.None? ==> maxVolume == 0.0
        invariant poc.Some? ==> poc.value in cells && CellVolume(cells[poc.value]) == maxVolume > 0.0
        decreases |rest|
      {
        ghost var some := AnyOf(rest);
        var p :| p in rest;
        rest := rest - {p};
        if CellVolume(cells[p]) > maxVolume {
          maxVolume := CellVolume(cells[p]);
          poc := Some(p);
        }
      }
    }
  }

  class OrderFlowEngine {
    const cvd: CumulativeVolumeDelta
    const footprint: FootprintChart

    /** Both views hold the same trades, and none of them is of unknown side. */
    ghost predicate Valid()
      reads this, cvd, footprint
    {
      cvd.Valid() && footprint.Valid() && cvd.ticks == footprint.ticks && Sided(cvd.ticks)
    }

    constructor (round: real -> real)
      ensures Valid() && fresh(cvd) && fresh(footprint) && cvd.ticks == map[]
      ensures cvd.windowSize == 10000 && footprint.maxLevels == 100 && footprint.round == round
    {
      cvd := new CumulativeVolumeDelta(10000);
      footprint := new FootprintChart(round, 100);
    }

    method ProcessTrade(symbol: Symbol, price: real, quantity: real, isBuyerMaker: bool) returns (value: real)
      requires Valid()
      modifies cvd, footprint
      ensures Valid()
      ensures cvd.ticks == Logged(old(cvd.ticks), symbol, Tick(price, quantity, if isBuyerMaker then Sell else Buy))
      ensures value == Cvd(cvd.ticks[symbol])
    {
      var side := if isBuyerMaker then Sell else Buy;
      LoggedSided(cvd.ticks, symbol, Tick(price, quantity, side));
      value := cvd.AddTrade(symbol, Tick(price, quantity, side));
      footprint.AddTrade(symbol, price, quantity, side);
    }

    method ResetSymbol(symbol: Symbol)
      requires Valid()
      modifies cvd, footprint
      ensures Valid() && cvd.ticks == Cleared(old(cvd.ticks), symbol)
    {
      cvd.Reset(symbol);
      footprint.Clear(symbol);
    }
  }

  /** In every reachable state of the engine, for each symbol: the level deltas add up to the
      running delta, and the level volumes to all that was traded since the last reset. */
  lemma EngineViewsAgree(e: OrderFlowEngine, s: Symbol)
    requires e.Valid() && s in e.cvd.ticks
    ensures s in e.footprint.footprintData && s in e.cvd.cumulativeDelta
    ensures var cells, ticks := e.footprint.footprintData[s], e.cvd.ticks[s];
            && SumCells(cells, CellDelta) == e.cvd.cumulativeDelta[s]
            && SumCells(cells, CellVolume) == Volume(ticks, Buy) + Volume(ticks, Sell)
  {
    var ticks := e.cvd.ticks[s];
    assert TracksCells(e.footprint.footprintData[s], e.footprint.activeRanges[s], ticks, e.footprint.round);
    NoUnknownVolume(ticks);
    ViewsAgree(ticks, e.footprint.round);
    VolumeIsConserved(ticks, e.footprint.round);
  }
}
