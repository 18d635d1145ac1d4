/** The multi-leg trade lifecycle of backend/arbitrage/legging_risk_shield.rs. */
module LeggingRiskShield {
  import opened Options
  import opened Vectors

  datatype LegStatus = Pending | Submitted | PartiallyFilled | Filled | Cancelled | Failed | Expired

  datatype Leg = Leg(legId: nat, arbId: nat, quantity: real, status: LegStatus, fillPrice: Option<real>,
                     fillQuantity: real, submittedNs: nat, filledNs: Option<nat>)

  datatype ArbTrade = ArbTrade(arbId: nat, legs: seq<Leg>, isComplete: bool, isAborted: bool)

  datatype LegAction = Continue | AbortTrade | CompleteTrade

  const MAX_LEG_EXECUTION_MS: nat := 500
  const NS_PER_MS: nat := 1_000_000
  const TIMEOUT_NS: nat := 501_000_000
  const U64: nat := 0x1_0000_0000_0000_0000
  const FILL_TOLERANCE: real := 0.00000001

  // ----- predicates on legs -----

  predicate IsFilled(leg: Leg) {
    leg.status == Filled && Abs(leg.fillQuantity - leg.quantity) < FILL_TOLERANCE
  }

  predicate HasFailed(leg: Leg) {
    leg.status == Failed || leg.status == Expired
  }

  /** Milliseconds since submission; a stamp later than the clock wraps around. */
  function ElapsedMs(leg: Leg, nowNs: nat): nat {
    if leg.submittedNs == 0 then 0 else (nowNs - leg.submittedNs) % U64 / NS_PER_MS
  }

  predicate TimedOut(leg: Leg, nowNs: nat) {
    ElapsedMs(leg, nowNs) > MAX_LEG_EXECUTION_MS
  }

  predicate AllFilled(legs: seq<Leg>) {
    forall leg :: leg in legs ==> IsFilled(leg)
  }

  function FilledCount(legs: seq<Leg>): (n: nat)
    ensures n <= |legs| && (n == |legs| <==> AllFilled(legs))
  {
    if legs == [] then 0
    else
      var rest, last := legs[..|legs| - 1], legs[|legs| - 1];
      assert legs == rest + [last];
      FilledCount(rest) + if IsFilled(last) then 1 else 0
  }

  // ----- the verdict on a trade -----

  predicate ShouldAbort(legs: seq<Leg>, nowNs: nat) {
    if exists leg :: leg in legs && HasFailed(leg) then true
    else if exists leg :: leg in legs && TimedOut(leg, nowNs) then true
    else 0 < FilledCount(legs) < |legs| && exists leg :: leg in legs && !IsFilled(leg) && TimedOut(leg, nowNs)
  }

  function Verdict(legs: seq<Leg>, nowNs: nat): LegAction {
    if ShouldAbort(legs, nowNs) then AbortTrade else if AllFilled(legs) then CompleteTrade else Continue
  }

  /** No leg is stamped in the clock's future, or so long ago that the difference wraps. */
  predicate StampedBy(legs: seq<Leg>, nowNs: nat) {
    forall leg :: leg in legs ==> leg.submittedNs <= nowNs < leg.submittedNs + U64
  }

  /** The leg's time is up. */
  predicate Overdue(leg: Leg, nowNs: nat) {
    leg.submittedNs != 0 && nowNs >= leg.submittedNs + 501_000_000
  }

  lemma TimedOutIsOverdue(leg: Leg, nowNs: nat)
    requires leg.submittedNs <= nowNs < leg.submittedNs + U64
    ensures TimedOut(leg, nowNs) <==> Overdue(leg, nowNs)
  {
    if leg.submittedNs != 0 {
      var d := nowNs - leg.submittedNs;
      assert d % U64 == d;
      assert d / NS_PER_MS > MAX_LEG_EXECUTION_MS <==> d >= TIMEOUT_NS;
    }
  }

  /** A trade is to be aborted exactly when a leg has failed, has expired or reads as timed out:
      the partial-fill clause adds nothing, and a filled leg is no exception. With stamps in the
      clock's past, reading as timed out means being overdue. */
  lemma AbortMeans(legs: seq<Leg>, nowNs: nat)
    ensures ShouldAbort(legs, nowNs) <==> exists leg :: leg in legs && (HasFailed(leg) || TimedOut(leg, nowNs))
    ensures StampedBy(legs, nowNs) ==>
              (ShouldAbort(legs, nowNs) <==>
                 exists leg :: leg in legs && (leg.status == Failed || leg.status == Expired || Overdue(leg, nowNs)))
  {
    forall leg | leg in legs && StampedBy(legs, nowNs) ensures TimedOut(leg, nowNs) <==> Overdue(leg, nowNs) {
      TimedOutIsOverdue(leg, nowNs);
    }
  }

  /** A trade whose legs are all filled may complete only until its earliest submission is overdue. */
  lemma FilledTradeExpires(legs: seq<Leg>, nowNs: nat)
    requires AllFilled(legs) && StampedBy(legs, nowNs)
    ensures Verdict(legs, nowNs) == CompleteTrade <==> forall leg :: leg in legs ==> !Overdue(leg, nowNs)
    ensures Verdict(legs, nowNs) != Continue
  {
    AbortMeans(legs, nowNs);
    forall leg | leg in legs ensures !HasFailed(leg) { assert IsFilled(leg); }
  }

  /** A leg stamped ahead of the clock reads as timed out at once. */
  lemma FutureStampAborts(legs: seq<Leg>, leg: Leg, nowNs: nat)
    requires leg in legs && nowNs < leg.submittedNs <= nowNs + U64 - TIMEOUT_NS
    ensures ShouldAbort(legs, nowNs)
  {
    var d := nowNs - leg.submittedNs;
    assert d % U64 == d + U64;
    assert (d + U64) / NS_PER_MS > MAX_LEG_EXECUTION_MS;
    assert TimedOut(leg, nowNs);
  }

  /** Otherwise a trade is complete exactly when every leg is reported filled and its quantity
      matches to less than 1e-8. */
  lemma CompleteMeans(legs: seq<Leg>, nowNs: nat)
    ensures Verdict(legs, nowNs) == CompleteTrade <==>
              && !ShouldAbort(legs, nowNs)
              && forall leg :: leg in legs ==>
                   leg.status == Filled && Abs(leg.fillQuantity - leg.quantity) < 0.00000001
  {
  }

  // ----- what a report does -----

  /** The legs after `legId` has been reported: the first leg of that identifier has what was
      reported, and a fill stamp of now if that is a fill. */
  ghost predicate LegReported(before: seq<Leg>, after: seq<Leg>, legId: nat, status: LegStatus, price: Option<real>,
                              quantity: real, nowNs: nat) {
    && |after| == |before|
    && exists i :: 0 <= i < |before| && before[i].legId == legId && (forall j :: 0 <= j < i ==> before[j].legId != legId)
         && IsReportOf(before[i], after[i], status, price, quantity, nowNs)
         && forall j :: 0 <= j < |before| && j != i ==> after[j] == before[j]
  }

  predicate IsReportOf(was: Leg, now: Leg, status: LegStatus, price: Option<real>, quantity: real, nowNs: nat) {
    && now.status == status && now.fillPrice == price && now.fillQuantity == quantity
    && now.filledNs == (if status == Filled then Some(nowNs) else was.filledNs)
    && now.legId == was.legId && now.arbId == was.arbId
    && now.quantity == was.quantity && now.submittedNs == was.submittedNs
  }

  /** A report of failure or expiry is answered with an abort. */
  lemma FailureReportAborts(before: seq<Leg>, after: seq<Leg>, legId: nat, status: LegStatus, price: Option<real>,
                            quantity: real, nowNs: nat)
    requires LegReported(before, after, legId, status, price, quantity, nowNs) && (status == Failed || status == Expired)
    ensures Verdict(after, nowNs) == AbortTrade
  {
    var i :| 0 <= i < |before| && IsReportOf(before[i], after[i], status, price, quantity, nowNs);
    assert IsReportOf(before[i], after[i], status, price, quantity, nowNs);
    assert after[i].status == status && after[i] in after;
    FailedLegAborts(after, after[i], nowNs);
  }

  lemma FailedLegAborts(legs: seq<Leg>, leg: Leg, nowNs: nat)
    requires leg in legs && (leg.status == Failed || leg.status == Expired)
    ensures ShouldAbort(legs, nowNs) && Verdict(legs, nowNs) == AbortTrade
  {
    assert HasFailed(leg);
  }

  /** A full fill of the last open leg completes the trade, if no leg reads as timed out. */
  lemma LastFillCompletes(before: seq<Leg>, after: seq<Leg>, legId: nat, i: nat, price: Option<real>, quantity: real,
                          nowNs: nat)
    requires LegReported(before, after, legId, Filled, price, quantity, nowNs)
    requires i < |before| && before[i].legId == legId && forall j :: 0 <= j < i ==> before[j].legId != legId
    requires Abs(quantity - before[i].quantity) < 0.00000001
    requires forall j :: 0 <= j < |before| && j != i ==> IsFilled(before[j])
    requires forall j :: 0 <= j < |before| ==> !TimedOut(before[j], nowNs)
    ensures Verdict(after, nowNs) == CompleteTrade
  {
    forall leg | leg in after ensures IsFilled(leg) && !TimedOut(leg, nowNs) {
      var j :| 0 <= j < |after| && after[j] == leg;
      if j != i { assert after[j] == before[j]; }
    }
    AbortMeans(after, nowNs);
  }

  // ----- how long a verdict to abort stands -----


  /** Stamps a clock of 64 bits can give, none so far ahead that its age wraps to almost nothing. */
  predicate Readable(legs: seq<Leg>, nowNs: nat) {
    forall leg :: leg in legs ==>
      leg.submittedNs < 18_446_744_073_709_551_616 && leg.submittedNs <= nowNs + U64 - TIMEOUT_NS
  }

  /** From now on a submitted leg reads as timed out until the clock reaches its stamp, and again
      once its time is up. */
  lemma TimedOutWhen(leg: Leg, nowNs: nat, t: nat)
    requires leg.submittedNs < U64 && leg.submittedNs <= nowNs + U64 - TIMEOUT_NS && nowNs <= t < U64
    ensures TimedOut(leg, t) <==> leg.submittedNs != 0 && (t < leg.submittedNs || t >= leg.submittedNs + TIMEOUT_NS)
  {
    if leg.submittedNs != 0 {
      var d := t - leg.submittedNs;
      if d < 0 {
        assert d % U64 == d + U64;
        assert (d + U64) / NS_PER_MS > MAX_LEG_EXECUTION_MS;
      } else {
        TimedOutIsOverdue(leg, t);
      }
    }
  }

  /** One leg's time is up before another one's stamp is reached. */
  predicate Bridged(legs: seq<Leg>) {
    exists a, b :: a in legs && b in legs && a.submittedNs != 0 && a.submittedNs + TIMEOUT_NS <= b.submittedNs
  }

  /** Some leg has failed or run out of time for good. */
  predicate Doomed(legs: seq<Leg>, nowNs: nat) {
    exists leg :: leg in legs && (HasFailed(leg) || Overdue(leg, nowNs))
  }

  /** The leg with the latest stamp. */
  lemma {:induction false} LatestLeg(legs: seq<Leg>) returns (last: Leg)
    requires legs != []
    ensures last in legs && forall leg :: leg in legs ==> leg.submittedNs <= last.submittedNs
  {
    var m := |legs| - 1;
    assert legs == legs[..m] + [legs[m]];
    last := legs[m];
    if m > 0 {
      var rest := LatestLeg(legs[..m]);
      if rest.submittedNs > last.submittedNs { last := rest; }
    }
  }

  lemma DoomStands(legs: seq<Leg>, nowNs: nat, t: nat)
    requires Readable(legs, nowNs) && nowNs <= t < U64 && (Doomed(legs, nowNs) || Bridged(legs))
    ensures ShouldAbort(legs, t)
  {
    AbortMeans(legs, t);
    if Doomed(legs, nowNs) {
      var leg :| leg in legs && (HasFailed(leg) || Overdue(leg, nowNs));
      TimedOutWhen(leg, nowNs, t);
    } else {
      var a, b :| a in legs && b in legs && a.submittedNs != 0 && a.submittedNs + TIMEOUT_NS <= b.submittedNs;
      TimedOutWhen(a, nowNs, t);
      TimedOutWhen(b, nowNs, t);
    }
  }

  /** Otherwise a verdict to abort rests on stamps ahead of the clock, and falls when the clock
      reaches the latest of them. */
  lemma FutureStampRevokes(legs: seq<Leg>, nowNs: nat) returns (t: nat)
    requires nowNs < U64 && Readable(legs, nowNs) && ShouldAbort(legs, nowNs)
    requires !Doomed(legs, nowNs) && !Bridged(legs)
    ensures nowNs < t < U64 && !ShouldAbort(legs, t)
    ensures exists leg :: leg in legs && leg.submittedNs == t
  {
    AbortMeans(legs, nowNs);
    var ahead :| ahead in legs && (HasFailed(ahead) || TimedOut(ahead, nowNs));
    TimedOutWhen(ahead, nowNs, nowNs);
    var last := LatestLeg(legs);
    t := last.submittedNs;
    AbortMeans(legs, t);
    forall leg | leg in legs ensures !HasFailed(leg) && !TimedOut(leg, t) { TimedOutWhen(leg, nowNs, t); }
  }

  /** With the legs unchanged, a verdict to abort stands for as long as the clock can show exactly
      when a leg has failed, a leg is overdue, or one leg's time runs out before another leg's
      stamp is reached. */
  lemma AbortStands(legs: seq<Leg>, nowNs: nat)
    requires nowNs < U64 && Readable(legs, nowNs) && ShouldAbort(legs, nowNs)
    ensures (forall t :: nowNs <= t < U64 ==> ShouldAbort(legs, t)) <==> Doomed(legs, nowNs) || Bridged(legs)
  {
    if Doomed(legs, nowNs) || Bridged(legs) {
      forall t | nowNs <= t < U64 ensures ShouldAbort(legs, t) { DoomStands(legs, nowNs, t); }
    } else {
      var t := FutureStampRevokes(legs, nowNs);
    }
  }

  /** With no stamp ahead of the clock it always stands. */
  lemma PastStampsStand(legs: seq<Leg>, nowNs: nat, laterNs: nat)
    requires nowNs <= laterNs && StampedBy(legs, nowNs) && StampedBy(legs, laterNs)
    requires ShouldAbort(legs, nowNs)
    ensures ShouldAbort(legs, laterNs)
  {
    AbortMeans(legs, nowNs);
    AbortMeans(legs, laterNs);
  }

  // ----- one clock reading for each question -----

  /** The j-th leg asked reads the clock for the (i + j)-th time. */
  predicate OutInTurn(legs: seq<Leg>, clock: nat -> nat, i: nat) {
    exists j :: 0 <= j < |legs| && TimedOut(legs[j], clock(i + j))
  }

  /** The unfilled legs, asked in turn. */
  predicate StuckInTurn(legs: seq<Leg>, clock: nat -> nat, i: nat) {
    if legs == [] then false
    else if IsFilled(legs[0]) then StuckInTurn(legs[1..], clock, i)
    else TimedOut(legs[0], clock(i)) || StuckInTurn(legs[1..], clock, i + 1)
  }

  /** The verdict with every reading taken where the program takes it. */
  predicate ShouldAbortInTurn(legs: seq<Leg>, clock: nat -> nat, i: nat) {
    || (exists leg :: leg in legs && HasFailed(leg))
    || OutInTurn(legs, clock, i)
    || (0 < FilledCount(legs) < |legs| && StuckInTurn(legs, clock, i + |legs|))
  }

  ghost predicate Forward(clock: nat -> nat) {
    forall i: nat, j: nat :: i <= j ==> clock(i) <= clock(j)
  }

  lemma {:induction false} StuckIsOut(legs: seq<Leg>, clock: nat -> nat, i: nat, now: nat, end: nat)
    requires Forward(clock) && StuckInTurn(legs, clock, i) && now <= clock(i) && end == i + |legs|
    requires StampedBy(legs, now) && StampedBy(legs, clock(end))
    ensures exists leg :: leg in legs && TimedOut(leg, clock(end))
    decreases |legs|
  {
    var leg, rest := legs[0], legs[1..];
    assert legs == [leg] + rest;
    if !IsFilled(leg) && TimedOut(leg, clock(i)) {
      TimedOutIsOverdue(leg, clock(i));
      TimedOutIsOverdue(leg, clock(end));
      assert leg in legs;
    } else if IsFilled(leg) {
      StuckIsOut(rest, clock, i, now, end - 1);
      var r :| r in rest && TimedOut(r, clock(end - 1));
      TimedOutIsOverdue(r, clock(end - 1));
      TimedOutIsOverdue(r, clock(end));
      assert r in legs;
    } else {
      StuckIsOut(rest, clock, i + 1, now, end);
    }
  }

  lemma OutInTurnBracket(legs: seq<Leg>, clock: nat -> nat, i: nat, end: nat)
    requires Forward(clock) && end >= i + |legs| && StampedBy(legs, clock(i)) && StampedBy(legs, clock(end))
    ensures (exists leg :: leg in legs && TimedOut(leg, clock(i))) ==> OutInTurn(legs, clock, i)
    ensures OutInTurn(legs, clock, i) ==> exists leg :: leg in legs && TimedOut(leg, clock(end))
  {
    forall j | 0 <= j < |legs|
      ensures TimedOut(legs[j], clock(i)) ==> TimedOut(legs[j], clock(i + j))
      ensures TimedOut(legs[j], clock(i + j)) ==> TimedOut(legs[j], clock(end))
    {
      assert legs[j] in legs && clock(i) <= clock(i + j) <= clock(end);
      TimedOutIsOverdue(legs[j], clock(i));
      TimedOutIsOverdue(legs[j], clock(i + j));
      TimedOutIsOverdue(legs[j], clock(end));
    }
  }

  /** On a clock that runs forward the verdict lies between the verdicts on its first reading and
      on the last one it can take. */
  lemma ReadingsBracket(legs: seq<Leg>, clock: nat -> nat, i: nat)
    requires Forward(clock) && StampedBy(legs, clock(i)) && StampedBy(legs, clock(i + 2 * |legs|))
    ensures ShouldAbort(legs, clock(i)) ==> ShouldAbortInTurn(legs, clock, i)
    ensures ShouldAbortInTurn(legs, clock, i) ==> ShouldAbort(legs, clock(i + 2 * |legs|))
  {
    hide ShouldAbort, TimedOut, HasFailed, OutInTurn, StuckInTurn, FilledCount, StampedBy;
    var mid, end := i + |legs|, i + 2 * |legs|;
    AbortMeans(legs, clock(i));
    AbortMeans(legs, clock(end));
    OutInTurnBracket(legs, clock, i, end);
    if StuckInTurn(legs, clock, mid) { StuckIsOut(legs, clock, mid, clock(i), end); }
  }

  /** Only between two readings does the partial-fill clause decide: beside a filled leg, an open
      one runs out of time after it was asked and before it is asked again. */
  lemma PartialFillDecides(a: Leg, b: Leg, clock: nat -> nat, i: nat)
    requires IsFilled(a) && !IsFilled(b) && !HasFailed(b)
    requires !TimedOut(a, clock(i)) && !TimedOut(b, clock(i + 1)) && TimedOut(b, clock(i + 2))
    ensures !OutInTurn([a, b], clock, i) && ShouldAbortInTurn([a, b], clock, i)
  {
    var legs := [a, b];
    assert legs[..1] == [a] && legs[1..] == [b] && legs[..1][..0] == [];
    assert FilledCount(legs[..1]) == 1 && FilledCount(legs) == 1;
    assert StuckInTurn([b], clock, i + 2);
  }

  // ----- the shield as a state machine -----

  datatype Shield = Shield(active: map<nat, ArbTrade>, nextArbId: nat, enabled: bool, initiated: nat, completed: nat,
                           aborted: nat, legFailures: nat, cancellations: nat)

  const INITIAL: Shield := Shield(map[], 1, true, 0, 0, 0, 0, 0)

  datatype Op =
    | Create(legs: seq<Leg>)
    | Update(arbId: nat, legId: nat, status: LegStatus, price: Option<real>, quantity: real, nowNs: nat)
    | Abort(arbId: nat)
    | Complete(arbId: nat)
    | SetEnabled(on: bool)
    | TakeArbId

  function Tagged(legs: seq<Leg>, arbId: nat): seq<Leg> {
    seq(|legs|, i requires 0 <= i < |legs| => legs[i].(arbId := arbId))
  }

  /** The legs as given but for the identifier, neither complete nor aborted. */
  ghost predicate IsNewTrade(t: ArbTrade, legs: seq<Leg>, id: nat) {
    && t.arbId == id && !t.isComplete && !t.isAborted && |t.legs| == |legs|
    && forall i :: 0 <= i < |legs| ==>
         t.legs[i] == Leg(legs[i].legId, id, legs[i].quantity, legs[i].status, legs[i].fillPrice, legs[i].fillQuantity,
                          legs[i].submittedNs, legs[i].filledNs)
  }

  predicate Admits(s: Shield, maxConcurrent: nat) {
    s.enabled && |s.active| < maxConcurrent
  }

  /** Position of the first leg with the identifier, or the number of legs. */
  function FindLeg(legs: seq<Leg>, legId: nat): (i: nat)
    ensures i <= |legs| && (i < |legs| ==> legs[i].legId == legId)
    ensures forall j :: 0 <= j < i ==> legs[j].legId != legId
  {
    if legs == [] || legs[0].legId == legId then 0 else FindLeg(legs[1..], legId) + 1
  }

  function Reported(leg: Leg, status: LegStatus, price: Option<real>, quantity: real, nowNs: nat): Leg {
    leg.(status := status, fillPrice := price, fillQuantity := quantity,
         filledNs := if status == Filled then Some(nowNs) else leg.filledNs)
  }

  function Updated(t: ArbTrade, i: nat, op: Op): ArbTrade
    requires op.Update? && i < |t.legs|
  {
    var legs := t.legs[i := Reported(t.legs[i], op.status, op.price, op.quantity, op.nowNs)];
    t.(legs := legs, isComplete := t.isComplete || Verdict(legs, op.nowNs) == CompleteTrade)
  }

  predicate NeedsCancel(leg: Leg) {
    !IsFilled(leg) && leg.status != Cancelled
  }

  /** Identifiers of the legs to cancel, in order. */
  function CancelOrders(legs: seq<Leg>): seq<nat> {
    if legs == [] then []
    else
      var last := legs[|legs| - 1];
      CancelOrders(legs[..|legs| - 1]) + if NeedsCancel(last) then [last.legId] else []
  }

  /** The cancel orders are the identifiers of exactly the legs that are neither filled in full nor
      cancelled, in their order. */
  ghost predicate AreCancels(legs: seq<Leg>, orders: seq<nat>, places: seq<nat>) {
    && |places| == |orders|
    && (forall i, j :: 0 <= i < j < |places| ==> places[i] < places[j])
    && (forall i :: 0 <= i < |places| ==> places[i] < |legs| && orders[i] == legs[places[i]].legId)
    && (forall p: nat :: p < |legs| ==>
          (p in places <==> legs[p].status != Cancelled
                            && !(legs[p].status == Filled && Abs(legs[p].fillQuantity - legs[p].quantity) < 0.00000001)))
  }

  lemma {:induction false} CancelsAre(legs: seq<Leg>) returns (places: seq<nat>)
    ensures AreCancels(legs, CancelOrders(legs), places)
  {
    if legs == [] {
      places := [];
    } else {
      var m := |legs| - 1;
      var before := CancelsAre(legs[..m]);
      places := before + if NeedsCancel(legs[m]) then [m] else [];
      MorePlaces(legs, m, before, places);
    }
  }

  lemma MorePlaces(legs: seq<Leg>, m: nat, before: seq<nat>, places: seq<nat>)
    requires |legs| == m + 1 && AreCancels(legs[..m], CancelOrders(legs[..m]), before)
    requires places == before + if NeedsCancel(legs[m]) then [m] else []
    ensures AreCancels(legs, CancelOrders(legs), places)
  {
    forall p: nat | p < |legs| ensures p in places <==> NeedsCancel(legs[p]) {
      if p < m {
        assert legs[..m][p] == legs[p];
        assert p in places <==> p in before;
      } else {
        assert m !in before;
      }
    }
  }

  function FailureCount(legs: seq<Leg>): nat {
    if legs == [] then 0 else FailureCount(legs[..|legs| - 1]) + if HasFailed(legs[|legs| - 1]) then 1 else 0
  }

  lemma {:induction false} FailuresAre(legs: seq<Leg>)
    ensures FailureCount(legs)
         == |set i | 0 <= i < |legs| && (legs[i].status == Failed || legs[i].status == Expired)|
  {
    if legs != [] {
      var m := |legs| - 1;
      FailuresAre(legs[..m]);
      var before := set i | 0 <= i < m && (legs[..m][i].status == Failed || legs[..m][i].status == Expired);
      var after := set i | 0 <= i < |legs| && (legs[i].status == Failed || legs[i].status == Expired);
      assert after == before + if HasFailed(legs[m]) then {m} else {};
    }
  }

  function Step(s: Shield, op: Op, maxConcurrent: nat): Shield {
    match op
    case Create(legs) =>
      if !Admits(s, maxConcurrent) then s
      else
        var id := s.nextArbId;
        s.(nextArbId := id + 1, initiated := s.initiated + 1,
           active := s.active[id := ArbTrade(id, Tagged(legs, id), false, false)])
    case Update(id, legId, _, _, _, _) =>
      if id !in s.active || FindLeg(s.active[id].legs, legId) == |s.active[id].legs| then s
      else s.(active := s.active[id := Updated(s.active[id], FindLeg(s.active[id].legs, legId), op)])
    case Abort(id) =>
      if id !in s.active then s
      else
        var t := s.active[id];
        s.(active := s.active[id := t.(isAborted := true)], aborted := s.aborted + 1,
           cancellations := s.cancellations + |CancelOrders(t.legs)|, legFailures := s.legFailures + FailureCount(t.legs))
    case Complete(id) =>
      if id !in s.active then s else s.(active := s.active - {id}, completed := s.completed + 1)
    case SetEnabled(on) => s.(enabled := on)
    case TakeArbId => s.(nextArbId := s.nextArbId + 1)
  }

  /** An abort of trade `id`: the trade marked, cancel orders for its open legs, and the counters of
      aborts, cancel orders and failed or expired legs; nothing for an unknown trade. */
  ghost predicate IsAbort(s: Shield, r: Shield, id: nat, orders: seq<nat>) {
    if id !in s.active then r == s && orders == []
    else
      var was := s.active[id];
      && (exists places :: AreCancels(was.legs, orders, places))
      && r == Shield(s.active[id := ArbTrade(was.arbId, was.legs, was.isComplete, true)], s.nextArbId, s.enabled,
                     s.initiated, s.completed, s.aborted + 1,
                     s.legFailures + |set i | 0 <= i < |was.legs| && (was.legs[i].status == Failed || was.legs[i].status == Expired)|,
                     s.cancellations + |orders|)
  }

  lemma AbortIs(s: Shield, id: nat, maxConcurrent: nat)
    ensures IsAbort(s, Step(s, Abort(id), maxConcurrent), id, if id in s.active then CancelOrders(s.active[id].legs) else [])
  {
    if id in s.active {
      var legs := s.active[id].legs;
      var places := CancelsAre(legs);
      assert AreCancels(legs, CancelOrders(legs), places);
      FailuresAre(legs);
    }
  }

  /** A report on leg `legId` of trade `id`: the trade with that leg as reported, complete from now
      on if the verdict says so; nothing else. */
  ghost predicate IsUpdate(s: Shield, r: Shield, id: nat, legId: nat, status: LegStatus, price: Option<real>,
                           quantity: real, nowNs: nat) {
    if !(id in s.active && exists leg :: leg in s.active[id].legs && leg.legId == legId) then r == s
    else
      id in r.active
      && var was, now := s.active[id], r.active[id];
         && r == s.(active := s.active[id := now])
         && LegReported(was.legs, now.legs, legId, status, price, quantity, nowNs)
         && now.arbId == was.arbId && now.isAborted == was.isAborted
         && now.isComplete == (was.isComplete || Verdict(now.legs, nowNs) == CompleteTrade)
  }

  lemma UpdateIs(s: Shield, op: Op, maxConcurrent: nat)
    requires op.Update?
    ensures IsUpdate(s, Step(s, op, maxConcurrent), op.arbId, op.legId, op.status, op.price, op.quantity, op.nowNs)
  {
    if op.arbId in s.active {
      var legs := s.active[op.arbId].legs;
      var i := FindLeg(legs, op.legId);
      if i < |legs| {
        assert legs[i] in legs;
        var r := Step(s, op, maxConcurrent);
        assert IsReportOf(legs[i], r.active[op.arbId].legs[i], op.status, op.price, op.quantity, op.nowNs);
      }
    }
  }

  function Run(s: Shield, ops: seq<Op>, maxConcurrent: nat): Shield
    decreases |ops|
  {
    if ops == [] then s else Step(Run(s, ops[..|ops| - 1], maxConcurrent), ops[|ops| - 1], maxConcurrent)
  }

  /** What every run keeps. */
  ghost predicate Sound(s: Shield, maxConcurrent: nat) {
    && |s.active| <= maxConcurrent
    && (forall k :: k in s.active ==> 1 <= k < s.nextArbId && Owned(s.active[k], k))
    && s.initiated == |s.active| + s.completed < s.nextArbId
  }

  predicate Owned(t: ArbTrade, k: nat) {
    t.arbId == k && forall i :: 0 <= i < |t.legs| ==> t.legs[i].arbId == k
  }

  /** Replacing a trade in flight by one with the same owner keeps the map's part of the invariant. */
  lemma ReplacedSound(s: Shield, r: Shield, id: nat, t: ArbTrade, maxConcurrent: nat)
    requires Sound(s, maxConcurrent) && id in s.active && Owned(t, id)
    requires r.active == s.active[id := t] && r.nextArbId == s.nextArbId
    requires r.initiated == s.initiated && r.completed == s.completed
    ensures Sound(r, maxConcurrent)
  {
    assert r.active.Keys == s.active.Keys;
  }

  lemma CreateSound(s: Shield, legs: seq<Leg>, maxConcurrent: nat)
    requires Sound(s, maxConcurrent)
    ensures Sound(Step(s, Create(legs), maxConcurrent), maxConcurrent)
  {
    if Admits(s, maxConcurrent) {
      assert s.nextArbId !in s.active;
      assert Step(s, Create(legs), maxConcurrent).active.Keys == s.active.Keys + {s.nextArbId};
    }
  }

  lemma CompleteSound(s: Shield, id: nat, maxConcurrent: nat)
    requires Sound(s, maxConcurrent)
    ensures Sound(Step(s, Complete(id), maxConcurrent), maxConcurrent)
  {
    if id in s.active { assert Step(s, Complete(id), maxConcurrent).active.Keys == s.active.Keys - {id}; }
  }

  lemma StepSound(s: Shield, op: Op, maxConcurrent: nat)
    requires Sound(s, maxConcurrent)
    ensures Sound(Step(s, op, maxConcurrent), maxConcurrent)
  {
    var r := Step(s, op, maxConcurrent);
    match op
    case Create(legs) => CreateSound(s, legs, maxConcurrent);
    case Update(id, legId, _, _, _, _) =>
      if r != s {
        ReplacedSound(s, r, id, Updated(s.active[id], FindLeg(s.active[id].legs, legId), op), maxConcurrent);
      }
    case Abort(id) =>
      if r != s { ReplacedSound(s, r, id, s.active[id].(isAborted := true), maxConcurrent); }
    case Complete(id) => CompleteSound(s, id, maxConcurrent);
    case SetEnabled(_) =>
    case TakeArbId =>
  }

  /** In every run the trades in flight stay within the limit, keys are issued identifiers that the
      trade and its legs carry, and every trade initiated is in flight or was completed. */
  lemma {:induction false} RunSound(ops: seq<Op>, maxConcurrent: nat)
    ensures Sound(Run(INITIAL, ops, maxConcurrent), maxConcurrent)
    decreases |ops|
  {
    if ops != [] {
      RunSound(ops[..|ops| - 1], maxConcurrent);
      StepSound(Run(INITIAL, ops[..|ops| - 1], maxConcurrent), ops[|ops| - 1], maxConcurrent);
    }
  }

  /** Only completing a trade in flight gives its slot back; aborting it does not. */
  lemma SlotsFreedByCompletion(s: Shield, op: Op, maxConcurrent: nat)
    requires Sound(s, maxConcurrent)
    ensures |Step(s, op, maxConcurrent).active| < |s.active| <==> op.Complete? && op.arbId in s.active
  {
    var r := Step(s, op, maxConcurrent);
    if op.Complete? && op.arbId in s.active {
      assert r.active.Keys == s.active.Keys - {op.arbId};
    } else {
      assert s.active.Keys <= r.active.Keys;
      SmallerSet(s.active.Keys, r.active.Keys);
    }
  }

  lemma SmallerSet(a: set<nat>, b: set<nat>)
    requires a <= b
    ensures |a| <= |b|
  {
    assert b == a + (b - a);
  }

  function Completions(ops: seq<Op>): nat {
    if ops == [] then 0 else Completions(ops[..|ops| - 1]) + if ops[|ops| - 1].Complete? then 1 else 0
  }

  lemma {:induction false} CompletedAtMost(ops: seq<Op>, maxConcurrent: nat)
    ensures Run(INITIAL, ops, maxConcurrent).completed <= Completions(ops)
    decreases |ops|
  {
    if ops != [] { CompletedAtMost(ops[..|ops| - 1], maxConcurrent); }
  }

  /** However many trades are aborted, a run initiates at most the limit plus one trade for each
      completion it asks for. */
  lemma AbortsLeakCapacity(ops: seq<Op>, maxConcurrent: nat)
    ensures Run(INITIAL, ops, maxConcurrent).initiated <= maxConcurrent + Completions(ops)
  {
    RunSound(ops, maxConcurrent);
    CompletedAtMost(ops, maxConcurrent);
  }

  /** Once full, a shield refuses every trade until one is completed. */
  lemma {:induction false} FullStaysFull(s: Shield, ops: seq<Op>, maxConcurrent: nat)
    requires Sound(s, maxConcurrent) && |s.active| == maxConcurrent
    requires forall op :: op in ops ==> !op.Complete?
    ensures var r := Run(s, ops, maxConcurrent); Sound(r, maxConcurrent) && |r.active| == maxConcurrent
    ensures Run(s, ops, maxConcurrent).initiated == s.initiated
    decreases |ops|
  {
    if ops != [] {
      var m := |ops| - 1;
      FullStaysFull(s, ops[..m], maxConcurrent);
      assert ops[m] in ops;
      var r := Run(s, ops[..m], maxConcurrent);
      StepSound(r, ops[m], maxConcurrent);
      SlotsFreedByCompletion(r, ops[m], maxConcurrent);
    }
  }

  /** Aborting is not final: a second abort cancels the same legs and is counted again, and the
      trade's legs, on which every verdict rests, are untouched. */
  lemma AbortRepeats(s: Shield, id: nat, maxConcurrent: nat)
    requires id in s.active
    ensures var once := Step(s, Abort(id), maxConcurrent);
            var twice := Step(once, Abort(id), maxConcurrent);
            && once.active[id].legs == s.active[id].legs == twice.active[id].legs && twice.active == once.active
            && twice.aborted == s.aborted + 2
            && twice.cancellations == s.cancellations + 2 * |CancelOrders(s.active[id].legs)|
  {
    var once := Step(s, Abort(id), maxConcurrent);
    assert Step(once, Abort(id), maxConcurrent).active == once.active;
  }

  // ----- what the counter of aborts counts -----

  function AbortedInFlight(s: Shield): set<nat> {
    set k | k in s.active && s.active[k].isAborted
  }

  /** The call aborts or completes a trade that was aborted before. */
  predicate HitsAborted(s: Shield, op: Op) {
    (op.Abort? || op.Complete?) && op.arbId in AbortedInFlight(s)
  }

  /** The calls of a run that do so. */
  function AgainCount(ops: seq<Op>, maxConcurrent: nat): nat {
    if ops == [] then 0
    else
      var m := |ops| - 1;
      AgainCount(ops[..m], maxConcurrent) + if HitsAborted(Run(INITIAL, ops[..m], maxConcurrent), ops[m]) then 1 else 0
  }

  /** The aborted trades in flight after one call. */
  function AbortedNext(was: set<nat>, s: Shield, op: Op): set<nat> {
    if op.Abort? && op.arbId in s.active then was + {op.arbId} else if op.Complete? then was - {op.arbId} else was
  }

  lemma AbortedAfter(s: Shield, op: Op, maxConcurrent: nat)
    requires Sound(s, maxConcurrent)
    ensures AbortedInFlight(Step(s, op, maxConcurrent)) == AbortedNext(AbortedInFlight(s), s, op)
  {
    if op.Create? { assert s.nextArbId !in s.active; }
  }

  lemma NextCount(was: set<nat>, s: Shield, op: Op, hit: bool)
    requires hit == ((op.Abort? || op.Complete?) && op.arbId in was) && was <= s.active.Keys
    ensures |AbortedNext(was, s, op)| - |was| + (if hit then 1 else 0)
         == if op.Abort? && op.arbId in s.active then 1 else 0
  {
    if hit && op.Abort? { assert was + {op.arbId} == was; }
    if !hit && op.Complete? { assert was - {op.arbId} == was; }
  }

  lemma AbortedStep(s: Shield, op: Op, maxConcurrent: nat)
    requires Sound(s, maxConcurrent)
    ensures var r := Step(s, op, maxConcurrent);
            r.aborted - s.aborted == |AbortedInFlight(r)| - |AbortedInFlight(s)| + if HitsAborted(s, op) then 1 else 0
  {
    AbortedAfter(s, op, maxConcurrent);
    NextCount(AbortedInFlight(s), s, op, HitsAborted(s, op));
    hide AbortedInFlight, HitsAborted, AbortedNext, Sound;
  }

  /** In every run the counter is the aborted trades in flight plus the calls that abort or complete
      a trade already aborted. */
  lemma {:induction false} AbortedCounter(ops: seq<Op>, maxConcurrent: nat)
    ensures var r := Run(INITIAL, ops, maxConcurrent);
            r.aborted == |AbortedInFlight(r)| + AgainCount(ops, maxConcurrent)
    decreases |ops|
  {
    hide Step, HitsAborted, AbortedInFlight;
    if ops == [] {
      NoneAborted(maxConcurrent);
    } else {
      var m := |ops| - 1;
      AbortedCounter(ops[..m], maxConcurrent);
      RunSound(ops[..m], maxConcurrent);
      AbortedStep(Run(INITIAL, ops[..m], maxConcurrent), ops[m], maxConcurrent);
    }
  }

  lemma NoneAborted(maxConcurrent: nat)
    ensures AbortedInFlight(Run(INITIAL, [], maxConcurrent)) == {}
  {
  }

  /** So it counts the aborted trades in flight exactly when no such call is made, and completions
      and aborts exceed the trades initiated exactly when there are more such calls than trades in
      flight that were not aborted. */
  lemma CountersAddUp(ops: seq<Op>, maxConcurrent: nat)
    ensures var r, again := Run(INITIAL, ops, maxConcurrent), AgainCount(ops, maxConcurrent);
            && (r.aborted == |AbortedInFlight(r)| <==> again == 0)
            && (r.completed + r.aborted > r.initiated <==> again > |r.active.Keys - AbortedInFlight(r)|)
            && (again == 0 ==> r.completed + r.aborted <= r.initiated)
  {
    hide Run, AgainCount;
    var r := Run(INITIAL, ops, maxConcurrent);
    AbortedCounter(ops, maxConcurrent);
    RunSound(ops, maxConcurrent);
    assert r.active.Keys == AbortedInFlight(r) + (r.active.Keys - AbortedInFlight(r));
  }

  /** A completion is counted a success whatever became of the legs: three calls make one trade
      count on both sides. */
  lemma AbortedCountsAsSuccess(legs: seq<Leg>, maxConcurrent: nat)
    requires maxConcurrent > 0
    ensures var r := Run(INITIAL, [Create(legs), Abort(1), Complete(1)], maxConcurrent);
            r.completed == 1 && r.aborted == 1 && r.initiated == 1
  {
    var ops := [Create(legs), Abort(1), Complete(1)];
    assert ops[..2] == [Create(legs), Abort(1)] && ops[..2][..1] == [Create(legs)] && ops[..1][..0] == [];
    var first := Step(INITIAL, Create(legs), maxConcurrent);
    assert Run(INITIAL, ops[..2][..1], maxConcurrent) == first;
    assert 1 in first.active;
  }

  // ----- the shield object -----

  class LeggingRiskShield {
    var activeTrades: map<nat, ArbTrade>
    var nextLegId: nat
    var nextArbId: nat
    var enabled: bool
    var totalArbsInitiated: nat
    var successfulCompletions: nat
    var abortedTrades: nat
    var legFailures: nat
    var cancellationsExecuted: nat
    const maxConcurrentArbs: nat

    ghost function State(): Shield
      reads this
    {
      Shield(activeTrades, nextArbId, enabled, totalArbsInitiated, successfulCompletions, abortedTrades, legFailures,
             cancellationsExecuted)
    }

    ghost predicate Valid()
      reads this
    {
      Sound(State(), maxConcurrentArbs)
    }

    constructor (maxConcurrent: nat)
      ensures Valid() && State() == INITIAL && maxConcurrentArbs == maxConcurrent && nextLegId == 1
    {
      activeTrades, nextLegId, nextArbId, enabled := map[], 1, 1, true;
      totalArbsInitiated, successfulCompletions, abortedTrades := 0, 0, 0;
      legFailures, cancellationsExecuted := 0, 0;
      maxConcurrentArbs := maxConcurrent;
    }

    method GenerateLegId() returns (id: nat)
      modifies `nextLegId
      ensures id == old(nextLegId) && nextLegId == id + 1
    {
      id, nextLegId := nextLegId, nextLegId + 1;
    }

    method GenerateArbId() returns (id: nat)
      requires Valid()
      modifies `nextArbId
      ensures Valid() && State() == Step(old(State()), TakeArbId, maxConcurrentArbs) && id == old(nextArbId)
    {
      id, nextArbId := nextArbId, nextArbId + 1;
    }

    method CreateArbTrade(legs: seq<Leg>) returns (r: Option<nat>)
      requires Valid()
      modifies this
      ensures Valid() && State() == Step(old(State()), Create(legs), maxConcurrentArbs) && nextLegId == old(nextLegId)
      ensures r == if old(Admits(State(), maxConcurrentArbs)) then Some(old(nextArbId)) else None
      ensures r.Some? ==> r.value !in old(activeTrades) && r.value in activeTrades
      ensures r.Some? <==> old(enabled) && |old(activeTrades)| < maxConcurrentArbs
      ensures r.Some? ==>
        && nextArbId == old(nextArbId) + 1 && totalArbsInitiated == old(totalArbsInitiated) + 1
        && activeTrades == old(activeTrades)[r.value := activeTrades[r.value]]
        && IsNewTrade(activeTrades[r.value], legs, r.value)
      ensures r.None? ==> activeTrades == old(activeTrades) && totalArbsInitiated == old(totalArbsInitiated)
      ensures enabled == old(enabled) && successfulCompletions == old(successfulCompletions)
      ensures abortedTrades == old(abortedTrades) && legFailures == old(legFailures)
      ensures cancellationsExecuted == old(cancellationsExecuted)
    {
      StepSound(State(), Create(legs), maxConcurrentArbs);
      if !enabled || |activeTrades| >= maxConcurrentArbs { return None; }
      var id := nextArbId;
      nextArbId := nextArbId + 1;
      var tagged := Tag(legs, id);
      activeTrades := activeTrades[id := ArbTrade(id, tagged, false, false)];
      totalArbsInitiated := totalArbsInitiated + 1;
      r := Some(id);
    }

    static method Tag(legs: seq<Leg>, id: nat) returns (tagged: seq<Leg>)
      ensures tagged == Tagged(legs, id)
    {
      tagged := legs;
      for i := 0 to |legs|
        invariant |tagged| == |legs|
        invariant forall j :: 0 <= j < |legs| ==> tagged[j] == if j < i then Tagged(legs, id)[j] else legs[j]
      {
        tagged := tagged[i := tagged[i].(arbId := id)];
      }
    }

    method UpdateLegStatus(arbId: nat, legId: nat, status: LegStatus, price: Option<real>, quantity: real, nowNs: nat)
      returns (r: Option<LegAction>)
      requires Valid()
      modifies `activeTrades
      ensures Valid()
      ensures State() == Step(old(State()), Update(arbId, legId, status, price, quantity, nowNs), maxConcurrentArbs)
      ensures r.Some? <==> arbId in old(activeTrades) && exists leg :: leg in old(activeTrades)[arbId].legs && leg.legId == legId
      ensures r.Some? ==> r.value == Verdict(activeTrades[arbId].legs, nowNs)
      ensures IsUpdate(old(State()), State(), arbId, legId, status, price, quantity, nowNs)
      ensures r.Some? && (status == Failed || status == Expired) ==> r.value == AbortTrade
    {
      StepSound(State(), Update(arbId, legId, status, price, quantity, nowNs), maxConcurrentArbs);
      UpdateIs(State(), Update(arbId, legId, status, price, quantity, nowNs), maxConcurrentArbs);
      hide IsUpdate, Sound;
      if arbId !in activeTrades { return None; }
      var trade := activeTrades[arbId];
      var i := FindLeg(trade.legs, legId);
      if i == |trade.legs| { return None; }
      assert trade.legs[i] in trade.legs;
      var legs := trade.legs[i := Reported(trade.legs[i], status, price, quantity, nowNs)];
      trade := trade.(legs := legs);
      if ShouldAbort(legs, nowNs) {
        r := Some(LegAction.AbortTrade);
      } else if AllFilled(legs) {
        trade := trade.(isComplete := true);
        r := Some(LegAction.CompleteTrade);
      } else {
        r := Some(Continue);
      }
      if status == Failed || status == Expired { FailedLegAborts(legs, legs[i], nowNs); }
      activeTrades := activeTrades[arbId := trade];
    }

    method Abort(arbId: nat) returns (orders: seq<nat>)
      requires Valid()
      modifies this
      ensures Valid() && State() == Step(old(State()), Op.Abort(arbId), maxConcurrentArbs) && nextLegId == old(nextLegId)
      ensures orders == if arbId in old(activeTrades) then CancelOrders(old(activeTrades)[arbId].legs) else []
      ensures IsAbort(old(State()), State(), arbId, orders)
    {
      StepSound(State(), Op.Abort(arbId), maxConcurrentArbs);
      AbortIs(State(), arbId, maxConcurrentArbs);
      hide IsAbort, Sound;
      orders := [];
      if arbId in activeTrades {
        var trade := activeTrades[arbId].(isAborted := true);
        activeTrades := activeTrades[arbId := trade];
        orders := CollectCancels(trade.legs);
        cancellationsExecuted := cancellationsExecuted + |orders|;
        abortedTrades := abortedTrades + 1;
        var failures := CountFailures(trade.legs);
        legFailures := legFailures + failures;
      }
    }

    static method CollectCancels(legs: seq<Leg>) returns (orders: seq<nat>)
      ensures orders == CancelOrders(legs)
    {
      orders := [];
      for i := 0 to |legs|
        invariant orders == CancelOrders(legs[..i])
      {
        assert legs[..i + 1][..i] == legs[..i];
        if NeedsCancel(legs[i]) { orders := orders + [legs[i].legId]; }
      }
      assert legs[..|legs|] == legs;
    }

    static method CountFailures(legs: seq<Leg>) returns (n: nat)
      ensures n == FailureCount(legs)
    {
      n := 0;
      for i := 0 to |legs|
        invariant n == FailureCount(legs[..i])
      {
        assert legs[..i + 1][..i] == legs[..i];
        if HasFailed(legs[i]) { n := n + 1; }
      }
      assert legs[..|legs|] == legs;
    }

    method Complete(arbId: nat) returns (r: Option<ArbTrade>)
      requires Valid()
      modifies `activeTrades, `successfulCompletions
      ensures Valid() && State() == Step(old(State()), Op.Complete(arbId), maxConcurrentArbs)
      ensures r == if arbId in old(activeTrades) then Some(old(activeTrades)[arbId]) else None
      ensures activeTrades == old(activeTrades) - {arbId}
      ensures successfulCompletions == old(successfulCompletions) + if r.Some? then 1 else 0
    {
      StepSound(State(), Op.Complete(arbId), maxConcurrentArbs);
      if arbId !in activeTrades { return None; }
      r := Some(activeTrades[arbId]);
      activeTrades := activeTrades - {arbId};
      successfulCompletions := successfulCompletions + 1;
    }

    /** Visits the trades in no particular order and reports each one that calls for an action once. */
    method MonitorActiveTrades(nowNs: nat) returns (actions: seq<(nat, LegAction)>)
      ensures forall k, a :: (k, a) in actions <==> k in activeTrades && a == Verdict(activeTrades[k].legs, nowNs) != Continue
      ensures forall i, j :: 0 <= i < j < |actions| ==> actions[i].0 != actions[j].0
    {
      actions := [];
      var rest := activeTrades.Keys;
      while rest != {}
        invariant rest <= activeTrades.Keys
        invariant forall k, a :: (k, a) in actions <==>
          k in activeTrades && k !in rest && a == Verdict(activeTrades[k].legs, nowNs) != Continue
        invariant forall i, j :: 0 <= i < j < |actions| ==> actions[i].0 != actions[j].0
        decreases |rest|
      {
        var k :| k in rest;
        rest := rest - {k};
        var legs := activeTrades[k].legs;
        assert forall i :: 0 <= i < |actions| ==> actions[i] in actions && actions[i].0 != k;
        if ShouldAbort(legs, nowNs) {
          actions := actions + [(k, LegAction.AbortTrade)];
        } else if AllFilled(legs) {
          actions := actions + [(k, LegAction.CompleteTrade)];
        }
      }
    }

    method SetEnabled(on: bool)
      requires Valid()
      modifies `enabled
      ensures Valid() && State() == Step(old(State()), Op.SetEnabled(on), maxConcurrentArbs)
      ensures enabled == on
    {
      enabled := on;
    }
  }
}
