/** When the breaker of backend/alerts/circuit_breaker_telemetry.py opens, closes and stays as it
    is, told from the history of operations alone. */
module BreakerHistory {
  import opened Options
  import opened Reals
  import opened Windows
  import opened CircuitBreaker

  // ----- the history since the breaker was last cleared -----

  /** The results recorded since the breaker last closed or was last reset. */
  function Results(cfg: Config, clock: Clock, ops: seq<Op>): seq<bool> {
    if ops == [] then []
    else
      var m := |ops| - 1;
      if Run(cfg, clock, ops[..m]).state != Closed then []
      else
        match ops[m]
        case Success => Results(cfg, clock, ops[..m]) + [true]
        case Failure => Results(cfg, clock, ops[..m]) + [false]
        case ManualResetOp => []
        case _ => Results(cfg, clock, ops[..m])
  }

  /** Counting failures is counting the places that hold one. */
  lemma {:induction false} FailuresAre(s: seq<bool>)
    ensures Failures(s) == |set i | 0 <= i < |s| && !s[i]|
  {
    if s != [] {
      var m := |s| - 1;
      FailuresAre(s[..m]);
      var before, after := set i | 0 <= i < m && !s[..m][i], set i | 0 <= i < |s| && !s[i];
      assert after == before + if s[m] then {} else {m};
    }
  }

  lemma LastOfNext<T>(h: seq<T>, x: T, w: nat)
    ensures LastOf(LastOf(h, w) + [x], w) == LastOf(h + [x], w)
  {
  }

  /** What a closed breaker remembers of `h`. */
  predicate Remembers(cfg: Config, b: Breaker, h: seq<bool>) {
    b.failureCount == Failures(h) && b.successCount == |h| - Failures(h) && b.recent == LastOf(h, cfg.windowSize)
  }

  lemma ResultsPush(h: seq<bool>, x: bool)
    ensures Failures(h + [x]) == Failures(h) + if x then 0 else 1
  {
    assert (h + [x])[..|h|] == h;
  }

  lemma ClosedStep(cfg: Config, clock: Clock, b: Breaker, op: Op, h: seq<bool>, h': seq<bool>)
    requires b.state == Closed && Remembers(cfg, b, h) && Do(cfg, clock, b, op).state == Closed
    requires h' == (match op
                    case Success => h + [true] case Failure => h + [false] case ManualResetOp => [] case _ => h)
    ensures Remembers(cfg, Do(cfg, clock, b, op), h')
  {
    match op {
      case Success =>
        ResultsPush(h, true);
        LastOfNext(h, true, cfg.windowSize);
      case Failure =>
        ResultsPush(h, false);
        LastOfNext(h, false, cfg.windowSize);
      case _ =>
    }
  }

  lemma JustClosed(cfg: Config, clock: Clock, b: Breaker, op: Op)
    requires b.state != Closed && Do(cfg, clock, b, op).state == Closed
    ensures Remembers(cfg, Do(cfg, clock, b, op), [])
  {
  }

  /** While closed, the counters and the window are those of that history. */
  lemma {:induction false} ClosedRemembers(cfg: Config, clock: Clock, ops: seq<Op>)
    requires Run(cfg, clock, ops).state == Closed
    ensures Remembers(cfg, Run(cfg, clock, ops), Results(cfg, clock, ops))
  {
    if ops != [] {
      var m := |ops| - 1;
      var b := Run(cfg, clock, ops[..m]);
      hide Remembers, Do;
      if b.state == Closed {
        ClosedRemembers(cfg, clock, ops[..m]);
        ClosedStep(cfg, clock, b, ops[m], Results(cfg, clock, ops[..m]), Results(cfg, clock, ops));
      } else {
        JustClosed(cfg, clock, b, ops[m]);
      }
    }
  }

  // ----- opening -----

  predicate CountReached(cfg: Config, h: seq<bool>) {
    Failures(h) >= cfg.failureThreshold
  }

  /** Of the last windowSize results, failures make up at least the limit's share. */
  predicate RateReached(cfg: Config, h: seq<bool>) {
    var last := LastOf(h, cfg.windowSize);
    last != [] && Failures(last) as real >= cfg.failureRateThreshold * |last| as real
  }

  lemma RateMeans(cfg: Config, h: seq<bool>)
    requires ValidConfig(cfg)
    ensures FailureRate(LastOf(h, cfg.windowSize)) >= cfg.failureRateThreshold <==> RateReached(cfg, h)
  {
    var last := LastOf(h, cfg.windowSize);
    if last != [] { RatioAtLeast(Failures(last) as real, |last| as real, cfg.failureRateThreshold); }
  }

  /** After a failure in `b`: blocked and open if the count or the rate is reached, logging which,
      and otherwise still closed with nothing logged. */
  predicate FailureOutcome(clock: Clock, b: Breaker, c: Breaker, attempted: bool, byCount: bool, byRate: bool,
                           failures: nat, successes: nat) {
    && (attempted <==> !byCount && !byRate)
    && (if attempted then c.state == Closed && c.transitions == b.transitions
        else c.state == Open
             && c.transitions == b.transitions + [Transition(clock(b.ticks + 1), Closed, Open,
                  if byCount then FailureThresholdReached else FailureRateExceeded, failures, successes)])
  }

  /** A failure opens a closed breaker exactly when the failures since it closed reach their
      threshold or the window's share of them reaches its limit, logs which, and is reported as
      blocked exactly then. */
  lemma ClosedFailure(cfg: Config, clock: Clock, ops: seq<Op>, b: Breaker, h: seq<bool>)
    requires ValidConfig(cfg) && b == Run(cfg, clock, ops) && b.state == Closed
    requires h == Results(cfg, clock, ops) + [false]
    ensures var (c, attempted) := RecordFailure(cfg, clock, b);
            && c == Run(cfg, clock, ops + [Failure])
            && FailureOutcome(clock, b, c, attempted, CountReached(cfg, h), RateReached(cfg, h),
                              Failures(h), |h| - Failures(h))
  {
    hide RecordFailure, FailureRate, Failures, RateReached, Results, Run, LastOf, FailureOutcome;
    AfterOneMore(cfg, clock, ops, b, h);
    RateMeans(cfg, h);
    RunOnce(cfg, clock, ops, Failure);
    OneFailure(cfg, clock, b, b.failureCount + 1, RateReached(cfg, h));
  }

  lemma AfterOneMore(cfg: Config, clock: Clock, ops: seq<Op>, b: Breaker, h: seq<bool>)
    requires b == Run(cfg, clock, ops) && b.state == Closed && h == Results(cfg, clock, ops) + [false]
    ensures b.failureCount + 1 == Failures(h) && b.successCount == |h| - Failures(h)
    ensures LastOf(b.recent + [false], cfg.windowSize) == LastOf(h, cfg.windowSize)
  {
    var g := Results(cfg, clock, ops);
    ClosedRemembers(cfg, clock, ops);
    ResultsPush(g, false);
    LastOfNext(g, false, cfg.windowSize);
  }

  lemma OneFailure(cfg: Config, clock: Clock, b: Breaker, n: nat, high: bool)
    requires b.state == Closed && n == b.failureCount + 1
    requires high <==> FailureRate(LastOf(b.recent + [false], cfg.windowSize)) >= cfg.failureRateThreshold
    ensures var (c, attempted) := RecordFailure(cfg, clock, b);
            FailureOutcome(clock, b, c, attempted, n >= cfg.failureThreshold, high, n, b.successCount)
  {
    hide FailureRate;
  }

  /** A success never opens a closed breaker. */
  lemma ClosedSuccess(cfg: Config, clock: Clock, b: Breaker)
    requires b.state == Closed
    ensures var (c, counted) := RecordSuccess(cfg, clock, b);
            counted && c.state == Closed && c.transitions == b.transitions
  {
  }

  lemma RunOnce(cfg: Config, clock: Clock, ops: seq<Op>, op: Op)
    ensures Run(cfg, clock, ops + [op]) == Do(cfg, clock, Run(cfg, clock, ops), op)
  {
    hide Do;
    assert (ops + [op])[..|ops|] == ops;
  }

  // ----- closing -----

  /** Successes since the breaker last became half open. */
  function Tests(cfg: Config, clock: Clock, ops: seq<Op>): nat {
    if ops == [] || Run(cfg, clock, ops).state != HalfOpen then 0
    else
      var m := |ops| - 1;
      Tests(cfg, clock, ops[..m]) + if ops[m] == Success then 1 else 0
  }

  lemma TestStep(cfg: Config, clock: Clock, b: Breaker, op: Op)
    requires b.state == HalfOpen || b.state == Open || b.state == Closed
    requires Do(cfg, clock, b, op).state == HalfOpen
    ensures Do(cfg, clock, b, op).successCount
         == (if b.state == HalfOpen then b.successCount else 0) + if op == Success then 1 else 0
  {
  }

  lemma {:induction false} TestsAreCounted(cfg: Config, clock: Clock, ops: seq<Op>)
    requires Run(cfg, clock, ops).state == HalfOpen
    ensures Run(cfg, clock, ops).successCount == Tests(cfg, clock, ops)
  {
    if ops != [] {
      var m := |ops| - 1;
      var b := Run(cfg, clock, ops[..m]);
      TestStep(cfg, clock, b, ops[m]);
      hide Do;
      if b.state == HalfOpen { TestsAreCounted(cfg, clock, ops[..m]); }
    }
  }

  /** A success closes a half-open breaker exactly when it is the success that reaches the
      threshold since the breaker became half open. */
  lemma HalfOpenSuccess(cfg: Config, clock: Clock, ops: seq<Op>, b: Breaker, n: nat)
    requires Nondecreasing(clock) && ValidConfig(cfg)
    requires b == Run(cfg, clock, ops) && b.state == HalfOpen && n == Tests(cfg, clock, ops) + 1
    ensures var (c, counted) := RecordSuccess(cfg, clock, b);
            && counted && c == Run(cfg, clock, ops + [Success])
            && (if n < cfg.successThreshold then c.state == HalfOpen && c.transitions == b.transitions
                else c.state == Closed
                     && c.transitions == b.transitions + [Transition(clock(b.ticks), HalfOpen, Closed,
                          SuccessThresholdReached, b.failureCount, n)])
  {
    RunInv(cfg, clock, ops);
    TestsAreCounted(cfg, clock, ops);
    RunOnce(cfg, clock, ops, Success);
  }

  /** A failure reopens a half-open breaker. */
  lemma HalfOpenFailure(cfg: Config, clock: Clock, b: Breaker)
    requires b.state == HalfOpen
    ensures var (c, attempted) := RecordFailure(cfg, clock, b);
            && !attempted && c.state == Open && c.openedAt == Some(clock(b.ticks + 2))
            && c.transitions == b.transitions + [Transition(clock(b.ticks + 1), HalfOpen, Open,
                 FailureDuringTesting, b.failureCount + 1, b.successCount)]
  {
  }

  /** While open, looking finds the breaker half open exactly once the timeout has passed since
      it opened, with its counters of tests at zero. */
  lemma OpenLook(cfg: Config, clock: Clock, b: Breaker)
    requires b.state == Open && b.openedAt.Some?
    ensures var c := CheckTimeout(cfg, clock, b);
            if clock(b.ticks) < b.openedAt.value + cfg.timeout then c == b.(ticks := b.ticks + 1)
            else Testing(c, 0) && c.failureCount == b.failureCount && c.recent == b.recent
                 && c.transitions == b.transitions + [Transition(clock(b.ticks + 1), Open, HalfOpen, TimeoutElapsed,
                      b.failureCount, b.successCount)]
  {
  }

  /** A manual reset closes the breaker with nothing remembered, and is logged unless it was closed. */
  lemma ResetCloses(cfg: Config, clock: Clock, b: Breaker)
    ensures var c := Reset(clock, b);
            && c.state == Closed && Remembers(cfg, c, [])
            && c.transitions == if b.state == Closed then b.transitions
                                else b.transitions + [Transition(clock(b.ticks), b.state, Closed, ManualReset,
                                                                 b.failureCount, b.successCount)]
  {
  }

  // ----- totals -----

  function Times(ops: seq<Op>, op: Op): nat {
    if ops == [] then 0 else Times(ops[..|ops| - 1], op) + if ops[|ops| - 1] == op then 1 else 0
  }

  /** Successes that did not find the breaker open. */
  function Accepted(cfg: Config, clock: Clock, ops: seq<Op>): nat {
    if ops == [] then 0
    else
      var m := |ops| - 1;
      Accepted(cfg, clock, ops[..m])
      + if ops[m] == Success && CheckTimeout(cfg, clock, Run(cfg, clock, ops[..m])).state != Open then 1 else 0
  }

  lemma TotalStep(cfg: Config, clock: Clock, b: Breaker, op: Op)
    ensures var c := Do(cfg, clock, b, op);
            && c.totalFailures == b.totalFailures + (if op == Failure then 1 else 0)
            && c.totalSuccesses == b.totalSuccesses
                 + (if op == Success && CheckTimeout(cfg, clock, b).state != Open then 1 else 0)
  {
  }

  /** Every failure is counted, in whatever state, and every success that did not come back to an
      open breaker. */
  lemma {:induction false} TotalsAre(cfg: Config, clock: Clock, ops: seq<Op>)
    ensures Run(cfg, clock, ops).totalFailures == Times(ops, Failure)
    ensures Run(cfg, clock, ops).totalSuccesses == Accepted(cfg, clock, ops)
  {
    if ops != [] {
      var m := |ops| - 1;
      TotalsAre(cfg, clock, ops[..m]);
      TotalStep(cfg, clock, Run(cfg, clock, ops[..m]), ops[m]);
      hide Do, CheckTimeout;
    }
  }

  /** The time of the last failure is a reading taken while it was recorded. */
  lemma LastFailureStamp(cfg: Config, clock: Clock, b: Breaker, op: Op)
    ensures var c := Do(cfg, clock, b, op);
            if op == Failure then exists i: nat :: b.ticks <= i < c.ticks && c.lastFailureTime == Some(clock(i))
            else c.lastFailureTime == b.lastFailureTime
  {
    var e, c := CheckTimeout(cfg, clock, b), Do(cfg, clock, b, op);
    if op == Failure { assert c.lastFailureTime == Some(clock(e.ticks)); }
  }
}
