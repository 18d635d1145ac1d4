/** The state machine of backend/alerts/circuit_breaker_telemetry.py. Every public method runs
    under the lock, so it is one step; `clock(i)` is the i-th reading of the clock. */
module CircuitBreaker {
  import opened Options
  import opened Reals
  import opened Windows

  datatype CircuitState = Closed | Open | HalfOpen

  datatype Reason = TimeoutElapsed | SuccessThresholdReached | HalfOpenTestingFailed
                  | FailureThresholdReached | FailureRateExceeded | FailureDuringTesting | ManualReset

  datatype Transition = Transition(timestamp: real, from: CircuitState, to: CircuitState, reason: Reason,
                                   failureCount: nat, successCount: nat)

  datatype Config = Config(failureThreshold: int, successThreshold: int, timeout: real,
                           halfOpenMaxCalls: int, windowSize: nat, failureRateThreshold: real)

  datatype Breaker = Breaker(state: CircuitState, failureCount: nat, successCount: nat, halfOpenCalls: nat,
                             recent: seq<bool>, transitions: seq<Transition>,
                             lastFailureTime: Option<real>, openedAt: Option<real>,
                             totalTransitions: nat, totalOperations: nat, totalFailures: nat, totalSuccesses: nat,
                             ticks: nat)

  type Clock = nat -> real

  const INITIAL: Breaker := Breaker(Closed, 0, 0, 0, [], [], None, None, 0, 0, 0, 0, 0)

  // ----- the atomic operations -----

  function Failures(s: seq<bool>): (n: nat)
    ensures n <= |s|
  {
    if s == [] then 0 else Failures(s[..|s| - 1]) + if s[|s| - 1] then 0 else 1
  }

  function FailureRate(s: seq<bool>): real {
    if s == [] then 0.0 else Failures(s) as real / |s| as real
  }

  /** The change of state goes on the log. */
  function Logged(clock: Clock, b: Breaker, to: CircuitState, reason: Reason): Breaker {
    var t := Transition(clock(b.ticks), b.state, to, reason, b.failureCount, b.successCount);
    b.(state := to, transitions := b.transitions + [t], totalTransitions := b.totalTransitions + 1, ticks := b.ticks + 1)
  }

  /** Each state resets its own counters on entry. */
  function Entered(clock: Clock, b: Breaker): Breaker {
    match b.state
    case HalfOpen => b.(halfOpenCalls := 0, successCount := 0)
    case Closed => b.(failureCount := 0, successCount := 0, halfOpenCalls := 0, recent := [])
    case Open => b.(openedAt := Some(clock(b.ticks)), ticks := b.ticks + 1)
  }

  function TransitionTo(clock: Clock, b: Breaker, to: CircuitState, reason: Reason): Breaker {
    if b.state == to then b else Entered(clock, Logged(clock, b, to, reason))
  }

  function CheckTimeout(cfg: Config, clock: Clock, b: Breaker): Breaker {
    if b.state != Open || b.openedAt.None? then b
    else
      var c := b.(ticks := b.ticks + 1);
      if clock(b.ticks) - b.openedAt.value >= cfg.timeout then TransitionTo(clock, c, HalfOpen, TimeoutElapsed) else c
  }

  function CountSuccess(cfg: Config, b: Breaker): Breaker {
    b.(successCount := b.successCount + 1, totalSuccesses := b.totalSuccesses + 1,
       totalOperations := b.totalOperations + 1, recent := LastOf(b.recent + [true], cfg.windowSize),
       halfOpenCalls := b.halfOpenCalls + if b.state == HalfOpen then 1 else 0)
  }

  function AfterSuccess(cfg: Config, clock: Clock, b: Breaker): Breaker {
    if b.state != HalfOpen then b
    else if b.successCount >= cfg.successThreshold then TransitionTo(clock, b, Closed, SuccessThresholdReached)
    else if b.halfOpenCalls >= cfg.halfOpenMaxCalls && b.successCount < b.halfOpenCalls / 2 then
      TransitionTo(clock, b, Open, HalfOpenTestingFailed)
    else b
  }

  function RecordSuccess(cfg: Config, clock: Clock, b: Breaker): (Breaker, bool) {
    var c := CheckTimeout(cfg, clock, b);
    if c.state == Open then (c, false) else (AfterSuccess(cfg, clock, CountSuccess(cfg, c)), true)
  }

  function CountFailure(cfg: Config, clock: Clock, b: Breaker): Breaker {
    b.(failureCount := b.failureCount + 1, totalFailures := b.totalFailures + 1,
       totalOperations := b.totalOperations + 1, lastFailureTime := Some(clock(b.ticks)), ticks := b.ticks + 1,
       recent := LastOf(b.recent + [false], cfg.windowSize),
       halfOpenCalls := b.halfOpenCalls + if b.state == HalfOpen then 1 else 0)
  }

  function AfterFailure(cfg: Config, clock: Clock, b: Breaker): Breaker {
    match b.state
    case Closed =>
      if b.failureCount >= cfg.failureThreshold then TransitionTo(clock, b, Open, FailureThresholdReached)
      else if FailureRate(b.recent) >= cfg.failureRateThreshold then TransitionTo(clock, b, Open, FailureRateExceeded)
      else b
    case HalfOpen => TransitionTo(clock, b, Open, FailureDuringTesting)
    case Open => b
  }

  function RecordFailure(cfg: Config, clock: Clock, b: Breaker): (Breaker, bool) {
    var c := AfterFailure(cfg, clock, CountFailure(cfg, clock, CheckTimeout(cfg, clock, b)));
    (c, c.state != Open)
  }

  function CanExecute(cfg: Config, clock: Clock, b: Breaker): (Breaker, bool) {
    var c := CheckTimeout(cfg, clock, b);
    (c, match c.state case Open => false case HalfOpen => c.halfOpenCalls < cfg.halfOpenMaxCalls case Closed => true)
  }

  function Reset(clock: Clock, b: Breaker): Breaker {
    if b.state != Closed then TransitionTo(clock, b, Closed, ManualReset)
    else b.(failureCount := 0, successCount := 0, recent := [])
  }

  // ----- the invariant -----

  ghost predicate Nondecreasing(clock: Clock) {
    forall i: nat, j: nat :: i <= j ==> clock(i) <= clock(j)
  }

  predicate ValidConfig(cfg: Config) {
    cfg.failureThreshold >= 1 && cfg.successThreshold >= 1 && cfg.failureRateThreshold > 0.0
  }

  predicate CountersOk(cfg: Config, b: Breaker) {
    && (b.state == Closed ==>
          && b.failureCount < cfg.failureThreshold
          && Failures(b.recent) <= b.failureCount
          && FailureRate(b.recent) < cfg.failureRateThreshold
          && b.halfOpenCalls == 0)
    && (b.state == HalfOpen ==> b.halfOpenCalls == b.successCount < cfg.successThreshold)
    && |b.recent| <= cfg.windowSize
    && b.totalOperations == b.totalSuccesses + b.totalFailures
  }

  predicate LegalEdge(t: Transition) {
    match (t.from, t.to)
    case (Closed, Open) => t.reason == FailureThresholdReached || t.reason == FailureRateExceeded
    case (Open, HalfOpen) => t.reason == TimeoutElapsed
    case (HalfOpen, Open) => t.reason == FailureDuringTesting
    case (HalfOpen, Closed) => t.reason == SuccessThresholdReached || t.reason == ManualReset
    case (Open, Closed) => t.reason == ManualReset
    case (_, _) => false
  }

  /** The log leads from Closed to `state` without gaps, forward in time, along legal edges, and
      every entry into HalfOpen comes at least `timeout` after the entry into Open it follows. */
  predicate LogOk(log: seq<Transition>, state: CircuitState, timeout: real) {
    if log == [] then state == Closed
    else
      var m := |log| - 1;
      var t := log[m];
      && t.to == state && LegalEdge(t) && LogOk(log[..m], t.from, timeout)
      && (m > 0 ==> log[m - 1].timestamp <= t.timestamp)
      && (t.to == HalfOpen ==> m > 0 && log[m - 1].to == Open && t.timestamp >= log[m - 1].timestamp + timeout)
  }

  ghost predicate HistoryOk(cfg: Config, clock: Clock, b: Breaker) {
    && LogOk(b.transitions, b.state, cfg.timeout)
    && b.totalTransitions == |b.transitions|
    && (b.transitions != [] ==> forall i: nat :: i >= b.ticks ==> b.transitions[|b.transitions| - 1].timestamp <= clock(i))
    && (b.state == Open ==> b.openedAt.Some? && b.transitions != [])
    && (b.state == Open ==> b.transitions[|b.transitions| - 1].timestamp <= b.openedAt.value)
  }

  ghost predicate Inv(cfg: Config, clock: Clock, b: Breaker) {
    CountersOk(cfg, b) && HistoryOk(cfg, clock, b)
  }

  lemma InitialInv(cfg: Config, clock: Clock)
    requires ValidConfig(cfg)
    ensures Inv(cfg, clock, INITIAL)
  {
  }

  // ----- the sliding window -----

  lemma {:induction false} FailuresConcat(a: seq<bool>, c: seq<bool>)
    ensures Failures(a + c) == Failures(a) + Failures(c)
  {
    if c == [] {
      assert a + c == a;
    } else {
      assert (a + c)[..|a + c| - 1] == a + c[..|c| - 1];
      FailuresConcat(a, c[..|c| - 1]);
    }
  }

  /** Adding a result and evicting the oldest adds at most that result's failure. */
  lemma FailuresInWindow(s: seq<bool>, x: bool, w: nat)
    ensures Failures(LastOf(s + [x], w)) <= Failures(s) + if x then 0 else 1
    ensures |s| <= w ==> |LastOf(s + [x], w)| == if |s| < w then |s| + 1 else w
  {
    var t := s + [x];
    assert t[..|t| - 1] == s;
    if |t| > w {
      var k := |t| - w;
      assert t == t[..k] + t[k..];
      FailuresConcat(t[..k], t[k..]);
    }
  }

  lemma RatioFalls(f: real, n: real, f': real, n': real, limit: real)
    requires f' <= f && 0.0 < n <= n' && f / n < limit && limit > 0.0
    ensures f' / n' < limit
  {
    RatioAtLeast(f, n, limit);
    RatioAtLeast(f', n', limit);
    ProductNonnegative(limit, n' - n);
    assert limit * (n' - n) == limit * n' - limit * n;
  }

  /** Successes never raise the failure rate, even when they evict older results. */
  lemma SuccessKeepsRate(s: seq<bool>, w: nat, limit: real)
    requires |s| <= w && FailureRate(s) < limit && limit > 0.0
    ensures FailureRate(LastOf(s + [true], w)) < limit
  {
    var t := LastOf(s + [true], w);
    FailuresInWindow(s, true, w);
    if s != [] {
      RatioFalls(Failures(s) as real, |s| as real, Failures(t) as real, |t| as real, limit);
    } else if t != [] {
      assert Failures([]) == 0 && Failures(t) == 0;
    }
  }

  // ----- every step keeps the invariant -----

  lemma TransitionHistory(cfg: Config, clock: Clock, b: Breaker, to: CircuitState, reason: Reason)
    requires Nondecreasing(clock) && HistoryOk(cfg, clock, b) && b.state != to
    requires LegalEdge(Transition(0.0, b.state, to, reason, 0, 0))
    requires to == HalfOpen ==> clock(b.ticks) >= b.openedAt.value + cfg.timeout
    ensures HistoryOk(cfg, clock, TransitionTo(clock, b, to, reason))
  {
    var c := TransitionTo(clock, b, to, reason);
    assert c.transitions[..|b.transitions|] == b.transitions;
  }

  lemma CheckTimeoutInv(cfg: Config, clock: Clock, b: Breaker)
    requires Nondecreasing(clock) && ValidConfig(cfg) && Inv(cfg, clock, b)
    ensures Inv(cfg, clock, CheckTimeout(cfg, clock, b))
  {
    if b.state == Open {
      var c := b.(ticks := b.ticks + 1);
      TickHistory(cfg, clock, b, c);
      assert clock(b.ticks) <= clock(c.ticks);
      if clock(b.ticks) - b.openedAt.value >= cfg.timeout { TransitionHistory(cfg, clock, c, HalfOpen, TimeoutElapsed); }
    }
  }

  lemma TickHistory(cfg: Config, clock: Clock, b: Breaker, c: Breaker)
    requires HistoryOk(cfg, clock, b) && c == b.(ticks := b.ticks + 1)
    ensures HistoryOk(cfg, clock, c)
  {
  }

  lemma CountSuccessInv(cfg: Config, clock: Clock, b: Breaker)
    requires ValidConfig(cfg) && Inv(cfg, clock, b) && b.state != Open
    ensures var c := CountSuccess(cfg, b);
            && HistoryOk(cfg, clock, c)
            && (b.state == Closed ==> CountersOk(cfg, c))
            && (b.state == HalfOpen ==> c.halfOpenCalls == c.successCount <= cfg.successThreshold)
            && |c.recent| <= cfg.windowSize && c.totalOperations == c.totalSuccesses + c.totalFailures
  {
    FailuresInWindow(b.recent, true, cfg.windowSize);
    if b.state == Closed { SuccessKeepsRate(b.recent, cfg.windowSize, cfg.failureRateThreshold); }
  }

  lemma RecordSuccessInv(cfg: Config, clock: Clock, b: Breaker)
    requires Nondecreasing(clock) && ValidConfig(cfg) && Inv(cfg, clock, b)
    ensures Inv(cfg, clock, RecordSuccess(cfg, clock, b).0)
  {
    var c := CheckTimeout(cfg, clock, b);
    CheckTimeoutInv(cfg, clock, b);
    if c.state != Open {
      CountSuccessInv(cfg, clock, c);
      var d := CountSuccess(cfg, c);
      if d.state == HalfOpen && d.successCount >= cfg.successThreshold {
        ClosedCounters(cfg, clock, d, SuccessThresholdReached);
        TransitionHistory(cfg, clock, d, Closed, SuccessThresholdReached);
      }
    }
  }

  lemma ClosedCounters(cfg: Config, clock: Clock, b: Breaker, reason: Reason)
    requires ValidConfig(cfg) && b.state != Closed && b.totalOperations == b.totalSuccesses + b.totalFailures
    ensures CountersOk(cfg, TransitionTo(clock, b, Closed, reason))
  {
  }

  lemma CountFailureInv(cfg: Config, clock: Clock, b: Breaker)
    requires Nondecreasing(clock) && Inv(cfg, clock, b)
    ensures var c := CountFailure(cfg, clock, b);
            && HistoryOk(cfg, clock, c)
            && (b.state == Closed ==> Failures(c.recent) <= c.failureCount && c.halfOpenCalls == 0)
            && |c.recent| <= cfg.windowSize && c.totalOperations == c.totalSuccesses + c.totalFailures
  {
    FailuresInWindow(b.recent, false, cfg.windowSize);
  }

  lemma OpenedCounters(cfg: Config, clock: Clock, b: Breaker, reason: Reason)
    requires b.state != Open && b.totalOperations == b.totalSuccesses + b.totalFailures && |b.recent| <= cfg.windowSize
    ensures CountersOk(cfg, TransitionTo(clock, b, Open, reason))
  {
  }

  lemma AfterFailureInv(cfg: Config, clock: Clock, b: Breaker)
    requires Nondecreasing(clock) && HistoryOk(cfg, clock, b)
    requires b.state == Closed ==> Failures(b.recent) <= b.failureCount && b.halfOpenCalls == 0
    requires |b.recent| <= cfg.windowSize && b.totalOperations == b.totalSuccesses + b.totalFailures
    ensures Inv(cfg, clock, AfterFailure(cfg, clock, b))
  {
    match b.state {
      case Closed =>
        if b.failureCount >= cfg.failureThreshold {
          OpenedCounters(cfg, clock, b, FailureThresholdReached);
          TransitionHistory(cfg, clock, b, Open, FailureThresholdReached);
        } else if FailureRate(b.recent) >= cfg.failureRateThreshold {
          OpenedCounters(cfg, clock, b, FailureRateExceeded);
          TransitionHistory(cfg, clock, b, Open, FailureRateExceeded);
        }
      case HalfOpen =>
        OpenedCounters(cfg, clock, b, FailureDuringTesting);
        TransitionHistory(cfg, clock, b, Open, FailureDuringTesting);
      case Open =>
    }
  }

  lemma RecordFailureInv(cfg: Config, clock: Clock, b: Breaker)
    requires Nondecreasing(clock) && ValidConfig(cfg) && Inv(cfg, clock, b)
    ensures Inv(cfg, clock, RecordFailure(cfg, clock, b).0)
  {
    var c := CheckTimeout(cfg, clock, b);
    CheckTimeoutInv(cfg, clock, b);
    CountFailureInv(cfg, clock, c);
    AfterFailureInv(cfg, clock, CountFailure(cfg, clock, c));
  }

  lemma ResetInv(cfg: Config, clock: Clock, b: Breaker)
    requires Nondecreasing(clock) && ValidConfig(cfg) && Inv(cfg, clock, b)
    ensures Inv(cfg, clock, Reset(clock, b))
  {
    if b.state != Closed { TransitionHistory(cfg, clock, b, Closed, ManualReset); }
  }

  // ----- runs -----

  datatype Op = Look | Ask | Success | Failure | ManualResetOp

  function Do(cfg: Config, clock: Clock, b: Breaker, op: Op): Breaker {
    match op
    case Look => CheckTimeout(cfg, clock, b)
    case Ask => CanExecute(cfg, clock, b).0
    case Success => RecordSuccess(cfg, clock, b).0
    case Failure => RecordFailure(cfg, clock, b).0
    case ManualResetOp => Reset(clock, b)
  }

  function Run(cfg: Config, clock: Clock, ops: seq<Op>): Breaker {
    if ops == [] then INITIAL else Do(cfg, clock, Run(cfg, clock, ops[..|ops| - 1]), ops[|ops| - 1])
  }

  lemma DoInv(cfg: Config, clock: Clock, b: Breaker, op: Op)
    requires Nondecreasing(clock) && ValidConfig(cfg) && Inv(cfg, clock, b)
    ensures Inv(cfg, clock, Do(cfg, clock, b, op))
  {
    match op {
      case Look => CheckTimeoutInv(cfg, clock, b);
      case Ask => CheckTimeoutInv(cfg, clock, b);
      case Success => RecordSuccessInv(cfg, clock, b);
      case Failure => RecordFailureInv(cfg, clock, b);
      case ManualResetOp => ResetInv(cfg, clock, b);
    }
  }

  /** Over every sequence of calls, by whatever callers and however interleaved, and every clock
      that does not run backwards. */
  lemma {:induction false} RunInv(cfg: Config, clock: Clock, ops: seq<Op>)
    requires Nondecreasing(clock) && ValidConfig(cfg)
    ensures Inv(cfg, clock, Run(cfg, clock, ops))
  {
    if ops == [] {
      InitialInv(cfg, clock);
    } else {
      RunInv(cfg, clock, ops[..|ops| - 1]);
      DoInv(cfg, clock, Run(cfg, clock, ops[..|ops| - 1]), ops[|ops| - 1]);
    }
  }

  lemma {:induction false} LogReasons(log: seq<Transition>, state: CircuitState, timeout: real)
    requires LogOk(log, state, timeout)
    ensures forall t :: t in log ==> LegalEdge(t) && t.reason != HalfOpenTestingFailed
  {
    if log != [] {
      var m := |log| - 1;
      LogReasons(log[..m], log[m].from, timeout);
      assert log == log[..m] + [log[m]];
    }
  }

  /** "Half-open testing failed" is never logged. */
  lemma TestingNeverFailsBySuccess(cfg: Config, clock: Clock, ops: seq<Op>, t: Transition)
    requires Nondecreasing(clock) && ValidConfig(cfg) && t in Run(cfg, clock, ops).transitions
    ensures LegalEdge(t) && t.reason != HalfOpenTestingFailed
  {
    RunInv(cfg, clock, ops);
    var b := Run(cfg, clock, ops);
    LogReasons(b.transitions, b.state, cfg.timeout);
  }

  // ----- admission while half open -----

  /** If enough calls are allowed to reach the success threshold, a half-open breaker admits. */
  lemma HalfOpenAdmits(cfg: Config, clock: Clock, ops: seq<Op>)
    requires Nondecreasing(clock) && ValidConfig(cfg) && cfg.successThreshold <= cfg.halfOpenMaxCalls
    ensures var (b, ok) := CanExecute(cfg, clock, Run(cfg, clock, ops)); ok <==> b.state != Open
  {
    RunInv(cfg, clock, ops);
    CheckTimeoutInv(cfg, clock, Run(cfg, clock, ops));
  }

  // ----- runs that reach the half-open state -----

  function Repeated<T>(x: T, k: nat): (r: seq<T>)
    ensures |r| == k
  {
    seq(k, _ => x)
  }

  lemma RunPush(cfg: Config, clock: Clock, ops: seq<Op>, more: seq<Op>, op: Op)
    ensures Run(cfg, clock, ops + (more + [op])) == Do(cfg, clock, Run(cfg, clock, ops + more), op)
  {
    hide Do;
    var all := ops + (more + [op]);
    assert all[..|all| - 1] == ops + more;
  }

  lemma RepeatedPush<T>(x: T, k: nat)
    ensures Repeated(x, k + 1) == Repeated(x, k) + [x]
  {
  }

  /** Readings far enough apart that every timeout has passed by the next one. */
  ghost predicate Patient(cfg: Config, clock: Clock) {
    Nondecreasing(clock) && forall i: nat, j: nat :: i < j ==> clock(j) >= clock(i) + cfg.timeout
  }

  function Steps(step: real, i: nat): real {
    if i == 0 then 0.0 else Steps(step, i - 1) + step
  }

  lemma {:induction false} StepsApart(step: real, i: nat, j: nat)
    requires i < j && step >= 0.0
    ensures Steps(step, j) >= Steps(step, i) + step
  {
    if i < j - 1 { StepsApart(step, i, j - 1); }
  }

  lemma PatientClock(cfg: Config) returns (clock: Clock)
    ensures Patient(cfg, clock)
  {
    var step := if cfg.timeout > 0.0 then cfg.timeout else 0.0;
    clock := (i: nat) => Steps(step, i);
    forall i: nat, j: nat | i < j ensures clock(j) >= clock(i) + step { StepsApart(step, i, j); }
  }

  ghost predicate OpenedBefore(clock: Clock, b: Breaker) {
    b.state == Open && exists i: nat :: i < b.ticks && b.openedAt == Some(clock(i))
  }

  lemma FailureOpens(cfg: Config, clock: Clock, b: Breaker)
    requires b.state != Open
    ensures var c := Do(cfg, clock, b, Failure);
            OpenedBefore(clock, c) || (b.state == c.state == Closed && c.failureCount == b.failureCount + 1)
  {
    var c := Do(cfg, clock, b, Failure);
    if c.state == Open { assert c.openedAt == Some(clock(c.ticks - 1)); }
  }

  lemma FailureStep(cfg: Config, clock: Clock, b: Breaker)
    requires Patient(cfg, clock) && (b.state == Closed || OpenedBefore(clock, b))
    ensures var c := Do(cfg, clock, b, Failure);
            OpenedBefore(clock, c) || (b.state == c.state == Closed && c.failureCount == b.failureCount + 1)
  {
    FailureOpens(cfg, clock, CheckTimeout(cfg, clock, b));
  }

  lemma {:induction false} FailuresRun(cfg: Config, clock: Clock, k: nat)
    requires Patient(cfg, clock)
    ensures var b := Run(cfg, clock, Repeated(Failure, k));
            OpenedBefore(clock, b) || (b.state == Closed && b.failureCount == k)
  {
    hide Do;
    if k > 0 {
      FailuresRun(cfg, clock, k - 1);
      RepeatedPush(Failure, k - 1);
      FailureStep(cfg, clock, Run(cfg, clock, Repeated(Failure, k - 1)));
    }
  }

  /** Enough failures to open, and a look once the timeout has passed. */
  function OpeningRun(cfg: Config): seq<Op>
    requires ValidConfig(cfg)
  {
    Repeated(Failure, cfg.failureThreshold) + [Look]
  }

  lemma HalfOpenIsReached(cfg: Config, clock: Clock)
    requires Patient(cfg, clock) && ValidConfig(cfg)
    ensures Testing(Run(cfg, clock, OpeningRun(cfg)), 0)
  {
    var ops := Repeated(Failure, cfg.failureThreshold);
    FailuresRun(cfg, clock, cfg.failureThreshold);
    RunInv(cfg, clock, ops);
    assert OpeningRun(cfg)[..|ops|] == ops;
    var b := Run(cfg, clock, ops);
    assert Run(cfg, clock, OpeningRun(cfg)) == CheckTimeout(cfg, clock, b);
  }

  /** Half open after as many calls as successes. */
  predicate Testing(b: Breaker, n: nat) {
    b.state == HalfOpen && b.halfOpenCalls == b.successCount == n
  }

  lemma SuccessStep(cfg: Config, clock: Clock, b: Breaker, n: nat)
    requires Testing(b, n) && n + 1 < cfg.successThreshold
    ensures Testing(Do(cfg, clock, b, Success), n + 1)
  {
  }

  lemma {:induction false} SuccessesCount(cfg: Config, clock: Clock, ops: seq<Op>, k: nat)
    requires Testing(Run(cfg, clock, ops), 0) && k < cfg.successThreshold
    ensures Testing(Run(cfg, clock, ops + Repeated(Success, k)), k)
  {
    hide Do, Run, Testing;
    if k == 0 {
      assert ops + Repeated(Success, 0) == ops;
    } else {
      SuccessesCount(cfg, clock, ops, k - 1);
      RepeatedPush(Success, k - 1);
      RunPush(cfg, clock, ops, Repeated(Success, k - 1), Success);
      SuccessStep(cfg, clock, Run(cfg, clock, ops + Repeated(Success, k - 1)), k - 1);
    }
  }

  /** A half-open breaker that refuses, and that looking or asking does not change. */
  predicate Starved(cfg: Config, clock: Clock, b: Breaker) {
    b.state == HalfOpen && CanExecute(cfg, clock, b) == (b, false) && CheckTimeout(cfg, clock, b) == b
  }

  /** If fewer calls are allowed than successes are needed, some run starves. */
  lemma HalfOpenStarves(cfg: Config) returns (clock: Clock, ops: seq<Op>)
    requires ValidConfig(cfg) && cfg.halfOpenMaxCalls < cfg.successThreshold
    ensures Nondecreasing(clock) && Starved(cfg, clock, Run(cfg, clock, ops))
  {
    clock := PatientClock(cfg);
    HalfOpenIsReached(cfg, clock);
    var k := if cfg.halfOpenMaxCalls > 0 then cfg.halfOpenMaxCalls else 0;
    SuccessesCount(cfg, clock, OpeningRun(cfg), k);
    ops := OpeningRun(cfg) + Repeated(Success, k);
  }

  /** A run that starved stays as it is while callers only look and ask. */
  lemma {:induction false} StarvedForever(cfg: Config, clock: Clock, ops: seq<Op>, more: seq<Op>)
    requires Starved(cfg, clock, Run(cfg, clock, ops))
    requires forall i :: 0 <= i < |more| ==> more[i] == Look || more[i] == Ask
    ensures Run(cfg, clock, ops + more) == Run(cfg, clock, ops)
  {
    hide Run, CanExecute, CheckTimeout;
    if more == [] {
      assert ops + more == ops;
    } else {
      var m := |more| - 1;
      StarvedForever(cfg, clock, ops, more[..m]);
      assert more == more[..m] + [more[m]];
      RunPush(cfg, clock, ops, more[..m], more[m]);
    }
  }

  /** Asking after these calls is refused only if the breaker is open. */
  predicate AdmitsUnlessOpen(cfg: Config, clock: Clock, ops: seq<Op>) {
    var (b, ok) := CanExecute(cfg, clock, Run(cfg, clock, ops));
    ok <==> b.state != Open
  }

  /** In every run only an open breaker refuses, exactly when the calls allowed while half open
      are enough to reach the success threshold. */
  lemma AdmissionExactly(cfg: Config)
    requires ValidConfig(cfg)
    ensures (forall clock: Clock, ops: seq<Op> :: Nondecreasing(clock) ==> AdmitsUnlessOpen(cfg, clock, ops))
       <==> cfg.successThreshold <= cfg.halfOpenMaxCalls
  {
    if cfg.successThreshold <= cfg.halfOpenMaxCalls {
      forall clock: Clock, ops: seq<Op> | Nondecreasing(clock) ensures AdmitsUnlessOpen(cfg, clock, ops) {
        HalfOpenAdmits(cfg, clock, ops);
      }
    } else {
      var clock, ops := HalfOpenStarves(cfg);
      assert !AdmitsUnlessOpen(cfg, clock, ops);
    }
  }

  // ----- execute: admit, run, record, with callers interleaved -----

  /** Calls admitted, still running, and finished well while the breaker had reopened. */
  datatype System = System(b: Breaker, admitted: nat, running: nat, ignored: nat)

  datatype Action = Start | Finish(ok: bool) | Observe | Operator

  function Act(cfg: Config, clock: Clock, s: System, a: Action): System {
    match a
    case Start =>
      var (b, ok) := CanExecute(cfg, clock, s.b);
      if ok then s.(b := b, admitted := s.admitted + 1, running := s.running + 1) else s.(b := b)
    case Finish(ok) =>
      if s.running == 0 then s
      else if ok then
        var (b, counted) := RecordSuccess(cfg, clock, s.b);
        s.(b := b, running := s.running - 1, ignored := s.ignored + if counted then 0 else 1)
      else s.(b := RecordFailure(cfg, clock, s.b).0, running := s.running - 1)
    case Observe => s.(b := CheckTimeout(cfg, clock, s.b))
    case Operator => s.(b := Reset(clock, s.b))
  }

  function Execute(cfg: Config, clock: Clock, actions: seq<Action>): System {
    if actions == [] then System(INITIAL, 0, 0, 0)
    else Act(cfg, clock, Execute(cfg, clock, actions[..|actions| - 1]), actions[|actions| - 1])
  }

  /** Every admitted call is still running, counted as an operation, or a success that came
      back while the breaker was open. */
  predicate Balanced(s: System) {
    s.admitted == s.running + s.b.totalOperations + s.ignored
  }

  lemma OperationCounts(cfg: Config, clock: Clock, b: Breaker)
    ensures CheckTimeout(cfg, clock, b).totalOperations == b.totalOperations
    ensures Reset(clock, b).totalOperations == b.totalOperations
    ensures var (c, counted) := RecordSuccess(cfg, clock, b);
            c.totalOperations == b.totalOperations + if counted then 1 else 0
    ensures RecordFailure(cfg, clock, b).0.totalOperations == b.totalOperations + 1
  {
  }

  lemma ActInv(cfg: Config, clock: Clock, s: System, a: Action)
    requires Nondecreasing(clock) && ValidConfig(cfg) && Inv(cfg, clock, s.b) && Balanced(s)
    ensures Inv(cfg, clock, Act(cfg, clock, s, a).b) && Balanced(Act(cfg, clock, s, a))
  {
    OperationCounts(cfg, clock, s.b);
    match a {
      case Start => CheckTimeoutInv(cfg, clock, s.b);
      case Finish(ok) =>
        if ok { RecordSuccessInv(cfg, clock, s.b); } else { RecordFailureInv(cfg, clock, s.b); }
      case Observe => CheckTimeoutInv(cfg, clock, s.b);
      case Operator => ResetInv(cfg, clock, s.b);
    }
  }

  /** Under every interleaving of callers the breaker keeps its invariant and no call is lost. */
  lemma {:induction false} ExecuteInv(cfg: Config, clock: Clock, actions: seq<Action>)
    requires Nondecreasing(clock) && ValidConfig(cfg)
    ensures Inv(cfg, clock, Execute(cfg, clock, actions).b) && Balanced(Execute(cfg, clock, actions))
  {
    if actions == [] {
      InitialInv(cfg, clock);
    } else {
      var k := |actions| - 1;
      ExecuteInv(cfg, clock, actions[..k]);
      ActInv(cfg, clock, Execute(cfg, clock, actions[..k]), actions[k]);
    }
  }

  // ----- how many calls are let in while half open -----

  /** A run together with the calls let in since the breaker last became half open, and the
      largest number of calls that ran at once. */
  datatype Watch = Watch(s: System, letIn: nat, most: nat)

  function WatchStep(cfg: Config, clock: Clock, w: Watch, a: Action): Watch {
    var s := Act(cfg, clock, w.s, a);
    var before := if w.s.b.state == HalfOpen then w.letIn else 0;
    var letIn := if s.b.state != HalfOpen then 0 else if s.admitted > w.s.admitted then before + 1 else before;
    Watch(s, letIn, if s.running > w.most then s.running else w.most)
  }

  function Watched(cfg: Config, clock: Clock, actions: seq<Action>): Watch {
    if actions == [] then Watch(System(INITIAL, 0, 0, 0), 0, 0)
    else WatchStep(cfg, clock, Watched(cfg, clock, actions[..|actions| - 1]), actions[|actions| - 1])
  }

  lemma {:induction false} WatchedExecutes(cfg: Config, clock: Clock, actions: seq<Action>)
    ensures Watched(cfg, clock, actions).s == Execute(cfg, clock, actions)
  {
    if actions != [] { WatchedExecutes(cfg, clock, actions[..|actions| - 1]); }
  }

  /** Calls beyond which a half-open breaker admits nobody: by the limit, or by closing first. */
  function Allowed(cfg: Config): int {
    if cfg.halfOpenMaxCalls < cfg.successThreshold then cfg.halfOpenMaxCalls else cfg.successThreshold
  }

  predicate WithinLimit(cfg: Config, w: Watch) {
    && (w.s.b.state == HalfOpen ==> w.letIn <= w.s.b.halfOpenCalls + w.s.running)
    && (w.s.b.state != HalfOpen ==> w.letIn == 0)
    && w.s.running <= w.most
    && (w.letIn > 0 ==> cfg.halfOpenMaxCalls >= 1 && w.letIn <= Allowed(cfg) - 1 + w.most)
  }

  lemma StartWithin(cfg: Config, clock: Clock, w: Watch)
    requires WithinLimit(cfg, w) && CountersOk(cfg, CheckTimeout(cfg, clock, w.s.b))
    ensures WithinLimit(cfg, WatchStep(cfg, clock, w, Start))
  {
  }

  lemma FinishWithin(cfg: Config, clock: Clock, w: Watch, ok: bool)
    requires WithinLimit(cfg, w)
    ensures WithinLimit(cfg, WatchStep(cfg, clock, w, Finish(ok)))
  {
  }

  /** Under every interleaving, if at most c calls ever run at once, at most Allowed - 1 + c calls
      are let in while the breaker stays half open. */
  lemma {:induction false} LetInBound(cfg: Config, clock: Clock, actions: seq<Action>)
    requires Nondecreasing(clock) && ValidConfig(cfg)
    ensures WithinLimit(cfg, Watched(cfg, clock, actions))
  {
    if actions != [] {
      var m := |actions| - 1;
      var w := Watched(cfg, clock, actions[..m]);
      LetInBound(cfg, clock, actions[..m]);
      match actions[m] {
        case Start =>
          WatchedExecutes(cfg, clock, actions[..m]);
          ExecuteInv(cfg, clock, actions[..m]);
          CheckTimeoutInv(cfg, clock, w.s.b);
          StartWithin(cfg, clock, w);
        case Finish(ok) => FinishWithin(cfg, clock, w, ok);
        case Observe =>
        case Operator =>
      }
    }
  }

  // ----- the bound is met -----

  /** `k` calls one after another. */
  function Calls(ok: bool, k: nat): seq<Action> {
    if k == 0 then [] else Calls(ok, k - 1) + [Start, Finish(ok)]
  }

  lemma WatchedPush(cfg: Config, clock: Clock, actions: seq<Action>, more: seq<Action>, a: Action)
    ensures Watched(cfg, clock, actions + (more + [a])) == WatchStep(cfg, clock, Watched(cfg, clock, actions + more), a)
  {
    hide WatchStep;
    var all := actions + (more + [a]);
    assert all[..|all| - 1] == actions + more;
  }

  lemma WatchedCall(cfg: Config, clock: Clock, actions: seq<Action>, ok: bool, k: nat)
    requires k > 0
    ensures Watched(cfg, clock, actions + Calls(ok, k))
         == WatchStep(cfg, clock, WatchStep(cfg, clock, Watched(cfg, clock, actions + Calls(ok, k - 1)), Start), Finish(ok))
  {
    hide WatchStep, Watched;
    var c := Calls(ok, k - 1);
    WatchedPush(cfg, clock, actions, c, Start);
    WatchedPush(cfg, clock, actions, c + [Start], Finish(ok));
    assert Calls(ok, k) == (c + [Start]) + [Finish(ok)];
  }

  /** At rest between two failing calls: nothing runs, and the breaker is open or has counted them. */
  predicate Failing(w: Watch, k: nat) {
    w.s.running == 0 && w.most <= 1 && (w.s.b.state == Closed ==> w.s.b.failureCount == k)
  }

  lemma FailingCall(cfg: Config, clock: Clock, w: Watch, k: nat)
    requires Patient(cfg, clock) && cfg.halfOpenMaxCalls >= 1 && Failing(w, k)
    requires w.s.b.state == Closed || OpenedBefore(clock, w.s.b)
    ensures var r := WatchStep(cfg, clock, WatchStep(cfg, clock, w, Start), Finish(false));
            Failing(r, k + 1) && (r.s.b.state == Closed || OpenedBefore(clock, r.s.b))
  {
    var v := WatchStep(cfg, clock, w, Start);
    assert v.s.running == 1 && v.s.b == CheckTimeout(cfg, clock, w.s.b) && v.s.b.state != Open;
    FailureOpens(cfg, clock, v.s.b);
  }

  lemma {:induction false} FailingCalls(cfg: Config, clock: Clock, k: nat)
    requires Patient(cfg, clock) && cfg.halfOpenMaxCalls >= 1
    ensures var w := Watched(cfg, clock, Calls(false, k));
            Failing(w, k) && (w.s.b.state == Closed || OpenedBefore(clock, w.s.b))
  {
    hide WatchStep, OpenedBefore;
    assert forall i: nat :: [] + Calls(false, i) == Calls(false, i);
    if k == 0 {
      NothingWatched(cfg, clock);
    } else {
      FailingCalls(cfg, clock, k - 1);
      WatchedCall(cfg, clock, [], false, k);
      FailingCall(cfg, clock, Watched(cfg, clock, Calls(false, k - 1)), k - 1);
    }
  }

  lemma NothingWatched(cfg: Config, clock: Clock)
    ensures Watched(cfg, clock, []) == Watch(System(INITIAL, 0, 0, 0), 0, 0)
  {
  }

  /** Half open after `k` calls, all of them let in, finished well and counted. */
  predicate Tested(w: Watch, k: nat) {
    Testing(w.s.b, k) && w.letIn == k && w.s.running == 0 && w.most <= 1
  }

  /** Enough failing calls one after another to open, and a look once the timeout has passed. */
  function OpeningCalls(cfg: Config): seq<Action>
    requires ValidConfig(cfg)
  {
    Calls(false, cfg.failureThreshold) + [Observe]
  }

  lemma TestingIsReached(cfg: Config, clock: Clock)
    requires Patient(cfg, clock) && ValidConfig(cfg) && cfg.halfOpenMaxCalls >= 1
    ensures Tested(Watched(cfg, clock, OpeningCalls(cfg)), 0)
  {
    hide Watched, Execute;
    var n: nat := cfg.failureThreshold;
    var calls := Calls(false, n);
    var w := Watched(cfg, clock, calls);
    FailingCalls(cfg, clock, n);
    WatchedExecutes(cfg, clock, calls);
    ExecuteInv(cfg, clock, calls);
    assert OpenedBefore(clock, w.s.b);
    WatchedPush(cfg, clock, [], calls, Observe);
    assert [] + calls == calls && [] + (calls + [Observe]) == OpeningCalls(cfg);
    ObservedIsTesting(cfg, clock, w);
  }

  lemma ObservedIsTesting(cfg: Config, clock: Clock, w: Watch)
    requires Patient(cfg, clock) && OpenedBefore(clock, w.s.b) && w.s.running == 0 && w.most <= 1
    ensures Tested(WatchStep(cfg, clock, w, Observe), 0)
  {
    assert CheckTimeout(cfg, clock, w.s.b).state == HalfOpen;
  }

  lemma SucceedingCall(cfg: Config, clock: Clock, w: Watch, k: nat)
    requires Tested(w, k) && k + 1 < Allowed(cfg)
    ensures Tested(WatchStep(cfg, clock, WatchStep(cfg, clock, w, Start), Finish(true)), k + 1)
  {
    var v := WatchStep(cfg, clock, w, Start);
    assert v.s.b == w.s.b && v.letIn == k + 1 && v.s.running == 1;
    SuccessStep(cfg, clock, v.s.b, k);
  }

  lemma {:induction false} SucceedingCalls(cfg: Config, clock: Clock, actions: seq<Action>, k: nat)
    requires Tested(Watched(cfg, clock, actions), 0) && k < Allowed(cfg)
    ensures Tested(Watched(cfg, clock, actions + Calls(true, k)), k)
  {
    hide WatchStep, Tested, Watched;
    if k == 0 {
      assert actions + Calls(true, 0) == actions;
    } else {
      SucceedingCalls(cfg, clock, actions, k - 1);
      WatchedCall(cfg, clock, actions, true, k);
      SucceedingCall(cfg, clock, Watched(cfg, clock, actions + Calls(true, k - 1)), k - 1);
    }
  }

  /** `c` calls running, all let in on top of `k` that have finished. */
  predicate Crowded(w: Watch, k: nat, c: nat) {
    Testing(w.s.b, k) && w.letIn == k + c && w.s.running == c && w.most <= if c > 1 then c else 1
  }

  lemma CrowdingStart(cfg: Config, clock: Clock, w: Watch, k: nat, c: nat)
    requires Crowded(w, k, c) && k < cfg.halfOpenMaxCalls
    ensures Crowded(WatchStep(cfg, clock, w, Start), k, c + 1)
  {
  }

  lemma {:induction false} CrowdingStarts(cfg: Config, clock: Clock, actions: seq<Action>, k: nat, c: nat)
    requires Tested(Watched(cfg, clock, actions), k) && k < cfg.halfOpenMaxCalls
    ensures Crowded(Watched(cfg, clock, actions + Repeated(Start, c)), k, c)
  {
    hide WatchStep, Watched;
    if c == 0 {
      assert actions + Repeated(Start, 0) == actions;
    } else {
      CrowdingStarts(cfg, clock, actions, k, c - 1);
      RepeatedPush(Start, c - 1);
      WatchedPush(cfg, clock, actions, Repeated(Start, c - 1), Start);
      CrowdingStart(cfg, clock, Watched(cfg, clock, actions + Repeated(Start, c - 1)), k, c - 1);
    }
  }

  /** The bound is met: Allowed - 1 calls that finish well one after another, then `c` at once. */
  lemma LetInIsTight(cfg: Config, c: nat) returns (clock: Clock, actions: seq<Action>)
    requires ValidConfig(cfg) && cfg.halfOpenMaxCalls >= 1 && c >= 1
    ensures Nondecreasing(clock)
    ensures var w := Watched(cfg, clock, actions); w.most <= c && w.letIn == Allowed(cfg) - 1 + c
  {
    clock := PatientClock(cfg);
    hide Watched;
    var k: nat := Allowed(cfg) - 1;
    TestingIsReached(cfg, clock);
    SucceedingCalls(cfg, clock, OpeningCalls(cfg), k);
    actions := OpeningCalls(cfg) + Calls(true, k);
    CrowdingStarts(cfg, clock, actions, k, c);
    actions := actions + Repeated(Start, c);
  }

  /** With at most `c` calls at once no run lets in more than half_open_max_calls. */
  ghost predicate LimitHolds(cfg: Config, c: nat) {
    forall clock: Clock, actions: seq<Action> :: Nondecreasing(clock) && Watched(cfg, clock, actions).most <= c ==>
      Watched(cfg, clock, actions).letIn <= cfg.halfOpenMaxCalls
  }

  /** half_open_max_calls bounds the calls let into a half-open breaker exactly when callers
      going one at a time, or as many more as the limit exceeds the success threshold, are all
      there are. */
  lemma LimitExactly(cfg: Config, c: nat)
    requires ValidConfig(cfg) && cfg.halfOpenMaxCalls >= 1 && c >= 1
    ensures LimitHolds(cfg, c) <==> c <= 1 + cfg.halfOpenMaxCalls - Allowed(cfg)
  {
    if c <= 1 + cfg.halfOpenMaxCalls - Allowed(cfg) {
      forall clock: Clock, actions: seq<Action> | Nondecreasing(clock) && Watched(cfg, clock, actions).most <= c
        ensures Watched(cfg, clock, actions).letIn <= cfg.halfOpenMaxCalls
      {
        LetInBound(cfg, clock, actions);
      }
    } else {
      var clock, actions := LetInIsTight(cfg, c);
    }
  }

  /** So callers that go one at a time never exceed it, and where it is at most the success
      threshold any two callers can. */
  lemma OneAtATime(cfg: Config)
    requires ValidConfig(cfg) && cfg.halfOpenMaxCalls >= 1
    ensures LimitHolds(cfg, 1)
    ensures cfg.halfOpenMaxCalls <= cfg.successThreshold ==> !LimitHolds(cfg, 2)
  {
    LimitExactly(cfg, 1);
    LimitExactly(cfg, 2);
  }

  /** Without a bound on the calls at once there is none on those let in: in some run any number
      starts in a half-open breaker with no call running before one finishes. */
  lemma AdmissionsNotCounted(cfg: Config, k: nat) returns (clock: Clock, actions: seq<Action>)
    requires ValidConfig(cfg) && cfg.halfOpenMaxCalls >= 1
    ensures Nondecreasing(clock)
    ensures var s := Execute(cfg, clock, actions); s.b.state == HalfOpen && s.running == 0
    ensures var s := Execute(cfg, clock, actions + Repeated(Start, k)); s.b.state == HalfOpen && s.running == k
  {
    clock := PatientClock(cfg);
    hide Watched, Execute;
    actions := OpeningCalls(cfg);
    TestingIsReached(cfg, clock);
    CrowdingStarts(cfg, clock, actions, 0, k);
    WatchedExecutes(cfg, clock, actions);
    WatchedExecutes(cfg, clock, actions + Repeated(Start, k));
  }

  // ----- the breaker object -----

  class CircuitBreakerTelemetry {
    const cfg: Config
    const clock: Clock
    var state: CircuitState
    var failureCount: nat
    var successCount: nat
    var halfOpenCalls: nat
    var recent: seq<bool>
    var transitions: seq<Transition>
    var lastFailureTime: Option<real>
    var openedAt: Option<real>
    var totalTransitions: nat
    var totalOperations: nat
    var totalFailures: nat
    var totalSuccesses: nat
    var ticks: nat

    ghost function Now(): Breaker
      reads this
    {
      Breaker(state, failureCount, successCount, halfOpenCalls, recent, transitions, lastFailureTime, openedAt,
              totalTransitions, totalOperations, totalFailures, totalSuccesses, ticks)
    }

    constructor (cfg: Config, clock: Clock)
      ensures this.cfg == cfg && this.clock == clock && Now() == INITIAL
    {
      this.cfg, this.clock := cfg, clock;
      state, failureCount, successCount, halfOpenCalls := Closed, 0, 0, 0;
      recent, transitions, lastFailureTime, openedAt := [], [], None, None;
      totalTransitions, totalOperations, totalFailures, totalSuccesses, ticks := 0, 0, 0, 0, 0;
    }

    method Time() returns (t: real)
      modifies `ticks
      ensures t == clock(old(ticks)) && ticks == old(ticks) + 1
    {
      t := clock(ticks);
      ticks := ticks + 1;
    }

    method MoveTo(to: CircuitState, reason: Reason)
      modifies this
      ensures Now() == TransitionTo(clock, old(Now()), to, reason)
    {
      if state == to {
        return;
      }
      LogMove(to, reason);
      Enter();
    }

    method LogMove(to: CircuitState, reason: Reason)
      modifies `ticks, `state, `transitions, `totalTransitions
      ensures Now() == Logged(clock, old(Now()), to, reason)
    {
      var from := state;
      var timestamp := Time();
      var transition := Transition(timestamp, from, to, reason, failureCount, successCount);
      state := to;
      transitions := transitions + [transition];
      totalTransitions := totalTransitions + 1;
    }

    method Enter()
      modifies `halfOpenCalls, `successCount, `failureCount, `recent, `openedAt, `ticks
      ensures Now() == Entered(clock, old(Now()))
    {
      if state == HalfOpen {
        halfOpenCalls, successCount := 0, 0;
      } else if state == Closed {
        failureCount, successCount, halfOpenCalls := 0, 0, 0;
        recent := [];
      } else {
        var now := Time();
        openedAt := Some(now);
      }
    }

    method Expire()
      modifies this
      ensures Now() == CheckTimeout(cfg, clock, old(Now()))
    {
      if state == Open && openedAt.Some? {
        var now := Time();
        if now - openedAt.value >= cfg.timeout {
          MoveTo(HalfOpen, TimeoutElapsed);
        }
      }
    }

    method AddSuccess() returns (proceed: bool)
      modifies this
      ensures (Now(), proceed) == RecordSuccess(cfg, clock, old(Now()))
    {
      Expire();
      if state == Open {
        return false;
      }
      successCount := successCount + 1;
      totalSuccesses := totalSuccesses + 1;
      totalOperations := totalOperations + 1;
      recent := LastOf(recent + [true], cfg.windowSize);
      if state == HalfOpen {
        halfOpenCalls := halfOpenCalls + 1;
        JudgeTesting();
      }
      return true;
    }

    method JudgeTesting()
      requires state == HalfOpen
      modifies this
      ensures Now() == AfterSuccess(cfg, clock, old(Now()))
    {
      if successCount >= cfg.successThreshold {
        MoveTo(Closed, SuccessThresholdReached);
      } else if halfOpenCalls >= cfg.halfOpenMaxCalls {
        if successCount < halfOpenCalls / 2 {
          MoveTo(Open, HalfOpenTestingFailed);
        }
      }
    }

    method NoteFailure()
      modifies this
      ensures Now() == CountFailure(cfg, clock, old(Now()))
    {
      TallyFailure();
      StampFailure();
    }

    method TallyFailure()
      modifies `failureCount, `totalFailures, `totalOperations, `recent, `halfOpenCalls
      ensures failureCount == old(failureCount) + 1 && totalFailures == old(totalFailures) + 1
      ensures totalOperations == old(totalOperations) + 1 && recent == LastOf(old(recent) + [false], cfg.windowSize)
      ensures halfOpenCalls == old(halfOpenCalls) + if state == HalfOpen then 1 else 0
    {
      failureCount := failureCount + 1;
      totalFailures := totalFailures + 1;
      totalOperations := totalOperations + 1;
      recent := LastOf(recent + [false], cfg.windowSize);
      if state == HalfOpen {
        halfOpenCalls := halfOpenCalls + 1;
      }
    }

    method StampFailure()
      modifies `lastFailureTime, `ticks
      ensures lastFailureTime == Some(clock(old(ticks))) && ticks == old(ticks) + 1
    {
      var now := Time();
      lastFailureTime := Some(now);
    }

    method AddFailure() returns (attempted: bool)
      modifies this
      ensures (Now(), attempted) == RecordFailure(cfg, clock, old(Now()))
    {
      Expire();
      NoteFailure();
      JudgeFailure();
      attempted := state != Open;
    }

    method JudgeFailure()
      modifies this
      ensures Now() == AfterFailure(cfg, clock, old(Now()))
    {
      if state == Closed {
        if failureCount >= cfg.failureThreshold {
          MoveTo(Open, FailureThresholdReached);
        } else {
          var rate := CurrentRate();
          if rate >= cfg.failureRateThreshold {
            MoveTo(Open, FailureRateExceeded);
          }
        }
      } else if state == HalfOpen {
        MoveTo(Open, FailureDuringTesting);
      }
    }

    method CurrentRate() returns (rate: real)
      ensures rate == FailureRate(recent)
    {
      if recent == [] {
        return 0.0;
      }
      var failures := 0;
      for i := 0 to |recent|
        invariant failures == Failures(recent[..i])
      {
        assert recent[..i + 1][..i] == recent[..i];
        if !recent[i] { failures := failures + 1; }
      }
      assert recent[..|recent|] == recent;
      rate := failures as real / |recent| as real;
    }

    method MayExecute() returns (ok: bool)
      modifies this
      ensures (Now(), ok) == CanExecute(cfg, clock, old(Now()))
    {
      Expire();
      if state == Open {
        return false;
      }
      if state == HalfOpen {
        return halfOpenCalls < cfg.halfOpenMaxCalls;
      }
      return true;
    }

    method ResetManually()
      modifies this
      ensures Now() == Reset(clock, old(Now()))
    {
      if state != Closed {
        MoveTo(Closed, ManualReset);
      } else {
        failureCount, successCount := 0, 0;
        recent := [];
      }
    }
  }
}
