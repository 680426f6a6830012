/** The three-state circuit breaker (infrastructure/external/circuit_breaker.go),
    as immutable state and pure transitions. Each call is one atomic step; the
    clock reading `now` is a parameter. */
module CircuitBreaker {
  import opened Wrappers
  import opened Clock

  datatype CircuitState = Closed | Open | Half

  datatype Breaker = Breaker(
    state: CircuitState,
    failureCount: int,
    successCount: int,
    lastFailureTime: Time,
    failureThreshold: int,
    successThreshold: int,
    timeout: Duration)

  /** The answer of `CanExecute`, with the breaker after the call. */
  datatype Decision = Decision(allowed: bool, err: Option<string>, next: Breaker)

  const OpenMessage: string := "circuit breaker is OPEN - service unavailable"

  /** Go's zero `time.Time`, the last-failure time before any failure. */
  const ZeroTime: Time := 0

  /** Invariant kept by every transition: counters are non-negative, no trial
      successes are pending outside Half, and Half never holds a full quota. */
  predicate Valid(b: Breaker)
  {
    && b.failureCount >= 0
    && b.successCount >= 0
    && (b.state != Half ==> b.successCount == 0)
    && (b.state == Half ==> b.successCount < b.successThreshold || b.successCount == 0)
  }

  function NewCircuitBreaker(failureThreshold: int, successThreshold: int, timeout: Duration): (b: Breaker)
    ensures b.state == Closed && b.failureCount == 0 && b.successCount == 0
    ensures b.failureThreshold == failureThreshold && b.successThreshold == successThreshold
    ensures b.timeout == timeout
    ensures Valid(b)
  {
    Breaker(Closed, 0, 0, ZeroTime, failureThreshold, successThreshold, timeout)
  }

  function RecordSuccess(b: Breaker): (r: Breaker)
    requires Valid(b)
    ensures Valid(r)
    ensures r.failureCount == 0
    ensures b.state != Half ==> r == b.(failureCount := 0)
    ensures b.state == Half && b.successCount + 1 < b.successThreshold ==>
              r == b.(failureCount := 0, successCount := b.successCount + 1)
    ensures b.state == Half && b.successCount + 1 >= b.successThreshold ==>
              r == b.(state := Closed, failureCount := 0, successCount := 0)
  {
    if b.state == Half then
      var n := b.successCount + 1;
      if n >= b.successThreshold then b.(state := Closed, failureCount := 0, successCount := 0)
      else b.(failureCount := 0, successCount := n)
    else b.(failureCount := 0)
  }

  function RecordFailure(b: Breaker, now: Time): (r: Breaker)
    requires Valid(b)
    ensures Valid(r)
    ensures r.failureCount == b.failureCount + 1 && r.lastFailureTime == now && r.successCount == 0
    ensures r.failureCount >= b.failureThreshold ==> r.state == Open
    ensures r.failureCount < b.failureThreshold ==> r.state == b.state
    ensures r.failureThreshold == b.failureThreshold && r.successThreshold == b.successThreshold
    ensures r.timeout == b.timeout
  {
    var n := b.failureCount + 1;
    var r := b.(failureCount := n, lastFailureTime := now, successCount := 0);
    if n >= b.failureThreshold then r.(state := Open) else r
  }

  /** Whether a call may proceed at `now`. An expired Open breaker lets the call
      through and moves to Half with the failure count cleared. */
  function CanExecute(b: Breaker, now: Time): (d: Decision)
    requires Valid(b)
    ensures Valid(d.next)
    ensures d.allowed <==> d.err.None?
    ensures b.state != Open ==> d.allowed && d.next == b
    ensures b.state == Open && now - b.lastFailureTime > b.timeout ==>
              d.allowed && d.next == b.(state := Half, failureCount := 0)
    ensures b.state == Open && now - b.lastFailureTime <= b.timeout ==>
              !d.allowed && d.err == Some(OpenMessage) && d.next == b
  {
    match b.state
    case Closed => Decision(true, None, b)
    case Open =>
      if now - b.lastFailureTime > b.timeout then Decision(true, None, b.(state := Half, failureCount := 0))
      else Decision(false, Some(OpenMessage), b)
    case Half => Decision(true, None, b)
  }

  function GetState(b: Breaker): CircuitState
  {
    b.state
  }

  /** The breaker wired for the labor-cost worker: CB_MAX_FAILURES failures to
      open, a single Half success to close, reset timeout in seconds. */
  function LaborCostBreaker(maxFailures: int, resetTimeoutSec: int): (b: Breaker)
    ensures b.state == Closed && b.failureCount == 0 && b.successCount == 0 && Valid(b)
    ensures b.failureThreshold == maxFailures && b.successThreshold == 1
    ensures b.timeout == resetTimeoutSec * Second
  {
    NewCircuitBreaker(maxFailures, 1, resetTimeoutSec * Second)
  }

  // ---------------------------------------------------------------------------
  // Sequences of outcomes

  /** Records one failure per reading in `times`, in order. */
  function RecordFailures(b: Breaker, times: seq<Time>): (r: Breaker)
    requires Valid(b)
    ensures Valid(r)
    decreases |times|
  {
    if times == [] then b else RecordFailures(RecordFailure(b, times[0]), times[1..])
  }

  /** Records `n` successes in a row. */
  function RecordSuccesses(b: Breaker, n: nat): (r: Breaker)
    requires Valid(b)
    ensures Valid(r)
    decreases n
  {
    if n == 0 then b else RecordSuccesses(RecordSuccess(b), n - 1)
  }

  /** Consecutive failures add up, stamp the last reading, and open the breaker
      as soon as the count reaches the threshold; before that the state is kept. */
  lemma {:induction false} FailuresAccumulate(b: Breaker, times: seq<Time>)
    requires Valid(b)
    requires times != []
    ensures RecordFailures(b, times).failureCount == b.failureCount + |times|
    ensures RecordFailures(b, times).lastFailureTime == times[|times| - 1]
    ensures RecordFailures(b, times).failureThreshold == b.failureThreshold
    ensures RecordFailures(b, times).timeout == b.timeout
    ensures b.failureCount + |times| >= b.failureThreshold ==> RecordFailures(b, times).state == Open
    ensures b.failureCount + |times| < b.failureThreshold ==> RecordFailures(b, times).state == b.state
    decreases |times|
  {
    var b1 := RecordFailure(b, times[0]);
    if |times| > 1 {
      FailuresAccumulate(b1, times[1..]);
      var r := RecordFailures(b1, times[1..]);
      assert times[1..][|times[1..]| - 1] == times[|times| - 1];
      if b.failureCount + |times| >= b.failureThreshold && b1.failureCount < b1.failureThreshold {
        assert r.state == Open;
      }
    }
  }

  /** From a fresh (Closed, zero-count) breaker, `failureThreshold` consecutive
      failures open it, and it then refuses every call until more than `timeout`
      has elapsed since the last failure. */
  lemma ThresholdFailuresOpen(ft: int, st: int, timeout: Duration, times: seq<Time>, now: Time)
    requires ft >= 1 && |times| == ft
    requires now - times[|times| - 1] <= timeout
    ensures RecordFailures(NewCircuitBreaker(ft, st, timeout), times).state == Open
    ensures !CanExecute(RecordFailures(NewCircuitBreaker(ft, st, timeout), times), now).allowed
  {
    FailuresAccumulate(NewCircuitBreaker(ft, st, timeout), times);
  }

  /** Fewer than `failureThreshold` failures leave a Closed breaker Closed. */
  lemma BelowThresholdStaysClosed(ft: int, st: int, timeout: Duration, times: seq<Time>)
    requires 1 <= |times| < ft
    ensures RecordFailures(NewCircuitBreaker(ft, st, timeout), times).state == Closed
  {
    FailuresAccumulate(NewCircuitBreaker(ft, st, timeout), times);
  }

  /** The first call after the timeout has elapsed is allowed and probes in Half. */
  lemma ExpiredOpenProbes(b: Breaker, now: Time)
    requires Valid(b) && b.state == Open
    requires now - b.lastFailureTime > b.timeout
    ensures CanExecute(b, now).allowed
    ensures CanExecute(b, now).next.state == Half
    ensures CanExecute(b, now).next.failureCount == 0 && CanExecute(b, now).next.successCount == 0
  {
  }

  /** In Half, `successThreshold - successCount` consecutive successes close
      the breaker with both counters cleared; fewer leave it Half. */
  lemma {:induction false} HalfSuccessesClose(b: Breaker, n: nat)
    requires Valid(b) && b.state == Half
    requires b.successCount + n >= b.successThreshold && n >= 1
    ensures RecordSuccesses(b, n).state == Closed
    ensures RecordSuccesses(b, n).failureCount == 0 && RecordSuccesses(b, n).successCount == 0
    decreases n
  {
    var b1 := RecordSuccess(b);
    if b1.state == Half {
      HalfSuccessesClose(b1, n - 1);
    } else {
      ClosedSuccessesStayClosed(b1, n - 1);
    }
  }

  /** Successes never move a Closed breaker and keep its counters at zero. */
  lemma {:induction false} ClosedSuccessesStayClosed(b: Breaker, n: nat)
    requires Valid(b) && b.state == Closed && b.failureCount == 0
    ensures RecordSuccesses(b, n) == b
    decreases n
  {
    if n > 0 {
      ClosedSuccessesStayClosed(RecordSuccess(b), n - 1);
    }
  }

  /** A failure in Half does not reopen immediately: entering Half cleared the
      failure count, so with `failureThreshold > 1` a single failure leaves the
      breaker Half, and it reopens only after `failureThreshold` failures. */
  lemma HalfFailureDoesNotReopen(b: Breaker, probe: Time, failAt: Time)
    requires Valid(b) && b.state == Open && probe - b.lastFailureTime > b.timeout
    requires b.failureThreshold > 1
    ensures RecordFailure(CanExecute(b, probe).next, failAt).state == Half
    ensures CanExecute(RecordFailure(CanExecute(b, probe).next, failAt), failAt).allowed
  {
  }

  /** After the probe, exactly `failureThreshold` consecutive failures reopen it. */
  lemma HalfReopensAfterThreshold(b: Breaker, probe: Time, times: seq<Time>)
    requires Valid(b) && b.state == Open && probe - b.lastFailureTime > b.timeout
    requires times != []
    ensures |times| >= b.failureThreshold ==> RecordFailures(CanExecute(b, probe).next, times).state == Open
    ensures |times| < b.failureThreshold ==> RecordFailures(CanExecute(b, probe).next, times).state == Half
  {
    FailuresAccumulate(CanExecute(b, probe).next, times);
  }

  /** The labor-cost breaker closes on the first success of its Half probe. */
  lemma LaborCostBreakerOneProbe(b: Breaker)
    requires Valid(b) && b.state == Half && b.successThreshold == 1
    ensures RecordSuccess(b).state == Closed
  {
  }
}
