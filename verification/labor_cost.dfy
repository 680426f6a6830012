/** The labor-cost event handler (application/handlers/labor_cost_handler.go):
    bounded retry with capped geometric backoff around the breaker-guarded
    legacy client. Sleeps are returned as a list instead of being slept. */
module LaborCost {
  import opened Wrappers
  import opened Clock
  import CB = CircuitBreaker
  import LC = LegacyClient

  datatype RetryConfig = RetryConfig(maxAttempts: int, initialBackoff: Duration,
                                     maxBackoff: Duration, backoffMultiplier: real)

  datatype HandlerError =
    | Undecodable
    | FailedAfter(attempts: int, last: LC.ClientError)
    | MaxRetriesExceeded

  /** The handler's error result, the number of client calls, the sleeps between
      them in order, and the breaker afterwards. */
  datatype HandlerRun = HandlerRun(result: Outcome<HandlerError>, calls: nat,
                                   sleeps: seq<Duration>, breaker: Option<CB.Breaker>)

  /** The reporter's built-in policy: 5 attempts, 1 s initial, 30 s cap, doubling. */
  function DefaultRetryConfig(): (c: RetryConfig)
    ensures c.maxAttempts == 5 && c.backoffMultiplier == 2.0
    ensures c.initialBackoff == Second && c.maxBackoff == 30 * Second
  {
    RetryConfig(5, 1 * Second, 30 * Second, 2.0)
  }

  /** The backoff after `b`: scaled by the multiplier (truncated to whole
      nanoseconds), then capped. */
  function NextBackoff(cfg: RetryConfig, b: Duration): (n: Duration)
    ensures n <= cfg.maxBackoff
    ensures Trunc(b as real * cfg.backoffMultiplier) <= cfg.maxBackoff ==> n == Trunc(b as real * cfg.backoffMultiplier)
    ensures Trunc(b as real * cfg.backoffMultiplier) > cfg.maxBackoff ==> n == cfg.maxBackoff
  {
    var scaled := Trunc(b as real * cfg.backoffMultiplier);
    if scaled > cfg.maxBackoff then cfg.maxBackoff else scaled
  }

  /** The sleep after failed attempt `i + 1`: the initial backoff uncapped, then
      each next one derived from the previous. */
  function BackoffAt(cfg: RetryConfig, i: nat): (b: Duration)
    ensures i == 0 ==> b == cfg.initialBackoff
    ensures i > 0 ==> b <= cfg.maxBackoff
  {
    if i == 0 then cfg.initialBackoff else NextBackoff(cfg, BackoffAt(cfg, i - 1))
  }

  /** The first `n` sleeps. */
  function Schedule(cfg: RetryConfig, n: nat): (s: seq<Duration>)
    ensures |s| == n
  {
    if n == 0 then [] else Schedule(cfg, n - 1) + [BackoffAt(cfg, n - 1)]
  }

  lemma {:induction false} ScheduleAt(cfg: RetryConfig, n: nat, i: nat)
    requires i < n
    ensures Schedule(cfg, n)[i] == BackoffAt(cfg, i)
  {
    if i < n - 1 {
      ScheduleAt(cfg, n - 1, i);
    }
  }

  /** One attempt: a single breaker-guarded client call. */
  function Attempt(cb: Option<CB.Breaker>, env: LC.CallEnv): (run: LC.ClientRun)
    requires LC.ValidBreaker(cb)
    ensures LC.ValidBreaker(run.breaker)
  {
    LC.RecordLaborCost(cb, env)
  }

  /** The client calls of successive attempts, each seeing the breaker the
      previous one left behind. */
  function Attempts(cb: Option<CB.Breaker>, envs: seq<LC.CallEnv>): (runs: seq<LC.ClientRun>)
    requires LC.ValidBreaker(cb)
    ensures |runs| == |envs|
    ensures forall i :: 0 <= i < |runs| ==> LC.ValidBreaker(runs[i].breaker)
    ensures runs != [] ==> runs[0] == Attempt(cb, envs[0])
    decreases |envs|
  {
    if envs == [] then []
    else
      var r := Attempt(cb, envs[0]);
      var rest := Attempts(r.breaker, envs[1..]);
      [r] + rest
  }

  /** Attempt `i` is the client call on the breaker attempt `i - 1` left behind. */
  lemma {:induction false} AttemptsChain(cb: Option<CB.Breaker>, envs: seq<LC.CallEnv>, i: nat)
    requires LC.ValidBreaker(cb) && 0 < i < |envs|
    ensures Attempts(cb, envs)[i] == Attempt(Attempts(cb, envs)[i - 1].breaker, envs[i])
    decreases |envs|
  {
    var r := Attempt(cb, envs[0]);
    var rest := Attempts(r.breaker, envs[1..]);
    assert Attempts(cb, envs) == [r] + rest;
    if i > 1 {
      AttemptsChain(r.breaker, envs[1..], i - 1);
    }
  }

  /** Handles one `EmployeeCheckedOut` message. `decodeOk` is the outcome of
      decoding the body; `envs[k]` is what attempt k observes. */
  method HandleCheckedOut(cfg: RetryConfig, decodeOk: bool, cb: Option<CB.Breaker>, envs: seq<LC.CallEnv>)
    returns (run: HandlerRun)
    requires LC.ValidBreaker(cb) && cfg.maxAttempts <= |envs|
    ensures !decodeOk ==> run == HandlerRun(Fail(Undecodable), 0, [], cb)
    ensures decodeOk && cfg.maxAttempts <= 0 ==> run == HandlerRun(Fail(MaxRetriesExceeded), 0, [], cb)
    ensures run.calls <= if cfg.maxAttempts < 0 then 0 else cfg.maxAttempts
    ensures run.calls >= 1 ==>
              && run.sleeps == Schedule(cfg, run.calls - 1)
              && run.breaker == Attempts(cb, envs)[run.calls - 1].breaker
              && forall j :: 0 <= j < run.calls - 1 ==> Attempts(cb, envs)[j].result.Fail?
    ensures run.result == Pass ==> run.calls >= 1 && Attempts(cb, envs)[run.calls - 1].result == Pass
    ensures decodeOk && cfg.maxAttempts > 0 && run.result.Fail? ==>
              && run.calls == cfg.maxAttempts
              && Attempts(cb, envs)[run.calls - 1].result.Fail?
              && run.result == Fail(FailedAfter(cfg.maxAttempts, Attempts(cb, envs)[run.calls - 1].result.error))
  {
    if !decodeOk {
      return HandlerRun(Fail(Undecodable), 0, [], cb);
    }
    ghost var runs := Attempts(cb, envs);
    var attempt := 0;
    var backoff := cfg.initialBackoff;
    var sleeps: seq<Duration> := [];
    var b := cb;
    while attempt < cfg.maxAttempts
      invariant 0 <= attempt <= |envs|
      invariant attempt == 0 || attempt < cfg.maxAttempts
      invariant LC.ValidBreaker(b)
      invariant b == if attempt == 0 then cb else runs[attempt - 1].breaker
      invariant forall j :: 0 <= j < attempt ==> runs[j].result.Fail?
      invariant sleeps == Schedule(cfg, attempt) && backoff == BackoffAt(cfg, attempt)
    {
      var r := Attempt(b, envs[attempt]);
      if attempt > 0 {
        AttemptsChain(cb, envs, attempt);
      }
      assert r == runs[attempt];
      b := r.breaker;
      if r.result == Pass {
        return HandlerRun(Pass, attempt + 1, sleeps, b);
      }
      attempt := attempt + 1;
      if attempt >= cfg.maxAttempts {
        return HandlerRun(Fail(FailedAfter(attempt, r.result.error)), attempt, sleeps, b);
      }
      sleeps := sleeps + [backoff];
      backoff := NextBackoff(cfg, backoff);
    }
    return HandlerRun(Fail(MaxRetriesExceeded), 0, [], b);
  }

  /** The default policy sleeps 1, 2, 4 and 8 seconds between its five attempts. */
  lemma DefaultScheduleDoubles()
    ensures Schedule(DefaultRetryConfig(), 4) == [1 * Second, 2 * Second, 4 * Second, 8 * Second]
  {
    var c := DefaultRetryConfig();
    assert BackoffAt(c, 1) == 2 * Second;
    assert BackoffAt(c, 2) == 4 * Second;
    assert BackoffAt(c, 3) == 8 * Second;
  }

  function Pow(m: nat, i: nat): nat
  {
    if i == 0 then 1 else m * Pow(m, i - 1)
  }

  /** Scaling a whole backoff by a whole multiplier is exact. */
  lemma ScaleExact(b: int, m: nat)
    ensures Trunc(b as real * m as real) == b * m
  {
    assert b as real * m as real == (b * m) as real;
  }

  lemma {:induction false} GrowsWithMultiplier(x: int, m: nat)
    requires 0 <= x && 1 <= m
    ensures x <= x * m
  {
    assert x * m == x + x * (m - 1);
  }

  lemma {:induction false} PowStep(a: int, m: nat, i: nat)
    requires i > 0
    ensures a * Pow(m, i) == (a * Pow(m, i - 1)) * m
  {
    assert Pow(m, i) == m * Pow(m, i - 1);
  }

  lemma NonnegProduct(a: int, b: int)
    requires 0 <= a && 0 <= b
    ensures 0 <= a * b
  {
  }

  lemma NextBackoffWhole(cfg: RetryConfig, m: nat, b: Duration)
    requires cfg.backoffMultiplier == m as real
    ensures NextBackoff(cfg, b) == Min(b * m, cfg.maxBackoff)
  {
    ScaleExact(b, m);
  }

  /** Capping before or after a whole scaling gives the same capped value. */
  lemma {:induction false} CapCommutesWithScale(x: int, cap: int, m: nat)
    requires 0 <= x && 0 <= cap && 1 <= m
    ensures Min(Min(x, cap) * m, cap) == Min(x * m, cap)
  {
    GrowsWithMultiplier(x, m);
    GrowsWithMultiplier(cap, m);
  }

  /** With a whole multiplier m >= 1 and 0 <= initial <= cap, sleep i is exactly
      min(initial * m^i, cap): a geometric sequence cut off at the cap. */
  lemma {:induction false} ScheduleIsCappedGeometric(cfg: RetryConfig, m: nat, i: nat)
    requires m >= 1 && cfg.backoffMultiplier == m as real
    requires 0 <= cfg.initialBackoff <= cfg.maxBackoff
    ensures BackoffAt(cfg, i) == Min(cfg.initialBackoff * Pow(m, i), cfg.maxBackoff)
  {
    if i > 0 {
      ScheduleIsCappedGeometric(cfg, m, i - 1);
      var prev := BackoffAt(cfg, i - 1);
      var g := cfg.initialBackoff * Pow(m, i - 1);
      NextBackoffWhole(cfg, m, prev);
      assert prev == Min(g, cfg.maxBackoff);
      NonnegProduct(cfg.initialBackoff, Pow(m, i - 1));
      CapCommutesWithScale(g, cfg.maxBackoff, m);
      PowStep(cfg.initialBackoff, m, i);
    }
  }

  /** Under the same conditions the sleeps never shrink. */
  lemma {:induction false} ScheduleNondecreasing(cfg: RetryConfig, m: nat, i: nat, j: nat)
    requires m >= 1 && cfg.backoffMultiplier == m as real
    requires 0 <= cfg.initialBackoff <= cfg.maxBackoff
    requires i <= j
    ensures BackoffAt(cfg, i) <= BackoffAt(cfg, j)
    decreases j - i
  {
    if i < j {
      ScheduleNondecreasing(cfg, m, i, j - 1);
      BackoffGrows(cfg, m, j - 1);
    }
  }

  lemma BackoffGrows(cfg: RetryConfig, m: nat, i: nat)
    requires m >= 1 && cfg.backoffMultiplier == m as real
    requires 0 <= cfg.initialBackoff <= cfg.maxBackoff
    ensures BackoffAt(cfg, i) <= BackoffAt(cfg, i + 1)
  {
    ScheduleIsCappedGeometric(cfg, m, i);
    ScheduleIsCappedGeometric(cfg, m, i + 1);
    var g := cfg.initialBackoff * Pow(m, i);
    NonnegProduct(cfg.initialBackoff, Pow(m, i));
    PowStep(cfg.initialBackoff, m, i + 1);
    GrowsWithMultiplier(g, m);
  }

  /** An Open breaker whose timeout has not elapsed refuses every attempt without
      sending anything; each refusal is an ordinary failed attempt for the retry
      loop, so such a message uses up the whole attempt budget. */
  lemma {:induction false} OpenBreakerFailsEveryAttempt(b: CB.Breaker, envs: seq<LC.CallEnv>)
    requires CB.Valid(b) && b.state == CB.Open
    requires forall i :: 0 <= i < |envs| ==> envs[i].now - b.lastFailureTime <= b.timeout
    ensures forall i :: 0 <= i < |envs| ==>
              && Attempts(Some(b), envs)[i].result == Fail(LC.BreakerError(CB.OpenMessage))
              && !Attempts(Some(b), envs)[i].sent
              && Attempts(Some(b), envs)[i].breaker == Some(b)
    decreases |envs|
  {
    if envs != [] {
      OpenBreakerFailsEveryAttempt(b, envs[1..]);
      var runs := Attempts(Some(b), envs);
      assert runs[0].breaker == Some(b);
      assert runs == [runs[0]] + Attempts(Some(b), envs[1..]);
    }
  }
}
