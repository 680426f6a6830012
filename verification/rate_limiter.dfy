/** Token-bucket rate limiter (infrastructure/external/rate_limiter.go) with
    fractional tokens and lazy refill. The clock reading of each call is a
    parameter; a sleep of `d` advances the caller's clock by exactly `d`. */
module RateLimiter {
  import opened Wrappers
  import opened Clock

  datatype Limiter = Limiter(tokens: real, maxTokens: real, refillRate: real, lastRefillAt: Time)

  datatype WaitError = WaitTooLong(required: Duration, allowed: Duration)

  /** What `WaitForToken` returns (total time slept, error) and the limiter after it. */
  datatype WaitResult = WaitResult(waited: Duration, err: Option<WaitError>, limiter: Limiter)

  /** The fixed buffer slept on top of every computed wait. */
  const Buffer: Duration := 100 * Millisecond

  /** A limiter built for at least one request per minute, whose tokens lie in
      [0, maxTokens]. */
  predicate Valid(l: Limiter)
  {
    && 0.0 < l.refillRate
    && 1.0 <= l.maxTokens
    && 0.0 <= l.tokens <= l.maxTokens
  }

  /** A full bucket of `requestsPerMinute` tokens, refilled at one minute's worth per 60 s. */
  function NewRateLimiter(requestsPerMinute: int, now: Time): (l: Limiter)
    ensures l.tokens == l.maxTokens == requestsPerMinute as real
    ensures l.refillRate * 60.0 == l.maxTokens
    ensures l.lastRefillAt == now
    ensures requestsPerMinute >= 1 ==> Valid(l)
  {
    var maxTokens := requestsPerMinute as real;
    Limiter(maxTokens, maxTokens, maxTokens / 60.0, now)
  }

  /** Tokens accrued over `elapsed` nanoseconds. */
  function Accrued(l: Limiter, elapsed: Duration): real
  {
    elapsed as real / Second as real * l.refillRate
  }

  /** Lazy refill at `now`: add the tokens accrued since the last refill, capped at
      the capacity. */
  function Refill(l: Limiter, now: Time): (r: Limiter)
    requires Valid(l) && l.lastRefillAt <= now
    ensures Valid(r)
    ensures r.lastRefillAt == now && r.maxTokens == l.maxTokens && r.refillRate == l.refillRate
    ensures r.tokens <= l.maxTokens && l.tokens <= r.tokens
    ensures r.tokens == l.maxTokens || r.tokens == l.tokens + Accrued(l, now - l.lastRefillAt)
    ensures r.tokens <= l.tokens + Accrued(l, now - l.lastRefillAt)
  {
    var added := Accrued(l, now - l.lastRefillAt);
    assert 0.0 <= added;
    l.(tokens := MinReal(l.tokens + added, l.maxTokens), lastRefillAt := now)
  }

  /** The wait for the missing fraction of a token, truncated to whole nanoseconds. */
  function WaitNeeded(l: Limiter): (w: Duration)
    requires Valid(l) && l.tokens < 1.0
    ensures 0 <= w
    ensures w as real <= (1.0 - l.tokens) / l.refillRate * Second as real < w as real + 1.0
  {
    Trunc((1.0 - l.tokens) / l.refillRate * Second as real)
  }

  /** Sleeping the computed wait plus the buffer always earns the missing token. */
  lemma SleepEarnsToken(r: Limiter)
    requires Valid(r) && r.tokens < 1.0
    ensures Refill(r, r.lastRefillAt + WaitNeeded(r) + Buffer).tokens >= 1.0
  {
    var w := WaitNeeded(r);
    var x := (1.0 - r.tokens) / r.refillRate * Second as real;
    var e := (w + Buffer) as real / Second as real;
    assert (w + Buffer) as real == w as real + Buffer as real;
    assert w as real + Buffer as real > x;
    assert e > x / Second as real;
    assert x / Second as real == (1.0 - r.tokens) / r.refillRate;
    assert e * r.refillRate > (1.0 - r.tokens) / r.refillRate * r.refillRate;
    assert (1.0 - r.tokens) / r.refillRate * r.refillRate == 1.0 - r.tokens;
    assert Accrued(r, w + Buffer) == e * r.refillRate;
    var wake := r.lastRefillAt + w + Buffer;
    assert wake - r.lastRefillAt == w + Buffer;
    assert r.tokens + Accrued(r, wake - r.lastRefillAt) > 1.0;
  }

  /** Takes one token at `now`, or sleeps until one has accrued when that fits in
      `maxWait`, or fails at once without consuming anything. This is the source's
      sequential meaning; the source's own locking is modelled in
      `WaitForTokenAsWritten` below. */
  function WaitForToken(l: Limiter, maxWait: Duration, now: Time): (res: WaitResult)
    requires Valid(l) && l.lastRefillAt <= now
    ensures Valid(res.limiter) && now <= res.limiter.lastRefillAt
    ensures res.err.None? ==> res.limiter.tokens + 1.0 <= res.limiter.maxTokens
    ensures Refill(l, now).tokens >= 1.0 ==>
              res == WaitResult(0, None, Refill(l, now).(tokens := Refill(l, now).tokens - 1.0))
    ensures Refill(l, now).tokens < 1.0 && WaitNeeded(Refill(l, now)) > maxWait ==>
              res == WaitResult(0, Some(WaitTooLong(WaitNeeded(Refill(l, now)), maxWait)), Refill(l, now))
    ensures Refill(l, now).tokens < 1.0 && WaitNeeded(Refill(l, now)) <= maxWait ==>
              var wake := now + WaitNeeded(Refill(l, now)) + Buffer;
              && res.err.None?
              && res.waited == WaitNeeded(Refill(l, now)) + Buffer
              && res.limiter == Refill(Refill(l, now), wake).(tokens := Refill(Refill(l, now), wake).tokens - 1.0)
    ensures res.err.None? ==> 0 <= res.waited <= Max0(maxWait) + Buffer
    ensures res.err.Some? ==> res.waited == 0 && res.limiter.tokens == Refill(l, now).tokens
    decreases if Refill(l, now).tokens >= 1.0 then 0 else 1
  {
    var r := Refill(l, now);
    if r.tokens >= 1.0 then
      WaitResult(0, None, r.(tokens := r.tokens - 1.0))
    else
      var wait := WaitNeeded(r);
      if wait > maxWait then
        WaitResult(0, Some(WaitTooLong(wait, maxWait)), r)
      else
        SleepEarnsToken(r);
        var sub := WaitForToken(r, maxWait - wait, now + wait + Buffer);
        sub.(waited := wait + Buffer + sub.waited)
  }

  function Max0(d: Duration): Duration
  {
    if d < 0 then 0 else d
  }

  /** Adds the time already slept to a later result, as each recursion level of
      the source does on its way out. */
  function AddWaited(slept: Duration, res: WaitResult): WaitResult
  {
    res.(waited := slept + res.waited)
  }

  /** `WaitForToken` with the recursion replaced by a loop over the caller's clock. */
  method WaitForTokenLoop(l: Limiter, maxWait: Duration, now: Time) returns (res: WaitResult)
    requires Valid(l) && l.lastRefillAt <= now
    ensures res == WaitForToken(l, maxWait, now)
  {
    var cur, budget, clock, slept := l, maxWait, now, 0;
    while true
      invariant Valid(cur) && cur.lastRefillAt <= clock
      invariant AddWaited(slept, WaitForToken(cur, budget, clock)) == WaitForToken(l, maxWait, now)
      decreases if Refill(cur, clock).tokens >= 1.0 then 0 else 1
    {
      var r := Refill(cur, clock);
      if r.tokens >= 1.0 {
        return AddWaited(slept, WaitResult(0, None, r.(tokens := r.tokens - 1.0)));
      }
      var wait := WaitNeeded(r);
      if wait > budget {
        return AddWaited(slept, WaitResult(0, Some(WaitTooLong(wait, budget)), r));
      }
      SleepEarnsToken(r);
      cur, budget, clock, slept := r, budget - wait, clock + wait + Buffer, slept + wait + Buffer;
    }
  }

  // ---------------------------------------------------------------------------
  // A caller's sequence of calls

  /** Calls `WaitForToken` once per reading in `times`. A reading earlier than the
      clock at which the previous call returned is taken as that clock, since a
      sequential caller cannot call before its previous call returns. */
  function Calls(l: Limiter, times: seq<Time>, maxWait: Duration): (rs: seq<WaitResult>)
    requires Valid(l)
    ensures |rs| == |times|
    ensures forall i :: 0 <= i < |rs| ==> Valid(rs[i].limiter)
    decreases |times|
  {
    if times == [] then []
    else
      var now := if times[0] < l.lastRefillAt then l.lastRefillAt else times[0];
      var r := WaitForToken(l, maxWait, now);
      [r] + Calls(r.limiter, times[1..], maxWait)
  }

  /** A bucket holding at least n tokens grants the next n calls at once. */
  lemma {:induction false} TokensGrantImmediately(l: Limiter, times: seq<Time>, maxWait: Duration)
    requires Valid(l) && |times| as real <= l.tokens
    ensures forall i :: 0 <= i < |times| ==>
              Calls(l, times, maxWait)[i].waited == 0 && Calls(l, times, maxWait)[i].err.None?
    decreases |times|
  {
    if times != [] {
      var now := if times[0] < l.lastRefillAt then l.lastRefillAt else times[0];
      var r := WaitForToken(l, maxWait, now);
      assert Refill(l, now).tokens >= 1.0;
      TokensGrantImmediately(r.limiter, times[1..], maxWait);
      var rs := Calls(l, times, maxWait);
      assert rs == [r] + Calls(r.limiter, times[1..], maxWait);
      forall i | 0 <= i < |times|
        ensures rs[i].waited == 0 && rs[i].err.None?
      {
        if i > 0 {
          assert rs[i] == Calls(r.limiter, times[1..], maxWait)[i - 1];
        }
      }
    }
  }

  /** A fresh limiter grants its first `requestsPerMinute` calls with zero wait. */
  lemma FreshLimiterBurst(requestsPerMinute: int, start: Time, times: seq<Time>, maxWait: Duration)
    requires requestsPerMinute >= 1 && |times| <= requestsPerMinute
    ensures forall i :: 0 <= i < |times| ==>
              Calls(NewRateLimiter(requestsPerMinute, start), times, maxWait)[i].waited == 0
              && Calls(NewRateLimiter(requestsPerMinute, start), times, maxWait)[i].err.None?
  {
    TokensGrantImmediately(NewRateLimiter(requestsPerMinute, start), times, maxWait);
  }

  // ---------------------------------------------------------------------------
  // The source as written: the wait path re-enters its own mutex

  /** State of the limiter's `sync.Mutex` as seen by the calling goroutine. */
  datatype Lock = Unlocked | HeldByCaller

  datatype AsWritten = Returned(result: WaitResult) | Deadlocked

  /** The source's `WaitForToken` including its locking: the lock is held (released
      only by the deferred unlock on return) while the recursive call locks it
      again, and a Go mutex is not reentrant, so that call never returns. */
  function WaitForTokenAsWritten(l: Limiter, maxWait: Duration, now: Time, mu: Lock): (r: AsWritten)
    requires Valid(l) && l.lastRefillAt <= now
    ensures mu.HeldByCaller? ==> r.Deadlocked?
    ensures r.Returned? ==> r.result == WaitForToken(l, maxWait, now) && r.result.waited == 0
    decreases if mu.HeldByCaller? then 0 else 1
  {
    if mu.HeldByCaller? then Deadlocked
    else
      var r := Refill(l, now);
      if r.tokens >= 1.0 then
        Returned(WaitResult(0, None, r.(tokens := r.tokens - 1.0)))
      else
        var wait := WaitNeeded(r);
        if wait > maxWait then
          Returned(WaitResult(0, Some(WaitTooLong(wait, maxWait)), r))
        else
          match WaitForTokenAsWritten(r, maxWait - wait, now + wait + Buffer, HeldByCaller)
          case Deadlocked => Deadlocked
          case Returned(sub) => Returned(sub.(waited := wait + Buffer + sub.waited))
  }

  /** As written, a call deadlocks exactly when it has to wait for a token within
      its budget; on the other paths it agrees with the sequential meaning. */
  lemma AsWrittenDeadlocksExactlyOnWaitPath(l: Limiter, maxWait: Duration, now: Time)
    requires Valid(l) && l.lastRefillAt <= now
    ensures WaitForTokenAsWritten(l, maxWait, now, Unlocked).Deadlocked? <==>
              Refill(l, now).tokens < 1.0 && WaitNeeded(Refill(l, now)) <= maxWait
    ensures WaitForTokenAsWritten(l, maxWait, now, Unlocked).Returned? ==>
              WaitForTokenAsWritten(l, maxWait, now, Unlocked).result == WaitForToken(l, maxWait, now)
  {
  }

  /** The concrete input: 60 requests per minute, bucket drained, a 2 s budget.
      One token accrues per second, so the intended answer is a grant after
      1 s plus the buffer; as written the goroutine blocks forever. */
  lemma DrainedBucketDeadlocks()
    ensures WaitForTokenAsWritten(Limiter(0.0, 60.0, 1.0, 0), 2 * Second, 0, Unlocked) == Deadlocked
    ensures WaitForToken(Limiter(0.0, 60.0, 1.0, 0), 2 * Second, 0).err.None?
    ensures WaitForToken(Limiter(0.0, 60.0, 1.0, 0), 2 * Second, 0).waited == Second + Buffer
  {
    var l := Limiter(0.0, 60.0, 1.0, 0);
    assert Refill(l, 0) == l;
    assert WaitNeeded(l) == Second;
  }
}
