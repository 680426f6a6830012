/** The breaker-guarded call to the legacy labor-cost API
    (infrastructure/external/legacy_api_client.go). The outcomes of the JSON
    marshal, the request construction and the HTTP exchange are inputs. */
module LegacyClient {
  import opened Wrappers
  import opened Clock
  import CB = CircuitBreaker

  datatype HttpOutcome = TransportError(message: string) | Response(statusCode: int)

  /** Everything one call observes from the outside world: the clock when the
      breaker gate is asked (`now`), the clock when the HTTP exchange has
      returned (`doneAt`, the reading the breaker's failure stamp takes), the
      marshal and request-construction outcomes, and the exchange's outcome. */
  datatype CallEnv = CallEnv(now: Time, doneAt: Time, marshalOk: bool, requestOk: bool, http: HttpOutcome)

  datatype ClientError =
    | BreakerError(message: string)
    | BreakerOpen
    | MarshalFailed
    | RequestFailed
    | SendFailed(message: string)
    | UnexpectedStatus(statusCode: int)

  /** The breaker methods a call invokes, in order. */
  datatype BreakerCall = CanExecuteCall | SuccessCall | FailureCall

  /** A call's error result, breaker afterwards, breaker calls made, and whether
      an HTTP request went out. */
  datatype ClientRun = ClientRun(result: Outcome<ClientError>, breaker: Option<CB.Breaker>,
                                 calls: seq<BreakerCall>, sent: bool)

  const DefaultTimeoutSec: int := 30

  predicate ValidBreaker(cb: Option<CB.Breaker>)
  {
    cb.Some? ==> CB.Valid(cb.value)
  }

  /** HTTP client timeout: the configured seconds when positive, else 30 s. */
  function ClientTimeout(configuredSec: int): (t: Duration)
    ensures t > 0
    ensures configuredSec > 0 ==> t == configuredSec * Second
    ensures configuredSec <= 0 ==> t == DefaultTimeoutSec * Second
  {
    (if configuredSec > 0 then configuredSec else DefaultTimeoutSec) * Second
  }

  predicate IsSuccessStatus(code: int)
  {
    code == 200 || code == 201
  }

  /** Reports the HTTP outcome to the breaker (when there is one). */
  function Report(cb: Option<CB.Breaker>, now: Time, ok: bool): (r: Option<CB.Breaker>)
    requires ValidBreaker(cb)
    ensures ValidBreaker(r) && r.Some? == cb.Some?
  {
    match cb
    case None => None
    case Some(b) => Some(if ok then CB.RecordSuccess(b) else CB.RecordFailure(b, now))
  }

  function RecordLaborCost(cb: Option<CB.Breaker>, env: CallEnv): (run: ClientRun)
    requires ValidBreaker(cb)
    ensures ValidBreaker(run.breaker) && run.breaker.Some? == cb.Some?
    // Without a breaker no breaker method is called.
    ensures cb.None? ==> run.calls == []
    // A refusing breaker stops the call before any request or report.
    ensures cb.Some? && !CB.CanExecute(cb.value, env.now).allowed ==>
              && run.result.Fail? && (run.result.error.BreakerError? || run.result.error.BreakerOpen?)
              && !run.sent && run.calls == [CanExecuteCall]
              && run.breaker == Some(CB.CanExecute(cb.value, env.now).next)
    // Marshal or request-construction failures never reach the breaker's counters.
    ensures run.result.Fail? && (run.result.error == MarshalFailed || run.result.error == RequestFailed) ==>
              !run.sent && FailureCall !in run.calls && SuccessCall !in run.calls
    // An admitted call whose body cannot be marshalled, or whose request cannot
    // be built, fails with that error; the breaker keeps the gate's transition.
    ensures (cb.None? || CB.CanExecute(cb.value, env.now).allowed) && !env.marshalOk ==>
              && run.result == Fail(MarshalFailed)
              && run.breaker == (if cb.Some? then Some(CB.CanExecute(cb.value, env.now).next) else None)
              && run.calls == (if cb.Some? then [CanExecuteCall] else [])
    ensures (cb.None? || CB.CanExecute(cb.value, env.now).allowed) && env.marshalOk && !env.requestOk ==>
              && run.result == Fail(RequestFailed)
              && run.breaker == (if cb.Some? then Some(CB.CanExecute(cb.value, env.now).next) else None)
              && run.calls == (if cb.Some? then [CanExecuteCall] else [])
    // Transport error: exactly one failure reported.
    ensures run.sent && env.http.TransportError? ==>
              run.result == Fail(SendFailed(env.http.message))
              && (cb.Some? ==> run.calls == [CanExecuteCall, FailureCall]
                               && run.breaker == Some(CB.RecordFailure(CB.CanExecute(cb.value, env.now).next, env.doneAt)))
    // Any status but 200/201: exactly one failure reported, error names the status.
    ensures run.sent && env.http.Response? && !IsSuccessStatus(env.http.statusCode) ==>
              run.result == Fail(UnexpectedStatus(env.http.statusCode))
              && (cb.Some? ==> run.calls == [CanExecuteCall, FailureCall]
                               && run.breaker == Some(CB.RecordFailure(CB.CanExecute(cb.value, env.now).next, env.doneAt)))
    // 200/201: exactly one success reported, no error.
    ensures run.sent && env.http.Response? && IsSuccessStatus(env.http.statusCode) ==>
              run.result == Pass
              && (cb.Some? ==> run.calls == [CanExecuteCall, SuccessCall]
                               && run.breaker == Some(CB.RecordSuccess(CB.CanExecute(cb.value, env.now).next)))
    // A request is sent exactly when the breaker admits it and the request can be built.
    ensures run.sent <==> (cb.None? || CB.CanExecute(cb.value, env.now).allowed) && env.marshalOk && env.requestOk
    ensures run.result == Pass ==> run.sent
  {
    var (gate, admitted, before) :=
      match cb
      case None => (None, true, None)
      case Some(b) =>
        var d := CB.CanExecute(b, env.now);
        (Some(d), d.allowed && d.err.None?, Some(d.next));
    var pre := if cb.Some? then [CanExecuteCall] else [];
    if gate.Some? && gate.value.err.Some? then
      ClientRun(Fail(BreakerError(gate.value.err.value)), before, pre, false)
    else if !admitted then
      ClientRun(Fail(BreakerOpen), before, pre, false)
    else if !env.marshalOk then
      ClientRun(Fail(MarshalFailed), before, pre, false)
    else if !env.requestOk then
      ClientRun(Fail(RequestFailed), before, pre, false)
    else
      var report := if cb.Some? then pre + [if env.http.Response? && IsSuccessStatus(env.http.statusCode) then SuccessCall else FailureCall] else [];
      match env.http
      case TransportError(msg) =>
        ClientRun(Fail(SendFailed(msg)), Report(before, env.doneAt, false), report, true)
      case Response(code) =>
        if !IsSuccessStatus(code) then
          ClientRun(Fail(UnexpectedStatus(code)), Report(before, env.doneAt, false), report, true)
        else
          ClientRun(Pass, Report(before, env.doneAt, true), report, true)
  }

  /** Each call reports at most one outcome to the breaker, and reports one
      exactly when a request went out. */
  lemma AtMostOneReport(cb: Option<CB.Breaker>, env: CallEnv)
    requires ValidBreaker(cb) && cb.Some?
    ensures var run := RecordLaborCost(cb, env);
            |run.calls| == (if run.sent then 2 else 1) && run.calls[0] == CanExecuteCall
  {
  }

  /** The reset timeout runs from the end of the failed exchange, not from the
      gate: a breaker one failure short of opening, whose call was admitted at
      `env.now` and timed out at `env.doneAt`, refuses every call up to
      `env.doneAt + timeout`, however long the exchange took. */
  lemma TimeoutCountsFromFailedExchange(b: CB.Breaker, env: CallEnv, later: Time)
    requires CB.Valid(b) && b.state == CB.Closed && b.failureCount == b.failureThreshold - 1
    requires env.marshalOk && env.requestOk && env.http.TransportError?
    requires later - env.doneAt <= b.timeout
    ensures var run := RecordLaborCost(Some(b), env);
            && run.breaker.value.state == CB.Open && run.breaker.value.lastFailureTime == env.doneAt
            && !CB.CanExecute(run.breaker.value, later).allowed
  {
  }
}
