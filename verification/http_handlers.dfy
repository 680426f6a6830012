/** The card-reader endpoint (presentation/http/handlers.go): one POST toggles an
    employee between checked in and checked out. */
module HttpHandlers {
  import opened Wrappers
  import opened Clock
  import opened Entities
  import opened Persistence
  import opened Services

  const MethodPost: string := "POST"
  const StatusOK: int := 200
  const StatusBadRequest: int := 400
  const StatusMethodNotAllowed: int := 405
  const StatusConflict: int := 409
  const StatusInternalServerError: int := 500

  /** The JSON body as decoded: either it does not decode, or it yields an
      `employee_id` (empty when the field is absent). */
  datatype Body = Undecodable | Decoded(employeeId: string)
  datatype Request = Request(verb: string, body: Body)

  datatype Rejection =
    | MethodNotAllowed
    | InvalidRequestBody
    | EmployeeIdRequired
    | InvalidRequest
    | ServiceFailed(err: ServiceError)

  datatype Reply =
    | CheckedOutReply(recordId: string, hoursWorked: real)
    | CheckedInReply(recordId: string)
    | ErrorReply(rejection: Rejection)

  datatype ServiceCall = CheckOutCall | CheckInCall

  /** The reply, the services the handler invoked in order, and the database after. */
  datatype Exchange = Exchange(reply: Reply, calls: seq<ServiceCall>, db: Db)

  /** The status code of a reply: 200 for both successes, and for a rejection
      the code `http.Error` is given. */
  function Status(reply: Reply): (code: int)
    ensures code == StatusOK <==> !reply.ErrorReply?
    ensures code == StatusConflict <==> reply == ErrorReply(ServiceFailed(EmployeeAlreadyCheckedIn))
    ensures code == StatusBadRequest <==>
              reply.ErrorReply? && reply.rejection in {InvalidRequestBody, EmployeeIdRequired, InvalidRequest}
    ensures code == StatusMethodNotAllowed <==> reply == ErrorReply(MethodNotAllowed)
    ensures code == StatusInternalServerError <==>
              reply.ErrorReply? && reply.rejection.ServiceFailed? && reply.rejection.err != EmployeeAlreadyCheckedIn
  {
    match reply
    case ErrorReply(MethodNotAllowed) => StatusMethodNotAllowed
    case ErrorReply(ServiceFailed(EmployeeAlreadyCheckedIn)) => StatusConflict
    case ErrorReply(ServiceFailed(_)) => StatusInternalServerError
    case ErrorReply(_) => StatusBadRequest
    case _ => StatusOK
  }

  predicate IsAlphanumeric(c: char)
  {
    ('a' <= c <= 'z') || ('A' <= c <= 'Z') || ('0' <= c <= '9')
  }

  /** The validator tags `required,min=3,max=50,alphanum` on `employee_id`. */
  predicate ValidEmployeeId(id: string)
  {
    3 <= |id| <= 50 && forall i :: 0 <= i < |id| ==> IsAlphanumeric(id[i])
  }

  /** `HandleCheckIn`: try the check-out first; when it fails for any reason, try
      the check-in. `outEnv` and `inEnv` are what the two service calls observe. */
  function HandleCheckIn(db: Db, req: Request, duplicateWindowSec: int, outEnv: RequestEnv, inEnv: RequestEnv): (x: Exchange)
    requires Valid(db)
    ensures Valid(x.db)
    ensures req.verb != MethodPost ==> x == Exchange(ErrorReply(MethodNotAllowed), [], db)
    ensures req.verb == MethodPost && req.body.Undecodable? ==>
              x == Exchange(ErrorReply(InvalidRequestBody), [], db)
    ensures req.verb == MethodPost && req.body == Decoded([]) ==>
              x == Exchange(ErrorReply(EmployeeIdRequired), [], db)
    ensures req.verb == MethodPost && req.body.Decoded? && req.body.employeeId != [] &&
            !ValidEmployeeId(req.body.employeeId) ==>
              x == Exchange(ErrorReply(InvalidRequest), [], db)
    ensures x.calls != [] <==> req.verb == MethodPost && req.body.Decoded? && ValidEmployeeId(req.body.employeeId)
    ensures x.calls != [] ==>
              var out := Services.CheckOut(db, req.body.employeeId, duplicateWindowSec, outEnv);
              && x.calls[0] == CheckOutCall
              && (out.result.Ok? ==> x == Exchange(CheckedOutReply(out.result.value.id, out.result.value.hoursWorked),
                                                   [CheckOutCall], out.db))
              && (out.result.Err? ==>
                    var inn := Services.CheckIn(db, req.body.employeeId, inEnv);
                    && x.calls == [CheckOutCall, CheckInCall] && x.db == inn.db
                    && (inn.result.Ok? ==> x.reply == CheckedInReply(inn.result.value.id))
                    && (inn.result.Err? ==> x.reply == ErrorReply(ServiceFailed(inn.result.error))))
    ensures Status(x.reply) == StatusConflict ==> x.db == db && x.calls == [CheckOutCall, CheckInCall]
  {
    if req.verb != MethodPost then Exchange(ErrorReply(MethodNotAllowed), [], db)
    else match req.body
      case Undecodable => Exchange(ErrorReply(InvalidRequestBody), [], db)
      case Decoded(employeeId) =>
        if employeeId == [] then Exchange(ErrorReply(EmployeeIdRequired), [], db)
        else if !ValidEmployeeId(employeeId) then Exchange(ErrorReply(InvalidRequest), [], db)
        else
          var out := Services.CheckOut(db, employeeId, duplicateWindowSec, outEnv);
          if out.result.Ok? then
            Exchange(CheckedOutReply(out.result.value.id, out.result.value.hoursWorked), [CheckOutCall], out.db)
          else
            var inn := Services.CheckIn(db, employeeId, inEnv);
            match inn.result
            case Ok(rec) => Exchange(CheckedInReply(rec.id), [CheckOutCall, CheckInCall], inn.db)
            case Err(e) => Exchange(ErrorReply(ServiceFailed(e)), [CheckOutCall, CheckInCall], inn.db)
  }

  /** Conditions under which a service call meets no fault: the lookup answers,
      the transaction commits and the generated ids are new. */
  predicate Healthy(db: Db, env: RequestEnv)
  {
    env.lookupOk && env.txFault.None? && !HasOutboxId(db.outbox, env.outboxId)
    && FindRecord(db.records, env.recordId).None?
  }

  lemma ActiveAfterAppend(rows: seq<RecordRow>, row: RecordRow, employeeId: string)
    requires forall j :: 0 <= j < |rows| ==> !IsActiveFor(rows[j], employeeId)
    requires IsActiveFor(row, employeeId)
    ensures LatestActive(rows + [row], employeeId) == Some(|rows|)
  {
    assert (rows + [row])[..|rows|] == rows;
  }

  /** A first tap by an employee with no open record checks them in, and the new
      record is then their active one. */
  lemma FirstTapChecksIn(db: Db, employeeId: string, window: int, outEnv: RequestEnv, inEnv: RequestEnv)
    requires Valid(db) && ValidEmployeeId(employeeId)
    requires FindActiveByEmployeeID(db, employeeId, true) == Ok(None)
    requires Healthy(db, inEnv)
    ensures var x := HandleCheckIn(db, Request(MethodPost, Decoded(employeeId)), window, outEnv, inEnv);
            && x.reply == CheckedInReply(inEnv.recordId)
            && x.calls == [CheckOutCall, CheckInCall]
            && FindActiveByEmployeeID(x.db, employeeId, true).Ok?
            && FindActiveByEmployeeID(x.db, employeeId, true).value.Some?
            && FindActiveByEmployeeID(x.db, employeeId, true).value.value.id == inEnv.recordId
  {
    var inn := Services.CheckIn(db, employeeId, inEnv);
    var rec := inn.result.value;
    ActiveAfterAppend(db.records, RecordRow(rec, inEnv.now, inEnv.now), employeeId);
  }

  /** A tap within the duplicate window of the check-in is answered 409 and
      changes nothing: the check-out refuses it as a duplicate and the check-in
      finds the open record. */
  lemma DoubleTapConflicts(db: Db, employeeId: string, window: int, outEnv: RequestEnv, inEnv: RequestEnv)
    requires Valid(db) && ValidEmployeeId(employeeId)
    requires outEnv.lookupOk && inEnv.lookupOk
    requires FindActiveByEmployeeID(db, employeeId, true).Ok? && FindActiveByEmployeeID(db, employeeId, true).value.Some?
    requires outEnv.now - FindActiveByEmployeeID(db, employeeId, true).value.value.checkInAt < window * Second
    ensures var x := HandleCheckIn(db, Request(MethodPost, Decoded(employeeId)), window, outEnv, inEnv);
            && Status(x.reply) == StatusConflict
            && x.db == db
  {
  }

  /** A tap once the window has passed checks the open record out: the reply
      carries its id and hours, and the stored row is closed. */
  lemma LaterTapChecksOut(db: Db, employeeId: string, window: int, outEnv: RequestEnv, inEnv: RequestEnv)
    requires Valid(db) && ValidEmployeeId(employeeId)
    requires Healthy(db, outEnv)
    requires FindActiveByEmployeeID(db, employeeId, true).Ok? && FindActiveByEmployeeID(db, employeeId, true).value.Some?
    requires outEnv.now - FindActiveByEmployeeID(db, employeeId, true).value.value.checkInAt >= window * Second
    ensures var active := FindActiveByEmployeeID(db, employeeId, true).value.value;
            var x := HandleCheckIn(db, Request(MethodPost, Decoded(employeeId)), window, outEnv, inEnv);
            && x.reply == CheckedOutReply(active.id, HoursBetween(active.checkInAt, outEnv.now))
            && x.calls == [CheckOutCall]
            && exists j :: 0 <= j < |x.db.records| && x.db.records[j].record.id == active.id
                           && x.db.records[j].record.status == CheckedOutStatus
                           && x.db.records[j].record.checkOutAt == Some(outEnv.now)
  {
    var active := FindActiveByEmployeeID(db, employeeId, true).value.value;
    var k := FindRecord(db.records, active.id);
    assert k.Some?;
  }

  /** A failed lookup does not block a check-in, so when both lookups of a tap
      fail, an employee who is already checked in gets a second open record. */
  lemma FailedLookupsOpenSecondRecord(db: Db, employeeId: string, window: int, outEnv: RequestEnv, inEnv: RequestEnv)
    requires Valid(db) && ValidEmployeeId(employeeId)
    requires !outEnv.lookupOk && !inEnv.lookupOk
    requires inEnv.txFault.None? && !HasOutboxId(db.outbox, inEnv.outboxId) && FindRecord(db.records, inEnv.recordId).None?
    requires FindActiveByEmployeeID(db, employeeId, true).Ok? && FindActiveByEmployeeID(db, employeeId, true).value.Some?
    ensures var x := HandleCheckIn(db, Request(MethodPost, Decoded(employeeId)), window, outEnv, inEnv);
            && x.reply == CheckedInReply(inEnv.recordId)
            && exists i, j :: 0 <= i < j < |x.db.records| && IsActiveFor(x.db.records[i], employeeId)
                                                       && IsActiveFor(x.db.records[j], employeeId)
  {
    var active := FindActiveByEmployeeID(db, employeeId, true).value.value;
    var i :| 0 <= i < |db.records| && db.records[i].record == active;
    var x := HandleCheckIn(db, Request(MethodPost, Decoded(employeeId)), window, outEnv, inEnv);
    assert x.db.records == db.records + [RecordRow(Services.CheckIn(db, employeeId, inEnv).result.value, inEnv.now, inEnv.now)];
    assert IsActiveFor(x.db.records[i], employeeId);
    assert IsActiveFor(x.db.records[|db.records|], employeeId);
  }
}
