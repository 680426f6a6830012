/** The check-in and check-out use cases (application/services/checkin_service.go):
    look up the active record, apply the business rules, and save the record
    with its event through the transactional outbox. */
module Services {
  import opened Wrappers
  import opened Clock
  import opened Events
  import opened Entities
  import opened Persistence

  datatype ServiceError =
    | EmployeeAlreadyCheckedIn
    | NoActiveCheckInFound
    | DuplicateCheckIn
    | EntityFailed(entityError: EntityError)
    | SaveCheckInFailed(cause: RepoError)
    | SaveCheckOutFailed(cause: RepoError)

  /** What one service call observes: the clock, the fresh ids it generates, and
      the database's answers. */
  datatype RequestEnv = RequestEnv(now: Time, lookupOk: bool, recordId: string, eventId: string,
                                   outboxId: string, txFault: Option<TxStep>)

  datatype ServiceRun = ServiceRun(result: Result<TimeRecord, ServiceError>, db: Db)

  /** Default of CHECKOUT_DUPLICATE_WINDOW_SEC. */
  const DefaultDuplicateWindowSec: int := 60

  /** Schema version stamped on every event this service creates. */
  const CurrentVersion: int := 1

  function CheckedInEventFor(rec: TimeRecord, eventId: string, now: Time): (e: DomainEvent)
    ensures e.CheckedIn? && Version(e) == CurrentVersion && OccurredAt(e) == now
    ensures e.header.eventType == EventType(e)
    ensures e.employeeId == rec.employeeId && e.recordId == rec.id && e.checkInAt == rec.checkInAt
  {
    CheckedIn(EventHeader(eventId, CheckedInTag, CurrentVersion, now), rec.employeeId, rec.checkInAt, rec.id)
  }

  function CheckedOutEventFor(rec: TimeRecord, eventId: string, now: Time): (e: DomainEvent)
    requires rec.checkOutAt.Some?
    ensures e.CheckedOut? && Version(e) == CurrentVersion && OccurredAt(e) == now
    ensures e.header.eventType == EventType(e)
    ensures e.employeeId == rec.employeeId && e.recordId == rec.id && e.checkInAt == rec.checkInAt
    ensures e.checkOutAt == rec.checkOutAt.value && e.hoursWorked == rec.hoursWorked
  {
    CheckedOut(EventHeader(eventId, CheckedOutTag, CurrentVersion, now), rec.employeeId, rec.checkInAt,
               rec.checkOutAt.value, rec.hoursWorked, rec.id)
  }

  /** `CheckInService.CheckIn`. Only a lookup that succeeds and finds an active
      record blocks the check-in; a failed lookup does not. */
  function CheckIn(db: Db, employeeId: string, env: RequestEnv): (r: ServiceRun)
    requires Valid(db)
    ensures Valid(r.db)
    ensures r.result.Err? ==> r.db == db
    ensures FindActiveByEmployeeID(db, employeeId, env.lookupOk) != Ok(None) && env.lookupOk ==>
              r == ServiceRun(Err(EmployeeAlreadyCheckedIn), db)
    ensures r.result == Err(EmployeeAlreadyCheckedIn) <==> env.lookupOk && FindActiveByEmployeeID(db, employeeId, true) != Ok(None)
    ensures employeeId == [] && (!env.lookupOk || FindActiveByEmployeeID(db, employeeId, true) == Ok(None)) ==>
              r.result == Err(EntityFailed(EmptyEmployeeId))
    ensures r.result.Ok? ==>
              var rec := r.result.value;
              && rec.employeeId == employeeId && rec.id == env.recordId && rec.checkInAt == env.now
              && rec.status == CheckedInStatus && rec.checkOutAt == None && rec.hoursWorked == 0.0
              && r.db.records == Upsert(db.records, rec, env.now, true)
              && exists k :: 0 <= k <= |db.outbox| &&
                   r.db.outbox == db.outbox[..k]
                                  + [NewOutboxRow(env.outboxId, CheckedInEventFor(rec, env.eventId, env.now), rec.id, env.now)]
                                  + db.outbox[k..]
    ensures r.result.Ok? <==>
              (!env.lookupOk || FindActiveByEmployeeID(db, employeeId, true) == Ok(None))
              && employeeId != [] && env.txFault.None? && !HasOutboxId(db.outbox, env.outboxId)
  {
    var existing := FindActiveByEmployeeID(db, employeeId, env.lookupOk);
    if existing.Ok? && existing.value.Some? then ServiceRun(Err(EmployeeAlreadyCheckedIn), db)
    else match NewTimeRecord(employeeId, env.recordId, env.now)
      case Err(e) => ServiceRun(Err(EntityFailed(e)), db)
      case Ok(rec) =>
        var event := CheckedInEventFor(rec, env.eventId, env.now);
        match SaveWithEvent(db, rec, event, env.outboxId, env.now, env.txFault)
        case Err(e) => ServiceRun(Err(SaveCheckInFailed(e)), db)
        case Ok(db2) => ServiceRun(Ok(rec), db2)
  }

  /** `CheckOutService.CheckOut`. A check-out less than the duplicate window after
      the check-in is taken for an accidental double tap and rejected. */
  function CheckOut(db: Db, employeeId: string, duplicateWindowSec: int, env: RequestEnv): (r: ServiceRun)
    requires Valid(db)
    ensures Valid(r.db)
    ensures r.result.Err? ==> r.db == db
    ensures FindActiveByEmployeeID(db, employeeId, env.lookupOk) in {Err(QueryFailed), Ok(None)} ==>
              r == ServiceRun(Err(NoActiveCheckInFound), db)
    ensures FindActiveByEmployeeID(db, employeeId, env.lookupOk).Ok? &&
            FindActiveByEmployeeID(db, employeeId, env.lookupOk).value.Some? ==>
              var active := FindActiveByEmployeeID(db, employeeId, env.lookupOk).value.value;
              && (env.now - active.checkInAt < duplicateWindowSec * Second ==>
                    r == ServiceRun(Err(DuplicateCheckIn), db))
              && (env.now - active.checkInAt >= duplicateWindowSec * Second ==>
                    && (r.result.Ok? <==> env.txFault.None? && !HasOutboxId(db.outbox, env.outboxId))
                    && (r.result.Ok? ==> r.result.value == Entities.CheckOut(active, env.now).value))
    ensures r.result.Ok? ==>
              var rec := r.result.value;
              && rec.employeeId == employeeId && rec.status == CheckedOutStatus && rec.checkOutAt == Some(env.now)
              && r.db.records == Upsert(db.records, rec, env.now, true)
              && exists k :: 0 <= k <= |db.outbox| &&
                   r.db.outbox == db.outbox[..k]
                                  + [NewOutboxRow(env.outboxId, CheckedOutEventFor(rec, env.eventId, env.now), rec.id, env.now)]
                                  + db.outbox[k..]
  {
    match FindActiveByEmployeeID(db, employeeId, env.lookupOk)
    case Err(_) => ServiceRun(Err(NoActiveCheckInFound), db)
    case Ok(None) => ServiceRun(Err(NoActiveCheckInFound), db)
    case Ok(Some(active)) =>
      if env.now - active.checkInAt < duplicateWindowSec * Second then ServiceRun(Err(DuplicateCheckIn), db)
      else match Entities.CheckOut(active, env.now)
        case Err(e) => ServiceRun(Err(EntityFailed(e)), db)
        case Ok(rec) =>
          var event := CheckedOutEventFor(rec, env.eventId, env.now);
          match SaveWithEvent(db, rec, event, env.outboxId, env.now, env.txFault)
          case Err(e) => ServiceRun(Err(SaveCheckOutFailed(e)), db)
          case Ok(db2) => ServiceRun(Ok(rec), db2)
  }
}
