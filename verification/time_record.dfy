/** The check-in/check-out record (domain/entities/time_record.go): two states,
    one transition. Fresh identifiers and clock readings are parameters. */
module Entities {
  import opened Wrappers
  import opened Clock

  datatype Status = CheckedInStatus | CheckedOutStatus

  datatype TimeRecord = TimeRecord(
    id: string,
    employeeId: string,
    checkInAt: Time,
    checkOutAt: Option<Time>,
    status: Status,
    hoursWorked: real)

  datatype EntityError = EmptyEmployeeId | AlreadyCheckedOut

  /** Hours between two readings, as `Duration.Hours()` computes it (no rounding). */
  function HoursBetween(from: Time, to: Time): (h: real)
    ensures from <= to ==> 0.0 <= h
    ensures h * (Hour as real) == (to - from) as real
  {
    (to - from) as real / Hour as real
  }

  /** A record for `employeeId`, checked in at `now` under identifier `freshId`. */
  function NewTimeRecord(employeeId: string, freshId: string, now: Time): (r: Result<TimeRecord, EntityError>)
    ensures employeeId == [] <==> r == Err(EmptyEmployeeId)
    ensures r.Ok? ==> r.value.employeeId == employeeId && r.value.id == freshId
                      && r.value.checkInAt == now && r.value.status == CheckedInStatus
                      && r.value.checkOutAt == None && r.value.hoursWorked == 0.0
  {
    if employeeId == [] then Err(EmptyEmployeeId)
    else Ok(TimeRecord(freshId, employeeId, now, None, CheckedInStatus, 0.0))
  }

  /** Checks the record out at `now`; fails on a record already checked out. */
  function CheckOut(tr: TimeRecord, now: Time): (r: Result<TimeRecord, EntityError>)
    ensures tr.status == CheckedOutStatus <==> r == Err(AlreadyCheckedOut)
    ensures r.Ok? ==> r.value.status == CheckedOutStatus && r.value.checkOutAt == Some(now)
                      && r.value.hoursWorked == HoursBetween(tr.checkInAt, now)
    ensures r.Ok? ==> r.value.id == tr.id && r.value.employeeId == tr.employeeId
                      && r.value.checkInAt == tr.checkInAt
  {
    if tr.status == CheckedOutStatus then Err(AlreadyCheckedOut)
    else Ok(tr.(checkOutAt := Some(now), status := CheckedOutStatus, hoursWorked := HoursBetween(tr.checkInAt, now)))
  }

  predicate IsCheckedIn(tr: TimeRecord)
  {
    tr.status == CheckedInStatus
  }

  /** A record reports itself checked in exactly when a check-out of it would
      succeed, whenever that check-out happens. */
  lemma CheckedInIffCanCheckOut(tr: TimeRecord, now: Time)
    ensures IsCheckedIn(tr) <==> CheckOut(tr, now).Ok?
  {
  }

  /** After a successful check-out every further check-out fails, at any time. */
  lemma SecondCheckOutFails(tr: TimeRecord, now: Time, later: Time)
    requires CheckOut(tr, now).Ok?
    ensures CheckOut(CheckOut(tr, now).value, later) == Err(AlreadyCheckedOut)
    ensures !IsCheckedIn(CheckOut(tr, now).value)
  {
  }

  /** A fresh record is checked in, and checking it out succeeds exactly once. */
  lemma NewRecordChecksOutOnce(employeeId: string, freshId: string, t0: Time, t1: Time)
    requires employeeId != []
    ensures IsCheckedIn(NewTimeRecord(employeeId, freshId, t0).value)
    ensures CheckOut(NewTimeRecord(employeeId, freshId, t0).value, t1).Ok?
    ensures t0 <= t1 ==> CheckOut(NewTimeRecord(employeeId, freshId, t0).value, t1).value.hoursWorked >= 0.0
  {
  }
}
