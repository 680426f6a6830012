/** The domain events written to the outbox (domain/events/domain_events.go):
    a closed sum with one variant per event and a shared header. */
module Events {
  import opened Clock

  const CheckedInTag: string := "EmployeeCheckedIn"
  const CheckedOutTag: string := "EmployeeCheckedOut"

  /** Common header; `eventType` is a stored field that `EventType` below ignores. */
  datatype EventHeader = EventHeader(eventId: string, eventType: string, version: int, timestamp: Time)

  datatype DomainEvent =
    | CheckedIn(header: EventHeader, employeeId: string, checkInAt: Time, recordId: string)
    | CheckedOut(header: EventHeader, employeeId: string, checkInAt: Time, checkOutAt: Time,
                 hoursWorked: real, recordId: string)

  /** The serialised form of an event (an outbox payload / message body). The JSON
      encoding itself is not modelled: a payload is the event it encodes. */
  datatype Payload = Json(event: DomainEvent)

  /** The type tag is fixed by the variant, whatever the header says. */
  function EventType(e: DomainEvent): (tag: string)
    ensures e.CheckedIn? <==> tag == CheckedInTag
    ensures e.CheckedOut? <==> tag == CheckedOutTag
  {
    match e
    case CheckedIn(_, _, _, _) => CheckedInTag
    case CheckedOut(_, _, _, _, _, _) => CheckedOutTag
  }

  function OccurredAt(e: DomainEvent): Time
  {
    e.header.timestamp
  }

  function Version(e: DomainEvent): int
  {
    e.header.version
  }

  /** The two tags are different strings, so a tag identifies its variant. */
  lemma TagsDistinct()
    ensures CheckedInTag != CheckedOutTag
  {
    assert |CheckedInTag| == 17 && |CheckedOutTag| == 18;
  }

  /** The same event with another header. */
  function WithHeader(e: DomainEvent, h: EventHeader): (r: DomainEvent)
    ensures r.header == h && r.CheckedIn? == e.CheckedIn?
  {
    match e
    case CheckedIn(_, emp, inAt, rid) => CheckedIn(h, emp, inAt, rid)
    case CheckedOut(_, emp, inAt, outAt, hours, rid) => CheckedOut(h, emp, inAt, outAt, hours, rid)
  }

  /** Rewriting the header (including its `eventType` field) never changes the tag. */
  lemma EventTypeIgnoresHeader(e: DomainEvent, h: EventHeader)
    ensures EventType(WithHeader(e, h)) == EventType(e)
    ensures e.CheckedIn? ==> EventType(WithHeader(e, h)) == CheckedInTag
    ensures e.CheckedOut? ==> EventType(WithHeader(e, h)) == CheckedOutTag
  {
  }

  /** `Version` and `OccurredAt` read the header unchanged, for both variants,
      and do not depend on the variant-specific fields. */
  lemma AccessorsReadHeader(a: DomainEvent, b: DomainEvent)
    requires a.header == b.header
    ensures Version(a) == Version(b) == a.header.version
    ensures OccurredAt(a) == OccurredAt(b) == a.header.timestamp
  {
  }
}
