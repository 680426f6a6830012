/** The Postgres repositories (infrastructure/persistence/postgres_repository.go)
    as functions over in-memory tables. Whether the database answers a statement
    is an input; what the statement does to the tables is modelled. */
module Persistence {
  import opened Wrappers
  import opened Clock
  import opened Events
  import opened Entities

  /** A `time_records` row: the entity plus the bookkeeping timestamps. */
  datatype RecordRow = RecordRow(record: TimeRecord, createdAt: Time, updatedAt: Time)

  /** An `outbox_events` row. */
  datatype OutboxRow = OutboxRow(
    id: string,
    eventType: string,
    aggregateId: string,
    payload: Payload,
    createdAt: Time,
    published: bool,
    publishedAt: Option<Time>,
    retryCount: int,
    lastError: Option<string>)

  /** `time_records` in insertion order; `outbox_events` ordered by `created_at`
      (rows with equal `created_at` in insertion order). */
  datatype Db = Db(records: seq<RecordRow>, outbox: seq<OutboxRow>)

  datatype RepoError =
    | BeginFailed
    | SaveRecordFailed
    | MarshalEventFailed
    | SaveOutboxFailed
    | CommitFailed
    | RecordNotFound
    | QueryFailed
    | NegativeLimit
    | ScanFailed
    | UpdateFailed

  /** The steps of `SaveWithEvent`'s transaction, any of which the database or
      the encoder may fail. */
  datatype TxStep = BeginStep | UpsertStep | MarshalStep | InsertStep | CommitStep

  predicate UniqueRecordIds(rows: seq<RecordRow>)
  {
    forall i, j :: 0 <= i < j < |rows| ==> rows[i].record.id != rows[j].record.id
  }

  predicate UniqueOutboxIds(rows: seq<OutboxRow>)
  {
    forall i, j :: 0 <= i < j < |rows| ==> rows[i].id != rows[j].id
  }

  predicate SortedByCreatedAt(rows: seq<OutboxRow>)
  {
    forall i, j :: 0 <= i < j < |rows| ==> rows[i].createdAt <= rows[j].createdAt
  }

  /** Both primary keys hold, and the outbox is in `created_at` order. */
  predicate Valid(db: Db)
  {
    UniqueRecordIds(db.records) && UniqueOutboxIds(db.outbox) && SortedByCreatedAt(db.outbox)
  }

  function Empty(): (db: Db)
    ensures Valid(db)
  {
    Db([], [])
  }

  // ---------------------------------------------------------------------------
  // time_records

  function FindRecord(rows: seq<RecordRow>, id: string): (k: Option<nat>)
    ensures k.Some? ==> k.value < |rows| && rows[k.value].record.id == id
    ensures k.None? ==> forall j :: 0 <= j < |rows| ==> rows[j].record.id != id
  {
    if rows == [] then None
    else if rows[0].record.id == id then Some(0)
    else match FindRecord(rows[1..], id)
      case None => None
      case Some(k) => Some(k + 1)
  }

  /** The upsert of both save paths: a new id is inserted with both timestamps at
      `now`; an existing id gets only its check-out time, status and hours
      replaced (and `updated_at`, when `touch` is set). */
  function Upsert(rows: seq<RecordRow>, rec: TimeRecord, now: Time, touch: bool): (r: seq<RecordRow>)
    requires UniqueRecordIds(rows)
    ensures UniqueRecordIds(r)
    ensures FindRecord(rows, rec.id).None? ==> r == rows + [RecordRow(rec, now, now)]
    ensures FindRecord(rows, rec.id).Some? ==>
              var k := FindRecord(rows, rec.id).value;
              && |r| == |rows|
              && (forall j :: 0 <= j < |rows| && j != k ==> r[j] == rows[j])
              && r[k].record.id == rec.id
              && r[k].record.employeeId == rows[k].record.employeeId
              && r[k].record.checkInAt == rows[k].record.checkInAt
              && r[k].record.checkOutAt == rec.checkOutAt
              && r[k].record.status == rec.status
              && r[k].record.hoursWorked == rec.hoursWorked
              && r[k].createdAt == rows[k].createdAt
              && r[k].updatedAt == (if touch then now else rows[k].updatedAt)
  {
    match FindRecord(rows, rec.id)
    case None => rows + [RecordRow(rec, now, now)]
    case Some(k) =>
      var prev := rows[k];
      var merged := prev.record.(checkOutAt := rec.checkOutAt, status := rec.status, hoursWorked := rec.hoursWorked);
      rows[k := prev.(record := merged, updatedAt := if touch then now else prev.updatedAt)]
  }

  /** `Save`: the stand-alone upsert, which leaves `updated_at` alone. */
  function Save(db: Db, rec: TimeRecord, now: Time, execOk: bool): (r: Result<Db, RepoError>)
    requires Valid(db)
    ensures !execOk <==> r == Err(SaveRecordFailed)
    ensures r.Ok? ==> Valid(r.value) && r.value.outbox == db.outbox
                      && r.value.records == Upsert(db.records, rec, now, false)
  {
    if !execOk then Err(SaveRecordFailed) else Ok(db.(records := Upsert(db.records, rec, now, false)))
  }

  predicate IsActiveFor(row: RecordRow, employeeId: string)
  {
    row.record.employeeId == employeeId && row.record.status == CheckedInStatus
  }

  /** Position of the employee's CHECKED_IN row with the latest check-in time
      (the earliest such row on a tie). */
  function LatestActive(rows: seq<RecordRow>, employeeId: string): (k: Option<nat>)
    ensures k.Some? ==> k.value < |rows| && IsActiveFor(rows[k.value], employeeId)
    ensures k.Some? ==> forall j :: 0 <= j < |rows| && IsActiveFor(rows[j], employeeId) ==>
                          rows[j].record.checkInAt <= rows[k.value].record.checkInAt
    ensures k.None? <==> forall j :: 0 <= j < |rows| ==> !IsActiveFor(rows[j], employeeId)
    decreases |rows|
  {
    if rows == [] then None
    else
      var last := |rows| - 1;
      var k := LatestActive(rows[..last], employeeId);
      assert forall j :: 0 <= j < last ==> rows[..last][j] == rows[j];
      if !IsActiveFor(rows[last], employeeId) then k
      else if k.None? || rows[k.value].record.checkInAt < rows[last].record.checkInAt then Some(last)
      else k
  }

  /** `FindActiveByEmployeeID`: no row is not an error; a failed query is. */
  function FindActiveByEmployeeID(db: Db, employeeId: string, queryOk: bool): (r: Result<Option<TimeRecord>, RepoError>)
    ensures !queryOk <==> r == Err(QueryFailed)
    ensures r.Ok? && r.value.Some? ==>
              && r.value.value.employeeId == employeeId && r.value.value.status == CheckedInStatus
              && (exists j :: 0 <= j < |db.records| && db.records[j].record == r.value.value)
              && forall j :: 0 <= j < |db.records| && IsActiveFor(db.records[j], employeeId) ==>
                   db.records[j].record.checkInAt <= r.value.value.checkInAt
    ensures r.Ok? && r.value.None? ==> forall j :: 0 <= j < |db.records| ==> !IsActiveFor(db.records[j], employeeId)
  {
    if !queryOk then Err(QueryFailed)
    else match LatestActive(db.records, employeeId)
      case None => Ok(None)
      case Some(k) => Ok(Some(db.records[k].record))
  }

  /** `FindByID`: a missing id is an error. */
  function FindByID(db: Db, id: string, queryOk: bool): (r: Result<TimeRecord, RepoError>)
    ensures !queryOk ==> r == Err(QueryFailed)
    ensures queryOk && (forall j :: 0 <= j < |db.records| ==> db.records[j].record.id != id) ==> r == Err(RecordNotFound)
    ensures queryOk && (exists j :: 0 <= j < |db.records| && db.records[j].record.id == id) ==> r.Ok?
    ensures r.Ok? ==> r.value.id == id && exists j :: 0 <= j < |db.records| && db.records[j].record == r.value
  {
    if !queryOk then Err(QueryFailed)
    else match FindRecord(db.records, id)
      case None => Err(RecordNotFound)
      case Some(k) => Ok(db.records[k].record)
  }

  // ---------------------------------------------------------------------------
  // outbox_events

  /** A freshly inserted outbox row: the columns the insert leaves out take their
      table defaults (unpublished, no publish time, zero retries, no error). */
  function NewOutboxRow(id: string, event: DomainEvent, aggregateId: string, now: Time): (row: OutboxRow)
    ensures row.id == id && row.aggregateId == aggregateId && row.createdAt == now
    ensures row.eventType == EventType(event) && row.payload == Json(event)
    ensures !row.published && row.publishedAt == None && row.retryCount == 0 && row.lastError == None
  {
    OutboxRow(id, EventType(event), aggregateId, Json(event), now, false, None, 0, None)
  }

  predicate HasOutboxId(rows: seq<OutboxRow>, id: string)
  {
    exists j :: 0 <= j < |rows| && rows[j].id == id
  }

  /** Where a row created at `t` goes: after every row created at or before `t`. */
  function InsertPosition(rows: seq<OutboxRow>, t: Time): (k: nat)
    requires SortedByCreatedAt(rows)
    ensures k <= |rows|
    ensures forall j :: 0 <= j < k ==> rows[j].createdAt <= t
    ensures forall j :: k <= j < |rows| ==> t < rows[j].createdAt
  {
    if rows == [] || t < rows[0].createdAt then 0
    else 1 + InsertPosition(rows[1..], t)
  }

  function InsertOutbox(rows: seq<OutboxRow>, row: OutboxRow): (r: seq<OutboxRow>)
    requires SortedByCreatedAt(rows) && UniqueOutboxIds(rows) && !HasOutboxId(rows, row.id)
    ensures SortedByCreatedAt(r) && UniqueOutboxIds(r)
    ensures |r| == |rows| + 1
    ensures exists k :: 0 <= k <= |rows| && r == rows[..k] + [row] + rows[k..]
  {
    var k := InsertPosition(rows, row.createdAt);
    SpliceSorted(rows, row, k);
    SpliceUnique(rows, row, k);
    rows[..k] + [row] + rows[k..]
  }

  /** Splicing a row in at its `created_at` position keeps the table sorted. */
  lemma SpliceSorted(rows: seq<OutboxRow>, row: OutboxRow, k: nat)
    requires SortedByCreatedAt(rows) && k <= |rows|
    requires forall j :: 0 <= j < k ==> rows[j].createdAt <= row.createdAt
    requires forall j :: k <= j < |rows| ==> row.createdAt < rows[j].createdAt
    ensures SortedByCreatedAt(rows[..k] + [row] + rows[k..])
  {
    var r := rows[..k] + [row] + rows[k..];
    forall i, j | 0 <= i < j < |r|
      ensures r[i].createdAt <= r[j].createdAt
    {
      SpliceAt(rows, row, k, i);
      SpliceAt(rows, row, k, j);
    }
  }

  /** Splicing in a row whose id is not taken keeps the ids unique. */
  lemma SpliceUnique(rows: seq<OutboxRow>, row: OutboxRow, k: nat)
    requires UniqueOutboxIds(rows) && !HasOutboxId(rows, row.id) && k <= |rows|
    ensures UniqueOutboxIds(rows[..k] + [row] + rows[k..])
  {
    var r := rows[..k] + [row] + rows[k..];
    forall i, j | 0 <= i < j < |r|
      ensures r[i].id != r[j].id
    {
      SpliceAt(rows, row, k, i);
      SpliceAt(rows, row, k, j);
    }
  }

  lemma SpliceAt(rows: seq<OutboxRow>, row: OutboxRow, k: nat, i: nat)
    requires k <= |rows| && i <= |rows|
    ensures var r := rows[..k] + [row] + rows[k..];
            && (i < k ==> r[i] == rows[i])
            && (i == k ==> r[i] == row)
            && (k < i ==> r[i] == rows[i - 1])
  {
  }

  /** `SaveWithEvent`: the record upsert and the outbox insert in one transaction.
      `failAt` names the step that fails, if any; an outbox id already taken
      fails the insert on the primary key. */
  function SaveWithEvent(db: Db, rec: TimeRecord, event: DomainEvent, freshId: string, now: Time,
                         failAt: Option<TxStep>): (r: Result<Db, RepoError>)
    requires Valid(db)
    ensures failAt.Some? ==> r.Err?
    ensures HasOutboxId(db.outbox, freshId) ==> r.Err?
    ensures failAt.None? && !HasOutboxId(db.outbox, freshId) ==> r.Ok?
    ensures r.Ok? ==>
              && Valid(r.value)
              && r.value.records == Upsert(db.records, rec, now, true)
              && exists k :: 0 <= k <= |db.outbox| &&
                   r.value.outbox == db.outbox[..k] + [NewOutboxRow(freshId, event, rec.id, now)] + db.outbox[k..]
  {
    if failAt == Some(BeginStep) then Err(BeginFailed)
    else
      var records := Upsert(db.records, rec, now, true);
      if failAt == Some(UpsertStep) then Err(SaveRecordFailed)
      else if failAt == Some(MarshalStep) then Err(MarshalEventFailed)
      else if failAt == Some(InsertStep) || HasOutboxId(db.outbox, freshId) then Err(SaveOutboxFailed)
      else
        var outbox := InsertOutbox(db.outbox, NewOutboxRow(freshId, event, rec.id, now));
        // the only step left that can fail is the commit
        if failAt.Some? then Err(CommitFailed)
        else Ok(Db(records, outbox))
  }

  /** The rows the relay may claim: unpublished and of type EmployeeCheckedOut. */
  predicate Eligible(row: OutboxRow)
  {
    !row.published && row.eventType == CheckedOutTag
  }

  function EligibleRows(rows: seq<OutboxRow>): (r: seq<OutboxRow>)
    ensures |r| <= |rows|
    ensures forall x :: x in r <==> x in rows && Eligible(x)
    decreases |rows|
  {
    if rows == [] then []
    else
      var rest := EligibleRows(rows[1..]);
      assert forall x :: x in rows <==> x == rows[0] || x in rows[1..];
      if Eligible(rows[0]) then [rows[0]] + rest else rest
  }

  lemma HeadBoundsTail(rows: seq<OutboxRow>)
    requires rows != []
    ensures SortedByCreatedAt(rows) ==> forall x :: x in rows[1..] ==> rows[0].createdAt <= x.createdAt
    ensures UniqueOutboxIds(rows) ==> forall x :: x in rows[1..] ==> rows[0].id != x.id
  {
    forall x | x in rows[1..]
      ensures SortedByCreatedAt(rows) ==> rows[0].createdAt <= x.createdAt
      ensures UniqueOutboxIds(rows) ==> rows[0].id != x.id
    {
      var j :| 0 <= j < |rows[1..]| && rows[1..][j] == x;
      assert rows[j + 1] == x;
    }
  }

  /** Filtering keeps the table's `created_at` order. */
  lemma {:induction false} EligibleRowsSorted(rows: seq<OutboxRow>)
    requires SortedByCreatedAt(rows)
    ensures SortedByCreatedAt(EligibleRows(rows))
    decreases |rows|
  {
    if rows != [] {
      EligibleRowsSorted(rows[1..]);
      if Eligible(rows[0]) {
        HeadBoundsTail(rows);
        var rest := EligibleRows(rows[1..]);
        var r := [rows[0]] + rest;
        forall i, j | 0 <= i < j < |r|
          ensures r[i].createdAt <= r[j].createdAt
        {
          assert r[j] == rest[j - 1] && rest[j - 1] in rest;
          if i > 0 {
            assert r[i] == rest[i - 1];
          }
        }
      }
    }
  }

  /** Filtering keeps the ids distinct. */
  lemma {:induction false} EligibleRowsUnique(rows: seq<OutboxRow>)
    requires UniqueOutboxIds(rows)
    ensures UniqueOutboxIds(EligibleRows(rows))
    decreases |rows|
  {
    if rows != [] {
      EligibleRowsUnique(rows[1..]);
      if Eligible(rows[0]) {
        HeadBoundsTail(rows);
        var rest := EligibleRows(rows[1..]);
        var r := [rows[0]] + rest;
        assert forall j :: 1 <= j < |r| ==> r[j] == rest[j - 1] && rest[j - 1] in rest;
      }
    }
  }

  /** In a sorted sequence, a prefix bounds everything after it. */
  lemma PrefixBoundsRest(all: seq<OutboxRow>, n: nat)
    requires n <= |all| && SortedByCreatedAt(all)
    ensures forall x, y :: x in all && x !in all[..n] && y in all[..n] ==> y.createdAt <= x.createdAt
  {
    forall x, y | x in all && x !in all[..n] && y in all[..n]
      ensures y.createdAt <= x.createdAt
    {
      var i :| 0 <= i < |all| && all[i] == x;
      var j :| 0 <= j < n && all[..n][j] == y;
      assert all[j] == y;
    }
  }

  /** The first `n` eligible rows: eligible rows of the table, oldest first,
      unique, and no eligible row left out is older than one kept. */
  lemma EligiblePrefix(rows: seq<OutboxRow>, n: nat)
    requires SortedByCreatedAt(rows) && UniqueOutboxIds(rows) && n <= |EligibleRows(rows)|
    ensures var p := EligibleRows(rows)[..n];
            && (forall x :: x in p ==> x in rows && Eligible(x) && x.eventType != CheckedInTag)
            && SortedByCreatedAt(p) && UniqueOutboxIds(p)
            && forall x, y :: x in EligibleRows(rows) && x !in p && y in p ==>
                 n < |EligibleRows(rows)| && y.createdAt <= x.createdAt
  {
    var all := EligibleRows(rows);
    var p := all[..n];
    TagsDistinct();
    EligibleRowsSorted(rows);
    EligibleRowsUnique(rows);
    PrefixBoundsRest(all, n);
    assert forall x :: x in p ==> x in all;
    assert forall x :: x in all && x !in p ==> n < |all|;
    assert SortedByCreatedAt(p) by {
      assert forall i :: 0 <= i < n ==> p[i] == all[i];
    }
    assert UniqueOutboxIds(p) by {
      assert forall i :: 0 <= i < n ==> p[i] == all[i];
    }
  }

    /** How reading the fetch's result set goes: the query itself fails; every
      row is read; the cursor stops early after `read` rows (`rows.Next` turns
      false on a driver error, and `rows.Err` is never consulted); or the row at
      `index` fails to scan. */
  datatype Cursor = QueryError | ReadAll | StopsAfter(read: nat) | ScanFailsAt(index: nat)

  /** How many of `n` selected rows the read loop collects. */
  function RowsCollected(n: nat, c: Cursor): (m: nat)
    ensures m <= n
    ensures c.StopsAfter? ==> m == Min(n, c.read)
    ensures !c.StopsAfter? ==> m == n
  {
    match c
    case StopsAfter(read) => Min(n, read)
    case _ => n
  }

  /** `GetUnpublishedEvents`: the oldest `limit` unpublished EmployeeCheckedOut
      rows, oldest first, as far as the read loop gets. A negative limit is
      rejected by the database. A scan failure fails the fetch; a cursor that
      stops early yields the rows read so far with no error. */
  function GetUnpublishedEvents(db: Db, limit: int, cursor: Cursor): (r: Result<seq<OutboxRow>, RepoError>)
    requires Valid(db)
    ensures cursor.QueryError? ==> r == Err(QueryFailed)
    ensures !cursor.QueryError? && limit < 0 ==> r == Err(NegativeLimit)
    ensures !cursor.QueryError? && 0 <= limit && cursor.ScanFailsAt? && cursor.index < Min(limit, |EligibleRows(db.outbox)|) ==>
              r == Err(ScanFailed)
    ensures r.Ok? <==>
              && !cursor.QueryError? && 0 <= limit
              && !(cursor.ScanFailsAt? && cursor.index < Min(limit, |EligibleRows(db.outbox)|))
    ensures r.Ok? ==>
              && |r.value| == RowsCollected(Min(limit, |EligibleRows(db.outbox)|), cursor)
              && (forall x :: x in r.value ==> x in db.outbox && Eligible(x) && x.eventType != CheckedInTag)
              && SortedByCreatedAt(r.value) && UniqueOutboxIds(r.value)
              && forall x, y :: x in EligibleRows(db.outbox) && x !in r.value && y in r.value ==>
                   (|r.value| == limit || cursor.StopsAfter?) && y.createdAt <= x.createdAt
  {
    if cursor.QueryError? then Err(QueryFailed)
    else if limit < 0 then Err(NegativeLimit)
    else
      var selected := Min(limit, |EligibleRows(db.outbox)|);
      if cursor.ScanFailsAt? && cursor.index < selected then Err(ScanFailed)
      else
        var n := RowsCollected(selected, cursor);
        EligiblePrefix(db.outbox, n);
        Ok(EligibleRows(db.outbox)[..n])
  }

  /** Applies `f` to every row with the given id. */
  function UpdateById(rows: seq<OutboxRow>, id: string, f: OutboxRow -> OutboxRow): (r: seq<OutboxRow>)
    ensures |r| == |rows|
    ensures forall j :: 0 <= j < |rows| ==> r[j] == (if rows[j].id == id then f(rows[j]) else rows[j])
  {
    seq(|rows|, j requires 0 <= j < |rows| => if rows[j].id == id then f(rows[j]) else rows[j])
  }

  function MarkRow(now: Time): OutboxRow -> OutboxRow
  {
    (row: OutboxRow) => row.(published := true, publishedAt := Some(now))
  }

  function FailRow(errorMsg: string): OutboxRow -> OutboxRow
  {
    (row: OutboxRow) => row.(retryCount := row.retryCount + 1, lastError := Some(errorMsg))
  }

  /** `MarkAsPublished`: an unknown id updates nothing and is not an error. */
  function MarkAsPublished(db: Db, id: string, now: Time, execOk: bool): (r: Result<Db, RepoError>)
    ensures !execOk <==> r == Err(UpdateFailed)
    ensures r.Ok? ==> r.value.records == db.records && |r.value.outbox| == |db.outbox|
    ensures r.Ok? ==> forall j :: 0 <= j < |db.outbox| ==>
              r.value.outbox[j] == (if db.outbox[j].id == id
                                   then db.outbox[j].(published := true, publishedAt := Some(now))
                                   else db.outbox[j])
    ensures r.Ok? && !HasOutboxId(db.outbox, id) ==> r.value == db
  {
    if !execOk then Err(UpdateFailed)
    else
      var r := Db(db.records, UpdateById(db.outbox, id, MarkRow(now)));
      assert !HasOutboxId(db.outbox, id) ==> r.outbox == db.outbox;
      Ok(r)
  }

  /** `IncrementRetryCount`: bumps the count and records the error, nothing else. */
  function IncrementRetryCount(db: Db, id: string, errorMsg: string, execOk: bool): (r: Result<Db, RepoError>)
    ensures !execOk <==> r == Err(UpdateFailed)
    ensures r.Ok? ==> r.value.records == db.records && |r.value.outbox| == |db.outbox|
    ensures r.Ok? ==> forall j :: 0 <= j < |db.outbox| ==>
              r.value.outbox[j] == (if db.outbox[j].id == id
                                   then db.outbox[j].(retryCount := db.outbox[j].retryCount + 1, lastError := Some(errorMsg))
                                   else db.outbox[j])
  {
    if !execOk then Err(UpdateFailed)
    else Ok(Db(db.records, UpdateById(db.outbox, id, FailRow(errorMsg))))
  }

  /** A failed transaction leaves no trace: neither the record nor the outbox row. */
  lemma SaveWithEventAtomic(db: Db, rec: TimeRecord, event: DomainEvent, freshId: string, now: Time,
                            failAt: Option<TxStep>)
    requires Valid(db)
    ensures SaveWithEvent(db, rec, event, freshId, now, failAt).Err? <==>
              failAt.Some? || HasOutboxId(db.outbox, freshId)
    ensures SaveWithEvent(db, rec, event, freshId, now, failAt).Ok? ==>
              |SaveWithEvent(db, rec, event, freshId, now, failAt).value.outbox| == |db.outbox| + 1
  {
  }
}
