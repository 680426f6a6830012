/** The outbox relay (`startOutboxPublisher` in cmd/api/main.go): on each tick,
    fetch the oldest unpublished EmployeeCheckedOut rows, publish each one, then
    mark it published or record the failure. The broker's answer to each publish
    and the database's answer to each update are inputs. */
module OutboxRelay {
  import opened Wrappers
  import opened Clock
  import opened Events
  import opened Persistence

  /** What the relay hands to the broker: the stored type tag and payload. */
  datatype Message = Message(eventType: string, payload: Payload)

  /** For one fetched row: the publish outcome (error text on failure), whether
      the follow-up update (mark or retry bookkeeping) succeeded, and the clock
      reading the mark stores as `published_at`, taken afresh for each row. */
  datatype EventEnv = EventEnv(publish: Outcome<string>, updateOk: bool, markedAt: Time)

  datatype TickEnv = TickEnv(fetch: Cursor, events: seq<EventEnv>)

  /** What wakes the relay loop: cancellation or a ticker tick. */
  datatype Wake = Cancelled | Tick(env: TickEnv)

  /** The table afterwards and the publish calls made, in order. */
  datatype TickRun = TickRun(db: Db, attempts: seq<Message>)

  datatype RelayRun = RelayRun(db: Db, attempts: seq<Message>, stopped: bool)

  /** Outbox fetch limit from OUTBOX_FETCH_LIMIT (default 100). */
  const DefaultFetchLimit: int := 100

  function ToMessage(row: OutboxRow): Message
  {
    Message(row.eventType, row.payload)
  }

  /** What one relay step does to the row it handled. */
  function Effect(row: OutboxRow, e: EventEnv): (r: OutboxRow)
    ensures r.id == row.id && r.eventType == row.eventType && r.aggregateId == row.aggregateId
    ensures r.payload == row.payload && r.createdAt == row.createdAt
    ensures r.published <==> row.published || (e.publish.Pass? && e.updateOk)
    ensures r.retryCount == row.retryCount + (if e.publish.Fail? && e.updateOk then 1 else 0)
    ensures e.publish.Fail? && e.updateOk ==> r.lastError == Some(e.publish.error)
    ensures e.publish.Pass? && e.updateOk ==> r.publishedAt == Some(e.markedAt)
  {
    if !e.updateOk then row
    else match e.publish
      case Pass => row.(published := true, publishedAt := Some(e.markedAt))
      case Fail(err) => row.(retryCount := row.retryCount + 1, lastError := Some(err))
  }

  /** The outcome assigned to the batch row with this id, if any. */
  function EnvFor(batch: seq<OutboxRow>, envs: seq<EventEnv>, id: string): (r: Option<EventEnv>)
    requires |batch| <= |envs|
    ensures r.None? <==> forall i :: 0 <= i < |batch| ==> batch[i].id != id
    ensures UniqueOutboxIds(batch) ==> forall i :: 0 <= i < |batch| && batch[i].id == id ==> r == Some(envs[i])
    decreases |batch|
  {
    if batch == [] then None
    else if batch[0].id == id then Some(envs[0])
    else EnvFor(batch[1..], envs[1..], id)
  }

  function Apply(row: OutboxRow, e: Option<EventEnv>): OutboxRow
  {
    match e
    case None => row
    case Some(env) => Effect(row, env)
  }

  /** One step of the publish loop: publish `row`, then mark it or record the
      failure. A failed update leaves the table as it was. */
  function PublishOne(db: Db, row: OutboxRow, e: EventEnv): (r: Db)
    ensures r.records == db.records && |r.outbox| == |db.outbox|
    ensures forall k :: 0 <= k < |db.outbox| ==>
              r.outbox[k] == (if db.outbox[k].id == row.id then Effect(db.outbox[k], e) else db.outbox[k])
  {
    var step := match e.publish
      case Fail(err) => IncrementRetryCount(db, row.id, err, e.updateOk)
      case Pass => MarkAsPublished(db, row.id, e.markedAt, e.updateOk);
    if step.Ok? then step.value else db
  }

  /** The publish loop over one fetched batch, in batch order. A failed publish
      records a retry (the bookkeeping's own error is ignored) and moves on; a
      successful one is followed by the mark, whose failure also moves on. */
  function PublishBatch(db: Db, batch: seq<OutboxRow>, envs: seq<EventEnv>): (r: TickRun)
    requires |batch| <= |envs| && UniqueOutboxIds(batch)
    ensures r.db.records == db.records && |r.db.outbox| == |db.outbox|
    ensures |r.attempts| == |batch| && forall i :: 0 <= i < |batch| ==> r.attempts[i] == ToMessage(batch[i])
    ensures forall k :: 0 <= k < |db.outbox| ==>
              r.db.outbox[k] == Apply(db.outbox[k], EnvFor(batch, envs, db.outbox[k].id))
    decreases |batch|
  {
    if batch == [] then TickRun(db, [])
    else
      var db1 := PublishOne(db, batch[0], envs[0]);
      assert UniqueOutboxIds(batch[1..]);
      var rest := PublishBatch(db1, batch[1..], envs[1..]);
      forall k | 0 <= k < |db.outbox|
        ensures rest.db.outbox[k] == Apply(db.outbox[k], EnvFor(batch, envs, db.outbox[k].id))
      {
        if db.outbox[k].id == batch[0].id {
          forall i | 0 <= i < |batch[1..]|
            ensures batch[1..][i].id != batch[0].id
          {
            assert batch[1..][i] == batch[i + 1];
          }
        }
      }
      TickRun(rest.db, [ToMessage(batch[0])] + rest.attempts)
  }

  /** A row never loses what it had: same identity and content, published stays
      published, the retry count never drops. */
  predicate Evolves(a: OutboxRow, b: OutboxRow)
  {
    && b.id == a.id && b.eventType == a.eventType && b.aggregateId == a.aggregateId
    && b.payload == a.payload && b.createdAt == a.createdAt
    && (a.published ==> b.published)
    && a.retryCount <= b.retryCount
  }

  predicate TableEvolves(before: Db, after: Db)
  {
    && after.records == before.records
    && |after.outbox| == |before.outbox|
    && forall k :: 0 <= k < |before.outbox| ==> Evolves(before.outbox[k], after.outbox[k])
  }

  /** In a table with unique ids, a row that shares its id with a fetched row is
      that fetched row. */
  lemma BatchIdsAreRows(db: Db, batch: seq<OutboxRow>, k: nat)
    requires Valid(db) && k < |db.outbox|
    requires forall x :: x in batch ==> x in db.outbox
    ensures (exists i :: 0 <= i < |batch| && batch[i].id == db.outbox[k].id) ==> db.outbox[k] in batch
  {
    if i :| 0 <= i < |batch| && batch[i].id == db.outbox[k].id {
      assert batch[i] in batch;
      var k' :| 0 <= k' < |db.outbox| && db.outbox[k'] == batch[i];
      assert k' == k;
    }
  }

  /** Evolving rows keep their ids and creation times, so the keys stay valid. */
  lemma EvolvingKeepsKeys(before: Db, after: Db)
    requires Valid(before) && TableEvolves(before, after)
    ensures Valid(after)
  {
    assert forall k :: 0 <= k < |before.outbox| ==>
      after.outbox[k].id == before.outbox[k].id && after.outbox[k].createdAt == before.outbox[k].createdAt;
  }

  /** A row the batch touches is one of the batch's rows, handled with its own outcome. */
  lemma RowInBatch(db: Db, batch: seq<OutboxRow>, envs: seq<EventEnv>, k: nat)
    requires Valid(db) && |batch| <= |envs| && UniqueOutboxIds(batch) && k < |db.outbox|
    requires forall x :: x in batch ==> x in db.outbox
    ensures EnvFor(batch, envs, db.outbox[k].id).Some? ==>
              exists i :: 0 <= i < |batch| && batch[i] == db.outbox[k] && EnvFor(batch, envs, db.outbox[k].id) == Some(envs[i])
  {
    var e := EnvFor(batch, envs, db.outbox[k].id);
    if e.Some? {
      BatchIdsAreRows(db, batch, k);
      var i :| 0 <= i < |batch| && batch[i].id == db.outbox[k].id;
      assert batch[i] in batch;
      var k' :| 0 <= k' < |db.outbox| && db.outbox[k'] == batch[i];
      assert k' == k;
    }
  }

  /** What a batch of eligible rows of the table does to the table. */
  lemma {:induction false} BatchFacts(db: Db, batch: seq<OutboxRow>, envs: seq<EventEnv>)
    requires Valid(db) && |batch| <= |envs| && UniqueOutboxIds(batch)
    requires forall x :: x in batch ==> x in db.outbox && Eligible(x)
    ensures var r := PublishBatch(db, batch, envs);
            && Valid(r.db) && TableEvolves(db, r.db)
            && (forall k :: 0 <= k < |db.outbox| && !Eligible(db.outbox[k]) ==> r.db.outbox[k] == db.outbox[k])
            && (forall k :: 0 <= k < |db.outbox| && !db.outbox[k].published && r.db.outbox[k].published ==>
                  exists i :: 0 <= i < |batch| && batch[i] == db.outbox[k] && envs[i].publish.Pass? && envs[i].updateOk)
  {
    var r := PublishBatch(db, batch, envs);
    forall k | 0 <= k < |db.outbox|
      ensures Evolves(db.outbox[k], r.db.outbox[k])
      ensures r.db.outbox[k] != db.outbox[k] ==>
                exists i :: 0 <= i < |batch| && batch[i] == db.outbox[k] && EnvFor(batch, envs, db.outbox[k].id) == Some(envs[i])
    {
      RowInBatch(db, batch, envs, k);
    }
    EvolvingKeepsKeys(db, r.db);
  }

  /** One tick of the relay. */
  function RelayTick(db: Db, limit: int, env: TickEnv): (r: TickRun)
    requires Valid(db) && limit <= |env.events|
    ensures Valid(r.db) && TableEvolves(db, r.db)
    // Only EmployeeCheckedOut rows are ever relayed.
    ensures forall m :: m in r.attempts ==> m.eventType == CheckedOutTag
    // Rows that were not eligible are untouched.
    ensures forall k :: 0 <= k < |db.outbox| && !Eligible(db.outbox[k]) ==> r.db.outbox[k] == db.outbox[k]
    ensures var fetched := GetUnpublishedEvents(db, limit, env.fetch);
            // No fetch, or nothing fetched: nothing published and nothing updated.
            && (fetched.Err? || fetched.value == [] ==> r == TickRun(db, []))
            // The fetched batch is published in order with its stored type and payload.
            && (fetched.Ok? ==>
                  |r.attempts| == |fetched.value| &&
                  forall i :: 0 <= i < |fetched.value| ==> r.attempts[i] == ToMessage(fetched.value[i]))
            // Publish then mark: a row becomes published only after its message was
            // handed to the broker and accepted, and its mark succeeded.
            && (forall k :: 0 <= k < |db.outbox| && !db.outbox[k].published && r.db.outbox[k].published ==>
                  && ToMessage(db.outbox[k]) in r.attempts
                  && fetched.Ok?
                  && exists i :: 0 <= i < |fetched.value|
                       && fetched.value[i] == db.outbox[k] && env.events[i].publish.Pass? && env.events[i].updateOk)
  {
    match GetUnpublishedEvents(db, limit, env.fetch)
    case Err(_) => TickRun(db, [])
    case Ok(batch) =>
      if batch == [] then TickRun(db, [])
      else PublishFetched(db, batch, env)
  }

  /** The publish loop over a batch of eligible rows of the table. */
  function PublishFetched(db: Db, batch: seq<OutboxRow>, env: TickEnv): (r: TickRun)
    requires Valid(db) && |batch| <= |env.events| && UniqueOutboxIds(batch)
    requires forall x :: x in batch ==> x in db.outbox && Eligible(x)
    ensures Valid(r.db) && TableEvolves(db, r.db)
    ensures |r.attempts| == |batch| && forall i :: 0 <= i < |batch| ==> r.attempts[i] == ToMessage(batch[i])
    ensures forall m :: m in r.attempts ==> m.eventType == CheckedOutTag
    ensures forall k :: 0 <= k < |db.outbox| && !Eligible(db.outbox[k]) ==> r.db.outbox[k] == db.outbox[k]
    ensures forall k :: 0 <= k < |db.outbox| && !db.outbox[k].published && r.db.outbox[k].published ==>
              && ToMessage(db.outbox[k]) in r.attempts
              && exists i :: 0 <= i < |batch| && batch[i] == db.outbox[k] && env.events[i].publish.Pass? && env.events[i].updateOk
  {
    var r := PublishBatch(db, batch, env.events);
    BatchFacts(db, batch, env.events);
    assert forall i :: 0 <= i < |batch| ==> r.attempts[i] in r.attempts;
    assert forall m :: m in r.attempts ==> exists i :: 0 <= i < |batch| && m == ToMessage(batch[i]);
    assert forall i :: 0 <= i < |batch| ==> batch[i] in batch;
    r
  }

  /** The relay loop: each tick in turn until the first cancellation, after which
      nothing is fetched. */
  function Relay(db: Db, limit: int, wakes: seq<Wake>): (r: RelayRun)
    requires Valid(db)
    requires forall w :: w in wakes && w.Tick? ==> limit <= |w.env.events|
    ensures Valid(r.db) && TableEvolves(db, r.db)
    ensures r.stopped <==> Cancelled in wakes
    ensures forall m :: m in r.attempts ==> m.eventType == CheckedOutTag
    ensures forall k :: 0 <= k < |db.outbox| && db.outbox[k].eventType != CheckedOutTag ==> r.db.outbox[k] == db.outbox[k]
    decreases |wakes|
  {
    if wakes == [] then RelayRun(db, [], false)
    else match wakes[0]
      case Cancelled => RelayRun(db, [], true)
      case Tick(env) =>
        var t := RelayTick(db, limit, env);
        assert forall w :: w in wakes[1..] ==> w in wakes;
        var rest := Relay(t.db, limit, wakes[1..]);
        assert Cancelled in wakes <==> Cancelled in wakes[1..];
        RelayRun(rest.db, t.attempts + rest.attempts, rest.stopped)
  }

  /** On cancellation the relay returns before fetching again: later ticks do nothing. */
  lemma CancelStopsRelay(db: Db, limit: int, wakes: seq<Wake>)
    requires Valid(db)
    requires forall w :: w in wakes && w.Tick? ==> limit <= |w.env.events|
    ensures Relay(db, limit, [Cancelled] + wakes) == RelayRun(db, [], true)
  {
  }

  /** At-least-once: a row whose publish succeeded but whose mark failed stays
      unpublished and eligible, so the next tick whose fetch reads every row and
      whose limit covers the whole table publishes it again. */
  lemma {:induction false} UnmarkedRowIsRepublished(db: Db, limit: int, env: TickEnv, i: nat, next: TickEnv, limit2: int)
    requires Valid(db) && 0 <= limit <= |env.events|
    requires env.fetch.ReadAll? || (env.fetch.StopsAfter? && i < env.fetch.read)
    requires i < Min(limit, |EligibleRows(db.outbox)|)
    requires env.events[i].publish.Pass? && !env.events[i].updateOk
    requires next.fetch.ReadAll? && |db.outbox| <= limit2 <= |next.events|
    ensures ToMessage(GetUnpublishedEvents(db, limit, env.fetch).value[i]) in RelayTick(db, limit, env).attempts
    ensures ToMessage(GetUnpublishedEvents(db, limit, env.fetch).value[i])
              in RelayTick(RelayTick(db, limit, env).db, limit2, next).attempts
  {
    var batch := GetUnpublishedEvents(db, limit, env.fetch).value;
    var row := batch[i];
    var t := RelayTick(db, limit, env);
    assert row in batch;
    FetchedRowIsRelayed(db, limit, env, row);
    UnmarkedRowStaysEligible(db, limit, env, i);
    assert |EligibleRows(t.db.outbox)| <= |t.db.outbox| == |db.outbox|;
    EligibleRowIsFetched(t.db, limit2, row);
    FetchedRowIsRelayed(t.db, limit2, next, row);
  }

  /** A fetched row whose publish passed but whose mark failed is left as it was. */
  lemma UnmarkedRowStaysEligible(db: Db, limit: int, env: TickEnv, i: nat)
    requires Valid(db) && limit <= |env.events|
    requires GetUnpublishedEvents(db, limit, env.fetch).Ok? && i < |GetUnpublishedEvents(db, limit, env.fetch).value|
    requires !env.events[i].updateOk
    ensures GetUnpublishedEvents(db, limit, env.fetch).value[i] in EligibleRows(RelayTick(db, limit, env).db.outbox)
  {
    var batch := GetUnpublishedEvents(db, limit, env.fetch).value;
    var row := batch[i];
    var t := RelayTick(db, limit, env);
    assert row in batch;
    var k :| 0 <= k < |db.outbox| && db.outbox[k] == row;
    assert EnvFor(batch, env.events, row.id) == Some(env.events[i]);
    assert t.db.outbox[k] == row;
  }

  /** A fetch that reads every row, with a limit that covers every eligible
      row, fetches each of them. */
  lemma EligibleRowIsFetched(db: Db, limit: int, row: OutboxRow)
    requires Valid(db) && |EligibleRows(db.outbox)| <= limit && row in EligibleRows(db.outbox)
    ensures row in GetUnpublishedEvents(db, limit, ReadAll).value
  {
    var batch := GetUnpublishedEvents(db, limit, ReadAll).value;
    assert |batch| == |EligibleRows(db.outbox)|;
  }

  /** A tick whose fetch succeeds publishes every row it fetched. */
  lemma FetchedRowIsRelayed(db: Db, limit: int, env: TickEnv, row: OutboxRow)
    requires Valid(db) && limit <= |env.events|
    requires GetUnpublishedEvents(db, limit, env.fetch).Ok? && row in GetUnpublishedEvents(db, limit, env.fetch).value
    ensures ToMessage(row) in RelayTick(db, limit, env).attempts
  {
    var batch := GetUnpublishedEvents(db, limit, env.fetch).value;
    var j :| 0 <= j < |batch| && batch[j] == row;
    assert RelayTick(db, limit, env).attempts[j] == ToMessage(row);
  }
}
