# Check-in service: resilience and outbox core in Dafny

This project models the core of `check-in-service`, a Go service. An employee taps a card reader and the service toggles them between checked in and checked out. Each check-out goes into a transactional outbox. An outbox relay publishes those events to RabbitMQ. A labor-cost worker then reports the hours to a flaky legacy API, guarded by a circuit breaker and a retry loop.

Every piece is written as immutable state and pure transitions. The clock is an integer count of nanoseconds (`Clock.Time`), passed in as a parameter. Whatever the outside world answers is also an input: database faults, broker publish results, HTTP outcomes, whether a payload decodes, and freshly generated ids.

Modules, one per file, following the program's packages:

| file | module | models |
|---|---|---|
| `wrappers.dfy` | `Wrappers`, `Clock` | Option/Result/Outcome, time units, Go's float-to-duration truncation |
| `events.dfy` | `Events` | the two domain events and their header accessors |
| `time_record.dfy` | `Entities` | the two-state time record |
| `circuit_breaker.dfy` | `CircuitBreaker` | the Closed/Open/Half breaker |
| `rate_limiter.dfy` | `RateLimiter` | the token bucket, and the source's locking as written |
| `legacy_client.dfy` | `LegacyClient` | the breaker-guarded call to the legacy labor-cost API |
| `labor_cost.dfy` | `LaborCost` | the labor-cost handler's bounded retry with capped backoff |
| `persistence.dfy` | `Persistence` | the `time_records` and `outbox_events` tables as sequences |
| `outbox_relay.dfy` | `OutboxRelay` | the relay tick and loop of `startOutboxPublisher` |
| `checkin_service.dfy` | `Services` | the check-in and check-out use cases, with the duplicate window |
| `http_handlers.dfy` | `HttpHandlers` | the card-reader endpoint's toggle dispatch and status codes |
| `rabbitmq_consumer.dfy` | `Consumer` | the DLX/DLQ topology and the ack/nack loop |

How the tables are represented:

- `time_records` keeps its insertion order.
- `outbox_events` is kept sorted by `created_at` through stable insertion, so a fetch returns rows in `ORDER BY created_at` order. SQL leaves rows with equal `created_at` in no defined order; the model resolves such ties by insertion order, which is a modelling choice.
- A tie in `check_in_at` is something SQL leaves unordered. `FindActiveByEmployeeID` resolves it deterministically, to the earliest row.

Two behaviours of the code are worth stating because they differ from what such components usually do. The model follows the code:

- **A failure in Half.** The usual circuit-breaker design reopens the breaker on any failure while Half-open. This code does not. Entering Half clears `failureCount` (`circuit_breaker.go:86`), and `RecordFailure` opens only when the count reaches `failureThreshold` (`circuit_breaker.go:64`). So with a threshold above 1, one Half failure leaves the breaker Half. `CircuitBreaker.HalfFailureDoesNotReopen` and `CircuitBreaker.HalfReopensAfterThreshold` state this behaviour.
- **Check-in after a failed lookup.** The check-in service blocks a check-in only when the lookup *succeeds* and finds an active record. A failed lookup lets the check-in through. `HttpHandlers.FailedLookupsOpenSecondRecord` shows the consequence: when both lookups of one tap fail, an already checked-in employee gets a second open record.

## Model

| member | source | states |
|---|---|---|
| Events.EventType | domain/events/domain_events.go:34-57 | The tag is "EmployeeCheckedIn" exactly for the CheckedIn variant and "EmployeeCheckedOut" exactly for the CheckedOut variant. |
| Events.TagsDistinct | domain/events/domain_events.go:7-10 | The two event type tags are different strings. |
| Events.EventTypeIgnoresHeader | domain/events/domain_events.go:20-57 | Replacing the header, including its stored `eventType` field, never changes `EventType`. |
| Events.AccessorsReadHeader | domain/events/domain_events.go:38-65 | `Version` and `OccurredAt` return the header's version and timestamp unchanged, for both variants. Two events with the same header agree on both. |
| Clock.Trunc | infrastructure/external/rate_limiter.go:51 | Converting float seconds to a `time.Duration` truncates toward zero. The result lies within one unit of the real value, on the side of zero. |
| Clock.MinReal | infrastructure/external/rate_limiter.go:65-70 | The smaller of two values, and it is one of them. |
| Entities.HoursBetween | domain/entities/time_record.go:47 | Hours worked times one hour of nanoseconds is exactly the elapsed time, so the value is the elapsed time in hours. It is non-negative when check-out is not before check-in. |
| Entities.NewTimeRecord | domain/entities/time_record.go:26-37 | An empty employee id is an error, and only that is. Otherwise the record has the id, the fresh record id, check-in time `now`, status CHECKED_IN, no check-out and 0 hours. |
| Entities.CheckOut | domain/entities/time_record.go:39-50 | Fails exactly on a CHECKED_OUT record. Otherwise it sets CHECKED_OUT, check-out `now` and the elapsed hours, and keeps the id, the employee and the check-in time. |
| Entities.CheckedInIffCanCheckOut | domain/entities/time_record.go:39-54 | `IsCheckedIn` holds exactly when a check-out of the record succeeds, at any time. |
| Entities.SecondCheckOutFails | domain/entities/time_record.go:39-54 | After a successful check-out, a second one fails and the record is no longer checked in. |
| Entities.NewRecordChecksOutOnce | domain/entities/time_record.go:26-50 | A new record is checked in. Its first check-out succeeds, with non-negative hours when time does not go backwards. |
| CircuitBreaker.NewCircuitBreaker | infrastructure/external/circuit_breaker.go:29-36 | A new breaker is Closed with both counters zero and the given thresholds and timeout. |
| CircuitBreaker.RecordSuccess | infrastructure/external/circuit_breaker.go:39-53 | Always zeroes `failureCount`. Outside Half nothing else changes. In Half, `successCount` increments, and reaching `successThreshold` closes the breaker with `successCount` reset. |
| CircuitBreaker.RecordFailure | infrastructure/external/circuit_breaker.go:56-68 | Increments `failureCount`, stamps `now` and zeroes `successCount`. Opens once the count reaches the threshold, and otherwise keeps the state. |
| CircuitBreaker.CanExecute | infrastructure/external/circuit_breaker.go:71-101 | Closed and Half allow the call with no change. Open allows it only when strictly more than `timeout` has elapsed, and then moves to Half with `failureCount` 0. Otherwise it refuses with the OPEN error and no change. Every transition keeps `Valid`, which includes `successCount == 0` outside Half. |
| CircuitBreaker.LaborCostBreaker | cmd/api/main.go:213-215 | The worker's breaker starts Closed with zero counters. Its failure threshold is CB_MAX_FAILURES, its success threshold is 1, and its reset timeout is the configured seconds. |
| CircuitBreaker.RecordFailures | infrastructure/external/circuit_breaker.go:56-68 | Any sequence of failures keeps the breaker invariant. |
| CircuitBreaker.RecordSuccesses | infrastructure/external/circuit_breaker.go:39-53 | Any run of successes keeps the breaker invariant. |
| CircuitBreaker.FailuresAccumulate | infrastructure/external/circuit_breaker.go:56-68 | n consecutive failures add n to the count and stamp the last reading. They open the breaker once count plus n reaches the threshold, and otherwise keep the state. |
| CircuitBreaker.ThresholdFailuresOpen | infrastructure/external/circuit_breaker.go:56-92 | From a new breaker, `failureThreshold` failures open it, and it refuses calls until the timeout has passed. |
| CircuitBreaker.BelowThresholdStaysClosed | infrastructure/external/circuit_breaker.go:60-67 | Fewer failures than the threshold leave a new breaker Closed. |
| CircuitBreaker.ExpiredOpenProbes | infrastructure/external/circuit_breaker.go:79-90 | The first call after the timeout is allowed and moves to Half with both counters zero. |
| CircuitBreaker.HalfSuccessesClose | infrastructure/external/circuit_breaker.go:43-52 | In Half, enough consecutive successes close the breaker with both counters cleared. |
| CircuitBreaker.ClosedSuccessesStayClosed | infrastructure/external/circuit_breaker.go:43-52 | Successes leave a clean Closed breaker unchanged. |
| CircuitBreaker.HalfFailureDoesNotReopen | infrastructure/external/circuit_breaker.go:60-90 | After the probe, one failure with threshold above 1 leaves the breaker Half and still allowing calls. |
| CircuitBreaker.HalfReopensAfterThreshold | infrastructure/external/circuit_breaker.go:60-90 | After the probe, the breaker reopens exactly when `failureThreshold` failures have accumulated. |
| CircuitBreaker.LaborCostBreakerOneProbe | cmd/api/main.go:215 | With successThreshold 1, the first Half success closes the breaker. |
| RateLimiter.NewRateLimiter | infrastructure/external/rate_limiter.go:18-28 | tokens = maxTokens = requestsPerMinute and refillRate·60 = maxTokens. The limiter is valid for at least one request per minute. |
| RateLimiter.Refill | infrastructure/external/rate_limiter.go:36-40 | Tokens never decrease and never exceed capacity. The new count is either the capacity or the old count plus the accrual. The refill clock becomes `now`. |
| RateLimiter.WaitNeeded | infrastructure/external/rate_limiter.go:49-51 | The wait is the missing fraction of a token over the refill rate, truncated to whole nanoseconds. |
| RateLimiter.SleepEarnsToken | infrastructure/external/rate_limiter.go:36-62 | Sleeping the computed wait plus the 100 ms buffer always refills at least one token. |
| RateLimiter.WaitForToken | infrastructure/external/rate_limiter.go:31-63 | With ≥ 1 token after the refill, it takes one and returns 0. A wait beyond `maxWait` fails with 0 and takes nothing. Otherwise it sleeps wait + 100 ms and takes the token, and the returned total is that sleep. Tokens stay in [0, capacity]. |
| RateLimiter.WaitForTokenLoop | infrastructure/external/rate_limiter.go:31-63 | The recursion rewritten as a loop over the caller's clock computes exactly `WaitForToken`. |
| RateLimiter.Calls | infrastructure/external/rate_limiter.go:31-46 | Across any sequence of calls the limiter stays valid, so tokens stay in [0, capacity]. |
| RateLimiter.TokensGrantImmediately | infrastructure/external/rate_limiter.go:39-46 | A bucket holding at least n tokens grants the next n calls with zero wait and no error. |
| RateLimiter.FreshLimiterBurst | infrastructure/external/rate_limiter.go:18-46 | A new limiter grants its first `requestsPerMinute` calls with zero wait. |
| RateLimiter.WaitForTokenAsWritten | infrastructure/external/rate_limiter.go:32-62 | With the lock already held, the call blocks forever. A call that returns agrees with `WaitForToken` and has waited 0. |
| RateLimiter.AsWrittenDeadlocksExactlyOnWaitPath | infrastructure/external/rate_limiter.go:32-61 | As written, a call deadlocks exactly when it must wait for a token within its budget. |
| RateLimiter.DrainedBucketDeadlocks | infrastructure/external/rate_limiter.go:32-62 | At 60 per minute with an empty bucket and a 2 s budget, the source blocks forever. The intended result is a grant after 1.1 s. |
| LegacyClient.ClientTimeout | infrastructure/external/legacy_api_client.go:21-28 | The HTTP timeout is the configured seconds when positive, and otherwise 30 s. |
| LegacyClient.Report | infrastructure/external/legacy_api_client.go:77-98 | Reporting an outcome keeps the breaker present exactly when it was, and keeps it valid. |
| LegacyClient.RecordLaborCost | infrastructure/external/legacy_api_client.go:44-101 | Without a breaker no breaker method is called. A refusal calls only `CanExecute` and sends nothing. An admitted call whose marshal fails returns the marshal error, and one whose request cannot be built returns the request error. Either way the breaker keeps the gate's transition, only `CanExecute` was called, and nothing is reported. A transport error or a status other than 200/201 records exactly one failure, stamped with the clock reading taken after the exchange returned. 200/201 records exactly one success and returns nil. The request is sent exactly when the breaker admits it and the request builds. |
| LegacyClient.TimeoutCountsFromFailedExchange | infrastructure/external/legacy_api_client.go:77-82 | When the failure that opens the breaker comes from a slow exchange, the reset timeout counts from the exchange's end, not from the gate: every call until that end plus the timeout is refused. |
| LegacyClient.AtMostOneReport | infrastructure/external/legacy_api_client.go:77-98 | A call reports one outcome to the breaker exactly when the request was sent, and never two. |
| LaborCost.DefaultRetryConfig | application/handlers/labor_cost_handler.go:25-34 | The defaults are 5 attempts, 1 s initial backoff, 30 s cap and ×2. |
| LaborCost.NextBackoff | application/handlers/labor_cost_handler.go:62-65 | The next backoff is the product with the multiplier, truncated to whole nanoseconds, when that is within the maximum, and the maximum otherwise. |
| LaborCost.BackoffAt | application/handlers/labor_cost_handler.go:45-65 | The first sleep is the initial backoff uncapped. Every later one is at most the cap. |
| LaborCost.ScheduleAt | application/handlers/labor_cost_handler.go:45-65 | Sleep i of the first n sleeps is `BackoffAt(i)`: the schedule is the backoff sequence, one entry per failed attempt. |
| LaborCost.Attempts | application/handlers/labor_cost_handler.go:47-48 | There is one client run per attempt, the first on the handler's breaker, and every breaker left behind stays well formed. |
| LaborCost.AttemptsChain | application/handlers/labor_cost_handler.go:47-48 | Attempt i's client call runs on the breaker attempt i − 1 left behind. |
| LaborCost.HandleCheckedOut | application/handlers/labor_cost_handler.go:37-69 | An undecodable payload fails with no calls. With `maxAttempts` ≤ 0 there are no calls and the result is max-retries-exceeded. There are at most `maxAttempts` calls. Sleeps number calls − 1 and follow the schedule. The first success returns nil after exactly that many calls. If all fail, there are `maxAttempts` calls and the error carries the count and the last error. |
| LaborCost.DefaultScheduleDoubles | application/handlers/labor_cost_handler.go:29-65 | The defaults sleep 1, 2, 4 and 8 s. |
| LaborCost.ScheduleIsCappedGeometric | application/handlers/labor_cost_handler.go:45-65 | With a whole multiplier m ≥ 1 and initial ≤ cap, sleep i is min(initial·mⁱ, cap). |
| LaborCost.ScheduleNondecreasing | application/handlers/labor_cost_handler.go:45-65 | Under the same conditions the sleeps never shrink. |
| LaborCost.OpenBreakerFailsEveryAttempt | application/handlers/labor_cost_handler.go:47-56 | A breaker that stays Open refuses every attempt without sending, and each refusal counts as a failed attempt. |
| Persistence.Upsert | infrastructure/persistence/postgres_repository.go:62-70 | A new id is inserted. An existing id changes only check-out time, status, hours and `updated_at`, and keeps employee and check-in time. Ids stay unique. |
| Persistence.Save | infrastructure/persistence/postgres_repository.go:26-50 | It fails exactly when the statement fails. On success the upsert leaves `updated_at` alone and the outbox is untouched. |
| Persistence.LatestActive | infrastructure/persistence/postgres_repository.go:117-124 | Finds the employee's CHECKED_IN row with the latest check-in time. It finds none exactly when no such row exists. |
| Persistence.FindActiveByEmployeeID | infrastructure/persistence/postgres_repository.go:117-145 | A failed query is an error. No active row is `None`, not an error. Otherwise the result is a stored CHECKED_IN record of that employee with the latest check-in time. |
| Persistence.FindByID | infrastructure/persistence/postgres_repository.go:147-173 | A failed query is an error. A missing id is `RecordNotFound`, and a stored id is found. A found record has that id and is stored. |
| Persistence.NewOutboxRow | infrastructure/persistence/postgres_repository.go:91-103 | The row carries the event's type tag, the record id, the serialised event and `now`. It starts unpublished with retry count 0 and no error. |
| Persistence.InsertOutbox | infrastructure/persistence/postgres_repository.go:91-103 | Inserting one row keeps the outbox sorted by creation time with unique ids. Every other row stays in place. |
| Persistence.SpliceSorted | infrastructure/persistence/postgres_repository.go:91-103 | A row placed after every row created no later than it, and before every row created later, keeps the table in creation order. |
| Persistence.SpliceUnique | infrastructure/persistence/postgres_repository.go:91-103 | Adding a row whose id is not yet in the table keeps the primary key unique. |
| Persistence.SaveWithEvent | infrastructure/persistence/postgres_repository.go:53-115 | Any failing step (begin, upsert, marshal, insert or duplicate id, commit) is an error. Success upserts the record and inserts exactly one new outbox row for the event. |
| Persistence.SaveWithEventAtomic | infrastructure/persistence/postgres_repository.go:53-115 | Both changes persist or neither does. The table changes exactly when no step fails and the outbox id is new. |
| Persistence.EligibleRows | infrastructure/persistence/postgres_repository.go:188 | A row is selected exactly when it is unpublished and of type EmployeeCheckedOut. |
| Persistence.EligibleRowsSorted | infrastructure/persistence/postgres_repository.go:188-189 | The selected rows keep the `created_at` order. |
| Persistence.EligibleRowsUnique | infrastructure/persistence/postgres_repository.go:188 | The selected rows have unique ids. |
| Persistence.GetUnpublishedEvents | infrastructure/persistence/postgres_repository.go:184-219 | A failed query or a negative limit is an error, and so is a scan failure within the selected rows. Otherwise it succeeds: with every row read it returns min(limit, eligible) rows, and a cursor that stops early returns only the rows read so far, still with no error. The rows returned are unpublished EmployeeCheckedOut (never CheckedIn), oldest first, with unique ids. No eligible row left out is older than one returned. |
| Persistence.EligiblePrefix | infrastructure/persistence/postgres_repository.go:185-190 | The first n eligible rows are table rows, eligible, oldest first, with unique ids. Every eligible row left out is no older than the ones taken. |
| Persistence.RowsCollected | infrastructure/persistence/postgres_repository.go:200-216 | The read loop collects every selected row unless the cursor stops early, and then only as many as were read. |
| Persistence.MarkAsPublished | infrastructure/persistence/postgres_repository.go:221-234 | Sets `published` and `published_at` on the matching row only. An unknown id is not an error and changes nothing. |
| Persistence.IncrementRetryCount | infrastructure/persistence/postgres_repository.go:236-249 | Adds 1 to `retry_count` and sets `last_error` on the matching row only. `published` and the other rows are unchanged. |
| OutboxRelay.Effect | cmd/api/main.go:180-197 | A handled row keeps its identity and payload. It becomes published exactly when the publish and the mark both succeed, and then `published_at` is that row's own mark-time clock reading. A publish failure whose update succeeds adds one retry with the error text. |
| OutboxRelay.PublishOne | cmd/api/main.go:180-197 | One event is published with its stored type and payload, then marked, or its failure is recorded. |
| OutboxRelay.PublishBatch | cmd/api/main.go:180-202 | The batch is published in order, one message per row, and processing continues after a failure. Each outbox row ends up as its own batch entry's outcome applied to it. Rows outside the batch and the records table are unchanged. |
| OutboxRelay.BatchFacts | cmd/api/main.go:180-202 | For a batch of eligible rows, the table stays valid and rows only move forward: published never reverts and the retry count never drops. Ineligible rows are untouched. A row becomes published only through its batch entry, with publish and mark both succeeding. |
| OutboxRelay.EvolvingKeepsKeys | cmd/api/main.go:180-197 | Updates that keep every row's id and creation time keep both primary keys and the creation order valid. |
| OutboxRelay.PublishFetched | cmd/api/main.go:176-202 | A fetched batch of eligible rows yields one message per row in batch order, all EmployeeCheckedOut. The table stays valid and only moves forward. Rows outside the eligible set are untouched. A row turns published only through its own entry, whose publish and mark both succeeded. |
| OutboxRelay.RelayTick | cmd/api/main.go:157-203 | A fetch error or an empty batch publishes and updates nothing. The batch is published in order with stored type and payload, and only EmployeeCheckedOut rows are relayed. A row becomes published only after a successful publish and a successful mark. Published rows never revert. |
| OutboxRelay.Relay | cmd/api/main.go:151-204 | The loop stops exactly when cancelled. It relays only EmployeeCheckedOut messages and never touches rows of any other type. |
| OutboxRelay.CancelStopsRelay | cmd/api/main.go:151-155 | After cancellation no further fetch happens, whatever ticks follow. |
| OutboxRelay.UnmarkedRowIsRepublished | cmd/api/main.go:180-197 | A row whose publish succeeded but whose mark failed is published again on the next tick that reads every row and whose limit covers the table (at-least-once delivery). |
| OutboxRelay.UnmarkedRowStaysEligible | cmd/api/main.go:189-194 | A fetched row whose mark failed stays unpublished and eligible after the tick. |
| OutboxRelay.EligibleRowIsFetched | cmd/api/main.go:162-163 | A fetch that reads every row, with a limit covering all eligible rows, returns every eligible row. |
| OutboxRelay.FetchedRowIsRelayed | cmd/api/main.go:178-181 | Every row a successful fetch returns is handed to the broker in that tick. |
| Services.CheckedInEventFor | application/services/checkin_service.go:51-61 | The check-in event is a CheckedIn of version 1 carrying the record's employee, record id and check-in time. |
| Services.CheckedOutEventFor | application/services/checkin_service.go:117-129 | The check-out event is a CheckedOut of version 1 copying the employee, record id, check-in, check-out and hours. |
| Services.CheckIn | application/services/checkin_service.go:35-75 | It is rejected as already checked in, with no save, exactly when the lookup succeeds and finds an active record. A lookup error does not block. On success it saves one CheckedIn event with the new record. Every error leaves the tables unchanged. |
| Services.CheckOut | application/services/checkin_service.go:89-143 | A lookup error or no active record is "no active check-in" with no save. Inside the duplicate window it is a duplicate with no change. Otherwise it checks the record out and saves one CheckedOut event. Every error leaves the tables unchanged. |
| HttpHandlers.Status | presentation/http/handlers.go:45-103 | The two successes are 200. The already-checked-in rejection is 409, the three request rejections are 400, a non-POST is 405, and every other service error is 500. |
| HttpHandlers.HandleCheckIn | presentation/http/handlers.go:44-104 | A non-POST, an undecodable body, an empty id or an invalid id each get an error with no service call. Otherwise check-out is tried first, and its success answers "checked_out" with the hours. Only after it fails does check-in run: already-checked-in gives 409, any other error 500, success "checked_in". |
| HttpHandlers.FirstTapChecksIn | presentation/http/handlers.go:68-103 | An employee with no open record is checked in, and the new record becomes their active one. |
| HttpHandlers.DoubleTapConflicts | presentation/http/handlers.go:69-92 | A second tap inside the duplicate window gets 409 and changes nothing. |
| HttpHandlers.LaterTapChecksOut | presentation/http/handlers.go:68-82 | A tap after the window checks the open record out with its hours and closes the stored row. |
| HttpHandlers.FailedLookupsOpenSecondRecord | application/services/checkin_service.go:37-44 | When both lookups fail, an employee already checked in gets a second open record. |
| Consumer.Plan | infrastructure/messaging/rabbitmq_consumer.go:22-116 | Construction makes eight broker calls, each step once. |
| Consumer.RunPlan | infrastructure/messaging/rabbitmq_consumer.go:22-116 | Calls are made in order up to and including the first failing one, whose error is returned. No later call is made. |
| Consumer.NewRabbitMQConsumer | infrastructure/messaging/rabbitmq_consumer.go:22-123 | It succeeds exactly when no step fails. A failing step aborts with its own error after calling exactly the plan's prefix ending at that step. |
| Consumer.DeadLettersReachDlq | infrastructure/messaging/rabbitmq_consumer.go:33-94 | The main queue's dead-letter exchange and routing key name the direct DLX, and the DLQ is bound there with that key. Both are declared before the main queue. The TTL is DLQTTL. |
| Consumer.TopologyNamesDistinct | infrastructure/messaging/rabbitmq_consumer.go:34-49 | The DLX (queue+"-dlx"), the DLQ (queue+"-dlq") and the queue are three names. Different queues get different DLX and DLQ names. |
| Consumer.Settle | infrastructure/messaging/rabbitmq_consumer.go:153-161 | A handler success is Ack(multiple = false). A handler failure is Nack(multiple = false, requeue = true). |
| Consumer.LoopSettlesInOrder | infrastructure/messaging/rabbitmq_consumer.go:141-163 | Each delivery before the loop stops gets exactly one settlement, in delivery order. The loop stops at the first cancellation or closure, with the matching error. |
| Consumer.Consume | infrastructure/messaging/rabbitmq_consumer.go:125-164 | A failed registration is an error with no settlement. Otherwise deliveries are settled one at a time in order, and cancellation returns the context error while a closed channel returns "channel closed". |
| Consumer.NothingAfterStop | infrastructure/messaging/rabbitmq_consumer.go:141-150 | Nothing that arrives after the loop returns is handled. |
| Consumer.LoopSplits | infrastructure/messaging/rabbitmq_consumer.go:141-163 | The loop keeps no state between messages. Settling a run of deliveries and then the rest equals settling all of them. |

## Left out

- Broker semantics: fanout copying, TTL expiry and dead-letter routing happen inside RabbitMQ. Publishing (`rabbitmq_publisher.go`) is an abstract success/failure input to the relay. `Consumer.DeadLettersReachDlq` states only the declarations that make dead-lettering reach the DLQ.
- Cross-instance row claiming (`FOR UPDATE SKIP LOCKED`) is concurrency. The query also runs outside a transaction. The model's relay is a single instance.
- Lock discipline: each breaker call is one atomic step, and the RLock-to-Lock upgrade race in `CanExecute` is not modelled. The limiter's self-deadlock is modelled separately, under Findings.
- The rate limiter is never constructed by the service's `main`. It is modelled on its own.
- RateLimiter.WaitForToken: the retry's reduced budget `maxWait − wait` is passed along but never decides anything. After the exact sleep a single caller always finds a token (`RateLimiter.SleepEarnsToken`). Another caller draining the bucket during the sleep is concurrency and is not modelled.
- RateLimiter.NewRateLimiter: `requestsPerMinute` ≤ 0 gives a zero or negative refill rate and a float division by zero on the wait path. `Valid` requires at least one request per minute.
- A sleep advances the caller's clock by exactly its duration. Oversleeping is not modelled.
- Entities.HoursBetween: hours are exact reals. Not modelled: float64 rounding, and the `DECIMAL(10,2)` rounding of `hours_worked` in the table.
- Durations are unbounded integers. Not modelled: `int64` overflow of a backoff scaled by a huge multiplier, and overflow of `time.Duration(dupWindow)*time.Second`.
- CircuitBreaker.CanExecute: the `default` branch for an unknown state cannot occur with a three-valued state type.
- CircuitBreaker.GetState, Events.OccurredAt and Events.Version are plain field reads. Their behaviour is stated by `Events.AccessorsReadHeader`, and `GetState` has no row.
- LegacyClient.ClientTimeout: the probe for a `TimeoutSec()` method on the breaker is left out. `CircuitBreaker` has no such method, so the probe never matches. The request body and its `RecordedAt` formatting are left out too.
- JSON encoding and decoding are abstract. A payload is the event it encodes (`Events.Payload`), and decoding a request body is `HttpHandlers.Body`.
- HttpHandlers.HandleCheckIn: a rejection carries the error value, not the text `http.Error` writes. In particular a 500 reply carries the service error, not `err.Error()` of the wrapped driver error.
- The go-playground validator is modelled only as 3–50 ASCII alphanumeric characters.
- `HealthCheck` is left out.
- Services.CheckIn and Services.CheckOut read the clock once per call, where the source reads `time.Now()` separately for the record, the event and the outbox row. Their `publisher` field is never invoked, so it is not modelled.
- UUIDs and clock readings are parameters. Nothing forces a generated id to be fresh: a reused outbox id fails the insert, and a reused record id updates the existing row.
- The email path (`email_handler.go`, `email_client.go`) is left out. So are configuration loading, logging and tracing. Defaults appear as constants: duplicate window 60 s, fetch limit 100, DLQ TTL 30000 ms, prefetch 1, 5 failures, 60 s reset.
- Process wiring in `cmd/api/main.go` is left out: HTTP server lifecycle, signal handling, goroutines, the shutdown sleep, table creation, and the poll interval. Each `Tick` is one ticker tick. `Consumer.Close` is not modelled.
- Go's `select` picks at random among ready cases. Each trace of `Consumer.Event` and `OutboxRelay.Wake` fixes one order.

## Findings

| source | as written | input that shows it | evidently intended | confidence | as-written member | corrected member |
|---|---|---|---|---|---|---|
| infrastructure/external/rate_limiter.go:32-61 | `WaitForToken` locks `rl.mu`, defers the unlock, and on the wait path calls itself, which locks the same non-reentrant `sync.Mutex` again. | A limiter at 60 requests per minute with an empty bucket and `maxWait` = 2 s. The call blocks forever (`RateLimiter.DrainedBucketDeadlocks`). More generally, every call that must wait within its budget deadlocks (`RateLimiter.AsWrittenDeadlocksExactlyOnWaitPath`). | Sleep 1 s + 100 ms, then take the token and return 1.1 s with no error. | high; not executed | RateLimiter.WaitForTokenAsWritten | RateLimiter.WaitForToken |
