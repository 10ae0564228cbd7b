# DriveNow rental lifecycle: a verified model

DriveNow keeps two tables, cars and rentals. Six operations change or read them: add, update,
list and retire a car, register a rental, end a rental. Each is a database transaction of several
statements with row locks taken in the order CAR, then RENTAL; after a commit one event is handed
to a message publisher. The project models these operations at three levels and proves how the
levels relate, and it models the two ends of the event path.

| File | Content |
|---|---|
| `Domain.dfy` | rows, request bodies, results, events; the schema constraints (`Schema`) and the invariant only the services maintain (`Lifecycle`) |
| `Atomic.dfy` | every operation as one step on the committed tables (`Exec`), and sequential histories of such steps |
| `AtomicLaws.dfy` | what each atomic operation keeps, changes, refuses and announces |
| `History.dfy` | whole sequential histories: conservation, event replay, status history, rental periods |
| `Protocol.dfy` | any number of calls interleaved statement by statement, with faults |
| `Invariant.dfy`, `Footprint.dfy`, `Preservation.dfy` | the invariant of interleaved runs and its preservation by every step |
| `Refinement.dfy`, `Guarantees.dfy` | interleaved runs are equivalent to sequential histories, and what follows |
| `Liveness.dfy` | waiting, deadlock, progress, bounded schedules |
| `Completeness.dfy` | undisturbed calls, and the converse of linearizability: every sequential history is a run |
| `Periods.dfy` | exactly when rental periods of one car overlap in interleaved runs |
| `Scenarios.dfy` | two runs worth knowing |
| `Persistence.dfy`, `Services.dfy` | session, repositories, unit of work and the two services as classes, proved against `Exec` |
| `Publisher.dfy` | the RabbitMQ publisher: lazy connection, reset, one retry |
| `Consumer.dfy` | the consumer: envelope validation, reconnect loop and asynchronous shutdown |

`dafny verify dfyconfig.toml` checks the project.

Assumptions of `Protocol.dfy`. Isolation is READ COMMITTED (app/core/db.py:26-30 sets none): a
statement sees the newest committed rows overlaid with the caller's own writes. A blocked
`FOR UPDATE` re-reads the newest committed row once it is granted, so a caller waiting behind a
retirement gets no row, and no lock. A unique index waits for uncommitted changes under the same
key. A commit that raises has not committed; a rollback that raises still ends the transaction,
and its error replaces the one being reported. Inserted ids are never reused, but not handed out
in commit order. `today` is captured before any statement, so it is a parameter of the call.
`Invoke` may happen at any time, so the set of calls is unbounded; `Crash` lets any pending
repository call, commit, rollback or publish raise.

Three observations. The comment at app/services/rental_service.py:116 calls the missing-car branch
of `end_rental` unreachable; the model follows the code, where it is reachable
(`Scenarios.RetiredCarIsReported`), and `AtomicLaws.EndOutcome` says exactly when. Rental periods of
one car can overlap in interleaved runs although every call sees a forward-moving clock
(`Scenarios.RentalsMayOverlap`). They do not overlap if and only if every registration finds no
return of its car later than its own `today` (`Guarantees.PeriodsDisjointIff`), a test that
`register_rental` does not make. It could make it at any moment at which it owns the car lock: no
other call can then change the answer (`Guarantees.ReturnsFrozenUnderLock`), and passing there is
exactly what is needed (`Periods.DisjointIffPassedUnderLock`). An update that changes nothing
returns from inside the transaction block, so it still commits an empty transaction
(app/services/car_service.py:86-87).

## Model

| member | source | states |
|---|---|---|
| `AtomicLaws.ExecKeepsSchema` | app/services/rental_service.py:73-82 | every operation keeps both CHECKs, the foreign key and the one-open-rental index, with no assumption on car statuses |
| `AtomicLaws.ExecKeepsLifecycle` | app/services/car_service.py:111-120 | every operation keeps: a car is in use exactly when it has an open rental, and a retired car is not in use |
| `AtomicLaws.InUseMeansExactlyOneActive` | app/models/rental.py:34-42 | in a lifecycle state a car is in use iff it has exactly one open rental; a retired car has none |
| `AtomicLaws.ExecHistory` | app/services/car_service.py:32-36 | the only status changes are available/maintenance by update, available to in use by register, in use to available by ending that car's own rental; rental rows only gain a return date; no row disappears, new rows are those the operation inserts |
| `AtomicLaws.EventIffChange` | app/services/car_service.py:85-87 | an operation has an event exactly when it changes the tables, and only on success |
| `AtomicLaws.RegisterOutcome` | app/services/rental_service.py:62-105 | each outcome of a registration iff its condition on the tables; on success exactly one rental row with the requested terms is added and exactly that car's status changes |
| `AtomicLaws.EndOutcome` | app/services/rental_service.py:107-128 | each outcome of ending a rental iff its condition; success iff the rental exists, is open and has started |
| `AtomicLaws.EndEffect` | app/services/rental_service.py:129-143 | success closes that rental today, frees its car, touches no other row, and a second attempt is refused |
| `AtomicLaws.DeleteOutcome` | app/services/car_service.py:111-123 | retires exactly the live cars not in use although it never reads the status; the car leaves the list and nothing else changes |
| `AtomicLaws.AddedCarIsUsable` | app/services/car_service.py:69-76 | the row, reply and event of a new car, and nothing else changes; the car can at once be rented, or retired again, which restores the fleet |
| `AtomicLaws.UpdateOutcome` | app/services/car_service.py:78-106 | each reply iff its condition; on success every field holds the sent value or, if none was sent, its old one; the event lists exactly the fields that changed in alphabetical order, none iff none changed; repeating is a no-op; a refusal changes nothing |
| `AtomicLaws.SortedByName` | app/services/car_service.py:103 | the reported field list has exactly the given fields in strictly increasing name order |
| `History.ListIsMatching` | app/repositories/car.py:77-81 | the list is every live car of the wanted status, each once, by increasing id |
| `History.ListOutcome` | app/services/car_service.py:108-109 | a listing changes nothing and replies with exactly the live cars of the wanted status, by increasing id |
| `History.ActiveCountIsOpen` | app/repositories/rental.py:89-96 | on any database the active count is the number of rentals without a return date |
| `History.InUseCountIsActiveCount` | app/repositories/rental.py:89-96 | on a lifecycle state the in-use gauge equals the number of open rentals, by a bijection |
| `History.CountsCoverTheList` | app/repositories/car.py:95-102 | on any database the grouped counts add up to the length of the unfiltered list |
| `History.CountIsMatching` | app/api/metrics.py:27-30 | the gauge of a status is the number of live cars of it; the grouped count has a row iff there is one |
| `History.EventsRebuildTables` | app/services/rental_service.py:102-104 | folding the events of a history rebuilds the live cars and the open (rental, car) pairs |
| `History.LegalHistory` | app/services/car_service.py:89-101 | between neighbouring states of a history every row change is a legal one of the operation between them |
| `History.SettledRowsStay` | app/repositories/car.py:89-93 | over any stretch of history a retired car and an ended rental never change again, and a rental changes only its return date |
| `History.EndedBetween` | app/services/rental_service.py:79-82 | between two registrations of one car the first rental was ended, whatever the clock |
| `History.NonOverlapIffClockOrdered` | app/services/rental_service.py:129 | recorded periods of one car do not overlap iff no registration carries an earlier day than an earlier return of that car; a step towards the sequential result |
| `History.NonOverlapIffReturnsRespected` | app/services/rental_service.py:73-84 | periods of one car do not overlap iff every registration finds, in the tables before its insert, no return of its car later than its own day |
| `History.SequentialRunsDoNotOverlap` | app/services/rental_service.py:65-67 | with a non-decreasing clock, periods of one car in a sequential history do not overlap and only the last may be open |
| `Preservation.RunKeepsInv` | app/services/rental_service.py:69-93 | the interleaving invariant holds after every schedule from any database meeting the schema |
| `Preservation.NextKeepsInv` | app/services/rental_service.py:47-54 | every single step, faults included, keeps the invariant and leaves other calls' state, locks and rows alone |
| `Preservation.FlushedIsExec` | app/repositories/rental.py:84-87 | once flushed, what a call would commit is exactly its atomic operation's tables, with a fresh id |
| `Preservation.CommitIsExec` | app/core/unit_of_work.py:34-35 | the commit installs the atomic operation's tables and reports its result and event |
| `Invariant.StepGivesRely` | app/repositories/car.py:58-75 | a step of one call leaves every row locked by another, and its cars' rentals, unchanged |
| `Refinement.StepRefines` | app/services/rental_service.py:107-132 | every step stutters, fails the call without effect, or is the call's whole atomic operation |
| `Refinement.RunKeepsLog` | app/services/car_service.py:54-61 | in every run the committed tables are the replay of the log of decided calls |
| `Refinement.RentalStillThere` | app/services/rental_service.py:118-120 | the locked re-read of the rental never comes back empty |
| `Guarantees.Linearizable` | app/services/rental_service.py:62-132 | every run from a schema database is a sequential history: one entry per decided call, replies as returned there, failed calls without effect |
| `Guarantees.RealTimeOrder` | app/services/rental_service.py:107-143 | a call that finished before another began precedes it in that history |
| `Guarantees.TakesEffectWhileRunning` | app/services/rental_service.py:47-54 | the place of a finished call in the history lies between any state before its start and any state after its end |
| `Guarantees.CommittedLifecycle` | app/services/car_service.py:111-120 | every committed state of every run from empty tables is a lifecycle state |
| `Guarantees.Conservation` | app/repositories/car.py:95-102 | on one committed snapshot the gauges agree with each other and with the list |
| `Guarantees.BackstopsNeverFire` | app/models/rental.py:28-43 | from any schema database no call fails on a constraint, none waits on the index, and what is ready to commit meets the schema |
| `Guarantees.LockedCopiesAreCurrent` | app/repositories/rental.py:52-65 | a locked row's session copy is the committed row overlaid with own writes; a rental lock implies its car's lock |
| `Guarantees.WritesAreLocked` | app/services/rental_service.py:114-132 | no call overwrites a committed row whose lock it does not own, and it writes rentals only of cars it has locked |
| `Guarantees.LegalStepsOnly` | app/services/car_service.py:32-36 | each step of a run changes committed rows only as its call's operation may; invocations and faults change none |
| `Guarantees.SettledForGood` | app/repositories/car.py:89-93 | from any state of a run to any later one retired cars and ended rentals are unchanged and open rentals can only end |
| `Guarantees.FaultAtomicity` | app/services/rental_service.py:47-54 | a failed call's place in the history, if any, changes no table and announces nothing |
| `Guarantees.FailsExactlyByFault` | app/services/rental_service.py:47-60 | a call fails iff something it calls raises, a rollback included and the publisher excepted |
| `Guarantees.NoPartialOperationVisible` | app/services/rental_service.py:84-93 | before its first flush a call sees only states between whole operations |
| `Guarantees.EndRentalReplies` | app/services/rental_service.py:109-128 | each reply of a finished end call is given exactly under its condition on one committed state met while the call ran |
| `Guarantees.EventAccounting` | app/services/rental_service.py:56-60 | for every event, publisher calls made plus pending ones equal its occurrences among the committed changes |
| `Guarantees.EventsRebuildCommitted` | app/services/rental_service.py:140-142 | in commit order the events of any run rebuild the live cars and open rentals |
| `Guarantees.PeriodsDisjointIff` | app/services/rental_service.py:65-84 | in any run periods of one car are disjoint iff every registration took effect on tables with no return of its car later than its captured day |
| `Guarantees.ReturnsFrozenUnderLock` | app/services/rental_service.py:70-84 | while a call owns a car lock no step of another call takes the lock away or changes whether the car has a return later than a given day |
| `Periods.DisjointIffPassedUnderLock` | app/services/rental_service.py:65-84 | in any run periods of one car are disjoint iff every successful registration, at some moment at which it owned its car lock, found no return of the car later than its captured day |
| `Liveness.OnlyTheFirstLockWaits` | app/services/rental_service.py:114-118 | whoever waits holds no lock, has written nothing, and waits for a car row only |
| `Liveness.WaitsExactlyForALockedCar` | app/repositories/car.py:58-75 | a call waits for another iff its next statement locks a live car row the other has locked |
| `Liveness.RentalUncontended` | app/services/rental_service.py:118 | the rental lock is never contended |
| `Liveness.IndexUncontended` | app/models/rental.py:36-42 | an insert never waits on the index of open rentals |
| `Liveness.NoDeadlock` | app/services/rental_service.py:3-5 | every walk in the wait-for graph of a reachable state has one edge; in particular there is no cycle |
| `Liveness.SomeoneCanStep` | app/services/rental_service.py:47-54 | while a call is unfinished some call can take its next step |
| `Liveness.SchedulesAreBounded` | app/services/car_service.py:54-61 | a schedule starting n calls has at most 9n moves, faults and rejections included |
| `Liveness.QuietMeansUnlocked` | app/core/unit_of_work.py:34-38 | when all calls are finished no lock is held |
| `Liveness.EveryoneCanFinish` | app/services/rental_service.py:47-54 | from every reachable state all calls under way can be brought to their end, with every lock released |
| `Completeness.Solo` | app/services/car_service.py:78-106 | an undecided call left alone runs to its end and executes its atomic operation, under any free id |
| `Completeness.CallUnder` | app/services/rental_service.py:62-105 | between calls any well-formed operation can be run under any free id, and is then its atomic operation |
| `Completeness.HistoryIsRun` | app/services/car_service.py:54-61 | every sequential history from a schema database, with its ids, replies and events, is the history of a run in which all calls are finished |
| `Scenarios.RentalsMayOverlap` | app/services/rental_service.py:65-70 | a run with a forward-moving clock in which two periods of one car overlap |
| `Scenarios.RetiredCarIsReported` | app/services/rental_service.py:115-117 | a run in which ending an ended rental of a retired car reports the missing car |
| `Persistence.Session.Flush` | app/repositories/car.py:83-87 | a flush writes every changed object of the session or nothing, fails on a constraint only if one is violated, and does nothing when nothing changed; every fault is counted |
| `Persistence.CarRepository.Add` | app/repositories/car.py:49-52 | inserts under an unused id, tracked, and flushes it together with every other changed object |
| `Persistence.CarRepository.GetByIdForUpdate` | app/repositories/car.py:58-75 | a row iff the car is live; locked, and the tracked copy refreshed from it, which drops its unflushed assignments |
| `Persistence.CarRepository.SoftDelete` | app/repositories/car.py:89-93 | marks that row as retired and flushes it together with every other changed object |
| `Persistence.RentalRepository.GetById` | app/repositories/rental.py:49-50 | the tracked copy if there is one, else the row, neither locked nor refreshed |
| `Persistence.RentalRepository.GetByIdForUpdate` | app/repositories/rental.py:52-65 | a row iff it exists; locked, and any older tracked copy or unflushed assignment replaced |
| `Persistence.RentalRepository.GetActiveByCar` | app/repositories/rental.py:67-74 | none iff the car has no open rental, else the open rental with the greatest id |
| `Persistence.UnitOfWork.Commit` | app/core/unit_of_work.py:34-35 | flushes what has changed, installs the result and releases the locks, or raises and changes no committed row |
| `Persistence.UnitOfWork.Rollback` | app/core/unit_of_work.py:37-38 | drops writes, tracked objects and locks |
| `Services.CarService.AddCar` | app/services/car_service.py:69-76 | all of the atomic operation with its reply and one event, or a fault that changes nothing; it fails iff a call into the database raised |
| `Services.CarService.Diff` | app/services/car_service.py:85 | exactly the sent fields whose value differs |
| `Services.CarService.SetFields` | app/services/car_service.py:99-101 | assigning the differing fields one by one writes the row overlaid with all sent fields |
| `Services.CarService.UpdateCar` | app/services/car_service.py:78-106 | as for `AddCar` |
| `Services.CarService.ListCars` | app/services/car_service.py:108-109 | the atomic listing; it fails iff the query raised |
| `Services.CarService.CheckRetirable` | app/services/car_service.py:111-119 | passes only on a live car without open rental, its row locked and current; otherwise the atomic operation's refusal, or a fault iff a call raised |
| `Services.CarService.DeleteCar` | app/services/car_service.py:111-123 | as for `AddCar` |
| `Services.RentalService.CheckRentable` | app/services/rental_service.py:70-82 | passes only on a live, available car without open rental, its row locked and current; otherwise the atomic operation's refusal, or a fault iff a call raised |
| `Services.RentalService.RegisterRental` | app/services/rental_service.py:62-105 | both rows, the reply and one event of the atomic operation, or a fault that changes nothing; it fails iff a call into the database raised, and a wrong start date is refused without calling it |
| `Services.RentalService.CheckReturnable` | app/services/rental_service.py:110-127 | passes only on an open, started rental with both rows current and locked, CAR before RENTAL; otherwise the atomic operation's refusal, or a fault iff a call raised |
| `Services.RentalService.EndRental` | app/services/rental_service.py:107-143 | both rows, the reply and one event of the atomic operation, or a fault that changes nothing; it fails iff a call into the database raised |
| `Services.RequestExtendsHistory` | app/services/car_service.py:63-67 | one more request extends the sequential history by at most one entry and the publisher's calls by that entry's event; schema and lifecycle survive it |
| `Services.RequestsAreHistory` | app/services/car_service.py:54-67 | any number of requests served in turn are a sequential history of exactly those that did not fail, with their replies, and the publisher was called with its events in order |
| `Publisher.RabbitMQPublisher.EnsureChannel` | app/messaging/rabbitmq.py:129-140 | success leaves a channel on the held connection, any failure leaves none; an open channel is reused unchanged, otherwise the old connection has been closed |
| `Publisher.RabbitMQPublisher.Reset` | app/messaging/rabbitmq.py:142-148 | forgets connection and channel and has called close on the connection |
| `Publisher.RabbitMQPublisher.Publish` | app/messaging/rabbitmq.py:79-104 | the loop's state and reply equal the two-attempt specification |
| `Publisher.RabbitMQPublisher.Close` | app/messaging/rabbitmq.py:106-110 | drops the connection |
| `Publisher.NoConnectionLeaks` | app/messaging/rabbitmq.py:129-148 | over any calls and failures at most one connection is open and it is the held one; after a close none is |
| `Publisher.PublishAttempts` | app/messaging/rabbitmq.py:87-104 | normal return iff an attempt succeeds; a second attempt iff the first error is retryable; at most two sends, all of the given message; no connection held after a final retryable error; an unserializable payload touches nothing |
| `Publisher.PublishLeaves` | app/messaging/rabbitmq.py:87-140 | after success the channel is kept open on the held connection; a working channel is reused unchanged; exactly which attempts open a connection and hand the message over; what a fatal error leaves |
| `Publisher.OnceEndsAsItsCalls` | app/messaging/rabbitmq.py:114-127 | an attempt ends as the first failing of its client calls, only the send when the channel is reused |
| `Consumer.AcceptsExactlyEnvelopes` | app/messaging/consumer.py:44-58 | validation accepts exactly the objects with the four fields of the required kinds, extra keys allowed |
| `Consumer.EnvelopeRoundTrip` | app/messaging/rabbitmq.py:51-58 | every envelope the publisher builds is accepted unchanged |
| `Consumer.OnMessage` | app/messaging/consumer.py:61-75 | one answer per delivery: acknowledged iff an envelope, else dropped without requeue |
| `Consumer.RunKeepsInv` | app/messaging/consumer.py:78-137 | the loop invariant holds for every sequence of outcomes and signals |
| `Consumer.ShutdownStopsReconnects` | app/messaging/consumer.py:124-137 | after the first signal consuming begins once more iff the signal fell between the loop test and the call, otherwise never; a disabled consumer never connects |
| `Consumer.StopReachesTheActiveChannel` | app/messaging/consumer.py:98-103 | over any run a channel has been asked to stop iff a signal arrived while it was remembered; while consuming it always is, and only that one |
| `Consumer.NothingLeftOpen` | app/messaging/consumer.py:82-95 | outside the consuming function every opened connection has been closed and no channel is remembered; never more than one is open |
| `Consumer.LoopEndsForAReason` | app/messaging/consumer.py:124-137 | the loop stops only after a signal or a normal return of consuming, crashes only on an error it does not retry, and backs off only after a lost connection |
| `Consumer.LostConnectionIsReplaced` | app/messaging/consumer.py:124-137 | without a signal a connection lost anywhere in the consuming function is closed and the function begins again a fixed number of steps later |
| `Consumer.ConnectionIsConsumed` | app/messaging/consumer.py:78-91 | when connecting and the topology calls succeed, the new connection is consumed and its channel remembered |
| `Consumer.ConsumingReturns` | app/messaging/consumer.py:92-95 | a normal return of consuming ends the loop and an error that is not retried ends the program, both with the connection closed |
| `Consumer.BoundedAfterSignal` | app/messaging/consumer.py:98-103 | after the first signal the main thread takes at most 13 further steps |

## Left out

- HTTP routers, dependency wiring, the exception-to-status map and request parsing: their checks (`end_date >= start_date`, no explicit null, positive ids) are preconditions or types.
- `created_at`, `updated_at`, string lengths and the model-year range: no service decides on them; `deleted_at` is a flag.
- `CarRepository.get_by_id` and `RentalRepository.list_active`: no service calls them.
- Logging, metrics middleware, migrations, containers, settings: no rule of the lifecycle depends on them.
- JSON encoding, UUIDs and timestamps: opaque values; a message body is given to the publisher encoded, or as not encodable.
- SQLAlchemy, PostgreSQL and pika themselves: only the locking, visibility, identity-map and channel behaviour stated above. In PostgreSQL a waiter that finds its row retired may keep that row locked until its rollback, which follows at once.
- `Protocol.dfy` and the loop of `Consumer.dfy` are state machines on values, because other calls and the signal handler may run between any two steps; `Persistence.dfy` and `Services.dfy` have the classes with their fields updated in place, for one request at a time.
- `Persistence.Session`: tracked objects are rows of the session, so two Python references to one object are one entry; objects used after the session is closed are not modelled.
- Guarantees.EventsRebuildCommitted: speaks of commit order; concurrent calls publish after releasing their locks, so the order of publisher calls is not promised.
- Guarantees.Conservation: one snapshot; the metrics route runs two queries, which may see two snapshots.
- Consumer.BoundedAfterSignal: bounds the steps of the main thread, not the time a blocked consuming call takes; a signal landing before the channel is remembered does not interrupt it.
- Delivery by the broker: best effort by design, duplicates possible after a retry.
