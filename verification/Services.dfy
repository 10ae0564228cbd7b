/** The two services, statement by statement, proved against the atomic operations. */
module Services {
  import opened Domain
  import opened Atomic
  import opened AtomicLaws
  import History
  import opened Persistence

  /** The id of the row an inserting call returns. */
  function NewIdOf(reply: Result): nat {
    match reply
    case Ok(CarRow(c, _)) => c
    case Ok(RentalRow(r, _)) => r
    case _ => 0
  }

  /**
    What a caller sees: either the whole atomic operation with its reply and its one event, or a
    failure that leaves tables and publisher untouched. No constraint of the schema ever fires.
    */
  ghost predicate AllOrNothing(op: Op, before: Db, after: Db, reply: Result, calls: seq<Event>, calls': seq<Event>) {
    if reply.Failed? then
      after == before && calls' == calls && reply == Failed(Fault)
    else
      var e := Exec(op, before, NewIdOf(reply));
      && FreshFor(op, before, NewIdOf(reply))
      && e.db == after && e.result == reply && calls' == calls + Announcing(e.event)
  }

  lemma NothingHappened(op: Op, db: Db, reply: Result, calls: seq<Event>)
    requires reply == Failed(Fault) || (reply.Rejected? && Exec(op, db, 0) == Reject(db, reply.error) && !op.AddCar?)
    ensures AllOrNothing(op, db, db, reply, calls, calls)
  {
  }

  lemma Happened(op: Op, before: Db, after: Db, reply: Result, e: Event, calls: seq<Event>)
    requires reply.Ok? && FreshFor(op, before, NewIdOf(reply))
    requires Exec(op, before, NewIdOf(reply)) == Effect(after, reply, Some(e))
    ensures AllOrNothing(op, before, after, reply, calls, calls + [e])
  {
  }

  /**
    One more request extends a sequential history by at most one entry, and the publisher's calls
    by exactly that entry's event.
    */
  lemma RequestExtendsHistory(init: Db, log: seq<Entry>, op: Op, after: Db, reply: Result,
                              calls: seq<Event>, calls': seq<Event>) returns (log': seq<Entry>)
    requires ValidLog(init, log) && History.EventsOf(log) == calls && WellFormed(op)
    requires AllOrNothing(op, Replay(init, log), after, reply, calls, calls')
    ensures ValidLog(init, log') && Replay(init, log') == after && History.EventsOf(log') == calls'
    ensures Schema(Replay(init, log)) ==> Schema(after)
    ensures Lifecycle(Replay(init, log)) ==> Lifecycle(after)
    ensures if reply.Failed? then log' == log
            else |log'| == |log| + 1 && log'[..|log|] == log && log'[|log|].op == op && log'[|log|].result == reply
  {
    if reply.Failed? {
      log' := log;
    } else {
      var before, newId := Replay(init, log), NewIdOf(reply);
      var e := Entry(0, op, newId, reply, Exec(op, before, newId).event);
      log' := log + [e];
      assert log'[..|log'| - 1] == log;
      if Schema(before) { ExecKeepsSchema(op, before, newId); }
      if Lifecycle(before) { ExecKeepsLifecycle(op, before, newId); }
    }
  }

  /** One request as the service answered it, with the tables and the publisher calls it left. */
  datatype Served = Served(op: Op, reply: Result, db: Db, calls: seq<Event>)

  /** Requests served one after the other, each by the contract of its service method. */
  ghost predicate ServedInTurn(init: Db, requests: seq<Served>) {
    |requests| == 0 ||
    var earlier, last := requests[..|requests| - 1], requests[|requests| - 1];
    && ServedInTurn(init, earlier) && WellFormed(last.op)
    && AllOrNothing(last.op, TablesAfter(init, earlier), last.db, last.reply, CallsAfter(earlier), last.calls)
  }

  function TablesAfter(init: Db, requests: seq<Served>): Db {
    if |requests| == 0 then init else requests[|requests| - 1].db
  }

  function CallsAfter(requests: seq<Served>): seq<Event> {
    if |requests| == 0 then [] else requests[|requests| - 1].calls
  }

  /** The requests that did not fail, with their replies. */
  ghost function Answers(requests: seq<Served>): seq<(Op, Result)> {
    if |requests| == 0 then []
    else
      var last := requests[|requests| - 1];
      Answers(requests[..|requests| - 1]) + (if last.reply.Failed? then [] else [(last.op, last.reply)])
  }

  ghost predicate Records(log: seq<Entry>, answers: seq<(Op, Result)>) {
    |log| == |answers| && forall i :: 0 <= i < |log| ==> (log[i].op, log[i].result) == answers[i]
  }

  lemma RecordsGrow(log: seq<Entry>, log': seq<Entry>, answers: seq<(Op, Result)>, op: Op, reply: Result)
    requires Records(log, answers)
    requires if reply.Failed? then log' == log
             else |log'| == |log| + 1 && log'[..|log|] == log && log'[|log|].op == op && log'[|log|].result == reply
    ensures Records(log', answers + (if reply.Failed? then [] else [(op, reply)]))
  {
    if !reply.Failed? {
      forall i | 0 <= i < |log| ensures log'[i] == log[i] { assert log'[i] == log'[..|log|][i]; }
    }
  }

  /**
    Any number of requests served in turn are a sequential history of exactly the requests that did
    not fail, with their replies; the publisher has been called with its events, in order.
    */
  lemma {:induction false} RequestsAreHistory(init: Db, requests: seq<Served>) returns (log: seq<Entry>)
    requires ServedInTurn(init, requests)
    ensures ValidLog(init, log) && Records(log, Answers(requests))
    ensures Replay(init, log) == TablesAfter(init, requests) && History.EventsOf(log) == CallsAfter(requests)
    ensures Schema(init) ==> Schema(TablesAfter(init, requests))
    ensures Lifecycle(init) ==> Lifecycle(TablesAfter(init, requests))
  {
    if |requests| == 0 {
      log := [];
    } else {
      var earlier, last := requests[..|requests| - 1], requests[|requests| - 1];
      var before := RequestsAreHistory(init, earlier);
      log := RequestExtendsHistory(init, before, last.op, last.db, last.reply, CallsAfter(earlier), last.calls);
      RecordsGrow(before, log, Answers(earlier), last.op, last.reply);
    }
  }

  // ----- partial updates -----------------------------------------------------------------

  predicate Sent(patch: CarPatch, f: Field) {
    match f
    case ModelField => patch.model.Some?
    case StatusField => patch.status.Some?
    case YearField => patch.year.Some?
  }

  /** The fields a client sent, in the order the request body declares them. */
  function Requested(patch: CarPatch): (s: seq<Field>)
    ensures forall f :: f in s <==> Sent(patch, f)
  {
    var model := if patch.model.Some? then [ModelField] else [];
    var year := if patch.year.Some? then [YearField] else [];
    var status := if patch.status.Some? then [StatusField] else [];
    assert forall f :: f in model + year + status <==> f in model || f in year || f in status;
    model + year + status
  }

  function Assign(car: Car, patch: CarPatch, f: Field): Car
    requires Sent(patch, f)
  {
    match f
    case ModelField => car.(model := patch.model.value)
    case StatusField => car.(status := patch.status.value)
    case YearField => car.(year := patch.year.value)
  }

  predicate AllSent(patch: CarPatch, fields: seq<Field>) {
    forall f :: f in fields ==> Sent(patch, f)
  }

  /** The car after the fields in `done` have been assigned. */
  function Partly(car: Car, patch: CarPatch, done: seq<Field>): Car
    requires AllSent(patch, done)
  {
    assert ModelField in done ==> Sent(patch, ModelField);
    assert StatusField in done ==> Sent(patch, StatusField);
    assert YearField in done ==> Sent(patch, YearField);
    car.(model := if ModelField in done then patch.model.value else car.model,
         status := if StatusField in done then patch.status.value else car.status,
         year := if YearField in done then patch.year.value else car.year)
  }

  lemma PartlyGrows(car: Car, patch: CarPatch, done: seq<Field>, f: Field)
    requires AllSent(patch, done) && Sent(patch, f)
    ensures AllSent(patch, done + [f])
    ensures Partly(car, patch, done + [f]) == Assign(Partly(car, patch, done), patch, f)
  {
  }

  lemma PartlyEndsOverlaid(car: Car, patch: CarPatch, done: seq<Field>)
    requires forall f :: f in done <==> Differs(car, patch, f)
    ensures AllSent(patch, done)
    ensures Partly(car, patch, done) == Overlaid(car, patch)
  {
  }

  lemma ActualFields(car: Car, patch: CarPatch, actual: seq<Field>)
    requires forall f :: f in actual <==> Differs(car, patch, f)
    ensures (set f | f in actual) == Actual(car, patch)
    ensures actual == [] <==> Actual(car, patch) == {}
    ensures StatusField in actual <==> StatusField in Actual(car, patch)
  {
    if actual != [] { assert actual[0] in Actual(car, patch); }
  }

  // ----- rows a transaction has written ------------------------------------------------------

  lemma CarWritten(db: Db, c: nat, car: Car)
    ensures Overlay(db, PutCar(EMPTY, c, car)) == PutCar(db, c, car)
    ensures Overlay(EMPTY, PutCar(EMPTY, c, car)) == PutCar(EMPTY, c, car)
  {
  }

  /** The rows a registration writes. */
  function RegistrationRows(db: Db, dto: RentalCreate, r: nat): Db
    requires dto.carId in db.cars
  {
    Overlay(PutRental(EMPTY, r, NewRental(dto)), PutCar(EMPTY, dto.carId, db.cars[dto.carId].(status := InUse)))
  }

  lemma RegistrationFlushes(db: Db, dto: RentalCreate, r: nat)
    requires Schema(db) && dto.startDate <= dto.endDate && r !in db.rentals
    requires dto.carId in db.cars && !HasActive(db, dto.carId)
    ensures Schema(Overlay(db, RegistrationRows(db, dto, r)))
  {
  }

  lemma RegistrationIsExec(db: Db, dto: RentalCreate, today: int, r: nat)
    requires dto.startDate == today && r !in db.rentals
    requires IsLive(db, dto.carId) && db.cars[dto.carId].status.Available? && !HasActive(db, dto.carId)
    ensures FreshFor(RegisterRental(dto, today), db, r)
    ensures Exec(RegisterRental(dto, today), db, r)
            == Effect(Overlay(db, RegistrationRows(db, dto, r)), Ok(RentalRow(r, NewRental(dto))),
                      Some(RentalStarted(r, dto.carId)))
  {
  }

  lemma ReturnFlushes(db: Db, r: nat, today: int)
    requires Schema(db) && r in db.rentals && db.rentals[r].startDate <= today
    ensures var rows := ReturnRows(db, r, today);
            Overlay(EMPTY, rows) == rows && Schema(Overlay(db, rows))
  {
  }

  lemma ReturnIsExec(db: Db, r: nat, today: int)
    requires r in db.rentals && IsLive(db, db.rentals[r].carId)
    requires db.rentals[r].IsActive() && db.rentals[r].startDate <= today
    ensures var rental := db.rentals[r].(returned := Some(today));
            Exec(EndRental(r, today), db, r)
            == Effect(Overlay(db, ReturnRows(db, r, today)), Ok(RentalRow(r, rental)),
                      Some(RentalEnded(r, rental.carId)))
  {
  }

  class CarService {
    const session: Session
    const uow: UnitOfWork
    const cars: CarRepository
    const rentals: RentalRepository
    const publisher: EventPublisher

    ghost predicate Ready()
      reads this, session
    {
      && uow.session == session && cars.session == session && rentals.session == session
      && session.Fresh() && Schema(session.db)
    }

    constructor (session: Session, publisher: EventPublisher)
      requires session.Fresh() && Schema(session.db)
      ensures Ready() && this.session == session && this.publisher == publisher
    {
      var u := new UnitOfWork(session);
      var c := new CarRepository(session);
      var r := new RentalRepository(session);
      this.session, this.publisher := session, publisher;
      uow, cars, rentals := u, c, r;
    }

    /** Leaves the transaction by an exception. A rollback that raises replaces it. */
    method Abort(why: Result) returns (reply: Result)
      requires uow.session == session && session.Valid()
      modifies session`writes, session`dirty, session`rows, session`locks, session.faults
      ensures session.Fresh() && session.faults.count >= old(session.faults.count)
      ensures reply == if session.faults.count > old(session.faults.count) then Failed(Fault) else why
    {
      var rolled := uow.Rollback();
      reply := if rolled.Raised? then Failed(rolled.failure) else why;
    }

    method AddCar(model: string, year: int) returns (reply: Result)
      requires Ready()
      modifies session, session.faults, publisher
      ensures session.Idle()
      ensures AllOrNothing(Op.AddCar(model, year), old(session.db), session.db, reply,
                           old(publisher.calls), publisher.calls)
      ensures reply.Failed? <==> session.faults.count > old(session.faults.count)
    {
      ghost var before := session.db;
      OverlayEmpty(before);
      var added := cars.Add(NewCar(model, year));
      if added.Raised? {
        if added.failure.Integrity? {
          ghost var c :| c !in before.cars && !Schema(PutCar(before, c, NewCar(model, year)));
          ExecKeepsSchema(Op.AddCar(model, year), before, c);
        }
        reply := Abort(Failed(added.failure));
        return;
      }
      var c := added.value;
      CarWritten(before, c, NewCar(model, year));
      var committed := uow.Commit();
      if committed.Raised? {
        reply := Abort(Failed(committed.failure));
        return;
      }
      var raised := publisher.Publish(CarAdded(c));
      reply := Ok(CarRow(c, session.rows.cars[c]));
    }

    /** `actual`: the requested fields whose value differs from the car's. */
    method Diff(car: Car, patch: CarPatch) returns (actual: seq<Field>)
      ensures forall f :: f in actual <==> Differs(car, patch, f)
    {
      var requested := Requested(patch);
      actual := [];
      for i := 0 to |requested|
        invariant forall f :: f in actual <==> f in requested[..i] && Differs(car, patch, f)
      {
        if Differs(car, patch, requested[i]) {
          actual := actual + [requested[i]];
        }
      }
      assert requested[..|requested|] == requested;
    }

    /** Assigns the differing fields one by one and flushes the car. */
    method SetFields(c: nat, patch: CarPatch, actual: seq<Field>) returns (o: Outcome<()>)
      requires cars.session == session && session.Valid() && session.dirty == EMPTY && session.writes == EMPTY
      requires c in session.rows.cars && c in session.db.cars && actual != []
      requires forall f :: f in actual <==> Differs(session.rows.cars[c], patch, f)
      requires Schema(PutCar(session.db, c, Overlaid(session.rows.cars[c], patch)))
      modifies session`rows, session`dirty, session`writes, session.faults
      ensures session.Valid()
      ensures o.Returned? ==>
                var car := Overlaid(old(session.rows).cars[c], patch);
                && session.dirty == EMPTY && session.writes == PutCar(EMPTY, c, car)
                && session.rows == PutCar(old(session.rows), c, car)
      ensures o.Raised? ==> o.failure.Fault?
      ensures session.faults.count == old(session.faults.count) + Blame(o)
    {
      ghost var rows := session.rows;
      var car := session.rows.cars[c];
      OverlayEmpty(session.db);
      PartlyEndsOverlaid(car, patch, actual);
      for i := 0 to |actual|
        invariant session.Valid() && session.writes == EMPTY && AllSent(patch, actual[..i]) && c in session.rows.cars
        invariant session.faults.count == old(session.faults.count)
        invariant session.rows == PutCar(rows, c, Partly(car, patch, actual[..i])) || (i == 0 && session.rows == rows)
        invariant session.rows.cars[c] == Partly(car, patch, actual[..i])
        invariant session.dirty == if i == 0 then EMPTY else PutCar(EMPTY, c, session.rows.cars[c])
      {
        assert actual[i] in actual;
        PartlyGrows(car, patch, actual[..i], actual[i]);
        assert actual[..i + 1] == actual[..i] + [actual[i]];
        session.AssignCar(c, Assign(session.rows.cars[c], patch, actual[i]));
      }
      assert actual[..|actual|] == actual;
      CarWritten(session.db, c, Overlaid(car, patch));
      o := cars.Update();
    }

    /** Sets the differing fields, if any, and commits. An update that changes nothing commits nothing. */
    method WriteFields(c: nat, patch: CarPatch, actual: seq<Field>) returns (o: Outcome<()>)
      requires cars.session == session && uow.session == session
      requires session.Valid() && session.dirty == EMPTY && session.writes == EMPTY
      requires c in session.db.cars && c in session.rows.cars && session.rows.cars[c] == session.db.cars[c]
      requires forall f :: f in actual <==> Differs(session.db.cars[c], patch, f)
      requires actual != [] ==> Schema(PutCar(session.db, c, Overlaid(session.db.cars[c], patch)))
      modifies session, session.faults
      ensures session.Valid()
      ensures o.Returned? ==>
                var car := Overlaid(old(session.db).cars[c], patch);
                && session.Idle() && c in session.rows.cars && session.rows.cars[c] == car
                && session.db == (if actual == [] then old(session.db) else PutCar(old(session.db), c, car))
                && session.db.cars[c] == car
      ensures o.Raised? ==> o.failure.Fault? && session.db == old(session.db)
      ensures session.faults.count == old(session.faults.count) + Blame(o)
    {
      ghost var before, car := session.db, session.db.cars[c];
      OverlayEmpty(before);
      PartlyEndsOverlaid(car, patch, actual);
      if actual != [] {
        o := SetFields(c, patch, actual);
        if o.Raised? { return; }
        CarWritten(before, c, Overlaid(car, patch));
      }
      o := uow.Commit();
    }

    method UpdateCar(c: nat, patch: CarPatch) returns (reply: Result)
      requires Ready()
      modifies session, session.faults, publisher
      ensures session.Idle()
      ensures AllOrNothing(Op.UpdateCar(c, patch), old(session.db), session.db, reply,
                           old(publisher.calls), publisher.calls)
      ensures reply.Failed? <==> session.faults.count > old(session.faults.count)
    {
      ghost var op, before, calls := Op.UpdateCar(c, patch), session.db, publisher.calls;
      OverlayEmpty(before);
      var locked := cars.GetByIdForUpdate(c);
      if locked.Raised? {
        reply := Abort(Failed(locked.failure));
        NothingHappened(op, before, reply, calls);
        return;
      }
      if locked.value.None? {
        reply := Abort(Rejected(CarNotFound));
        NothingHappened(op, before, reply, calls);
        return;
      }
      var car := locked.value.value;
      var actual := Diff(car, patch);
      ActualFields(car, patch, actual);

      if actual != [] {
        if StatusField in actual && patch.status.value !in AllowedTargets(car.status) {
          reply := Abort(Rejected(CarStatusTransition));
          NothingHappened(op, before, reply, calls);
          return;
        }
        ExecKeepsSchema(op, before, 0);
      }
      var written := WriteFields(c, patch, actual);
      if written.Raised? {
        reply := Abort(Failed(written.failure));
        NothingHappened(op, before, reply, calls);
        return;
      }
      reply := Ok(CarRow(c, session.rows.cars[c]));
      if actual != [] {
        var raised := publisher.Publish(CarUpdated(c, Sorted(set f | f in actual)));
      }
    }

    method ListCars(filter: Option<CarStatus>) returns (reply: Result)
      requires Ready()
      modifies session.faults
      ensures AllOrNothing(Op.ListCars(filter), session.db, session.db, reply, publisher.calls, publisher.calls)
      ensures reply.Failed? <==> session.faults.count > old(session.faults.count)
    {
      OverlayEmpty(session.db);
      var listed := cars.List(filter);
      reply := if listed.Raised? then Failed(listed.failure) else Ok(CarList(listed.value));
    }

    /** The reads and checks of a retirement: `None` when the car may be retired. */
    method CheckRetirable(c: nat) returns (objection: Option<Result>)
      requires cars.session == session && rentals.session == session && session.Fresh()
      modifies session`rows, session`locks, session`dirty, session.faults
      ensures session.Valid() && session.writes == EMPTY && session.dirty == EMPTY
      ensures objection.None? ==>
                && IsLive(session.db, c) && !HasActive(session.db, c)
                && c in session.rows.cars && session.rows.cars[c] == session.db.cars[c]
                && session.locks == [CarLock(c)]
      ensures objection.Some? ==>
                || objection.value == Failed(Fault)
                || (objection.value.Rejected?
                    && Exec(Op.DeleteCar(c), session.db, 0) == Reject(session.db, objection.value.error))
      ensures session.faults.count ==
              old(session.faults.count) + (if objection == Some(Failed(Fault)) then 1 else 0)
    {
      OverlayEmpty(session.db);
      var locked := cars.GetByIdForUpdate(c);
      if locked.Raised? { return Some(Failed(locked.failure)); }
      if locked.value.None? { return Some(Rejected(CarNotFound)); }
      var active := rentals.GetActiveByCar(c);
      if active.Raised? { return Some(Failed(active.failure)); }
      if active.value.Some? { return Some(Rejected(CarHasActiveRental)); }
      return None;
    }

    method DeleteCar(c: nat) returns (reply: Result)
      requires Ready()
      modifies session, session.faults, publisher
      ensures session.Idle()
      ensures AllOrNothing(Op.DeleteCar(c), old(session.db), session.db, reply, old(publisher.calls), publisher.calls)
      ensures reply.Failed? <==> session.faults.count > old(session.faults.count)
    {
      ghost var op, before, calls := Op.DeleteCar(c), session.db, publisher.calls;
      var objection := CheckRetirable(c);
      if objection.Some? {
        reply := Abort(objection.value);
        NothingHappened(op, before, reply, calls);
        return;
      }
      OverlayEmpty(before);
      CarWritten(before, c, before.cars[c].(retired := true));
      ExecKeepsSchema(op, before, 0);
      var retired := cars.SoftDelete(c);
      if retired.Raised? {
        reply := Abort(Failed(retired.failure));
        NothingHappened(op, before, reply, calls);
        return;
      }
      var committed := uow.Commit();
      if committed.Raised? {
        reply := Abort(Failed(committed.failure));
        NothingHappened(op, before, reply, calls);
        return;
      }
      var raised := publisher.Publish(CarDeleted(c));
      reply := Ok(CarRow(c, session.rows.cars[c]));
      Happened(op, before, session.db, reply, CarDeleted(c), calls);
    }
  }

  class RentalService {
    const session: Session
    const uow: UnitOfWork
    const cars: CarRepository
    const rentals: RentalRepository
    const publisher: EventPublisher

    ghost predicate Ready()
      reads this, session
    {
      && uow.session == session && cars.session == session && rentals.session == session
      && session.Fresh() && Schema(session.db)
    }

    constructor (session: Session, publisher: EventPublisher)
      requires session.Fresh() && Schema(session.db)
      ensures Ready() && this.session == session && this.publisher == publisher
    {
      var u := new UnitOfWork(session);
      var c := new CarRepository(session);
      var r := new RentalRepository(session);
      this.session, this.publisher := session, publisher;
      uow, cars, rentals := u, c, r;
    }

    method Abort(why: Result) returns (reply: Result)
      requires uow.session == session && session.Valid()
      modifies session`writes, session`dirty, session`rows, session`locks, session.faults
      ensures session.Fresh() && session.faults.count >= old(session.faults.count)
      ensures reply == if session.faults.count > old(session.faults.count) then Failed(Fault) else why
    {
      var rolled := uow.Rollback();
      reply := if rolled.Raised? then Failed(rolled.failure) else why;
    }

    /** The checks under the car lock, in their order: `None` when the car may be rented. */
    method CheckRentable(dto: RentalCreate, today: int) returns (objection: Option<Result>)
      requires cars.session == session && rentals.session == session
      requires session.Fresh() && dto.startDate == today
      modifies session`rows, session`locks, session`dirty, session.faults
      ensures session.Valid() && session.writes == EMPTY && session.dirty == EMPTY
      ensures var c := dto.carId;
              objection.None? ==>
                && IsLive(session.db, c) && session.db.cars[c].status.Available? && !HasActive(session.db, c)
                && c in session.rows.cars && session.rows.cars[c] == session.db.cars[c]
                && session.locks == [CarLock(c)]
      ensures objection.Some? ==>
                || objection.value == Failed(Fault)
                || (objection.value.Rejected?
                    && Exec(Op.RegisterRental(dto, today), session.db, 0) == Reject(session.db, objection.value.error))
      ensures session.faults.count ==
              old(session.faults.count) + (if objection == Some(Failed(Fault)) then 1 else 0)
    {
      OverlayEmpty(session.db);
      var c := dto.carId;
      var locked := cars.GetByIdForUpdate(c);
      if locked.Raised? { return Some(Failed(locked.failure)); }
      if locked.value.None? { return Some(Rejected(CarNotFound)); }
      if !locked.value.value.status.Available? { return Some(Rejected(CarNotAvailable)); }
      var active := rentals.GetActiveByCar(c);
      if active.Raised? { return Some(Failed(active.failure)); }
      if active.value.Some? { return Some(Rejected(CarNotAvailable)); }
      return None;
    }

    /** Inserts the open rental; nothing the database checks can object. */
    method InsertRental(dto: RentalCreate) returns (o: Outcome<nat>)
      requires rentals.session == session && session.Valid() && session.dirty == EMPTY && session.writes == EMPTY
      requires Schema(session.db) && dto.startDate <= dto.endDate
      requires dto.carId in session.db.cars && !HasActive(session.db, dto.carId)
      modifies session`nextRental, session`rows, session`writes, session`dirty, session.faults
      ensures session.Valid()
      ensures o.Returned? ==>
                && o.value !in session.db.rentals && session.dirty == EMPTY
                && session.rows == PutRental(old(session.rows), o.value, NewRental(dto))
                && session.writes == PutRental(EMPTY, o.value, NewRental(dto))
      ensures o.Raised? ==> o.failure.Fault?
      ensures session.faults.count == old(session.faults.count) + Blame(o)
    {
      OverlayEmpty(session.db);
      o := rentals.Add(NewRental(dto));
      if o == Raised(Integrity) {
        ghost var r :| r !in session.db.rentals && !Schema(PutRental(session.db, r, NewRental(dto)));
        RegisterKeepsSchema(session.db, dto, r, session.db.cars[dto.carId]);
      }
    }

    /** Marks the car after the insert. */
    method MarkInUse(dto: RentalCreate, r: nat) returns (o: Outcome<()>)
      requires cars.session == session && session.Valid() && session.dirty == EMPTY
      requires dto.carId in session.db.cars && session.writes == PutRental(EMPTY, r, NewRental(dto))
      requires dto.carId in session.rows.cars && session.rows.cars[dto.carId] == session.db.cars[dto.carId]
      requires Schema(Overlay(session.db, RegistrationRows(session.db, dto, r)))
      modifies session`rows, session`writes, session`dirty, session.faults
      ensures session.Valid() && session.rows.rentals == old(session.rows).rentals
      ensures o.Returned? ==> session.dirty == EMPTY && session.writes == RegistrationRows(session.db, dto, r)
      ensures o.Raised? ==> o.failure.Fault?
      ensures session.faults.count == old(session.faults.count) + Blame(o)
    {
      var c := dto.carId;
      session.AssignCar(c, session.rows.cars[c].(status := InUse));
      o := cars.Update();
    }

    method MarkAndCommit(dto: RentalCreate, r: nat) returns (o: Outcome<()>)
      requires cars.session == session && uow.session == session && session.Valid() && session.dirty == EMPTY
      requires dto.carId in session.db.cars && session.writes == PutRental(EMPTY, r, NewRental(dto))
      requires dto.carId in session.rows.cars && session.rows.cars[dto.carId] == session.db.cars[dto.carId]
      requires Schema(Overlay(session.db, RegistrationRows(session.db, dto, r)))
      modifies session, session.faults
      ensures session.Valid() && session.rows.rentals == old(session.rows).rentals
      ensures o.Returned? ==>
                session.Idle() && session.db == Overlay(old(session.db), RegistrationRows(old(session.db), dto, r))
      ensures o.Raised? ==> o.failure.Fault? && session.db == old(session.db)
      ensures session.faults.count == old(session.faults.count) + Blame(o)
    {
      o := MarkInUse(dto, r);
      if o.Raised? { return; }
      o := uow.Commit();
    }

    /** Inserts the rental, marks the car, and commits: both rows or neither. */
    method WriteRental(dto: RentalCreate) returns (o: Outcome<nat>)
      requires cars.session == session && rentals.session == session && uow.session == session
      requires session.Valid() && session.dirty == EMPTY && session.writes == EMPTY && Schema(session.db)
      requires dto.startDate <= dto.endDate && IsLive(session.db, dto.carId) && !HasActive(session.db, dto.carId)
      requires dto.carId in session.rows.cars && session.rows.cars[dto.carId] == session.db.cars[dto.carId]
      modifies session, session.faults
      ensures session.Valid()
      ensures o.Returned? ==>
                && session.Idle() && o.value !in old(session.db).rentals
                && o.value in session.rows.rentals && session.rows.rentals[o.value] == NewRental(dto)
                && session.db == Overlay(old(session.db), RegistrationRows(old(session.db), dto, o.value))
      ensures o.Raised? ==> o.failure.Fault? && session.db == old(session.db)
      ensures session.faults.count == old(session.faults.count) + Blame(o)
    {
      ghost var before := session.db;
      o := InsertRental(dto);
      if o.Raised? { return; }
      RegistrationFlushes(before, dto, o.value);
      var committed := MarkAndCommit(dto, o.value);
      if committed.Raised? { return Raised(committed.failure); }
    }

    method RegisterRental(dto: RentalCreate, today: int) returns (reply: Result)
      requires Ready() && WellFormed(Op.RegisterRental(dto, today))
      modifies session, session.faults, publisher
      ensures session.Idle()
      ensures AllOrNothing(Op.RegisterRental(dto, today), old(session.db), session.db, reply,
                           old(publisher.calls), publisher.calls)
      ensures dto.startDate != today ==> reply == Rejected(RentalDate)
      ensures reply.Failed? <==> session.faults.count > old(session.faults.count)
    {
      ghost var op, before, calls := Op.RegisterRental(dto, today), session.db, publisher.calls;
      if dto.startDate != today {
        NothingHappened(op, before, Rejected(RentalDate), calls);
        return Rejected(RentalDate);
      }
      var objection := CheckRentable(dto, today);
      if objection.Some? {
        reply := Abort(objection.value);
        NothingHappened(op, before, reply, calls);
        return;
      }
      var written := WriteRental(dto);
      if written.Raised? {
        reply := Abort(Failed(written.failure));
        NothingHappened(op, before, reply, calls);
        return;
      }
      var r := written.value;
      var raised := publisher.Publish(RentalStarted(r, dto.carId));
      reply := Ok(RentalRow(r, session.rows.rentals[r]));
      RegistrationIsExec(before, dto, today, r);
      Happened(op, before, session.db, reply, RentalStarted(r, dto.carId), calls);
    }

    /** The reads and checks of a return, CAR locked before RENTAL: `None` when the rental may be ended. */
    method CheckReturnable(r: nat, today: int) returns (objection: Option<Result>)
      requires cars.session == session && rentals.session == session
      requires session.Fresh() && Schema(session.db)
      modifies session`rows, session`locks, session`dirty, session.faults
      ensures session.Valid() && session.writes == EMPTY && session.dirty == EMPTY
      ensures objection.None? ==>
                && r in session.db.rentals && IsLive(session.db, session.db.rentals[r].carId)
                && session.db.rentals[r].IsActive() && session.db.rentals[r].startDate <= today
                && r in session.rows.rentals && session.rows.rentals[r] == session.db.rentals[r]
                && session.db.rentals[r].carId in session.rows.cars
                && session.rows.cars[session.db.rentals[r].carId] == session.db.cars[session.db.rentals[r].carId]
                && session.locks == [CarLock(session.db.rentals[r].carId), RentalLock(r)]
      ensures objection.Some? ==>
                || objection.value == Failed(Fault)
                || (objection.value.Rejected?
                    && Exec(Op.EndRental(r, today), session.db, 0) == Reject(session.db, objection.value.error))
      ensures session.faults.count ==
              old(session.faults.count) + (if objection == Some(Failed(Fault)) then 1 else 0)
    {
      OverlayEmpty(session.db);
      var candidate := rentals.GetById(r);
      if candidate.Raised? { return Some(Failed(candidate.failure)); }
      if candidate.value.None? { return Some(Rejected(RentalNotFound)); }
      var c := candidate.value.value.carId;
      var locked := cars.GetByIdForUpdate(c);
      if locked.Raised? { return Some(Failed(locked.failure)); }
      if locked.value.None? { return Some(Rejected(CarNotFound)); }
      var found := rentals.GetByIdForUpdate(r);
      if found.Raised? { return Some(Failed(found.failure)); }
      if found.value.None? { return Some(Rejected(RentalNotFound)); }
      var rental := found.value.value;
      if !rental.IsActive() { return Some(Rejected(RentalAlreadyEnded)); }
      if today < rental.startDate { return Some(Rejected(RentalDate)); }
      return None;
    }

    /** Assigns both objects and flushes the rental, which writes both rows. */
    method FlushReturn(r: nat, today: int) returns (o: Outcome<()>)
      requires rentals.session == session && session.Valid() && session.dirty == EMPTY && session.writes == EMPTY
      requires Schema(session.db) && r in session.db.rentals && session.db.rentals[r].startDate <= today
      requires r in session.rows.rentals && session.rows.rentals[r] == session.db.rentals[r]
      requires var c := session.db.rentals[r].carId;
               c in session.rows.cars && session.rows.cars[c] == session.db.cars[c]
      modifies session`rows, session`writes, session`dirty, session.faults
      ensures session.Valid()
      ensures o.Returned? ==>
                && session.dirty == EMPTY && session.writes == ReturnRows(session.db, r, today)
                && session.rows.rentals
                   == old(session.rows).rentals[r := session.db.rentals[r].(returned := Some(today))]
      ensures o.Raised? ==> o.failure.Fault?
      ensures session.faults.count == old(session.faults.count) + Blame(o)
    {
      var c := session.rows.rentals[r].carId;
      var rental := session.rows.rentals[r].(returned := Some(today));
      var car := session.rows.cars[c].(status := Available);
      ReturnFlushes(session.db, r, today);
      session.AssignRental(r, rental);
      session.AssignCar(c, car);
      ghost var due, rows := ReturnRows(session.db, r, today), session.rows;
      assert session.dirty == due && session.dirty.rentals != map[];
      o := rentals.Update();
      assert session.rows == rows;
    }

    /** After the first flush the second one finds nothing to do; then both rows are committed. */
    method WriteReturn(r: nat, today: int) returns (o: Outcome<()>)
      requires cars.session == session && rentals.session == session && uow.session == session
      requires session.Valid() && session.dirty == EMPTY && session.writes == EMPTY && Schema(session.db)
      requires r in session.db.rentals && session.db.rentals[r].startDate <= today
      requires r in session.rows.rentals && session.rows.rentals[r] == session.db.rentals[r]
      requires var c := session.db.rentals[r].carId;
               c in session.rows.cars && session.rows.cars[c] == session.db.cars[c]
      modifies session, session.faults
      ensures session.Valid()
      ensures o.Returned? ==>
                var rental := old(session.db).rentals[r].(returned := Some(today));
                && session.Idle() && r in session.rows.rentals && session.rows.rentals[r] == rental
                && session.db == Overlay(old(session.db), ReturnRows(old(session.db), r, today))
      ensures o.Raised? ==> o.failure.Fault? && session.db == old(session.db)
      ensures session.faults.count == old(session.faults.count) + Blame(o)
    {
      o := FlushReturn(r, today);
      if o.Raised? { return; }
      ghost var rows, view := session.rows, session.View();
      o := cars.Update();
      if o.Raised? { return; }
      assert session.rows == rows && session.View() == view;
      o := uow.Commit();
    }

    method EndRental(r: nat, today: int) returns (reply: Result)
      requires Ready()
      modifies session, session.faults, publisher
      ensures session.Idle()
      ensures AllOrNothing(Op.EndRental(r, today), old(session.db), session.db, reply,
                           old(publisher.calls), publisher.calls)
      ensures reply.Failed? <==> session.faults.count > old(session.faults.count)
    {
      ghost var op, before, calls := Op.EndRental(r, today), session.db, publisher.calls;
      var objection := CheckReturnable(r, today);
      if objection.Some? {
        reply := Abort(objection.value);
        NothingHappened(op, before, reply, calls);
        return;
      }
      var c := session.rows.rentals[r].carId;
      var written := WriteReturn(r, today);
      if written.Raised? {
        reply := Abort(Failed(written.failure));
        NothingHappened(op, before, reply, calls);
        return;
      }
      var raised := publisher.Publish(RentalEnded(r, c));
      reply := Ok(RentalRow(r, session.rows.rentals[r]));
      ReturnIsExec(before, r, today);
      Happened(op, before, session.db, reply, RentalEnded(r, c), calls);
    }
  }
}
