/** What every atomic operation keeps, changes and announces. */
module AtomicLaws {
  import opened Domain
  import opened Atomic

  // ----- invariants ----------------------------------------------------------

  /** The checks in the services keep every schema constraint, whatever the car statuses are. */
  lemma ExecKeepsSchema(op: Op, db: Db, newId: nat)
    requires WellFormed(op) && FreshFor(op, db, newId) && Schema(db)
    ensures Schema(Exec(op, db, newId).db)
  {
  }

  lemma RegisterKeepsSchema(db: Db, dto: RentalCreate, r: nat, car: Car)
    requires Schema(db) && dto.startDate <= dto.endDate && r !in db.rentals
    requires dto.carId in db.cars && !HasActive(db, dto.carId)
    ensures Schema(PutRental(db, r, NewRental(dto)))
    ensures Schema(PutCar(PutRental(db, r, NewRental(dto)), dto.carId, car))
  {
  }

  lemma EndKeepsSchema(db: Db, r: nat, today: int, car: Car)
    requires Schema(db) && r in db.rentals && db.rentals[r].startDate <= today
    ensures Schema(PutCar(PutRental(db, r, db.rentals[r].(returned := Some(today))), db.rentals[r].carId, car))
  {
  }

  /** The lifecycle invariant survives every operation, `DeleteCar` included although it never reads a status. */
  lemma ExecKeepsLifecycle(op: Op, db: Db, newId: nat)
    requires WellFormed(op) && FreshFor(op, db, newId) && Lifecycle(db)
    ensures Lifecycle(Exec(op, db, newId).db)
  {
    ExecKeepsSchema(op, db, newId);
    var db' := Exec(op, db, newId).db;
    forall c | c in db'.cars
      ensures db'.cars[c].status.InUse? <==> HasActive(db', c)
      ensures db'.cars[c].retired ==> !db'.cars[c].status.InUse?
    {
      StatusFollowsRentals(op, db, newId, c);
    }
  }

  lemma StatusFollowsRentals(op: Op, db: Db, newId: nat, c: nat)
    requires WellFormed(op) && FreshFor(op, db, newId) && Lifecycle(db)
    requires c in Exec(op, db, newId).db.cars
    ensures var db' := Exec(op, db, newId).db;
            && (db'.cars[c].status.InUse? <==> HasActive(db', c))
            && (db'.cars[c].retired ==> !db'.cars[c].status.InUse?)
  {
    var db' := Exec(op, db, newId).db;
    match op
    case AddCar(_, _) =>
      assert HasActive(db', c) <==> HasActive(db, c);
      assert c == newId ==> !HasActive(db', c);
    case RegisterRental(dto, today) =>
      if db' != db {
        if c == dto.carId {
          assert newId in db'.rentals && ActiveOn(db'.rentals[newId], c);
        } else {
          assert HasActive(db', c) <==> HasActive(db, c) by {
            forall r | r in db.rentals ensures r in db'.rentals && db'.rentals[r] == db.rentals[r] {}
            assert !ActiveOn(db'.rentals[newId], c);
          }
        }
      }
    case EndRental(r, today) =>
      if db' != db {
        EndFreesOnlyItsCar(db, r, today, c);
      }
    case UpdateCar(_, _) =>
      assert HasActive(db', c) <==> HasActive(db, c);
    case DeleteCar(_) =>
      assert HasActive(db', c) <==> HasActive(db, c);
    case ListCars(_) =>
  }

  lemma EndFreesOnlyItsCar(db: Db, r: nat, today: int, c: nat)
    requires Schema(db) && r in db.rentals && db.rentals[r].IsActive()
    ensures var db' := PutRental(db, r, db.rentals[r].(returned := Some(today)));
            HasActive(db', c) <==> HasActive(db, c) && c != db.rentals[r].carId
  {
    var db' := PutRental(db, r, db.rentals[r].(returned := Some(today)));
    if HasActive(db', c) {
      var q :| q in db'.rentals && ActiveOn(db'.rentals[q], c);
      assert q != r && ActiveOn(db.rentals[q], c);
    }
    if HasActive(db, c) && c != db.rentals[r].carId {
      var q :| q in db.rentals && ActiveOn(db.rentals[q], c);
      assert q in db'.rentals && ActiveOn(db'.rentals[q], c);
    }
  }

  /** In a lifecycle state a car is in use exactly when it has exactly one active rental. */
  lemma InUseMeansExactlyOneActive(db: Db, c: nat)
    requires Lifecycle(db) && c in db.cars
    ensures db.cars[c].status.InUse? <==>
            exists r :: r in db.rentals && ActiveOn(db.rentals[r], c)
                        && forall q :: q in db.rentals && ActiveOn(db.rentals[q], c) ==> q == r
    ensures db.cars[c].retired ==> !HasActive(db, c)
  {
  }

  // ----- history -----------------------------------------------------------------

  /** The only ways a committed car row may change. */
  predicate CarStep(op: Op, db: Db, c: nat, before: Car, after: Car) {
    && (before.retired ==> after == before)
    && (after.retired && !before.retired ==> op == DeleteCar(c) && !HasActive(db, c))
    && (before.status != after.status ==>
          || (op.UpdateCar? && op.carId == c && !before.status.InUse? && !after.status.InUse?)
          || (op.RegisterRental? && op.dto.carId == c && before.status.Available? && after.status.InUse?)
          || (op.EndRental? && op.rentalId in db.rentals && ActiveOn(db.rentals[op.rentalId], c)
              && before.status.InUse? && after.status.Available?))
  }

  /** The only way a committed rental row may change. */
  predicate RentalStep(op: Op, r: nat, before: Rental, after: Rental) {
    before != after ==>
      && op.EndRental? && op.rentalId == r && before.IsActive()
      && after == before.(returned := Some(op.today)) && before.startDate <= op.today
  }

  /** No row disappears, every row change is a legal one, and new rows are the ones the operation inserts. */
  ghost predicate LegalChange(op: Op, db: Db, db': Db) {
    && (forall c :: c in db.cars ==> c in db'.cars && CarStep(op, db, c, db.cars[c], db'.cars[c]))
    && (forall r :: r in db.rentals ==> r in db'.rentals && RentalStep(op, r, db.rentals[r], db'.rentals[r]))
    && (forall c :: c in db'.cars && c !in db.cars ==>
          op.AddCar? && db'.cars[c] == NewCar(op.model, op.year))
    && (forall r :: r in db'.rentals && r !in db.rentals ==>
          op.RegisterRental? && db'.rentals[r] == NewRental(op.dto) && op.dto.startDate == op.today)
  }

  lemma ExecHistory(op: Op, db: Db, newId: nat)
    requires WellFormed(op) && FreshFor(op, db, newId) && Lifecycle(db)
    ensures LegalChange(op, db, Exec(op, db, newId).db)
  {
    var db' := Exec(op, db, newId).db;
    forall c | c in db.cars ensures c in db'.cars && CarStep(op, db, c, db.cars[c], db'.cars[c]) {
      CarHistory(op, db, newId, c);
    }
    forall r | r in db'.rentals
      ensures r in db.rentals ==> RentalStep(op, r, db.rentals[r], db'.rentals[r])
      ensures r !in db.rentals ==>
                op.RegisterRental? && db'.rentals[r] == NewRental(op.dto) && op.dto.startDate == op.today
    {
      RentalHistory(op, db, newId, r);
    }
    forall r | r in db.rentals ensures r in db'.rentals {
      RowsStay(op, db, newId);
    }
  }

  /** No operation removes a row. */
  lemma RowsStay(op: Op, db: Db, newId: nat)
    ensures db.cars.Keys <= Exec(op, db, newId).db.cars.Keys
    ensures db.rentals.Keys <= Exec(op, db, newId).db.rentals.Keys
  {
  }

  lemma CarHistory(op: Op, db: Db, newId: nat, c: nat)
    requires FreshFor(op, db, newId) && Lifecycle(db) && c in db.cars
    ensures var db' := Exec(op, db, newId).db;
            c in db'.cars && CarStep(op, db, c, db.cars[c], db'.cars[c])
  {
  }

  lemma RentalHistory(op: Op, db: Db, newId: nat, r: nat)
    requires FreshFor(op, db, newId) && r in Exec(op, db, newId).db.rentals
    ensures var db' := Exec(op, db, newId).db;
            && (r in db.rentals ==> RentalStep(op, r, db.rentals[r], db'.rentals[r]))
            && (r !in db.rentals ==>
                  && op.RegisterRental? && r == newId
                  && db'.rentals[r] == NewRental(op.dto) && op.dto.startDate == op.today)
  {
  }

  /** A rejected call, and a call without an event, leave the tables alone; an event means a change. */
  lemma EventIffChange(op: Op, db: Db, newId: nat)
    requires FreshFor(op, db, newId)
    ensures var e := Exec(op, db, newId);
            && (e.event.Some? <==> e.db != db)
            && (e.event.Some? ==> e.result.Ok?)
            && !e.result.Failed?
  {
  }

  // ----- single operations -----------------------------------------------------

  /** Each reply of `EndRental`, with the one condition on the tables under which it is given. */
  ghost predicate EndDecidedBy(db: Db, r: nat, today: int, reply: Result)
    requires Schema(db)
  {
    && (reply.Ok? <==> r in db.rentals && db.rentals[r].IsActive() && db.rentals[r].startDate <= today)
    && (reply == Rejected(RentalNotFound) <==> r !in db.rentals)
    && (reply == Rejected(CarNotFound) <==>
          r in db.rentals && !db.rentals[r].IsActive() && db.cars[db.rentals[r].carId].retired)
    && (reply == Rejected(RentalAlreadyEnded) <==>
          r in db.rentals && !db.rentals[r].IsActive() && !db.cars[db.rentals[r].carId].retired)
    && (reply == Rejected(RentalDate) <==>
          r in db.rentals && db.rentals[r].IsActive() && today < db.rentals[r].startDate)
  }

  /**
    With no faults `EndRental` succeeds exactly when the rental exists, is active and has
    started. The missing-car error is not dead code: it is what an already ended rental
    reports once its car has been retired.
    */
  lemma EndOutcome(db: Db, r: nat, today: int, newId: nat)
    requires Lifecycle(db)
    ensures EndDecidedBy(db, r, today, Exec(EndRental(r, today), db, newId).result)
  {
  }

  /** All rows but the named ones are untouched. */
  ghost predicate OnlyRows(db: Db, db': Db, cars: set<nat>, rentals: set<nat>) {
    && db'.cars.Keys == db.cars.Keys + cars && db'.rentals.Keys == db.rentals.Keys + rentals
    && (forall c :: c in db.cars && c !in cars ==> db'.cars[c] == db.cars[c])
    && (forall r :: r in db.rentals && r !in rentals ==> db'.rentals[r] == db.rentals[r])
  }

  /**
    On lifecycle states a registration succeeds exactly when it starts today on a live, available
    car: there the explicit search for an open rental never decides. It opens one rental with the
    requested terms, puts that car in use and touches nothing else.
    */
  lemma RegisterOutcome(db: Db, dto: RentalCreate, today: int, newId: nat)
    requires Lifecycle(db) && newId !in db.rentals
    ensures var e := Exec(RegisterRental(dto, today), db, newId);
            var c := dto.carId;
            && (e.result == Rejected(RentalDate) <==> dto.startDate != today)
            && (e.result == Rejected(CarNotFound) <==>
                  dto.startDate == today && (c !in db.cars || db.cars[c].retired))
            && (e.result == Rejected(CarNotAvailable) <==>
                  dto.startDate == today && c in db.cars && !db.cars[c].retired && !db.cars[c].status.Available?)
            && (e.result.Ok? <==>
                  dto.startDate == today && c in db.cars && !db.cars[c].retired && db.cars[c].status.Available?)
            && (e.result.Ok? ==>
                  && OnlyRows(db, e.db, {c}, {newId})
                  && e.db.rentals[newId] == Rental(c, dto.customer, today, dto.endDate, None)
                  && e.db.cars[c].status.InUse? && e.db.cars[c].(status := Available) == db.cars[c]
                  && e.result.value == RentalRow(newId, e.db.rentals[newId])
                  && e.event == Some(RentalStarted(newId, c)))
  {
  }

  /**
    A successful return closes the rental today, frees its car, touches nothing else, and makes a
    second attempt fail.
    */
  lemma EndEffect(db: Db, r: nat, today: int, newId: nat)
    requires Lifecycle(db) && Exec(EndRental(r, today), db, newId).result.Ok?
    ensures var e := Exec(EndRental(r, today), db, newId);
            var c := db.rentals[r].carId;
            && OnlyRows(db, e.db, {c}, {r})
            && e.db.rentals[r].returned == Some(today) && e.db.rentals[r].(returned := None) == db.rentals[r]
            && db.cars[c].status.InUse? && e.db.cars[c].status.Available?
            && e.db.cars[c].(status := InUse) == db.cars[c]
            && e.result.value == RentalRow(r, e.db.rentals[r]) && e.event == Some(RentalEnded(r, c))
            && Exec(EndRental(r, today), e.db, newId).result == Rejected(RentalAlreadyEnded)
  {
  }

  /** Without reading a status, `DeleteCar` retires exactly the live cars that are not in use. */
  lemma DeleteOutcome(db: Db, c: nat, newId: nat)
    requires Lifecycle(db)
    ensures var e := Exec(DeleteCar(c), db, newId);
            && (e.result == Rejected(CarNotFound) <==> c !in db.cars || db.cars[c].retired)
            && (e.result == Rejected(CarHasActiveRental) <==>
                  c in db.cars && !db.cars[c].retired && db.cars[c].status.InUse?)
            && (e.result.Ok? <==> c in db.cars && !db.cars[c].retired && !db.cars[c].status.InUse?)
            && (e.result.Ok? ==>
                  && OnlyRows(db, e.db, {c}, {})
                  && e.db.cars[c].retired && e.db.cars[c].(retired := false) == db.cars[c]
                  && e.result.value == CarRow(c, e.db.cars[c]) && e.event == Some(CarDeleted(c))
                  && Matching(e.db, None) == Matching(db, None) - {c})
  {
  }

  /** A car just added is the only change, and can at once be rented, or retired again: then the fleet is as before. */
  lemma AddedCarIsUsable(db: Db, model: string, year: int, newId: nat, dto: RentalCreate, r: nat)
    requires Schema(db) && newId !in db.cars && dto.carId == newId
    ensures var e := Exec(AddCar(model, year), db, newId);
            && OnlyRows(db, e.db, {newId}, {}) && Matching(e.db, None) == Matching(db, None) + {newId}
            && e.db.cars[newId] == Car(model, year, Available, false)
            && e.result == Ok(CarRow(newId, e.db.cars[newId])) && e.event == Some(CarAdded(newId))
            && Exec(RegisterRental(dto, dto.startDate), e.db, r).result.Ok?
            && Exec(DeleteCar(newId), e.db, r).result.Ok?
            && Matching(Exec(DeleteCar(newId), e.db, r).db, None) == Matching(db, None)
  {
  }

  function Name(f: Field): string {
    match f
    case ModelField => "model"
    case StatusField => "status"
    case YearField => "year"
  }

  /** Lexicographic order on strings, shorter prefix first. */
  predicate Before(a: string, b: string) {
    if b == "" then false
    else if a == "" then true
    else a[0] < b[0] || (a[0] == b[0] && Before(a[1..], b[1..]))
  }

  /** `Sorted` lists exactly the given fields, in strictly increasing order of their names. */
  lemma SortedByName(fields: set<Field>)
    ensures forall f :: f in Sorted(fields) <==> f in fields
    ensures forall i, j :: 0 <= i < j < |Sorted(fields)| ==> Before(Name(Sorted(fields)[i]), Name(Sorted(fields)[j]))
  {
    var model := if ModelField in fields then [ModelField] else [];
    var status := if StatusField in fields then [StatusField] else [];
    var year := if YearField in fields then [YearField] else [];
    forall f ensures f in Sorted(fields) <==> f in fields {
      assert Sorted(fields) == model + status + year;
      assert f in model <==> f.ModelField? && f in fields;
      assert f in status <==> f.StatusField? && f in fields;
      assert f in year <==> f.YearField? && f in fields;
    }
  }

  /** The two rows differ in this field. */
  predicate Changed(before: Car, after: Car, f: Field) {
    match f
    case ModelField => before.model != after.model
    case StatusField => before.status != after.status
    case YearField => before.year != after.year
  }

  /** Every field holds the value sent for it, or its old value if none was sent. */
  predicate SentOrKept(before: Car, patch: CarPatch, after: Car) {
    && (if patch.model.Some? then after.model == patch.model.value else after.model == before.model)
    && (if patch.year.Some? then after.year == patch.year.value else after.year == before.year)
    && (if patch.status.Some? then after.status == patch.status.value else after.status == before.status)
    && after.retired == before.retired
  }

  /**
    Each reply of a partial update iff its condition. On success the row has the sent values and
    keeps the others, the event names exactly the fields that changed, in alphabetical order, there
    is no event if none did, and repeating the update changes nothing.
    */
  lemma UpdateOutcome(db: Db, c: nat, patch: CarPatch, newId: nat)
    ensures var e := Exec(UpdateCar(c, patch), db, newId);
            && (e.result == Rejected(CarNotFound) <==> !IsLive(db, c))
            && (e.result == Rejected(CarStatusTransition) <==>
                  && IsLive(db, c) && patch.status.Some? && patch.status.value != db.cars[c].status
                  && (db.cars[c].status.InUse? || patch.status.value.InUse?))
            && (e.result.Ok? || e.result == Rejected(CarNotFound) || e.result == Rejected(CarStatusTransition))
            && (!e.result.Ok? ==> e.db == db && e.event == None)
            && (e.result.Ok? ==> UpdateEffect(db, c, patch, e)
                                 && Exec(UpdateCar(c, patch), e.db, newId) == Effect(e.db, e.result, None))
  {
    if IsLive(db, c) && Exec(UpdateCar(c, patch), db, newId).result.Ok? {
      UpdateSucceeds(db, c, patch, newId);
    }
  }

  ghost predicate UpdateEffect(db: Db, c: nat, patch: CarPatch, e: Effect)
    requires IsLive(db, c)
  {
    && OnlyRows(db, e.db, {c}, {}) && SentOrKept(db.cars[c], patch, e.db.cars[c])
    && e.result == Ok(CarRow(c, e.db.cars[c]))
    && (e.event.None? <==> e.db.cars[c] == db.cars[c])
    && (e.event.Some? ==>
          && e.event.value.CarUpdated? && e.event.value.carId == c
          && var changed := e.event.value.changed;
             && (forall f :: f in changed <==> Changed(db.cars[c], e.db.cars[c], f))
             && (forall i, j :: 0 <= i < j < |changed| ==> Before(Name(changed[i]), Name(changed[j]))))
  }

  lemma UpdateSucceeds(db: Db, c: nat, patch: CarPatch, newId: nat)
    requires IsLive(db, c) && Exec(UpdateCar(c, patch), db, newId).result.Ok?
    ensures UpdateEffect(db, c, patch, Exec(UpdateCar(c, patch), db, newId))
    ensures var e := Exec(UpdateCar(c, patch), db, newId);
            Exec(UpdateCar(c, patch), e.db, newId) == Effect(e.db, e.result, None)
  {
    var before := db.cars[c];
    SortedByName(Actual(before, patch));
    assert forall f :: f in Actual(before, patch) <==> Changed(before, Overlaid(before, patch), f);
    assert Actual(Overlaid(before, patch), patch) == {};
    if Actual(before, patch) == {} {
      assert forall f :: f !in Actual(before, patch);
      assert !Differs(before, patch, ModelField) && !Differs(before, patch, YearField);
      assert !Differs(before, patch, StatusField);
    }
  }
}
