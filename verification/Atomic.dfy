/**
  The six operations as single steps on the committed tables. The services run
  each of them as several database statements; `Exec` is what a caller is
  promised to observe.
  */
module Atomic {
  import opened Domain

  datatype Effect = Effect(db: Db, result: Result, event: Option<Event>)

  function Reject(db: Db, e: DomainError): Effect {
    Effect(db, Rejected(e), None)
  }

  // ----- partial updates ------------------------------------------------------

  predicate Differs(car: Car, patch: CarPatch, f: Field) {
    match f
    case ModelField => patch.model.Some? && patch.model.value != car.model
    case StatusField => patch.status.Some? && patch.status.value != car.status
    case YearField => patch.year.Some? && patch.year.value != car.year
  }

  function Actual(car: Car, patch: CarPatch): set<Field> {
    set f: Field | Differs(car, patch, f)
  }

  function Overlaid(car: Car, patch: CarPatch): Car {
    car.(model := if patch.model.Some? then patch.model.value else car.model,
         year := if patch.year.Some? then patch.year.value else car.year,
         status := if patch.status.Some? then patch.status.value else car.status)
  }

  function AllowedTargets(st: CarStatus): set<CarStatus> {
    match st
    case Available => {Available, UnderMaintenance}
    case UnderMaintenance => {UnderMaintenance, Available}
    case InUse => {InUse}
  }

  predicate Illegal(car: Car, patch: CarPatch) {
    StatusField in Actual(car, patch) && patch.status.value !in AllowedTargets(car.status)
  }

  /** Field names in alphabetical order: model, status, year. */
  function Sorted(fields: set<Field>): seq<Field> {
    (if ModelField in fields then [ModelField] else [])
    + (if StatusField in fields then [StatusField] else [])
    + (if YearField in fields then [YearField] else [])
  }

  // ----- the operations ---------------------------------------------------------

  function NewCar(model: string, year: int): Car {
    Car(model, year, Available, false)
  }

  function NewRental(dto: RentalCreate): Rental {
    Rental(dto.carId, dto.customer, dto.startDate, dto.endDate, None)
  }

  function PutCar(db: Db, c: nat, car: Car): Db {
    db.(cars := db.cars[c := car])
  }

  function PutRental(db: Db, r: nat, rental: Rental): Db {
    db.(rentals := db.rentals[r := rental])
  }

  /** The rows a return writes. */
  function ReturnRows(db: Db, r: nat, today: int): Db
    requires r in db.rentals && db.rentals[r].carId in db.cars
  {
    var c := db.rentals[r].carId;
    Db(map[c := db.cars[c].(status := Available)], map[r := db.rentals[r].(returned := Some(today))])
  }

  /** `newId` is the id the database hands to the inserted row, if there is one. */
  function Exec(op: Op, db: Db, newId: nat): Effect {
    match op
    case AddCar(model, year) =>
      var car := NewCar(model, year);
      Effect(PutCar(db, newId, car), Ok(CarRow(newId, car)), Some(CarAdded(newId)))
    case ListCars(filter) =>
      Effect(db, Ok(CarList(ListRows(db, filter))), None)
    case UpdateCar(c, patch) => ExecUpdate(db, c, patch)
    case DeleteCar(c) => ExecDelete(db, c)
    case RegisterRental(dto, today) => ExecRegister(db, dto, today, newId)
    case EndRental(r, today) => ExecEnd(db, r, today)
  }

  function ExecUpdate(db: Db, c: nat, patch: CarPatch): Effect {
    if !IsLive(db, c) then Reject(db, CarNotFound)
    else
      var car := db.cars[c];
      var actual := Actual(car, patch);
      if actual == {} then Effect(db, Ok(CarRow(c, car)), None)
      else if Illegal(car, patch) then Reject(db, CarStatusTransition)
      else
        var car' := Overlaid(car, patch);
        Effect(PutCar(db, c, car'), Ok(CarRow(c, car')), Some(CarUpdated(c, Sorted(actual))))
  }

  function ExecDelete(db: Db, c: nat): Effect {
    if !IsLive(db, c) then Reject(db, CarNotFound)
    else if HasActive(db, c) then Reject(db, CarHasActiveRental)
    else
      var car := db.cars[c].(retired := true);
      Effect(PutCar(db, c, car), Ok(CarRow(c, car)), Some(CarDeleted(c)))
  }

  function ExecRegister(db: Db, dto: RentalCreate, today: int, newId: nat): Effect {
    var c := dto.carId;
    if dto.startDate != today then Reject(db, RentalDate)
    else if !IsLive(db, c) then Reject(db, CarNotFound)
    else if !db.cars[c].status.Available? || HasActive(db, c) then Reject(db, CarNotAvailable)
    else
      var rental := NewRental(dto);
      Effect(PutCar(PutRental(db, newId, rental), c, db.cars[c].(status := InUse)),
             Ok(RentalRow(newId, rental)), Some(RentalStarted(newId, c)))
  }

  function ExecEnd(db: Db, r: nat, today: int): Effect {
    if r !in db.rentals then Reject(db, RentalNotFound)
    else
      var c := db.rentals[r].carId;
      if !IsLive(db, c) then Reject(db, CarNotFound)
      else if !db.rentals[r].IsActive() then Reject(db, RentalAlreadyEnded)
      else if today < db.rentals[r].startDate then Reject(db, RentalDate)
      else
        var rental := db.rentals[r].(returned := Some(today));
        Effect(PutCar(PutRental(db, r, rental), c, db.cars[c].(status := Available)),
               Ok(RentalRow(r, rental)), Some(RentalEnded(r, c)))
  }

  /** The id given to an inserted row names no committed row. */
  predicate FreshFor(op: Op, db: Db, newId: nat) {
    && (op.AddCar? ==> newId !in db.cars)
    && (op.RegisterRental? && Exec(op, db, newId).result.Ok? ==> newId !in db.rentals)
  }

  // ----- sequential histories ------------------------------------------------------

  /** One decided call: the moment it took effect, or was rejected. */
  datatype Entry = Entry(tid: nat, op: Op, newId: nat, result: Result, event: Option<Event>)

  /** The entry reports what its operation does to `db`. */
  ghost predicate Faithful(e: Entry, db: Db) {
    && WellFormed(e.op) && FreshFor(e.op, db, e.newId)
    && Exec(e.op, db, e.newId).result == e.result
    && Exec(e.op, db, e.newId).event == e.event
  }

  /** The tables after executing the entries one after the other. */
  ghost function Replay(init: Db, log: seq<Entry>): Db {
    if |log| == 0 then init
    else Exec(log[|log| - 1].op, Replay(init, log[..|log| - 1]), log[|log| - 1].newId).db
  }

  /** A sequential history: every entry is faithful to the tables its predecessors left. */
  ghost predicate ValidLog(init: Db, log: seq<Entry>) {
    |log| == 0 ||
    (ValidLog(init, log[..|log| - 1]) && Faithful(log[|log| - 1], Replay(init, log[..|log| - 1])))
  }
}
