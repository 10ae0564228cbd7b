/**
  The two tables, the request bodies and the vocabulary of the services.
  Row ids are the keys of the tables; dates are day numbers.
  */
module Domain {

  datatype Option<+T> = None | Some(value: T)

  datatype CarStatus = Available | InUse | UnderMaintenance

  /** `retired` stands for `deleted_at IS NOT NULL`. */
  datatype Car = Car(model: string, year: int, status: CarStatus, retired: bool)

  datatype Rental = Rental(carId: nat, customer: string, startDate: int, endDate: int, returned: Option<int>)
  {
    predicate IsActive() {
      returned.None?
    }
  }

  /** A database state: what one statement can see, or what has been committed. */
  datatype Db = Db(cars: map<nat, Car>, rentals: map<nat, Rental>)

  const EMPTY := Db(map[], map[])

  // ----- request bodies -------------------------------------------------

  /** A field is `None` when the client did not send it; an explicit null is not representable. */
  datatype CarPatch = CarPatch(model: Option<string>, year: Option<int>, status: Option<CarStatus>)

  datatype RentalCreate = RentalCreate(carId: nat, customer: string, startDate: int, endDate: int)

  /** One service call. `today` is the day the call captured before touching the database. */
  datatype Op =
    | AddCar(model: string, year: int)
    | UpdateCar(carId: nat, patch: CarPatch)
    | DeleteCar(carId: nat)
    | ListCars(filter: Option<CarStatus>)
    | RegisterRental(dto: RentalCreate, today: int)
    | EndRental(rentalId: nat, today: int)

  /** What the request schema guarantees before a service is called. */
  predicate WellFormed(op: Op) {
    op.RegisterRental? ==> op.dto.startDate <= op.dto.endDate
  }

  // ----- results and events ---------------------------------------------

  datatype DomainError =
    | CarNotFound
    | RentalNotFound
    | CarNotAvailable
    | CarStatusTransition
    | CarHasActiveRental
    | RentalAlreadyEnded
    | RentalDate

  /** `Fault`: a repository call, commit or rollback raised. `Integrity`: a schema constraint fired. */
  datatype Failure = Fault | Integrity

  datatype Value =
    | CarRow(id: nat, car: Car)
    | RentalRow(id: nat, rental: Rental)
    | CarList(rows: seq<(nat, Car)>)

  datatype Result = Ok(value: Value) | Rejected(error: DomainError) | Failed(failure: Failure)

  datatype Field = ModelField | StatusField | YearField

  datatype Event =
    | CarAdded(carId: nat)
    | CarUpdated(carId: nat, changed: seq<Field>)
    | CarDeleted(carId: nat)
    | RentalStarted(rentalId: nat, carId: nat)
    | RentalEnded(rentalId: nat, carId: nat)

  /** At most one event, as a list. */
  function Announcing(event: Option<Event>): seq<Event> {
    if event.None? then [] else [event.value]
  }

  // ----- queries ----------------------------------------------------------

  predicate IsLive(db: Db, c: nat) {
    c in db.cars && !db.cars[c].retired
  }

  predicate ActiveOn(r: Rental, c: nat) {
    r.carId == c && r.IsActive()
  }

  predicate HasActive(db: Db, c: nat) {
    exists r :: r in db.rentals && ActiveOn(db.rentals[r], c)
  }

  /** The rows a transaction sees: `db` overlaid with its own flushed writes. */
  function Overlay(db: Db, writes: Db): Db {
    Db(db.cars + writes.cars, db.rentals + writes.rentals)
  }

  lemma PutAfterMerge<V>(a: map<nat, V>, b: map<nat, V>, k: nat, v: V)
    ensures a + b[k := v] == (a + b)[k := v]
  {
  }

  lemma OverlayEmpty(db: Db)
    ensures Overlay(db, EMPTY) == db && Overlay(EMPTY, db) == db
  {
  }

  // ----- the schema ---------------------------------------------------------

  /** The two CHECK constraints of a rental row. */
  predicate RowChecks(r: Rental) {
    && r.startDate <= r.endDate
    && (r.returned.Some? ==> r.startDate <= r.returned.value)
  }

  predicate OneActivePerCar(db: Db) {
    forall r, q :: r in db.rentals && q in db.rentals && r != q
                   && db.rentals[r].IsActive() && db.rentals[q].IsActive()
                   ==> db.rentals[r].carId != db.rentals[q].carId
  }

  /** Every constraint the database itself enforces: CHECKs, foreign key, partial unique index. */
  predicate Schema(db: Db) {
    && (forall r :: r in db.rentals ==> RowChecks(db.rentals[r]))
    && (forall r :: r in db.rentals ==> db.rentals[r].carId in db.cars)
    && OneActivePerCar(db)
  }

  /** The lifecycle invariant of the services. Nothing in the schema enforces it. */
  predicate Lifecycle(db: Db) {
    && Schema(db)
    && (forall c :: c in db.cars ==> (db.cars[c].status.InUse? <==> HasActive(db, c)))
    && (forall c :: c in db.cars && db.cars[c].retired ==> !db.cars[c].status.InUse?)
  }

  // ----- rows in id order ----------------------------------------------------

  lemma {:induction false} LeastExists(ids: set<nat>, k: nat)
    requires k in ids
    ensures exists m :: m in ids && forall x :: x in ids ==> m <= x
    decreases k
  {
    if j :| j in ids && j < k {
      LeastExists(ids, j);
    }
  }

  function Least(ids: set<nat>): (m: nat)
    requires |ids| > 0
    ensures m in ids && forall x :: x in ids ==> m <= x
  {
    var k :| k in ids;
    LeastExists(ids, k);
    var m :| m in ids && forall x :: x in ids ==> m <= x;
    m
  }

  function Ascending(ids: set<nat>): (s: seq<nat>)
    ensures forall x :: x in s <==> x in ids
    ensures forall i, j :: 0 <= i < j < |s| ==> s[i] < s[j]
    ensures |s| == |ids|
    decreases |ids|
  {
    if |ids| == 0 then []
    else
      var m := Least(ids);
      var rest := Ascending(ids - {m});
      [m] + rest
  }

  predicate Matches(car: Car, filter: Option<CarStatus>) {
    !car.retired && (filter.Some? ==> car.status == filter.value)
  }

  /** Ids of the live cars, optionally of one status. */
  function Matching(db: Db, filter: Option<CarStatus>): set<nat> {
    set c | c in db.cars && Matches(db.cars[c], filter)
  }

  function Rows(db: Db, ids: seq<nat>): (rows: seq<(nat, Car)>)
    requires forall i :: 0 <= i < |ids| ==> ids[i] in db.cars
    ensures |rows| == |ids|
    ensures forall i :: 0 <= i < |ids| ==> rows[i] == (ids[i], db.cars[ids[i]])
  {
    seq(|ids|, i requires 0 <= i < |ids| => (ids[i], db.cars[ids[i]]))
  }

  function ListRows(db: Db, filter: Option<CarStatus>): seq<(nat, Car)> {
    var ids := Ascending(Matching(db, filter));
    assert forall i :: 0 <= i < |ids| ==> ids[i] in ids;
    Rows(db, ids)
  }

  function ActiveIds(db: Db): set<nat> {
    set r | r in db.rentals && db.rentals[r].IsActive()
  }

  function CountActive(db: Db): nat {
    |ActiveIds(db)|
  }

  /** Non-retired cars grouped by status: a status with no car has no key. */
  function CountByStatus(db: Db): map<CarStatus, nat> {
    map st: CarStatus | Matching(db, Some(st)) != {} :: |Matching(db, Some(st))|
  }
}
