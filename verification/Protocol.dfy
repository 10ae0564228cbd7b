/**
  Any number of service calls running concurrently against one database. A step
  of a call is one repository call, commit, rollback or publish. Statements run
  at READ COMMITTED: each sees the committed rows overlaid with the caller's own
  writes. `FOR UPDATE` blocks on a row somebody else has locked and reads the
  newest committed row once it is granted.
  */
module Protocol {
  import opened Domain
  import opened Atomic

  /** Where a call stands between two statements. */
  datatype Pc =
    | Start
    | RentalSeen       // end: the unlocked read has found the rental
    | CarLocked        // the car row is locked, refreshed and checked
    | NoActive         // register, delete: no open rental was found under the lock
    | RentalAdded      // register: the rental row has been inserted
    | RentalLocked     // end: the rental row is locked, refreshed and checked
    | RentalFlushed    // end: both changed rows have been flushed
    | Ready            // only the commit is left
    | RollingBack(why: Result)
    | Publishing(event: Event, reply: Result)
    | Done(reply: Result)

  /**
    One call. `session` is the identity map of its database session, `writes` the rows
    it has flushed but not committed, `newId` the id of the row it inserted and
    `actual` the fields a partial update found to differ.
    */
  datatype Tx = Tx(op: Op, pc: Pc, session: Db, writes: Db, newId: nat, actual: set<Field>)

  /**
    `carIds` and `rentalIds` record every id ever drawn and who drew it (`None`: there from the
    start). `log` and `published` only record; no step reads them.
    */
  datatype Sys = Sys(
    db: Db,
    carLock: map<nat, nat>,
    rentalLock: map<nat, nat>,
    txs: seq<Tx>,
    carIds: map<nat, Option<nat>>,
    rentalIds: map<nat, Option<nat>>,
    log: seq<Entry>,
    published: multiset<Event>)

  datatype Action = Invoke(op: Op) | Step(newId: nat) | Crash

  datatype Move = Move(tid: nat, action: Action)

  function Init(db: Db): Sys {
    Sys(db, map[], map[], [], map c | c in db.cars :: None, map r | r in db.rentals :: None, [], multiset{})
  }

  function View(s: Sys, t: nat): Db
    requires t < |s.txs|
  {
    Overlay(s.db, s.txs[t].writes)
  }

  predicate OwnsCar(s: Sys, t: nat, c: nat) {
    c in s.carLock && s.carLock[c] == t
  }

  predicate OwnsRental(s: Sys, t: nat, r: nat) {
    r in s.rentalLock && s.rentalLock[r] == t
  }

  // ----- who waits for whom ------------------------------------------------------

  predicate StartsToday(op: Op) {
    op.RegisterRental? ==> op.dto.startDate == op.today
  }

  /** The car a call is about, once it is known. */
  function TargetCar(tx: Tx): Option<nat> {
    match tx.op
    case UpdateCar(c, _) => Some(c)
    case DeleteCar(c) => Some(c)
    case RegisterRental(dto, _) => Some(dto.carId)
    case EndRental(r, _) => if r in tx.session.rentals then Some(tx.session.rentals[r].carId) else None
    case AddCar(_, _) => None
    case ListCars(_) => None
  }

  /** The next statement locks the target car's row, updates it, or takes its foreign-key lock. */
  predicate NeedsCarRow(tx: Tx) {
    || (tx.pc.Start? && StartsToday(tx.op))
    || tx.pc.RentalSeen?
    || (tx.pc.CarLocked? && tx.op.UpdateCar?)
    || tx.pc.NoActive?
    || tx.pc.RentalAdded?
    || tx.pc.RentalLocked?
  }

  /** The next statement locks or updates this rental row. */
  predicate NeedsRentalRow(tx: Tx, r: nat) {
    tx.op.EndRental? && r == tx.op.rentalId && (tx.pc.CarLocked? || tx.pc.RentalLocked?)
  }

  /** The next statement adds an entry for the target car to the index of open rentals. */
  predicate NeedsIndexEntry(tx: Tx) {
    tx.op.RegisterRental? && tx.pc.NoActive?
  }

  predicate HasIndexEntry(tx: Tx, c: nat) {
    exists r :: r in tx.writes.rentals && tx.writes.rentals[r].carId == c
  }

  predicate WaitsForCar(s: Sys, t: nat, u: nat)
    requires t < |s.txs|
  {
    var tx := s.txs[t];
    NeedsCarRow(tx) && TargetCar(tx).Some? && IsLive(View(s, t), TargetCar(tx).value)
    && OwnsCar(s, u, TargetCar(tx).value)
  }

  predicate WaitsForRental(s: Sys, t: nat, u: nat)
    requires t < |s.txs|
  {
    var tx := s.txs[t];
    tx.op.EndRental? && NeedsRentalRow(tx, tx.op.rentalId) && OwnsRental(s, u, tx.op.rentalId)
  }

  /** A unique index waits for the outcome of an uncommitted change under the same key. */
  predicate WaitsForIndex(s: Sys, t: nat, u: nat)
    requires t < |s.txs| && u < |s.txs|
  {
    var tx := s.txs[t];
    NeedsIndexEntry(tx) && HasIndexEntry(s.txs[u], tx.op.dto.carId)
  }

  predicate WaitsFor(s: Sys, t: nat, u: nat) {
    t < |s.txs| && u < |s.txs| && t != u
    && (WaitsForCar(s, t, u) || WaitsForRental(s, t, u) || WaitsForIndex(s, t, u))
  }

  predicate Blocked(s: Sys, t: nat) {
    exists u: nat :: u < |s.txs| && WaitsFor(s, t, u)
  }

  // ----- the statements ---------------------------------------------------------------

  function SetTx(s: Sys, t: nat, tx: Tx): Sys
    requires t < |s.txs|
  {
    s.(txs := s.txs[t := tx])
  }

  function Record(s: Sys, t: nat, result: Result, event: Option<Event>): Sys
    requires t < |s.txs|
  {
    s.(log := s.log + [Entry(t, s.txs[t].op, s.txs[t].newId, result, event)])
  }

  /** A domain error raised inside the transaction. */
  function Raise(s: Sys, t: nat, e: DomainError): Sys
    requires t < |s.txs|
  {
    SetTx(Record(s, t, Rejected(e), None), t, s.txs[t].(pc := RollingBack(Rejected(e))))
  }

  /** A reply that needs no transaction. */
  function Answer(s: Sys, t: nat, reply: Result): Sys
    requires t < |s.txs|
  {
    SetTx(Record(s, t, reply, None), t, s.txs[t].(pc := Done(reply)))
  }

  /** A flush sends the rows of `tx` to the database, which checks its constraints at once. */
  function Flush(s: Sys, t: nat, tx: Tx): Sys
    requires t < |s.txs|
  {
    if Schema(Overlay(s.db, tx.writes)) then SetTx(s, t, tx)
    else SetTx(s, t, s.txs[t].(pc := RollingBack(Failed(Integrity))))
  }

  function CarOnly(c: nat, car: Car): Db {
    Db(map[c := car], map[])
  }

  function RentalOnly(r: nat, rental: Rental): Db {
    Db(map[], map[r := rental])
  }

  /** Attributes are assigned on the session's objects, and a flush writes them out. */
  function Write(tx: Tx, rows: Db): Tx {
    tx.(session := Overlay(tx.session, rows), writes := Overlay(tx.writes, rows))
  }

  /** What the service thinks of the car row it has just locked. */
  function Objection(op: Op, car: Car): Option<DomainError> {
    match op
    case RegisterRental(_, _) => if car.status.Available? then None else Some(CarNotAvailable)
    case UpdateCar(_, patch) =>
      if Actual(car, patch) != {} && Illegal(car, patch) then Some(CarStatusTransition) else None
    case _ => None
  }

  function Differing(op: Op, car: Car): set<Field> {
    if op.UpdateCar? then Actual(car, op.patch) else {}
  }

  /** `cars.get_by_id_for_update` and the checks on the row it returns. */
  function LockCar(s: Sys, t: nat, c: nat): Sys
    requires t < |s.txs|
  {
    if !IsLive(View(s, t), c) then Raise(s, t, CarNotFound)
    else
      var car := View(s, t).cars[c];
      var tx := s.txs[t].(session := PutCar(s.txs[t].session, c, car));
      var s' := SetTx(s.(carLock := s.carLock[c := t]), t, tx);
      var objection, actual := Objection(tx.op, car), Differing(tx.op, car);
      if objection.Some? then Raise(s', t, objection.value)
      else
        // an update that changes nothing returns at once, and its empty transaction commits
        var pc := if tx.op.UpdateCar? && actual == {} then Ready else CarLocked;
        SetTx(s', t, tx.(pc := pc, actual := actual))
  }

  /** `rentals.get_by_id_for_update` and the checks on the row it returns. */
  function LockRental(s: Sys, t: nat, r: nat, today: int): Sys
    requires t < |s.txs|
  {
    if r !in View(s, t).rentals then Raise(s, t, RentalNotFound)
    else
      var rental := View(s, t).rentals[r];
      var tx := s.txs[t].(session := PutRental(s.txs[t].session, r, rental));
      var s' := SetTx(s.(rentalLock := s.rentalLock[r := t]), t, tx);
      if !rental.IsActive() then Raise(s', t, RentalAlreadyEnded)
      else if today < rental.startDate then Raise(s', t, RentalDate)
      else SetTx(s', t, tx.(pc := RentalLocked))
  }

  /** `rentals.get_by_id`: the identity map first, then an unlocked read. */
  function ReadRental(s: Sys, t: nat, r: nat): Sys
    requires t < |s.txs|
  {
    var tx := s.txs[t];
    if r in tx.session.rentals then SetTx(s, t, tx.(pc := RentalSeen))
    else if r !in View(s, t).rentals then Raise(s, t, RentalNotFound)
    else SetTx(s, t, tx.(session := PutRental(tx.session, r, View(s, t).rentals[r]), pc := RentalSeen))
  }

  /** `rentals.get_active_by_car` under the car lock. */
  function CheckNoActive(s: Sys, t: nat, c: nat, e: DomainError): Sys
    requires t < |s.txs|
  {
    if HasActive(View(s, t), c) then Raise(s, t, e) else SetTx(s, t, s.txs[t].(pc := NoActive))
  }

  function InsertCar(s: Sys, t: nat, newId: nat, car: Car): Sys
    requires t < |s.txs|
  {
    Flush(s.(carIds := s.carIds[newId := Some(t)]), t,
          Write(s.txs[t], CarOnly(newId, car)).(newId := newId, pc := Ready))
  }

  function InsertRental(s: Sys, t: nat, newId: nat, rental: Rental): Sys
    requires t < |s.txs|
  {
    Flush(s.(rentalIds := s.rentalIds[newId := Some(t)]), t,
          Write(s.txs[t], RentalOnly(newId, rental)).(newId := newId, pc := RentalAdded))
  }

  function Release(s: Sys, t: nat): Sys {
    s.(carLock := map c | c in s.carLock && s.carLock[c] != t :: s.carLock[c],
       rentalLock := map r | r in s.rentalLock && s.rentalLock[r] != t :: s.rentalLock[r])
  }

  /** The object a method returns, read from its session. */
  function Reply(tx: Tx): Result
    requires tx.pc.Ready? && Shape(tx)
  {
    match tx.op
    case AddCar(_, _) => Ok(CarRow(tx.newId, tx.session.cars[tx.newId]))
    case UpdateCar(c, _) => Ok(CarRow(c, tx.session.cars[c]))
    case DeleteCar(c) => Ok(CarRow(c, tx.session.cars[c]))
    case RegisterRental(_, _) => Ok(RentalRow(tx.newId, tx.session.rentals[tx.newId]))
    case EndRental(r, _) => Ok(RentalRow(r, tx.session.rentals[r]))
  }

  function Announcement(tx: Tx): Option<Event>
    requires tx.pc.Ready? && Shape(tx)
  {
    match tx.op
    case AddCar(_, _) => Some(CarAdded(tx.newId))
    case UpdateCar(c, _) => if tx.actual == {} then None else Some(CarUpdated(c, Sorted(tx.actual)))
    case DeleteCar(c) => Some(CarDeleted(c))
    case RegisterRental(dto, _) => Some(RentalStarted(tx.newId, dto.carId))
    case EndRental(r, _) => Some(RentalEnded(r, tx.session.rentals[r].carId))
  }

  function Commit(s: Sys, t: nat): Sys
    requires t < |s.txs| && s.txs[t].pc.Ready? && Shape(s.txs[t])
  {
    var tx := s.txs[t];
    var reply, event := Reply(tx), Announcement(tx);
    var pc := if event.None? then Done(reply) else Publishing(event.value, reply);
    var s' := Release(Record(s, t, reply, event), t);
    SetTx(s'.(db := View(s, t)), t, tx.(pc := pc, writes := EMPTY))
  }

  function Rollback(s: Sys, t: nat, reply: Result): Sys
    requires t < |s.txs|
  {
    SetTx(Release(s, t), t, s.txs[t].(pc := Done(reply), writes := EMPTY))
  }

  /** The publisher is called once; whether it raises makes no difference to the caller. */
  function Publish(s: Sys, t: nat): Sys
    requires t < |s.txs| && s.txs[t].pc.Publishing?
  {
    var pc := s.txs[t].pc;
    SetTx(s.(published := s.published + multiset{pc.event}), t, s.txs[t].(pc := Done(pc.reply)))
  }

  // ----- one step of a call -------------------------------------------------------------

  /** The local variables of the method are bound to rows of the session. */
  predicate Shape(tx: Tx) {
    match tx.pc
    case Start => true
    case RentalSeen => tx.op.EndRental? && tx.op.rentalId in tx.session.rentals
    case CarLocked => TargetInSession(tx)
    case NoActive => (tx.op.DeleteCar? || tx.op.RegisterRental?) && TargetInSession(tx)
    case RentalAdded => tx.op.RegisterRental? && TargetInSession(tx) && tx.newId in tx.session.rentals
    case RentalLocked => tx.op.EndRental? && TargetInSession(tx)
    case RentalFlushed => tx.op.EndRental? && TargetInSession(tx)
    case Ready =>
      if tx.op.AddCar? then tx.newId in tx.session.cars
      else TargetInSession(tx) && (tx.op.RegisterRental? ==> tx.newId in tx.session.rentals)
    case RollingBack(_) => true
    case Publishing(_, _) => true
    case Done(_) => true
  }

  predicate TargetInSession(tx: Tx) {
    TargetCar(tx).Some? && TargetCar(tx).value in tx.session.cars
  }

  function Advance(s: Sys, t: nat, newId: nat): Sys
    requires t < |s.txs| && !s.txs[t].pc.Done? && Shape(s.txs[t])
  {
    var tx := s.txs[t];
    match tx.pc
    case Start => AdvanceStart(s, t, newId)
    case RentalSeen => LockCar(s, t, tx.session.rentals[tx.op.rentalId].carId)
    case CarLocked => AdvanceCarLocked(s, t)
    case NoActive => AdvanceNoActive(s, t, newId)
    case RentalAdded =>
      var c := tx.op.dto.carId;
      Flush(s, t, Write(tx, CarOnly(c, tx.session.cars[c].(status := InUse))).(pc := Ready))
    case RentalLocked => FlushEnd(s, t)
    case RentalFlushed => Flush(s, t, tx.(pc := Ready))
    case Ready => Commit(s, t)
    case RollingBack(why) => Rollback(s, t, why)
    case Publishing(_, _) => Publish(s, t)
  }

  function AdvanceStart(s: Sys, t: nat, newId: nat): Sys
    requires t < |s.txs| && s.txs[t].pc.Start?
  {
    match s.txs[t].op
    case AddCar(model, year) => InsertCar(s, t, newId, NewCar(model, year))
    case ListCars(filter) => Answer(s, t, Ok(CarList(ListRows(View(s, t), filter))))
    case UpdateCar(c, _) => LockCar(s, t, c)
    case DeleteCar(c) => LockCar(s, t, c)
    case EndRental(r, _) => ReadRental(s, t, r)
    case RegisterRental(dto, today) =>
      if dto.startDate != today then Answer(s, t, Rejected(RentalDate)) else LockCar(s, t, dto.carId)
  }

  function AdvanceCarLocked(s: Sys, t: nat): Sys
    requires t < |s.txs| && s.txs[t].pc.CarLocked? && Shape(s.txs[t])
  {
    var tx := s.txs[t];
    match tx.op
    case RegisterRental(dto, _) => CheckNoActive(s, t, dto.carId, CarNotAvailable)
    case DeleteCar(c) => CheckNoActive(s, t, c, CarHasActiveRental)
    case EndRental(r, today) => LockRental(s, t, r, today)
    case UpdateCar(c, patch) =>
      Flush(s, t, Write(tx, CarOnly(c, Overlaid(tx.session.cars[c], patch))).(pc := Ready))
  }

  function AdvanceNoActive(s: Sys, t: nat, newId: nat): Sys
    requires t < |s.txs| && s.txs[t].pc.NoActive? && Shape(s.txs[t])
  {
    var tx := s.txs[t];
    match tx.op
    case RegisterRental(dto, _) => InsertRental(s, t, newId, NewRental(dto))
    case DeleteCar(c) => Flush(s, t, Write(tx, CarOnly(c, tx.session.cars[c].(retired := true))).(pc := Ready))
  }

  /** `rentals.update` flushes the whole session, so both changed rows go out together. */
  function FlushEnd(s: Sys, t: nat): Sys
    requires t < |s.txs| && s.txs[t].pc.RentalLocked? && Shape(s.txs[t])
  {
    var tx := s.txs[t];
    var r, c := tx.op.rentalId, TargetCar(tx).value;
    var rental := tx.session.rentals[r].(returned := Some(tx.op.today));
    var car := tx.session.cars[c].(status := Available);
    Flush(s, t, Write(tx, Db(map[c := car], map[r := rental])).(pc := RentalFlushed))
  }

  /** The pending repository call, commit, rollback or publish raises. */
  function Fail(s: Sys, t: nat): Sys
    requires t < |s.txs| && !s.txs[t].pc.Done?
  {
    var tx := s.txs[t];
    match tx.pc
    case RollingBack(_) => Rollback(s, t, Failed(Fault))
    case Publishing(_, _) => Publish(s, t)
    case _ =>
      SetTx(s, t, tx.(pc := if tx.op.ListCars? then Done(Failed(Fault)) else RollingBack(Failed(Fault))))
  }

  // ----- runs -----------------------------------------------------------------------------

  predicate IdUnused(s: Sys, tx: Tx, newId: nat) {
    && (tx.pc.Start? && tx.op.AddCar? ==> newId !in s.carIds)
    && (tx.pc.NoActive? && tx.op.RegisterRental? ==> newId !in s.rentalIds)
  }

  predicate Enabled(s: Sys, m: Move) {
    match m.action
    case Invoke(op) => m.tid == |s.txs| && WellFormed(op)
    case Step(newId) =>
      && m.tid < |s.txs| && !s.txs[m.tid].pc.Done? && Shape(s.txs[m.tid])
      && !Blocked(s, m.tid) && IdUnused(s, s.txs[m.tid], newId)
    case Crash =>
      && m.tid < |s.txs| && !s.txs[m.tid].pc.Done?
      && (s.txs[m.tid].pc.Start? ==> StartsToday(s.txs[m.tid].op))
  }

  function Next(s: Sys, m: Move): Sys
    requires Enabled(s, m)
  {
    match m.action
    case Invoke(op) => s.(txs := s.txs + [Tx(op, Start, EMPTY, EMPTY, 0, {})])
    case Step(newId) => Advance(s, m.tid, newId)
    case Crash => Fail(s, m.tid)
  }

  /** A schedule is any sequence of moves, each of them possible when its turn comes. */
  predicate ValidRun(s: Sys, sched: seq<Move>)
    decreases |sched|, 0
  {
    |sched| == 0 ||
    (ValidRun(s, sched[..|sched| - 1]) && Enabled(Run(s, sched[..|sched| - 1]), sched[|sched| - 1]))
  }

  function Run(s: Sys, sched: seq<Move>): Sys
    requires ValidRun(s, sched)
    decreases |sched|, 1
  {
    if |sched| == 0 then s else Next(Run(s, sched[..|sched| - 1]), sched[|sched| - 1])
  }

  /** Some schedule leads from `s` to `s'`. */
  ghost predicate Reaches(s: Sys, s': Sys) {
    exists sched :: ValidRun(s, sched) && Run(s, sched) == s'
  }

  ghost predicate Reachable(init: Db, s: Sys) {
    Schema(init) && Reaches(Init(init), s)
  }

  lemma StepReaches(s: Sys, m: Move)
    requires Enabled(s, m)
    ensures Reaches(s, Next(s, m))
  {
    var sched := [m];
    assert ValidRun(s, []) && Run(s, []) == s;
    RunSnoc(s, [], sched);
  }

  /** A schedule with one more move. */
  lemma RunSnoc(s: Sys, prefix: seq<Move>, sched: seq<Move>)
    requires |sched| > 0 && sched[..|sched| - 1] == prefix && ValidRun(s, prefix)
    ensures ValidRun(s, sched) <==> Enabled(Run(s, prefix), sched[|sched| - 1])
    ensures ValidRun(s, sched) ==> Run(s, sched) == Next(Run(s, prefix), sched[|sched| - 1])
  {
  }

  lemma {:induction false} RunThenRun(s: Sys, first: seq<Move>, second: seq<Move>)
    requires ValidRun(s, first) && ValidRun(Run(s, first), second)
    ensures ValidRun(s, first + second) && Run(s, first + second) == Run(Run(s, first), second)
  {
    if |second| == 0 {
      assert first + second == first;
    } else {
      var n := |second| - 1;
      RunThenRun(s, first, second[..n]);
      RunSnoc(Run(s, first), second[..n], second);
      assert (first + second)[..|first + second| - 1] == first + second[..n];
      RunSnoc(s, first + second[..n], first + second);
    }
  }

  lemma ReachesFurther(s: Sys, mid: Sys, s': Sys)
    requires Reaches(s, mid) && Reaches(mid, s')
    ensures Reaches(s, s')
  {
    var first :| ValidRun(s, first) && Run(s, first) == mid;
    var second :| ValidRun(mid, second) && Run(mid, second) == s';
    RunThenRun(s, first, second);
  }

  lemma ReachesItself(s: Sys)
    ensures Reaches(s, s)
  {
    assert ValidRun(s, []) && Run(s, []) == s;
  }

  lemma StaysReachable(init: Db, s: Sys, s': Sys)
    requires Reachable(init, s) && Reaches(s, s')
    ensures Reachable(init, s')
  {
    ReachesFurther(Init(init), s, s');
  }
}
