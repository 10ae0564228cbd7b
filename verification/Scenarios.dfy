/**
  Two behaviours the code does have although its comments or a caller might not expect them.
  */
module Scenarios {
  import opened Domain
  import opened Atomic
  import opened History
  import opened Protocol
  import opened Invariant
  import opened Preservation
  import opened Refinement
  import opened Liveness
  import opened Completeness

  /** A state some run from empty tables ends in. */
  ghost predicate Occurs(s: Sys) {
    Reachable(EMPTY, s) && Inv(s)
  }

  lemma OccursFurther(s: Sys, s': Sys)
    requires Occurs(s) && Reaches(s, s') && Inv(s')
    ensures Occurs(s')
  {
    StaysReachable(EMPTY, s, s');
  }

  /** Calls are made under a clock that never runs backwards. */
  ghost predicate ClockForward(s: Sys) {
    forall t: nat, u: nat :: t < u < |s.txs| && Today(s.txs[t].op).Some? && Today(s.txs[u].op).Some? ==>
      Today(s.txs[t].op).value <= Today(s.txs[u].op).value
  }

  const YARIS := AddCar("Yaris", 2023)

  function RentOn(c: nat, day: int): Op {
    RegisterRental(RentalCreate(c, "Dana", day, day + 4), day)
  }

  ghost predicate Free(db: Db, c: nat) {
    IsLive(db, c) && db.cars[c].status.Available? && !HasActive(db, c)
  }

  ghost predicate Out(db: Db, c: nat, r: nat, day: int) {
    && IsLive(db, c) && r in db.rentals && ActiveOn(db.rentals[r], c) && db.rentals[r].startDate == day
    && forall q :: q in db.rentals && ActiveOn(db.rentals[q], c) ==> q == r
  }

  ghost predicate Back(db: Db, c: nat, r: nat) {
    Free(db, c) && r in db.rentals && db.rentals[r].carId == c && !db.rentals[r].IsActive()
  }

  lemma AddFrees(c: nat)
    ensures Free(Exec(YARIS, EMPTY, c).db, c)
  {
  }

  lemma RentTakesOut(db: Db, c: nat, r: nat)
    requires Free(db, c)
    ensures Exec(RentOn(c, 5), db, r).result.Ok?
    ensures r !in db.rentals ==> Out(Exec(RentOn(c, 5), db, r).db, c, r, 5)
  {
  }

  lemma ReturnFrees(db: Db, c: nat, r: nat, n: nat)
    requires Out(db, c, r, 5)
    ensures Exec(EndRental(r, 6), db, n).result.Ok? && Back(Exec(EndRental(r, 6), db, n).db, c, r)
  {
  }

  lemma RetireWorks(db: Db, c: nat, r: nat, n: nat)
    requires Back(db, c, r)
    ensures var db' := Exec(DeleteCar(c), db, n).db;
            c in db'.cars && db'.cars[c].retired && r in db'.rentals && db'.rentals[r] == db.rentals[r]
  {
  }

  lemma RetiredIsMissing(db: Db, c: nat, r: nat, n: nat)
    requires c in db.cars && db.cars[c].retired && r in db.rentals && db.rentals[r].carId == c
    ensures Exec(EndRental(r, 7), db, n) == Reject(db, CarNotFound)
  {
  }

  /** One car has been added and rented on day 5. */
  ghost predicate Rented(s: Sys, c: nat, r: nat) {
    && AllIdle(s) && |s.txs| == 2 && s.txs[0].op == YARIS && s.txs[1].op == RentOn(c, 5)
    && s.txs[0].pc.Done? && s.txs[1].pc.Done?
    && |s.log| == 2 && s.log[1].op == RentOn(c, 5) && s.log[1].result.Ok? && s.log[1].newId == r
    && Out(s.db, c, r, 5)
  }

  lemma AddOneCar() returns (s: Sys, c: nat)
    ensures Occurs(s) && AllIdle(s)
    ensures |s.txs| == 1 && s.txs[0].op == YARIS && s.txs[0].pc.Done? && |s.log| == 1 && Free(s.db, c)
  {
    var s0 := Init(EMPTY);
    ReachesItself(s0);
    ReachableInv(EMPTY, s0);
    var add;
    s, add := CallAlone(s0, YARIS);
    AddFrees(add.newId);
    c := add.newId;
  }

  lemma RentOneCar() returns (s: Sys, c: nat, r: nat)
    ensures Occurs(s) && Rented(s, c, r)
  {
    var s0, car := AddOneCar();
    var s1, first := CallAlone(s0, RentOn(car, 5));
    OccursFurther(s0, s1);
    RentTakesOut(s0.db, car, first.newId);
    s, c, r := s1, car, first.newId;
  }

  /** A second registration of day 5 has been called, but has not reached the database yet. */
  ghost predicate Overtaken(s: Sys, c: nat, r: nat) {
    && AllIdle(s) && |s.txs| == 3 && s.txs[2].op == RentOn(c, 5) && s.txs[2].pc.Start?
    && s.txs[0].op == YARIS && s.txs[1].op == RentOn(c, 5) && s.txs[0].pc.Done? && s.txs[1].pc.Done?
    && |s.log| == 2 && s.log[1].op == RentOn(c, 5) && s.log[1].result.Ok? && s.log[1].newId == r
    && Out(s.db, c, r, 5)
  }

  lemma StallSecondRent() returns (s: Sys, c: nat, r: nat)
    ensures Occurs(s) && Overtaken(s, c, r)
  {
    var s1, car, rental := RentOneCar();
    var s2 := InvokeCall(s1, RentOn(car, 5));
    OccursFurther(s1, s2);
    s, c, r := s2, car, rental;
  }

  /** The car has been returned on day 6 in the meantime. */
  ghost predicate OvertakenByReturn(s: Sys, c: nat, r: nat) {
    && AllIdle(s) && |s.txs| == 4 && s.txs[2].op == RentOn(c, 5) && s.txs[2].pc.Start?
    && s.txs[0].op == YARIS && s.txs[1].op == RentOn(c, 5) && s.txs[3].op == EndRental(r, 6)
    && s.txs[0].pc.Done? && s.txs[1].pc.Done? && s.txs[3].pc.Done?
    && |s.log| == 3 && s.log[1].op == RentOn(c, 5) && s.log[1].result.Ok? && s.log[1].newId == r
    && s.log[2].op == EndRental(r, 6) && s.log[2].result.Ok?
    && Back(s.db, c, r)
  }

  lemma ReturnFirst() returns (s: Sys, c: nat, r: nat)
    ensures Occurs(s) && OvertakenByReturn(s, c, r)
  {
    var s2, car, rental := StallSecondRent();
    var s3, end := CallAlone(s2, EndRental(rental, 6));
    OccursFurther(s2, s3);
    ReturnFrees(s2.db, car, rental, end.newId);
    s, c, r := s3, car, rental;
  }

  /** All four calls are finished, the second registration last. */
  ghost predicate Overlapped(s: Sys, c: nat, r: nat) {
    && |s.txs| == 4 && s.txs[2].op == RentOn(c, 5)
    && s.txs[0].op == YARIS && s.txs[1].op == RentOn(c, 5) && s.txs[3].op == EndRental(r, 6)
    && s.txs[0].pc.Done? && s.txs[1].pc.Done? && s.txs[2].pc.Done? && s.txs[3].pc.Done?
    && |s.log| == 4 && s.log[1].op == RentOn(c, 5) && s.log[1].result.Ok? && s.log[1].newId == r
    && s.log[2].op == EndRental(r, 6) && s.log[2].result.Ok?
    && s.log[3].op == RentOn(c, 5) && s.log[3].result.Ok?
  }

  lemma RentBelatedly() returns (s: Sys, c: nat, r: nat)
    ensures Occurs(s) && Overlapped(s, c, r)
  {
    var s3, car, rental := ReturnFirst();
    var id := FreshId(s3);
    var s4, second := Solo(s3, 2, id);
    OccursFurther(s3, s4);
    RentTakesOut(s3.db, car, second.newId);
    s, c, r := s4, car, rental;
  }

  lemma OverlappedClock(s: Sys, c: nat, r: nat)
    requires Overlapped(s, c, r)
    ensures AllDone(s) && ClockForward(s)
  {
  }

  lemma OverlapFromLog(log: seq<Entry>, db: Db, r: nat)
    requires ValidLog(EMPTY, log) && db == Replay(EMPTY, log) && |log| == 4
    requires Registered(log[1]) && log[1].newId == r && Ended(log[2], r) && Registered(log[3])
    requires log[1].op.dto.carId == log[3].op.dto.carId && log[3].op.today < log[2].op.today
    ensures !NonOverlapping(log, db)
  {
  }

  /**
    Non-overlap is not a property of interleaved runs: the day is read before the lock is taken.
    A registration made on day 5 that is overtaken by a return on day 6 starts before that return.
    */
  lemma RentalsMayOverlap() returns (s: Sys)
    ensures Reachable(EMPTY, s) && AllDone(s) && ClockForward(s) && !NonOverlapping(s.log, s.db)
  {
    var s4, c, r := RentBelatedly();
    s := s4;
    ReachableLog(EMPTY, s);
    OverlapFromLog(s.log, s.db, r);
    OverlappedClock(s, c, r);
  }

  lemma ReturnOnly() returns (s: Sys, c: nat, r: nat)
    ensures Occurs(s) && AllIdle(s) && Back(s.db, c, r)
  {
    var s1, car, rental := RentOneCar();
    var s2, end := CallAlone(s1, EndRental(rental, 6));
    OccursFurther(s1, s2);
    ReturnFrees(s1.db, car, rental, end.newId);
    s, c, r := s2, car, rental;
  }

  lemma ReturnAndRetire() returns (s: Sys, c: nat, r: nat)
    ensures Occurs(s) && AllIdle(s) && c in s.db.cars && s.db.cars[c].retired
    ensures r in s.db.rentals && s.db.rentals[r].carId == c && !s.db.rentals[r].IsActive()
  {
    var s2, car, rental := ReturnOnly();
    var s3, retire := CallAlone(s2, DeleteCar(car));
    OccursFurther(s2, s3);
    RetireWorks(s2.db, car, rental, retire.newId);
    s, c, r := s3, car, rental;
  }

  /**
    The missing-car branch of `EndRental` is reachable: ending a rental again after its
    car has been retired reports the car, not the rental.
    */
  lemma RetiredCarIsReported() returns (s: Sys, t: nat)
    ensures Reachable(EMPTY, s) && t < |s.txs| && s.txs[t].op.EndRental? && s.txs[t].op.rentalId in s.db.rentals
    ensures s.txs[t].pc == Done(Rejected(CarNotFound))
  {
    var s3, c, r := ReturnAndRetire();
    var s4, again := CallAlone(s3, EndRental(r, 7));
    RetiredIsMissing(s3.db, c, r, again.newId);
    OccursFurther(s3, s4);
    s, t := s4, |s3.txs|;
  }
}
