/**
  One database session with its repositories and its unit of work, as one request uses
  them. Any call may raise. Other requests are the business of `Protocol`.
  */
module Persistence {
  import opened Domain
  import opened Atomic

  /** A repository call returns a value or raises. */
  datatype Outcome<+T> = Returned(value: T) | Raised(failure: Failure)

  function Blame<T>(o: Outcome<T>): nat {
    if o.Raised? && o.failure.Fault? then 1 else 0
  }

  /** A row lock taken by `FOR UPDATE`. */
  datatype Lock = CarLock(carId: nat) | RentalLock(rentalId: nat)

  /** How many calls into the database have raised. */
  class FaultLog {
    var count: nat

    constructor ()
      ensures count == 0
    {
      count := 0;
    }
  }

  class Session {
    var db: Db                   // committed rows
    var writes: Db               // flushed in this transaction
    var rows: Db                 // identity map: the objects handed to the services
    var dirty: Db                // objects with assignments that have not been flushed
    var locks: seq<Lock>         // row locks in the order they were taken
    var nextCar: nat             // id sequences
    var nextRental: nat
    const faults: FaultLog

    ghost predicate Valid()
      reads this
    {
      && (forall c :: c in View().cars || c in dirty.cars ==> c < nextCar)
      && (forall r :: r in View().rentals || r in dirty.rentals ==> r < nextRental)
    }

    /** No transaction is under way: nothing uncommitted, nothing locked. */
    ghost predicate Idle()
      reads this
    {
      Valid() && writes == EMPTY && dirty == EMPTY && locks == []
    }

    /** A session as a request receives it. */
    ghost predicate Fresh()
      reads this
    {
      Idle() && rows == EMPTY
    }

    function View(): Db
      reads this
    {
      Overlay(db, writes)
    }

    constructor (db: Db, nextCar: nat, nextRental: nat)
      requires forall c :: c in db.cars ==> c < nextCar
      requires forall r :: r in db.rentals ==> r < nextRental
      ensures Fresh() && this.db == db && fresh(faults) && faults.count == 0
    {
      this.db := db;
      faults := new FaultLog();
      this.nextCar, this.nextRental := nextCar, nextRental;
      writes, rows, dirty := EMPTY, EMPTY, EMPTY;
      locks := [];
    }

    /** What the transaction will have written once everything changed has been flushed. */
    function Flushed(): Db
      reads this
    {
      Overlay(writes, dirty)
    }

    /**
      Sends every changed object; the database checks its constraints at once. With nothing changed
      the database is not called.
      */
    method Flush() returns (o: Outcome<()>)
      requires Valid()
      modifies this`writes, this`dirty, faults
      ensures Valid()
      ensures old(dirty) == EMPTY ==> o.Returned? && writes == old(writes) && dirty == EMPTY
      ensures o.Returned? && old(dirty) != EMPTY ==>
                writes == Overlay(old(writes), old(dirty)) && dirty == EMPTY && Schema(View())
      ensures o.Raised? ==> writes == old(writes) && dirty == old(dirty)
      ensures o.Raised? && Schema(Overlay(db, Overlay(writes, dirty))) ==> o.failure.Fault?
      ensures faults.count == old(faults.count) + Blame(o)
    {
      if dirty == EMPTY {
        return Returned(());
      }
      var raises: bool := *;
      if raises {
        faults.count := faults.count + 1;
        return Raised(Fault);
      }
      var writes' := Overlay(writes, dirty);
      if !Schema(Overlay(db, writes')) {
        return Raised(Integrity);
      }
      writes, dirty := writes', EMPTY;
      return Returned(());
    }

    /** An attribute of a tracked car is assigned. */
    method AssignCar(c: nat, car: Car)
      requires Valid() && c in View().cars
      modifies this`rows, this`dirty
      ensures Valid() && rows == PutCar(old(rows), c, car) && dirty == PutCar(old(dirty), c, car)
    {
      rows := PutCar(rows, c, car);
      dirty := PutCar(dirty, c, car);
    }

    method AssignRental(r: nat, rental: Rental)
      requires Valid() && r in View().rentals
      modifies this`rows, this`dirty
      ensures Valid() && rows == PutRental(old(rows), r, rental) && dirty == PutRental(old(dirty), r, rental)
    {
      rows := PutRental(rows, r, rental);
      dirty := PutRental(dirty, r, rental);
    }

    /** The end of the request: the next one starts with an empty identity map. */
    method Close()
      requires Idle()
      modifies this`rows
      ensures Fresh()
    {
      rows := EMPTY;
    }
  }

  /** A row added to what is to be flushed is a row added to what the transaction will see. */
  lemma CarDue(db: Db, writes: Db, dirty: Db, c: nat, car: Car)
    ensures Overlay(writes, PutCar(dirty, c, car)) == PutCar(Overlay(writes, dirty), c, car)
    ensures Overlay(db, PutCar(Overlay(writes, dirty), c, car)) == PutCar(Overlay(db, Overlay(writes, dirty)), c, car)
  {
    PutAfterMerge(writes.cars, dirty.cars, c, car);
    PutAfterMerge(db.cars, Overlay(writes, dirty).cars, c, car);
  }

  lemma RentalDue(db: Db, writes: Db, dirty: Db, r: nat, rental: Rental)
    ensures Overlay(writes, PutRental(dirty, r, rental)) == PutRental(Overlay(writes, dirty), r, rental)
    ensures Overlay(db, PutRental(Overlay(writes, dirty), r, rental))
            == PutRental(Overlay(db, Overlay(writes, dirty)), r, rental)
  {
    PutAfterMerge(writes.rentals, dirty.rentals, r, rental);
    PutAfterMerge(db.rentals, Overlay(writes, dirty).rentals, r, rental);
  }

  class CarRepository {
    const session: Session

    constructor (session: Session)
      ensures this.session == session
    {
      this.session := session;
    }

    /** Flushes the new object, and with it every other changed one. */
    method Add(car: Car) returns (o: Outcome<nat>)
      requires session.Valid()
      modifies session`nextCar, session`rows, session`writes, session`dirty, session.faults
      ensures session.Valid()
      ensures o.Returned? ==>
                && o.value !in Overlay(session.db, old(session.Flushed())).cars
                && session.rows == PutCar(old(session.rows), o.value, car)
                && session.writes == PutCar(old(session.Flushed()), o.value, car) && session.dirty == EMPTY
      ensures o == Raised(Integrity) ==>
                exists c :: c !in Overlay(session.db, old(session.Flushed())).cars
                            && !Schema(PutCar(Overlay(session.db, old(session.Flushed())), c, car))
      ensures session.faults.count == old(session.faults.count) + Blame(o)
    {
      ghost var due, db := session.Flushed(), session.db;
      var c := session.nextCar;
      CarDue(db, session.writes, session.dirty, c, car);
      assert c in session.View().cars || c in session.dirty.cars <==> c in Overlay(db, due).cars;
      session.nextCar := c + 1;
      session.rows := PutCar(session.rows, c, car);
      session.dirty := PutCar(session.dirty, c, car);
      assert session.Flushed() == PutCar(due, c, car);
      var flushed := session.Flush();
      if flushed.Raised? {
        return Raised(flushed.failure);
      }
      return Returned(c);
    }

    /**
      The live row, locked and refreshed, or `None`. Nothing is flushed first; the refresh drops
      assignments to that object which have not been flushed.
      */
    method GetByIdForUpdate(c: nat) returns (o: Outcome<Option<Car>>)
      requires session.Valid()
      modifies session`rows, session`locks, session`dirty, session.faults
      ensures session.Valid()
      ensures o.Returned? ==> (o.value.Some? <==> IsLive(session.View(), c))
      ensures o.Returned? && o.value.Some? ==>
                && o.value.value == session.View().cars[c]
                && session.rows == PutCar(old(session.rows), c, o.value.value)
                && session.locks == old(session.locks) + [CarLock(c)]
                && session.dirty == old(session.dirty).(cars := old(session.dirty).cars - {c})
      ensures old(session.dirty) == EMPTY ==> session.dirty == EMPTY
      ensures o.Raised? ==> o.failure.Fault?
      ensures o.Raised? || o.value.None? ==>
                && session.rows == old(session.rows) && session.locks == old(session.locks)
                && session.dirty == old(session.dirty)
      ensures session.faults.count == old(session.faults.count) + Blame(o)
    {
      var raises: bool := *;
      if raises {
        session.faults.count := session.faults.count + 1;
        return Raised(Fault);
      }
      if !IsLive(session.View(), c) {
        return Returned(None);
      }
      var car := session.View().cars[c];
      session.locks := session.locks + [CarLock(c)];
      session.rows := PutCar(session.rows, c, car);
      assert EMPTY.cars - {c} == EMPTY.cars;
      session.dirty := session.dirty.(cars := session.dirty.cars - {c});
      return Returned(Some(car));
    }

    method List(filter: Option<CarStatus>) returns (o: Outcome<seq<(nat, Car)>>)
      modifies session.faults
      ensures o.Returned? ==> o.value == ListRows(session.View(), filter)
      ensures o.Raised? ==> o.failure.Fault?
      ensures session.faults.count == old(session.faults.count) + Blame(o)
    {
      var raises: bool := *;
      if raises {
        session.faults.count := session.faults.count + 1;
        return Raised(Fault);
      }
      return Returned(ListRows(session.View(), filter));
    }

    /** Flushes the session, and with it every other changed object. */
    method Update() returns (o: Outcome<()>)
      requires session.Valid()
      modifies session`writes, session`dirty, session.faults
      ensures session.Valid()
      ensures old(session.dirty) == EMPTY ==> o.Returned? && session.writes == old(session.writes)
      ensures o.Returned? && old(session.dirty) != EMPTY ==>
                session.writes == Overlay(old(session.writes), old(session.dirty))
      ensures o.Returned? ==> session.dirty == EMPTY
      ensures o.Raised? && Schema(Overlay(session.db, Overlay(old(session.writes), old(session.dirty)))) ==>
                o.failure.Fault?
      ensures session.faults.count == old(session.faults.count) + Blame(o)
    {
      o := session.Flush();
    }

    method SoftDelete(c: nat) returns (o: Outcome<()>)
      requires session.Valid() && c in session.rows.cars && c in session.View().cars
      modifies session`rows, session`writes, session`dirty, session.faults
      ensures session.Valid()
      ensures o.Returned? ==>
                var car := old(session.rows).cars[c].(retired := true);
                && session.rows == PutCar(old(session.rows), c, car)
                && session.writes == PutCar(old(session.Flushed()), c, car) && session.dirty == EMPTY
      ensures var car := old(session.rows).cars[c].(retired := true);
              o.Raised? && Schema(PutCar(Overlay(session.db, old(session.Flushed())), c, car)) ==> o.failure.Fault?
      ensures session.faults.count == old(session.faults.count) + Blame(o)
    {
      ghost var due, db := session.Flushed(), session.db;
      var car := session.rows.cars[c].(retired := true);
      CarDue(db, session.writes, session.dirty, c, car);
      session.AssignCar(c, car);
      assert session.Flushed() == PutCar(due, c, car) && session.db == db;
      o := session.Flush();
    }
  }

  class RentalRepository {
    const session: Session

    constructor (session: Session)
      ensures this.session == session
    {
      this.session := session;
    }

    method Add(rental: Rental) returns (o: Outcome<nat>)
      requires session.Valid()
      modifies session`nextRental, session`rows, session`writes, session`dirty, session.faults
      ensures session.Valid()
      ensures o.Returned? ==>
                && o.value !in Overlay(session.db, old(session.Flushed())).rentals
                && session.rows == PutRental(old(session.rows), o.value, rental)
                && session.writes == PutRental(old(session.Flushed()), o.value, rental) && session.dirty == EMPTY
      ensures o == Raised(Integrity) ==>
                exists r :: r !in Overlay(session.db, old(session.Flushed())).rentals
                            && !Schema(PutRental(Overlay(session.db, old(session.Flushed())), r, rental))
      ensures session.faults.count == old(session.faults.count) + Blame(o)
    {
      ghost var due, db := session.Flushed(), session.db;
      var r := session.nextRental;
      RentalDue(db, session.writes, session.dirty, r, rental);
      assert r in session.View().rentals || r in session.dirty.rentals <==> r in Overlay(db, due).rentals;
      session.nextRental := r + 1;
      session.rows := PutRental(session.rows, r, rental);
      session.dirty := PutRental(session.dirty, r, rental);
      assert session.Flushed() == PutRental(due, r, rental);
      var flushed := session.Flush();
      if flushed.Raised? {
        return Raised(flushed.failure);
      }
      return Returned(r);
    }

    /** The tracked object if there is one, else the row. Not locked, not refreshed. */
    method GetById(r: nat) returns (o: Outcome<Option<Rental>>)
      requires session.Valid()
      modifies session`rows, session.faults
      ensures session.Valid()
      ensures o.Returned? ==> (o.value.Some? <==> r in old(session.rows).rentals || r in session.View().rentals)
      ensures o.Returned? && o.value.Some? ==>
                && session.rows == PutRental(old(session.rows), r, o.value.value)
                && o.value.value == (if r in old(session.rows).rentals then old(session.rows).rentals[r]
                                     else session.View().rentals[r])
      ensures o.Raised? ==> o.failure.Fault?
      ensures session.faults.count == old(session.faults.count) + Blame(o)
    {
      if r in session.rows.rentals {
        assert session.rows.rentals[r := session.rows.rentals[r]] == session.rows.rentals;
        return Returned(Some(session.rows.rentals[r]));
      }
      var raises: bool := *;
      if raises {
        session.faults.count := session.faults.count + 1;
        return Raised(Fault);
      }
      if r !in session.View().rentals {
        return Returned(None);
      }
      session.rows := PutRental(session.rows, r, session.View().rentals[r]);
      return Returned(Some(session.View().rentals[r]));
    }

    /** The row, locked and refreshed, whatever the identity map held or had assigned. */
    method GetByIdForUpdate(r: nat) returns (o: Outcome<Option<Rental>>)
      requires session.Valid()
      modifies session`rows, session`locks, session`dirty, session.faults
      ensures session.Valid()
      ensures o.Returned? ==> (o.value.Some? <==> r in session.View().rentals)
      ensures o.Returned? && o.value.Some? ==>
                && o.value.value == session.View().rentals[r]
                && session.rows == PutRental(old(session.rows), r, o.value.value)
                && session.locks == old(session.locks) + [RentalLock(r)]
                && session.dirty == old(session.dirty).(rentals := old(session.dirty).rentals - {r})
      ensures old(session.dirty) == EMPTY ==> session.dirty == EMPTY
      ensures o.Raised? ==> o.failure.Fault?
      ensures o.Raised? || o.value.None? ==>
                && session.rows == old(session.rows) && session.locks == old(session.locks)
                && session.dirty == old(session.dirty)
      ensures session.faults.count == old(session.faults.count) + Blame(o)
    {
      var raises: bool := *;
      if raises {
        session.faults.count := session.faults.count + 1;
        return Raised(Fault);
      }
      if r !in session.View().rentals {
        return Returned(None);
      }
      session.locks := session.locks + [RentalLock(r)];
      session.rows := PutRental(session.rows, r, session.View().rentals[r]);
      assert EMPTY.rentals - {r} == EMPTY.rentals;
      session.dirty := session.dirty.(rentals := session.dirty.rentals - {r});
      return Returned(Some(session.View().rentals[r]));
    }

    /** The newest open rental of the car, if any. */
    method GetActiveByCar(c: nat) returns (o: Outcome<Option<nat>>)
      modifies session.faults
      ensures o.Returned? ==> (o.value.None? <==> !HasActive(session.View(), c))
      ensures o.Returned? && o.value.Some? ==>
                var rentals, r := session.View().rentals, o.value.value;
                && r in rentals && ActiveOn(rentals[r], c)
                && forall q :: q in rentals && ActiveOn(rentals[q], c) ==> q <= r
      ensures o.Raised? ==> o.failure.Fault?
      ensures session.faults.count == old(session.faults.count) + Blame(o)
    {
      var raises: bool := *;
      if raises {
        session.faults.count := session.faults.count + 1;
        return Raised(Fault);
      }
      var view := session.View();
      var open := set r | r in view.rentals && ActiveOn(view.rentals[r], c);
      var ids := Ascending(open);
      if |ids| == 0 {
        assert forall r :: r in view.rentals && ActiveOn(view.rentals[r], c) ==> r in open && r in ids;
        return Returned(None);
      }
      var r := ids[|ids| - 1];
      assert r in open;
      forall q | q in view.rentals && ActiveOn(view.rentals[q], c) ensures q <= r {
        assert q in open && q in ids;
      }
      return Returned(Some(r));
    }

    method Update() returns (o: Outcome<()>)
      requires session.Valid()
      modifies session`writes, session`dirty, session.faults
      ensures session.Valid()
      ensures old(session.dirty) == EMPTY ==> o.Returned? && session.writes == old(session.writes)
      ensures o.Returned? && old(session.dirty) != EMPTY ==>
                session.writes == Overlay(old(session.writes), old(session.dirty))
      ensures o.Returned? ==> session.dirty == EMPTY
      ensures o.Raised? && Schema(Overlay(session.db, Overlay(old(session.writes), old(session.dirty)))) ==>
                o.failure.Fault?
      ensures session.faults.count == old(session.faults.count) + Blame(o)
    {
      o := session.Flush();
    }
  }

  class UnitOfWork {
    const session: Session

    constructor (session: Session)
      ensures this.session == session
    {
      this.session := session;
    }

    /** Flushes what has changed, then commits. A commit that raises has not committed. */
    method Commit() returns (o: Outcome<()>)
      requires session.Valid()
      modifies session`db, session`writes, session`dirty, session`locks, session.faults
      ensures session.Valid()
      ensures o.Returned? ==> session.Idle() && session.db == Overlay(old(session.db), old(session.Flushed()))
      ensures o.Returned? && old(session.dirty) == EMPTY ==> session.db == old(session.View())
      ensures o.Raised? ==> session.db == old(session.db)
      ensures o.Raised? && old(session.dirty) == EMPTY ==> o.failure.Fault?
      ensures o.Raised? && Schema(Overlay(session.db, old(session.Flushed()))) ==> o.failure.Fault?
      ensures session.faults.count == old(session.faults.count) + Blame(o)
    {
      OverlayEmpty(session.writes);
      var flushed := session.Flush();
      if flushed.Raised? {
        return Raised(flushed.failure);
      }
      var raises: bool := *;
      if raises {
        session.faults.count := session.faults.count + 1;
        return Raised(Fault);
      }
      session.db := session.View();
      session.writes := EMPTY;
      session.locks := [];
      return Returned(());
    }

    /** The transaction is over even if the call raises. */
    method Rollback() returns (o: Outcome<()>)
      requires session.Valid()
      modifies session`writes, session`dirty, session`rows, session`locks, session.faults
      ensures session.Fresh()
      ensures o.Raised? ==> o.failure.Fault?
      ensures session.faults.count == old(session.faults.count) + Blame(o)
    {
      assert forall c :: c in session.db.cars ==> c in session.View().cars;
      assert forall r :: r in session.db.rentals ==> r in session.View().rentals;
      OverlayEmpty(session.db);
      session.writes, session.dirty, session.rows := EMPTY, EMPTY, EMPTY;
      session.locks := [];
      var raises: bool := *;
      if raises {
        session.faults.count := session.faults.count + 1;
        return Raised(Fault);
      }
      return Returned(());
    }
  }

  /** Records every call. `Publish` may raise after it has been called. */
  class EventPublisher {
    var calls: seq<Event>

    constructor ()
      ensures calls == []
    {
      calls := [];
    }

    method Publish(e: Event) returns (raised: bool)
      modifies this
      ensures calls == old(calls) + [e]
    {
      calls := calls + [e];
      raised := *;
    }
  }
}
