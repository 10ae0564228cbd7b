/** Properties of whole sequential histories. Interleaved runs inherit them through refinement. */
module History {
  import opened Domain
  import opened Atomic
  import opened AtomicLaws

  lemma {:induction false} PrefixValid(init: Db, log: seq<Entry>, k: nat)
    requires ValidLog(init, log) && k <= |log|
    ensures ValidLog(init, log[..k])
    ensures k < |log| ==> Faithful(log[k], Replay(init, log[..k])) && ValidLog(init, log[..k + 1])
  {
    if k == |log| {
      assert log[..k] == log;
    } else {
      var prefix := log[..|log| - 1];
      PrefixValid(init, prefix, if k < |prefix| then k else |prefix|);
      assert k < |prefix| ==> prefix[..k] == log[..k] && prefix[..k + 1] == log[..k + 1];
      assert k == |prefix| ==> prefix[..k] == log[..k] && log[..k + 1] == log;
    }
  }

  lemma {:induction false} LogKeepsLifecycle(init: Db, log: seq<Entry>)
    requires Lifecycle(init) && ValidLog(init, log)
    ensures Lifecycle(Replay(init, log))
  {
    if |log| == 0 {
    } else {
      var prefix, e := log[..|log| - 1], log[|log| - 1];
      LogKeepsLifecycle(init, prefix);
      ExecKeepsLifecycle(e.op, Replay(init, prefix), e.newId);
    }
  }

  // ----- conservation ------------------------------------------------------------------

  lemma {:induction false} Bijection(rentals: map<nat, Rental>, active: set<nat>, cars: set<nat>)
    requires active <= rentals.Keys
    requires forall r, q :: r in active && q in active && r != q ==> rentals[r].carId != rentals[q].carId
    requires forall r :: r in active ==> rentals[r].carId in cars
    requires forall c :: c in cars ==> exists r :: r in active && rentals[r].carId == c
    ensures |active| == |cars|
    decreases |active|
  {
    if active == {} {
      assert cars == {};
    } else {
      var r :| r in active;
      var c := rentals[r].carId;
      forall d | d in cars - {c} ensures exists q :: q in active - {r} && rentals[q].carId == d {
        var q :| q in active && rentals[q].carId == d;
        assert q in active - {r};
      }
      Bijection(rentals, active - {r}, cars - {c});
    }
  }

  /** Cars reported in use and open rentals are equally many on any single lifecycle state. */
  lemma InUseCountIsActiveCount(db: Db)
    requires Lifecycle(db)
    ensures Count(CountByStatus(db), InUse) == CountActive(db)
  {
    var cars, active := Matching(db, Some(InUse)), ActiveIds(db);
    forall r | r in active ensures db.rentals[r].carId in cars {
      assert ActiveOn(db.rentals[r], db.rentals[r].carId);
    }
    forall c | c in cars ensures exists r :: r in active && db.rentals[r].carId == c {
      var r :| r in db.rentals && ActiveOn(db.rentals[r], c);
      assert r in active;
    }
    Bijection(db.rentals, active, cars);
    CountIsMatching(db, InUse);
  }

  /** The gauge value of one status: 0 when the grouped count has no row for it. */
  function Count(counts: map<CarStatus, nat>, st: CarStatus): nat {
    if st in counts then counts[st] else 0
  }

  lemma CountIsMatching(db: Db, st: CarStatus)
    ensures Count(CountByStatus(db), st) == |Matching(db, Some(st))|
    ensures st in CountByStatus(db) <==> exists c :: c in db.cars && !db.cars[c].retired && db.cars[c].status == st
  {
    var m := Matching(db, Some(st));
    if m != {} { var c :| c in m; }
    if c :| c in db.cars && !db.cars[c].retired && db.cars[c].status == st { assert c in m; }
  }

  lemma DisjointSizes(a: set<nat>, b: set<nat>, c: set<nat>, all: set<nat>)
    requires a !! b && a !! c && b !! c
    requires forall x :: x in all <==> x in a || x in b || x in c
    ensures |all| == |a| + |b| + |c|
  {
    assert all == a + b + c;
    assert (a + b) !! c;
  }

  /** The grouped counts add up to the length of the unfiltered list, for every database. */
  lemma CountsCoverTheList(db: Db)
    ensures var n := CountByStatus(db);
            Count(n, Available) + Count(n, InUse) + Count(n, UnderMaintenance) == |ListRows(db, None)|
  {
    CountIsMatching(db, Available);
    CountIsMatching(db, InUse);
    CountIsMatching(db, UnderMaintenance);
    DisjointSizes(Matching(db, Some(Available)), Matching(db, Some(InUse)), Matching(db, Some(UnderMaintenance)),
                  Matching(db, None));
  }

  /** The list is exactly the matching live cars, each once, by increasing id. */
  lemma ListIsMatching(db: Db, filter: Option<CarStatus>)
    ensures var rows := ListRows(db, filter);
            && (forall i :: 0 <= i < |rows| ==>
                  rows[i].0 in db.cars && rows[i].1 == db.cars[rows[i].0] && !rows[i].1.retired
                  && (filter.Some? ==> rows[i].1.status == filter.value))
            && (forall i, j :: 0 <= i < j < |rows| ==> rows[i].0 < rows[j].0)
            && (forall c :: c in db.cars && Matches(db.cars[c], filter) ==> (c, db.cars[c]) in rows)
  {
    var ids := Ascending(Matching(db, filter));
    var rows := ListRows(db, filter);
    forall i | 0 <= i < |rows| ensures ids[i] in Matching(db, filter) && rows[i] == (ids[i], db.cars[ids[i]]) {
      assert ids[i] in ids;
    }
    forall c | c in db.cars && Matches(db.cars[c], filter) ensures (c, db.cars[c]) in rows {
      assert c in Matching(db, filter);
      var i :| 0 <= i < |ids| && ids[i] == c;
      assert rows[i] == (c, db.cars[c]);
    }
  }

  /** The active count is the number of open rentals, on every database. */
  lemma ActiveCountIsOpen(db: Db) returns (ids: seq<nat>)
    ensures forall r :: r in ids <==> r in db.rentals && db.rentals[r].returned.None?
    ensures forall i, j :: 0 <= i < j < |ids| ==> ids[i] < ids[j]
    ensures CountActive(db) == |ids|
  {
    ids := Ascending(ActiveIds(db));
  }

  /** A listing changes nothing and replies with exactly the live cars of the wanted status, by increasing id. */
  lemma ListOutcome(db: Db, filter: Option<CarStatus>, newId: nat)
    ensures var e := Exec(ListCars(filter), db, newId);
            && e.db == db && e.event == None && e.result.Ok? && e.result.value.CarList?
            && var rows := e.result.value.rows;
               && (forall i, j :: 0 <= i < j < |rows| ==> rows[i].0 < rows[j].0)
               && (forall p :: p in rows <==>
                     && p.0 in db.cars && p.1 == db.cars[p.0] && !p.1.retired
                     && (filter.Some? ==> p.1.status == filter.value))
  {
    ListIsMatching(db, filter);
  }

  // ----- event replay ---------------------------------------------------------------------

  /** What a subscriber keeps: the cars in the fleet and the open (rental, car) pairs. */
  datatype Mirror = Mirror(live: set<nat>, open: set<(nat, nat)>)

  function Absorb(m: Mirror, e: Event): Mirror {
    match e
    case CarAdded(c) => m.(live := m.live + {c})
    case CarDeleted(c) => m.(live := m.live - {c})
    case RentalStarted(r, c) => m.(open := m.open + {(r, c)})
    case RentalEnded(r, c) => m.(open := m.open - {(r, c)})
    case CarUpdated(_, _) => m
  }

  ghost function Fold(m: Mirror, events: seq<Event>): Mirror {
    if |events| == 0 then m
    else Absorb(Fold(m, events[..|events| - 1]), events[|events| - 1])
  }

  ghost function EventsOf(log: seq<Entry>): seq<Event> {
    if |log| == 0 then []
    else EventsOf(log[..|log| - 1]) + Announcing(log[|log| - 1].event)
  }

  function MirrorOf(db: Db): Mirror {
    Mirror(set c | c in db.cars && !db.cars[c].retired,
           set r | r in db.rentals && db.rentals[r].IsActive() :: (r, db.rentals[r].carId))
  }

  lemma ExecMovesMirror(op: Op, db: Db, newId: nat)
    requires FreshFor(op, db, newId)
    ensures var e := Exec(op, db, newId);
            MirrorOf(e.db) == if e.event.None? then MirrorOf(db) else Absorb(MirrorOf(db), e.event.value)
  {
    EventIffChange(op, db, newId);
    var e := Exec(op, db, newId);
    if e.event.Some? {
      var want, have := Absorb(MirrorOf(db), e.event.value), MirrorOf(e.db);
      LiveMoves(op, db, newId);
      OpenMoves(op, db, newId);
      assert have.live == want.live && have.open == want.open;
    }
  }

  lemma LiveMoves(op: Op, db: Db, newId: nat)
    requires FreshFor(op, db, newId) && Exec(op, db, newId).event.Some?
    ensures MirrorOf(Exec(op, db, newId).db).live == Absorb(MirrorOf(db), Exec(op, db, newId).event.value).live
  {
  }

  lemma OpenMoves(op: Op, db: Db, newId: nat)
    requires FreshFor(op, db, newId) && Exec(op, db, newId).event.Some?
    ensures MirrorOf(Exec(op, db, newId).db).open == Absorb(MirrorOf(db), Exec(op, db, newId).event.value).open
  {
    var e := Exec(op, db, newId);
    var want, have := Absorb(MirrorOf(db), e.event.value).open, MirrorOf(e.db).open;
    forall r: nat, c: nat ensures (r, c) in have <==> (r, c) in want {
      assert (r, c) in have <==> r in e.db.rentals && ActiveOn(e.db.rentals[r], c);
      assert (r, c) in MirrorOf(db).open <==> r in db.rentals && ActiveOn(db.rentals[r], c);
      match op
      case AddCar(_, _) =>
      case UpdateCar(_, _) =>
      case DeleteCar(_) =>
      case RegisterRental(_, _) =>
      case EndRental(_, _) =>
    }
    assert have == want by {
      forall p | p in have ensures p in want { assert p == (p.0, p.1); }
      forall p | p in want ensures p in have { assert p == (p.0, p.1); }
    }
  }

  /** Folding the recorded events rebuilds the live cars and the open rentals. */
  lemma {:induction false} EventsRebuildTables(init: Db, log: seq<Entry>)
    requires ValidLog(init, log)
    ensures Fold(MirrorOf(init), EventsOf(log)) == MirrorOf(Replay(init, log))
  {
    if |log| == 0 {
    } else {
      var prefix, e := log[..|log| - 1], log[|log| - 1];
      EventsRebuildTables(init, prefix);
      ExecMovesMirror(e.op, Replay(init, prefix), e.newId);
      var events := EventsOf(log);
      if e.event.Some? {
        assert events[..|events| - 1] == EventsOf(prefix) && events[|events| - 1] == e.event.value;
      } else {
        assert events == EventsOf(prefix);
      }
    }
  }

  // ----- status history ----------------------------------------------------------------------

  /** Every change of a committed row between two neighbouring states is one of the legal ones. */
  lemma LegalHistory(init: Db, log: seq<Entry>, k: nat)
    requires Lifecycle(init) && ValidLog(init, log) && k < |log|
    ensures LegalChange(log[k].op, Replay(init, log[..k]), Replay(init, log[..k + 1]))
  {
    PrefixValid(init, log, k);
    LogKeepsLifecycle(init, log[..k]);
    assert log[..k + 1][..k] == log[..k];
    ExecHistory(log[k].op, Replay(init, log[..k]), log[k].newId);
  }

  /** No row disappears; retirement is permanent, an ended rental never changes, an open one only ends. */
  ghost predicate SettledStay(before: Db, after: Db) {
    && (forall c :: c in before.cars ==>
          c in after.cars && (before.cars[c].retired ==> after.cars[c] == before.cars[c]))
    && (forall r :: r in before.rentals ==>
          && r in after.rentals
          && (!before.rentals[r].IsActive() ==> after.rentals[r] == before.rentals[r])
          && after.rentals[r].(returned := None) == before.rentals[r].(returned := None))
  }

  lemma StillSettled(op: Op, before: Db, between: Db, after: Db)
    requires SettledStay(before, between) && LegalChange(op, between, after)
    ensures SettledStay(before, after)
  {
  }

  lemma {:induction false} SettledRowsStay(init: Db, log: seq<Entry>, k: nat)
    requires Lifecycle(init) && ValidLog(init, log) && k <= |log|
    ensures SettledStay(Replay(init, log[..k]), Replay(init, log))
  {
    if k == |log| {
      assert log[..k] == log;
    } else {
      var n, prefix := |log| - 1, log[..|log| - 1];
      assert prefix[..k] == log[..k] && log[..n + 1] == log;
      SettledRowsStay(init, prefix, k);
      LegalHistory(init, log, n);
      StillSettled(log[n].op, Replay(init, log[..k]), Replay(init, prefix), Replay(init, log));
    }
  }

  // ----- non-overlap -----------------------------------------------------------------------------

  predicate Registered(e: Entry) {
    e.op.RegisterRental? && e.result.Ok?
  }

  predicate Ended(e: Entry, r: nat) {
    e.op.EndRental? && e.op.rentalId == r && e.result.Ok?
  }

  /** Rentals of one car, in the order they were registered, do not overlap; only the last may be open. */
  ghost predicate NonOverlapping(log: seq<Entry>, db: Db) {
    forall i, j :: 0 <= i < j < |log| && Registered(log[i]) && Registered(log[j])
                   && log[i].op.dto.carId == log[j].op.dto.carId
                   ==> log[i].newId in db.rentals && db.rentals[log[i].newId].returned.Some?
                       && db.rentals[log[i].newId].returned.value <= log[j].op.dto.startDate
  }

  /** No car is registered with an earlier `today` than one at which an earlier rental of it was ended. */
  ghost predicate ClockOrdered(log: seq<Entry>) {
    forall i, k, j :: 0 <= i < k < j < |log| && Registered(log[i]) && Ended(log[k], log[i].newId)
                      && Registered(log[j]) && log[j].op.dto.carId == log[i].op.dto.carId
                      ==> log[k].op.today <= log[j].op.today
  }

  /** The row a registration inserted, later on: only its return date can have been set. */
  lemma RegistrationStays(init: Db, log: seq<Entry>, i: nat)
    requires Lifecycle(init) && ValidLog(init, log) && i < |log| && Registered(log[i])
    ensures var db, r := Replay(init, log), log[i].newId;
            r in db.rentals && db.rentals[r].(returned := None) == NewRental(log[i].op.dto)
    ensures log[i].op.dto.startDate == log[i].op.today
  {
    PrefixValid(init, log, i);
    assert log[..i + 1][..i] == log[..i];
    assert log[i].newId in Replay(init, log[..i + 1]).rentals;
    SettledRowsStay(init, log, i + 1);
  }

  lemma EndStays(init: Db, log: seq<Entry>, k: nat, r: nat)
    requires Lifecycle(init) && ValidLog(init, log) && k < |log| && Ended(log[k], r)
    ensures var db := Replay(init, log); r in db.rentals && db.rentals[r].returned == Some(log[k].op.today)
    ensures var db := Replay(init, log[..k]); r in db.rentals && db.rentals[r].IsActive()
  {
    PrefixValid(init, log, k);
    assert log[..k + 1][..k] == log[..k];
    SettledRowsStay(init, log, k + 1);
  }

  lemma ClosedByEnd(init: Db, log: seq<Entry>, r: nat)
    requires Lifecycle(init) && ValidLog(init, log) && |log| > 0
    requires var before, after := Replay(init, log[..|log| - 1]), Replay(init, log);
             && r in before.rentals && before.rentals[r].IsActive()
             && r in after.rentals && !after.rentals[r].IsActive()
    ensures Ended(log[|log| - 1], r)
  {
  }

  /** A rental that is closed after a stretch of history in which it was open was ended in that stretch. */
  lemma {:induction false} ClosedWithin(init: Db, log: seq<Entry>, i: nat, r: nat) returns (k: nat)
    requires Lifecycle(init) && ValidLog(init, log) && i <= |log|
    requires r in Replay(init, log[..i]).rentals && Replay(init, log[..i]).rentals[r].IsActive()
    requires r in Replay(init, log).rentals && !Replay(init, log).rentals[r].IsActive()
    ensures i <= k < |log| && Ended(log[k], r)
  {
    assert log[..|log|] == log;
    var n, prefix := |log| - 1, log[..|log| - 1];
    assert prefix[..i] == log[..i];
    SettledRowsStay(init, prefix, i);
    if Replay(init, prefix).rentals[r].IsActive() {
      ClosedByEnd(init, log, r);
      k := n;
    } else {
      k := ClosedWithin(init, prefix, i, r);
    }
  }

  lemma RegistrationOpens(init: Db, log: seq<Entry>, i: nat)
    requires ValidLog(init, log) && i < |log| && Registered(log[i])
    ensures var db := Replay(init, log[..i + 1]); log[i].newId in db.rentals && db.rentals[log[i].newId].IsActive()
  {
    PrefixValid(init, log, i);
    assert log[..i + 1][..i] == log[..i];
  }

  /** A registration succeeds only once the earlier rental of its car is closed. */
  lemma ClosedBefore(init: Db, log: seq<Entry>, i: nat, j: nat)
    requires Lifecycle(init) && ValidLog(init, log) && i < j < |log| && Registered(log[i]) && Registered(log[j])
    requires log[i].op.dto.carId == log[j].op.dto.carId
    ensures var db := Replay(init, log[..j]); log[i].newId in db.rentals && !db.rentals[log[i].newId].IsActive()
  {
    PrefixValid(init, log, j);
    assert log[..j][i] == log[i];
    RegistrationStays(init, log[..j], i);
    var db, c := Replay(init, log[..j]), log[j].op.dto.carId;
    assert !HasActive(db, c);
    assert !ActiveOn(db.rentals[log[i].newId], c);
  }

  /** Between two registrations of one car the first of them is ended: commit-time disjointness, whatever the clock. */
  lemma EndedBetween(init: Db, log: seq<Entry>, i: nat, j: nat) returns (k: nat)
    requires Lifecycle(init) && ValidLog(init, log) && i < j < |log| && Registered(log[i]) && Registered(log[j])
    requires log[i].op.dto.carId == log[j].op.dto.carId
    ensures i < k < j && Ended(log[k], log[i].newId)
  {
    var before := log[..j];
    ClosedBefore(init, log, i, j);
    RegistrationOpens(init, log, i);
    PrefixValid(init, log, j);
    assert before[..i + 1] == log[..i + 1];
    k := ClosedWithin(init, before, i + 1, log[i].newId);
    assert before[k] == log[k];
  }

  /**
    Recorded periods of one car never overlap if and only if the captured days respect the order
    in which the operations took effect.
    */
  lemma NonOverlapIffClockOrdered(init: Db, log: seq<Entry>)
    requires Lifecycle(init) && ValidLog(init, log)
    ensures NonOverlapping(log, Replay(init, log)) <==> ClockOrdered(log)
  {
    var db := Replay(init, log);
    if ClockOrdered(log) {
      forall i, j | 0 <= i < j < |log| && Registered(log[i]) && Registered(log[j])
                    && log[i].op.dto.carId == log[j].op.dto.carId
        ensures log[i].newId in db.rentals && db.rentals[log[i].newId].returned.Some?
                && db.rentals[log[i].newId].returned.value <= log[j].op.dto.startDate
      {
        var k := EndedBetween(init, log, i, j);
        EndStays(init, log, k, log[i].newId);
        RegistrationStays(init, log, j);
      }
    }
    if NonOverlapping(log, db) {
      forall i, k, j | 0 <= i < k < j < |log| && Registered(log[i]) && Ended(log[k], log[i].newId)
                       && Registered(log[j]) && log[j].op.dto.carId == log[i].op.dto.carId
        ensures log[k].op.today <= log[j].op.today
      {
        EndStays(init, log, k, log[i].newId);
        RegistrationStays(init, log, j);
      }
    }
  }

  /** No rental of the car has been returned later than `today`; a registration could test this under its lock. */
  predicate NoLaterReturn(db: Db, c: nat, today: int) {
    forall r :: r in db.rentals && db.rentals[r].carId == c && db.rentals[r].returned.Some? ==>
      db.rentals[r].returned.value <= today
  }

  /** Every registration of the history would have passed that test on the tables it found. */
  ghost predicate ReturnsRespected(init: Db, log: seq<Entry>) {
    forall j :: 0 <= j < |log| && Registered(log[j]) ==>
      NoLaterReturn(Replay(init, log[..j]), log[j].op.dto.carId, log[j].op.today)
  }

  /** Every rental that was not there from the start was registered. */
  lemma {:induction false} OriginOf(init: Db, log: seq<Entry>, r: nat) returns (i: nat)
    requires ValidLog(init, log) && r in Replay(init, log).rentals && r !in init.rentals
    ensures i < |log| && Registered(log[i]) && log[i].newId == r
  {
    var n, prefix := |log| - 1, log[..|log| - 1];
    if r in Replay(init, prefix).rentals {
      i := OriginOf(init, prefix, r);
    } else {
      RentalHistory(log[n].op, Replay(init, prefix), log[n].newId, r);
      i := n;
    }
  }

  /** A rental returned before a registration of its car was returned no later than that registration's start. */
  lemma ReturnPrecedes(init: Db, log: seq<Entry>, j: nat, r: nat)
    requires Lifecycle(init) && init.rentals == map[] && ValidLog(init, log) && j < |log| && Registered(log[j])
    requires NonOverlapping(log, Replay(init, log))
    requires var db := Replay(init, log[..j]);
             r in db.rentals && db.rentals[r].carId == log[j].op.dto.carId && db.rentals[r].returned.Some?
    ensures Replay(init, log[..j]).rentals[r].returned.value <= log[j].op.today
  {
    PrefixValid(init, log, j);
    var i := OriginOf(init, log[..j], r);
    assert log[..j][i] == log[i];
    RegistrationStays(init, log[..j], i);
    RegistrationStays(init, log, j);
    SettledRowsStay(init, log, j);
  }

  /** If the later of two registrations passed the test, the earlier rental ended before the later one starts. */
  lemma TestSeparates(init: Db, log: seq<Entry>, i: nat, j: nat)
    requires Lifecycle(init) && ValidLog(init, log) && i < j < |log| && Registered(log[i]) && Registered(log[j])
    requires log[i].op.dto.carId == log[j].op.dto.carId
    requires NoLaterReturn(Replay(init, log[..j]), log[j].op.dto.carId, log[j].op.today)
    ensures var db, r := Replay(init, log), log[i].newId;
            r in db.rentals && db.rentals[r].returned.Some? && db.rentals[r].returned.value <= log[j].op.dto.startDate
  {
    PrefixValid(init, log, j);
    var k := EndedBetween(init, log, i, j);
    assert log[..j][i] == log[i] && log[..j][k] == log[k];
    RegistrationStays(init, log[..j], i);
    EndStays(init, log[..j], k, log[i].newId);
    RegistrationStays(init, log, j);
    SettledRowsStay(init, log, j);
  }

  /**
    Recorded periods of one car never overlap if and only if every registration found no return of
    its car later than its own day.
    */
  lemma NonOverlapIffReturnsRespected(init: Db, log: seq<Entry>)
    requires Lifecycle(init) && init.rentals == map[] && ValidLog(init, log)
    ensures NonOverlapping(log, Replay(init, log)) <==> ReturnsRespected(init, log)
  {
    if NonOverlapping(log, Replay(init, log)) {
      forall j | 0 <= j < |log| && Registered(log[j])
        ensures NoLaterReturn(Replay(init, log[..j]), log[j].op.dto.carId, log[j].op.today)
      {
        var db := Replay(init, log[..j]);
        forall r | r in db.rentals && db.rentals[r].carId == log[j].op.dto.carId && db.rentals[r].returned.Some?
          ensures db.rentals[r].returned.value <= log[j].op.today
        {
          ReturnPrecedes(init, log, j, r);
        }
      }
    }
    if ReturnsRespected(init, log) {
      forall i, j | 0 <= i < j < |log| && Registered(log[i]) && Registered(log[j])
                    && log[i].op.dto.carId == log[j].op.dto.carId
        ensures log[i].newId in Replay(init, log).rentals
        ensures Replay(init, log).rentals[log[i].newId].returned.Some?
        ensures Replay(init, log).rentals[log[i].newId].returned.value <= log[j].op.dto.startDate
      {
        TestSeparates(init, log, i, j);
      }
    }
  }

  function Today(op: Op): Option<int> {
    match op
    case RegisterRental(_, today) => Some(today)
    case EndRental(_, today) => Some(today)
    case _ => None
  }

  /** With calls made one after the other and a clock that never runs backwards, rentals do not overlap. */
  lemma SequentialRunsDoNotOverlap(init: Db, log: seq<Entry>)
    requires Lifecycle(init) && ValidLog(init, log)
    requires forall i, j :: 0 <= i < j < |log| && Today(log[i].op).Some? && Today(log[j].op).Some?
                            ==> Today(log[i].op).value <= Today(log[j].op).value
    ensures NonOverlapping(log, Replay(init, log))
  {
    assert ClockOrdered(log) by {
      forall i, k, j | 0 <= i < k < j < |log| && Registered(log[i]) && Ended(log[k], log[i].newId)
                       && Registered(log[j]) && log[j].op.dto.carId == log[i].op.dto.carId
        ensures log[k].op.today <= log[j].op.today
      {
        assert Today(log[k].op) == Some(log[k].op.today) && Today(log[j].op) == Some(log[j].op.today);
      }
    }
    NonOverlapIffClockOrdered(init, log);
  }
}
