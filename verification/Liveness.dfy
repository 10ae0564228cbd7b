/** Waiting and termination: no deadlock, no contended second lock, bounded schedules. */
module Liveness {
  import opened Domain
  import opened Atomic
  import opened Protocol
  import opened Invariant
  import opened Preservation

  // ----- deadlock -----------------------------------------------------------------------

  /** A call past its car lock owns the row it was about. */
  lemma PastTheLock(s: Sys, t: nat)
    requires Own(s, t) && !Idle(s.txs[t].pc) && NeedsCarRow(s.txs[t])
    ensures TargetCar(s.txs[t]).Some? && OwnsCar(s, t, TargetCar(s.txs[t]).value)
  {
  }

  /** The owner of a rental row owns its car's row, and so does everybody who asks for it. */
  lemma RentalUncontended(s: Sys, t: nat, u: nat)
    requires Own(s, t) && Own(s, u) && t != u
    ensures !WaitsForRental(s, t, u)
  {
    var tx := s.txs[t];
    if tx.op.EndRental? && NeedsRentalRow(tx, tx.op.rentalId) {
      assert OwnsCar(s, t, s.db.rentals[tx.op.rentalId].carId);
      assert CarBeforeRental(s, u);
    }
  }

  lemma IndexUncontended(s: Sys, t: nat, u: nat)
    requires Own(s, t) && Own(s, u) && t != u
    ensures !WaitsForIndex(s, t, u)
  {
  }

  /**
    Only a call that holds no lock ever waits, and only for a car row. The rental lock, the
    index of open rentals and the row updates never wait.
    */
  lemma OnlyTheFirstLockWaits(s: Sys, t: nat, u: nat)
    requires Inv(s) && WaitsFor(s, t, u)
    ensures WaitsForCar(s, t, u) && !WaitsForRental(s, t, u) && !WaitsForIndex(s, t, u)
    ensures s.txs[t].pc.Start? || s.txs[t].pc.RentalSeen?
    ensures OwnsNothing(s, t) && s.txs[t].writes == EMPTY
    ensures !Idle(s.txs[u].pc)
  {
    assert TxInv(s, t) && TxInv(s, u);
    RentalUncontended(s, t, u);
    IndexUncontended(s, t, u);
    if !Idle(s.txs[t].pc) {
      PastTheLock(s, t);
    }
  }

  /** The car row whose lock the call asks for next, if its next statement is a `FOR UPDATE` on a car. */
  predicate AsksFor(s: Sys, tx: Tx, c: nat) {
    match tx.op
    case UpdateCar(id, _) => tx.pc.Start? && c == id
    case DeleteCar(id) => tx.pc.Start? && c == id
    case RegisterRental(dto, today) => tx.pc.Start? && dto.startDate == today && c == dto.carId
    case EndRental(r, _) => tx.pc.RentalSeen? && r in s.db.rentals && c == s.db.rentals[r].carId
    case AddCar(_, _) => false
    case ListCars(_) => false
  }

  /** A call waits for another exactly when it asks for a live car row which that call has locked. */
  lemma WaitsExactlyForALockedCar(init: Db, s: Sys, t: nat, u: nat)
    requires Reachable(init, s) && t < |s.txs| && u < |s.txs| && t != u
    ensures WaitsFor(s, t, u) <==> exists c: nat :: AsksFor(s, s.txs[t], c) && IsLive(s.db, c) && OwnsCar(s, u, c)
  {
    ReachableInv(init, s);
    WaiterAsks(s, t, u);
  }

  lemma WaiterAsks(s: Sys, t: nat, u: nat)
    requires Inv(s) && t < |s.txs| && u < |s.txs| && t != u
    ensures WaitsFor(s, t, u) <==> exists c: nat :: AsksFor(s, s.txs[t], c) && IsLive(s.db, c) && OwnsCar(s, u, c)
  {
    assert TxInv(s, t);
    OverlayEmpty(s.db);
    var tx := s.txs[t];
    if WaitsFor(s, t, u) {
      OnlyTheFirstLockWaits(s, t, u);
      assert AsksFor(s, tx, TargetCar(tx).value);
    }
    if c: nat :| AsksFor(s, tx, c) && IsLive(s.db, c) && OwnsCar(s, u, c) {
      assert WaitsForCar(s, t, u);
    }
  }

  /** A call somebody waits for is not waiting itself. */
  lemma NoWaitChain(s: Sys, t: nat, u: nat, v: nat)
    requires Inv(s) && WaitsFor(s, t, u)
    ensures !WaitsFor(s, u, v)
  {
    OnlyTheFirstLockWaits(s, t, u);
    if WaitsFor(s, u, v) {
      OnlyTheFirstLockWaits(s, u, v);
    }
  }

  /** A walk through the wait-for graph. */
  ghost predicate WaitPath(s: Sys, path: seq<nat>) {
    forall i :: 0 <= i < |path| - 1 ==> WaitsFor(s, path[i], path[i + 1])
  }

  /** The wait-for graph has no cycle in any reachable state. */
  lemma NoDeadlock(init: Db, s: Sys, path: seq<nat>)
    requires Reachable(init, s) && |path| >= 2 && WaitPath(s, path)
    ensures path[0] != path[|path| - 1]
    ensures |path| == 2
  {
    ReachableInv(init, s);
    if |path| > 2 {
      assert WaitsFor(s, path[0], path[0 + 1]) && WaitsFor(s, path[1], path[1 + 1]);
      NoWaitChain(s, path[0], path[1], path[2]);
    } else {
      assert WaitsFor(s, path[0], path[0 + 1]);
    }
  }

  // ----- progress -------------------------------------------------------------------------

  lemma {:induction false} UnusedId(ids: set<nat>) returns (n: nat)
    ensures forall k :: k in ids ==> k < n
    decreases |ids|
  {
    if ids == {} {
      n := 0;
    } else {
      var k :| k in ids;
      var m := UnusedId(ids - {k});
      n := if k < m then m else k + 1;
      forall j | j in ids ensures j < n { if j != k { assert j in ids - {k}; } }
    }
  }

  lemma FactsGiveShape(s: Sys, t: nat)
    requires Own(s, t)
    ensures Shape(s.txs[t])
  {
  }

  lemma FreshId(s: Sys) returns (id: nat)
    ensures id !in s.carIds && id !in s.rentalIds
  {
    id := UnusedId(s.carIds.Keys + s.rentalIds.Keys);
    assert id !in s.carIds.Keys + s.rentalIds.Keys;
  }

  lemma UnblockedCanStep(s: Sys, t: nat, id: nat)
    requires Inv(s) && t < |s.txs| && !s.txs[t].pc.Done? && !Blocked(s, t) && IdUnused(s, s.txs[t], id)
    ensures Enabled(s, Move(t, Step(id)))
  {
    assert TxInv(s, t);
    FactsGiveShape(s, t);
  }

  /** As long as some call is unfinished, some call can take its next step. */
  lemma SomeoneCanStep(init: Db, s: Sys, t: nat) returns (m: Move)
    requires Reachable(init, s) && t < |s.txs| && !s.txs[t].pc.Done?
    ensures m.action.Step? && Enabled(s, m)
  {
    ReachableInv(init, s);
    var id := FreshId(s);
    if Blocked(s, t) {
      var u: nat :| u < |s.txs| && WaitsFor(s, t, u);
      OnlyTheFirstLockWaits(s, t, u);
      forall v: nat | v < |s.txs| ensures !WaitsFor(s, u, v) { NoWaitChain(s, t, u, v); }
      UnblockedCanStep(s, u, id);
      m := Move(u, Step(id));
    } else {
      UnblockedCanStep(s, t, id);
      m := Move(t, Step(id));
    }
  }

  /** An upper bound on the steps a call still has to take. */
  function Rank(pc: Pc): nat {
    match pc
    case Start => 8
    case RentalSeen => 7
    case CarLocked => 6
    case NoActive => 5
    case RentalAdded => 4
    case RentalLocked => 4
    case RentalFlushed => 3
    case Ready => 2
    case RollingBack(_) => 1
    case Publishing(_, _) => 1
    case Done(_) => 0
  }

  ghost function Work(txs: seq<Tx>): nat {
    if |txs| == 0 then 0 else Work(txs[..|txs| - 1]) + Rank(txs[|txs| - 1].pc)
  }

  lemma {:induction false} WorkUpdate(txs: seq<Tx>, t: nat, tx: Tx)
    requires t < |txs|
    ensures Work(txs[t := tx]) + Rank(txs[t].pc) == Work(txs) + Rank(tx.pc)
  {
    var n := |txs| - 1;
    if t == n {
      assert txs[t := tx][..n] == txs[..n];
    } else {
      assert txs[t := tx][..n] == txs[..n][t := tx];
      WorkUpdate(txs[..n], t, tx);
    }
  }

  /** Only call `t` moves, and it moves towards its end. */
  ghost predicate Lowers(s: Sys, s': Sys, t: nat)
    requires t < |s.txs|
  {
    && |s'.txs| == |s.txs| && s'.txs == s.txs[t := s'.txs[t]]
    && Rank(s'.txs[t].pc) < Rank(s.txs[t].pc)
  }

  lemma RaiseLowers(s: Sys, s0: Sys, t: nat, e: DomainError)
    requires t < |s.txs| && |s0.txs| == |s.txs| && s0.txs == s.txs[t := s0.txs[t]] && Rank(s.txs[t].pc) > 1
    ensures Lowers(s, Raise(s0, t, e), t)
  {
  }

  lemma FlushLowers(s: Sys, s0: Sys, t: nat, tx: Tx)
    requires t < |s.txs| && s0.txs == s.txs && Rank(s.txs[t].pc) > 1 && Rank(tx.pc) < Rank(s.txs[t].pc)
    ensures Lowers(s, Flush(s0, t, tx), t)
  {
  }

  lemma LockCarLowers(s: Sys, t: nat, c: nat)
    requires t < |s.txs| && Rank(s.txs[t].pc) > 6
    ensures Lowers(s, LockCar(s, t, c), t)
  {
    if IsLive(View(s, t), c) {
      var car := View(s, t).cars[c];
      var tx := s.txs[t].(session := PutCar(s.txs[t].session, c, car));
      var s0 := SetTx(s.(carLock := s.carLock[c := t]), t, tx);
      var objection := Objection(tx.op, car);
      if objection.Some? { RaiseLowers(s, s0, t, objection.value); }
    }
  }

  lemma LockRentalLowers(s: Sys, t: nat, r: nat, today: int)
    requires t < |s.txs| && s.txs[t].pc.CarLocked?
    ensures Lowers(s, LockRental(s, t, r, today), t)
  {
  }

  lemma AnswerLowers(s: Sys, t: nat, reply: Result)
    requires t < |s.txs| && s.txs[t].pc.Start?
    ensures Lowers(s, Answer(s, t, reply), t)
  {
  }

  lemma ReadRentalLowers(s: Sys, t: nat, r: nat)
    requires t < |s.txs| && s.txs[t].pc.Start?
    ensures Lowers(s, ReadRental(s, t, r), t)
  {
  }

  lemma StartLowers(s: Sys, t: nat, newId: nat)
    requires t < |s.txs| && s.txs[t].pc.Start?
    ensures Lowers(s, AdvanceStart(s, t, newId), t)
  {
    match s.txs[t].op
    case AddCar(model, year) =>
      FlushLowers(s, s.(carIds := s.carIds[newId := Some(t)]), t,
                  Write(s.txs[t], CarOnly(newId, NewCar(model, year))).(newId := newId, pc := Ready));
    case ListCars(filter) => AnswerLowers(s, t, Ok(CarList(ListRows(View(s, t), filter))));
    case UpdateCar(c, _) => LockCarLowers(s, t, c);
    case DeleteCar(c) => LockCarLowers(s, t, c);
    case EndRental(r, _) => ReadRentalLowers(s, t, r);
    case RegisterRental(dto, today) =>
      if dto.startDate != today { AnswerLowers(s, t, Rejected(RentalDate)); } else { LockCarLowers(s, t, dto.carId); }
  }

  lemma CarLockedLowers(s: Sys, t: nat)
    requires t < |s.txs| && s.txs[t].pc.CarLocked? && Shape(s.txs[t])
    ensures Lowers(s, AdvanceCarLocked(s, t), t)
  {
    var tx := s.txs[t];
    match tx.op
    case RegisterRental(_, _) =>
    case DeleteCar(_) =>
    case EndRental(r, today) => LockRentalLowers(s, t, r, today);
    case UpdateCar(c, patch) =>
      FlushLowers(s, s, t, Write(tx, CarOnly(c, Overlaid(tx.session.cars[c], patch))).(pc := Ready));
  }

  lemma NoActiveLowers(s: Sys, t: nat, newId: nat)
    requires t < |s.txs| && s.txs[t].pc.NoActive? && Shape(s.txs[t])
    ensures Lowers(s, AdvanceNoActive(s, t, newId), t)
  {
    var tx := s.txs[t];
    match tx.op
    case RegisterRental(dto, _) =>
      FlushLowers(s, s.(rentalIds := s.rentalIds[newId := Some(t)]), t,
                  Write(tx, RentalOnly(newId, NewRental(dto))).(newId := newId, pc := RentalAdded));
    case DeleteCar(c) =>
      FlushLowers(s, s, t, Write(tx, CarOnly(c, tx.session.cars[c].(retired := true))).(pc := Ready));
  }

  lemma LaterFlushLowers(s: Sys, t: nat)
    requires t < |s.txs| && Shape(s.txs[t])
    requires s.txs[t].pc.RentalAdded? || s.txs[t].pc.RentalLocked? || s.txs[t].pc.RentalFlushed?
    ensures Lowers(s, Advance(s, t, 0), t)
  {
    var tx := s.txs[t];
    match tx.pc
    case RentalAdded =>
      var c := tx.op.dto.carId;
      FlushLowers(s, s, t, Write(tx, CarOnly(c, tx.session.cars[c].(status := InUse))).(pc := Ready));
    case RentalLocked =>
      var r, c := tx.op.rentalId, TargetCar(tx).value;
      var rows := Db(map[c := tx.session.cars[c].(status := Available)],
                     map[r := tx.session.rentals[r].(returned := Some(tx.op.today))]);
      FlushLowers(s, s, t, Write(tx, rows).(pc := RentalFlushed));
    case RentalFlushed =>
      FlushLowers(s, s, t, tx.(pc := Ready));
  }

  lemma CommitLowers(s: Sys, t: nat)
    requires t < |s.txs| && s.txs[t].pc.Ready? && Shape(s.txs[t])
    ensures Lowers(s, Commit(s, t), t)
  {
  }

  lemma RollbackLowers(s: Sys, t: nat, reply: Result)
    requires t < |s.txs| && s.txs[t].pc.RollingBack?
    ensures Lowers(s, Rollback(s, t, reply), t)
  {
  }

  lemma PublishLowers(s: Sys, t: nat)
    requires t < |s.txs| && s.txs[t].pc.Publishing?
    ensures Lowers(s, Publish(s, t), t)
  {
  }

  lemma AdvanceLowers(s: Sys, t: nat, newId: nat)
    requires t < |s.txs| && !s.txs[t].pc.Done? && Shape(s.txs[t])
    ensures Lowers(s, Advance(s, t, newId), t)
  {
    match s.txs[t].pc
    case Start => StartLowers(s, t, newId);
    case RentalSeen => LockCarLowers(s, t, s.txs[t].session.rentals[s.txs[t].op.rentalId].carId);
    case CarLocked => CarLockedLowers(s, t);
    case NoActive => NoActiveLowers(s, t, newId);
    case RentalAdded => LaterFlushLowers(s, t);
    case RentalLocked => LaterFlushLowers(s, t);
    case RentalFlushed => LaterFlushLowers(s, t);
    case Ready => CommitLowers(s, t);
    case RollingBack(why) => RollbackLowers(s, t, why);
    case Publishing(_, _) => PublishLowers(s, t);
  }

  lemma FailLowers(s: Sys, t: nat)
    requires t < |s.txs| && !s.txs[t].pc.Done?
    ensures Lowers(s, Fail(s, t), t)
  {
    match s.txs[t].pc
    case RollingBack(_) => RollbackLowers(s, t, Failed(Fault));
    case Publishing(_, _) => PublishLowers(s, t);
    case _ =>
  }

  lemma NextLowersWork(s: Sys, m: Move)
    requires Enabled(s, m) && !m.action.Invoke?
    ensures Work(Next(s, m).txs) < Work(s.txs) && |Next(s, m).txs| == |s.txs|
  {
    var s' := Next(s, m);
    match m.action {
      case Step(newId) => AdvanceLowers(s, m.tid, newId);
      case Crash => FailLowers(s, m.tid);
    }
    WorkUpdate(s.txs, m.tid, s'.txs[m.tid]);
  }

  /**
    Every schedule is bounded by the number of calls it starts, faults included: one move to
    start a call and at most eight steps of it.
    */
  lemma {:induction false} SchedulesAreBounded(init: Db, sched: seq<Move>)
    requires ValidRun(Init(init), sched)
    ensures var s := Run(Init(init), sched); |sched| + Work(s.txs) <= 9 * |s.txs|
  {
    if |sched| == 0 {
    } else {
      var n := |sched| - 1;
      var s, m := Run(Init(init), sched[..n]), sched[n];
      SchedulesAreBounded(init, sched[..n]);
      if m.action.Invoke? {
        var txs := Next(s, m).txs;
        assert txs[..|txs| - 1] == s.txs;
      } else {
        NextLowersWork(s, m);
      }
    }
  }

  ghost predicate AllDone(s: Sys) {
    forall t: nat :: t < |s.txs| ==> s.txs[t].pc.Done?
  }

  lemma NobodyOwns(s: Sys)
    requires Global(s) && forall t: nat :: t < |s.txs| ==> OwnsNothing(s, t)
    ensures s.carLock == map[] && s.rentalLock == map[]
  {
    forall c: nat ensures c !in s.carLock {
      assert c in s.carLock ==> s.carLock[c] < |s.txs| && OwnsNothing(s, s.carLock[c]);
    }
    forall r: nat ensures r !in s.rentalLock {
      assert r in s.rentalLock ==> s.rentalLock[r] < |s.txs| && OwnsNothing(s, s.rentalLock[r]);
    }
    assert s.carLock.Keys == {};
    assert s.rentalLock.Keys == {};
  }

  /** When all calls are finished, all locks are free. */
  lemma QuietMeansUnlocked(init: Db, s: Sys)
    requires Reachable(init, s) && AllDone(s)
    ensures s.carLock == map[] && s.rentalLock == map[]
  {
    ReachableInv(init, s);
    forall t: nat | t < |s.txs| ensures OwnsNothing(s, t) {
      assert TxInv(s, t);
    }
    NobodyOwns(s);
  }

  /** From every reachable state the calls that are under way can all be brought to their end, leaving no lock. */
  lemma {:induction false} EveryoneCanFinish(init: Db, s: Sys) returns (s': Sys)
    requires Reachable(init, s)
    ensures Reaches(s, s') && AllDone(s') && |s'.txs| == |s.txs|
    ensures s'.carLock == map[] && s'.rentalLock == map[]
    decreases Work(s.txs)
  {
    if AllDone(s) {
      s' := s;
      ReachesItself(s);
      QuietMeansUnlocked(init, s);
    } else {
      var t: nat :| t < |s.txs| && !s.txs[t].pc.Done?;
      var m := SomeoneCanStep(init, s, t);
      StepReaches(s, m);
      NextLowersWork(s, m);
      StaysReachable(init, s, Next(s, m));
      s' := EveryoneCanFinish(init, Next(s, m));
      ReachesFurther(s, Next(s, m), s');
    }
  }
}
