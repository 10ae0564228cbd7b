/** Every step of every call, faults included, preserves the invariant. */
module Preservation {
  import opened Domain
  import opened Atomic
  import opened AtomicLaws
  import opened Protocol
  import opened Invariant
  import opened Footprint

  /** One call in an arbitrary state: what its own steps may use. */
  ghost predicate Own(s: Sys, t: nat) {
    t < |s.txs| && Global(s) && TxInv(s, t)
  }

  // ----- taking the car lock ------------------------------------------------------------

  /** A call that needs a car row somebody has locked is blocked. */
  lemma CarRowFree(s: Sys, t: nat, c: nat)
    requires Own(s, t) && Idle(s.txs[t].pc)
    requires NeedsCarRow(s.txs[t]) && TargetCar(s.txs[t]) == Some(c) && IsLive(View(s, t), c)
    ensures c in s.carLock ==> Blocked(s, t)
  {
    if c in s.carLock {
      var u := s.carLock[c];
      assert u != t;
      assert WaitsForCar(s, t, u);
      assert WaitsFor(s, t, u);
    }
  }

  lemma LockCarStep(s: Sys, t: nat, c: nat)
    requires Own(s, t) && !Blocked(s, t)
    requires s.txs[t].pc.Start? || s.txs[t].pc.RentalSeen?
    requires NeedsCarRow(s.txs[t]) && TargetCar(s.txs[t]) == Some(c)
    ensures GoodStep(s, LockCar(s, t, c), t)
  {
    OverlayEmpty(s.db);
    var s' := LockCar(s, t, c);
    if IsLive(View(s, t), c) {
      CarRowFree(s, t, c);
      LockedCarShape(s, t, c);
      LockedCarFacts(s, t, c);
      GrantCarStep(s, s', t, c);
    } else {
      QuietStep(s, s', t);
    }
  }

  ghost predicate AtCarLock(s: Sys, t: nat, c: nat) {
    && t < |s.txs| && s.txs[t].writes == EMPTY && IsLive(s.db, c) && View(s, t) == s.db
    && TargetCar(s.txs[t]) == Some(c)
  }

  lemma LockedCarShape(s: Sys, t: nat, c: nat)
    requires AtCarLock(s, t, c)
    ensures var s' := LockCar(s, t, c);
            && OnlyTx(s, s', t) && s'.db == s.db && SameIds(s, s')
            && s'.carLock == s.carLock[c := t] && s'.rentalLock == s.rentalLock
            && s'.txs[t].session == PutCar(s.txs[t].session, c, s.db.cars[c])
            && s'.txs[t].writes == EMPTY && !Idle(s'.txs[t].pc)
  {
  }

  lemma LockedCarFacts(s: Sys, t: nat, c: nat)
    requires AtCarLock(s, t, c) && WellFormed(s.txs[t].op) && StartsToday(s.txs[t].op)
    requires s.txs[t].pc.Start? || s.txs[t].pc.RentalSeen?
    requires PcFacts(s, t)
    ensures var s' := LockCar(s, t, c); |s'.txs| == |s.txs| && PcFacts(s', t)
  {
    LockedCarShape(s, t, c);
    var s' := LockCar(s, t, c);
    var car := s.db.cars[c];
    if Objection(s.txs[t].op, car).None? {
      assert Held(s', t, c);
      match s.txs[t].op
      case RegisterRental(_, _) =>
      case UpdateCar(_, patch) => assert s'.txs[t].actual == {} ==> !Illegal(car, patch);
      case DeleteCar(_) =>
      case EndRental(_, _) =>
    }
  }

  // ----- the steps in order ---------------------------------------------------------------

  lemma ReadRentalStep(s: Sys, t: nat)
    requires Own(s, t) && s.txs[t].pc.Start? && s.txs[t].op.EndRental?
    ensures GoodStep(s, ReadRental(s, t, s.txs[t].op.rentalId), t)
  {
    OverlayEmpty(s.db);
    QuietStep(s, ReadRental(s, t, s.txs[t].op.rentalId), t);
  }

  lemma InsertCarStep(s: Sys, t: nat, newId: nat)
    requires Own(s, t) && s.txs[t].pc.Start? && s.txs[t].op.AddCar? && newId !in s.carIds
    ensures GoodStep(s, InsertCar(s, t, newId, NewCar(s.txs[t].op.model, s.txs[t].op.year)), t)
  {
    var car := NewCar(s.txs[t].op.model, s.txs[t].op.year);
    var rows := CarOnly(newId, car);
    OverlayEmpty(rows);
    assert Overlay(s.db, rows) == PutCar(s.db, newId, car);
    ExecKeepsSchema(s.txs[t].op, s.db, newId);
    InsertCarFacts(s, t, newId);
    FlushStep(s, InsertCar(s, t, newId, car), t, rows);
  }

  lemma InsertCarFacts(s: Sys, t: nat, newId: nat)
    requires t < |s.txs| && s.txs[t].pc.Start? && s.txs[t].op.AddCar? && s.txs[t].writes == EMPTY
    requires newId !in s.db.cars && newId !in s.carIds
    requires var rows := CarOnly(newId, NewCar(s.txs[t].op.model, s.txs[t].op.year));
             Overlay(EMPTY, rows) == rows && Schema(Overlay(s.db, rows))
    ensures var car := NewCar(s.txs[t].op.model, s.txs[t].op.year);
            var s' := InsertCar(s, t, newId, car);
            && Flushes(s, s', t, CarOnly(newId, car)) && Covered(s, s', t, CarOnly(newId, car))
            && !Idle(s'.txs[t].pc) && PcFacts(s', t)
  {
  }

  lemma AnswerStep(s: Sys, t: nat, reply: Result)
    requires Own(s, t) && s.txs[t].pc.Start? && !reply.Failed?
    ensures GoodStep(s, Answer(s, t, reply), t)
  {
    QuietStep(s, Answer(s, t, reply), t);
  }

  lemma StartStep(s: Sys, t: nat, newId: nat)
    requires Own(s, t) && s.txs[t].pc.Start? && !Blocked(s, t) && IdUnused(s, s.txs[t], newId)
    ensures GoodStep(s, AdvanceStart(s, t, newId), t)
  {
    match s.txs[t].op
    case AddCar(_, _) => InsertCarStep(s, t, newId);
    case ListCars(filter) => AnswerStep(s, t, Ok(CarList(ListRows(View(s, t), filter))));
    case UpdateCar(c, _) => LockCarStep(s, t, c);
    case DeleteCar(c) => LockCarStep(s, t, c);
    case EndRental(_, _) => ReadRentalStep(s, t);
    case RegisterRental(dto, today) =>
      if dto.startDate != today { AnswerStep(s, t, Rejected(RentalDate)); } else { LockCarStep(s, t, dto.carId); }
  }

  lemma CheckNoActiveStep(s: Sys, t: nat, c: nat, e: DomainError)
    requires Own(s, t) && s.txs[t].pc.CarLocked?
    requires (s.txs[t].op.RegisterRental? || s.txs[t].op.DeleteCar?) && TargetCar(s.txs[t]) == Some(c)
    ensures GoodStep(s, CheckNoActive(s, t, c, e), t)
  {
    OverlayEmpty(s.db);
    CheckNoActiveFacts(s, t, c, e);
    QuietStep(s, CheckNoActive(s, t, c, e), t);
  }

  lemma CheckNoActiveFacts(s: Sys, t: nat, c: nat, e: DomainError)
    requires t < |s.txs| && s.txs[t].pc.CarLocked? && PcFacts(s, t) && View(s, t) == s.db
    requires (s.txs[t].op.RegisterRental? || s.txs[t].op.DeleteCar?) && TargetCar(s.txs[t]) == Some(c)
    ensures var s' := CheckNoActive(s, t, c, e); |s'.txs| == |s.txs| && PcFacts(s', t)
  {
  }

  lemma UpdateFlushStep(s: Sys, t: nat)
    requires Own(s, t) && s.txs[t].pc.CarLocked? && s.txs[t].op.UpdateCar? && Shape(s.txs[t])
    ensures GoodStep(s, AdvanceCarLocked(s, t), t)
  {
    var c := s.txs[t].op.carId;
    var rows := CarOnly(c, Overlaid(s.db.cars[c], s.txs[t].op.patch));
    OverlayEmpty(rows);
    assert Overlay(s.db, rows) == PutCar(s.db, c, rows.cars[c]);
    ExecKeepsSchema(s.txs[t].op, s.db, 0);
    UpdateFlushFacts(s, t);
    FlushStep(s, AdvanceCarLocked(s, t), t, rows);
  }

  lemma UpdateFlushFacts(s: Sys, t: nat)
    requires t < |s.txs| && PcFacts(s, t) && s.txs[t].pc.CarLocked? && s.txs[t].op.UpdateCar? && Shape(s.txs[t])
    requires var rows := CarOnly(s.txs[t].op.carId, Overlaid(s.db.cars[s.txs[t].op.carId], s.txs[t].op.patch));
             Overlay(EMPTY, rows) == rows && Schema(Overlay(s.db, rows))
    ensures var rows := CarOnly(s.txs[t].op.carId, Overlaid(s.db.cars[s.txs[t].op.carId], s.txs[t].op.patch));
            var s' := AdvanceCarLocked(s, t);
            Flushes(s, s', t, rows) && Covered(s, s', t, rows) && !Idle(s'.txs[t].pc) && PcFacts(s', t)
  {
  }

  lemma RentalRowFree(s: Sys, t: nat)
    requires Own(s, t) && s.txs[t].op.EndRental? && s.txs[t].pc.CarLocked?
    ensures var r := s.txs[t].op.rentalId; r in s.rentalLock && s.rentalLock[r] != t ==> Blocked(s, t)
  {
    var r := s.txs[t].op.rentalId;
    if r in s.rentalLock && s.rentalLock[r] != t {
      assert WaitsForRental(s, t, s.rentalLock[r]);
      assert WaitsFor(s, t, s.rentalLock[r]);
    }
  }

  lemma LockRentalStep(s: Sys, t: nat)
    requires Own(s, t) && s.txs[t].pc.CarLocked? && s.txs[t].op.EndRental? && !Blocked(s, t)
    ensures GoodStep(s, LockRental(s, t, s.txs[t].op.rentalId, s.txs[t].op.today), t)
  {
    OverlayEmpty(s.db);
    RentalRowFree(s, t);
    var tx, r := s.txs[t], s.txs[t].op.rentalId;
    var rental := s.db.rentals[r];
    var tx' := tx.(session := PutRental(tx.session, r, rental));
    var s' := LockRental(s, t, r, tx.op.today);
    if !rental.IsActive() {
      GrantedRentalStep(s, s', t, tx'.(pc := RollingBack(Rejected(RentalAlreadyEnded))));
    } else if tx.op.today < rental.startDate {
      GrantedRentalStep(s, s', t, tx'.(pc := RollingBack(Rejected(RentalDate))));
    } else {
      GrantedRentalStep(s, s', t, tx'.(pc := RentalLocked));
    }
  }

  /** The three ways to go on once the rental row is granted. */
  lemma GrantedRentalStep(s: Sys, s': Sys, t: nat, tx: Tx)
    requires Own(s, t) && s.txs[t].pc.CarLocked? && s.txs[t].op.EndRental?
    requires s'.txs == s.txs[t := tx] && s'.db == s.db && SameIds(s, s')
    requires var r := s.txs[t].op.rentalId;
             && r in s.db.rentals && (r in s.rentalLock ==> s.rentalLock[r] == t)
             && s'.carLock == s.carLock && s'.rentalLock == s.rentalLock[r := t]
             && tx.session == PutRental(s.txs[t].session, r, s.db.rentals[r])
    requires tx == s.txs[t].(session := tx.session, pc := tx.pc)
    requires || (tx.pc.RollingBack? && tx.pc.why.Rejected?)
             || (tx.pc.RentalLocked? && var rental := s.db.rentals[tx.op.rentalId];
                                        rental.IsActive() && rental.startDate <= tx.op.today)
    ensures GoodStep(s, s', t)
  {
    GrantRentalStep(s, s', t, s.txs[t].op.rentalId);
  }

  lemma SoftDeleteStep(s: Sys, t: nat)
    requires Own(s, t) && s.txs[t].pc.NoActive? && s.txs[t].op.DeleteCar? && Shape(s.txs[t])
    ensures GoodStep(s, AdvanceNoActive(s, t, 0), t)
  {
    var c := s.txs[t].op.carId;
    var rows := CarOnly(c, s.db.cars[c].(retired := true));
    OverlayEmpty(rows);
    assert Overlay(s.db, rows) == PutCar(s.db, c, rows.cars[c]);
    ExecKeepsSchema(s.txs[t].op, s.db, 0);
    SoftDeleteFacts(s, t);
    FlushStep(s, AdvanceNoActive(s, t, 0), t, rows);
  }

  lemma SoftDeleteFacts(s: Sys, t: nat)
    requires t < |s.txs| && PcFacts(s, t) && s.txs[t].pc.NoActive? && s.txs[t].op.DeleteCar? && Shape(s.txs[t])
    requires var rows := CarOnly(s.txs[t].op.carId, s.db.cars[s.txs[t].op.carId].(retired := true));
             Overlay(EMPTY, rows) == rows && Schema(Overlay(s.db, rows))
    ensures var rows := CarOnly(s.txs[t].op.carId, s.db.cars[s.txs[t].op.carId].(retired := true));
            var s' := AdvanceNoActive(s, t, 0);
            Flushes(s, s', t, rows) && Covered(s, s', t, rows) && !Idle(s'.txs[t].pc) && PcFacts(s', t)
  {
  }

  lemma InsertRentalStep(s: Sys, t: nat, newId: nat)
    requires Own(s, t) && s.txs[t].pc.NoActive? && s.txs[t].op.RegisterRental? && newId !in s.rentalIds
    ensures GoodStep(s, InsertRental(s, t, newId, NewRental(s.txs[t].op.dto)), t)
  {
    var dto := s.txs[t].op.dto;
    var rows := RentalOnly(newId, NewRental(dto));
    OverlayEmpty(rows);
    assert Overlay(s.db, rows) == PutRental(s.db, newId, NewRental(dto));
    RegisterKeepsSchema(s.db, dto, newId, s.db.cars[dto.carId]);
    InsertRentalFacts(s, t, newId);
    FlushStep(s, InsertRental(s, t, newId, NewRental(dto)), t, rows);
  }

  lemma InsertRentalFacts(s: Sys, t: nat, newId: nat)
    requires t < |s.txs| && PcFacts(s, t) && s.txs[t].pc.NoActive? && s.txs[t].op.RegisterRental?
    requires newId !in s.db.rentals && newId !in s.rentalIds
    requires var rows := RentalOnly(newId, NewRental(s.txs[t].op.dto));
             Overlay(EMPTY, rows) == rows && Schema(Overlay(s.db, rows))
    ensures var dto := s.txs[t].op.dto;
            var s' := InsertRental(s, t, newId, NewRental(dto));
            var rows := RentalOnly(newId, NewRental(dto));
            && Flushes(s, s', t, rows) && Covered(s, s', t, rows)
            && !Idle(s'.txs[t].pc) && PcFacts(s', t)
  {
  }

  lemma RegisterOverlay(db: Db, r: nat, rental: Rental, c: nat, car: Car)
    ensures Overlay(db, Overlay(RentalOnly(r, rental), CarOnly(c, car))) == PutCar(PutRental(db, r, rental), c, car)
  {
  }

  lemma MarkInUseStep(s: Sys, t: nat)
    requires Own(s, t) && s.txs[t].pc.RentalAdded? && Shape(s.txs[t])
    ensures GoodStep(s, Advance(s, t, 0), t)
  {
    var tx := s.txs[t];
    var c := tx.op.dto.carId;
    var car := s.db.cars[c].(status := InUse);
    RegisterOverlay(s.db, tx.newId, NewRental(tx.op.dto), c, car);
    RegisterKeepsSchema(s.db, tx.op.dto, tx.newId, car);
    MarkInUseFacts(s, t);
    FlushStep(s, Advance(s, t, 0), t, CarOnly(c, car));
  }

  lemma MarkInUseFacts(s: Sys, t: nat)
    requires t < |s.txs| && PcFacts(s, t) && s.txs[t].pc.RentalAdded? && Shape(s.txs[t])
    requires var c := s.txs[t].op.dto.carId;
             Schema(Overlay(s.db, Overlay(s.txs[t].writes, CarOnly(c, s.db.cars[c].(status := InUse)))))
    ensures var c := s.txs[t].op.dto.carId;
            var rows := CarOnly(c, s.db.cars[c].(status := InUse));
            var s' := Advance(s, t, 0);
            Flushes(s, s', t, rows) && Covered(s, s', t, rows) && !Idle(s'.txs[t].pc) && PcFacts(s', t)
  {
  }

  lemma FlushEndStep(s: Sys, t: nat)
    requires Own(s, t) && s.txs[t].pc.RentalLocked? && Shape(s.txs[t])
    ensures GoodStep(s, FlushEnd(s, t), t)
  {
    var r, today := s.txs[t].op.rentalId, s.txs[t].op.today;
    var c := s.db.rentals[r].carId;
    var car := s.db.cars[c].(status := Available);
    var rows := ReturnRows(s.db, r, today);
    OverlayEmpty(rows);
    assert Overlay(s.db, rows) == PutCar(PutRental(s.db, r, s.db.rentals[r].(returned := Some(today))), c, car);
    EndKeepsSchema(s.db, r, today, car);
    FlushEndFacts(s, t);
    FlushStep(s, FlushEnd(s, t), t, rows);
  }

  lemma FlushEndFacts(s: Sys, t: nat)
    requires t < |s.txs| && PcFacts(s, t) && s.txs[t].pc.RentalLocked? && Shape(s.txs[t])
    requires var rows := ReturnRows(s.db, s.txs[t].op.rentalId, s.txs[t].op.today);
             Overlay(EMPTY, rows) == rows && Schema(Overlay(s.db, rows))
    ensures var rows := ReturnRows(s.db, s.txs[t].op.rentalId, s.txs[t].op.today);
            var s' := FlushEnd(s, t);
            Flushes(s, s', t, rows) && Covered(s, s', t, rows) && !Idle(s'.txs[t].pc) && PcFacts(s', t)
  {
  }

  // ----- commit ------------------------------------------------------------------------------

  /** Once everything is flushed, what would be committed is the atomic operation's effect. */
  lemma FlushedIsExec(s: Sys, t: nat)
    requires t < |s.txs| && BeforeCommit(s, t)
    ensures var tx := s.txs[t]; FreshFor(tx.op, s.db, tx.newId) && Exec(tx.op, s.db, tx.newId).db == View(s, t)
  {
    var tx := s.txs[t];
    OverlayEmpty(s.db);
    match tx.op
    case AddCar(_, _) =>
    case UpdateCar(c, patch) =>
    case DeleteCar(c) =>
    case RegisterRental(dto, _) =>
      var rental, car := NewRental(dto), s.db.cars[dto.carId].(status := InUse);
      RegisterOverlay(s.db, tx.newId, rental, dto.carId, car);
    case EndRental(r, today) =>
      var rental := s.db.rentals[r].(returned := Some(today));
      var c := s.db.rentals[r].carId;
      assert View(s, t) == PutCar(PutRental(s.db, r, rental), c, s.db.cars[c].(status := Available));
  }

  /** The commit installs the atomic operation's effect and reports its result and event. */
  lemma CommitIsExec(s: Sys, t: nat)
    requires t < |s.txs| && s.txs[t].pc.Ready? && Shape(s.txs[t]) && BeforeCommit(s, t)
    ensures var tx := s.txs[t];
            Exec(tx.op, s.db, tx.newId) == Effect(View(s, t), Reply(tx), Announcement(tx))
  {
    FlushedIsExec(s, t);
  }

  lemma SettleStep(s: Sys, t: nat)
    requires Own(s, t) && s.txs[t].pc.RentalFlushed? && Shape(s.txs[t])
    ensures GoodStep(s, Advance(s, t, 0), t)
  {
    FlushedIsExec(s, t);
    ExecKeepsSchema(s.txs[t].op, s.db, s.txs[t].newId);
    OverlayEmpty(s.txs[t].session);
    OverlayEmpty(s.txs[t].writes);
    FlushStep(s, Advance(s, t, 0), t, EMPTY);
  }

  lemma CommitStep(s: Sys, t: nat)
    requires Own(s, t) && s.txs[t].pc.Ready? && Shape(s.txs[t])
    ensures GoodStep(s, Commit(s, t), t)
  {
    FlushedIsExec(s, t);
    ExecKeepsSchema(s.txs[t].op, s.db, s.txs[t].newId);
    LeaveStep(s, Commit(s, t), t);
  }

  // ----- any step --------------------------------------------------------------------------

  lemma CarLockedStep(s: Sys, t: nat)
    requires Own(s, t) && s.txs[t].pc.CarLocked? && Shape(s.txs[t]) && !Blocked(s, t)
    ensures GoodStep(s, AdvanceCarLocked(s, t), t)
  {
    match s.txs[t].op
    case RegisterRental(dto, _) => CheckNoActiveStep(s, t, dto.carId, CarNotAvailable);
    case DeleteCar(c) => CheckNoActiveStep(s, t, c, CarHasActiveRental);
    case EndRental(_, _) => LockRentalStep(s, t);
    case UpdateCar(_, _) => UpdateFlushStep(s, t);
  }

  lemma RollbackStep(s: Sys, t: nat, reply: Result)
    requires Own(s, t) && s.txs[t].pc.RollingBack? && reply != Failed(Integrity)
    ensures GoodStep(s, Rollback(s, t, reply), t)
  {
    LeaveStep(s, Rollback(s, t, reply), t);
  }

  lemma PublishStep(s: Sys, t: nat)
    requires Own(s, t) && s.txs[t].pc.Publishing?
    ensures GoodStep(s, Publish(s, t), t)
  {
    QuietStep(s, Publish(s, t), t);
  }

  lemma AdvanceStep(s: Sys, t: nat, newId: nat)
    requires Own(s, t) && Enabled(s, Move(t, Step(newId)))
    ensures GoodStep(s, Advance(s, t, newId), t)
  {
    var tx := s.txs[t];
    match tx.pc
    case Start => StartStep(s, t, newId);
    case RentalSeen => LockCarStep(s, t, tx.session.rentals[tx.op.rentalId].carId);
    case CarLocked => CarLockedStep(s, t);
    case NoActive => if tx.op.RegisterRental? { InsertRentalStep(s, t, newId); } else { SoftDeleteStep(s, t); }
    case RentalAdded => MarkInUseStep(s, t);
    case RentalLocked => FlushEndStep(s, t);
    case RentalFlushed => SettleStep(s, t);
    case Ready => CommitStep(s, t);
    case RollingBack(why) => RollbackStep(s, t, why);
    case Publishing(_, _) => PublishStep(s, t);
  }

  lemma RaiseFaultStep(s: Sys, t: nat)
    requires Own(s, t) && !s.txs[t].pc.RollingBack? && !s.txs[t].pc.Publishing? && !s.txs[t].pc.Done?
    requires s.txs[t].op.ListCars? ==> s.txs[t].pc.Start?
    ensures GoodStep(s, Fail(s, t), t)
  {
    var tx := s.txs[t];
    var pc := if tx.op.ListCars? then Done(Failed(Fault)) else RollingBack(Failed(Fault));
    var s' := SetTx(s, t, tx.(pc := pc));
    assert Fail(s, t) == s';
    QuietStep(s, s', t);
  }

  lemma FailStep(s: Sys, t: nat)
    requires Own(s, t) && Enabled(s, Move(t, Crash))
    ensures GoodStep(s, Fail(s, t), t)
  {
    match s.txs[t].pc
    case RollingBack(_) => RollbackStep(s, t, Failed(Fault));
    case Publishing(_, _) => PublishStep(s, t);
    case _ => RaiseFaultStep(s, t);
  }

  lemma NewCallInv(s: Sys, s': Sys, op: Op)
    requires Global(s) && WellFormed(op) && s' == s.(txs := s.txs + [Tx(op, Start, EMPTY, EMPTY, 0, {})])
    ensures Global(s') && TxInv(s', |s.txs|)
  {
    assert OwnsNothing(s', |s.txs|);
  }

  lemma InvokeRely(s: Sys, s': Sys, op: Op, t: nat)
    requires t < |s.txs| && s' == s.(txs := s.txs + [Tx(op, Start, EMPTY, EMPTY, 0, {})])
    ensures Rely(s, s', t)
  {
  }

  lemma InvokeStep(s: Sys, op: Op)
    requires Inv(s) && WellFormed(op)
    ensures Inv(Next(s, Move(|s.txs|, Invoke(op))))
  {
    var s' := Next(s, Move(|s.txs|, Invoke(op)));
    NewCallInv(s, s', op);
    forall t: nat | t < |s'.txs| ensures TxInv(s', t) {
      if t < |s.txs| {
        assert TxInv(s, t);
        InvokeRely(s, s', op, t);
        RelyKeepsTx(s, s', t);
      }
    }
  }

  lemma OthersKeepInv(s: Sys, s': Sys, t: nat)
    requires Inv(s) && t < |s.txs| && GoodStep(s, s', t)
    ensures Inv(s')
  {
    forall u: nat | u < |s'.txs| ensures TxInv(s', u) {
      if u != t {
        assert TxInv(s, t) && TxInv(s, u);
        StepGivesRely(s, s', t, u);
        RelyKeepsTx(s, s', u);
      }
    }
  }

  lemma NextKeepsInv(s: Sys, m: Move)
    requires Inv(s) && Enabled(s, m)
    ensures Inv(Next(s, m))
    ensures !m.action.Invoke? ==> StepBy(s, Next(s, m), m.tid)
  {
    match m.action
    case Invoke(op) => InvokeStep(s, op);
    case Step(newId) =>
      assert TxInv(s, m.tid);
      AdvanceStep(s, m.tid, newId);
      OthersKeepInv(s, Next(s, m), m.tid);
    case Crash =>
      assert TxInv(s, m.tid);
      FailStep(s, m.tid);
      OthersKeepInv(s, Next(s, m), m.tid);
  }

  /** The invariant holds after every schedule from any database that meets the schema constraints. */
  lemma {:induction false} RunKeepsInv(db: Db, sched: seq<Move>)
    requires Schema(db) && ValidRun(Init(db), sched)
    ensures Inv(Run(Init(db), sched))
  {
    if |sched| == 0 {
    } else {
      RunKeepsInv(db, sched[..|sched| - 1]);
      NextKeepsInv(Run(Init(db), sched[..|sched| - 1]), sched[|sched| - 1]);
    }
  }

  lemma ReachableInv(init: Db, s: Sys)
    requires Reachable(init, s)
    ensures Inv(s)
  {
    var sched :| ValidRun(Init(init), sched) && Run(Init(init), sched) == s;
    RunKeepsInv(init, sched);
  }
}
