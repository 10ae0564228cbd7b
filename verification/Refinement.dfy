/**
  Every interleaving is equivalent to executing each decided call atomically, at one
  moment between its start and its end.
  */
module Refinement {
  import opened Domain
  import opened Atomic
  import opened AtomicLaws
  import opened Protocol
  import opened Invariant
  import opened Preservation

  /** The outcome a call is bound to, once there is one. */
  function Verdict(pc: Pc): Option<Result> {
    match pc
    case RollingBack(why) => Some(why)
    case Publishing(_, reply) => Some(reply)
    case Done(reply) => Some(reply)
    case _ => None
  }

  /** The event a call has committed but not yet handed to the publisher. */
  function PendingOf(pc: Pc): Option<Event> {
    if pc.Publishing? then Some(pc.event) else None
  }

  // ----- one step ------------------------------------------------------------------------

  /** The step changes neither tables nor log nor outcome; it may hand a pending event to the publisher. */
  ghost predicate Stutters(s: Sys, s': Sys, t: nat)
    requires t < |s.txs|
  {
    && |s'.txs| == |s.txs|
    && (|| (s'.published == s.published && PendingOf(s'.txs[t].pc) == PendingOf(s.txs[t].pc))
        || (s.txs[t].pc.Publishing? && !s'.txs[t].pc.Publishing?
            && s'.published == s.published + multiset{s.txs[t].pc.event}))
    && s'.db == s.db && s'.log == s.log
    && Verdict(s'.txs[t].pc) == Verdict(s.txs[t].pc)
  }

  /** The step makes the call fail; a success that has been committed can no longer be lost. */
  ghost predicate Fails(s: Sys, s': Sys, t: nat)
    requires t < |s.txs|
  {
    && |s'.txs| == |s.txs|
    && s'.published == s.published && !s.txs[t].pc.Publishing? && !s'.txs[t].pc.Publishing?
    && s'.db == s.db && s'.log == s.log
    && Verdict(s'.txs[t].pc) == Some(Failed(Fault))
    && (Verdict(s.txs[t].pc).Some? ==> !Verdict(s.txs[t].pc).value.Ok?)
  }

  /** The step executes the whole operation of `t` on the committed tables, and leaves its event pending. */
  ghost predicate Executes(s: Sys, s': Sys, t: nat)
    requires t < |s.txs|
  {
    && |s'.txs| == |s.txs|
    && s'.published == s.published
    && Verdict(s.txs[t].pc) == None
    && |s'.log| == |s.log| + 1 && s'.log[..|s.log|] == s.log
    && var e := s'.log[|s.log|];
       && e.tid == t && e.op == s.txs[t].op && e.newId == s.txs[t].newId && Faithful(e, s.db)
       && s'.db == Exec(e.op, s.db, e.newId).db
       && Verdict(s'.txs[t].pc) == Some(e.result)
       && PendingOf(s'.txs[t].pc) == e.event
  }

  lemma RaiseExecutes(s: Sys, s0: Sys, t: nat, e: DomainError)
    requires t < |s.txs| && |s0.txs| == |s.txs| && s0.db == s.db && s0.log == s.log && s0.published == s.published
    requires s0.txs[t].op == s.txs[t].op && s0.txs[t].newId == s.txs[t].newId
    requires Verdict(s.txs[t].pc) == None && WellFormed(s.txs[t].op) && !s.txs[t].op.AddCar?
    requires Exec(s.txs[t].op, s.db, s.txs[t].newId) == Reject(s.db, e)
    ensures Executes(s, Raise(s0, t, e), t)
  {
  }

  lemma LockCarExecutes(s: Sys, t: nat, c: nat)
    requires Own(s, t) && (s.txs[t].pc.Start? || s.txs[t].pc.RentalSeen?)
    requires TargetCar(s.txs[t]) == Some(c) && StartsToday(s.txs[t].op)
    ensures Stutters(s, LockCar(s, t, c), t) || Executes(s, LockCar(s, t, c), t)
  {
    OverlayEmpty(s.db);
    var tx := s.txs[t];
    if !IsLive(s.db, c) {
      RaiseExecutes(s, s, t, CarNotFound);
    } else {
      var objection := Objection(tx.op, s.db.cars[c]);
      if objection.Some? {
        var s0 := SetTx(s.(carLock := s.carLock[c := t]), t, tx.(session := PutCar(tx.session, c, s.db.cars[c])));
        RaiseExecutes(s, s0, t, objection.value);
      }
    }
  }

  lemma CheckNoActiveExecutes(s: Sys, t: nat, c: nat, e: DomainError)
    requires Own(s, t) && s.txs[t].pc.CarLocked? && TargetCar(s.txs[t]) == Some(c)
    requires || (s.txs[t].op.RegisterRental? && e == CarNotAvailable)
             || (s.txs[t].op.DeleteCar? && e == CarHasActiveRental)
    ensures Stutters(s, CheckNoActive(s, t, c, e), t) || Executes(s, CheckNoActive(s, t, c, e), t)
  {
    OverlayEmpty(s.db);
    if HasActive(s.db, c) {
      RaiseExecutes(s, s, t, e);
    }
  }

  /** The rental row an ending call re-reads under the lock is always there. */
  lemma RentalStillThere(s: Sys, t: nat)
    requires Own(s, t) && s.txs[t].pc.CarLocked? && s.txs[t].op.EndRental?
    ensures s.txs[t].op.rentalId in View(s, t).rentals
  {
  }

  lemma LockRentalExecutes(s: Sys, t: nat)
    requires Own(s, t) && s.txs[t].pc.CarLocked? && s.txs[t].op.EndRental?
    ensures var s' := LockRental(s, t, s.txs[t].op.rentalId, s.txs[t].op.today);
            Stutters(s, s', t) || Executes(s, s', t)
  {
    OverlayEmpty(s.db);
    RentalStillThere(s, t);
    var tx := s.txs[t];
    var r := tx.op.rentalId;
    var rental := s.db.rentals[r];
    var s0 := SetTx(s.(rentalLock := s.rentalLock[r := t]), t, tx.(session := PutRental(tx.session, r, rental)));
    if !rental.IsActive() {
      RaiseExecutes(s, s0, t, RentalAlreadyEnded);
    } else if tx.op.today < rental.startDate {
      RaiseExecutes(s, s0, t, RentalDate);
    }
  }

  /** A flush changes nothing that is committed; one that passes leaves the call undecided. */
  lemma FlushRefines(s: Sys, s0: Sys, t: nat, tx: Tx)
    requires t < |s.txs| && |s0.txs| == |s.txs| && s0.db == s.db && s0.log == s.log && s0.published == s.published
    requires Verdict(s.txs[t].pc) == None && Verdict(tx.pc) == None
    ensures Refines(s, Flush(s0, t, tx), t)
  {
  }

  ghost predicate Refines(s: Sys, s': Sys, t: nat)
    requires t < |s.txs|
  {
    && |s'.txs| == |s.txs|
    && (s'.txs[t].pc == RollingBack(Failed(Integrity)) || Stutters(s, s', t) || Executes(s, s', t))
  }

  /** A call decided without a transaction. */
  lemma AnswerExecutes(s: Sys, t: nat, reply: Result)
    requires t < |s.txs| && Verdict(s.txs[t].pc) == None && WellFormed(s.txs[t].op) && !s.txs[t].op.AddCar?
    requires Exec(s.txs[t].op, s.db, s.txs[t].newId) == Effect(s.db, reply, None)
    requires s.txs[t].op.RegisterRental? ==> !reply.Ok?
    ensures Executes(s, Answer(s, t, reply), t)
  {
  }

  lemma ReadRentalRefines(s: Sys, t: nat)
    requires Own(s, t) && s.txs[t].pc.Start? && s.txs[t].op.EndRental?
    ensures Refines(s, ReadRental(s, t, s.txs[t].op.rentalId), t)
  {
    OverlayEmpty(s.db);
    if s.txs[t].op.rentalId !in s.db.rentals {
      RaiseExecutes(s, s, t, RentalNotFound);
    }
  }

  lemma StartRefines(s: Sys, t: nat, newId: nat)
    requires Own(s, t) && s.txs[t].pc.Start?
    ensures Refines(s, AdvanceStart(s, t, newId), t)
  {
    match s.txs[t].op
    case AddCar(model, year) =>
      FlushRefines(s, s.(carIds := s.carIds[newId := Some(t)]), t,
                   Write(s.txs[t], CarOnly(newId, NewCar(model, year))).(newId := newId, pc := Ready));
    case ListCars(filter) => OverlayEmpty(s.db); AnswerExecutes(s, t, Ok(CarList(ListRows(s.db, filter))));
    case UpdateCar(c, _) => LockCarExecutes(s, t, c);
    case DeleteCar(c) => LockCarExecutes(s, t, c);
    case EndRental(_, _) => ReadRentalRefines(s, t);
    case RegisterRental(dto, today) =>
      if dto.startDate == today {
        LockCarExecutes(s, t, dto.carId);
      } else {
        AnswerExecutes(s, t, Rejected(RentalDate));
      }
  }

  lemma CarLockedRefines(s: Sys, t: nat)
    requires Own(s, t) && s.txs[t].pc.CarLocked? && Shape(s.txs[t])
    ensures Refines(s, AdvanceCarLocked(s, t), t)
  {
    var tx := s.txs[t];
    match tx.op
    case RegisterRental(dto, _) => CheckNoActiveExecutes(s, t, dto.carId, CarNotAvailable);
    case DeleteCar(c) => CheckNoActiveExecutes(s, t, c, CarHasActiveRental);
    case EndRental(_, _) => LockRentalExecutes(s, t);
    case UpdateCar(c, patch) =>
      FlushRefines(s, s, t, Write(tx, CarOnly(c, Overlaid(tx.session.cars[c], patch))).(pc := Ready));
  }

  lemma NoActiveRefines(s: Sys, t: nat, newId: nat)
    requires t < |s.txs| && s.txs[t].pc.NoActive? && Shape(s.txs[t])
    ensures Refines(s, AdvanceNoActive(s, t, newId), t)
  {
    var tx := s.txs[t];
    match tx.op
    case RegisterRental(dto, _) =>
      FlushRefines(s, s.(rentalIds := s.rentalIds[newId := Some(t)]), t,
                   Write(tx, RentalOnly(newId, NewRental(dto))).(newId := newId, pc := RentalAdded));
    case DeleteCar(c) =>
      FlushRefines(s, s, t, Write(tx, CarOnly(c, tx.session.cars[c].(retired := true))).(pc := Ready));
  }

  lemma MarkInUseRefines(s: Sys, t: nat)
    requires t < |s.txs| && Shape(s.txs[t]) && s.txs[t].pc.RentalAdded?
    ensures Refines(s, Advance(s, t, 0), t)
  {
    var tx := s.txs[t];
    var c := tx.op.dto.carId;
    FlushRefines(s, s, t, Write(tx, CarOnly(c, tx.session.cars[c].(status := InUse))).(pc := Ready));
  }

  lemma FlushEndRefines(s: Sys, t: nat)
    requires t < |s.txs| && Shape(s.txs[t]) && s.txs[t].pc.RentalLocked?
    ensures Refines(s, FlushEnd(s, t), t)
  {
  }

  lemma CommitExecutes(s: Sys, t: nat)
    requires t < |s.txs| && s.txs[t].pc.Ready? && Shape(s.txs[t]) && WellFormed(s.txs[t].op) && BeforeCommit(s, t)
    ensures Executes(s, Commit(s, t), t)
  {
    FlushedIsExec(s, t);
    CommitIsExec(s, t);
  }

  lemma AdvanceRefines(s: Sys, t: nat, newId: nat)
    requires Own(s, t) && !s.txs[t].pc.Done? && Shape(s.txs[t]) && IdUnused(s, s.txs[t], newId)
    ensures Refines(s, Advance(s, t, newId), t)
  {
    match s.txs[t].pc
    case Start => StartRefines(s, t, newId);
    case RentalSeen => LockCarExecutes(s, t, s.txs[t].session.rentals[s.txs[t].op.rentalId].carId);
    case CarLocked => CarLockedRefines(s, t);
    case NoActive => NoActiveRefines(s, t, newId);
    case RentalAdded => MarkInUseRefines(s, t);
    case RentalLocked => FlushEndRefines(s, t);
    case RentalFlushed => FlushRefines(s, s, t, s.txs[t].(pc := Ready));
    case Ready => CommitExecutes(s, t);
    case RollingBack(_) => assert Stutters(s, Advance(s, t, newId), t);
    case Publishing(_, _) => assert Stutters(s, Advance(s, t, newId), t);
  }

  lemma CrashFails(s: Sys, t: nat)
    requires t < |s.txs| && !s.txs[t].pc.Done?
    requires s.txs[t].pc.RollingBack? ==> !s.txs[t].pc.why.Ok?
    ensures if s.txs[t].pc.Publishing? then Stutters(s, Fail(s, t), t) else Fails(s, Fail(s, t), t)
  {
    match s.txs[t].pc
    case RollingBack(_) =>
    case Publishing(_, _) =>
    case _ =>
  }

  /** Any step of a call stutters, fails the call, or is its whole atomic operation. */
  lemma StepRefines(s: Sys, m: Move)
    requires Inv(s) && Enabled(s, m) && !m.action.Invoke?
    ensures m.tid < |s.txs|
    ensures m.action.Step? ==> Stutters(s, Next(s, m), m.tid) || Executes(s, Next(s, m), m.tid)
    ensures m.action.Crash? ==>
              if s.txs[m.tid].pc.Publishing? then Stutters(s, Next(s, m), m.tid) else Fails(s, Next(s, m), m.tid)
  {
    var t := m.tid;
    NextKeepsInv(s, m);
    assert TxInv(s, t) && TxInv(Next(s, m), t);
    match m.action
    case Step(newId) => AdvanceRefines(s, t, newId);
    case Crash => CrashFails(s, t);
  }

  // ----- whole runs -----------------------------------------------------------------------

  /** How a call stands to the log: entered once it is decided, and never entered otherwise. */
  ghost predicate Linked(s: Sys, t: nat)
    requires t < |s.txs|
  {
    match Verdict(s.txs[t].pc)
    case None => forall i :: 0 <= i < |s.log| ==> s.log[i].tid != t
    case Some(Failed(_)) => forall i :: 0 <= i < |s.log| && s.log[i].tid == t ==> s.log[i].result.Rejected?
    case Some(reply) => exists i :: 0 <= i < |s.log| && s.log[i].tid == t && s.log[i].result == reply
  }

  ghost predicate LogInv(init: Db, s: Sys) {
    && ValidLog(init, s.log) && Replay(init, s.log) == s.db
    && (forall i :: 0 <= i < |s.log| ==> s.log[i].tid < |s.txs| && s.log[i].op == s.txs[s.log[i].tid].op)
    && (forall i, j :: 0 <= i < j < |s.log| ==> s.log[i].tid != s.log[j].tid)
    && (forall t: nat :: t < |s.txs| ==> Linked(s, t))
  }

  lemma StutterKeepsLog(init: Db, s: Sys, s': Sys, t: nat)
    requires LogInv(init, s) && t < |s.txs| && StepBy(s, s', t) && (Stutters(s, s', t) || Fails(s, s', t))
    ensures LogInv(init, s')
  {
    forall u: nat | u < |s'.txs| ensures Linked(s', u) {
      assert Linked(s, u);
      if u == t && Verdict(s'.txs[t].pc) != Verdict(s.txs[t].pc) {
        forall i | 0 <= i < |s'.log| && s'.log[i].tid == t ensures s'.log[i].result.Rejected? {
          RejectedOnly(s, t, i);
        }
      }
    }
  }

  lemma RejectedOnly(s: Sys, t: nat, i: nat)
    requires t < |s.txs| && Linked(s, t) && i < |s.log| && s.log[i].tid == t
    requires forall i, j :: 0 <= i < j < |s.log| ==> s.log[i].tid != s.log[j].tid
    requires Verdict(s.txs[t].pc).Some? ==> !Verdict(s.txs[t].pc).value.Ok?
    ensures s.log[i].result.Rejected?
  {
  }

  lemma AppendKeepsValid(init: Db, log: seq<Entry>, e: Entry)
    requires ValidLog(init, log) && Faithful(e, Replay(init, log))
    ensures ValidLog(init, log + [e])
    ensures Replay(init, log + [e]) == Exec(e.op, Replay(init, log), e.newId).db
  {
  }

  lemma ExecutionLinks(s: Sys, s': Sys, t: nat, u: nat)
    requires t < |s.txs| && u < |s.txs| && StepBy(s, s', t) && Executes(s, s', t) && Linked(s, u)
    ensures Linked(s', u)
  {
  }

  lemma ExecutionExtendsLog(init: Db, s: Sys, s': Sys, t: nat)
    requires LogInv(init, s) && t < |s.txs| && StepBy(s, s', t) && Executes(s, s', t)
    ensures LogInv(init, s')
  {
    var e := s'.log[|s.log|];
    assert s'.log == s.log + [e];
    AppendKeepsValid(init, s.log, e);
    assert Linked(s, t);
    forall u: nat | u < |s'.txs| ensures Linked(s', u) {
      assert Linked(s, u);
      ExecutionLinks(s, s', t, u);
    }
  }

  lemma NextKeepsLog(init: Db, s: Sys, m: Move)
    requires Inv(s) && LogInv(init, s) && Enabled(s, m)
    ensures LogInv(init, Next(s, m))
  {
    var s' := Next(s, m);
    if m.action.Invoke? {
      forall t: nat | t < |s'.txs| ensures Linked(s', t) {
        if t < |s.txs| { assert Linked(s, t); }
      }
    } else {
      NextKeepsInv(s, m);
      StepRefines(s, m);
      if Executes(s, s', m.tid) {
        ExecutionExtendsLog(init, s, s', m.tid);
      } else {
        StutterKeepsLog(init, s, s', m.tid);
      }
    }
  }

  lemma {:induction false} RunKeepsLog(init: Db, sched: seq<Move>)
    requires Schema(init) && ValidRun(Init(init), sched)
    ensures LogInv(init, Run(Init(init), sched))
  {
    if |sched| == 0 {
    } else {
      var prefix := sched[..|sched| - 1];
      RunKeepsLog(init, prefix);
      RunKeepsInv(init, prefix);
      NextKeepsLog(init, Run(Init(init), prefix), sched[|sched| - 1]);
    }
  }

  lemma ReachableLog(init: Db, s: Sys)
    requires Reachable(init, s)
    ensures LogInv(init, s)
  {
    var sched :| ValidRun(Init(init), sched) && Run(Init(init), sched) == s;
    RunKeepsLog(init, sched);
  }
}
