/**
  Every sequential history is what some interleaved run shows: the converse of linearizability.
  An undisturbed call runs to its end and executes its atomic operation, under any free id.
  */
module Completeness {
  import opened Domain
  import opened Atomic
  import opened AtomicLaws
  import opened Protocol
  import opened Invariant
  import opened Preservation
  import opened Refinement
  import opened Liveness

  // ----- ids ------------------------------------------------------------------------------

  predicate Inserts(op: Op) {
    op.AddCar? || op.RegisterRental?
  }

  /** The next step inserts the call's row. */
  predicate InsertsNext(tx: Tx) {
    (tx.pc.Start? && tx.op.AddCar?) || (tx.pc.NoActive? && tx.op.RegisterRental?)
  }

  /** The call has inserted its row and not yet committed it. */
  predicate Inserted(tx: Tx) {
    tx.pc.RentalAdded? || (tx.pc.Ready? && Inserts(tx.op))
  }

  /** Only an insert draws an id, and the call keeps the one it has drawn until its commit. */
  ghost predicate DrawsOnly(s: Sys, s': Sys, t: nat, id: nat)
    requires t < |s.txs|
  {
    && |s'.txs| == |s.txs|
    && var tx, tx' := s.txs[t], s'.txs[t];
       && s'.carIds == (if InsertsNext(tx) && tx.op.AddCar? then s.carIds[id := Some(t)] else s.carIds)
       && s'.rentalIds == (if InsertsNext(tx) && tx.op.RegisterRental? then s.rentalIds[id := Some(t)] else s.rentalIds)
       && (tx'.pc.Publishing? ==> tx.pc.Ready?)
       && (tx.pc.Ready? && Inserts(tx.op) ==> tx'.pc.Publishing?)
       && (tx'.pc == RollingBack(Failed(Integrity)) || KeepsInserted(tx, tx', id))
  }

  predicate KeepsInserted(tx: Tx, tx': Tx, id: nat) {
    && (InsertsNext(tx) ==> Inserted(tx'))
    && (Inserted(tx) && !tx.pc.Ready? ==> Inserted(tx'))
    && (Inserted(tx') ==> if InsertsNext(tx) then tx'.newId == id else Inserted(tx) && tx'.newId == tx.newId)
  }

  lemma FlushDraws(s: Sys, s0: Sys, t: nat, tx: Tx, id: nat)
    requires t < |s.txs| && s0.txs == s.txs && KeepsInserted(s.txs[t], tx, id)
    requires !s.txs[t].pc.Ready? && !tx.pc.Publishing?
    requires s0.carIds == (if InsertsNext(s.txs[t]) && s.txs[t].op.AddCar? then s.carIds[id := Some(t)] else s.carIds)
    requires s0.rentalIds ==
             if InsertsNext(s.txs[t]) && s.txs[t].op.RegisterRental? then s.rentalIds[id := Some(t)] else s.rentalIds
    ensures DrawsOnly(s, Flush(s0, t, tx), t, id)
  {
  }

  /** A step that draws nothing, of a call that has not inserted. */
  lemma QuietDraws(s: Sys, s': Sys, t: nat, id: nat)
    requires t < |s.txs| && !InsertsNext(s.txs[t]) && !Inserted(s.txs[t])
    requires |s'.txs| == |s.txs| && s'.carIds == s.carIds && s'.rentalIds == s.rentalIds
    requires !s'.txs[t].pc.Publishing? && !Inserted(s'.txs[t])
    ensures DrawsOnly(s, s', t, id)
  {
  }

  lemma RaiseDraws(s: Sys, s0: Sys, t: nat, e: DomainError, id: nat)
    requires t < |s.txs| && !InsertsNext(s.txs[t]) && !Inserted(s.txs[t])
    requires |s0.txs| == |s.txs| && s0.carIds == s.carIds && s0.rentalIds == s.rentalIds
    ensures DrawsOnly(s, Raise(s0, t, e), t, id)
  {
    QuietDraws(s, Raise(s0, t, e), t, id);
  }

  lemma LockCarDraws(s: Sys, t: nat, c: nat, id: nat)
    requires t < |s.txs| && (s.txs[t].pc.Start? || s.txs[t].pc.RentalSeen?) && !s.txs[t].op.AddCar?
    ensures DrawsOnly(s, LockCar(s, t, c), t, id)
  {
  }

  lemma AnswerDraws(s: Sys, t: nat, reply: Result, id: nat)
    requires t < |s.txs| && !InsertsNext(s.txs[t]) && !Inserted(s.txs[t])
    ensures DrawsOnly(s, Answer(s, t, reply), t, id)
  {
  }

  lemma ReadRentalDraws(s: Sys, t: nat, r: nat, id: nat)
    requires t < |s.txs| && !InsertsNext(s.txs[t]) && !Inserted(s.txs[t])
    ensures DrawsOnly(s, ReadRental(s, t, r), t, id)
  {
  }

  lemma CheckNoActiveDraws(s: Sys, t: nat, c: nat, e: DomainError, id: nat)
    requires t < |s.txs| && !InsertsNext(s.txs[t]) && !Inserted(s.txs[t])
    ensures DrawsOnly(s, CheckNoActive(s, t, c, e), t, id)
  {
    if HasActive(View(s, t), c) {
      RaiseDraws(s, s, t, e, id);
    } else {
      QuietDraws(s, SetTx(s, t, s.txs[t].(pc := NoActive)), t, id);
    }
  }

  lemma LockRentalDraws(s: Sys, t: nat, r: nat, today: int, id: nat)
    requires t < |s.txs| && !InsertsNext(s.txs[t]) && !Inserted(s.txs[t])
    ensures DrawsOnly(s, LockRental(s, t, r, today), t, id)
  {
  }

  lemma StartDraws(s: Sys, t: nat, id: nat)
    requires t < |s.txs| && s.txs[t].pc.Start?
    ensures DrawsOnly(s, AdvanceStart(s, t, id), t, id)
  {
    match s.txs[t].op
    case AddCar(model, year) =>
      FlushDraws(s, s.(carIds := s.carIds[id := Some(t)]), t,
                 Write(s.txs[t], CarOnly(id, NewCar(model, year))).(newId := id, pc := Ready), id);
    case ListCars(filter) => AnswerDraws(s, t, Ok(CarList(ListRows(View(s, t), filter))), id);
    case UpdateCar(c, _) => LockCarDraws(s, t, c, id);
    case DeleteCar(c) => LockCarDraws(s, t, c, id);
    case EndRental(r, _) => ReadRentalDraws(s, t, r, id);
    case RegisterRental(dto, today) =>
      if dto.startDate != today {
        AnswerDraws(s, t, Rejected(RentalDate), id);
      } else {
        LockCarDraws(s, t, dto.carId, id);
      }
  }

  lemma CarLockedDraws(s: Sys, t: nat, id: nat)
    requires t < |s.txs| && s.txs[t].pc.CarLocked? && Shape(s.txs[t])
    ensures DrawsOnly(s, AdvanceCarLocked(s, t), t, id)
  {
    var tx := s.txs[t];
    match tx.op
    case RegisterRental(dto, _) => CheckNoActiveDraws(s, t, dto.carId, CarNotAvailable, id);
    case DeleteCar(c) => CheckNoActiveDraws(s, t, c, CarHasActiveRental, id);
    case EndRental(r, today) => LockRentalDraws(s, t, r, today, id);
    case UpdateCar(c, patch) =>
      FlushDraws(s, s, t, Write(tx, CarOnly(c, Overlaid(tx.session.cars[c], patch))).(pc := Ready), id);
  }

  lemma NoActiveDraws(s: Sys, t: nat, id: nat)
    requires t < |s.txs| && s.txs[t].pc.NoActive? && Shape(s.txs[t])
    ensures DrawsOnly(s, AdvanceNoActive(s, t, id), t, id)
  {
    var tx := s.txs[t];
    match tx.op
    case RegisterRental(dto, _) =>
      FlushDraws(s, s.(rentalIds := s.rentalIds[id := Some(t)]), t,
                 Write(tx, RentalOnly(id, NewRental(dto))).(newId := id, pc := RentalAdded), id);
    case DeleteCar(c) =>
      FlushDraws(s, s, t, Write(tx, CarOnly(c, tx.session.cars[c].(retired := true))).(pc := Ready), id);
  }

  lemma LaterFlushDraws(s: Sys, t: nat, id: nat)
    requires t < |s.txs| && Shape(s.txs[t])
    requires s.txs[t].pc.RentalAdded? || s.txs[t].pc.RentalLocked? || s.txs[t].pc.RentalFlushed?
    ensures DrawsOnly(s, Advance(s, t, id), t, id)
  {
    var tx := s.txs[t];
    match tx.pc
    case RentalAdded =>
      var c := tx.op.dto.carId;
      FlushDraws(s, s, t, Write(tx, CarOnly(c, tx.session.cars[c].(status := InUse))).(pc := Ready), id);
    case RentalLocked =>
      var r, c := tx.op.rentalId, TargetCar(tx).value;
      var rows := Db(map[c := tx.session.cars[c].(status := Available)],
                     map[r := tx.session.rentals[r].(returned := Some(tx.op.today))]);
      FlushDraws(s, s, t, Write(tx, rows).(pc := RentalFlushed), id);
    case RentalFlushed =>
      FlushDraws(s, s, t, tx.(pc := Ready), id);
  }

  lemma AdvanceDraws(s: Sys, t: nat, id: nat)
    requires t < |s.txs| && !s.txs[t].pc.Done? && Shape(s.txs[t])
    ensures DrawsOnly(s, Advance(s, t, id), t, id)
  {
    match s.txs[t].pc
    case Start => StartDraws(s, t, id);
    case RentalSeen => LockCarDraws(s, t, s.txs[t].session.rentals[s.txs[t].op.rentalId].carId, id);
    case CarLocked => CarLockedDraws(s, t, id);
    case NoActive => NoActiveDraws(s, t, id);
    case RentalAdded => LaterFlushDraws(s, t, id);
    case RentalLocked => LaterFlushDraws(s, t, id);
    case RentalFlushed => LaterFlushDraws(s, t, id);
    case Ready => assert DrawsOnly(s, Commit(s, t), t, id);
    case RollingBack(why) => assert DrawsOnly(s, Rollback(s, t, why), t, id);
    case Publishing(_, _) => assert DrawsOnly(s, Publish(s, t), t, id);
  }

  // ----- one undisturbed call ------------------------------------------------------------

  /** Everybody else has not begun, has only read, or is past its commit. */
  ghost predicate OthersIdle(s: Sys, t: nat) {
    forall u: nat :: u < |s.txs| && u != t ==> Idle(s.txs[u].pc)
  }

  /** Only call `t` differs. */
  ghost predicate SameOthers(s: Sys, s': Sys, t: nat)
    requires t < |s.txs|
  {
    |s'.txs| == |s.txs| && s'.txs[t].op == s.txs[t].op
    && forall u: nat :: u < |s.txs| && u != t ==> s'.txs[u] == s.txs[u]
  }

  ghost predicate FreeFor(s: Sys, op: Op, id: nat) {
    (op.AddCar? ==> id !in s.carIds) && (op.RegisterRental? ==> id !in s.rentalIds)
  }

  /** The call has inserted its row under `id`, or may still do so. */
  ghost predicate Takes(s: Sys, t: nat, id: nat)
    requires t < |s.txs|
  {
    if Inserted(s.txs[t]) then s.txs[t].newId == id else FreeFor(s, s.txs[t].op, id)
  }

  /** One undisturbed step of a call. */
  lemma SoloStep(s: Sys, t: nat, id: nat) returns (s': Sys)
    requires Inv(s) && t < |s.txs| && OthersIdle(s, t) && !s.txs[t].pc.Done?
    requires Verdict(s.txs[t].pc) == None ==> Takes(s, t, id)
    ensures Reaches(s, s') && Inv(s')
    ensures Stutters(s, s', t) || Executes(s, s', t)
    ensures SameOthers(s, s', t) && Rank(s'.txs[t].pc) < Rank(s.txs[t].pc) && DrawsOnly(s, s', t, id)
  {
    if Blocked(s, t) {
      var u: nat :| u < |s.txs| && WaitsFor(s, t, u);
      OnlyTheFirstLockWaits(s, t, u);
    }
    UnblockedCanStep(s, t, id);
    var m := Move(t, Step(id));
    s' := Next(s, m);
    StepReaches(s, m);
    StepRefines(s, m);
    NextKeepsInv(s, m);
    AdvanceLowers(s, t, id);
    AdvanceDraws(s, t, id);
  }

  ghost predicate SameTables(s: Sys, s': Sys) {
    s'.db == s.db && s'.log == s.log && s'.carIds == s.carIds && s'.rentalIds == s.rentalIds
  }

  /** A decided call that is left alone returns what it was bound to. */
  lemma {:induction false} SoloFinish(s: Sys, t: nat) returns (s': Sys)
    requires Inv(s) && t < |s.txs| && OthersIdle(s, t) && Verdict(s.txs[t].pc).Some?
    ensures Reaches(s, s') && Inv(s') && SameOthers(s, s', t) && SameTables(s, s')
    ensures s'.txs[t].pc == Done(Verdict(s.txs[t].pc).value)
    decreases Rank(s.txs[t].pc)
  {
    if s.txs[t].pc.Done? {
      s' := s;
      ReachesItself(s);
    } else {
      var mid := SoloStep(s, t, 0);
      s' := SoloFinish(mid, t);
      ReachesFurther(s, mid, s');
    }
  }

  /** Every id drawn on the way names a committed row at the end. */
  ghost predicate IdsCommitted(s: Sys, s': Sys) {
    && s'.carIds.Keys <= s.carIds.Keys + s'.db.cars.Keys
    && s'.rentalIds.Keys <= s.rentalIds.Keys + s'.db.rentals.Keys
  }

  /** A step that inserts stays undecided, and one that commits an insert uses the id drawn for it. */
  lemma StepTakes(s: Sys, s': Sys, t: nat, id: nat)
    requires Inv(s') && t < |s.txs| && Verdict(s.txs[t].pc) == None && Takes(s, t, id)
    requires DrawsOnly(s, s', t, id) && s'.txs[t].op == s.txs[t].op
    ensures Verdict(s'.txs[t].pc) == None ==> Takes(s', t, id)
    ensures InsertsNext(s.txs[t]) ==> Inserted(s'.txs[t])
    ensures Executes(s, s', t) ==>
              var e := s'.log[|s.log|];
              && (Inserted(s.txs[t]) ==> e.result.Ok?)
              && (Inserts(e.op) && e.result.Ok? ==> e.newId == id)
  {
    assert TxInv(s', t);
  }

  lemma InsertedRow(op: Op, db: Db, id: nat)
    ensures op.AddCar? ==> id in Exec(op, db, id).db.cars && Exec(op, db, id).result.Ok?
    ensures op.RegisterRental? && Exec(op, db, id).result.Ok? ==> id in Exec(op, db, id).db.rentals
  {
  }

  lemma IdsAddUp(s: Sys, mid: Sys, s': Sys, t: nat, id: nat)
    requires t < |s.txs| && DrawsOnly(s, mid, t, id) && IdsCommitted(mid, s')
    requires InsertsNext(s.txs[t]) ==>
               if s.txs[t].op.AddCar? then id in s'.db.cars else id in s'.db.rentals
    ensures IdsCommitted(s, s')
  {
  }

  /** The step that decides the call executes its operation; what follows only reports it. */
  lemma SoloDecided(s: Sys, mid: Sys, t: nat, id: nat) returns (s': Sys, e: Entry)
    requires t < |s.txs| && OthersIdle(s, t) && SameOthers(s, mid, t) && Inv(mid)
    requires Executes(s, mid, t) && DrawsOnly(s, mid, t, id) && !InsertsNext(s.txs[t])
    ensures Reaches(mid, s') && Inv(s') && SameOthers(s, s', t) && IdsCommitted(s, s')
    ensures e == mid.log[|s.log|] && s'.log == s.log + [e] && s'.txs[t].pc == Done(e.result)
    ensures s'.db == mid.db
  {
    e := mid.log[|s.log|];
    assert mid.log == s.log + [e];
    s' := SoloFinish(mid, t);
    IdsAddUp(s, mid, s', t, id);
  }

  /** A call that has not been decided and is left alone executes its atomic operation, under any free id. */
  lemma {:induction false} Solo(s: Sys, t: nat, id: nat) returns (s': Sys, e: Entry)
    requires Inv(s) && t < |s.txs| && OthersIdle(s, t) && Verdict(s.txs[t].pc) == None && Takes(s, t, id)
    ensures Reaches(s, s') && Inv(s') && SameOthers(s, s', t) && IdsCommitted(s, s')
    ensures s'.log == s.log + [e] && s'.txs[t].pc == Done(e.result)
    ensures e.op == s.txs[t].op && Faithful(e, s.db) && s'.db == Exec(e.op, s.db, e.newId).db
    ensures Inserts(e.op) && e.result.Ok? ==> e.newId == id
    ensures Inserted(s.txs[t]) ==> e.result.Ok?
    decreases Rank(s.txs[t].pc)
  {
    var mid := SoloStep(s, t, id);
    StepTakes(s, mid, t, id);
    if Stutters(s, mid, t) {
      s', e := Solo(mid, t, id);
      InsertedRow(e.op, s.db, id);
      IdsAddUp(s, mid, s', t, id);
    } else {
      s', e := SoloDecided(s, mid, t, id);
    }
    ReachesFurther(s, mid, s');
  }

  // ----- calls made one after the other ------------------------------------------------------

  ghost predicate AllIdle(s: Sys) {
    forall u: nat :: u < |s.txs| ==> Idle(s.txs[u].pc)
  }

  lemma InvokeCall(s: Sys, op: Op) returns (s': Sys)
    requires Inv(s) && WellFormed(op)
    ensures Reaches(s, s') && Inv(s') && SameTables(s, s')
    ensures s'.txs == s.txs + [Tx(op, Start, EMPTY, EMPTY, 0, {})]
  {
    var m := Move(|s.txs|, Invoke(op));
    s' := Next(s, m);
    StepReaches(s, m);
    NextKeepsInv(s, m);
  }

  /** Between calls, every operation can be run under any free id, and then it is its atomic operation. */
  lemma CallUnder(s: Sys, op: Op, id: nat) returns (s': Sys, e: Entry)
    requires Inv(s) && WellFormed(op) && AllIdle(s) && FreeFor(s, op, id)
    ensures Reaches(s, s') && Inv(s') && AllIdle(s') && IdsCommitted(s, s')
    ensures |s'.txs| == |s.txs| + 1 && s'.txs[..|s.txs|] == s.txs
    ensures s'.txs[|s.txs|].op == op && s'.txs[|s.txs|].pc == Done(e.result)
    ensures s'.log == s.log + [e] && e.op == op && Faithful(e, s.db) && s'.db == Exec(op, s.db, e.newId).db
    ensures Inserts(op) && e.result.Ok? ==> e.newId == id
  {
    var called := InvokeCall(s, op);
    s', e := Solo(called, |s.txs|, id);
    ReachesFurther(s, called, s');
    assert forall u: nat :: u < |s.txs| ==> s'.txs[u] == called.txs[u] == s.txs[u];
  }

  lemma CallAlone(s: Sys, op: Op) returns (s': Sys, e: Entry)
    requires Inv(s) && WellFormed(op) && AllIdle(s)
    ensures Reaches(s, s') && Inv(s') && AllIdle(s')
    ensures |s'.txs| == |s.txs| + 1 && s'.txs[..|s.txs|] == s.txs
    ensures s'.txs[|s.txs|].op == op && s'.txs[|s.txs|].pc == Done(e.result)
    ensures s'.log == s.log + [e] && e.op == op && Faithful(e, s.db) && s'.db == Exec(op, s.db, e.newId).db
  {
    var id := FreshId(s);
    s', e := CallUnder(s, op, id);
  }

  // ----- every history is a run -----------------------------------------------------------------

  /** The same operations with the same replies and events; the ids of inserted rows are part of the replies. */
  ghost predicate SameHistory(log: seq<Entry>, log': seq<Entry>) {
    && |log| == |log'|
    && forall i :: 0 <= i < |log| ==>
         log[i].op == log'[i].op && log[i].result == log'[i].result && log[i].event == log'[i].event
  }

  /** Only committed rows have used up ids. */
  ghost predicate NoIdLost(s: Sys) {
    s.carIds.Keys <= s.db.cars.Keys && s.rentalIds.Keys <= s.db.rentals.Keys
  }

  /** The id matters only to an insert that is accepted, and whether it is accepted does not depend on it. */
  lemma IdMatters(op: Op, db: Db, id: nat, id': nat)
    ensures Exec(op, db, id).result.Ok? <==> Exec(op, db, id').result.Ok?
    ensures !(Inserts(op) && Exec(op, db, id).result.Ok?) ==> Exec(op, db, id) == Exec(op, db, id')
  {
    match op
    case AddCar(_, _) =>
    case RegisterRental(_, _) =>
    case EndRental(_, _) =>
    case UpdateCar(_, _) =>
    case DeleteCar(_) =>
    case ListCars(_) =>
  }

  lemma SameEffect(db: Db, w: Entry, e: Entry, id: nat)
    requires Faithful(w, db) && Faithful(e, db) && e.op == w.op
    requires Inserts(w.op) && w.result.Ok? ==> id == w.newId
    requires Inserts(e.op) && e.result.Ok? ==> e.newId == id
    ensures Exec(w.op, db, w.newId) == Exec(w.op, db, e.newId)
    ensures e.result == w.result && e.event == w.event
  {
    IdMatters(w.op, db, w.newId, e.newId);
  }

  /** Runs one more entry of a history as an undisturbed call. */
  lemma ExtendRun(s: Sys, w: Entry) returns (s': Sys, e: Entry)
    requires Inv(s) && AllDone(s) && NoIdLost(s) && Faithful(w, s.db)
    ensures Reaches(s, s') && Inv(s') && AllDone(s') && NoIdLost(s')
    ensures s'.log == s.log + [e] && e.op == w.op && e.result == w.result && e.event == w.event
    ensures s'.db == Exec(w.op, s.db, w.newId).db
  {
    var id := FreshId(s);
    if Inserts(w.op) && w.result.Ok? {
      FreeAsCommitted(s, w);
      id := w.newId;
    }
    s', e := CallUnder(s, w.op, id);
    SameEffect(s.db, w, e, id);
    RowsStay(w.op, s.db, e.newId);
    StillDone(s, s');
  }

  lemma StillDone(s: Sys, s': Sys)
    requires AllDone(s) && |s'.txs| == |s.txs| + 1 && s'.txs[..|s.txs|] == s.txs && s'.txs[|s.txs|].pc.Done?
    ensures AllDone(s')
  {
    assert forall u: nat :: u < |s.txs| ==> s'.txs[u] == s'.txs[..|s.txs|][u] == s.txs[u];
  }

  lemma FreeAsCommitted(s: Sys, w: Entry)
    requires NoIdLost(s) && Faithful(w, s.db) && Inserts(w.op) && w.result.Ok?
    ensures FreeFor(s, w.op, w.newId)
  {
  }

  lemma HistoryGrows(log: seq<Entry>, log': seq<Entry>, e: Entry)
    requires |log'| > 0 && SameHistory(log, log'[..|log'| - 1])
    requires var w := log'[|log'| - 1]; e.op == w.op && e.result == w.result && e.event == w.event
    ensures SameHistory(log + [e], log')
  {
    forall i | 0 <= i < |log| ensures log'[i] == log'[..|log'| - 1][i] {}
  }

  lemma AtTheStart(init: Db)
    requires Schema(init)
    ensures Reachable(init, Init(init)) && Inv(Init(init)) && AllDone(Init(init)) && NoIdLost(Init(init))
  {
    ReachesItself(Init(init));
    ReachableInv(init, Init(init));
  }

  /**
    The converse of linearizability: every sequential history of the atomic operations, with its
    ids, replies and events, is the history of a run in which all calls are finished.
    */
  lemma {:induction false} HistoryIsRun(init: Db, log: seq<Entry>) returns (s: Sys)
    requires Schema(init) && ValidLog(init, log)
    ensures Reachable(init, s) && AllDone(s) && SameHistory(s.log, log) && s.db == Replay(init, log)
    ensures Inv(s) && NoIdLost(s)
  {
    if |log| == 0 {
      s := Init(init);
      AtTheStart(init);
    } else {
      var s0 := HistoryIsRun(init, log[..|log| - 1]);
      var s', e := ExtendRun(s0, log[|log| - 1]);
      HistoryGrows(s0.log, log, e);
      StaysReachable(init, s0, s');
      s := s';
    }
  }
}
