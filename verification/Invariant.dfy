/** What holds between any two steps of any number of interleaved calls. */
module Invariant {
  import opened Domain
  import opened Atomic
  import opened Protocol

  // ----- the invariant ------------------------------------------------------------

  ghost predicate DrewCar(s: Sys, t: nat, c: nat) {
    c in s.carIds && s.carIds[c] == Some(t)
  }

  ghost predicate DrewRental(s: Sys, t: nat, r: nat) {
    r in s.rentalIds && s.rentalIds[r] == Some(t)
  }

  ghost predicate Idle(pc: Pc) {
    pc.Start? || pc.RentalSeen? || pc.Publishing? || pc.Done?
  }

  /** The session copy of every locked row is the committed row overlaid with the owner's writes. */
  ghost predicate CacheAgrees(s: Sys, t: nat)
    requires t < |s.txs|
  {
    var tx := s.txs[t];
    && (forall c :: OwnsCar(s, t, c) ==>
          c in s.db.cars && c in tx.session.cars && tx.session.cars[c] == View(s, t).cars[c])
    && (forall r :: OwnsRental(s, t, r) ==>
          r in s.db.rentals && r in tx.session.rentals && tx.session.rentals[r] == View(s, t).rentals[r])
  }

  /** A rental row is only ever locked by the owner of its car's row. */
  ghost predicate CarBeforeRental(s: Sys, t: nat) {
    forall r :: OwnsRental(s, t, r) ==> r in s.db.rentals && OwnsCar(s, t, s.db.rentals[r].carId)
  }

  /** Uncommitted writes touch only locked rows and rows the call inserted, and rentals only of locked cars. */
  ghost predicate Guarded(s: Sys, t: nat)
    requires t < |s.txs|
  {
    var w := s.txs[t].writes;
    && (forall c :: c in w.cars ==> OwnsCar(s, t, c) || (c !in s.db.cars && DrewCar(s, t, c)))
    && (forall r :: r in w.rentals ==>
          && OwnsCar(s, t, w.rentals[r].carId)
          && (if r in s.db.rentals then s.db.rentals[r].carId == w.rentals[r].carId && OwnsRental(s, t, r)
              else DrewRental(s, t, r)))
  }

  ghost predicate OwnsNothing(s: Sys, t: nat) {
    && (forall c :: c in s.carLock ==> s.carLock[c] != t)
    && (forall r :: r in s.rentalLock ==> s.rentalLock[r] != t)
  }

  /** The car row is locked, live, and the session holds what is committed. */
  ghost predicate Held(s: Sys, t: nat, c: nat)
    requires t < |s.txs|
  {
    OwnsCar(s, t, c) && IsLive(s.db, c) && c in s.txs[t].session.cars && s.txs[t].session.cars[c] == s.db.cars[c]
  }

  /** The rental an ending call has seen exists, with the car it was seen with. */
  ghost predicate Known(s: Sys, tx: Tx)
    requires tx.op.EndRental?
  {
    var r := tx.op.rentalId;
    r in s.db.rentals && r in tx.session.rentals && tx.session.rentals[r].carId == s.db.rentals[r].carId
  }

  ghost predicate MayRent(s: Sys, tx: Tx)
    requires tx.op.RegisterRental?
  {
    var c := tx.op.dto.carId;
    StartsToday(tx.op) && tx.op.dto.startDate <= tx.op.dto.endDate && IsLive(s.db, c) && s.db.cars[c].status.Available?
  }

  ghost predicate MayEnd(s: Sys, t: nat)
    requires t < |s.txs| && s.txs[t].op.EndRental?
  {
    var r := s.txs[t].op.rentalId;
    && r in s.db.rentals && OwnsRental(s, t, r)
    && s.db.rentals[r].IsActive() && s.db.rentals[r].startDate <= s.txs[t].op.today
  }

  ghost predicate MayUpdate(s: Sys, tx: Tx)
    requires tx.op.UpdateCar?
  {
    var c := tx.op.carId;
    IsLive(s.db, c) && tx.actual == Actual(s.db.cars[c], tx.op.patch) && !Illegal(s.db.cars[c], tx.op.patch)
  }

  /** What is known at each point of a call. */
  ghost predicate PcFacts(s: Sys, t: nat)
    requires t < |s.txs|
  {
    var tx := s.txs[t];
    match tx.pc
    case Start => tx.session == EMPTY && tx.actual == {} && tx.newId == 0
    case RentalSeen => tx.op.EndRental? && Known(s, tx)
    case CarLocked => tx.writes == EMPTY && AtCarLocked(s, t)
    case NoActive => tx.writes == EMPTY && AtNoActive(s, t)
    case RentalAdded =>
      && tx.op.RegisterRental? && Held(s, t, tx.op.dto.carId) && MayRent(s, tx) && !HasActive(s.db, tx.op.dto.carId)
      && tx.newId !in s.db.rentals && DrewRental(s, t, tx.newId)
      && tx.writes == RentalOnly(tx.newId, NewRental(tx.op.dto))
      && tx.newId in tx.session.rentals && tx.session.rentals[tx.newId] == NewRental(tx.op.dto)
    case RentalLocked =>
      && tx.writes == EMPTY && tx.op.EndRental? && MayEnd(s, t) && Held(s, t, s.db.rentals[tx.op.rentalId].carId)
      && tx.op.rentalId in tx.session.rentals
      && tx.session.rentals[tx.op.rentalId] == s.db.rentals[tx.op.rentalId]
    case RentalFlushed => tx.op.EndRental? && BeforeCommit(s, t)
    case Ready => BeforeCommit(s, t)
    case RollingBack(why) => !why.Ok? && why != Failed(Integrity)
    case Publishing(_, reply) => reply.Ok?
    case Done(reply) => reply != Failed(Integrity)
  }

  ghost predicate AtCarLocked(s: Sys, t: nat)
    requires t < |s.txs|
  {
    var tx := s.txs[t];
    match tx.op
    case RegisterRental(dto, _) => Held(s, t, dto.carId) && MayRent(s, tx)
    case UpdateCar(c, _) => Held(s, t, c) && MayUpdate(s, tx) && tx.actual != {}
    case DeleteCar(c) => Held(s, t, c)
    case EndRental(r, _) => Known(s, tx) && Held(s, t, s.db.rentals[r].carId)
    case AddCar(_, _) => false
    case ListCars(_) => false
  }

  ghost predicate AtNoActive(s: Sys, t: nat)
    requires t < |s.txs|
  {
    var tx := s.txs[t];
    match tx.op
    case RegisterRental(dto, _) => Held(s, t, dto.carId) && MayRent(s, tx) && !HasActive(s.db, dto.carId)
    case DeleteCar(c) => Held(s, t, c) && !HasActive(s.db, c)
    case _ => false
  }

  /** Everything is flushed: the writes are exactly those of the atomic operation on the committed tables. */
  ghost predicate BeforeCommit(s: Sys, t: nat)
    requires t < |s.txs|
  {
    var tx := s.txs[t];
    match tx.op
    case AddCar(model, year) =>
      && tx.newId !in s.db.cars && DrewCar(s, t, tx.newId)
      && tx.writes == CarOnly(tx.newId, NewCar(model, year))
      && tx.newId in tx.session.cars && tx.session.cars[tx.newId] == NewCar(model, year)
    case UpdateCar(c, patch) =>
      && OwnsCar(s, t, c) && MayUpdate(s, tx) && c in tx.session.cars
      && (if tx.actual == {} then tx.writes == EMPTY && tx.session.cars[c] == s.db.cars[c]
          else tx.writes == CarOnly(c, Overlaid(s.db.cars[c], patch))
               && tx.session.cars[c] == Overlaid(s.db.cars[c], patch))
    case DeleteCar(c) =>
      && OwnsCar(s, t, c) && IsLive(s.db, c) && !HasActive(s.db, c)
      && tx.writes == CarOnly(c, s.db.cars[c].(retired := true))
      && c in tx.session.cars && tx.session.cars[c] == s.db.cars[c].(retired := true)
    case RegisterRental(dto, _) =>
      && OwnsCar(s, t, dto.carId) && MayRent(s, tx) && !HasActive(s.db, dto.carId)
      && tx.newId !in s.db.rentals && DrewRental(s, t, tx.newId)
      && tx.writes == Overlay(RentalOnly(tx.newId, NewRental(dto)),
                              CarOnly(dto.carId, s.db.cars[dto.carId].(status := InUse)))
      && tx.newId in tx.session.rentals && tx.session.rentals[tx.newId] == NewRental(dto)
      && dto.carId in tx.session.cars
    case EndRental(r, today) =>
      && MayEnd(s, t) && OwnsCar(s, t, s.db.rentals[r].carId) && IsLive(s.db, s.db.rentals[r].carId)
      && tx.writes == Db(map[s.db.rentals[r].carId := s.db.cars[s.db.rentals[r].carId].(status := Available)],
                          map[r := s.db.rentals[r].(returned := Some(today))])
      && r in tx.session.rentals && tx.session.rentals[r] == s.db.rentals[r].(returned := Some(today))
      && s.db.rentals[r].carId in tx.session.cars
    case ListCars(_) => false
  }

  ghost predicate TxInv(s: Sys, t: nat)
    requires t < |s.txs|
  {
    && WellFormed(s.txs[t].op)
    && CacheAgrees(s, t)
    && CarBeforeRental(s, t)
    && Guarded(s, t)
    && (Idle(s.txs[t].pc) ==> s.txs[t].writes == EMPTY && OwnsNothing(s, t))
    && PcFacts(s, t)
  }

  ghost predicate Global(s: Sys) {
    && Schema(s.db)
    && (forall c :: c in s.carLock ==> s.carLock[c] < |s.txs|)
    && (forall r :: r in s.rentalLock ==> s.rentalLock[r] < |s.txs|)
    && s.db.cars.Keys <= s.carIds.Keys
    && s.db.rentals.Keys <= s.rentalIds.Keys
  }

  ghost predicate Inv(s: Sys) {
    Global(s) && forall t: nat :: t < |s.txs| ==> TxInv(s, t)
  }

  // ----- interference: what a step of one call leaves alone for another -----------------

  /** A step by `t`: other calls keep their state and locks, ids stay drawn, rows change only by commit. */
  ghost predicate StepBy(s: Sys, s': Sys, t: nat)
    requires t < |s.txs|
  {
    && |s'.txs| == |s.txs| && s'.txs[t].op == s.txs[t].op
    && (forall u: nat :: u < |s.txs| && u != t ==> s'.txs[u] == s.txs[u])
    && (forall u, c :: u != t ==> (OwnsCar(s', u, c) <==> OwnsCar(s, u, c)))
    && (forall u, r :: u != t ==> (OwnsRental(s', u, r) <==> OwnsRental(s, u, r)))
    && (forall u, c :: DrewCar(s, u, c) ==> DrewCar(s', u, c))
    && (forall u, r :: DrewRental(s, u, r) ==> DrewRental(s', u, r))
    && (s'.db == s.db || s'.db == View(s, t))
  }

  /** What `u` relies on while others step. */
  ghost predicate Rely(s: Sys, s': Sys, u: nat)
    requires u < |s.txs|
  {
    && u < |s'.txs| && s'.txs[u] == s.txs[u]
    && (forall c :: OwnsCar(s', u, c) <==> OwnsCar(s, u, c))
    && (forall r :: OwnsRental(s', u, r) <==> OwnsRental(s, u, r))
    && (forall c :: OwnsCar(s, u, c) && c in s.db.cars ==> c in s'.db.cars && s'.db.cars[c] == s.db.cars[c])
    && (forall r :: r in s.db.rentals ==> r in s'.db.rentals && s'.db.rentals[r].carId == s.db.rentals[r].carId)
    && (forall r :: r in s'.db.rentals && OwnsCar(s, u, s'.db.rentals[r].carId) ==>
          r in s.db.rentals && s'.db.rentals[r] == s.db.rentals[r])
    && (forall c :: DrewCar(s, u, c) ==> DrewCar(s', u, c) && (c in s'.db.cars ==> c in s.db.cars))
    && (forall r :: DrewRental(s, u, r) ==> DrewRental(s', u, r) && (r in s'.db.rentals ==> r in s.db.rentals))
  }

  lemma StepGivesRely(s: Sys, s': Sys, t: nat, u: nat)
    requires t < |s.txs| && u < |s.txs| && u != t && StepBy(s, s', t)
    requires CacheAgrees(s, t) && CacheAgrees(s, u) && Guarded(s, t)
    ensures Rely(s, s', u)
  {
  }

  lemma ActiveUnderRely(s: Sys, s': Sys, u: nat, c: nat)
    requires u < |s.txs| && Rely(s, s', u) && OwnsCar(s, u, c)
    ensures HasActive(s'.db, c) <==> HasActive(s.db, c)
  {
  }

  lemma RelyKeepsCommon(s: Sys, s': Sys, u: nat)
    requires u < |s.txs| && Rely(s, s', u) && TxInv(s, u)
    ensures CacheAgrees(s', u) && CarBeforeRental(s', u) && Guarded(s', u)
    ensures Idle(s'.txs[u].pc) ==> s'.txs[u].writes == EMPTY && OwnsNothing(s', u)
  {
    forall c | OwnsCar(s', u, c)
      ensures c in s'.db.cars && c in s'.txs[u].session.cars && s'.txs[u].session.cars[c] == View(s', u).cars[c]
    {
      assert OwnsCar(s, u, c);
    }
    forall r | OwnsRental(s', u, r)
      ensures r in s'.db.rentals && OwnsCar(s', u, s'.db.rentals[r].carId)
      ensures r in s'.txs[u].session.rentals && s'.txs[u].session.rentals[r] == View(s', u).rentals[r]
    {
      assert OwnsRental(s, u, r);
    }
    if Idle(s.txs[u].pc) {
      forall c | c in s'.carLock ensures s'.carLock[c] != u {
        assert !OwnsCar(s, u, c);
        assert !OwnsCar(s', u, c);
      }
      forall r | r in s'.rentalLock ensures s'.rentalLock[r] != u {
        assert !OwnsRental(s, u, r);
        assert !OwnsRental(s', u, r);
      }
    }
  }

  lemma RelyKeepsFlushed(s: Sys, s': Sys, u: nat)
    requires u < |s.txs| && Rely(s, s', u) && BeforeCommit(s, u)
    ensures BeforeCommit(s', u)
  {
  }

  lemma RelyKeepsFacts(s: Sys, s': Sys, u: nat)
    requires u < |s.txs| && Rely(s, s', u) && TxInv(s, u)
    ensures PcFacts(s', u)
  {
    var tx := s.txs[u];
    forall c | OwnsCar(s, u, c) ensures HasActive(s'.db, c) <==> HasActive(s.db, c) {
      ActiveUnderRely(s, s', u, c);
    }
    match tx.pc
    case Start =>
    case RentalSeen =>
    case CarLocked =>
    case NoActive =>
    case RentalAdded =>
    case RentalLocked =>
    case RentalFlushed => RelyKeepsFlushed(s, s', u);
    case Ready => RelyKeepsFlushed(s, s', u);
    case RollingBack(_) =>
    case Publishing(_, _) =>
    case Done(_) =>
  }

  lemma RelyKeepsTx(s: Sys, s': Sys, u: nat)
    requires u < |s.txs| && Rely(s, s', u) && TxInv(s, u)
    ensures TxInv(s', u)
  {
    RelyKeepsCommon(s, s', u);
    RelyKeepsFacts(s, s', u);
  }
}
