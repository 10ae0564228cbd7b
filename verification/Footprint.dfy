/**
  The five shapes a step can have, whatever the call is doing: it changes only its own
  variables, locks a car row, locks a rental row, flushes rows, or leaves by commit or rollback.
  */
module Footprint {
  import opened Domain
  import opened Atomic
  import opened Protocol
  import opened Invariant

  /** A step by `t` that kept its own facts and the global ones. */
  ghost predicate GoodStep(s: Sys, s': Sys, t: nat)
    requires t < |s.txs|
  {
    StepBy(s, s', t) && Global(s') && TxInv(s', t)
  }

  /** Only the state of `t` changes. */
  ghost predicate OnlyTx(s: Sys, s': Sys, t: nat)
    requires t < |s.txs|
  {
    |s'.txs| == |s.txs| && s'.txs == s.txs[t := s'.txs[t]] && s'.txs[t].op == s.txs[t].op
  }

  ghost predicate SameIds(s: Sys, s': Sys) {
    s'.carIds == s.carIds && s'.rentalIds == s.rentalIds
  }

  ghost predicate SameLocks(s: Sys, s': Sys) {
    s'.carLock == s.carLock && s'.rentalLock == s.rentalLock
  }

  /** Rows already in the session stay there, as they are. */
  ghost predicate SessionGrows(tx: Tx, tx': Tx) {
    && (forall c :: c in tx.session.cars ==> c in tx'.session.cars && tx'.session.cars[c] == tx.session.cars[c])
    && (forall r :: r in tx.session.rentals ==>
          r in tx'.session.rentals && tx'.session.rentals[r] == tx.session.rentals[r])
  }

  lemma QuietKeepsAgreement(s: Sys, s': Sys, t: nat)
    requires t < |s.txs| && CacheAgrees(s, t) && CarBeforeRental(s, t) && OnlyTx(s, s', t)
    requires s'.db == s.db && SameLocks(s, s')
    requires s'.txs[t].writes == s.txs[t].writes && SessionGrows(s.txs[t], s'.txs[t])
    ensures CacheAgrees(s', t) && CarBeforeRental(s', t)
  {
  }

  lemma QuietStep(s: Sys, s': Sys, t: nat)
    requires Global(s) && t < |s.txs| && TxInv(s, t) && OnlyTx(s, s', t)
    requires s'.db == s.db && SameLocks(s, s') && SameIds(s, s')
    requires s'.txs[t].writes == s.txs[t].writes && SessionGrows(s.txs[t], s'.txs[t])
    requires Idle(s'.txs[t].pc) ==> Idle(s.txs[t].pc)
    requires PcFacts(s', t)
    ensures GoodStep(s, s', t)
  {
    QuietKeepsAgreement(s, s', t);
    assert Guarded(s', t) by {
      assert forall c :: OwnsCar(s', t, c) <==> OwnsCar(s, t, c);
    }
  }

  lemma GrantCarStep(s: Sys, s': Sys, t: nat, c: nat)
    requires Global(s) && t < |s.txs| && TxInv(s, t) && OnlyTx(s, s', t) && Idle(s.txs[t].pc)
    requires s'.db == s.db && SameIds(s, s')
    requires s'.carLock == s.carLock[c := t] && s'.rentalLock == s.rentalLock
    requires c in s.db.cars && c !in s.carLock
    requires s'.txs[t].writes == s.txs[t].writes && !Idle(s'.txs[t].pc)
    requires c in s'.txs[t].session.cars && s'.txs[t].session.cars[c] == s.db.cars[c]
    requires PcFacts(s', t)
    ensures GoodStep(s, s', t)
  {
    assert OwnsNothing(s, t);
    assert forall d :: OwnsCar(s', t, d) <==> d == c;
    assert forall r :: !OwnsRental(s', t, r);
  }

  lemma GrantRentalStep(s: Sys, s': Sys, t: nat, r: nat)
    requires Global(s) && t < |s.txs| && TxInv(s, t) && OnlyTx(s, s', t)
    requires s'.db == s.db && SameIds(s, s')
    requires s'.carLock == s.carLock && s'.rentalLock == s.rentalLock[r := t]
    requires r in s.db.rentals && OwnsCar(s, t, s.db.rentals[r].carId)
    requires r in s.rentalLock ==> s.rentalLock[r] == t
    requires s.txs[t].writes == EMPTY && s'.txs[t].writes == EMPTY && !Idle(s'.txs[t].pc)
    requires s'.txs[t].session == PutRental(s.txs[t].session, r, s.db.rentals[r])
    requires PcFacts(s', t)
    ensures GoodStep(s, s', t)
  {
    OverlayEmpty(s.db);
    forall c | OwnsCar(s', t, c)
      ensures c in s'.db.cars && c in s'.txs[t].session.cars && s'.txs[t].session.cars[c] == View(s', t).cars[c]
    {
      assert OwnsCar(s, t, c);
    }
    forall q | OwnsRental(s', t, q)
      ensures q in s'.db.rentals && OwnsCar(s', t, s'.db.rentals[q].carId)
      ensures q in s'.txs[t].session.rentals && s'.txs[t].session.rentals[q] == View(s', t).rentals[q]
    {
      if q != r { assert OwnsRental(s, t, q); }
    }
  }

  /** Ids already drawn keep their owner. */
  ghost predicate IdsGrow(s: Sys, s': Sys) {
    && (forall c :: c in s.carIds ==> c in s'.carIds && s'.carIds[c] == s.carIds[c])
    && (forall r :: r in s.rentalIds ==> r in s'.rentalIds && s'.rentalIds[r] == s.rentalIds[r])
  }

  /** The rows a flush sends: the session and the uncommitted writes change together. */
  ghost predicate Flushes(s: Sys, s': Sys, t: nat, rows: Db)
    requires t < |s.txs|
  {
    && OnlyTx(s, s', t) && s'.db == s.db && SameLocks(s, s') && IdsGrow(s, s')
    && s'.txs[t].session == Overlay(s.txs[t].session, rows)
    && s'.txs[t].writes == Overlay(s.txs[t].writes, rows)
  }

  ghost predicate Covered(s: Sys, s': Sys, t: nat, rows: Db) {
    && (forall c :: c in rows.cars ==> OwnsCar(s, t, c) || (c !in s.db.cars && DrewCar(s', t, c)))
    && (forall r :: r in rows.rentals ==>
          && OwnsCar(s, t, rows.rentals[r].carId)
          && (if r in s.db.rentals then s.db.rentals[r].carId == rows.rentals[r].carId && OwnsRental(s, t, r)
              else DrewRental(s', t, r)))
  }

  lemma FlushKeepsAgreement(s: Sys, s': Sys, t: nat, rows: Db)
    requires t < |s.txs| && CacheAgrees(s, t) && Flushes(s, s', t, rows)
    ensures CacheAgrees(s', t)
  {
  }

  lemma FlushKeepsGuard(s: Sys, s': Sys, t: nat, rows: Db)
    requires t < |s.txs| && Guarded(s, t) && Flushes(s, s', t, rows) && Covered(s, s', t, rows)
    ensures Guarded(s', t)
  {
  }

  lemma FlushStep(s: Sys, s': Sys, t: nat, rows: Db)
    requires Global(s) && t < |s.txs| && TxInv(s, t) && Flushes(s, s', t, rows) && Covered(s, s', t, rows)
    requires !Idle(s'.txs[t].pc) && PcFacts(s', t)
    ensures GoodStep(s, s', t)
  {
    FlushKeepsAgreement(s, s', t, rows);
    FlushKeepsGuard(s, s', t, rows);
    assert CarBeforeRental(s', t) by {
      forall r | OwnsRental(s', t, r) ensures r in s'.db.rentals && OwnsCar(s', t, s'.db.rentals[r].carId) {
        assert OwnsRental(s, t, r);
      }
    }
    assert StepBy(s, s', t);
  }

  /** Every row a commit would install has an id that was drawn. */
  lemma WritesHaveDrawnIds(s: Sys, t: nat)
    requires Global(s) && t < |s.txs| && TxInv(s, t)
    ensures View(s, t).cars.Keys <= s.carIds.Keys && View(s, t).rentals.Keys <= s.rentalIds.Keys
  {
  }

  ghost predicate Released(s: Sys, s': Sys, t: nat) {
    s'.carLock == Release(s, t).carLock && s'.rentalLock == Release(s, t).rentalLock
  }

  lemma ReleaseFreesOwn(s: Sys, s': Sys, t: nat)
    requires Released(s, s', t)
    ensures OwnsNothing(s', t)
    ensures forall c :: !OwnsCar(s', t, c)
    ensures forall r :: !OwnsRental(s', t, r)
    ensures forall u: nat, c: nat :: u != t ==> (OwnsCar(s', u, c) <==> OwnsCar(s, u, c))
    ensures forall u: nat, r: nat :: u != t ==> (OwnsRental(s', u, r) <==> OwnsRental(s, u, r))
    ensures s'.carLock.Keys <= s.carLock.Keys && forall c :: c in s'.carLock ==> s'.carLock[c] == s.carLock[c]
    ensures s'.rentalLock.Keys <= s.rentalLock.Keys
    ensures forall r :: r in s'.rentalLock ==> s'.rentalLock[r] == s.rentalLock[r]
  {
  }

  /** Commit and rollback: the locks go, and the writes are either installed or dropped. */
  lemma LeaveStep(s: Sys, s': Sys, t: nat)
    requires Global(s) && t < |s.txs| && TxInv(s, t) && OnlyTx(s, s', t)
    requires Released(s, s', t) && SameIds(s, s')
    requires s'.db == s.db || (s'.db == View(s, t) && Schema(View(s, t)))
    requires s'.txs[t].writes == EMPTY && Idle(s'.txs[t].pc) && PcFacts(s', t)
    ensures GoodStep(s, s', t)
  {
    ReleaseFreesOwn(s, s', t);
    WritesHaveDrawnIds(s, t);
    assert Global(s');
    assert StepBy(s, s', t);
  }
}
