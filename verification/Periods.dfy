/**
  The test that `register_rental` does not make. Made at any moment at which the call owns its
  car's lock, it decides whether rental periods overlap.
  */
module Periods {
  import opened Domain
  import opened Atomic
  import opened History
  import opened Protocol
  import opened Invariant
  import opened Preservation
  import opened Refinement
  import opened Liveness
  import opened Completeness
  import opened Guarantees

  /** The call owns its car's lock, and no rental of the car has been returned later than its `today`. */
  ghost predicate Passes(s: Sys, t: nat) {
    && t < |s.txs| && s.txs[t].op.RegisterRental? && OwnsCar(s, t, s.txs[t].op.dto.carId)
    && NoLaterReturn(s.db, s.txs[t].op.dto.carId, s.txs[t].op.today)
  }

  ghost function PassingNow(s: Sys): set<nat> {
    set t: nat | t < |s.txs| && Passes(s, t)
  }

  /** The calls that have passed in some state of the run. */
  ghost function Passed(sched: seq<Move>): set<nat>
    requires ValidRun(Init(EMPTY), sched)
  {
    PassingNow(Run(Init(EMPTY), sched)) + (if |sched| == 0 then {} else Passed(sched[..|sched| - 1]))
  }

  /** The points at which an undecided registration owns its car's lock. */
  predicate Holding(pc: Pc) {
    pc.CarLocked? || pc.NoActive? || pc.RentalAdded? || pc.Ready?
  }

  /** While the call holds the lock, having passed at some time is the same as passing now. */
  ghost predicate CallTested(s: Sys, passed: set<nat>, t: nat)
    requires t < |s.txs|
  {
    var tx := s.txs[t];
    tx.op.RegisterRental? ==>
      && (tx.pc.Start? ==> t !in passed)
      && (Holding(tx.pc) ==> (t in passed <==> NoLaterReturn(s.db, tx.op.dto.carId, tx.op.today)))
  }

  /** A registration has passed at some time exactly if it passes on the tables it took effect on. */
  ghost predicate EntryTested(log: seq<Entry>, passed: set<nat>, j: nat)
    requires j < |log|
  {
    Registered(log[j]) ==>
      (log[j].tid in passed <==> NoLaterReturn(Replay(EMPTY, log[..j]), log[j].op.dto.carId, log[j].op.today))
  }

  ghost predicate TestInv(s: Sys, passed: set<nat>) {
    && (forall t :: t in passed ==> t < |s.txs|)
    && (forall t: nat :: t < |s.txs| ==> CallTested(s, passed, t))
    && (forall j: nat :: j < |s.log| ==> EntryTested(s.log, passed, j))
  }

  lemma HolderOwns(s: Sys, t: nat)
    requires Inv(s) && t < |s.txs| && s.txs[t].op.RegisterRental?
    ensures Holding(s.txs[t].pc) ==> OwnsCar(s, t, s.txs[t].op.dto.carId)
    ensures Idle(s.txs[t].pc) ==> !Passes(s, t)
  {
    assert TxInv(s, t);
  }

  // ----- one step ------------------------------------------------------------------------------

  /** How a step of `t` matters here: it never returns to the start, and commits only while holding the lock. */
  ghost predicate Progresses(s: Sys, s': Sys, t: nat)
    requires t < |s.txs|
  {
    && StepBy(s, s', t) && !s'.txs[t].pc.Start?
    && (s.txs[t].op.RegisterRental? && Holding(s'.txs[t].pc) ==>
          s'.db == s.db && (s.txs[t].pc.Start? || Holding(s.txs[t].pc)))
    && (s'.log == s.log
        || (|s'.log| == |s.log| + 1 && s'.log[..|s.log|] == s.log && s'.log[|s.log|].tid == t
            && s'.log[|s.log|].op == s.txs[t].op && (Registered(s'.log[|s.log|]) ==> Holding(s.txs[t].pc))))
  }

  lemma StepProgresses(s: Sys, m: Move)
    requires Inv(s) && Enabled(s, m) && !m.action.Invoke?
    ensures m.tid < |s.txs| && Progresses(s, Next(s, m), m.tid)
  {
    var t, s' := m.tid, Next(s, m);
    NextKeepsInv(s, m);
    StepRefines(s, m);
    assert TxInv(s, t);
    if m.action.Step? {
      AdvanceLowers(s, t, m.action.newId);
      AdvanceDraws(s, t, m.action.newId);
    } else {
      FailLowers(s, t);
    }
  }

  lemma OtherStaysTested(s: Sys, s': Sys, passed: set<nat>, t: nat, u: nat)
    requires Inv(s) && Inv(s') && t < |s.txs| && StepBy(s, s', t) && u < |s.txs| && u != t
    requires CallTested(s, passed, u)
    ensures CallTested(s', passed + PassingNow(s'), u)
  {
    var tx := s.txs[u];
    if tx.op.RegisterRental? {
      assert TxInv(s, t) && TxInv(s, u);
      HolderOwns(s, u);
      HolderOwns(s', u);
      StepGivesRely(s, s', t, u);
      if Holding(tx.pc) {
        ReturnsUnderRely(s, s', u, tx.op.dto.carId, tx.op.today);
      }
    }
  }

  lemma StepperStaysTested(s: Sys, s': Sys, passed: set<nat>, t: nat)
    requires Inv(s') && t < |s.txs| && Progresses(s, s', t) && CallTested(s, passed, t)
    ensures CallTested(s', passed + PassingNow(s'), t)
  {
    if s.txs[t].op.RegisterRental? {
      HolderOwns(s', t);
    }
  }

  /** A registration in the log is past its commit and owns nothing. */
  lemma RegisteredIsIdle(s: Sys, j: nat)
    requires Inv(s) && LogInv(EMPTY, s) && j < |s.log| && Registered(s.log[j])
    ensures s.log[j].tid < |s.txs| && s.txs[s.log[j].tid].op == s.log[j].op && !Passes(s, s.log[j].tid)
  {
    var t := s.log[j].tid;
    assert Linked(s, t) && TxInv(s, t);
    var verdict := Verdict(s.txs[t].pc);
    assert verdict.Some?;
    if !verdict.value.Failed? {
      var i :| 0 <= i < |s.log| && s.log[i].tid == t && s.log[i].result == verdict.value;
      assert !(i < j) && !(j < i);
    }
    HolderOwns(s, t);
  }

  lemma OldEntryStaysTested(s: Sys, s': Sys, passed: set<nat>, j: nat)
    requires Inv(s') && LogInv(EMPTY, s') && j < |s.log| <= |s'.log| && s'.log[..|s.log|] == s.log
    requires EntryTested(s.log, passed, j)
    ensures EntryTested(s'.log, passed + PassingNow(s'), j)
  {
    assert s'.log[j] == s'.log[..|s.log|][j] == s.log[j];
    assert s'.log[..j] == s'.log[..|s.log|][..j] == s.log[..j];
    if Registered(s'.log[j]) {
      RegisteredIsIdle(s', j);
    }
  }

  lemma NewEntryIsTested(s: Sys, s': Sys, passed: set<nat>, t: nat)
    requires Inv(s') && LogInv(EMPTY, s) && LogInv(EMPTY, s') && t < |s.txs| && Progresses(s, s', t)
    requires |s'.log| == |s.log| + 1 && CallTested(s, passed, t)
    ensures EntryTested(s'.log, passed + PassingNow(s'), |s.log|)
  {
    if Registered(s'.log[|s.log|]) {
      RegisteredIsIdle(s', |s.log|);
    }
  }

  lemma StepKeepsTest(s: Sys, s': Sys, passed: set<nat>, t: nat)
    requires Inv(s) && Inv(s') && LogInv(EMPTY, s) && LogInv(EMPTY, s') && TestInv(s, passed)
    requires t < |s.txs| && Progresses(s, s', t)
    ensures TestInv(s', passed + PassingNow(s'))
  {
    var passed' := passed + PassingNow(s');
    forall u: nat | u < |s'.txs| ensures CallTested(s', passed', u) {
      if u == t {
        StepperStaysTested(s, s', passed, t);
      } else {
        OtherStaysTested(s, s', passed, t, u);
      }
    }
    forall j: nat | j < |s'.log| ensures EntryTested(s'.log, passed', j) {
      if j < |s.log| {
        OldEntryStaysTested(s, s', passed, j);
      } else {
        NewEntryIsTested(s, s', passed, t);
      }
    }
  }

  lemma InvokeKeepsTest(s: Sys, op: Op, passed: set<nat>)
    requires Inv(s) && LogInv(EMPTY, s) && WellFormed(op) && TestInv(s, passed)
    ensures var s' := Next(s, Move(|s.txs|, Invoke(op))); TestInv(s', passed + PassingNow(s'))
  {
    var s' := Next(s, Move(|s.txs|, Invoke(op)));
    var passed' := passed + PassingNow(s');
    InvokeStep(s, op);
    NextKeepsLog(EMPTY, s, Move(|s.txs|, Invoke(op)));
    forall u: nat | u < |s'.txs| ensures CallTested(s', passed', u) {
      if s'.txs[u].op.RegisterRental? {
        HolderOwns(s', u);
        if u < |s.txs| { assert CallTested(s, passed, u); }
      }
    }
    forall j: nat | j < |s'.log| ensures EntryTested(s'.log, passed', j) {
      OldEntryStaysTested(s, s', passed, j);
    }
  }

  // ----- whole runs -----------------------------------------------------------------------------

  lemma {:induction false} RunKeepsTest(sched: seq<Move>)
    requires ValidRun(Init(EMPTY), sched)
    ensures TestInv(Run(Init(EMPTY), sched), Passed(sched))
  {
    if |sched| == 0 {
    } else {
      var prefix, m := sched[..|sched| - 1], sched[|sched| - 1];
      RunKeepsTest(prefix);
      RunSnoc(Init(EMPTY), prefix, sched);
      RunKeepsInv(EMPTY, prefix);
      RunKeepsLog(EMPTY, prefix);
      NextKeepsTest(Run(Init(EMPTY), prefix), m, Passed(prefix));
      assert Passed(sched) == Passed(prefix) + PassingNow(Run(Init(EMPTY), sched));
    }
  }

  lemma NextKeepsTest(s: Sys, m: Move, passed: set<nat>)
    requires Inv(s) && LogInv(EMPTY, s) && Enabled(s, m) && TestInv(s, passed)
    ensures TestInv(Next(s, m), passed + PassingNow(Next(s, m)))
  {
    match m.action
    case Invoke(op) => InvokeKeepsTest(s, op, passed);
    case _ =>
      NextKeepsInv(s, m);
      NextKeepsLog(EMPTY, s, m);
      StepProgresses(s, m);
      StepKeepsTest(s, Next(s, m), passed, m.tid);
  }

  /** Every successful registration is among the calls that passed. */
  ghost predicate AllPassed(log: seq<Entry>, passed: set<nat>) {
    forall j :: 0 <= j < |log| && Registered(log[j]) ==> log[j].tid in passed
  }

  lemma PassedIffRespected(s: Sys, passed: set<nat>)
    requires TestInv(s, passed)
    ensures AllPassed(s.log, passed) <==> ReturnsRespected(EMPTY, s.log)
  {
    if AllPassed(s.log, passed) {
      forall j | 0 <= j < |s.log| && Registered(s.log[j])
        ensures NoLaterReturn(Replay(EMPTY, s.log[..j]), s.log[j].op.dto.carId, s.log[j].op.today)
      {
        assert EntryTested(s.log, passed, j);
      }
    }
    if ReturnsRespected(EMPTY, s.log) {
      forall j | 0 <= j < |s.log| && Registered(s.log[j]) ensures s.log[j].tid in passed {
        assert EntryTested(s.log, passed, j);
        assert NoLaterReturn(Replay(EMPTY, s.log[..j]), s.log[j].op.dto.carId, s.log[j].op.today);
      }
    }
  }

  /**
    In any run the periods of one car are disjoint if and only if every successful registration
    passed the test at some moment at which it owned its car's lock.
    */
  lemma DisjointIffPassedUnderLock(sched: seq<Move>)
    requires ValidRun(Init(EMPTY), sched)
    ensures var s := Run(Init(EMPTY), sched); NonOverlapping(s.log, s.db) <==> AllPassed(s.log, Passed(sched))
  {
    var s := Run(Init(EMPTY), sched);
    RunKeepsTest(sched);
    RunKeepsLog(EMPTY, sched);
    NonOverlapIffReturnsRespected(EMPTY, s.log);
    PassedIffRespected(s, Passed(sched));
  }
}
