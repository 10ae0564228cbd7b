/** What holds of every schedule of any number of concurrent calls. */
module Guarantees {
  import opened Domain
  import opened Atomic
  import opened AtomicLaws
  import opened History
  import opened Protocol
  import opened Invariant
  import opened Preservation
  import opened Refinement
  import opened Liveness

  // ----- linearizability --------------------------------------------------------------------

  /** Every call that finished normally has a place in the log, with the reply it gave. */
  ghost predicate RepliesInLog(s: Sys) {
    forall t: nat :: t < |s.txs| && s.txs[t].pc.Done? && !s.txs[t].pc.reply.Failed? ==>
      exists i :: 0 <= i < |s.log| && s.log[i].tid == t && s.log[i].result == s.txs[t].pc.reply
  }

  ghost predicate FailuresHaveNoEffect(s: Sys) {
    forall i :: 0 <= i < |s.log| && s.log[i].tid < |s.txs| ==>
      var pc := s.txs[s.log[i].tid].pc;
      pc.Done? && pc.reply.Failed? ==> s.log[i].result.Rejected?
  }

  ghost predicate OneEntryPerCall(s: Sys) {
    && (forall i :: 0 <= i < |s.log| ==> s.log[i].tid < |s.txs| && s.log[i].op == s.txs[s.log[i].tid].op)
    && (forall i, j :: 0 <= i < j < |s.log| ==> s.log[i].tid != s.log[j].tid)
  }

  /**
    The committed tables are those of a sequential history of the atomic operations, and every
    finished call returned what it returned there, at its one place in that history. A failed
    call has no effect in it.
    */
  lemma Linearizable(init: Db, s: Sys)
    requires Reachable(init, s)
    ensures ValidLog(init, s.log) && Replay(init, s.log) == s.db
    ensures OneEntryPerCall(s) && RepliesInLog(s) && FailuresHaveNoEffect(s)
  {
    ReachableLog(init, s);
    LinksGiveReplies(init, s);
  }

  lemma LinksGiveReplies(init: Db, s: Sys)
    requires LogInv(init, s)
    ensures RepliesInLog(s) && FailuresHaveNoEffect(s)
  {
    forall t: nat | t < |s.txs| && s.txs[t].pc.Done? && !s.txs[t].pc.reply.Failed?
      ensures exists i :: 0 <= i < |s.log| && s.log[i].tid == t && s.log[i].result == s.txs[t].pc.reply
    {
      assert Linked(s, t);
    }
    forall i | 0 <= i < |s.log| && s.log[i].tid < |s.txs|
      ensures var pc := s.txs[s.log[i].tid].pc; pc.Done? && pc.reply.Failed? ==> s.log[i].result.Rejected?
    {
      assert Linked(s, s.log[i].tid);
    }
  }

  /** Logs only grow. */
  lemma {:induction false} RunExtendsLog(s: Sys, sched: seq<Move>)
    requires Inv(s) && ValidRun(s, sched)
    ensures var s' := Run(s, sched); Inv(s') && |s.log| <= |s'.log| && s'.log[..|s.log|] == s.log
  {
    if |sched| == 0 {
    } else {
      var prefix, m := sched[..|sched| - 1], sched[|sched| - 1];
      RunExtendsLog(s, prefix);
      RunSnoc(s, prefix, sched);
      var mid := Run(s, prefix);
      NextExtendsLog(mid, m);
      assert Next(mid, m).log[..|s.log|] == mid.log[..|s.log|];
    }
  }

  lemma NextExtendsLog(s: Sys, m: Move)
    requires Inv(s) && Enabled(s, m)
    ensures Inv(Next(s, m))
    ensures |s.log| <= |Next(s, m).log| && Next(s, m).log[..|s.log|] == s.log
  {
    NextKeepsInv(s, m);
    if !m.action.Invoke? {
      StepRefines(s, m);
    }
  }

  lemma ReachesExtendsLog(init: Db, s: Sys, s': Sys)
    requires Reachable(init, s) && Reaches(s, s')
    ensures |s.log| <= |s'.log| && s'.log[..|s.log|] == s.log
    ensures LogInv(init, s) && LogInv(init, s')
  {
    ReachableInv(init, s);
    ReachableLog(init, s);
    StaysReachable(init, s, s');
    ReachableLog(init, s');
    var sched :| ValidRun(s, sched) && Run(s, sched) == s';
    RunExtendsLog(s, sched);
  }

  /** The sequential order respects real time: a call that finished before another began comes first. */
  lemma RealTimeOrder(init: Db, s: Sys, s': Sys, t: nat, u: nat) returns (i: nat)
    requires Reachable(init, s) && Reaches(s, s') && t < |s.txs| <= u
    requires s.txs[t].pc.Done? && !s.txs[t].pc.reply.Failed?
    ensures i < |s'.log| && s'.log[i].tid == t && s'.log[i].result == s.txs[t].pc.reply
    ensures forall j :: 0 <= j < |s'.log| && s'.log[j].tid == u ==> i < j
  {
    ReachesExtendsLog(init, s, s');
    i := FirstPlace(init, s, s'.log, t, u);
  }

  /**
    A call takes effect while it runs: whatever state `s` it had not begun in and whatever later
    state `s'` it is finished in, its one place in the history lies between the two.
    */
  lemma TakesEffectWhileRunning(init: Db, s: Sys, s': Sys, t: nat) returns (i: nat)
    requires Reachable(init, s) && Reaches(s, s') && |s.txs| <= t < |s'.txs|
    requires s'.txs[t].pc.Done? && !s'.txs[t].pc.reply.Failed?
    ensures |s.log| <= i < |s'.log| && s'.log[i].tid == t && s'.log[i].result == s'.txs[t].pc.reply
  {
    ReachesExtendsLog(init, s, s');
    i := PlaceAfter(init, s, s', t);
  }

  lemma PlaceAfter(init: Db, s: Sys, s': Sys, t: nat) returns (i: nat)
    requires LogInv(init, s) && LogInv(init, s') && |s.log| <= |s'.log| && s'.log[..|s.log|] == s.log
    requires |s.txs| <= t < |s'.txs| && s'.txs[t].pc.Done? && !s'.txs[t].pc.reply.Failed?
    ensures |s.log| <= i < |s'.log| && s'.log[i].tid == t && s'.log[i].result == s'.txs[t].pc.reply
  {
    assert Linked(s', t);
    var at :| 0 <= at < |s'.log| && s'.log[at].tid == t && s'.log[at].result == s'.txs[t].pc.reply;
    i := at;
    assert forall j :: 0 <= j < |s.log| ==> s'.log[j] == s'.log[..|s.log|][j] && s.log[j].tid < |s.txs|;
  }

  lemma FirstPlace(init: Db, s: Sys, later: seq<Entry>, t: nat, u: nat) returns (i: nat)
    requires LogInv(init, s) && |s.log| <= |later| && later[..|s.log|] == s.log && t < |s.txs| <= u
    requires s.txs[t].pc.Done? && !s.txs[t].pc.reply.Failed?
    ensures i < |later| && later[i].tid == t && later[i].result == s.txs[t].pc.reply
    ensures forall j :: 0 <= j < |later| && later[j].tid == u ==> i < j
  {
    assert Linked(s, t);
    var at :| 0 <= at < |s.log| && s.log[at].tid == t && s.log[at].result == s.txs[t].pc.reply;
    i := at;
    assert forall j :: 0 <= j < |s.log| ==> later[j] == later[..|s.log|][j] && s.log[j].tid < |s.txs|;
  }

  // ----- the committed tables -------------------------------------------------------------------

  /** Every committed state of every run from empty tables is a lifecycle state. */
  lemma CommittedLifecycle(s: Sys)
    requires Reachable(EMPTY, s)
    ensures Lifecycle(s.db)
  {
    ReachableLog(EMPTY, s);
    LogKeepsLifecycle(EMPTY, s.log);
  }

  /** On one snapshot, the gauges agree with each other and with the list of cars. */
  lemma Conservation(s: Sys)
    requires Reachable(EMPTY, s)
    ensures var n := CountByStatus(s.db);
            && Count(n, InUse) == CountActive(s.db)
            && Count(n, Available) + Count(n, InUse) + Count(n, UnderMaintenance) == |ListRows(s.db, None)|
  {
    CommittedLifecycle(s);
    InUseCountIsActiveCount(s.db);
    CountsCoverTheList(s.db);
  }

  /**
    From any database that merely meets the schema, no flush of any run violates a constraint;
    no call ever fails on one, and none waits on the unique index.
    */
  lemma BackstopsNeverFire(init: Db, s: Sys, t: nat)
    requires Reachable(init, s) && t < |s.txs|
    ensures Verdict(s.txs[t].pc) != Some(Failed(Integrity))
    ensures Schema(s.db) && (s.txs[t].pc.Ready? ==> Schema(View(s, t)))
    ensures forall u: nat :: u < |s.txs| && u != t ==> !WaitsForIndex(s, t, u)
  {
    ReachableInv(init, s);
    assert TxInv(s, t);
    forall u: nat | u < |s.txs| && u != t ensures !WaitsForIndex(s, t, u) {
      assert TxInv(s, u);
      IndexUncontended(s, t, u);
    }
    if s.txs[t].pc.Ready? {
      FlushedIsExec(s, t);
      ExecKeepsSchema(s.txs[t].op, s.db, s.txs[t].newId);
    }
  }

  /** A locked row's session copy is current, and a locked rental implies its car is locked too. */
  lemma LockedCopiesAreCurrent(init: Db, s: Sys, t: nat)
    requires Reachable(init, s) && t < |s.txs|
    ensures CacheAgrees(s, t) && CarBeforeRental(s, t)
  {
    ReachableInv(init, s);
    assert TxInv(s, t);
  }

  /** No call overwrites a committed row it has not locked; what it adds is new and of a car it has locked. */
  lemma WritesAreLocked(init: Db, s: Sys, t: nat)
    requires Reachable(init, s) && t < |s.txs|
    ensures var w := s.txs[t].writes;
            && (forall c :: c in w.cars && c in s.db.cars ==> OwnsCar(s, t, c))
            && (forall r :: r in w.rentals && r in s.db.rentals ==> OwnsRental(s, t, r))
            && (forall r :: r in w.rentals ==> OwnsCar(s, t, w.rentals[r].carId))
  {
    ReachableInv(init, s);
    assert TxInv(s, t);
  }

  /** Every committed row change of a run is a legal step of the operation that made it. */
  lemma LegalStepsOnly(s: Sys, m: Move)
    requires Reachable(EMPTY, s) && Enabled(s, m)
    ensures m.action.Invoke? || m.action.Crash? ==> Next(s, m).db == s.db
    ensures !m.action.Invoke? ==> m.tid < |s.txs| && LegalChange(s.txs[m.tid].op, s.db, Next(s, m).db)
  {
    ReachableInv(EMPTY, s);
    CommittedLifecycle(s);
    if !m.action.Invoke? {
      StepRefines(s, m);
      if Executes(s, Next(s, m), m.tid) {
        var e := Next(s, m).log[|s.log|];
        ExecHistory(e.op, s.db, e.newId);
      }
    }
  }

  /** Along every run retirement is permanent and an ended rental never changes again. */
  lemma SettledForGood(s: Sys, s': Sys)
    requires Reachable(EMPTY, s) && Reaches(s, s')
    ensures SettledStay(s.db, s'.db)
  {
    ReachesExtendsLog(EMPTY, s, s');
    SettledRowsStay(EMPTY, s'.log, |s.log|);
  }

  // ----- faults ---------------------------------------------------------------------------------

  /** A call that fails contributes no change, and announces nothing. */
  lemma FaultAtomicity(init: Db, s: Sys, t: nat, i: nat)
    requires Reachable(init, s) && t < |s.txs| && i < |s.log| && s.log[i].tid == t
    requires Verdict(s.txs[t].pc).Some? && Verdict(s.txs[t].pc).value.Failed?
    ensures Replay(init, s.log[..i + 1]) == Replay(init, s.log[..i]) && s.log[i].event == None
  {
    ReachableLog(init, s);
    assert Linked(s, t);
    RejectedEntry(init, s.log, i);
  }

  lemma RejectedEntry(init: Db, log: seq<Entry>, i: nat)
    requires ValidLog(init, log) && i < |log| && log[i].result.Rejected?
    ensures Replay(init, log[..i + 1]) == Replay(init, log[..i]) && log[i].event == None
  {
    PrefixValid(init, log, i);
    assert log[..i + 1][..i] == log[..i];
    EventIffChange(log[i].op, Replay(init, log[..i]), log[i].newId);
  }

  /** A call fails exactly when something it calls raises, except the publisher: then it ends as it was bound to. */
  lemma FailsExactlyByFault(init: Db, s: Sys, m: Move)
    requires Reachable(init, s) && Enabled(s, m) && !m.action.Invoke?
    ensures m.tid < |s.txs| == |Next(s, m).txs|
    ensures var before, after := Verdict(s.txs[m.tid].pc), Verdict(Next(s, m).txs[m.tid].pc);
            && (m.action.Crash? ==> after == if s.txs[m.tid].pc.Publishing? then before else Some(Failed(Fault)))
            && (m.action.Step? && after.Some? && after.value.Failed? ==> before == after)
  {
    ReachableInv(init, s);
    StepRefines(s, m);
    if m.action.Step? {
      StepNeverFails(s, Next(s, m), m.tid);
    }
  }

  lemma StepNeverFails(s: Sys, s': Sys, t: nat)
    requires t < |s.txs| && (Stutters(s, s', t) || Executes(s, s', t))
    ensures var after := Verdict(s'.txs[t].pc);
            after.Some? && after.value.Failed? ==> Verdict(s.txs[t].pc) == after
  {
    if Executes(s, s', t) {
      var e := s'.log[|s.log|];
      EventIffChange(e.op, s.db, e.newId);
    }
  }

  /** What a call sees before its own first flush is a state between two whole operations. */
  lemma NoPartialOperationVisible(s: Sys, t: nat)
    requires Reachable(EMPTY, s) && t < |s.txs| && s.txs[t].writes == EMPTY
    ensures View(s, t) == Replay(EMPTY, s.log) && Lifecycle(View(s, t))
  {
    OverlayEmpty(s.db);
    ReachableLog(EMPTY, s);
    CommittedLifecycle(s);
  }

  // ----- ending a rental -------------------------------------------------------------------------

  /**
    Whatever else runs, the reply of a finished `EndRental` is decided by one committed state met
    between `start`, where it had not begun, and `s`. No other reply is possible.
    */
  lemma EndRentalReplies(start: Sys, s: Sys, t: nat) returns (i: nat)
    requires Reachable(EMPTY, start) && Reaches(start, s) && |start.txs| <= t < |s.txs| && s.txs[t].op.EndRental?
    requires s.txs[t].pc.Done? && !s.txs[t].pc.reply.Failed?
    ensures |start.log| <= i < |s.log| && s.log[i].tid == t
    ensures var db, op, reply := Replay(EMPTY, s.log[..i]), s.txs[t].op, s.txs[t].pc.reply;
            Lifecycle(db) && EndDecidedBy(db, op.rentalId, op.today, reply)
  {
    i := TakesEffectWhileRunning(EMPTY, start, s, t);
    StaysReachable(EMPTY, start, s);
    ReachableLog(EMPTY, s);
    PrefixValid(EMPTY, s.log, i);
    LogKeepsLifecycle(EMPTY, s.log[..i]);
    EndOutcome(Replay(EMPTY, s.log[..i]), s.txs[t].op.rentalId, s.txs[t].op.today, s.log[i].newId);
  }

  // ----- events -------------------------------------------------------------------------------------

  function Times(event: Option<Event>, e: Event): nat {
    if event == Some(e) then 1 else 0
  }

  /** How many calls have committed `e` and not yet called the publisher with it. */
  ghost function Pending(txs: seq<Tx>, e: Event): nat {
    if |txs| == 0 then 0 else Pending(txs[..|txs| - 1], e) + Times(PendingOf(txs[|txs| - 1].pc), e)
  }

  lemma {:induction false} PendingUpdate(txs: seq<Tx>, t: nat, tx: Tx, e: Event)
    requires t < |txs|
    ensures Pending(txs[t := tx], e) + Times(PendingOf(txs[t].pc), e) == Pending(txs, e) + Times(PendingOf(tx.pc), e)
  {
    var n := |txs| - 1;
    if t == n {
      assert txs[t := tx][..n] == txs[..n];
    } else {
      assert txs[t := tx][..n] == txs[..n][t := tx];
      PendingUpdate(txs[..n], t, tx, e);
    }
  }

  /** How often the atomic operations of a history announce `e`. */
  ghost function Announced(log: seq<Entry>, e: Event): nat {
    if |log| == 0 then 0 else Announced(log[..|log| - 1], e) + Times(log[|log| - 1].event, e)
  }

  lemma {:induction false} AnnouncedIsEvents(log: seq<Entry>, e: Event)
    ensures Announced(log, e) == multiset(EventsOf(log))[e]
  {
    if |log| == 0 {
    } else {
      AnnouncedIsEvents(log[..|log| - 1], e);
    }
  }

  /** Publisher calls made, and those still to be made, account for exactly the committed changes. */
  ghost predicate Accounted(s: Sys, e: Event) {
    s.published[e] + Pending(s.txs, e) == Announced(s.log, e)
  }

  lemma StepKeepsAccount(s: Sys, s': Sys, t: nat, e: Event)
    requires Accounted(s, e) && t < |s.txs| && StepBy(s, s', t)
    requires Stutters(s, s', t) || Fails(s, s', t) || Executes(s, s', t)
    ensures Accounted(s', e)
  {
    assert s'.txs == s.txs[t := s'.txs[t]];
    PendingUpdate(s.txs, t, s'.txs[t], e);
    if Executes(s, s', t) {
      assert s'.log[..|s'.log| - 1] == s.log;
    }
  }

  lemma {:induction false} RunKeepsAccount(init: Db, sched: seq<Move>, e: Event)
    requires Schema(init) && ValidRun(Init(init), sched)
    ensures Accounted(Run(Init(init), sched), e)
  {
    if |sched| == 0 {
    } else {
      var prefix, m := sched[..|sched| - 1], sched[|sched| - 1];
      var s := Run(Init(init), prefix);
      RunKeepsAccount(init, prefix, e);
      RunKeepsInv(init, prefix);
      if m.action.Invoke? {
        var txs := Next(s, m).txs;
        assert txs[..|txs| - 1] == s.txs;
      } else {
        NextKeepsInv(s, m);
        StepRefines(s, m);
        StepKeepsAccount(s, Next(s, m), m.tid, e);
      }
    }
  }

  /**
    In every run, the publisher calls made plus those pending are, as a bag, the events of the
    committed changes; rejected, failed and unchanging calls contribute none.
    */
  lemma EventAccounting(init: Db, s: Sys, e: Event)
    requires Reachable(init, s)
    ensures s.published[e] + Pending(s.txs, e) == multiset(EventsOf(s.log))[e]
  {
    var sched :| ValidRun(Init(init), sched) && Run(Init(init), sched) == s;
    RunKeepsAccount(init, sched, e);
    AnnouncedIsEvents(s.log, e);
  }

  lemma MirrorOfEmpty()
    ensures MirrorOf(EMPTY) == Mirror({}, {})
  {
  }

  /** In commit order, the events of a run rebuild the fleet and the open rentals. */
  lemma EventsRebuildCommitted(s: Sys)
    requires Reachable(EMPTY, s)
    ensures Fold(Mirror({}, {}), EventsOf(s.log)) == MirrorOf(s.db)
  {
    ReachableLog(EMPTY, s);
    EventsRebuildTables(EMPTY, s.log);
    MirrorOfEmpty();
  }

  // ----- rental periods ---------------------------------------------------------------------------

  /**
    In a run, the periods of one car are disjoint exactly when every registration took effect on
    tables that hold no return of its car later than its own day.
    */
  lemma PeriodsDisjointIff(s: Sys)
    requires Reachable(EMPTY, s)
    ensures NonOverlapping(s.log, s.db) <==> ReturnsRespected(EMPTY, s.log)
  {
    ReachableLog(EMPTY, s);
    NonOverlapIffReturnsRespected(EMPTY, s.log);
  }

  /**
    The owner of a car's lock can make that test at any time before its commit: no step of
    another call changes the answer.
    */
  lemma ReturnsFrozenUnderLock(init: Db, s: Sys, m: Move, t: nat, c: nat, today: int)
    requires Reachable(init, s) && Enabled(s, m) && t < |s.txs| && OwnsCar(s, t, c) && m.tid != t
    ensures OwnsCar(Next(s, m), t, c)
    ensures NoLaterReturn(Next(s, m).db, c, today) <==> NoLaterReturn(s.db, c, today)
  {
    ReachableInv(init, s);
    if !m.action.Invoke? {
      NextKeepsInv(s, m);
      assert TxInv(s, m.tid) && TxInv(s, t);
      StepGivesRely(s, Next(s, m), m.tid, t);
      ReturnsUnderRely(s, Next(s, m), t, c, today);
    }
  }

  lemma ReturnsUnderRely(s: Sys, s': Sys, t: nat, c: nat, today: int)
    requires t < |s.txs| && Rely(s, s', t) && OwnsCar(s, t, c)
    ensures NoLaterReturn(s'.db, c, today) <==> NoLaterReturn(s.db, c, today)
  {
  }
}
