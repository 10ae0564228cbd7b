/** The event-logging consumer: envelope validation, and the reconnect loop against an asynchronous signal. */
module Consumer {
  import opened Domain

  // ----- the envelope ---------------------------------------------------------------------------

  datatype Json =
    | JNull
    | JBool(flag: bool)
    | JNumber(n: int)
    | JString(text: string)
    | JArray(items: seq<Json>)
    | JObject(fields: map<string, Json>)

  datatype Parsed = Valid(event: Json) | Malformed

  const REQUIRED_KEYS := ["id", "event_type", "occurred_at", "payload"]

  function Missing(fields: map<string, Json>, keys: seq<string>): seq<string> {
    if |keys| == 0 then []
    else (if keys[0] in fields then [] else [keys[0]]) + Missing(fields, keys[1..])
  }

  predicate AllStrings(fields: map<string, Json>, keys: seq<string>)
    requires forall k :: k in keys ==> k in fields
  {
    forall k :: k in keys ==> fields[k].JString?
  }

  lemma {:induction false} NothingMissing(fields: map<string, Json>, keys: seq<string>)
    ensures Missing(fields, keys) == [] <==> forall k :: k in keys ==> k in fields
  {
    if |keys| == 0 {
    } else {
      NothingMissing(fields, keys[1..]);
      assert forall k :: k in keys <==> k == keys[0] || k in keys[1..];
    }
  }

  /** `body` is the decoded message, `None` when it is not JSON at all. */
  function ParseEvent(body: Option<Json>): Parsed {
    if body.None? || !body.value.JObject? then Malformed
    else
      var fields := body.value.fields;
      if Missing(fields, REQUIRED_KEYS) != [] then Malformed
      else
        NothingMissing(fields, REQUIRED_KEYS);
        assert forall k :: k in REQUIRED_KEYS[..3] ==> k in REQUIRED_KEYS;
        assert REQUIRED_KEYS[3] in REQUIRED_KEYS;
        if !AllStrings(fields, REQUIRED_KEYS[..3]) then Malformed
        else if !fields["payload"].JObject? then Malformed
        else Valid(body.value)
  }

  function BuildEnvelope(id: string, eventType: string, occurredAt: string, payload: map<string, Json>): Json {
    JObject(map["id" := JString(id), "event_type" := JString(eventType),
                "occurred_at" := JString(occurredAt), "payload" := JObject(payload)])
  }

  /** The consumer accepts exactly the envelopes of this shape, extra keys allowed. */
  ghost predicate IsEnvelope(j: Json) {
    exists id, eventType, occurredAt, payload ::
      var e := BuildEnvelope(id, eventType, occurredAt, payload);
      j.JObject? && forall k :: k in e.fields ==> k in j.fields && j.fields[k] == e.fields[k]
  }

  lemma EnvelopeKeys(id: string, eventType: string, occurredAt: string, payload: map<string, Json>)
    ensures var f := BuildEnvelope(id, eventType, occurredAt, payload).fields;
            && f.Keys == {"id", "event_type", "occurred_at", "payload"}
            && f["id"] == JString(id) && f["event_type"] == JString(eventType)
            && f["occurred_at"] == JString(occurredAt) && f["payload"] == JObject(payload)
  {
  }

  lemma RequiredKeys()
    ensures forall k :: k in REQUIRED_KEYS <==> k in {"id", "event_type", "occurred_at", "payload"}
    ensures forall k :: k in REQUIRED_KEYS[..3] <==> k in {"id", "event_type", "occurred_at"}
  {
    assert REQUIRED_KEYS[..3] == ["id", "event_type", "occurred_at"];
  }

  lemma EnvelopesAreAccepted(j: Json)
    requires IsEnvelope(j)
    ensures ParseEvent(Some(j)) == Valid(j)
  {
    RequiredKeys();
    NothingMissing(j.fields, REQUIRED_KEYS);
    var id, eventType, occurredAt, payload :|
      var e := BuildEnvelope(id, eventType, occurredAt, payload);
      forall k :: k in e.fields ==> k in j.fields && j.fields[k] == e.fields[k];
    EnvelopeKeys(id, eventType, occurredAt, payload);
  }

  lemma AcceptedAreEnvelopes(j: Json)
    requires ParseEvent(Some(j)).Valid?
    ensures IsEnvelope(j)
  {
    RequiredKeys();
    NothingMissing(j.fields, REQUIRED_KEYS);
    var f := j.fields;
    EnvelopeKeys(f["id"].text, f["event_type"].text, f["occurred_at"].text, f["payload"].fields);
    var e := BuildEnvelope(f["id"].text, f["event_type"].text, f["occurred_at"].text, f["payload"].fields);
    assert forall k :: k in e.fields ==> k in j.fields && j.fields[k] == e.fields[k];
  }

  lemma AcceptsExactlyEnvelopes(j: Json)
    ensures ParseEvent(Some(j)) == (if IsEnvelope(j) then Valid(j) else Malformed)
  {
    if IsEnvelope(j) {
      EnvelopesAreAccepted(j);
    } else if ParseEvent(Some(j)).Valid? {
      AcceptedAreEnvelopes(j);
    }
  }

  /** Whatever the publisher sends, the consumer accepts unchanged. */
  lemma EnvelopeRoundTrip(id: string, eventType: string, occurredAt: string, payload: map<string, Json>)
    ensures var e := BuildEnvelope(id, eventType, occurredAt, payload); ParseEvent(Some(e)) == Valid(e)
  {
    var e := BuildEnvelope(id, eventType, occurredAt, payload);
    AcceptsExactlyEnvelopes(e);
    assert IsEnvelope(e);
  }

  datatype Verdict = Ack(tag: nat) | Nack(tag: nat, requeue: bool)

  /** One delivery gets exactly one answer; a malformed one is dropped and never requeued. */
  method OnMessage(tag: nat, body: Option<Json>) returns (v: Verdict)
    ensures v == Ack(tag) || v == Nack(tag, false)
    ensures v.Ack? <==> body.Some? && IsEnvelope(body.value)
  {
    if body.Some? {
      AcceptsExactlyEnvelopes(body.value);
    }
    match ParseEvent(body) {
      case Malformed => v := Nack(tag, false);
      case Valid(_) => v := Ack(tag);
    }
  }

  // ----- the loop -----------------------------------------------------------------------------------

  /** How a call into the client library ends: `Lost` are the connection errors the loop retries. */
  datatype Outcome = Fine | Lost | Other

  datatype Phase =
    | Testing                                   // about to test the shutdown event
    | Entering                                  // tested, not yet in the consuming function
    | Connecting
    | SettingUp(conn: nat, left: nat)           // topology calls still to make, then the channel is remembered
    | Consuming(conn: nat)
    | Clearing(conn: nat, why: Outcome)         // finally: forget the channel
    | Closing(conn: nat, why: Outcome)          // finally: close the connection
    | Handling                                  // a connection error has been caught
    | BackingOff
    | Stopped
    | Crashed

  /**
    `begun` counts the calls of the consuming function, connections are numbered as opened, and
    `signalled` remembers the phase and the count at the first signal.
    */
  datatype State = State(phase: Phase, shutdown: bool, active: Option<nat>, stopAsked: set<nat>,
                         begun: nat, connections: nat, closed: set<nat>, signalled: Option<(Phase, nat)>)

  const SETUP_CALLS := 6

  function Initial(enabled: bool): State {
    State(if enabled then Testing else Stopped, false, None, {}, 0, 0, {}, None)
  }

  /** The main thread takes its next step, or the signal handler runs between two of them. */
  datatype Action = Go(outcome: Outcome) | Signal

  function HandleSignal(s: State): State {
    s.(shutdown := true,
       stopAsked := if s.active.Some? then s.stopAsked + {s.active.value} else s.stopAsked,
       signalled := if s.signalled.None? then Some((s.phase, s.begun)) else s.signalled)
  }

  predicate Running(s: State) {
    !s.phase.Stopped? && !s.phase.Crashed?
  }

  function Next(s: State, a: Action): State
    requires Running(s)
  {
    if a.Signal? then HandleSignal(s)
    else
      match s.phase
      case Testing => s.(phase := if s.shutdown then Stopped else Entering)
      case Entering => s.(phase := Connecting, begun := s.begun + 1)
      case Connecting =>
        if a.outcome.Fine? then s.(phase := SettingUp(s.connections, SETUP_CALLS), connections := s.connections + 1)
        else s.(phase := Catch(a.outcome))
      case SettingUp(c, left) =>
        if left == 0 then s.(phase := Consuming(c), active := Some(c))
        else if !a.outcome.Fine? then s.(phase := Clearing(c, a.outcome))
        else s.(phase := SettingUp(c, left - 1))
      case Consuming(c) => s.(phase := Clearing(c, a.outcome))
      case Clearing(c, why) => s.(phase := Closing(c, why), active := None)
      case Closing(c, why) => s.(phase := Catch(why), closed := s.closed + {c})
      case Handling => s.(phase := if s.shutdown then Stopped else BackingOff)
      case BackingOff => s.(phase := Testing)
  }

  /** Where the loop goes when the consuming function is left. */
  function Catch(why: Outcome): Phase {
    match why
    case Fine => Stopped
    case Lost => Handling
    case Other => Crashed
  }

  predicate ValidRun(s: State, actions: seq<Action>)
    decreases |actions|, 0
  {
    |actions| == 0 ||
    (ValidRun(s, actions[..|actions| - 1]) && Running(Run(s, actions[..|actions| - 1])))
  }

  function Run(s: State, actions: seq<Action>): State
    requires ValidRun(s, actions)
    decreases |actions|, 1
  {
    if |actions| == 0 then s else Next(Run(s, actions[..|actions| - 1]), actions[|actions| - 1])
  }

  /** The connection the consuming function currently has in hand. */
  function InHand(p: Phase): Option<nat> {
    match p
    case SettingUp(c, _) => Some(c)
    case Consuming(c) => Some(c)
    case Clearing(c, _) => Some(c)
    case Closing(c, _) => Some(c)
    case _ => None
  }

  /** Calls of the consuming function that may still begin after a first signal at phase `p`. */
  function Allowance(p: Phase): nat {
    if p.Entering? then 1 else 0
  }

  ghost predicate Inv(s: State) {
    && (s.shutdown <==> s.signalled.Some?)
    && (s.signalled.Some? ==>
          var (p, n) := s.signalled.value;
          && s.begun == n + (if s.phase.Entering? then 0 else Allowance(p))
          && (s.phase.Entering? ==> p.Entering?))
    && (forall k: nat :: k < s.connections && k !in s.closed <==> InHand(s.phase) == Some(k))
    && (s.active.Some? ==> s.active == InHand(s.phase) && (s.phase.Consuming? || s.phase.Clearing?))
    && (s.phase.Consuming? ==> s.active.Some?)
    && (forall k :: k in s.closed || k in s.stopAsked ==> k < s.connections)
    && (s.phase.SettingUp? ==> s.phase.left <= SETUP_CALLS)
  }

  lemma NextKeepsInv(s: State, a: Action)
    requires Inv(s) && Running(s)
    ensures Inv(Next(s, a))
  {
  }

  lemma {:induction false} RunKeepsInv(enabled: bool, actions: seq<Action>)
    requires ValidRun(Initial(enabled), actions)
    ensures Inv(Run(Initial(enabled), actions))
  {
    if |actions| == 0 {
    } else {
      RunKeepsInv(enabled, actions[..|actions| - 1]);
      NextKeepsInv(Run(Initial(enabled), actions[..|actions| - 1]), actions[|actions| - 1]);
    }
  }

  /**
    After the first signal the consuming function begins at most once more, and only if the signal
    fell between the loop test and the call; a disabled consumer never connects.
    */
  lemma ShutdownStopsReconnects(enabled: bool, actions: seq<Action>)
    requires ValidRun(Initial(enabled), actions)
    ensures var s := Run(Initial(enabled), actions);
            && (s.signalled.Some? ==>
                  var (p, n) := s.signalled.value;
                  && n <= s.begun <= n + 1
                  && (s.begun == n + 1 <==> p.Entering? && !s.phase.Entering?))
            && (!enabled ==> s.begun == 0 && s.connections == 0)
  {
    RunKeepsInv(enabled, actions);
    if !enabled && |actions| > 0 {
      DisabledNeverRuns(actions);
    }
  }

  lemma {:induction false} DisabledNeverRuns(actions: seq<Action>)
    requires ValidRun(Initial(false), actions)
    ensures |actions| == 0
  {
    if |actions| == 0 {
    } else {
      DisabledNeverRuns(actions[..|actions| - 1]);
    }
  }

  /** Outside the consuming function nothing is left open and no channel is remembered. */
  lemma NothingLeftOpen(enabled: bool, actions: seq<Action>)
    requires ValidRun(Initial(enabled), actions)
    ensures var s := Run(Initial(enabled), actions);
            && (InHand(s.phase).None? ==> s.active.None? && forall k: nat :: k < s.connections ==> k in s.closed)
            && (forall j: nat, k: nat :: j < s.connections && k < s.connections && j !in s.closed && k !in s.closed ==>
                  j == k)
            && (s.phase.Consuming? <==> s.active.Some? && !s.phase.Clearing?)
  {
    RunKeepsInv(enabled, actions);
  }

  /**
    A channel has been asked to stop exactly when a signal arrived while it was the remembered one;
    a signal during consuming always finds it remembered, and asks no other.
    */
  lemma {:induction false} StopReachesTheActiveChannel(enabled: bool, actions: seq<Action>, c: nat)
    requires ValidRun(Initial(enabled), actions)
    ensures c in Run(Initial(enabled), actions).stopAsked <==> SignalledWhile(enabled, actions, c)
    ensures var s := Run(Initial(enabled), actions);
            (s.phase.Consuming? ==> s.active == Some(s.phase.conn)
                                    && HandleSignal(s).stopAsked == s.stopAsked + {s.phase.conn})
            && (s.active == Some(c) ==> s.phase == Consuming(c) || (s.phase.Clearing? && s.phase.conn == c))
  {
    RunKeepsInv(enabled, actions);
    if |actions| == 0 {
    } else {
      StopReachesTheActiveChannel(enabled, actions[..|actions| - 1], c);
      SignalledGrows(enabled, actions, c);
    }
  }

  /** At some point of the run a signal arrived while `c` was the remembered channel. */
  ghost predicate SignalledWhile(enabled: bool, actions: seq<Action>, c: nat)
    requires ValidRun(Initial(enabled), actions)
  {
    exists k :: 0 <= k < |actions| && actions[k].Signal? && ActiveAfter(enabled, actions[..k]) == Some(c)
  }

  /** The channel remembered after some steps; `None` when they are not a run. */
  ghost function ActiveAfter(enabled: bool, actions: seq<Action>): Option<nat> {
    if ValidRun(Initial(enabled), actions) then Run(Initial(enabled), actions).active else None
  }

  lemma SignalledGrows(enabled: bool, actions: seq<Action>, c: nat)
    requires |actions| > 0 && ValidRun(Initial(enabled), actions)
    ensures var n := |actions| - 1;
            SignalledWhile(enabled, actions, c)
            <==> SignalledWhile(enabled, actions[..n], c)
                 || (actions[n].Signal? && Run(Initial(enabled), actions[..n]).active == Some(c))
  {
    var n, prefix := |actions| - 1, actions[..|actions| - 1];
    forall k | 0 <= k < n ensures actions[k] == prefix[k] && actions[..k] == prefix[..k] {}
    if SignalledWhile(enabled, prefix, c) {
      var k :| 0 <= k < |prefix| && prefix[k].Signal? && ActiveAfter(enabled, prefix[..k]) == Some(c);
      assert actions[k].Signal? && ActiveAfter(enabled, actions[..k]) == Some(c);
    }
    if SignalledWhile(enabled, actions, c) {
      var k :| 0 <= k < |actions| && actions[k].Signal? && ActiveAfter(enabled, actions[..k]) == Some(c);
      if k < n {
        assert prefix[k].Signal? && ActiveAfter(enabled, prefix[..k]) == Some(c);
      }
    }
  }

  // ----- why the loop goes on and why it ends ---------------------------------------------------------

  /** Some step of the run ended as `o`; when `consuming` is set, one taken while consuming. */
  ghost predicate Took(actions: seq<Action>, o: Outcome, consuming: bool)
    requires ValidRun(Initial(true), actions)
  {
    exists k :: 0 <= k < |actions| && actions[k] == Go(o) && (consuming ==> PhaseAfter(actions[..k]).Consuming?)
  }

  /** The phase after some steps; not asked for when they are not a run. */
  ghost function PhaseAfter(actions: seq<Action>): Phase {
    if ValidRun(Initial(true), actions) then Run(Initial(true), actions).phase else Crashed
  }

  lemma TookGrows(actions: seq<Action>, o: Outcome, consuming: bool)
    requires |actions| > 0 && ValidRun(Initial(true), actions)
    ensures var n := |actions| - 1;
            Took(actions[..n], o, consuming)
            || (actions[n] == Go(o) && (consuming ==> Run(Initial(true), actions[..n]).phase.Consuming?))
            ==> Took(actions, o, consuming)
  {
    var n, prefix := |actions| - 1, actions[..|actions| - 1];
    if Took(prefix, o, consuming) {
      var k :| 0 <= k < |prefix| && prefix[k] == Go(o) && (consuming ==> PhaseAfter(prefix[..k]).Consuming?);
      assert actions[k] == prefix[k] && actions[..k] == prefix[..k];
    } else if actions[n] == Go(o) && (consuming ==> Run(Initial(true), prefix).phase.Consuming?) {
      assert consuming ==> PhaseAfter(actions[..n]).Consuming?;
    }
  }

  /** Why the main thread is where it is. */
  ghost predicate Justified(actions: seq<Action>)
    requires ValidRun(Initial(true), actions)
  {
    var s := Run(Initial(true), actions);
    match s.phase
    case Clearing(_, why) => Took(actions, why, why.Fine?)
    case Closing(_, why) => Took(actions, why, why.Fine?)
    case Handling => Took(actions, Lost, false)
    case BackingOff => Took(actions, Lost, false)
    case Stopped => s.shutdown || Took(actions, Fine, true)
    case Crashed => Took(actions, Other, false)
    case _ => true
  }

  /**
    The loop of an enabled consumer stops only after a signal or after consuming has returned
    normally, crashes only on an error it does not retry, and backs off only after a lost connection.
    */
  lemma {:induction false} LoopEndsForAReason(actions: seq<Action>)
    requires ValidRun(Initial(true), actions)
    ensures Justified(actions)
  {
    if |actions| == 0 {
    } else {
      LoopEndsForAReason(actions[..|actions| - 1]);
      TookGrows(actions, Fine, true);
      TookGrows(actions, Lost, false);
      TookGrows(actions, Other, false);
    }
  }

  /** The main thread's next steps when no signal comes in between. */
  function Steps(s: State, outcomes: seq<Outcome>): State
    decreases |outcomes|
  {
    if |outcomes| == 0 || !Running(s) then s else Steps(Next(s, Go(outcomes[0])), outcomes[1..])
  }

  /** The steps from a left consuming function to the end of the `finally` clause. */
  lemma ThroughFinally(s: State, outcomes: seq<Outcome>)
    requires s.phase.Clearing? && |outcomes| >= 2
    ensures Steps(s, outcomes) ==
            Steps(s.(phase := Catch(s.phase.why), active := None, closed := s.closed + {s.phase.conn}), outcomes[2..])
  {
    var s1 := Next(s, Go(outcomes[0]));
    assert Steps(s, outcomes) == Steps(s1, outcomes[1..]);
    assert Steps(s1, outcomes[1..]) == Steps(Next(s1, Go(outcomes[1])), outcomes[1..][1..]);
    assert outcomes[1..][1..] == outcomes[2..];
  }

  /** From a caught connection error to the next call of the consuming function. */
  lemma BackToConnecting(s: State, outcomes: seq<Outcome>)
    requires s.phase.Handling? && !s.shutdown && |outcomes| == 4
    ensures Steps(s, outcomes) == s.(phase := Connecting, begun := s.begun + 1)
  {
    var s1 := Next(s, Go(outcomes[0]));
    var s2 := Next(s1, Go(outcomes[1]));
    var s3 := Next(s2, Go(outcomes[2]));
    assert Steps(s, outcomes) == Steps(s1, outcomes[1..]);
    assert Steps(s1, outcomes[1..]) == Steps(s2, outcomes[1..][1..]) && outcomes[1..][1..] == outcomes[2..];
    assert Steps(s2, outcomes[2..]) == Steps(s3, outcomes[2..][1..]) && outcomes[2..][1..] == outcomes[3..];
    assert Steps(s3, outcomes[3..]) == Next(s3, Go(outcomes[3]));
  }

  /**
    Without a signal a lost connection is replaced: wherever in the consuming function it is lost,
    a fixed number of steps later that function begins again, the old connection closed.
    */
  lemma LostConnectionIsReplaced(s: State, outcomes: seq<Outcome>)
    requires Inv(s) && !s.shutdown && |outcomes| == if s.phase.Connecting? then 4 else 6
    requires s.phase.Connecting? || s.phase.Consuming? || (s.phase.SettingUp? && s.phase.left > 0)
    ensures var s' := Steps(Next(s, Go(Lost)), outcomes);
            && s'.phase.Connecting? && s'.begun == s.begun + 1 && s'.connections == s.connections
            && s'.active.None? && forall k: nat :: k < s'.connections ==> k in s'.closed
  {
    var lost := Next(s, Go(Lost));
    if s.phase.Connecting? {
      BackToConnecting(lost, outcomes);
    } else {
      ThroughFinally(lost, outcomes);
      var caught := lost.(phase := Handling, active := None, closed := lost.closed + {lost.phase.conn});
      BackToConnecting(caught, outcomes[2..]);
    }
  }

  /** The loop ends at once when consuming returns normally, and with the error when it is not retried. */
  lemma ConsumingReturns(s: State, outcome: Outcome, outcomes: seq<Outcome>)
    requires s.phase.Consuming? && !outcome.Lost? && |outcomes| == 2
    ensures var s' := Steps(Next(s, Go(outcome)), outcomes);
            && (if outcome.Fine? then s'.phase.Stopped? else s'.phase.Crashed?)
            && s'.begun == s.begun && s'.active.None? && s'.closed == s.closed + {s.phase.conn}
  {
    ThroughFinally(Next(s, Go(outcome)), outcomes);
  }

  lemma {:induction false} SetupCompletes(s: State, outcomes: seq<Outcome>)
    requires s.phase.SettingUp? && |outcomes| == s.phase.left + 1
    requires forall i :: 0 <= i < s.phase.left ==> outcomes[i].Fine?
    ensures var c := s.phase.conn; Steps(s, outcomes) == s.(phase := Consuming(c), active := Some(c))
    decreases |outcomes|
  {
    var s1 := Next(s, Go(outcomes[0]));
    if s.phase.left == 0 {
      assert Steps(s, outcomes) == s1;
    } else {
      SetupCompletes(s1, outcomes[1..]);
    }
  }

  /** When connecting and the topology calls succeed, a new connection is consumed and its channel remembered. */
  lemma ConnectionIsConsumed(s: State, outcomes: seq<Outcome>)
    requires s.phase.Connecting? && |outcomes| == SETUP_CALLS + 2
    requires forall i :: 0 <= i <= SETUP_CALLS ==> outcomes[i].Fine?
    ensures var s' := Steps(s, outcomes);
            && s'.phase == Consuming(s.connections) && s'.active == Some(s.connections)
            && s'.connections == s.connections + 1 && s'.begun == s.begun && s'.closed == s.closed
  {
    SetupCompletes(Next(s, Go(outcomes[0])), outcomes[1..]);
  }

  // ----- shutdown in bounded time -----------------------------------------------------------------------

  /** A bound on the steps left once shutdown has been requested. */
  function StepsLeft(p: Phase): nat {
    match p
    case Testing => 1
    case BackingOff => 2
    case Handling => 1
    case Closing(_, _) => 2
    case Clearing(_, _) => 3
    case Consuming(_) => 4
    case SettingUp(_, left) => 5 + left
    case Connecting => 6 + SETUP_CALLS
    case Entering => 7 + SETUP_CALLS
    case Stopped => 0
    case Crashed => 0
  }

  lemma StepAfterShutdown(s: State, o: Outcome)
    requires Inv(s) && Running(s) && s.shutdown
    ensures StepsLeft(Next(s, Go(o)).phase) < StepsLeft(s.phase)
  {
  }

  ghost function Goes(actions: seq<Action>): nat {
    if |actions| == 0 then 0 else Goes(actions[..|actions| - 1]) + (if actions[|actions| - 1].Go? then 1 else 0)
  }

  /** After the first signal the main thread takes a bounded number of steps, whatever the broker does. */
  lemma {:induction false} BoundedAfterSignal(enabled: bool, before: seq<Action>, after: seq<Action>)
    requires ValidRun(Initial(enabled), before) && Run(Initial(enabled), before).shutdown
    requires ValidRun(Initial(enabled), before + after)
    ensures var s, s' := Run(Initial(enabled), before), Run(Initial(enabled), before + after);
            s'.shutdown && Goes(after) + StepsLeft(s'.phase) <= StepsLeft(s.phase) <= 13
  {
    var all := before + after;
    if |after| == 0 {
      assert all == before;
      RunKeepsInv(enabled, before);
    } else {
      var n := |after| - 1;
      assert all[..|all| - 1] == before + after[..n] && all[|all| - 1] == after[n];
      BoundedAfterSignal(enabled, before, after[..n]);
      RunKeepsInv(enabled, before + after[..n]);
      if after[n].Go? {
        StepAfterShutdown(Run(Initial(enabled), before + after[..n]), after[n].outcome);
      }
    }
  }
}
