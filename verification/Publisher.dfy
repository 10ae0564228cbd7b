/**
  The RabbitMQ publisher: one lazily opened connection, reset and retried once. What the
  broker does is a parameter of each attempt, so every pattern of failures is covered.
  The publisher's lock makes `Publish` and `Close` atomic with respect to each other.
  */
module Publisher {
  import opened Domain

  /** How a call into the client library ends. `Retryable` are the errors a fresh connection might fix. */
  datatype Outcome = Fine | Retryable | Fatal

  /** One attempt, as the broker lets it go: is an existing channel still open, and how does each call end. */
  datatype Weather = Weather(stillOpen: bool, connect: Outcome, channel: Outcome, declare: Outcome, confirm: Outcome,
                             send: Outcome)

  datatype Message = Message(eventType: string, messageId: string, body: string)

  datatype Reply = Published | Unserializable | Raised(error: Outcome)

  /**
    The publisher's fields and its trace: connections are numbered as they are opened,
    `closed` are those `close` was called on, `sent` the messages handed to the channel.
    */
  datatype Link = Link(conn: Option<nat>, channel: bool, connections: nat, closed: set<nat>, sent: seq<Message>)

  const UNUSED := Link(None, false, 0, {}, [])

  // ----- specification ------------------------------------------------------------------------

  function ResetOf(l: Link): Link {
    l.(conn := None, channel := false, closed := if l.conn.Some? then l.closed + {l.conn.value} else l.closed)
  }

  function EnsureOf(l: Link, w: Weather): (Link, Outcome) {
    if l.channel && w.stillOpen then (l, Fine)
    else
      var idle := ResetOf(l);
      if !w.connect.Fine? then (idle, w.connect)
      else
        var half := idle.(conn := Some(idle.connections), connections := idle.connections + 1);
        if !w.channel.Fine? then (half, w.channel)
        else if !w.declare.Fine? then (half, w.declare)
        else if !w.confirm.Fine? then (half, w.confirm)
        else (half.(channel := true), Fine)
  }

  function OnceOf(l: Link, m: Message, w: Weather): (Link, Outcome) {
    var (ready, outcome) := EnsureOf(l, w);
    if !outcome.Fine? then (ready, outcome) else (ready.(sent := ready.sent + [m]), w.send)
  }

  function PublishOf(l: Link, m: Option<Message>, first: Weather, second: Weather): (Link, Reply) {
    if m.None? then (l, Unserializable)
    else
      var (l1, o1) := OnceOf(l, m.value, first);
      if o1.Fine? then (l1, Published)
      else if o1.Fatal? then (l1, Raised(Fatal))
      else
        var (l2, o2) := OnceOf(ResetOf(l1), m.value, second);
        if o2.Fine? then (l2, Published)
        else if o2.Fatal? then (l2, Raised(Fatal))
        else (ResetOf(l2), Raised(Retryable))
  }

  // ----- the publisher ---------------------------------------------------------------------------

  class RabbitMQPublisher {
    var conn: Option<nat>
    var channel: Option<nat>
    var connections: nat
    var closed: set<nat>
    var sent: seq<Message>

    ghost predicate Valid()
      reads this
    {
      channel.Some? ==> channel == conn
    }

    ghost function State(): Link
      reads this
    {
      Link(conn, channel.Some?, connections, closed, sent)
    }

    constructor ()
      ensures Valid() && State() == UNUSED
    {
      conn, channel, connections, closed, sent := None, None, 0, {}, [];
    }

    method Reset()
      modifies this
      ensures Valid() && State() == ResetOf(old(State()))
    {
      var oldConn := conn;
      conn := None;
      channel := None;
      if oldConn.Some? {
        closed := closed + {oldConn.value};  // whatever close() raises is suppressed
      }
    }

    method EnsureChannel(w: Weather) returns (outcome: Outcome)
      requires Valid()
      modifies this
      ensures Valid() && (State(), outcome) == EnsureOf(old(State()), w)
      ensures outcome.Fine? ==> conn.Some? && channel == conn
      ensures !outcome.Fine? ==> channel.None? && sent == old(sent)
      ensures old(channel).Some? && w.stillOpen ==> outcome.Fine? && State() == old(State())
      ensures !(old(channel).Some? && w.stillOpen) && old(conn).Some? ==> old(conn).value in closed
    {
      if channel.Some? && w.stillOpen {
        return Fine;
      }
      Reset();
      if !w.connect.Fine? { return w.connect; }
      conn, connections := Some(connections), connections + 1;
      if !w.channel.Fine? { return w.channel; }
      if !w.declare.Fine? { return w.declare; }
      if !w.confirm.Fine? { return w.confirm; }
      channel := conn;
      return Fine;
    }

    method PublishOnce(m: Message, w: Weather) returns (outcome: Outcome)
      requires Valid()
      modifies this
      ensures Valid() && (State(), outcome) == OnceOf(old(State()), m, w)
    {
      outcome := EnsureChannel(w);
      if outcome.Fine? {
        sent := sent + [m];
        outcome := w.send;
      }
    }

    /** `m` is `None` when the envelope cannot be serialized. */
    method Publish(m: Option<Message>, first: Weather, second: Weather) returns (reply: Reply)
      requires Valid()
      modifies this
      ensures Valid() && (State(), reply) == PublishOf(old(State()), m, first, second)
    {
      if m.None? {
        return Unserializable;
      }
      var attempt := 1;
      while attempt <= 2
        invariant 1 <= attempt <= 2 && Valid()
        invariant attempt == 1 ==> State() == old(State())
        invariant attempt == 2 ==> OnceOf(old(State()), m.value, first).1.Retryable?
                                   && State() == ResetOf(OnceOf(old(State()), m.value, first).0)
        decreases 2 - attempt
      {
        var outcome := PublishOnce(m.value, if attempt == 1 then first else second);
        if outcome.Fine? {
          return Published;
        }
        if outcome.Fatal? {
          return Raised(outcome);
        }
        Reset();
        if attempt == 2 {
          return Raised(outcome);
        }
        attempt := attempt + 1;
      }
      assert false;
    }

    method Close()
      modifies this
      ensures Valid() && State() == ResetOf(old(State()))
    {
      Reset();
    }
  }

  // ----- what the specification promises --------------------------------------------------------

  predicate IsOpen(l: Link, k: nat) {
    k < l.connections && k !in l.closed
  }

  /** Every connection ever opened has been closed, or is the current one. */
  ghost predicate Ledger(l: Link) {
    && (forall k: nat :: IsOpen(l, k) <==> l.conn == Some(k))
    && (forall k :: k in l.closed ==> k < l.connections)
    && (l.channel ==> l.conn.Some?)
  }

  /** How an attempt ends, read off the calls it makes in order. */
  function FirstTrouble(calls: seq<Outcome>): Outcome {
    if |calls| == 0 then Fine else if !calls[0].Fine? then calls[0] else FirstTrouble(calls[1..])
  }

  function Calls(reuse: bool, w: Weather): seq<Outcome> {
    if reuse then [w.send] else [w.connect, w.channel, w.declare, w.confirm, w.send]
  }

  lemma TroubleInOrder(a: Outcome, b: Outcome, c: Outcome, d: Outcome, e: Outcome)
    ensures FirstTrouble([e]) == e
    ensures FirstTrouble([a, b, c, d, e]) ==
            if !a.Fine? then a else if !b.Fine? then b else if !c.Fine? then c else if !d.Fine? then d else e
  {
    assert [e][1..] == [];
    assert FirstTrouble([e]) == e;
    assert [d, e][1..] == [e];
    assert FirstTrouble([d, e]) == if !d.Fine? then d else e;
    assert [c, d, e][1..] == [d, e];
    assert FirstTrouble([c, d, e]) == if !c.Fine? then c else FirstTrouble([d, e]);
    assert [b, c, d, e][1..] == [c, d, e];
    assert FirstTrouble([b, c, d, e]) == if !b.Fine? then b else FirstTrouble([c, d, e]);
    assert [a, b, c, d, e][1..] == [b, c, d, e];
  }

  lemma OnceEndsAsItsCalls(l: Link, m: Message, w: Weather)
    ensures OnceOf(l, m, w).1 == FirstTrouble(Calls(l.channel && w.stillOpen, w))
  {
    TroubleInOrder(w.connect, w.channel, w.declare, w.confirm, w.send);
  }

  lemma ResetKeepsLedger(l: Link)
    requires Ledger(l)
    ensures Ledger(ResetOf(l)) && forall k: nat :: !IsOpen(ResetOf(l), k)
  {
  }

  lemma OnceKeepsLedger(l: Link, m: Message, w: Weather)
    requires Ledger(l)
    ensures Ledger(OnceOf(l, m, w).0)
  {
    ResetKeepsLedger(l);
    var idle, l' := ResetOf(l), OnceOf(l, m, w).0;
    if l'.connections == idle.connections + 1 && l'.conn == Some(idle.connections) {
      forall k: nat ensures IsOpen(l', k) <==> l'.conn == Some(k) {
        assert !IsOpen(idle, k);
      }
    }
  }

  lemma PublishKeepsLedger(l: Link, m: Option<Message>, first: Weather, second: Weather)
    requires Ledger(l)
    ensures Ledger(PublishOf(l, m, first, second).0)
  {
    if m.Some? {
      OnceKeepsLedger(l, m.value, first);
      var l1 := OnceOf(l, m.value, first).0;
      ResetKeepsLedger(l1);
      OnceKeepsLedger(ResetOf(l1), m.value, second);
      ResetKeepsLedger(OnceOf(ResetOf(l1), m.value, second).0);
    }
  }

  datatype Call = PublishCall(m: Option<Message>, first: Weather, second: Weather) | CloseCall

  function After(l: Link, c: Call): Link {
    match c
    case PublishCall(m, first, second) => PublishOf(l, m, first, second).0
    case CloseCall => ResetOf(l)
  }

  ghost function RunCalls(calls: seq<Call>): Link {
    if |calls| == 0 then UNUSED else After(RunCalls(calls[..|calls| - 1]), calls[|calls| - 1])
  }

  /**
    Over any sequence of calls and failures, no connection is ever leaked: at most one is open,
    it is the one the publisher holds, and after a `Close` there is none.
    */
  lemma {:induction false} NoConnectionLeaks(calls: seq<Call>)
    ensures var l := RunCalls(calls);
            && Ledger(l)
            && (forall j: nat, k: nat :: IsOpen(l, j) && IsOpen(l, k) ==> j == k)
            && (|calls| > 0 && calls[|calls| - 1].CloseCall? ==> forall k: nat :: k < l.connections ==> k in l.closed)
  {
    if |calls| == 0 {
    } else {
      var l, c := RunCalls(calls[..|calls| - 1]), calls[|calls| - 1];
      NoConnectionLeaks(calls[..|calls| - 1]);
      match c {
        case PublishCall(m, first, second) => PublishKeepsLedger(l, m, first, second);
        case CloseCall =>
          ResetKeepsLedger(l);
          forall k: nat | k < ResetOf(l).connections ensures k in ResetOf(l).closed { assert !IsOpen(ResetOf(l), k); }
      }
    }
    var l := RunCalls(calls);
    forall j: nat, k: nat | IsOpen(l, j) && IsOpen(l, k) ensures j == k {
      assert l.conn == Some(j) && l.conn == Some(k);
    }
  }

  /**
    A publish returns normally exactly when one of its at most two attempts does. The second is made
    exactly when the first ends in a retryable error, always on a fresh connection, and every message
    handed to a channel is the one given. A payload that cannot be serialized touches no connection.
    */
  lemma PublishAttempts(l: Link, payload: Option<Message>, first: Weather, second: Weather)
    ensures var (l', reply) := PublishOf(l, payload, first, second);
            (reply == Unserializable <==> payload.None?) && (payload.None? ==> l' == l)
    ensures payload.Some? ==>
            var (l', reply) := PublishOf(l, payload, first, second);
            var o1 := FirstTrouble(Calls(l.channel && first.stillOpen, first));
            var o2 := FirstTrouble(Calls(false, second));
            && (reply == Published <==> o1.Fine? || (o1.Retryable? && o2.Fine?))
            && (reply == Raised(Retryable) <==> o1.Retryable? && o2.Retryable?)
            && (reply == Raised(Fatal) <==> o1.Fatal? || (o1.Retryable? && o2.Fatal?))
            && (reply == Raised(Retryable) ==> l'.conn.None? && !l'.channel)
            && l.sent <= l'.sent && |l'.sent| <= |l.sent| + 2
            && (forall i :: |l.sent| <= i < |l'.sent| ==> l'.sent[i] == payload.value)
            && (reply == Published ==> |l'.sent| > |l.sent|)
            && (|l'.sent| == |l.sent| + 2 ==> o1.Retryable?)
            && l'.connections <= l.connections + (if o1.Retryable? then 2 else 1)
  {
    if payload.Some? {
      OnceEndsAsItsCalls(l, payload.value, first);
      OnceEndsAsItsCalls(ResetOf(OnceOf(l, payload.value, first).0), payload.value, second);
    }
  }

  /** The attempt gets as far as handing the message over. */
  predicate Opens(w: Weather) {
    w.connect.Fine? && w.channel.Fine? && w.declare.Fine? && w.confirm.Fine?
  }

  function Times(m: Message, n: nat): seq<Message> {
    seq(n, i => m)
  }

  /**
    What a publish leaves behind. A channel that works is reused and kept for the next publish; a
    fresh one is kept too. Connections are opened only where none was open, and the message has been
    handed over once for every attempt that got that far.
    */
  lemma PublishLeaves(l: Link, m: Message, first: Weather, second: Weather)
    requires Ledger(l)
    ensures var (l', reply) := PublishOf(l, Some(m), first, second);
            var reuse := l.channel && first.stillOpen;
            var retried := FirstTrouble(Calls(reuse, first)).Retryable?;
            && (reply == Published ==> l'.channel && l'.conn.Some? && IsOpen(l', l'.conn.value))
            && (reuse && !first.send.Retryable? ==> l' == l.(sent := l.sent + [m]))
            && l'.connections == l.connections + (if !reuse && first.connect.Fine? then 1 else 0)
                                 + (if retried && second.connect.Fine? then 1 else 0)
            && l'.sent == l.sent + Times(m, (if reuse || Opens(first) then 1 else 0)
                                            + (if retried && Opens(second) then 1 else 0))
            && (reply == Raised(Fatal) && retried ==>
                  && (l'.conn.Some? <==> second.connect.Fine?) && (l'.channel <==> Opens(second)))
            && (reply == Raised(Fatal) && !retried && !reuse ==>
                  && (l'.conn.Some? <==> first.connect.Fine?) && (l'.channel <==> Opens(first)))
  {
    OnceEndsAsItsCalls(l, m, first);
    PublishKeepsLedger(l, Some(m), first, second);
  }
}
