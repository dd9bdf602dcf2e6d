/** Any number of dispatchers over one transport, crashing anywhere, with a handler
    that commits its effect together with a record of the event's dedupe key. */
module ExactlyOnce {
  import opened Prelude
  import opened EventTransport
  import opened TransportRuns
  import opened Dispatching
  import ClaimOrder

  /** The transport, the deliveries dispatchers are working on (with whether the handler has
      returned), the keys the consumer has on record, and every effect in the order it was applied. */
  datatype System = System(transport: World, flights: map<Delivery, bool>, consumed: set<string>, applied: seq<string>)

  const IDLE := System(START, map[], {}, [])

  datatype Action =
    | Publish(envelope: Envelope)
    | Claim(now: Time)
    /** The handler runs to the commit of its effect, if it finds the key unrecorded, and returns. */
    | Handle(handled: Delivery)
    /** The handler commits, as above, and then raises. */
    | HandleThenRaise(raising: Delivery)
    | Ack(acked: Delivery)
    | Nack(nacked: Delivery, error: HandlerError, at: Time, rand: real)
    /** The dispatcher dies, or is cancelled, wherever it is in the delivery. */
    | Crash(lost: Delivery)
    | Requeue(eventId: string)

  function Commit(y: System, key: string): System {
    if key in y.consumed then y else y.(consumed := y.consumed + {key}, applied := y.applied + [key])
  }

  predicate Enabled(h: Handlers, y: System, a: Action) {
    match a
    case Publish(_) => |y.transport.handouts| == |y.transport.s.log|
    case Claim(_) => |y.transport.handouts| == |y.transport.s.log|
    case Requeue(_) => |y.transport.handouts| == |y.transport.s.log|
    case Handle(d) => d in y.flights && h.Handles(d.envelope.kind)
    case HandleThenRaise(d) => d in y.flights && h.Handles(d.envelope.kind)
    // Acked only after the handler returned, or when there is none.
    case Ack(d) => d in y.flights && (y.flights[d] || !h.Handles(d.envelope.kind)) && Permitted(y.transport, DoAck(d))
    case Nack(d, error, at, rand) => d in y.flights && h.Handles(d.envelope.kind)
        && Permitted(y.transport, DoNack(d, error, at, rand))
    case Crash(d) => d in y.flights
  }

  function Act(cfg: Config, h: Handlers, y: System, a: Action): System
    requires Enabled(h, y, a)
  {
    match a
    case Publish(e) => y.(transport := Step(cfg, y.transport, DoPublish(e)))
    case Claim(now) =>
      var (after, r) := ClaimHistory(cfg, y.transport, 0, now);
      y.(transport := after, flights := if r.Some? then y.flights[r.value := false] else y.flights)
    case Handle(d) => Commit(y, d.envelope.dedupeKey).(flights := y.flights[d := true])
    case HandleThenRaise(d) => Commit(y, d.envelope.dedupeKey)
    case Ack(d) => y.(transport := Step(cfg, y.transport, DoAck(d)), flights := y.flights - {d})
    case Nack(d, error, at, rand) => y.(transport := Step(cfg, y.transport, DoNack(d, error, at, rand)),
        flights := y.flights - {d})
    case Crash(d) => y.(flights := y.flights - {d})
    case Requeue(id) => y.(transport := Step(cfg, y.transport, DoRequeue(id)))
  }

  function RunSystem(cfg: Config, h: Handlers, y: System, actions: seq<Action>): Option<System>
    decreases |actions|
  {
    if actions == [] then Some(y)
    else if !Enabled(h, y, actions[0]) then None
    else RunSystem(cfg, h, Act(cfg, h, y, actions[0]), actions[1..])
  }

  ghost predicate NoDuplicates(applied: seq<string>) {
    forall i, j :: 0 <= i < j < |applied| ==> applied[i] != applied[j]
  }

  /** Delivered, and there was somebody to deliver it to. */
  ghost predicate Delivered(h: Handlers, e: Held) { e.status.DISPATCHED? && h.Handles(e.envelope.kind) }

  ghost predicate Published(s: State, key: string) {
    exists i :: 0 <= i < |s.log| && s.log[i].envelope.dedupeKey == key
  }

  ghost predicate SystemInv(cfg: Config, h: Handlers, y: System) {
    && Inv(cfg, y.transport)
    && (forall key :: key in y.consumed <==> key in y.applied)
    && NoDuplicates(y.applied)
    && (forall key :: key in y.consumed ==> Published(y.transport.s, key))
    && (forall d :: d in y.flights ==> WasIssued(y.transport, d) && Published(y.transport.s, d.envelope.dedupeKey))
    && (forall d :: d in y.flights && y.flights[d] ==> d.envelope.dedupeKey in y.consumed)
    && DeliveredAreConsumed(h, y.transport.s, y.consumed)
  }

  ghost predicate DeliveredAreConsumed(h: Handlers, s: State, consumed: set<string>) {
    forall i :: 0 <= i < |s.log| && Delivered(h, s.log[i]) ==> s.log[i].envelope.dedupeKey in consumed
  }

  /** What a claim leaves dispatched was dispatched before it. */
  lemma ClaimDispatchesNothing(cfg: Config, w: World, now: Time, i: nat)
    requires |w.handouts| == |w.s.log| && i < |Step(cfg, w, DoClaim(now)).s.log|
    requires Step(cfg, w, DoClaim(now)).s.log[i].status.DISPATCHED?
    ensures i < |w.s.log| && Step(cfg, w, DoClaim(now)).s.log[i] == w.s.log[i]
  {
    ClaimOrder.ClaimFromResult(cfg, w.s, 0, now);
    ClaimHistoryIsClaim(cfg, w, 0, now);
  }

  /** Nothing becomes dispatched except by an ack. */
  lemma OnlyAcksDispatch(cfg: Config, w: World, op: Op, i: nat)
    requires cfg.Valid() && Inv(cfg, w) && Permitted(w, op)
    requires i < |Step(cfg, w, op).s.log| && Step(cfg, w, op).s.log[i].status.DISPATCHED?
    ensures i < |w.s.log|
    ensures Step(cfg, w, op).s.log[i] == w.s.log[i]
        || (op.DoAck? && Step(cfg, w, op).s.log[i].envelope == op.acked.envelope)
  {
    if op.DoClaim? { ClaimDispatchesNothing(cfg, w, op.now, i); }
    if op.DoAck? { CurrentIsHeldLease(cfg, w, op.acked); }
  }

  lemma StepKeepsPublished(cfg: Config, w: World, op: Op, key: string)
    requires Permitted(w, op) && Published(w.s, key)
    ensures Published(Step(cfg, w, op).s, key)
  {
    var w' := Step(cfg, w, op);
    assert Run(cfg, w, [op]) == Some(w') by { assert [op][1..] == []; }
    ClaimOrder.LogGrows(cfg, w, [op]);
    var i :| 0 <= i < |w.s.log| && w.s.log[i].envelope.dedupeKey == key;
    assert w'.s.log[i].envelope.dedupeKey == key;
  }

  lemma StepKeepsDelivered(cfg: Config, h: Handlers, w: World, op: Op, consumed: set<string>)
    requires cfg.Valid() && Inv(cfg, w) && Permitted(w, op) && DeliveredAreConsumed(h, w.s, consumed)
    requires op.DoAck? && h.Handles(op.acked.envelope.kind) ==> op.acked.envelope.dedupeKey in consumed
    ensures DeliveredAreConsumed(h, Step(cfg, w, op).s, consumed)
    ensures forall key :: Published(w.s, key) ==> Published(Step(cfg, w, op).s, key)
    ensures !op.DoClaim? ==> Step(cfg, w, op).issued == w.issued
  {
    var w' := Step(cfg, w, op);
    forall key | Published(w.s, key) ensures Published(w'.s, key) { StepKeepsPublished(cfg, w, op, key); }
    forall i | 0 <= i < |w'.s.log| && Delivered(h, w'.s.log[i]) ensures w'.s.log[i].envelope.dedupeKey in consumed {
      OnlyAcksDispatch(cfg, w, op, i);
      assert w'.s.log[i] == w.s.log[i] ==> Delivered(h, w.s.log[i]);
    }
  }

  /** A claim only adds to what has been issued, and what it hands out is on the books. */
  lemma {:induction false} ClaimIssues(cfg: Config, w: World, i: nat, now: Time)
    requires i <= |w.s.log| == |w.handouts|
    ensures var (w', r) := ClaimHistory(cfg, w, i, now);
            && (forall d :: WasIssued(w, d) ==> WasIssued(w', d))
            && (r.Some? ==> WasIssued(w', r.value) && Published(w.s, r.value.envelope.dedupeKey))
    decreases |w.s.log| - i
  {
    if i < |w.s.log| {
      var (after, r) := VisitHistory(cfg, w, i, now);
      forall d | WasIssued(w, d) ensures WasIssued(after, d) {
        var m :| 0 <= m < |w.issued| && w.issued[m].delivery == d;
        assert after.issued[m].delivery == d;
      }
      if r.None? {
        ClaimIssues(cfg, after, i + 1, now);
        var (w', r') := ClaimHistory(cfg, after, i + 1, now);
        if r'.Some? {
          var k :| 0 <= k < |after.s.log| && after.s.log[k].envelope.dedupeKey == r'.value.envelope.dedupeKey;
          assert w.s.log[k].envelope == after.s.log[k].envelope;
        }
      } else {
        assert after.issued[|w.issued|].delivery == r.value;
        assert w.s.log[i].envelope == r.value.envelope;
      }
    }
  }

  lemma CommitKeepsInv(cfg: Config, h: Handlers, y: System, d: Delivery)
    requires SystemInv(cfg, h, y) && d in y.flights
    ensures SystemInv(cfg, h, Commit(y, d.envelope.dedupeKey))
        && d.envelope.dedupeKey in Commit(y, d.envelope.dedupeKey).consumed
  {
  }

  lemma ActKeepsInv(cfg: Config, h: Handlers, y: System, a: Action)
    requires cfg.Valid() && SystemInv(cfg, h, y) && Enabled(h, y, a)
    ensures SystemInv(cfg, h, Act(cfg, h, y, a))
  {
    match a
    case Publish(e) => TransportStep(cfg, h, y, DoPublish(e));
    case Requeue(id) => TransportStep(cfg, h, y, DoRequeue(id));
    case Ack(d) => TransportStep(cfg, h, y, DoAck(d));
    case Nack(d, error, at, rand) => TransportStep(cfg, h, y, DoNack(d, error, at, rand));
    case Claim(now) => ClaimStep(cfg, h, y, now);
    case Handle(d) => HandleStep(cfg, h, y, d);
    case HandleThenRaise(d) => CommitKeepsInv(cfg, h, y, d);
    case Crash(_) =>
  }

  lemma HandleStep(cfg: Config, h: Handlers, y: System, d: Delivery)
    requires SystemInv(cfg, h, y) && Enabled(h, y, Handle(d))
    ensures SystemInv(cfg, h, Act(cfg, h, y, Handle(d)))
  {
    CommitKeepsInv(cfg, h, y, d);
  }

  lemma ClaimStep(cfg: Config, h: Handlers, y: System, now: Time)
    requires cfg.Valid() && SystemInv(cfg, h, y)
    ensures Enabled(h, y, Claim(now)) && SystemInv(cfg, h, Act(cfg, h, y, Claim(now)))
  {
    StepKeepsInv(cfg, y.transport, DoClaim(now));
    StepKeepsDelivered(cfg, h, y.transport, DoClaim(now), y.consumed);
    ClaimIssues(cfg, y.transport, 0, now);
  }

  /** A transport that moved on without losing anything, or dispatching anything unrecorded. */
  lemma TransportMoves(cfg: Config, h: Handlers, y: System, w': World)
    requires SystemInv(cfg, h, y) && Inv(cfg, w')
    requires DeliveredAreConsumed(h, w'.s, y.consumed)
    requires forall key :: Published(y.transport.s, key) ==> Published(w'.s, key)
    requires w'.issued == y.transport.issued
    ensures SystemInv(cfg, h, y.(transport := w'))
  {
    forall d | d in y.flights ensures WasIssued(w', d) {
      assert WasIssued(y.transport, d);
    }
  }

  lemma TransportStep(cfg: Config, h: Handlers, y: System, op: Op)
    requires cfg.Valid() && SystemInv(cfg, h, y) && Permitted(y.transport, op) && !op.DoClaim?
    requires op.DoAck? && h.Handles(op.acked.envelope.kind) ==> op.acked.envelope.dedupeKey in y.consumed
    ensures SystemInv(cfg, h, y.(transport := Step(cfg, y.transport, op)))
  {
    StepKeepsInv(cfg, y.transport, op);
    StepKeepsDelivered(cfg, h, y.transport, op, y.consumed);
    TransportMoves(cfg, h, y, Step(cfg, y.transport, op));
  }

  lemma {:induction false} RunsKeepInv(cfg: Config, h: Handlers, y: System, actions: seq<Action>)
    requires cfg.Valid() && SystemInv(cfg, h, y) && RunSystem(cfg, h, y, actions).Some?
    ensures SystemInv(cfg, h, RunSystem(cfg, h, y, actions).value)
    decreases |actions|
  {
    if actions != [] {
      ActKeepsInv(cfg, h, y, actions[0]);
      RunsKeepInv(cfg, h, Act(cfg, h, y, actions[0]), actions[1..]);
    }
  }

  lemma RunOne(cfg: Config, h: Handlers, y: System, a: Action, rest: seq<Action>)
    requires Enabled(h, y, a)
    ensures RunSystem(cfg, h, y, [a] + rest) == RunSystem(cfg, h, Act(cfg, h, y, a), rest)
  {
    assert ([a] + rest)[1..] == rest;
  }

  /** The actions by which a dispatcher that does not crash settles what it has claimed. */
  function Settling(h: Handlers, d: Delivery, tick: Tick): seq<Action> {
    if !h.Handles(d.envelope.kind) then [Ack(d)]
    else
      match tick.outcome
      case Returned => [Handle(d), Ack(d)]
      case RaisedError(error) => [HandleThenRaise(d), Nack(d, error, tick.settleAt, tick.rand)]
  }

  lemma RunTwo(cfg: Config, h: Handlers, y: System, a: Action, b: Action)
    requires Enabled(h, y, a) && Enabled(h, Act(cfg, h, y, a), b)
    ensures RunSystem(cfg, h, y, [a, b]) == Some(Act(cfg, h, Act(cfg, h, y, a), b))
  {
    RunOne(cfg, h, y, a, [b]);
    RunOne(cfg, h, Act(cfg, h, y, a), b, []);
    assert [a] + [b] == [a, b] && [b] + [] == [b];
  }

  /** How a system stands once `d` was handled: its effect committed and its delivery still to be settled. */
  predicate Handled(h: Handlers, before: System, mid: System, d: Delivery, raises: bool) {
    && mid.transport == before.transport && Permitted(mid.transport, DoAck(d)) && 1 <= d.attempt
    && d in mid.flights && (!raises ==> mid.flights[d])
    && h.Handles(d.envelope.kind) && d.envelope.dedupeKey in mid.applied
  }

  lemma HandlingCommits(cfg: Config, h: Handlers, y: System, d: Delivery, raises: bool)
    requires cfg.Valid() && SystemInv(cfg, h, y) && d in y.flights && h.Handles(d.envelope.kind) && 1 <= d.attempt
    ensures var a := if raises then HandleThenRaise(d) else Handle(d);
            Enabled(h, y, a) && Handled(h, y, Act(cfg, h, y, a), d, raises)
  {
    assert WasIssued(y.transport, d);
    CommitKeepsInv(cfg, h, y, d);
  }

  lemma HandledIsSettled(cfg: Config, h: Handlers, y: System, mid: System, d: Delivery, tick: Tick)
    requires Handled(h, y, mid, d, tick.outcome.RaisedError?)
    ensures var last := Settling(h, d, tick)[1];
            && Enabled(h, mid, last)
            && var after := Act(cfg, h, mid, last);
               && after.transport.s == Settle(cfg, h, y.transport.s, d, tick)
               && d !in after.flights && d.envelope.dedupeKey in after.applied
  {
  }

  lemma SettlingIsARun(cfg: Config, h: Handlers, y: System, d: Delivery, tick: Tick)
    requires cfg.Valid() && SystemInv(cfg, h, y) && d in y.flights && !y.flights[d] && 1 <= d.attempt
    ensures var r := RunSystem(cfg, h, y, Settling(h, d, tick));
            && r.Some? && r.value.transport.s == Settle(cfg, h, y.transport.s, d, tick)
            && d !in r.value.flights && (h.Handles(d.envelope.kind) ==> d.envelope.dedupeKey in r.value.applied)
  {
    if !h.Handles(d.envelope.kind) {
      UnhandledIsAcked(cfg, h, y, d, tick);
    } else {
      var actions := Settling(h, d, tick);
      HandlingCommits(cfg, h, y, d, tick.outcome.RaisedError?);
      HandledIsSettled(cfg, h, y, Act(cfg, h, y, actions[0]), d, tick);
      RunTwo(cfg, h, y, actions[0], actions[1]);
    }
  }

  lemma UnhandledIsAcked(cfg: Config, h: Handlers, y: System, d: Delivery, tick: Tick)
    requires SystemInv(cfg, h, y) && d in y.flights && !h.Handles(d.envelope.kind) && 1 <= d.attempt
    ensures var r := RunSystem(cfg, h, y, Settling(h, d, tick));
            r.Some? && r.value.transport.s == Settle(cfg, h, y.transport.s, d, tick) && d !in r.value.flights
  {
    assert WasIssued(y.transport, d);
    RunOne(cfg, h, y, Ack(d), []);
    assert [Ack(d)] + [] == [Ack(d)];
  }

  /** What a dispatcher does in one go is a run of these actions: a claim, then the handler, then the ack
      or the nack its outcome calls for. So what holds of every run holds of the dispatchers. */
  lemma ProcessedIsARun(cfg: Config, h: Handlers, y: System, tick: Tick) returns (actions: seq<Action>)
    requires cfg.Valid() && SystemInv(cfg, h, y)
    ensures var r := RunSystem(cfg, h, y, actions);
            && r.Some? && r.value.transport.s == Processed(cfg, h, y.transport.s, tick).0
            && |actions| >= 1 && actions[0] == Claim(tick.claimAt)
            && (Processed(cfg, h, y.transport.s, tick).1 <==> |actions| > 1)
  {
    var claim := Claim(tick.claimAt);
    ClaimStep(cfg, h, y, tick.claimAt);
    ClaimHistoryIsClaim(cfg, y.transport, 0, tick.claimAt);
    ClaimSpends(cfg, y.transport.s, tick.claimAt);
    var after := Act(cfg, h, y, claim);
    match ClaimHistory(cfg, y.transport, 0, tick.claimAt).1 {
      case None =>
        actions := [claim];
        RunOne(cfg, h, y, claim, []);
        assert [claim] + [] == actions;
      case Some(d) =>
        actions := [claim] + Settling(h, d, tick);
        RunOne(cfg, h, y, claim, Settling(h, d, tick));
        SettlingIsARun(cfg, h, after, d, tick);
    }
  }

  /** And wherever a dispatcher's process dies in between, with its event claimed, before its handler or
      after it, what it did until then is a run, too. */
  lemma CutShortIsARun(cfg: Config, h: Handlers, y: System, d: Delivery, tick: Tick, n: nat)
    requires cfg.Valid() && SystemInv(cfg, h, y) && d in y.flights && !y.flights[d] && 1 <= d.attempt
    requires n < |Settling(h, d, tick)|
    ensures var r := RunSystem(cfg, h, y, Settling(h, d, tick)[..n] + [Crash(d)]);
            && r.Some? && r.value.transport == y.transport && d !in r.value.flights
            && (n == 1 ==> d.envelope.dedupeKey in r.value.applied)
  {
    var actions := Settling(h, d, tick);
    if n == 0 {
      RunOne(cfg, h, y, Crash(d), []);
      assert actions[..0] + [Crash(d)] == [Crash(d)] + [];
    } else {
      HandlingCommits(cfg, h, y, d, tick.outcome.RaisedError?);
      HandledCanCrash(cfg, h, y, d, actions[0], tick.outcome.RaisedError?);
      assert actions[..1] + [Crash(d)] == [actions[0], Crash(d)];
    }
  }

  lemma HandledCanCrash(cfg: Config, h: Handlers, y: System, d: Delivery, first: Action, raises: bool)
    requires Enabled(h, y, first) && Handled(h, y, Act(cfg, h, y, first), d, raises)
    ensures var r := RunSystem(cfg, h, y, [first, Crash(d)]);
            && r.Some? && r.value.transport == y.transport
            && d !in r.value.flights && d.envelope.dedupeKey in r.value.applied
  {
    RunTwo(cfg, h, y, first, Crash(d));
  }

  /** Over any interleaving of publishes, dispatchers, crashes, lapsed leases and requeues, every
      fact is applied at most once, and an event that is done and had a handler has been applied. */
  lemma ExactlyOnceEffect(cfg: Config, h: Handlers, actions: seq<Action>)
    requires cfg.Valid() && RunSystem(cfg, h, IDLE, actions).Some?
    ensures var y := RunSystem(cfg, h, IDLE, actions).value;
            && NoDuplicates(y.applied)
            && (forall i :: 0 <= i < |y.transport.s.log| && y.transport.s.log[i].status.DISPATCHED?
                            && h.Handles(y.transport.s.log[i].envelope.kind)
                            ==> y.transport.s.log[i].envelope.dedupeKey in y.applied)
            && (forall key :: key in y.applied ==> Published(y.transport.s, key))
  {
    StartIsSafe(cfg);
    RunsKeepInv(cfg, h, IDLE, actions);
    var y := RunSystem(cfg, h, IDLE, actions).value;
    assert forall i :: 0 <= i < |y.transport.s.log| ==> (Delivered(h, y.transport.s.log[i]) <==>
             y.transport.s.log[i].status.DISPATCHED? && h.Handles(y.transport.s.log[i].envelope.kind));
  }
}
