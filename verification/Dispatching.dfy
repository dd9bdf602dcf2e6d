/** The worker half of delivery: claim an event, deliver it, settle it. */
module Dispatching {
  import opened Prelude
  import opened RetryPolicies
  import opened EventTransport
  import opened MemoryTransport
  import ClaimOrder
  import Settlement

  datatype HandlerOutcome = Returned | RaisedError(error: HandlerError)

  /** What the world supplies to one delivery: the clock at the claim and at the
      settlement, how the handler fares, and the jitter. */
  datatype Tick = Tick(claimAt: Time, outcome: HandlerOutcome, settleAt: Time, rand: real)

  /** Handlers by event type, and whether there is one for every other type. */
  datatype Handlers = Handlers(types: set<string>, hasDefault: bool) {
    predicate Handles(kind: string) { kind in types || hasDefault }
  }

  /** One claimed delivery, settled by how its handler fared. An event nobody handles is acknowledged. */
  function Settle(cfg: Config, handlers: Handlers, s: State, d: Delivery, tick: Tick): State
    requires 1 <= d.attempt
  {
    if handlers.Handles(d.envelope.kind) && tick.outcome.RaisedError?
    then Nack(cfg, s, d, tick.outcome.error, tick.settleAt, tick.rand).0
    else Ack(s, d).0
  }

  function Processed(cfg: Config, handlers: Handlers, s: State, tick: Tick): (State, bool) {
    var (s', r) := Claim(cfg, s, tick.claimAt);
    match r
    case None => (s', false)
    case Some(d) => if 1 <= d.attempt then (Settle(cfg, handlers, s', d, tick), true) else (s', true)
  }

  // ---- Why draining ends --------------------------------------------------------------------

  /** Attempts an event still has coming, and one more to notice that they are spent. */
  ghost function Remaining(cfg: Config, h: Held): nat {
    if (h.status.PENDING? || h.status.IN_PROGRESS?) && h.attempts <= cfg.MaxAttempts()
    then cfg.MaxAttempts() + 1 - h.attempts else 0
  }

  ghost function Budget(cfg: Config, log: seq<Held>): nat {
    if log == [] then 0 else Remaining(cfg, log[0]) + Budget(cfg, log[1..])
  }

  lemma {:induction false} BudgetAtMost(cfg: Config, before: seq<Held>, after: seq<Held>)
    requires |before| == |after|
    requires forall k :: 0 <= k < |before| ==> Remaining(cfg, after[k]) <= Remaining(cfg, before[k])
    ensures Budget(cfg, after) <= Budget(cfg, before)
    ensures (exists k :: 0 <= k < |before| && Remaining(cfg, after[k]) < Remaining(cfg, before[k])) ==>
              Budget(cfg, after) < Budget(cfg, before)
  {
    if before != [] {
      assert forall k :: 1 <= k < |before| ==> before[k] == before[1..][k - 1] && after[k] == after[1..][k - 1];
      BudgetAtMost(cfg, before[1..], after[1..]);
    }
  }

  /** A claim that hands something out spends budget; one that does not spends none it had not lost. */
  lemma ClaimSpends(cfg: Config, s: State, now: Time)
    ensures var (s', r) := Claim(cfg, s, now);
            Budget(cfg, s'.log) <= Budget(cfg, s.log)
            && (r.Some? ==> 1 <= r.value.attempt && Budget(cfg, s'.log) < Budget(cfg, s.log))
  {
    ClaimOrder.ClaimFromResult(cfg, s, 0, now);
    var (s', r) := Claim(cfg, s, now);
    if r.Some? {
      var i :| 0 <= i < |s.log| && ClaimOrder.HandsOut(cfg, s, 0, i, now, s', r.value);
      assert Remaining(cfg, s'.log[i]) < Remaining(cfg, s.log[i]);
    }
    BudgetAtMost(cfg, s.log, s'.log);
  }

  lemma SettlingSpendsNothing(cfg: Config, handlers: Handlers, s: State, d: Delivery, tick: Tick)
    requires 1 <= d.attempt
    ensures Budget(cfg, Settle(cfg, handlers, s, d, tick).log) <= Budget(cfg, s.log)
  {
    var after := Settle(cfg, handlers, s, d, tick).log;
    assert |after| == |s.log|;
    BudgetAtMost(cfg, s.log, after);
  }

  /** Every delivery uses up budget that nothing but a publish or a requeue gives back. */
  lemma ProcessingSpends(cfg: Config, handlers: Handlers, s: State, tick: Tick)
    ensures var (s', again) := Processed(cfg, handlers, s, tick);
            (again ==> Budget(cfg, s'.log) < Budget(cfg, s.log))
            && (!again <==> ClaimOrder.NothingClaimable(cfg, s, tick.claimAt))
  {
    ClaimSpends(cfg, s, tick.claimAt);
    ClaimOrder.ClaimTakesTheOldest(cfg, s, tick.claimAt);
    var (s', r) := Claim(cfg, s, tick.claimAt);
    if r.Some? { SettlingSpendsNothing(cfg, handlers, s', r.value, tick); }
  }

  // ---- What becomes of the event ------------------------------------------------------------

  /** Position `i` was delivered once more and settled by how that went; events before it are as a claim
      leaves them, and those after it as they were. */
  ghost predicate SettledAt(cfg: Config, handlers: Handlers, s: State, after: State, tick: Tick, i: nat) {
    && i < |s.log| == |after.log|
    && var was, h := s.log[i], after.log[i];
       && h.envelope == was.envelope && h.attempts == was.attempts + 1 && h.lease.None?
       && (if tick.outcome.RaisedError? && (was.envelope.kind in handlers.types || handlers.hasDefault) then
             && h.status == Settlement.Fate(cfg, tick.outcome.error.kind, was.attempts + 1)
             && h.lastError == Some(Described(tick.outcome.error))
             && (h.status.PENDING? ==> h.availableAt.Some?)
             && (h.status.PENDING? ==>
                   Settlement.FitsDelay(cfg, tick.outcome.error, h.attempts, h.availableAt.value - tick.settleAt))
           else h.status == DISPATCHED && h.lastError == was.lastError)
       && (forall k :: 0 <= k < i ==> after.log[k] == ClaimOrder.Swept(cfg, s.log[k], tick.claimAt))
       && (forall k :: i < k < |s.log| ==> after.log[k] == s.log[k])
  }

  /** One delivery, told from the event's side: the oldest that can be claimed is acknowledged if its
      handler returned or it has none, and otherwise waits, or is parked, as the error asks for. */
  lemma HandlersDecide(cfg: Config, handlers: Handlers, s: State, tick: Tick)
    requires cfg.Valid() && Jitter(tick.rand) && DistinctKeys(s.log)
    ensures var (after, again) := Processed(cfg, handlers, s, tick);
            again ==> exists i: nat ::
              ClaimOrder.OldestClaimable(cfg, s, i, tick.claimAt) && SettledAt(cfg, handlers, s, after, tick, i)
  {
    ClaimOrder.ClaimTakesTheOldest(cfg, s, tick.claimAt);
    var (s', r) := Claim(cfg, s, tick.claimAt);
    if r.Some? {
      var i: nat :| ClaimOrder.OldestClaimable(cfg, s, i, tick.claimAt)
                    && ClaimOrder.HandsOut(cfg, s, 0, i, tick.claimAt, s', r.value);
      ClaimedIsSettled(cfg, handlers, s, s', r.value, tick, i);
    }
  }

  lemma ClaimedIsSettled(cfg: Config, handlers: Handlers, s: State, s': State, d: Delivery, tick: Tick, i: nat)
    requires cfg.Valid() && Jitter(tick.rand) && DistinctKeys(s.log) && i < |s.log| == |s'.log|
    requires ClaimOrder.HandsOut(cfg, s, 0, i, tick.claimAt, s', d)
    ensures SettledAt(cfg, handlers, s, Settle(cfg, handlers, s', d, tick), tick, i)
  {
    forall k | 0 <= k < |s.log| ensures s'.log[k].envelope == s.log[k].envelope { }
    Settlement.CurrentExactly(s', d, i);
    if handlers.Handles(d.envelope.kind) && tick.outcome.RaisedError? {
      Settlement.NackSettlesByError(cfg, s', d, tick.outcome.error, tick.settleAt, tick.rand);
      Settlement.FailuresAreClassified(cfg, tick.outcome.error, d.attempt, tick.rand);
    } else {
      Settlement.AckIsForGood(s', d);
    }
  }

  /** Each round of a drain delivered something, and left the next state of the transport. */
  ghost predicate Delivered(cfg: Config, handlers: Handlers, states: seq<State>, world: nat -> Tick) {
    states != [] && forall n: nat :: n + 1 < |states| ==> DeliveredAt(cfg, handlers, states, world, n)
  }

  ghost predicate DeliveredAt(cfg: Config, handlers: Handlers, states: seq<State>, world: nat -> Tick, n: nat)
    requires n + 1 < |states|
  {
    Processed(cfg, handlers, states[n], world(n)) == (states[n + 1], true)
  }

  lemma OneMoreRound(cfg: Config, handlers: Handlers, states: seq<State>, world: nat -> Tick, after: State)
    requires Delivered(cfg, handlers, states, world)
    requires Processed(cfg, handlers, states[|states| - 1], world(|states| - 1)) == (after, true)
    ensures Delivered(cfg, handlers, states + [after], world)
  {
    forall n: nat | n < |states| ensures DeliveredAt(cfg, handlers, states + [after], world, n) {
      if n + 1 < |states| { assert DeliveredAt(cfg, handlers, states, world, n); }
    }
  }

  class OutboxDispatcher {
    const consumer: InMemoryEventTransport
    const handlers: Handlers

    constructor (consumer: InMemoryEventTransport, handlers: Handlers)
      ensures this.consumer == consumer && this.handlers == handlers
    {
      this.consumer, this.handlers := consumer, handlers;
    }

    method ProcessNext(tick: Tick) returns (r: bool)
      requires consumer.Valid()
      modifies consumer`leases, consumer`log, consumer.held
      ensures consumer.Valid()
      ensures (consumer.Contents(), r) == Processed(consumer.cfg, handlers, old(consumer.Contents()), tick)
    {
      ClaimSpends(consumer.cfg, consumer.Contents(), tick.claimAt);
      var claimed := consumer.Claim(tick.claimAt);
      if claimed.None? { return false; }
      var d := claimed.value;
      if handlers.Handles(d.envelope.kind) && tick.outcome.RaisedError? {
        var failure := consumer.Nack(d, tick.outcome.error, tick.settleAt, tick.rand);
        return true;
      }
      var acked := consumer.Ack(d);
      return true;
    }

    /** Deliver until nothing is claimable, or `limit` deliveries; `world` supplies each one's tick. */
    method Drain(limit: Option<nat>, world: nat -> Tick) returns (delivered: nat, ghost states: seq<State>)
      requires consumer.Valid()
      modifies consumer`leases, consumer`log, consumer.held
      ensures consumer.Valid()
      ensures delivered <= Budget(consumer.cfg, old(consumer.log)) && (limit.Some? ==> delivered <= limit.value)
      ensures |states| == delivered + 1 && states[0] == old(consumer.Contents())
      ensures Delivered(consumer.cfg, handlers, states, world)
      ensures limit == Some(delivered) ==> consumer.Contents() == states[delivered]
      ensures limit != Some(delivered) ==>
                && ClaimOrder.NothingClaimable(consumer.cfg, states[delivered], world(delivered).claimAt)
                && Processed(consumer.cfg, handlers, states[delivered], world(delivered))
                   == (consumer.Contents(), false)
    {
      delivered := 0;
      states := [consumer.Contents()];
      while limit.None? || delivered < limit.value
        invariant consumer.Valid()
        invariant delivered + Budget(consumer.cfg, consumer.log) <= Budget(consumer.cfg, old(consumer.log))
        invariant limit.Some? ==> delivered <= limit.value
        invariant |states| == delivered + 1 && states[0] == old(consumer.Contents())
        invariant states[delivered] == consumer.Contents()
        invariant Delivered(consumer.cfg, handlers, states, world)
        decreases Budget(consumer.cfg, consumer.log)
      {
        ProcessingSpends(consumer.cfg, handlers, consumer.Contents(), world(delivered));
        var again := ProcessNext(world(delivered));
        if !again { return; }
        OneMoreRound(consumer.cfg, handlers, states, world, consumer.Contents());
        states := states + [consumer.Contents()];
        delivered := delivered + 1;
      }
    }
  }
}
