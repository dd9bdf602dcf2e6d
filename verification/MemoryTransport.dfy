/** The dict-backed transport as an object, each method proved against the log's functions. */
module MemoryTransport {
  import opened Prelude
  import opened RetryPolicies
  import opened EventTransport

  /** A mutable entry; the log has its value. */
  class HeldEvent {
    const envelope: Envelope
    const sequence: nat
    var status: Status
    var attempts: nat
    var lease: Option<nat>
    var claimedAt: Option<Time>
    var availableAt: Option<Time>
    var lastError: Option<ErrorText>

    constructor (envelope: Envelope, sequence: nat)
      ensures this.envelope == envelope && this.sequence == sequence && Value() == Fresh(envelope)
    {
      this.envelope, this.sequence := envelope, sequence;
      status, attempts := PENDING, 0;
      lease, claimedAt, availableAt, lastError := None, None, None, None;
    }

    function Value(): Held
      reads this
    {
      Held(envelope, status, attempts, lease, claimedAt, availableAt, lastError)
    }
  }

  class InMemoryEventTransport {
    const cfg: Config
    /** The values of the dict of held events, in insertion order; the key of each is its dedupe key. */
    var held: seq<HeldEvent>
    var sequence: nat
    var leases: nat
    /** The held events in publish order, as values. */
    ghost var log: seq<Held>

    ghost predicate Valid()
      reads this, held
    {
      && sequence == |held| == |log|
      && (forall i :: 0 <= i < |held| ==> held[i].sequence == i + 1 && log[i] == held[i].Value())
      && DistinctKeys(log)
    }

    ghost function Contents(): State
      reads this
    {
      State(log, leases)
    }

    constructor (cfg: Config)
      requires cfg.Valid()
      ensures Valid() && this.cfg == cfg && Contents() == EMPTY
    {
      this.cfg := cfg;
      held, sequence, leases, log := [], 0, 0, [];
    }

    /** The event held under `key`. */
    method Get(key: string) returns (h: HeldEvent?)
      requires Valid()
      ensures h == null <==> Find(log, key).None?
      ensures h != null ==>
                1 <= h.sequence <= |held| && held[h.sequence - 1] == h && Find(log, key) == Some(h.sequence - 1)
    {
      for n := 0 to |held|
        invariant forall i :: 0 <= i < n ==> log[i].envelope.dedupeKey != key
      {
        if held[n].envelope.dedupeKey == key {
          FindIsUnique(log, key, n);
          return held[n];
        }
      }
      return null;
    }

    method Publish(envelope: Envelope) returns (r: Published)
      requires Valid()
      modifies this
      ensures Valid() && (Contents(), r) == EventTransport.Publish(old(Contents()), envelope)
      ensures forall h :: h in held ==> h in old(held) || fresh(h)
    {
      var existing := Get(envelope.dedupeKey);
      if existing != null { return Published(existing.envelope.eventId, true); }
      sequence := sequence + 1;
      var h := new HeldEvent(envelope, sequence);
      held, log := held + [h], log + [h.Value()];
      return Published(envelope.eventId, false);
    }

    /** The ready event with the lowest sequence number. */
    method NextReady(now: Time) returns (best: HeldEvent?)
      requires Valid()
      ensures best == null ==> forall i :: 0 <= i < |log| ==> !Ready(cfg, log[i], now)
      ensures best != null ==>
                && 1 <= best.sequence <= |held| && held[best.sequence - 1] == best
                && Ready(cfg, log[best.sequence - 1], now)
                && forall i :: 0 <= i < best.sequence - 1 ==> !Ready(cfg, log[i], now)
    {
      best := null;
      for n := 0 to |held|
        invariant best == null ==> forall i :: 0 <= i < n ==> !Ready(cfg, log[i], now)
        invariant best != null ==>
                    && 1 <= best.sequence <= n && held[best.sequence - 1] == best
                    && Ready(cfg, log[best.sequence - 1], now)
                    && forall i :: 0 <= i < best.sequence - 1 ==> !Ready(cfg, log[i], now)
      {
        var h := held[n];
        if Ready(cfg, h.Value(), now) && (best == null || h.sequence < best.sequence) { best := h; }
      }
    }

    /** Write one held event's new state. */
    method Store(e: HeldEvent, h: Held)
      requires Valid() && 1 <= e.sequence <= |held| && held[e.sequence - 1] == e && h.envelope == e.envelope
      modifies e, this`log
      ensures Valid() && log == old(log)[e.sequence - 1 := h]
    {
      e.status, e.attempts, e.lease := h.status, h.attempts, h.lease;
      e.claimedAt, e.availableAt, e.lastError := h.claimedAt, h.availableAt, h.lastError;
      log := log[e.sequence - 1 := h];
    }

    /** One round of a claim, on the first event from position `from` on that is ready: hand it
        out, or park it if its budget is spent and leave the claim to go on after it. */
    method LeaseReady(e: HeldEvent, now: Time, ghost from: nat) returns (r: Option<Delivery>)
      requires Valid() && from < e.sequence <= |held| && held[e.sequence - 1] == e
      requires Ready(cfg, log[e.sequence - 1], now)
      requires forall i :: 0 <= i < e.sequence - 1 ==> !Ready(cfg, log[i], now)
      modifies e, this`leases, this`log
      ensures Valid() && |log| == old(|log|)
      ensures r.None? ==> forall i :: 0 <= i < e.sequence ==> !Ready(cfg, log[i], now)
      ensures ClaimFrom(cfg, old(Contents()), from, now)
           == if r.None? then ClaimFrom(cfg, Contents(), e.sequence, now) else (Contents(), r)
    {
      ClaimRound(cfg, Contents(), from, e.sequence - 1, now);
      leases := leases + 1;
      var h := Leased(e.Value(), leases, now);
      if h.attempts > cfg.MaxAttempts() {
        Store(e, Parked(h, DEAD_LETTER, LapsedLease(h.attempts - 1)));
        return None;
      }
      Store(e, h);
      return Some(Delivery(e.envelope, h.attempts, leases));
    }

    method Claim(now: Time) returns (r: Option<Delivery>)
      requires Valid()
      modifies this`leases, this`log, held
      ensures Valid() && (Contents(), r) == EventTransport.Claim(cfg, old(Contents()), now)
    {
      ghost var from := 0;
      while true
        invariant Valid() && 0 <= from <= |log|
        invariant forall i :: 0 <= i < from ==> !Ready(cfg, log[i], now)
        invariant ClaimFrom(cfg, Contents(), from, now) == EventTransport.Claim(cfg, old(Contents()), now)
        decreases |log| - from
      {
        var e := NextReady(now);
        if e == null {
          SkipUnready(cfg, Contents(), from, |log|, now);
          return None;
        }
        r := LeaseReady(e, now, from);
        if r.Some? { return r; }
        from := e.sequence;
      }
    }

    /** The event `d` still holds the lease on, if it does. */
    method CurrentHeld(d: Delivery) returns (e: HeldEvent?)
      requires Valid()
      ensures e == null <==> Current(Contents(), d).None?
      ensures e != null ==>
                && 1 <= e.sequence <= |held| && held[e.sequence - 1] == e
                && Current(Contents(), d) == Some(e.sequence - 1)
    {
      e := Get(d.envelope.dedupeKey);
      if e != null && (!e.status.IN_PROGRESS? || e.lease != Some(d.lease)) { return null; }
    }

    method Ack(d: Delivery) returns (r: bool)
      requires Valid()
      modifies this`log, held
      ensures Valid() && (Contents(), r) == EventTransport.Ack(old(Contents()), d)
    {
      var e := CurrentHeld(d);
      if e == null { return false; }
      Store(e, e.Value().(status := DISPATCHED, lease := None));
      return true;
    }

    method Nack(d: Delivery, error: HandlerError, now: Time, rand: real) returns (r: DeliveryFailure)
      requires Valid() && 1 <= d.attempt
      modifies this`log, held
      ensures Valid() && (Contents(), r) == EventTransport.Nack(cfg, old(Contents()), d, error, now, rand)
    {
      var plan := ClassifyFailure(error, d.attempt, cfg.policy, rand);
      var e := CurrentHeld(d);
      if e == null { return DeliveryFailure(CLAIM_LOST, error, None); }
      var h :=
        if plan.outcome == AS_POISON then Parked(e.Value(), QUARANTINED, Described(error))
        else if plan.outcome == DEAD_LETTERED then Parked(e.Value(), DEAD_LETTER, Described(error))
        else BackedOff(e.Value(), now + plan.delay.GetOr(0.0), Described(error));
      Store(e, h);
      return plan;
    }

    method DeadLetter(d: Delivery, reason: ErrorText) returns (r: bool)
      requires Valid()
      modifies this`log, held
      ensures Valid() && (Contents(), r) == EventTransport.DeadLetter(old(Contents()), d, reason)
    {
      var e := CurrentHeld(d);
      if e == null { return false; }
      Store(e, Parked(e.Value(), DEAD_LETTER, reason));
      return true;
    }

    method Requeue(eventId: string) returns (r: bool)
      requires Valid()
      modifies this`log, held
      ensures Valid() && (Contents(), r) == EventTransport.Requeue(old(Contents()), eventId)
    {
      for n := 0 to |held|
        invariant FindParked(log, eventId, n) == FindParked(log, eventId, 0)
      {
        var e := held[n];
        if e.envelope.eventId == eventId && IsParked(e.Value()) {
          Store(e, Requeued(e.Value()));
          return true;
        }
      }
      return false;
    }
  }
}
