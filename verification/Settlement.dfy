/** What each call on the transport makes of an event, field by field. */
module Settlement {
  import opened Prelude
  import opened RetryPolicies
  import opened EventTransport

  /** Everything but position `i` is as it was. */
  predicate OnlyAt(before: State, after: State, i: nat) {
    i < |before.log| == |after.log| && after.log == before.log[i := after.log[i]]
  }

  /** An event nobody holds under its key waits, unattempted, behind all others; another changes nothing
      and is answered with the id of the one that is held. */
  lemma PublishedOnce(s: State, e: Envelope)
    ensures var (after, r) := Publish(s, e);
            if forall i :: 0 <= i < |s.log| ==> s.log[i].envelope.dedupeKey != e.dedupeKey then
              && after.leases == s.leases && r == Published(e.eventId, false)
              && after.log == s.log + [Held(e, PENDING, 0, None, None, None, None)]
            else
              && after == s && r.duplicate
              && exists i :: 0 <= i < |s.log| && s.log[i].envelope.dedupeKey == e.dedupeKey
                             && r.eventId == s.log[i].envelope.eventId
  {
    if Find(s.log, e.dedupeKey).Some? {
      var i := Find(s.log, e.dedupeKey).value;
      assert s.log[i].envelope.dedupeKey == e.dedupeKey;
    }
  }

  /** A claim may take an event of a type it does not leave out: one that waits and whose time has come,
      or one whose lease was taken at least the visibility timeout ago. */
  lemma ReadyExactly(cfg: Config, h: Held, now: Time)
    ensures Ready(cfg, h, now)
       <==> && !(h.envelope.kind in cfg.excludeTypes)
            && match h.status
               case PENDING => h.availableAt.Some? ==> !(now < h.availableAt.value)
               case IN_PROGRESS => h.claimedAt.Some? && !(now < h.claimedAt.value + cfg.visibilityTimeout)
               case _ => false
  {
  }

  /** Whoever holds an event's lease, and nobody else, can settle it. */
  lemma CurrentExactly(s: State, d: Delivery, i: nat)
    requires DistinctKeys(s.log) && i < |s.log| && s.log[i].envelope.dedupeKey == d.envelope.dedupeKey
    ensures Current(s, d) == if s.log[i].status.IN_PROGRESS? && s.log[i].lease == Some(d.lease) then Some(i) else None
  {
    FindIsUnique(s.log, d.envelope.dedupeKey, i);
  }

  /** What becomes of a delivery that failed. */
  function Fate(cfg: Config, kind: ErrorKind, attempt: nat): Status {
    match kind
    case VALIDATION_FAILED => QUARANTINED
    case OTHER_TAXONOMY(retryable) =>
      if retryable && attempt < cfg.policy.MaxAttempts() then PENDING else DEAD_LETTER
    case UNCLASSIFIED_EXCEPTION => if attempt < cfg.policy.MaxAttempts() then PENDING else DEAD_LETTER
  }

  /** A provider's wish counts if it asks for a wait at all. */
  predicate Asks(error: HandlerError) { error.retryAfter.Some? && 0.0 <= error.retryAfter.value }

  /** A delay as the policy and the error ask for it. */
  ghost predicate FitsDelay(cfg: Config, error: HandlerError, attempt: nat, delay: real)
    requires 1 <= attempt
  {
    var window := cfg.policy.DelayWindow(attempt);
    && window / 2.0 <= delay
    && (Asks(error) ==> error.retryAfter.value <= delay)
    && (delay <= window || (Asks(error) && delay == error.retryAfter.value))
  }

  lemma DelayFits(cfg: Config, error: HandlerError, attempt: nat, rand: real)
    requires 1 <= attempt && cfg.Valid() && Jitter(rand)
    ensures FitsDelay(cfg, error, attempt, cfg.policy.Delay(attempt, RetryAfterSeconds(error), rand))
  {
    DelayStaysInWindow(cfg.policy, attempt, None, rand);
    DelayStaysInWindow(cfg.policy, attempt, RetryAfterSeconds(error), rand);
  }

  /** What a failure calls for: a malformed event is quarantined at once, one that failed for good or on
      its last attempt is dead-lettered, and any other waits its policy's delay, and no less than was
      asked for. */
  lemma FailuresAreClassified(cfg: Config, error: HandlerError, attempt: nat, rand: real)
    requires 1 <= attempt && cfg.Valid() && Jitter(rand)
    ensures var failure := ClassifyFailure(error, attempt, cfg.policy, rand);
            && failure.error == error
            && match Fate(cfg, error.kind, attempt)
               case PENDING =>
                 failure.outcome == RETRY_SCHEDULED && failure.delay.Some?
                 && FitsDelay(cfg, error, attempt, failure.delay.value)
               case QUARANTINED => failure.outcome == AS_POISON && failure.delay.None?
               case _ => failure.outcome == DEAD_LETTERED && failure.delay.None?
  {
    DelayFits(cfg, error, attempt, rand);
  }

  /** A delivery that failed leaves its event as the error asks for, until the time the delay gives. */
  lemma NackSettlesByError(cfg: Config, s: State, d: Delivery, error: HandlerError, now: Time, rand: real)
    requires 1 <= d.attempt && cfg.Valid() && Jitter(rand) && Current(s, d).Some?
    ensures var i, fate := Current(s, d).value, Fate(cfg, error.kind, d.attempt);
            var (after, failure) := Nack(cfg, s, d, error, now, rand);
            var was, h := s.log[i], after.log[i];
            && failure == ClassifyFailure(error, d.attempt, cfg.policy, rand)
            && OnlyAt(s, after, i) && after.leases == s.leases
            && h.status == fate && h.lease.None? && h.lastError == Some(Described(error))
            && h.envelope == was.envelope && h.attempts == was.attempts
            && if fate == PENDING
               then h.claimedAt.None? && h.availableAt == Some(now + failure.delay.GetOr(0.0))
               else h.claimedAt == was.claimedAt && h.availableAt.None?
  {
    FailuresAreClassified(cfg, error, d.attempt, rand);
  }

  /** Settling a delivery that is no longer current changes nothing, in any of the three ways. */
  lemma StaleSettlingIsRefused(cfg: Config, s: State, d: Delivery, error: HandlerError, now: Time, rand: real,
                               reason: ErrorText)
    requires 1 <= d.attempt && Current(s, d).None?
    ensures Ack(s, d) == (s, false) && DeadLetter(s, d, reason) == (s, false)
    ensures Nack(cfg, s, d, error, now, rand) == (s, DeliveryFailure(CLAIM_LOST, error, None))
  {
  }

  lemma AckIsForGood(s: State, d: Delivery)
    requires Current(s, d).Some?
    ensures var i := Current(s, d).value; var (after, ok) := Ack(s, d); var was, h := s.log[i], after.log[i];
            && ok && OnlyAt(s, after, i) && after.leases == s.leases
            && h == Held(was.envelope, DISPATCHED, was.attempts, None, was.claimedAt, was.availableAt, was.lastError)
  {
  }

  lemma DeadLetterParks(s: State, d: Delivery, reason: ErrorText)
    requires Current(s, d).Some?
    ensures var i := Current(s, d).value; var (after, ok) := DeadLetter(s, d, reason);
            var was, h := s.log[i], after.log[i];
            && ok && OnlyAt(s, after, i) && after.leases == s.leases
            && h == Held(was.envelope, DEAD_LETTER, was.attempts, None, was.claimedAt, None, Some(reason))
  {
  }

  /** The first parked event of that id, and no other, gets a fresh budget; its last error is kept. */
  lemma RequeueRenews(s: State, eventId: string)
    ensures var (after, ok) := Requeue(s, eventId);
            if forall k :: 0 <= k < |s.log| && s.log[k].envelope.eventId == eventId ==>
                 s.log[k].status != DEAD_LETTER && s.log[k].status != QUARANTINED
            then after == s && !ok
            else
              && ok
              && exists i :: RequeuedAt(s, after, eventId, i)
  {
    var found := FindParked(s.log, eventId, 0);
    if found.Some? { assert RequeuedAt(s, Requeue(s, eventId).0, eventId, found.value); }
  }

  ghost predicate RequeuedAt(s: State, after: State, eventId: string, i: nat) {
    && OnlyAt(s, after, i) && after.leases == s.leases
    && s.log[i].envelope.eventId == eventId && s.log[i].status in {DEAD_LETTER, QUARANTINED}
    && (forall k :: 0 <= k < i && s.log[k].envelope.eventId == eventId ==>
          s.log[k].status !in {DEAD_LETTER, QUARANTINED})
    && after.log[i] == Held(s.log[i].envelope, PENDING, 0, None, None, None, s.log[i].lastError)
  }
}
