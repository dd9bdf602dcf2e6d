/** The transport contract: what each call does to the events held, as functions of them.
    Times are seconds. Events are listed in publish order, which is the order claims prefer. */
module EventTransport {
  import opened Prelude
  import opened RetryPolicies

  type Time = real

  datatype Envelope = Envelope(eventId: string, kind: string, dedupeKey: string, payload: string)

  datatype Status = PENDING | IN_PROGRESS | DISPATCHED | DEAD_LETTER | QUARANTINED

  /** A handler's exception, as far as delivery is concerned. */
  datatype ErrorKind =
    | VALIDATION_FAILED
    | OTHER_TAXONOMY(retryable: bool)
    | UNCLASSIFIED_EXCEPTION

  datatype HandlerError = HandlerError(kind: ErrorKind, retryAfter: Option<real>, text: string)

  datatype ErrorText = LapsedLease(lapses: int) | Described(error: HandlerError) | Reason(text: string)

  datatype Held = Held(
    envelope: Envelope, status: Status, attempts: nat, lease: Option<nat>,
    claimedAt: Option<Time>, availableAt: Option<Time>, lastError: Option<ErrorText>)

  datatype Delivery = Delivery(envelope: Envelope, attempt: nat, lease: nat)

  datatype Published = Published(eventId: string, duplicate: bool)

  datatype FailureOutcome = RETRY_SCHEDULED | DEAD_LETTERED | AS_POISON | CLAIM_LOST

  datatype DeliveryFailure = DeliveryFailure(outcome: FailureOutcome, error: HandlerError, delay: Option<real>)

  datatype Config = Config(excludeTypes: set<string>, visibilityTimeout: real, policy: RetryPolicy) {
    predicate Valid() { policy.Valid() }

    function MaxAttempts(): int { policy.MaxAttempts() }
  }

  datatype State = State(log: seq<Held>, leases: nat)

  const EMPTY := State([], 0)

  // ---- What a failure calls for ----------------------------------------------------------

  predicate IsPoison(error: HandlerError) { error.kind.VALIDATION_FAILED? }

  predicate IsTerminal(error: HandlerError) { error.kind.OTHER_TAXONOMY? && !error.kind.retryable }

  function RetryAfterSeconds(error: HandlerError): Option<real> {
    if error.retryAfter.Some? && error.retryAfter.value < 0.0 then None else error.retryAfter
  }

  function ClassifyFailure(error: HandlerError, attempt: nat, policy: RetryPolicy, rand: real): DeliveryFailure
    requires 1 <= attempt
  {
    if IsPoison(error) then DeliveryFailure(AS_POISON, error, None)
    else if IsTerminal(error) || !policy.AllowsRetry(attempt) then DeliveryFailure(DEAD_LETTERED, error, None)
    else DeliveryFailure(RETRY_SCHEDULED, error, Some(policy.Delay(attempt, RetryAfterSeconds(error), rand)))
  }

  // ---- Publishing ---------------------------------------------------------------------------

  /** Where the event published under `key` is held. */
  function Find(log: seq<Held>, key: string): (r: Option<nat>)
    ensures r.Some? ==> r.value < |log| && log[r.value].envelope.dedupeKey == key
    ensures r.None? <==> forall i :: 0 <= i < |log| ==> log[i].envelope.dedupeKey != key
  {
    if log == [] then None
    else
      var last := |log| - 1;
      if log[last].envelope.dedupeKey == key then Some(last)
      else
        var r := Find(log[..last], key);
        assert r.None? ==> forall i :: 0 <= i < last ==> log[i] == log[..last][i];
        r
  }

  function Fresh(envelope: Envelope): Held { Held(envelope, PENDING, 0, None, None, None, None) }

  function Publish(s: State, envelope: Envelope): (State, Published) {
    match Find(s.log, envelope.dedupeKey)
    case Some(i) => (s, Published(s.log[i].envelope.eventId, true))
    case None => (s.(log := s.log + [Fresh(envelope)]), Published(envelope.eventId, false))
  }

  // ---- Claiming -------------------------------------------------------------------------------

  predicate Ready(cfg: Config, h: Held, now: Time) {
    && h.envelope.kind !in cfg.excludeTypes
    && (|| (h.status.PENDING? && (h.availableAt.None? || h.availableAt.value <= now))
        || (h.status.IN_PROGRESS? && h.claimedAt.Some? && h.claimedAt.value <= now - cfg.visibilityTimeout))
  }

  function Leased(h: Held, lease: nat, now: Time): Held {
    h.(status := IN_PROGRESS, attempts := h.attempts + 1, lease := Some(lease), claimedAt := Some(now),
        availableAt := None)
  }

  function Parked(h: Held, status: Status, error: ErrorText): Held {
    h.(status := status, lease := None, availableAt := None, lastError := Some(error))
  }

  /** What a claim does about one event: pass it over, perhaps after dead-lettering it, or hand it out. */
  datatype Visit = PassedOver(after: State) | HandedOut(after: State, delivery: Delivery)

  function VisitAt(cfg: Config, s: State, i: nat, now: Time): (v: Visit)
    requires i < |s.log|
    ensures |v.after.log| == |s.log|
  {
    if !Ready(cfg, s.log[i], now) then PassedOver(s)
    else
      var h := Leased(s.log[i], s.leases + 1, now);
      if h.attempts > cfg.MaxAttempts()
      then PassedOver(State(s.log[i := Parked(h, DEAD_LETTER, LapsedLease(h.attempts - 1))], s.leases + 1))
      else HandedOut(State(s.log[i := h], s.leases + 1), Delivery(h.envelope, h.attempts, s.leases + 1))
  }

  /** One pass over the events from position `i` on: those ready but out of budget are
      dead-lettered on the way, and the first ready one with budget left is handed out. */
  function ClaimFrom(cfg: Config, s: State, i: nat, now: Time): (State, Option<Delivery>)
    requires i <= |s.log|
    decreases |s.log| - i
  {
    if i == |s.log| then (s, None)
    else
      match VisitAt(cfg, s, i, now)
      case PassedOver(after) => ClaimFrom(cfg, after, i + 1, now)
      case HandedOut(after, d) => (after, Some(d))
  }

  function Claim(cfg: Config, s: State, now: Time): (State, Option<Delivery>) { ClaimFrom(cfg, s, 0, now) }

  // ---- Settling ---------------------------------------------------------------------------------

  /** Where the event `d` still holds the lease on is. */
  function Current(s: State, d: Delivery): (r: Option<nat>)
    ensures r.Some? ==> r.value < |s.log| && s.log[r.value].envelope.dedupeKey == d.envelope.dedupeKey
                        && s.log[r.value].status.IN_PROGRESS? && s.log[r.value].lease == Some(d.lease)
  {
    match Find(s.log, d.envelope.dedupeKey)
    case None => None
    case Some(i) => if s.log[i].status.IN_PROGRESS? && s.log[i].lease == Some(d.lease) then Some(i) else None
  }

  function Ack(s: State, d: Delivery): (State, bool) {
    match Current(s, d)
    case None => (s, false)
    case Some(i) => (s.(log := s.log[i := s.log[i].(status := DISPATCHED, lease := None)]), true)
  }

  function BackedOff(h: Held, at: Time, error: ErrorText): Held {
    h.(status := PENDING, lease := None, claimedAt := None, availableAt := Some(at), lastError := Some(error))
  }

  function Nack(cfg: Config, s: State, d: Delivery, error: HandlerError, now: Time, rand: real)
    : (State, DeliveryFailure)
    requires 1 <= d.attempt
  {
    var plan := ClassifyFailure(error, d.attempt, cfg.policy, rand);
    match Current(s, d)
    case None => (s, DeliveryFailure(CLAIM_LOST, error, None))
    case Some(i) =>
      var h :=
        match plan.outcome
        case AS_POISON => Parked(s.log[i], QUARANTINED, Described(error))
        case DEAD_LETTERED => Parked(s.log[i], DEAD_LETTER, Described(error))
        case _ => BackedOff(s.log[i], now + plan.delay.GetOr(0.0), Described(error));
      (s.(log := s.log[i := h]), plan)
  }

  function DeadLetter(s: State, d: Delivery, reason: ErrorText): (State, bool) {
    match Current(s, d)
    case None => (s, false)
    case Some(i) => (s.(log := s.log[i := Parked(s.log[i], DEAD_LETTER, reason)]), true)
  }

  // ---- Requeueing ---------------------------------------------------------------------------------

  predicate IsParked(h: Held) { h.status.DEAD_LETTER? || h.status.QUARANTINED? }

  /** The first parked event published as `eventId`, from position `i` on. */
  function FindParked(log: seq<Held>, eventId: string, i: nat): (r: Option<nat>)
    requires i <= |log|
    ensures r.Some? ==> i <= r.value < |log| && IsParked(log[r.value]) && log[r.value].envelope.eventId == eventId
    ensures forall k :: i <= k < (if r.Some? then r.value else |log|) ==>
              !(IsParked(log[k]) && log[k].envelope.eventId == eventId)
    decreases |log| - i
  {
    if i == |log| then None
    else if log[i].envelope.eventId == eventId && IsParked(log[i]) then Some(i)
    else FindParked(log, eventId, i + 1)
  }

  function Requeued(h: Held): Held {
    h.(status := PENDING, attempts := 0, lease := None, claimedAt := None, availableAt := None)
  }

  function Requeue(s: State, eventId: string): (State, bool) {
    match FindParked(s.log, eventId, 0)
    case None => (s, false)
    case Some(i) => (s.(log := s.log[i := Requeued(s.log[i])]), true)
  }

  /** No two events are held under one key. */
  ghost predicate DistinctKeys(log: seq<Held>) {
    forall j, k :: 0 <= j < k < |log| ==> log[j].envelope.dedupeKey != log[k].envelope.dedupeKey
  }

  lemma FindIsUnique(log: seq<Held>, key: string, i: nat)
    requires i < |log| && log[i].envelope.dedupeKey == key
    requires DistinctKeys(log)
    ensures Find(log, key) == Some(i)
  {
    var found := Find(log, key);
    assert found.Some?;
  }

  /** Events that are not ready are passed over. */
  lemma {:induction false} SkipUnready(cfg: Config, s: State, i: nat, j: nat, now: Time)
    requires i <= j <= |s.log|
    requires forall k :: i <= k < j ==> !Ready(cfg, s.log[k], now)
    ensures ClaimFrom(cfg, s, i, now) == ClaimFrom(cfg, s, j, now)
    decreases j - i
  {
    if i < j { SkipUnready(cfg, s, i + 1, j, now); }
  }

  /** One round of the claim loop: the first ready event is handed out, or parked and the pass goes on after it. */
  lemma ClaimRound(cfg: Config, s: State, from: nat, i: nat, now: Time)
    requires from <= i < |s.log|
    requires forall k :: from <= k < i ==> !Ready(cfg, s.log[k], now)
    ensures ClaimFrom(cfg, s, from, now) ==
              match VisitAt(cfg, s, i, now)
              case PassedOver(after) => ClaimFrom(cfg, after, i + 1, now)
              case HandedOut(after, d) => (after, Some(d))
  {
    SkipUnready(cfg, s, from, i, now);
  }
}
