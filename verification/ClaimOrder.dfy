/** Which event a claim hands out, what else it touches, and when it may hand the same one out again. */
module ClaimOrder {
  import opened Prelude
  import opened RetryPolicies
  import opened EventTransport
  import opened TransportRuns

  ghost predicate HasBudget(cfg: Config, h: Held) { h.attempts < cfg.MaxAttempts() }

  /** What a claim makes of an event it passes: dead letter if it is ready with its budget spent. */
  ghost function Swept(cfg: Config, h: Held, now: Time): Held {
    if Ready(cfg, h, now) && !HasBudget(cfg, h)
    then Parked(Leased(h, 0, now), DEAD_LETTER, LapsedLease(h.attempts))
    else h
  }

  /** Position `i` holds the oldest event that is ready and has budget left. */
  ghost predicate OldestClaimable(cfg: Config, s: State, i: nat, now: Time) {
    && i < |s.log| && Ready(cfg, s.log[i], now) && HasBudget(cfg, s.log[i])
    && forall k :: 0 <= k < i ==> !(Ready(cfg, s.log[k], now) && HasBudget(cfg, s.log[k]))
  }

  ghost predicate NothingClaimable(cfg: Config, s: State, now: Time) {
    forall k :: 0 <= k < |s.log| ==> !(Ready(cfg, s.log[k], now) && HasBudget(cfg, s.log[k]))
  }

  /** The result of a pass from position `from` on, told without the pass. */
  ghost predicate ClaimResult(cfg: Config, s: State, from: nat, now: Time, s': State, r: Option<Delivery>)
    requires from <= |s.log|
  {
    && |s'.log| == |s.log| && s.leases <= s'.leases
    && (forall k :: 0 <= k < from ==> s'.log[k] == s.log[k])
    && match r
       case None =>
         && (forall k :: from <= k < |s.log| ==> !(Ready(cfg, s.log[k], now) && HasBudget(cfg, s.log[k])))
         && (forall k :: from <= k < |s.log| ==> s'.log[k] == Swept(cfg, s.log[k], now))
       case Some(d) =>
         exists i :: from <= i < |s.log| && HandsOut(cfg, s, from, i, now, s', d)
  }

  ghost predicate HandsOut(cfg: Config, s: State, from: nat, i: nat, now: Time, s': State, d: Delivery)
    requires from <= i < |s.log| == |s'.log|
  {
    && Ready(cfg, s.log[i], now) && HasBudget(cfg, s.log[i])
    && (forall k :: from <= k < i ==> !(Ready(cfg, s.log[k], now) && HasBudget(cfg, s.log[k])))
    && (forall k :: from <= k < i ==> s'.log[k] == Swept(cfg, s.log[k], now))
    && (forall k :: i < k < |s.log| ==> s'.log[k] == s.log[k])
    && s.leases < s'.leases
    && s'.log[i] == Leased(s.log[i], s'.leases, now)
    && d == Delivery(s.log[i].envelope, s.log[i].attempts + 1, s'.leases)
  }

  lemma VisitSweeps(cfg: Config, s: State, i: nat, now: Time)
    requires i < |s.log|
    ensures match VisitAt(cfg, s, i, now)
            case PassedOver(after) =>
              && !(Ready(cfg, s.log[i], now) && HasBudget(cfg, s.log[i]))
              && after.log == s.log[i := Swept(cfg, s.log[i], now)] && s.leases <= after.leases
            case HandedOut(after, d) =>
              && Ready(cfg, s.log[i], now) && HasBudget(cfg, s.log[i])
              && after == State(s.log[i := Leased(s.log[i], s.leases + 1, now)], s.leases + 1)
              && d == Delivery(s.log[i].envelope, s.log[i].attempts + 1, s.leases + 1)
  {
    if VisitAt(cfg, s, i, now).PassedOver? && !Ready(cfg, s.log[i], now) {
      assert s.log[i := s.log[i]] == s.log;
    }
  }

  /** A claim hands out the oldest ready event with budget left, dead-letters the ready ones
      before it, and leaves everything else alone; it returns nothing only when there is none. */
  lemma {:induction false} ClaimFromResult(cfg: Config, s: State, from: nat, now: Time)
    requires from <= |s.log|
    ensures var (s', r) := ClaimFrom(cfg, s, from, now); ClaimResult(cfg, s, from, now, s', r)
    decreases |s.log| - from
  {
    if from < |s.log| {
      VisitSweeps(cfg, s, from, now);
      match VisitAt(cfg, s, from, now)
      case PassedOver(after) =>
        ClaimFromResult(cfg, after, from + 1, now);
        var (s', r) := ClaimFrom(cfg, after, from + 1, now);
        assert forall k :: 0 <= k < |s.log| && k != from ==> after.log[k] == s.log[k];
        assert s'.log[from] == after.log[from] == Swept(cfg, s.log[from], now);
        if r.Some? {
          var i :| from + 1 <= i < |after.log| && HandsOut(cfg, after, from + 1, i, now, s', r.value);
          assert HandsOut(cfg, s, from, i, now, s', r.value);
        }
      case HandedOut(after, d) =>
        assert HandsOut(cfg, s, from, from, now, after, d);
    }
  }

  lemma ClaimTakesTheOldest(cfg: Config, s: State, now: Time)
    ensures var (s', r) := Claim(cfg, s, now);
            && (r.None? <==> NothingClaimable(cfg, s, now))
            && |s'.log| == |s.log|
            && (r.Some? ==> exists i: nat ::
                  OldestClaimable(cfg, s, i, now) && HandsOut(cfg, s, 0, i, now, s', r.value))
  {
    ClaimFromResult(cfg, s, 0, now);
    var (s', r) := Claim(cfg, s, now);
    if r.Some? {
      var i :| 0 <= i < |s.log| && HandsOut(cfg, s, 0, i, now, s', r.value);
      assert OldestClaimable(cfg, s, i, now);
    }
  }

  // ---- One consumer, one event at a time --------------------------------------------------------

  /** Events waiting for their turn, with nothing in the way. */
  predicate Waiting(cfg: Config, h: Held) {
    h.envelope.kind !in cfg.excludeTypes && h.status.PENDING? && h.availableAt.None? && h.attempts < cfg.MaxAttempts()
  }

  function WaitingEvents(cfg: Config, log: seq<Held>): seq<Envelope> {
    if log == [] then []
    else if Waiting(cfg, log[0]) then [log[0].envelope] + WaitingEvents(cfg, log[1..])
    else WaitingEvents(cfg, log[1..])
  }

  /** What a consumer that acks each claim before the next is handed, claiming once at each of `times`. */
  function SerialConsumer(cfg: Config, s: State, times: seq<Time>): seq<Envelope>
    decreases |times|
  {
    if times == [] then []
    else
      var (s', r) := Claim(cfg, s, times[0]);
      match r
      case None => SerialConsumer(cfg, s', times[1..])
      case Some(d) => [d.envelope] + SerialConsumer(cfg, Ack(s', d).0, times[1..])
  }

  /** Every event is waiting, done, parked or not for this consumer: none that it may take is in
      progress or backing off. */
  ghost predicate Queue(cfg: Config, s: State) {
    && DistinctKeys(s.log)
    && forall i :: 0 <= i < |s.log| ==>
         || Waiting(cfg, s.log[i]) || s.log[i].status.DISPATCHED? || IsParked(s.log[i])
         || s.log[i].envelope.kind in cfg.excludeTypes
  }

  lemma {:induction false} FirstWaiting(cfg: Config, log: seq<Held>, i: nat, h: Held)
    requires i < |log| && Waiting(cfg, log[i]) && !Waiting(cfg, h)
    requires forall k :: 0 <= k < i ==> !Waiting(cfg, log[k])
    ensures WaitingEvents(cfg, log) == [log[i].envelope] + WaitingEvents(cfg, log[i := h])
  {
    if i == 0 {
      assert log[0 := h][1..] == log[1..];
    } else {
      FirstWaiting(cfg, log[1..], i - 1, h);
      assert log[i := h][1..] == log[1..][i - 1 := h];
    }
  }

  lemma {:induction false} NoneWaiting(cfg: Config, log: seq<Held>)
    requires forall k :: 0 <= k < |log| ==> !Waiting(cfg, log[k])
    ensures WaitingEvents(cfg, log) == []
  {
    if log != [] { NoneWaiting(cfg, log[1..]); }
  }

  /** In such a queue the events a claim is ready for are the waiting ones, and it sweeps nothing. */
  lemma QueueIsQuiet(cfg: Config, s: State, k: nat, now: Time)
    requires Queue(cfg, s) && k < |s.log|
    ensures Ready(cfg, s.log[k], now) <==> Waiting(cfg, s.log[k])
    ensures Swept(cfg, s.log[k], now) == s.log[k]
  {
  }

  lemma ServeFrom(cfg: Config, s: State, i: nat, now: Time, s': State, d: Delivery)
    requires Queue(cfg, s) && |s'.log| == |s.log| && OldestClaimable(cfg, s, i, now)
        && HandsOut(cfg, s, 0, i, now, s', d)
    ensures Queue(cfg, Ack(s', d).0)
    ensures WaitingEvents(cfg, s.log) == [d.envelope] + WaitingEvents(cfg, Ack(s', d).0.log)
  {
    forall k | 0 <= k < |s.log| ensures k != i ==> s'.log[k] == s.log[k] {
      QueueIsQuiet(cfg, s, k, now);
    }
    assert s'.log == s.log[i := s'.log[i]];
    FindIsUnique(s'.log, d.envelope.dedupeKey, i);
    var done := s'.log[i].(status := DISPATCHED, lease := None);
    assert Ack(s', d).0.log == s.log[i := done];
    forall k | 0 <= k < i ensures !Waiting(cfg, s.log[k]) {
      QueueIsQuiet(cfg, s, k, now);
    }
    QueueIsQuiet(cfg, s, i, now);
    FirstWaiting(cfg, s.log, i, done);
  }

  /** One claim and its ack take exactly the first waiting event off the queue. */
  lemma ServeOne(cfg: Config, s: State, now: Time)
    requires Queue(cfg, s)
    ensures var (s', r) := Claim(cfg, s, now);
            match r
            case None => WaitingEvents(cfg, s.log) == [] && s'.log == s.log
            case Some(d) =>
              && Queue(cfg, Ack(s', d).0)
              && WaitingEvents(cfg, s.log) == [d.envelope] + WaitingEvents(cfg, Ack(s', d).0.log)
  {
    var (s', r) := Claim(cfg, s, now);
    ClaimTakesTheOldest(cfg, s, now);
    if r.None? {
      ClaimFromResult(cfg, s, 0, now);
      forall k | 0 <= k < |s.log| ensures s'.log[k] == s.log[k] && !Waiting(cfg, s.log[k]) {
        QueueIsQuiet(cfg, s, k, now);
      }
      NoneWaiting(cfg, s.log);
    } else {
      var i: nat :| OldestClaimable(cfg, s, i, now) && HandsOut(cfg, s, 0, i, now, s', r.value);
      ServeFrom(cfg, s, i, now, s', r.value);
    }
  }

  /** A consumer that claims and settles one event at a time sees events in publish order. */
  lemma {:induction false} SerialConsumerIsFifo(cfg: Config, s: State, times: seq<Time>)
    requires Queue(cfg, s)
    ensures var waiting := WaitingEvents(cfg, s.log);
            SerialConsumer(cfg, s, times) == if |times| <= |waiting| then waiting[..|times|] else waiting
    decreases |times|
  {
    if times != [] {
      ServeOne(cfg, s, times[0]);
      var (s', r) := Claim(cfg, s, times[0]);
      match r
      case None => SerialConsumerIsFifo(cfg, s', times[1..]);
      case Some(d) => SerialConsumerIsFifo(cfg, Ack(s', d).0, times[1..]);
    }
  }

  // ---- How long an event is left alone ------------------------------------------------------------

  /** The only calls that can change a held event: a claim it is ready for, settling the
      lease it holds, and requeueing it once parked. */
  ghost predicate Disturbs(cfg: Config, op: Op, h: Held) {
    match op
    case DoPublish(_) => false
    case DoClaim(now) => Ready(cfg, h, now)
    case DoAck(d) => h.lease == Some(d.lease)
    case DoNack(d, _, _, _) => h.lease == Some(d.lease)
    case DoDeadLetter(d, _) => h.lease == Some(d.lease)
    case DoRequeue(_) => IsParked(h)
  }

  lemma UndisturbedStep(cfg: Config, w: World, op: Op, i: nat)
    requires Permitted(w, op) && i < |w.s.log| && !Disturbs(cfg, op, w.s.log[i])
    ensures i < |Step(cfg, w, op).s.log| && Step(cfg, w, op).s.log[i] == w.s.log[i]
  {
    if op.DoClaim? {
      ClaimFromResult(cfg, w.s, 0, op.now);
      ClaimHistoryIsClaim(cfg, w, 0, op.now);
    }
  }

  ghost predicate NoneDisturbs(cfg: Config, ops: seq<Op>, h: Held) {
    forall n :: 0 <= n < |ops| ==> !Disturbs(cfg, ops[n], h)
  }

  lemma {:induction false} UndisturbedRun(cfg: Config, w: World, ops: seq<Op>, i: nat)
    requires Run(cfg, w, ops).Some? && i < |w.s.log| && NoneDisturbs(cfg, ops, w.s.log[i])
    ensures i < |Run(cfg, w, ops).value.s.log| && Run(cfg, w, ops).value.s.log[i] == w.s.log[i]
    decreases |ops|
  {
    if ops != [] {
      UndisturbedStep(cfg, w, ops[0], i);
      assert forall n :: 0 <= n < |ops[1..]| ==> ops[1..][n] == ops[n + 1];
      UndisturbedRun(cfg, Step(cfg, w, ops[0]), ops[1..], i);
    }
  }

  /** A delivered event is done for good: no run ever changes it again. */
  lemma DispatchedIsFinal(cfg: Config, w: World, ops: seq<Op>, i: nat)
    requires cfg.Valid() && Inv(cfg, w) && Run(cfg, w, ops).Some? && i < |w.s.log| && w.s.log[i].status.DISPATCHED?
    ensures i < |Run(cfg, w, ops).value.s.log| && Run(cfg, w, ops).value.s.log[i] == w.s.log[i]
  {
    assert EntryOk(cfg, w.s.log[i], w.handouts[i]);
    UndisturbedRun(cfg, w, ops, i);
  }

  ghost predicate ClaimsBefore(ops: seq<Op>, until: Time) {
    forall n :: 0 <= n < |ops| && ops[n].DoClaim? ==> ops[n].now < until
  }

  /** What a nack that schedules a retry leaves behind. */
  lemma NackBacksOff(cfg: Config, w: World, d: Delivery, error: HandlerError, at: Time, rand: real)
    requires Permitted(w, DoNack(d, error, at, rand))
    requires Nack(cfg, w.s, d, error, at, rand).1.outcome.RETRY_SCHEDULED?
    ensures var i := Find(w.s.log, d.envelope.dedupeKey);
            var delay := cfg.policy.Delay(d.attempt, RetryAfterSeconds(error), rand);
            i.Some? && Step(cfg, w, DoNack(d, error, at, rand)).s.log
                       == w.s.log[i.value := BackedOff(w.s.log[i.value], at + delay, Described(error))]
  {
  }

  /** A nacked event is left alone until its backoff, or the error's longer `Retry-After`, has passed. */
  lemma BackoffIsHonoured(cfg: Config, w: World, d: Delivery, error: HandlerError, at: Time, rand: real, ops: seq<Op>)
    requires Permitted(w, DoNack(d, error, at, rand))
    requires Nack(cfg, w.s, d, error, at, rand).1.outcome.RETRY_SCHEDULED?
    requires Run(cfg, w, [DoNack(d, error, at, rand)] + ops).Some?
    requires ClaimsBefore(ops, at + cfg.policy.Delay(d.attempt, RetryAfterSeconds(error), rand))
    ensures var i := Find(w.s.log, d.envelope.dedupeKey);
            var after := Run(cfg, w, [DoNack(d, error, at, rand)] + ops).value.s.log;
            var delay := cfg.policy.Delay(d.attempt, RetryAfterSeconds(error), rand);
            i.Some? && i.value < |after| && after[i.value] == BackedOff(w.s.log[i.value], at + delay, Described(error))
  {
    var nack := DoNack(d, error, at, rand);
    NackBacksOff(cfg, w, d, error, at, rand);
    assert ([nack] + ops)[0] == nack && ([nack] + ops)[1..] == ops;
    UndisturbedRun(cfg, Step(cfg, w, nack), ops, Find(w.s.log, d.envelope.dedupeKey).value);
  }

  /** While its lease runs and is not settled, a handed-out event is handed to nobody else:
      two hand-outs with no settlement between are a visibility timeout apart. */
  lemma LeaseIsExclusive(cfg: Config, w: World, i: nat, ops: seq<Op>)
    requires cfg.Valid() && Inv(cfg, w) && i < |w.s.log| && w.s.log[i].status.IN_PROGRESS?
    requires Run(cfg, w, ops).Some? && ClaimsBefore(ops, w.s.log[i].claimedAt.GetOr(0.0) + cfg.visibilityTimeout)
    requires forall n :: 0 <= n < |ops| ==> !SettlesLease(ops[n], w.s.log[i].lease)
    ensures w.s.log[i].claimedAt.Some?
    ensures exists m :: 0 <= m < |w.issued| && w.issued[m].at == w.s.log[i].claimedAt.value
                        && w.issued[m].delivery.envelope == w.s.log[i].envelope
                            && Some(w.issued[m].delivery.lease) == w.s.log[i].lease
    ensures i < |Run(cfg, w, ops).value.s.log| && Run(cfg, w, ops).value.s.log[i] == w.s.log[i]
  {
    var h := w.s.log[i];
    assert EntryOk(cfg, h, w.handouts[i]) && LeaseIssued(w, h);
    forall n | 0 <= n < |ops| ensures !Disturbs(cfg, ops[n], h) {
      assert !SettlesLease(ops[n], h.lease);
    }
    UndisturbedRun(cfg, w, ops, i);
  }

  ghost predicate SettlesLease(op: Op, lease: Option<nat>) {
    || (op.DoAck? && Some(op.acked.lease) == lease)
    || (op.DoNack? && Some(op.nacked.lease) == lease)
    || (op.DoDeadLetter? && Some(op.buried.lease) == lease)
  }

  /** Nothing published is ever dropped or moved. */
  lemma {:induction false} LogGrows(cfg: Config, w: World, ops: seq<Op>)
    requires Run(cfg, w, ops).Some?
    ensures |w.s.log| <= |Run(cfg, w, ops).value.s.log|
    ensures forall i :: 0 <= i < |w.s.log| ==> Run(cfg, w, ops).value.s.log[i].envelope == w.s.log[i].envelope
    decreases |ops|
  {
    if ops != [] {
      if ops[0].DoClaim? {
        ClaimFromResult(cfg, w.s, 0, ops[0].now);
        ClaimHistoryIsClaim(cfg, w, 0, ops[0].now);
      }
      LogGrows(cfg, Step(cfg, w, ops[0]), ops[1..]);
    }
  }
}
