/** Every state a transport can reach, with the history of how it got there. */
module TransportRuns {
  import opened Prelude
  import opened RetryPolicies
  import opened EventTransport

  datatype HandOut = HandOut(delivery: Delivery, at: Time)

  /** A transport's contents, every delivery it has handed out, the leases that were settled,
      the leases a later claim took over, and for each event how often it was handed out
      since it was published or last requeued. */
  datatype World = World(s: State, issued: seq<HandOut>, settled: set<nat>, superseded: set<nat>, handouts: seq<nat>)

  const START := World(EMPTY, [], {}, {}, [])

  datatype Op =
    | DoPublish(envelope: Envelope)
    | DoClaim(now: Time)
    | DoAck(acked: Delivery)
    | DoNack(nacked: Delivery, error: HandlerError, at: Time, rand: real)
    | DoDeadLetter(buried: Delivery, reason: ErrorText)
    | DoRequeue(eventId: string)

  function TakeOver(w: World, lease: Option<nat>): set<nat> {
    if lease.Some? then w.superseded + {lease.value} else w.superseded
  }

  /** The history kept of one visit a claim makes. */
  function VisitHistory(cfg: Config, w: World, i: nat, now: Time): (r: (World, Option<Delivery>))
    requires i < |w.s.log| == |w.handouts|
    ensures |r.0.s.log| == |r.0.handouts| == |w.s.log|
  {
    if !Ready(cfg, w.s.log[i], now) then (w, None)
    else
      var w' := w.(superseded := TakeOver(w, w.s.log[i].lease));
      match VisitAt(cfg, w.s, i, now)
      case PassedOver(after) => (w'.(s := after), None)
      case HandedOut(after, d) =>
        (w'.(s := after, issued := w.issued + [HandOut(d, now)], handouts := w.handouts[i := w.handouts[i] + 1]),
            Some(d))
  }

  function ClaimHistory(cfg: Config, w: World, i: nat, now: Time): (World, Option<Delivery>)
    requires i <= |w.s.log| == |w.handouts|
    decreases |w.s.log| - i
  {
    if i == |w.s.log| then (w, None)
    else
      var (after, d) := VisitHistory(cfg, w, i, now);
      if d.Some? then (after, d) else ClaimHistory(cfg, after, i + 1, now)
  }

  function SettledIf(w: World, s: State, d: Delivery, ok: bool): World {
    w.(s := s, settled := if ok then w.settled + {d.lease} else w.settled)
  }

  function Step(cfg: Config, w: World, op: Op): World
    requires Permitted(w, op)
  {
    match op
    case DoPublish(e) =>
      var (s, r) := Publish(w.s, e);
      w.(s := s, handouts := if r.duplicate then w.handouts else w.handouts + [0])
    case DoClaim(now) => ClaimHistory(cfg, w, 0, now).0
    case DoAck(d) => var (s, ok) := Ack(w.s, d); SettledIf(w, s, d, ok)
    case DoNack(d, error, at, rand) =>
      var (s, r) := Nack(cfg, w.s, d, error, at, rand);
      SettledIf(w, s, d, !r.outcome.CLAIM_LOST?)
    case DoDeadLetter(d, reason) => var (s, ok) := DeadLetter(w.s, d, reason); SettledIf(w, s, d, ok)
    case DoRequeue(id) =>
      var (s, _) := Requeue(w.s, id);
      var found := FindParked(w.s.log, id, 0);
      w.(s := s, handouts := if found.Some? then w.handouts[found.value := 0] else w.handouts)
  }

  predicate WasIssued(w: World, d: Delivery) { exists m :: 0 <= m < |w.issued| && w.issued[m].delivery == d }

  /** Only a delivery the transport handed out can be settled with it. */
  predicate Permitted(w: World, op: Op) {
    && |w.handouts| == |w.s.log|
    && (op.DoAck? ==> WasIssued(w, op.acked))
    && (op.DoNack? ==> WasIssued(w, op.nacked) && 1 <= op.nacked.attempt)
    && (op.DoDeadLetter? ==> WasIssued(w, op.buried))
  }

  function Run(cfg: Config, w: World, ops: seq<Op>): Option<World>
    decreases |ops|
  {
    if ops == [] then Some(w)
    else if !Permitted(w, ops[0]) then None
    else Run(cfg, Step(cfg, w, ops[0]), ops[1..])
  }

  // ---- The invariant -----------------------------------------------------------------------

  /** Some event holds `lease`. */
  ghost predicate HeldLease(s: State, lease: nat) { exists i :: 0 <= i < |s.log| && s.log[i].lease == Some(lease) }

  /** One event, in itself: a lease exactly while in progress, and never more than one attempt over budget. */
  ghost predicate EntryOk(cfg: Config, h: Held, handouts: nat) {
    && (h.status.IN_PROGRESS? <==> h.lease.Some?)
    && (h.lease.Some? ==> h.claimedAt.Some?)
    && h.attempts <= cfg.MaxAttempts() + 1
    && (h.attempts == cfg.MaxAttempts() + 1 ==> h.status.DEAD_LETTER?)
    && (h.status.PENDING? ==> h.attempts < cfg.MaxAttempts())
    && handouts == if h.attempts <= cfg.MaxAttempts() then h.attempts else cfg.MaxAttempts()
  }

  /** The delivery that goes with an event's lease: same event, same attempt, handed out when the lease began. */
  ghost predicate LeaseIssued(w: World, h: Held) {
    h.lease.Some? && h.claimedAt.Some? ==>
      exists m :: 0 <= m < |w.issued| && w.issued[m]
          == HandOut(Delivery(h.envelope, h.attempts, h.lease.value), h.claimedAt.value)
  }

  ghost predicate Inv(cfg: Config, w: World) {
    EntriesOk(cfg, w) && IssuedOk(cfg, w) && LeasesEnd(w)
  }

  ghost predicate EntriesOk(cfg: Config, w: World) {
    && |w.handouts| == |w.s.log|
    && DistinctKeys(w.s.log)
    && forall i :: 0 <= i < |w.s.log| ==> EntryOk(cfg, w.s.log[i], w.handouts[i]) && LeaseIssued(w, w.s.log[i])
  }

  /** Lease numbers only grow, so none is ever used twice, and every delivery is within budget. */
  ghost predicate IssuedOk(cfg: Config, w: World) {
    && (forall m :: 0 <= m < |w.issued| ==>
          1 <= w.issued[m].delivery.lease <= w.s.leases && 1 <= w.issued[m].delivery.attempt <= cfg.MaxAttempts())
    && (forall m, n :: 0 <= m < n < |w.issued| ==> w.issued[m].delivery.lease < w.issued[n].delivery.lease)
    && (forall l :: l in w.settled ==> l <= w.s.leases)
    && (forall l :: l in w.superseded ==> l <= w.s.leases)
  }

  /** A lease is held until it is settled or taken over, and those are the only two ways it ends. */
  ghost predicate LeasesEnd(w: World) {
    && w.settled !! w.superseded
    && forall m :: 0 <= m < |w.issued| ==>
         (HeldLease(w.s, w.issued[m].delivery.lease) <==>
            w.issued[m].delivery.lease !in w.settled && w.issued[m].delivery.lease !in w.superseded)
  }

  /** No two events hold the same lease. */
  lemma LeasesDistinct(cfg: Config, w: World, i: nat, j: nat)
    requires Inv(cfg, w) && i < |w.s.log| && j < |w.s.log|
    requires w.s.log[i].lease.Some? && w.s.log[i].lease == w.s.log[j].lease
    ensures i == j
  {
    var hi, hj := w.s.log[i], w.s.log[j];
    assert LeaseIssued(w, hi) && LeaseIssued(w, hj);
    var m :| 0 <= m < |w.issued| && w.issued[m]
        == HandOut(Delivery(hi.envelope, hi.attempts, hi.lease.value), hi.claimedAt.value);
    var n :| 0 <= n < |w.issued| && w.issued[n]
        == HandOut(Delivery(hj.envelope, hj.attempts, hj.lease.value), hj.claimedAt.value);
    assert m == n;
  }

  /** An issued delivery is current exactly while some event holds its lease, and then that event is its own. */
  lemma CurrentIsHeldLease(cfg: Config, w: World, d: Delivery)
    requires Inv(cfg, w) && WasIssued(w, d)
    ensures Current(w.s, d).Some? <==> HeldLease(w.s, d.lease)
    ensures Current(w.s, d).Some? ==> w.s.log[Current(w.s, d).value].envelope == d.envelope
                                      && w.s.log[Current(w.s, d).value].attempts == d.attempt
  {
    var m :| 0 <= m < |w.issued| && w.issued[m].delivery == d;
    if HeldLease(w.s, d.lease) {
      var i :| 0 <= i < |w.s.log| && w.s.log[i].lease == Some(d.lease);
      var h := w.s.log[i];
      assert EntryOk(cfg, h, w.handouts[i]) && LeaseIssued(w, h);
      var n :| 0 <= n < |w.issued| && w.issued[n]
          == HandOut(Delivery(h.envelope, h.attempts, h.lease.value), h.claimedAt.value);
      assert m == n;
      FindIsUnique(w.s.log, d.envelope.dedupeKey, i);
    }
  }

  // ---- Changes to one event --------------------------------------------------------------------

  /** Ending the lease of one event, whichever way it ends, keeps the invariant. */
  lemma EndLease(cfg: Config, w: World, i: nat, h: Held, settled: set<nat>, superseded: set<nat>, leases: nat)
    requires Inv(cfg, w) && i < |w.s.log|
    requires h.envelope == w.s.log[i].envelope && h.lease.None? && EntryOk(cfg, h, w.handouts[i])
    requires w.s.leases <= leases && EndsLease(w, w.s.log[i].lease, settled, superseded)
    ensures Inv(cfg, w.(s := State(w.s.log[i := h], leases), settled := settled, superseded := superseded))
  {
    var was := w.s.log[i].lease;
    var w' := w.(s := State(w.s.log[i := h], leases), settled := settled, superseded := superseded);
    assert LeaseIssued(w, w.s.log[i]) && EntryOk(cfg, w.s.log[i], w.handouts[i]);
    if was.Some? {
      assert HeldLease(w.s, was.value);
      var m :| 0 <= m < |w.issued| && w.issued[m].delivery.lease == was.value;
      assert was.value !in w.settled && was.value !in w.superseded;
    }
    assert EntriesOk(cfg, w') by { EntriesUpdated(cfg, w, w', i); }
    assert LeasesEnd(w') by { LeaseTaken(cfg, w, w', i); }
  }

  /** The history records that `lease`, if there is one, has ended. */
  ghost predicate EndsLease(w: World, lease: Option<nat>, settled: set<nat>, superseded: set<nat>) {
    || (lease.Some? && settled == w.settled + {lease.value} && superseded == w.superseded)
    || (settled == w.settled && superseded == TakeOver(w, lease))
  }

  lemma EntriesUpdated(cfg: Config, w: World, w': World, i: nat)
    requires EntriesOk(cfg, w) && i < |w.s.log|
    requires |w'.s.log| == |w.s.log| && w'.s.log == w.s.log[i := w'.s.log[i]] && w'.s.log[i].envelope
        == w.s.log[i].envelope
    requires |w'.handouts| == |w.handouts| && w'.handouts == w.handouts[i := w'.handouts[i]]
    requires w.issued <= w'.issued
    requires EntryOk(cfg, w'.s.log[i], w'.handouts[i]) && LeaseIssued(w', w'.s.log[i])
    ensures EntriesOk(cfg, w')
  {
    forall j | 0 <= j < |w'.s.log| ensures EntryOk(cfg, w'.s.log[j], w'.handouts[j]) && LeaseIssued(w', w'.s.log[j]) {
      if j != i {
        var h := w.s.log[j];
        assert EntryOk(cfg, h, w.handouts[j]) && LeaseIssued(w, h);
        if h.lease.Some? {
          var m :| 0 <= m < |w.issued| && w.issued[m]
              == HandOut(Delivery(h.envelope, h.attempts, h.lease.value), h.claimedAt.value);
          assert w'.issued[m] == w.issued[m];
        }
      }
    }
  }

  lemma LeaseTaken(cfg: Config, w: World, w': World, i: nat)
    requires Inv(cfg, w) && i < |w.s.log| && |w'.s.log| == |w.s.log| && w'.s.log == w.s.log[i := w'.s.log[i]]
    requires w'.s.log[i].lease.None? && w'.issued == w.issued
    requires EndsLease(w, w.s.log[i].lease, w'.settled, w'.superseded) && w'.settled !! w'.superseded
    ensures LeasesEnd(w')
  {
    var was := w.s.log[i].lease;
    forall m | 0 <= m < |w'.issued|
      ensures HeldLease(w'.s, w'.issued[m].delivery.lease) <==>
                w'.issued[m].delivery.lease !in w'.settled && w'.issued[m].delivery.lease !in w'.superseded
    {
      var l := w.issued[m].delivery.lease;
      if HeldLease(w.s, l) && Some(l) != was {
        var j :| 0 <= j < |w.s.log| && w.s.log[j].lease == Some(l);
        assert w'.s.log[j].lease == Some(l);
      }
      if HeldLease(w'.s, l) {
        var j :| 0 <= j < |w'.s.log| && w'.s.log[j].lease == Some(l);
        assert w.s.log[j].lease == Some(l);
        if Some(l) == was { LeasesDistinct(cfg, w, i, j); }
      }
    }
  }

  /** One ready event dead-lettered by a claim, with its history. */
  function Buried(w: World, i: nat, now: Time): World
    requires i < |w.s.log|
  {
    var was := w.s.log[i];
    var dead := Parked(Leased(was, w.s.leases + 1, now), DEAD_LETTER, LapsedLease(was.attempts));
    w.(s := State(w.s.log[i := dead], w.s.leases + 1), superseded := TakeOver(w, was.lease))
  }

  /** One ready event handed out by a claim, with its history. */
  function Handed(w: World, i: nat, now: Time): World
    requires i < |w.s.log| == |w.handouts|
  {
    var was := w.s.log[i];
    var h := Leased(was, w.s.leases + 1, now);
    w.(s := State(w.s.log[i := h], w.s.leases + 1),
       superseded := TakeOver(w, was.lease),
       issued := w.issued + [HandOut(Delivery(h.envelope, h.attempts, w.s.leases + 1), now)],
       handouts := w.handouts[i := w.handouts[i] + 1])
  }

  lemma VisitEnds(cfg: Config, w: World, i: nat, now: Time)
    requires i < |w.s.log| == |w.handouts|
    ensures VisitHistory(cfg, w, i, now).0
         == if !Ready(cfg, w.s.log[i], now) then w
            else if w.s.log[i].attempts + 1 > cfg.MaxAttempts() then Buried(w, i, now)
            else Handed(w, i, now)
  {
  }

  /** A ready event with its old lease, if any, taken off it. */
  function Idled(w: World, i: nat): World
    requires i < |w.s.log|
  {
    var was := w.s.log[i];
    var idle := was.(lease := None, status := if was.status.IN_PROGRESS? then DISPATCHED else was.status);
    w.(s := State(w.s.log[i := idle], w.s.leases + 1), superseded := TakeOver(w, was.lease))
  }

  lemma IdledKeepsInv(cfg: Config, w: World, i: nat)
    requires cfg.Valid() && Inv(cfg, w) && i < |w.s.log|
    ensures Inv(cfg, Idled(w, i))
  {
    var was := w.s.log[i];
    assert EntryOk(cfg, was, w.handouts[i]);
    if was.lease.Some? {
      assert LeaseIssued(w, was);
      assert was.lease.value <= w.s.leases;
    }
    EndLease(cfg, w, i, Idled(w, i).s.log[i], w.settled, TakeOver(w, was.lease), w.s.leases + 1);
  }

  /** Handing out one ready event within its budget keeps the invariant: its old lease, if any, is taken
      off it, then the new one put on. */
  lemma HandOutOne(cfg: Config, w: World, i: nat, now: Time)
    requires cfg.Valid() && Inv(cfg, w) && i < |w.s.log|
    requires Ready(cfg, w.s.log[i], now) && w.s.log[i].attempts + 1 <= cfg.MaxAttempts()
    ensures Inv(cfg, Handed(w, i, now))
  {
    var mid, w' := Idled(w, i), Handed(w, i, now);
    var h := w'.s.log[i];
    assert EntryOk(cfg, w.s.log[i], w.handouts[i]);
    IdledKeepsInv(cfg, w, i);
    assert mid.s.log[i := h] == w.s.log[i := h];
    AddLease(cfg, mid, w', i, h, w'.issued[|w.issued|]);
  }

  lemma AddLease(cfg: Config, mid: World, w': World, i: nat, h: Held, d: HandOut)
    requires Inv(cfg, mid) && i < |mid.s.log| && mid.s.log[i].lease.None?
    requires h.envelope == mid.s.log[i].envelope && h.lease == Some(mid.s.leases) && h.claimedAt == Some(d.at)
    requires d.delivery == Delivery(h.envelope, h.attempts, mid.s.leases) && 1 <= h.attempts <= cfg.MaxAttempts()
        && 1 <= mid.s.leases
    requires forall m :: 0 <= m < |mid.issued| ==> mid.issued[m].delivery.lease < mid.s.leases
    requires mid.s.leases !in mid.settled && mid.s.leases !in mid.superseded
    requires w' == mid.(s := mid.s.(log := mid.s.log[i := h]), issued := mid.issued + [d], handouts := w'.handouts)
    requires |w'.handouts| == |mid.handouts| && w'.handouts == mid.handouts[i := w'.handouts[i]]
        && EntryOk(cfg, h, w'.handouts[i])
    ensures Inv(cfg, w')
  {
    assert w'.issued[|mid.issued|] == d;
    assert LeaseIssued(w', h);
    assert EntriesOk(cfg, w') by { EntriesUpdated(cfg, mid, w', i); }
    assert LeasesEnd(w') by { LeaseGiven(mid, w', i); }
  }

  lemma LeaseGiven(mid: World, w': World, i: nat)
    requires LeasesEnd(mid) && i < |mid.s.log| && mid.s.log[i].lease.None?
    requires |w'.s.log| == |mid.s.log| && w'.s.log == mid.s.log[i := w'.s.log[i]] && w'.s.log[i].lease.Some?
    requires |w'.issued| == |mid.issued| + 1 && mid.issued <= w'.issued
    requires w'.issued[|mid.issued|].delivery.lease == w'.s.log[i].lease.value
    requires forall m :: 0 <= m < |mid.issued| ==> mid.issued[m].delivery.lease < w'.s.log[i].lease.value
    requires w'.settled == mid.settled && w'.superseded == mid.superseded
    requires w'.s.log[i].lease.value !in mid.settled && w'.s.log[i].lease.value !in mid.superseded
    ensures LeasesEnd(w')
  {
    forall m | 0 <= m < |w'.issued|
      ensures HeldLease(w'.s, w'.issued[m].delivery.lease) <==>
                w'.issued[m].delivery.lease !in w'.settled && w'.issued[m].delivery.lease !in w'.superseded
    {
      var l := w'.issued[m].delivery.lease;
      if m == |mid.issued| {
        assert w'.s.log[i].lease == Some(l);
      } else {
        assert l == mid.issued[m].delivery.lease;
        if HeldLease(mid.s, l) {
          var j :| 0 <= j < |mid.s.log| && mid.s.log[j].lease == Some(l);
          assert w'.s.log[j].lease == Some(l);
        }
        if HeldLease(w'.s, l) {
          var j :| 0 <= j < |w'.s.log| && w'.s.log[j].lease == Some(l);
          assert mid.s.log[j].lease == Some(l);
        }
      }
    }
  }

  // ---- Every step keeps the invariant --------------------------------------------------------

  /** Only an event whose lease lapsed is dead-lettered by a claim, and only when its budget is
      spent to the last attempt; doing so keeps the invariant. */
  lemma BuryOne(cfg: Config, w: World, i: nat, now: Time)
    requires cfg.Valid() && Inv(cfg, w) && i < |w.s.log|
    requires Ready(cfg, w.s.log[i], now) && w.s.log[i].attempts + 1 > cfg.MaxAttempts()
    ensures w.s.log[i].status.IN_PROGRESS? && w.s.log[i].attempts == cfg.MaxAttempts()
    ensures Inv(cfg, Buried(w, i, now))
  {
    var was := w.s.log[i];
    assert EntryOk(cfg, was, w.handouts[i]);
    var dead := Parked(Leased(was, w.s.leases + 1, now), DEAD_LETTER, LapsedLease(was.attempts));
    EndLease(cfg, w, i, dead, w.settled, TakeOver(w, was.lease), w.s.leases + 1);
  }

  lemma VisitKeepsInv(cfg: Config, w: World, i: nat, now: Time)
    requires cfg.Valid() && Inv(cfg, w) && i < |w.s.log|
    ensures Inv(cfg, VisitHistory(cfg, w, i, now).0)
  {
    VisitEnds(cfg, w, i, now);
    if Ready(cfg, w.s.log[i], now) {
      if w.s.log[i].attempts + 1 > cfg.MaxAttempts() {
        BuryOne(cfg, w, i, now);
      } else {
        HandOutOne(cfg, w, i, now);
      }
    }
  }

  lemma {:induction false} ClaimKeepsInv(cfg: Config, w: World, i: nat, now: Time)
    requires cfg.Valid() && Inv(cfg, w) && i <= |w.s.log|
    ensures Inv(cfg, ClaimHistory(cfg, w, i, now).0)
    decreases |w.s.log| - i
  {
    if i < |w.s.log| {
      VisitKeepsInv(cfg, w, i, now);
      var (after, d) := VisitHistory(cfg, w, i, now);
      if d.None? { ClaimKeepsInv(cfg, after, i + 1, now); }
    }
  }

  /** The history is kept beside the claim, not instead of it. */
  lemma {:induction false} ClaimHistoryIsClaim(cfg: Config, w: World, i: nat, now: Time)
    requires i <= |w.s.log| == |w.handouts|
    ensures (ClaimHistory(cfg, w, i, now).0.s, ClaimHistory(cfg, w, i, now).1) == ClaimFrom(cfg, w.s, i, now)
    decreases |w.s.log| - i
  {
    if i < |w.s.log| {
      var (after, d) := VisitHistory(cfg, w, i, now);
      if d.None? { ClaimHistoryIsClaim(cfg, after, i + 1, now); }
    }
  }

  lemma PublishKeepsInv(cfg: Config, w: World, e: Envelope)
    requires cfg.Valid() && Inv(cfg, w) && Find(w.s.log, e.dedupeKey).None?
    ensures Inv(cfg, w.(s := w.s.(log := w.s.log + [Fresh(e)]), handouts := w.handouts + [0]))
  {
    var w' := w.(s := w.s.(log := w.s.log + [Fresh(e)]), handouts := w.handouts + [0]);
    forall i | 0 <= i < |w'.s.log| ensures EntryOk(cfg, w'.s.log[i], w'.handouts[i]) && LeaseIssued(w', w'.s.log[i]) {
      if i < |w.s.log| { assert EntryOk(cfg, w.s.log[i], w.handouts[i]) && LeaseIssued(w, w.s.log[i]); }
    }
    forall m | 0 <= m < |w'.issued|
      ensures HeldLease(w'.s, w'.issued[m].delivery.lease) <==> HeldLease(w.s, w.issued[m].delivery.lease)
    {
      var l := w.issued[m].delivery.lease;
      if HeldLease(w.s, l) {
        var j :| 0 <= j < |w.s.log| && w.s.log[j].lease == Some(l);
        assert w'.s.log[j].lease == Some(l);
      }
    }
  }

  lemma RequeueKeepsInv(cfg: Config, w: World, i: nat)
    requires cfg.Valid() && Inv(cfg, w) && i < |w.s.log| && IsParked(w.s.log[i])
    ensures Inv(cfg, w.(s := w.s.(log := w.s.log[i := Requeued(w.s.log[i])]), handouts := w.handouts[i := 0]))
  {
    var w' := w.(s := w.s.(log := w.s.log[i := Requeued(w.s.log[i])]), handouts := w.handouts[i := 0]);
    assert EntryOk(cfg, w.s.log[i], w.handouts[i]);
    EntriesUpdated(cfg, w, w', i);
    LeaseTaken(cfg, w, w', i);
  }

  /** Settling a current delivery, in any of the ways there are. */
  lemma SettleKeepsInv(cfg: Config, w: World, d: Delivery, h: Held)
    requires cfg.Valid() && Inv(cfg, w) && WasIssued(w, d) && Current(w.s, d).Some?
    requires var was := w.s.log[Current(w.s, d).value];
             h.envelope == was.envelope && h.lease.None? && !h.status.IN_PROGRESS? && h.attempts == was.attempts
    requires h.status.PENDING? ==> d.attempt < cfg.MaxAttempts()
    ensures Inv(cfg, w.(s := w.s.(log := w.s.log[Current(w.s, d).value := h]), settled := w.settled + {d.lease}))
  {
    CurrentIsHeldLease(cfg, w, d);
    var i := Current(w.s, d).value;
    assert EntryOk(cfg, w.s.log[i], w.handouts[i]);
    EndLease(cfg, w, i, h, w.settled + {d.lease}, w.superseded, w.s.leases);
  }

  lemma AckKeepsInv(cfg: Config, w: World, d: Delivery)
    requires cfg.Valid() && Inv(cfg, w) && Permitted(w, DoAck(d))
    ensures Inv(cfg, Step(cfg, w, DoAck(d)))
  {
    if Current(w.s, d).Some? {
      SettleKeepsInv(cfg, w, d, w.s.log[Current(w.s, d).value].(status := DISPATCHED, lease := None));
    }
  }

  lemma NackKeepsInv(cfg: Config, w: World, d: Delivery, error: HandlerError, at: Time, rand: real)
    requires cfg.Valid() && Inv(cfg, w) && Permitted(w, DoNack(d, error, at, rand))
    ensures Inv(cfg, Step(cfg, w, DoNack(d, error, at, rand)))
  {
    if Current(w.s, d).Some? {
      SettleKeepsInv(cfg, w, d, Nack(cfg, w.s, d, error, at, rand).0.log[Current(w.s, d).value]);
    }
  }

  lemma DeadLetterKeepsInv(cfg: Config, w: World, d: Delivery, reason: ErrorText)
    requires cfg.Valid() && Inv(cfg, w) && Permitted(w, DoDeadLetter(d, reason))
    ensures Inv(cfg, Step(cfg, w, DoDeadLetter(d, reason)))
  {
    if Current(w.s, d).Some? {
      SettleKeepsInv(cfg, w, d, Parked(w.s.log[Current(w.s, d).value], DEAD_LETTER, reason));
    }
  }

  lemma RedriveKeepsInv(cfg: Config, w: World, id: string)
    requires cfg.Valid() && Inv(cfg, w) && Permitted(w, DoRequeue(id))
    ensures Inv(cfg, Step(cfg, w, DoRequeue(id)))
  {
    if FindParked(w.s.log, id, 0).Some? { RequeueKeepsInv(cfg, w, FindParked(w.s.log, id, 0).value); }
  }

  lemma PublishingKeepsInv(cfg: Config, w: World, e: Envelope)
    requires cfg.Valid() && Inv(cfg, w) && Permitted(w, DoPublish(e))
    ensures Inv(cfg, Step(cfg, w, DoPublish(e)))
  {
    if Find(w.s.log, e.dedupeKey).None? { PublishKeepsInv(cfg, w, e); }
  }

  lemma StepKeepsInv(cfg: Config, w: World, op: Op)
    requires cfg.Valid() && Inv(cfg, w) && Permitted(w, op)
    ensures Inv(cfg, Step(cfg, w, op))
  {
    match op
    case DoPublish(e) => PublishingKeepsInv(cfg, w, e);
    case DoClaim(now) => ClaimKeepsInv(cfg, w, 0, now);
    case DoAck(d) => AckKeepsInv(cfg, w, d);
    case DoNack(d, error, at, rand) => NackKeepsInv(cfg, w, d, error, at, rand);
    case DoDeadLetter(d, reason) => DeadLetterKeepsInv(cfg, w, d, reason);
    case DoRequeue(id) => RedriveKeepsInv(cfg, w, id);
  }

  /** The invariant holds in every state a run can reach. */
  lemma {:induction false} ReachableStatesAreSafe(cfg: Config, w: World, ops: seq<Op>)
    requires cfg.Valid() && Inv(cfg, w) && Run(cfg, w, ops).Some?
    ensures Inv(cfg, Run(cfg, w, ops).value)
    decreases |ops|
  {
    if ops != [] {
      StepKeepsInv(cfg, w, ops[0]);
      ReachableStatesAreSafe(cfg, Step(cfg, w, ops[0]), ops[1..]);
    }
  }

  lemma StartIsSafe(cfg: Config)
    requires cfg.Valid()
    ensures Inv(cfg, START)
  {
  }

  // ---- What the invariant says about settling and budgets --------------------------------------

  /** In a reachable state a delivery settles exactly if it has not been settled and nobody has
      claimed the event since, however long its lease has lapsed; otherwise the attempt changes
      nothing. A delivery that settles is of the attempt the event is on. */
  lemma SettlingIsConditionalOnTheLease(cfg: Config, ops: seq<Op>, d: Delivery, error: HandlerError,
      reason: ErrorText, at: Time, rand: real)
    requires cfg.Valid() && Run(cfg, START, ops).Some? && WasIssued(Run(cfg, START, ops).value, d) && 1 <= d.attempt
    ensures var w := Run(cfg, START, ops).value;
            var live := d.lease !in w.settled && d.lease !in w.superseded;
            && Ack(w.s, d).1 == live && (!live ==> Ack(w.s, d).0 == w.s)
            && DeadLetter(w.s, d, reason).1 == live && (!live ==> DeadLetter(w.s, d, reason).0 == w.s)
            && (Nack(cfg, w.s, d, error, at, rand).1.outcome.CLAIM_LOST? <==> !live)
            && (!live ==> Nack(cfg, w.s, d, error, at, rand).0 == w.s)
            && (live ==> w.s.log[Current(w.s, d).value].attempts == d.attempt)
  {
    StartIsSafe(cfg);
    ReachableStatesAreSafe(cfg, START, ops);
    var w := Run(cfg, START, ops).value;
    CurrentIsHeldLease(cfg, w, d);
    var m :| 0 <= m < |w.issued| && w.issued[m].delivery == d;
    assert HeldLease(w.s, w.issued[m].delivery.lease) <==> HeldLease(w.s, d.lease);
  }

  /** Between publish or requeue and the next requeue, no event is handed out more often than
      the budget allows; and no lease number is ever issued twice. */
  lemma DeliveryBudget(cfg: Config, ops: seq<Op>)
    requires cfg.Valid() && Run(cfg, START, ops).Some?
    ensures var w := Run(cfg, START, ops).value;
            && |w.handouts| == |w.s.log|
            && (forall i :: 0 <= i < |w.handouts| ==> w.handouts[i] <= cfg.MaxAttempts())
            && (forall m, n :: 0 <= m < n < |w.issued| ==> w.issued[m].delivery.lease != w.issued[n].delivery.lease)
            && (forall i, j :: 0 <= i < j < |w.s.log| ==>
                  w.s.log[i].envelope.dedupeKey != w.s.log[j].envelope.dedupeKey)
  {
    StartIsSafe(cfg);
    ReachableStatesAreSafe(cfg, START, ops);
    var w := Run(cfg, START, ops).value;
    assert forall i :: 0 <= i < |w.handouts| ==> EntryOk(cfg, w.s.log[i], w.handouts[i]);
  }
}
