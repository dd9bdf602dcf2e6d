/** Approvals bound to the content of an action, across a run that parks while anything may rewrite
    the action. */
module Approvals {
  import opened Prelude
  import opened RetryPolicies
  import opened ToolExecution

  datatype Kind =
    | SUBMIT_APPLICATION | SEND_RECRUITER_MESSAGE | OVERWRITE_DOCUMENT | CREATE_CALENDAR_EVENT
    | UPDATE_CALENDAR_EVENT
  {
    /** How long an approval of this kind stands, in days. */
    function ApprovalDays(): nat {
      match this
      case SUBMIT_APPLICATION => 7
      case SEND_RECRUITER_MESSAGE => 3
      case OVERWRITE_DOCUMENT => 1
      case CREATE_CALENDAR_EVENT => 2
      case UPDATE_CALENDAR_EVENT => 2
    }

    /** How far a failed call of this kind is repeated. */
    function Retries(): RetryPolicy {
      if this == CREATE_CALENDAR_EVENT || this == UPDATE_CALENDAR_EVENT then CALENDAR_WRITE else SEND
    }
  }

  const DAY := 24 * 60 * 60 * 1_000_000

  /** What happens outside the system: all an approval covers. */
  datatype Effect = Effect(kind: Kind, target: string, payload: string)

  datatype ActionIntent =
    ActionIntent(actionId: int, effect: Effect, idempotencyKey: string, summary: string, createdAt: int)

  type Hash = Effect -> string

  ghost predicate Injective(hash: Hash) { forall a, b :: hash(a) == hash(b) ==> a == b }

  datatype Request = Request(requestId: int, actionId: int, actionHash: string, kind: Kind, target: string,
                             requestedAt: int, expiresAt: int) {
    predicate IsExpired(now: int) { now >= expiresAt }
    predicate Describes(intent: ActionIntent) { actionId == intent.actionId }
  }

  datatype Verdict = APPROVED | REJECTED | UNANSWERED

  datatype Decision =
    Decision(actionId: int, fingerprint: string, verdict: Verdict, byExpirySweep: bool, requestId: Option<int>)
  {
    predicate Answers(r: Request) { actionId == r.actionId && (requestId.None? || requestId.value == r.requestId) }
  }

  datatype Reason = NO_REQUEST | NOT_APPROVED | DENIED_BY_USER | MISDIRECTED_DECISION | HASH_MISMATCH | EXPIRED

  /** How long a request stands: the deployment's window if it set one, or the kind's own. */
  function Window(kind: Kind, ttl: Option<nat>): nat {
    if ttl.GetOr(0) > 0 then ttl.value else kind.ApprovalDays() * DAY
  }

  /** The request a reviewer answers, its hash taken once from the intent as it stands. */
  function ForIntent(hash: Hash, intent: ActionIntent, requestId: int, now: int, ttl: Option<nat>): Request {
    Request(requestId, intent.actionId, hash(intent.effect), intent.effect.kind, intent.effect.target, now,
            now + Window(intent.effect.kind, ttl))
  }

  function NonApprovalReason(d: Decision): Reason {
    if d.byExpirySweep then EXPIRED else if d.verdict == REJECTED then DENIED_BY_USER else NOT_APPROVED
  }

  /** The last gate before a side effect; nothing means it may run. */
  function AuthorizeExecution(hash: Hash, intent: ActionIntent, request: Option<Request>, decision: Option<Decision>,
                              now: int): Option<Reason>
  {
    if request.None? then Some(NO_REQUEST)
    else if !request.value.Describes(intent) then Some(MISDIRECTED_DECISION)
    else if decision.None? then Some(NOT_APPROVED)
    else if !decision.value.Answers(request.value) then Some(MISDIRECTED_DECISION)
    else if decision.value.verdict != APPROVED then Some(NonApprovalReason(decision.value))
    else if decision.value.fingerprint != request.value.actionHash then Some(HASH_MISMATCH)
    else if hash(intent.effect) != request.value.actionHash then Some(HASH_MISMATCH)
    else if request.value.IsExpired(now) then Some(EXPIRED)
    else None
  }

  /** Approved as asked: this decision says yes to this request, by its hash. */
  predicate Approves(d: Decision, r: Request) {
    d.Answers(r) && d.verdict == APPROVED && d.fingerprint == r.actionHash
  }

  /** The gate opens exactly for the content the request was raised with, whatever became of the
      intent since. */
  lemma AuthorizedExactlyAsRaised(hash: Hash, raised: ActionIntent, requestId: int, at: int, ttl: Option<nat>,
                                  intent: ActionIntent, decision: Option<Decision>, now: int)
    requires Injective(hash)
    ensures var r := ForIntent(hash, raised, requestId, at, ttl);
            AuthorizeExecution(hash, intent, Some(r), decision, now).None?
            <==> && intent.actionId == raised.actionId && intent.effect == raised.effect
                 && decision.Some? && Approves(decision.value, r) && now < r.expiresAt
  {
    assert hash(intent.effect) == hash(raised.effect) <==> intent.effect == raised.effect;
  }

  /** A rewritten action is refused for what it is, even when its approval has also expired. */
  lemma RewritesAreNamed(hash: Hash, raised: ActionIntent, requestId: int, at: int, ttl: Option<nat>,
                         intent: ActionIntent, decision: Decision, now: int)
    requires Injective(hash) && intent.actionId == raised.actionId
    requires Approves(decision, ForIntent(hash, raised, requestId, at, ttl))
    ensures AuthorizeExecution(hash, intent, Some(ForIntent(hash, raised, requestId, at, ttl)), Some(decision), now)
         == if intent.effect != raised.effect then Some(HASH_MISMATCH)
            else if now >= at + Window(raised.effect.kind, ttl) then Some(EXPIRED)
            else None
  {
    assert hash(intent.effect) == hash(raised.effect) <==> intent.effect == raised.effect;
  }

  // ---- The run ----------------------------------------------------------------------------------------

  datatype Receipt = Receipt(actionId: int, ok: bool)

  datatype Refusal = Refusal(actionId: int, reason: Reason)

  /** The thread's checkpointed state. Lists only grow, but for the pending actions. */
  datatype Thread = Thread(
    pending: seq<ActionIntent>, requests: seq<Request>, approvals: seq<Decision>,
    refusals: seq<Refusal>, receipts: seq<Receipt>)

  /** A dictionary by action id, read: the last entry wins. */
  function Latest<T>(entries: seq<T>, actionOf: T -> int, id: int): Option<T> {
    if entries == [] then None
    else if actionOf(entries[|entries| - 1]) == id then Some(entries[|entries| - 1])
    else Latest(entries[..|entries| - 1], actionOf, id)
  }

  function OfRequest(r: Request): int { r.actionId }

  function OfDecision(d: Decision): int { d.actionId }

  function LastRequest(t: Thread, id: int): Option<Request> { Latest(t.requests, OfRequest, id) }

  function LastDecision(t: Thread, id: int): Option<Decision> { Latest(t.approvals, OfDecision, id) }

  /** A request that was put to a reviewer, and the effect it was put for. */
  datatype Raised = Raised(request: Request, effect: Effect)

  /** An effect that was handed to the executor, under a key. */
  datatype Executed = Executed(actionId: int, key: string, effect: Effect, at: int)

  /** A receipt on file, and the key it was given under. */
  datatype Spent = Spent(key: string, receipt: Receipt)

  /** How far the proposed actions have come. */
  datatype Stage = Idle | Proposed | Requested | Answered | OutOfOrder

  /** A thread, the executor it shares with every other, and what led to where they are. */
  datatype System = System(thread: Thread, worlds: Worlds, stage: Stage,
                           raised: seq<Raised>, executed: seq<Executed>, spent: seq<Spent>)

  /** The steps of the graph that touch this state: any of the nodes that propose actions, the three
      every proposal then passes, whatever rewrites the pending actions in between, and what other
      threads make of a key. */
  datatype Node =
    | Propose(pending: seq<ActionIntent>)
    | RequestApproval(now: int, ttl: Option<nat>, ids: int -> int)
    | Rewrite(pending: seq<ActionIntent>)
    | Collect(decisions: seq<Decision>)
    | Execute(now: int, scripts: nat -> Script)
    | Elsewhere(key: string, kind: Kind, fingerprint: string, script: Script)

  function RaiseAll(hash: Hash, intents: seq<ActionIntent>, now: int, ttl: Option<nat>, ids: int -> int): seq<Raised> {
    if intents == [] then []
    else
      var last := intents[|intents| - 1];
      RaiseAll(hash, intents[..|intents| - 1], now, ttl, ids)
      + [Raised(ForIntent(hash, last, ids(last.actionId), now, ttl), last.effect)]
  }

  function RequestsOf(raised: seq<Raised>): seq<Request> {
    seq(|raised|, i requires 0 <= i < |raised| => raised[i].request)
  }

  /** The node that redeems pending actions, at work, or stopped by an exception. */
  datatype Redeeming = Redeeming(sys: System, stopped: bool)

  function RefusalOf(hash: Hash, t: Thread, intent: ActionIntent, now: int): Option<Reason> {
    AuthorizeExecution(hash, intent, LastRequest(t, intent.actionId), LastDecision(t, intent.actionId), now)
  }

  /** Redeems one pending action, or refuses it. */
  function ExecuteOne(hash: Hash, r: Redeeming, intent: ActionIntent, now: int, script: Script): Redeeming {
    var sys, id, key := r.sys, intent.actionId, intent.idempotencyKey;
    var t := sys.thread;
    if r.stopped then r
    else
      match RefusalOf(hash, t, intent, now)
      case Some(reason) => r.(sys := sys.(thread := t.(refusals := t.refusals + [Refusal(id, reason)])))
      case None =>
        var (world, outcome) := Attempt(At(sys.worlds, key), hash(intent.effect), intent.effect.kind.Retries(), script);
        var tried := sys.(worlds := sys.worlds[key := world],
                          executed := sys.executed + [Executed(id, key, intent.effect, now)]);
        if !outcome.Returned? then Redeeming(tried, true)
        else
          var c := Spent(key, Receipt(id, outcome.ok));
          r.(sys := tried.(thread := t.(receipts := t.receipts + [c.receipt]), spent := sys.spent + [c]))
  }

  function ExecuteAll(hash: Hash, sys: System, intents: seq<ActionIntent>, now: int, scripts: nat -> Script)
    : Redeeming
  {
    if intents == [] then Redeeming(sys, false)
    else
      var n := |intents| - 1;
      ExecuteOne(hash, ExecuteAll(hash, sys, intents[..n], now, scripts), intents[n], now, scripts(n))
  }

  /** A node that does not return leaves nothing in the thread. What it did outside is done. */
  function Checkpointed(sys: System, r: Redeeming): System {
    if r.stopped then r.sys.(thread := sys.thread, spent := sys.spent) else r.sys
  }

  /** What a node does, whenever it is entered. */
  function Act(hash: Hash, sys: System, node: Node): System {
    var t := sys.thread;
    match node
    case RequestApproval(now, ttl, ids) =>
      var raised := RaiseAll(hash, t.pending, now, ttl, ids);
      sys.(thread := t.(requests := t.requests + RequestsOf(raised)), raised := sys.raised + raised)
    case Propose(pending) => sys.(thread := t.(pending := pending))
    case Rewrite(pending) => sys.(thread := t.(pending := pending))
    case Collect(decisions) => sys.(thread := t.(approvals := t.approvals + decisions))
    case Execute(now, scripts) => Checkpointed(sys, ExecuteAll(hash, sys, t.pending, now, scripts))
    case Elsewhere(key, kind, fingerprint, script) =>
      sys.(worlds := sys.worlds[key := After(At(sys.worlds, key), Try(fingerprint, kind.Retries(), script))])
  }

  /** The graph's edges: a proposal is put to a reviewer, answered and redeemed, in that order, and
      redeemed again only if that did not return; another may be made at any time. */
  function Next(stage: Stage, node: Node, returned: bool): Stage {
    match node
    case Propose(_) => if stage == OutOfOrder then OutOfOrder else Proposed
    case RequestApproval(_, _, _) => if stage == Proposed then Requested else OutOfOrder
    case Rewrite(_) => stage
    case Collect(_) => if stage == Requested then Answered else OutOfOrder
    case Execute(_, _) => if stage != Answered then OutOfOrder else if returned then Idle else Answered
    case Elsewhere(_, _, _, _) => stage
  }

  predicate Returns(hash: Hash, sys: System, node: Node) {
    node.Execute? ==> !ExecuteAll(hash, sys, sys.thread.pending, node.now, node.scripts).stopped
  }

  function Step(hash: Hash, sys: System, node: Node): System {
    Act(hash, sys, node).(stage := Next(sys.stage, node, Returns(hash, sys, node)))
  }

  const EMPTY := System(Thread([], [], [], [], []), map[], Idle, [], [], [])

  /** Any nodes in any order, those of the graph included. */
  function Run(hash: Hash, nodes: seq<Node>): System {
    if nodes == [] then EMPTY else Step(hash, Run(hash, nodes[..|nodes| - 1]), nodes[|nodes| - 1])
  }

  predicate InGraphOrder(hash: Hash, nodes: seq<Node>) { Run(hash, nodes).stage != OutOfOrder }

  // ---- What every run keeps --------------------------------------------------------------------------------

  /** An effect handed over was put to a reviewer as it is, and approved by its hash, in time. */
  predicate Backed(raised: seq<Raised>, approvals: seq<Decision>, x: Executed) {
    exists k, j :: 0 <= k < |raised| && 0 <= j < |approvals| && Backs(raised[k], approvals[j], x)
  }

  predicate Backs(r: Raised, d: Decision, x: Executed) {
    && r.effect == x.effect && r.request.actionId == x.actionId
    && x.at < r.request.expiresAt && Approves(d, r.request)
  }

  ghost predicate Inv(hash: Hash, sys: System) {
    && RequestsOf(sys.raised) == sys.thread.requests
    && (forall r :: r in sys.raised ==> r.request.actionHash == hash(r.effect))
    && (forall x :: x in sys.executed ==> Backed(sys.raised, sys.thread.approvals, x))
    && (forall c :: c in sys.thread.receipts ==> Ran(sys.executed, c.actionId))
  }

  predicate Ran(executed: seq<Executed>, id: int) { exists k :: 0 <= k < |executed| && executed[k].actionId == id }

  lemma {:induction false} LatestIsThere<T>(entries: seq<T>, actionOf: T -> int, id: int)
    ensures Latest(entries, actionOf, id).Some? <==> exists x :: x in entries && actionOf(x) == id
    ensures Latest(entries, actionOf, id).Some? ==>
              Latest(entries, actionOf, id).value in entries && actionOf(Latest(entries, actionOf, id).value) == id
  {
    if entries != [] {
      LatestIsThere(entries[..|entries| - 1], actionOf, id);
      assert entries == entries[..|entries| - 1] + [entries[|entries| - 1]];
    }
  }

  lemma BackingGrows(raised: seq<Raised>, moreRaised: seq<Raised>, approvals: seq<Decision>,
                     moreApprovals: seq<Decision>, x: Executed)
    requires Backed(raised, approvals, x)
    ensures Backed(raised + moreRaised, approvals + moreApprovals, x)
  {
    var k, j :| 0 <= k < |raised| && 0 <= j < |approvals| && Backs(raised[k], approvals[j], x);
    assert Backs((raised + moreRaised)[k], (approvals + moreApprovals)[j], x);
  }

  /** What passes the gate is backed. */
  lemma PassingIsBacked(hash: Hash, sys: System, intent: ActionIntent, now: int)
    requires Injective(hash) && Inv(hash, sys) && RefusalOf(hash, sys.thread, intent, now).None?
    ensures Backed(sys.raised, sys.thread.approvals,
                   Executed(intent.actionId, intent.idempotencyKey, intent.effect, now))
  {
    var t, id := sys.thread, intent.actionId;
    LatestIsThere(t.requests, OfRequest, id);
    LatestIsThere(t.approvals, OfDecision, id);
    var k :| 0 <= k < |t.requests| && t.requests[k] == LastRequest(t, id).value;
    var j :| 0 <= j < |t.approvals| && t.approvals[j] == LastDecision(t, id).value;
    assert sys.raised[k].request == RequestsOf(sys.raised)[k] == t.requests[k];
    assert sys.raised[k] in sys.raised;
    assert hash(intent.effect) == hash(sys.raised[k].effect);
    assert Backs(sys.raised[k], t.approvals[j], Executed(id, intent.idempotencyKey, intent.effect, now));
  }

  /** What redeeming leaves alone, and that what was handed over stays on record. */
  predicate Redeems(before: System, after: System) {
    && after.raised == before.raised && before.executed <= after.executed
    && after.thread.(receipts := before.thread.receipts, refusals := before.thread.refusals) == before.thread
  }

  lemma RanStays(before: System, after: System, id: int)
    requires Redeems(before, after) && Ran(before.executed, id)
    ensures Ran(after.executed, id)
  {
    var k :| 0 <= k < |before.executed| && before.executed[k].actionId == id;
    assert after.executed[k].actionId == id;
  }

  lemma ExecuteOneKeepsInv(hash: Hash, r: Redeeming, intent: ActionIntent, now: int, script: Script)
    requires Injective(hash) && Inv(hash, r.sys)
    ensures var after := ExecuteOne(hash, r, intent, now, script).sys;
            Inv(hash, after) && Redeems(r.sys, after)
  {
    var sys, id := r.sys, intent.actionId;
    var after := ExecuteOne(hash, r, intent, now, script).sys;
    if !r.stopped && RefusalOf(hash, sys.thread, intent, now).None? {
      PassingIsBacked(hash, sys, intent, now);
      assert after.executed[|sys.executed|].actionId == id;
      forall c | c in after.thread.receipts ensures Ran(after.executed, c.actionId) {
        if c in sys.thread.receipts { RanStays(sys, after, c.actionId); }
      }
    }
  }

  lemma {:induction false} ExecuteAllKeepsInv(hash: Hash, sys: System, intents: seq<ActionIntent>, now: int,
                                              scripts: nat -> Script)
    requires Injective(hash) && Inv(hash, sys)
    ensures var after := ExecuteAll(hash, sys, intents, now, scripts).sys;
            Inv(hash, after) && Redeems(sys, after)
  {
    if intents != [] {
      var n := |intents| - 1;
      ExecuteAllKeepsInv(hash, sys, intents[..n], now, scripts);
      ExecuteOneKeepsInv(hash, ExecuteAll(hash, sys, intents[..n], now, scripts), intents[n], now, scripts(n));
    }
  }

  lemma CheckpointKeepsInv(hash: Hash, sys: System, r: Redeeming)
    requires Inv(hash, sys) && Inv(hash, r.sys) && Redeems(sys, r.sys)
    ensures Inv(hash, Checkpointed(sys, r))
  {
    forall c | c in sys.thread.receipts ensures Ran(r.sys.executed, c.actionId) { RanStays(sys, r.sys, c.actionId); }
  }

  lemma {:induction false} RaisedAreHashed(hash: Hash, intents: seq<ActionIntent>, now: int, ttl: Option<nat>,
                                           ids: int -> int)
    ensures forall r :: r in RaiseAll(hash, intents, now, ttl, ids) ==> r.request.actionHash == hash(r.effect)
  {
    if intents != [] { RaisedAreHashed(hash, intents[..|intents| - 1], now, ttl, ids); }
  }

  lemma StepKeepsInv(hash: Hash, sys: System, node: Node)
    requires Injective(hash) && Inv(hash, sys)
    ensures Inv(hash, Step(hash, sys, node))
  {
    var after := Step(hash, sys, node);
    match node
    case RequestApproval(now, ttl, ids) =>
      var raised := RaiseAll(hash, sys.thread.pending, now, ttl, ids);
      RaisedAreHashed(hash, sys.thread.pending, now, ttl, ids);
      assert RequestsOf(sys.raised + raised) == RequestsOf(sys.raised) + RequestsOf(raised);
      forall x | x in after.executed ensures Backed(after.raised, after.thread.approvals, x) {
        BackingGrows(sys.raised, raised, sys.thread.approvals, [], x);
        assert sys.thread.approvals + [] == sys.thread.approvals;
      }
    case Propose(pending) =>
    case Rewrite(pending) =>
    case Collect(decisions) =>
      forall x | x in after.executed ensures Backed(after.raised, after.thread.approvals, x) {
        BackingGrows(sys.raised, [], sys.thread.approvals, decisions, x);
        assert sys.raised + [] == sys.raised;
      }
    case Execute(now, scripts) =>
      ExecuteAllKeepsInv(hash, sys, sys.thread.pending, now, scripts);
      CheckpointKeepsInv(hash, sys, ExecuteAll(hash, sys, sys.thread.pending, now, scripts));
    case Elsewhere(_, _, _, _) =>
  }

  /** Over every run, however pending actions are rewritten and whatever decisions come back: each
      effect handed to the executor is one that was put to a reviewer with exactly that content and
      approved by its hash, and it was handed over before that approval expired. */
  lemma {:induction false} ExecutedAsApproved(hash: Hash, nodes: seq<Node>)
    requires Injective(hash)
    ensures Inv(hash, Run(hash, nodes))
    ensures var sys := Run(hash, nodes);
            forall x :: x in sys.executed ==> Backed(sys.raised, sys.thread.approvals, x)
  {
    if nodes != [] {
      ExecutedAsApproved(hash, nodes[..|nodes| - 1]);
      StepKeepsInv(hash, Run(hash, nodes[..|nodes| - 1]), nodes[|nodes| - 1]);
    }
  }

  // ---- What reaches the provider ------------------------------------------------------------------------

  ghost predicate AllOnce(worlds: Worlds) {
    forall key :: Once(At(worlds, key)) && Counted(At(worlds, key))
  }

  lemma KindsAreCareful(kind: Kind)
    ensures Careful(kind.Retries())
  {
  }

  lemma TryingKeepsOnce(worlds: Worlds, key: string, kind: Kind, fingerprint: string, script: Script)
    requires AllOnce(worlds)
    ensures AllOnce(worlds[key := Attempt(At(worlds, key), fingerprint, kind.Retries(), script).0])
  {
    var t := Try(fingerprint, kind.Retries(), script);
    var after := worlds[key := After(At(worlds, key), t)];
    KindsAreCareful(kind);
    AttemptKeepsOnce(At(worlds, key), t);
    forall k ensures Once(At(after, k)) && Counted(At(after, k)) {
      if k != key { assert At(after, k) == At(worlds, k); }
    }
  }

  lemma {:induction false} ExecuteAllKeepsOnce(hash: Hash, sys: System, intents: seq<ActionIntent>, now: int,
                                               scripts: nat -> Script)
    requires AllOnce(sys.worlds)
    ensures AllOnce(ExecuteAll(hash, sys, intents, now, scripts).sys.worlds)
  {
    if intents != [] {
      var n := |intents| - 1;
      var last := intents[n];
      var r := ExecuteAll(hash, sys, intents[..n], now, scripts);
      ExecuteAllKeepsOnce(hash, sys, intents[..n], now, scripts);
      TryingKeepsOnce(r.sys.worlds, last.idempotencyKey, last.effect.kind, hash(last.effect), scripts(n));
    }
  }

  /** However often an action is proposed, approved, redeemed, interrupted and redeemed again, here and
      by other threads, it takes effect at most once under one key, unless its provider denies what it did. */
  lemma {:induction false} ActionsLandOnce(hash: Hash, nodes: seq<Node>)
    ensures AllOnce(Run(hash, nodes).worlds)
  {
    if nodes != [] {
      var sys := Run(hash, nodes[..|nodes| - 1]);
      ActionsLandOnce(hash, nodes[..|nodes| - 1]);
      match nodes[|nodes| - 1] {
        case Execute(now, scripts) => ExecuteAllKeepsOnce(hash, sys, sys.thread.pending, now, scripts);
        case Elsewhere(key, kind, fingerprint, script) => TryingKeepsOnce(sys.worlds, key, kind, fingerprint, script);
        case _ =>
      }
    }
  }

  /** A key's row is of an effect that this thread handed over under it. */
  predicate HandedOver(hash: Hash, sys: System, key: string) {
    var w := At(sys.worlds, key);
    && (w.row.None? ==> w.landed == 0)
    && (w.row.Some? ==>
          exists k :: 0 <= k < |sys.executed| && Hands(hash, sys.executed[k], key, w.row.value.fingerprint))
  }

  predicate Hands(hash: Hash, x: Executed, key: string, fingerprint: string) {
    x.key == key && hash(x.effect) == fingerprint
  }

  lemma HandedOverStays(hash: Hash, before: System, after: System, key: string)
    requires HandedOver(hash, before, key) && before.executed <= after.executed
    requires At(after.worlds, key) == At(before.worlds, key)
    ensures HandedOver(hash, after, key)
  {
    var w := At(before.worlds, key);
    if w.row.Some? {
      var k :| 0 <= k < |before.executed| && Hands(hash, before.executed[k], key, w.row.value.fingerprint);
      assert Hands(hash, after.executed[k], key, w.row.value.fingerprint);
    }
  }

  lemma NoRowNoLanding(w: World, t: Try)
    requires w.row.None? ==> w.landed == 0
    ensures After(w, t).row.None? ==> After(w, t).landed == 0
  {
    if t.script.cleared && w.row.None? {
      CallAllAnswers(w.(row := Some(Row(t.fingerprint, IN_PROGRESS, 1))), t.policy, 1, t.script);
    }
    AnswersAreRecorded(w, t);
  }

  lemma ExecuteOneHandsOver(hash: Hash, r: Redeeming, intent: ActionIntent, now: int, script: Script, key: string)
    requires HandedOver(hash, r.sys, key)
    ensures HandedOver(hash, ExecuteOne(hash, r, intent, now, script).sys, key)
  {
    var sys := r.sys;
    var after := ExecuteOne(hash, r, intent, now, script).sys;
    if r.stopped || RefusalOf(hash, sys.thread, intent, now).Some? || intent.idempotencyKey != key {
      HandedOverStays(hash, sys, after, key);
    } else {
      var w, t := At(sys.worlds, key), Try(hash(intent.effect), intent.effect.kind.Retries(), script);
      AnswersAreRecorded(w, t);
      NoRowNoLanding(w, t);
      if w.row.Some? {
        var k :| 0 <= k < |sys.executed| && Hands(hash, sys.executed[k], key, w.row.value.fingerprint);
        assert Hands(hash, after.executed[k], key, w.row.value.fingerprint);
      } else {
        assert Hands(hash, after.executed[|sys.executed|], key, t.fingerprint);
      }
    }
  }

  lemma {:induction false} ExecuteAllHandsOver(hash: Hash, sys: System, intents: seq<ActionIntent>, now: int,
                                               scripts: nat -> Script, key: string)
    requires HandedOver(hash, sys, key)
    ensures HandedOver(hash, ExecuteAll(hash, sys, intents, now, scripts).sys, key)
  {
    if intents != [] {
      var n := |intents| - 1;
      ExecuteAllHandsOver(hash, sys, intents[..n], now, scripts, key);
      ExecuteOneHandsOver(hash, ExecuteAll(hash, sys, intents[..n], now, scripts), intents[n], now, scripts(n), key);
    }
  }

  predicate OnlyHere(nodes: seq<Node>, key: string) {
    forall i :: 0 <= i < |nodes| && nodes[i].Elsewhere? ==> nodes[i].key != key
  }

  lemma {:induction false} KeysAreHandedOver(hash: Hash, nodes: seq<Node>, key: string)
    requires OnlyHere(nodes, key)
    ensures HandedOver(hash, Run(hash, nodes), key)
  {
    if nodes != [] {
      var sys := Run(hash, nodes[..|nodes| - 1]);
      KeysAreHandedOver(hash, nodes[..|nodes| - 1], key);
      match nodes[|nodes| - 1] {
        case Execute(now, scripts) => ExecuteAllHandsOver(hash, sys, sys.thread.pending, now, scripts, key);
        case _ => HandedOverStays(hash, sys, Run(hash, nodes), key);
      }
    }
  }

  /** Whatever took effect under a key that only this thread uses, wherever it crashed, is an effect a
      reviewer approved as it is, in time. */
  lemma LandedWasApproved(hash: Hash, nodes: seq<Node>, key: string) returns (x: Executed)
    requires Injective(hash) && OnlyHere(nodes, key) && At(Run(hash, nodes).worlds, key).landed > 0
    ensures var sys := Run(hash, nodes);
            && At(sys.worlds, key).row.Some? && x in sys.executed
            && Hands(hash, x, key, At(sys.worlds, key).row.value.fingerprint)
            && Backed(sys.raised, sys.thread.approvals, x)
  {
    var sys := Run(hash, nodes);
    KeysAreHandedOver(hash, nodes, key);
    ExecutedAsApproved(hash, nodes);
    var k :| 0 <= k < |sys.executed| && Hands(hash, sys.executed[k], key, At(sys.worlds, key).row.value.fingerprint);
    x := sys.executed[k];
  }
}
