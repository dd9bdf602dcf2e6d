/** What became of each proposed action, derived from the thread's state. */
module ActionStatus {
  import opened Prelude
  import opened Approvals
  import opened ToolExecution
  import Redemption

  datatype Label = RECOMMENDED | AWAITING_APPROVAL | EXECUTED | DENIED | FAILED

  /** A decision recorded through the approval queue, which state may not hold yet. */
  datatype Recorded = RecordedApproved | RecordedDenied | RecordedPending | RecordedExpired

  /** An action as it is listed. */
  datatype WorkflowAction =
    WorkflowAction(actionId: int, status: Label, receipt: Option<Receipt>, kind: Kind, target: string)

  /** The validator of a listed action. */
  predicate Valid(a: WorkflowAction) {
    a.status == EXECUTED <==> a.receipt.Some? && a.receipt.value.ok
  }

  // ---- Dictionaries by action id: the last entry wins -------------------------------------------------

  function OfIntent(i: ActionIntent): int { i.actionId }

  function OfRefusal(r: Refusal): int { r.actionId }

  function OfReceipt(r: Receipt): int { r.actionId }

  function LastIntent(t: Thread, id: int): Option<ActionIntent> { Latest(t.pending, OfIntent, id) }

  function LastRefusal(t: Thread, id: int): Option<Refusal> { Latest(t.refusals, OfRefusal, id) }

  function LastReceipt(t: Thread, id: int): Option<Receipt> { Latest(t.receipts, OfReceipt, id) }

  // ---- One action ------------------------------------------------------------------------------------------

  /** The most final fact on record decides. */
  function LabelOf(request: Option<Request>, decision: Option<Decision>, record: Option<Recorded>,
                   refusal: Option<Refusal>, receipt: Option<Receipt>): Label
  {
    if receipt.Some? && receipt.value.ok then EXECUTED
    else if refusal.Some? then if refusal.value.reason == DENIED_BY_USER then DENIED else Label.FAILED
    else if receipt.Some? then Label.FAILED
    else if decision.Some? && decision.value.verdict == REJECTED then DENIED
    else if record == Some(RecordedDenied) then DENIED
    else if request.None? then RECOMMENDED
    else AWAITING_APPROVAL
  }

  type Queue = int -> Option<Recorded>

  predicate OnFile(t: Thread, id: int) { LastIntent(t, id).Some? || LastRequest(t, id).Some? }

  function Listed(t: Thread, queue: Queue, id: int): WorkflowAction
    requires OnFile(t, id)
  {
    var intent, request := LastIntent(t, id), LastRequest(t, id);
    var record := if request.Some? then queue(request.value.requestId) else None;
    WorkflowAction(
      id,
      LabelOf(request, LastDecision(t, id), record, LastRefusal(t, id), LastReceipt(t, id)),
      LastReceipt(t, id),
      if intent.Some? then intent.value.effect.kind else request.value.kind,
      if intent.Some? then intent.value.effect.target else request.value.target)
  }

  // ---- All of them -----------------------------------------------------------------------------------------

  function IdsOf<T>(entries: seq<T>, actionOf: T -> int): (ids: seq<int>)
    ensures |ids| == |entries| && forall i :: 0 <= i < |ids| ==> ids[i] == actionOf(entries[i])
  {
    seq(|entries|, i requires 0 <= i < |entries| => actionOf(entries[i]))
  }

  function IdsOnFile(t: Thread): seq<int> { IdsOf(t.requests, OfRequest) + IdsOf(t.pending, OfIntent) }

  /** Keys in the order a dictionary first sees them. */
  function KeyOrder(ids: seq<int>): seq<int> {
    if ids == [] then []
    else
      var before := KeyOrder(ids[..|ids| - 1]);
      if ids[|ids| - 1] in before then before else before + [ids[|ids| - 1]]
  }

  lemma KeyOrderStep(ids: seq<int>, i: nat)
    requires i < |ids|
    ensures KeyOrder(ids[..i + 1])
         == if ids[i] in KeyOrder(ids[..i]) then KeyOrder(ids[..i]) else KeyOrder(ids[..i]) + [ids[i]]
  {
    assert ids[..i + 1][..i] == ids[..i];
  }

  lemma {:induction false} KeyOrderHoldsEachOnce(ids: seq<int>)
    ensures forall id :: id in KeyOrder(ids) <==> id in ids
    ensures forall i, j :: 0 <= i < j < |KeyOrder(ids)| ==> KeyOrder(ids)[i] != KeyOrder(ids)[j]
  {
    if ids != [] {
      KeyOrderHoldsEachOnce(ids[..|ids| - 1]);
      assert ids == ids[..|ids| - 1] + [ids[|ids| - 1]];
    }
  }

  lemma OnFileIfListed(t: Thread, id: int)
    ensures OnFile(t, id) <==> id in KeyOrder(IdsOnFile(t))
  {
    var ids, n := IdsOnFile(t), |t.requests|;
    LatestIsThere(t.requests, OfRequest, id);
    LatestIsThere(t.pending, OfIntent, id);
    KeyOrderHoldsEachOnce(ids);
    if id in ids {
      var k :| 0 <= k < |ids| && ids[k] == id;
      if k < n { assert t.requests[k] in t.requests; } else { assert t.pending[k - n] in t.pending; }
    }
    if exists r :: r in t.requests && r.actionId == id {
      var k :| 0 <= k < n && t.requests[k].actionId == id;
      assert ids[k] == id;
    }
    if exists i :: i in t.pending && i.actionId == id {
      var k :| 0 <= k < |t.pending| && t.pending[k].actionId == id;
      assert ids[n + k] == id;
    }
  }

  /** What a listing of a thread's actions must be: one entry for each action with a request or a
      pending intent, in the order they were first seen, each labelled by its facts. */
  ghost predicate IsListing(t: Thread, queue: Queue, actions: seq<WorkflowAction>) {
    var order := KeyOrder(IdsOnFile(t));
    && |actions| == |order|
    && forall k :: 0 <= k < |actions| ==> OnFile(t, order[k]) && actions[k] == Listed(t, queue, order[k])
  }

  lemma ListedIsValid(t: Thread, queue: Queue, id: int)
    requires OnFile(t, id)
    ensures Valid(Listed(t, queue, id))
  {
  }

  /** Lists the actions, checking each as it is made; the check never fails. */
  method DeriveThreadActions(t: Thread, queue: Queue) returns (r: Result<seq<WorkflowAction>, int>)
    ensures r.Ok? && IsListing(t, queue, r.value)
  {
    var order: seq<int> := [];
    var ids := IdsOnFile(t);
    var i := 0;
    while i < |ids|
      invariant 0 <= i <= |ids| && order == KeyOrder(ids[..i])
    {
      KeyOrderStep(ids, i);
      if ids[i] !in order {
        order := order + [ids[i]];
      }
      i := i + 1;
    }
    assert ids[..|ids|] == ids;
    var actions: seq<WorkflowAction> := [];
    var k := 0;
    while k < |order|
      invariant 0 <= k <= |order| && |actions| == k
      invariant forall j :: 0 <= j < k ==> OnFile(t, order[j]) && actions[j] == Listed(t, queue, order[j])
    {
      OnFileIfListed(t, order[k]);
      var action := Listed(t, queue, order[k]);
      ListedIsValid(t, queue, order[k]);
      if !Valid(action) {
        return Err(action.actionId);
      }
      actions := actions + [action];
      k := k + 1;
    }
    return Ok(actions);
  }

  // ---- What a listing says -----------------------------------------------------------------------------------

  /** Each action on file is listed once, and nothing else is. */
  lemma EachActionIsListedOnce(t: Thread, queue: Queue, actions: seq<WorkflowAction>, id: int)
    requires IsListing(t, queue, actions)
    ensures (exists k :: 0 <= k < |actions| && actions[k].actionId == id)
       <==> (exists r :: r in t.requests && r.actionId == id) || (exists i :: i in t.pending && i.actionId == id)
    ensures forall j, k :: 0 <= j < k < |actions| ==> actions[j].actionId != actions[k].actionId
  {
    var order := KeyOrder(IdsOnFile(t));
    KeyOrderHoldsEachOnce(IdsOnFile(t));
    OnFileIfListed(t, id);
    LatestIsThere(t.requests, OfRequest, id);
    LatestIsThere(t.pending, OfIntent, id);
    if id in order {
      var k :| 0 <= k < |order| && order[k] == id;
      assert actions[k].actionId == id;
    }
  }

  lemma {:induction false} NoLaterEntry<T>(entries: seq<T>, actionOf: T -> int, k: nat)
    requires k < |entries| && forall j :: k < j < |entries| ==> actionOf(entries[j]) != actionOf(entries[k])
    ensures Latest(entries, actionOf, actionOf(entries[k])) == Some(entries[k])
  {
    if k < |entries| - 1 { NoLaterEntry(entries[..|entries| - 1], actionOf, k); }
  }

  /** Whatever decisions, refusals and queue records say, an action is EXECUTED exactly when its latest
      receipt is a success. */
  lemma LatestReceiptDecides(t: Thread, queue: Queue, k: nat)
    requires k < |t.receipts| && OnFile(t, t.receipts[k].actionId)
    requires forall j :: k < j < |t.receipts| ==> t.receipts[j].actionId != t.receipts[k].actionId
    ensures Listed(t, queue, t.receipts[k].actionId).status == EXECUTED <==> t.receipts[k].ok
  {
    NoLaterEntry(t.receipts, OfReceipt, k);
  }

  /** Each label stands for its facts, and the facts for their label. What was tried, carried out or
      refused, outweighs what was answered, and an answer outweighs a question. */
  lemma EachLabelHasItsFacts(t: Thread, queue: Queue, id: int)
    requires OnFile(t, id)
    ensures var shown, request, decision := Listed(t, queue, id).status, LastRequest(t, id), LastDecision(t, id);
            var refusal, receipt := LastRefusal(t, id), LastReceipt(t, id);
            var succeeded := receipt == Some(Receipt(id, true));
            var tried := receipt.Some? || refusal.Some?;
            var denied := refusal == Some(Refusal(id, DENIED_BY_USER));
            var answeredNo := (decision.Some? && decision.value.verdict == REJECTED)
                              || (request.Some? && queue(request.value.requestId) == Some(RecordedDenied));
            && (shown == EXECUTED <==> succeeded)
            && (shown == Label.FAILED <==> !succeeded && tried && !denied)
            && (shown == DENIED <==> !succeeded && if tried then denied else answeredNo)
            && (shown == AWAITING_APPROVAL <==> !tried && !answeredNo && request.Some?)
            && (shown == RECOMMENDED <==> !tried && !answeredNo && request.None?)
  {
    LatestIsThere(t.receipts, OfReceipt, id);
    LatestIsThere(t.refusals, OfRefusal, id);
  }

  predicate SaysNo(d: Decision, id: int) { d.actionId == id && d.verdict == REJECTED }

  predicate SaidNo(approvals: seq<Decision>, id: int) {
    exists j :: 0 <= j < |approvals| && SaysNo(approvals[j], id)
  }

  /** Every denial among the refusals has a rejection on file. */
  predicate DenialsGiven(t: Thread) {
    forall r :: r in t.refusals && r.reason == DENIED_BY_USER ==> SaidNo(t.approvals, r.actionId)
  }

  lemma ExecuteOneKeepsDenials(hash: Hash, r: Redeeming, intent: ActionIntent, now: int, script: Script)
    requires DenialsGiven(r.sys.thread)
    ensures DenialsGiven(ExecuteOne(hash, r, intent, now, script).sys.thread)
    ensures ExecuteOne(hash, r, intent, now, script).sys.thread.approvals == r.sys.thread.approvals
  {
    var t, id := r.sys.thread, intent.actionId;
    if !r.stopped && RefusalOf(hash, t, intent, now) == Some(DENIED_BY_USER) {
      Redemption.EachRefusalHasItsCause(hash, intent, LastRequest(t, id), LastDecision(t, id), now);
      LatestIsThere(t.approvals, OfDecision, id);
      var j :| 0 <= j < |t.approvals| && t.approvals[j] == LastDecision(t, id).value;
      assert SaysNo(t.approvals[j], id);
    }
  }

  lemma {:induction false} ExecuteAllKeepsDenials(hash: Hash, sys: System, intents: seq<ActionIntent>, now: int,
                                                  scripts: nat -> Script)
    requires DenialsGiven(sys.thread)
    ensures DenialsGiven(ExecuteAll(hash, sys, intents, now, scripts).sys.thread)
    ensures ExecuteAll(hash, sys, intents, now, scripts).sys.thread.approvals == sys.thread.approvals
  {
    if intents != [] {
      var n := |intents| - 1;
      ExecuteAllKeepsDenials(hash, sys, intents[..n], now, scripts);
      ExecuteOneKeepsDenials(hash, ExecuteAll(hash, sys, intents[..n], now, scripts), intents[n], now, scripts(n));
    }
  }

  lemma {:induction false} RunsKeepDenials(hash: Hash, nodes: seq<Node>)
    ensures DenialsGiven(Run(hash, nodes).thread)
  {
    if nodes != [] {
      var sys := Run(hash, nodes[..|nodes| - 1]);
      RunsKeepDenials(hash, nodes[..|nodes| - 1]);
      match nodes[|nodes| - 1] {
        case Execute(now, scripts) => ExecuteAllKeepsDenials(hash, sys, sys.thread.pending, now, scripts);
        case Collect(decisions) =>
          forall r | r in sys.thread.refusals && r.reason == DENIED_BY_USER
            ensures SaidNo(sys.thread.approvals + decisions, r.actionId)
          {
            var j :| 0 <= j < |sys.thread.approvals| && SaysNo(sys.thread.approvals[j], r.actionId);
            assert SaysNo((sys.thread.approvals + decisions)[j], r.actionId);
          }
        case _ =>
      }
    }
  }

  /** Over every run, an action is listed as DENIED only if somebody said no to it: a rejection among the
      decisions, or one in the queue for its latest request. */
  lemma DenialsWereGiven(hash: Hash, nodes: seq<Node>, queue: Queue, id: int)
    requires OnFile(Run(hash, nodes).thread, id) && Listed(Run(hash, nodes).thread, queue, id).status == DENIED
    ensures var t := Run(hash, nodes).thread;
            SaidNo(t.approvals, id)
            || (LastRequest(t, id).Some? && queue(LastRequest(t, id).value.requestId) == Some(RecordedDenied))
  {
    var t := Run(hash, nodes).thread;
    RunsKeepDenials(hash, nodes);
    EachLabelHasItsFacts(t, queue, id);
    LatestIsThere(t.refusals, OfRefusal, id);
    LatestIsThere(t.approvals, OfDecision, id);
    if LastRefusal(t, id).None? && LastDecision(t, id).Some? && LastDecision(t, id).value.verdict == REJECTED {
      var j :| 0 <= j < |t.approvals| && t.approvals[j] == LastDecision(t, id).value;
      assert SaysNo(t.approvals[j], id);
    }
  }

  // ---- What receipts are worth -----------------------------------------------------------------------------

  function ReceiptsOf(spent: seq<Spent>): seq<Receipt> {
    seq(|spent|, i requires 0 <= i < |spent| => spent[i].receipt)
  }

  /** A success was recorded under its key, for content that was handed over for this action. */
  predicate Earned(hash: Hash, executed: seq<Executed>, w: World, c: Spent) {
    && Completed(w, true)
    && exists k :: 0 <= k < |executed| && executed[k].actionId == c.receipt.actionId
                   && Hands(hash, executed[k], c.key, w.row.value.fingerprint)
  }

  predicate AllEarned(hash: Hash, executed: seq<Executed>, worlds: Worlds, spent: seq<Spent>) {
    forall i :: 0 <= i < |spent| && spent[i].receipt.ok ==> Earned(hash, executed, At(worlds, spent[i].key), spent[i])
  }

  /** No success under a key is followed by a failure under that key. */
  predicate NeverUnsaid(spent: seq<Spent>) {
    forall i, j :: 0 <= i < j < |spent| && spent[i].key == spent[j].key && spent[i].receipt.ok ==> spent[j].receipt.ok
  }

  predicate InOrder(hash: Hash, sys: System) {
    && ReceiptsOf(sys.spent) == sys.thread.receipts
    && NeverUnsaid(sys.spent) && AllEarned(hash, sys.executed, sys.worlds, sys.spent)
  }

  /** Recorded successes stay, and stay of the same content. */
  ghost predicate KeepsSuccesses(before: Worlds, after: Worlds) {
    forall key :: Completed(At(before, key), true) ==> At(after, key) == At(before, key)
  }

  lemma TryingKeepsSuccesses(worlds: Worlds, key: string, t: Try)
    ensures KeepsSuccesses(worlds, worlds[key := After(At(worlds, key), t)])
  {
    AnswersAreRecorded(At(worlds, key), t);
  }

  lemma StillEarned(hash: Hash, executed: seq<Executed>, more: seq<Executed>, w: World, c: Spent)
    requires Earned(hash, executed, w, c)
    ensures Earned(hash, executed + more, w, c)
  {
    var k :| 0 <= k < |executed| && executed[k].actionId == c.receipt.actionId
             && Hands(hash, executed[k], c.key, w.row.value.fingerprint);
    assert (executed + more)[k] == executed[k];
  }

  lemma AllStillEarned(hash: Hash, before: System, after: System)
    requires AllEarned(hash, before.executed, before.worlds, before.spent)
    requires before.executed <= after.executed && KeepsSuccesses(before.worlds, after.worlds)
    ensures AllEarned(hash, after.executed, after.worlds, before.spent)
  {
    assert after.executed == before.executed + after.executed[|before.executed|..];
    forall i | 0 <= i < |before.spent| && before.spent[i].receipt.ok
      ensures Earned(hash, after.executed, At(after.worlds, before.spent[i].key), before.spent[i])
    {
      var c := before.spent[i];
      assert Earned(hash, before.executed, At(before.worlds, c.key), c);
      StillEarned(hash, before.executed, after.executed[|before.executed|..], At(before.worlds, c.key), c);
    }
  }

  /** One more receipt, as the executor gave it. */
  lemma ReceiptIsEarned(hash: Hash, sys: System, after: System, c: Spent, x: Executed, t: Try)
    requires InOrder(hash, sys) && x.actionId == c.receipt.actionId && x.key == c.key && t.fingerprint == hash(x.effect)
    requires Attempt(At(sys.worlds, c.key), t.fingerprint, t.policy, t.script).1 == Returned(c.receipt.ok)
    requires after.worlds == sys.worlds[c.key := After(At(sys.worlds, c.key), t)]
    requires after.executed == sys.executed + [x] && after.spent == sys.spent + [c]
    ensures NeverUnsaid(after.spent) && AllEarned(hash, after.executed, after.worlds, after.spent)
  {
    var w := At(sys.worlds, c.key);
    AnswersAreRecorded(w, t);
    TryingKeepsSuccesses(sys.worlds, c.key, t);
    AllStillEarned(hash, sys, after);
    if c.receipt.ok {
      assert Hands(hash, after.executed[|sys.executed|], c.key, t.fingerprint);
      assert Earned(hash, after.executed, At(after.worlds, c.key), c);
    }
    forall i | 0 <= i < |sys.spent| && sys.spent[i].key == c.key && sys.spent[i].receipt.ok ensures c.receipt.ok {
      assert Earned(hash, sys.executed, w, sys.spent[i]);
    }
  }

  lemma ExecuteOneKeepsOrder(hash: Hash, r: Redeeming, intent: ActionIntent, now: int, script: Script)
    requires InOrder(hash, r.sys)
    ensures var after := ExecuteOne(hash, r, intent, now, script).sys;
            && InOrder(hash, after) && r.sys.executed <= after.executed
            && KeepsSuccesses(r.sys.worlds, after.worlds)
  {
    var sys, key := r.sys, intent.idempotencyKey;
    var after := ExecuteOne(hash, r, intent, now, script).sys;
    if !r.stopped && RefusalOf(hash, sys.thread, intent, now).None? {
      var t := Try(hash(intent.effect), intent.effect.kind.Retries(), script);
      TryingKeepsSuccesses(sys.worlds, key, t);
      var x := Executed(intent.actionId, key, intent.effect, now);
      if after.spent != sys.spent {
        var c := after.spent[|sys.spent|];
        ReceiptIsEarned(hash, sys, after, c, x, t);
        assert ReceiptsOf(sys.spent + [c]) == ReceiptsOf(sys.spent) + [c.receipt];
      } else {
        AllStillEarned(hash, sys, after);
      }
    }
  }

  lemma {:induction false} ExecuteAllKeepsOrder(hash: Hash, sys: System, intents: seq<ActionIntent>, now: int,
                                                scripts: nat -> Script)
    requires InOrder(hash, sys)
    ensures var after := ExecuteAll(hash, sys, intents, now, scripts).sys;
            && InOrder(hash, after) && sys.executed <= after.executed
            && KeepsSuccesses(sys.worlds, after.worlds)
  {
    if intents != [] {
      var n := |intents| - 1;
      var r := ExecuteAll(hash, sys, intents[..n], now, scripts);
      ExecuteAllKeepsOrder(hash, sys, intents[..n], now, scripts);
      ExecuteOneKeepsOrder(hash, r, intents[n], now, scripts(n));
    }
  }

  lemma {:induction false} RunsKeepOrder(hash: Hash, nodes: seq<Node>)
    ensures InOrder(hash, Run(hash, nodes))
  {
    if nodes != [] {
      var sys := Run(hash, nodes[..|nodes| - 1]);
      RunsKeepOrder(hash, nodes[..|nodes| - 1]);
      match nodes[|nodes| - 1] {
        case Execute(now, scripts) =>
          ExecuteAllKeepsOrder(hash, sys, sys.thread.pending, now, scripts);
          AllStillEarned(hash, sys, Run(hash, nodes));
        case Elsewhere(key, kind, fingerprint, script) =>
          TryingKeepsSuccesses(sys.worlds, key, Try(fingerprint, kind.Retries(), script));
          AllStillEarned(hash, sys, Run(hash, nodes));
        case _ =>
      }
    }
  }

  // ---- What a listing says of them -------------------------------------------------------------------------

  /** An action got receipts under two keys. */
  predicate UnderTwoKeys(spent: seq<Spent>, id: int) {
    exists i, j :: 0 <= i < j < |spent| && spent[i].receipt.actionId == id && spent[j].receipt.actionId == id
                   && spent[i].key != spent[j].key
  }

  lemma {:induction false} LatestIsLast(receipts: seq<Receipt>, id: int) returns (k: nat)
    requires Latest(receipts, OfReceipt, id).Some?
    ensures k < |receipts| && receipts[k].actionId == id && Latest(receipts, OfReceipt, id) == Some(receipts[k])
    ensures forall j :: k < j < |receipts| ==> receipts[j].actionId != id
  {
    k := |receipts| - 1;
    if receipts[k].actionId != id { k := LatestIsLast(receipts[..k], id); }
  }

  /** If an earlier receipt of an action is a success, so is its last, or they are of two keys. */
  lemma SuccessLasts(spent: seq<Spent>, i: nat, k: nat, id: int)
    requires NeverUnsaid(spent) && i <= k < |spent|
    requires spent[i].receipt == Receipt(id, true) && spent[k].receipt.actionId == id
    ensures spent[k].receipt.ok || UnderTwoKeys(spent, id)
  {
  }

  lemma ReceiptAt(spent: seq<Spent>, receipts: seq<Receipt>, i: nat)
    requires ReceiptsOf(spent) == receipts && i < |receipts|
    ensures |spent| == |receipts| && spent[i].receipt == receipts[i]
  {
    assert receipts[i] == ReceiptsOf(spent)[i];
  }

  /** Over every run, in whatever order, however often an action is proposed, rewritten, redeemed and
      interrupted, and whatever other threads do: an action is EXECUTED exactly when a successful
      receipt is on file, but for one that got receipts under two keys. */
  lemma SuccessIsShown(hash: Hash, nodes: seq<Node>, queue: Queue, id: int)
    requires OnFile(Run(hash, nodes).thread, id)
    ensures var sys := Run(hash, nodes);
            && (Listed(sys.thread, queue, id).status == EXECUTED ==> Receipt(id, true) in sys.thread.receipts)
            && (Receipt(id, true) in sys.thread.receipts ==>
                  Listed(sys.thread, queue, id).status == EXECUTED || UnderTwoKeys(sys.spent, id))
  {
    var t, spent := Run(hash, nodes).thread, Run(hash, nodes).spent;
    RunsKeepOrder(hash, nodes);
    LatestIsThere(t.receipts, OfReceipt, id);
    if Receipt(id, true) in t.receipts {
      var i :| 0 <= i < |t.receipts| && t.receipts[i] == Receipt(id, true);
      var k := LatestIsLast(t.receipts, id);
      ReceiptAt(spent, t.receipts, i);
      ReceiptAt(spent, t.receipts, k);
      SuccessLasts(spent, i, k, id);
      LatestReceiptDecides(t, queue, k);
    }
  }

  /** The intents of one action carry one key, as all that the graph proposes do: an id is new, or that
      of a request whose key it determines. */
  predicate KeysFollow(pending: seq<ActionIntent>, keyOf: int -> string) {
    forall i :: 0 <= i < |pending| ==> pending[i].idempotencyKey == keyOf(pending[i].actionId)
  }

  predicate KeysAlwaysFollow(nodes: seq<Node>, keyOf: int -> string) {
    forall n :: 0 <= n < |nodes| && (nodes[n].Propose? || nodes[n].Rewrite?) ==> KeysFollow(nodes[n].pending, keyOf)
  }

  predicate SpentFollow(spent: seq<Spent>, keyOf: int -> string) {
    forall i :: 0 <= i < |spent| ==> spent[i].key == keyOf(spent[i].receipt.actionId)
  }

  lemma {:induction false} ExecuteAllFollows(hash: Hash, sys: System, intents: seq<ActionIntent>, now: int,
                                             scripts: nat -> Script, keyOf: int -> string)
    requires SpentFollow(sys.spent, keyOf) && KeysFollow(intents, keyOf)
    ensures SpentFollow(ExecuteAll(hash, sys, intents, now, scripts).sys.spent, keyOf)
    ensures ExecuteAll(hash, sys, intents, now, scripts).sys.thread.pending == sys.thread.pending
  {
    if intents != [] {
      var n := |intents| - 1;
      ExecuteAllFollows(hash, sys, intents[..n], now, scripts, keyOf);
      assert intents[n].idempotencyKey == keyOf(intents[n].actionId);
    }
  }

  lemma {:induction false} RunsFollow(hash: Hash, nodes: seq<Node>, keyOf: int -> string)
    requires KeysAlwaysFollow(nodes, keyOf)
    ensures SpentFollow(Run(hash, nodes).spent, keyOf) && KeysFollow(Run(hash, nodes).thread.pending, keyOf)
  {
    if nodes != [] {
      var sys := Run(hash, nodes[..|nodes| - 1]);
      RunsFollow(hash, nodes[..|nodes| - 1], keyOf);
      match nodes[|nodes| - 1] {
        case Execute(now, scripts) => ExecuteAllFollows(hash, sys, sys.thread.pending, now, scripts, keyOf);
        case _ =>
      }
    }
  }

  /** So while an action keeps its key, it is EXECUTED exactly when a successful receipt is on file. */
  lemma ExecutedExactlyWhenReceipted(hash: Hash, nodes: seq<Node>, queue: Queue, id: int, keyOf: int -> string)
    requires KeysAlwaysFollow(nodes, keyOf) && OnFile(Run(hash, nodes).thread, id)
    ensures var t := Run(hash, nodes).thread;
            Listed(t, queue, id).status == EXECUTED <==> Receipt(id, true) in t.receipts
  {
    SuccessIsShown(hash, nodes, queue, id);
    RunsFollow(hash, nodes, keyOf);
  }

  /** An action that is listed as EXECUTED was handed over with content a reviewer approved, in time, and
      the row of its key has the success of exactly that content. */
  lemma ExecutedWasApproved(hash: Hash, nodes: seq<Node>, queue: Queue, id: int) returns (x: Executed)
    requires Injective(hash)
    requires OnFile(Run(hash, nodes).thread, id) && Listed(Run(hash, nodes).thread, queue, id).status == EXECUTED
    ensures var sys := Run(hash, nodes);
            && x in sys.executed && x.actionId == id && Backed(sys.raised, sys.thread.approvals, x)
            && Completed(At(sys.worlds, x.key), true)
            && At(sys.worlds, x.key).row.value.fingerprint == hash(x.effect)
  {
    var sys := Run(hash, nodes);
    ExecutedAsApproved(hash, nodes);
    RunsKeepOrder(hash, nodes);
    var i := LatestIsLast(sys.thread.receipts, id);
    var c := sys.spent[i];
    ReceiptAt(sys.spent, sys.thread.receipts, i);
    var w := At(sys.worlds, c.key);
    assert Earned(hash, sys.executed, w, c);
    var k :| 0 <= k < |sys.executed| && sys.executed[k].actionId == id
             && Hands(hash, sys.executed[k], c.key, w.row.value.fingerprint);
    x := sys.executed[k];
  }

  // ---- An action under two keys ----------------------------------------------------------------------------

  function Yes(hash: Hash, intent: ActionIntent): Decision {
    Decision(intent.actionId, hash(intent.effect), APPROVED, false, None)
  }

  /** The first action is accepted, the others are rejected. */
  function FirstOnly(n: nat): Script { Script(true, [Call(n == 0, Receipted(n == 0))], []) }

  function Twice(intent: ActionIntent, other: string): seq<ActionIntent> { [intent, intent.(idempotencyKey := other)] }

  /** One action, proposed and approved; then pending twice, the second time under another key. */
  function Doubled(hash: Hash, intent: ActionIntent, other: string): seq<Node> {
    [Propose([intent]), RequestApproval(0, None, _ => 0), Collect([Yes(hash, intent)]),
     Rewrite(Twice(intent, other)), Execute(0, FirstOnly)]
  }

  lemma RunThen(hash: Hash, nodes: seq<Node>, n: nat)
    requires n < |nodes|
    ensures Run(hash, nodes[..n + 1]) == Step(hash, Run(hash, nodes[..n]), nodes[n])
  {
    assert nodes[..n + 1][..n] == nodes[..n];
  }

  lemma ProposedThread(hash: Hash, intent: ActionIntent, other: string)
    ensures var sys := Run(hash, Doubled(hash, intent, other)[..1]);
            sys.thread == Thread([intent], [], [], [], []) && sys.worlds == map[] && sys.stage == Proposed
  {
    RunThen(hash, Doubled(hash, intent, other), 0);
  }

  lemma RequestedThread(hash: Hash, intent: ActionIntent, other: string)
    ensures var sys := Run(hash, Doubled(hash, intent, other)[..2]);
            && sys.thread == Thread([intent], [ForIntent(hash, intent, 0, 0, None)], [], [], [])
            && sys.worlds == map[] && sys.stage == Requested
  {
    var nodes := Doubled(hash, intent, other);
    var r := ForIntent(hash, intent, 0, 0, None);
    ProposedThread(hash, intent, other);
    RunThen(hash, nodes, 1);
    assert [intent][..0] == [];
    assert RaiseAll(hash, [intent], 0, None, nodes[1].ids) == [Raised(r, intent.effect)];
    assert RequestsOf([Raised(r, intent.effect)]) == [r];
  }

  lemma ApprovedThread(hash: Hash, intent: ActionIntent, other: string)
    ensures var sys := Run(hash, Doubled(hash, intent, other)[..4]);
            && sys.thread == Thread(Twice(intent, other), [ForIntent(hash, intent, 0, 0, None)],
                                    [Yes(hash, intent)], [], [])
            && sys.worlds == map[] && sys.stage == Answered
  {
    RequestedThread(hash, intent, other);
    RunThen(hash, Doubled(hash, intent, other), 2);
    RunThen(hash, Doubled(hash, intent, other), 3);
  }

  /** What the approved content comes to under a key nobody used. */
  lemma RedeemedOnce(hash: Hash, r: Redeeming, intent: ActionIntent, n: nat)
    requires !r.stopped && intent.idempotencyKey !in r.sys.worlds
    requires r.sys.thread.requests == [ForIntent(hash, intent, 0, 0, None)]
    requires r.sys.thread.approvals == [Yes(hash, intent)]
    ensures var after := ExecuteOne(hash, r, intent, 0, FirstOnly(n));
            && !after.stopped && after.sys.worlds.Keys == r.sys.worlds.Keys + {intent.idempotencyKey}
            && after.sys.thread
               == r.sys.thread.(receipts := r.sys.thread.receipts + [Receipt(intent.actionId, n == 0)])
  {
    var claimed := UNUSED.(row := Some(Row(hash(intent.effect), IN_PROGRESS, 1)));
    assert CallAll(claimed, intent.effect.kind.Retries(), 1, FirstOnly(n)).1 == Returned(n == 0);
  }

  lemma RedeemedTwice(hash: Hash, sys: System, intent: ActionIntent, other: string)
    requires other != intent.idempotencyKey && sys.worlds == map[]
    requires sys.thread == Thread(Twice(intent, other), [ForIntent(hash, intent, 0, 0, None)],
                                  [Yes(hash, intent)], [], [])
    ensures var r := ExecuteAll(hash, sys, Twice(intent, other), 0, FirstOnly);
            && !r.stopped
            && r.sys.thread.receipts == [Receipt(intent.actionId, true), Receipt(intent.actionId, false)]
            && r.sys.thread == sys.thread.(receipts := r.sys.thread.receipts)
  {
    var pending := Twice(intent, other);
    assert pending[..1] == [intent] && pending[..1][..0] == [];
    var start := Redeeming(sys, false);
    var first := ExecuteOne(hash, start, intent, 0, FirstOnly(0));
    RedeemedOnce(hash, start, intent, 0);
    RedeemedOnce(hash, first, pending[1], 1);
    assert ExecuteAll(hash, sys, pending[..1], 0, FirstOnly) == first;
  }

  lemma FailureIsShown(t: Thread, queue: Queue, intent: ActionIntent)
    requires intent in t.pending && t.refusals == []
    requires t.receipts == [Receipt(intent.actionId, true), Receipt(intent.actionId, false)]
    ensures OnFile(t, intent.actionId) && Receipt(intent.actionId, true) in t.receipts
    ensures Listed(t, queue, intent.actionId).status == Label.FAILED
  {
    LatestIsThere(t.pending, OfIntent, intent.actionId);
    NoLaterEntry(t.receipts, OfReceipt, 1);
    assert t.receipts[0] in t.receipts;
  }

  /** An approval covers what an action does and not the key it is done under. So an action can be
      redeemed under two, and listed as FAILED although it has a successful receipt. */
  lemma SecondKeyHidesSuccess(hash: Hash, queue: Queue, intent: ActionIntent, other: string)
    requires other != intent.idempotencyKey
    ensures var nodes := Doubled(hash, intent, other);
            var t, id := Run(hash, nodes).thread, intent.actionId;
            && InGraphOrder(hash, nodes) && OnFile(t, id) && Receipt(id, true) in t.receipts
            && Listed(t, queue, id).status == Label.FAILED
  {
    var nodes := Doubled(hash, intent, other);
    var sys := Run(hash, nodes[..4]);
    ApprovedThread(hash, intent, other);
    RedeemedTwice(hash, sys, intent, other);
    RunThen(hash, nodes, 4);
    assert nodes[..5] == nodes;
    assert Twice(intent, other)[0] == intent;
    FailureIsShown(Run(hash, nodes).thread, queue, intent);
  }

  // ---- Actions proposed once ---------------------------------------------------------------------------

  predicate Distinct(ids: seq<int>) { forall i, j :: 0 <= i < j < |ids| ==> ids[i] != ids[j] }

  /** Separate actions, none of which has a receipt. */
  predicate Unspent(t: Thread, pending: seq<ActionIntent>) {
    && Distinct(IdsOf(pending, OfIntent))
    && forall id :: id in IdsOf(pending, OfIntent) ==> id !in IdsOf(t.receipts, OfReceipt)
  }

  /** Nothing is proposed again once it was carried out. Whatever rewrites a pending action may change
      all of it but its id. */
  predicate ProposedOnce(hash: Hash, nodes: seq<Node>) {
    nodes == []
    || (var before := nodes[..|nodes| - 1];
        var t := Run(hash, before).thread;
        && ProposedOnce(hash, before)
        && match nodes[|nodes| - 1]
           case Propose(pending) => Unspent(t, pending)
           case Rewrite(pending) => IdsOf(pending, OfIntent) == IdsOf(t.pending, OfIntent)
           case _ => true)
  }

  lemma LastIsNew(ids: seq<int>, id: int)
    requires Distinct(ids + [id])
    ensures Distinct(ids) && id !in ids
  {
    var all := ids + [id];
    forall i, j | 0 <= i < j < |ids| ensures ids[i] != ids[j] {
      assert all[i] != all[j];
    }
    forall i | 0 <= i < |ids| ensures ids[i] != id {
      assert all[i] != all[|ids|];
    }
  }

  lemma {:induction false} ExecuteAllSpendsEachOnce(hash: Hash, sys: System, intents: seq<ActionIntent>, now: int,
                                                    scripts: nat -> Script)
    requires Distinct(IdsOf(sys.thread.receipts, OfReceipt)) && Unspent(sys.thread, intents)
    ensures var after := ExecuteAll(hash, sys, intents, now, scripts).sys.thread;
            && Distinct(IdsOf(after.receipts, OfReceipt))
            && forall id :: id in IdsOf(after.receipts, OfReceipt)
                            ==> id in IdsOf(sys.thread.receipts, OfReceipt) || id in IdsOf(intents, OfIntent)
  {
    if intents != [] {
      var n := |intents| - 1;
      var rest, id := intents[..n], intents[n].actionId;
      assert IdsOf(intents, OfIntent) == IdsOf(rest, OfIntent) + [id];
      LastIsNew(IdsOf(rest, OfIntent), id);
      ExecuteAllSpendsEachOnce(hash, sys, rest, now, scripts);
      var before := ExecuteAll(hash, sys, rest, now, scripts).sys.thread.receipts;
      var after := ExecuteAll(hash, sys, intents, now, scripts).sys.thread.receipts;
      if after != before {
        assert IdsOf(after, OfReceipt) == IdsOf(before, OfReceipt) + [id];
      }
    }
  }

  /** Every receipt is of a different action, and what awaits its turn has none. */
  predicate SpentOnce(t: Thread, stage: Stage) {
    Distinct(IdsOf(t.receipts, OfReceipt)) && (stage != Idle ==> Unspent(t, t.pending))
  }

  lemma {:induction false} ReceiptsAreSingle(hash: Hash, nodes: seq<Node>)
    requires InGraphOrder(hash, nodes) && ProposedOnce(hash, nodes)
    ensures SpentOnce(Run(hash, nodes).thread, Run(hash, nodes).stage)
  {
    if nodes != [] {
      var before := nodes[..|nodes| - 1];
      var sys := Run(hash, before);
      ReceiptsAreSingle(hash, before);
      match nodes[|nodes| - 1] {
        case Execute(now, scripts) => ExecuteAllSpendsEachOnce(hash, sys, sys.thread.pending, now, scripts);
        case _ =>
      }
    }
  }

  /** In every run of the graph that proposes nothing again once it was carried out, however pending
      actions are rewritten and redeeming is interrupted, an action gets one receipt at most. */
  lemma OneReceiptEach(hash: Hash, nodes: seq<Node>)
    requires InGraphOrder(hash, nodes) && ProposedOnce(hash, nodes)
    ensures Distinct(IdsOf(Run(hash, nodes).thread.receipts, OfReceipt))
  {
    ReceiptsAreSingle(hash, nodes);
  }
}
