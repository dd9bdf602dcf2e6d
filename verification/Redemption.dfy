/** What the gate says for each way an action and its approval can differ, and what one pass over the
    pending actions does with each of them. */
module Redemption {
  import opened Prelude
  import opened RetryPolicies
  import opened ToolExecution
  import opened Approvals

  // ---- The gate ---------------------------------------------------------------------------------------

  /** The request is about this action, and the decision about this request. */
  predicate Directed(intent: ActionIntent, r: Request, d: Decision) {
    r.actionId == intent.actionId == d.actionId && (d.requestId == None || d.requestId == Some(r.requestId))
  }

  /** Each refusal has its own cause, and nothing else gives that refusal. */
  lemma EachRefusalHasItsCause(hash: Hash, intent: ActionIntent, request: Option<Request>,
                               decision: Option<Decision>, now: int)
    ensures var refusal := AuthorizeExecution(hash, intent, request, decision, now);
            if request.None? then refusal == Some(NO_REQUEST)
            else if decision.None? then
              refusal == Some(if request.value.actionId == intent.actionId then NOT_APPROVED else MISDIRECTED_DECISION)
            else
              var r, d := request.value, decision.value;
              var answered := Directed(intent, r, d);
              var same := d.fingerprint == r.actionHash == hash(intent.effect);
              && refusal != Some(NO_REQUEST)
              && (refusal == Some(MISDIRECTED_DECISION) <==> !answered)
              && (refusal == Some(NOT_APPROVED) <==> answered && d.verdict == UNANSWERED && !d.byExpirySweep)
              && (refusal == Some(DENIED_BY_USER) <==> answered && d.verdict == REJECTED && !d.byExpirySweep)
              && (refusal == Some(HASH_MISMATCH) <==> answered && d.verdict == APPROVED && !same)
              && (refusal == Some(EXPIRED) <==>
                    answered && if d.verdict == APPROVED then same && r.expiresAt <= now else d.byExpirySweep)
              && (refusal == None <==> answered && d.verdict == APPROVED && same && now < r.expiresAt)
  {
  }

  /** An approved action that nobody rewrote may run until its window is over, and not from then on: a week
      after it was put to a reviewer for a submission, three days for a message, two for the calendar and
      one for a document, unless the deployment has a window of its own. */
  lemma ApprovalsLastTheirWindow(hash: Hash, intent: ActionIntent, requestId: int, at: int, ttl: Option<nat>,
                                 d: Decision, now: int)
    requires d == Decision(intent.actionId, hash(intent.effect), APPROVED, d.byExpirySweep, Some(requestId))
    ensures var kind := intent.effect.kind;
            var request := ForIntent(hash, intent, requestId, at, ttl);
            var open := AuthorizeExecution(hash, intent, Some(request), Some(d), now) == None;
            var hours := (now - at) / 3_600_000_000;
            if ttl.Some? && ttl.value != 0 then open <==> now - at < ttl.value
            else
              && (kind == SUBMIT_APPLICATION ==> (open <==> hours < 168))
              && (kind == SEND_RECRUITER_MESSAGE ==> (open <==> hours < 72))
              && (kind == CREATE_CALENDAR_EVENT || kind == UPDATE_CALENDAR_EVENT ==> (open <==> hours < 48))
              && (kind == OVERWRITE_DOCUMENT ==> (open <==> hours < 24))
  {
  }

  /** A call is made twice in one attempt for a calendar write only, and then only if the first was broken
      off under a key nobody had used and the provider denied it. */
  lemma SecondCallExactly(w: World, kind: Kind, fingerprint: string, s: Script)
    ensures var called := After(w, Try(fingerprint, kind.Retries(), s)).called;
            && called <= w.called + 2
            && (called == w.called + 2
                <==> && (kind == CREATE_CALENDAR_EVENT || kind == UPDATE_CALENDAR_EVENT)
                     && s.cleared && w.row.None? && |s.calls| >= 2 && s.calls[0].answer == Broke(true)
                     && s.asked != [] && s.asked[0] == NOT_APPLIED)
  {
    var t := Try(fingerprint, kind.Retries(), s);
    AttemptIsBounded(w, t);
    RowsTellTheStory(w, t);
    var after := After(w, t);
    if s.cleared && w.row.None? {
      var n := after.row.value.attempts - 1;
      assert n >= 1 ==> Repeats(t.policy, 1, s, 0);
      assert n >= 2 ==> Repeats(t.policy, 1, s, 1);
    } else if s.cleared && s.asked != [] && s.asked[0] == NOT_APPLIED && after.row != w.row {
      var n := after.row.value.attempts - w.row.value.attempts - 1;
      assert n >= 1 ==> Repeats(t.policy, 2, s.(asked := s.asked[1..]), 0);
    }
  }

  // ---- One pass -----------------------------------------------------------------------------------------

  /** The refusals of those of the pending actions that do not pass, in order. */
  function Refused(hash: Hash, t: Thread, intents: seq<ActionIntent>, now: int): seq<Refusal> {
    if intents == [] then []
    else
      var n := |intents| - 1;
      var reason := RefusalOf(hash, t, intents[n], now);
      Refused(hash, t, intents[..n], now) + if reason.Some? then [Refusal(intents[n].actionId, reason.value)] else []
  }

  /** The hand-overs of those that do. */
  function Handed(hash: Hash, t: Thread, intents: seq<ActionIntent>, now: int): seq<Executed> {
    if intents == [] then []
    else
      var n := |intents| - 1;
      var i := intents[n];
      Handed(hash, t, intents[..n], now)
      + if RefusalOf(hash, t, i, now).None? then [Executed(i.actionId, i.idempotencyKey, i.effect, now)] else []
  }

  /** All pending actions dealt with: each that does not pass has its refusal, each that does was handed
      over and has a receipt of its own, and nothing else is on record that was not before. */
  predicate AllSettled(hash: Hash, sys: System, intents: seq<ActionIntent>, now: int, after: System) {
    var t, handed := after.thread, Handed(hash, sys.thread, intents, now);
    && t.pending == sys.thread.pending && t.requests == sys.thread.requests && t.approvals == sys.thread.approvals
    && t.refusals == sys.thread.refusals + Refused(hash, sys.thread, intents, now)
    && after.executed == sys.executed + handed
    && |t.receipts| == |sys.thread.receipts| + |handed| && sys.thread.receipts <= t.receipts
    && forall k :: 0 <= k < |handed| ==> t.receipts[|sys.thread.receipts| + k].actionId == handed[k].actionId
  }

  /** The pass came to action `n`, which passed the gate and whose attempt did not return. */
  predicate StoppedAt(hash: Hash, sys: System, intents: seq<ActionIntent>, now: int, scripts: nat -> Script, n: nat) {
    && n < |intents| && RefusalOf(hash, sys.thread, intents[n], now).None?
    && var before, i := ExecuteAll(hash, sys, intents[..n], now, scripts), intents[n];
       && !before.stopped
       && !Attempt(At(before.sys.worlds, i.idempotencyKey), hash(i.effect), i.effect.kind.Retries(), scripts(n))
           .1.Returned?
  }

  lemma OneMoreIsSettled(hash: Hash, sys: System, intents: seq<ActionIntent>, now: int, before: Redeeming,
                         script: Script)
    requires intents != [] && !before.stopped
    requires AllSettled(hash, sys, intents[..|intents| - 1], now, before.sys)
    ensures var r := ExecuteOne(hash, before, intents[|intents| - 1], now, script);
            !r.stopped ==> AllSettled(hash, sys, intents, now, r.sys)
  {
    var intent := intents[|intents| - 1];
    assert RefusalOf(hash, before.sys.thread, intent, now) == RefusalOf(hash, sys.thread, intent, now);
  }

  lemma {:induction false} PassSettlesAll(hash: Hash, sys: System, intents: seq<ActionIntent>, now: int,
                                          scripts: nat -> Script)
    ensures var r := ExecuteAll(hash, sys, intents, now, scripts);
            !r.stopped ==> AllSettled(hash, sys, intents, now, r.sys)
  {
    if intents != [] {
      var n := |intents| - 1;
      var before := ExecuteAll(hash, sys, intents[..n], now, scripts);
      PassSettlesAll(hash, sys, intents[..n], now, scripts);
      if !before.stopped { OneMoreIsSettled(hash, sys, intents, now, before, scripts(n)); }
    }
  }

  lemma {:induction false} PassStopsExactly(hash: Hash, sys: System, intents: seq<ActionIntent>, now: int,
                                            scripts: nat -> Script)
    ensures ExecuteAll(hash, sys, intents, now, scripts).stopped
       <==> exists n :: 0 <= n < |intents| && StoppedAt(hash, sys, intents, now, scripts, n)
  {
    if intents != [] {
      var last := |intents| - 1;
      PassStopsExactly(hash, sys, intents[..last], now, scripts);
      PassSettlesAll(hash, sys, intents[..last], now, scripts);
      var before := ExecuteAll(hash, sys, intents[..last], now, scripts);
      forall n | 0 <= n < last
        ensures StoppedAt(hash, sys, intents, now, scripts, n)
           <==> StoppedAt(hash, sys, intents[..last], now, scripts, n)
      {
        assert intents[..last][..n] == intents[..n];
      }
      if before.stopped {
        var n :| 0 <= n < last && StoppedAt(hash, sys, intents[..last], now, scripts, n);
        assert StoppedAt(hash, sys, intents, now, scripts, n);
      } else {
        StopsAtLast(hash, sys, intents, now, scripts);
      }
    }
  }

  lemma StopsAtLast(hash: Hash, sys: System, intents: seq<ActionIntent>, now: int, scripts: nat -> Script)
    requires intents != [] && !ExecuteAll(hash, sys, intents[..|intents| - 1], now, scripts).stopped
    ensures ExecuteAll(hash, sys, intents, now, scripts).stopped
       <==> StoppedAt(hash, sys, intents, now, scripts, |intents| - 1)
  {
    var last := |intents| - 1;
    var before := ExecuteAll(hash, sys, intents[..last], now, scripts);
    PassSettlesAll(hash, sys, intents[..last], now, scripts);
    assert RefusalOf(hash, before.sys.thread, intents[last], now) == RefusalOf(hash, sys.thread, intents[last], now);
  }

  /** Redeeming is all or nothing for the thread: either every pending action has its refusal or its
      receipt, or one attempt did not return, and then the thread is as it was, the redemption stands to be
      entered again, and what was handed over outside stays handed over. */
  lemma RedeemingIsAllOrNothing(hash: Hash, sys: System, now: int, scripts: nat -> Script)
    requires sys.stage == Answered
    ensures var after, pending := Step(hash, sys, Execute(now, scripts)), sys.thread.pending;
            if exists n :: 0 <= n < |pending| && StoppedAt(hash, sys, pending, now, scripts, n) then
              after.thread == sys.thread && after.spent == sys.spent && sys.executed < after.executed
              && after.stage == Answered
            else
              AllSettled(hash, sys, pending, now, after) && after.stage == Idle
  {
    PassStopsExactly(hash, sys, sys.thread.pending, now, scripts);
    PassSettlesAll(hash, sys, sys.thread.pending, now, scripts);
    StoppedPassHandsOver(hash, sys, sys.thread.pending, now, scripts);
  }

  lemma {:induction false} StoppedPassHandsOver(hash: Hash, sys: System, intents: seq<ActionIntent>, now: int,
                                                scripts: nat -> Script)
    ensures var r := ExecuteAll(hash, sys, intents, now, scripts);
            sys.executed <= r.sys.executed && (r.stopped ==> sys.executed < r.sys.executed)
  {
    if intents != [] { StoppedPassHandsOver(hash, sys, intents[..|intents| - 1], now, scripts); }
  }
}
