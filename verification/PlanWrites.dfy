/** Writing a plan to the calendar, each change through the executor. */
module PlanWrites {
  import opened Prelude
  import opened WorkingDay
  import opened SlotSearch
  import opened InterviewPlan
  import opened CalendarWrites

  /** What the rest of the system adds to a change when it is written: the id the provider stores a
      new event under, and the idempotency key of the intent. */
  datatype Grant = Grant(eventId: string, idempotencyKey: string)

  /** The intent a planned create or move becomes. */
  function IntentFor(application: string, change: ScheduleChange, grant: Grant): Intent {
    Intent("", if change.op == CREATE then CREATE_CALENDAR_EVENT else UPDATE_CALENDAR_EVENT, "", grant.idempotencyKey,
           change.eventId, change.title, Some(change.Span()), EventProperties(application, change))
  }

  /** What the executor does to the calendar about one change. */
  function ApplyWrite(events: seq<CalendarEvent>, application: string, change: ScheduleChange, grant: Grant)
    : seq<CalendarEvent>
  {
    if change.op == KEEP then events
    else WriteEffect(events, IntentFor(application, change, grant), NoCrash, grant.eventId)
  }

  /** The calendar once the first `n` changes of a plan have been written to it. */
  function ApplyUpTo(events: seq<CalendarEvent>, application: string, changes: seq<ScheduleChange>,
                     grants: seq<Grant>, n: nat)
    : seq<CalendarEvent>
    requires n <= |changes| == |grants|
    decreases n
  {
    if n == 0 then events
    else ApplyWrite(ApplyUpTo(events, application, changes, grants, n - 1), application, changes[n - 1], grants[n - 1])
  }

  /** Every event has an id, and an id of its own. */
  ghost predicate Identified(events: seq<CalendarEvent>) {
    && (forall i :: 0 <= i < |events| ==> events[i].eventId != "")
    && (forall i, j :: 0 <= i < j < |events| ==> events[i].eventId != events[j].eventId)
  }

  ghost predicate Unused(events: seq<CalendarEvent>, id: string) {
    forall i :: 0 <= i < |events| ==> events[i].eventId != id
  }

  /** The provider never hands out an id twice; no event carries the key of a create still to be made,
      and a create shares its key with an earlier write only if both are about one logical event. */
  ghost predicate Fresh(events: seq<CalendarEvent>, changes: seq<ScheduleChange>, grants: seq<Grant>)
    requires |changes| == |grants|
  {
    && (forall g :: 0 <= g < |grants| ==> grants[g].eventId != "" && Unused(events, grants[g].eventId))
    && (forall g :: 0 <= g < |grants| && changes[g].op == CREATE ==> CreatedBy(events, grants[g].idempotencyKey).None?)
    && (forall i, j :: 0 <= i < j < |grants| ==> grants[i].eventId != grants[j].eventId)
    && (forall i, j :: 0 <= i < j < |grants| && changes[j].op == CREATE
                       && grants[i].idempotencyKey == grants[j].idempotencyKey ==>
          changes[i].logicalKey == changes[j].logicalKey)
  }

  // ---- One write ------------------------------------------------------------------

  lemma {:induction false} OwnAfterAppend(events: seq<CalendarEvent>, application: string, e: CalendarEvent,
                                          key: string)
    ensures Own(events + [e], application, key)
         == if Own(events, application, key).Some? then Own(events, application, key)
            else if e.KeyFor(application) == Some(key) then Some(e) else None
    ensures e.KeyFor(application).Some? ==> Foreign(events + [e], application) == Foreign(events, application)
  {
    if events == [] {
      assert events + [e] == [e];
    } else {
      assert (events + [e])[1..] == events[1..] + [e];
      OwnAfterAppend(events[1..], application, e, key);
    }
  }

  lemma {:induction false} CreatedAfterAppend(events: seq<CalendarEvent>, e: CalendarEvent, key: string)
    requires !Carries(e, key)
    ensures CreatedBy(events + [e], key) == CreatedBy(events, key)
  {
    if events == [] {
      assert events + [e] == [e];
    } else {
      assert (events + [e])[1..] == events[1..] + [e];
      CreatedAfterAppend(events[1..], e, key);
    }
  }

  lemma {:induction false} OwnIsHeld(events: seq<CalendarEvent>, application: string, key: string)
    requires Own(events, application, key).Some?
    ensures Own(events, application, key).value in events
    ensures Own(events, application, key).value.KeyFor(application) == Some(key)
  {
    if events[0].KeyFor(application) != Some(key) { OwnIsHeld(events[1..], application, key); }
  }

  lemma {:induction false} HeldIsGot(events: seq<CalendarEvent>, e: CalendarEvent)
    requires Identified(events) && e in events
    ensures GetEvent(events, e.eventId) == Some(e)
  {
    if events[0] != e { HeldIsGot(events[1..], e); }
  }

  lemma RelocatedKeepsItsKey(event: CalendarEvent, intent: Intent, application: string)
    requires intent.times.Some?
    ensures Relocated(event, intent).KeyFor(application) == event.KeyFor(application)
    ensures Relocated(event, intent).eventId == event.eventId
    ensures Relocated(event, intent).Span() == intent.times.value
  {
    assert |PROP_IDEMPOTENCY_KEY| != |PROP_APPLICATION_ID| && |PROP_IDEMPOTENCY_KEY| != |PROP_KEY|;
  }

  /** Moving an own event changes what is held under its key and nothing else. */
  lemma {:induction false} OwnAfterRelocate(events: seq<CalendarEvent>, application: string, intent: Intent,
                                            target: CalendarEvent, key: string)
    requires intent.times.Some? && target.KeyFor(application).Some?
    requires forall i :: 0 <= i < |events| && events[i].eventId == target.eventId ==> events[i] == target
    ensures Foreign(Relocate(events, target.eventId, intent), application) == Foreign(events, application)
    ensures var was := Own(events, application, key);
            Own(Relocate(events, target.eventId, intent), application, key)
            == if was == Some(target) then Some(Relocated(target, intent)) else was
  {
    if events != [] {
      RelocatedKeepsItsKey(events[0], intent, application);
      var after := Relocate(events, target.eventId, intent);
      if events[0].eventId == target.eventId {
        assert after[1..] == events[1..];
        if Own(events[1..], application, key).Some? { OwnIsHeld(events[1..], application, key); }
      } else {
        OwnAfterRelocate(events[1..], application, intent, target, key);
        assert after[1..] == Relocate(events[1..], target.eventId, intent);
      }
    }
  }

  lemma {:induction false} RelocateKeepsIds(events: seq<CalendarEvent>, id: string, intent: Intent, key: string)
    requires intent.times.Some?
    ensures |Relocate(events, id, intent)| == |events|
    ensures forall i :: 0 <= i < |events| ==> Relocate(events, id, intent)[i].eventId == events[i].eventId
    ensures key != intent.idempotencyKey && CreatedBy(events, key).None? ==>
              CreatedBy(Relocate(events, id, intent), key).None?
  {
    if events != [] && events[0].eventId != id {
      RelocateKeepsIds(events[1..], id, intent, key);
      var after := Relocate(events, id, intent);
      assert after[1..] == Relocate(events[1..], id, intent);
      forall i | 0 <= i < |events| ensures after[i].eventId == events[i].eventId {
        assert i > 0 ==> after[i] == after[1..][i - 1] && events[i] == events[1..][i - 1];
      }
    }
  }

  /** `change` says what the calendar needs for its key, given what is held under it. */
  ghost predicate Reconciles(change: ScheduleChange, existing: Option<CalendarEvent>) {
    match existing
    case None => change.op == CREATE
    case Some(event) =>
      change.eventId == Some(event.eventId) && change.op == if event.Span() == change.Span() then KEEP else UPDATE
  }

  /** A change that can be written: it creates, or names the event held under its key. */
  ghost predicate Writable(events: seq<CalendarEvent>, application: string, change: ScheduleChange, grant: Grant) {
    var held := Own(events, application, change.logicalKey);
    && change.logicalKey != ""
    && (change.op == CREATE && CreatedBy(events, grant.idempotencyKey).Some? ==> held.Some?)
    && (change.op != CREATE ==> held.Some? && change.eventId == Some(held.value.eventId))
  }

  /** What one write leaves under `key`. */
  ghost predicate Leaves(was: Option<CalendarEvent>, now: Option<CalendarEvent>, change: ScheduleChange, key: string) {
    if key != change.logicalKey then now == was
    else
      && now.Some? && (was.Some? ==> now.value.eventId == was.value.eventId)
      && (was.None? || was.value.Span() == change.Span() || change.op == UPDATE ==> now.value.Span() == change.Span())
  }

  lemma CreatedIsOwn(application: string, change: ScheduleChange, grant: Grant)
    requires change.logicalKey != ""
    ensures var e := Insertion(IntentFor(application, change, grant), grant.eventId);
            && e.KeyFor(application) == Some(change.logicalKey) && e.Span() == change.Span()
            && e.eventId == grant.eventId
            && (forall key :: key != grant.idempotencyKey ==> !Carries(e, key))
  {
    assert |PROP_ROLE| != |PROP_KEY| && |PROP_INTERVIEW_KEY| != |PROP_KEY| && |PROP_IDEMPOTENCY_KEY| != |PROP_KEY|;
    assert |PROP_ROLE| != |PROP_APPLICATION_ID| && |PROP_INTERVIEW_KEY| != |PROP_APPLICATION_ID|
        && |PROP_IDEMPOTENCY_KEY| != |PROP_APPLICATION_ID| && |PROP_KEY| != |PROP_APPLICATION_ID|;
  }

  /** An event made for a change says whose it is, what it is for and which write made it; a prep block
      says which interview it prepares, too. */
  lemma CreatedEventsAreStamped(events: seq<CalendarEvent>, application: string, change: ScheduleChange, grant: Grant)
    requires change.op == CREATE && CreatedBy(events, grant.idempotencyKey).None?
    ensures var after := ApplyWrite(events, application, change, grant);
            && |after| == |events| + 1 && after[..|events|] == events
            && var e := after[|events|];
               && e.eventId == grant.eventId && e.startsAt == change.startsAt && e.endsAt == change.endsAt
               && (change.title != "" ==> e.title == change.title)
               && e.properties == map["personalos_application_id" := application,
                                      "personalos_key" := change.logicalKey,
                                      "personalos_idempotency_key" := grant.idempotencyKey]
                                  + if change.role == INTERVIEW then map["personalos_role" := "interview"]
                                    else map["personalos_role" := "prep",
                                             "personalos_interview_key" := "interview:" + application]
  {
    assert |PROP_APPLICATION_ID| == 25 && |PROP_KEY| == 14 && |PROP_ROLE| == 15 && |PROP_INTERVIEW_KEY| == 24
        && |PROP_IDEMPOTENCY_KEY| == 26;
  }

  lemma OneCreate(events: seq<CalendarEvent>, application: string, change: ScheduleChange, grant: Grant, key: string)
    requires change.op == CREATE && Writable(events, application, change, grant)
    ensures var after := ApplyWrite(events, application, change, grant);
            && Foreign(after, application) == Foreign(events, application)
            && Leaves(Own(events, application, key), Own(after, application, key), change, key)
  {
    CreatedIsOwn(application, change, grant);
    OwnAfterAppend(events, application, Insertion(IntentFor(application, change, grant), grant.eventId), key);
  }

  lemma OneUpdate(events: seq<CalendarEvent>, application: string, change: ScheduleChange, grant: Grant, key: string)
    requires change.op == UPDATE && Writable(events, application, change, grant) && Identified(events)
    ensures var after := ApplyWrite(events, application, change, grant);
            && Foreign(after, application) == Foreign(events, application)
            && Leaves(Own(events, application, key), Own(after, application, key), change, key)
  {
    var target := Own(events, application, change.logicalKey).value;
    OwnIsHeld(events, application, change.logicalKey);
    HeldIsGot(events, target);
    if key != change.logicalKey && Own(events, application, key).Some? { OwnIsHeld(events, application, key); }
    OwnAfterRelocate(events, application, IntentFor(application, change, grant), target, key);
    RelocatedKeepsItsKey(target, IntentFor(application, change, grant), application);
  }

  lemma OneWrite(events: seq<CalendarEvent>, application: string, change: ScheduleChange, grant: Grant, key: string)
    requires Writable(events, application, change, grant) && Identified(events)
    ensures var after := ApplyWrite(events, application, change, grant);
            && Foreign(after, application) == Foreign(events, application)
            && Leaves(Own(events, application, key), Own(after, application, key), change, key)
  {
    match change.op
    case CREATE => OneCreate(events, application, change, grant, key);
    case UPDATE => OneUpdate(events, application, change, grant, key);
    case KEEP =>
  }

  /** One write uses up its own id and its own key, and no other. */
  lemma OneWriteUses(events: seq<CalendarEvent>, application: string, change: ScheduleChange, grant: Grant)
    requires Identified(events) && grant.eventId != "" && Unused(events, grant.eventId) && change.logicalKey != ""
    ensures var after := ApplyWrite(events, application, change, grant);
            && Identified(after)
            && (forall id :: Unused(events, id) && id != grant.eventId ==> Unused(after, id))
            && (forall key :: CreatedBy(events, key).None? && key != grant.idempotencyKey
                  ==> CreatedBy(after, key).None?)
  {
    var intent := IntentFor(application, change, grant);
    match change.op
    case CREATE =>
      CreatedIsOwn(application, change, grant);
      forall key | key != grant.idempotencyKey
        ensures CreatedBy(events + [Insertion(intent, grant.eventId)], key) == CreatedBy(events, key)
      {
        CreatedAfterAppend(events, Insertion(intent, grant.eventId), key);
      }
    case UPDATE =>
      forall key ensures change.eventId.Some? && key != grant.idempotencyKey && CreatedBy(events, key).None? ==>
                           CreatedBy(Relocate(events, change.eventId.value, intent), key).None?
      {
        if change.eventId.Some? { RelocateKeepsIds(events, change.eventId.value, intent, key); }
      }
      if change.eventId.Some? { RelocateKeepsIds(events, change.eventId.value, intent, ""); }
    case KEEP =>
  }

  // ---- All the writes of a plan ------------------------------------------------------

  /** Each change says what the calendar needs for its key. */
  ghost predicate ReconcilesAll(changes: seq<ScheduleChange>, events: seq<CalendarEvent>, application: string) {
    forall k :: 0 <= k < |changes| ==>
      changes[k].logicalKey != "" && Reconciles(changes[k], Own(events, application, changes[k].logicalKey))
  }

  /** Changes about one event agree where it goes. */
  ghost predicate OneSpanPerKey(changes: seq<ScheduleChange>) {
    forall i, k :: 0 <= i < k < |changes| && changes[i].logicalKey == changes[k].logicalKey ==>
      changes[i].Span() == changes[k].Span()
  }

  ghost predicate Mentions(changes: seq<ScheduleChange>, n: nat, key: string)
    requires n <= |changes|
  {
    exists k :: 0 <= k < n && changes[k].logicalKey == key
  }

  /** The ids to come are unused, and the key of a create to come is carried only if an event of its
      own has been written already. */
  ghost predicate StillFree(after: seq<CalendarEvent>, changes: seq<ScheduleChange>, grants: seq<Grant>, n: nat)
    requires n <= |changes| == |grants|
  {
    && (forall g :: n <= g < |grants| ==> Unused(after, grants[g].eventId))
    && (forall g :: n <= g < |grants| ==> KeyIsFree(after, changes, grants, n, g))
  }

  ghost predicate KeyIsFree(after: seq<CalendarEvent>, changes: seq<ScheduleChange>, grants: seq<Grant>, n: nat, g: nat)
    requires n <= g < |changes| == |grants|
  {
    changes[g].op == CREATE && CreatedBy(after, grants[g].idempotencyKey).Some? ==>
      Mentions(changes, n, changes[g].logicalKey)
  }

  /** The first `n` writes are in: nobody else's events moved, and what is still to be written is still free. */
  ghost predicate Written(before: seq<CalendarEvent>, after: seq<CalendarEvent>, application: string,
                          changes: seq<ScheduleChange>, grants: seq<Grant>, n: nat)
    requires n <= |changes| == |grants|
  {
    && Identified(after)
    && Foreign(after, application) == Foreign(before, application)
    && StillFree(after, changes, grants, n)
  }

  /** What is held under `key` after the first `n` writes: the same event, if there was one, and where
      the changes put it, if they agree. */
  ghost predicate WrittenKey(before: seq<CalendarEvent>, after: seq<CalendarEvent>, application: string,
                             changes: seq<ScheduleChange>, n: nat, key: string)
    requires n <= |changes|
  {
    var was, held := Own(before, application, key), Own(after, application, key);
    && (!Mentions(changes, n, key) ==> held == was)
    && (Mentions(changes, n, key) ==> held.Some?)
    && (was.Some? ==> held.Some? && held.value.eventId == was.value.eventId)
    && (OneSpanPerKey(changes) ==>
          forall k :: 0 <= k < n && changes[k].logicalKey == key ==>
            held.Some? && held.value.Span() == changes[k].Span())
  }

  lemma NextIsWritable(before: seq<CalendarEvent>, events: seq<CalendarEvent>, application: string,
                       changes: seq<ScheduleChange>, grants: seq<Grant>, n: nat)
    requires ReconcilesAll(changes, before, application) && n < |changes| == |grants|
    requires Written(before, events, application, changes, grants, n)
    requires WrittenKey(before, events, application, changes, n, changes[n].logicalKey)
    ensures Writable(events, application, changes[n], grants[n])
    ensures var held := Own(events, application, changes[n].logicalKey);
            OneSpanPerKey(changes) ==>
              held.None? || held.value.Span() == changes[n].Span() || changes[n].op == UPDATE
  {
    assert Reconciles(changes[n], Own(before, application, changes[n].logicalKey));
    assert KeyIsFree(events, changes, grants, n, n);
  }

  lemma NextWrite(before: seq<CalendarEvent>, events: seq<CalendarEvent>, application: string,
                  changes: seq<ScheduleChange>, grants: seq<Grant>, n: nat)
    requires ReconcilesAll(changes, before, application) && n < |changes| == |grants|
    requires Fresh(before, changes, grants) && Written(before, events, application, changes, grants, n)
    requires WrittenKey(before, events, application, changes, n, changes[n].logicalKey)
    ensures Written(before, ApplyWrite(events, application, changes[n], grants[n]), application, changes, grants, n + 1)
  {
    NextIsWritable(before, events, application, changes, grants, n);
    OneWrite(events, application, changes[n], grants[n], "");
    OneWriteUses(events, application, changes[n], grants[n]);
    var after := ApplyWrite(events, application, changes[n], grants[n]);
    var next := n + 1;
    forall g | next <= g < |grants| ensures KeyIsFree(after, changes, grants, next, g) {
      assert KeyIsFree(events, changes, grants, n, g);
      assert changes[n].logicalKey == changes[g].logicalKey ==> Mentions(changes, n + 1, changes[g].logicalKey);
    }
  }

  lemma NextWriteOfKey(before: seq<CalendarEvent>, events: seq<CalendarEvent>, application: string,
                       changes: seq<ScheduleChange>, grants: seq<Grant>, n: nat, key: string)
    requires ReconcilesAll(changes, before, application) && n < |changes| == |grants|
    requires Written(before, events, application, changes, grants, n)
    requires WrittenKey(before, events, application, changes, n, changes[n].logicalKey)
    requires WrittenKey(before, events, application, changes, n, key)
    ensures WrittenKey(before, ApplyWrite(events, application, changes[n], grants[n]), application, changes, n + 1, key)
  {
    NextIsWritable(before, events, application, changes, grants, n);
    OneWrite(events, application, changes[n], grants[n], key);
    assert Mentions(changes, n, key) ==> Mentions(changes, n + 1, key);
    assert changes[n].logicalKey == key ==> Mentions(changes, n + 1, key);
  }

  /** The first `n` writes are in, for every key. */
  ghost predicate InPlace(before: seq<CalendarEvent>, after: seq<CalendarEvent>, application: string,
                          changes: seq<ScheduleChange>, grants: seq<Grant>, n: nat)
    requires n <= |changes| == |grants|
  {
    && Written(before, after, application, changes, grants, n)
    && forall key :: WrittenKey(before, after, application, changes, n, key)
  }

  lemma NothingWritten(before: seq<CalendarEvent>, application: string, changes: seq<ScheduleChange>,
                       grants: seq<Grant>)
    requires Identified(before) && |changes| == |grants| && Fresh(before, changes, grants)
    ensures InPlace(before, before, application, changes, grants, 0)
  {
  }

  lemma OneMore(before: seq<CalendarEvent>, events: seq<CalendarEvent>, application: string,
                changes: seq<ScheduleChange>, grants: seq<Grant>, n: nat, next: nat)
    requires ReconcilesAll(changes, before, application) && n < |changes| == |grants| && next == n + 1
    requires Fresh(before, changes, grants) && InPlace(before, events, application, changes, grants, n)
    ensures InPlace(before, ApplyWrite(events, application, changes[n], grants[n]), application, changes, grants, next)
  {
    NextWrite(before, events, application, changes, grants, n);
    var after := ApplyWrite(events, application, changes[n], grants[n]);
    forall key ensures WrittenKey(before, after, application, changes, next, key) {
      NextWriteOfKey(before, events, application, changes, grants, n, key);
    }
  }

  lemma LastWrite(before: seq<CalendarEvent>, application: string, changes: seq<ScheduleChange>, grants: seq<Grant>,
                  n: nat)
    requires ReconcilesAll(changes, before, application) && 1 <= n <= |changes| == |grants|
    requires Fresh(before, changes, grants)
    requires var events := ApplyUpTo(before, application, changes, grants, n - 1);
             InPlace(before, events, application, changes, grants, n - 1)
    ensures InPlace(before, ApplyUpTo(before, application, changes, grants, n), application, changes, grants, n)
  {
    OneMore(before, ApplyUpTo(before, application, changes, grants, n - 1), application, changes, grants, n - 1, n);
  }

  lemma {:induction false} WritesUpTo(before: seq<CalendarEvent>, application: string, changes: seq<ScheduleChange>,
                                      grants: seq<Grant>, n: nat)
    requires ReconcilesAll(changes, before, application) && Identified(before)
    requires n <= |changes| == |grants| && Fresh(before, changes, grants)
    ensures InPlace(before, ApplyUpTo(before, application, changes, grants, n), application, changes, grants, n)
    decreases n
  {
    if n == 0 {
      NothingWritten(before, application, changes, grants);
    } else {
      WritesUpTo(before, application, changes, grants, n - 1);
      LastWrite(before, application, changes, grants, n);
    }
  }
}
