/** Calendar writes that look before they write, so that a crashed attempt can be made again. */
module CalendarWrites {
  import opened Prelude
  import opened WorkingDay
  import opened SlotSearch
  import opened InterviewPlan

  datatype Kind = CREATE_CALENDAR_EVENT | UPDATE_CALENDAR_EVENT | OTHER_KIND

  /** The parts of an action intent a calendar write reads. `times` is `None` when
      the payload does not carry a start and an end. */
  datatype Intent = Intent(
    actionId: string, kind: Kind, summary: string, idempotencyKey: string,
    eventId: Option<string>, title: string, times: Option<Slot>, properties: map<string, string>)
  {
    /** The intent says which event it moves. */
    predicate Names() { eventId.Some? && eventId.value != "" }
  }

  datatype Receipt = Receipt(actionId: string, ok: bool, externalReference: Option<string>)

  /** How one attempt ended: with a receipt, with an exception, or with the process. */
  datatype Outcome = Settled(receipt: Receipt) | Raised | Crashed

  datatype Reconciliation = APPLIED(receipt: Receipt) | NOT_APPLIED | INDETERMINATE | LookupRaised

  /** Where the process dies during an attempt, if it does. */
  datatype CrashPoint = NoCrash | AfterLookup | AfterWrite

  predicate Carries(event: CalendarEvent, key: string) {
    PROP_IDEMPOTENCY_KEY in event.properties && event.properties[PROP_IDEMPOTENCY_KEY] == key
  }

  /** The event an earlier attempt under `key` left behind, if any. */
  function CreatedBy(events: seq<CalendarEvent>, key: string): Option<CalendarEvent> {
    if events == [] then None
    else if Carries(events[0], key) then Some(events[0])
    else CreatedBy(events[1..], key)
  }

  function GetEvent(events: seq<CalendarEvent>, id: string): Option<CalendarEvent> {
    if events == [] then None
    else if events[0].eventId == id then Some(events[0])
    else GetEvent(events[1..], id)
  }

  /** The event a create inserts, under the id the provider chose for it. */
  function Insertion(intent: Intent, newId: string): CalendarEvent
    requires intent.times.Some?
  {
    CalendarEvent(newId, if intent.title != "" then intent.title else intent.summary,
                  intent.times.value.from, intent.times.value.to,
                  intent.properties[PROP_IDEMPOTENCY_KEY := intent.idempotencyKey], true, None)
  }

  function Relocated(event: CalendarEvent, intent: Intent): CalendarEvent
    requires intent.times.Some?
  {
    event.(title := if intent.title != "" then intent.title else event.title,
           startsAt := intent.times.value.from, endsAt := intent.times.value.to,
           properties := event.properties[PROP_IDEMPOTENCY_KEY := intent.idempotencyKey])
  }

  function Relocate(events: seq<CalendarEvent>, id: string, intent: Intent): seq<CalendarEvent>
    requires intent.times.Some?
  {
    if events == [] then []
    else if events[0].eventId == id then [Relocated(events[0], intent)] + events[1..]
    else [events[0]] + Relocate(events[1..], id, intent)
  }

  /** An inserted event is the one asked for: named by its title, or its summary without one, at its times,
      marked busy, with its properties and the key of the intent that made it. */
  lemma InsertedAsAsked(intent: Intent, newId: string)
    requires intent.times.Some?
    ensures var e := Insertion(intent, newId);
            && e.eventId == newId && Some(e.Span()) == intent.times && e.busy && e.etag.None?
            && (intent.title == "" ==> e.title == intent.summary) && (intent.title != "" ==> e.title == intent.title)
            && Carries(e, intent.idempotencyKey)
            && e.properties - {PROP_IDEMPOTENCY_KEY} == intent.properties - {PROP_IDEMPOTENCY_KEY}
  {
  }

  /** A moved event is the same event at the times asked for, renamed only if a title is asked for, and
      under the key of the intent that moved it. */
  lemma MovedAsAsked(event: CalendarEvent, intent: Intent)
    requires intent.times.Some?
    ensures var e := Relocated(event, intent);
            && Some(e.Span()) == intent.times && Carries(e, intent.idempotencyKey)
            && (intent.title != "" ==> e.title == intent.title) && (intent.title == "" ==> e.title == event.title)
            && e.eventId == event.eventId && e.busy == event.busy && e.etag == event.etag
            && e.properties - {PROP_IDEMPOTENCY_KEY} == event.properties - {PROP_IDEMPOTENCY_KEY}
  {
  }

  // ---- The two writes, as functions of the calendar ------------------------------------

  function CreateWrites(events: seq<CalendarEvent>, intent: Intent, crash: CrashPoint): bool {
    !crash.AfterLookup? && CreatedBy(events, intent.idempotencyKey).None? && intent.times.Some?
  }

  function CreateEffect(events: seq<CalendarEvent>, intent: Intent, crash: CrashPoint, newId: string)
    : seq<CalendarEvent>
  {
    if CreateWrites(events, intent, crash) then events + [Insertion(intent, newId)] else events
  }

  function UpdateWrites(events: seq<CalendarEvent>, intent: Intent, crash: CrashPoint): bool {
    && !crash.AfterLookup? && intent.Names() && intent.times.Some?
    && GetEvent(events, intent.eventId.value).Some?
    && GetEvent(events, intent.eventId.value).value.Span() != intent.times.value
  }

  function UpdateEffect(events: seq<CalendarEvent>, intent: Intent, crash: CrashPoint): seq<CalendarEvent> {
    if UpdateWrites(events, intent, crash) then Relocate(events, intent.eventId.value, intent) else events
  }

  function WriteEffect(events: seq<CalendarEvent>, intent: Intent, crash: CrashPoint, newId: string)
    : seq<CalendarEvent>
  {
    match intent.kind
    case CREATE_CALENDAR_EVENT => CreateEffect(events, intent, crash, newId)
    case UPDATE_CALENDAR_EVENT => UpdateEffect(events, intent, crash)
    case OTHER_KIND => events
  }

  function ReconcileAnswer(events: seq<CalendarEvent>, intent: Intent): Reconciliation {
    match intent.kind
    case CREATE_CALENDAR_EVENT =>
      (match CreatedBy(events, intent.idempotencyKey)
       case None => NOT_APPLIED
       case Some(event) => APPLIED(Receipt(intent.actionId, true, Some(event.eventId))))
    case UPDATE_CALENDAR_EVENT =>
      if !intent.Names() then LookupRaised
      else
        (match GetEvent(events, intent.eventId.value)
         case None => NOT_APPLIED
         case Some(event) =>
           if intent.times.None? then LookupRaised
           else if event.Span() == intent.times.value
           then APPLIED(Receipt(intent.actionId, true, Some(event.eventId)))
           else NOT_APPLIED)
    case OTHER_KIND => INDETERMINATE
  }

  /** The provider's calendar, behind the client port. */
  class Calendar {
    var events: seq<CalendarEvent>

    constructor ()
      ensures events == []
    {
      events := [];
    }
  }

  class CalendarActionExecutor {
    const client: Calendar

    constructor (client: Calendar)
      ensures this.client == client
    {
      this.client := client;
    }

    method Create(intent: Intent, crash: CrashPoint, newId: string) returns (r: Outcome)
      modifies client
      ensures client.events == CreateEffect(old(client.events), intent, crash, newId)
      ensures r.Settled? ==>
                && r.receipt.ok && r.receipt.actionId == intent.actionId
                && exists e :: e in client.events && Some(e.eventId) == r.receipt.externalReference
                               && Carries(e, intent.idempotencyKey)
      ensures r.Crashed? <==>
                crash == AfterLookup || (crash == AfterWrite && CreateWrites(old(client.events), intent, crash))
      ensures r.Raised? <==>
                && crash != AfterLookup && intent.times.None?
                && CreatedBy(old(client.events), intent.idempotencyKey).None?
    {
      var existing := CreatedBy(client.events, intent.idempotencyKey);
      if crash == AfterLookup { return Crashed; }
      if existing.Some? {
        CreatedByIsHeld(client.events, intent.idempotencyKey);
        return Settled(Receipt(intent.actionId, true, Some(existing.value.eventId)));
      }
      if intent.times.None? { return Raised; }
      var event := Insertion(intent, newId);
      client.events := client.events + [event];
      if crash == AfterWrite { return Crashed; }
      assert client.events[|client.events| - 1] == event;
      return Settled(Receipt(intent.actionId, true, Some(event.eventId)));
    }

    method Update(intent: Intent, crash: CrashPoint) returns (r: Outcome)
      modifies client
      ensures client.events == UpdateEffect(old(client.events), intent, crash)
      ensures r.Settled? && r.receipt.ok ==>
                GetEvent(client.events, intent.eventId.GetOr("")).Some?
                && Some(GetEvent(client.events, intent.eventId.GetOr("")).value.Span()) == intent.times
      ensures r.Settled? && !r.receipt.ok ==>
                intent.eventId.Some? && GetEvent(old(client.events), intent.eventId.value).None?
      ensures r.Settled? ==>
                && r.receipt.actionId == intent.actionId
                && r.receipt.externalReference == if r.receipt.ok then intent.eventId else None
      ensures r.Crashed? <==>
                && intent.Names()
                && (crash == AfterLookup || (crash == AfterWrite && UpdateWrites(old(client.events), intent, crash)))
      ensures r.Raised? <==>
                || !intent.Names()
                || (crash != AfterLookup && intent.times.None?
                    && GetEvent(old(client.events), intent.eventId.value).Some?)
    {
      if !intent.Names() { return Raised; }
      var id := intent.eventId.value;
      var current := GetEvent(client.events, id);
      if crash == AfterLookup { return Crashed; }
      if current.None? { return Settled(Receipt(intent.actionId, false, None)); }
      if intent.times.None? { return Raised; }
      if current.value.Span() == intent.times.value {
        GotHasItsId(client.events, id);
        return Settled(Receipt(intent.actionId, true, Some(current.value.eventId)));
      }
      RelocatePlaces(client.events, id, intent);
      client.events := Relocate(client.events, id, intent);
      if crash == AfterWrite { return Crashed; }
      return Settled(Receipt(intent.actionId, true, Some(id)));
    }

    /** Makes the write the intent's kind calls for. Other kinds are refused. */
    method Execute(intent: Intent, crash: CrashPoint, newId: string) returns (r: Outcome)
      modifies client
      ensures client.events == WriteEffect(old(client.events), intent, crash, newId)
      ensures intent.kind == OTHER_KIND ==> r == Raised
      ensures r.Settled? ==> r.receipt.actionId == intent.actionId
    {
      match intent.kind
      case CREATE_CALENDAR_EVENT => r := Create(intent, crash, newId);
      case UPDATE_CALENDAR_EVENT => r := Update(intent, crash);
      case OTHER_KIND => r := Raised;
    }
  }

  lemma {:induction false} CreatedByIsHeld(events: seq<CalendarEvent>, key: string)
    ensures var found := CreatedBy(events, key);
            && (found.Some? ==> found.value in events && Carries(found.value, key))
            && (found.None? <==> Stamped(events, key) == 0)
  {
    if events != [] { CreatedByIsHeld(events[1..], key); }
  }

  lemma {:induction false} GotHasItsId(events: seq<CalendarEvent>, id: string)
    requires GetEvent(events, id).Some?
    ensures GetEvent(events, id).value.eventId == id
  {
    if events[0].eventId != id { GotHasItsId(events[1..], id); }
  }

  lemma {:induction false} RelocatePlaces(events: seq<CalendarEvent>, id: string, intent: Intent)
    requires intent.times.Some? && GetEvent(events, id).Some?
    ensures GetEvent(Relocate(events, id, intent), id).Some?
    ensures GetEvent(Relocate(events, id, intent), id).value.Span() == intent.times.value
  {
    if events[0].eventId != id {
      RelocatePlaces(events[1..], id, intent);
      assert Relocate(events, id, intent)[1..] == Relocate(events[1..], id, intent);
    }
  }

  /** An update that went through, made again, finds the event in place and writes nothing. */
  lemma RepeatedUpdateWritesNothing(events: seq<CalendarEvent>, intent: Intent, crash: CrashPoint, again: CrashPoint)
    requires !crash.AfterLookup?
    ensures !UpdateWrites(UpdateEffect(events, intent, crash), intent, again)
  {
    if UpdateWrites(events, intent, crash) { RelocatePlaces(events, intent.eventId.value, intent); }
  }

  // ---- Runs under one idempotency key ---------------------------------------------------

  /** How many events carry `key`. */
  ghost function Stamped(events: seq<CalendarEvent>, key: string): nat {
    if events == [] then 0 else Stamped(events[1..], key) + if Carries(events[0], key) then 1 else 0
  }

  /** One thing that happens to the calendar: a try at the create, a try at an update,
      or anyone else changing the calendar to whatever they like. */
  datatype Step =
    | TryCreate(intent: Intent, crash: CrashPoint, newId: string)
    | TryUpdate(update: Intent, updateCrash: CrashPoint)
    | Edited(events: seq<CalendarEvent>)

  function After(events: seq<CalendarEvent>, step: Step): seq<CalendarEvent> {
    match step
    case TryCreate(intent, crash, newId) => CreateEffect(events, intent, crash, newId)
    case TryUpdate(intent, crash) => UpdateEffect(events, intent, crash)
    case Edited(to) => to
  }

  /** `step` under create key `key`: updates go by keys of their own, and nobody else forges the stamp. */
  ghost predicate Allowed(events: seq<CalendarEvent>, step: Step, key: string) {
    match step
    case TryCreate(intent, _, _) => intent.idempotencyKey == key
    case TryUpdate(intent, _) => intent.idempotencyKey != key
    case Edited(to) => Stamped(to, key) <= Stamped(events, key)
  }

  ghost predicate AllowedRun(events: seq<CalendarEvent>, steps: seq<Step>, key: string)
    decreases |steps|
  {
    steps == [] || (Allowed(events, steps[0], key) && AllowedRun(After(events, steps[0]), steps[1..], key))
  }

  /** Some step takes the stamp off an event that had it. */
  ghost predicate StampLost(events: seq<CalendarEvent>, steps: seq<Step>, key: string)
    decreases |steps|
  {
    steps != [] && (Stamped(After(events, steps[0]), key) < Stamped(events, key)
        || StampLost(After(events, steps[0]), steps[1..], key))
  }

  function RunAll(events: seq<CalendarEvent>, steps: seq<Step>): seq<CalendarEvent>
    decreases |steps|
  {
    if steps == [] then events else RunAll(After(events, steps[0]), steps[1..])
  }

  /** How many inserts a run sends to the provider. */
  ghost function Inserts(events: seq<CalendarEvent>, steps: seq<Step>): nat
    decreases |steps|
  {
    if steps == [] then 0
    else
      Inserts(After(events, steps[0]), steps[1..])
      + if steps[0].TryCreate? && CreateWrites(events, steps[0].intent, steps[0].crash) then 1 else 0
  }

  lemma {:induction false} StampedAppend(events: seq<CalendarEvent>, e: CalendarEvent, key: string)
    ensures Stamped(events + [e], key) == Stamped(events, key) + if Carries(e, key) then 1 else 0
  {
    if events == [] {
      assert events + [e] == [e];
    } else {
      assert (events + [e])[1..] == events[1..] + [e];
      StampedAppend(events[1..], e, key);
    }
  }

  lemma {:induction false} StampedRelocate(events: seq<CalendarEvent>, id: string, intent: Intent, key: string)
    requires intent.times.Some? && intent.idempotencyKey != key
    ensures Stamped(Relocate(events, id, intent), key) <= Stamped(events, key)
  {
    if events != [] {
      StampedRelocate(events[1..], id, intent, key);
      assert Relocate(events, id, intent)[1..] == if events[0].eventId == id then events[1..]
          else Relocate(events[1..], id, intent);
    }
  }

  lemma OneStep(events: seq<CalendarEvent>, step: Step, key: string)
    requires Allowed(events, step, key)
    ensures var inserted := step.TryCreate? && CreateWrites(events, step.intent, step.crash);
            && (inserted ==> Stamped(events, key) == 0 && Stamped(After(events, step), key) == 1)
            && (!inserted ==> Stamped(After(events, step), key) <= Stamped(events, key))
  {
    match step
    case TryCreate(intent, crash, newId) =>
      CreatedByIsHeld(events, key);
      if CreateWrites(events, intent, crash) { StampedAppend(events, Insertion(intent, newId), key); }
    case TryUpdate(intent, crash) =>
      if UpdateWrites(events, intent, crash) { StampedRelocate(events, intent.eventId.value, intent, key); }
    case Edited(_) =>
  }

  /** Over any serial run, however it crashes, the calendar never holds two events with the key of one
      create. Each insert sent is accounted for by an event that still carries the key if and only if
      nothing took the stamp off on the way. */
  lemma {:induction false} CreatesSurviveCrashes(events: seq<CalendarEvent>, steps: seq<Step>, key: string)
    requires Stamped(events, key) <= 1 && AllowedRun(events, steps, key)
    ensures Stamped(RunAll(events, steps), key) <= 1
    ensures Stamped(events, key) + Inserts(events, steps) >= Stamped(RunAll(events, steps), key)
    ensures !StampLost(events, steps, key) <==>
              Stamped(events, key) + Inserts(events, steps) == Stamped(RunAll(events, steps), key)
    decreases |steps|
  {
    if steps != [] {
      OneStep(events, steps[0], key);
      CreatesSurviveCrashes(After(events, steps[0]), steps[1..], key);
    }
  }

  /** So a create whose event is on the calendar is inserted a second time, when it is tried again, if
      and only if its stamp was taken off in between. */
  lemma {:induction false} SecondInsertExactlyIfStampLost(events: seq<CalendarEvent>, steps: seq<Step>, create: Intent)
    requires Stamped(events, create.idempotencyKey) == 1 && create.times.Some?
    requires AllowedRun(events, steps, create.idempotencyKey)
    requires forall i :: 0 <= i < |steps| ==> !steps[i].TryCreate?
    ensures CreateWrites(RunAll(events, steps), create, NoCrash) <==> StampLost(events, steps, create.idempotencyKey)
  {
    NoCreateNoInsert(events, steps);
    CreatesSurviveCrashes(events, steps, create.idempotencyKey);
    CreatedByIsHeld(RunAll(events, steps), create.idempotencyKey);
  }

  /** Of what is no calendar write the calendar says nothing. */
  lemma OthersAreIndeterminate(events: seq<CalendarEvent>, intent: Intent)
    requires intent.kind != CREATE_CALENDAR_EVENT && intent.kind != UPDATE_CALENDAR_EVENT
    ensures ReconcileAnswer(events, intent) == INDETERMINATE
  {
  }

  /** The reconciler says APPLIED for an update exactly while the event it names is at the times it asks
      for; it cannot say without an event or, for one that is there, without times; and NOT_APPLIED is
      for an update that another attempt would make. */
  lemma ReconcileFindsTheMove(events: seq<CalendarEvent>, intent: Intent)
    requires intent.kind == UPDATE_CALENDAR_EVENT
    ensures var answer, there := ReconcileAnswer(events, intent), GetEvent(events, intent.eventId.GetOr(""));
            && (answer.LookupRaised? <==>
                  intent.eventId.GetOr("") == "" || (there.Some? && intent.times.None?))
            && (answer.APPLIED? <==>
                  intent.eventId.GetOr("") != "" && there.Some? && intent.times == Some(there.value.Span()))
            && (answer.APPLIED? ==> answer.receipt == Receipt(intent.actionId, true, Some(there.value.eventId)))
            && !answer.INDETERMINATE?
            && (UpdateWrites(events, intent, NoCrash) ==> answer.NOT_APPLIED?)
  {
  }

  /** An update of an event that is there is answered APPLIED exactly if it was made: it ran past its
      lookup, or the event was in place before. */
  lemma AppliedOnceMoved(events: seq<CalendarEvent>, intent: Intent, crash: CrashPoint)
    requires intent.kind == UPDATE_CALENDAR_EVENT && intent.Names() && intent.times.Some?
    requires GetEvent(events, intent.eventId.value).Some?
    ensures var answer := ReconcileAnswer(UpdateEffect(events, intent, crash), intent);
            && (answer.APPLIED? <==>
                  !crash.AfterLookup? || intent.times == Some(GetEvent(events, intent.eventId.value).value.Span()))
            && (answer.APPLIED? || answer.NOT_APPLIED?)
  {
    if UpdateWrites(events, intent, crash) { RelocatePlaces(events, intent.eventId.value, intent); }
    ReconcileFindsTheMove(UpdateEffect(events, intent, crash), intent);
  }

  lemma {:induction false} NoCreateNoInsert(events: seq<CalendarEvent>, steps: seq<Step>)
    requires forall i :: 0 <= i < |steps| ==> !steps[i].TryCreate?
    ensures Inserts(events, steps) == 0
    decreases |steps|
  {
    if steps != [] { NoCreateNoInsert(After(events, steps[0]), steps[1..]); }
  }

  /** An update takes the stamp off if and only if it moves the event that carries it. */
  lemma {:induction false} UpdateTakesTheStampExactly(events: seq<CalendarEvent>, update: Intent, crash: CrashPoint,
                                                      key: string)
    requires update.idempotencyKey != key
    ensures Stamped(UpdateEffect(events, update, crash), key) < Stamped(events, key) <==>
              UpdateWrites(events, update, crash) && Carries(GetEvent(events, update.eventId.value).value, key)
  {
    if UpdateWrites(events, update, crash) { RelocateTakesTheStamp(events, update.eventId.value, update, key); }
  }

  lemma {:induction false} RelocateTakesTheStamp(events: seq<CalendarEvent>, id: string, intent: Intent, key: string)
    requires intent.times.Some? && intent.idempotencyKey != key && GetEvent(events, id).Some?
    ensures Stamped(Relocate(events, id, intent), key)
         == Stamped(events, key) - if Carries(GetEvent(events, id).value, key) then 1 else 0
  {
    if events[0].eventId != id {
      RelocateTakesTheStamp(events[1..], id, intent, key);
      assert Relocate(events, id, intent)[1..] == Relocate(events[1..], id, intent);
    } else {
      assert Relocate(events, id, intent)[1..] == events[1..];
    }
  }

  /** The reconciler says APPLIED for a create exactly while its event is on the calendar. */
  lemma ReconcileFindsExactlyTheEvent(events: seq<CalendarEvent>, intent: Intent)
    requires intent.kind == CREATE_CALENDAR_EVENT
    ensures ReconcileAnswer(events, intent).APPLIED? <==> Stamped(events, intent.idempotencyKey) > 0
    ensures ReconcileAnswer(events, intent).NOT_APPLIED? <==> Stamped(events, intent.idempotencyKey) == 0
    ensures ReconcileAnswer(events, intent).APPLIED? ==>
              exists e :: e in events && Carries(e, intent.idempotencyKey)
                          && ReconcileAnswer(events, intent).receipt == Receipt(intent.actionId, true, Some(e.eventId))
    ensures ReconcileAnswer(events, intent).NOT_APPLIED? ==>
              forall newId :: intent.times.Some?
                  ==> ReconcileAnswer(CreateEffect(events, intent, NoCrash, newId), intent).APPLIED?
  {
    CreatedByIsHeld(events, intent.idempotencyKey);
    if intent.times.Some? && ReconcileAnswer(events, intent).NOT_APPLIED? {
      forall newId ensures ReconcileAnswer(CreateEffect(events, intent, NoCrash, newId), intent).APPLIED? {
        StampedAppend(events, Insertion(intent, newId), intent.idempotencyKey);
        CreatedByIsHeld(CreateEffect(events, intent, NoCrash, newId), intent.idempotencyKey);
      }
    }
  }

  /** The condition on the stamp is needed: an update puts its own key on the event it
      moves, and the create, tried once more after that, inserts a second event. */
  lemma MovingLosesTheStamp(create: Intent, update: Intent, id: string, id2: string)
    requires create.times.Some? && update.times.Some? && create.times != update.times
    requires update.eventId == Some(id) && id != "" && update.idempotencyKey != create.idempotencyKey
    ensures var steps := [TryCreate(create, AfterWrite, id), TryUpdate(update, NoCrash),
        TryCreate(create, NoCrash, id2)];
            && AllowedRun([], steps, create.idempotencyKey)
            && StampLost([], steps, create.idempotencyKey)
            && Inserts([], steps) == 2 && |RunAll([], steps)| == 2
  {
    var key := create.idempotencyKey;
    var steps := [TryCreate(create, AfterWrite, id), TryUpdate(update, NoCrash), TryCreate(create, NoCrash, id2)];
    var first := Insertion(create, id);
    assert After([], steps[0]) == [first];
    assert GetEvent([first], id) == Some(first);
    var moved := Relocated(first, update);
    assert After([first], steps[1]) == [moved];
    assert !Carries(moved, key);
    assert CreatedBy([moved], key) == None;
    assert After([moved], steps[2]) == [moved, Insertion(create, id2)];
    assert steps[1..] == [steps[1], steps[2]] && steps[1..][1..] == [steps[2]] && steps[1..][1..][1..] == [];
    assert AllowedRun([moved], [steps[2]], key);
    assert AllowedRun([first], [steps[1], steps[2]], key);
    assert Stamped([first], key) == 1 && Stamped([moved], key) == 0;
    assert Inserts([moved], [steps[2]]) == 1;
    assert Inserts([first], [steps[1], steps[2]]) == 1;
    assert RunAll([moved], [steps[2]]) == [moved, Insertion(create, id2)];
    assert RunAll([first], [steps[1], steps[2]]) == [moved, Insertion(create, id2)];
  }
}
