/** Reconciling an interview and its prep blocks against what the calendar holds. */
module InterviewPlan {
  import opened Prelude
  import opened WorkingDay
  import opened SlotSearch

  const PROP_APPLICATION_ID := "personalos_application_id"
  const PROP_KEY := "personalos_key"
  const PROP_ROLE := "personalos_role"
  const PROP_INTERVIEW_KEY := "personalos_interview_key"
  const PROP_IDEMPOTENCY_KEY := "personalos_idempotency_key"

  datatype Role = INTERVIEW | PREP {
    function Value(): string { if INTERVIEW? then "interview" else "prep" }
  }

  datatype CalendarEvent = CalendarEvent(
    eventId: string, title: string, startsAt: Moment, endsAt: Moment,
    properties: map<string, string>, busy: bool, etag: Option<string>) {

    function Span(): Slot { Slot(startsAt, endsAt) }

    /** The logical key `application` knows this event by, if it is one of its own. */
    function KeyFor(application: string): Option<string> {
      if PROP_APPLICATION_ID in properties && properties[PROP_APPLICATION_ID] == application
         && PROP_KEY in properties && properties[PROP_KEY] != ""
      then Some(properties[PROP_KEY])
      else None
    }
  }

  datatype InterviewRequest = InterviewRequest(applicationId: string, startsAt: Moment, duration: int, title: string) {
    function Span(): Slot { Slot(startsAt, startsAt + duration) }
  }

  datatype PrepBlockSpec = PrepBlockSpec(
    slot: string, title: string, duration: int, lead: int, horizon: int, workingHoursOnly: bool)

  datatype ScheduleOp = CREATE | UPDATE | KEEP

  datatype ScheduleChange = ScheduleChange(
    op: ScheduleOp, logicalKey: string, role: Role, title: string, startsAt: Moment, endsAt: Moment,
    eventId: Option<string>, etag: Option<string>, previous: Option<Slot>) {

    function Span(): Slot { Slot(startsAt, endsAt) }
  }

  datatype ConflictKind = INTERVIEW_OVERLAP | PREP_UNPLACEABLE | INTERVIEW_IN_PAST

  datatype ScheduleConflict = ScheduleConflict(kind: ConflictKind, logicalKey: string, eventId: Option<string>)

  datatype Plan = Plan(changes: seq<ScheduleChange>, conflicts: seq<ScheduleConflict>)

  /** "prep block is longer than the working day it must fit in". */
  datatype PlanError = LongerThanWorkingDay(slot: string)

  function InterviewKey(application: string): string { "interview:" + application }

  function PrepKey(application: string, slot: string): string { "prep:" + application + ":" + slot }

  /** The private properties a created event is stamped with. */
  function EventProperties(application: string, change: ScheduleChange): map<string, string> {
    var common := map[PROP_APPLICATION_ID := application, PROP_KEY := change.logicalKey,
                      PROP_ROLE := change.role.Value()];
    if change.role.PREP? then common[PROP_INTERVIEW_KEY := InterviewKey(application)] else common
  }

  // ---- What the planner reads off the calendar --------------------------------

  /** The first event held under `key`; later ones with the same key are ignored. */
  function Own(events: seq<CalendarEvent>, application: string, key: string): Option<CalendarEvent> {
    if events == [] then None
    else if events[0].KeyFor(application) == Some(key) then Some(events[0])
    else Own(events[1..], application, key)
  }

  /** Everything else that is booked, in calendar order. */
  function Foreign(events: seq<CalendarEvent>, application: string): seq<CalendarEvent> {
    if events == [] then []
    else if events[0].KeyFor(application).None? && events[0].busy
    then [events[0]] + Foreign(events[1..], application)
    else Foreign(events[1..], application)
  }

  function EventSpans(events: seq<CalendarEvent>): (r: seq<Slot>)
    ensures |r| == |events|
  {
    seq(|events|, i requires 0 <= i < |events| => events[i].Span())
  }

  function Spans(changes: seq<ScheduleChange>): (r: seq<Slot>)
    ensures |r| == |changes|
  {
    seq(|changes|, i requires 0 <= i < |changes| => changes[i].Span())
  }

  // ---- The plan ----------------------------------------------------------------

  datatype Inputs = Inputs(
    request: InterviewRequest, events: seq<CalendarEvent>, now: Moment,
    specs: seq<PrepBlockSpec>, hours: WorkingHours) {

    predicate Valid() { hours.Valid() }

    function App(): string { request.applicationId }

    function Key(j: nat): string
      requires j < |specs|
    {
      PrepKey(App(), specs[j].slot)
    }

    function WindowOf(j: nat): Window
      requires j < |specs|
    {
      var spec := specs[j];
      var horizonStart := request.startsAt - spec.horizon;
      Window(spec.duration, if horizonStart >= now then horizonStart else now, request.startsAt - spec.lead,
             if spec.workingHoursOnly then Some(hours) else None)
    }

    predicate TooLong(j: nat)
      requires j < |specs|
    {
      specs[j].workingHoursOnly && specs[j].duration > hours.Length()
    }

    function ForeignSpans(): seq<Slot> { EventSpans(Foreign(events, App())) }
  }

  function Change(key: string, role: Role, title: string, span: Slot, existing: Option<CalendarEvent>): ScheduleChange {
    match existing
    case None => ScheduleChange(CREATE, key, role, title, span.from, span.to, None, None, None)
    case Some(event) =>
      ScheduleChange(
        if event.Span() != span then UPDATE else KEEP, key, role,
        if event.title != "" then event.title else title,
        span.from, span.to, Some(event.eventId), event.etag, Some(event.Span()))
  }

  function OverlapConflicts(key: string, interview: Slot, foreign: seq<CalendarEvent>): seq<ScheduleConflict> {
    if foreign == [] then []
    else if Overlaps(interview, foreign[0].Span())
    then [ScheduleConflict(INTERVIEW_OVERLAP, key, Some(foreign[0].eventId))]
        + OverlapConflicts(key, interview, foreign[1..])
    else OverlapConflicts(key, interview, foreign[1..])
  }

  /** A block already at `slot` may stay there: it is history, or the slot is still free. */
  predicate Usable(in_: Inputs, j: nat, busy: seq<Slot>, slot: Slot)
    requires j < |in_.specs|
  {
    slot.to <= in_.now || Free(in_.WindowOf(j), busy, slot)
  }

  /** Where spec `j` goes: where it already is while that is over or still usable, else the latest free slot. */
  function Place(in_: Inputs, j: nat, existing: Option<CalendarEvent>, busy: seq<Slot>): Option<Slot>
    requires j < |in_.specs|
  {
    if existing.Some? && Usable(in_, j, busy, existing.value.Span())
    then Some(existing.value.Span())
    else LatestFreeSlot(in_.WindowOf(j), busy)
  }

  /** The plan with the interview dealt with and no prep block yet. */
  function InterviewOnly(in_: Inputs): Plan {
    var key := InterviewKey(in_.App());
    Plan([Change(key, INTERVIEW, in_.request.title, in_.request.Span(), Own(in_.events, in_.App(), key))],
         OverlapConflicts(key, in_.request.Span(), Foreign(in_.events, in_.App())))
  }

  /** `plan` with the block of spec `j` dealt with as well. */
  function AddSpec(in_: Inputs, j: nat, plan: Plan): Result<Plan, PlanError>
    requires j < |in_.specs|
  {
    var existing := Own(in_.events, in_.App(), in_.Key(j));
    if in_.TooLong(j) then Err(LongerThanWorkingDay(in_.specs[j].slot))
    else
      match Place(in_, j, existing, in_.ForeignSpans() + Spans(plan.changes))
      case None =>
        Ok(plan.(conflicts := plan.conflicts + [Unplaceable(in_.Key(j), existing)]))
      case Some(slot) =>
        Ok(plan.(changes := plan.changes + [Change(in_.Key(j), PREP, in_.specs[j].title, slot, existing)]))
  }

  /** The plan once the interview and the first `n` prep blocks have been dealt with. */
  function PlanUpTo(in_: Inputs, n: nat): Result<Plan, PlanError>
    requires n <= |in_.specs|
    decreases n
  {
    if n == 0 then Ok(InterviewOnly(in_))
    else
      match PlanUpTo(in_, n - 1)
      case Err(e) => Err(e)
      case Ok(plan) => AddSpec(in_, n - 1, plan)
  }

  function Unplaceable(key: string, existing: Option<CalendarEvent>): ScheduleConflict {
    ScheduleConflict(PREP_UNPLACEABLE, key, if existing.Some? then Some(existing.value.eventId) else None)
  }

  function PlanInterviewSchedule(in_: Inputs): Result<Plan, PlanError> {
    if in_.request.startsAt <= in_.now
    then Ok(Plan([], [ScheduleConflict(INTERVIEW_IN_PAST, InterviewKey(in_.App()), None)]))
    else PlanUpTo(in_, |in_.specs|)
  }

  lemma {:induction false} FailureStays(in_: Inputs, n: nat, m: nat)
    requires n <= m <= |in_.specs| && PlanUpTo(in_, n).Err?
    ensures PlanUpTo(in_, m) == PlanUpTo(in_, n)
    decreases m - n
  {
    if n < m { FailureStays(in_, n, m - 1); }
  }

  lemma TooLongFails(in_: Inputs, n: nat, plan: Plan)
    requires n < |in_.specs| && PlanUpTo(in_, n) == Ok(plan) && in_.TooLong(n)
    ensures PlanUpTo(in_, |in_.specs|) == Err(LongerThanWorkingDay(in_.specs[n].slot))
  {
    FailureStays(in_, n + 1, |in_.specs|);
  }

  lemma SpecAdded(in_: Inputs, n: nat, plan: Plan, slot: Option<Slot>)
    requires n < |in_.specs| && PlanUpTo(in_, n) == Ok(plan) && !in_.TooLong(n)
    requires slot == Place(in_, n, Own(in_.events, in_.App(), in_.Key(n)), in_.ForeignSpans() + Spans(plan.changes))
    ensures var existing := Own(in_.events, in_.App(), in_.Key(n));
            match slot
            case None =>
              PlanUpTo(in_, n + 1) == Ok(plan.(conflicts := plan.conflicts + [Unplaceable(in_.Key(n), existing)]))
            case Some(at) =>
              var change := Change(in_.Key(n), PREP, in_.specs[n].title, at, existing);
              && PlanUpTo(in_, n + 1) == Ok(plan.(changes := plan.changes + [change]))
              && Spans(plan.changes + [change]) == Spans(plan.changes) + [at]
  {
  }

  /** The planner's loop, appending to `busy`, `changes` and `conflicts` one spec at a time. */
  method ComputePlan(in_: Inputs) returns (r: Result<Plan, PlanError>)
    requires in_.Valid()
    ensures r == PlanInterviewSchedule(in_)
  {
    var foreign := Foreign(in_.events, in_.App());
    var interviewKey := InterviewKey(in_.App());
    if in_.request.startsAt <= in_.now {
      return Ok(Plan([], [ScheduleConflict(INTERVIEW_IN_PAST, interviewKey, None)]));
    }
    var changes := [Change(interviewKey, INTERVIEW, in_.request.title, in_.request.Span(),
                           Own(in_.events, in_.App(), interviewKey))];
    var conflicts := OverlapConflicts(interviewKey, in_.request.Span(), foreign);
    var busy := EventSpans(foreign) + [in_.request.Span()];
    for n := 0 to |in_.specs|
      invariant PlanUpTo(in_, n) == Ok(Plan(changes, conflicts))
      invariant busy == in_.ForeignSpans() + Spans(changes)
    {
      var spec := in_.specs[n];
      var existing := Own(in_.events, in_.App(), in_.Key(n));
      var window := in_.WindowOf(n);
      if in_.TooLong(n) {
        TooLongFails(in_, n, Plan(changes, conflicts));
        return Err(LongerThanWorkingDay(spec.slot));
      }
      var slot: Option<Slot>;
      if existing.Some? && (existing.value.endsAt <= in_.now || Free(window, busy, existing.value.Span())) {
        slot := Some(existing.value.Span());
      } else {
        slot := FindLatestFreeSlot(window, busy);
      }
      SpecAdded(in_, n, Plan(changes, conflicts), slot);
      if slot.None? {
        conflicts := conflicts + [Unplaceable(in_.Key(n), existing)];
      } else {
        busy := busy + [slot.value];
        changes := changes + [Change(in_.Key(n), PREP, spec.title, slot.value, existing)];
      }
    }
    return Ok(Plan(changes, conflicts));
  }
}
