/** Planning again over the calendar a plan was written to. */
module Replanning {
  import opened Prelude
  import opened WorkingDay
  import opened SlotSearch
  import opened InterviewPlan
  import opened PlanWrites
  import PlanLayout

  // ---- Where the plan puts each block --------------------------------------------------

  /** All that was booked when spec `j` was dealt with. */
  function BusyAt(in_: Inputs, j: nat): seq<Slot>
    requires j < |in_.specs| && PlanUpTo(in_, j).Ok?
  {
    in_.ForeignSpans() + Spans(PlanUpTo(in_, j).value.changes)
  }

  /** Where the plan put the block of spec `j`. */
  function PlacedAt(in_: Inputs, j: nat): Option<Slot>
    requires j < |in_.specs| && PlanUpTo(in_, j).Ok?
  {
    Place(in_, j, Own(in_.events, in_.App(), in_.Key(j)), BusyAt(in_, j))
  }

  lemma {:induction false} PrefixOk(in_: Inputs, n: nat, j: nat)
    requires j <= n <= |in_.specs| && PlanUpTo(in_, n).Ok?
    ensures PlanUpTo(in_, j).Ok? && PlanUpTo(in_, j).value.changes <= PlanUpTo(in_, n).value.changes
    decreases n
  {
    if j < n { PrefixOk(in_, n - 1, j); }
  }

  /** A change about the block of one of the first `n` specs, where that spec put it. */
  ghost predicate FromSpec(in_: Inputs, n: nat, change: ScheduleChange)
    requires n <= |in_.specs|
  {
    exists j :: 0 <= j < n && IsBlockOf(in_, j, change)
  }

  ghost predicate IsBlockOf(in_: Inputs, j: nat, change: ScheduleChange)
    requires j < |in_.specs|
  {
    change.logicalKey == in_.Key(j) && PlanUpTo(in_, j).Ok? && PlacedAt(in_, j) == Some(change.Span())
  }

  lemma StillFromSpec(in_: Inputs, n: nat, change: ScheduleChange)
    requires n < |in_.specs| && FromSpec(in_, n, change)
    ensures FromSpec(in_, n + 1, change)
  {
    var j :| 0 <= j < n && IsBlockOf(in_, j, change);
  }

  /** What the changes of a plan have to do with the calendar it was made against. */
  lemma {:induction false} ChangesUpTo(in_: Inputs, n: nat)
    requires n <= |in_.specs| && PlanUpTo(in_, n).Ok?
    ensures var changes := PlanUpTo(in_, n).value.changes;
            && 1 <= |changes|
            && changes[0].logicalKey == InterviewKey(in_.App()) && changes[0].Span() == in_.request.Span()
            && ReconcilesAll(changes, in_.events, in_.App())
            && forall k :: 1 <= k < |changes| ==> FromSpec(in_, n, changes[k])
    decreases n
  {
    if n > 0 {
      ChangesUpTo(in_, n - 1);
      NewChange(in_, n - 1);
      var before, after := PlanUpTo(in_, n - 1).value.changes, PlanUpTo(in_, n).value.changes;
      forall k | 1 <= k < |after| ensures FromSpec(in_, n, after[k]) {
        if k < |before| {
          assert after[k] == before[k];
          StillFromSpec(in_, n - 1, before[k]);
        } else {
          assert IsBlockOf(in_, n - 1, after[k]);
        }
      }
    }
  }

  /** What dealing with spec `j` adds to the plan. */
  lemma NewChange(in_: Inputs, j: nat)
    requires j < |in_.specs| && PlanUpTo(in_, j + 1).Ok?
    ensures PlanUpTo(in_, j).Ok?
    ensures var before, after := PlanUpTo(in_, j).value.changes, PlanUpTo(in_, j + 1).value.changes;
            match PlacedAt(in_, j)
            case None => after == before
            case Some(slot) =>
              && |after| == |before| + 1 && after[..|before|] == before
              && IsBlockOf(in_, j, after[|before|]) && after[|before|].logicalKey != ""
              && Reconciles(after[|before|], Own(in_.events, in_.App(), in_.Key(j)))
  {
  }

  /** A block that was placed is in the plan. */
  lemma PlacedIsPlanned(in_: Inputs, n: nat, j: nat) returns (k: nat)
    requires j < n <= |in_.specs| && PlanUpTo(in_, n).Ok?
    requires PlanUpTo(in_, j).Ok? && PlacedAt(in_, j).Some?
    ensures var changes := PlanUpTo(in_, n).value.changes;
            k < |changes| && IsBlockOf(in_, j, changes[k])
  {
    PrefixOk(in_, n, j + 1);
    NewChange(in_, j);
    k := |PlanUpTo(in_, j).value.changes|;
  }

  // ---- Blocks that share a name ------------------------------------------------------------

  /** A slot its namesake was given is where spec `j` was put as well, or no use to it. */
  ghost predicate Agrees(in_: Inputs, j: nat, slot: Slot)
    requires j < |in_.specs| && PlanUpTo(in_, j).Ok?
  {
    match PlacedAt(in_, j)
    case Some(own) => own == slot
    case None => !Usable(in_, j, BusyAt(in_, j), slot)
  }

  /** Specs that share a slot name, and so an event, can share it: those that were placed are in one
      place, and those that were not could not have used it. */
  ghost predicate NamesakesAgree(in_: Inputs) {
    forall i, j :: 0 <= i < |in_.specs| && 0 <= j < |in_.specs| ==> NamesakeAgrees(in_, i, j)
  }

  ghost predicate NamesakeAgrees(in_: Inputs, i: nat, j: nat)
    requires i < |in_.specs| && j < |in_.specs|
  {
    && PlanUpTo(in_, i).Ok? && PlanUpTo(in_, j).Ok?
    && (in_.Key(i) == in_.Key(j) && PlacedAt(in_, i).Some? ==> Agrees(in_, j, PlacedAt(in_, i).value))
  }

  /** With a name for each spec there is nothing to agree on. */
  lemma DistinctSlotsAgree(in_: Inputs)
    requires PlanLayout.DistinctSlots(in_.specs) && PlanUpTo(in_, |in_.specs|).Ok?
    ensures NamesakesAgree(in_)
  {
    forall i, j | 0 <= i < |in_.specs| && 0 <= j < |in_.specs| ensures NamesakeAgrees(in_, i, j) {
      PrefixOk(in_, |in_.specs|, i);
      PrefixOk(in_, |in_.specs|, j);
      PlanLayout.KeysDistinct(in_.App(), in_.specs[i].slot, in_.specs[j].slot);
    }
  }

  lemma AgreementIsOneSpan(in_: Inputs)
    requires PlanUpTo(in_, |in_.specs|).Ok? && NamesakesAgree(in_)
    ensures OneSpanPerKey(PlanUpTo(in_, |in_.specs|).value.changes)
  {
    var n := |in_.specs|;
    var changes := PlanUpTo(in_, n).value.changes;
    ChangesUpTo(in_, n);
    forall a, b | 0 <= a < b < |changes| && changes[a].logicalKey == changes[b].logicalKey
      ensures changes[a].Span() == changes[b].Span()
    {
      assert FromSpec(in_, n, changes[b]);
      var j :| 0 <= j < n && IsBlockOf(in_, j, changes[b]);
      PlanLayout.KeysDistinct(in_.App(), in_.specs[j].slot, in_.specs[j].slot);
      if a > 0 {
        assert FromSpec(in_, n, changes[a]);
        var i :| 0 <= i < n && IsBlockOf(in_, i, changes[a]);
        assert NamesakeAgrees(in_, i, j);
      }
    }
  }

  // ---- Planning again ------------------------------------------------------------------------

  function Again(in_: Inputs, after: seq<CalendarEvent>): Inputs { in_.(events := after) }

  function HeldFor(in_: Inputs, j: nat): Option<CalendarEvent>
    requires j < |in_.specs|
  {
    Own(in_.events, in_.App(), in_.Key(j))
  }

  ghost predicate SameLayout(a: seq<ScheduleChange>, b: seq<ScheduleChange>) {
    && |a| == |b|
    && forall k :: 0 <= k < |a| ==>
         a[k].Span() == b[k].Span() && a[k].logicalKey == b[k].logicalKey && b[k].op == KEEP
  }

  /** A calendar that agrees with the finished plan about everything the planner reads. */
  ghost predicate Reflects(in_: Inputs, after: seq<CalendarEvent>) {
    var app, interview := in_.App(), InterviewKey(in_.App());
    && Foreign(after, app) == Foreign(in_.events, app)
    && Own(after, app, interview).Some? && Own(after, app, interview).value.Span() == in_.request.Span()
    && forall j :: 0 <= j < |in_.specs| ==> HeldAsPlaced(in_, after, j)
  }

  /** The block of spec `j` is held where it was placed; if it was not, nothing usable is held. */
  ghost predicate HeldAsPlaced(in_: Inputs, after: seq<CalendarEvent>, j: nat)
    requires j < |in_.specs|
  {
    var held := HeldFor(Again(in_, after), j);
    && PlanUpTo(in_, j).Ok?
    && match PlacedAt(in_, j)
       case None => held.None? || !Usable(in_, j, BusyAt(in_, j), held.value.Span())
       case Some(slot) => held.Some? && held.value.Span() == slot
  }

  /** A block that was not placed is still known as the event it was, if any. */
  ghost predicate ReportedAlike(in_: Inputs, after: seq<CalendarEvent>, j: nat)
    requires j < |in_.specs|
  {
    PlanUpTo(in_, j).Ok? && PlacedAt(in_, j).None? ==> HeldFor(Again(in_, after), j) == HeldFor(in_, j)
  }

  /** One step of planning again, from a plan laid out like the first one. */
  lemma ReplanSpec(in_: Inputs, after: seq<CalendarEvent>, j: nat)
    requires j < |in_.specs| && PlanUpTo(in_, j + 1).Ok? && PlanUpTo(in_, j).Ok?
    requires Foreign(after, in_.App()) == Foreign(in_.events, in_.App()) && HeldAsPlaced(in_, after, j)
    requires PlanUpTo(Again(in_, after), j).Ok?
    requires SameLayout(PlanUpTo(in_, j).value.changes, PlanUpTo(Again(in_, after), j).value.changes)
    ensures PlanUpTo(Again(in_, after), j + 1).Ok? && PlacedAt(Again(in_, after), j) == PlacedAt(in_, j)
    ensures SameLayout(PlanUpTo(in_, j + 1).value.changes, PlanUpTo(Again(in_, after), j + 1).value.changes)
  {
    var again := Again(in_, after);
    assert Spans(PlanUpTo(again, j).value.changes) == Spans(PlanUpTo(in_, j).value.changes);
    assert again.ForeignSpans() == in_.ForeignSpans() && again.WindowOf(j) == in_.WindowOf(j);
    assert BusyAt(again, j) == BusyAt(in_, j);
    assert PlacedAt(again, j) == PlacedAt(in_, j);
    NewChange(in_, j);
    assert PlanUpTo(again, j + 1).Ok?;
    NewChange(again, j);
  }

  ghost predicate StaysPut(in_: Inputs, after: seq<CalendarEvent>, j: nat)
    requires j < |in_.specs|
  {
    && PlanUpTo(in_, j).Ok? && PlanUpTo(Again(in_, after), j).Ok?
    && PlacedAt(Again(in_, after), j) == PlacedAt(in_, j)
  }

  lemma ReplanStart(in_: Inputs, after: seq<CalendarEvent>)
    requires Reflects(in_, after)
    ensures SameLayout(PlanUpTo(in_, 0).value.changes, PlanUpTo(Again(in_, after), 0).value.changes)
  {
  }

  lemma ReflectsAt(in_: Inputs, after: seq<CalendarEvent>, j: nat)
    requires Reflects(in_, after) && j < |in_.specs|
    ensures Foreign(after, in_.App()) == Foreign(in_.events, in_.App())
    ensures HeldAsPlaced(in_, after, j)
  {
  }

  lemma {:induction false} ReplanUpTo(in_: Inputs, after: seq<CalendarEvent>, n: nat)
    requires n <= |in_.specs| && PlanUpTo(in_, n).Ok? && Reflects(in_, after)
    ensures PlanUpTo(Again(in_, after), n).Ok?
    ensures SameLayout(PlanUpTo(in_, n).value.changes, PlanUpTo(Again(in_, after), n).value.changes)
    decreases n
  {
    if n == 0 {
      ReplanStart(in_, after);
    } else {
      PrefixOk(in_, n, n - 1);
      ReflectsAt(in_, after, n - 1);
      ReplanUpTo(in_, after, n - 1);
      ReplanSpec(in_, after, n - 1);
    }
  }

  lemma EachStaysPut(in_: Inputs, after: seq<CalendarEvent>, j: nat)
    requires PlanUpTo(in_, |in_.specs|).Ok? && Reflects(in_, after) && j < |in_.specs|
    ensures StaysPut(in_, after, j)
  {
    PrefixOk(in_, |in_.specs|, j + 1);
    ReplanUpTo(in_, after, j);
    ReplanSpec(in_, after, j);
  }

  lemma {:induction false} ReplanReportsUpTo(in_: Inputs, after: seq<CalendarEvent>, n: nat)
    requires n <= |in_.specs| && PlanUpTo(in_, n).Ok? && PlanUpTo(Again(in_, after), n).Ok?
    requires Foreign(after, in_.App()) == Foreign(in_.events, in_.App())
    requires forall j :: 0 <= j < n ==> StaysPut(in_, after, j) && ReportedAlike(in_, after, j)
    ensures PlanUpTo(in_, n).value.conflicts == PlanUpTo(Again(in_, after), n).value.conflicts
    decreases n
  {
    if n > 0 {
      assert StaysPut(in_, after, n - 1) && ReportedAlike(in_, after, n - 1);
      ReplanReportsUpTo(in_, after, n - 1);
    }
  }

  // ---- The written calendar reflects the plan exactly if namesakes agree ------------------------

  /** There is a plan, and the means to write it. */
  ghost predicate CanWrite(in_: Inputs, grants: seq<Grant>) {
    && PlanInterviewSchedule(in_).Ok? && Identified(in_.events)
    && |PlanInterviewSchedule(in_).value.changes| == |grants|
    && Fresh(in_.events, PlanInterviewSchedule(in_).value.changes, grants)
  }

  predicate StillAhead(in_: Inputs) { in_.now < in_.request.startsAt }

  /** The calendar once the whole plan is written. */
  function WrittenCalendar(in_: Inputs, grants: seq<Grant>): seq<CalendarEvent>
    requires PlanInterviewSchedule(in_).Ok? && |PlanInterviewSchedule(in_).value.changes| == |grants|
  {
    ApplyUpTo(in_.events, in_.App(), PlanInterviewSchedule(in_).value.changes, grants, |grants|)
  }

  lemma HeldAfterWriting(in_: Inputs, grants: seq<Grant>, key: string)
    requires CanWrite(in_, grants) && StillAhead(in_)
    ensures var changes := PlanUpTo(in_, |in_.specs|).value.changes;
            && Foreign(WrittenCalendar(in_, grants), in_.App()) == Foreign(in_.events, in_.App())
            && WrittenKey(in_.events, WrittenCalendar(in_, grants), in_.App(), changes, |changes|, key)
  {
    ChangesUpTo(in_, |in_.specs|);
    WritesUpTo(in_.events, in_.App(), PlanUpTo(in_, |in_.specs|).value.changes, grants, |grants|);
  }

  lemma SpecIsReflected(in_: Inputs, grants: seq<Grant>, j: nat)
    requires CanWrite(in_, grants) && StillAhead(in_) && NamesakesAgree(in_) && j < |in_.specs|
    ensures PlanUpTo(in_, j).Ok? && HeldAsPlaced(in_, WrittenCalendar(in_, grants), j)
  {
    var n := |in_.specs|;
    var changes := PlanUpTo(in_, n).value.changes;
    assert NamesakeAgrees(in_, j, j);
    HeldAfterWriting(in_, grants, in_.Key(j));
    AgreementIsOneSpan(in_);
    ChangesUpTo(in_, n);
    if PlacedAt(in_, j).Some? {
      var k := PlacedIsPlanned(in_, n, j);
    } else if Mentions(changes, |changes|, in_.Key(j)) {
      var k :| 0 <= k < |changes| && changes[k].logicalKey == in_.Key(j);
      PlanLayout.KeysDistinct(in_.App(), in_.specs[j].slot, in_.specs[j].slot);
      assert FromSpec(in_, n, changes[k]);
      var i :| 0 <= i < n && IsBlockOf(in_, i, changes[k]);
      assert NamesakeAgrees(in_, i, j);
    }
  }

  /** What is written is reflected, when namesakes agree. */
  lemma WrittenPlanIsReflected(in_: Inputs, grants: seq<Grant>)
    requires CanWrite(in_, grants) && StillAhead(in_) && NamesakesAgree(in_)
    ensures Reflects(in_, WrittenCalendar(in_, grants))
  {
    var changes := PlanUpTo(in_, |in_.specs|).value.changes;
    ChangesUpTo(in_, |in_.specs|);
    AgreementIsOneSpan(in_);
    HeldAfterWriting(in_, grants, InterviewKey(in_.App()));
    assert Mentions(changes, |changes|, InterviewKey(in_.App()));
    forall j | 0 <= j < |in_.specs|
      ensures PlanUpTo(in_, j).Ok? && HeldAsPlaced(in_, WrittenCalendar(in_, grants), j)
    {
      SpecIsReflected(in_, grants, j);
    }
  }

  /** Planning again over `after` leaves every block where the plan put it, and writes nothing. */
  ghost predicate Settles(in_: Inputs, after: seq<CalendarEvent>)
    requires PlanUpTo(in_, |in_.specs|).Ok?
  {
    var again := Again(in_, after);
    && PlanUpTo(again, |in_.specs|).Ok?
    && (forall k :: 0 <= k < |PlanUpTo(again, |in_.specs|).value.changes| ==>
          PlanUpTo(again, |in_.specs|).value.changes[k].op == KEEP)
    && forall j :: 0 <= j < |in_.specs| ==> StaysPut(in_, after, j)
  }

  /** While each block stays put, the same slots are booked. */
  lemma {:induction false} SameBusy(in_: Inputs, after: seq<CalendarEvent>, n: nat)
    requires n <= |in_.specs| && PlanUpTo(in_, n).Ok? && PlanUpTo(Again(in_, after), n).Ok?
    requires forall j :: 0 <= j < n ==> StaysPut(in_, after, j)
    ensures Spans(PlanUpTo(in_, n).value.changes) == Spans(PlanUpTo(Again(in_, after), n).value.changes)
    decreases n
  {
    if n > 0 {
      assert StaysPut(in_, after, n - 1);
      SameBusy(in_, after, n - 1);
      NewChange(in_, n - 1);
      NewChange(Again(in_, after), n - 1);
      SpansSnoc(PlanUpTo(in_, n - 1).value.changes, PlanUpTo(in_, n).value.changes);
      SpansSnoc(PlanUpTo(Again(in_, after), n - 1).value.changes, PlanUpTo(Again(in_, after), n).value.changes);
    }
  }

  lemma SpansSnoc(before: seq<ScheduleChange>, after: seq<ScheduleChange>)
    requires after == before || (|after| == |before| + 1 && after[..|before|] == before)
    ensures Spans(after) == if after == before then Spans(before) else Spans(before) + [after[|before|].Span()]
  {
  }

  /** A block that stays put unwritten is held there. */
  lemma KeptIsHeld(in_: Inputs, after: seq<CalendarEvent>, i: nat)
    requires PlanUpTo(in_, |in_.specs|).Ok? && Settles(in_, after) && i < |in_.specs|
    requires StaysPut(in_, after, i) && PlacedAt(in_, i).Some?
    ensures var held := HeldFor(Again(in_, after), i);
            held.Some? && held.value.Span() == PlacedAt(in_, i).value
  {
    var again := Again(in_, after);
    var k := PlacedIsPlanned(again, |in_.specs|, i);
    ChangesUpTo(again, |in_.specs|);
    assert Reconciles(PlanUpTo(again, |in_.specs|).value.changes[k], HeldFor(again, i));
  }

  lemma SettlingNeedsAgreement(in_: Inputs, after: seq<CalendarEvent>, i: nat, j: nat)
    requires PlanUpTo(in_, |in_.specs|).Ok? && Settles(in_, after)
    requires Foreign(after, in_.App()) == Foreign(in_.events, in_.App()) && i < |in_.specs| && j < |in_.specs|
    ensures NamesakeAgrees(in_, i, j)
  {
    assert StaysPut(in_, after, i) && StaysPut(in_, after, j);
    if in_.Key(i) == in_.Key(j) && PlacedAt(in_, i).Some? {
      KeptIsHeld(in_, after, i);
      if PlacedAt(in_, j).Some? {
        KeptIsHeld(in_, after, j);
      } else {
        SameBusy(in_, after, j);
        assert BusyAt(Again(in_, after), j) == BusyAt(in_, j);
      }
    }
  }

  /** Plan, write, plan again at the same moment: every block stays where the first plan put it and
      nothing is left to write, if and only if specs that share a slot name can share its event. */
  lemma ReplanningSettlesExactly(in_: Inputs, grants: seq<Grant>)
    requires CanWrite(in_, grants) && StillAhead(in_)
    ensures Settles(in_, WrittenCalendar(in_, grants)) <==> NamesakesAgree(in_)
  {
    var after := WrittenCalendar(in_, grants);
    if NamesakesAgree(in_) {
      WrittenPlanIsReflected(in_, grants);
      ReplanUpTo(in_, after, |in_.specs|);
      forall j | 0 <= j < |in_.specs| ensures StaysPut(in_, after, j) { EachStaysPut(in_, after, j); }
    }
    if Settles(in_, after) {
      HeldAfterWriting(in_, grants, "");
      forall i, j | 0 <= i < |in_.specs| && 0 <= j < |in_.specs| ensures NamesakeAgrees(in_, i, j) {
        SettlingNeedsAgreement(in_, after, i, j);
      }
    }
  }

  /** With a slot name for each spec it always settles, and reports the same conflicts. */
  lemma ReplanningIsAFixpoint(in_: Inputs, grants: seq<Grant>)
    requires PlanLayout.DistinctSlots(in_.specs) && CanWrite(in_, grants)
    ensures var plan := PlanInterviewSchedule(in_).value;
            var again := PlanInterviewSchedule(Again(in_, WrittenCalendar(in_, grants)));
            again.Ok? && SameLayout(plan.changes, again.value.changes) && again.value.conflicts == plan.conflicts
  {
    if StillAhead(in_) {
      DistinctSlotsAgree(in_);
      WrittenPlanIsReflected(in_, grants);
      ReplanUpTo(in_, WrittenCalendar(in_, grants), |in_.specs|);
      forall j | 0 <= j < |in_.specs| ensures ReportedAlike(in_, WrittenCalendar(in_, grants), j) {
        HeldAfterWriting(in_, grants, in_.Key(j));
        if PlanUpTo(in_, j).Ok? && PlacedAt(in_, j).None? { NotMentioned(in_, j); }
      }
      forall j | 0 <= j < |in_.specs| ensures StaysPut(in_, WrittenCalendar(in_, grants), j) {
        EachStaysPut(in_, WrittenCalendar(in_, grants), j);
      }
      ReplanReportsUpTo(in_, WrittenCalendar(in_, grants), |in_.specs|);
    }
  }

  lemma BlockIsOfItsSpec(in_: Inputs, j: nat, change: ScheduleChange)
    requires PlanLayout.DistinctSlots(in_.specs) && j < |in_.specs| && change.logicalKey == in_.Key(j)
    requires FromSpec(in_, |in_.specs|, change)
    ensures IsBlockOf(in_, j, change)
  {
    var i :| 0 <= i < |in_.specs| && IsBlockOf(in_, i, change);
    PlanLayout.KeysDistinct(in_.App(), in_.specs[i].slot, in_.specs[j].slot);
  }

  lemma NotMentioned(in_: Inputs, j: nat)
    requires PlanLayout.DistinctSlots(in_.specs) && PlanUpTo(in_, |in_.specs|).Ok? && j < |in_.specs|
    requires PlanUpTo(in_, j).Ok? && PlacedAt(in_, j).None?
    ensures var changes := PlanUpTo(in_, |in_.specs|).value.changes;
            !Mentions(changes, |changes|, in_.Key(j))
  {
    var changes := PlanUpTo(in_, |in_.specs|).value.changes;
    ChangesUpTo(in_, |in_.specs|);
    PlanLayout.KeysDistinct(in_.App(), in_.specs[j].slot, in_.specs[j].slot);
    forall k | 0 <= k < |changes| ensures changes[k].logicalKey != in_.Key(j) {
      if k > 0 && changes[k].logicalKey == in_.Key(j) { BlockIsOfItsSpec(in_, j, changes[k]); }
    }
  }

  // ---- One name, two places ------------------------------------------------------------------------

  /** Two changes that put one event in two places are never both kept: whatever is then done to the
      calendar, planning again changes the layout or still writes. */
  lemma OneEventTwoPlacesNeverStays(in_: Inputs, after: seq<CalendarEvent>, i: nat, k: nat)
    requires PlanInterviewSchedule(in_).Ok? && PlanInterviewSchedule(Again(in_, after)).Ok?
    requires var changes := PlanInterviewSchedule(in_).value.changes;
             && i < k < |changes| && changes[i].logicalKey == changes[k].logicalKey
             && changes[i].Span() != changes[k].Span()
    ensures !SameLayout(PlanInterviewSchedule(in_).value.changes,
                        PlanInterviewSchedule(Again(in_, after)).value.changes)
  {
    var again := PlanInterviewSchedule(Again(in_, after)).value.changes;
    ChangesUpTo(Again(in_, after), |in_.specs|);
    if k < |again| {
      assert Reconciles(again[i], Own(after, in_.App(), again[i].logicalKey));
      assert Reconciles(again[k], Own(after, in_.App(), again[k].logicalKey));
    }
  }

  // ---- Specs that cannot share a name --------------------------------------------------------------

  const INTERVIEW_AT_100 := InterviewRequest("a", 100, 1, "Interview")

  function Planning(specs: seq<PrepBlockSpec>): Inputs {
    Inputs(INTERVIEW_AT_100, [], 0, specs, WorkingHours(0, 1, 0))
  }

  lemma PlanningHasNothingBooked(specs: seq<PrepBlockSpec>)
    ensures Planning(specs).ForeignSpans() == [] && Planning(specs).App() == "a"
    ensures PlanUpTo(Planning(specs), 0).Ok? && Spans(PlanUpTo(Planning(specs), 0).value.changes) == [Slot(100, 101)]
  {
    assert Foreign([], "a") == [];
  }

  /** Two specs with one name and room for both are put in two places. */
  lemma SharedNameTwoPlaces()
    ensures var spec := PrepBlockSpec("prep", "Prep", 1, 0, 10, false);
            var in_ := Planning([spec, spec]);
            && PlanInterviewSchedule(in_).Ok? && |PlanInterviewSchedule(in_).value.changes| == 3
            && PlanInterviewSchedule(in_).value.changes[1].logicalKey
               == PlanInterviewSchedule(in_).value.changes[2].logicalKey
            && PlanInterviewSchedule(in_).value.changes[1].Span() == Slot(99, 100)
            && PlanInterviewSchedule(in_).value.changes[2].Span() == Slot(98, 99)
  {
    var spec := PrepBlockSpec("prep", "Prep", 1, 0, 10, false);
    var in_ := Planning([spec, spec]);
    PlanningHasNothingBooked([spec, spec]);
    var w := Window(1, 90, 100, None);
    assert in_.WindowOf(0) == w && in_.WindowOf(1) == w;
    assert OneRound(w, [Slot(100, 101)], 100) == Found(Slot(99, 100));
    assert BusyAt(in_, 0) == [Slot(100, 101)];
    assert LatestFreeSlot(w, [Slot(100, 101)]) == Some(Slot(99, 100));
    assert PlacedAt(in_, 0) == Some(Slot(99, 100));
    NewChange(in_, 0);
    SpansSnoc(PlanUpTo(in_, 0).value.changes, PlanUpTo(in_, 1).value.changes);
    var busy := [Slot(100, 101), Slot(99, 100)];
    assert BusyAt(in_, 1) == busy;
    FirstBlockerIsEarliest(busy, Slot(99, 100));
    FirstBlockerIsEarliest(busy, Slot(98, 99));
    assert Overlaps(Slot(99, 100), busy[1]);
    assert OneRound(w, busy, 100) == Blocked(99);
    assert OneRound(w, busy, 99) == Found(Slot(98, 99));
    assert LatestFreeSlot(w, busy) == Some(Slot(98, 99));
    assert PlacedAt(in_, 1) == Some(Slot(98, 99));
    NewChange(in_, 1);
  }

  /** A long block with no room for it, and a short one with the same name. */
  const LONG_AND_SHORT := Planning([PrepBlockSpec("prep", "Long", 2, 1, 2, false),
                                    PrepBlockSpec("prep", "Short", 1, 1, 10, false)])

  /** Distinct changes are not enough: the long block, which found no place, keeps the event its short
      namesake was given, and pushes the short one out. */
  lemma UnplacedNamesakeTakesOver(grants: seq<Grant>)
    requires CanWrite(LONG_AND_SHORT, grants)
    ensures var again := PlanInterviewSchedule(Again(LONG_AND_SHORT, WrittenCalendar(LONG_AND_SHORT, grants)));
            && |PlanInterviewSchedule(LONG_AND_SHORT).value.changes| == 2
            && again.Ok? && |again.value.changes| == 3
  {
    ShortIsPlaced();
    ShortIsHeld(grants);
    LongTakesOver(WrittenCalendar(LONG_AND_SHORT, grants));
  }

  lemma ShortIsPlaced()
    ensures PlanUpTo(LONG_AND_SHORT, 1).Ok? && PlacedAt(LONG_AND_SHORT, 0) == None
    ensures PlacedAt(LONG_AND_SHORT, 1) == Some(Slot(98, 99))
    ensures PlanUpTo(LONG_AND_SHORT, 2).Ok? && |PlanUpTo(LONG_AND_SHORT, 2).value.changes| == 2
  {
    var in_, busy := LONG_AND_SHORT, [Slot(100, 101)];
    PlanningHasNothingBooked(in_.specs);
    assert in_.WindowOf(0) == Window(2, 98, 99, None) && in_.WindowOf(1) == Window(1, 90, 99, None);
    assert BusyAt(in_, 0) == busy;
    assert OneRound(in_.WindowOf(0), busy, 99) == GaveUp;
    assert LatestFreeSlot(in_.WindowOf(0), busy) == None;
    assert PlacedAt(in_, 0) == None;
    NewChange(in_, 0);
    assert BusyAt(in_, 1) == busy;
    FirstBlockerIsEarliest(busy, Slot(98, 99));
    assert OneRound(in_.WindowOf(1), busy, 99) == Found(Slot(98, 99));
    assert LatestFreeSlot(in_.WindowOf(1), busy) == Some(Slot(98, 99));
    NewChange(in_, 1);
  }

  lemma ShortIsAlone()
    requires PlanUpTo(LONG_AND_SHORT, 2).Ok? && |PlanUpTo(LONG_AND_SHORT, 2).value.changes| == 2
    ensures OneSpanPerKey(PlanUpTo(LONG_AND_SHORT, 2).value.changes)
  {
    ChangesUpTo(LONG_AND_SHORT, 2);
    PlanLayout.KeysDistinct("a", "prep", "prep");
    var changes := PlanUpTo(LONG_AND_SHORT, 2).value.changes;
    assert FromSpec(LONG_AND_SHORT, 2, changes[1]);
  }

  lemma ShortIsHeld(grants: seq<Grant>)
    requires CanWrite(LONG_AND_SHORT, grants)
    ensures var held := HeldFor(Again(LONG_AND_SHORT, WrittenCalendar(LONG_AND_SHORT, grants)), 1);
            held.Some? && held.value.Span() == Slot(98, 99)
    ensures Foreign(WrittenCalendar(LONG_AND_SHORT, grants), "a") == []
  {
    var in_ := LONG_AND_SHORT;
    ShortIsPlaced();
    HeldAfterWriting(in_, grants, in_.Key(1));
    var k := PlacedIsPlanned(in_, 2, 1);
    ShortIsAlone();
  }

  lemma LongTakesOver(after: seq<CalendarEvent>)
    requires HeldFor(Again(LONG_AND_SHORT, after), 1).Some? && Foreign(after, "a") == []
    requires HeldFor(Again(LONG_AND_SHORT, after), 1).value.Span() == Slot(98, 99)
    ensures PlanUpTo(Again(LONG_AND_SHORT, after), 2).Ok?
    ensures |PlanUpTo(Again(LONG_AND_SHORT, after), 2).value.changes| == 3
  {
    var again := Again(LONG_AND_SHORT, after);
    ChangesUpTo(again, 0);
    assert BusyAt(again, 0) == [Slot(100, 101)] && HeldFor(again, 0) == HeldFor(again, 1);
    assert PlacedAt(again, 0) == Some(Slot(98, 99));
    NewChange(again, 0);
    SpansSnoc(PlanUpTo(again, 0).value.changes, PlanUpTo(again, 1).value.changes);
    assert BusyAt(again, 1) == [Slot(100, 101), Slot(98, 99)];
    ShortIsPushedOut();
    assert PlacedAt(again, 1) == Some(Slot(97, 98));
    NewChange(again, 1);
  }

  lemma ShortIsPushedOut()
    ensures var w, busy := Window(1, 90, 99, None), [Slot(100, 101), Slot(98, 99)];
            !Free(w, busy, Slot(98, 99)) && LatestFreeSlot(w, busy) == Some(Slot(97, 98))
  {
    var w, busy := Window(1, 90, 99, None), [Slot(100, 101), Slot(98, 99)];
    FirstBlockerIsEarliest(busy, Slot(98, 99));
    FirstBlockerIsEarliest(busy, Slot(97, 98));
    assert Overlaps(Slot(98, 99), busy[1]);
    assert OneRound(w, busy, 99) == Blocked(98);
    assert OneRound(w, busy, 98) == Found(Slot(97, 98));
  }
}
