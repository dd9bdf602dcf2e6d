/** Where a plan puts its blocks, and what it reports about the ones it cannot put anywhere. */
module PlanLayout {
  import opened Prelude
  import opened WorkingDay
  import opened SlotSearch
  import opened InterviewPlan

  /** No spec asks for a block of negative length. Two may share a slot name. */
  ghost predicate WellFormed(in_: Inputs) {
    && in_.Valid()
    && forall j :: 0 <= j < |in_.specs| ==> 0 <= in_.specs[j].duration
  }

  ghost predicate DistinctSlots(specs: seq<PrepBlockSpec>) {
    forall i, j :: 0 <= i < j < |specs| ==> specs[i].slot != specs[j].slot
  }

  lemma KeysDistinct(application: string, a: string, b: string)
    ensures PrepKey(application, a) != InterviewKey(application)
    ensures PrepKey(application, a) == PrepKey(application, b) ==> a == b
  {
    assert PrepKey(application, a)[0] == 'p' && InterviewKey(application)[0] == 'i';
    var n := |"prep:" + application + ":"|;
    assert PrepKey(application, a)[n..] == a && PrepKey(application, b)[n..] == b;
  }

  /** All that was booked when the block at position `k` of the plan was placed. */
  ghost function BookedBefore(in_: Inputs, changes: seq<ScheduleChange>, k: nat): seq<Slot>
    requires k <= |changes|
  {
    in_.ForeignSpans() + Spans(changes[..k])
  }

  /** Position `k` holds the block of spec `j`: history left alone, a usable block kept, or the
      latest free slot around everything booked so far. */
  ghost predicate WellPlaced(in_: Inputs, j: nat, changes: seq<ScheduleChange>, k: nat)
    requires j < |in_.specs| && k < |changes|
  {
    var change, window, busy := changes[k], in_.WindowOf(j), BookedBefore(in_, changes, k);
    var existing := Own(in_.events, in_.App(), in_.Key(j));
    && change.role == PREP && change.logicalKey == in_.Key(j)
    && (change.op == CREATE <==> existing.None?)
    && (change.op == KEEP <==> existing.Some? && existing.value.Span() == change.Span())
    && (change.endsAt > in_.now ==> Free(window, busy, change.Span()))
    && (change.op != KEEP ==> LatestFree(window, busy, change.Span()))
  }

  /** Position `k` holds the block of one of the first `n` specs. */
  ghost predicate Settled(in_: Inputs, n: nat, changes: seq<ScheduleChange>, k: nat)
    requires n <= |in_.specs| && k < |changes|
  {
    exists j :: 0 <= j < n && WellPlaced(in_, j, changes, k)
  }

  lemma PlaceIsWellPlaced(in_: Inputs, j: nat, changes: seq<ScheduleChange>)
    requires WellFormed(in_) && j < |in_.specs| && !in_.TooLong(j)
    requires Place(in_, j, Own(in_.events, in_.App(), in_.Key(j)), BookedBefore(in_, changes, |changes|)).Some?
    ensures var existing := Own(in_.events, in_.App(), in_.Key(j));
            var slot := Place(in_, j, existing, BookedBefore(in_, changes, |changes|)).value;
            WellPlaced(in_, j, changes + [Change(in_.Key(j), PREP, in_.specs[j].title, slot, existing)], |changes|)
  {
    var existing := Own(in_.events, in_.App(), in_.Key(j));
    var slot := Place(in_, j, existing, BookedBefore(in_, changes, |changes|)).value;
    var after := changes + [Change(in_.Key(j), PREP, in_.specs[j].title, slot, existing)];
    assert after[..|changes|] == changes[..|changes|];
    LatestFreeSlotIsExact(in_.WindowOf(j), BookedBefore(in_, changes, |changes|));
  }

  lemma SettledStays(in_: Inputs, n: nat, before: seq<ScheduleChange>, after: seq<ScheduleChange>, k: nat)
    requires n < |in_.specs| && k < |before| && before <= after && Settled(in_, n, before, k)
    ensures Settled(in_, n + 1, after, k)
  {
    assert after[..k] == before[..k];
    var j :| 0 <= j < n && WellPlaced(in_, j, before, k);
    assert WellPlaced(in_, j, after, k);
  }

  /** Every prep block in the plan is the block of some spec, placed as that spec asks. */
  lemma {:induction false} BlocksAreWellPlaced(in_: Inputs, n: nat)
    requires WellFormed(in_) && n <= |in_.specs| && PlanUpTo(in_, n).Ok?
    ensures var changes := PlanUpTo(in_, n).value.changes;
            && 1 <= |changes|
            && changes[0].logicalKey == InterviewKey(in_.App()) && changes[0].role == INTERVIEW
            && changes[0].Span() == in_.request.Span()
            && forall k :: 1 <= k < |changes| ==> Settled(in_, n, changes, k)
    decreases n
  {
    if n > 0 {
      BlocksAreWellPlaced(in_, n - 1);
      var before, after := PlanUpTo(in_, n - 1).value.changes, PlanUpTo(in_, n).value.changes;
      assert before[..|before|] == before;
      if |after| > |before| { PlaceIsWellPlaced(in_, n - 1, before); }
      forall k | 1 <= k < |after| ensures Settled(in_, n, after, k) {
        if k < |before| {
          SettledStays(in_, n - 1, before, after, k);
        } else {
          assert WellPlaced(in_, n - 1, after, k);
        }
      }
    }
  }

  /** Of any two planned events, the later block stays clear of the earlier one unless both are history. */
  lemma BlocksNeverOverlap(in_: Inputs, n: nat, i: nat, k: nat)
    requires WellFormed(in_) && n <= |in_.specs| && PlanUpTo(in_, n).Ok?
    requires in_.now < in_.request.startsAt
    requires i < k < |PlanUpTo(in_, n).value.changes|
    ensures var changes := PlanUpTo(in_, n).value.changes;
            Overlaps(changes[i].Span(), changes[k].Span()) ==>
              i > 0 && changes[i].endsAt <= in_.now && changes[k].endsAt <= in_.now
  {
    BlocksAreWellPlaced(in_, n);
    var changes := PlanUpTo(in_, n).value.changes;
    assert Settled(in_, n, changes, k);
    var j :| 0 <= j < n && WellPlaced(in_, j, changes, k);
    var busy := BookedBefore(in_, changes, k);
    if changes[k].endsAt > in_.now {
      assert busy[|in_.ForeignSpans()| + i] == changes[i].Span();
    } else if i > 0 && changes[i].endsAt > in_.now {
      assert Settled(in_, n, changes, i);
      var j' :| 0 <= j' < n && WellPlaced(in_, j', changes, i);
      assert in_.now <= changes[i].startsAt;
    }
  }

  /** A block still ahead overlaps nothing that anyone else has booked. */
  lemma BlocksAvoidForeignEvents(in_: Inputs, n: nat, k: nat, f: nat)
    requires WellFormed(in_) && n <= |in_.specs| && PlanUpTo(in_, n).Ok?
    requires 1 <= k < |PlanUpTo(in_, n).value.changes| && f < |Foreign(in_.events, in_.App())|
    requires PlanUpTo(in_, n).value.changes[k].endsAt > in_.now
    ensures !Overlaps(PlanUpTo(in_, n).value.changes[k].Span(), Foreign(in_.events, in_.App())[f].Span())
  {
    BlocksAreWellPlaced(in_, n);
    var changes := PlanUpTo(in_, n).value.changes;
    assert Settled(in_, n, changes, k);
    var j :| 0 <= j < n && WellPlaced(in_, j, changes, k);
    assert BookedBefore(in_, changes, k)[f] == Foreign(in_.events, in_.App())[f].Span();
  }

  // ---- Blocks in the specs' own terms ---------------------------------------------------------------------

  /** The one ends before the other begins. */
  predicate Clear(a: Slot, b: Slot) { a.to <= b.from || b.to <= a.from }

  /** Spec `j` may have this slot, beside what is planned before position `k` and what others have booked. */
  ghost predicate MayHave(in_: Inputs, j: nat, changes: seq<ScheduleChange>, k: nat, slot: Slot)
    requires j < |in_.specs| && k <= |changes|
  {
    var spec := in_.specs[j];
    && in_.now <= slot.from && in_.request.startsAt - spec.horizon <= slot.from
    && slot.to <= in_.request.startsAt - spec.lead
    && (spec.workingHoursOnly ==> in_.hours.Contains(slot.from, slot.to))
    && (forall i :: 0 <= i < k ==> Clear(slot, changes[i].Span()))
    && (forall e :: e in in_.events && e.busy && e.KeyFor(in_.request.applicationId).None? ==> Clear(slot, e.Span()))
  }

  /** As long as asked, and no other such slot ends later. */
  ghost predicate IsBest(in_: Inputs, j: nat, changes: seq<ScheduleChange>, k: nat, slot: Slot)
    requires j < |in_.specs| && k <= |changes|
  {
    var duration := in_.specs[j].duration;
    && MayHave(in_, j, changes, k, slot) && slot.to == slot.from + duration
    && forall other :: MayHave(in_, j, changes, k, other) && other.to == other.from + duration ==> other.to <= slot.to
  }

  /** Position `k` is the block of spec `j`, as it asks: left where it is while that is over or still
      allowed, and otherwise put where that ends latest. */
  ghost predicate AsAsked(in_: Inputs, j: nat, changes: seq<ScheduleChange>, k: nat)
    requires j < |in_.specs| && k < |changes|
  {
    var change, spec := changes[k], in_.specs[j];
    && change.logicalKey == "prep:" + in_.request.applicationId + ":" + spec.slot && change.role == PREP
    && match Own(in_.events, in_.request.applicationId, change.logicalKey)
       case None =>
         && change == ScheduleChange(CREATE, change.logicalKey, PREP, spec.title, change.startsAt, change.endsAt,
                                     None, None, None)
         && IsBest(in_, j, changes, k, change.Span())
       case Some(e) =>
         && change.eventId == Some(e.eventId) && change.etag == e.etag && change.previous == Some(e.Span())
         && change.title == (if e.title == "" then spec.title else e.title)
         && if e.endsAt <= in_.now || MayHave(in_, j, changes, k, e.Span())
            then change.op == KEEP && change.Span() == e.Span()
            else change.op == UPDATE && IsBest(in_, j, changes, k, change.Span())
  }

  lemma {:induction false} ForeignAre(events: seq<CalendarEvent>, application: string)
    ensures forall e :: e in Foreign(events, application) <==> e in events && e.busy && e.KeyFor(application).None?
  {
    if events != [] { ForeignAre(events[1..], application); }
  }

  lemma BookedIsClear(in_: Inputs, changes: seq<ScheduleChange>, k: nat, slot: Slot)
    requires k <= |changes|
    ensures (forall i :: 0 <= i < |BookedBefore(in_, changes, k)| ==> !Overlaps(slot, BookedBefore(in_, changes, k)[i]))
       <==> && (forall i :: 0 <= i < k ==> Clear(slot, changes[i].Span()))
            && (forall e :: e in in_.events && e.busy && e.KeyFor(in_.App()).None? ==> Clear(slot, e.Span()))
  {
    var foreign, busy := Foreign(in_.events, in_.App()), BookedBefore(in_, changes, k);
    ForeignAre(in_.events, in_.App());
    assert forall i :: 0 <= i < |foreign| ==> busy[i] == foreign[i].Span();
    assert forall i :: 0 <= i < k ==> busy[|foreign| + i] == changes[i].Span();
    if forall i :: 0 <= i < |busy| ==> !Overlaps(slot, busy[i]) {
      forall e | e in in_.events && e.busy && e.KeyFor(in_.App()).None? ensures Clear(slot, e.Span()) {
        var i :| 0 <= i < |foreign| && foreign[i] == e;
        assert !Overlaps(slot, busy[i]);
      }
      forall i | 0 <= i < k ensures Clear(slot, changes[i].Span()) { assert !Overlaps(slot, busy[|foreign| + i]); }
    }
  }

  lemma FreeIsAllowed(in_: Inputs, j: nat, changes: seq<ScheduleChange>, k: nat, slot: Slot)
    requires j < |in_.specs| && k <= |changes|
    ensures Free(in_.WindowOf(j), BookedBefore(in_, changes, k), slot) <==> MayHave(in_, j, changes, k, slot)
  {
    BookedIsClear(in_, changes, k, slot);
  }

  lemma LatestIsBest(in_: Inputs, j: nat, changes: seq<ScheduleChange>, k: nat, slot: Slot)
    requires j < |in_.specs| && k <= |changes|
    ensures LatestFree(in_.WindowOf(j), BookedBefore(in_, changes, k), slot) <==> IsBest(in_, j, changes, k, slot)
  {
    forall other { FreeIsAllowed(in_, j, changes, k, other); }
  }

  lemma PlacedAsAsked(in_: Inputs, j: nat, changes: seq<ScheduleChange>)
    requires WellFormed(in_) && j < |in_.specs| && !in_.TooLong(j)
    requires Place(in_, j, Own(in_.events, in_.App(), in_.Key(j)), BookedBefore(in_, changes, |changes|)).Some?
    ensures var existing := Own(in_.events, in_.App(), in_.Key(j));
            var slot := Place(in_, j, existing, BookedBefore(in_, changes, |changes|)).value;
            AsAsked(in_, j, changes + [Change(in_.Key(j), PREP, in_.specs[j].title, slot, existing)], |changes|)
  {
    var n := |changes|;
    var existing := Own(in_.events, in_.App(), in_.Key(j));
    var slot := Place(in_, j, existing, BookedBefore(in_, changes, n)).value;
    var after := changes + [Change(in_.Key(j), PREP, in_.specs[j].title, slot, existing)];
    assert after[..n] == changes[..n];
    LatestFreeSlotIsExact(in_.WindowOf(j), BookedBefore(in_, changes, n));
    LatestIsBest(in_, j, after, n, slot);
    if existing.Some? { FreeIsAllowed(in_, j, after, n, existing.value.Span()); }
  }

  ghost predicate SomeoneAsked(in_: Inputs, n: nat, changes: seq<ScheduleChange>, k: nat)
    requires n <= |in_.specs| && k < |changes|
  {
    exists j :: 0 <= j < n && AsAsked(in_, j, changes, k)
  }

  lemma AskedStays(in_: Inputs, j: nat, before: seq<ScheduleChange>, after: seq<ScheduleChange>, k: nat)
    requires j < |in_.specs| && k < |before| && before <= after && AsAsked(in_, j, before, k)
    ensures AsAsked(in_, j, after, k)
  {
    assert forall i :: 0 <= i <= k ==> after[i] == before[i];
    forall slot ensures MayHave(in_, j, after, k, slot) <==> MayHave(in_, j, before, k, slot) { }
  }

  /** Every prep block of a plan is as its spec asks, in the spec's own terms: after `now`, within the
      horizon, before the lead, in working hours if those are asked for, and clear of everything. */
  lemma {:induction false} BlocksAreAsAsked(in_: Inputs, n: nat, k: nat)
    requires WellFormed(in_) && n <= |in_.specs| && PlanUpTo(in_, n).Ok? && 1 <= k < |PlanUpTo(in_, n).value.changes|
    ensures SomeoneAsked(in_, n, PlanUpTo(in_, n).value.changes, k)
    decreases n
  {
    if n > 0 {
      var before, after := PlanUpTo(in_, n - 1).value.changes, PlanUpTo(in_, n).value.changes;
      assert before[..|before|] == before;
      if k < |before| {
        BlocksAreAsAsked(in_, n - 1, k);
        var j :| 0 <= j < n - 1 && AsAsked(in_, j, before, k);
        AskedStays(in_, j, before, after, k);
      } else {
        PlacedAsAsked(in_, n - 1, before);
        assert AsAsked(in_, n - 1, after, k);
      }
    }
  }

  /** The interview itself comes first, where it was asked for, as the event it is known by if any. */
  lemma {:induction false} InterviewIsAsAsked(in_: Inputs, n: nat)
    requires n <= |in_.specs| && PlanUpTo(in_, n).Ok?
    ensures |PlanUpTo(in_, n).value.changes| >= 1
    ensures var change, r := PlanUpTo(in_, n).value.changes[0], in_.request;
            && change.logicalKey == "interview:" + r.applicationId && change.role == INTERVIEW
            && change.startsAt == r.startsAt && change.endsAt == r.startsAt + r.duration
            && match Own(in_.events, r.applicationId, change.logicalKey)
               case None => change.op == CREATE && change.title == r.title && change.eventId.None?
                            && change.etag.None? && change.previous.None?
               case Some(e) =>
                 && change.op == (if e.startsAt == change.startsAt && e.endsAt == change.endsAt then KEEP else UPDATE)
                 && change.title == (if e.title == "" then r.title else e.title)
                 && change.eventId == Some(e.eventId) && change.etag == e.etag && change.previous == Some(e.Span())
    decreases n
  {
    if n > 0 {
      InterviewIsAsAsked(in_, n - 1);
      assert PlanUpTo(in_, n - 1).value.changes <= PlanUpTo(in_, n).value.changes;
    }
  }

  lemma {:induction false} OverlapsAreOverlaps(key: string, interview: Slot, foreign: seq<CalendarEvent>)
    ensures forall c :: c in OverlapConflicts(key, interview, foreign) ==> c.kind == INTERVIEW_OVERLAP
  {
    if foreign != [] { OverlapsAreOverlaps(key, interview, foreign[1..]); }
  }

  lemma {:induction false} StillAhead(in_: Inputs, n: nat)
    requires n <= |in_.specs| && PlanUpTo(in_, n).Ok?
    ensures forall c :: c in PlanUpTo(in_, n).value.conflicts ==> c.kind != INTERVIEW_IN_PAST
    decreases n
  {
    if n == 0 {
      OverlapsAreOverlaps(InterviewKey(in_.App()), in_.request.Span(), Foreign(in_.events, in_.App()));
    } else {
      StillAhead(in_, n - 1);
    }
  }

  /** An interview that has begun is reported, and nothing is planned for it; one that has not is never
      reported as past. */
  lemma PastInterviewsPlanNothing(in_: Inputs)
    requires PlanInterviewSchedule(in_).Ok?
    ensures var plan := PlanInterviewSchedule(in_).value;
            if in_.request.startsAt <= in_.now then
              && plan.changes == []
              && plan.conflicts == [ScheduleConflict(INTERVIEW_IN_PAST, "interview:" + in_.request.applicationId, None)]
            else plan.changes != [] && forall c :: c in plan.conflicts ==> c.kind != INTERVIEW_IN_PAST
  {
    if in_.now < in_.request.startsAt {
      StillAhead(in_, |in_.specs|);
      InterviewIsAsAsked(in_, |in_.specs|);
    }
  }

  /** A spec that is not placed has no slot it may have, unless 500 of what was booked reach into its
      window; and a plan fails exactly for a block longer than the working day it must be in. */
  lemma NothingLeftMeansNothing(in_: Inputs, n: nat)
    requires WellFormed(in_) && n < |in_.specs| && PlanUpTo(in_, n).Ok?
    ensures var spec, changes, app := in_.specs[n], PlanUpTo(in_, n).value.changes, in_.request.applicationId;
            var key := "prep:" + app + ":" + spec.slot;
            var held := Own(in_.events, app, key);
            match PlanUpTo(in_, n + 1)
            case Err(_) => spec.workingHoursOnly && spec.duration > in_.hours.end - in_.hours.start
            case Ok(after) =>
              && !(spec.workingHoursOnly && spec.duration > in_.hours.end - in_.hours.start)
              && (after.changes == changes ==>
                    && after.conflicts == PlanUpTo(in_, n).value.conflicts
                       + [ScheduleConflict(PREP_UNPLACEABLE, key,
                                           if held.Some? then Some(held.value.eventId) else None)]
                    && (UnderCap(in_.WindowOf(n), BookedBefore(in_, changes, |changes|)) ==>
                          forall slot :: MayHave(in_, n, changes, |changes|, slot)
                            ==> slot.to != slot.from + spec.duration))
              && (after.changes != changes ==> after.conflicts == PlanUpTo(in_, n).value.conflicts)
  {
    var changes := PlanUpTo(in_, n).value.changes;
    assert changes[..|changes|] == changes;
    if !in_.TooLong(n) {
      LatestFreeSlotIsExact(in_.WindowOf(n), BookedBefore(in_, changes, |changes|));
      forall slot { FreeIsAllowed(in_, n, changes, |changes|, slot); }
    }
  }

  // ---- Accounting ---------------------------------------------------------------

  ghost function ChangesFor(changes: seq<ScheduleChange>, key: string): nat {
    if changes == [] then 0
    else ChangesFor(changes[..|changes| - 1], key) + if changes[|changes| - 1].logicalKey == key then 1 else 0
  }

  ghost function UnplaceableFor(conflicts: seq<ScheduleConflict>, key: string): nat {
    if conflicts == [] then 0
    else
      var last := conflicts[|conflicts| - 1];
      UnplaceableFor(conflicts[..|conflicts| - 1], key)
      + if last.kind.PREP_UNPLACEABLE? && last.logicalKey == key then 1 else 0
  }

  lemma {:induction false} OverlapsReported(key: string, interview: Slot, foreign: seq<CalendarEvent>)
    ensures forall c :: c in OverlapConflicts(key, interview, foreign) <==>
              exists f :: 0 <= f < |foreign| && Overlaps(interview, foreign[f].Span())
                          && c == ScheduleConflict(INTERVIEW_OVERLAP, key, Some(foreign[f].eventId))
  {
    if foreign != [] {
      OverlapsReported(key, interview, foreign[1..]);
      assert forall f :: 1 <= f < |foreign| ==> foreign[f] == foreign[1..][f - 1];
      assert forall f :: 0 <= f < |foreign[1..]| ==> foreign[1..][f] == foreign[f + 1];
    }
  }

  lemma {:induction false} OverlapsAreNotUnplaceable(key: string, interview: Slot, foreign: seq<CalendarEvent>,
      k: string)
    ensures UnplaceableFor(OverlapConflicts(key, interview, foreign), k) == 0
  {
    OverlapsReported(key, interview, foreign);
    NoneUnplaceable(OverlapConflicts(key, interview, foreign), k);
  }

  lemma {:induction false} NoneUnplaceable(conflicts: seq<ScheduleConflict>, k: string)
    requires forall c :: c in conflicts ==> c.kind.INTERVIEW_OVERLAP?
    ensures UnplaceableFor(conflicts, k) == 0
  {
    if conflicts != [] { NoneUnplaceable(conflicts[..|conflicts| - 1], k); }
  }

  lemma AppendChange(changes: seq<ScheduleChange>, change: ScheduleChange, key: string)
    ensures ChangesFor(changes + [change], key) == ChangesFor(changes, key) + if change.logicalKey == key then 1 else 0
  {
    assert (changes + [change])[..|changes|] == changes;
  }

  lemma AppendConflict(conflicts: seq<ScheduleConflict>, c: ScheduleConflict, key: string)
    ensures UnplaceableFor(conflicts + [c], key)
         == UnplaceableFor(conflicts, key) + if c.kind.PREP_UNPLACEABLE? && c.logicalKey == key then 1 else 0
  {
    assert (conflicts + [c])[..|conflicts|] == conflicts;
  }

  ghost function EntriesFor(plan: Plan, key: string): nat {
    ChangesFor(plan.changes, key) + UnplaceableFor(plan.conflicts, key)
  }

  lemma AccountedAtStart(in_: Inputs, j: nat)
    requires j < |in_.specs|
    ensures PlanUpTo(in_, 0).Ok? && EntriesFor(PlanUpTo(in_, 0).value, in_.Key(j)) == 0
  {
    var interview := InterviewKey(in_.App());
    var first := PlanUpTo(in_, 0).value.changes;
    KeysDistinct(in_.App(), in_.specs[j].slot, in_.specs[j].slot);
    OverlapsAreNotUnplaceable(interview, in_.request.Span(), Foreign(in_.events, in_.App()), in_.Key(j));
    assert first == [] + [first[0]];
    AppendChange([], first[0], in_.Key(j));
  }

  lemma AccountedByOne(in_: Inputs, n: nat, key: string)
    requires 0 < n <= |in_.specs| && PlanUpTo(in_, n).Ok?
    ensures PlanUpTo(in_, n - 1).Ok?
    ensures EntriesFor(PlanUpTo(in_, n).value, key)
         == EntriesFor(PlanUpTo(in_, n - 1).value, key) + if in_.Key(n - 1) == key then 1 else 0
  {
    var before, after := PlanUpTo(in_, n - 1).value, PlanUpTo(in_, n).value;
    if |after.changes| > |before.changes| {
      AppendChange(before.changes, after.changes[|before.changes|], key);
    } else {
      AppendConflict(before.conflicts, after.conflicts[|before.conflicts|], key);
    }
  }

  /** How many of the first `n` specs ask for a block under this key. */
  ghost function SpecsFor(in_: Inputs, n: nat, key: string): nat
    requires n <= |in_.specs|
  {
    if n == 0 then 0 else SpecsFor(in_, n - 1, key) + if in_.Key(n - 1) == key then 1 else 0
  }

  lemma {:induction false} AccountedUpTo(in_: Inputs, n: nat, j: nat)
    requires n <= |in_.specs| && j < |in_.specs| && PlanUpTo(in_, n).Ok?
    ensures EntriesFor(PlanUpTo(in_, n).value, in_.Key(j)) == SpecsFor(in_, n, in_.Key(j))
    decreases n
  {
    if n == 0 {
      AccountedAtStart(in_, j);
    } else {
      AccountedByOne(in_, n, in_.Key(j));
      AccountedUpTo(in_, n - 1, j);
    }
  }

  /** With a name for each spec, each key is asked for once. */
  lemma {:induction false} OneSpecEach(in_: Inputs, n: nat, j: nat)
    requires DistinctSlots(in_.specs) && n <= |in_.specs| && j < |in_.specs|
    ensures SpecsFor(in_, n, in_.Key(j)) == if j < n then 1 else 0
  {
    if n > 0 {
      OneSpecEach(in_, n - 1, j);
      KeysDistinct(in_.App(), in_.specs[n - 1].slot, in_.specs[j].slot);
    }
  }

  lemma {:induction false} ConflictsUpTo(in_: Inputs, n: nat)
    requires n <= |in_.specs| && PlanUpTo(in_, n).Ok?
    ensures forall j :: 0 <= j <= n ==> PlanUpTo(in_, j).Ok?
    ensures forall c :: c in PlanUpTo(in_, n).value.conflicts ==>
              || c in OverlapConflicts(InterviewKey(in_.App()), in_.request.Span(), Foreign(in_.events, in_.App()))
              || exists j :: 0 <= j < n && c == Unplaceable(in_.Key(j), Own(in_.events, in_.App(), in_.Key(j)))
                             && LatestFreeSlot(in_.WindowOf(j), in_.ForeignSpans()
                                 + Spans(PlanUpTo(in_, j).value.changes)).None?
    ensures OverlapConflicts(InterviewKey(in_.App()), in_.request.Span(), Foreign(in_.events, in_.App()))
            <= PlanUpTo(in_, n).value.conflicts
    decreases n
  {
    if n > 0 { ConflictsUpTo(in_, n - 1); }
  }

  /** A finished plan has as many changes and PREP_UNPLACEABLE conflicts under a prep key as there are
      specs for it, so exactly one or the other for a spec with a name of its own; and the interview
      overlaps reported are exactly the foreign busy events that overlap. */
  lemma PlanAccountsForEverything(in_: Inputs, plan: Plan)
    requires in_.now < in_.request.startsAt && PlanInterviewSchedule(in_) == Ok(plan)
    ensures forall j :: 0 <= j < |in_.specs| ==>
              ChangesFor(plan.changes, in_.Key(j)) + UnplaceableFor(plan.conflicts, in_.Key(j))
              == SpecsFor(in_, |in_.specs|, in_.Key(j))
    ensures DistinctSlots(in_.specs) ==>
              forall j :: 0 <= j < |in_.specs| ==> SpecsFor(in_, |in_.specs|, in_.Key(j)) == 1
    ensures forall id :: ScheduleConflict(INTERVIEW_OVERLAP, InterviewKey(in_.App()), Some(id)) in plan.conflicts <==>
              exists f :: 0 <= f < |Foreign(in_.events, in_.App())|
                          && Foreign(in_.events, in_.App())[f].eventId == id
                          && Overlaps(in_.request.Span(), Foreign(in_.events, in_.App())[f].Span())
  {
    forall j | 0 <= j < |in_.specs|
      ensures ChangesFor(plan.changes, in_.Key(j)) + UnplaceableFor(plan.conflicts, in_.Key(j))
           == SpecsFor(in_, |in_.specs|, in_.Key(j))
      ensures DistinctSlots(in_.specs) ==> SpecsFor(in_, |in_.specs|, in_.Key(j)) == 1
    {
      AccountedUpTo(in_, |in_.specs|, j);
      if DistinctSlots(in_.specs) { OneSpecEach(in_, |in_.specs|, j); }
    }
    ConflictsUpTo(in_, |in_.specs|);
    var key, foreign := InterviewKey(in_.App()), Foreign(in_.events, in_.App());
    OverlapsReported(key, in_.request.Span(), foreign);
    forall id
      ensures ScheduleConflict(INTERVIEW_OVERLAP, key, Some(id)) in plan.conflicts <==>
                exists f :: 0 <= f < |foreign| && foreign[f].eventId == id
                    && Overlaps(in_.request.Span(), foreign[f].Span())
    {
      var c := ScheduleConflict(INTERVIEW_OVERLAP, key, Some(id));
      var reported := OverlapConflicts(key, in_.request.Span(), foreign);
      assert c in plan.conflicts <==> c in reported;
    }
  }

  /** A block reported unplaceable has no free slot at all around what was booked by then, or 500 of
      what was booked reach into its window. */
  lemma UnplaceableMeansNoSlot(in_: Inputs, plan: Plan, c: ScheduleConflict)
    requires WellFormed(in_) && in_.now < in_.request.startsAt && PlanInterviewSchedule(in_) == Ok(plan)
    requires c in plan.conflicts && c.kind.PREP_UNPLACEABLE?
    ensures exists j :: 0 <= j < |in_.specs| && c.logicalKey == in_.Key(j) && PlanUpTo(in_, j).Ok?
              && var busy := in_.ForeignSpans() + Spans(PlanUpTo(in_, j).value.changes);
                 UnderCap(in_.WindowOf(j), busy) ==> NoneFree(in_.WindowOf(j), busy)
  {
    ConflictsUpTo(in_, |in_.specs|);
    OverlapsReported(InterviewKey(in_.App()), in_.request.Span(), Foreign(in_.events, in_.App()));
    var j :| 0 <= j < |in_.specs| && c == Unplaceable(in_.Key(j), Own(in_.events, in_.App(), in_.Key(j)))
             && LatestFreeSlot(in_.WindowOf(j), in_.ForeignSpans() + Spans(PlanUpTo(in_, j).value.changes)).None?;
    assert !in_.TooLong(j) by { NotTooLong(in_, |in_.specs|, j); }
    LatestFreeSlotIsExact(in_.WindowOf(j), in_.ForeignSpans() + Spans(PlanUpTo(in_, j).value.changes));
  }

  lemma {:induction false} NotTooLong(in_: Inputs, n: nat, j: nat)
    requires j < n <= |in_.specs| && PlanUpTo(in_, n).Ok?
    ensures !in_.TooLong(j)
    decreases n
  {
    if j < n - 1 { NotTooLong(in_, n - 1, j); }
  }
}
