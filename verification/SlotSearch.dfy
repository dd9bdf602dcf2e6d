/** The backward search for the latest gap a prep block fits in. */
module SlotSearch {
  import opened Prelude
  import opened WorkingDay

  datatype Slot = Slot(from: Moment, to: Moment)

  predicate Overlaps(a: Slot, b: Slot) { b.from < a.to && b.to > a.from }

  /** One block to place: how long, between which moments, and within which hours if any. */
  datatype Window = Window(duration: int, earliestStart: Moment, latestEnd: Moment, hours: Option<WorkingHours>) {
    predicate Valid() { hours.Some? ==> hours.value.Valid() }

    /** The block that would end at `end`. */
    function EndingAt(end: Moment): Slot { Slot(end - duration, end) }

    /** Where the search ends a block next, when it may end no later than `end`. */
    function Clamp(end: Moment): Moment {
      if hours.Some? then hours.value.LatestEnd(end, duration) else end
    }

    /** Whether some placement could fit the hours at all. */
    predicate FitsADay() { hours.Some? ==> 0 <= duration <= hours.value.Length() }
  }

  const MAX_PLACEMENT_STEPS := 500

  /** `slot` is inside the window and its hours, and nothing in `busy` touches it. */
  predicate Free(w: Window, busy: seq<Slot>, slot: Slot) {
    && w.earliestStart <= slot.from
    && slot.to <= w.latestEnd
    && (w.hours.Some? ==> w.hours.value.Contains(slot.from, slot.to))
    && forall i :: 0 <= i < |busy| ==> !Overlaps(slot, busy[i])
  }

  /** `slot` is free, has the asked duration, and no such slot ends later. */
  ghost predicate LatestFree(w: Window, busy: seq<Slot>, slot: Slot) {
    && Free(w, busy, slot) && slot.to - slot.from == w.duration
    && forall other :: Free(w, busy, other) && other.to - other.from == w.duration ==> other.to <= slot.to
  }

  /** No slot of the asked duration is free. */
  ghost predicate NoneFree(w: Window, busy: seq<Slot>) {
    forall slot :: Free(w, busy, slot) ==> slot.to - slot.from != w.duration
  }

  /** Where the earliest interval in the way of `slot` begins, if anything is in the way. */
  function FirstBlocker(busy: seq<Slot>, slot: Slot): Option<Moment> {
    if busy == [] then None
    else
      var rest := FirstBlocker(busy[1..], slot);
      if !Overlaps(slot, busy[0]) then rest
      else if rest.Some? && rest.value <= busy[0].from then rest
      else Some(busy[0].from)
  }

  lemma {:induction false} FirstBlockerIsEarliest(busy: seq<Slot>, slot: Slot)
    ensures var first := FirstBlocker(busy, slot);
            && (first.None? <==> forall i :: 0 <= i < |busy| ==> !Overlaps(slot, busy[i]))
            && (first.Some? ==> exists i :: 0 <= i < |busy| && Overlaps(slot, busy[i]) && busy[i].from == first.value)
            && (first.Some? ==> forall i :: 0 <= i < |busy| && Overlaps(slot, busy[i]) ==> first.value <= busy[i].from)
  {
    if busy != [] {
      FirstBlockerIsEarliest(busy[1..], slot);
      assert forall i :: 0 <= i < |busy| - 1 ==> busy[i + 1] == busy[1..][i];
    }
  }

  /** What one round of the search does: give up, settle on a slot, or move back. */
  datatype Round = GaveUp | Found(slot: Slot) | Blocked(next: Moment)

  function OneRound(w: Window, busy: seq<Slot>, end: Moment): Round {
    var slot := w.EndingAt(w.Clamp(end));
    if slot.from < w.earliestStart then GaveUp
    else
      match FirstBlocker(busy, slot)
      case None => Found(slot)
      case Some(next) => Blocked(next)
  }

  /** What `steps` more rounds find when the block may end no later than `end`.
      (`|busy|` in the measure keeps the verifier from unrolling 500 rounds at once.) */
  function Search(w: Window, busy: seq<Slot>, end: Moment, steps: nat): Option<Slot>
    decreases steps, |busy|
  {
    if steps == 0 then None
    else
      match OneRound(w, busy, end)
      case GaveUp => None
      case Found(slot) => Some(slot)
      case Blocked(next) => Search(w, busy, next, steps - 1)
  }

  function LatestFreeSlot(w: Window, busy: seq<Slot>): Option<Slot> {
    Search(w, busy, w.latestEnd, MAX_PLACEMENT_STEPS)
  }

  /** How many busy intervals reach into the time from `start` to `end`: all that can get in the way. */
  ghost function Ahead(busy: seq<Slot>, start: Moment, end: Moment): (n: nat)
    ensures n <= |busy|
  {
    if busy == [] then 0
    else Ahead(busy[1..], start, end) + if busy[0].from < end && start < busy[0].to then 1 else 0
  }

  lemma {:induction false} AheadShrinks(busy: seq<Slot>, start: Moment, lower: Moment, upper: Moment)
    requires lower <= upper
    ensures Ahead(busy, start, lower) <= Ahead(busy, start, upper)
    ensures (exists i :: 0 <= i < |busy| && lower <= busy[i].from < upper && start < busy[i].to) ==>
              Ahead(busy, start, lower) < Ahead(busy, start, upper)
  {
    if busy != [] {
      AheadShrinks(busy[1..], start, lower, upper);
      assert forall i :: 0 < i < |busy| ==> busy[i] == busy[1..][i - 1];
    }
  }

  lemma ClampIsLatest(w: Window, end: Moment, slot: Slot)
    requires w.Valid() && slot.to <= end && slot.to - slot.from == w.duration
    requires w.hours.Some? ==> w.hours.value.Contains(slot.from, slot.to)
    ensures slot.to <= w.Clamp(end) <= end
  {
    if w.hours.Some? {
      LatestEndIsGreatest(w.hours.value, end, w.duration, slot.to);
      LatestEndFits(w.hours.value, end, w.duration);
    }
  }

  /** A blocked round moves the end back, past the start of something that blocked it. */
  lemma BlockedRound(w: Window, busy: seq<Slot>, end: Moment)
    requires w.Valid() && OneRound(w, busy, end).Blocked?
    ensures var next := OneRound(w, busy, end).next;
            next < end && Ahead(busy, w.earliestStart, next) < Ahead(busy, w.earliestStart, end)
  {
    if w.hours.Some? { LatestEndFits(w.hours.value, end, w.duration); }
    FirstBlockerIsEarliest(busy, w.EndingAt(w.Clamp(end)));
    AheadShrinks(busy, w.earliestStart, OneRound(w, busy, end).next, end);
  }

  /** A free block that may end by `end` is the one found, ends before it, or is still ahead. */
  lemma RoundSkipsNothing(w: Window, busy: seq<Slot>, end: Moment, slot: Slot)
    requires w.Valid()
    requires Free(w, busy, slot) && slot.to <= end && slot.to - slot.from == w.duration
    ensures match OneRound(w, busy, end)
            case GaveUp => false
            case Found(found) => slot.to <= found.to
            case Blocked(next) => slot.to <= next
  {
    ClampIsLatest(w, end, slot);
    FirstBlockerIsEarliest(busy, w.EndingAt(w.Clamp(end)));
  }

  lemma FoundIsFree(w: Window, busy: seq<Slot>, end: Moment)
    requires w.Valid() && w.FitsADay() && end <= w.latestEnd
    requires OneRound(w, busy, end).Found?
    ensures var slot := OneRound(w, busy, end).slot;
            Free(w, busy, slot) && slot.to - slot.from == w.duration && slot.to <= end
  {
    if w.hours.Some? { LatestEndFits(w.hours.value, end, w.duration); }
    FirstBlockerIsEarliest(busy, w.EndingAt(w.Clamp(end)));
  }

  /** Whatever the search returns is free and has the asked duration. */
  lemma {:induction false} SearchSound(w: Window, busy: seq<Slot>, end: Moment, steps: nat)
    requires w.Valid() && w.FitsADay() && end <= w.latestEnd
    requires Search(w, busy, end, steps).Some?
    ensures var slot := Search(w, busy, end, steps).value;
            Free(w, busy, slot) && slot.to - slot.from == w.duration && slot.to <= end
    decreases steps
  {
    match OneRound(w, busy, end)
    case GaveUp =>
    case Found(_) => FoundIsFree(w, busy, end);
    case Blocked(next) =>
      BlockedRound(w, busy, end);
      SearchSound(w, busy, next, steps - 1);
  }

  /** Nothing free ends later than what the search returns. */
  lemma {:induction false} SearchOptimal(w: Window, busy: seq<Slot>, end: Moment, steps: nat, other: Slot)
    requires w.Valid()
    requires Search(w, busy, end, steps).Some?
    requires Free(w, busy, other) && other.to <= end && other.to - other.from == w.duration
    ensures other.to <= Search(w, busy, end, steps).value.to
    decreases steps
  {
    RoundSkipsNothing(w, busy, end, other);
    match OneRound(w, busy, end)
    case Found(_) =>
    case Blocked(next) => SearchOptimal(w, busy, next, steps - 1, other);
  }

  /** A search with more rounds than busy intervals ahead of it finds a slot if there is one. */
  lemma {:induction false} SearchComplete(w: Window, busy: seq<Slot>, end: Moment, steps: nat, other: Slot)
    requires w.Valid()
    requires Ahead(busy, w.earliestStart, end) < steps
    requires Free(w, busy, other) && other.to <= end && other.to - other.from == w.duration
    ensures Search(w, busy, end, steps).Some?
    decreases steps
  {
    RoundSkipsNothing(w, busy, end, other);
    match OneRound(w, busy, end)
    case Found(_) =>
    case Blocked(next) =>
      BlockedRound(w, busy, end);
      SearchComplete(w, busy, next, steps - 1, other);
  }

  /** So few busy intervals reach into the window that the cap never shows. */
  ghost predicate UnderCap(w: Window, busy: seq<Slot>) {
    Ahead(busy, w.earliestStart, w.latestEnd) < 500
  }

  /** A slot returned is free and the latest there is; and with fewer than 500 busy intervals reaching
      into the window, `None` means no slot exists. */
  lemma LatestFreeSlotIsExact(w: Window, busy: seq<Slot>)
    requires w.Valid() && w.FitsADay()
    ensures var r := LatestFreeSlot(w, busy);
            r.Some? ==> LatestFree(w, busy, r.value)
    ensures UnderCap(w, busy) ==> (LatestFreeSlot(w, busy).None? <==> NoneFree(w, busy))
  {
    var r := LatestFreeSlot(w, busy);
    if r.Some? {
      SearchSound(w, busy, w.latestEnd, MAX_PLACEMENT_STEPS);
    }
    forall other | Free(w, busy, other) && other.to - other.from == w.duration
      ensures r.Some? ==> other.to <= r.value.to
      ensures UnderCap(w, busy) ==> r.Some?
    {
      if r.Some? { SearchOptimal(w, busy, w.latestEnd, MAX_PLACEMENT_STEPS, other); }
      if UnderCap(w, busy) { SearchComplete(w, busy, w.latestEnd, MAX_PLACEMENT_STEPS, other); }
    }
  }

  /** `n` unit events back to back, the last of them ending at 0. */
  function BackToBack(n: int): (busy: seq<Slot>)
    requires 0 <= n
    ensures |busy| == n
    ensures forall i :: 0 <= i < n ==> busy[i] == Slot(-i - 1, -i)
  {
    seq(n, i => Slot(-i - 1, -i))
  }

  /** Room for one more unit block before those `n` events. */
  function UnitWindow(n: int): Window { Window(1, -n - 1, 0, None) }

  lemma BackToBackRound(n: int, done: int)
    requires 0 <= done < n
    ensures OneRound(UnitWindow(n), BackToBack(n), -done) == Blocked(-done - 1)
  {
    var slot := Slot(-done - 1, -done);
    FirstBlockerIsEarliest(BackToBack(n), slot);
    assert Overlaps(slot, BackToBack(n)[done]);
  }

  lemma {:induction false} BackToBackSearch(n: int, done: int, steps: nat)
    requires 0 <= done && done + steps <= n
    ensures Search(UnitWindow(n), BackToBack(n), -done, steps).None?
    decreases steps
  {
    if steps > 0 {
      BackToBackRound(n, done);
      BackToBackSearch(n, done + 1, steps - 1);
    }
  }

  /** The bound of the previous lemma is the best one: from 500 busy intervals on, the
      search can give up although a slot is free. */
  lemma CapIsTight(n: int)
    requires 500 <= n
    ensures LatestFreeSlot(UnitWindow(n), BackToBack(n)).None?
    ensures !NoneFree(UnitWindow(n), BackToBack(n))
  {
    assert Free(UnitWindow(n), BackToBack(n), Slot(-n - 1, -n));
    BackToBackSearch(n, 0, MAX_PLACEMENT_STEPS);
  }

  /** The search as the planner runs it: `end` walks backward, one blocked round at a time. */
  method FindLatestFreeSlot(w: Window, busy: seq<Slot>) returns (r: Option<Slot>)
    requires w.Valid()
    ensures r == LatestFreeSlot(w, busy)
    ensures w.FitsADay() && r.Some? ==> LatestFree(w, busy, r.value)
    ensures w.FitsADay() && UnderCap(w, busy) ==> (r.None? <==> NoneFree(w, busy))
  {
    if w.FitsADay() { LatestFreeSlotIsExact(w, busy); }
    var end := w.latestEnd;
    for step := 0 to MAX_PLACEMENT_STEPS
      invariant Search(w, busy, end, MAX_PLACEMENT_STEPS - step) == LatestFreeSlot(w, busy)
    {
      end := w.Clamp(end);
      var slot := w.EndingAt(end);
      if slot.from < w.earliestStart { return None; }
      match FirstBlocker(busy, slot)
      case None => return Some(slot);
      case Some(next) => end := next;
    }
    return None;
  }
}
