/** The part of the local day a prep block may be placed in. */
module WorkingDay {

  /** A naive UTC moment, or a span of time, in microseconds. */
  type Moment = int

  const DAY: int := 86_400_000_000

  function DateOf(local: Moment): int { local / DAY }

  function TimeOf(local: Moment): int { local % DAY }

  /** The moment `time` past midnight on day number `date`. */
  function Combine(date: int, time: int): Moment { date * DAY + time }

  datatype WorkingHours = WorkingHours(start: int, end: int, utcOffset: int) {

    /** What the constructor accepts: two times of day, in order. */
    predicate Valid() { 0 <= start < end < DAY }

    function Length(): int { end - start }

    predicate Contains(from: Moment, to: Moment) {
      var localFrom, localTo := from + utcOffset, to + utcOffset;
      && DateOf(localFrom) == DateOf(localTo)
      && start <= TimeOf(localFrom)
      && localFrom <= localTo
      && localTo <= Combine(DateOf(localTo), end)
    }

    /** Where the search should try to end a block of `duration` that may end no later than `latest`. */
    function LatestEnd(latest: Moment, duration: int): Moment {
      var local := latest + utcOffset;
      var dayEnd := Combine(DateOf(local), end);
      var clamped := if local > dayEnd then dayEnd else local;
      var fitted :=
        if clamped - duration < Combine(DateOf(clamped), start)
        then Combine(DateOf(clamped) - 1, end)
        else clamped;
      fitted - utcOffset
    }
  }

  /** The proposed end is never too late, and a block ending there fits one
      local working day exactly when a block that long fits any. */
  lemma LatestEndFits(h: WorkingHours, latest: Moment, duration: int)
    requires h.Valid()
    ensures h.LatestEnd(latest, duration) <= latest
    ensures h.Contains(h.LatestEnd(latest, duration) - duration, h.LatestEnd(latest, duration))
            <==> 0 <= duration <= h.Length()
  {
    var fitted := h.LatestEnd(latest, duration) + h.utcOffset;
    var date := DateOf(fitted);
    assert fitted == Combine(date, TimeOf(fitted));
    assert TimeOf(fitted) <= h.end;
    if 0 <= duration <= h.Length() {
      assert Combine(date, h.start) <= fitted - duration;
      assert DateOf(fitted - duration) == date;
    }
  }

  /** No moment between the proposed end and `latest` can end a block that fits one local working day. */
  lemma LatestEndIsGreatest(h: WorkingHours, latest: Moment, duration: int, end: Moment)
    requires h.Valid()
    requires end <= latest
    requires h.Contains(end - duration, end)
    ensures end <= h.LatestEnd(latest, duration)
  {
    var local, localEnd := latest + h.utcOffset, end + h.utcOffset;
    var date, endDate := DateOf(local), DateOf(localEnd);
    assert endDate <= date;
    assert Combine(endDate, h.start) <= localEnd - duration;
    if endDate < date {
      assert localEnd <= Combine(date - 1, h.end);
    }
  }
}
