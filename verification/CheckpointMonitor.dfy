/** Waits kept as rows, and any number of monitors sweeping them at once. */
module CheckpointMonitor {
  import opened Prelude

  datatype WaitStatus = PENDING | RESOLVED | FIRED | EXPIRED | CANCELLED

  datatype Wait = Wait(id: int, dedupeKey: string, triggerAt: int, expiresAt: int, status: WaitStatus)

  datatype Outcome = WAIT | RESOLVE | FIRE | EXPIRE

  /** What a pending wait calls for, given a freshly asked condition. */
  function Decide(w: Wait, met: bool, now: int): Outcome
    requires w.status == PENDING
  {
    if met then RESOLVE else if now >= w.expiresAt then EXPIRE else if now >= w.triggerAt then FIRE else WAIT
  }

  // ---- The store --------------------------------------------------------------------------------------

  function Find(rows: seq<Wait>, id: int): (k: Option<nat>)
    ensures k.Some? ==> k.value < |rows| && rows[k.value].id == id
  {
    if rows == [] then None
    else if rows[0].id == id then Some(0)
    else match Find(rows[1..], id) case None => None case Some(k) => Some(k + 1)
  }

  /** The guarded update's condition. */
  predicate Closable(rows: seq<Wait>, id: int) {
    Find(rows, id).Some? && rows[Find(rows, id).value].status == PENDING
  }

  function Close(rows: seq<Wait>, id: int, status: WaitStatus): seq<Wait> {
    if Closable(rows, id) then rows[Find(rows, id).value := rows[Find(rows, id).value].(status := status)] else rows
  }

  /** Stores a wait unless its dedupe key is taken. A fresh id never is. */
  function Schedule(rows: seq<Wait>, w: Wait): seq<Wait> {
    if (exists r :: r in rows && r.dedupeKey == w.dedupeKey) || Find(rows, w.id).Some? || w.status != PENDING then rows
    else rows + [w]
  }

  predicate Due(w: Wait, now: int) { w.status == PENDING && (w.triggerAt <= now || w.expiresAt <= now) }

  // ---- One sweep -----------------------------------------------------------------------------------------

  datatype Bucket = InResolved | InFired | InExpired | InDeferred | InCancelled | InFailed | InWaiting

  datatype Thread = Unregistered | NeverRan | Parked | Ready

  /** What a sweep does next about the wait it is handling. Between any two of these, other
      processes run. */
  datatype Phase = Asking | Closing(status: WaitStatus) | Inspecting | Cancelling | Claiming | Starting

  /** `selected` is what the query returned; `done` is where the ones handled so far went. */
  datatype Sweep = Sweep(now: int, selected: seq<Wait>, done: seq<(int, Bucket)>, phase: Phase) {
    predicate Working() { |done| < |selected| }

    function Current(): Wait
      requires Working()
    {
      selected[|done|]
    }

    function Put(bucket: Bucket): Sweep
      requires Working()
    {
      this.(done := done + [(Current().id, bucket)], phase := Asking)
    }
  }

  /** What the condition, the thread and the runner answer, if asked now. */
  datatype Answers = Answers(met: bool, thread: Thread, started: bool)

  datatype Event =
    | Asked(id: int, who: nat, met: bool)
    | Closed(id: int, status: WaitStatus, closer: Option<nat>)
    | Started(wait: Wait, who: nat, now: int, ok: bool)

  datatype Moved = Moved(rows: seq<Wait>, sweep: Sweep, events: seq<Event>)

  /** A close, and where its wait goes if it was won and if it was lost. */
  function CloseAndPut(rows: seq<Wait>, s: Sweep, n: nat, status: WaitStatus, won: Sweep, lost: Sweep): Moved
    requires s.Working()
  {
    var id := s.Current().id;
    if Closable(rows, id) then Moved(Close(rows, id, status), won, [Closed(id, status, Some(n))])
    else Moved(rows, lost, [])
  }

  /** The next thing sweep `n` does, up to where it next gives way. */
  function Advance(rows: seq<Wait>, s: Sweep, n: nat, a: Answers): Moved
    requires s.Working() && s.Current().status == PENDING
  {
    var w := s.Current();
    match s.phase
    case Asking =>
      var events := [Asked(w.id, n, a.met)];
      (match Decide(w, a.met, s.now)
       case WAIT => Moved(rows, s.Put(InWaiting), events)
       case RESOLVE => Moved(rows, s.(phase := Closing(RESOLVED)), events)
       case EXPIRE => Moved(rows, s.(phase := Closing(EXPIRED)), events)
       case FIRE => Moved(rows, s.(phase := Inspecting), events))
    case Closing(status) =>
      CloseAndPut(rows, s, n, status, s.Put(if status == RESOLVED then InResolved else InExpired), s.Put(InDeferred))
    case Inspecting =>
      (match a.thread
       case Unregistered => Moved(rows, s.(phase := Cancelling), [])
       case NeverRan => Moved(rows, s.(phase := Cancelling), [])
       case Parked => Moved(rows, s.Put(InDeferred), [])
       case Ready => Moved(rows, s.(phase := Claiming), []))
    case Cancelling =>
      CloseAndPut(rows, s, n, CANCELLED, s.Put(InCancelled), s.Put(InCancelled))
    case Claiming =>
      CloseAndPut(rows, s, n, FIRED, s.(phase := Starting), s.Put(InDeferred))
    case Starting =>
      Moved(rows, s.Put(if a.started then InFired else InFailed), [Started(w, n, s.now, a.started)])
  }

  // ---- Any number of them -----------------------------------------------------------------------------------

  datatype System = System(rows: seq<Wait>, sweeps: seq<Sweep>, log: seq<Event>)

  datatype Action =
    | ScheduleWait(wait: Wait)
    | CloseElsewhere(id: int, status: WaitStatus)
    | BeginSweep(now: int, selected: seq<Wait>)
    | StepSweep(n: nat, answers: Answers)

  predicate DistinctIds(ws: seq<Wait>) { forall i, j :: 0 <= i < j < |ws| ==> ws[i].id != ws[j].id }

  /** What a query at `now` may return: due rows, each once. */
  predicate Selects(rows: seq<Wait>, now: int, selected: seq<Wait>) {
    && DistinctIds(selected)
    && forall w :: w in selected ==> w in rows && Due(w, now)
  }

  function Applied(sys: System, n: nat, m: Moved): System
    requires n < |sys.sweeps|
  {
    System(m.rows, sys.sweeps[n := m.sweep], sys.log + m.events)
  }

  /** One step of anyone. A crashed sweep is one that takes no further step. Only a sweep fires. */
  function Do(sys: System, a: Action): System {
    match a
    case ScheduleWait(w) => sys.(rows := Schedule(sys.rows, w))
    case CloseElsewhere(id, status) =>
      if status in {RESOLVED, EXPIRED, CANCELLED} && Closable(sys.rows, id) then
        sys.(rows := Close(sys.rows, id, status), log := sys.log + [Closed(id, status, None)])
      else sys
    case BeginSweep(now, selected) =>
      if Selects(sys.rows, now, selected) then sys.(sweeps := sys.sweeps + [Sweep(now, selected, [], Asking)]) else sys
    case StepSweep(n, answers) =>
      if n < |sys.sweeps| && sys.sweeps[n].Working() && sys.sweeps[n].Current().status == PENDING then
        Applied(sys, n, Advance(sys.rows, sys.sweeps[n], n, answers))
      else sys
  }

  function Run(actions: seq<Action>): System {
    if actions == [] then System([], [], []) else Do(Run(actions[..|actions| - 1]), actions[|actions| - 1])
  }

  // ---- Counting what happened ---------------------------------------------------------------------------------

  function Closes(log: seq<Event>, id: int): nat {
    if log == [] then 0
    else Closes(log[..|log| - 1], id) + (if log[|log| - 1].Closed? && log[|log| - 1].id == id then 1 else 0)
  }

  function Claims(log: seq<Event>, id: int): nat {
    if log == [] then 0
    else Claims(log[..|log| - 1], id)
         + (if log[|log| - 1].Closed? && log[|log| - 1].id == id && log[|log| - 1].status == FIRED then 1 else 0)
  }

  function Starts(log: seq<Event>, id: int): nat {
    if log == [] then 0
    else Starts(log[..|log| - 1], id) + (if log[|log| - 1].Started? && log[|log| - 1].wait.id == id then 1 else 0)
  }

  /** Sweeps that have won this wait and not yet started it. */
  function Owing(sweeps: seq<Sweep>, id: int): nat {
    if sweeps == [] then 0 else Owing(sweeps[..|sweeps| - 1], id) + Owes(sweeps[|sweeps| - 1], id)
  }

  function Owes(s: Sweep, id: int): nat {
    if s.Working() && s.phase == Starting && s.Current().id == id then 1 else 0
  }

  lemma CountsGrow(log: seq<Event>, e: Event, id: int)
    ensures Closes(log + [e], id) == Closes(log, id) + if e.Closed? && e.id == id then 1 else 0
    ensures Claims(log + [e], id) == Claims(log, id) + if e.Closed? && e.id == id && e.status == FIRED then 1 else 0
    ensures Starts(log + [e], id) == Starts(log, id) + if e.Started? && e.wait.id == id then 1 else 0
  {
    assert (log + [e])[..|log|] == log;
  }

  lemma {:induction false} ClaimsAreCloses(log: seq<Event>, id: int)
    ensures Claims(log, id) <= Closes(log, id)
  {
    if log != [] { ClaimsAreCloses(log[..|log| - 1], id); }
  }

  lemma {:induction false} OwingChanges(sweeps: seq<Sweep>, n: nat, s: Sweep, id: int)
    requires n < |sweeps|
    ensures Owing(sweeps[n := s], id) + Owes(sweeps[n], id) == Owing(sweeps, id) + Owes(s, id)
  {
    var k := |sweeps| - 1;
    if n == k {
      assert sweeps[n := s][..k] == sweeps[..k];
    } else {
      assert sweeps[n := s][..k] == sweeps[..k][n := s];
      OwingChanges(sweeps[..k], n, s, id);
    }
  }

  // ---- What every reachable state keeps --------------------------------------------------------------------------

  function StatusOf(rows: seq<Wait>, id: int): WaitStatus {
    if Find(rows, id).Some? then rows[Find(rows, id).value].status else PENDING
  }

  /** A wait was closed once if it is not pending, and claimed once if it fired; and every claim is
      a start, or is still owed one by the sweep that won it. */
  predicate Tallied(sys: System, id: int) {
    && Closes(sys.log, id) == (if StatusOf(sys.rows, id) != PENDING then 1 else 0)
    && Claims(sys.log, id) == (if StatusOf(sys.rows, id) == FIRED then 1 else 0)
    && Starts(sys.log, id) + Owing(sys.sweeps, id) == Claims(sys.log, id)
  }

  /** Sweep `n` asked about this wait, was told it is unmet, and found it due and not expired. */
  predicate MayFire(log: seq<Event>, w: Wait, n: nat, now: int) {
    w.triggerAt <= now < w.expiresAt && Asked(w.id, n, false) in log
  }

  predicate WonBy(log: seq<Event>, w: Wait, n: nat) { Closed(w.id, FIRED, Some(n)) in log }

  predicate PhaseFits(log: seq<Event>, s: Sweep, n: nat) {
    s.Working() ==>
      && s.Current().status == PENDING
      && (s.phase in {Inspecting, Claiming, Starting} ==> MayFire(log, s.Current(), n, s.now))
      && (s.phase == Starting ==> WonBy(log, s.Current(), n))
      && (s.phase.Closing? ==> s.phase.status in {RESOLVED, EXPIRED})
      && (s.phase == Closing(RESOLVED) ==> Asked(s.Current().id, n, true) in log)
      && (s.phase == Closing(EXPIRED) ==> MayExpire(log, s.Current(), n, s.now))
      && (s.phase == Cancelling ==> MayFire(log, s.Current(), n, s.now))
  }

  /** Sweep `n` asked about this wait, was told it is unmet, and found it expired. */
  predicate MayExpire(log: seq<Event>, w: Wait, n: nat, now: int) {
    w.expiresAt <= now && Asked(w.id, n, false) in log
  }

  predicate StartFits(log: seq<Event>, e: Event) {
    e.Started? ==> MayFire(log, e.wait, e.who, e.now) && WonBy(log, e.wait, e.who)
  }

  /** The waits handled so far, in order, each in one bucket. */
  predicate Accounted(s: Sweep) {
    && DistinctIds(s.selected) && |s.done| <= |s.selected|
    && (forall w :: w in s.selected ==> Due(w, s.now))
    && forall k :: 0 <= k < |s.done| ==> s.done[k].0 == s.selected[k].id
  }

  /** What a bucket says this sweep did. A wait put in `deferred` or `cancelled` may be one that some
      other process closed. */
  predicate BucketFits(log: seq<Event>, w: Wait, bucket: Bucket, n: nat, now: int) {
    match bucket
    case InResolved => Closed(w.id, RESOLVED, Some(n)) in log && Asked(w.id, n, true) in log
    case InExpired => Closed(w.id, EXPIRED, Some(n)) in log && MayExpire(log, w, n, now)
    case InCancelled => MayFire(log, w, n, now)
    case InFired => Started(w, n, now, true) in log
    case InFailed => Started(w, n, now, false) in log
    case InWaiting => false
    case _ => true
  }

  predicate Truthful(log: seq<Event>, s: Sweep, n: nat) {
    |s.done| <= |s.selected|
    && forall k :: 0 <= k < |s.done| ==> BucketFits(log, s.selected[k], s.done[k].1, n, s.now)
  }

  predicate SweepFits(log: seq<Event>, s: Sweep, n: nat) {
    Accounted(s) && PhaseFits(log, s, n) && Truthful(log, s, n)
  }

  ghost predicate Inv(sys: System) {
    && (forall id :: Tallied(sys, id))
    && (forall n: nat :: n < |sys.sweeps| ==> SweepFits(sys.log, sys.sweeps[n], n))
    && (forall e :: e in sys.log ==> StartFits(sys.log, e))
  }

  // ---- Each step keeps it -------------------------------------------------------------------------------------------

  lemma {:induction false} FindAfterUpdate(rows: seq<Wait>, k: nat, status: WaitStatus, id: int)
    requires k < |rows|
    ensures Find(rows[k := rows[k].(status := status)], id) == Find(rows, id)
  {
    var after := rows[k := rows[k].(status := status)];
    if rows[0].id != id {
      if k == 0 {
        assert after[1..] == rows[1..];
      } else {
        assert after[1..] == rows[1..][k - 1 := rows[k].(status := status)];
        FindAfterUpdate(rows[1..], k - 1, status, id);
      }
    }
  }

  lemma CloseSetsStatus(rows: seq<Wait>, id: int, status: WaitStatus, other: int)
    requires Closable(rows, id)
    ensures StatusOf(rows, id) == PENDING
    ensures StatusOf(Close(rows, id, status), other) == if other == id then status else StatusOf(rows, other)
  {
    FindAfterUpdate(rows, Find(rows, id).value, status, other);
  }

  lemma {:induction false} FindAppend(rows: seq<Wait>, w: Wait, id: int)
    ensures Find(rows + [w], id)
         == if Find(rows, id).Some? then Find(rows, id) else if w.id == id then Some(|rows|) else None
  {
    if rows == [] {
      assert [w][1..] == [];
    } else {
      assert (rows + [w])[1..] == rows[1..] + [w];
      FindAppend(rows[1..], w, id);
    }
  }

  lemma ScheduleKeepsStatus(rows: seq<Wait>, w: Wait, id: int)
    ensures StatusOf(Schedule(rows, w), id) == StatusOf(rows, id)
  {
    FindAppend(rows, w, id);
  }

  lemma OwingGrows(sweeps: seq<Sweep>, s: Sweep, id: int)
    ensures Owing(sweeps + [s], id) == Owing(sweeps, id) + Owes(s, id)
  {
    assert (sweeps + [s])[..|sweeps|] == sweeps;
  }

  lemma SweepStillFits(log: seq<Event>, longer: seq<Event>, s: Sweep, n: nat)
    requires SweepFits(log, s, n) && forall e :: e in log ==> e in longer
    ensures SweepFits(longer, s, n)
  {
    forall k | 0 <= k < |s.done| ensures BucketFits(longer, s.selected[k], s.done[k].1, n, s.now) {
      assert BucketFits(log, s.selected[k], s.done[k].1, n, s.now);
    }
  }

  /** Nothing that was true of the log stops being true of it. */
  lemma LogOnlyGrows(sys: System, log: seq<Event>)
    requires Inv(sys) && sys.log <= log
    ensures forall n: nat :: n < |sys.sweeps| ==> SweepFits(log, sys.sweeps[n], n)
    ensures forall e :: e in sys.log ==> StartFits(log, e)
  {
    assert forall e :: e in sys.log ==> e in log;
    forall n: nat | n < |sys.sweeps| ensures SweepFits(log, sys.sweeps[n], n) {
      assert SweepFits(sys.log, sys.sweeps[n], n);
      SweepStillFits(sys.log, log, sys.sweeps[n], n);
    }
    forall e | e in sys.log ensures StartFits(log, e) { assert StartFits(sys.log, e); }
  }

  lemma NoEventTallies(sys: System, n: nat, s: Sweep, id: int)
    requires Tallied(sys, id) && n < |sys.sweeps| && Owes(s, id) == Owes(sys.sweeps[n], id)
    ensures Tallied(Applied(sys, n, Moved(sys.rows, s, [])), id)
  {
    OwingChanges(sys.sweeps, n, s, id);
    assert sys.log + [] == sys.log;
  }

  lemma AskTallies(sys: System, n: nat, s: Sweep, e: Event, id: int)
    requires Tallied(sys, id) && n < |sys.sweeps| && e.Asked? && Owes(s, id) == Owes(sys.sweeps[n], id)
    ensures Tallied(Applied(sys, n, Moved(sys.rows, s, [e])), id)
  {
    OwingChanges(sys.sweeps, n, s, id);
    CountsGrow(sys.log, e, id);
  }

  lemma StartTallies(sys: System, n: nat, s: Sweep, w: Wait, now: int, ok: bool, id: int)
    requires Tallied(sys, id) && n < |sys.sweeps|
    requires Owes(sys.sweeps[n], id) == (if w.id == id then 1 else 0) && Owes(s, id) == 0
    ensures Tallied(Applied(sys, n, Moved(sys.rows, s, [Started(w, n, now, ok)])), id)
  {
    OwingChanges(sys.sweeps, n, s, id);
    CountsGrow(sys.log, Started(w, n, now, ok), id);
  }

  /** A close that is won adds one close, and one claim if it fires, which the winner then owes. */
  lemma CloseTallies(sys: System, n: nat, status: WaitStatus, won: Sweep, lost: Sweep, id: int)
    requires Tallied(sys, id) && n < |sys.sweeps| && sys.sweeps[n].Working() && status != PENDING
    requires Owes(sys.sweeps[n], id) == Owes(lost, id) == 0
    requires Owes(won, id) == if status == FIRED && sys.sweeps[n].Current().id == id then 1 else 0
    ensures Tallied(Applied(sys, n, CloseAndPut(sys.rows, sys.sweeps[n], n, status, won, lost)), id)
  {
    var cur := sys.sweeps[n].Current().id;
    if Closable(sys.rows, cur) {
      CloseSetsStatus(sys.rows, cur, status, id);
      OwingChanges(sys.sweeps, n, won, id);
      CountsGrow(sys.log, Closed(cur, status, Some(n)), id);
    } else {
      NoEventTallies(sys, n, lost, id);
    }
  }

  /** A close by sweep `n`, whichever of the three it is at. */
  lemma ClosingTallies(sys: System, n: nat, a: Answers, id: int)
    requires Tallied(sys, id) && n < |sys.sweeps|
    requires sys.sweeps[n].Working() && sys.sweeps[n].Current().status == PENDING
    requires sys.sweeps[n].phase in {Closing(RESOLVED), Closing(EXPIRED), Cancelling, Claiming}
    ensures Tallied(Applied(sys, n, Advance(sys.rows, sys.sweeps[n], n, a)), id)
  {
    var s := sys.sweeps[n];
    match s.phase
    case Closing(status) =>
      CloseTallies(sys, n, status, s.Put(if status == RESOLVED then InResolved else InExpired), s.Put(InDeferred), id);
    case Cancelling => CloseTallies(sys, n, CANCELLED, s.Put(InCancelled), s.Put(InCancelled), id);
    case Claiming => CloseTallies(sys, n, FIRED, s.(phase := Starting), s.Put(InDeferred), id);
  }

  lemma AskingTallies(sys: System, n: nat, a: Answers, id: int)
    requires Tallied(sys, id) && n < |sys.sweeps|
    requires sys.sweeps[n].Working() && sys.sweeps[n].Current().status == PENDING
    requires sys.sweeps[n].phase in {Asking, Inspecting}
    ensures Tallied(Applied(sys, n, Advance(sys.rows, sys.sweeps[n], n, a)), id)
  {
    var m := Advance(sys.rows, sys.sweeps[n], n, a);
    if sys.sweeps[n].phase == Asking {
      AskTallies(sys, n, m.sweep, m.events[0], id);
    } else {
      NoEventTallies(sys, n, m.sweep, id);
    }
  }

  /** What one advance of sweep `n` does to the tally of one wait. */
  lemma AdvanceTallies(sys: System, n: nat, a: Answers, id: int)
    requires Tallied(sys, id) && n < |sys.sweeps|
    requires sys.sweeps[n].Working() && sys.sweeps[n].Current().status == PENDING
    requires sys.sweeps[n].phase.Closing? ==> sys.sweeps[n].phase.status in {RESOLVED, EXPIRED}
    ensures Tallied(Applied(sys, n, Advance(sys.rows, sys.sweeps[n], n, a)), id)
  {
    var s := sys.sweeps[n];
    if s.phase in {Asking, Inspecting} {
      AskingTallies(sys, n, a, id);
    } else if s.phase != Starting {
      ClosingTallies(sys, n, a, id);
    } else {
      StartTallies(sys, n, s.Put(if a.started then InFired else InFailed), s.Current(), s.now, a.started, id);
    }
  }

  lemma PutFits(log: seq<Event>, s: Sweep, n: nat, bucket: Bucket)
    requires s.Working() && Accounted(s) && Truthful(log, s, n)
    requires BucketFits(log, s.Current(), bucket, n, s.now)
    ensures SweepFits(log, s.Put(bucket), n)
  {
    assert s.Put(bucket).Working() ==> s.Put(bucket).Current() in s.selected;
  }

  lemma BucketFitsAfter(rows: seq<Wait>, log: seq<Event>, s: Sweep, n: nat, a: Answers)
    requires s.Working() && Accounted(s) && PhaseFits(log, s, n)
    ensures var m := Advance(rows, s, n, a);
            m.sweep.done == s.done
            || exists bucket :: m.sweep == s.Put(bucket) && BucketFits(log + m.events, s.Current(), bucket, n, s.now)
  {
    var m := Advance(rows, s, n, a);
    assert s.Current() in s.selected;
    if m.events != [] { assert m.events[0] in log + m.events; }
    if m.sweep.done != s.done { assert m.sweep == s.Put(m.sweep.done[|s.done|].1); }
  }

  /** What one advance leaves of the sweep that made it. */
  lemma AdvanceFits(rows: seq<Wait>, log: seq<Event>, s: Sweep, n: nat, a: Answers)
    requires s.Working() && SweepFits(log, s, n)
    ensures SweepFits(log + Advance(rows, s, n, a).events, Advance(rows, s, n, a).sweep, n)
  {
    var m := Advance(rows, s, n, a);
    assert forall e :: e in log ==> e in log + m.events;
    SweepStillFits(log, log + m.events, s, n);
    if m.sweep.done != s.done {
      BucketFitsAfter(rows, log, s, n, a);
      var bucket :| m.sweep == s.Put(bucket) && BucketFits(log + m.events, s.Current(), bucket, n, s.now);
      PutFits(log + m.events, s, n, bucket);
    } else {
      if m.events != [] { assert m.events[0] in log + m.events; }
      assert m.sweep.Current() == s.Current();
    }
  }

  lemma StartsFit(rows: seq<Wait>, log: seq<Event>, s: Sweep, n: nat, a: Answers)
    requires s.Working() && PhaseFits(log, s, n)
    ensures var m := Advance(rows, s, n, a);
            forall e :: e in m.events ==> StartFits(log + m.events, e)
  {
  }

  lemma StepKeepsInv(sys: System, n: nat, a: Answers)
    requires Inv(sys) && n < |sys.sweeps| && sys.sweeps[n].Working()
    ensures Inv(Applied(sys, n, Advance(sys.rows, sys.sweeps[n], n, a)))
  {
    var s := sys.sweeps[n];
    assert SweepFits(sys.log, s, n);
    var m := Advance(sys.rows, s, n, a);
    AdvanceFits(sys.rows, sys.log, s, n, a);
    StartsFit(sys.rows, sys.log, s, n, a);
    LogOnlyGrows(sys, sys.log + m.events);
    forall id ensures Tallied(Applied(sys, n, m), id) { AdvanceTallies(sys, n, a, id); }
  }

  lemma ScheduleKeepsInv(sys: System, w: Wait)
    requires Inv(sys)
    ensures Inv(Do(sys, ScheduleWait(w)))
  {
    forall id ensures Tallied(Do(sys, ScheduleWait(w)), id) {
      assert Tallied(sys, id);
      ScheduleKeepsStatus(sys.rows, w, id);
    }
  }

  lemma ElsewhereTallies(sys: System, closed: int, status: WaitStatus, id: int)
    requires Tallied(sys, id) && Closable(sys.rows, closed) && status in {RESOLVED, EXPIRED, CANCELLED}
    ensures Tallied(Do(sys, CloseElsewhere(closed, status)), id)
  {
    CloseSetsStatus(sys.rows, closed, status, id);
    CountsGrow(sys.log, Closed(closed, status, None), id);
  }

  lemma CloseKeepsInv(sys: System, closed: int, status: WaitStatus)
    requires Inv(sys) && Closable(sys.rows, closed) && status in {RESOLVED, EXPIRED, CANCELLED}
    ensures Inv(Do(sys, CloseElsewhere(closed, status)))
  {
    LogOnlyGrows(sys, Do(sys, CloseElsewhere(closed, status)).log);
    forall id { ElsewhereTallies(sys, closed, status, id); }
  }

  lemma BeginKeepsInv(sys: System, now: int, selected: seq<Wait>)
    requires Inv(sys) && Selects(sys.rows, now, selected)
    ensures Inv(Do(sys, BeginSweep(now, selected)))
  {
    var begun := Sweep(now, selected, [], Asking);
    var after := Do(sys, BeginSweep(now, selected));
    forall id ensures Tallied(after, id) {
      assert Tallied(sys, id);
      OwingGrows(sys.sweeps, begun, id);
    }
    assert begun.Working() ==> begun.Current() in selected;
    assert SweepFits(sys.log, begun, |sys.sweeps|);
    forall n: nat | n < |after.sweeps| ensures SweepFits(after.log, after.sweeps[n], n) {
      if n < |sys.sweeps| { assert SweepFits(sys.log, sys.sweeps[n], n); }
    }
  }

  lemma {:induction false} RunsKeepInv(actions: seq<Action>)
    ensures Inv(Run(actions))
  {
    if actions != [] {
      var before := Run(actions[..|actions| - 1]);
      RunsKeepInv(actions[..|actions| - 1]);
      match actions[|actions| - 1]
      case StepSweep(n, answers) =>
        if n < |before.sweeps| && before.sweeps[n].Working() {
          StepKeepsInv(before, n, answers);
        }
      case ScheduleWait(w) => ScheduleKeepsInv(before, w);
      case CloseElsewhere(id, status) =>
        if status in {RESOLVED, EXPIRED, CANCELLED} && Closable(before.rows, id) { CloseKeepsInv(before, id, status); }
      case BeginSweep(now, selected) =>
        if Selects(before.rows, now, selected) { BeginKeepsInv(before, now, selected); }
    }
  }

  // ---- What follows -----------------------------------------------------------------------------

  /** The query asks for exactly the waits that would be acted on if their condition were unmet. */
  lemma DueExactly(w: Wait, now: int)
    ensures Due(w, now) <==> w.status == PENDING && Decide(w, false, now) != WAIT
  {
  }

  /** A due row can be swept by itself. */
  lemma DueCanBeSelected(rows: seq<Wait>, w: Wait, now: int)
    requires w in rows && Due(w, now)
    ensures Selects(rows, now, [w])
  {
  }

  ghost predicate DistinctKeys(rows: seq<Wait>) {
    forall i, j :: 0 <= i < j < |rows| ==> rows[i].dedupeKey != rows[j].dedupeKey
  }

  /** A new wait is stored behind the others, pending, unless one of its key is there already. */
  lemma ScheduledOnce(rows: seq<Wait>, w: Wait)
    requires w.status == PENDING && Find(rows, w.id).None?
    ensures var after := Schedule(rows, w);
            if exists i :: 0 <= i < |rows| && rows[i].dedupeKey == w.dedupeKey then after == rows
            else after == rows + [w] && StatusOf(after, w.id) == PENDING
    ensures Schedule(Schedule(rows, w), w) == Schedule(rows, w)
  {
    FindAppend(rows, w, w.id);
    if exists i :: 0 <= i < |rows| && rows[i].dedupeKey == w.dedupeKey {
      var i :| 0 <= i < |rows| && rows[i].dedupeKey == w.dedupeKey;
      assert rows[i] in rows;
    } else {
      assert (rows + [w])[|rows|] == w && w in rows + [w];
    }
  }

  lemma StepKeepsKeys(sys: System, a: Action)
    requires DistinctKeys(sys.rows)
    ensures DistinctKeys(Do(sys, a).rows)
  {
    match a
    case ScheduleWait(w) =>
      forall i | 0 <= i < |sys.rows| && Schedule(sys.rows, w) != sys.rows ensures sys.rows[i].dedupeKey != w.dedupeKey {
        assert sys.rows[i] in sys.rows;
      }
    case _ =>
  }

  /** However waits are scheduled and rescheduled, none is ever stored twice under one key. */
  lemma {:induction false} KeysStayDistinct(actions: seq<Action>)
    ensures DistinctKeys(Run(actions).rows)
  {
    if actions != [] {
      KeysStayDistinct(actions[..|actions| - 1]);
      StepKeepsKeys(Run(actions[..|actions| - 1]), actions[|actions| - 1]);
    }
  }

  /** Others may settle a wait in any way but by firing it, and only while it is pending. */
  lemma OthersDoNotFire(sys: System, id: int, status: WaitStatus)
    ensures StatusOf(Do(sys, CloseElsewhere(id, status)).rows, id)
         == if Closable(sys.rows, id) && status != FIRED && status != PENDING then status else StatusOf(sys.rows, id)
  {
    if Closable(sys.rows, id) { CloseSetsStatus(sys.rows, id, status, id); }
  }

  /** However many monitors race, with each other and with whoever else closes waits, and wherever
      they crash: a wait leaves PENDING at most once; its graph path is started at most once, only
      by the sweep that won the FIRED close, only for a sweep time in [trigger, expiry), and only
      after that sweep was told the condition is unmet. */
  lemma RacingMonitorsAreSafe(actions: seq<Action>, id: int)
    ensures var sys := Run(actions);
            && Starts(sys.log, id) <= Claims(sys.log, id) <= Closes(sys.log, id) <= 1
            && (Closes(sys.log, id) == 1 <==> StatusOf(sys.rows, id) != PENDING)
            && (Claims(sys.log, id) == 1 <==> StatusOf(sys.rows, id) == FIRED)
            && (forall e :: e in sys.log && e.Started? ==>
                  && Closed(e.wait.id, FIRED, Some(e.who)) in sys.log && Asked(e.wait.id, e.who, false) in sys.log
                  && e.wait.triggerAt <= e.now < e.wait.expiresAt)
  {
    RunsKeepInv(actions);
    var sys := Run(actions);
    assert Tallied(sys, id);
    forall e | e in sys.log && e.Started?
      ensures MayFire(sys.log, e.wait, e.who, e.now) && WonBy(sys.log, e.wait, e.who)
    {
      assert StartFits(sys.log, e);
    }
  }

  /** A claim that no sweep still holds was started. */
  lemma ClaimsAreHonoured(actions: seq<Action>, id: int)
    requires StatusOf(Run(actions).rows, id) == FIRED && Owing(Run(actions).sweeps, id) == 0
    ensures Starts(Run(actions).log, id) == 1
  {
    RunsKeepInv(actions);
    assert Tallied(Run(actions), id);
  }

  /** No step reopens a wait, or closes it a second way. */
  lemma ClosedStaysClosed(sys: System, a: Action, id: int)
    requires Inv(sys) && StatusOf(sys.rows, id) != PENDING
    ensures StatusOf(Do(sys, a).rows, id) == StatusOf(sys.rows, id)
  {
    match a
    case ScheduleWait(w) => ScheduleKeepsStatus(sys.rows, w, id);
    case CloseElsewhere(other, status) =>
      if Closable(sys.rows, other) { CloseSetsStatus(sys.rows, other, status, id); }
    case BeginSweep(now, selected) =>
    case StepSweep(n, answers) =>
      if n < |sys.sweeps| && sys.sweeps[n].Working() {
        var s := sys.sweeps[n];
        var cur := s.Current().id;
        if Closable(sys.rows, cur) {
          match s.phase
          case Closing(status) => CloseSetsStatus(sys.rows, cur, status, id);
          case Cancelling => CloseSetsStatus(sys.rows, cur, CANCELLED, id);
          case Claiming => CloseSetsStatus(sys.rows, cur, FIRED, id);
          case _ =>
        }
      }
  }
}
