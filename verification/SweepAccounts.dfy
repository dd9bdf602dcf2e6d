/** What a finished sweep's report says, exactly: every bucket against what is on record. */
module SweepAccounts {
  import opened Prelude
  import opened CheckpointMonitor

  // ---- What a sweep did is in its buckets --------------------------------------------------------------

  /** Where a sweep has this wait, or will have it, if it closed it with this status. */
  predicate Shows(s: Sweep, id: int, status: WaitStatus) {
    match status
    case RESOLVED => (id, InResolved) in s.done
    case EXPIRED => (id, InExpired) in s.done
    case CANCELLED => (id, InCancelled) in s.done
    case FIRED => (id, InFired) in s.done || (id, InFailed) in s.done || Owes(s, id) == 1
    case PENDING => false
  }

  predicate OnRecord(sweeps: seq<Sweep>, e: Event) {
    && (e.Closed? && e.closer.Some? ==> e.closer.value < |sweeps| && Shows(sweeps[e.closer.value], e.id, e.status))
    && (e.Started? ==> e.who < |sweeps| && (e.wait.id, if e.ok then InFired else InFailed) in sweeps[e.who].done)
  }

  /** What was selected still has its row, and what was cancelled was closed by someone. */
  predicate KnownAndClosed(sys: System, s: Sweep) {
    && (forall w :: w in s.selected ==> Find(sys.rows, w.id).Some?)
    && forall k :: 0 <= k < |s.done| && s.done[k].1 == InCancelled ==> Closes(sys.log, s.done[k].0) >= 1
  }

  ghost predicate Accounts(sys: System) {
    && (forall e :: e in sys.log ==> OnRecord(sys.sweeps, e))
    && forall n: nat :: n < |sys.sweeps| ==> KnownAndClosed(sys, sys.sweeps[n])
  }

  lemma CloseKeepsRows(rows: seq<Wait>, id: int, status: WaitStatus, other: int)
    ensures Find(Close(rows, id, status), other) == Find(rows, other)
  {
    if Closable(rows, id) { FindAfterUpdate(rows, Find(rows, id).value, status, other); }
  }

  lemma {:induction false} ClosesOnlyGrow(log: seq<Event>, more: seq<Event>, id: int)
    ensures Closes(log, id) <= Closes(log + more, id)
  {
    if more == [] {
      assert log + more == log;
    } else {
      var n := |more| - 1;
      assert log + more == log + more[..n] + [more[n]];
      CountsGrow(log + more[..n], more[n], id);
      ClosesOnlyGrow(log, more[..n], id);
    }
  }

  lemma {:induction false} RowIsFound(rows: seq<Wait>, w: Wait)
    requires w in rows
    ensures Find(rows, w.id).Some?
  {
    if rows[0].id != w.id { RowIsFound(rows[1..], w); }
  }

  // ---- Each step keeps it ------------------------------------------------------------------------------

  lemma StillKnown(sys: System, after: System, s: Sweep)
    requires KnownAndClosed(sys, s)
    requires forall id :: Find(sys.rows, id).Some? ==> Find(after.rows, id).Some?
    requires sys.log <= after.log
    ensures KnownAndClosed(after, s)
  {
    assert after.log == sys.log + after.log[|sys.log|..];
    forall k | 0 <= k < |s.done| && s.done[k].1 == InCancelled ensures Closes(after.log, s.done[k].0) >= 1 {
      ClosesOnlyGrow(sys.log, after.log[|sys.log|..], s.done[k].0);
    }
  }

  /** A step that leaves the sweeps be, and closes at most for somebody else. */
  lemma OthersKeepAccounts(sys: System, after: System)
    requires Accounts(sys) && after.sweeps == sys.sweeps && sys.log <= after.log
    requires forall id :: Find(sys.rows, id).Some? ==> Find(after.rows, id).Some?
    requires forall e :: e in after.log && e !in sys.log ==> e.Closed? && e.closer.None?
    ensures Accounts(after)
  {
    forall n: nat | n < |after.sweeps| ensures KnownAndClosed(after, after.sweeps[n]) {
      StillKnown(sys, after, sys.sweeps[n]);
    }
  }

  lemma ScheduleKeepsAccounts(sys: System, w: Wait)
    requires Accounts(sys)
    ensures Accounts(Do(sys, ScheduleWait(w)))
  {
    forall id | Find(sys.rows, id).Some? ensures Find(Schedule(sys.rows, w), id).Some? {
      FindAppend(sys.rows, w, id);
    }
    OthersKeepAccounts(sys, Do(sys, ScheduleWait(w)));
  }

  lemma CloseKeepsAccounts(sys: System, id: int, status: WaitStatus)
    requires Accounts(sys)
    ensures Accounts(Do(sys, CloseElsewhere(id, status)))
  {
    forall other { CloseKeepsRows(sys.rows, id, status, other); }
    OthersKeepAccounts(sys, Do(sys, CloseElsewhere(id, status)));
  }

  lemma BeginKeepsAccounts(sys: System, now: int, selected: seq<Wait>)
    requires Accounts(sys) && Selects(sys.rows, now, selected)
    ensures Accounts(Do(sys, BeginSweep(now, selected)))
  {
    var after := Do(sys, BeginSweep(now, selected));
    forall w | w in selected ensures Find(sys.rows, w.id).Some? { RowIsFound(sys.rows, w); }
    forall n: nat | n < |after.sweeps| ensures KnownAndClosed(after, after.sweeps[n]) {
      if n < |sys.sweeps| { StillKnown(sys, after, sys.sweeps[n]); }
    }
    forall e | e in after.log ensures OnRecord(after.sweeps, e) { assert OnRecord(sys.sweeps, e); }
  }

  /** What one advance adds to the log is in the sweep it leaves, and what was there stays. */
  lemma AdvanceShows(rows: seq<Wait>, s: Sweep, n: nat, a: Answers)
    requires s.Working() && s.Current().status == PENDING
    requires s.phase.Closing? ==> s.phase.status in {RESOLVED, EXPIRED}
    ensures var m := Advance(rows, s, n, a);
            && (forall id, status :: Shows(s, id, status) ==> Shows(m.sweep, id, status))
            && (forall p :: p in s.done ==> p in m.sweep.done)
            && (forall e :: e in m.events && e.Closed? ==> e.closer == Some(n) && Shows(m.sweep, e.id, e.status))
            && (forall e :: e in m.events && e.Started? ==>
                  e.who == n && (e.wait.id, if e.ok then InFired else InFailed) in m.sweep.done)
  {
  }

  /** A wait is put in `cancelled` only once someone has closed it. */
  lemma CancelledWasClosed(sys: System, n: nat, a: Answers)
    requires Inv(sys) && n < |sys.sweeps| && sys.sweeps[n].Working() && KnownAndClosed(sys, sys.sweeps[n])
    ensures var m := Advance(sys.rows, sys.sweeps[n], n, a);
            forall k :: 0 <= k < |m.sweep.done| && m.sweep.done[k].1 == InCancelled
              ==> Closes(sys.log + m.events, m.sweep.done[k].0) >= 1
  {
    var s := sys.sweeps[n];
    assert SweepFits(sys.log, s, n);
    var m := Advance(sys.rows, s, n, a);
    var id := s.Current().id;
    assert s.Current() in s.selected;
    assert Tallied(sys, id);
    forall k | 0 <= k < |m.sweep.done| && m.sweep.done[k].1 == InCancelled
      ensures Closes(sys.log + m.events, m.sweep.done[k].0) >= 1
    {
      ClosesOnlyGrow(sys.log, m.events, m.sweep.done[k].0);
      if k == |s.done| && Closable(sys.rows, id) {
        CountsGrow(sys.log, Closed(id, CANCELLED, Some(n)), id);
      }
    }
  }

  lemma AdvanceKeepsRows(rows: seq<Wait>, s: Sweep, n: nat, a: Answers, id: int)
    requires s.Working() && s.Current().status == PENDING
    ensures Find(Advance(rows, s, n, a).rows, id) == Find(rows, id)
    ensures Advance(rows, s, n, a).sweep.selected == s.selected
  {
    forall status { CloseKeepsRows(rows, s.Current().id, status, id); }
  }

  lemma StepIsOnRecord(sys: System, n: nat, a: Answers)
    requires Inv(sys) && Accounts(sys) && n < |sys.sweeps| && sys.sweeps[n].Working()
    ensures var after := Applied(sys, n, Advance(sys.rows, sys.sweeps[n], n, a));
            forall e :: e in after.log ==> OnRecord(after.sweeps, e)
  {
    assert SweepFits(sys.log, sys.sweeps[n], n);
    AdvanceShows(sys.rows, sys.sweeps[n], n, a);
    var after := Applied(sys, n, Advance(sys.rows, sys.sweeps[n], n, a));
    forall e | e in after.log ensures OnRecord(after.sweeps, e) {
      if e in sys.log { assert OnRecord(sys.sweeps, e); }
    }
  }

  lemma MovedIsKnown(sys: System, n: nat, m: Moved)
    requires Accounts(sys) && n < |sys.sweeps| && m.sweep.selected == sys.sweeps[n].selected
    requires forall id :: Find(m.rows, id) == Find(sys.rows, id)
    requires forall k :: 0 <= k < |m.sweep.done| && m.sweep.done[k].1 == InCancelled
               ==> Closes(sys.log + m.events, m.sweep.done[k].0) >= 1
    ensures var after := Applied(sys, n, m);
            forall j: nat :: j < |after.sweeps| ==> KnownAndClosed(after, after.sweeps[j])
  {
    var after := Applied(sys, n, m);
    assert KnownAndClosed(sys, sys.sweeps[n]);
    forall j: nat | j < |after.sweeps| ensures KnownAndClosed(after, after.sweeps[j]) {
      if j != n { StillKnown(sys, after, sys.sweeps[j]); }
    }
  }

  lemma StepKeepsAccounts(sys: System, n: nat, a: Answers)
    requires Inv(sys) && Accounts(sys) && n < |sys.sweeps| && sys.sweeps[n].Working()
    ensures Accounts(Applied(sys, n, Advance(sys.rows, sys.sweeps[n], n, a)))
  {
    var m := Advance(sys.rows, sys.sweeps[n], n, a);
    assert SweepFits(sys.log, sys.sweeps[n], n) && KnownAndClosed(sys, sys.sweeps[n]);
    StepIsOnRecord(sys, n, a);
    forall id { AdvanceKeepsRows(sys.rows, sys.sweeps[n], n, a, id); }
    CancelledWasClosed(sys, n, a);
    MovedIsKnown(sys, n, m);
  }

  lemma {:induction false} RunsKeepAccounts(actions: seq<Action>)
    ensures Accounts(Run(actions))
  {
    if actions != [] {
      var before := Run(actions[..|actions| - 1]);
      RunsKeepAccounts(actions[..|actions| - 1]);
      RunsKeepInv(actions[..|actions| - 1]);
      match actions[|actions| - 1]
      case StepSweep(n, answers) =>
        if n < |before.sweeps| && before.sweeps[n].Working() {
          assert SweepFits(before.log, before.sweeps[n], n);
          StepKeepsAccounts(before, n, answers);
        }
      case ScheduleWait(w) => ScheduleKeepsAccounts(before, w);
      case CloseElsewhere(id, status) => CloseKeepsAccounts(before, id, status);
      case BeginSweep(now, selected) =>
        if Selects(before.rows, now, selected) { BeginKeepsAccounts(before, now, selected); }
    }
  }

  // ---- What follows ------------------------------------------------------------------------------------

  /** Which bucket a wait is in, by what is on record of sweep `n`. Whoever cancels a wait, it is
      closed; a deferred wait is one this sweep neither closed nor started. */
  ghost predicate SaysExactly(log: seq<Event>, w: Wait, bucket: Bucket, n: nat, now: int) {
    && (bucket == InResolved <==> Closed(w.id, RESOLVED, Some(n)) in log)
    && (bucket == InExpired <==> Closed(w.id, EXPIRED, Some(n)) in log)
    && (bucket == InFired <==> Started(w, n, now, true) in log)
    && (bucket == InFailed <==> Started(w, n, now, false) in log)
    && (bucket in {InFired, InFailed} <==> Closed(w.id, FIRED, Some(n)) in log)
    && (bucket == InResolved ==> Asked(w.id, n, true) in log)
    && (bucket == InExpired ==> w.expiresAt <= now && Asked(w.id, n, false) in log)
    && (bucket in {InFired, InFailed, InCancelled} ==>
          w.triggerAt <= now < w.expiresAt && Asked(w.id, n, false) in log)
    && (Closed(w.id, CANCELLED, Some(n)) in log ==> bucket == InCancelled)
    && (bucket == InCancelled ==> Closes(log, w.id) == 1)
    && (bucket == InDeferred ==> forall status :: Closed(w.id, status, Some(n)) !in log)
    && bucket != InWaiting
  }

  lemma OneBucketEach(s: Sweep, k: nat, bucket: Bucket)
    requires Accounted(s) && k < |s.done| && (s.selected[k].id, bucket) in s.done
    ensures bucket == s.done[k].1
  {
    var j :| 0 <= j < |s.done| && s.done[j] == (s.selected[k].id, bucket);
    assert s.selected[j].id == s.selected[k].id;
  }

  /** Whatever is on record of a finished sweep and a wait is what its bucket says. */
  lemma RecordNamesBucket(sys: System, n: nat, k: nat, status: WaitStatus)
    requires Accounts(sys) && n < |sys.sweeps| && Accounted(sys.sweeps[n]) && !sys.sweeps[n].Working()
    requires k < |sys.sweeps[n].done| && Closed(sys.sweeps[n].selected[k].id, status, Some(n)) in sys.log
    ensures var bucket := sys.sweeps[n].done[k].1;
            match status
            case RESOLVED => bucket == InResolved
            case EXPIRED => bucket == InExpired
            case CANCELLED => bucket == InCancelled
            case FIRED => bucket in {InFired, InFailed}
            case PENDING => false
  {
    var s := sys.sweeps[n];
    var id := s.selected[k].id;
    assert OnRecord(sys.sweeps, Closed(id, status, Some(n)));
    forall bucket | (id, bucket) in s.done ensures bucket == s.done[k].1 { OneBucketEach(s, k, bucket); }
  }

  lemma StartNamesBucket(sys: System, n: nat, k: nat, now: int, ok: bool)
    requires Accounts(sys) && n < |sys.sweeps| && Accounted(sys.sweeps[n])
    requires k < |sys.sweeps[n].done| && Started(sys.sweeps[n].selected[k], n, now, ok) in sys.log
    ensures sys.sweeps[n].done[k].1 == if ok then InFired else InFailed
  {
    assert OnRecord(sys.sweeps, Started(sys.sweeps[n].selected[k], n, now, ok));
    OneBucketEach(sys.sweeps[n], k, if ok then InFired else InFailed);
  }

  lemma BucketIsExact(sys: System, n: nat, k: nat)
    requires Inv(sys) && Accounts(sys) && n < |sys.sweeps| && !sys.sweeps[n].Working() && k < |sys.sweeps[n].done|
    requires SweepFits(sys.log, sys.sweeps[n], n)
    ensures var s := sys.sweeps[n];
            SaysExactly(sys.log, s.selected[k], s.done[k].1, n, s.now)
  {
    var s := sys.sweeps[n];
    var w, bucket := s.selected[k], s.done[k].1;
    assert BucketFits(sys.log, w, bucket, n, s.now);
    assert KnownAndClosed(sys, s) && Tallied(sys, w.id);
    forall status | Closed(w.id, status, Some(n)) in sys.log
      ensures bucket != InDeferred && (status == RESOLVED ==> bucket == InResolved)
              && (status == EXPIRED ==> bucket == InExpired) && (status == CANCELLED ==> bucket == InCancelled)
              && (status == FIRED ==> bucket in {InFired, InFailed})
    {
      RecordNamesBucket(sys, n, k, status);
    }
    forall ok | Started(w, n, s.now, ok) in sys.log ensures bucket == if ok then InFired else InFailed {
      StartNamesBucket(sys, n, k, s.now, ok);
    }
    if bucket in {InFired, InFailed} { assert StartFits(sys.log, Started(w, n, s.now, bucket == InFired)); }
  }

  /** A sweep that finishes puts each wait it selected in one bucket, and the bucket says exactly what
      that sweep did, however many others ran beside it. */
  lemma FinishedSweepsAccount(actions: seq<Action>, n: nat, k: nat)
    requires n < |Run(actions).sweeps| && !Run(actions).sweeps[n].Working() && k < |Run(actions).sweeps[n].selected|
    ensures var s := Run(actions).sweeps[n];
            && |s.done| == |s.selected|
            && (forall j :: 0 <= j < |s.done| ==> (s.done[j].0 == s.selected[k].id <==> j == k))
            && SaysExactly(Run(actions).log, s.selected[k], s.done[k].1, n, s.now)
  {
    RunsKeepInv(actions);
    RunsKeepAccounts(actions);
    assert SweepFits(Run(actions).log, Run(actions).sweeps[n], n);
    BucketIsExact(Run(actions), n, k);
  }
}
