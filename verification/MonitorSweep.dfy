/** The monitor itself: one sweep over the store, nobody interfering, and that it is a run of the
    steps that race. */
module MonitorSweep {
  import opened Prelude
  import opened CheckpointMonitor

  // ---- What undisturbed steps come to -------------------------------------------------------------

  function StepsLeft(phase: Phase): nat {
    match phase
    case Asking => 3
    case Inspecting => 2
    case Starting => 0
    case _ => 1
  }

  /** The steps of sweep `n` up to where it has put its current wait in a bucket. */
  function Alone(rows: seq<Wait>, s: Sweep, n: nat, a: Answers): (seq<Wait>, Sweep)
    requires s.Working() && s.Current().status == PENDING
    decreases StepsLeft(s.phase)
  {
    var m := Advance(rows, s, n, a);
    if m.sweep.done != s.done then (m.rows, m.sweep) else Alone(m.rows, m.sweep, n, a)
  }

  /** What becomes of a wait that is due. */
  function FiredOn(rows: seq<Wait>, w: Wait, a: Answers): (seq<Wait>, Bucket) {
    match a.thread
    case Parked => (rows, InDeferred)
    case Ready =>
      (Close(rows, w.id, FIRED),
       if !Closable(rows, w.id) then InDeferred else if a.started then InFired else InFailed)
    case _ => (Close(rows, w.id, CANCELLED), InCancelled)
  }

  /** Where a wait goes, and the rows that leaves. */
  function Handled(rows: seq<Wait>, w: Wait, now: int, a: Answers): (seq<Wait>, Bucket)
    requires w.status == PENDING
  {
    var won := Closable(rows, w.id);
    match Decide(w, a.met, now)
    case WAIT => (rows, InWaiting)
    case RESOLVE => (Close(rows, w.id, RESOLVED), if won then InResolved else InDeferred)
    case EXPIRE => (Close(rows, w.id, EXPIRED), if won then InExpired else InDeferred)
    case FIRE => FiredOn(rows, w, a)
  }

  lemma ClosingAlone(rows: seq<Wait>, s: Sweep, n: nat, a: Answers)
    requires s.Working() && s.Current().status == PENDING
        && s.phase in {Closing(RESOLVED), Closing(EXPIRED), Cancelling}
    ensures var status := if s.phase == Cancelling then CANCELLED else s.phase.status;
            var won := if s.phase == Cancelling then InCancelled else if status == RESOLVED then InResolved
                else InExpired;
            var lost := if s.phase == Cancelling then InCancelled else InDeferred;
            Alone(rows, s, n, a) == (Close(rows, s.Current().id, status),
                                     s.Put(if Closable(rows, s.Current().id) then won else lost))
  {
  }

  lemma ClaimingAlone(rows: seq<Wait>, s: Sweep, n: nat, a: Answers)
    requires s.Working() && s.Current().status == PENDING && s.phase == Claiming
    ensures Alone(rows, s, n, a)
         == (Close(rows, s.Current().id, FIRED),
             s.Put(if !Closable(rows, s.Current().id) then InDeferred else if a.started then InFired else InFailed))
  {
    var m := Advance(rows, s, n, a);
    if Closable(rows, s.Current().id) {
      assert Alone(m.rows, m.sweep, n, a) == (m.rows, s.Put(if a.started then InFired else InFailed));
    }
  }

  /** Left alone, the steps of a sweep handle a wait in one go. */
  lemma AloneIsHandled(rows: seq<Wait>, s: Sweep, n: nat, a: Answers)
    requires s.Working() && s.Current().status == PENDING && s.phase == Asking
    ensures var (after, bucket) := Handled(rows, s.Current(), s.now, a);
            Alone(rows, s, n, a) == (after, s.Put(bucket))
  {
    var m := Advance(rows, s, n, a);
    match Decide(s.Current(), a.met, s.now)
    case WAIT =>
    case RESOLVE => ClosingAlone(rows, m.sweep, n, a);
    case EXPIRE => ClosingAlone(rows, m.sweep, n, a);
    case FIRE =>
      var next := Advance(rows, m.sweep, n, a);
      if a.thread == Ready {
        ClaimingAlone(rows, next.sweep, n, a);
      } else if a.thread != Parked {
        ClosingAlone(rows, next.sweep, n, a);
      }
  }

  /** What becomes of a pending wait: met beats everything; an unmet one is written off from its expiry
      on, fired from its trigger on if its thread can take it, and otherwise left. */
  lemma WhatBecomesOfAWait(rows: seq<Wait>, w: Wait, now: int, a: Answers)
    requires w.status == PENDING && Closable(rows, w.id)
    ensures var (after, bucket) := Handled(rows, w, now, a);
            (StatusOf(after, w.id), bucket)
            == if a.met then (RESOLVED, InResolved)
               else if w.expiresAt <= now then (EXPIRED, InExpired)
               else if now < w.triggerAt then (PENDING, InWaiting)
               else if a.thread == Parked then (PENDING, InDeferred)
               else if a.thread != Ready then (CANCELLED, InCancelled)
               else (FIRED, if a.started then InFired else InFailed)
    ensures forall other :: other != w.id ==> StatusOf(Handled(rows, w, now, a).0, other) == StatusOf(rows, other)
  {
    forall status, other { CloseSetsStatus(rows, w.id, status, other); }
  }

  /** A wait somebody else closed is only deferred, or cancelled as it would have been. */
  lemma ClosedWaitsAreLeft(rows: seq<Wait>, w: Wait, now: int, a: Answers)
    requires w.status == PENDING && !Closable(rows, w.id)
    ensures var (after, bucket) := Handled(rows, w, now, a);
            && after == rows
            && bucket == (if !a.met && w.expiresAt > now && now < w.triggerAt then InWaiting
                          else if !a.met && w.expiresAt > now && a.thread in {Unregistered, NeverRan} then InCancelled
                          else InDeferred)
  {
  }

  /** A whole sweep, left alone. */
  function Swept(rows: seq<Wait>, s: Sweep, n: nat, ask: int -> Answers): (seq<Wait>, Sweep)
    requires s.phase == Asking && forall w :: w in s.selected ==> w.status == PENDING
    decreases |s.selected| - |s.done|
  {
    if !s.Working() then (rows, s)
    else
      AloneIsHandled(rows, s, n, ask(s.Current().id));
      var (after, next) := Alone(rows, s, n, ask(s.Current().id));
      Swept(after, next, n, ask)
  }

  // ---- It is a run --------------------------------------------------------------------------------------

  /** Going on from a state. */
  function From(sys: System, actions: seq<Action>): System {
    if actions == [] then sys else Do(From(sys, actions[..|actions| - 1]), actions[|actions| - 1])
  }

  lemma {:induction false} RunGoesOn(before: seq<Action>, more: seq<Action>)
    ensures Run(before + more) == From(Run(before), more)
  {
    if more == [] {
      assert before + more == before;
    } else {
      var k := |more| - 1;
      assert (before + more)[..|before + more| - 1] == before + more[..k];
      RunGoesOn(before, more[..k]);
    }
  }

  lemma {:induction false} FromGoesOn(sys: System, first: seq<Action>, more: seq<Action>)
    ensures From(sys, first + more) == From(From(sys, first), more)
  {
    if more == [] {
      assert first + more == first;
    } else {
      var k := |more| - 1;
      assert (first + more)[..|first + more| - 1] == first + more[..k];
      FromGoesOn(sys, first, more[..k]);
    }
  }

  lemma FromOne(sys: System, a: Action)
    ensures From(sys, [a]) == Do(sys, a)
  {
    assert [a][..0] == [];
    assert From(sys, []) == sys;
  }

  predicate StepsOf(actions: seq<Action>, n: nat) { forall a :: a in actions ==> a.StepSweep? && a.n == n }

  /** The rows and sweep `n` are these, and the other sweeps as they were. */
  predicate Reached(sys: System, after: System, n: nat, rows: seq<Wait>, s: Sweep) {
    n < |sys.sweeps| && after.rows == rows && after.sweeps == sys.sweeps[n := s]
  }

  lemma {:induction false} AloneIsSteps(sys: System, n: nat, a: Answers) returns (steps: seq<Action>)
    requires n < |sys.sweeps| && sys.sweeps[n].Working() && sys.sweeps[n].Current().status == PENDING
    ensures StepsOf(steps, n)
    ensures var (rows, s) := Alone(sys.rows, sys.sweeps[n], n, a);
            Reached(sys, From(sys, steps), n, rows, s)
    decreases StepsLeft(sys.sweeps[n].phase)
  {
    var step := StepSweep(n, a);
    var next := Do(sys, step);
    FromOne(sys, step);
    if next.sweeps[n].done != sys.sweeps[n].done {
      steps := [step];
    } else {
      var rest := AloneIsSteps(next, n, a);
      FromGoesOn(sys, [step], rest);
      steps := [step] + rest;
    }
  }

  lemma {:induction false} SweptIsSteps(sys: System, n: nat, ask: int -> Answers) returns (steps: seq<Action>)
    requires n < |sys.sweeps| && sys.sweeps[n].phase == Asking
    requires forall w :: w in sys.sweeps[n].selected ==> w.status == PENDING
    ensures StepsOf(steps, n)
    ensures var (rows, s) := Swept(sys.rows, sys.sweeps[n], n, ask);
            Reached(sys, From(sys, steps), n, rows, s)
    decreases |sys.sweeps[n].selected| - |sys.sweeps[n].done|
  {
    var s := sys.sweeps[n];
    if !s.Working() {
      steps := [];
    } else {
      var a := ask(s.Current().id);
      AloneIsHandled(sys.rows, s, n, a);
      var first := AloneIsSteps(sys, n, a);
      var rest := SweptIsSteps(From(sys, first), n, ask);
      FromGoesOn(sys, first, rest);
      steps := first + rest;
    }
  }

  /** After any run at all, a sweep left alone is that run gone on with: the sweep begun, and then
      nothing but its own steps. So what holds of every run holds of the object. */
  lemma SweptIsARun(before: seq<Action>, now: int, selected: seq<Wait>, ask: int -> Answers)
    returns (steps: seq<Action>)
    requires Selects(Run(before).rows, now, selected)
    ensures var n := |Run(before).sweeps|;
            var (rows, s) := Swept(Run(before).rows, Sweep(now, selected, [], Asking), n, ask);
            && StepsOf(steps, n)
            && Run(before + ([BeginSweep(now, selected)] + steps)).rows == rows
            && Run(before + ([BeginSweep(now, selected)] + steps)).sweeps == Run(before).sweeps + [s]
  {
    var sys := Run(before);
    var begin := BeginSweep(now, selected);
    FromOne(sys, begin);
    steps := SweptIsSteps(Do(sys, begin), |sys.sweeps|, ask);
    FromGoesOn(sys, [begin], steps);
    RunGoesOn(before, [begin] + steps);
  }

  // ---- The objects ------------------------------------------------------------------------------------

  class PendingCheckpointStore {
    var rows: seq<Wait>

    /** The guarded update, and whether it changed a row. */
    method CloseWait(id: int, status: WaitStatus) returns (won: bool)
      modifies this
      ensures rows == Close(old(rows), id, status) && won == Closable(old(rows), id)
    {
      won := false;
      var k := 0;
      while k < |rows| && rows[k].id != id
        invariant 0 <= k <= |rows| && rows == old(rows)
        invariant Find(rows, id) == match Find(rows[k..], id) case None => None case Some(j) => Some(k + j)
      {
        assert rows[k..][1..] == rows[k + 1..];
        k := k + 1;
      }
      if k < |rows| && rows[k].status == PENDING {
        rows := rows[k := rows[k].(status := status)];
        won := true;
      }
    }
  }

  function Ids(done: seq<(int, Bucket)>, bucket: Bucket): seq<int> {
    if done == [] then []
    else
      var last := done[|done| - 1];
      Ids(done[..|done| - 1], bucket) + if last.1 == bucket then [last.0] else []
  }

  lemma IdsGrow(done: seq<(int, Bucket)>, id: int, into: Bucket)
    ensures forall b :: Ids(done + [(id, into)], b) == Ids(done, b) + if into == b then [id] else []
  {
    assert (done + [(id, into)])[..|done|] == done;
  }

  class Buckets {
    var resolved: seq<int>
    var fired: seq<int>
    var expired: seq<int>
    var deferred: seq<int>
    var cancelled: seq<int>
    var failed: seq<int>
    var waiting: seq<int>

    constructor ()
      ensures Hold([])
    {
      resolved, fired, expired, deferred, cancelled, failed, waiting := [], [], [], [], [], [], [];
    }

    predicate Hold(done: seq<(int, Bucket)>)
      reads this
    {
      && resolved == Ids(done, InResolved) && fired == Ids(done, InFired) && expired == Ids(done, InExpired)
      && deferred == Ids(done, InDeferred) && cancelled == Ids(done, InCancelled)
      && failed == Ids(done, InFailed) && waiting == Ids(done, InWaiting)
    }
  }

  /** A report's lists are the waits of each bucket, in the order they were handled. */
  lemma ReportIsTheAccount(b: Buckets, done: seq<(int, Bucket)>)
    requires b.Hold(done)
    ensures b.resolved == Ids(done, InResolved) && b.expired == Ids(done, InExpired)
    ensures b.fired == Ids(done, InFired) && b.failed == Ids(done, InFailed)
    ensures b.deferred == Ids(done, InDeferred) && b.cancelled == Ids(done, InCancelled)
    ensures b.waiting == Ids(done, InWaiting)
  {
  }

  class PendingCheckpointMonitor {
    const store: PendingCheckpointStore

    constructor (store: PendingCheckpointStore)
      ensures this.store == store
    {
      this.store := store;
    }

    /** Claims the wait and starts what it names. */
    method Fire(w: Wait, a: Answers, buckets: Buckets, ghost done: seq<(int, Bucket)>)
      requires w.status == PENDING && buckets.Hold(done)
      modifies store, buckets
      ensures store.rows == FiredOn(old(store.rows), w, a).0
      ensures buckets.Hold(done + [(w.id, FiredOn(old(store.rows), w, a).1)])
    {
      IdsGrow(done, w.id, FiredOn(store.rows, w, a).1);
      if a.thread == Unregistered || a.thread == NeverRan {
        var _ := store.CloseWait(w.id, CANCELLED);
        buckets.cancelled := buckets.cancelled + [w.id];
        return;
      }
      if a.thread == Parked {
        buckets.deferred := buckets.deferred + [w.id];
        return;
      }
      var won := store.CloseWait(w.id, FIRED);
      if !won {
        buckets.deferred := buckets.deferred + [w.id];
      } else if !a.started {
        buckets.failed := buckets.failed + [w.id];
      } else {
        buckets.fired := buckets.fired + [w.id];
      }
    }

    method Handle(w: Wait, now: int, a: Answers, buckets: Buckets, ghost done: seq<(int, Bucket)>)
      requires w.status == PENDING && buckets.Hold(done)
      modifies store, buckets
      ensures store.rows == Handled(old(store.rows), w, now, a).0
      ensures buckets.Hold(done + [(w.id, Handled(old(store.rows), w, now, a).1)])
    {
      IdsGrow(done, w.id, Handled(store.rows, w, now, a).1);
      match Decide(w, a.met, now)
      case WAIT =>
        buckets.waiting := buckets.waiting + [w.id];
      case RESOLVE =>
        var won := store.CloseWait(w.id, RESOLVED);
        if won {
          buckets.resolved := buckets.resolved + [w.id];
        } else {
          buckets.deferred := buckets.deferred + [w.id];
        }
      case EXPIRE =>
        var won := store.CloseWait(w.id, EXPIRED);
        if won {
          buckets.expired := buckets.expired + [w.id];
        } else {
          buckets.deferred := buckets.deferred + [w.id];
        }
      case FIRE =>
        Fire(w, a, buckets, done);
    }

    /** Decides about every wait the store returned, with the time taken once. */
    method SweepAll(now: int, selected: seq<Wait>, ask: int -> Answers) returns (buckets: Buckets)
      requires forall w :: w in selected ==> w.status == PENDING && Due(w, now)
      modifies store
      ensures fresh(buckets)
      ensures forall n: nat :: store.rows == Swept(old(store.rows), Sweep(now, selected, [], Asking), n, ask).0
      ensures forall n: nat :: buckets.Hold(Swept(old(store.rows), Sweep(now, selected, [], Asking), n, ask).1.done)
    {
      buckets := new Buckets();
      ghost var s := Sweep(now, selected, [], Asking);
      var k := 0;
      while k < |selected|
        invariant 0 <= k <= |selected| && fresh(buckets)
        invariant s.selected == selected && s.now == now && s.phase == Asking && |s.done| == k
        invariant buckets.Hold(s.done)
        invariant forall n: nat ::
          Swept(old(store.rows), Sweep(now, selected, [], Asking), n, ask) == Swept(store.rows, s, n, ask)
      {
        var w := selected[k];
        assert w in selected && s.Current() == w;
        ghost var bucket := Handled(store.rows, w, now, ask(w.id)).1;
        forall n: nat { AloneIsHandled(store.rows, s, n, ask(w.id)); }
        Handle(w, now, ask(w.id), buckets, s.done);
        s := s.Put(bucket);
        k := k + 1;
      }
    }
  }
}
