/** The lifecycle of a tracked application, and what its holding states can and cannot hide. */
module Lifecycle {
  import opened Prelude

  datatype Status =
    | DISCOVERED | SAVED | PREPARING | READY_TO_APPLY | APPLIED | RESPONSE | INTERVIEWING | OFFER
    | ACCEPTED | DECLINED | REJECTED | WITHDRAWN | SKIPPED | FOLLOW_UP_PENDING | STALLED

  /** The table of moves. A holding state's moves are those of the status it was held from. */
  function Successors(s: Status): set<Status> {
    match s
    case DISCOVERED => {SAVED, SKIPPED}
    case SAVED => {PREPARING, SKIPPED, STALLED}
    case PREPARING => {READY_TO_APPLY, SKIPPED, STALLED}
    case READY_TO_APPLY => {APPLIED, SKIPPED, STALLED}
    case APPLIED => {RESPONSE, INTERVIEWING, REJECTED, WITHDRAWN, FOLLOW_UP_PENDING, STALLED}
    case RESPONSE => {INTERVIEWING, REJECTED, WITHDRAWN, FOLLOW_UP_PENDING, STALLED}
    case INTERVIEWING => {OFFER, REJECTED, WITHDRAWN, FOLLOW_UP_PENDING, STALLED}
    case OFFER => {ACCEPTED, DECLINED, WITHDRAWN, STALLED}
    case _ => {}
  }

  predicate Holding(s: Status) { s == FOLLOW_UP_PENDING || s == STALLED }

  predicate Terminal(s: Status) { !Holding(s) && Successors(s) == {} }

  /** Where a stall is allowed, from being merely awaited included. */
  predicate Stallable(s: Status) { STALLED in Successors(s) || s == FOLLOW_UP_PENDING }

  /** What is stored of an application: its status, and the one it was held from. */
  datatype Row = Row(status: Status, resume: Option<Status>)

  const FRESH := Row(DISCOVERED, None)

  function Allowed(row: Row): set<Status> {
    if !Holding(row.status) then Successors(row.status)
    else if row.resume.None? || Holding(row.resume.value) then {}
    else Successors(row.resume.value) + {row.resume.value} - {row.status}
  }

  function ResumeAfter(row: Row, next: Status): Option<Status> {
    if !Holding(next) then None else if Holding(row.status) then row.resume else Some(row.status)
  }

  function After(row: Row, next: Status): Row { Row(next, ResumeAfter(row, next)) }

  /** Where an application really is: where it was held from, while it is held. */
  function Effective(row: Row): Status {
    if Holding(row.status) then row.resume.GetOr(row.status) else row.status
  }

  // ---- One move -----------------------------------------------------------------------------------

  /** A row the lifecycle can produce. */
  predicate Proper(row: Row) {
    if Holding(row.status) then
      row.resume.Some? && !Holding(row.resume.value) && row.status in Successors(row.resume.value)
    else row.resume.None?
  }

  lemma MoveKeepsProper(row: Row, next: Status)
    requires Proper(row) && next in Allowed(row)
    ensures Proper(After(row, next))
  {
  }

  /** A move from a held row either changes which way it is held, or is one that the status it is
      held from could have made; so holding is invisible. */
  lemma MoveOfEffective(row: Row, next: Status)
    requires Proper(row) && next in Allowed(row)
    ensures var e := Effective(row); var f := Effective(After(row, next));
            if f == e then next == e || Holding(next) else f == next && next in Successors(e) && !Holding(next)
  {
  }

  lemma HeldMovesAsIfNeverHeld(row: Row, next: Status)
    requires Proper(row) && Holding(row.status) && !Holding(next)
    ensures next in Allowed(row) <==> next == row.resume.value || next in Allowed(Row(row.resume.value, None))
    ensures !Terminal(row.resume.value)
  {
  }

  /** The stall check asks about exactly the states that may be stalled. */
  lemma StalledExactlyFromStallable(row: Row)
    requires Proper(row)
    ensures STALLED in Allowed(row) <==> Stallable(row.status)
  {
  }

  /** The statuses an application may come from, the other way round from the table of moves. */
  function Predecessors(s: Status): set<Status> {
    if s == SAVED then {DISCOVERED}
    else if s == PREPARING then {SAVED}
    else if s == READY_TO_APPLY then {PREPARING}
    else if s == APPLIED then {READY_TO_APPLY}
    else if s == RESPONSE then {APPLIED}
    else if s == INTERVIEWING then {APPLIED, RESPONSE}
    else if s == OFFER then {INTERVIEWING}
    else if s == ACCEPTED || s == DECLINED then {OFFER}
    else if s == REJECTED || s == FOLLOW_UP_PENDING then {APPLIED, RESPONSE, INTERVIEWING}
    else if s == WITHDRAWN then {APPLIED, RESPONSE, INTERVIEWING, OFFER}
    else if s == SKIPPED then {DISCOVERED, SAVED, PREPARING, READY_TO_APPLY}
    else if s == STALLED then {SAVED, PREPARING, READY_TO_APPLY, APPLIED, RESPONSE, INTERVIEWING, OFFER}
    else {}
  }

  lemma MovesLeadElsewhere(s: Status, next: Status)
    requires next in Successors(s)
    ensures next != s && !Holding(s) && s in Predecessors(next)
  {
  }

  lemma PredecessorsMove(s: Status, next: Status)
    requires s in Predecessors(next)
    ensures next in Successors(s)
  {
  }

  /** Every status is entered exactly from where it may be, holding aside: skipping is for those who have
      not applied, a rejection needs an application that got no offer, and withdrawing any application
      that is still open; a held application may also go back to where it was held from. */
  lemma EnteredExactlyFrom(row: Row, next: Status)
    requires Proper(row)
    ensures next in Allowed(row)
       <==> next != row.status && (Effective(row) in Predecessors(next) || next == Effective(row))
  {
    if next in Successors(Effective(row)) { MovesLeadElsewhere(Effective(row), next); }
    if Effective(row) in Predecessors(next) { PredecessorsMove(Effective(row), next); }
  }

  // ---- Runs ------------------------------------------------------------------------------------------

  /** Step `k` was decided from the row read at `i`, and its guarded write found that status. */
  predicate Step(rows: seq<Row>, k: nat, i: nat)
    requires 0 < k < |rows| && i < k
  {
    && rows[i].status == rows[k - 1].status
    && rows[k].status in Allowed(rows[i])
    && rows[k] == After(rows[i], rows[k].status)
  }

  /** Step `k` was decided from some row read before it. */
  ghost predicate Raced(rows: seq<Row>, k: nat)
    requires 0 < k < |rows|
  {
    exists i: nat {:trigger Step(rows, k, i)} :: i < k && Step(rows, k, i)
  }

  /** Every row an application goes through while writers that read and write race. */
  ghost predicate RacingRun(rows: seq<Row>) {
    && |rows| > 0 && rows[0] == FRESH
    && forall k: nat :: 0 < k < |rows| ==> Raced(rows, k)
  }

  /** Step `k` is one the lifecycle allows from the row it replaces. */
  predicate Legal(rows: seq<Row>, k: nat)
    requires 0 < k < |rows|
  {
    Step(rows, k, k - 1)
  }

  /** Nobody reads a row that is replaced before they write. */
  predicate SerialRun(rows: seq<Row>) {
    && |rows| > 0 && rows[0] == FRESH
    && forall k: nat :: 0 < k < |rows| ==> Legal(rows, k)
  }

  lemma {:induction false} RacingRunsStayProper(rows: seq<Row>, k: nat)
    requires RacingRun(rows) && k < |rows|
    ensures Proper(rows[k])
  {
    if k > 0 {
      assert Raced(rows, k);
      var i: nat :| i < k && Step(rows, k, i);
      RacingRunsStayProper(rows, i);
      MoveKeepsProper(rows[i], rows[k].status);
    }
  }

  /** Nothing follows a terminal status, however writers race. */
  lemma TerminalIsFinal(rows: seq<Row>, k: nat)
    requires RacingRun(rows) && 0 < k < |rows|
    ensures !Terminal(rows[k - 1].status)
  {
    assert Raced(rows, k);
    var i: nat :| i < k && Step(rows, k, i);
    RacingRunsStayProper(rows, i);
    assert rows[k].status in Allowed(rows[i]);
  }

  // ---- What must have happened ---------------------------------------------------------------------------

  predicate PastApplying(s: Status) {
    s in {APPLIED, RESPONSE, INTERVIEWING, OFFER, ACCEPTED, DECLINED, REJECTED, WITHDRAWN}
  }

  predicate PastInterviewing(s: Status) { s in {INTERVIEWING, OFFER, ACCEPTED, DECLINED} }

  /** The application was in APPLIED at `a` and in INTERVIEWING at `j`. */
  predicate Passed(rows: seq<Row>, a: nat, j: nat) {
    a < j < |rows| && rows[a].status == APPLIED && rows[j].status == INTERVIEWING
  }

  lemma {:induction false} WasApplied(rows: seq<Row>, k: nat) returns (a: nat)
    requires RacingRun(rows) && k < |rows| && PastApplying(Effective(rows[k]))
    ensures a <= k && rows[a].status == APPLIED
  {
    if rows[k].status == APPLIED {
      a := k;
    } else {
      assert Raced(rows, k);
      var i: nat :| i < k && Step(rows, k, i);
      RacingRunsStayProper(rows, i);
      MoveOfEffective(rows[i], rows[k].status);
      a := WasApplied(rows, i);
    }
  }

  /** No application is offered anything, or answers an offer, that did not apply and then interview,
      however writers race. */
  lemma {:induction false} OffersAreEarned(rows: seq<Row>, k: nat) returns (a: nat, j: nat)
    requires RacingRun(rows) && k < |rows| && PastInterviewing(Effective(rows[k]))
    ensures j <= k && Passed(rows, a, j)
  {
    assert Raced(rows, k);
    var i: nat :| i < k && Step(rows, k, i);
    RacingRunsStayProper(rows, i);
    MoveOfEffective(rows[i], rows[k].status);
    if PastInterviewing(Effective(rows[i])) {
      a, j := OffersAreEarned(rows, i);
    } else {
      a := WasApplied(rows, i);
      j := k;
    }
  }

  // ---- How far a run goes ------------------------------------------------------------------------------------

  function Rank(s: Status): nat {
    match s
    case DISCOVERED => 0
    case SAVED => 1
    case PREPARING => 2
    case READY_TO_APPLY => 3
    case APPLIED => 4
    case RESPONSE => 5
    case INTERVIEWING => 6
    case OFFER => 7
    case _ => 8
  }

  /** How often the effective status changed. */
  function Moves(rows: seq<Row>): nat {
    if |rows| < 2 then 0
    else Moves(rows[..|rows| - 1]) + if Effective(rows[|rows| - 1]) != Effective(rows[|rows| - 2]) then 1 else 0
  }

  lemma SerialIsRacing(rows: seq<Row>)
    requires SerialRun(rows)
    ensures RacingRun(rows)
  {
    forall k: nat | 0 < k < |rows| ensures Raced(rows, k) {
      assert Legal(rows, k);
    }
  }

  lemma SerialPrefix(rows: seq<Row>, n: nat)
    requires SerialRun(rows) && 0 < n <= |rows|
    ensures SerialRun(rows[..n])
  {
    forall k: nat | 0 < k < n ensures Legal(rows[..n], k) { assert Legal(rows, k); }
  }

  /** One writer at a time: the effective status only stutters or follows the table. */
  lemma EffectiveFollowsTheTable(rows: seq<Row>, k: nat)
    requires SerialRun(rows) && 0 < k < |rows|
    ensures var e := Effective(rows[k - 1]); var f := Effective(rows[k]);
            f == e || (f in Successors(e) && !Holding(f))
  {
    SerialIsRacing(rows);
    RacingRunsStayProper(rows, k - 1);
    assert Legal(rows, k);
    MoveOfEffective(rows[k - 1], rows[k].status);
  }

  lemma TableClimbs(s: Status, t: Status)
    requires t in Successors(s) && !Holding(t)
    ensures Rank(s) < Rank(t) <= 8
  {
  }

  /** And it changes at most eight times, however often the application is held. */
  lemma {:induction false} AtMostEightMoves(rows: seq<Row>)
    requires SerialRun(rows)
    ensures Moves(rows) <= Rank(Effective(rows[|rows| - 1])) <= 8
    decreases |rows|
  {
    var n := |rows| - 1;
    if n > 0 {
      SerialPrefix(rows, n);
      AtMostEightMoves(rows[..n]);
      EffectiveFollowsTheTable(rows, n);
      if Effective(rows[n]) != Effective(rows[n - 1]) { TableClimbs(Effective(rows[n - 1]), Effective(rows[n])); }
    }
  }

  // ---- What racing writers can break ---------------------------------------------------------------------------

  /** Whatever a writer decides from `read` is a move of `current` as well, with the same outcome. */
  ghost predicate SafeToWrite(read: Row, current: Row) {
    forall next :: next in Allowed(read) ==> next in Allowed(current) && After(read, next) == After(current, next)
  }

  /** The guard compares statuses. That makes every write safe if and only if the resume statuses are
      equal too, so a guard on both would be exact, and one on the status alone is exact while the row
      is not held. */
  lemma GuardNeedsTheResumeStatus(read: Row, current: Row)
    requires Proper(read) && Proper(current) && read.status == current.status
    ensures SafeToWrite(read, current) <==> read.resume == current.resume
    ensures !Holding(read.status) ==> SafeToWrite(read, current)
  {
    if Holding(read.status) && SafeToWrite(read, current) {
      var from := read.resume.value;
      var other := if read.status == STALLED then FOLLOW_UP_PENDING else STALLED;
      if other in Allowed(read) {
        assert After(read, other) == After(current, other);
      } else {
        assert from in Allowed(current) && Onward(from) in Allowed(current);
      }
    }
  }

  /** A move from a status that can only be stalled which no status before it can make. */
  function Onward(s: Status): Status {
    match s
    case SAVED => PREPARING
    case PREPARING => READY_TO_APPLY
    case READY_TO_APPLY => APPLIED
    case _ => ACCEPTED
  }

  /** One write from a stale read is a move of the row it replaces exactly if that row is held from where
      the writer read, or the move leaves the hold for a status both could leave it for. */
  lemma StaleWriteIsLegalExactly(rows: seq<Row>, k: nat, i: nat)
    requires RacingRun(rows) && 0 < k < |rows| && i < k && Step(rows, k, i)
    ensures Legal(rows, k) <==>
              || rows[i].resume == rows[k - 1].resume
              || (!Holding(rows[k].status) && rows[k].status in Allowed(rows[k - 1]))
  {
    RacingRunsStayProper(rows, i);
    RacingRunsStayProper(rows, k - 1);
  }

  /** A row stalled, resumed, moved on and stalled again can be written from what was read in its
      first stall: an interviewing application goes back to waiting for a response. */
  lemma StalledTwiceCanGoBack() returns (rows: seq<Row>)
    ensures RacingRun(rows) && |rows| > 1
    ensures Effective(rows[|rows| - 2]) == INTERVIEWING && Effective(rows[|rows| - 1]) == RESPONSE
  {
    rows := [FRESH, Row(SAVED, None), Row(PREPARING, None), Row(READY_TO_APPLY, None), Row(APPLIED, None),
             Row(STALLED, Some(APPLIED)), Row(INTERVIEWING, None), Row(STALLED, Some(INTERVIEWING)),
             Row(RESPONSE, None)];
    forall k: nat | 0 < k < |rows| ensures Raced(rows, k) {
      assert Step(rows, k, if k == 8 then 5 else k - 1);
    }
  }
}
