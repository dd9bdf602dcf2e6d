/** The executor every outward action goes through: one row per idempotency key, and a provider that
    may take effect without saying so. */
module ToolExecution {
  import opened Prelude
  import opened RetryPolicies

  /** What the row under a key says of its action. A completed row keeps the receipt. */
  datatype Status = IN_PROGRESS | FAILED | UNKNOWN | COMPLETED(ok: bool)

  datatype Row = Row(fingerprint: string, status: Status, attempts: nat)

  /** A key: its row, how often its action took effect at the provider, how often the provider was
      called, and whether it ever denied an action that had taken effect. */
  datatype World = World(row: Option<Row>, landed: nat, called: nat, misled: bool)

  const UNUSED := World(None, 0, 0, false)

  /** How a call ends: with a receipt, with an exception, or with the process. */
  datatype Answer = Receipted(ok: bool) | Broke(retryable: bool) | Died

  /** A call, and whether the action takes effect in it, whatever is heard of that. */
  datatype Call = Call(lands: bool, answer: Answer)

  /** What is learned by asking the provider. Nothing, if there is nobody to ask. */
  datatype Reconciliation = APPLIED(ok: bool) | NOT_APPLIED | INDETERMINATE

  /** What happens to one attempt from outside. Where a list ends, the process dies. */
  datatype Script = Script(cleared: bool, calls: seq<Call>, asked: seq<Reconciliation>)

  datatype Outcome = Returned(ok: bool) | Threw | Crashed

  // ---- The row ----------------------------------------------------------------------------------------

  function Set(w: World, status: Status): World
    requires w.row.Some?
  {
    w.(row := Some(w.row.value.(status := status)))
  }

  /** Takes a row in doubt back, having been told that its action did not take effect, or not asked. */
  function Reclaimed(w: World, told: bool): World
    requires w.row.Some?
  {
    w.(row := Some(w.row.value.(status := IN_PROGRESS, attempts := w.row.value.attempts + 1)),
       misled := w.misled || (told && w.landed > 0))
  }

  function Called(w: World, lands: bool): World {
    w.(landed := w.landed + (if lands then 1 else 0), called := w.called + 1)
  }

  // ---- One attempt ------------------------------------------------------------------------------------

  /** A call settles the attempt, or is to be repeated. */
  datatype Turn = Done(world: World, outcome: Outcome) | Again(world: World, script: Script)

  /** What becomes of a failed call that may be repeated: the row is in doubt, and a policy that wants it
      asks the provider first. */
  function PrepareRetry(w: World, policy: RetryPolicy, s: Script): Turn
    requires w.row.Some?
  {
    var doubted := Set(w, UNKNOWN);
    if !policy.requiresReconciliation then Again(Reclaimed(doubted, false), s)
    else if s.asked == [] then Done(doubted, Crashed)
    else
      match s.asked[0]
      case APPLIED(ok) => Done(Set(doubted, COMPLETED(ok)), Returned(ok))
      case NOT_APPLIED => Again(Reclaimed(doubted, true), s.(asked := s.asked[1..]))
      case INDETERMINATE => Done(Set(doubted, FAILED), Threw)
  }

  function CallOnce(w: World, policy: RetryPolicy, attempt: nat, s: Script): (t: Turn)
    requires w.row.Some?
    ensures t.Again? ==> t.world.row.Some? && |t.script.calls| < |s.calls|
  {
    if s.calls == [] then Done(w, Crashed)
    else
      var called := Called(w, s.calls[0].lands);
      match s.calls[0].answer
      case Receipted(ok) => Done(Set(called, COMPLETED(ok)), Returned(ok))
      case Died => Done(called, Crashed)
      case Broke(retryable) =>
        if policy.AllowsRetry(attempt) && retryable then PrepareRetry(called, policy, s.(calls := s.calls[1..]))
        else Done(Set(called, FAILED), Threw)
  }

  /** Calls the provider for a claimed key, and again as far as the policy allows. */
  function CallAll(w: World, policy: RetryPolicy, attempt: nat, s: Script): (World, Outcome)
    requires w.row.Some?
    decreases |s.calls|
  {
    match CallOnce(w, policy, attempt, s)
    case Done(after, outcome) => (after, outcome)
    case Again(after, rest) => CallAll(after, policy, attempt + 1, rest)
  }

  /** Settles a key that was claimed before and has no receipt. */
  function ResolveInDoubt(w: World, policy: RetryPolicy, s: Script): (World, Outcome)
    requires w.row.Some?
  {
    var doubted := Set(w, UNKNOWN);
    if s.asked == [] then (doubted, Crashed)
    else
      match s.asked[0]
      case APPLIED(ok) => (Set(doubted, COMPLETED(ok)), Returned(ok))
      case NOT_APPLIED => CallAll(Reclaimed(doubted, true), policy, 2, s.(asked := s.asked[1..]))
      case INDETERMINATE => (doubted, Returned(false))
  }

  /** Executes an action unless its key already has an outcome. */
  function Attempt(w: World, fingerprint: string, policy: RetryPolicy, s: Script): (World, Outcome) {
    if !s.cleared then (w, Threw)
    else if w.row.None? then CallAll(w.(row := Some(Row(fingerprint, IN_PROGRESS, 1))), policy, 1, s)
    else if w.row.value.fingerprint != fingerprint then (w, Threw)
    else if w.row.value.status.COMPLETED? then (w, Returned(w.row.value.status.ok))
    else ResolveInDoubt(w, policy, s)
  }

  // ---- Any number of them -----------------------------------------------------------------------------

  datatype Try = Try(fingerprint: string, policy: RetryPolicy, script: Script)

  function After(w: World, t: Try): World { Attempt(w, t.fingerprint, t.policy, t.script).0 }

  /** Attempts one after another, each perhaps cut short. */
  function AfterAll(w: World, tries: seq<Try>): World {
    if tries == [] then w else After(AfterAll(w, tries[..|tries| - 1]), tries[|tries| - 1])
  }

  /** A failed call is repeated only after the provider was asked, or not at all. */
  predicate Careful(policy: RetryPolicy) { policy.maxRetries <= 0 || policy.requiresReconciliation }

  /** A key nobody used has no effect, and none takes effect twice unless the provider denied one that had. */
  predicate Once(w: World) { w.misled || (w.landed <= 1 && (w.row.None? ==> w.landed == 0)) }

  predicate Counted(w: World) { w.called <= if w.row.Some? then w.row.value.attempts else 0 }

  lemma {:induction false} CallAllKeepsOnce(w: World, policy: RetryPolicy, attempt: nat, s: Script)
    requires w.row.Some? && Careful(policy) && 1 <= attempt
    requires (w.misled || w.landed == 0) && w.called < w.row.value.attempts
    ensures Once(CallAll(w, policy, attempt, s).0) && Counted(CallAll(w, policy, attempt, s).0)
    decreases |s.calls|
  {
    match CallOnce(w, policy, attempt, s)
    case Done(_, _) =>
    case Again(after, rest) => CallAllKeepsOnce(after, policy, attempt + 1, rest);
  }

  lemma AttemptKeepsOnce(w: World, t: Try)
    requires Once(w) && Counted(w) && Careful(t.policy)
    ensures Once(After(w, t)) && Counted(After(w, t))
  {
    if t.script.cleared {
      if w.row.None? {
        CallAllKeepsOnce(w.(row := Some(Row(t.fingerprint, IN_PROGRESS, 1))), t.policy, 1, t.script);
      } else if t.script.asked != [] && t.script.asked[0] == NOT_APPLIED {
        CallAllKeepsOnce(Reclaimed(Set(w, UNKNOWN), true), t.policy, 2, t.script.(asked := t.script.asked[1..]));
      }
    }
  }

  /** Whatever is tried under a key, and wherever the process dies, in a call, before it or after it: its
      action takes effect at most once, unless the provider denied it when it had; and the row counts
      no fewer attempts than there were calls. */
  lemma {:induction false} AtMostOncePerKey(tries: seq<Try>)
    requires forall t :: t in tries ==> Careful(t.policy)
    ensures Once(AfterAll(UNUSED, tries)) && Counted(AfterAll(UNUSED, tries))
  {
    if tries != [] {
      AtMostOncePerKey(tries[..|tries| - 1]);
      AttemptKeepsOnce(AfterAll(UNUSED, tries[..|tries| - 1]), tries[|tries| - 1]);
    }
  }

  /** Both conditions are needed. A policy that repeats a failed call without asking can have it take
      effect twice, and so can a provider that denies what it did. */
  lemma CarelessPoliciesRepeat(fingerprint: string, policy: RetryPolicy)
    requires !Careful(policy)
    ensures var calls := [Call(true, Broke(true)), Call(true, Receipted(true))];
            var w := After(UNUSED, Try(fingerprint, policy, Script(true, calls, [])));
            w.landed == 2 && !w.misled
  {
    var calls := [Call(true, Broke(true)), Call(true, Receipted(true))];
    var claimed := UNUSED.(row := Some(Row(fingerprint, IN_PROGRESS, 1)));
    var s := Script(true, calls, []);
    var again := CallOnce(claimed, policy, 1, s);
    assert again.script.calls == [calls[1]];
    assert CallAll(claimed, policy, 1, s) == CallAll(again.world, policy, 2, again.script);
  }

  lemma DeniedActionsRepeat(fingerprint: string, policy: RetryPolicy)
    ensures var first := Try(fingerprint, policy, Script(true, [Call(true, Died)], []));
            var second := Try(fingerprint, policy, Script(true, [Call(true, Receipted(true))], [NOT_APPLIED]));
            After(After(UNUSED, first), second).landed == 2
  {
  }

  // ---- What an outcome is worth -----------------------------------------------------------------------

  predicate Completed(w: World, ok: bool) { w.row.Some? && w.row.value.status == COMPLETED(ok) }

  lemma {:induction false} CallAllAnswers(w: World, policy: RetryPolicy, attempt: nat, s: Script)
    requires w.row.Some?
    ensures var (after, outcome) := CallAll(w, policy, attempt, s);
            && after.row.Some? && after.row.value.fingerprint == w.row.value.fingerprint
            && (outcome.Returned? ==> Completed(after, outcome.ok))
            && (outcome.Returned? <== after.row.value.status.COMPLETED? && !w.row.value.status.COMPLETED?)
    decreases |s.calls|
  {
    match CallOnce(w, policy, attempt, s)
    case Done(_, _) =>
    case Again(after, rest) => CallAllAnswers(after, policy, attempt + 1, rest);
  }

  /** A receipt that says the action was accepted is on record, and one that was recorded under a key is
      what every later attempt at it is answered with, calling nobody. */
  lemma AnswersAreRecorded(w: World, t: Try)
    ensures var (after, outcome) := Attempt(w, t.fingerprint, t.policy, t.script);
            && (outcome == Returned(true) ==> Completed(after, true))
            && (w.row.Some? && w.row.value.status.COMPLETED? ==>
                  after == w && (outcome == Threw || outcome == Returned(w.row.value.status.ok)))
            && (w.row.Some? ==> after.row.Some? && after.row.value.fingerprint == w.row.value.fingerprint)
            && (outcome.Returned? ==> after.row.Some? && after.row.value.fingerprint == t.fingerprint)
            && (after.row.Some? && w.row.None? ==> after.row.value.fingerprint == t.fingerprint)
  {
    if t.script.cleared {
      if w.row.None? {
        CallAllAnswers(w.(row := Some(Row(t.fingerprint, IN_PROGRESS, 1))), t.policy, 1, t.script);
      } else if t.script.asked != [] && t.script.asked[0] == NOT_APPLIED {
        CallAllAnswers(Reclaimed(Set(w, UNKNOWN), true), t.policy, 2, t.script.(asked := t.script.asked[1..]));
      }
    }
  }

  /** Once a key has its receipt, nothing that is tried under it changes anything. */
  lemma {:induction false} ReceiptsAreFinal(w: World, tries: seq<Try>)
    requires w.row.Some? && w.row.value.status.COMPLETED?
    ensures AfterAll(w, tries) == w
  {
    if tries != [] {
      ReceiptsAreFinal(w, tries[..|tries| - 1]);
      AnswersAreRecorded(w, tries[|tries| - 1]);
    }
  }

  /** An action whose outcome was never recorded is found by asking, and not called again; and while the
      provider cannot say, nobody is called either. */
  lemma DoubtIsSettledByAsking(w: World, t: Try)
    requires w.row.Some? && !w.row.value.status.COMPLETED? && w.row.value.fingerprint == t.fingerprint
    requires t.script.cleared && t.script.asked != [] && t.script.asked[0] != NOT_APPLIED
    ensures var (after, outcome) := Attempt(w, t.fingerprint, t.policy, t.script);
            && after.called == w.called && after.landed == w.landed && outcome.Returned?
            && (t.script.asked[0].APPLIED? ==> outcome.ok == t.script.asked[0].ok && Completed(after, outcome.ok))
            && (t.script.asked[0].INDETERMINATE? ==> !outcome.ok && after.row.value.status == UNKNOWN)
  {
  }

  lemma {:induction false} CallsAreBounded(w: World, policy: RetryPolicy, attempt: nat, s: Script)
    requires w.row.Some? && 1 <= attempt
    ensures CallAll(w, policy, attempt, s).0.called
         <= w.called + if attempt <= policy.MaxAttempts() then policy.MaxAttempts() - attempt + 1 else 1
    decreases |s.calls|
  {
    match CallOnce(w, policy, attempt, s)
    case Done(_, _) =>
    case Again(after, rest) => CallsAreBounded(after, policy, attempt + 1, rest);
  }

  /** One attempt calls the provider as often as its policy has attempts, at most. */
  lemma AttemptIsBounded(w: World, t: Try)
    requires 0 <= t.policy.maxRetries
    ensures After(w, t).called <= w.called + t.policy.MaxAttempts()
  {
    if t.script.cleared {
      if w.row.None? {
        CallsAreBounded(w.(row := Some(Row(t.fingerprint, IN_PROGRESS, 1))), t.policy, 1, t.script);
      } else if t.script.asked != [] {
        CallsAreBounded(Reclaimed(Set(w, UNKNOWN), true), t.policy, 2, t.script.(asked := t.script.asked[1..]));
      }
    }
  }

  // ---- What a row tells -------------------------------------------------------------------------------

  function Landings(calls: seq<Call>): nat {
    if calls == [] then 0 else (if calls[0].lands then 1 else 0) + Landings(calls[1..])
  }

  /** Call `i` of an attempt was broken off and is to be repeated, and where the policy wants the provider
      asked first, it said that nothing had taken effect. */
  predicate Repeats(policy: RetryPolicy, attempt: nat, s: Script, i: nat) {
    && i < |s.calls| && s.calls[i].answer == Broke(true) && attempt + i <= policy.maxRetries
    && (policy.requiresReconciliation ==> i < |s.asked| && s.asked[i] == NOT_APPLIED)
  }

  predicate Repeated(policy: RetryPolicy, attempt: nat, s: Script, n: nat) {
    n <= |s.calls| && forall i :: 0 <= i < n ==> Repeats(policy, attempt, s, i)
  }

  /** What a row and its caller come to, `n` being the call that was the last. */
  predicate Ended(policy: RetryPolicy, attempt: nat, s: Script, n: nat, status: Status, outcome: Outcome)
    requires n < |s.calls|
  {
    match s.calls[n].answer
    case Receipted(ok) => status == COMPLETED(ok) && outcome == Returned(ok)
    case Died => status == IN_PROGRESS && outcome == Crashed
    case Broke(again) =>
      if !again || policy.maxRetries < attempt + n then status == FAILED && outcome == Threw
      else if !policy.requiresReconciliation || |s.asked| < n then false
      else if |s.asked| == n then status == UNKNOWN && outcome == Crashed
      else
        match s.asked[n]
        case APPLIED(ok) => status == COMPLETED(ok) && outcome == Returned(ok)
        case INDETERMINATE => status == FAILED && outcome == Threw
        case NOT_APPLIED => false
  }

  /** Claimed as `w` and left as `after`: the attempts its row counts say which call was the last, if the
      process did not die before the next. */
  predicate Told(w: World, policy: RetryPolicy, attempt: nat, s: Script, after: World, outcome: Outcome) {
    && w.row.Some? && after.row.Some? && w.row.value.attempts <= after.row.value.attempts
    && var n, calls := after.row.value.attempts - w.row.value.attempts, after.called - w.called;
       && after.row.value.fingerprint == w.row.value.fingerprint
       && Repeated(policy, attempt, s, n)
       && (if n == |s.calls| then calls == n && after.row.value.status == IN_PROGRESS && outcome == Crashed
           else calls == n + 1 && Ended(policy, attempt, s, n, after.row.value.status, outcome))
       && after.landed == w.landed + Landings(s.calls[..calls])
       && after.misled == (w.misled || (policy.requiresReconciliation && n > 0
                                        && w.landed + Landings(s.calls[..n]) > 0))
  }

  lemma {:induction false} LandingsSplit(calls: seq<Call>, n: nat)
    requires 0 < n <= |calls|
    ensures Landings(calls[..n]) == (if calls[0].lands then 1 else 0) + Landings(calls[1..][..n - 1])
  {
    assert calls[..n][1..] == calls[1..][..n - 1];
  }

  /** What is left of a script after a call that is repeated. */
  function Rest(policy: RetryPolicy, s: Script): Script
    requires s.calls != [] && (policy.requiresReconciliation ==> s.asked != [])
  {
    s.(calls := s.calls[1..], asked := if policy.requiresReconciliation then s.asked[1..] else s.asked)
  }

  lemma RepeatedOnceMore(policy: RetryPolicy, attempt: nat, s: Script, n: nat)
    requires Repeats(policy, attempt, s, 0) && Repeated(policy, attempt + 1, Rest(policy, s), n)
    ensures Repeated(policy, attempt, s, n + 1)
  {
    var rest := Rest(policy, s);
    forall i | 0 <= i < n + 1 ensures Repeats(policy, attempt, s, i) {
      if i > 0 {
        assert Repeats(policy, attempt + 1, rest, i - 1);
        assert s.calls[i] == rest.calls[i - 1];
      }
    }
  }

  lemma EndedOneLater(policy: RetryPolicy, attempt: nat, s: Script, n: nat, status: Status, outcome: Outcome)
    requires n + 1 < |s.calls| && (policy.requiresReconciliation ==> s.asked != [])
    ensures Ended(policy, attempt + 1, Rest(policy, s), n, status, outcome)
        <==> Ended(policy, attempt, s, n + 1, status, outcome)
  {
    var rest := Rest(policy, s);
    assert s.calls[n + 1] == rest.calls[n];
    if policy.requiresReconciliation && n < |rest.asked| { assert s.asked[n + 1] == rest.asked[n]; }
  }

  lemma LastCallTells(w: World, policy: RetryPolicy, attempt: nat, s: Script)
    requires w.row.Some? && w.row.value.status == IN_PROGRESS && CallOnce(w, policy, attempt, s).Done?
    ensures var t := CallOnce(w, policy, attempt, s); Told(w, policy, attempt, s, t.world, t.outcome)
  {
    if s.calls != [] { LandingsSplit(s.calls, 1); }
  }

  lemma ToldOneEarlier(w: World, policy: RetryPolicy, attempt: nat, s: Script, between: World, after: World,
                       outcome: Outcome)
    requires w.row.Some? && Repeats(policy, attempt, s, 0)
    requires var lands := w.landed + if s.calls[0].lands then 1 else 0;
             between == World(Some(Row(w.row.value.fingerprint, IN_PROGRESS, w.row.value.attempts + 1)), lands,
                              w.called + 1, w.misled || (policy.requiresReconciliation && lands > 0))
    requires Told(between, policy, attempt + 1, Rest(policy, s), after, outcome)
    ensures Told(w, policy, attempt, s, after, outcome)
  {
    var n := after.row.value.attempts - between.row.value.attempts;
    RepeatedOnceMore(policy, attempt, s, n);
    LandingsSplit(s.calls, n + 1);
    if n + 1 < |s.calls| {
      EndedOneLater(policy, attempt, s, n, after.row.value.status, outcome);
      LandingsSplit(s.calls, n + 2);
    }
  }

  lemma {:induction false} CallAllTells(w: World, policy: RetryPolicy, attempt: nat, s: Script)
    requires w.row.Some? && w.row.value.status == IN_PROGRESS
    ensures Told(w, policy, attempt, s, CallAll(w, policy, attempt, s).0, CallAll(w, policy, attempt, s).1)
    decreases |s.calls|
  {
    match CallOnce(w, policy, attempt, s)
    case Done(_, _) => LastCallTells(w, policy, attempt, s);
    case Again(between, rest) =>
      assert Repeats(policy, attempt, s, 0) && rest == Rest(policy, s);
      CallAllTells(between, policy, attempt + 1, rest);
      var (after, outcome) := CallAll(between, policy, attempt + 1, rest);
      ToldOneEarlier(w, policy, attempt, s, between, after, outcome);
  }

  /** Whatever happens to an attempt, its row is left as it fits the calls that were made, the answers they
      got and the moment the process died: from it alone the next attempt tells what may have happened. */
  lemma RowsTellTheStory(w: World, t: Try)
    ensures var (after, outcome) := Attempt(w, t.fingerprint, t.policy, t.script);
            var s := t.script;
            if !s.cleared then after == w && outcome == Threw
            else if w.row.None? then
              Told(World(Some(Row(t.fingerprint, IN_PROGRESS, 1)), w.landed, w.called, w.misled),
                   t.policy, 1, s, after, outcome)
            else
              var row := w.row.value;
              if row.fingerprint != t.fingerprint then after == w && outcome == Threw
              else if row.status.COMPLETED? then after == w && outcome == Returned(row.status.ok)
              else if s.asked == [] then
                after == w.(row := Some(row.(status := UNKNOWN))) && outcome == Crashed
              else if s.asked[0] == NOT_APPLIED then
                Told(World(Some(Row(t.fingerprint, IN_PROGRESS, row.attempts + 1)), w.landed, w.called,
                           w.misled || w.landed > 0),
                     t.policy, 2, s.(asked := s.asked[1..]), after, outcome)
              else after.called == w.called && after.landed == w.landed && after.misled == w.misled
  {
    if t.script.cleared {
      if w.row.None? {
        CallAllTells(w.(row := Some(Row(t.fingerprint, IN_PROGRESS, 1))), t.policy, 1, t.script);
      } else if t.script.asked != [] && t.script.asked[0] == NOT_APPLIED {
        CallAllTells(Reclaimed(Set(w, UNKNOWN), true), t.policy, 2, t.script.(asked := t.script.asked[1..]));
      }
    }
  }

  // ---- The objects ------------------------------------------------------------------------------------

  type Worlds = map<string, World>

  function At(worlds: Worlds, key: string): World { if key in worlds then worlds[key] else UNUSED }

  class ToolExecutor {
    /** The ledger's rows and the provider's side of each, by idempotency key. */
    var worlds: Worlds

    constructor ()
      ensures worlds == map[]
    {
      worlds := map[];
    }

    /** Calls the provider for a claimed key, retrying as the policy allows. */
    method Run(key: string, policy: RetryPolicy, first: nat, script: Script) returns (outcome: Outcome)
      requires key in worlds && worlds[key].row.Some?
      modifies this
      ensures worlds == old(worlds)[key := CallAll(old(worlds)[key], policy, first, script).0]
      ensures outcome == CallAll(old(worlds)[key], policy, first, script).1
    {
      var attempt, s := first, script;
      while true
        invariant key in worlds && worlds[key].row.Some? && worlds == old(worlds)[key := worlds[key]]
        invariant CallAll(old(worlds)[key], policy, first, script) == CallAll(worlds[key], policy, attempt, s)
        decreases |s.calls|
      {
        if s.calls == [] { return Crashed; }
        var call := s.calls[0];
        s := s.(calls := s.calls[1..]);
        var called := Called(worlds[key], call.lands);
        match call.answer {
          case Receipted(ok) =>
            worlds := worlds[key := Set(called, COMPLETED(ok))];
            return Returned(ok);
          case Died =>
            worlds := worlds[key := called];
            return Crashed;
          case Broke(retryable) =>
            if !(policy.AllowsRetry(attempt) && retryable) {
              worlds := worlds[key := Set(called, FAILED)];
              return Threw;
            }
        }
        var doubted := Set(called, UNKNOWN);
        if policy.requiresReconciliation {
          if s.asked == [] {
            worlds := worlds[key := doubted];
            return Crashed;
          }
          match s.asked[0] {
            case APPLIED(ok) =>
              worlds := worlds[key := Set(doubted, COMPLETED(ok))];
              return Returned(ok);
            case INDETERMINATE =>
              worlds := worlds[key := Set(doubted, FAILED)];
              return Threw;
            case NOT_APPLIED => s := s.(asked := s.asked[1..]);
          }
        }
        worlds := worlds[key := Reclaimed(doubted, policy.requiresReconciliation)];
        attempt := attempt + 1;
      }
    }

    method Execute(key: string, fingerprint: string, policy: RetryPolicy, script: Script) returns (outcome: Outcome)
      modifies this
      ensures outcome == Attempt(At(old(worlds), key), fingerprint, policy, script).1
      ensures At(worlds, key) == Attempt(At(old(worlds), key), fingerprint, policy, script).0
      ensures forall other :: other != key ==> At(worlds, other) == At(old(worlds), other)
    {
      if !script.cleared { return Threw; }
      if key !in worlds || worlds[key].row.None? {
        worlds := worlds[key := At(worlds, key).(row := Some(Row(fingerprint, IN_PROGRESS, 1)))];
        outcome := Run(key, policy, 1, script);
        return;
      }
      var row := worlds[key].row.value;
      if row.fingerprint != fingerprint { return Threw; }
      if row.status.COMPLETED? { return Returned(row.status.ok); }
      worlds := worlds[key := Set(worlds[key], UNKNOWN)];
      if script.asked == [] { return Crashed; }
      match script.asked[0] {
        case APPLIED(ok) =>
          worlds := worlds[key := Set(worlds[key], COMPLETED(ok))];
          outcome := Returned(ok);
        case NOT_APPLIED =>
          worlds := worlds[key := Reclaimed(worlds[key], true)];
          outcome := Run(key, policy, 2, script.(asked := script.asked[1..]));
        case INDETERMINATE =>
          outcome := Returned(false);
      }
    }
  }
}
