/** What may be done about a failed step, decided from its stored error. */
module Recovery {
  import opened Prelude
  import opened PythonRepr
  import opened StoredErrors
  import opened ErrorRoundTrip

  // ---- The failure class ----------------------------------------------------------------------------

  function ClassOfCode(code: string): Option<FailureClass> {
    if code == POLICY_DENIED.Value() || code == APPROVAL_REQUIRED.Value() then Some(POLICY_DENIAL)
    else if code == ErrorCode.CONFLICT.Value() || code == IDEMPOTENCY_CONFLICT.Value() then Some(CONCURRENCY)
    else if code == TOOL_FAILURE.Value() || code == RETRYABLE.Value() then Some(PROVIDER_TRANSIENT)
    else None
  }

  /** Types from outside the taxonomy that are retried as a provider's hiccup is. */
  const TRANSIENT_BUILTINS := {
    "TimeoutError", "ConnectionError", "ConnectionResetError",
    "ConnectionRefusedError", "ConnectionAbortedError", "BrokenPipeError" }

  /** What follows the last dot. */
  function LastComponent(name: string): string {
    if name == "" || name[|name| - 1] == '.' then "" else LastComponent(name[..|name| - 1]) + [name[|name| - 1]]
  }

  function ClassOfType(name: string): FailureClass {
    if LastComponent(name) in TRANSIENT_BUILTINS then PROVIDER_TRANSIENT else UNCLASSIFIED
  }

  function Classify(e: StoredError): FailureClass {
    if e.failureClass.Some? then e.failureClass.value
    else if e.code.Some? && ClassOfCode(e.code.value).Some? then ClassOfCode(e.code.value).value
    else if e.errorType.Some? && e.errorType.value != "" then ClassOfType(e.errorType.value)
    else UNCLASSIFIED
  }

  /** The class a live error has: its own, or the one its code stands for. */
  function LiveClass(e: LiveError): FailureClass {
    if e.failureClass.Some? then e.failureClass.value
    else
      match e.code
      case POLICY_DENIED => POLICY_DENIAL
      case APPROVAL_REQUIRED => POLICY_DENIAL
      case CONFLICT => CONCURRENCY
      case IDEMPOTENCY_CONFLICT => CONCURRENCY
      case TOOL_FAILURE => PROVIDER_TRANSIENT
      case RETRYABLE => PROVIDER_TRANSIENT
      case _ => ClassOfType(e.typeName)
  }

  lemma CodesDiffer(code: ErrorCode)
    ensures ClassOfCode(code.Value()) ==
              match code
              case POLICY_DENIED => Some(POLICY_DENIAL)
              case APPROVAL_REQUIRED => Some(POLICY_DENIAL)
              case CONFLICT => Some(CONCURRENCY)
              case IDEMPOTENCY_CONFLICT => Some(CONCURRENCY)
              case TOOL_FAILURE => Some(PROVIDER_TRANSIENT)
              case RETRYABLE => Some(PROVIDER_TRANSIENT)
              case _ => None
  {
    assert ErrorCode.CONFLICT.Value()[0] == 'c' && INTERNAL.Value()[0] == 'i';
    assert NOT_FOUND.Value()[0] == 'n' && RETRYABLE.Value()[0] == 'r';
  }

  lemma {:induction false} LastComponentOfPath(path: string, name: string)
    requires '.' !in name
    ensures LastComponent(name) == name && LastComponent(path + "." + name) == name
  {
    var whole := path + "." + name;
    if name != "" {
      var n := |name| - 1;
      assert name[n] in name;
      LastComponentOfPath(path, name[..n]);
      assert whole[..|whole| - 1] == path + "." + name[..n] && name == name[..n] + [name[n]];
    }
  }

  /** An error from outside the taxonomy goes by its type's own name, whatever module it is from: it may
      be retried exactly if that is one of the six builtins that stand for a connection gone wrong. */
  lemma ForeignErrorsGoByTheirType(e: StoredError, path: string, name: string)
    requires e.failureClass.None? && (e.code.None? || ClassOfCode(e.code.value).None?) && '.' !in name
    requires e.errorType == Some(name) || e.errorType == Some(path + "." + name)
    ensures Classify(e) == if name == "TimeoutError" || name == "ConnectionError" || name == "ConnectionResetError"
                              || name == "ConnectionRefusedError" || name == "ConnectionAbortedError"
                              || name == "BrokenPipeError"
                           then PROVIDER_TRANSIENT else UNCLASSIFIED
  {
    LastComponentOfPath(path, name);
  }

  /** An exception from outside the taxonomy, printed as its type and arguments, is read back as that type
      and those arguments, and its type decides. */
  lemma ForeignErrorsSurviveTheCheckpoint(u: Unicode, name: string, arguments: string)
    requires IsKey(u, name) && TypeStart(name[0]) && FindMarker(u, arguments, 0).None?
    ensures var read := ParseStoredError(u, name + "(" + arguments + ")");
            && read == StoredError(Some(name), None, None, None, None, arguments)
            && (Classify(read) == PROVIDER_TRANSIENT <==>
                  name in {"TimeoutError", "ConnectionError", "ConnectionResetError", "ConnectionRefusedError",
                           "ConnectionAbortedError", "BrokenPipeError"})
  {
    SplitPrinted(u, name, arguments);
    assert !u.Word('.');
    ForeignErrorsGoByTheirType(StoredError(Some(name), None, None, None, None, arguments), "", name);
  }

  /** What an imposter says an error's class or code is. */
  function Claimed(u: Unicode, e: LiveError, key: string): Option<string> { Lookup(Imposters(u, e.extra), key) }

  /** No imposter gives the error another class or another code. */
  predicate Unclaimed(u: Unicode, e: LiveError) {
    && (Claimed(u, e, "failure_class").Some? ==> ParseClass(Claimed(u, e, "failure_class")) == e.failureClass)
    && (Claimed(u, e, "code").Some? ==> Claimed(u, e, "code").value == e.code.Value())
  }

  /** What survives under a name of the error's own. */
  function Surviving(u: Unicode, e: LiveError, key: string): Option<string> { Lookup(Survivors(u, e.extra), key) }

  lemma OwnReadsBack(u: Unicode, e: LiveError, key: string)
    requires key != "code" && key != "failure_class"
    ensures Lookup(Survivors(u, e.Fields()), key) == Surviving(u, e, key) && Lookup(e.Fields(), key) == e.Field(key)
  {
    CommonIsReadable(u, e);
    SurvivorsAppend(u, e.Common(), e.extra);
    LookupAppend(e.Common(), Survivors(u, e.extra), key);
    LookupAppend(e.Common(), e.extra, key);
    CommonLookUp(e, key);
  }

  lemma ProviderAndReasonReadBack(u: Unicode, e: LiveError)
    requires WellFormed(u, e)
    ensures var read := ParseStoredError(u, PrintError(u, e));
            read.provider == Surviving(u, e, "provider") && read.reason == Surviving(u, e, "reason")
  {
    WhatIsReadBack(u, e);
    assert |"provider"| == 8 && |"reason"| == 6 && |"code"| == 4 && |"failure_class"| == 13;
    OwnReadsBack(u, e, "provider");
    OwnReadsBack(u, e, "reason");
  }

  /** All recovery asks of an error is read back exactly when no imposter claims another class or code
      and the provider and the reason survive; the class and the code, when only the first holds. */
  lemma FactsSurviveExactly(u: Unicode, e: LiveError)
    requires WellFormed(u, e)
    ensures var read := ParseStoredError(u, PrintError(u, e));
            && (read.failureClass == e.failureClass && read.code == Some(e.code.Value()) <==> Unclaimed(u, e))
            && (read == Facts(e) <==>
                  && Unclaimed(u, e) && Surviving(u, e, "provider") == e.Field("provider")
                  && Surviving(u, e, "reason") == e.Field("reason"))
  {
    ClassAndCodeReadBack(u, e);
    OwnLookUp(e);
    ProviderAndReasonReadBack(u, e);
    WhatIsReadBack(u, e);
  }

  /** The class that stands for a code, or failing that for a type. */
  function ClassBy(code: string, typeName: string): FailureClass {
    if ClassOfCode(code).Some? then ClassOfCode(code).value else ClassOfType(typeName)
  }

  lemma LiveClassIsByCode(e: LiveError)
    ensures LiveClass(e) == e.failureClass.GetOr(ClassBy(e.code.Value(), e.typeName))
  {
    CodesDiffer(e.code);
  }

  lemma ClassifiedBy(e: StoredError, code: string, typeName: string)
    requires e.code == Some(code) && e.errorType == Some(typeName)
    ensures Classify(e) == e.failureClass.GetOr(ClassBy(code, typeName))
  {
    assert LastComponent("") == "";
  }

  /** The class recovery goes by. An imposter that names a class decides it; one that names none there
      is leaves it to the code, as having no class does; and a code an imposter claims counts only then. */
  function RecoveryClass(u: Unicode, e: LiveError): FailureClass {
    var claimed := Claimed(u, e, "failure_class");
    var class_ := if claimed.Some? then ParseClass(claimed) else e.failureClass;
    class_.GetOr(ClassBy(Claimed(u, e, "code").GetOr(e.code.Value()), e.typeName))
  }

  /** What class a stored error has, exactly. It is the live error's whenever nothing claims otherwise. */
  lemma ClassSurvivesTheCheckpoint(u: Unicode, e: LiveError)
    requires WellFormed(u, e)
    ensures Classify(ParseStoredError(u, PrintError(u, e))) == RecoveryClass(u, e)
    ensures Unclaimed(u, e) ==> RecoveryClass(u, e) == LiveClass(e)
  {
    ClassAndCodeReadBack(u, e);
    OwnLookUp(e);
    LiveClassIsByCode(e);
    ClassifiedBy(ParseStoredError(u, PrintError(u, e)), Claimed(u, e, "code").GetOr(e.code.Value()), e.typeName);
  }

  // ---- What is offered ------------------------------------------------------------------------------------

  const MAX_FAILURE_ATTEMPTS := 5

  datatype FailureStatus = FAILED | DENIED | RETRY_QUEUED | DISMISSED

  datatype RecoveryAction = RETRY | DISMISS | RECONNECT

  datatype Assessment = Assessment(
    failureClass: FailureClass, causeClass: Option<FailureClass>, status: FailureStatus,
    retryable: bool, actions: seq<RecoveryAction>, integration: Option<string>)

  predicate SideEffectStatus(status: string) { status == "completed" || status == "unknown" || status == "in_progress" }

  function Disposition(class_: FailureClass, attempts: nat, retryPending: bool, dismissed: bool)
    : (FailureStatus, bool, seq<RecoveryAction>)
  {
    if dismissed then (DISMISSED, false, [])
    else if class_ == POLICY_DENIAL then (DENIED, false, [DISMISS])
    else if class_ == PROVIDER_PERMANENT then (FAILED, false, [RECONNECT, DISMISS])
    else if retryPending then (RETRY_QUEUED, false, [])
    else if attempts >= MAX_FAILURE_ATTEMPTS then (FAILED, false, [DISMISS])
    else (FAILED, true, [RETRY, DISMISS])
  }

  /** The class with side effects taken into account, and the disposition that class leads to. */
  function AssessFailure(error: StoredError, operations: seq<string>, integration: Option<string>,
                         retriesQueued: nat, retryPending: bool, dismissed: bool): Assessment
  {
    var cause := Classify(error);
    var class_ := if !IsAnswer(cause) && Happened(operations) then PARTIAL_SIDE_EFFECT else cause;
    var named :=
      if integration.None? && class_ == PROVIDER_PERMANENT && error.provider.GetOr("") != "" then error.provider
      else integration;
    var (status, retryable, actions) := Disposition(class_, 1 + retriesQueued, retryPending, dismissed);
    Assessment(class_, if cause != class_ then Some(cause) else None, status, retryable, actions, named)
  }

  predicate Happened(operations: seq<string>) { exists i :: 0 <= i < |operations| && SideEffectStatus(operations[i]) }

  predicate IsAnswer(c: FailureClass) { c == POLICY_DENIAL || c == PROVIDER_PERMANENT }

  /** An operation on record took effect, or may have. */
  predicate MayHaveActed(operations: seq<string>) {
    "completed" in operations || "unknown" in operations || "in_progress" in operations
  }

  function Offers(retry: bool, reconnect: bool, dismiss: bool): seq<RecoveryAction> {
    (if retry then [RETRY] else []) + (if reconnect then [RECONNECT] else []) + if dismiss then [DISMISS] else []
  }

  /** What an assessment says of an error whose class is `live` and whose provider is `provider`: it is
      retried unless it is an answer, dismissed, already queued or out of its five attempts; reconnected
      exactly when the provider refused for good, by the integration's row or, without one, by the
      provider's name; dismissed unless it was or is queued; and side effects outrank every class but
      those two, which it keeps as the cause. */
  ghost predicate Fits(a: Assessment, live: FailureClass, provider: Option<string>, operations: seq<string>,
                       integration: Option<string>, retriesQueued: nat, retryPending: bool, dismissed: bool)
  {
    var answer := live == POLICY_DENIAL || live == PROVIDER_PERMANENT;
    var queued := retryPending && !dismissed && !answer;
    var reconnect := live == PROVIDER_PERMANENT && !dismissed;
    && a.retryable == (!answer && !dismissed && !queued && retriesQueued < 4)
    && a.actions == Offers(a.retryable, reconnect, !dismissed && !queued)
    && (a.status == DISMISSED <==> dismissed)
    && (a.status == RETRY_QUEUED <==> queued)
    && (a.status == DENIED <==> live == POLICY_DENIAL && !dismissed)
    && a.integration == (if integration.Some? then integration
                         else if live == PROVIDER_PERMANENT && provider != Some("") then provider else None)
    && (if !answer && MayHaveActed(operations) && live != PARTIAL_SIDE_EFFECT
        then a.failureClass == PARTIAL_SIDE_EFFECT && a.causeClass == Some(live)
        else a.failureClass == live && a.causeClass == None)
  }

  lemma HappenedMeansMayHaveActed(operations: seq<string>)
    ensures Happened(operations) <==> MayHaveActed(operations)
  {
    if MayHaveActed(operations) {
      var i :| 0 <= i < |operations|
               && (operations[i] == "completed" || operations[i] == "unknown" || operations[i] == "in_progress");
      assert SideEffectStatus(operations[i]);
    }
  }

  lemma AssessmentFits(error: StoredError, operations: seq<string>, integration: Option<string>, retriesQueued: nat,
                       retryPending: bool, dismissed: bool)
    ensures Fits(AssessFailure(error, operations, integration, retriesQueued, retryPending, dismissed),
                 Classify(error), error.provider, operations, integration, retriesQueued, retryPending, dismissed)
  {
    HappenedMeansMayHaveActed(operations);
  }

  lemma {:induction false} NoImposters(u: Unicode, fields: seq<(string, string)>)
    requires AllReadable(u, fields)
    ensures Imposters(u, fields) == []
  {
    if fields != [] { NoImposters(u, fields[1..]); }
  }

  /** The recovery a stored error is offered is the one its recovery class and its surviving provider
      call for: the live error's own class, unless an imposter claims another, and the live error's own
      provider, if the values before it and its own are readable. */
  lemma RecoverySurvivesTheCheckpoint(u: Unicode, e: LiveError, operations: seq<string>, integration: Option<string>,
                                      retriesQueued: nat, retryPending: bool, dismissed: bool)
    requires WellFormed(u, e)
    ensures var error := ParseStoredError(u, PrintError(u, e));
            Fits(AssessFailure(error, operations, integration, retriesQueued, retryPending, dismissed),
                 RecoveryClass(u, e), Surviving(u, e, "provider"), operations, integration, retriesQueued,
                 retryPending, dismissed)
    ensures Unclaimed(u, e) ==> RecoveryClass(u, e) == LiveClass(e)
    ensures AllReadable(u, e.extra) ==> Unclaimed(u, e) && Surviving(u, e, "provider") == e.Field("provider")
  {
    var error := ParseStoredError(u, PrintError(u, e));
    ClassSurvivesTheCheckpoint(u, e);
    ProviderAndReasonReadBack(u, e);
    AssessmentFits(error, operations, integration, retriesQueued, retryPending, dismissed);
    if AllReadable(u, e.extra) {
      ReadableSurvive(u, e.extra);
      NoImposters(u, e.extra);
    }
  }
}
