/** The error taxonomy's `repr()`, which is all of an exception that survives a checkpoint,
    and what recovery reads back out of it. */
module StoredErrors {
  import opened Prelude
  import opened PythonRepr

  datatype ErrorCode =
    | VALIDATION | NOT_FOUND | POLICY_DENIED | APPROVAL_REQUIRED | IDEMPOTENCY_CONFLICT
    | CONFLICT | TOOL_FAILURE | RETRYABLE | INTERNAL
  {
    function Value(): string {
      match this
      case VALIDATION => "validation"
      case NOT_FOUND => "not_found"
      case POLICY_DENIED => "policy_denied"
      case APPROVAL_REQUIRED => "approval_required"
      case IDEMPOTENCY_CONFLICT => "idempotency_conflict"
      case CONFLICT => "conflict"
      case TOOL_FAILURE => "tool_failure"
      case RETRYABLE => "retryable"
      case INTERNAL => "internal"
    }
  }

  datatype FailureClass =
    | MODEL_TRANSIENT | MODEL_SEMANTIC | PROVIDER_TRANSIENT | PROVIDER_PERMANENT | CONCURRENCY
    | PARTIAL_SIDE_EFFECT | POLICY_DENIAL | HUMAN_TIMEOUT | UNCLASSIFIED
  {
    function Value(): string {
      match this
      case MODEL_TRANSIENT => "model_transient"
      case MODEL_SEMANTIC => "model_semantic"
      case PROVIDER_TRANSIENT => "provider_transient"
      case PROVIDER_PERMANENT => "provider_permanent"
      case CONCURRENCY => "concurrency"
      case PARTIAL_SIDE_EFFECT => "partial_side_effect"
      case POLICY_DENIAL => "policy_denial"
      case HUMAN_TIMEOUT => "human_timeout"
      case UNCLASSIFIED => "unclassified"
    }
  }

  /** `FailureClass(value)`, or nothing when there is no such class. */
  function ParseClass(value: Option<string>): Option<FailureClass> {
    if value == Some(MODEL_TRANSIENT.Value()) then Some(MODEL_TRANSIENT)
    else if value == Some(MODEL_SEMANTIC.Value()) then Some(MODEL_SEMANTIC)
    else if value == Some(PROVIDER_TRANSIENT.Value()) then Some(PROVIDER_TRANSIENT)
    else if value == Some(PROVIDER_PERMANENT.Value()) then Some(PROVIDER_PERMANENT)
    else if value == Some(CONCURRENCY.Value()) then Some(CONCURRENCY)
    else if value == Some(PARTIAL_SIDE_EFFECT.Value()) then Some(PARTIAL_SIDE_EFFECT)
    else if value == Some(POLICY_DENIAL.Value()) then Some(POLICY_DENIAL)
    else if value == Some(HUMAN_TIMEOUT.Value()) then Some(HUMAN_TIMEOUT)
    else if value == Some(UNCLASSIFIED.Value()) then Some(UNCLASSIFIED)
    else None
  }

  // ---- The printer ------------------------------------------------------------------------------

  /** A live error of the taxonomy. `extra` is what its `repr_fields` adds. */
  datatype LiveError = LiveError(
    typeName: string, code: ErrorCode, failureClass: Option<FailureClass>,
    extra: seq<(string, string)>, contextId: string, message: string)
  {
    /** The fields every error prints, before its own. */
    function Common(): seq<(string, string)> {
      [("code", code.Value())]
      + (if failureClass.Some? then [("failure_class", failureClass.value.Value())] else [])
    }

    function Fields(): seq<(string, string)> { Common() + extra }

    function Field(key: string): Option<string> { Lookup(extra, key) }
  }

  /** A dict lookup: the last pair with the key wins. */
  function Lookup(fields: seq<(string, string)>, key: string): Option<string> {
    if fields == [] then None
    else if fields[|fields| - 1].0 == key then Some(fields[|fields| - 1].1)
    else Lookup(fields[..|fields| - 1], key)
  }

  function RenderedField(u: Unicode, field: (string, string)): string { field.0 + "=" + Repr(u, field.1) + ", " }

  function Rendered(u: Unicode, fields: seq<(string, string)>): string {
    if fields == [] then "" else RenderedField(u, fields[0]) + Rendered(u, fields[1..])
  }

  function PrintError(u: Unicode, e: LiveError): string {
    e.typeName + "(" + Body(u, e) + ")"
  }

  function Body(u: Unicode, e: LiveError): string {
    Rendered(u, e.Fields()) + "context_id=" + e.contextId + ", message=" + Repr(u, e.message)
  }

  // ---- The parser ---------------------------------------------------------------------------------

  datatype StoredError = StoredError(
    errorType: Option<string>, failureClass: Option<FailureClass>, code: Option<string>,
    provider: Option<string>, reason: Option<string>, message: string)

  function SkipSpaces(u: Unicode, s: string): string {
    if s != "" && u.Space(s[0]) then SkipSpaces(u, s[1..]) else s
  }

  function TrimEnd(u: Unicode, s: string): string {
    if s != "" && u.Space(s[|s| - 1]) then TrimEnd(u, s[..|s| - 1]) else s
  }

  /** How many characters of `s` are word characters, or dots where those are allowed. */
  function WordRun(u: Unicode, s: string, dots: bool): (n: nat)
    ensures n <= |s|
  {
    if s != "" && (u.Word(s[0]) || (dots && s[0] == '.')) then 1 + WordRun(u, s[1..], dots) else 0
  }

  predicate TypeStart(c: char) { 'a' <= c <= 'z' || 'A' <= c <= 'Z' || c == '_' }

  /** What a type's name begins with: a word character of ASCII that is no digit. */
  lemma TypesBeginWithALetter(u: Unicode, c: char)
    ensures TypeStart(c) <==> c as int < 128 && u.Word(c) && !(48 <= c as int < 58)
  {
  }

  /** `type(body)`, split. */
  function SplitRepr(u: Unicode, text: string): Option<(string, string)> {
    var t := SkipSpaces(u, text);
    if t == "" || !TypeStart(t[0]) then None
    else
      var n := WordRun(u, t, true);
      if n == |t| || t[n] != '(' then None
      else
        var rest := TrimEnd(u, t[n + 1..]);
        if rest == "" || rest[|rest| - 1] != ')' then None else Some((t[..n], rest[..|rest| - 1]))
  }

  const CONTEXT_ID := "context_id="

  predicate Begins(s: string, pattern: string)
    decreases |s|
  {
    pattern == "" || (s != "" && s[0] == pattern[0] && Begins(s[1..], pattern[1..]))
  }

  /** `\bcontext_id=` matches at position `i`. */
  predicate MarkerAt(u: Unicode, s: string, i: nat) {
    i <= |s| && Begins(s[i..], CONTEXT_ID) && (i == 0 || !u.Word(s[i - 1]))
  }

  /** The first match from position `i` on. */
  function FindMarker(u: Unicode, s: string, i: nat): (r: Option<nat>)
    requires i <= |s|
    ensures r.Some? ==> i <= r.value < |s|
    decreases |s| - i
  {
    if i == |s| then None
    else if MarkerAt(u, s, i) then Some(i)
    else FindMarker(u, s, i + 1)
  }

  /** `key='value'` at the start of `s`: the key, the quoted value, and the length of both. */
  function FieldAt(u: Unicode, s: string): (r: Option<(string, string, nat)>)
    ensures r.Some? ==> 1 <= r.value.2 <= |s| && |r.value.1| >= 2
  {
    var w := WordRun(u, s, false);
    if w == 0 || w == |s| || s[w] != '=' then None
    else
      match LiteralLength(s[w + 1..], false)
      case None => None
      case Some(n) => Some((s[..w], s[w + 1..w + 1 + n], w + 1 + n))
  }

  /** Every field found in `s`, left to right, with its value read as a literal. */
  function FieldsIn(u: Unicode, s: string): seq<(string, string)>
    decreases |s|
  {
    if s == "" then []
    else
      match FieldAt(u, s)
      case None => FieldsIn(u, s[1..])
      case Some((key, quoted, n)) => [(key, Literal(quoted))] + FieldsIn(u, s[n..])
  }

  predicate AllSpace(u: Unicode, s: string) { forall i :: 0 <= i < |s| ==> u.Space(s[i]) }

  const MESSAGE := "message="

  /** `message=<literal>` at the start of `s`, with nothing but space after it. */
  function MessageAt(u: Unicode, s: string): (r: Option<string>)
    ensures r.Some? ==> |r.value| >= 2
  {
    if |s| < |MESSAGE| || s[..|MESSAGE|] != MESSAGE then None
    else
      match LiteralLength(s[|MESSAGE|..], true)
      case None => None
      case Some(n) => if AllSpace(u, s[|MESSAGE| + n..]) then Some(s[|MESSAGE|..|MESSAGE| + n]) else None
  }

  function FindMessage(u: Unicode, s: string): (r: Option<string>)
    ensures r.Some? ==> |r.value| >= 2
  {
    if MessageAt(u, s).Some? then MessageAt(u, s)
    else if s == "" then None
    else FindMessage(u, s[1..])
  }

  function ReadMessage(u: Unicode, body: string): string {
    match FindMessage(u, body)
    case None => body
    case Some(quoted) => Literal(quoted)
  }

  function FromFields(errorType: string, fields: seq<(string, string)>, message: string): StoredError {
    StoredError(Some(errorType), ParseClass(Lookup(fields, "failure_class")), Lookup(fields, "code"),
                Lookup(fields, "provider"), Lookup(fields, "reason"), message)
  }

  /** A body with a `context_id=` in it is of the taxonomy: fields before it, the message last. */
  function ReadBody(u: Unicode, errorType: string, body: string): StoredError {
    match FindMarker(u, body, 0)
    case None => StoredError(Some(errorType), None, None, None, None, body)
    case Some(i) => FromFields(errorType, FieldsIn(u, body[..i]), ReadMessage(u, body))
  }

  function ParseStoredError(u: Unicode, text: string): StoredError {
    match SplitRepr(u, text)
    case None => StoredError(None, None, None, None, None, text)
    case Some((errorType, body)) => ReadBody(u, errorType, body)
  }

  // ---- What Python guarantees of a live error -------------------------------------------------------

  /** A keyword: a run of word characters. */
  ghost predicate IsKey(u: Unicode, key: string) { key != "" && forall i :: 0 <= i < |key| ==> u.Word(key[i]) }

  ghost predicate IsField(u: Unicode, f: (string, string)) { IsKey(u, f.0) && f.0 != "context_id" }

  /** Every field has a name of its own. */
  ghost predicate Named(u: Unicode, fields: seq<(string, string)>) {
    fields == [] || (IsField(u, fields[0]) && Named(u, fields[1..]))
  }

  /** The type has a name, and the extra fields do not rename the common ones. */
  ghost predicate WellFormed(u: Unicode, e: LiveError) {
    && IsKey(u, e.typeName) && TypeStart(e.typeName[0])
    && Named(u, e.extra) && Lookup(e.extra, "code").None? && Lookup(e.extra, "failure_class").None?
  }

  // ---- Splitting `type(body)` -----------------------------------------------------------------------

  lemma {:induction false} WordRunStops(u: Unicode, key: string, rest: string, dots: bool)
    requires forall i :: 0 <= i < |key| ==> u.Word(key[i])
    requires rest != "" && !u.Word(rest[0]) && (dots ==> rest[0] != '.')
    ensures WordRun(u, key + rest, dots) == |key|
  {
    if key == "" {
      assert key + rest == rest;
    } else {
      assert (key + rest)[1..] == key[1..] + rest;
      WordRunStops(u, key[1..], rest, dots);
    }
  }

  lemma SplitPrinted(u: Unicode, name: string, body: string)
    requires IsKey(u, name) && TypeStart(name[0])
    ensures SplitRepr(u, name + "(" + body + ")") == Some((name, body))
  {
    var text := name + "(" + body + ")";
    assert text == name + ("(" + body + ")");
    assert SkipSpaces(u, text) == text;
    WordRunStops(u, name, "(" + body + ")", true);
    assert text[|name| + 1..] == body + ")";
    assert TrimEnd(u, body + ")") == body + ")";
    assert (body + ")")[..|body|] == body;
  }

  // ---- Finding `context_id=` --------------------------------------------------------------------------

  lemma {:induction false} BeginsMeansPrefix(s: string, pattern: string)
    ensures Begins(s, pattern) <==> pattern <= s
    decreases |s|
  {
    if s != "" && pattern != "" { BeginsMeansPrefix(s[1..], pattern[1..]); }
  }

  lemma MarkerIsThere(u: Unicode, s: string, i: nat)
    ensures MarkerAt(u, s, i)
       <==> i + |CONTEXT_ID| <= |s| && s[i..i + |CONTEXT_ID|] == CONTEXT_ID && (i == 0 || !u.Word(s[i - 1]))
  {
    if i <= |s| {
      BeginsMeansPrefix(s[i..], CONTEXT_ID);
      if |CONTEXT_ID| <= |s[i..]| { assert s[i..][..|CONTEXT_ID|] == s[i..i + |CONTEXT_ID|]; }
    }
  }

  lemma {:induction false} FindMarkerFirst(u: Unicode, s: string, i: nat, at: nat)
    requires i <= at < |s| && MarkerAt(u, s, at)
    requires forall k :: i <= k < at ==> !MarkerAt(u, s, k)
    ensures FindMarker(u, s, i) == Some(at)
    decreases at - i
  {
    if i < at { FindMarkerFirst(u, s, i + 1, at); }
  }

  lemma {:induction false} FindMarkerNone(u: Unicode, s: string, i: nat)
    requires i <= |s|
    ensures FindMarker(u, s, i).None? <==> forall k :: i <= k < |s| ==> !MarkerAt(u, s, k)
    decreases |s| - i
  {
    if i < |s| { FindMarkerNone(u, s, i + 1); }
  }

  /** A character the marker does not contain, and that is no word character. */
  predicate Barrier(c: char) { c == ' ' || c == '\'' || c == '"' }

  lemma MarkerHoldsNoBarrier(u: Unicode, s: string, i: nat, j: nat)
    requires MarkerAt(u, s, i) && i <= j < i + |CONTEXT_ID|
    ensures j < |s| && !Barrier(s[j])
  {
    MarkerIsThere(u, s, i);
    assert s[j] == s[i..i + |CONTEXT_ID|][j - i];
    assert forall k :: 0 <= k < |CONTEXT_ID| ==> !Barrier(CONTEXT_ID[k]);
  }

  /** A marker cannot run across a barrier. */
  lemma MarkerStaysLeft(u: Unicode, a: string, b: string, i: nat)
    requires a != "" && Barrier(a[|a| - 1]) && i < |a| && MarkerAt(u, a + b, i)
    ensures MarkerAt(u, a, i)
  {
    MarkerIsThere(u, a, i);
    MarkerIsThere(u, a + b, i);
    if |a| - 1 < i + |CONTEXT_ID| { MarkerHoldsNoBarrier(u, a + b, i, |a| - 1); }
    assert (a + b)[i..i + |CONTEXT_ID|] == a[i..i + |CONTEXT_ID|];
  }

  // ---- Reading the fields ---------------------------------------------------------------------------

  lemma FieldSplits(u: Unicode, key: string, r: string, rest: string)
    requires IsKey(u, key) && |r| >= 2 && LiteralLength(r + rest, false) == Some(|r|)
    ensures FieldAt(u, key + ("=" + (r + rest))) == Some((key, r, |key| + 1 + |r|))
  {
    var s := key + ("=" + (r + rest));
    WordRunStops(u, key, "=" + (r + rest), false);
    assert s[|key| + 1..] == r + rest;
    assert s[..|key|] == key;
    assert s[|key| + 1..|key| + 1 + |r|] == r;
  }

  lemma FieldIsRead(u: Unicode, field: (string, string), rest: string)
    requires IsKey(u, field.0)
    ensures FieldAt(u, RenderedField(u, field) + rest)
         == Some((field.0, Repr(u, field.1), |field.0| + 1 + |Repr(u, field.1)|))
  {
    ReprIsOneLiteral(u, field.1, ", " + rest, false);
    FieldSplits(u, field.0, Repr(u, field.1), ", " + rest);
    FieldRegroups(field.0, Repr(u, field.1), rest);
  }

  lemma FieldRegroups(key: string, r: string, rest: string)
    ensures key + "=" + r + ", " + rest == key + ("=" + (r + (", " + rest)))
  {
  }

  lemma SeparatorsAreSkipped(u: Unicode, rest: string)
    ensures FieldsIn(u, ", " + rest) == FieldsIn(u, rest)
  {
    var s := ", " + rest;
    assert s[1..] == " " + rest;
    assert (" " + rest)[1..] == rest;
    assert FieldAt(u, s).None? && FieldAt(u, " " + rest).None?;
  }

  lemma FirstFieldIsTaken(u: Unicode, s: string, key: string, quoted: string, n: nat)
    requires s != "" && FieldAt(u, s) == Some((key, quoted, n))
    ensures FieldsIn(u, s) == [(key, Literal(quoted))] + FieldsIn(u, s[n..])
  {
  }

  lemma AfterField(u: Unicode, field: (string, string), rest: string)
    ensures (RenderedField(u, field) + rest)[|field.0| + 1 + |Repr(u, field.1)|..] == ", " + rest
  {
  }

  /** One step of reading: the first field, and then whatever comes after its separator. */
  lemma FieldIsTaken(u: Unicode, f: (string, string), later: string)
    requires IsKey(u, f.0)
    ensures FieldsIn(u, RenderedField(u, f) + later) == [f] + FieldsIn(u, later)
  {
    FieldIsRead(u, f, later);
    AfterField(u, f, later);
    FirstFieldIsTaken(u, RenderedField(u, f) + later, f.0, Repr(u, f.1), |f.0| + 1 + |Repr(u, f.1)|);
    SeparatorsAreSkipped(u, later);
    ReprRoundTrip(u, f.1);
  }

  lemma FirstIsRendered(u: Unicode, fields: seq<(string, string)>, rest: string)
    requires fields != []
    ensures Rendered(u, fields) + rest == RenderedField(u, fields[0]) + (Rendered(u, fields[1..]) + rest)
    ensures |Rendered(u, fields)| == |RenderedField(u, fields[0])| + |Rendered(u, fields[1..])|
  {
    Associative(RenderedField(u, fields[0]), Rendered(u, fields[1..]), rest);
  }

  // ---- Reading the message --------------------------------------------------------------------------

  lemma NotAllSpace(u: Unicode, s: string, k: nat)
    requires k < |s| && !u.Space(s[|s| - 1])
    ensures !AllSpace(u, s[k..])
  {
    assert s[k..][|s[k..]| - 1] == s[|s| - 1];
  }

  /** An earlier `message=` never reaches the end of the text: its literal would have to
      run over the quote that opens the real one. */
  lemma EarlierMessageFails(u: Unicode, before: string, message: string)
    requires before != ""
    ensures MessageAt(u, before + MESSAGE + Repr(u, message)).None?
  {
    var r := Repr(u, message);
    var s := before + MESSAGE + r;
    var m := |MESSAGE|;
    assert s[|s| - 1] == r[|r| - 1];
    if s[..m] == MESSAGE && LiteralLength(s[m..], true).Some? {
      var n := LiteralLength(s[m..], true).value;
      QuotedEndsInQuote(s[m..][1..], s[m], true);
      if m + n < |s| {
        NotAllSpace(u, s, m + n);
      } else {
        LiteralStopsAtQuote(s, before, r);
      }
    }
  }

  /** Seen from inside, the quote that opens `r` is a quote no backslash precedes. */
  lemma LiteralStopsAtQuote(s: string, before: string, r: string)
    requires before != "" && |r| >= 2 && s == before + MESSAGE + r
    requires s[|MESSAGE|] == r[0] && (r[0] == '\'' || r[0] == '"')
    ensures LiteralLength(s[|MESSAGE|..], true).Some? ==> |MESSAGE| + LiteralLength(s[|MESSAGE|..], true).value < |s|
  {
    var m, k := |MESSAGE|, |before| + |MESSAGE|;
    var a := s[m + 1..k];
    assert s[k] == r[0] && s[k - 1] == '=';
    assert a != "" ==> a[|a| - 1] == s[k - 1];
    assert s[m..][1..] == a + [r[0]] + s[k + 1..];
    QuoteStops(a, s[k + 1..], r[0], true);
  }

  lemma MessageIsThere(u: Unicode, message: string)
    ensures MessageAt(u, MESSAGE + Repr(u, message)) == Some(Repr(u, message))
  {
    var r := Repr(u, message);
    var s := MESSAGE + r;
    assert s[..|MESSAGE|] == MESSAGE;
    assert s[|MESSAGE|..] == r;
    assert r + "" == r;
    ReprIsOneLiteral(u, message, "", true);
    assert s[|MESSAGE| + |r|..] == "";
    assert s[|MESSAGE|..|MESSAGE| + |r|] == r;
  }

  lemma {:induction false} MessageIsFound(u: Unicode, before: string, message: string)
    ensures FindMessage(u, before + MESSAGE + Repr(u, message)) == Some(Repr(u, message))
  {
    var s := before + MESSAGE + Repr(u, message);
    if before == "" {
      assert s == MESSAGE + Repr(u, message);
      MessageIsThere(u, message);
    } else {
      EarlierMessageFails(u, before, message);
      assert s[1..] == before[1..] + MESSAGE + Repr(u, message);
      MessageIsFound(u, before[1..], message);
    }
  }
}
