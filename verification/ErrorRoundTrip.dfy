/** What recovery reads back out of a printed error. The fields end at the first `context_id=`, so
    everything is read back exactly when no value looks like one. */
module ErrorRoundTrip {
  import opened Prelude
  import opened PythonRepr
  import opened StoredErrors

  /** Nothing in the printed value looks like the end of the fields. */
  predicate Readable(u: Unicode, value: string) { FindMarker(u, Repr(u, value), 0).None? }

  predicate AllReadable(u: Unicode, fields: seq<(string, string)>) {
    forall f :: f in fields ==> Readable(u, f.1)
  }

  /** A field cut short by its value's first `context_id=`. */
  function Stub(u: Unicode, f: (string, string)): string
    requires !Readable(u, f.1)
  {
    f.0 + "=" + Repr(u, f.1)[..FindMarker(u, Repr(u, f.1), 0).value]
  }

  /** The fields that are read: all of them, or those before the first value that is not
      readable and whatever fields that value's beginning looks like. */
  function Survivors(u: Unicode, fields: seq<(string, string)>): seq<(string, string)> {
    if fields == [] then []
    else if Readable(u, fields[0].1) then [fields[0]] + Survivors(u, fields[1..])
    else FieldsIn(u, Stub(u, fields[0]))
  }

  lemma {:induction false} ReadableSurvive(u: Unicode, fields: seq<(string, string)>)
    requires AllReadable(u, fields)
    ensures Survivors(u, fields) == fields
  {
    if fields != [] { ReadableSurvive(u, fields[1..]); }
  }

  /** The fields that the beginning of the first unreadable value looks like; none if every value is
      readable. */
  function Imposters(u: Unicode, fields: seq<(string, string)>): seq<(string, string)> {
    if fields == [] then []
    else if Readable(u, fields[0].1) then Imposters(u, fields[1..])
    else FieldsIn(u, Stub(u, fields[0]))
  }

  lemma FirstSurvives(u: Unicode, fields: seq<(string, string)>)
    requires fields != [] && Readable(u, fields[0].1)
    ensures Survivors(u, fields) == [fields[0]] + Survivors(u, fields[1..])
  {
  }

  lemma FirstOfConcat<T>(a: seq<T>, b: seq<T>)
    requires a != []
    ensures (a + b)[0] == a[0] && (a + b)[1..] == a[1..] + b && a + b == [a[0]] + (a[1..] + b)
  {
  }

  lemma {:induction false} SurvivorsAppend(u: Unicode, a: seq<(string, string)>, b: seq<(string, string)>)
    requires AllReadable(u, a)
    ensures Survivors(u, a + b) == a + Survivors(u, b)
  {
    if a == [] {
      assert a + b == b;
    } else {
      FirstOfConcat(a, b);
      FirstOfConcat(a, Survivors(u, b));
      FirstSurvives(u, a + b);
      SurvivorsAppend(u, a[1..], b);
    }
  }

  function Shift(r: Option<nat>, d: nat): Option<nat> { if r.Some? then Some(r.value + d) else None }

  // ---- Where the first marker is ----------------------------------------------------------------

  /** The markers of `s` are those of `r`, `d` further on. */
  ghost predicate Shifted(u: Unicode, s: string, r: string, d: nat) {
    forall i: nat :: MarkerAt(u, s, i) <==> i >= d && MarkerAt(u, r, i - d)
  }

  lemma {:induction false} SkipTo(u: Unicode, s: string, i: nat, j: nat)
    requires i <= j <= |s| && forall k :: i <= k < j ==> !MarkerAt(u, s, k)
    ensures FindMarker(u, s, i) == FindMarker(u, s, j)
    decreases j - i
  {
    if i < j { SkipTo(u, s, i + 1, j); }
  }

  lemma {:induction false} FoundFrom(u: Unicode, s: string, r: string, d: nat, i: nat)
    requires Shifted(u, s, r, d) && d + |r| <= |s| && i <= |r|
    ensures FindMarker(u, s, d + i) == Shift(FindMarker(u, r, i), d)
    decreases |r| - i
  {
    assert MarkerAt(u, s, d + i) <==> MarkerAt(u, r, d + i - d);
    if i == |r| {
      SkipTo(u, s, d + i, |s|);
    } else if !MarkerAt(u, r, i) {
      FoundFrom(u, s, r, d, i + 1);
    }
  }

  lemma {:induction false} FoundShifted(u: Unicode, s: string, r: string, d: nat)
    requires Shifted(u, s, r, d) && d + |r| <= |s|
    ensures FindMarker(u, s, 0) == Shift(FindMarker(u, r, 0), d)
  {
    SkipTo(u, s, 0, d);
    FoundFrom(u, s, r, d, 0);
  }

  lemma {:induction false} FoundIsFirst(u: Unicode, s: string, i: nat)
    requires i <= |s| && FindMarker(u, s, i).Some?
    ensures MarkerAt(u, s, FindMarker(u, s, i).value)
    ensures forall k :: i <= k < FindMarker(u, s, i).value ==> !MarkerAt(u, s, k)
    decreases |s| - i
  {
    if !MarkerAt(u, s, i) { FoundIsFirst(u, s, i + 1); }
  }

  lemma MarkerExtends(u: Unicode, a: string, b: string, i: nat)
    requires MarkerAt(u, a, i)
    ensures MarkerAt(u, a + b, i)
  {
    MarkerIsThere(u, a, i);
    MarkerIsThere(u, a + b, i);
    assert (a + b)[i..i + |CONTEXT_ID|] == a[i..i + |CONTEXT_ID|];
  }

  lemma MarkerOnTheRight(u: Unicode, a: string, b: string, i: nat)
    requires a == "" || !u.Word(a[|a| - 1])
    ensures MarkerAt(u, b, i) <==> MarkerAt(u, a + b, |a| + i)
  {
    MarkerIsThere(u, b, i);
    MarkerIsThere(u, a + b, |a| + i);
    if i + |CONTEXT_ID| <= |b| {
      assert (a + b)[|a| + i..|a| + i + |CONTEXT_ID|] == b[i..i + |CONTEXT_ID|];
    }
  }

  /** Past a barrier, looking starts afresh. */
  lemma FoundInConcat(u: Unicode, a: string, b: string)
    requires a != "" && Barrier(a[|a| - 1])
    ensures FindMarker(u, a + b, 0)
         == if FindMarker(u, a, 0).Some? then FindMarker(u, a, 0) else Shift(FindMarker(u, b, 0), |a|)
  {
    FindMarkerNone(u, a, 0);
    forall i: nat | i < |a| ensures MarkerAt(u, a + b, i) <==> MarkerAt(u, a, i) {
      if MarkerAt(u, a + b, i) { MarkerStaysLeft(u, a, b, i); }
      if MarkerAt(u, a, i) { MarkerExtends(u, a, b, i); }
    }
    if FindMarker(u, a, 0).Some? {
      FoundIsFirst(u, a, 0);
      FindMarkerFirst(u, a + b, 0, FindMarker(u, a, 0).value);
    } else {
      forall i: nat ensures MarkerAt(u, a + b, i) <==> i >= |a| && MarkerAt(u, b, i - |a|) {
        if i >= |a| { MarkerOnTheRight(u, a, b, i - |a|); }
      }
      FoundShifted(u, a + b, b, |a|);
    }
  }

  // ---- A field has a marker exactly where its value does --------------------------------------------

  lemma NoMarkerInKey(u: Unicode, key: string, i: nat)
    requires IsKey(u, key) && key != "context_id"
    ensures !MarkerAt(u, key + "=", i)
  {
    var s := key + "=";
    var n := |CONTEXT_ID| - 1;
    MarkerIsThere(u, s, i);
    assert CONTEXT_ID[n] == '=' && CONTEXT_ID[..n] == "context_id";
    if i + n < |key| {
      assert s[i..i + n + 1][n] == key[i + n];
    } else if i + n == |key| && i == 0 {
      assert s[..n + 1][..n] == key;
    } else if i + n == |key| {
      assert s[i - 1] == key[i - 1];
    }
  }

  lemma KeyIsNoMarker(u: Unicode, key: string, r: string, i: nat)
    requires IsKey(u, key) && key != "context_id" && r != "" && Barrier(r[0]) && i <= |key|
    ensures !MarkerAt(u, key + "=" + r, i)
  {
    var s := key + "=" + r;
    NoMarkerInKey(u, key, i);
    MarkerIsThere(u, s, i);
    MarkerIsThere(u, key + "=", i);
    if i + |CONTEXT_ID| <= |key| + 1 {
      assert s[i..i + |CONTEXT_ID|] == (key + "=")[i..i + |CONTEXT_ID|];
      assert i > 0 ==> s[i - 1] == (key + "=")[i - 1];
    } else if i + |CONTEXT_ID| <= |s| {
      BarrierIsNoMarker(u, s, i, |key| + 1);
    }
  }

  lemma BarrierIsNoMarker(u: Unicode, s: string, i: nat, j: nat)
    requires i <= j < i + |CONTEXT_ID| && j < |s| && Barrier(s[j])
    ensures !MarkerAt(u, s, i)
  {
    if MarkerAt(u, s, i) { MarkerHoldsNoBarrier(u, s, i, j); }
  }

  lemma FoundInField(u: Unicode, field: (string, string))
    requires IsKey(u, field.0) && field.0 != "context_id"
    ensures FindMarker(u, RenderedField(u, field), 0) == Shift(FindMarker(u, Repr(u, field.1), 0), |field.0| + 1)
  {
    var key, r := field.0, Repr(u, field.1);
    forall i: nat ensures MarkerAt(u, key + "=" + r, i) <==> i >= |key| + 1 && MarkerAt(u, r, i - |key| - 1) {
      if i <= |key| {
        KeyIsNoMarker(u, key, r, i);
      } else {
        MarkerOnTheRight(u, key + "=", r, i - |key| - 1);
      }
    }
    FoundShifted(u, key + "=" + r, r, |key| + 1);
    FoundInConcat(u, key + "=" + r, ", ");
    assert FindMarker(u, ", ", 0).None?;
  }

  // ---- Reading up to the first marker -----------------------------------------------------------------

  /** The fields read from a body: those before the first marker. */
  function FieldsRead(u: Unicode, body: string): seq<(string, string)> {
    match FindMarker(u, body, 0)
    case None => []
    case Some(i) => FieldsIn(u, body[..i])
  }

  lemma EndsInSpace(u: Unicode, f: (string, string))
    ensures RenderedField(u, f) != "" && Barrier(RenderedField(u, f)[|RenderedField(u, f)| - 1])
  {
  }

  lemma TakeShifted(a: string, b: string, i: nat)
    requires i <= |b|
    ensures (a + b)[..|a| + i] == a + b[..i]
  {
  }

  lemma FoundPastField(u: Unicode, f: (string, string), later: string)
    requires IsField(u, f) && Readable(u, f.1)
    ensures FindMarker(u, RenderedField(u, f) + later, 0) == Shift(FindMarker(u, later, 0), |RenderedField(u, f)|)
  {
    FoundInField(u, f);
    EndsInSpace(u, f);
    FoundInConcat(u, RenderedField(u, f), later);
  }

  /** A readable field is read, and what follows is read as if it stood alone. */
  lemma ReadableFieldIsRead(u: Unicode, f: (string, string), later: string)
    requires IsField(u, f) && Readable(u, f.1) && FindMarker(u, later, 0).Some?
    ensures FindMarker(u, RenderedField(u, f) + later, 0).Some?
    ensures FieldsRead(u, RenderedField(u, f) + later) == [f] + FieldsRead(u, later)
  {
    FoundPastField(u, f, later);
    var i := FindMarker(u, later, 0).value;
    TakeShifted(RenderedField(u, f), later, i);
    FieldIsTaken(u, f, later[..i]);
  }

  lemma TakeInside(key: string, r: string, rest: string, j: nat)
    requires j <= |r|
    ensures (key + "=" + r + ", " + rest)[..j + (|key| + 1)] == key + "=" + r[..j]
  {
  }

  lemma FoundInsideField(u: Unicode, f: (string, string), later: string)
    requires IsField(u, f) && !Readable(u, f.1)
    ensures FindMarker(u, RenderedField(u, f) + later, 0) == Shift(FindMarker(u, Repr(u, f.1), 0), |f.0| + 1)
  {
    FoundInField(u, f);
    EndsInSpace(u, f);
    FoundInConcat(u, RenderedField(u, f), later);
  }

  lemma StubIsTaken(u: Unicode, f: (string, string), later: string, j: nat)
    requires !Readable(u, f.1) && FindMarker(u, Repr(u, f.1), 0) == Some(j)
    ensures j + (|f.0| + 1) <= |RenderedField(u, f) + later|
    ensures (RenderedField(u, f) + later)[..j + (|f.0| + 1)] == Stub(u, f)
  {
    TakeInside(f.0, Repr(u, f.1), later, j);
  }

  lemma ReadUpTo(u: Unicode, body: string, i: nat)
    requires FindMarker(u, body, 0) == Some(i)
    ensures FieldsRead(u, body) == FieldsIn(u, body[..i])
  {
  }

  lemma UnreadableFieldIsCut(u: Unicode, f: (string, string), later: string)
    requires IsField(u, f) && !Readable(u, f.1)
    ensures FindMarker(u, RenderedField(u, f) + later, 0).Some?
    ensures FieldsRead(u, RenderedField(u, f) + later) == FieldsIn(u, Stub(u, f))
  {
    var j := FindMarker(u, Repr(u, f.1), 0).value;
    FoundInsideField(u, f, later);
    StubIsTaken(u, f, later, j);
    ReadUpTo(u, RenderedField(u, f) + later, j + (|f.0| + 1));
  }

  lemma NothingBeforeTheMarker(u: Unicode, tail: string)
    ensures FindMarker(u, CONTEXT_ID + tail, 0) == Some(0) && FieldsRead(u, CONTEXT_ID + tail) == []
  {
    MarkerIsThere(u, CONTEXT_ID + tail, 0);
  }

  /** The fields read from a printed body are its survivors. */
  lemma {:induction false} SurvivorsAreRead(u: Unicode, fields: seq<(string, string)>, tail: string)
    requires Named(u, fields)
    ensures FindMarker(u, Rendered(u, fields) + (CONTEXT_ID + tail), 0).Some?
    ensures FieldsRead(u, Rendered(u, fields) + (CONTEXT_ID + tail)) == Survivors(u, fields)
  {
    if fields == [] {
      assert Rendered(u, fields) + (CONTEXT_ID + tail) == CONTEXT_ID + tail;
      NothingBeforeTheMarker(u, tail);
    } else {
      SurvivorsAreRead(u, fields[1..], tail);
      FirstIsRendered(u, fields, CONTEXT_ID + tail);
      if Readable(u, fields[0].1) {
        ReadableFieldIsRead(u, fields[0], Rendered(u, fields[1..]) + (CONTEXT_ID + tail));
      } else {
        UnreadableFieldIsCut(u, fields[0], Rendered(u, fields[1..]) + (CONTEXT_ID + tail));
      }
    }
  }

  // ---- Identifiers are readable ----------------------------------------------------------------------

  /** A value with no equals sign in it: an identifier, say. */
  predicate Plain(value: string) { '=' !in value }

  lemma {:induction false} HexHasNoEquals(n: nat, width: nat)
    ensures '=' !in Hex(n, width)
    decreases width, n
  {
    if width > 0 { HexHasNoEquals(n / 16, width - 1); }
  }

  lemma EscapeCharHasNoEquals(u: Unicode, q: char, c: char)
    requires c != '=' && (q == '\'' || q == '"')
    ensures '=' !in EscapeChar(u, q, c)
  {
    HexHasNoEquals(c as int, 2);
    HexHasNoEquals(c as int, 4);
    HexHasNoEquals(c as int, 8);
  }

  lemma {:induction false} EscapeHasNoEquals(u: Unicode, q: char, s: string)
    requires Plain(s) && (q == '\'' || q == '"')
    ensures '=' !in Escape(u, q, s)
  {
    if s != "" {
      EscapeCharHasNoEquals(u, q, s[0]);
      EscapeHasNoEquals(u, q, s[1..]);
    }
  }

  lemma MarkerNeedsEquals(u: Unicode, s: string)
    requires '=' !in s
    ensures FindMarker(u, s, 0).None?
  {
    FindMarkerNone(u, s, 0);
    assert CONTEXT_ID[|CONTEXT_ID| - 1] == '=';
    forall i: nat | i < |s| ensures !MarkerAt(u, s, i) {
      MarkerIsThere(u, s, i);
      if i + |CONTEXT_ID| <= |s| {
        assert s[i..i + |CONTEXT_ID|][|CONTEXT_ID| - 1] == s[i + |CONTEXT_ID| - 1];
      }
    }
  }

  lemma PlainIsReadable(u: Unicode, value: string)
    requires Plain(value)
    ensures Readable(u, value)
  {
    EscapeHasNoEquals(u, QuoteFor(value), value);
    MarkerNeedsEquals(u, Repr(u, value));
  }

  lemma CodesArePlain(code: ErrorCode)
    ensures Plain(code.Value())
  {
  }

  lemma ClassesArePlain(c: FailureClass)
    ensures Plain(c.Value())
  {
  }

  // ---- The round trip ---------------------------------------------------------------------------------

  /** The facts a live error carries, as recovery should read them. */
  function Facts(e: LiveError): StoredError {
    StoredError(Some(e.typeName), e.failureClass, Some(e.code.Value()), e.Field("provider"), e.Field("reason"),
        e.message)
  }

  lemma {:induction false} LookupAppend(a: seq<(string, string)>, b: seq<(string, string)>, key: string)
    ensures Lookup(a + b, key) == if Lookup(b, key).Some? then Lookup(b, key) else Lookup(a, key)
  {
    if b == [] {
      assert a + b == a;
    } else {
      assert (a + b)[..|a + b| - 1] == a + b[..|b| - 1];
      LookupAppend(a, b[..|b| - 1], key);
    }
  }

  /** A field that no error has is found only among the imposters. */
  lemma {:induction false} SurvivorsLookUp(u: Unicode, fields: seq<(string, string)>, key: string)
    requires Lookup(fields, key).None?
    ensures Lookup(Survivors(u, fields), key) == Lookup(Imposters(u, fields), key)
  {
    if fields != [] && Readable(u, fields[0].1) {
      assert fields == [fields[0]] + fields[1..];
      LookupAppend([fields[0]], fields[1..], key);
      LookupOne(fields[0], key);
      SurvivorsLookUp(u, fields[1..], key);
      LookupAppend([fields[0]], Survivors(u, fields[1..]), key);
    }
  }

  lemma ClassRoundTrip(c: FailureClass)
    ensures ParseClass(Some(c.Value())) == Some(c)
  {
    assert PROVIDER_TRANSIENT.Value()[9] == 't' && PROVIDER_PERMANENT.Value()[9] == 'p';
    assert POLICY_DENIAL.Value()[0] == 'p' && HUMAN_TIMEOUT.Value()[0] == 'h';
  }

  lemma LookupOne(field: (string, string), key: string)
    ensures Lookup([field], key) == if field.0 == key then Some(field.1) else None
  {
    assert [field][..0] == [];
  }

  lemma CommonLookUp(e: LiveError, key: string)
    ensures Lookup(e.Common(), key)
         == if key == "code" then Some(e.code.Value())
            else if key == "failure_class" && e.failureClass.Some? then Some(e.failureClass.value.Value())
            else None
  {
    assert |"failure_class"| != |"code"|;
    LookupOne(("code", e.code.Value()), key);
    if e.failureClass.Some? {
      LookupOne(("failure_class", e.failureClass.value.Value()), key);
      LookupAppend([("code", e.code.Value())], [("failure_class", e.failureClass.value.Value())], key);
    } else {
      assert e.Common() == [("code", e.code.Value())];
    }
  }

  lemma {:induction false} NamedAppend(u: Unicode, a: seq<(string, string)>, b: seq<(string, string)>)
    requires Named(u, a) && Named(u, b)
    ensures Named(u, a + b)
  {
    if a == [] {
      assert a + b == b;
    } else {
      assert (a + b)[1..] == a[1..] + b;
      NamedAppend(u, a[1..], b);
    }
  }

  lemma CommonIsNamed(u: Unicode, e: LiveError)
    ensures Named(u, e.Common())
  {
    assert |"code"| != |"context_id"| && |"failure_class"| != |"context_id"|;
    assert IsKey(u, "code") && IsKey(u, "failure_class");
    assert Named(u, e.Common()[1..]);
  }

  lemma CommonIsReadable(u: Unicode, e: LiveError)
    ensures AllReadable(u, e.Common())
  {
    CodesArePlain(e.code);
    PlainIsReadable(u, e.code.Value());
    if e.failureClass.Some? {
      ClassesArePlain(e.failureClass.value);
      PlainIsReadable(u, e.failureClass.value.Value());
    }
  }

  lemma Regroup(head: string, marker: string, id: string, message: string)
    ensures head + marker + id + ", message=" + message == head + (marker + (id + ", " + MESSAGE + message))
    ensures head + marker + id + ", message=" + message == head + marker + id + ", " + MESSAGE + message
  {
    assert ", message=" == ", " + MESSAGE;
  }

  function Tail(u: Unicode, e: LiveError): string { e.contextId + ", " + MESSAGE + Repr(u, e.message) }

  lemma BodySplits(u: Unicode, e: LiveError)
    ensures Body(u, e) == Rendered(u, e.Fields()) + (CONTEXT_ID + Tail(u, e))
    ensures Body(u, e) == Rendered(u, e.Fields()) + CONTEXT_ID + e.contextId + ", " + MESSAGE + Repr(u, e.message)
  {
    Regroup(Rendered(u, e.Fields()), CONTEXT_ID, e.contextId, Repr(u, e.message));
  }

  lemma FieldsReadBack(u: Unicode, e: LiveError)
    requires Named(u, e.Fields())
    ensures FindMarker(u, Body(u, e), 0).Some?
    ensures FieldsRead(u, Body(u, e)) == Survivors(u, e.Fields())
  {
    SurvivorsAreRead(u, e.Fields(), Tail(u, e));
    BodySplits(u, e);
  }

  lemma MessageReadsBack(u: Unicode, e: LiveError)
    ensures ReadMessage(u, Body(u, e)) == e.message
  {
    BodySplits(u, e);
    MessageIsFound(u, Rendered(u, e.Fields()) + CONTEXT_ID + e.contextId + ", ", e.message);
    ReprRoundTrip(u, e.message);
  }

  /** What is read back of any error at all: its type, its message whatever the message says, and
      the fields that survive. */
  lemma WhatIsReadBack(u: Unicode, e: LiveError)
    requires WellFormed(u, e)
    ensures ParseStoredError(u, PrintError(u, e))
         == FromFields(e.typeName, Survivors(u, e.Fields()), e.message)
  {
    CommonIsNamed(u, e);
    NamedAppend(u, e.Common(), e.extra);
    SplitPrinted(u, e.typeName, Body(u, e));
    FieldsReadBack(u, e);
    MessageReadsBack(u, e);
  }

  lemma FactsReadBack(u: Unicode, e: LiveError)
    requires WellFormed(u, e)
    ensures FromFields(e.typeName, e.Fields(), e.message) == Facts(e)
  {
    FieldsLookUp(e, "code");
    FieldsLookUp(e, "failure_class");
    FieldsLookUp(e, "provider");
    FieldsLookUp(e, "reason");
    if e.failureClass.Some? { ClassRoundTrip(e.failureClass.value); }
  }

  lemma FieldsLookUp(e: LiveError, key: string)
    ensures Lookup(e.Fields(), key)
         == if e.Field(key).Some? then e.Field(key)
            else if key == "code" then Some(e.code.Value())
            else if key == "failure_class" && e.failureClass.Some? then Some(e.failureClass.value.Value())
            else None
  {
    LookupAppend(e.Common(), e.extra, key);
    CommonLookUp(e, key);
  }

  /** A field of none of an error's own is read back as the error's common one, unless an imposter
      is there. */
  lemma CommonReadsBack(u: Unicode, e: LiveError, key: string)
    requires WellFormed(u, e) && Lookup(e.extra, key).None?
    ensures Lookup(Survivors(u, e.Fields()), key)
         == if Lookup(Imposters(u, e.extra), key).Some? then Lookup(Imposters(u, e.extra), key)
            else Lookup(e.Common(), key)
  {
    CommonIsReadable(u, e);
    SurvivorsAppend(u, e.Common(), e.extra);
    LookupAppend(e.Common(), Survivors(u, e.extra), key);
    SurvivorsLookUp(u, e.extra, key);
  }

  function OwnClass(e: LiveError): Option<string> {
    if e.failureClass.Some? then Some(e.failureClass.value.Value()) else None
  }

  lemma OwnLookUp(e: LiveError)
    ensures Lookup(e.Common(), "code") == Some(e.code.Value())
    ensures Lookup(e.Common(), "failure_class") == OwnClass(e) && ParseClass(OwnClass(e)) == e.failureClass
  {
    CommonLookUp(e, "failure_class");
    CommonLookUp(e, "code");
    assert |"failure_class"| != |"code"|;
    if e.failureClass.Some? { ClassRoundTrip(e.failureClass.value); }
  }

  function OrElse(a: Option<string>, b: Option<string>): Option<string> { if a.Some? then a else b }

  /** An error's class and code as they are read back: its own, unless an imposter names another. */
  lemma ClassAndCodeReadBack(u: Unicode, e: LiveError)
    requires WellFormed(u, e)
    ensures var read, imposters := ParseStoredError(u, PrintError(u, e)), Imposters(u, e.extra);
            && read.errorType == Some(e.typeName)
            && read.failureClass == ParseClass(OrElse(Lookup(imposters, "failure_class"), OwnClass(e)))
            && read.code == OrElse(Lookup(imposters, "code"), Some(e.code.Value()))
  {
    WhatIsReadBack(u, e);
    CommonReadsBack(u, e, "failure_class");
    CommonReadsBack(u, e, "code");
    OwnLookUp(e);
  }

  /** Parsing undoes printing, whatever the message says and whatever the field values are, as long
      as no value looks like the `context_id=` that ends the fields. */
  lemma ParsingUndoesPrinting(u: Unicode, e: LiveError)
    requires WellFormed(u, e) && AllReadable(u, e.extra)
    ensures ParseStoredError(u, PrintError(u, e)) == Facts(e)
  {
    WhatIsReadBack(u, e);
    CommonIsReadable(u, e);
    assert AllReadable(u, e.Common() + e.extra);
    ReadableSurvive(u, e.Fields());
    FactsReadBack(u, e);
  }

  predicate AllPlain(fields: seq<(string, string)>) { forall f :: f in fields ==> Plain(f.1) }

  /** Identifier-like values are always read back, next to any message. */
  lemma IdentifiersReadBack(u: Unicode, e: LiveError)
    requires WellFormed(u, e) && AllPlain(e.extra)
    ensures ParseStoredError(u, PrintError(u, e)) == Facts(e)
  {
    forall f | f in e.extra ensures Readable(u, f.1) { PlainIsReadable(u, f.1); }
    ParsingUndoesPrinting(u, e);
  }
}
