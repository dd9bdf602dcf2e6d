/** An unreadable value really can change an error's class: to any class at all. */
module ClaimedClasses {
  import opened Prelude
  import opened PythonRepr
  import opened StoredErrors
  import opened ErrorRoundTrip
  import opened FieldLimits
  import opened Recovery

  /** Characters that print as themselves, and close no literal. */
  predicate Simple(s: string) {
    forall i :: 0 <= i < |s| ==> 32 as char <= s[i] < 127 as char && s[i] != '\'' && s[i] != '\\'
  }

  lemma SimpleIsUnescaped(u: Unicode, q: char, s: string)
    requires Simple(s) && IsQuote(q) && q !in s
    ensures Escape(u, q, s) == s
  {
    PlainPrefix(Escaper(u, q), s, "");
    assert s + "" == s;
  }

  lemma SimpleIsDenoted(u: Unicode, s: string)
    requires Simple(s) && '"' !in s
    ensures Literal("\"" + s + "\"") == s
  {
    var quoted := "\"" + s + "\"";
    SimpleIsUnescaped(u, '"', s);
    EscapeRoundTrip(u, '"', s);
    assert quoted[1..|quoted| - 1] == s;
  }

  lemma SimpleIsALiteral(s: string, rest: string)
    requires Simple(s) && '"' !in s
    ensures LiteralLength("\"" + s + "\"" + rest, false) == Some(|s| + 2)
  {
    var text := "\"" + s + "\"" + rest;
    assert text[0] == '"' && text[1..] == s + ("\"" + rest);
    PlainCharsArePassed(s, "\"" + rest, '"', false);
    QuoteCloses('"', rest, false);
  }

  /** A key before a literal that is never closed is no field. */
  lemma {:induction false} OpenLiteralIsSkipped(u: Unicode, key: string, rest: string)
    requires forall i :: 0 <= i < |key| ==> u.Word(key[i])
    requires LiteralLength(rest, false).None?
    ensures FieldsIn(u, key + ("=" + rest)) == FieldsIn(u, rest)
  {
    var s := key + ("=" + rest);
    WordRunStops(u, key, "=" + rest, false);
    assert s[|key|] == '=' && s[|key| + 1..] == rest;
    if key != "" {
      assert s[1..] == key[1..] + ("=" + rest);
      OpenLiteralIsSkipped(u, key[1..], rest);
    }
  }

  const CLASS_KEY := "failure_class"

  predicate Lower(v: string) { forall c :: c in v ==> 'a' <= c <= 'z' || c == '_' }

  lemma ClassIsLower(c: FailureClass)
    ensures Lower(c.Value())
  {
  }

  lemma LowerAt(v: string, i: nat)
    requires Lower(v) && i < |v|
    ensures 'a' <= v[i] <= 'z' || v[i] == '_'
  {
    assert v[i] in v;
  }

  lemma LowerIsSimple(v: string)
    requires Lower(v)
    ensures Simple(v) && '"' !in v && '=' !in v
  {
    forall i | 0 <= i < |v| ensures 'a' <= v[i] <= 'z' || v[i] == '_' { LowerAt(v, i); }
  }

  /** What looks like a field naming a class, and then like the end of the fields. */
  function Naming(v: string): string { CLASS_KEY + ("=" + ("\"" + v + "\"" + " ")) }

  function Claim(v: string): string { Naming(v) + CONTEXT_ID }

  lemma KeyIsLower()
    ensures Lower(CLASS_KEY)
  {
  }

  lemma NamingAt(v: string, k: nat)
    requires k < |Naming(v)|
    ensures |Naming(v)| == |CLASS_KEY| + |v| + 4
    ensures Naming(v)[k] == if k < |CLASS_KEY| then CLASS_KEY[k]
                            else if k == |CLASS_KEY| then '='
                            else if k == |CLASS_KEY| + 1 || k == |CLASS_KEY| + 2 + |v| then '"'
                            else if k < |CLASS_KEY| + 2 + |v| then v[k - |CLASS_KEY| - 2]
                            else ' '
  {
  }

  lemma ClaimIsSimple(v: string)
    requires Lower(v)
    ensures Simple(Naming(v)) && Simple(Claim(v))
  {
    KeyIsLower();
    LowerIsSimple(CLASS_KEY);
    LowerIsSimple(v);
    forall k | 0 <= k < |Naming(v)|
      ensures 32 as char <= Naming(v)[k] < 127 as char && Naming(v)[k] != '\'' && Naming(v)[k] != '\\'
    {
      NamingAt(v, k);
    }
    assert Simple(CONTEXT_ID);
  }

  /** Read by itself, it is that field. */
  lemma NamingIsRead(u: Unicode, v: string)
    requires Lower(v)
    ensures FieldsIn(u, Naming(v)) == [(CLASS_KEY, v)]
  {
    var quoted := "\"" + v + "\"";
    LowerIsSimple(v);
    SimpleIsDenoted(u, v);
    SimpleIsALiteral(v, " ");
    KeyIsLower();
    forall i | 0 <= i < |CLASS_KEY| ensures u.Word(CLASS_KEY[i]) { LowerAt(CLASS_KEY, i); }
    FieldSplits(u, CLASS_KEY, quoted, " ");
    FirstFieldIsTaken(u, Naming(v), CLASS_KEY, quoted, |CLASS_KEY| + 1 + |quoted|);
    NamingEnds(v);
    SpaceHasNoFields(u);
  }

  lemma NamingEnds(v: string)
    ensures Naming(v)[|CLASS_KEY| + 3 + |v|..] == " "
  {
  }

  lemma SpaceHasNoFields(u: Unicode)
    ensures FieldsIn(u, " ") == []
  {
    assert " "[1..] == "";
  }

  lemma ClaimPrinted(u: Unicode, v: string)
    requires Lower(v)
    ensures Repr(u, Claim(v)) == "'" + Naming(v) + CONTEXT_ID + "'"
  {
    ClaimIsSimple(v);
    SimpleIsUnescaped(u, '\'', Claim(v));
  }

  /** Only one equals sign comes before the claim's end. */
  lemma OnlyEquals(v: string, k: nat)
    requires Lower(v) && k < |Naming(v)| + 10
    ensures Claim(v)[k] == '=' <==> k == |CLASS_KEY|
  {
    KeyIsLower();
    LowerIsSimple(CLASS_KEY);
    LowerIsSimple(v);
    if k < |Naming(v)| {
      NamingAt(v, k);
    } else {
      assert Lower(CONTEXT_ID[..10]);
      assert Claim(v)[k] == CONTEXT_ID[..10][k - |Naming(v)|];
    }
  }

  lemma NoEarlierMarker(u: Unicode, v: string, k: nat)
    requires Lower(v) && k <= |Naming(v)|
    ensures !MarkerAt(u, "'" + Naming(v) + CONTEXT_ID + "'", k)
  {
    var s := "'" + Naming(v) + CONTEXT_ID + "'";
    MarkerIsThere(u, s, k);
    if s[k..k + |CONTEXT_ID|] == CONTEXT_ID {
      assert s[k] == s[k..k + |CONTEXT_ID|][0] && s[k + 10] == s[k..k + |CONTEXT_ID|][10];
      assert s[k + 10] == Claim(v)[k + 9];
      OnlyEquals(v, k + 9);
      assert false;
    }
  }

  /** The fields end where the claim does. */
  lemma ClaimEndsTheFields(u: Unicode, v: string)
    requires Lower(v)
    ensures FindMarker(u, Repr(u, Claim(v)), 0) == Some(1 + |Naming(v)|)
  {
    var s, at := Repr(u, Claim(v)), 1 + |Naming(v)|;
    ClaimPrinted(u, v);
    NamingAt(v, |Naming(v)| - 1);
    assert s[at..at + |CONTEXT_ID|] == CONTEXT_ID && s[at - 1] == ' ';
    MarkerIsThere(u, s, at);
    forall k: nat | k < at ensures !MarkerAt(u, s, k) { NoEarlierMarker(u, v, k); }
    FindMarkerFirst(u, s, 0, at);
  }

  lemma StubOfClaim(u: Unicode, key: string, v: string)
    requires Lower(v)
    ensures !Readable(u, Claim(v)) && Stub(u, (key, Claim(v))) == key + ("=" + ("'" + Naming(v)))
  {
    ClaimEndsTheFields(u, v);
    ClaimPrinted(u, v);
  }

  lemma ClaimIsAField(u: Unicode, key: string, v: string)
    requires Lower(v) && forall i :: 0 <= i < |key| ==> u.Word(key[i])
    ensures FieldsIn(u, key + ("=" + ("'" + Naming(v)))) == [(CLASS_KEY, v)]
  {
    var rest := "'" + Naming(v);
    ClaimIsSimple(v);
    assert Naming(v) + "" == Naming(v) && rest[1..] == Naming(v);
    PlainCharsArePassed(Naming(v), "", '\'', false);
    OpenLiteralIsSkipped(u, key, rest);
    NamingIsRead(u, v);
  }

  /** Whatever class an error has, a first value that reads like another class gives it that one. */
  lemma AnyClassCanBeClaimed(u: Unicode, e: LiveError, c: FailureClass)
    requires WellFormed(u, e) && e.extra != [] && e.extra[0].1 == Claim(c.Value())
    ensures Classify(ParseStoredError(u, PrintError(u, e))) == c
  {
    ClassIsLower(c);
    StubOfClaim(u, e.extra[0].0, c.Value());
    ClaimIsAField(u, e.extra[0].0, c.Value());
    LookupOne((CLASS_KEY, c.Value()), CLASS_KEY);
    ClassRoundTrip(c);
    ClassSurvivesTheCheckpoint(u, e);
  }
}
