/** The values a provider failure cannot carry through a checkpoint, and that those are all of them. */
module FieldLimits {
  import opened Prelude
  import opened PythonRepr
  import opened StoredErrors
  import opened ErrorRoundTrip

  // ---- What is known of an escaped character ------------------------------------------------------

  /** Seen from inside a literal, an escaped character is that literal's quote or passes it by. */
  ghost predicate QuoteOrToken(e: string, p: char) { e == [p] || IsToken(e, p) }

  ghost predicate Regular(e: string) {
    && QuoteOrToken(e, '\'') && QuoteOrToken(e, '"')
    && ('=' in e ==> e == ['=']) && (IsQuote(e[0]) ==> |e| == 1)
  }

  ghost predicate AllRegular(escape: char -> string) { forall c {:trigger Regular(escape(c))} :: Regular(escape(c)) }

  ghost predicate ReadsBack(escape: char -> string) {
    forall s {:trigger Unescape(EscapeWith(escape, s))} :: Unescape(EscapeWith(escape, s)) == Some(s)
  }

  /** A literal at the start of `t` denotes fewer than `n` characters. */
  predicate Shorter(t: string, n: nat) {
    LiteralLength(t, false).Some? ==> |Literal(t[..LiteralLength(t, false).value])| < n
  }

  lemma EscaperIsRegular(u: Unicode, q: char)
    requires IsQuote(q)
    ensures AllRegular(Escaper(u, q)) && ReadsBack(Escaper(u, q))
  {
    forall c ensures Regular(Escaper(u, q)(c)) {
      if c != '=' { EscapeCharHasNoEquals(u, q, c); }
    }
    forall s ensures Unescape(EscapeWith(Escaper(u, q), s)) == Some(s) { EscapeRoundTrip(u, q, s); }
  }

  // ---- Escaped text, cut anywhere ---------------------------------------------------------------------

  lemma TakeAcross(a: string, b: string, m: nat)
    requires |a| <= m <= |a + b|
    ensures (a + b)[..m] == a + b[..m - |a|]
  {
  }

  /** What follows an equals sign in escaped text is escaped text. */
  lemma {:induction false} EqualsIsABoundary(escape: char -> string, w: string, k: nat) returns (i: nat)
    requires AllRegular(escape) && k < |EscapeWith(escape, w)| && EscapeWith(escape, w)[k] == '='
    ensures i < |w| && EscapeWith(escape, w)[k + 1..] == EscapeWith(escape, w[i + 1..])
  {
    var e, later := escape(w[0]), EscapeWith(escape, w[1..]);
    if k < |e| {
      assert Regular(e) && e[k] == '=';
      i := 0;
    } else {
      var j := EqualsIsABoundary(escape, w[1..], k - |e|);
      assert w[1..][j + 1..] == w[j + 2..];
      assert (e + later)[k + 1..] == later[k - |e| + 1..];
      i := j + 1;
    }
  }

  lemma EscapeKind(escape: char -> string, c: char, p: char)
    requires AllRegular(escape) && IsQuote(p)
    ensures escape(c) == [p] || IsToken(escape(c), p)
  {
    assert Regular(escape(c));
  }

  /** A cut inside a character's escape leaves a literal open. */
  lemma TokenIsOpen(e: string, later: string, p: char, m: nat)
    requires IsToken(e, p) && IsQuote(p) && m < |e|
    ensures QuotedLength((e + later)[..m], p, false) == None
  {
    assert (e + later)[..m] == e[..m];
    if m >= 2 {
      assert e[..m][2..] == e[2..m];
      PlainCharsArePassed(e[2..m], "", p, false);
      assert e[2..m] + "" == e[2..m];
    }
  }

  /** A whole escape in front makes a literal's content longer by just that. */
  lemma TokenIsCrossed(e: string, later: string, p: char, m: nat)
    requires IsToken(e, p) && IsQuote(p) && |e| <= m <= |e + later|
    ensures var n := QuotedLength(later[..m - |e|], p, false);
            && QuotedLength((e + later)[..m], p, false) == Longer(n, |e|)
            && (n.Some? ==> (e + later)[..m][..n.value + |e| - 1] == e + later[..m - |e|][..n.value - 1])
  {
    var rest := later[..m - |e|];
    TakeAcross(e, later, m);
    TokenIsPassed(e, rest, p, false);
    var n := QuotedLength(rest, p, false);
    if n.Some? { TakeAcross(e, rest, |e| + n.value - 1); }
  }

  lemma PieceGrows(escape: char -> string, w: string, j: nat)
    requires j < |w|
    ensures EscapeWith(escape, w[..j + 1]) == escape(w[0]) + EscapeWith(escape, w[1..][..j])
  {
    assert w[..j + 1][1..] == w[1..][..j];
  }

  /** A literal inside escaped text holds the escape of a piece of that text. */
  lemma {:induction false} LiteralIsAPiece(escape: char -> string, p: char, w: string, m: nat) returns (k: nat)
    requires AllRegular(escape) && IsQuote(p) && m <= |EscapeWith(escape, w)|
    requires QuotedLength(EscapeWith(escape, w)[..m], p, false).Some?
    ensures k < |w|
    ensures var s := EscapeWith(escape, w)[..m];
            s[..QuotedLength(s, p, false).value - 1] == EscapeWith(escape, w[..k])
  {
    var e, later := escape(w[0]), EscapeWith(escape, w[1..]);
    EscapeKind(escape, w[0], p);
    if e == [p] {
      k := 0;
    } else if m < |e| {
      TokenIsOpen(e, later, p, m);
    } else {
      TokenIsCrossed(e, later, p, m);
      var j := LiteralIsAPiece(escape, p, w[1..], m - |e|);
      PieceGrows(escape, w, j);
      k := j + 1;
    }
  }

  lemma InsideQuotes(p: char, x: string, n: nat)
    requires 1 <= n <= |x|
    ensures ([p] + x)[1..] == x && ([p] + x)[..n + 1][1..n] == x[..n - 1]
  {
  }

  /** A literal that opens in front of escaped text denotes less than that text. */
  lemma LiteralIsShorter(escape: char -> string, p: char, w: string, m: nat)
    requires AllRegular(escape) && ReadsBack(escape) && IsQuote(p) && m <= |EscapeWith(escape, w)|
    ensures Shorter([p] + EscapeWith(escape, w)[..m], |w|)
  {
    var x := EscapeWith(escape, w)[..m];
    assert ([p] + x)[1..] == x;
    if QuotedLength(x, p, false).Some? {
      var k := LiteralIsAPiece(escape, p, w, m);
      InsideQuotes(p, x, QuotedLength(x, p, false).value);
      assert Unescape(EscapeWith(escape, w[..k])) == Some(w[..k]);
    }
  }

  lemma OpensAtItsQuote(escape: char -> string, v: string, m: nat)
    requires AllRegular(escape)
    requires 0 < m <= |EscapeWith(escape, v)| && IsQuote(EscapeWith(escape, v)[0])
    ensures m - 1 <= |EscapeWith(escape, v[1..])|
    ensures EscapeWith(escape, v)[..m] == [EscapeWith(escape, v)[0]] + EscapeWith(escape, v[1..])[..m - 1]
  {
    assert Regular(escape(v[0]));
    TakeAcross(escape(v[0]), EscapeWith(escape, v[1..]), m);
  }

  lemma OpeningLiteralIsShorter(escape: char -> string, v: string, m: nat)
    requires AllRegular(escape) && ReadsBack(escape) && m <= |EscapeWith(escape, v)|
    ensures Shorter(EscapeWith(escape, v)[..m], |v|)
  {
    var t := EscapeWith(escape, v)[..m];
    if t != "" && IsQuote(t[0]) {
      OpensAtItsQuote(escape, v, m);
      LiteralIsShorter(escape, t[0], v[1..], m - 1);
    }
  }

  lemma TakeThenDrop(s: string, k: nat, m: nat)
    requires k <= m <= |s|
    ensures s[k..m] == s[k..][..m - k] == s[..m][k..]
  {
  }

  /** Likewise for one that opens anywhere after an equals sign in it. */
  lemma LaterLiteralIsShorter(escape: char -> string, w: string, m: nat, k: nat)
    requires AllRegular(escape) && ReadsBack(escape)
    requires k < m <= |EscapeWith(escape, w)| && EscapeWith(escape, w)[k] == '='
    ensures Shorter(EscapeWith(escape, w)[k + 1..m], |w|)
  {
    var i := EqualsIsABoundary(escape, w, k);
    TakeThenDrop(EscapeWith(escape, w), k + 1, m);
    OpeningLiteralIsShorter(escape, w[i + 1..], m - k - 1);
  }

  // ---- A cut value is lost ---------------------------------------------------------------------------

  /** A field of escaped text, cut. */
  function Cut(escape: char -> string, key: string, q: char, w: string, m: nat): string
    requires m <= |EscapeWith(escape, w)|
  {
    key + "=" + ([q] + EscapeWith(escape, w)[..m])
  }

  lemma CutSplits(key: string, q: char, x: string, k: nat)
    requires k < |key + "=" + ([q] + x)|
    ensures var s := key + "=" + ([q] + x);
            && (k < |key| ==> s[k] == key[k])
            && (k == |key| ==> s[k + 1..] == [q] + x)
            && (k == |key| + 1 ==> s[k] == q)
            && (k > |key| + 1 ==> s[k] == x[k - |key| - 2] && s[k + 1..] == x[k - |key| - 1..])
  {
  }

  lemma ValueIsShorter(escape: char -> string, key: string, q: char, w: string, m: nat, k: nat)
    requires AllRegular(escape) && ReadsBack(escape) && IsQuote(q) && '=' !in key
    requires m <= |EscapeWith(escape, w)|
    requires k < |Cut(escape, key, q, w, m)| && Cut(escape, key, q, w, m)[k] == '='
    ensures Shorter(Cut(escape, key, q, w, m)[k + 1..], |w|)
  {
    var x := EscapeWith(escape, w)[..m];
    CutSplits(key, q, x, k);
    if k == |key| {
      LiteralIsShorter(escape, q, w, m);
    } else {
      TakeThenDrop(EscapeWith(escape, w), k - |key| - 1, m);
      LaterLiteralIsShorter(escape, w, m, k - |key| - 2);
    }
  }

  /** If there is a field at `a`, its value has fewer than `n` characters. */
  predicate FieldShorter(u: Unicode, s: string, a: nat, n: nat) {
    a <= |s| && FieldAt(u, s[a..]).Some? ==> |Literal(FieldAt(u, s[a..]).value.1)| < n
  }

  ghost predicate ValuesShorter(s: string, n: nat) {
    forall k: nat {:trigger s[k]} :: k < |s| && s[k] == '=' ==> Shorter(s[k + 1..], n)
  }

  lemma FieldIsShorter(u: Unicode, s: string, n: nat, a: nat)
    requires ValuesShorter(s, n) && a <= |s|
    ensures FieldShorter(u, s, a, n)
  {
    var t := s[a..];
    if FieldAt(u, t).Some? {
      FieldValue(u, t);
      DropTwice(s, a, WordRun(u, t, false));
      assert s[a + WordRun(u, t, false)] == '=';
    }
  }

  lemma DropTwice(s: string, a: nat, n: nat)
    requires a + n < |s|
    ensures s[a..][n] == s[a + n] && s[a..][n + 1..] == s[a + n + 1..]
  {
  }

  lemma FieldValue(u: Unicode, t: string)
    requires FieldAt(u, t).Some?
    ensures var n := WordRun(u, t, false);
            n < |t| && t[n] == '='
    ensures var v := t[WordRun(u, t, false) + 1..];
            LiteralLength(v, false).Some? && v[..LiteralLength(v, false).value] == FieldAt(u, t).value.1
  {
  }

  predicate AllShorter(fields: seq<(string, string)>, n: nat) { forall f :: f in fields ==> |f.1| < n }

  ghost predicate AllFieldsShorter(u: Unicode, s: string, n: nat) { forall k: nat :: FieldShorter(u, s, k, n) }

  /** The field at the start of `t`, if there is one, with its value read. */
  function Head(u: Unicode, t: string): seq<(string, string)> {
    match FieldAt(u, t)
    case None => []
    case Some(f) => [(f.0, Literal(f.1))]
  }

  /** How much of `t` is behind once its start was looked at. */
  function Behind(u: Unicode, t: string): (n: nat)
    requires t != ""
    ensures 1 <= n <= |t|
  {
    match FieldAt(u, t)
    case None => 1
    case Some(f) => f.2
  }

  lemma FieldsStep(u: Unicode, t: string)
    requires t != ""
    ensures FieldsIn(u, t) == Head(u, t) + FieldsIn(u, t[Behind(u, t)..])
  {
  }

  lemma HeadIsShorter(u: Unicode, s: string, n: nat, a: nat)
    requires AllFieldsShorter(u, s, n) && a <= |s|
    ensures AllShorter(Head(u, s[a..]), n)
  {
    assert FieldShorter(u, s, a, n);
  }

  lemma DropOn(s: string, a: nat, n: nat)
    requires a + n <= |s|
    ensures s[a..][n..] == s[a + n..]
  {
  }

  /** If the next field and those after it are short, all of them are. */
  lemma ShorterFromNext(u: Unicode, t: string, n: nat)
    requires t != "" && AllShorter(Head(u, t), n) && AllShorter(FieldsIn(u, t[Behind(u, t)..]), n)
    ensures AllShorter(FieldsIn(u, t), n)
  {
    FieldsStep(u, t);
    BothShorter(Head(u, t), FieldsIn(u, t[Behind(u, t)..]), n);
  }

  lemma BothShorter(a: seq<(string, string)>, b: seq<(string, string)>, n: nat)
    requires AllShorter(a, n) && AllShorter(b, n)
    ensures AllShorter(a + b, n)
  {
  }

  lemma {:induction false} FieldsAreShorter(u: Unicode, s: string, n: nat, a: nat, t: string)
    requires a <= |s| && t == s[a..] && AllFieldsShorter(u, s, n)
    ensures AllShorter(FieldsIn(u, t), n)
    decreases |t|
  {
    if t != "" {
      var behind := Behind(u, t);
      DropOn(s, a, behind);
      FieldsAreShorter(u, s, n, a + behind, t[behind..]);
      HeadIsShorter(u, s, n, a);
      ShorterFromNext(u, t, n);
    }
  }

  lemma {:induction false} LookupIsShorter(fields: seq<(string, string)>, key: string, n: nat)
    requires AllShorter(fields, n)
    ensures Lookup(fields, key).Some? ==> |Lookup(fields, key).value| < n
  {
    if fields != [] { LookupIsShorter(fields[..|fields| - 1], key, n); }
  }

  lemma ReprTaken(u: Unicode, w: string, j: nat)
    requires 1 <= j < |Repr(u, w)|
    ensures Repr(u, w)[..j] == [QuoteFor(w)] + Escape(u, QuoteFor(w), w)[..j - 1]
  {
  }

  lemma KeyHasNoEquals(u: Unicode, key: string)
    requires IsKey(u, key)
    ensures '=' !in key
  {
    assert !u.Word('=');
  }

  lemma MarkerIsPastTheQuote(u: Unicode, w: string)
    requires !Readable(u, w)
    ensures 1 <= FindMarker(u, Repr(u, w), 0).value < |Repr(u, w)|
  {
    FoundIsFirst(u, Repr(u, w), 0);
    BarrierIsNoMarker(u, Repr(u, w), 0, 0);
  }

  /** What is read of a cut field never has the field's own value. */
  lemma CutValueIsLost(u: Unicode, f: (string, string), key: string)
    requires IsField(u, f) && !Readable(u, f.1)
    ensures Lookup(FieldsIn(u, Stub(u, f)), key) != Some(f.1)
  {
    var w, q := f.1, QuoteFor(f.1);
    var j := FindMarker(u, Repr(u, w), 0).value;
    MarkerIsPastTheQuote(u, w);
    ReprTaken(u, w, j);
    EscaperIsRegular(u, q);
    KeyHasNoEquals(u, f.0);
    var s := Cut(Escaper(u, q), f.0, q, w, j - 1);
    forall k: nat | k < |s| && s[k] == '=' ensures Shorter(s[k + 1..], |w|) {
      ValueIsShorter(Escaper(u, q), f.0, q, w, j - 1, k);
    }
    forall k: nat ensures FieldShorter(u, s, k, |w|) {
      if k <= |s| { FieldIsShorter(u, s, |w|, k); }
    }
    FieldsAreShorter(u, s, |w|, 0, s);
    assert Stub(u, f) == s;
    LookupIsShorter(FieldsIn(u, Stub(u, f)), key, |w|);
  }

  // ---- Such values exist ---------------------------------------------------------------------------------

  lemma {:induction false} PlainPrefix(escape: char -> string, a: string, b: string)
    requires forall i :: 0 <= i < |a| ==> escape(a[i]) == [a[i]]
    ensures EscapeWith(escape, a + b) == a + EscapeWith(escape, b)
  {
    if a == "" {
      assert a + b == b;
    } else {
      assert (a + b)[1..] == a[1..] + b;
      PlainPrefix(escape, a[1..], b);
      assert [a[0]] + (a[1..] + EscapeWith(escape, b)) == a + EscapeWith(escape, b);
    }
  }

  lemma MarkerAfterQuote(u: Unicode, q: char, rest: string)
    requires IsQuote(q)
    ensures FindMarker(u, [q] + CONTEXT_ID + rest, 0).Some?
  {
    var s := [q] + CONTEXT_ID + rest;
    assert s[1..1 + |CONTEXT_ID|] == CONTEXT_ID;
    MarkerIsThere(u, s, 1);
    FindMarkerNone(u, s, 0);
  }

  lemma MarkerIsPlain(u: Unicode, q: char, v: string)
    requires IsQuote(q)
    ensures Escape(u, q, CONTEXT_ID + v) == CONTEXT_ID + Escape(u, q, v)
  {
    PlainPrefix(Escaper(u, q), CONTEXT_ID, v);
  }

  /** A value that begins like the end of the fields, say. */
  lemma LookalikeIsUnreadable(u: Unicode, v: string)
    ensures !Readable(u, CONTEXT_ID + v)
  {
    var w := CONTEXT_ID + v;
    var q := QuoteFor(w);
    MarkerIsPlain(u, q, v);
    MarkerAfterQuote(u, q, Escape(u, q, v) + [q]);
    assert Repr(u, w) == [q] + CONTEXT_ID + (Escape(u, q, v) + [q]);
  }

  // ---- Exactly what is read back -----------------------------------------------------------------------

  ghost predicate DistinctKeys(fields: seq<(string, string)>) {
    forall i, j :: 0 <= i < j < |fields| ==> fields[i].0 != fields[j].0
  }

  /** If any value is unreadable, some unreadable value is lost. */
  lemma {:induction false} UnreadableIsLost(u: Unicode, fields: seq<(string, string)>) returns (f: (string, string))
    requires Named(u, fields) && DistinctKeys(fields) && !AllReadable(u, fields)
    ensures f in fields && !Readable(u, f.1) && Lookup(Survivors(u, fields), f.0) != Some(f.1)
  {
    f := fields[0];
    if Readable(u, fields[0].1) {
      f := UnreadableIsLost(u, fields[1..]);
      LookupAppend([fields[0]], Survivors(u, fields[1..]), f.0);
      LookupOne(fields[0], f.0);
    } else {
      CutValueIsLost(u, f, f.0);
    }
  }

  lemma {:induction false} LookupOwn(fields: seq<(string, string)>, k: nat)
    requires DistinctKeys(fields) && k < |fields|
    ensures Lookup(fields, fields[k].0) == Some(fields[k].1)
  {
    if k < |fields| - 1 { LookupOwn(fields[..|fields| - 1], k); }
  }

  ghost predicate AllRecovered(read: seq<(string, string)>, fields: seq<(string, string)>) {
    forall k :: 0 <= k < |fields| ==> Lookup(read, fields[k].0) == Some(fields[k].1)
  }

  /** Every field of an error is read back exactly when every value it prints is readable. */
  lemma FieldsReadBackExactly(u: Unicode, e: LiveError)
    requires WellFormed(u, e) && DistinctKeys(e.Fields())
    ensures AllRecovered(FieldsRead(u, Body(u, e)), e.Fields()) <==> AllReadable(u, e.extra)
  {
    CommonIsNamed(u, e);
    NamedAppend(u, e.Common(), e.extra);
    FieldsReadBack(u, e);
    CommonIsReadable(u, e);
    if AllReadable(u, e.extra) {
      assert AllReadable(u, e.Common() + e.extra);
      ReadableSurvive(u, e.Fields());
      forall k | 0 <= k < |e.Fields()| ensures Lookup(e.Fields(), e.Fields()[k].0) == Some(e.Fields()[k].1) {
        LookupOwn(e.Fields(), k);
      }
    } else {
      assert exists g :: g in e.extra && !Readable(u, g.1);
      assert !AllReadable(u, e.Fields());
      var f := UnreadableIsLost(u, e.Fields());
    }
  }

  /** A provider's refusal is recovered exactly when its provider and its reason are readable. */
  lemma ProviderFailuresReadBackExactly(u: Unicode, e: LiveError, provider: string, reason: string)
    requires WellFormed(u, e) && e.extra == [("provider", provider), ("reason", reason)]
    ensures ParseStoredError(u, PrintError(u, e)) == Facts(e) <==> Readable(u, provider) && Readable(u, reason)
  {
    assert e.extra[0] == ("provider", provider) && e.extra[1] == ("reason", reason);
    if Readable(u, provider) && Readable(u, reason) {
      ParsingUndoesPrinting(u, e);
    } else {
      ProviderKeysDiffer(e);
      WhatIsReadBack(u, e);
      CommonIsReadable(u, e);
      CommonIsNamed(u, e);
      NamedAppend(u, e.Common(), e.extra);
      assert !AllReadable(u, e.Fields()) by { assert e.extra[0] in e.Fields() && e.extra[1] in e.Fields(); }
      var f := UnreadableIsLost(u, e.Fields());
      assert f == e.extra[0] || f == e.extra[1];
      LookupOwn(e.extra, 0);
      LookupOwn(e.extra, 1);
    }
  }

  lemma ProviderKeysDiffer(e: LiveError)
    requires |e.extra| == 2 && e.extra[0].0 == "provider" && e.extra[1].0 == "reason"
    ensures DistinctKeys(e.Fields()) && DistinctKeys(e.extra)
  {
    assert |"provider"| == 8 && |"reason"| == 6 && |"code"| == 4 && |"failure_class"| == 13;
  }
}
