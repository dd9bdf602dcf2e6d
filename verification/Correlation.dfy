/** Which application a message is about: identifiers weighed, the answer free of the order in which
    applications are looked at. Confidences are exact; rounding is any monotone function. */
module Correlation {
  import opened Prelude
  import opened Ordering

  datatype Signal = REVIEWER_CONFIRMED | THREAD | REFERENCE | KNOWN_SENDER | SENDER_DOMAIN | COMPANY_NAME | TITLE {
    /** How much the identifier counts for on its own. A confirmation is not weighed. */
    function Weight(): real {
      match this
      case THREAD => 0.95
      case REFERENCE => 0.9
      case KNOWN_SENDER => 0.6
      case SENDER_DOMAIN => 0.5
      case COMPANY_NAME => 0.35
      case TITLE => 0.3
      case REVIEWER_CONFIRMED => 0.0
    }
  }

  const DEFAULT_THRESHOLD := 0.75
  const MARGIN := 0.1

  type Round = real -> real

  /** A value of four places. */
  function Places(k: int): real { k as real / 10000.0 }

  /** Rounding to four places, in whatever way ties go: it keeps order and fixes what has four places. */
  ghost predicate Rounds(round: Round) {
    && (forall a, b :: a <= b ==> round(a) <= round(b))
    && (forall k :: round(Places(k)) == Places(k))
  }

  lemma WholeIsFixed(round: Round)
    requires Rounds(round)
    ensures round(0.0) == 0.0 && round(1.0) == 1.0
  {
    assert Places(0) == 0.0 && Places(10000) == 1.0;
  }

  // ---- Confidence -----------------------------------------------------------------------------------

  /** The chance that none of the signals means anything. */
  function Miss(signals: seq<Signal>): real {
    if signals == [] then 1.0
    else Miss(signals[..|signals| - 1]) * (1.0 - signals[|signals| - 1].Weight())
  }

  function Combined(signals: seq<Signal>, round: Round): real { round(1.0 - Miss(signals)) }

  method CombinedOf(signals: seq<Signal>, round: Round) returns (c: real)
    ensures c == Combined(signals, round)
  {
    var miss := 1.0;
    for i := 0 to |signals|
      invariant miss == Miss(signals[..i])
    {
      assert signals[..i + 1][..i] == signals[..i];
      miss := miss * (1.0 - signals[i].Weight());
    }
    assert signals[..|signals|] == signals;
    c := round(1.0 - miss);
  }

  lemma ProductInRange(a: real, b: real)
    requires 0.0 <= a <= 1.0 && 0.0 <= b <= 1.0
    ensures 0.0 <= a * b <= a && a * b <= b
  {
    assert (1.0 - a) * b >= 0.0 && a * (1.0 - b) >= 0.0;
  }

  lemma {:induction false} MissInRange(signals: seq<Signal>)
    ensures 0.0 <= Miss(signals) <= 1.0
  {
    if signals != [] {
      MissInRange(signals[..|signals| - 1]);
      ProductInRange(Miss(signals[..|signals| - 1]), 1.0 - signals[|signals| - 1].Weight());
    }
  }

  lemma MissOfOneMore(signals: seq<Signal>, s: Signal)
    ensures Miss(signals + [s]) == Miss(signals) * (1.0 - s.Weight())
    ensures Miss(signals + [s]) <= Miss(signals)
  {
    assert (signals + [s])[..|signals|] == signals;
    MissInRange(signals);
    ProductInRange(Miss(signals), 1.0 - s.Weight());
  }

  lemma {:induction false} MissShrinks(before: seq<Signal>, s: Signal, after: seq<Signal>)
    ensures Miss(before + [s] + after) <= Miss(before + after)
  {
    if after == [] {
      assert before + after == before && before + [s] + after == before + [s];
      MissOfOneMore(before, s);
    } else {
      var n := |after| - 1;
      MissShrinks(before, s, after[..n]);
      assert before + [s] + after == before + [s] + after[..n] + [after[n]];
      assert before + after == before + after[..n] + [after[n]];
      MissOfOneMore(before + [s] + after[..n], after[n]);
      MissOfOneMore(before + after[..n], after[n]);
      WeightInRange(after[n]);
      Scaled(Miss(before + [s] + after[..n]), Miss(before + after[..n]), 1.0 - after[n].Weight());
    }
  }

  lemma WeightInRange(s: Signal)
    ensures 0.0 <= s.Weight() <= 1.0
  {
  }

  lemma Scaled(a: real, b: real, k: real)
    requires a <= b && k >= 0.0
    ensures a * k <= b * k
  {
    assert (b - a) * k >= 0.0;
  }

  /** Confidence stays in [0, 1], and one more signal, anywhere, never lowers it. */
  lemma MoreSignalsNeverLower(before: seq<Signal>, s: Signal, after: seq<Signal>, round: Round)
    requires Rounds(round)
    ensures 0.0 <= Combined(before + after, round) <= Combined(before + [s] + after, round) <= 1.0
  {
    WholeIsFixed(round);
    MissInRange(before + after);
    MissInRange(before + [s] + after);
    MissShrinks(before, s, after);
  }

  /** The identifiers a message and an application were found to share. */
  datatype Evidence = Evidence(thread: bool, reference: bool, knownSender: bool, senderDomain: bool,
                               companyName: bool, title: bool)

  function When(found: bool, s: Signal): seq<Signal> { if found then [s] else [] }

  function HardSignals(e: Evidence): seq<Signal> { When(e.thread, THREAD) + When(e.reference, REFERENCE) }

  function SignalsFor(e: Evidence): seq<Signal> {
    HardSignals(e) + When(e.knownSender, KNOWN_SENDER) + When(e.senderDomain, SENDER_DOMAIN)
    + When(e.companyName, COMPANY_NAME) + When(e.title, TITLE)
  }

  function MissWith(m: real, found: bool, s: Signal): real { if found then m * (1.0 - s.Weight()) else m }

  lemma MissOfPart(before: seq<Signal>, found: bool, s: Signal)
    ensures Miss(before + When(found, s)) == MissWith(Miss(before), found, s)
    ensures 0.0 <= Miss(before + When(found, s)) <= Miss(before)
  {
    MissOfOneMore(before, s);
    MissInRange(before + When(found, s));
    assert before + [] == before;
  }

  lemma HardMiss(e: Evidence)
    ensures Miss(HardSignals(e)) == MissWith(MissWith(1.0, e.thread, THREAD), e.reference, REFERENCE)
    ensures 0.0 <= Miss(HardSignals(e)) <= 1.0
  {
    assert [] + When(e.thread, THREAD) == When(e.thread, THREAD);
    MissOfPart([], e.thread, THREAD);
    MissOfPart(When(e.thread, THREAD), e.reference, REFERENCE);
  }

  lemma SoftMiss(before: seq<Signal>, sender: bool, domain: bool, company: bool, title: bool)
    ensures var s3 := before + When(sender, KNOWN_SENDER) + When(domain, SENDER_DOMAIN);
            var s5 := s3 + When(company, COMPANY_NAME) + When(title, TITLE);
            && 0.0 <= Miss(s5) <= Miss(before)
            && Miss(s5) == MissWith(MissWith(MissWith(MissWith(Miss(before), sender, KNOWN_SENDER),
                                                      domain, SENDER_DOMAIN), company, COMPANY_NAME), title, TITLE)
  {
    var s2 := before + When(sender, KNOWN_SENDER);
    var s3 := s2 + When(domain, SENDER_DOMAIN);
    var s4 := s3 + When(company, COMPANY_NAME);
    MissOfPart(before, sender, KNOWN_SENDER);
    MissOfPart(s2, domain, SENDER_DOMAIN);
    MissOfPart(s3, company, COMPANY_NAME);
    MissOfPart(s4, title, TITLE);
  }

  function Count(found: bool): nat { if found then 1 else 0 }

  /** Nothing comes close to the threshold from below. */
  lemma SoftIdentifiers(sender: bool, domain: bool, company: bool, title: bool)
    ensures var miss := MissWith(MissWith(MissWith(MissWith(1.0, sender, KNOWN_SENDER), domain, SENDER_DOMAIN),
                                          company, COMPANY_NAME), title, TITLE);
            if (sender && domain) || Count(sender) + Count(domain) + Count(company) + Count(title) >= 3
            then miss <= 0.25
            else miss >= 0.26
  {
  }

  /** The threshold as shipped: a thread on file or a quoted reference clears it alone; without them, a
      known sender writing from the company's domain does, or any three of the softer identifiers, and
      nothing less. */
  lemma ClearsTheDefaultExactly(e: Evidence, round: Round)
    requires Rounds(round)
    ensures Combined(SignalsFor(e), round) >= DEFAULT_THRESHOLD
       <==> || e.thread || e.reference || (e.knownSender && e.senderDomain)
            || Count(e.knownSender) + Count(e.senderDomain) + Count(e.companyName) + Count(e.title) >= 3
  {
    assert Places(7500) == DEFAULT_THRESHOLD && Places(7400) == 0.74;
    HardMiss(e);
    SoftMiss(HardSignals(e), e.knownSender, e.senderDomain, e.companyName, e.title);
    if !e.thread && !e.reference { SoftIdentifiers(e.knownSender, e.senderDomain, e.companyName, e.title); }
  }

  // ---- Ranking ----------------------------------------------------------------------------------------

  /** An application on file, and the identifiers the message shares with it. */
  datatype Candidate = Candidate(id: string, signals: seq<Signal>)

  datatype Scored = Scored(id: string, confidence: real, signals: seq<Signal>)

  function ScoreOf(c: Candidate, round: Round): Scored { Scored(c.id, Combined(c.signals, round), c.signals) }

  /** The candidates that share anything, scored. */
  function Score(cs: seq<Candidate>, round: Round): seq<Scored> {
    if cs == [] then []
    else
      var last := cs[|cs| - 1];
      Score(cs[..|cs| - 1], round) + if last.signals == [] then [] else [ScoreOf(last, round)]
  }

  /** The sort key: confidence, falling, then id. */
  predicate Before(a: Scored, b: Scored) {
    a.confidence > b.confidence || (a.confidence == b.confidence && Le(a.id, b.id))
  }

  /** Behind everything that may stand before it. */
  function Insert(s: seq<Scored>, x: Scored): seq<Scored> {
    if s == [] || Before(s[|s| - 1], x) then s + [x] else Insert(s[..|s| - 1], x) + [s[|s| - 1]]
  }

  /** A stable sort. */
  function Ranked(s: seq<Scored>): seq<Scored> {
    if s == [] then [] else Insert(Ranked(s[..|s| - 1]), s[|s| - 1])
  }

  ghost predicate Falling(s: seq<Scored>) { forall i, j :: 0 <= i < j < |s| ==> Before(s[i], s[j]) }

  lemma {:induction false} InsertHolds(s: seq<Scored>, x: Scored)
    ensures multiset(Insert(s, x)) == multiset(s) + multiset{x}
  {
    if s != [] && !Before(s[|s| - 1], x) {
      var n := |s| - 1;
      InsertHolds(s[..n], x);
      assert s == s[..n] + [s[n]];
    }
  }

  lemma MemberOfBoth(s: seq<Scored>, t: seq<Scored>, x: Scored, y: Scored)
    requires multiset(t) == multiset(s) + multiset{x}
    ensures y in t <==> y in s || y == x
  {
    assert y in t <==> y in multiset(t);
    assert y in s <==> y in multiset(s);
  }

  lemma {:induction false} InsertKeepsFalling(s: seq<Scored>, x: Scored)
    requires Falling(s)
    ensures Falling(Insert(s, x))
  {
    if s == [] {
    } else if Before(s[|s| - 1], x) {
      forall i | 0 <= i < |s| ensures Before(s[i], x) {
        if i < |s| - 1 { BeforeTransitive(s[i], s[|s| - 1], x); }
      }
    } else {
      var n := |s| - 1;
      InsertKeepsFalling(s[..n], x);
      InsertHolds(s[..n], x);
      BeforeTotal(s[n], x);
      var t := Insert(s[..n], x);
      forall i | 0 <= i < |t| ensures Before(t[i], s[n]) { MemberOfBoth(s[..n], t, x, t[i]); }
    }
  }

  lemma BeforeTotal(a: Scored, b: Scored)
    ensures Before(a, b) || Before(b, a)
    ensures Before(a, b) && Before(b, a) ==> a.id == b.id
  {
    LeTotal(a.id, b.id);
  }

  lemma BeforeTransitive(a: Scored, b: Scored, c: Scored)
    requires Before(a, b) && Before(b, c)
    ensures Before(a, c)
  {
    if a.confidence == b.confidence == c.confidence { LeTransitive(a.id, b.id, c.id); }
  }

  lemma {:induction false} RankedIsSorted(s: seq<Scored>)
    ensures multiset(Ranked(s)) == multiset(s) && Falling(Ranked(s))
  {
    if s != [] {
      var n := |s| - 1;
      RankedIsSorted(s[..n]);
      InsertHolds(Ranked(s[..n]), s[n]);
      InsertKeepsFalling(Ranked(s[..n]), s[n]);
      assert s == s[..n] + [s[n]];
    }
  }

  // ---- One ranking, whatever the order -----------------------------------------------------------------

  ghost predicate DistinctIds(s: seq<Scored>) { forall i, j :: 0 <= i < j < |s| ==> s[i].id != s[j].id }

  lemma SameLast(s: seq<Scored>, t: seq<Scored>)
    requires s != [] && t != [] && multiset(s) == multiset(t) && Falling(s) && Falling(t) && DistinctIds(s)
    ensures s[|s| - 1] == t[|t| - 1]
  {
    var x, y := s[|s| - 1], t[|t| - 1];
    assert x in multiset(t) && y in multiset(s);
    var i :| 0 <= i < |s| && s[i] == y;
    var j :| 0 <= j < |t| && t[j] == x;
    if i < |s| - 1 && j < |t| - 1 {
      assert Before(y, x) && Before(x, y);
      BeforeTotal(x, y);
    }
  }

  lemma SameSize<T>(s: seq<T>, t: seq<T>)
    requires multiset(s) == multiset(t)
    ensures |s| == |t|
  {
    assert |multiset(s)| == |s| && |multiset(t)| == |t|;
  }

  lemma WithoutLast<T>(s: seq<T>)
    requires s != []
    ensures multiset(s[..|s| - 1]) == multiset(s) - multiset{s[|s| - 1]}
  {
    assert s == s[..|s| - 1] + [s[|s| - 1]];
  }

  lemma WithoutOne<T>(s: seq<T>, k: nat)
    requires k < |s|
    ensures multiset(s[..k] + s[k + 1..]) == multiset(s) - multiset{s[k]}
  {
    assert s == s[..k] + [s[k]] + s[k + 1..];
  }

  lemma {:induction false} FallingIsUnique(s: seq<Scored>, t: seq<Scored>)
    requires multiset(s) == multiset(t) && Falling(s) && Falling(t) && DistinctIds(s)
    ensures s == t
  {
    SameSize(s, t);
    if s != [] {
      var n := |s| - 1;
      SameLast(s, t);
      WithoutLast(s);
      WithoutLast(t);
      FallingIsUnique(s[..n], t[..n]);
      assert s == s[..n] + [s[n]] && t == t[..n] + [t[n]];
    }
  }

  ghost predicate DistinctCandidates(cs: seq<Candidate>) { forall i, j :: 0 <= i < j < |cs| ==> cs[i].id != cs[j].id }

  /** Who is scored: every candidate that shares an identifier, once. */
  lemma {:induction false} ScoredAreCandidates(cs: seq<Candidate>, round: Round)
    ensures forall x :: x in Score(cs, round) <==> exists c :: c in cs && c.signals != [] && x == ScoreOf(c, round)
  {
    if cs != [] {
      var n := |cs| - 1;
      ScoredAreCandidates(cs[..n], round);
      assert cs == cs[..n] + [cs[n]];
    }
  }

  lemma {:induction false} ScoreAppend(a: seq<Candidate>, b: seq<Candidate>, round: Round)
    ensures Score(a + b, round) == Score(a, round) + Score(b, round)
  {
    if b == [] {
      assert a + b == a;
    } else {
      var n := |b| - 1;
      assert (a + b)[..|a + b| - 1] == a + b[..n];
      ScoreAppend(a, b[..n], round);
    }
  }

  lemma {:induction false} ScoredIdsDistinct(cs: seq<Candidate>, round: Round)
    requires DistinctCandidates(cs)
    ensures DistinctIds(Score(cs, round))
  {
    if cs != [] {
      var n := |cs| - 1;
      ScoredIdsDistinct(cs[..n], round);
      ScoredAreCandidates(cs[..n], round);
      forall x | x in Score(cs[..n], round) ensures x.id != cs[n].id { }
    }
  }

  /** Reordering the candidates reorders the scores. */
  lemma {:induction false} ScoreOfReordered(cs: seq<Candidate>, ds: seq<Candidate>, round: Round)
    requires multiset(cs) == multiset(ds)
    ensures multiset(Score(cs, round)) == multiset(Score(ds, round))
  {
    SameSize(cs, ds);
    if cs != [] {
      var n := |cs| - 1;
      WithoutLast(cs);
      assert cs[n] in multiset(ds);
      var k :| 0 <= k < |ds| && ds[k] == cs[n];
      WithoutOne(ds, k);
      ScoreOfReordered(cs[..n], ds[..k] + ds[k + 1..], round);
      ScoreWithout(ds, k, round);
    }
  }

  lemma ScoreAround(a: seq<Candidate>, c: Candidate, b: seq<Candidate>, round: Round)
    ensures Score(a + [c] + b, round) == Score(a, round) + Score([c], round) + Score(b, round)
  {
    ScoreAppend(a + [c], b, round);
    ScoreAppend(a, [c], round);
  }

  /** What one candidate adds to the scores, wherever it stands. */
  lemma ScoreAdded(a: seq<Candidate>, c: Candidate, b: seq<Candidate>, round: Round)
    ensures multiset(Score(a + [c] + b, round))
         == multiset(Score(a + b, round)) + multiset(if c.signals == [] then [] else [ScoreOf(c, round)])
  {
    var own := Score([c], round);
    ScoreAround(a, c, b, round);
    ScoreAppend(a, b, round);
    ScoreOne(c, round);
    MiddleOut(Score(a, round), own, Score(b, round));
  }

  lemma ScoreWithout(cs: seq<Candidate>, k: nat, round: Round)
    requires k < |cs|
    ensures multiset(Score(cs, round))
         == multiset(Score(cs[..k] + cs[k + 1..], round))
            + multiset(if cs[k].signals == [] then [] else [ScoreOf(cs[k], round)])
  {
    PutBack(cs, k);
    ScoreAdded(cs[..k], cs[k], cs[k + 1..], round);
  }

  lemma PutBack<T>(s: seq<T>, k: nat)
    requires k < |s|
    ensures s[..k] + [s[k]] + s[k + 1..] == s
  {
  }

  lemma ScoreOne(c: Candidate, round: Round)
    ensures Score([c], round) == if c.signals == [] then [] else [ScoreOf(c, round)]
  {
    assert [c][..0] == [];
  }

  lemma MiddleOut<T>(a: seq<T>, x: seq<T>, b: seq<T>)
    ensures multiset(a + x + b) == multiset(a + b) + multiset(x)
  {
  }

  // ---- The answer ------------------------------------------------------------------------------------------

  datatype Correlation =
    | Matched(id: string, confidence: real, signals: seq<Signal>)
    | NeedsReview(confidence: real, signals: seq<Signal>, best: seq<Scored>)
    | Unmatched

  datatype Error = NOT_A_CANDIDATE

  function Answer(ranked: seq<Scored>, threshold: real): Correlation {
    if ranked == [] then Unmatched
    else
      var runnerUp := if |ranked| > 1 then ranked[1].confidence else 0.0;
      if ranked[0].confidence >= threshold && ranked[0].confidence - runnerUp >= MARGIN then
        Matched(ranked[0].id, ranked[0].confidence, ranked[0].signals)
      else
        NeedsReview(ranked[0].confidence, ranked[0].signals, if |ranked| > 3 then ranked[..3] else ranked)
  }

  predicate IsCandidate(cs: seq<Candidate>, id: string) { exists c :: c in cs && c.id == id }

  function Correlate(cs: seq<Candidate>, threshold: real, confirmed: Option<string>, round: Round)
    : Result<Correlation, Error>
  {
    if confirmed.Some? then
      if IsCandidate(cs, confirmed.value) then Ok(Matched(confirmed.value, 1.0, [REVIEWER_CONFIRMED]))
      else Err(NOT_A_CANDIDATE)
    else Ok(Answer(Ranked(Score(cs, round)), threshold))
  }

  /** The answer does not depend on the order the candidates come in. */
  lemma OrderDoesNotMatter(cs: seq<Candidate>, ds: seq<Candidate>, threshold: real, confirmed: Option<string>,
                           round: Round)
    requires multiset(cs) == multiset(ds) && DistinctCandidates(cs)
    ensures Correlate(cs, threshold, confirmed, round) == Correlate(ds, threshold, confirmed, round)
  {
    if confirmed.Some? {
      assert forall c :: c in cs <==> c in multiset(cs);
      assert forall c :: c in ds <==> c in multiset(ds);
    } else {
      var s, t := Score(cs, round), Score(ds, round);
      ScoreOfReordered(cs, ds, round);
      RankedIsSorted(s);
      RankedIsSorted(t);
      ScoredIdsDistinct(cs, round);
      DistinctReordered(s, Ranked(s));
      FallingIsUnique(Ranked(s), Ranked(t));
    }
  }

  lemma DistinctReordered(s: seq<Scored>, t: seq<Scored>)
    requires DistinctIds(s) && multiset(s) == multiset(t)
    ensures DistinctIds(t)
  {
    forall i, j | 0 <= i < j < |t| ensures t[i].id != t[j].id {
      if t[i] == t[j] {
        TwoPlaces(t, i, j);
        NoRepeats(s, t[i]);
      } else {
        assert t[i] in multiset(s) && t[j] in multiset(s);
      }
    }
  }

  lemma {:induction false} NoRepeats(s: seq<Scored>, x: Scored)
    requires DistinctIds(s)
    ensures multiset(s)[x] <= 1
  {
    if s != [] {
      var n := |s| - 1;
      NoRepeats(s[..n], x);
      assert s == s[..n] + [s[n]];
      if s[n] == x { assert x !in s[..n]; }
    }
  }

  // ---- What a match means ------------------------------------------------------------------------------------

  /** Clears the threshold, and leads everyone else, or no one at all, by the margin. */
  ghost predicate Leads(s: seq<Scored>, w: Scored, threshold: real) {
    && w in s && w.confidence >= threshold && w.confidence >= 0.1
    && forall o :: o in s && o != w ==> w.confidence - o.confidence >= 0.1
  }

  ghost predicate Plausible(s: seq<Scored>) { forall x :: x in s ==> 0.0 <= x.confidence <= 1.0 }

  function MatchOf(w: Scored): Correlation { Matched(w.id, w.confidence, w.signals) }

  lemma FirstIsHighest(ranked: seq<Scored>, k: nat)
    requires Falling(ranked) && k < |ranked|
    ensures ranked[0].confidence >= ranked[k].confidence
  {
    if k > 0 { assert Before(ranked[0], ranked[k]); }
  }

  lemma LeaderIsFirst(ranked: seq<Scored>, w: Scored, threshold: real)
    requires Falling(ranked) && DistinctIds(ranked) && Leads(ranked, w, threshold)
    ensures Answer(ranked, threshold) == MatchOf(w)
  {
    var k :| 0 <= k < |ranked| && ranked[k] == w;
    FirstIsHighest(ranked, k);
    assert ranked[0] in ranked;
    assert ranked[0] == w;
    if |ranked| > 1 { assert ranked[1] in ranked; }
  }

  lemma FirstLeads(ranked: seq<Scored>, threshold: real)
    requires Falling(ranked) && Plausible(ranked) && Answer(ranked, threshold).Matched?
    ensures Leads(ranked, ranked[0], threshold) && Answer(ranked, threshold) == MatchOf(ranked[0])
  {
    if |ranked| > 1 { assert ranked[1] in ranked; }
    forall o | o in ranked && o != ranked[0] ensures ranked[0].confidence - o.confidence >= 0.1 {
      var k :| 0 <= k < |ranked| && ranked[k] == o;
      if k > 1 { assert Before(ranked[1], o); }
    }
  }

  lemma {:induction false} ScoresArePlausible(cs: seq<Candidate>, round: Round)
    requires Rounds(round)
    ensures Plausible(Score(cs, round))
  {
    if cs != [] {
      WholeIsFixed(round);
      ScoresArePlausible(cs[..|cs| - 1], round);
      MissInRange(cs[|cs| - 1].signals);
    }
  }

  lemma LeadsReordered(s: seq<Scored>, t: seq<Scored>, w: Scored, threshold: real)
    requires multiset(s) == multiset(t)
    ensures Leads(s, w, threshold) <==> Leads(t, w, threshold)
    ensures Plausible(s) ==> Plausible(t)
  {
    assert forall x :: x in s <==> x in multiset(s);
    assert forall x :: x in t <==> x in multiset(t);
  }

  /** Unconfirmed, a message is matched to exactly the application that leads, if one does. */
  lemma LeaderIsMatched(cs: seq<Candidate>, w: Scored, threshold: real, round: Round)
    requires DistinctCandidates(cs) && Leads(Score(cs, round), w, threshold)
    ensures Correlate(cs, threshold, None, round) == Ok(MatchOf(w))
  {
    var s := Score(cs, round);
    RankedIsSorted(s);
    ScoredIdsDistinct(cs, round);
    DistinctReordered(s, Ranked(s));
    LeadsReordered(s, Ranked(s), w, threshold);
    LeaderIsFirst(Ranked(s), w, threshold);
  }

  lemma MatchedLeads(cs: seq<Candidate>, threshold: real, round: Round) returns (w: Scored)
    requires Rounds(round) && Correlate(cs, threshold, None, round).value.Matched?
    ensures Leads(Score(cs, round), w, threshold) && Correlate(cs, threshold, None, round) == Ok(MatchOf(w))
  {
    var s := Score(cs, round);
    RankedIsSorted(s);
    ScoresArePlausible(cs, round);
    LeadsReordered(s, Ranked(s), Ranked(s)[0], threshold);
    FirstLeads(Ranked(s), threshold);
    w := Ranked(s)[0];
  }

  /** Forgetting any other application keeps the match, to the last signal. */
  lemma OthersDoNotMatter(cs: seq<Candidate>, k: nat, threshold: real, round: Round)
    requires Rounds(round) && DistinctCandidates(cs) && k < |cs|
    requires var r := Correlate(cs, threshold, None, round).value; r.Matched? && r.id != cs[k].id
    ensures Correlate(cs[..k] + cs[k + 1..], threshold, None, round) == Correlate(cs, threshold, None, round)
  {
    var w := MatchedLeads(cs, threshold, round);
    DistinctWithout(cs, k);
    LeadsWithout(cs, k, w, threshold, round);
    LeaderIsMatched(cs[..k] + cs[k + 1..], w, threshold, round);
  }

  lemma DistinctWithout(cs: seq<Candidate>, k: nat)
    requires DistinctCandidates(cs) && k < |cs|
    ensures DistinctCandidates(cs[..k] + cs[k + 1..])
  {
    var ds := cs[..k] + cs[k + 1..];
    forall i, j | 0 <= i < j < |ds| ensures ds[i].id != ds[j].id {
      assert ds[i] == cs[if i < k then i else i + 1] && ds[j] == cs[if j < k then j else j + 1];
    }
  }

  lemma LeadsWithout(cs: seq<Candidate>, k: nat, w: Scored, threshold: real, round: Round)
    requires k < |cs| && Leads(Score(cs, round), w, threshold) && w.id != cs[k].id
    ensures Leads(Score(cs[..k] + cs[k + 1..], round), w, threshold)
  {
    var gone := if cs[k].signals == [] then [] else [ScoreOf(cs[k], round)];
    ScoreWithout(cs, k, round);
    StillLeads(Score(cs, round), Score(cs[..k] + cs[k + 1..], round), gone, w, threshold);
  }

  lemma StillLeads(s: seq<Scored>, t: seq<Scored>, gone: seq<Scored>, w: Scored, threshold: real)
    requires Leads(s, w, threshold) && multiset(s) == multiset(t) + multiset(gone) && w !in gone
    ensures Leads(t, w, threshold)
  {
    assert forall x :: x in s <==> x in multiset(s);
    assert forall x :: x in t <==> x in multiset(t);
    assert w !in multiset(gone);
  }

  /** Scores the candidates one by one, then ranks them. */
  method CorrelateApplication(cs: seq<Candidate>, threshold: real, confirmed: Option<string>, round: Round)
    returns (r: Result<Correlation, Error>)
    ensures r == Correlate(cs, threshold, confirmed, round)
  {
    if confirmed.Some? {
      for i := 0 to |cs|
        invariant !IsCandidate(cs[..i], confirmed.value)
      {
        if cs[i].id == confirmed.value {
          assert cs[i] in cs;
          return Ok(Matched(confirmed.value, 1.0, [REVIEWER_CONFIRMED]));
        }
        assert cs[..i + 1] == cs[..i] + [cs[i]];
      }
      assert cs[..|cs|] == cs;
      return Err(NOT_A_CANDIDATE);
    }
    var scored: seq<Scored> := [];
    for i := 0 to |cs|
      invariant scored == Score(cs[..i], round)
    {
      assert cs[..i + 1][..i] == cs[..i];
      if cs[i].signals != [] {
        var confidence := CombinedOf(cs[i].signals, round);
        scored := scored + [Scored(cs[i].id, confidence, cs[i].signals)];
      }
    }
    assert cs[..|cs|] == cs;
    return Ok(Answer(Ranked(scored), threshold));
  }

  // ---- What is done about the message -----------------------------------------------------------------------------

  datatype Classification =
    | RECRUITER_RESPONSE | INTERVIEW_INVITE | REJECTION | OFFER_MADE | ACTION_REQUIRED | GENERAL_UPDATE | UNRELATED

  datatype Move = TO_RESPONSE | TO_INTERVIEWING | TO_REJECTED | TO_OFFER

  function Implied(c: Classification): Option<Move> {
    match c
    case RECRUITER_RESPONSE => Some(TO_RESPONSE)
    case INTERVIEW_INVITE => Some(TO_INTERVIEWING)
    case REJECTION => Some(TO_REJECTED)
    case OFFER_MADE => Some(TO_OFFER)
    case ACTION_REQUIRED => Some(TO_RESPONSE)
    case _ => None
  }

  datatype Triage = Record(move: Option<Move>, review: bool) | Review | Ignore

  function TriageOf(c: Classification, confidence: real, correlation: Correlation, minConfidence: real): Triage {
    if correlation.Matched? then
      if c == UNRELATED && REVIEWER_CONFIRMED !in correlation.signals then Review
      else if confidence < minConfidence then Record(None, true)
      else Record(Implied(c), false)
    else if c == UNRELATED then Ignore
    else if correlation.NeedsReview? then Review
    else if c == GENERAL_UPDATE then Ignore
    else Review
  }

  /** An application is moved by a message only if the message was read confidently, and a reviewer
      tied it to one on file or that one clears the threshold and leads every other by the margin. */
  lemma MovesAreNeverGuessed(cs: seq<Candidate>, threshold: real, confirmed: Option<string>, round: Round,
                             c: Classification, confidence: real, minConfidence: real)
    requires Rounds(round) && Correlate(cs, threshold, confirmed, round).Ok?
    requires var t := TriageOf(c, confidence, Correlate(cs, threshold, confirmed, round).value, minConfidence);
             t.Record? && t.move.Some?
    ensures confidence >= minConfidence && c != UNRELATED && c != GENERAL_UPDATE
    ensures var r := Correlate(cs, threshold, confirmed, round).value;
            && r.Matched?
            && (if confirmed.Some? then r.id == confirmed.value && IsCandidate(cs, r.id)
                else exists w :: Leads(Score(cs, round), w, threshold) && r == MatchOf(w))
  {
    if confirmed.None? { var w := MatchedLeads(cs, threshold, round); }
  }

  // ---- All of it at once ------------------------------------------------------------------------------------------

  /** Some application shares an identifier with the message. */
  predicate Mentioned(cs: seq<Candidate>) { exists c :: c in cs && c.signals != [] }

  ghost predicate Led(cs: seq<Candidate>, threshold: real, round: Round) {
    exists w :: Leads(Score(cs, round), w, threshold)
  }

  lemma MatchedExactlyIfLed(cs: seq<Candidate>, threshold: real, round: Round)
    requires Rounds(round) && DistinctCandidates(cs)
    ensures Correlate(cs, threshold, None, round).value.Matched? <==> Led(cs, threshold, round)
  {
    if Correlate(cs, threshold, None, round).value.Matched? { var w := MatchedLeads(cs, threshold, round); }
    if Led(cs, threshold, round) {
      var w :| Leads(Score(cs, round), w, threshold);
      LeaderIsMatched(cs, w, threshold, round);
    }
  }

  lemma ScoredExactlyIfMentioned(cs: seq<Candidate>, round: Round)
    ensures Ranked(Score(cs, round)) == [] <==> !Mentioned(cs)
  {
    var s := Score(cs, round);
    RankedIsSorted(s);
    SameSize(s, Ranked(s));
    ScoredAreCandidates(cs, round);
    if s != [] { assert s[0] in s; }
    if Mentioned(cs) {
      var c :| c in cs && c.signals != [];
      assert ScoreOf(c, round) in s;
    }
  }

  /** A confirmation names one on file and settles it. Without one, a message is matched exactly if some
      application leads, and unmatched exactly if it mentions none; otherwise a reviewer is shown the three
      that rank first, or as many as there are. */
  lemma AnswersAreExact(cs: seq<Candidate>, threshold: real, confirmed: Option<string>, round: Round)
    requires Rounds(round) && DistinctCandidates(cs)
    ensures var r, ranked := Correlate(cs, threshold, confirmed, round), Ranked(Score(cs, round));
            if confirmed.Some? then
              r == if exists c :: c in cs && c.id == confirmed.value
                   then Ok(Matched(confirmed.value, 1.0, [REVIEWER_CONFIRMED])) else Err(NOT_A_CANDIDATE)
            else
              && r.Ok?
              && (r.value.Matched? <==> Led(cs, threshold, round))
              && (r.value.Unmatched? <==> !Mentioned(cs))
              && (r.value.NeedsReview? ==>
                    && 0 < |r.value.best| <= 3 && r.value.best <= ranked
                    && (|r.value.best| == 3 || r.value.best == ranked)
                    && r.value.confidence == ranked[0].confidence && r.value.signals == ranked[0].signals)
  {
    if confirmed.None? {
      MatchedExactlyIfLed(cs, threshold, round);
      ScoredExactlyIfMentioned(cs, round);
    }
  }

  /** What is found in a message is never a reviewer's word. */
  predicate Unconfirmed(cs: seq<Candidate>) { forall c :: c in cs ==> REVIEWER_CONFIRMED !in c.signals }

  /** What is done about each message: recorded exactly if a reviewer tied it to an application or one leads
      that it can be about, with the move its meaning implies if that was read confidently; dropped exactly
      if it leads nowhere and means nothing; and otherwise shown to a person. */
  lemma EveryMessageHasItsPlace(cs: seq<Candidate>, threshold: real, confirmed: Option<string>, round: Round,
                                c: Classification, confidence: real, minConfidence: real)
    requires Rounds(round) && DistinctCandidates(cs) && Unconfirmed(cs)
    requires Correlate(cs, threshold, confirmed, round).Ok?
    ensures var t := TriageOf(c, confidence, Correlate(cs, threshold, confirmed, round).value, minConfidence);
            var led := Led(cs, threshold, round);
            var tied := confirmed.Some? || (led && c != UNRELATED);
            var sure := tied && confidence >= minConfidence;
            && (t.Record? <==> tied)
            && (t.Record? ==> (t.review <==> !sure))
            && (t == Ignore <==>
                  confirmed.None? && !led && (c == UNRELATED || (c == GENERAL_UPDATE && !Mentioned(cs))))
            && (t.Record? ==>
                  && (t.move == Some(TO_INTERVIEWING) <==> sure && c == INTERVIEW_INVITE)
                  && (t.move == Some(TO_OFFER) <==> sure && c == OFFER_MADE)
                  && (t.move == Some(TO_REJECTED) <==> sure && c == REJECTION)
                  && (t.move == Some(TO_RESPONSE) <==> sure && (c == RECRUITER_RESPONSE || c == ACTION_REQUIRED)))
  {
    AnswersAreExact(cs, threshold, confirmed, round);
    var r := Correlate(cs, threshold, confirmed, round).value;
    if confirmed.None? && r.Matched? {
      var w := MatchedLeads(cs, threshold, round);
      ScoredAreCandidates(cs, round);
      assert REVIEWER_CONFIRMED !in r.signals;
    }
  }

  /** Rounded to four places, one identifier counts for its weight, and a confirmation for nothing more. */
  lemma OneSignalIsItsWeight(s: Signal, round: Round)
    requires Rounds(round)
    ensures Combined([s], round) == Places(if s == THREAD then 9500 else if s == REFERENCE then 9000
                                           else if s == KNOWN_SENDER then 6000 else if s == SENDER_DOMAIN then 5000
                                           else if s == COMPANY_NAME then 3500 else if s == TITLE then 3000 else 0)
  {
    assert [s][..0] == [];
    assert Miss([s]) == 1.0 - s.Weight();
    assert round(Places(9500)) == Places(9500) == 0.95 && round(Places(9000)) == Places(9000) == 0.9;
    assert round(Places(6000)) == Places(6000) == 0.6 && round(Places(5000)) == Places(5000) == 0.5;
    assert round(Places(3500)) == Places(3500) == 0.35 && round(Places(3000)) == Places(3000) == 0.3;
    assert round(Places(0)) == Places(0) == 0.0;
  }
}
