/** The order Python sorts strings in, and sorting by it. */
module Ordering {

  /** Lexicographic order by code point. */
  predicate Le(a: string, b: string) {
    a == "" || (b != "" && (a[0] < b[0] || (a[0] == b[0] && Le(a[1..], b[1..]))))
  }

  lemma {:induction false} LeTotal(a: string, b: string)
    ensures Le(a, b) || Le(b, a)
    ensures Le(a, b) && Le(b, a) ==> a == b
  {
    if a != "" && b != "" && a[0] == b[0] {
      LeTotal(a[1..], b[1..]);
      assert a == [a[0]] + a[1..] && b == [b[0]] + b[1..];
    }
  }

  lemma {:induction false} LeTransitive(a: string, b: string, c: string)
    requires Le(a, b) && Le(b, c)
    ensures Le(a, c)
  {
    if a != "" && b != "" && c != "" && a[0] == b[0] == c[0] { LeTransitive(a[1..], b[1..], c[1..]); }
  }

  ghost predicate IsLeast(m: string, s: set<string>) { m in s && forall x :: x in s ==> Le(m, x) }

  lemma {:induction false} LeastExists(s: set<string>)
    requires s != {}
    ensures exists m :: IsLeast(m, s)
    decreases |s|
  {
    var x :| x in s;
    LeTotal(x, x);
    if s == {x} {
      assert IsLeast(x, s);
    } else {
      LeastExists(s - {x});
      var m :| IsLeast(m, s - {x});
      LeTotal(m, x);
      if Le(m, x) {
        assert IsLeast(m, s);
      } else {
        forall y | y in s ensures Le(x, y) {
          if y != x { LeTransitive(x, m, y); }
        }
        assert IsLeast(x, s);
      }
    }
  }

  /** `sorted(s)`. */
  ghost function Sorted(s: set<string>): seq<string>
    decreases |s|
  {
    if s == {} then []
    else
      LeastExists(s);
      var m :| IsLeast(m, s);
      [m] + Sorted(s - {m})
  }

  lemma SortedStep(s: set<string>) returns (m: string)
    requires s != {}
    ensures IsLeast(m, s) && Sorted(s) == [m] + Sorted(s - {m})
  {
    LeastExists(s);
    m :| IsLeast(m, s) && Sorted(s) == [m] + Sorted(s - {m});
  }

  lemma {:induction false} SortedHoldsEach(s: set<string>)
    ensures multiset(Sorted(s)) == multiset(s)
    decreases |s|
  {
    if s != {} {
      var m := SortedStep(s);
      SortedHoldsEach(s - {m});
      assert multiset(s) == multiset{m} + multiset(s - {m});
    }
  }

  lemma SortedMembers(s: set<string>, x: string)
    ensures x in Sorted(s) <==> x in s
  {
    SortedHoldsEach(s);
    assert x in Sorted(s) <==> x in multiset(Sorted(s));
  }

  lemma {:induction false} SortedAscends(s: set<string>)
    ensures forall i, j :: 0 <= i < j < |Sorted(s)| ==> Le(Sorted(s)[i], Sorted(s)[j]) && Sorted(s)[i] != Sorted(s)[j]
    decreases |s|
  {
    if s != {} {
      var m := SortedStep(s);
      var rest := Sorted(s - {m});
      SortedAscends(s - {m});
      forall k | 0 <= k < |rest| ensures Le(m, rest[k]) && m != rest[k] {
        SortedMembers(s - {m}, rest[k]);
      }
    }
  }

  /** Selection sort over the members of a set. */
  method Sort(s: set<string>) returns (r: seq<string>)
    ensures r == Sorted(s)
  {
    r := [];
    var rest := s;
    while rest != {}
      invariant Sorted(s) == r + Sorted(rest)
      decreases |rest|
    {
      var m := Least(rest);
      LeastExists(rest);
      LeastIsUnique(rest, m);
      r, rest := r + [m], rest - {m};
    }
  }

  lemma LeastIsUnique(s: set<string>, m: string)
    requires IsLeast(m, s)
    ensures forall m' :: IsLeast(m', s) ==> m' == m
  {
    forall m' | IsLeast(m', s) ensures m' == m { LeTotal(m, m'); }
  }

  method Least(s: set<string>) returns (m: string)
    requires s != {}
    ensures IsLeast(m, s)
  {
    m :| m in s;
    var rest := s - {m};
    LeTotal(m, m);
    while rest != {}
      invariant m in s && rest <= s
      invariant forall x :: x in s - rest ==> Le(m, x)
      decreases |rest|
    {
      var x :| x in rest;
      LeTotal(m, x);
      if !Le(m, x) {
        forall y | y in s - rest ensures Le(x, y) { LeTransitive(x, m, y); }
        LeTotal(x, x);
        m := x;
      }
      rest := rest - {x};
    }
  }
}
