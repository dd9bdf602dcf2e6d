/** Result types shared by every module. */
module Prelude {

  /** A value that may be absent: Python's `T | None`. */
  datatype Option<+T> = None | Some(value: T) {
    function GetOr(default: T): T { if Some? then value else default }
  }

  /** A call that returns a value or raises. */
  datatype Result<+T, +E> = Ok(value: T) | Err(error: E)

  /** What stands in two places is there twice. */
  lemma TwoPlaces<T>(s: seq<T>, i: nat, j: nat)
    requires i < j < |s| && s[i] == s[j]
    ensures multiset(s)[s[i]] >= 2
  {
    var a, b := s[..j], s[j..];
    assert s == a + b;
    assert a[i] == s[i] && b[0] == s[j];
    assert s[i] in multiset(a) && s[i] in multiset(b);
  }

  lemma Associative<T>(a: seq<T>, b: seq<T>, c: seq<T>)
    ensures a + b + c == a + (b + c)
  {
  }
}
