/** Counting the elements of a sequence, and taking one out. */
module Counting {

  function Count<T>(s: seq<T>, of: T -> bool): nat {
    if s == [] then 0 else Count(s[..|s| - 1], of) + if of(s[|s| - 1]) then 1 else 0
  }

  lemma CountSnoc<T>(s: seq<T>, x: T, of: T -> bool)
    ensures Count(s + [x], of) == Count(s, of) + if of(x) then 1 else 0
  {
    assert (s + [x])[..|s|] == s;
  }

  lemma {:induction false} CountAtMost<T>(s: seq<T>, of: T -> bool)
    ensures Count(s, of) <= |s|
  {
    if s != [] { CountAtMost(s[..|s| - 1], of); }
  }

  function Without<T>(s: seq<T>, i: nat): seq<T>
    requires i < |s|
  {
    s[..i] + s[i + 1..]
  }

  lemma {:induction false} CountWithout<T>(s: seq<T>, i: nat, of: T -> bool)
    requires i < |s|
    ensures Count(s, of) == Count(Without(s, i), of) + if of(s[i]) then 1 else 0
  {
    var n := |s| - 1;
    var rest, last := s[..n], s[n];
    assert s == rest + [last];
    CountSnoc(rest, last, of);
    if i == n {
      assert Without(s, i) == rest;
    } else {
      CountWithout(rest, i, of);
      assert Without(s, i) == Without(rest, i) + [last];
      CountSnoc(Without(rest, i), last, of);
    }
  }
}
