/** Lexicographic string order and the stable sort behind Python's `sorted`. */
module Ordering {

  /** Code-point order on strings, as Python compares `str` values. */
  predicate StringLe(a: string, b: string) {
    a == [] || (b != [] && (a[0] < b[0] || (a[0] == b[0] && StringLe(a[1..], b[1..]))))
  }

  lemma {:induction false} StringLeTotal(a: string, b: string)
    ensures StringLe(a, b) || StringLe(b, a)
  {
    if a != [] && b != [] && a[0] == b[0] {
      StringLeTotal(a[1..], b[1..]);
    }
  }

  lemma {:induction false} StringLeAntisymmetric(a: string, b: string)
    requires StringLe(a, b) && StringLe(b, a)
    ensures a == b
  {
    if a != [] {
      StringLeAntisymmetric(a[1..], b[1..]);
      assert a == [a[0]] + a[1..] && b == [b[0]] + b[1..];
    }
  }

  lemma {:induction false} StringLeTransitive(a: string, b: string, c: string)
    requires StringLe(a, b) && StringLe(b, c)
    ensures StringLe(a, c)
  {
    if a != [] && a[0] == b[0] == c[0] {
      StringLeTransitive(a[1..], b[1..], c[1..]);
    }
  }

  /** `a` and `b` agree before place `i`, where `a` ends or has the smaller character. */
  predicate FirstDifference(a: string, b: string, i: nat) {
    && i < |b| && i <= |a| && a[..i] == b[..i] && (i < |a| ==> a[i] < b[i])
  }

  /** Strings are ordered by their first difference, and a prefix comes before what it begins. */
  lemma {:induction false} StringLeMeans(a: string, b: string)
    ensures StringLe(a, b) <==> a == b || exists i: nat :: FirstDifference(a, b, i)
  {
    if a == [] {
      assert b != [] ==> FirstDifference(a, b, 0);
    } else if b == [] {
    } else if a[0] != b[0] {
      if a[0] < b[0] { assert FirstDifference(a, b, 0); }
      forall i: nat | 0 < i <= |a| && i <= |b| ensures a[..i] != b[..i] { assert a[..i][0] != b[..i][0]; }
    } else {
      StringLeMeans(a[1..], b[1..]);
      assert a == b <==> a[1..] == b[1..] by { assert a == [a[0]] + a[1..] && b == [b[0]] + b[1..]; }
      if i: nat :| FirstDifference(a[1..], b[1..], i) {
        assert a[..i + 1] == [a[0]] + a[1..][..i] && b[..i + 1] == [b[0]] + b[1..][..i];
        assert FirstDifference(a, b, i + 1);
      }
      if i: nat :| FirstDifference(a, b, i) {
        assert i > 0;
        assert a[1..][..i - 1] == a[..i][1..] && b[1..][..i - 1] == b[..i][1..];
        assert FirstDifference(a[1..], b[1..], i - 1);
      }
    }
  }

  ghost predicate TotalPreorder<T(!new)>(le: (T, T) -> bool) {
    && (forall a, b :: le(a, b) || le(b, a))
    && (forall a, b, c :: le(a, b) && le(b, c) ==> le(a, c))
  }

  ghost predicate Antisymmetric<T(!new)>(le: (T, T) -> bool) {
    forall a, b :: le(a, b) && le(b, a) ==> a == b
  }

  lemma StringLeIsTotalOrder()
    ensures TotalPreorder(StringLe) && Antisymmetric(StringLe)
  {
    forall a, b ensures StringLe(a, b) || StringLe(b, a) { StringLeTotal(a, b); }
    forall a, b, c | StringLe(a, b) && StringLe(b, c) ensures StringLe(a, c) { StringLeTransitive(a, b, c); }
    forall a, b | StringLe(a, b) && StringLe(b, a) ensures a == b { StringLeAntisymmetric(a, b); }
  }

  ghost predicate SortedBy<T>(s: seq<T>, le: (T, T) -> bool) {
    forall i, j :: 0 <= i < j < |s| ==> le(s[i], s[j])
  }

  ghost predicate NoDuplicates<T>(s: seq<T>) {
    forall i, j :: 0 <= i < j < |s| ==> s[i] != s[j]
  }

  function Insert<T>(x: T, s: seq<T>, le: (T, T) -> bool): seq<T> {
    if s == [] then [x]
    else if le(x, s[0]) then [x] + s
    else [s[0]] + Insert(x, s[1..], le)
  }

  /** Insertion sort; an element goes before the later ones it ties with. */
  function Sort<T>(s: seq<T>, le: (T, T) -> bool): seq<T> {
    if s == [] then [] else Insert(s[0], Sort(s[1..], le), le)
  }

  lemma {:induction false} InsertContents<T>(x: T, s: seq<T>, le: (T, T) -> bool)
    ensures multiset(Insert(x, s, le)) == multiset{x} + multiset(s)
  {
    if s != [] {
      assert s == [s[0]] + s[1..];
      if !le(x, s[0]) { InsertContents(x, s[1..], le); }
    }
  }

  lemma {:induction false} InsertSorted<T(!new)>(x: T, s: seq<T>, le: (T, T) -> bool)
    requires TotalPreorder(le) && SortedBy(s, le)
    ensures SortedBy(Insert(x, s, le), le)
  {
    if s != [] && !le(x, s[0]) {
      InsertSorted(x, s[1..], le);
      var r := Insert(x, s[1..], le);
      InsertContents(x, s[1..], le);
      forall y | y in r ensures le(s[0], y) {
        assert y in multiset(r);
        assert y == x || y in s[1..];
      }
    }
  }

  lemma {:induction false} SortContents<T>(s: seq<T>, le: (T, T) -> bool)
    ensures multiset(Sort(s, le)) == multiset(s)
    ensures |Sort(s, le)| == |s|
  {
    if s != [] {
      SortContents(s[1..], le);
      InsertContents(s[0], Sort(s[1..], le), le);
      assert s == [s[0]] + s[1..];
    }
    assert |multiset(Sort(s, le))| == |multiset(s)|;
  }

  lemma {:induction false} SortSorted<T(!new)>(s: seq<T>, le: (T, T) -> bool)
    requires TotalPreorder(le)
    ensures SortedBy(Sort(s, le), le)
  {
    if s != [] {
      SortSorted(s[1..], le);
      InsertSorted(s[0], Sort(s[1..], le), le);
    }
  }

  lemma SameElements<T>(s: seq<T>, t: seq<T>)
    requires multiset(s) == multiset(t)
    ensures forall x :: x in s <==> x in t
  {
    forall x ensures x in s <==> x in t {
      assert x in s <==> x in multiset(s);
      assert x in t <==> x in multiset(t);
    }
  }

  /** Elements tied with `x`, in the order they come in `s`. */
  function TiedWith<T>(x: T, s: seq<T>, le: (T, T) -> bool): seq<T> {
    if s == [] then []
    else (if le(x, s[0]) && le(s[0], x) then [s[0]] else []) + TiedWith(x, s[1..], le)
  }

  lemma {:induction false} InsertStable<T(!new)>(x: T, y: T, s: seq<T>, le: (T, T) -> bool)
    requires TotalPreorder(le)
    ensures TiedWith(x, Insert(y, s, le), le) == TiedWith(x, [y] + s, le)
  {
    assert ([y] + s)[1..] == s;
    if s != [] && !le(y, s[0]) {
      InsertStable(x, y, s[1..], le);
      assert ([y] + s[1..])[1..] == s[1..];
      assert ([s[0]] + Insert(y, s[1..], le))[1..] == Insert(y, s[1..], le);
    }
  }

  /** `sorted` is stable: elements that tie keep their order. */
  lemma {:induction false} SortStable<T(!new)>(x: T, s: seq<T>, le: (T, T) -> bool)
    requires TotalPreorder(le)
    ensures TiedWith(x, Sort(s, le), le) == TiedWith(x, s, le)
  {
    if s != [] {
      SortStable(x, s[1..], le);
      InsertStable(x, s[0], Sort(s[1..], le), le);
      assert ([s[0]] + Sort(s[1..], le))[1..] == Sort(s[1..], le);
    }
  }

  lemma SortedFirst<T(!new)>(s: seq<T>, x: T, le: (T, T) -> bool)
    requires TotalPreorder(le) && SortedBy(s, le) && x in s
    ensures le(s[0], x)
  {
    assert le(x, x) || le(x, x);
  }

  lemma DropFirst<T>(s: seq<T>)
    requires s != []
    ensures s == [s[0]] + s[1..] && multiset(s[1..]) == multiset(s) - multiset{s[0]}
  {
    assert s == [s[0]] + s[1..];
  }

  /** Under an antisymmetric order a sorted sequence is determined by its contents. */
  lemma {:induction false} SortedUnique<T(!new)>(s: seq<T>, t: seq<T>, le: (T, T) -> bool)
    requires TotalPreorder(le) && Antisymmetric(le)
    requires SortedBy(s, le) && SortedBy(t, le) && multiset(s) == multiset(t)
    ensures s == t
  {
    SameElements(s, t);
    if s == [] {
      assert |multiset(t)| == 0;
    } else {
      assert s[0] in s && s[0] in t;
      assert t[0] in t;
      SortedFirst(s, t[0], le);
      SortedFirst(t, s[0], le);
      DropFirst(s);
      DropFirst(t);
      SortedUnique(s[1..], t[1..], le);
    }
  }

  lemma {:induction false} NoDuplicatesMultiset<T>(s: seq<T>)
    requires NoDuplicates(s)
    ensures multiset(s) == multiset(set x | x in s)
  {
    if s != [] {
      var last := s[|s| - 1];
      var rest := s[..|s| - 1];
      NoDuplicatesMultiset(rest);
      assert s == rest + [last];
      assert (set x | x in s) == (set x | x in rest) + {last};
      assert last !in rest;
    }
  }

  lemma RepeatCounted<T>(s: seq<T>, i: nat, j: nat)
    requires i < j < |s|
    ensures s[i] == s[j] ==> multiset(s)[s[i]] >= 2
  {
    assert s == s[..i] + [s[i]] + s[i + 1..j] + [s[j]] + s[j + 1..];
  }

  lemma MultisetNoDuplicates<T>(s: seq<T>, t: seq<T>)
    requires NoDuplicates(s) && multiset(s) == multiset(t)
    ensures NoDuplicates(t)
  {
    NoDuplicatesMultiset(s);
    forall i, j | 0 <= i < j < |t| ensures t[i] != t[j] {
      RepeatCounted(t, i, j);
    }
  }

  lemma NoDuplicatesLength<T>(s: seq<T>)
    requires NoDuplicates(s)
    ensures |set x | x in s| == |s|
  {
    NoDuplicatesMultiset(s);
    assert |multiset(s)| == |multiset(set x | x in s)|;
  }

  /** A sorted, duplicate-free list of strings is determined by its set. */
  lemma SortedSetUnique(s: seq<string>, t: seq<string>)
    requires NoDuplicates(s) && NoDuplicates(t)
    requires SortedBy(s, StringLe) && SortedBy(t, StringLe)
    requires forall x :: x in s <==> x in t
    ensures s == t
  {
    StringLeIsTotalOrder();
    NoDuplicatesMultiset(s);
    NoDuplicatesMultiset(t);
    assert (set x | x in s) == (set x | x in t);
    SortedUnique(s, t, StringLe);
  }

  /** Any enumeration of a set: the order in which Python visits a `set` is not specified. */
  method Enumerate<T(==)>(s: set<T>) returns (order: seq<T>)
    ensures NoDuplicates(order)
    ensures forall x :: x in order <==> x in s
  {
    order := [];
    var rest := s;
    while rest != {}
      invariant NoDuplicates(order)
      invariant rest <= s
      invariant forall x :: x in order <==> x in s - rest
    {
      var x :| x in rest;
      assert x !in order;
      order := order + [x];
      rest := rest - {x};
    }
  }
}
