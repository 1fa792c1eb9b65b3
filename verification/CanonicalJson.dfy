/** Normalised payloads as a serialiser that sorts keys sees them: dicts without an order. */
module CanonicalJson {
  import opened Text
  import opened Wrappers
  import opened ScrapeFingerprints

  datatype Canon = Leaf(value: Value) | ListOf(items: seq<Canon>) | Object(fields: map<string, Canon>)

  function CanonOf(v: Value): Canon
    decreases v, 1
  {
    match v
    case List(items) => ListOf(seq(|items|, i requires 0 <= i < |items| => CanonOf(items[i])))
    case Dict(entries) => Object(CanonEntries(entries))
    case _ => Leaf(v)
  }

  function CanonEntries(entries: seq<Entry>): map<string, Canon>
    decreases entries, 0
  {
    if entries == [] then map[]
    else CanonEntries(entries[1..])[entries[0].key := CanonOf(entries[0].value)]
  }

  lemma {:induction false} CanonLookup(entries: seq<Entry>, k: string)
    ensures k in CanonEntries(entries) <==> Lookup(entries, k).Some?
    ensures k in CanonEntries(entries) ==> CanonEntries(entries)[k] == CanonOf(Lookup(entries, k).value)
  {
    if entries != [] { CanonLookup(entries[1..], k); }
  }

  lemma EmptyCanon(entries: seq<Entry>)
    ensures CanonEntries(entries) == map[] <==> entries == []
  {
    if entries != [] { assert entries[0].key in CanonEntries(entries); }
  }

  // ----- what serialises alike

  /** The same scalar, list items alike one by one, or dicts alike key by key, in any order. */
  ghost predicate Alike(v: Value, w: Value)
    decreases v, 1
  {
    if v.List? && w.List? then
      |v.items| == |w.items| && forall i :: 0 <= i < |v.items| ==> Alike(v.items[i], w.items[i])
    else if v.Dict? && w.Dict? then AlikeDicts(v.entries, w.entries)
    else v == w
  }

  /** The place of the entry `Lookup` finds, or the length of the list. */
  function PlaceOf(entries: seq<Entry>, k: string): (n: nat)
    ensures n <= |entries| && (n < |entries| ==> entries[n].key == k)
    ensures forall i :: 0 <= i < n ==> entries[i].key != k
  {
    if entries == [] || entries[0].key == k then 0 else 1 + PlaceOf(entries[1..], k)
  }

  ghost predicate AlikeDicts(a: seq<Entry>, b: seq<Entry>)
    decreases a, 1
  {
    forall k :: AlikeAt(a, b, k)
  }

  ghost predicate AlikeAt(a: seq<Entry>, b: seq<Entry>, k: string)
    decreases a, 0
  {
    var i, j := PlaceOf(a, k), PlaceOf(b, k);
    (i < |a| <==> j < |b|) && (i < |a| && j < |b| ==> Alike(a[i].value, b[j].value))
  }

  lemma {:induction false} FoundAt(entries: seq<Entry>, k: string)
    ensures Lookup(entries, k) ==
            if PlaceOf(entries, k) < |entries| then Some(entries[PlaceOf(entries, k)].value) else None
  {
    if entries != [] { FoundAt(entries[1..], k); }
  }

  ghost predicate SameValue(a: Option<Value>, b: Option<Value>) {
    if a.Some? && b.Some? then Alike(a.value, b.value) else a == b
  }

  /** Two values serialise alike exactly when they are alike, at any depth. */
  lemma {:induction false} AlikeExactly(v: Value, w: Value)
    ensures CanonOf(v) == CanonOf(w) <==> Alike(v, w)
    decreases v, 1
  {
    if v.List? && w.List? {
      var a, b := v.items, w.items;
      forall i | 0 <= i < |a| && i < |b| ensures CanonOf(a[i]) == CanonOf(b[i]) <==> Alike(a[i], b[i]) {
        AlikeExactly(a[i], b[i]);
      }
      AlikeLists(a, b);
    } else if v.Dict? && w.Dict? {
      AlikeDictsExactly(v.entries, w.entries);
    }
  }

  lemma AlikeLists(a: seq<Value>, b: seq<Value>)
    requires forall i :: 0 <= i < |a| && i < |b| ==> (CanonOf(a[i]) == CanonOf(b[i]) <==> Alike(a[i], b[i]))
    ensures CanonOf(List(a)) == CanonOf(List(b)) <==> Alike(List(a), List(b))
  {
    var ca, cb := CanonOf(List(a)).items, CanonOf(List(b)).items;
    assert |ca| == |a| && |cb| == |b|;
    forall i | 0 <= i < |a| && i < |b| ensures ca[i] == cb[i] <==> Alike(a[i], b[i]) {}
    if Alike(List(a), List(b)) {
      forall i | 0 <= i < |a| ensures ca[i] == cb[i] { assert Alike(a[i], b[i]); }
      assert ca == cb;
    }
  }

  lemma {:induction false} AlikeDictsExactly(a: seq<Entry>, b: seq<Entry>)
    ensures CanonEntries(a) == CanonEntries(b) <==> AlikeDicts(a, b)
    decreases a, 0
  {
    forall k ensures SameCanon(Lookup(a, k), Lookup(b, k)) <==> AlikeAt(a, b, k) {
      var i, j := PlaceOf(a, k), PlaceOf(b, k);
      FoundAt(a, k);
      FoundAt(b, k);
      if i < |a| && j < |b| { AlikeExactly(a[i].value, b[j].value); }
    }
    CanonByLookup(a, b);
  }

  ghost predicate SameCanon(a: Option<Value>, b: Option<Value>) {
    if a.Some? && b.Some? then CanonOf(a.value) == CanonOf(b.value) else a == b
  }

  lemma SameCanonExactly(a: Option<Value>, b: Option<Value>)
    ensures SameCanon(a, b) <==> SameValue(a, b)
  {
    if a.Some? && b.Some? { AlikeExactly(a.value, b.value); }
  }

  ghost predicate SameLookups(a: seq<Entry>, b: seq<Entry>) {
    forall k :: SameCanon(Lookup(a, k), Lookup(b, k))
  }

  lemma CanonByLookup(a: seq<Entry>, b: seq<Entry>)
    ensures CanonEntries(a) == CanonEntries(b) <==> SameLookups(a, b)
  {
    var ca, cb := CanonEntries(a), CanonEntries(b);
    forall k
      ensures SameCanon(Lookup(a, k), Lookup(b, k)) <==>
                (k in ca <==> k in cb) && (k in ca && k in cb ==> ca[k] == cb[k])
    {
      CanonLookup(a, k);
      CanonLookup(b, k);
    }
    if SameLookups(a, b) {
      assert forall k :: SameCanon(Lookup(a, k), Lookup(b, k));
      assert ca == cb;
    }
  }

  ghost predicate SameSurvivors(lib: Library, a: seq<Entry>, b: seq<Entry>) {
    forall k :: SameValue(LastSurvivor(lib, a, k), LastSurvivor(lib, b, k))
  }

  /** Two dicts serialise alike exactly when, key by key, the same values survive. */
  lemma SerialisedAlike(lib: Library, a: seq<Entry>, b: seq<Entry>)
    ensures CanonEntries(NormalizeEntries(lib, a)) == CanonEntries(NormalizeEntries(lib, b)) <==>
              SameSurvivors(lib, a, b)
  {
    var na, nb := NormalizeEntries(lib, a), NormalizeEntries(lib, b);
    CanonByLookup(na, nb);
    forall k ensures SameCanon(Lookup(na, k), Lookup(nb, k)) <==>
                       SameValue(LastSurvivor(lib, a, k), LastSurvivor(lib, b, k))
    {
      LastSurvivorWins(lib, a, k);
      LastSurvivorWins(lib, b, k);
      SameCanonExactly(Lookup(na, k), Lookup(nb, k));
    }
  }

  // ----- rearranging dicts at any depth

  /** No two keys have the same clean form. */
  ghost predicate NoCollisions(entries: seq<Entry>) {
    forall i, j :: 0 <= i < j < |entries| ==> NormalizeString(entries[i].key) != NormalizeString(entries[j].key)
  }

  /** The same entries in another order, inside values too, as long as no keys collide. */
  ghost predicate Rearranged(a: seq<Entry>, b: seq<Entry>)
    decreases a, 0
  {
    && NoCollisions(a) && NoCollisions(b)
    && (forall i :: 0 <= i < |a| ==> HasMatch(a[i], b))
    && (forall j :: 0 <= j < |b| ==> HasKey(NormalizeString(b[j].key), a))
  }

  ghost predicate HasKey(k: string, entries: seq<Entry>) {
    exists i :: 0 <= i < |entries| && NormalizeString(entries[i].key) == k
  }

  ghost predicate HasMatch(e: Entry, b: seq<Entry>)
    decreases e, 2
  {
    exists j :: 0 <= j < |b| && Matches(e, b[j])
  }

  ghost predicate Matches(e: Entry, f: Entry)
    decreases e, 1
  {
    NormalizeString(e.key) == NormalizeString(f.key) && RearrangedValue(e.value, f.value)
  }

  ghost predicate RearrangedValue(v: Value, w: Value)
    decreases v, 1
  {
    v == w || RearrangedDict(v, w) || (v.List? && w.List? && RearrangedItems(v.items, w.items))
  }

  ghost predicate RearrangedDict(v: Value, w: Value)
    decreases v, 0
  {
    v.Dict? && w.Dict? && Rearranged(v.entries, w.entries)
  }

  /** Lists keep their order; only dicts inside them may be rearranged. */
  ghost predicate RearrangedItems(xs: seq<Value>, ys: seq<Value>)
    decreases xs, 0
  {
    |xs| == |ys| && forall i :: 0 <= i < |xs| ==> xs[i] == ys[i] || RearrangedDict(xs[i], ys[i])
  }

  /** Reordering whole entries is the simplest case. */
  lemma PermutedIsRearranged(a: seq<Entry>, b: seq<Entry>)
    requires NoCollisions(a) && NoCollisions(b) && forall e :: e in a <==> e in b
    ensures Rearranged(a, b)
  {
    forall i | 0 <= i < |a| ensures HasMatch(a[i], b) { MatchesItself(a[i], b); }
    forall j | 0 <= j < |b| ensures HasKey(NormalizeString(b[j].key), a) { KeyOfMember(b[j], a); }
  }

  lemma MatchesItself(e: Entry, b: seq<Entry>)
    requires e in b
    ensures HasMatch(e, b)
  {
    var j :| 0 <= j < |b| && b[j] == e;
    assert Matches(e, b[j]);
  }

  lemma KeyOfMember(e: Entry, a: seq<Entry>)
    requires e in a
    ensures HasKey(NormalizeString(e.key), a)
  {
    var i :| 0 <= i < |a| && a[i] == e;
  }

  // ----- what survives

  lemma {:induction false} NoSurvivor(lib: Library, a: seq<Entry>, k: string)
    requires !HasKey(k, a)
    ensures LastSurvivor(lib, a, k) == None
  {
    if a != [] {
      assert NormalizeString(a[|a| - 1].key) != k;
      NoSurvivor(lib, a[..|a| - 1], k);
    }
  }

  /** Without collisions what survives under a key is its own value. */
  lemma {:induction false} OnlySurvivor(lib: Library, a: seq<Entry>, i: nat)
    requires NoCollisions(a) && i < |a|
    ensures LastSurvivor(lib, a, NormalizeString(a[i].key)) ==
            if Keeps(lib, NormalizeString(a[i].key)) then NormalizeValue(lib, a[i].value) else None
  {
    var rest := a[..|a| - 1];
    if i == |rest| {
      NoSurvivor(lib, rest, NormalizeString(a[i].key));
    } else {
      OnlySurvivor(lib, rest, i);
    }
  }

  lemma SurvivesAlike(lib: Library, a: seq<Entry>, i: nat, b: seq<Entry>, j: nat)
    requires NoCollisions(a) && NoCollisions(b) && i < |a| && j < |b|
    requires NormalizeString(a[i].key) == NormalizeString(b[j].key)
    requires SameCanon(NormalizeValue(lib, a[i].value), NormalizeValue(lib, b[j].value))
    ensures var k := NormalizeString(a[i].key); SameCanon(LastSurvivor(lib, a, k), LastSurvivor(lib, b, k))
  {
    OnlySurvivor(lib, a, i);
    OnlySurvivor(lib, b, j);
  }

  lemma {:induction false} SameUnderKey(lib: Library, a: seq<Entry>, b: seq<Entry>, i: nat)
    requires Rearranged(a, b) && i < |a|
    ensures var k := NormalizeString(a[i].key); SameCanon(LastSurvivor(lib, a, k), LastSurvivor(lib, b, k))
    decreases a, 0
  {
    assert HasMatch(a[i], b);
    var j :| 0 <= j < |b| && Matches(a[i], b[j]);
    RearrangedValueAlike(lib, a[i].value, b[j].value);
    SurvivesAlike(lib, a, i, b, j);
  }

  /** Rearranged dicts serialise alike, at any depth. */
  lemma {:induction false} RearrangedAlike(lib: Library, a: seq<Entry>, b: seq<Entry>)
    requires Rearranged(a, b)
    ensures CanonEntries(NormalizeEntries(lib, a)) == CanonEntries(NormalizeEntries(lib, b))
    decreases a, 1
  {
    forall k ensures SameValue(LastSurvivor(lib, a, k), LastSurvivor(lib, b, k)) {
      SameCanonExactly(LastSurvivor(lib, a, k), LastSurvivor(lib, b, k));
      if HasKey(k, a) {
        var i :| 0 <= i < |a| && NormalizeString(a[i].key) == k;
        SameUnderKey(lib, a, b, i);
      } else {
        NoSurvivor(lib, a, k);
        NoSurvivor(lib, b, k);
      }
    }
    SerialisedAlike(lib, a, b);
  }

  lemma DictsAlike(a: seq<Entry>, b: seq<Entry>)
    requires CanonEntries(a) == CanonEntries(b)
    ensures SameCanon(NonEmptyDict(a), NonEmptyDict(b))
  {
    EmptyCanon(a);
    EmptyCanon(b);
  }

  lemma {:induction false} RearrangedValueAlike(lib: Library, v: Value, w: Value)
    requires RearrangedValue(v, w)
    ensures SameCanon(NormalizeValue(lib, v), NormalizeValue(lib, w))
    decreases v, 2
  {
    if v == w {
    } else if RearrangedDict(v, w) {
      RearrangedAlike(lib, v.entries, w.entries);
      DictsAlike(NormalizeEntries(lib, v.entries), NormalizeEntries(lib, w.entries));
    } else {
      RearrangedItemsAlike(lib, v.items, w.items);
    }
  }

  ghost predicate SameItems(xs: seq<Value>, ys: seq<Value>) {
    |xs| == |ys| && forall i :: 0 <= i < |xs| ==> CanonOf(xs[i]) == CanonOf(ys[i])
  }

  lemma {:induction false} RearrangedItemsAlike(lib: Library, xs: seq<Value>, ys: seq<Value>)
    requires RearrangedItems(xs, ys)
    ensures SameItems(NormalizeItems(lib, xs), NormalizeItems(lib, ys))
    decreases xs, 0
  {
    if xs != [] {
      var n := |xs| - 1;
      RearrangedItemsAlike(lib, xs[..n], ys[..n]);
      if xs[n] != ys[n] {
        RearrangedAlike(lib, xs[n].entries, ys[n].entries);
        DictsAlike(NormalizeEntries(lib, xs[n].entries), NormalizeEntries(lib, ys[n].entries));
      }
    }
  }
}
