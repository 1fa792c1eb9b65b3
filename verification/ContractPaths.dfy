/** What a flattened path means when keys are non-empty and free of dots. */
module ContractPaths {
  import opened Wrappers
  import opened ContractShape

  type Path = seq<string>

  ghost predicate PlainKey(k: string) {
    k != "" && '.' !in k
  }

  ghost predicate DistinctFields(fields: seq<Field>) {
    forall i, j :: 0 <= i < j < |fields| ==> fields[i].key != fields[j].key
  }

  /** A dict, as Python has it, all of whose keys, at every depth, are plain. */
  ghost predicate PlainDict(fields: seq<Field>)
    decreases fields
  {
    && DistinctFields(fields)
    && forall i :: 0 <= i < |fields| ==>
      PlainKey(fields[i].key) && (fields[i].value.Dict? ==> PlainDict(fields[i].value.fields))
  }

  /** The value reached by following keys through nested dicts. */
  function Reach(fields: seq<Field>, p: Path): Option<Json>
    decreases p
  {
    if p == [] || !Has(fields, p[0]) then None
    else
      var v := Get(fields, p[0]);
      if |p| == 1 then Some(v)
      else if v.Dict? then Reach(v.fields, p[1..])
      else None
  }

  function Dotted(prefix: string, p: Path): string
    requires p != []
    decreases p
  {
    if |p| == 1 then PathOf(prefix, p[0]) else Dotted(PathOf(prefix, p[0]), p[1..])
  }

  ghost predicate PlainPath(p: Path) {
    p != [] && forall i :: 0 <= i < |p| ==> PlainKey(p[i])
  }

  // ----- dotted paths are unambiguous

  /** Everything after the prefix: the keys joined by dots. */
  function Tail(p: Path): string {
    if p == [] then "" else "." + p[0] + Tail(p[1..])
  }

  lemma {:induction false} DottedIsTail(prefix: string, p: Path)
    requires PlainPath(p)
    ensures prefix != "" ==> Dotted(prefix, p) == prefix + Tail(p)
    ensures prefix == "" ==> Dotted(prefix, p) == p[0] + Tail(p[1..])
    decreases p
  {
    assert PlainKey(p[0]);
    if |p| > 1 {
      forall i | 0 <= i < |p[1..]| ensures PlainKey(p[1..][i]) { assert PlainKey(p[i + 1]); }
      DottedIsTail(PathOf(prefix, p[0]), p[1..]);
      if prefix != "" {
        assert prefix + "." + p[0] + Tail(p[1..]) == prefix + ("." + p[0] + Tail(p[1..]));
      }
    } else {
      assert p[1..] == [];
    }
  }

  function FirstDot(s: string): (n: nat)
    ensures n <= |s|
  {
    if s == "" || s[0] == '.' then 0 else 1 + FirstDot(s[1..])
  }

  lemma {:induction false} FirstDotEndsKey(a: string, s: string)
    requires '.' !in a && (s == "" || s[0] == '.')
    ensures FirstDot(a + s) == |a|
  {
    if a != "" {
      assert (a + s)[1..] == a[1..] + s;
      FirstDotEndsKey(a[1..], s);
    } else {
      assert a + s == s;
    }
  }

  /** A plain key followed by nothing or a dot can be read back. */
  lemma FirstKeyUnique(a: string, s: string, b: string, t: string)
    requires '.' !in a && '.' !in b && (s == "" || s[0] == '.') && (t == "" || t[0] == '.')
    requires a + s == b + t
    ensures a == b && s == t
  {
    FirstDotEndsKey(a, s);
    FirstDotEndsKey(b, t);
    assert a == (a + s)[..|a|] && b == (b + t)[..|b|];
    assert s == (a + s)[|a|..] && t == (b + t)[|b|..];
  }

  lemma {:induction false} TailUnique(p: Path, q: Path)
    requires (forall i :: 0 <= i < |p| ==> PlainKey(p[i])) && (forall i :: 0 <= i < |q| ==> PlainKey(q[i]))
    requires Tail(p) == Tail(q)
    ensures p == q
  {
    if p != [] && q != [] {
      assert PlainKey(p[0]) && PlainKey(q[0]);
      assert Tail(p)[1..] == p[0] + Tail(p[1..]) && Tail(q)[1..] == q[0] + Tail(q[1..]);
      FirstKeyUnique(p[0], Tail(p[1..]), q[0], Tail(q[1..]));
      forall i | 0 <= i < |p[1..]| ensures PlainKey(p[1..][i]) { assert PlainKey(p[i + 1]); }
      forall i | 0 <= i < |q[1..]| ensures PlainKey(q[1..][i]) { assert PlainKey(q[i + 1]); }
      TailUnique(p[1..], q[1..]);
      assert p == [p[0]] + p[1..] && q == [q[0]] + q[1..];
    }
  }

  lemma DottedUnique(prefix: string, p: Path, q: Path)
    requires PlainPath(p) && PlainPath(q) && Dotted(prefix, p) == Dotted(prefix, q)
    ensures p == q
  {
    DottedIsTail(prefix, p);
    DottedIsTail(prefix, q);
    if prefix != "" {
      SamePrefix(prefix, Tail(p), Tail(q));
    } else {
      TailAfterDot(p);
      TailAfterDot(q);
    }
    TailUnique(p, q);
  }

  lemma TailAfterDot(p: Path)
    requires p != []
    ensures Tail(p) == "." + (p[0] + Tail(p[1..]))
  {
  }

  lemma SamePrefix(prefix: string, s: string, t: string)
    requires prefix + s == prefix + t
    ensures s == t
  {
    assert (prefix + s)[|prefix|..] == s && (prefix + t)[|prefix|..] == t;
  }

  // ----- flattening and reaching agree

  lemma {:induction false} IndexOfSnoc(fields: seq<Field>, k: string)
    requires fields != []
    ensures var rest := fields[..|fields| - 1];
            IndexOf(fields, k) ==
              if Has(rest, k) then IndexOf(rest, k)
              else if fields[|fields| - 1].key == k then |fields| - 1
              else |fields|
  {
    var rest := fields[..|fields| - 1];
    if |fields| > 1 && fields[0].key != k {
      assert rest[1..] == fields[1..][..|fields| - 2];
      IndexOfSnoc(fields[1..], k);
    }
  }

  lemma LastKeyIsNew(fields: seq<Field>)
    requires DistinctFields(fields) && fields != []
    ensures !Has(fields[..|fields| - 1], fields[|fields| - 1].key)
  {
  }

  /** Reaching through all fields is reaching through the last one or through the others. */
  lemma ReachLastOrRest(fields: seq<Field>, p: Path)
    requires DistinctFields(fields) && fields != [] && p != []
    ensures var rest, last := fields[..|fields| - 1], fields[|fields| - 1];
            Reach(fields, p) ==
              if p[0] != last.key then Reach(rest, p)
              else if |p| == 1 then Some(last.value)
              else if last.value.Dict? then Reach(last.value.fields, p[1..])
              else None
  {
    IndexOfSnoc(fields, p[0]);
    LastKeyIsNew(fields);
  }

  lemma {:induction false} ReachIsPlain(fields: seq<Field>, p: Path)
    requires PlainDict(fields) && Reach(fields, p).Some?
    ensures PlainPath(p)
    decreases p
  {
    assert PlainKey(fields[IndexOf(fields, p[0])].key);
    if |p| > 1 {
      ReachIsPlain(Get(fields, p[0]).fields, p[1..]);
      assert p == [p[0]] + p[1..];
      forall i | 0 <= i < |p| ensures PlainKey(p[i]) { if i > 0 { assert p[i] == p[1..][i - 1]; } }
    }
  }

  ghost predicate ReachedBy(fields: seq<Field>, prefix: string, d: string, p: Path) {
    p != [] && Reach(fields, p).Some? && Dotted(prefix, p) == d
  }

  /** A flattened key spells out a path that reaches the value stored under it. */
  lemma {:induction false} FlattenedIsReached(fields: seq<Field>, prefix: string, d: string) returns (p: Path)
    requires PlainDict(fields) && d in FlattenKeys(fields, prefix)
    ensures ReachedBy(fields, prefix, d, p) && Reach(fields, p) == Some(FlattenKeys(fields, prefix)[d])
    decreases fields
  {
    var rest, last := fields[..|fields| - 1], fields[|fields| - 1];
    var out := FlattenKeys(rest, prefix);
    var q := PathOf(prefix, last.key);
    if last.value.Dict? && d in FlattenKeys(last.value.fields, q) {
      var t := FlattenedIsReached(last.value.fields, q, d);
      p := [last.key] + t;
      assert p[1..] == t;
      ReachLastOrRest(fields, p);
    } else if d == q {
      p := [last.key];
      ReachLastOrRest(fields, p);
    } else {
      p := FlattenedIsReached(rest, prefix, d);
      LastKeyIsNew(fields);
      ReachLastOrRest(fields, p);
    }
  }

  /** Every value that can be reached is stored under its dotted path. */
  lemma {:induction false} ReachedIsFlattened(fields: seq<Field>, prefix: string, p: Path)
    requires PlainDict(fields) && p != [] && Reach(fields, p).Some?
    ensures Dotted(prefix, p) in FlattenKeys(fields, prefix)
    ensures FlattenKeys(fields, prefix)[Dotted(prefix, p)] == Reach(fields, p).value
    decreases fields
  {
    StoredSomewhere(fields, prefix, p);
    var d := Dotted(prefix, p);
    var q := FlattenedIsReached(fields, prefix, d);
    ReachIsPlain(fields, p);
    ReachIsPlain(fields, q);
    DottedUnique(prefix, p, q);
  }

  lemma {:induction false} StoredSomewhere(fields: seq<Field>, prefix: string, p: Path)
    requires PlainDict(fields) && p != [] && Reach(fields, p).Some?
    ensures Dotted(prefix, p) in FlattenKeys(fields, prefix)
    decreases fields
  {
    var rest, last := fields[..|fields| - 1], fields[|fields| - 1];
    ReachLastOrRest(fields, p);
    if p[0] != last.key {
      StoredSomewhere(rest, prefix, p);
    } else if |p| > 1 {
      StoredSomewhere(last.value.fields, PathOf(prefix, last.key), p[1..]);
    }
  }

  // ----- shapes along a path

  /** Equal shapes reach the same paths, with equal shapes there. */
  lemma {:induction false} SameShapeReachesSame(a: seq<Field>, b: seq<Field>, p: Path)
    requires ShapeOf(Dict(a)) == ShapeOf(Dict(b)) && Reach(a, p).Some?
    ensures Reach(b, p).Some? && ShapeOf(Reach(a, p).value) == ShapeOf(Reach(b, p).value)
    decreases p
  {
    SameShapeSameKeys(a, b, p[0]);
    if |p| > 1 {
      var va, vb := Get(a, p[0]), Get(b, p[0]);
      assert va.Dict? && vb.Dict?;
      SameShapeReachesSame(va.fields, vb.fields, p[1..]);
    }
  }

  lemma SameShapeSameKeys(a: seq<Field>, b: seq<Field>, k: string)
    requires ShapeOf(Dict(a)) == ShapeOf(Dict(b)) && Has(a, k)
    ensures Has(b, k) && ShapeOf(Get(a, k)) == ShapeOf(Get(b, k))
  {
    var sa, sb := ShapeOf(Dict(a)).fields, ShapeOf(Dict(b)).fields;
    assert k in sa;
    assert sa[k] == sb[k];
  }

  lemma {:induction false} ReachFurther(fields: seq<Field>, p: Path, q: Path)
    requires p != [] && q != [] && Reach(fields, p).Some? && Reach(fields, p).value.Dict?
    ensures Reach(fields, p + q) == Reach(Reach(fields, p).value.fields, q)
    decreases p
  {
    assert (p + q)[1..] == p[1..] + q;
    if |p| > 1 {
      ReachFurther(Get(fields, p[0]).fields, p[1..], q);
    } else {
      assert p[1..] + q == q;
    }
  }

  lemma {:induction false} ReachPrefix(fields: seq<Field>, p: Path, q: Path)
    requires p != [] && q != [] && Reach(fields, p + q).Some?
    ensures Reach(fields, p).Some? && Reach(fields, p).value.Dict?
    decreases p
  {
    assert (p + q)[1..] == p[1..] + q;
    if |p| > 1 {
      ReachPrefix(Get(fields, p[0]).fields, p[1..], q);
    }
  }

  /** A difference of shape anywhere below a shared dict shows as a difference at that dict. */
  lemma DifferenceShowsAbove(a: seq<Field>, b: seq<Field>, p: Path, q: Path)
    requires p != [] && q != [] && Reach(a, p + q).Some? && Reach(b, p).Some?
    requires Reach(b, p + q).Some? ==> ShapeOf(Reach(a, p + q).value) != ShapeOf(Reach(b, p + q).value)
    ensures Reach(a, p).Some? && ShapeOf(Reach(a, p).value) != ShapeOf(Reach(b, p).value)
  {
    ReachPrefix(a, p, q);
    ReachFurther(a, p, q);
    var va, vb := Reach(a, p).value, Reach(b, p).value;
    if ShapeOf(va) == ShapeOf(vb) {
      assert vb.Dict?;
      ReachFurther(b, p, q);
      SameShapeReachesSame(va.fields, vb.fields, q);
    }
  }

  /** The same for a path that is cut at any ancestor the two payloads share. */
  lemma DifferenceShowsAtAncestor(a: seq<Field>, b: seq<Field>, p: Path, n: nat)
    requires 0 < n < |p| && Reach(a, p[..n]).Some? && Reach(b, p[..n]).Some? && Reach(a, p).Some?
    requires Reach(b, p).Some? ==> ShapeOf(Reach(a, p).value) != ShapeOf(Reach(b, p).value)
    ensures ShapeOf(Reach(a, p[..n]).value) != ShapeOf(Reach(b, p[..n]).value)
  {
    assert p == p[..n] + p[n..];
    DifferenceShowsAbove(a, b, p[..n], p[n..]);
  }

  // ----- additive change, read off the top level

  ghost predicate ExtendsTopLevel(a: seq<Field>, b: seq<Field>) {
    && (forall k :: Has(a, k) ==> Has(b, k) && ShapeOf(Get(a, k)) == ShapeOf(Get(b, k)))
    && exists k :: Has(b, k) && !Has(a, k)
  }

  /** On plain payloads a change is additive exactly when whole top-level fields are added and
      every old one keeps its shape: a field added deeper down already counts as breaking. */
  lemma AdditiveIsTopLevelExtension(a: seq<Field>, b: seq<Field>)
    requires PlainDict(a) && PlainDict(b)
    ensures IsAdditiveFieldChange(a, b) <==> ExtendsTopLevel(a, b)
  {
    if IsAdditiveFieldChange(a, b) { AdditiveExtends(a, b); }
    if ExtendsTopLevel(a, b) { ExtendsIsAdditive(a, b); }
  }

  lemma TopLevelStored(a: seq<Field>, k: string)
    requires PlainDict(a)
    ensures Has(a, k) ==> k in FlattenKeys(a, "") && FlattenKeys(a, "")[k] == Get(a, k)
    ensures PlainKey(k) && k in FlattenKeys(a, "") ==> Has(a, k)
  {
    if Has(a, k) { ReachedIsFlattened(a, "", [k]); }
    if PlainKey(k) && k in FlattenKeys(a, "") {
      var p := FlattenedIsReached(a, "", k);
      ReachIsPlain(a, p);
      DottedUnique("", p, [k]);
    }
  }

  lemma AdditiveExtends(a: seq<Field>, b: seq<Field>)
    requires PlainDict(a) && PlainDict(b) && IsAdditiveFieldChange(a, b)
    ensures ExtendsTopLevel(a, b)
  {
    var fa, fb := FlattenKeys(a, ""), FlattenKeys(b, "");
    forall k | Has(a, k) ensures Has(b, k) && ShapeOf(Get(a, k)) == ShapeOf(Get(b, k)) {
      assert PlainKey(a[IndexOf(a, k)].key);
      TopLevelStored(a, k);
      TopLevelStored(b, k);
      BreakingIsShapeChange(fa[k], fb[k]);
    }
    var d :| d in fb && d !in fa;
    var p := FlattenedIsReached(b, "", d);
    SharedTopReaches(a, b, p);
    if Reach(a, p).Some? { ReachedIsFlattened(a, "", p); }
  }

  lemma SharedTopReaches(a: seq<Field>, b: seq<Field>, p: Path)
    requires forall k :: Has(a, k) ==> Has(b, k) && ShapeOf(Get(a, k)) == ShapeOf(Get(b, k))
    requires p != [] && Reach(b, p).Some?
    ensures Has(a, p[0]) ==> Reach(a, p).Some?
  {
    if Has(a, p[0]) && |p| > 1 {
      SameShapeReachesSame(Get(b, p[0]).fields, Get(a, p[0]).fields, p[1..]);
    }
  }

  lemma OldPathKept(a: seq<Field>, b: seq<Field>, d: string)
    requires PlainDict(a) && PlainDict(b) && d in FlattenKeys(a, "")
    requires forall k :: Has(a, k) ==> Has(b, k) && ShapeOf(Get(a, k)) == ShapeOf(Get(b, k))
    ensures d in FlattenKeys(b, "") && !IsBreakingFieldChange(FlattenKeys(a, "")[d], FlattenKeys(b, "")[d])
  {
    var p := FlattenedIsReached(a, "", d);
    if |p| > 1 { SameShapeReachesSame(Get(a, p[0]).fields, Get(b, p[0]).fields, p[1..]); }
    ReachedIsFlattened(b, "", p);
    BreakingIsShapeChange(FlattenKeys(a, "")[d], FlattenKeys(b, "")[d]);
  }

  lemma ExtendsIsAdditive(a: seq<Field>, b: seq<Field>)
    requires PlainDict(a) && PlainDict(b) && ExtendsTopLevel(a, b)
    ensures IsAdditiveFieldChange(a, b)
  {
    var fa, fb := FlattenKeys(a, ""), FlattenKeys(b, "");
    forall d | d in fa ensures d in fb && !IsBreakingFieldChange(fa[d], fb[d]) {
      OldPathKept(a, b, d);
    }
    var k :| Has(b, k) && !Has(a, k);
    assert PlainKey(b[IndexOf(b, k)].key);
    TopLevelStored(a, k);
    TopLevelStored(b, k);
  }
}
