/** JSON payloads, the notion of a breaking value change, and dot-path flattening. */
module ContractShape {

  datatype Json =
    | Null
    | Bool(b: bool)
    | Int(i: int)
    | Float(r: real)
    | Str(s: string)
    | List(items: seq<Json>)
    | Dict(fields: seq<Field>)

  datatype Field = Field(key: string, value: Json)

  // ----- lookups

  /** The position of a key, or the length of the list. */
  function IndexOf(fields: seq<Field>, k: string): (n: nat)
    ensures n <= |fields|
    ensures n < |fields| ==> fields[n].key == k
    ensures forall i :: 0 <= i < n ==> fields[i].key != k
  {
    if fields == [] || fields[0].key == k then 0 else 1 + IndexOf(fields[1..], k)
  }

  predicate Has(fields: seq<Field>, k: string) {
    IndexOf(fields, k) < |fields|
  }

  function Get(fields: seq<Field>, k: string): Json
    requires Has(fields, k)
  {
    fields[IndexOf(fields, k)].value
  }

  function Keys(fields: seq<Field>): set<string> {
    set f | f in fields :: f.key
  }

  // ----- breaking value changes

  function TypeTag(v: Json): nat {
    match v
    case Null => 0
    case Bool(_) => 1
    case Int(_) => 2
    case Float(_) => 3
    case Str(_) => 4
    case List(_) => 5
    case Dict(_) => 6
  }

  predicate IsNumber(v: Json) {
    v.Int? || v.Float?
  }

  predicate IsBreakingFieldChange(old_: Json, new_: Json)
    decreases old_
  {
    if TypeTag(old_) != TypeTag(new_) then
      if old_.Bool? || new_.Bool? then old_.Bool? != new_.Bool?
      else !(IsNumber(old_) && IsNumber(new_))
    else if old_.Dict? && new_.Dict? then
      Keys(old_.fields) != Keys(new_.fields)
      || exists k :: k in Keys(old_.fields) && Has(old_.fields, k) && Has(new_.fields, k)
           && IsBreakingFieldChange(old_.fields[IndexOf(old_.fields, k)].value,
                                    new_.fields[IndexOf(new_.fields, k)].value)
    else false
  }

  /** The representation a strict consumer depends on. */
  datatype Shape = NullShape | BoolShape | NumberShape | TextShape | ListShape | DictShape(fields: map<string, Shape>)

  ghost function ShapeOf(v: Json): Shape {
    match v
    case Null => NullShape
    case Bool(_) => BoolShape
    case Int(_) => NumberShape
    case Float(_) => NumberShape
    case Str(_) => TextShape
    case List(_) => ListShape
    case Dict(fields) =>
      DictShape(map k | k in Keys(fields) && Has(fields, k) :: ShapeOf(fields[IndexOf(fields, k)].value))
  }

  lemma KeysAreHad(fields: seq<Field>, k: string)
    ensures k in Keys(fields) <==> Has(fields, k)
  {
    if Has(fields, k) { assert fields[IndexOf(fields, k)] in fields; }
    if k in Keys(fields) {
      var f :| f in fields && f.key == k;
      var i :| 0 <= i < |fields| && fields[i] == f;
    }
  }

  lemma ShapeOfDict(fields: seq<Field>)
    ensures ShapeOf(Dict(fields)).fields.Keys == Keys(fields)
    ensures forall k :: k in Keys(fields) ==>
              Has(fields, k) && ShapeOf(Dict(fields)).fields[k] == ShapeOf(Get(fields, k))
  {
    forall k ensures k in Keys(fields) <==> Has(fields, k) { KeysAreHad(fields, k); }
  }

  ghost predicate BreaksAt(a: seq<Field>, b: seq<Field>, k: string) {
    Has(a, k) && Has(b, k) && IsBreakingFieldChange(Get(a, k), Get(b, k))
  }

  lemma BreakingDict(a: seq<Field>, b: seq<Field>)
    ensures IsBreakingFieldChange(Dict(a), Dict(b)) <==>
              Keys(a) != Keys(b) || exists k :: k in Keys(a) && BreaksAt(a, b, k)
  {
    if k :| k in Keys(a) && BreaksAt(a, b, k) {
      assert IsBreakingFieldChange(a[IndexOf(a, k)].value, b[IndexOf(b, k)].value);
    }
    if Keys(a) == Keys(b) && IsBreakingFieldChange(Dict(a), Dict(b)) {
      var k :| k in Keys(a) && Has(a, k) && Has(b, k)
               && IsBreakingFieldChange(a[IndexOf(a, k)].value, b[IndexOf(b, k)].value);
      assert BreaksAt(a, b, k);
    }
  }

  lemma MapsDiffer(a: map<string, Shape>, b: map<string, Shape>)
    ensures a != b <==> a.Keys != b.Keys || exists k :: k in a && k in b && a[k] != b[k]
  {
    if a.Keys == b.Keys && forall k :: k in a && k in b ==> a[k] == b[k] { assert a == b; }
  }

  lemma ShapesDiffer(a: seq<Field>, b: seq<Field>)
    ensures ShapeOf(Dict(a)) != ShapeOf(Dict(b)) <==>
              || Keys(a) != Keys(b)
              || exists k ::
                k in Keys(a) && k in Keys(b) && Has(a, k) && Has(b, k) && ShapeOf(Get(a, k)) != ShapeOf(Get(b, k))
  {
    ShapeOfDict(a);
    ShapeOfDict(b);
    MapsDiffer(ShapeOf(Dict(a)).fields, ShapeOf(Dict(b)).fields);
  }

  lemma DictsDiffer(a: seq<Field>, b: seq<Field>)
    requires forall k :: Has(a, k) && Has(b, k) ==> (BreaksAt(a, b, k) <==> ShapeOf(Get(a, k)) != ShapeOf(Get(b, k)))
    ensures IsBreakingFieldChange(Dict(a), Dict(b)) <==> ShapeOf(Dict(a)) != ShapeOf(Dict(b))
  {
    BreakingDict(a, b);
    ShapesDiffer(a, b);
  }

  /** A change breaks exactly when it changes the shape. */
  lemma {:induction false} BreakingIsShapeChange(a: Json, b: Json)
    ensures IsBreakingFieldChange(a, b) <==> ShapeOf(a) != ShapeOf(b)
    decreases a
  {
    if a.Dict? && b.Dict? {
      var fa, fb := a.fields, b.fields;
      forall k | Has(fa, k) && Has(fb, k)
        ensures BreaksAt(fa, fb, k) <==> ShapeOf(Get(fa, k)) != ShapeOf(Get(fb, k))
      {
        BreakingIsShapeChange(fa[IndexOf(fa, k)].value, fb[IndexOf(fb, k)].value);
      }
      DictsDiffer(fa, fb);
    }
  }

  /** "Not a breaking change" is an equivalence on all nested values. */
  lemma {:induction false} CompatibleIsEquivalence(a: Json, b: Json, c: Json)
    ensures !IsBreakingFieldChange(a, a)
    ensures IsBreakingFieldChange(a, b) <==> IsBreakingFieldChange(b, a)
    ensures !IsBreakingFieldChange(a, b) && !IsBreakingFieldChange(b, c) ==> !IsBreakingFieldChange(a, c)
  {
    BreakingIsShapeChange(a, a);
    BreakingIsShapeChange(a, b);
    BreakingIsShapeChange(b, a);
    BreakingIsShapeChange(b, c);
    BreakingIsShapeChange(a, c);
  }

  // ----- flattening

  function PathOf(prefix: string, k: string): string {
    if prefix != "" then prefix + "." + k else k
  }

  /** Later fields overwrite earlier ones that flatten to the same path. */
  function FlattenKeys(fields: seq<Field>, prefix: string): map<string, Json>
    decreases fields
  {
    if fields == [] then map[]
    else
      var out := FlattenKeys(fields[..|fields| - 1], prefix);
      var Field(k, v) := fields[|fields| - 1];
      var p := PathOf(prefix, k);
      if v.Dict? then out[p := v] + FlattenKeys(v.fields, p) else out[p := v]
  }

  method Flatten(fields: seq<Field>, prefix: string) returns (out: map<string, Json>)
    ensures out == FlattenKeys(fields, prefix)
    decreases fields
  {
    out := map[];
    for i := 0 to |fields|
      invariant out == FlattenKeys(fields[..i], prefix)
    {
      assert fields[..i + 1][..i] == fields[..i];
      var Field(k, v) := fields[i];
      var p := if prefix != "" then prefix + "." + k else k;
      if v.Dict? {
        out := out[p := v];
        var nested := Flatten(v.fields, p);
        out := out + nested;
      } else {
        out := out[p := v];
      }
    }
    assert fields[..|fields|] == fields;
  }

  // ----- the additive relation

  ghost predicate IsAdditiveFlat(old_: map<string, Json>, new_: map<string, Json>) {
    && (forall k :: k in old_ ==> k in new_ && !IsBreakingFieldChange(old_[k], new_[k]))
    && exists k :: k in new_ && k !in old_
  }

  ghost predicate IsAdditiveFieldChange(oldPayload: seq<Field>, newPayload: seq<Field>) {
    IsAdditiveFlat(FlattenKeys(oldPayload, ""), FlattenKeys(newPayload, ""))
  }

  /** Additive change is a strict partial order on all payloads. */
  lemma AdditiveIsStrictOrder(a: seq<Field>, b: seq<Field>, c: seq<Field>)
    ensures !IsAdditiveFieldChange(a, a)
    ensures IsAdditiveFieldChange(a, b) ==> !IsAdditiveFieldChange(b, a)
    ensures IsAdditiveFieldChange(a, b) && IsAdditiveFieldChange(b, c) ==> IsAdditiveFieldChange(a, c)
  {
    var fa, fb, fc := FlattenKeys(a, ""), FlattenKeys(b, ""), FlattenKeys(c, "");
    if IsAdditiveFlat(fa, fb) && IsAdditiveFlat(fb, fc) {
      forall k | k in fa ensures k in fc && !IsBreakingFieldChange(fa[k], fc[k]) {
        CompatibleIsEquivalence(fa[k], fb[k], fc[k]);
      }
      var k :| k in fb && k !in fa;
      assert k in fc && k !in fa;
    }
  }
}
