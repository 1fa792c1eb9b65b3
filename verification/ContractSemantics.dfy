/** When two metadata values are equal, which lifecycle changes are reported, and whose removal breaks. */
module ContractSemantics {
  import opened Wrappers
  import opened ContractShape
  import opened ContractEvolution
  import opened ContractTheorems

  // ----- Python equality is equality of canonical forms

  /** A value as `==` sees it: numbers and booleans by value, dicts without an order. */
  datatype Canonical =
    | Nothing
    | Numeric(value: real)
    | Text(text: string)
    | Items(items: seq<Canonical>)
    | Mapping(fields: map<string, Canonical>)

  ghost function CanonicalOf(v: Json): Canonical {
    match v
    case Null => Nothing
    case Bool(b) => Numeric(if b then 1.0 else 0.0)
    case Int(i) => Numeric(i as real)
    case Float(r) => Numeric(r)
    case Str(s) => Text(s)
    case List(items) => Items(seq(|items|, i requires 0 <= i < |items| => CanonicalOf(items[i])))
    case Dict(fields) =>
      Mapping(map k | k in Keys(fields) && Has(fields, k) :: CanonicalOf(fields[IndexOf(fields, k)].value))
  }

  ghost predicate EqualAt(a: seq<Field>, b: seq<Field>, k: string) {
    Has(a, k) && Has(b, k) ==> PyEqual(Get(a, k), Get(b, k))
  }

  lemma MappingOf(fields: seq<Field>)
    ensures CanonicalOf(Dict(fields)).fields.Keys == Keys(fields)
    ensures forall k :: k in Keys(fields) ==>
              Has(fields, k) && CanonicalOf(Dict(fields)).fields[k] == CanonicalOf(Get(fields, k))
  {
    forall k ensures k in Keys(fields) <==> Has(fields, k) { KeysAreHad(fields, k); }
  }

  lemma EqualDicts(a: seq<Field>, b: seq<Field>)
    ensures PyEqual(Dict(a), Dict(b)) <==> Keys(a) == Keys(b) && forall k :: k in Keys(a) ==> EqualAt(a, b, k)
  {
    if PyEqual(Dict(a), Dict(b)) {
      forall k | k in Keys(a) ensures EqualAt(a, b, k) {}
    }
    if Keys(a) == Keys(b) && forall k :: k in Keys(a) ==> EqualAt(a, b, k) {
      forall k | k in Keys(a) && Has(a, k) && Has(b, k)
        ensures PyEqual(a[IndexOf(a, k)].value, b[IndexOf(b, k)].value) {
        assert EqualAt(a, b, k);
      }
    }
  }

  lemma SameMappings(a: seq<Field>, b: seq<Field>)
    requires forall k :: Has(a, k) && Has(b, k) ==>
               (PyEqual(Get(a, k), Get(b, k)) <==> CanonicalOf(Get(a, k)) == CanonicalOf(Get(b, k)))
    ensures PyEqual(Dict(a), Dict(b)) <==> CanonicalOf(Dict(a)) == CanonicalOf(Dict(b))
  {
    EqualDicts(a, b);
    MappingOf(a);
    MappingOf(b);
    var ca, cb := CanonicalOf(Dict(a)).fields, CanonicalOf(Dict(b)).fields;
    if Keys(a) == Keys(b) {
      forall k | k in Keys(a) ensures EqualAt(a, b, k) <==> ca[k] == cb[k] {}
      if forall k :: k in Keys(a) ==> EqualAt(a, b, k) { assert ca == cb; }
    }
  }

  lemma SameItems(a: seq<Json>, b: seq<Json>)
    requires |a| == |b| ==>
               forall i :: 0 <= i < |a| ==> (PyEqual(a[i], b[i]) <==> CanonicalOf(a[i]) == CanonicalOf(b[i]))
    ensures PyEqual(List(a), List(b)) <==> CanonicalOf(List(a)) == CanonicalOf(List(b))
  {
    var ca, cb := CanonicalOf(List(a)).items, CanonicalOf(List(b)).items;
    if |a| == |b| {
      forall i | 0 <= i < |a| ensures PyEqual(a[i], b[i]) <==> ca[i] == cb[i] {}
      if forall i :: 0 <= i < |a| ==> PyEqual(a[i], b[i]) { assert ca == cb; }
    }
  }

  /** Two values are equal exactly when their canonical forms are, at any depth. */
  lemma {:induction false} PyEqualIsCanonical(a: Json, b: Json)
    ensures PyEqual(a, b) <==> CanonicalOf(a) == CanonicalOf(b)
    decreases a
  {
    if a.List? && b.List? {
      if |a.items| == |b.items| {
        forall i | 0 <= i < |a.items|
          ensures PyEqual(a.items[i], b.items[i]) <==> CanonicalOf(a.items[i]) == CanonicalOf(b.items[i]) {
          PyEqualIsCanonical(a.items[i], b.items[i]);
        }
      }
      SameItems(a.items, b.items);
    } else if a.Dict? && b.Dict? {
      var fa, fb := a.fields, b.fields;
      forall k | Has(fa, k) && Has(fb, k)
        ensures PyEqual(Get(fa, k), Get(fb, k)) <==> CanonicalOf(Get(fa, k)) == CanonicalOf(Get(fb, k))
      {
        PyEqualIsCanonical(fa[IndexOf(fa, k)].value, fb[IndexOf(fb, k)].value);
      }
      SameMappings(fa, fb);
    }
  }

  // ----- lifecycle drift

  /** The value under a key as `==` sees it; an absent key is like `None`. */
  ghost function ValueUnder(fields: seq<Field>, key: string): Canonical {
    if Has(fields, key) then CanonicalOf(Get(fields, key)) else Nothing
  }

  ghost predicate LifecycleReported(out: seq<Change>, key: string, changeType: ChangeType, level: Compatibility) {
    Change(LifecycleSemantic(key), changeType, level) in out
  }

  predicate LifecycleSeverity(key: string, changeType: ChangeType, level: Compatibility) {
    || (key in {"lifecycle_default_event", "default_event_type"} && changeType == Breaking && level == BreakingLevel)
    || (key == "PARSER_LIFECYCLE_DEFAULT_EVENT" && changeType == Behavioral && level == ConditionallyCompatible)
  }

  /** A lifecycle key is reported exactly on the three surfaces when its value changes, as breaking for the
      two default event keys and as behavioural for the third; nothing else is reported as lifecycle drift. */
  lemma LifecycleReportedExactly(s: Surface, shadow: Shadow, baseline: seq<Field>, current: seq<Field>,
                                 out: seq<Change>, key: string, changeType: ChangeType, level: Compatibility)
    requires IsClassification(s, shadow, baseline, current, out)
    ensures LifecycleReported(out, key, changeType, level) <==>
              && s in {CrmPayload, LifecycleEvent, ReplayMetadata}
              && ValueUnder(baseline, key) != ValueUnder(current, key)
              && LifecycleSeverity(key, changeType, level)
  {
    PyEqualIsCanonical(GetOrNull(baseline, key), GetOrNull(current, key));
    var c := Change(LifecycleSemantic(key), changeType, level);
    if InDiff(s, baseline, current, c) { OthersSurvive(s, shadow, baseline, current, out, c); }
    var diff, collapsed := StagesOf(s, shadow, baseline, current, out);
    if c in out { assert InDiff(s, baseline, current, c) || IsBridge(shadow, diff, c); }
  }

  /** So a default event that becomes another text is a breaking change. */
  lemma NewDefaultEventBreaks(s: Surface, shadow: Shadow, baseline: seq<Field>, current: seq<Field>,
                              out: seq<Change>, before: string, after: string)
    requires IsClassification(s, shadow, baseline, current, out) && s in {CrmPayload, LifecycleEvent, ReplayMetadata}
    requires Has(baseline, "lifecycle_default_event") && Get(baseline, "lifecycle_default_event") == Str(before)
    requires Has(current, "lifecycle_default_event") && Get(current, "lifecycle_default_event") == Str(after)
    requires before != after
    ensures LifecycleReported(out, "lifecycle_default_event", Breaking, BreakingLevel)
  {
    LifecycleReportedExactly(s, shadow, baseline, current, out, "lifecycle_default_event", Breaking, BreakingLevel);
  }

  // ----- whose removal breaks

  lemma {:induction false} SegmentAfterDot(prefix: string, name: string)
    requires '.' !in name
    ensures LastSegment(prefix + "." + name) == name
  {
    if name == "" {
      assert prefix + "." + name == prefix + ".";
    } else {
      assert (prefix + "." + name)[..|prefix + "." + name| - 1] == prefix + "." + name[..|name| - 1];
      SegmentAfterDot(prefix, name[..|name| - 1]);
    }
  }

  /** All names whose loss breaks a surface. */
  function BreakingNames(s: Surface): set<string> {
    match s
    case CrmPayload => {
      "entity_key", "payload_hash", "event_id", "request_idempotency_key", "replay_mode", "crm_listing_id",
      "crm_product_id", "source_id", "external_ids", "schema_version", "source_name", "source_url"
    }
    case LifecycleEvent => {
      "entity_key", "payload_hash", "event_id", "request_idempotency_key", "replay_mode", "crm_listing_id",
      "crm_product_id", "source_id", "external_ids", "event_type", "sent_at"
    }
    case ReplayMetadata => {
      "entity_key", "payload_hash", "event_id", "request_idempotency_key", "replay_mode", "crm_listing_id",
      "crm_product_id", "source_id", "external_ids"
    }
    case ApplyResult => {"ok"}
    case EtlStatus => {"schema", "run_id", "current_status", "counters_summary", "errors_by_domain"}
    case DiagnosticSnapshot => {}
    case OperatorSummary => {}
  }

  /** Whether a removal breaks is decided by the surface and the name alone, at whatever depth it was. */
  lemma RemovalBreaksByName(s: Surface, prefix: string, name: string)
    requires '.' !in name
    ensures RemovalBreaks(s, name) <==> name in BreakingNames(s)
    ensures RemovalBreaks(s, prefix + "." + name) <==> name in BreakingNames(s)
  {
    UndottedIsSegment(name);
    SegmentAfterDot(prefix, name);
    DottedIsNotRequired(s, prefix + "." + name);
  }

  lemma DottedIsNotRequired(s: Surface, path: string)
    requires '.' in path
    ensures path !in RequiredFields(s)
  {
    if path in RequiredFields(s) { RequiredIsUndotted(s, path); }
  }

  lemma RequiredIsUndotted(s: Surface, name: string)
    requires name in RequiredFields(s)
    ensures '.' !in name
  {
  }

  // ----- severities and surfaces

  /** How severe each kind of change is. */
  predicate RightSeverity(c: Change) {
    match c.name
    case RemovedField(_) => c.changeType == Breaking <==> c.level == BreakingLevel
    case AddedField(_) => c.changeType == Additive && c.level == BackwardCompatible
    case TypeOrShapeDrift(_) => c.changeType == Breaking && c.level == BreakingLevel
    case LifecycleSemantic(key) => LifecycleSeverity(key, c.changeType, c.level)
    case ShadowRename(_, _) => c.changeType == Deprecation && c.level == ConditionallyCompatible
    case RenameWithoutShadow(_) => c.changeType == Breaking && c.level == BreakingLevel
  }

  lemma SeveritiesAreRight(s: Surface, shadow: Shadow, baseline: seq<Field>, current: seq<Field>, out: seq<Change>,
                           c: Change)
    requires IsClassification(s, shadow, baseline, current, out) && c in out
    ensures RightSeverity(c)
  {
    var diff, collapsed := StagesOf(s, shadow, baseline, current, out);
    if c in collapsed {
      assert InDiff(s, baseline, current, c) || IsBridge(shadow, diff, c);
    } else if SuspectsRename(s, collapsed) {
      var fields :| RenameAdded(collapsed, out, fields);
    }
  }

  /** The removal of a field, top-level or nested, is breaking for the surface's names and else a deprecation. */
  lemma RemovalSeverity(s: Surface, shadow: Shadow, baseline: seq<Field>, current: seq<Field>, out: seq<Change>,
                        c: Change, prefix: string, name: string)
    requires IsClassification(s, shadow, baseline, current, out) && c in out && '.' !in name
    requires c.name == RemovedField(name) || c.name == RemovedField(prefix + "." + name)
    ensures name in BreakingNames(s) ==> c.changeType == Breaking && c.level == BreakingLevel
    ensures name !in BreakingNames(s) ==> c.changeType == Deprecation && c.level == ConditionallyCompatible
  {
    var diff, collapsed := StagesOf(s, shadow, baseline, current, out);
    RemovalBreaksByName(s, prefix, name);
    assert InDiff(s, baseline, current, c);
  }

  function SurfaceName(s: Surface): string {
    match s
    case CrmPayload => "crm_payload"
    case LifecycleEvent => "lifecycle_event"
    case ApplyResult => "apply_result"
    case ReplayMetadata => "replay_metadata"
    case EtlStatus => "etl_status"
    case DiagnosticSnapshot => "diagnostic_snapshot"
    case OperatorSummary => "operator_summary"
  }

  /** Each surface is known by exactly one name. */
  lemma SurfaceByName(name: string, s: Surface)
    ensures AsSurface(name) == Some(s) <==> name == SurfaceName(s)
  {
  }
}
