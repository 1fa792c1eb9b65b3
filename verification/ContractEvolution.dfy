/** `classify_contract_change`: the diff of two payloads, with shadow renames collapsed. */
module ContractEvolution {
  import opened Ordering
  import opened Wrappers
  import opened ContractShape

  datatype Surface =
    | CrmPayload | LifecycleEvent | ApplyResult | ReplayMetadata | EtlStatus | DiagnosticSnapshot | OperatorSummary

  datatype ChangeType = Additive | Breaking | Deprecation | Behavioral
  datatype Compatibility = BackwardCompatible | ConditionallyCompatible | BreakingLevel

  datatype ChangeName =
    | RemovedField(path: string)
    | AddedField(path: string)
    | TypeOrShapeDrift(path: string)
    | LifecycleSemantic(key: string)
    | ShadowRename(legacy: string, canonical: string)
    | RenameWithoutShadow(fields: set<string>)

  /** The affected fields are those the name carries. */
  datatype Change = Change(name: ChangeName, changeType: ChangeType, level: Compatibility)

  // ----- policy tables

  function RequiredFields(s: Surface): set<string> {
    match s
    case CrmPayload => {"schema_version", "entity_key", "payload_hash", "source_name", "source_url"}
    case LifecycleEvent => {"event_type", "payload_hash", "event_id", "sent_at"}
    case ApplyResult => {"ok"}
    case ReplayMetadata => {"replay_mode"}
    case EtlStatus => {"schema", "run_id", "current_status"}
    case DiagnosticSnapshot => {}
    case OperatorSummary => {}
  }

  const ETL_BREAKING_IF_REMOVED: set<string> := {"counters_summary", "errors_by_domain", "schema"}

  const QUALITY_ID_KEYS: set<string> := {
    "entity_key", "payload_hash", "event_id", "request_idempotency_key", "replay_mode",
    "crm_listing_id", "crm_product_id", "source_id", "external_ids"
  }

  const LIFECYCLE_SEMANTIC_KEYS: set<string> := {
    "lifecycle_default_event", "default_event_type", "PARSER_LIFECYCLE_DEFAULT_EVENT"
  }

  /** The text after the last dot. */
  function LastSegment(path: string): string {
    if path == "" || path[|path| - 1] == '.' then "" else LastSegment(path[..|path| - 1]) + [path[|path| - 1]]
  }

  // ----- single changes

  predicate RemovalBreaks(s: Surface, path: string) {
    var key := LastSegment(path);
    || key in RequiredFields(s) || path in RequiredFields(s)
    || (s == EtlStatus && key in ETL_BREAKING_IF_REMOVED)
    || (s in {CrmPayload, LifecycleEvent, ReplayMetadata} && key in QUALITY_ID_KEYS)
  }

  function Removal(s: Surface, path: string): Change {
    if RemovalBreaks(s, path)
    then Change(RemovedField(path), Breaking, BreakingLevel)
    else Change(RemovedField(path), Deprecation, ConditionallyCompatible)
  }

  function Addition(path: string): Change {
    Change(AddedField(path), Additive, BackwardCompatible)
  }

  function Drift(path: string): Change {
    Change(TypeOrShapeDrift(path), Breaking, BreakingLevel)
  }

  function SemanticDrift(key: string): Change {
    if key in {"lifecycle_default_event", "default_event_type"}
    then Change(LifecycleSemantic(key), Breaking, BreakingLevel)
    else Change(LifecycleSemantic(key), Behavioral, ConditionallyCompatible)
  }

  function Bridge(legacy: string, canonical: string): Change {
    Change(ShadowRename(legacy, canonical), Deprecation, ConditionallyCompatible)
  }

  function Rename(fields: set<string>): Change {
    Change(RenameWithoutShadow(fields), Breaking, BreakingLevel)
  }

  // ----- Python equality of metadata values

  predicate IsNumeric(v: Json) {
    v.Bool? || v.Int? || v.Float?
  }

  function NumberOf(v: Json): real
    requires IsNumeric(v)
  {
    match v
    case Bool(b) => if b then 1.0 else 0.0
    case Int(i) => i as real
    case Float(r) => r
  }

  predicate PyEqual(a: Json, b: Json)
    decreases a
  {
    if IsNumeric(a) && IsNumeric(b) then NumberOf(a) == NumberOf(b)
    else if a.Str? && b.Str? then a.s == b.s
    else if a.List? && b.List? then |a.items| == |b.items| && forall i :: 0 <= i < |a.items| ==>
      PyEqual(a.items[i], b.items[i])
    else if a.Dict? && b.Dict? then
      Keys(a.fields) == Keys(b.fields)
      && forall k :: k in Keys(a.fields) && Has(a.fields, k) && Has(b.fields, k) ==>
           PyEqual(a.fields[IndexOf(a.fields, k)].value, b.fields[IndexOf(b.fields, k)].value)
    else a.Null? && b.Null?
  }

  /** `metadata.get(key)`. */
  function GetOrNull(fields: seq<Field>, k: string): Json {
    if Has(fields, k) then Get(fields, k) else Null
  }

  ghost predicate SemanticsDiffer(s: Surface, baseline: seq<Field>, current: seq<Field>, key: string) {
    && s in {CrmPayload, LifecycleEvent, ReplayMetadata} && key in LIFECYCLE_SEMANTIC_KEYS
    && !PyEqual(GetOrNull(baseline, key), GetOrNull(current, key))
  }

  // ----- what the diff contains

  /** The changes before renames are looked at. */
  ghost predicate InDiff(s: Surface, baseline: seq<Field>, current: seq<Field>, c: Change) {
    var old_, new_ := FlattenKeys(baseline, ""), FlattenKeys(current, "");
    match c.name
    case RemovedField(path) => path in old_ && path !in new_ && c == Removal(s, path)
    case AddedField(path) => path in new_ && path !in old_ && c == Addition(path)
    case TypeOrShapeDrift(path) => path in old_ && path in new_ && IsBreakingFieldChange(old_[path], new_[path])
      && c == Drift(path)
    case LifecycleSemantic(key) => SemanticsDiffer(s, baseline, current, key) && c == SemanticDrift(key)
    case _ => false
  }

  type Shadow = map<string, string>

  /** A removed legacy field whose replacement was added. */
  ghost predicate Bridged(shadow: Shadow, changes: seq<Change>, legacy: string) {
    && legacy in shadow
    && (exists r :: r in changes && r.name == RemovedField(legacy) && r.level != BackwardCompatible)
    && (exists a :: a in changes && a.name == AddedField(shadow[legacy]))
  }

  ghost predicate Consumed(shadow: Shadow, changes: seq<Change>, c: Change) {
    match c.name
    case RemovedField(path) => Bridged(shadow, changes, path)
    case AddedField(path) => exists legacy :: Bridged(shadow, changes, legacy) && shadow[legacy] == path
    case _ => false
  }

  ghost predicate IsBridge(shadow: Shadow, changes: seq<Change>, c: Change) {
    exists legacy :: Bridged(shadow, changes, legacy) && c == Bridge(legacy, shadow[legacy])
  }

  /** Changes are told apart by their names. */
  ghost predicate DistinctNames(changes: seq<Change>) {
    forall i, j :: 0 <= i < j < |changes| ==> changes[i].name != changes[j].name
  }

  ghost predicate IsCollapse(shadow: Shadow, changes: seq<Change>, out: seq<Change>) {
    forall c :: c in out <==> (c in changes && !Consumed(shadow, changes, c)) || IsBridge(shadow, changes, c)
  }

  ghost predicate TopLevel(path: string) {
    '.' !in path
  }

  /** The top-level fields removed or added. */
  ghost predicate TopLevelMove(changes: seq<Change>, path: string) {
    TopLevel(path) && exists c :: c in changes && (c.name == RemovedField(path) || c.name == AddedField(path))
  }

  ghost predicate SuspectsRename(s: Surface, changes: seq<Change>) {
    && s == CrmPayload
    && (forall c :: c in changes ==> !c.name.ShadowRename?)
    && (exists c :: c in changes && c.name.RemovedField? && TopLevel(c.name.path))
    && (exists c :: c in changes && c.name.AddedField? && TopLevel(c.name.path))
  }

  /** The whole result: the diff, collapsed, plus at most one suspected rename. */
  ghost predicate IsClassification(s: Surface, shadow: Shadow, baseline: seq<Field>, current: seq<Field>,
                                   out: seq<Change>) {
    exists diff, collapsed ::
      && (forall c :: c in diff <==> InDiff(s, baseline, current, c))
      && IsCollapse(shadow, diff, collapsed)
      && IsSuspicion(s, collapsed, out)
      && DistinctNames(out)
  }

  ghost predicate RenameAdded(collapsed: seq<Change>, out: seq<Change>, fields: set<string>) {
    out == collapsed + [Rename(fields)] && forall p :: p in fields <==> TopLevelMove(collapsed, p)
  }

  ghost predicate IsSuspicion(s: Surface, collapsed: seq<Change>, out: seq<Change>) {
    if SuspectsRename(s, collapsed)
    then exists fields :: RenameAdded(collapsed, out, fields)
    else out == collapsed
  }

  // ----- the diff, loop by loop

  method RemovedChanges(s: Surface, old_: map<string, Json>, new_: map<string, Json>) returns (changes: seq<Change>)
    ensures forall c :: c in changes <==>
              c.name.RemovedField? && c.name.path in old_ && c.name.path !in new_ && c == Removal(s, c.name.path)
    ensures DistinctNames(changes)
  {
    changes := [];
    var order := Enumerate(old_.Keys);
    for i := 0 to |order|
      invariant forall c :: c in changes <==>
                  c.name.RemovedField? && c.name.path in order[..i] && c.name.path !in new_
                    && c == Removal(s, c.name.path)
      invariant DistinctNames(changes)
    {
      var path := order[i];
      if path !in new_ {
        var key := LastSegment(path);
        var level := if key in RequiredFields(s) || path in RequiredFields(s) then BreakingLevel
          else ConditionallyCompatible;
        var changeType := if level == BreakingLevel then Breaking else Deprecation;
        if s == EtlStatus && key in ETL_BREAKING_IF_REMOVED {
          level, changeType := BreakingLevel, Breaking;
        }
        if key in QUALITY_ID_KEYS && s in {CrmPayload, LifecycleEvent, ReplayMetadata} {
          level, changeType := BreakingLevel, Breaking;
        }
        assert Change(RemovedField(path), changeType, level) == Removal(s, path);
        forall j | 0 <= j < |changes| ensures changes[j].name != RemovedField(path) { assert changes[j] in changes; }
        changes := changes + [Change(RemovedField(path), changeType, level)];
      }
    }
    assert order[..|order|] == order;
  }

  ghost predicate AddedOrDrifted(old_: map<string, Json>, new_: map<string, Json>, c: Change) {
    match c.name
    case AddedField(path) => path in new_ && path !in old_ && c == Addition(path)
    case TypeOrShapeDrift(path) => path in old_ && path in new_ && IsBreakingFieldChange(old_[path], new_[path])
      && c == Drift(path)
    case _ => false
  }

  method AddedAndDrifted(old_: map<string, Json>, new_: map<string, Json>) returns (changes: seq<Change>)
    ensures forall c :: c in changes <==> AddedOrDrifted(old_, new_, c)
    ensures DistinctNames(changes)
  {
    changes := [];
    var order := Enumerate(new_.Keys);
    for i := 0 to |order|
      invariant forall c :: c in changes <==> AddedOrDrifted(old_, new_, c) && c.name.path in order[..i]
      invariant DistinctNames(changes)
    {
      var path := order[i];
      assert path in order;
      forall j | 0 <= j < |changes| ensures changes[j].name.path != path { assert changes[j] in changes; }
      if path !in old_ {
        changes := changes + [Addition(path)];
        continue;
      }
      if IsBreakingFieldChange(old_[path], new_[path]) {
        changes := changes + [Drift(path)];
      }
    }
    assert order[..|order|] == order;
  }

  method DetectBehavioralChange(s: Surface, baseline: seq<Field>, current: seq<Field>) returns (changes: seq<Change>)
    ensures forall c :: c in changes <==>
              c.name.LifecycleSemantic? && SemanticsDiffer(s, baseline, current, c.name.key)
                && c == SemanticDrift(c.name.key)
    ensures DistinctNames(changes)
  {
    changes := [];
    if s !in {CrmPayload, LifecycleEvent, ReplayMetadata} { return; }
    var order := Enumerate(LIFECYCLE_SEMANTIC_KEYS);
    for i := 0 to |order|
      invariant forall c :: c in changes <==>
                  c.name.LifecycleSemantic? && c.name.key in order[..i]
                    && SemanticsDiffer(s, baseline, current, c.name.key) && c == SemanticDrift(c.name.key)
      invariant DistinctNames(changes)
    {
      var key := order[i];
      assert key in order;
      var before, after := GetOrNull(baseline, key), GetOrNull(current, key);
      if before.Null? && after.Null? { continue; }
      if !PyEqual(before, after) {
        forall j | 0 <= j < |changes| ensures changes[j].name != LifecycleSemantic(key) {
          assert changes[j] in changes;
        }
        changes := changes + [SemanticDrift(key)];
      }
    }
    assert order[..|order|] == order;
  }

  lemma DistinctConcat(a: seq<Change>, b: seq<Change>)
    requires DistinctNames(a) && DistinctNames(b)
    requires forall c, d :: c in a && d in b ==> c.name != d.name
    ensures DistinctNames(a + b)
  {
  }

  method DiffChanges(s: Surface, baseline: seq<Field>, current: seq<Field>) returns (changes: seq<Change>)
    ensures forall c :: c in changes <==> InDiff(s, baseline, current, c)
    ensures DistinctNames(changes)
  {
    var flatB := Flatten(baseline, "");
    var flatC := Flatten(current, "");
    var removed := RemovedChanges(s, flatB, flatC);
    var added := AddedAndDrifted(flatB, flatC);
    var behavioral := DetectBehavioralChange(s, baseline, current);
    DistinctConcat(removed, added);
    DistinctConcat(removed + added, behavioral);
    changes := removed + added + behavioral;
  }

  // ----- shadow renames

  ghost predicate Holds(table: map<string, Change>, changes: seq<Change>, removed: bool) {
    forall path, c :: path in table && table[path] == c <==>
      c in changes && c.name == if removed then RemovedField(path) else AddedField(path)
  }

  method CollapseShadowRenames(shadow: Shadow, changes: seq<Change>) returns (out: seq<Change>)
    requires DistinctNames(changes)
    ensures IsCollapse(shadow, changes, out)
    ensures NoneRenamed(changes) ==> DistinctNames(out)
  {
    if shadow == map[] { return changes; }
    var removed, added, rest := SplitByKind(changes);
    var consumedRemoved, consumedAdded, collapsed := BridgeRenames(shadow, changes, removed, added);
    var keptRemoved := Unconsumed(removed, consumedRemoved);
    var keptAdded := Unconsumed(added, consumedAdded);
    forall c
      ensures c in keptRemoved <==> c in changes && c.name.RemovedField? && !Consumed(shadow, changes, c)
      ensures c in keptAdded <==> c in changes && c.name.AddedField? && !Consumed(shadow, changes, c)
    {
      KeptUnlessConsumed(shadow, changes, removed, consumedRemoved, keptRemoved, true, c);
      KeptUnlessConsumed(shadow, changes, added, consumedAdded, keptAdded, false, c);
    }
    HeldNamesDiffer(removed, changes, true);
    HeldNamesDiffer(added, changes, false);
    out := rest + keptRemoved + keptAdded + collapsed;
    CollapsePieces(shadow, changes, rest, keptRemoved, keptAdded, collapsed);
  }

  lemma HeldNamesDiffer(table: map<string, Change>, changes: seq<Change>, removed: bool)
    requires Holds(table, changes, removed)
    ensures NamedApart(table)
  {
  }

  /** The four pieces, one kind of change each, make up the collapsed list. */
  lemma CollapsePieces(shadow: Shadow, changes: seq<Change>, rest: seq<Change>, keptRemoved: seq<Change>,
                       keptAdded: seq<Change>, collapsed: seq<Change>)
    requires forall c :: c in rest <==> c in changes && !c.name.RemovedField? && !c.name.AddedField?
    requires forall c :: c in keptRemoved <==> c in changes && c.name.RemovedField? && !Consumed(shadow, changes, c)
    requires forall c :: c in keptAdded <==> c in changes && c.name.AddedField? && !Consumed(shadow, changes, c)
    requires forall c :: c in collapsed <==> IsBridge(shadow, changes, c)
    requires DistinctNames(rest) && DistinctNames(keptRemoved) && DistinctNames(keptAdded) && DistinctNames(collapsed)
    ensures IsCollapse(shadow, changes, rest + keptRemoved + keptAdded + collapsed)
    ensures NoneRenamed(changes) ==> DistinctNames(rest + keptRemoved + keptAdded + collapsed)
  {
    if NoneRenamed(changes) { CollapsedNamesDiffer(rest, keptRemoved, keptAdded, collapsed); }
  }

  /** No change is a rename yet, as in every diff. */
  ghost predicate NoneRenamed(changes: seq<Change>) {
    forall c :: c in changes ==> !c.name.ShadowRename?
  }

  lemma CollapsedNamesDiffer(rest: seq<Change>, keptRemoved: seq<Change>, keptAdded: seq<Change>,
                             collapsed: seq<Change>)
    requires DistinctNames(rest) && DistinctNames(keptRemoved) && DistinctNames(keptAdded) && DistinctNames(collapsed)
    requires forall c :: c in rest ==> !c.name.RemovedField? && !c.name.AddedField? && !c.name.ShadowRename?
    requires forall c :: c in keptRemoved ==> c.name.RemovedField?
    requires forall c :: c in keptAdded ==> c.name.AddedField?
    requires forall c :: c in collapsed ==> c.name.ShadowRename?
    ensures DistinctNames(rest + keptRemoved + keptAdded + collapsed)
  {
    DistinctConcat(rest, keptRemoved);
    DistinctConcat(rest + keptRemoved, keptAdded);
    DistinctConcat(rest + keptRemoved + keptAdded, collapsed);
  }

  lemma KeptUnlessConsumed(shadow: Shadow, changes: seq<Change>, table: map<string, Change>, consumed: set<string>,
                           kept: seq<Change>, isRemoved: bool, c: Change)
    requires Holds(table, changes, isRemoved)
    requires forall p :: p in consumed <==>
               if isRemoved then Bridged(shadow, changes, p) else exists legacy ::
                 Bridged(shadow, changes, legacy) && shadow[legacy] == p
    requires forall d :: d in kept <==> exists p :: p in table && p !in consumed && table[p] == d
    ensures c in kept <==>
              c in changes && (if isRemoved then c.name.RemovedField? else c.name.AddedField?)
                && !Consumed(shadow, changes, c)
  {
    if c in kept {
      var p :| p in table && p !in consumed && table[p] == c;
    }
    if c in changes && (if isRemoved then c.name.RemovedField? else c.name.AddedField?) {
      assert c.name.path in table && table[c.name.path] == c;
    }
  }

  method SplitByKind(changes: seq<Change>)
    returns (removed: map<string, Change>, added: map<string, Change>, rest: seq<Change>)
    requires DistinctNames(changes)
    ensures Holds(removed, changes, true) && Holds(added, changes, false)
    ensures forall c :: c in rest <==> c in changes && !c.name.RemovedField? && !c.name.AddedField?
    ensures DistinctNames(rest)
  {
    removed, added, rest := map[], map[], [];
    for i := 0 to |changes|
      invariant DistinctNames(rest)
      invariant Holds(removed, changes[..i], true) && Holds(added, changes[..i], false)
      invariant forall c :: c in rest <==> c in changes[..i] && !c.name.RemovedField? && !c.name.AddedField?
    {
      var c := changes[i];
      assert changes[..i + 1] == changes[..i] + [c];
      forall j | 0 <= j < i ensures changes[..i][j].name != c.name {}
      match c.name
      case RemovedField(path) => removed := removed[path := c];
      case AddedField(path) => added := added[path := c];
      case _ => rest := rest + [c];
    }
    assert changes[..|changes|] == changes;
  }

  method BridgeRenames(shadow: Shadow, ghost changes: seq<Change>, removed: map<string, Change>,
                       added: map<string, Change>)
    returns (consumedRemoved: set<string>, consumedAdded: set<string>, collapsed: seq<Change>)
    requires Holds(removed, changes, true) && Holds(added, changes, false)
    ensures forall p :: p in consumedRemoved <==> Bridged(shadow, changes, p)
    ensures forall p :: p in consumedAdded <==> exists legacy :: Bridged(shadow, changes, legacy) && shadow[legacy] == p
    ensures forall c :: c in collapsed <==> IsBridge(shadow, changes, c)
    ensures DistinctNames(collapsed)
  {
    consumedRemoved, consumedAdded, collapsed := {}, {}, [];
    var order := Enumerate(shadow.Keys);
    for i := 0 to |order|
      invariant forall p :: p in consumedRemoved <==> p in order[..i] && Bridged(shadow, changes, p)
      invariant forall p :: p in consumedAdded <==>
                  exists legacy :: legacy in order[..i] && Bridged(shadow, changes, legacy) && shadow[legacy] == p
      invariant DistinctNames(collapsed)
      invariant forall c :: c in collapsed <==>
                  exists legacy ::
                    legacy in order[..i] && Bridged(shadow, changes, legacy) && c == Bridge(legacy, shadow[legacy])
    {
      var legacy := order[i];
      assert legacy in order;
      var canonical := shadow[legacy];
      BridgedMeansHeld(shadow, changes, removed, added, legacy);
      assert order[..i + 1] == order[..i] + [legacy];
      if legacy in removed && canonical in added && removed[legacy].level != BackwardCompatible {
        consumedRemoved := consumedRemoved + {legacy};
        consumedAdded := consumedAdded + {canonical};
        forall j | 0 <= j < |collapsed| ensures collapsed[j].name != ShadowRename(legacy, canonical) {
          assert collapsed[j] in collapsed;
        }
        collapsed := collapsed + [Bridge(legacy, canonical)];
      }
    }
    assert order[..|order|] == order;
  }

  lemma BridgedMeansHeld(shadow: Shadow, changes: seq<Change>, removed: map<string, Change>,
                         added: map<string, Change>, legacy: string)
    requires Holds(removed, changes, true) && Holds(added, changes, false) && legacy in shadow
    ensures Bridged(shadow, changes, legacy) <==>
              legacy in removed && shadow[legacy] in added && removed[legacy].level != BackwardCompatible
  {
    if legacy in removed { assert removed[legacy] in changes; }
    if shadow[legacy] in added { assert added[shadow[legacy]] in changes; }
  }

  method Unconsumed(table: map<string, Change>, consumed: set<string>) returns (kept: seq<Change>)
    ensures forall c :: c in kept <==> exists p :: p in table && p !in consumed && table[p] == c
    ensures NamedApart(table) ==> DistinctNames(kept)
  {
    kept := [];
    var order := Enumerate(table.Keys);
    for i := 0 to |order|
      invariant NamedApart(table) ==> DistinctNames(kept)
      invariant forall c :: c in kept <==> exists p :: p in order[..i] && p in table && p !in consumed && table[p] == c
    {
      assert order[i] in order;
      assert order[..i + 1] == order[..i] + [order[i]];
      if order[i] !in consumed {
        forall j | 0 <= j < |kept| ensures NamedApart(table) ==> kept[j].name != table[order[i]].name {
          assert kept[j] in kept;
          var p :| p in order[..i] && p in table && p !in consumed && table[p] == kept[j];
        }
        kept := kept + [table[order[i]]];
      }
    }
    assert order[..|order|] == order;
  }

  ghost predicate NamedApart(table: map<string, Change>) {
    forall p, q :: p in table && q in table && p != q ==> table[p].name != table[q].name
  }

  // ----- suspected renames and the whole classification

  method SuspectedRename(s: Surface, changes: seq<Change>) returns (extra: seq<Change>)
    ensures IsSuspicion(s, changes, changes + extra)
    ensures |extra| <= 1 && forall c :: c in extra ==> c.name.RenameWithoutShadow?
  {
    extra := [];
    assert changes + [] == changes;
    if s != CrmPayload { return; }
    var removedTop, addedTop: set<string> := {}, {};
    ghost var done := [];
    for i := 0 to |changes|
      invariant done == changes[..i] && NoneRenamed(done)
      invariant forall p :: p in removedTop <==> TopLevel(p) && exists c :: c in done && c.name == RemovedField(p)
      invariant forall p :: p in addedTop <==> TopLevel(p) && exists c :: c in done && c.name == AddedField(p)
    {
      var c := changes[i];
      done := done + [c];
      if c.name.ShadowRename? { return; }
      if c.name.RemovedField? && '.' !in c.name.path {
        removedTop := removedTop + {c.name.path};
      }
      if c.name.AddedField? && '.' !in c.name.path {
        addedTop := addedTop + {c.name.path};
      }
    }
    assert done == changes;
    if removedTop == {} || addedTop == {} { return; }
    var r :| r in removedTop;
    var a :| a in addedTop;
    extra := [Rename(removedTop + addedTop)];
    assert RenameAdded(changes, changes + extra, removedTop + addedTop);
  }

  function AsSurface(surface: string): Option<Surface> {
    match surface
    case "crm_payload" => Some(CrmPayload)
    case "lifecycle_event" => Some(LifecycleEvent)
    case "apply_result" => Some(ApplyResult)
    case "replay_metadata" => Some(ReplayMetadata)
    case "etl_status" => Some(EtlStatus)
    case "diagnostic_snapshot" => Some(DiagnosticSnapshot)
    case "operator_summary" => Some(OperatorSummary)
    case _ => None
  }

  /** An unknown surface is an error; otherwise the classified changes. */
  method ClassifyContractChange(surface: string, shadow: Shadow, baseline: seq<Field>, current: seq<Field>)
    returns (r: Option<seq<Change>>)
    ensures r.None? <==> AsSurface(surface).None?
    ensures r.Some? ==> IsClassification(AsSurface(surface).value, shadow, baseline, current, r.value)
  {
    var surf := AsSurface(surface);
    if surf.None? { return None; }
    var diff := DiffChanges(surf.value, baseline, current);
    var collapsed := CollapseShadowRenames(shadow, diff);
    var extra := SuspectedRename(surf.value, collapsed);
    forall c, d | c in collapsed && d in extra ensures c.name != d.name {
      assert IsBridge(shadow, diff, c) || InDiff(surf.value, baseline, current, c);
    }
    DistinctConcat(collapsed, extra);
    r := Some(collapsed + extra);
  }
}
