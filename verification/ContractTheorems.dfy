/** What the classification of a contract change promises. */
module ContractTheorems {
  import opened ContractShape
  import opened ContractPaths
  import opened ContractEvolution

  ghost predicate OnlyAdditive(out: seq<Change>) {
    out != [] && forall c :: c in out ==> c.changeType == Additive
  }

  ghost predicate NoSemanticDrift(s: Surface, baseline: seq<Field>, current: seq<Field>) {
    forall key :: !SemanticsDiffer(s, baseline, current, key)
  }

  /** The stages of a classification, as witnessed by its definition. */
  ghost predicate Stages(s: Surface, shadow: Shadow, baseline: seq<Field>, current: seq<Field>, out: seq<Change>,
                         diff: seq<Change>, collapsed: seq<Change>) {
    && (forall c :: c in diff <==> InDiff(s, baseline, current, c))
    && IsCollapse(shadow, diff, collapsed)
    && IsSuspicion(s, collapsed, out)
  }

  lemma StagesOf(s: Surface, shadow: Shadow, baseline: seq<Field>, current: seq<Field>, out: seq<Change>)
    returns (diff: seq<Change>, collapsed: seq<Change>)
    requires IsClassification(s, shadow, baseline, current, out)
    ensures Stages(s, shadow, baseline, current, out, diff, collapsed)
    ensures forall c :: c in collapsed ==> c in out
    ensures forall c :: c in out ==> c in collapsed || (c.name.RenameWithoutShadow? && c.changeType == Breaking)
  {
    diff, collapsed :|
      && (forall c :: c in diff <==> InDiff(s, baseline, current, c))
      && IsCollapse(shadow, diff, collapsed)
      && IsSuspicion(s, collapsed, out);
  }

  /** Collapsing keeps a removed path, or names it in a shadow rename. */
  lemma RemovedSurvivesOrIsBridged(s: Surface, shadow: Shadow, baseline: seq<Field>, current: seq<Field>,
                                   out: seq<Change>, path: string)
    requires IsClassification(s, shadow, baseline, current, out)
    requires path in FlattenKeys(baseline, "") && path !in FlattenKeys(current, "")
    ensures Removal(s, path) in out || (path in shadow && Bridge(path, shadow[path]) in out)
  {
    var diff, collapsed := StagesOf(s, shadow, baseline, current, out);
    var c := Removal(s, path);
    assert InDiff(s, baseline, current, c) && c in diff;
    if Consumed(shadow, diff, c) {
      assert IsBridge(shadow, diff, Bridge(path, shadow[path]));
    }
  }

  /** Collapsing keeps an added path, or names it as the target of a shadow rename. */
  lemma AddedSurvivesOrIsBridged(s: Surface, shadow: Shadow, baseline: seq<Field>, current: seq<Field>,
                                 out: seq<Change>, path: string)
    requires IsClassification(s, shadow, baseline, current, out)
    requires path in FlattenKeys(current, "") && path !in FlattenKeys(baseline, "")
    ensures Addition(path) in out || exists legacy ::
              legacy in shadow && shadow[legacy] == path && Bridge(legacy, path) in out
  {
    var diff, collapsed := StagesOf(s, shadow, baseline, current, out);
    var c := Addition(path);
    assert InDiff(s, baseline, current, c) && c in diff;
    if Consumed(shadow, diff, c) {
      var legacy :| Bridged(shadow, diff, legacy) && shadow[legacy] == path;
      assert IsBridge(shadow, diff, Bridge(legacy, path));
    }
  }

  /** A shadow rename stands for a field that really went and a registered replacement that really came. */
  lemma BridgeIsEarned(s: Surface, shadow: Shadow, baseline: seq<Field>, current: seq<Field>, out: seq<Change>,
                       c: Change)
    requires IsClassification(s, shadow, baseline, current, out) && c in out && c.name.ShadowRename?
    ensures c == Bridge(c.name.legacy, c.name.canonical)
    ensures c.name.legacy in shadow && shadow[c.name.legacy] == c.name.canonical
    ensures c.name.legacy in FlattenKeys(baseline, "") && c.name.legacy !in FlattenKeys(current, "")
    ensures c.name.canonical in FlattenKeys(current, "") && c.name.canonical !in FlattenKeys(baseline, "")
    ensures Removal(s, c.name.legacy) !in out && Addition(c.name.canonical) !in out
  {
    var diff, collapsed := StagesOf(s, shadow, baseline, current, out);
    assert c in collapsed && !InDiff(s, baseline, current, c);
    assert IsBridge(shadow, diff, c);
    var legacy :| Bridged(shadow, diff, legacy) && c == Bridge(legacy, shadow[legacy]);
    var r :| r in diff && r.name == RemovedField(legacy) && r.level != BackwardCompatible;
    var a :| a in diff && a.name == AddedField(shadow[legacy]);
    assert InDiff(s, baseline, current, r) && InDiff(s, baseline, current, a);
    assert Consumed(shadow, diff, Removal(s, legacy)) && Consumed(shadow, diff, Addition(shadow[legacy]));
  }

  /** The path is in the first payload and not in the second. */
  ghost predicate Gone(baseline: seq<Field>, current: seq<Field>, path: string) {
    path in FlattenKeys(baseline, "") && path !in FlattenKeys(current, "")
  }

  /** A registered legacy field went, and its registered replacement came. */
  ghost predicate Replaced(shadow: Shadow, baseline: seq<Field>, current: seq<Field>, legacy: string) {
    legacy in shadow && Gone(baseline, current, legacy) && Gone(current, baseline, shadow[legacy])
  }

  lemma BridgedMeansReplaced(s: Surface, shadow: Shadow, baseline: seq<Field>, current: seq<Field>, diff: seq<Change>,
                             legacy: string)
    requires forall c :: c in diff <==> InDiff(s, baseline, current, c)
    ensures Bridged(shadow, diff, legacy) <==> Replaced(shadow, baseline, current, legacy)
  {
    if Replaced(shadow, baseline, current, legacy) {
      assert InDiff(s, baseline, current, Removal(s, legacy)) && InDiff(s, baseline, current, Addition(shadow[legacy]));
    }
  }

  /** A shadow rename is reported exactly for the replaced fields. */
  lemma BridgeReportedWhen(s: Surface, shadow: Shadow, baseline: seq<Field>, current: seq<Field>, out: seq<Change>,
                           legacy: string)
    requires IsClassification(s, shadow, baseline, current, out) && legacy in shadow
    ensures Bridge(legacy, shadow[legacy]) in out <==> Replaced(shadow, baseline, current, legacy)
  {
    var diff, collapsed := StagesOf(s, shadow, baseline, current, out);
    BridgedMeansReplaced(s, shadow, baseline, current, diff, legacy);
    if Bridge(legacy, shadow[legacy]) in out {
      BridgeIsEarned(s, shadow, baseline, current, out, Bridge(legacy, shadow[legacy]));
    }
    if Replaced(shadow, baseline, current, legacy) {
      assert IsBridge(shadow, diff, Bridge(legacy, shadow[legacy]));
    }
  }

  /** The removal is reported as breaking. */
  ghost predicate RemovalBreaksIn(out: seq<Change>, path: string) {
    exists c :: c in out && c.name == RemovedField(path) && c.changeType == Breaking
  }

  /** "Removing a field is breaking" holds of a removed path exactly when the policy tables name
      it and its registered replacement, if it has one, is not added. */
  lemma RemovalIsBreakingWhen(s: Surface, shadow: Shadow, baseline: seq<Field>, current: seq<Field>, out: seq<Change>,
                              path: string)
    requires IsClassification(s, shadow, baseline, current, out) && Gone(baseline, current, path)
    ensures RemovalBreaksIn(out, path) <==>
              RemovalBreaks(s, path) && !(path in shadow && Gone(current, baseline, shadow[path]))
  {
    RemovedSurvivesOrIsBridged(s, shadow, baseline, current, out, path);
    if path in shadow {
      BridgeReportedWhen(s, shadow, baseline, current, out, path);
      if Bridge(path, shadow[path]) in out {
        BridgeIsEarned(s, shadow, baseline, current, out, Bridge(path, shadow[path]));
      }
    }
    var diff, collapsed := StagesOf(s, shadow, baseline, current, out);
    forall c | c in out && c.name == RemovedField(path) ensures c == Removal(s, path) {
      assert InDiff(s, baseline, current, c);
    }
  }

  // ----- renames

  /** Some unbridged rename is reported. */
  ghost predicate RenameIn(out: seq<Change>) {
    exists c :: c in out && c.name.RenameWithoutShadow?
  }

  ghost predicate TopLevelGone(baseline: seq<Field>, current: seq<Field>) {
    exists path :: TopLevel(path) && Gone(baseline, current, path)
  }

  ghost predicate NothingReplaced(shadow: Shadow, baseline: seq<Field>, current: seq<Field>) {
    forall legacy :: !Replaced(shadow, baseline, current, legacy)
  }

  /** Collapsing leaves no shadow rename exactly when nothing is replaced, and then changes nothing. */
  lemma CollapsedWithoutBridge(s: Surface, shadow: Shadow, baseline: seq<Field>, current: seq<Field>, diff: seq<Change>,
                               collapsed: seq<Change>)
    requires (forall c :: c in diff <==> InDiff(s, baseline, current, c)) && IsCollapse(shadow, diff, collapsed)
    ensures (forall c :: c in collapsed ==> !c.name.ShadowRename?) <==> NothingReplaced(shadow, baseline, current)
    ensures NothingReplaced(shadow, baseline, current) ==> forall c :: c in collapsed <==> c in diff
  {
    forall legacy ensures Bridged(shadow, diff, legacy) <==> Replaced(shadow, baseline, current, legacy) {
      BridgedMeansReplaced(s, shadow, baseline, current, diff, legacy);
    }
    if legacy :| Replaced(shadow, baseline, current, legacy) {
      assert IsBridge(shadow, diff, Bridge(legacy, shadow[legacy]));
    }
  }

  lemma TopLevelMoves(s: Surface, baseline: seq<Field>, current: seq<Field>, diff: seq<Change>)
    requires forall c :: c in diff <==> InDiff(s, baseline, current, c)
    ensures (exists c :: c in diff && c.name.RemovedField? && TopLevel(c.name.path)) <==>
              TopLevelGone(baseline, current)
    ensures (exists c :: c in diff && c.name.AddedField? && TopLevel(c.name.path)) <==> TopLevelGone(current, baseline)
    ensures forall path :: TopLevelMove(diff, path) <==> TopLevelChange(baseline, current, path)
  {
    forall path | Gone(baseline, current, path) ensures Removal(s, path) in diff {
      assert InDiff(s, baseline, current, Removal(s, path));
    }
    forall path | Gone(current, baseline, path) ensures Addition(path) in diff {
      assert InDiff(s, baseline, current, Addition(path));
    }
  }

  lemma SuspectedExactly(s: Surface, shadow: Shadow, baseline: seq<Field>, current: seq<Field>, diff: seq<Change>,
                         collapsed: seq<Change>)
    requires (forall c :: c in diff <==> InDiff(s, baseline, current, c)) && IsCollapse(shadow, diff, collapsed)
    ensures SuspectsRename(s, collapsed) <==>
              && s == CrmPayload && NothingReplaced(shadow, baseline, current)
              && TopLevelGone(baseline, current) && TopLevelGone(current, baseline)
    ensures SuspectsRename(s, collapsed) ==>
              forall path :: TopLevelMove(collapsed, path) <==> TopLevelChange(baseline, current, path)
  {
    CollapsedWithoutBridge(s, shadow, baseline, current, diff, collapsed);
    if NothingReplaced(shadow, baseline, current) {
      assert forall c :: c in collapsed <==> InDiff(s, baseline, current, c);
      TopLevelMoves(s, baseline, current, collapsed);
    }
  }

  lemma SuspicionReported(s: Surface, collapsed: seq<Change>, out: seq<Change>)
    requires IsSuspicion(s, collapsed, out) && forall c :: c in collapsed ==> !c.name.RenameWithoutShadow?
    ensures RenameIn(out) <==> SuspectsRename(s, collapsed)
    ensures forall c :: c in out && c.name.RenameWithoutShadow? ==>
                          c.changeType == Breaking && forall p :: p in c.name.fields <==> TopLevelMove(collapsed, p)
  {
    if SuspectsRename(s, collapsed) {
      var fields :| RenameAdded(collapsed, out, fields);
      assert Rename(fields) in out;
    }
  }

  /** The change is breaking, and names the top-level fields that went or came. */
  ghost predicate NamesMoves(baseline: seq<Field>, current: seq<Field>, c: Change)
    requires c.name.RenameWithoutShadow?
  {
    c.changeType == Breaking && forall path :: path in c.name.fields <==> TopLevelChange(baseline, current, path)
  }

  ghost predicate TopLevelChange(baseline: seq<Field>, current: seq<Field>, path: string) {
    TopLevel(path) && (Gone(baseline, current, path) || Gone(current, baseline, path))
  }

  /** An unbridged rename is reported exactly on the CRM payload, when a top-level field goes,
      another comes, and no registered rename is bridged anywhere; it names every such field. */
  lemma RenameReportedWhen(s: Surface, shadow: Shadow, baseline: seq<Field>, current: seq<Field>, out: seq<Change>)
    requires IsClassification(s, shadow, baseline, current, out)
    ensures RenameIn(out) <==>
              && s == CrmPayload && NothingReplaced(shadow, baseline, current)
              && TopLevelGone(baseline, current) && TopLevelGone(current, baseline)
    ensures forall c :: c in out && c.name.RenameWithoutShadow? ==> NamesMoves(baseline, current, c)
  {
    var diff, collapsed := StagesOf(s, shadow, baseline, current, out);
    forall c | c in collapsed ensures !c.name.RenameWithoutShadow? {
      assert InDiff(s, baseline, current, c) || IsBridge(shadow, diff, c);
    }
    SuspectedExactly(s, shadow, baseline, current, diff, collapsed);
    SuspicionReported(s, collapsed, out);
  }

  /** The change is about the field's removal, alone or as part of a rename. */
  predicate TellsOfRemoval(c: Change, path: string) {
    c.name == RemovedField(path) || (c.name.RenameWithoutShadow? && path in c.name.fields)
  }

  ghost predicate BreakingTold(out: seq<Change>, path: string) {
    exists c :: c in out && TellsOfRemoval(c, path) && c.changeType == Breaking
  }

  lemma RemovalOrRename(out: seq<Change>, path: string)
    requires forall c :: c in out && c.name.RenameWithoutShadow? ==> c.changeType == Breaking && path in c.name.fields
    ensures BreakingTold(out, path) <==> RemovalBreaksIn(out, path) || RenameIn(out)
  {
    if c :| c in out && c.name == RemovedField(path) && c.changeType == Breaking { assert TellsOfRemoval(c, path); }
    if c :| c in out && c.name.RenameWithoutShadow? { assert TellsOfRemoval(c, path); }
  }

  /** "A rename without both names is breaking" holds of a top-level field that went while another
      came exactly when no registered rename is bridged on the CRM payload, or the field's removal is
      breaking by itself. */
  lemma RenameIsBreakingWhen(s: Surface, shadow: Shadow, baseline: seq<Field>, current: seq<Field>, out: seq<Change>,
                             path: string)
    requires IsClassification(s, shadow, baseline, current, out)
    requires TopLevel(path) && Gone(baseline, current, path) && TopLevelGone(current, baseline)
    ensures BreakingTold(out, path) <==>
              || (s == CrmPayload && NothingReplaced(shadow, baseline, current))
              || (RemovalBreaks(s, path) && !(path in shadow && Gone(current, baseline, shadow[path])))
  {
    RemovalIsBreakingWhen(s, shadow, baseline, current, out, path);
    RenameReportedWhen(s, shadow, baseline, current, out);
    assert TopLevelGone(baseline, current);
    forall c | c in out && c.name.RenameWithoutShadow? ensures c.changeType == Breaking && path in c.name.fields {
      assert NamesMoves(baseline, current, c) && TopLevelChange(baseline, current, path);
    }
    RemovalOrRename(out, path);
  }

  /** What a breaking change can be. */
  ghost predicate CanBreak(s: Surface, baseline: seq<Field>, current: seq<Field>, c: Change) {
    match c.name
    case RemovedField(path) => Gone(baseline, current, path) && RemovalBreaks(s, path)
    case TypeOrShapeDrift(path) => path in FlattenKeys(baseline, "") && path in FlattenKeys(current, "")
    case LifecycleSemantic(key) => SemanticsDiffer(s, baseline, current, key)
    case RenameWithoutShadow(_) => true
    case _ => false
  }

  lemma BreakingMeans(s: Surface, shadow: Shadow, baseline: seq<Field>, current: seq<Field>, out: seq<Change>,
                      c: Change)
    requires IsClassification(s, shadow, baseline, current, out) && c in out && c.changeType == Breaking
    ensures CanBreak(s, baseline, current, c)
  {
    var diff, collapsed := StagesOf(s, shadow, baseline, current, out);
    if !c.name.RenameWithoutShadow? {
      assert InDiff(s, baseline, current, c) || IsBridge(shadow, diff, c);
    }
  }

  lemma NothingBreaks(shadow: Shadow, baseline: seq<Field>, current: seq<Field>, out: seq<Change>)
    requires IsClassification(CrmPayload, shadow, baseline, current, out) && !NothingReplaced(shadow, baseline, current)
    requires forall path :: path in FlattenKeys(baseline, "") ==>
               !RemovalBreaks(CrmPayload, path) && path !in FlattenKeys(current, "")
    requires forall key :: !SemanticsDiffer(CrmPayload, baseline, current, key)
    ensures forall c :: c in out ==> c.changeType != Breaking
  {
    RenameReportedWhen(CrmPayload, shadow, baseline, current, out);
    forall c | c in out ensures c.changeType != Breaking {
      if c.changeType == Breaking { BreakingMeans(CrmPayload, shadow, baseline, current, out, c); }
    }
  }

  /** One bridged rename hides another: `a` is replaced by `b`, `x` by `y`, and nothing is breaking. */
  lemma BridgeHidesRename(out: seq<Change>)
    requires IsClassification(CrmPayload, map["a" := "b"], TwoFields("a", "x"), TwoFields("b", "y"), out)
    ensures forall c :: c in out ==> c.changeType != Breaking
  {
    var shadow, baseline, current := map["a" := "b"], TwoFields("a", "x"), TwoFields("b", "y");
    TwoFieldsFlat("a", "x");
    TwoFieldsFlat("b", "y");
    assert Replaced(shadow, baseline, current, "a");
    HarmlessKey("a");
    HarmlessKey("x");
    NoSemantics("a", "x");
    NoSemantics("b", "y");
    NothingBreaks(shadow, baseline, current, out);
  }

  lemma HarmlessKey(k: string)
    requires |k| == 1 && k[0] != '.'
    ensures !RemovalBreaks(CrmPayload, k)
  {
    UndottedIsSegment(k);
  }

  lemma NoSemantics(k: string, l: string)
    requires |k| == |l| == 1
    ensures forall key :: key in LIFECYCLE_SEMANTIC_KEYS ==> GetOrNull(TwoFields(k, l), key) == Null
  {
  }

  function TwoFields(k: string, l: string): seq<Field> {
    [Field(k, Str("")), Field(l, Str(""))]
  }

  lemma TwoFieldsFlat(k: string, l: string)
    requires k != l
    ensures FlattenKeys(TwoFields(k, l), "") == map[k := Str(""), l := Str("")]
  {
    var fields := TwoFields(k, l);
    assert fields[..1][..0] == [] && fields[..1] == [Field(k, Str(""))];
    assert FlattenKeys(fields[..1], "") == map[k := Str("")];
  }

  /** A product loses its title: the only change reported is a deprecation. */
  lemma LostTitleIsDeprecated(out: seq<Change>)
    requires IsClassification(CrmPayload, map[], [Field("title", Str("Phone"))], [], out)
    ensures out == [Change(RemovedField("title"), Deprecation, ConditionallyCompatible)]
  {
    var baseline, current := [Field("title", Str("Phone"))], [];
    var diff, collapsed := StagesOf(CrmPayload, map[], baseline, current, out);
    LostTitleDiff(baseline, current);
    var lost := Removal(CrmPayload, "title");
    forall c ensures c in out <==> c == lost {
      assert InDiff(CrmPayload, baseline, current, lost);
      assert c in diff <==> InDiff(CrmPayload, baseline, current, c);
    }
    SingleChange(out, lost);
  }

  lemma SingleChange(out: seq<Change>, c: Change)
    requires DistinctNames(out) && forall d :: d in out <==> d == c
    ensures out == [c]
  {
    assert c in out;
    assert out[0] in out && out[|out| - 1] in out;
    assert out[0].name == out[|out| - 1].name;
  }

  lemma {:induction false} UndottedIsSegment(path: string)
    requires '.' !in path
    ensures LastSegment(path) == path
  {
    if path != "" { UndottedIsSegment(path[..|path| - 1]); }
  }

  lemma LostTitleDiff(baseline: seq<Field>, current: seq<Field>)
    requires baseline == [Field("title", Str("Phone"))] && current == []
    ensures Removal(CrmPayload, "title") == Change(RemovedField("title"), Deprecation, ConditionallyCompatible)
    ensures forall c :: InDiff(CrmPayload, baseline, current, c) <==> c == Removal(CrmPayload, "title")
  {
    assert FlattenKeys(baseline[..0], "") == map[];
    assert FlattenKeys(baseline, "") == map["title" := Str("Phone")];
    UndottedIsSegment("title");
  }

  /** Changes that are neither removals nor additions are never collapsed away. */
  lemma OthersSurvive(s: Surface, shadow: Shadow, baseline: seq<Field>, current: seq<Field>, out: seq<Change>,
                      c: Change)
    requires IsClassification(s, shadow, baseline, current, out) && InDiff(s, baseline, current, c)
    requires c.name.TypeOrShapeDrift? || c.name.LifecycleSemantic?
    ensures c in out
  {
    var diff, collapsed := StagesOf(s, shadow, baseline, current, out);
    assert c in diff && !Consumed(shadow, diff, c);
  }

  lemma OnlyAdditiveMeansAdditive(s: Surface, shadow: Shadow, baseline: seq<Field>, current: seq<Field>,
                                  out: seq<Change>)
    requires IsClassification(s, shadow, baseline, current, out) && OnlyAdditive(out)
    ensures IsAdditiveFieldChange(baseline, current) && NoSemanticDrift(s, baseline, current)
  {
    var old_, new_ := FlattenKeys(baseline, ""), FlattenKeys(current, "");
    forall path | path in old_ ensures path in new_ && !IsBreakingFieldChange(old_[path], new_[path]) {
      if path !in new_ {
        RemovedSurvivesOrIsBridged(s, shadow, baseline, current, out, path);
      } else if IsBreakingFieldChange(old_[path], new_[path]) {
        OthersSurvive(s, shadow, baseline, current, out, Drift(path));
      }
    }
    forall key ensures !SemanticsDiffer(s, baseline, current, key) {
      if SemanticsDiffer(s, baseline, current, key) {
        OthersSurvive(s, shadow, baseline, current, out, SemanticDrift(key));
      }
    }
    var diff, collapsed := StagesOf(s, shadow, baseline, current, out);
    var c := out[0];
    assert c in out && c in collapsed;
    assert !IsBridge(shadow, diff, c);
    assert InDiff(s, baseline, current, c);
  }

  lemma AdditiveMeansOnlyAdditive(s: Surface, shadow: Shadow, baseline: seq<Field>, current: seq<Field>,
                                  out: seq<Change>)
    requires IsClassification(s, shadow, baseline, current, out)
    requires IsAdditiveFieldChange(baseline, current) && NoSemanticDrift(s, baseline, current)
    ensures OnlyAdditive(out)
  {
    var diff, collapsed := StagesOf(s, shadow, baseline, current, out);
    forall c | c in diff ensures c.name.AddedField? && c.changeType == Additive {
      assert InDiff(s, baseline, current, c);
    }
    forall legacy ensures !Bridged(shadow, diff, legacy) {}
    assert forall c :: c in collapsed <==> c in diff;
    assert out == collapsed;
    var k :| k in FlattenKeys(current, "") && k !in FlattenKeys(baseline, "");
    assert InDiff(s, baseline, current, Addition(k)) && Addition(k) in out;
  }

  /** The two notions of "additive" agree: the diff consists of additive changes only, and of at
      least one, exactly when the payload change is additive and no lifecycle semantic drifts. */
  lemma AdditiveNotionsAgree(s: Surface, shadow: Shadow, baseline: seq<Field>, current: seq<Field>, out: seq<Change>)
    requires IsClassification(s, shadow, baseline, current, out)
    ensures OnlyAdditive(out) <==> IsAdditiveFieldChange(baseline, current) && NoSemanticDrift(s, baseline, current)
  {
    if OnlyAdditive(out) {
      OnlyAdditiveMeansAdditive(s, shadow, baseline, current, out);
    }
    if IsAdditiveFieldChange(baseline, current) && NoSemanticDrift(s, baseline, current) {
      AdditiveMeansOnlyAdditive(s, shadow, baseline, current, out);
    }
  }

  /** A shared path whose value changes shape is reported as drift. */
  lemma DriftReported(s: Surface, shadow: Shadow, baseline: seq<Field>, current: seq<Field>, out: seq<Change>, p: Path)
    requires IsClassification(s, shadow, baseline, current, out) && PlainDict(baseline) && PlainDict(current)
    requires p != [] && Reach(baseline, p).Some? && Reach(current, p).Some?
    requires ShapeOf(Reach(baseline, p).value) != ShapeOf(Reach(current, p).value)
    ensures Drift(Dotted("", p)) in out
  {
    ReachedIsFlattened(baseline, "", p);
    ReachedIsFlattened(current, "", p);
    BreakingIsShapeChange(Reach(baseline, p).value, Reach(current, p).value);
    OthersSurvive(s, shadow, baseline, current, out, Drift(Dotted("", p)));
  }

  /** A value that goes, comes or changes shape deep inside is reported as drift at every
      ancestor path the two payloads share. */
  lemma DriftAtEverySharedAncestor(s: Surface, shadow: Shadow, baseline: seq<Field>, current: seq<Field>,
                                   out: seq<Change>, p: Path, n: nat)
    requires IsClassification(s, shadow, baseline, current, out) && PlainDict(baseline) && PlainDict(current)
    requires 0 < n < |p| && Reach(baseline, p[..n]).Some? && Reach(current, p[..n]).Some?
    requires Reach(baseline, p).Some? || Reach(current, p).Some?
    requires Reach(baseline, p).Some? && Reach(current, p).Some? ==>
               ShapeOf(Reach(baseline, p).value) != ShapeOf(Reach(current, p).value)
    ensures Drift(Dotted("", p[..n])) in out
  {
    if Reach(baseline, p).Some? {
      DifferenceShowsAtAncestor(baseline, current, p, n);
    } else {
      DifferenceShowsAtAncestor(current, baseline, p, n);
    }
    DriftReported(s, shadow, baseline, current, out, p[..n]);
  }
}
