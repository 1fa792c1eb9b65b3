/** The candidate-to-result loop of `map_raw_specs_to_typed_partial`. */
module SpecMapper {
  import opened Ordering
  import opened Wrappers
  import opened SpecConfidence
  import opened SpecResolution

  type Candidates = map<string, seq<Candidate>>

  predicate HasValue(rows: seq<Candidate>) {
    exists i :: 0 <= i < |rows| && rows[i].value.Some?
  }

  /** The suppressions recorded for one field. */
  function SuppressedOf(suppressed: seq<Suppressed>, field: string): seq<Suppressed> {
    if suppressed == [] then []
    else
      var last := suppressed[|suppressed| - 1];
      SuppressedOf(suppressed[..|suppressed| - 1], field) + if last.fieldName == field then [last] else []
  }

  /** A field with some value is emitted or suppressed once, never both; one without is neither. */
  ghost predicate Accounted(candidates: Candidates, resolved: map<string, Value>, suppressed: seq<Suppressed>,
                            field: string)
    requires field in candidates
  {
    |SuppressedOf(suppressed, field)| + (if field in resolved then 1 else 0) ==
    if HasValue(candidates[field]) then 1 else 0
  }

  /** What is emitted is a plausible candidate of that very field. */
  ghost predicate EmittedSoundly(candidates: Candidates, resolved: map<string, Value>, field: string)
    requires field in candidates
  {
    field in resolved ==>
      Plausible(field, resolved[field]) && exists c :: c in candidates[field] && c.value == Some(resolved[field])
  }

  /** Its confidence is in range and, when gating is on, at the threshold. */
  predicate GoodEnough(cfg: Settings, fc: FieldConfidence) {
    InRange(fc) && (cfg.suppression && cfg.confidence ==> fc.confidence >= cfg.threshold)
  }

  /** What the loop collects. */
  datatype Mapped = Mapped(
    resolved: map<string, Value>, confidence: map<string, FieldConfidence>, suppressed: seq<Suppressed>,
    warnings: seq<string>, conflicting: seq<string>)

  /** `r` is what becomes of the rows of one field. */
  ghost predicate ResolvedTo(lib: Library, cfg: Settings, field: string, rows: seq<Candidate>, r: Resolution) {
    PresentMembers(rows);
    IsResolution(lib, cfg, field, Present(rows), r)
  }

  /** What is filed for a field is exactly what its resolution says. */
  ghost predicate FiledAs(m: Mapped, field: string, r: Resolution) {
    && r.chosen == (if field in m.resolved then Some(m.resolved[field]) else None)
    && (field in m.confidence ==> r.confidences == [m.confidence[field]])
    && SuppressedOf(m.suppressed, field) == r.suppressed
  }

  ghost predicate Follows(lib: Library, cfg: Settings, rows: seq<Candidate>, m: Mapped, field: string) {
    exists r :: ResolvedTo(lib, cfg, field, rows, r) && FiledAs(m, field, r)
  }

  ghost predicate AllFollow(lib: Library, cfg: Settings, candidates: Candidates, done: seq<string>, m: Mapped) {
    forall f :: f in done && f in candidates ==> Follows(lib, cfg, candidates[f], m, f)
  }

  ghost predicate MappedSoFar(lib: Library, cfg: Settings, candidates: Candidates, done: seq<string>, m: Mapped) {
    && AllFollow(lib, cfg, candidates, done, m)
    && OnlyTouched(done, m)
    && AllConfident(cfg, m.resolved, m.confidence)
    && AllWarned(lib, candidates, done, m.warnings, m.conflicting, m.suppressed)
  }

  /** What the mapping of all fields promises. */
  ghost predicate IsMapping(lib: Library, cfg: Settings, candidates: Candidates, m: Mapped) {
    && (forall f :: f in candidates ==> Follows(lib, cfg, candidates[f], m, f))
    && (forall f :: f in candidates ==>
          Accounted(candidates, m.resolved, m.suppressed, f) && EmittedSoundly(candidates, m.resolved, f))
    && m.resolved.Keys <= candidates.Keys && (forall s :: s in m.suppressed ==> s.fieldName in candidates)
    && AllConfident(cfg, m.resolved, m.confidence)
    && NoDuplicates(m.conflicting)
    && (forall f :: f in m.conflicting <==> f in candidates && Conflicted(lib, f, candidates[f]))
    && NoDuplicates(m.warnings) && WarningsFit(m.warnings, m.conflicting != [], m.suppressed)
  }

  lemma MappedAll(lib: Library, cfg: Settings, candidates: Candidates, order: seq<string>, m: Mapped)
    requires MappedSoFar(lib, cfg, candidates, order, m) && forall f :: f in order <==> f in candidates.Keys
    ensures IsMapping(lib, cfg, candidates, m)
  {
    forall f | f in candidates
      ensures Follows(lib, cfg, candidates[f], m, f)
      ensures Accounted(candidates, m.resolved, m.suppressed, f) && EmittedSoundly(candidates, m.resolved, f)
    {
      assert f in order;
      FollowsIsSound(lib, cfg, candidates, m, f);
    }
  }

  lemma NextIsNew(order: seq<string>, n: nat)
    requires NoDuplicates(order) && n < |order|
    ensures order[n] in order && order[n] !in order[..n] && order[..n + 1] == order[..n] + [order[n]]
  {
  }

  method ResolveFields(lib: Library, cfg: Settings, candidates: Candidates) returns (m: Mapped)
    ensures IsMapping(lib, cfg, candidates, m)
  {
    m := Mapped(map[], map[], [], [], []);
    NothingMapped(lib, cfg, candidates);
    var order := Enumerate(candidates.Keys);
    ghost var done := [];
    for n := 0 to |order|
      invariant done == order[..n] && MappedSoFar(lib, cfg, candidates, done, m)
    {
      NextIsNew(order, n);
      m := MapField(lib, cfg, candidates, done, m, order[n]);
      done := done + [order[n]];
    }
    MappedAll(lib, cfg, candidates, order, m);
  }

  lemma NothingMapped(lib: Library, cfg: Settings, candidates: Candidates)
    ensures MappedSoFar(lib, cfg, candidates, [], Mapped(map[], map[], [], [], []))
  {
  }

  /** The body of the loop: one field's rows are resolved, and the outcome is filed. */
  method MapField(lib: Library, cfg: Settings, candidates: Candidates, ghost done: seq<string>, m0: Mapped,
                  field: string) returns (m: Mapped)
    requires field in candidates && field !in done && MappedSoFar(lib, cfg, candidates, done, m0)
    ensures MappedSoFar(lib, cfg, candidates, done + [field], m)
  {
    var r := ResolveField(lib, cfg, field, candidates[field]);
    var suppressed := m0.suppressed + r.suppressed;
    var conflicting := m0.conflicting;
    if "conflicting_values" in r.warnings { conflicting := conflicting + [field]; }
    var warnings := AddWarnings(m0.warnings, r.warnings);
    StepWarned(lib, candidates, done, m0.warnings, m0.conflicting, m0.suppressed, field, r, warnings);
    var resolved, confidence := FileOutcome(cfg, m0.resolved, m0.confidence, field, r);
    m := Mapped(resolved, confidence, suppressed, warnings, conflicting);
    StepFollows(lib, cfg, candidates, done, m0, field, r, m);
  }

  /** `m` is `m0` with the resolution of one more field filed. */
  ghost predicate Filed(cfg: Settings, m0: Mapped, field: string, r: Resolution, m: Mapped) {
    && m.suppressed == m0.suppressed + r.suppressed
    && m.resolved == (if r.chosen.Some? then m0.resolved[field := r.chosen.value] else m0.resolved)
    && m.confidence == WithConfidence(cfg, m0.confidence, field, r)
  }

  lemma StepFollows(lib: Library, cfg: Settings, candidates: Candidates, done: seq<string>, m0: Mapped, field: string,
                    r: Resolution, m: Mapped)
    requires field in candidates && field !in done && AllFollow(lib, cfg, candidates, done, m0)
    requires OnlyTouched(done, m0) && AllConfident(cfg, m0.resolved, m0.confidence)
    requires ResolvedTo(lib, cfg, field, candidates[field], r) && FieldSettled(field, r) && Filed(cfg, m0, field, r, m)
    ensures AllFollow(lib, cfg, candidates, done + [field], m) && OnlyTouched(done + [field], m)
  {
    NewlyFiled(cfg, done, m0, field, r, m);
    assert Follows(lib, cfg, candidates[field], m, field);
    EarlierFollow(lib, cfg, candidates, done, m0, field, r, m);
  }

  lemma EarlierFollow(lib: Library, cfg: Settings, candidates: Candidates, done: seq<string>, m0: Mapped,
                      field: string, r: Resolution, m: Mapped)
    requires AllFollow(lib, cfg, candidates, done, m0) && field !in done
    requires Filed(cfg, m0, field, r, m) && FieldSettled(field, r)
    ensures AllFollow(lib, cfg, candidates, done, m)
  {
    forall f | f in done && f in candidates ensures Follows(lib, cfg, candidates[f], m, f) {
      StillFollows(lib, cfg, candidates[f], m0, field, r, m, f);
    }
  }

  lemma NewlyFiled(cfg: Settings, done: seq<string>, m0: Mapped, field: string, r: Resolution, m: Mapped)
    requires Filed(cfg, m0, field, r, m) && FieldSettled(field, r)
    requires field !in done && OnlyTouched(done, m0) && AllConfident(cfg, m0.resolved, m0.confidence)
    ensures FiledAs(m, field, r)
  {
    NotSuppressedYet(m0.suppressed, field, done);
    SuppressedConcat(m0.suppressed, r.suppressed, field);
    SingleSuppression(r, field, field);
  }

  lemma StillFollows(lib: Library, cfg: Settings, rows: seq<Candidate>, m0: Mapped, field: string, r: Resolution,
                     m: Mapped, f: string)
    requires Filed(cfg, m0, field, r, m) && FieldSettled(field, r) && f != field
    requires Follows(lib, cfg, rows, m0, f)
    ensures Follows(lib, cfg, rows, m, f)
  {
    SuppressedConcat(m0.suppressed, r.suppressed, f);
    SingleSuppression(r, field, f);
    var q :| ResolvedTo(lib, cfg, f, rows, q) && FiledAs(m0, f, q);
    assert FiledAs(m, f, q);
  }

  function WithConfidence(cfg: Settings, confidence: map<string, FieldConfidence>, field: string,
                          r: Resolution): map<string, FieldConfidence> {
    if r.chosen.Some? && |r.confidences| == 1 && cfg.confidence then confidence[field := r.confidences[0]]
      else confidence
  }

  method FileOutcome(cfg: Settings, resolved0: map<string, Value>, confidence0: map<string, FieldConfidence>,
                     field: string, r: Resolution)
    returns (resolved: map<string, Value>, confidence: map<string, FieldConfidence>)
    requires AllConfident(cfg, resolved0, confidence0)
    requires r.chosen.Some? ==> |r.confidences| == 1 && GoodEnough(cfg, r.confidences[0])
    ensures resolved == if r.chosen.Some? then resolved0[field := r.chosen.value] else resolved0
    ensures AllConfident(cfg, resolved, confidence) && confidence == WithConfidence(cfg, confidence0, field, r)
  {
    resolved, confidence := resolved0, confidence0;
    if r.chosen.Some? && |r.confidences| == 1 {
      if cfg.confidence { confidence := confidence[field := r.confidences[0]]; }
      resolved := resolved[field := r.chosen.value];
    }
  }

  method ResolveField(lib: Library, cfg: Settings, field: string, rows: seq<Candidate>) returns (r: Resolution)
    ensures ResolvedTo(lib, cfg, field, rows, r) && FieldSettled(field, r)
    ensures r.chosen.Some? ==> GoodEnough(cfg, r.confidences[0])
    ensures WarningsFit(r.warnings, Conflicted(lib, field, rows), r.suppressed)
  {
    r := ResolveTypedFieldCandidates(lib, cfg, field, rows);
    ResolvedIsSettled(lib, cfg, field, rows, r);
    ResolutionWarns(lib, cfg, field, rows, r);
  }

  /** Nothing but the fields handled so far has been touched. */
  ghost predicate OnlyTouched(done: seq<string>, m: Mapped) {
    (forall f :: f in m.resolved ==> f in done) && (forall s :: s in m.suppressed ==> s.fieldName in done)
  }

  /** Suppressions name their field, and nothing is both emitted and suppressed. */
  ghost predicate FieldSettled(field: string, r: Resolution) {
    && (r.suppressed == [] || (|r.suppressed| == 1 && r.suppressed[0].fieldName == field))
    && (r.chosen.Some? ==> r.suppressed == [] && |r.confidences| == 1)
  }

  lemma ResolvedIsSettled(lib: Library, cfg: Settings, field: string, rows: seq<Candidate>, r: Resolution)
    requires ResolvedTo(lib, cfg, field, rows, r)
    ensures FieldSettled(field, r) && (r.chosen.Some? ==> GoodEnough(cfg, r.confidences[0]))
    ensures |r.suppressed| + (if r.chosen.Some? then 1 else 0) == if HasValue(rows) then 1 else 0
    ensures r.chosen.Some? ==> Plausible(field, r.chosen.value) && exists c :: c in rows && c.value == r.chosen
  {
    PresentMembers(rows);
    ResolutionIsSound(lib, cfg, field, rows, r);
    if HasValue(rows) {
      var i :| 0 <= i < |rows| && rows[i].value.Some?;
      assert rows[i] in rows;
    } else {
      forall c | c in rows ensures c.value.None? {
        var i :| 0 <= i < |rows| && rows[i] == c;
      }
    }
  }

  /** So what follows the resolutions is accounted for and sound. */
  lemma FollowsIsSound(lib: Library, cfg: Settings, candidates: Candidates, m: Mapped, field: string)
    requires field in candidates && Follows(lib, cfg, candidates[field], m, field)
    ensures Accounted(candidates, m.resolved, m.suppressed, field) && EmittedSoundly(candidates, m.resolved, field)
  {
    var r :| ResolvedTo(lib, cfg, field, candidates[field], r) && FiledAs(m, field, r);
    ResolvedIsSettled(lib, cfg, field, candidates[field], r);
  }

  lemma SingleSuppression(r: Resolution, field: string, f: string)
    requires r.suppressed == [] || (|r.suppressed| == 1 && r.suppressed[0].fieldName == field)
    ensures SuppressedOf(r.suppressed, f) == if f == field then r.suppressed else []
  {
    if r.suppressed != [] { assert r.suppressed[..0] == []; }
  }

  /** Confidences are kept for the emitted fields, all good enough, or not at all. */
  ghost predicate AllConfident(cfg: Settings, resolved: map<string, Value>, confidence: map<string, FieldConfidence>) {
    && confidence.Keys == (if cfg.confidence then resolved.Keys else {})
    && forall f :: f in confidence ==> GoodEnough(cfg, confidence[f])
  }

  /** The warnings fit the outcomes of the fields handled so far, and those in conflict are listed. */
  ghost predicate AllWarned(lib: Library, candidates: Candidates, done: seq<string>, warnings: seq<string>,
                            conflicting: seq<string>, suppressed: seq<Suppressed>) {
    && NoDuplicates(conflicting)
    && (forall f :: f in conflicting <==> f in done && f in candidates && Conflicted(lib, f, candidates[f]))
    && NoDuplicates(warnings) && WarningsFit(warnings, conflicting != [], suppressed)
  }

  lemma StepWarned(lib: Library, candidates: Candidates, done: seq<string>, warnings: seq<string>,
                   conflicting: seq<string>,
                   suppressed: seq<Suppressed>, field: string, r: Resolution, all: seq<string>)
    requires AllWarned(lib, candidates, done, warnings, conflicting, suppressed)
    requires field in candidates && field !in done
    requires WarningsFit(r.warnings, Conflicted(lib, field, candidates[field]), r.suppressed)
    requires NoDuplicates(all) && forall w :: w in all <==> w in warnings || w in r.warnings
    ensures AllWarned(lib, candidates, done + [field], all,
                      if "conflicting_values" in r.warnings then conflicting + [field] else conflicting,
                      suppressed + r.suppressed)
  {
    SuppressedByConcat(suppressed, r.suppressed, ByPlausibility);
    SuppressedByConcat(suppressed, r.suppressed, ByConfidence);
  }

  lemma SuppressedByConcat(a: seq<Suppressed>, b: seq<Suppressed>, code: SuppressionCode)
    ensures SuppressedBy(a + b, code) <==> SuppressedBy(a, code) || SuppressedBy(b, code)
  {
    if SuppressedBy(a, code) { var s :| s in a && s.reasonCode == code; assert s in a + b; }
    if SuppressedBy(b, code) { var s :| s in b && s.reasonCode == code; assert s in a + b; }
  }

  method AddWarnings(warnings0: seq<string>, extra: seq<string>) returns (warnings: seq<string>)
    requires NoDuplicates(warnings0)
    ensures NoDuplicates(warnings)
    ensures forall w :: w in warnings <==> w in warnings0 || w in extra
  {
    warnings := warnings0;
    for k := 0 to |extra|
      invariant NoDuplicates(warnings)
      invariant forall w :: w in warnings <==> w in warnings0 || w in extra[..k]
    {
      if extra[k] !in warnings { warnings := warnings + [extra[k]]; }
    }
  }

  lemma {:induction false} SuppressedConcat(a: seq<Suppressed>, b: seq<Suppressed>, field: string)
    ensures SuppressedOf(a + b, field) == SuppressedOf(a, field) + SuppressedOf(b, field)
  {
    if b == [] {
      assert a + b == a;
    } else {
      assert (a + b)[..|a + b| - 1] == a + b[..|b| - 1];
      SuppressedConcat(a, b[..|b| - 1], field);
    }
  }

  lemma {:induction false} NotSuppressedYet(suppressed: seq<Suppressed>, field: string, done: seq<string>)
    requires field !in done && forall s :: s in suppressed ==> s.fieldName in done
    ensures SuppressedOf(suppressed, field) == []
  {
    if suppressed != [] {
      assert suppressed[|suppressed| - 1] in suppressed;
      NotSuppressedYet(suppressed[..|suppressed| - 1], field, done);
    }
  }
}
