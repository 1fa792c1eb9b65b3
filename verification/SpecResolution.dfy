/** `resolve_typed_field_candidates`: one typed value per field, or a recorded suppression. */
module SpecResolution {
  import opened Ordering
  import opened Wrappers
  import opened SpecConfidence

  datatype Candidate = Candidate(rawLabel: string, rawValue: string, value: Option<Value>, hints: Hints)

  datatype SuppressionCode = ByPlausibility | ByConfidence | ByConflict

  datatype Suppressed = Suppressed(fieldName: string, rawValues: seq<string>, reasonCode: SuppressionCode,
                                   details: Option<string>)

  datatype Resolution = Resolution(
    chosen: Option<Value>, warnings: seq<string>, confidences: seq<FieldConfidence>, suppressed: seq<Suppressed>)

  /** Gating switches and the minimum confidence of the category at hand. */
  datatype Settings = Settings(confidence: bool, suppression: bool, threshold: real)

  // ----- values

  function Abs(x: real): real {
    if x < 0.0 then -x else x
  }

  /** `_equivalent` on values that are present. */
  predicate Equivalent(lib: Library, a: Value, b: Value) {
    if IsNumber(a) && IsNumber(b) then Abs(AsReal(a) - AsReal(b)) < 0.000001
    else lib.plainText(a) == lib.plainText(b)
  }

  /** Numbers are equivalent when they all but agree, a truth value counting as one or none; texts, and a text
      and a number, when they read the same. */
  lemma EquivalentMeans(lib: Library, a: Value, b: Value, i: int, j: int, t: bool)
    ensures IsNumber(a) && IsNumber(b) ==>
              (Equivalent(lib, a, b) <==> -0.000001 < AsReal(a) - AsReal(b) < 0.000001)
    ensures Equivalent(lib, Whole(i), Whole(j)) <==> i == j
    ensures Equivalent(lib, Truth(t), Whole(i)) <==> i == if t then 1 else 0
    ensures a.Words? || b.Words? ==> (Equivalent(lib, a, b) <==> lib.plainText(a) == lib.plainText(b))
  {
    if i != j { assert Abs(i as real - j as real) >= 1.0; }
  }

  function Larger(x: real, y: real): real {
    if x < y then y else x
  }

  /** How far apart two numbers are, relative to the larger one. */
  function Gap(x: real, y: real): real {
    Abs(x - y) / Larger(Larger(Abs(x), Abs(y)), 0.000000001)
  }

  predicate Compatible(lib: Library, a: Value, b: Value) {
    || Equivalent(lib, a, b)
    || (IsNumber(a) && IsNumber(b) &&
        var x, y := AsReal(a), AsReal(b);
        (x == 0.0 && y == 0.0) || Gap(x, y) <= 0.05)
  }

  /** `int()` of a number: truncation toward zero. */
  function Truncate(x: real): int {
    if x < 0.0 then -((-x).Floor) else x.Floor
  }

  predicate Plausible(field: string, v: Value) {
    match field
    case "ram_gb" => IsNumber(v) && 1 <= Truncate(AsReal(v)) <= 128
    case "storage_gb" => IsNumber(v) && 1 <= Truncate(AsReal(v)) <= 8192
    case "display_size_inch" => IsNumber(v) && 1.0 <= AsReal(v) <= 100.0
    case "battery_mah" => IsNumber(v) && 500 <= Truncate(AsReal(v)) <= 20000
    case "weight_g" => IsNumber(v) && 50 <= Truncate(AsReal(v)) <= 100000
    case "weight_kg" => IsNumber(v) && 0.05 <= AsReal(v) <= 80.0
    case _ => true
  }

  /** The values a field accepts, as ranges of the real number; where the source truncates, the last unit counts
      in full. */
  lemma PlausibleRanges(field: string, v: Value)
    ensures !IsNumber(v) ==>
              (Plausible(field, v) <==>
               field !in {"ram_gb", "storage_gb", "display_size_inch", "battery_mah", "weight_g", "weight_kg"})
    ensures IsNumber(v) ==>
              var x := AsReal(v);
              && (field == "ram_gb" ==> (Plausible(field, v) <==> 1.0 <= x < 129.0))
              && (field == "storage_gb" ==> (Plausible(field, v) <==> 1.0 <= x < 8193.0))
              && (field == "display_size_inch" ==> (Plausible(field, v) <==> 1.0 <= x <= 100.0))
              && (field == "battery_mah" ==> (Plausible(field, v) <==> 500.0 <= x < 20001.0))
              && (field == "weight_g" ==> (Plausible(field, v) <==> 50.0 <= x < 100001.0))
              && (field == "weight_kg" ==> (Plausible(field, v) <==> 0.05 <= x <= 80.0))
    ensures field !in {"ram_gb", "storage_gb", "display_size_inch", "battery_mah", "weight_g", "weight_kg"} ==>
              Plausible(field, v)
  {
  }

  predicate ShouldSuppress(cfg: Settings, fc: FieldConfidence) {
    cfg.suppression && cfg.confidence && fc.confidence < cfg.threshold
  }

  // ----- rows

  function Present(candidates: seq<Candidate>): seq<Candidate> {
    if candidates == [] then []
    else if candidates[0].value.Some? then [candidates[0]] + Present(candidates[1..])
    else Present(candidates[1..])
  }

  ghost predicate AllPresent(rows: seq<Candidate>) {
    forall i :: 0 <= i < |rows| ==> rows[i].value.Some?
  }

  lemma {:induction false} PresentMembers(candidates: seq<Candidate>)
    ensures AllPresent(Present(candidates))
    ensures forall c :: c in Present(candidates) <==> c in candidates && c.value.Some?
  {
    if candidates != [] { PresentMembers(candidates[1..]); }
  }

  /** Rows without a value are left out; the others keep their order. */
  lemma {:induction false} PresentInOrder(a: seq<Candidate>, c: Candidate, b: seq<Candidate>)
    ensures Present(a + [c] + b) == Present(a) + (if c.value.Some? then [c] else []) + Present(b)
  {
    if a == [] {
      assert (a + [c] + b)[1..] == b;
    } else {
      assert (a + [c] + b)[1..] == a[1..] + [c] + b;
      PresentInOrder(a[1..], c, b);
    }
  }

  function RawValues(rows: seq<Candidate>): seq<string> {
    seq(|rows|, i requires 0 <= i < |rows| => rows[i].rawValue)
  }

  function ScoreRow(lib: Library, field: string, c: Candidate): FieldConfidence {
    Score(lib, field, c.rawLabel, c.rawValue, c.hints)
  }

  /** Scoring of rows that are all rejected: as implausible, or with a conflict warning. */
  function RejectedHints(h: Hints, implausible: bool): Hints {
    if implausible
    then Hints([], h.directKey, h.rulePriority, h.deprecatedAlias, h.ambiguousAlias, h.missingUnit, false, false, true)
    else Hints(h.warnings + ["conflicting_values"], h.directKey, h.rulePriority, h.deprecatedAlias, h.ambiguousAlias,
               h.missingUnit, false, false, false)
  }

  /** A row scored on its own merits; the implausibility hint is only read when picking a best row. */
  function KeptHints(h: Hints): Hints {
    h.(implausible := false)
  }

  function ScoreAll(lib: Library, field: string, rows: seq<Candidate>, hints: Hints -> Hints): seq<FieldConfidence> {
    seq(|rows|, i requires 0 <= i < |rows| => ScoreRow(lib, field, rows[i].(hints := hints(rows[i].hints))))
  }

  function SameHints(h: Hints): Hints { h }

  function ImplausibleHints(h: Hints): Hints { RejectedHints(h, true) }

  function ConflictHints(h: Hints): Hints { RejectedHints(h, false) }

  /** The codes a rejected row carries. Rejected as implausible it says so, and forgets what it was warned of;
      in a conflict it keeps its warnings and adds the conflict. */
  lemma RejectedCodes(lib: Library, field: string, rawLabel: string, raw: string, h: Hints, code: string)
    ensures code in Score(lib, field, rawLabel, raw, ImplausibleHints(h)).warnings <==>
              code == "implausible_value" || FlaggedBy(lib, field, raw, h, code)
    ensures code in Score(lib, field, rawLabel, raw, ConflictHints(h)).warnings <==>
              code == "conflicting_values" || code in h.warnings || FlaggedBy(lib, field, raw, h, code)
  {
    RowCodesMembers(lib, field, raw, ImplausibleHints(h), code);
    RowCodesMembers(lib, field, raw, ConflictHints(h), code);
  }

  /** The codes that every scoring of a row reads off its hints. */
  predicate FlaggedBy(lib: Library, field: string, raw: string, h: Hints, code: string) {
    || (code == "missing_unit" && LacksUnit(lib, field, raw, h))
    || (code == "deprecated_alias" && h.deprecatedAlias) || (code == "ambiguous_alias" && h.ambiguousAlias)
  }

  /** A rejected row scores as it would without a store's exact match or a correction, and 0.35 less when
      implausible. */
  lemma RejectedScores(unit: bool, grounded: bool, h: Hints)
    ensures var plain := h.(storeOverrideExact := false, correctedValue := false, implausible := false);
            && HintScore(unit, grounded, ConflictHints(h)) == HintScore(unit, grounded, plain)
            && HintScore(unit, grounded, ImplausibleHints(h)) == HintScore(unit, grounded, plain) - 0.35
  {
    var plain := h.(storeOverrideExact := false, correctedValue := false, implausible := false);
    ValueLosses(unit, grounded, plain);
    assert HintScore(unit, grounded, ImplausibleHints(h)) == HintScore(unit, grounded, plain.(implausible := true));
  }

  /** A row scored on its own merits carries an implausibility only if it came with one. */
  lemma KeptCodes(lib: Library, field: string, rawLabel: string, raw: string, h: Hints)
    ensures "implausible_value" in Score(lib, field, rawLabel, raw, KeptHints(h)).warnings <==>
              "implausible_value" in h.warnings
    ensures HintScore(false, false, KeptHints(h)) >= HintScore(false, false, h)
    ensures !h.implausible ==> KeptHints(h) == h
  {
    RowCodesMembers(lib, field, raw, KeptHints(h), "implausible_value");
  }

  method ScoreRows(lib: Library, field: string, rows: seq<Candidate>, hints: Hints -> Hints)
    returns (fcs: seq<FieldConfidence>)
    ensures fcs == ScoreAll(lib, field, rows, hints)
  {
    fcs := [];
    for i := 0 to |rows|
      invariant fcs == ScoreAll(lib, field, rows, hints)[..i]
    {
      var fc := ScoreTypedFieldConfidence(lib, field, rows[i].rawLabel, rows[i].rawValue, hints(rows[i].hints));
      fcs := fcs + [fc];
    }
  }

  lemma ScoresInRange(lib: Library, field: string, rows: seq<Candidate>, hints: Hints -> Hints)
    ensures forall i :: 0 <= i < |rows| ==> InRange(ScoreAll(lib, field, rows, hints)[i])
  {
    forall i | 0 <= i < |rows| ensures InRange(ScoreAll(lib, field, rows, hints)[i]) {
      var h := hints(rows[i].hints);
      ClampInRange(RawScore(lib, field, rows[i].rawValue, h));
      assert ScoreAll(lib, field, rows, hints)[i] == Score(lib, field, rows[i].rawLabel, rows[i].rawValue, h);
    }
  }

  lemma ClampInRange(x: real)
    ensures LOWEST <= Clamp(x) <= HIGHEST
  {
  }

  // ----- the best of a compatible cluster

  datatype Scored = Scored(confidence: real, index: nat)

  /** Highest score first, earliest row among equals. */
  predicate ScoredLe(a: Scored, b: Scored) {
    a.confidence > b.confidence || (a.confidence == b.confidence && a.index <= b.index)
  }

  function ScoredRows(fcs: seq<FieldConfidence>): seq<Scored> {
    seq(|fcs|, i requires 0 <= i < |fcs| => Scored(fcs[i].confidence, i))
  }

  function Ranking(fcs: seq<FieldConfidence>): seq<Scored> {
    Sort(ScoredRows(fcs), ScoredLe)
  }

  lemma RankingRows(fcs: seq<FieldConfidence>)
    ensures |Ranking(fcs)| == |fcs|
    ensures forall i :: 0 <= i < |fcs| ==>
              Ranking(fcs)[i].index < |fcs| && Ranking(fcs)[i].confidence == fcs[Ranking(fcs)[i].index].confidence
    ensures SortedBy(Ranking(fcs), ScoredLe)
    ensures forall i :: 0 <= i < |fcs| ==> Scored(fcs[i].confidence, i) in Ranking(fcs)
  {
    assert TotalPreorder(ScoredLe);
    SortContents(ScoredRows(fcs), ScoredLe);
    SortSorted(ScoredRows(fcs), ScoredLe);
    SameElements(ScoredRows(fcs), Ranking(fcs));
    forall i | 0 <= i < |fcs|
      ensures Ranking(fcs)[i].index < |fcs| && Ranking(fcs)[i].confidence == fcs[Ranking(fcs)[i].index].confidence {
      assert Ranking(fcs)[i] in ScoredRows(fcs);
    }
    forall i | 0 <= i < |fcs| ensures Scored(fcs[i].confidence, i) in Ranking(fcs) {
      assert ScoredRows(fcs)[i] in ScoredRows(fcs);
    }
  }

  /** The scores, in ranking order, of the plausible rows compatible with the best one. */
  function Supporting(lib: Library, field: string, rows: seq<Candidate>, fcs: seq<FieldConfidence>,
                      ranking: seq<Scored>, best: Value): seq<FieldConfidence>
    requires |rows| == |fcs| && AllPresent(rows) && forall i :: 0 <= i < |ranking| ==> ranking[i].index < |rows|
  {
    if ranking == [] then []
    else
      var rest := Supporting(lib, field, rows, fcs, ranking[1..], best);
      var v := rows[ranking[0].index].value.value;
      if Compatible(lib, v, best) && Plausible(field, v) then [fcs[ranking[0].index]] + rest else rest
  }

  lemma {:induction false} SupportingMembers(lib: Library, field: string, rows: seq<Candidate>,
                                             fcs: seq<FieldConfidence>, ranking: seq<Scored>, best: Value)
    requires |rows| == |fcs| && AllPresent(rows) && forall i :: 0 <= i < |ranking| ==> ranking[i].index < |rows|
    ensures forall fc :: fc in Supporting(lib, field, rows, fcs, ranking, best) ==> fc in fcs
    ensures forall r ::
              r in ranking && Compatible(lib, rows[r.index].value.value, best)
                && Plausible(field, rows[r.index].value.value) ==>
              fcs[r.index] in Supporting(lib, field, rows, fcs, ranking, best)
  {
    if ranking != [] { SupportingMembers(lib, field, rows, fcs, ranking[1..], best); }
  }

  /** The row supports the best value: compatible with it and plausible. */
  predicate Supports(lib: Library, field: string, c: Candidate, best: Value) {
    c.value.Some? && Compatible(lib, c.value.value, best) && Plausible(field, c.value.value)
  }

  function Supporters(lib: Library, field: string, rows: seq<Candidate>, best: Value): nat {
    if rows == [] then 0
    else
      Supporters(lib, field, rows[..|rows| - 1], best)
      + if Supports(lib, field, rows[|rows| - 1], best) then 1 else 0
  }

  function CountIf(s: seq<Scored>, of: Scored -> bool): nat {
    if s == [] then 0 else (if of(s[0]) then 1 else 0) + CountIf(s[1..], of)
  }

  lemma {:induction false} InsertCounts(x: Scored, s: seq<Scored>, of: Scored -> bool)
    ensures CountIf(Insert(x, s, ScoredLe), of) == CountIf(s, of) + if of(x) then 1 else 0
  {
    if s != [] && !ScoredLe(x, s[0]) {
      InsertCounts(x, s[1..], of);
      assert ([s[0]] + Insert(x, s[1..], ScoredLe))[1..] == Insert(x, s[1..], ScoredLe);
    } else {
      assert ([x] + s)[1..] == s;
    }
  }

  lemma {:induction false} SortCounts(s: seq<Scored>, of: Scored -> bool)
    ensures CountIf(Sort(s, ScoredLe), of) == CountIf(s, of)
  {
    if s != [] {
      SortCounts(s[1..], of);
      InsertCounts(s[0], Sort(s[1..], ScoredLe), of);
    }
  }

  lemma CountSnoc(s: seq<Scored>, x: Scored, of: Scored -> bool)
    ensures CountIf(s + [x], of) == CountIf(s, of) + if of(x) then 1 else 0
    decreases |s|
  {
    if s != [] {
      assert (s + [x])[1..] == s[1..] + [x];
      CountSnoc(s[1..], x, of);
    } else {
      assert s + [x] == [x];
    }
  }

  lemma {:induction false} SupportersCounted(lib: Library, field: string, rows: seq<Candidate>,
                                             fcs: seq<FieldConfidence>, best: Value, of: Scored -> bool)
    requires |rows| == |fcs|
    requires forall r: Scored :: r.index < |rows| ==> (of(r) <==> Supports(lib, field, rows[r.index], best))
    ensures CountIf(ScoredRows(fcs), of) == Supporters(lib, field, rows, best)
  {
    if rows != [] {
      var n := |rows| - 1;
      forall r: Scored | r.index < n ensures of(r) <==> Supports(lib, field, rows[..n][r.index], best) {}
      SupportersCounted(lib, field, rows[..n], fcs[..n], best, of);
      assert ScoredRows(fcs) == ScoredRows(fcs[..n]) + [Scored(fcs[n].confidence, n)];
      CountSnoc(ScoredRows(fcs[..n]), Scored(fcs[n].confidence, n), of);
    }
  }

  lemma {:induction false} SupportingCount(lib: Library, field: string, rows: seq<Candidate>,
                                           fcs: seq<FieldConfidence>, ranking: seq<Scored>, best: Value,
                                           of: Scored -> bool)
    requires |rows| == |fcs| && AllPresent(rows) && forall i :: 0 <= i < |ranking| ==> ranking[i].index < |rows|
    requires forall r: Scored :: r.index < |rows| ==> (of(r) <==> Supports(lib, field, rows[r.index], best))
    ensures |Supporting(lib, field, rows, fcs, ranking, best)| == CountIf(ranking, of)
    ensures forall fc :: fc in Supporting(lib, field, rows, fcs, ranking, best) ==>
                           exists i :: 0 <= i < |rows| && fc == fcs[i] && Supports(lib, field, rows[i], best)
  {
    if ranking != [] {
      SupportingCount(lib, field, rows, fcs, ranking[1..], best, of);
      assert of(ranking[0]) <==> Supports(lib, field, rows[ranking[0].index], best);
    }
  }

  /** The scores that are merged are those of the supporting rows, one for each of them and no others. */
  lemma SupportingExactly(lib: Library, field: string, rows: seq<Candidate>, fcs: seq<FieldConfidence>, best: Value)
    requires |rows| == |fcs| && AllPresent(rows)
    requires |Ranking(fcs)| == |fcs| && forall j :: 0 <= j < |fcs| ==> Ranking(fcs)[j].index < |rows|
    ensures var merged := Supporting(lib, field, rows, fcs, Ranking(fcs), best);
            && |merged| == Supporters(lib, field, rows, best)
            && forall fc :: fc in merged <==>
                 exists i :: 0 <= i < |rows| && fc == fcs[i] && Supports(lib, field, rows[i], best)
  {
    var of := (r: Scored) => r.index < |rows| && Supports(lib, field, rows[r.index], best);
    SupportingCount(lib, field, rows, fcs, Ranking(fcs), best, of);
    SortCounts(ScoredRows(fcs), of);
    SupportersCounted(lib, field, rows, fcs, best, of);
    RankingRows(fcs);
    SupportingMembers(lib, field, rows, fcs, Ranking(fcs), best);
    forall i | 0 <= i < |rows| && Supports(lib, field, rows[i], best)
      ensures fcs[i] in Supporting(lib, field, rows, fcs, Ranking(fcs), best) {
      assert Scored(fcs[i].confidence, i) in Ranking(fcs);
    }
  }

  ghost predicate IsBestRow(fcs: seq<FieldConfidence>, k: nat) {
    && k < |fcs|
    && (forall i :: 0 <= i < |fcs| ==> fcs[i].confidence <= fcs[k].confidence)
    && (forall i :: 0 <= i < k ==> fcs[i].confidence < fcs[k].confidence)
  }

  /** Merged evidence marked as picked from rows that differ. */
  function InConflict(merged: FieldConfidence): FieldConfidence {
    merged.(reason := if merged.reason.None? then Some("picked_best_compatible_candidate") else merged.reason,
            warnings := Distinct(merged.warnings + ["conflicting_values"]))
  }

  /** The confidence of a cluster whose best value is `best`: its supporters merged, marked as a conflict. */
  ghost function ClusterConfidence(lib: Library, field: string, rows: seq<Candidate>, best: Value): FieldConfidence
    requires AllPresent(rows)
  {
    var fcs := ScoreAll(lib, field, rows, SameHints);
    RankingRows(fcs);
    InConflict(Merged(field, Supporting(lib, field, rows, fcs, Ranking(fcs), best)))
  }

  /** `top` is the highest score of the rows that support the best value. */
  ghost predicate IsTopSupport(lib: Library, field: string, rows: seq<Candidate>, best: Value, top: real) {
    && (forall i :: 0 <= i < |rows| && Supports(lib, field, rows[i], best) ==>
          ScoreRow(lib, field, rows[i]).confidence <= top)
    && (exists i :: 0 <= i < |rows| && Supports(lib, field, rows[i], best)
          && ScoreRow(lib, field, rows[i]).confidence == top)
  }

  lemma ScoredAsItIs(lib: Library, field: string, rows: seq<Candidate>)
    ensures forall i :: 0 <= i < |rows| ==> ScoreAll(lib, field, rows, SameHints)[i] == ScoreRow(lib, field, rows[i])
  {
    forall i | 0 <= i < |rows| ensures ScoreAll(lib, field, rows, SameHints)[i] == ScoreRow(lib, field, rows[i]) {
      assert rows[i].(hints := SameHints(rows[i].hints)) == rows[i];
    }
  }

  /** The scores of the supporting rows, one for each. */
  ghost predicate SupportScores(lib: Library, field: string, rows: seq<Candidate>, best: Value,
                                scores: seq<FieldConfidence>) {
    && |scores| == Supporters(lib, field, rows, best)
    && forall fc :: fc in scores <==>
         exists i :: 0 <= i < |rows| && fc == ScoreRow(lib, field, rows[i]) && Supports(lib, field, rows[i], best)
  }

  /** A cluster's confidence merges the scores of the rows that support its value. */
  lemma ClusterMerges(lib: Library, field: string, rows: seq<Candidate>, best: Value)
    returns (scores: seq<FieldConfidence>)
    requires AllPresent(rows)
    ensures SupportScores(lib, field, rows, best, scores)
    ensures ClusterConfidence(lib, field, rows, best) == InConflict(Merged(field, scores))
  {
    var fcs := ScoreAll(lib, field, rows, SameHints);
    RankingRows(fcs);
    ScoredAsItIs(lib, field, rows);
    SupportingExactly(lib, field, rows, fcs, best);
    scores := Supporting(lib, field, rows, fcs, Ranking(fcs), best);
  }

  lemma UnsupportedCluster(lib: Library, field: string, rows: seq<Candidate>, best: Value)
    requires AllPresent(rows) && Supporters(lib, field, rows, best) == 0
    ensures ClusterConfidence(lib, field, rows, best) ==
            FieldConfidence(field, 0.35, [], [], Some("no_evidence"), ["low_confidence", "conflicting_values"])
  {
    var scores := ClusterMerges(lib, field, rows, best);
    var codes := ["low_confidence"] + ["conflicting_values"];
    assert codes[..1] == ["low_confidence"] && codes[..1][..0] == [];
    assert Distinct(codes[..1]) == ["low_confidence"];
  }

  /** A cluster's confidence says how it came about, and carries the codes of its supporters and the conflict. */
  lemma ClusterTells(lib: Library, field: string, rows: seq<Candidate>, best: Value, code: string)
    requires AllPresent(rows) && Supporters(lib, field, rows, best) > 0
    ensures var fc := ClusterConfidence(lib, field, rows, best);
            && fc.reason == Some(if Supporters(lib, field, rows, best) == 1 then "picked_best_compatible_candidate"
                                 else "merged_equivalent_sources")
            && (code in fc.warnings <==>
                  code == "conflicting_values"
                  || exists i :: 0 <= i < |rows| && Supports(lib, field, rows[i], best)
                       && code in ScoreRow(lib, field, rows[i]).warnings)
  {
    var scores := ClusterMerges(lib, field, rows, best);
    ScoresTell(lib, field, rows, best, scores, code);
    DistinctMembers(Merged(field, scores).warnings + ["conflicting_values"]);
  }

  lemma ScoresTell(lib: Library, field: string, rows: seq<Candidate>, best: Value, scores: seq<FieldConfidence>,
                   code: string)
    requires SupportScores(lib, field, rows, best, scores) && scores != []
    ensures Merged(field, scores).reason == if |scores| == 1 then None else Some("merged_equivalent_sources")
    ensures code in Merged(field, scores).warnings <==>
              exists i :: 0 <= i < |rows| && Supports(lib, field, rows[i], best)
                && code in ScoreRow(lib, field, rows[i]).warnings
  {
    assert scores[0] in scores;
    DistinctMembers(Gather(scores, CodesOf));
    GatherMembers(scores, CodesOf, code);
    if j :| 0 <= j < |scores| && code in scores[j].warnings {
      assert scores[j] in scores;
      var i :| 0 <= i < |rows| && scores[j] == ScoreRow(lib, field, rows[i]) && Supports(lib, field, rows[i], best);
    }
    if i :| 0 <= i < |rows| && Supports(lib, field, rows[i], best)
              && code in ScoreRow(lib, field, rows[i]).warnings {
      assert ScoreRow(lib, field, rows[i]) in scores;
      var j :| 0 <= j < |scores| && scores[j] == ScoreRow(lib, field, rows[i]);
    }
  }

  lemma ScoreOfSupport(lib: Library, field: string, rows: seq<Candidate>, best: Value, top: real,
                       scores: seq<FieldConfidence>, c: real)
    requires IsTopSupport(lib, field, rows, best, top) && SupportScores(lib, field, rows, best, scores)
    requires c == Merged(field, scores).confidence
    ensures c == SupportedScore(Supporters(lib, field, rows, best), top)
  {
    HighestIsTop(lib, field, rows, scores, best, top);
    MergedScore(field, scores, top);
  }

  /** The best score, plus 0.04 for each further row up to 0.12, and at most 0.98. */
  function SupportedScore(n: nat, top: real): real {
    if n == 1 then top else AtMost(top + AtMost(0.04 * (n - 1) as real, 0.12), 0.98)
  }

  /** A cluster is as certain as the number and the best of the rows that support its value make it. */
  lemma ClusterMeans(lib: Library, field: string, rows: seq<Candidate>, best: Value, top: real)
    requires AllPresent(rows) && IsTopSupport(lib, field, rows, best, top)
    ensures ClusterConfidence(lib, field, rows, best).confidence ==
            SupportedScore(Supporters(lib, field, rows, best), top)
  {
    var scores := ClusterMerges(lib, field, rows, best);
    ScoreOfSupport(lib, field, rows, best, top, scores, ClusterConfidence(lib, field, rows, best).confidence);
  }

  lemma HighestIsTop(lib: Library, field: string, rows: seq<Candidate>, scores: seq<FieldConfidence>, best: Value,
                     top: real)
    requires IsTopSupport(lib, field, rows, best, top) && SupportScores(lib, field, rows, best, scores)
    ensures IsHighest(scores, top) && scores != []
  {
    forall j | 0 <= j < |scores| ensures scores[j].confidence <= top { assert scores[j] in scores; }
    var i :| 0 <= i < |rows| && Supports(lib, field, rows[i], best)
      && ScoreRow(lib, field, rows[i]).confidence == top;
    assert ScoreRow(lib, field, rows[i]) in scores;
  }

  /** The first row of highest score, and the merged confidence of everything that supports it. */
  method PickBestCandidate(lib: Library, field: string, rows: seq<Candidate>) returns (k: nat, merged: FieldConfidence)
    requires |rows| > 1 && AllPresent(rows)
    ensures IsBestRow(ScoreAll(lib, field, rows, SameHints), k)
    ensures merged == ClusterConfidence(lib, field, rows, rows[k].value.value)
    ensures InRange(merged) && merged.fieldName == field && "conflicting_values" in merged.warnings
    ensures Plausible(field, rows[k].value.value) ==> merged.confidence >= ScoreRow(lib, field, rows[k]).confidence
  {
    var fcs := ScoreRows(lib, field, rows, SameHints);
    var ranking := Ranking(fcs);
    RankingRows(fcs);
    ScoresInRange(lib, field, rows, SameHints);
    k := ranking[0].index;
    BestIsFirst(fcs, ranking);
    var best := rows[k].value.value;
    var supporting := Supporting(lib, field, rows, fcs, ranking, best);
    SupportingMembers(lib, field, rows, fcs, ranking, best);
    assert forall i :: 0 <= i < |supporting| ==> supporting[i] in supporting;
    merged := MergeFieldConfidences(field, supporting);
    MergedInRange(field, supporting);
    assert rows[k].(hints := SameHints(rows[k].hints)) == rows[k];
    if Plausible(field, best) {
      assert Compatible(lib, best, best);
      assert ranking[0] in ranking && fcs[k] in supporting;
    }
    DistinctMembers(merged.warnings + ["conflicting_values"]);
    merged := merged.(
      reason := if merged.reason.None? then Some("picked_best_compatible_candidate") else merged.reason,
      warnings := Distinct(merged.warnings + ["conflicting_values"]));
  }

  lemma BestIsFirst(fcs: seq<FieldConfidence>, ranking: seq<Scored>)
    requires fcs != [] && ranking == Ranking(fcs)
    ensures ranking != [] && IsBestRow(fcs, ranking[0].index)
  {
    RankingRows(fcs);
    var k := ranking[0].index;
    forall i | 0 <= i < |fcs| ensures ScoredLe(ranking[0], Scored(fcs[i].confidence, i)) {
      var j :| 0 <= j < |ranking| && ranking[j] == Scored(fcs[i].confidence, i);
      if j > 0 { assert ScoredLe(ranking[0], ranking[j]); }
    }
  }

  // ----- resolution

  ghost predicate AllEquivalent(lib: Library, rows: seq<Candidate>)
    requires rows != [] && AllPresent(rows)
  {
    forall i :: 0 < i < |rows| ==> Equivalent(lib, rows[0].value.value, rows[i].value.value)
  }

  ghost predicate AllCompatible(lib: Library, rows: seq<Candidate>)
    requires rows != [] && AllPresent(rows)
  {
    forall i :: 0 < i < |rows| ==> Compatible(lib, rows[0].value.value, rows[i].value.value)
  }

  ghost predicate SomePlausible(field: string, rows: seq<Candidate>)
    requires AllPresent(rows)
  {
    exists i :: 0 <= i < |rows| && Plausible(field, rows[i].value.value)
  }

  /** The value that goes forward when the rows agree: the first of equivalent ones, else the best
      scored of a compatible cluster. */
  ghost predicate IsWinner(lib: Library, field: string, rows: seq<Candidate>, v: Value)
    requires rows != [] && AllPresent(rows)
  {
    if AllEquivalent(lib, rows) then v == rows[0].value.value
    else
      && AllCompatible(lib, rows)
      && exists k: nat :: IsBestRow(ScoreAll(lib, field, rows, SameHints), k) && rows[k].value.value == v
  }

  /** Nothing is emitted, and one suppression lists what was passed over and why. */
  ghost predicate SuppressedFor(r: Resolution, field: string, rows: seq<Candidate>, code: SuppressionCode,
                                details: Option<string>) {
    r.chosen == None && r.suppressed == [Suppressed(field, RawValues(rows), code, details)]
  }

  ghost predicate EmittedAs(r: Resolution, v: Value) {
    r.chosen == Some(v) && r.suppressed == [] && |r.confidences| == 1 && InRange(r.confidences[0])
  }

  /** Agreeing rows carry no warning of their own; any other winner is the best of rows that differ. */
  ghost function WinnerWarnings(lib: Library, rows: seq<Candidate>): seq<string>
    requires rows != [] && AllPresent(rows)
  {
    ConflictWarning(!AllEquivalent(lib, rows))
  }

  function ConflictWarning(conflict: bool): seq<string> {
    if conflict then ["conflicting_values"] else []
  }

  ghost function ImplausibleDetails(lib: Library, rows: seq<Candidate>): string
    requires rows != [] && AllPresent(rows)
  {
    if |rows| == 1 then "single_candidate_implausible"
    else if AllEquivalent(lib, rows) then "merged_equivalent_implausible"
    else "compatible_cluster_implausible"
  }

  ghost function WinnerConfidence(lib: Library, field: string, rows: seq<Candidate>, v: Value): FieldConfidence
    requires rows != [] && AllPresent(rows)
  {
    if AllEquivalent(lib, rows) then Merged(field, ScoreAll(lib, field, rows, KeptHints))
      else ClusterConfidence(lib, field, rows, v)
  }

  /** The winner is emitted if it is plausible and its confidence is not below the gate. */
  ghost predicate WinnerGated(lib: Library, cfg: Settings, field: string, rows: seq<Candidate>, v: Value, r: Resolution)
    requires rows != [] && AllPresent(rows)
  {
    if !Plausible(field, v) then
      && SuppressedFor(r, field, rows, ByPlausibility, Some(ImplausibleDetails(lib, rows)))
      && r.warnings == WinnerWarnings(lib, rows) + ["implausible_value"]
      && r.confidences == if |rows| == 1 then ScoreAll(lib, field, rows, ImplausibleHints)
        else [WinnerConfidence(lib, field, rows, v)]
    else if r.confidences != [WinnerConfidence(lib, field, rows, v)] then false
    else if cfg.suppression && cfg.confidence && r.confidences[0].confidence < cfg.threshold then
      SuppressedFor(r, field, rows, ByConfidence, None) && r.warnings == WinnerWarnings(lib, rows) + ["low_confidence"]
    else EmittedAs(r, v) && r.warnings == WinnerWarnings(lib, rows)
  }

  /** What becomes of the rows of one field, and why. */
  ghost predicate IsResolution(lib: Library, cfg: Settings, field: string, rows: seq<Candidate>, r: Resolution)
    requires AllPresent(rows)
  {
    if rows == [] then r == Resolution(None, [], [], [])
    else if AllEquivalent(lib, rows) || (SomePlausible(field, rows) && AllCompatible(lib, rows)) then
      exists v :: IsWinner(lib, field, rows, v) && WinnerGated(lib, cfg, field, rows, v, r)
    else if !SomePlausible(field, rows) then
      && SuppressedFor(r, field, rows, ByPlausibility, Some("all_candidates_implausible"))
      && r.warnings == ["implausible_value"]
      && r.confidences == ScoreAll(lib, field, rows, ImplausibleHints)
    else
      && SuppressedFor(r, field, rows, ByConflict, Some("incompatible_normalized_values"))
      && r.warnings == ["conflicting_values"]
      && r.confidences == ScoreAll(lib, field, rows, ConflictHints)
  }

  function One(field: string, rows: seq<Candidate>, code: SuppressionCode, details: Option<string>): seq<Suppressed> {
    [Suppressed(field, RawValues(rows), code, details)]
  }

  /** The plausibility check and the confidence gate that every winner passes. */
  method GateWinner(ghost lib: Library, cfg: Settings, field: string, rows: seq<Candidate>, v: Value,
                    merged: FieldConfidence, warnings: seq<string>, details: string)
    returns (r: Resolution)
    requires rows != [] && AllPresent(rows) && (Plausible(field, v) || |rows| > 1)
    requires merged == WinnerConfidence(lib, field, rows, v) && InRange(merged)
    requires warnings == WinnerWarnings(lib, rows) && (|rows| > 1 ==> details == ImplausibleDetails(lib, rows))
    ensures WinnerGated(lib, cfg, field, rows, v, r)
    ensures r.chosen.Some? ==> r.chosen == Some(v) && r.confidences == [merged]
  {
    if !Plausible(field, v) {
      r := Resolution(None, warnings + ["implausible_value"], [merged],
                      One(field, rows, ByPlausibility, Some(details)));
    } else if cfg.confidence && ShouldSuppress(cfg, merged) {
      r := Resolution(None, warnings + ["low_confidence"], [merged], One(field, rows, ByConfidence, None));
    } else {
      r := Resolution(Some(v), warnings, [merged], []);
    }
  }

  method ResolveAgreed(lib: Library, cfg: Settings, field: string, rows: seq<Candidate>) returns (r: Resolution)
    requires rows != [] && AllPresent(rows) && AllEquivalent(lib, rows)
    ensures IsResolution(lib, cfg, field, rows, r)
  {
    var first := rows[0].value.value;
    assert IsWinner(lib, field, rows, first);
    if |rows| == 1 && !Plausible(field, first) {
      var fcs := ScoreRows(lib, field, rows, ImplausibleHints);
      return Resolution(None, ["implausible_value"], fcs,
                        One(field, rows, ByPlausibility, Some("single_candidate_implausible")));
    }
    var fcs := ScoreRows(lib, field, rows, KeptHints);
    var merged := MergeFieldConfidences(field, fcs);
    ScoresInRange(lib, field, rows, KeptHints);
    MergedInRange(field, fcs);
    r := GateWinner(lib, cfg, field, rows, first, merged, [], "merged_equivalent_implausible");
  }

  method ResolveCluster(lib: Library, cfg: Settings, field: string, rows: seq<Candidate>) returns (r: Resolution)
    requires |rows| > 1 && AllPresent(rows) && !AllEquivalent(lib, rows) && AllCompatible(lib, rows)
             && SomePlausible(field, rows)
    ensures IsResolution(lib, cfg, field, rows, r)
    ensures r.chosen.Some? ==>
              exists k ::
                0 <= k < |rows| && rows[k].value == r.chosen
                  && r.confidences[0].confidence >= ScoreRow(lib, field, rows[k]).confidence
  {
    var k, merged := PickBestCandidate(lib, field, rows);
    var v := rows[k].value.value;
    assert IsWinner(lib, field, rows, v);
    r := GateWinner(lib, cfg, field, rows, v, merged, ["conflicting_values"], "compatible_cluster_implausible");
  }

  method ResolveTypedFieldCandidates(lib: Library, cfg: Settings, field: string, candidates: seq<Candidate>)
    returns (r: Resolution)
    ensures AllPresent(Present(candidates)) && IsResolution(lib, cfg, field, Present(candidates), r)
  {
    PresentMembers(candidates);
    var rows := Present(candidates);
    if rows == [] { return Resolution(None, [], [], []); }
    var equivalent, compatible := true, true;
    for i := 1 to |rows|
      invariant equivalent <==> forall j :: 0 < j < i ==> Equivalent(lib, rows[0].value.value, rows[j].value.value)
      invariant compatible <==> forall j :: 0 < j < i ==> Compatible(lib, rows[0].value.value, rows[j].value.value)
    {
      equivalent := equivalent && Equivalent(lib, rows[0].value.value, rows[i].value.value);
      compatible := compatible && Compatible(lib, rows[0].value.value, rows[i].value.value);
    }
    if equivalent {
      r := ResolveAgreed(lib, cfg, field, rows);
      return;
    }
    var plausible := exists i :: 0 <= i < |rows| && Plausible(field, rows[i].value.value);
    if !plausible {
      var fcs := ScoreRows(lib, field, rows, ImplausibleHints);
      return Resolution(None, ["implausible_value"], fcs,
                        One(field, rows, ByPlausibility, Some("all_candidates_implausible")));
    }
    if compatible {
      r := ResolveCluster(lib, cfg, field, rows);
      return;
    }
    var fcs := ScoreRows(lib, field, rows, ConflictHints);
    r := Resolution(None, ["conflicting_values"], fcs,
                    One(field, rows, ByConflict, Some("incompatible_normalized_values")));
  }

  // ----- what a resolution promises

  ghost predicate ListsRawValues(values: seq<string>, rows: seq<Candidate>) {
    |values| == |rows| && forall i :: 0 <= i < |rows| ==> values[i] == rows[i].rawValue
  }

  lemma EmittedIsSound(lib: Library, cfg: Settings, field: string, rows: seq<Candidate>, r: Resolution)
    requires AllPresent(rows) && IsResolution(lib, cfg, field, rows, r) && r.chosen.Some?
    ensures (exists c :: c in rows && c.value == r.chosen) && Plausible(field, r.chosen.value) && r.suppressed == []
    ensures |r.confidences| == 1 && InRange(r.confidences[0])
    ensures cfg.suppression && cfg.confidence ==> r.confidences[0].confidence >= cfg.threshold
  {
    var v :| IsWinner(lib, field, rows, v) && WinnerGated(lib, cfg, field, rows, v, r);
    WinnerIsRow(lib, field, rows, v);
  }

  lemma SuppressedOnce(lib: Library, cfg: Settings, field: string, rows: seq<Candidate>, r: Resolution)
    requires AllPresent(rows) && IsResolution(lib, cfg, field, rows, r) && r.chosen.None? && rows != []
    ensures |r.suppressed| == 1 && r.suppressed[0].fieldName == field
    ensures ListsRawValues(r.suppressed[0].rawValues, rows)
  {
  }

  /** An emitted value is one of the candidates, plausible, and carries exactly one confidence, in
      range and at the threshold when gating is on; otherwise exactly one suppression records all
      the values passed over, unless there was nothing to pass over. */
  lemma ResolutionIsSound(lib: Library, cfg: Settings, field: string, candidates: seq<Candidate>, r: Resolution)
    requires AllPresent(Present(candidates)) && IsResolution(lib, cfg, field, Present(candidates), r)
    ensures r.chosen.Some? ==>
              && (exists c :: c in candidates && c.value == r.chosen)
              && Plausible(field, r.chosen.value) && r.suppressed == []
              && |r.confidences| == 1 && InRange(r.confidences[0])
              && (cfg.suppression && cfg.confidence ==> r.confidences[0].confidence >= cfg.threshold)
    ensures r.chosen.None? && (exists c :: c in candidates && c.value.Some?) ==>
              |r.suppressed| == 1 && r.suppressed[0].fieldName == field
                && ListsRawValues(r.suppressed[0].rawValues, Present(candidates))
    ensures (forall c :: c in candidates ==> c.value.None?) ==> r == Resolution(None, [], [], [])
  {
    PresentMembers(candidates);
    var rows := Present(candidates);
    assert rows != [] ==> rows[0] in rows;
    if r.chosen.Some? {
      EmittedIsSound(lib, cfg, field, rows, r);
    } else if rows != [] {
      SuppressedOnce(lib, cfg, field, rows, r);
    }
  }

  /** The rows of a field disagree, and some of them are plausible. */
  ghost predicate Conflicted(lib: Library, field: string, candidates: seq<Candidate>) {
    PresentMembers(candidates);
    var rows := Present(candidates);
    rows != [] && !AllEquivalent(lib, rows) && SomePlausible(field, rows)
  }

  ghost predicate SuppressedBy(suppressed: seq<Suppressed>, code: SuppressionCode) {
    exists s :: s in suppressed && s.reasonCode == code
  }

  /** Each warning says exactly one thing about the outcome, and there are no others. */
  ghost predicate WarningsFit(warnings: seq<string>, conflict: bool, suppressed: seq<Suppressed>) {
    && ("conflicting_values" in warnings <==> conflict)
    && ("implausible_value" in warnings <==> SuppressedBy(suppressed, ByPlausibility))
    && ("low_confidence" in warnings <==> SuppressedBy(suppressed, ByConfidence))
    && forall w :: w in warnings ==> w in {"conflicting_values", "implausible_value", "low_confidence"}
  }

  lemma ResolutionWarns(lib: Library, cfg: Settings, field: string, candidates: seq<Candidate>, r: Resolution)
    requires AllPresent(Present(candidates)) && IsResolution(lib, cfg, field, Present(candidates), r)
    ensures WarningsFit(r.warnings, Conflicted(lib, field, candidates), r.suppressed)
  {
    var rows := Present(candidates);
    if rows != [] && (AllEquivalent(lib, rows) || (SomePlausible(field, rows) && AllCompatible(lib, rows))) {
      var v :| IsWinner(lib, field, rows, v) && WinnerGated(lib, cfg, field, rows, v, r);
      WinnerWarns(lib, cfg, field, rows, v, r);
    }
    if r.suppressed != [] { assert r.suppressed[0] in r.suppressed; }
  }

  lemma WinnerWarns(lib: Library, cfg: Settings, field: string, rows: seq<Candidate>, v: Value, r: Resolution)
    requires rows != [] && AllPresent(rows) && WinnerGated(lib, cfg, field, rows, v, r)
    ensures WarningsFit(r.warnings, !AllEquivalent(lib, rows), r.suppressed)
  {
    if r.suppressed == [] {
    } else {
      SuppressedWarns(!AllEquivalent(lib, rows), r.suppressed[0]);
    }
  }

  lemma SuppressedWarns(conflict: bool, s: Suppressed)
    ensures s.reasonCode == ByPlausibility ==>
              WarningsFit(ConflictWarning(conflict) + ["implausible_value"], conflict, [s])
    ensures s.reasonCode == ByConfidence ==> WarningsFit(ConflictWarning(conflict) + ["low_confidence"], conflict, [s])
  {
    assert s in [s];
  }

  lemma WinnerIsRow(lib: Library, field: string, rows: seq<Candidate>, v: Value)
    requires rows != [] && AllPresent(rows) && IsWinner(lib, field, rows, v)
    ensures exists c :: c in rows && c.value == Some(v)
  {
    if AllEquivalent(lib, rows) {
      assert rows[0] in rows;
    } else {
      var k: nat :| IsBestRow(ScoreAll(lib, field, rows, SameHints), k) && rows[k].value.value == v;
      assert rows[k] in rows;
    }
  }

  // ----- the tolerance

  lemma QuotientBound(x: real, d: real, c: real)
    requires d > 0.0
    ensures x / d <= c <==> x <= c * d
  {
    var q := x / d;
    assert x == q * d;
    assert c * d - q * d == (c - q) * d;
  }

  lemma WithinFivePercent(lib: Library, a: int, b: int)
    requires a >= 1 && b >= 1 && Compatible(lib, Whole(a), Whole(b))
    ensures a as real >= 0.95 * b as real
  {
    var x, y := a as real, b as real;
    if Abs(x - y) < 0.000001 {
      assert a == b;
    } else {
      var top := Larger(Larger(Abs(x), Abs(y)), 0.000000001);
      assert top == Larger(x, y);
      QuotientBound(Abs(x - y), top, 0.05);
    }
  }

  /** Only comparison with the first row is checked, yet in an accepted cluster of positive whole
      numbers any two are within 0.9025 of each other. */
  lemma ClusterIsTight(lib: Library, rows: seq<Candidate>, i: nat, j: nat)
    requires rows != [] && AllPresent(rows) && AllCompatible(lib, rows) && i < |rows| && j < |rows|
    requires forall k :: 0 <= k < |rows| ==> rows[k].value.value.Whole? && rows[k].value.value.i >= 1
    ensures rows[i].value.value.i as real >= 0.9025 * rows[j].value.value.i as real
  {
    var first := rows[0].value.value.i;
    WithinFivePercent(lib, rows[i].value.value.i, first);
    WithinFivePercent(lib, first, rows[j].value.value.i);
  }

  ghost predicate PairwiseCompatible(lib: Library, rows: seq<Candidate>)
    requires AllPresent(rows)
  {
    forall i, j :: 0 <= i < |rows| && 0 <= j < |rows| ==> Compatible(lib, rows[i].value.value, rows[j].value.value)
  }

  /** `lo` and `hi` hold the smallest and the largest of the numeric values, if there are any. */
  predicate Extremes(rows: seq<Candidate>, lo: nat, hi: nat)
    requires AllPresent(rows) && lo < |rows| && hi < |rows|
  {
    var low, high := rows[lo].value.value, rows[hi].value.value;
    forall i :: 0 <= i < |rows| && IsNumber(rows[i].value.value) ==>
      IsNumber(low) && IsNumber(high) && AsReal(low) <= AsReal(rows[i].value.value) <= AsReal(high)
  }

  predicate HasText(rows: seq<Candidate>)
    requires AllPresent(rows)
  {
    exists i :: 0 <= i < |rows| && rows[i].value.value.Words?
  }

  predicate OneText(lib: Library, rows: seq<Candidate>)
    requires AllPresent(rows)
  {
    forall i :: 0 < i < |rows| ==> lib.plainText(rows[i].value.value) == lib.plainText(rows[0].value.value)
  }

  /** Rows are compatible pair by pair exactly when the smallest and the largest number are, and,
      should any row be text, all of them read the same. */
  lemma PairwiseExactly(lib: Library, rows: seq<Candidate>, lo: nat, hi: nat)
    requires AllPresent(rows) && lo < |rows| && hi < |rows| && Extremes(rows, lo, hi)
    ensures PairwiseCompatible(lib, rows) <==>
              && Compatible(lib, rows[lo].value.value, rows[hi].value.value)
              && (HasText(rows) ==> OneText(lib, rows))
  {
    if PairwiseCompatible(lib, rows) && HasText(rows) {
      var t :| 0 <= t < |rows| && rows[t].value.value.Words?;
      forall i | 0 <= i < |rows| ensures lib.plainText(rows[i].value.value) == lib.plainText(rows[t].value.value) {
        assert Compatible(lib, rows[i].value.value, rows[t].value.value);
      }
    }
    if Compatible(lib, rows[lo].value.value, rows[hi].value.value) && (HasText(rows) ==> OneText(lib, rows)) {
      forall i, j | 0 <= i < |rows| && 0 <= j < |rows|
        ensures Compatible(lib, rows[i].value.value, rows[j].value.value) {
        BothCompatible(lib, rows, lo, hi, i, j);
      }
    }
  }

  lemma BothCompatible(lib: Library, rows: seq<Candidate>, lo: nat, hi: nat, i: nat, j: nat)
    requires AllPresent(rows) && lo < |rows| && hi < |rows| && i < |rows| && j < |rows| && Extremes(rows, lo, hi)
    requires Compatible(lib, rows[lo].value.value, rows[hi].value.value) && (HasText(rows) ==> OneText(lib, rows))
    ensures Compatible(lib, rows[i].value.value, rows[j].value.value)
  {
    var a, b := rows[i].value.value, rows[j].value.value;
    if IsNumber(a) && IsNumber(b) {
      var x, y := AsReal(a), AsReal(b);
      CompatibleIsClose(lib, rows[lo].value.value, rows[hi].value.value);
      CompatibleIsClose(lib, a, b);
    } else {
      assert HasText(rows) && lib.plainText(a) == lib.plainText(rows[0].value.value) == lib.plainText(b);
    }
  }

  /** The tolerance without the division: all but equal, or apart by at most 5% of one of the two. */
  predicate Close(x: real, y: real) {
    || -0.000001 < x - y < 0.000001
    || Within(x - y, 0.05 * x) || Within(x - y, 0.05 * y)
  }

  predicate Within(d: real, tolerance: real) {
    -tolerance <= d <= tolerance || tolerance <= d <= -tolerance
  }

  lemma WithinLarger(d: real, x: real, y: real)
    ensures Abs(d) <= 0.05 * Larger(Abs(x), Abs(y)) <==> Within(d, 0.05 * x) || Within(d, 0.05 * y)
  {
  }

  /** The quotient, where the numbers are not both all but zero. */
  lemma GapIsClose(x: real, y: real)
    requires Larger(Abs(x), Abs(y)) >= 0.000000001
    ensures Gap(x, y) <= 0.05 <==> Within(x - y, 0.05 * x) || Within(x - y, 0.05 * y)
  {
    QuotientBound(Abs(x - y), Larger(Abs(x), Abs(y)), 0.05);
    WithinLarger(x - y, x, y);
  }

  lemma CloseReals(x: real, y: real)
    ensures Close(x, y) <==> Abs(x - y) < 0.000001 || (x == 0.0 && y == 0.0) || Gap(x, y) <= 0.05
  {
    if Larger(Abs(x), Abs(y)) < 0.000000001 {
      assert Abs(x - y) < 0.000001;
    } else {
      GapIsClose(x, y);
    }
  }

  lemma CompatibleIsClose(lib: Library, a: Value, b: Value)
    requires IsNumber(a) && IsNumber(b)
    ensures Compatible(lib, a, b) <==> Close(AsReal(a), AsReal(b))
  {
    CloseReals(AsReal(a), AsReal(b));
  }

  /** Compatibility is not transitive: 95 and 105 both agree with 100 but not with each other. */
  lemma CompatibleIsNotTransitive(lib: Library)
    ensures Compatible(lib, Whole(100), Whole(95)) && Compatible(lib, Whole(100), Whole(105))
            && !Compatible(lib, Whole(95), Whole(105))
  {
  }

  /** So with 100 first, the three are accepted as a cluster and a value is emitted, whatever the
      switches, at any threshold a score can reach. */
  lemma LooseClusterIsEmitted(lib: Library, cfg: Settings, r: Resolution)
    requires cfg.threshold <= HIGHEST
    requires AllPresent(LooseRows()) && IsResolution(lib, cfg, "refresh_rate_hz", LooseRows(), r)
    ensures AllCompatible(lib, LooseRows()) && !PairwiseCompatible(lib, LooseRows())
    ensures r.chosen.Some? && r.warnings == ["conflicting_values"]
  {
    LooseRowsDisagree(lib);
    forall k: nat | k < |LooseRows()|
      ensures SureWinner(lib, cfg, "refresh_rate_hz", LooseRows(), LooseRows()[k].value.value)
    {
      LooseConfidence(lib, k);
    }
    SureClusterIsEmitted(lib, cfg, "refresh_rate_hz", LooseRows(), r);
  }

  /** The value would pass the plausibility check and any gate. */
  ghost predicate SureWinner(lib: Library, cfg: Settings, field: string, rows: seq<Candidate>, v: Value)
    requires AllPresent(rows)
  {
    Plausible(field, v) && ClusterConfidence(lib, field, rows, v).confidence >= cfg.threshold
  }

  lemma SureClusterIsEmitted(lib: Library, cfg: Settings, field: string, rows: seq<Candidate>, r: Resolution)
    requires AllPresent(rows) && IsResolution(lib, cfg, field, rows, r)
    requires rows != [] && !AllEquivalent(lib, rows) && AllCompatible(lib, rows) && SomePlausible(field, rows)
    requires forall k: nat :: k < |rows| ==> SureWinner(lib, cfg, field, rows, rows[k].value.value)
    ensures r.chosen.Some? && r.warnings == ["conflicting_values"]
  {
    var v :| IsWinner(lib, field, rows, v) && WinnerGated(lib, cfg, field, rows, v, r);
    var k: nat :| IsBestRow(ScoreAll(lib, field, rows, SameHints), k) && rows[k].value.value == v;
    assert SureWinner(lib, cfg, field, rows, rows[k].value.value);
  }

  lemma LooseRowsDisagree(lib: Library)
    ensures var rows := LooseRows();
            AllPresent(rows) && AllCompatible(lib, rows) && !PairwiseCompatible(lib, rows) && !AllEquivalent(lib, rows)
              && SomePlausible("refresh_rate_hz", rows)
  {
    var rows := LooseRows();
    CompatibleIsNotTransitive(lib);
    assert !Compatible(lib, rows[1].value.value, rows[2].value.value);
    assert !Equivalent(lib, rows[0].value.value, rows[1].value.value);
    assert Plausible("refresh_rate_hz", rows[0].value.value);
  }

  /** A row matched by a store's own rule, with its unit. */
  function StrongHints(): Hints {
    Hints([], true, Some(70), false, false, Some(false), false, false, false)
  }

  function LooseRows(): seq<Candidate> {
    [
      Candidate("refresh", "100 Hz", Some(Whole(100)), StrongHints()),
      Candidate("refresh rate", "95 Hz", Some(Whole(95)), StrongHints()),
      Candidate("max refresh rate", "105 Hz", Some(Whole(105)), StrongHints())
    ]
  }

  lemma StrongScore(lib: Library, field: string, rawLabel: string, raw: string)
    ensures Score(lib, field, rawLabel, raw, StrongHints()).confidence >= 0.96
    ensures Score(lib, field, rawLabel, raw, StrongHints()).labels == [rawLabel]
  {
    assert RowCodes(lib, field, raw, StrongHints()) == [];
  }

  lemma TwoSupporters(field: string, fcs: seq<FieldConfidence>, a: FieldConfidence, b: FieldConfidence)
    requires a in fcs && b in fcs && a != b && a.confidence >= 0.96
    requires forall i :: 0 <= i < |fcs| ==> InRange(fcs[i])
    ensures Merged(field, fcs).confidence == HIGHEST
  {
    assert |fcs| >= 2;
    HighestBounds(fcs);
  }

  /** Two well-scored rows that support the best value make it as certain as a score can be. */
  lemma TwoRowsConfidence(lib: Library, field: string, rows: seq<Candidate>, best: Value, i: nat, j: nat)
    requires AllPresent(rows) && i < |rows| && j < |rows|
    requires Compatible(lib, rows[i].value.value, best) && Plausible(field, rows[i].value.value)
    requires Compatible(lib, rows[j].value.value, best) && Plausible(field, rows[j].value.value)
    requires ScoreAll(lib, field, rows, SameHints)[i] != ScoreAll(lib, field, rows, SameHints)[j]
    requires ScoreAll(lib, field, rows, SameHints)[i].confidence >= 0.96
    ensures ClusterConfidence(lib, field, rows, best).confidence == HIGHEST
  {
    var fcs := ScoreAll(lib, field, rows, SameHints);
    RankingRows(fcs);
    ScoresInRange(lib, field, rows, SameHints);
    SupportingMembers(lib, field, rows, fcs, Ranking(fcs), best);
    SupportedBy(lib, field, rows, fcs, best, i);
    SupportedBy(lib, field, rows, fcs, best, j);
    var supporting := Supporting(lib, field, rows, fcs, Ranking(fcs), best);
    assert forall x :: 0 <= x < |supporting| ==> supporting[x] in supporting;
    TwoSupporters(field, supporting, fcs[i], fcs[j]);
  }

  /** Whichever row is best, the row of 100 supports it, or the row of 95 supports the 100. */
  lemma LooseConfidence(lib: Library, k: nat)
    requires AllPresent(LooseRows()) && k < 3
    ensures Plausible("refresh_rate_hz", LooseRows()[k].value.value)
    ensures ClusterConfidence(lib, "refresh_rate_hz", LooseRows(), LooseRows()[k].value.value).confidence == HIGHEST
  {
    var rows := LooseRows();
    var other := if k == 0 then 1 else 0;
    OtherSupports(lib, k, other);
    LooseScores(lib, k);
    LooseScores(lib, other);
    TwoRowsConfidence(lib, "refresh_rate_hz", rows, rows[k].value.value, k, other);
  }

  lemma LooseScores(lib: Library, k: nat)
    requires k < 3
    ensures ScoreAll(lib, "refresh_rate_hz", LooseRows(), SameHints)[k].confidence >= 0.96
    ensures ScoreAll(lib, "refresh_rate_hz", LooseRows(), SameHints)[k].labels == [LooseRows()[k].rawLabel]
  {
    ScoreOfRow(lib, "refresh_rate_hz", LooseRows(), k);
    assert LooseRows()[k].hints == StrongHints();
    StrongScore(lib, "refresh_rate_hz", LooseRows()[k].rawLabel, LooseRows()[k].rawValue);
  }

  lemma ScoreOfRow(lib: Library, field: string, rows: seq<Candidate>, k: nat)
    requires k < |rows|
    ensures ScoreAll(lib, field, rows, SameHints)[k] ==
            Score(lib, field, rows[k].rawLabel, rows[k].rawValue, rows[k].hints)
  {
    var c := rows[k];
    assert c.(hints := SameHints(c.hints)) == c;
    assert ScoreAll(lib, field, rows, SameHints)[k] == ScoreRow(lib, field, c.(hints := SameHints(c.hints)));
  }

  lemma SupportedBy(lib: Library, field: string, rows: seq<Candidate>, fcs: seq<FieldConfidence>, best: Value, i: nat)
    requires |rows| == |fcs| && AllPresent(rows) && i < |rows|
    requires |Ranking(fcs)| == |fcs| && forall j :: 0 <= j < |fcs| ==> Ranking(fcs)[j].index < |rows|
    requires Compatible(lib, rows[i].value.value, best) && Plausible(field, rows[i].value.value)
    ensures fcs[i] in Supporting(lib, field, rows, fcs, Ranking(fcs), best)
  {
    RankingRows(fcs);
    SupportingMembers(lib, field, rows, fcs, Ranking(fcs), best);
    assert Scored(fcs[i].confidence, i) in Ranking(fcs);
  }

  lemma OtherSupports(lib: Library, k: nat, other: nat)
    requires k < 3 && other == if k == 0 then 1 else 0
    ensures AllPresent(LooseRows())
    ensures LooseRows()[other].rawLabel != LooseRows()[k].rawLabel
    ensures Compatible(lib, LooseRows()[other].value.value, LooseRows()[k].value.value)
    ensures Compatible(lib, LooseRows()[k].value.value, LooseRows()[k].value.value)
    ensures Plausible("refresh_rate_hz", LooseRows()[k].value.value)
            && Plausible("refresh_rate_hz", LooseRows()[other].value.value)
  {
  }
}
