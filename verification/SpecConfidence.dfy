/** Confidence scores of typed spec fields, and how evidence merges. */
module SpecConfidence {
  import opened Wrappers

  /** A normalised candidate value; Python counts `bool` among the numbers. */
  datatype Value = Whole(i: int) | Decimal(r: real) | Truth(b: bool) | Words(s: string)

  predicate IsNumber(v: Value) {
    !v.Words?
  }

  function AsReal(v: Value): real
    requires IsNumber(v)
  {
    match v
    case Whole(i) => i as real
    case Decimal(r) => r
    case Truth(b) => if b then 1.0 else 0.0
  }

  /** How a candidate was found, as far as scoring looks at it. */
  datatype Hints = Hints(
    warnings: seq<string>, directKey: bool, rulePriority: Option<int>, deprecatedAlias: bool, ambiguousAlias: bool,
    missingUnit: Option<bool>, storeOverrideExact: bool, correctedValue: bool, implausible: bool)

  datatype FieldConfidence = FieldConfidence(
    fieldName: string, confidence: real, labels: seq<string>, values: seq<string>, reason: Option<string>,
    warnings: seq<string>)

  /** Library behaviour left open: text of a value, trimming and lower case, unit detection. */
  datatype Library = Library(
    plainText: Value -> string,
    lacksUnit: (string, string) -> bool,
    trimmedLength: string -> nat)

  const NUMERIC_FIELDS: set<string> := {
    "ram_gb", "storage_gb", "display_size_inch", "battery_mah", "battery_wh", "weight_g", "weight_kg", "main_camera_mp",
    "front_camera_mp", "volume_l", "power_w", "hdmi_count", "usb_c_count", "refresh_rate_hz", "sim_count",
    "warranty_months"
  }

  const LOWEST := 0.35
  const HIGHEST := 0.98

  /** `list(dict.fromkeys(s))`. */
  function Distinct(s: seq<string>): seq<string> {
    if s == [] then []
    else
      var earlier := Distinct(s[..|s| - 1]);
      if s[|s| - 1] in earlier then earlier else earlier + [s[|s| - 1]]
  }

  lemma {:induction false} DistinctMembers(s: seq<string>)
    ensures forall x :: x in Distinct(s) <==> x in s
    ensures forall i, j :: 0 <= i < j < |Distinct(s)| ==> Distinct(s)[i] != Distinct(s)[j]
  {
    if s != [] {
      DistinctMembers(s[..|s| - 1]);
      assert s == s[..|s| - 1] + [s[|s| - 1]];
    }
  }

  function WithCode(codes: seq<string>, code: string, present: bool): seq<string> {
    if present && code !in codes then codes + [code] else codes
  }

  function Penalty(codes: seq<string>): real {
    if codes == [] then 0.0
    else
      Penalty(codes[..|codes| - 1])
      + if codes[|codes| - 1] == "category_mismatch" then 0.08
        else if codes[|codes| - 1] == "ram_storage_swap_suspected" then 0.05
        else 0.0
  }

  function Clamp(x: real): real {
    if x > HIGHEST then HIGHEST else if x < LOWEST then LOWEST else x
  }

  /** The warning codes one evidence row ends up with, before duplicates go. */
  function RowCodes(lib: Library, field: string, raw: string, h: Hints): seq<string> {
    var unit := LacksUnit(lib, field, raw, h);
    WithCode(WithCode(WithCode(WithCode(WithCode(h.warnings,
      "missing_unit", unit),
      "deprecated_alias", h.deprecatedAlias),
      "ambiguous_alias", h.ambiguousAlias),
      "corrected_value", h.correctedValue),
      "implausible_value", h.implausible)
  }

  predicate LacksUnit(lib: Library, field: string, raw: string, h: Hints) {
    match h.missingUnit
    case Some(b) => b
    case None => field in NUMERIC_FIELDS && lib.lacksUnit(field, raw)
  }

  /** What the hints add up to before the warning codes are counted. */
  function HintScore(unit: bool, grounded: bool, h: Hints): real {
    (if h.directKey then 0.84 else 0.75)
    + (if h.rulePriority.None? || h.rulePriority.value < 10 then 0.0
       else if h.rulePriority.value < 70 then 0.06
       else 0.12)
    - (if h.deprecatedAlias then 0.06 else 0.0)
    - (if h.ambiguousAlias then 0.10 else 0.0)
    + (if unit then -0.08 else if grounded then 0.04 else 0.0)
    + (if h.storeOverrideExact then 0.06 else 0.0)
    - (if h.correctedValue then 0.18 else 0.0)
    - (if h.implausible then 0.35 else 0.0)
  }

  /** A row matched through the registry, with no other hint. */
  const BARE := Hints([], false, None, false, false, None, false, false, false)

  /** What a hint that raises the score is worth, whatever the other hints say. */
  lemma HintGains(unit: bool, grounded: bool, h: Hints, p: int)
    ensures HintScore(unit, grounded, h.(directKey := true)) ==
            HintScore(unit, grounded, h.(directKey := false)) + 0.09
    ensures HintScore(unit, grounded, h.(rulePriority := Some(p))) ==
            HintScore(unit, grounded, h.(rulePriority := None))
            + if p >= 70 then 0.12 else if p >= 10 then 0.06 else 0.0
  {
  }

  lemma MatchGains(unit: bool, grounded: bool, h: Hints)
    ensures HintScore(unit, grounded, h.(storeOverrideExact := true)) ==
            HintScore(unit, grounded, h.(storeOverrideExact := false)) + 0.06
    ensures HintScore(false, true, h) == HintScore(false, false, h) + 0.04
  {
  }

  /** What a hint that lowers it costs: an alias, and a value that needed help. */
  lemma AliasLosses(unit: bool, grounded: bool, h: Hints)
    ensures HintScore(unit, grounded, h.(deprecatedAlias := true)) ==
            HintScore(unit, grounded, h.(deprecatedAlias := false)) - 0.06
    ensures HintScore(unit, grounded, h.(ambiguousAlias := true)) ==
            HintScore(unit, grounded, h.(ambiguousAlias := false)) - 0.10
  {
  }

  lemma ValueLosses(unit: bool, grounded: bool, h: Hints)
    ensures HintScore(unit, grounded, h.(correctedValue := true)) ==
            HintScore(unit, grounded, h.(correctedValue := false)) - 0.18
    ensures HintScore(unit, grounded, h.(implausible := true)) ==
            HintScore(unit, grounded, h.(implausible := false)) - 0.35
  {
  }

  lemma MissingUnitLoss(grounded: bool, h: Hints)
    ensures HintScore(true, grounded, h) == HintScore(false, false, h) - 0.08
  {
  }

  /** So with more raising hints and fewer lowering ones a row never scores less. */
  predicate BetterFounded(a: Hints, b: Hints) {
    && (b.directKey ==> a.directKey) && (b.storeOverrideExact ==> a.storeOverrideExact)
    && (b.rulePriority.Some? ==> a.rulePriority.Some? && a.rulePriority.value >= b.rulePriority.value)
    && (a.deprecatedAlias ==> b.deprecatedAlias) && (a.ambiguousAlias ==> b.ambiguousAlias)
    && (a.correctedValue ==> b.correctedValue) && (a.implausible ==> b.implausible)
  }

  lemma BetterScoresNoLess(unit: bool, grounded: bool, a: Hints, b: Hints)
    requires BetterFounded(a, b)
    ensures HintScore(unit, grounded, a) >= HintScore(unit, grounded, b)
  {
  }

  lemma BareScore()
    ensures HintScore(false, false, BARE) == 0.75
  {
  }

  /** A code is on the row's list exactly when it came with the row or its hint holds. */
  lemma RowCodesMembers(lib: Library, field: string, raw: string, h: Hints, code: string)
    ensures code in Distinct(RowCodes(lib, field, raw, h)) <==>
              || code in h.warnings
              || (code == "missing_unit"
                  && (h.missingUnit == Some(true)
                      || (h.missingUnit == None && field in NUMERIC_FIELDS && lib.lacksUnit(field, raw))))
              || (code == "deprecated_alias" && h.deprecatedAlias)
              || (code == "ambiguous_alias" && h.ambiguousAlias)
              || (code == "corrected_value" && h.correctedValue)
              || (code == "implausible_value" && h.implausible)
  {
    DistinctMembers(RowCodes(lib, field, raw, h));
    RowCodesAreFlags(lib, field, raw, h, code);
  }

  lemma RowCodesAreFlags(lib: Library, field: string, raw: string, h: Hints, code: string)
    ensures code in RowCodes(lib, field, raw, h) <==>
              || code in h.warnings || (code == "missing_unit" && LacksUnit(lib, field, raw, h))
              || (code == "deprecated_alias" && h.deprecatedAlias)
              || (code == "ambiguous_alias" && h.ambiguousAlias)
              || (code == "corrected_value" && h.correctedValue)
              || (code == "implausible_value" && h.implausible)
  {
    var a := WithCode(h.warnings, "missing_unit", LacksUnit(lib, field, raw, h));
    WithCodeMembers(h.warnings, "missing_unit", LacksUnit(lib, field, raw, h), code);
    var b := WithCode(a, "deprecated_alias", h.deprecatedAlias);
    WithCodeMembers(a, "deprecated_alias", h.deprecatedAlias, code);
    var c := WithCode(b, "ambiguous_alias", h.ambiguousAlias);
    WithCodeMembers(b, "ambiguous_alias", h.ambiguousAlias, code);
    var d := WithCode(c, "corrected_value", h.correctedValue);
    WithCodeMembers(c, "corrected_value", h.correctedValue, code);
    WithCodeMembers(d, "implausible_value", h.implausible, code);
  }

  lemma WithCodeMembers(codes: seq<string>, code: string, present: bool, c: string)
    ensures c in WithCode(codes, code, present) <==> c in codes || (c == code && present)
  {
  }

  /** Each mention of a mismatch costs 0.08, each mention of a suspected swap 0.05. */
  lemma {:induction false} PenaltyCounts(codes: seq<string>)
    ensures Penalty(codes) == 0.08 * multiset(codes)["category_mismatch"] as real
                              + 0.05 * multiset(codes)["ram_storage_swap_suspected"] as real
  {
    if codes != [] {
      var rest, last := codes[..|codes| - 1], codes[|codes| - 1];
      PenaltyCounts(rest);
      assert codes == rest + [last];
      assert multiset(codes) == multiset(rest) + multiset{last};
    }
  }

  /** The fields whose values are measured or counted. */
  lemma MeasuredFields(field: string)
    ensures field in NUMERIC_FIELDS <==>
              field in ["ram_gb", "storage_gb", "volume_l", "weight_g", "weight_kg", "display_size_inch"]
                + ["battery_mah", "battery_wh", "power_w", "refresh_rate_hz", "main_camera_mp", "front_camera_mp"]
                + ["hdmi_count", "usb_c_count", "sim_count", "warranty_months"]
  {
  }

  /** A score is the hints' sum, less 0.08 for each mention of a mismatch and 0.05 for each suspected swap, held
      between the least and the greatest score there is. */
  lemma ScoreMeans(lib: Library, field: string, rawLabel: string, raw: string, h: Hints, unit: bool, grounded: bool,
                   x: real)
    requires unit <==>
               || h.missingUnit == Some(true)
               || (h.missingUnit == None && field in NUMERIC_FIELDS && lib.lacksUnit(field, raw))
    requires grounded <==> field in NUMERIC_FIELDS && lib.trimmedLength(raw) >= 3
    requires var codes := multiset(RowCodes(lib, field, raw, h));
             x == HintScore(unit, grounded, h) - 0.08 * codes["category_mismatch"] as real
                  - 0.05 * codes["ram_storage_swap_suspected"] as real
    ensures var fc := Score(lib, field, rawLabel, raw, h);
            && fc.fieldName == field && fc.labels == [rawLabel] && fc.values == [raw] && fc.reason == None
            && 0.35 <= fc.confidence <= 0.98
            && (0.35 <= x <= 0.98 ==> fc.confidence == x)
            && (x < 0.35 ==> fc.confidence == 0.35) && (x > 0.98 ==> fc.confidence == 0.98)
  {
    PenaltyCounts(RowCodes(lib, field, raw, h));
  }

  method AddHints(unit: bool, grounded: bool, h: Hints) returns (base: real)
    ensures base == HintScore(unit, grounded, h)
  {
    base := 0.58;
    if h.directKey { base := base + 0.26; } else { base := base + 0.17; }
    if h.rulePriority.Some? {
      if h.rulePriority.value >= 70 { base := base + 0.12; } else if h.rulePriority.value >= 10 { base := base + 0.06; }
    }
    if h.deprecatedAlias { base := base - 0.06; }
    if h.ambiguousAlias { base := base - 0.10; }
    if unit { base := base - 0.08; } else if grounded { base := base + 0.04; }
    if h.storeOverrideExact { base := base + 0.06; }
    if h.correctedValue { base := base - 0.18; }
    if h.implausible { base := base - 0.35; }
  }

  method ScoreTypedFieldConfidence(lib: Library, field: string, rawLabel: string, raw: string, h: Hints)
    returns (fc: FieldConfidence)
    ensures fc == Score(lib, field, rawLabel, raw, h)
  {
    var unit := LacksUnit(lib, field, raw, h);
    var codes := h.warnings;
    codes := WithCode(codes, "missing_unit", unit);
    codes := WithCode(codes, "deprecated_alias", h.deprecatedAlias);
    codes := WithCode(codes, "ambiguous_alias", h.ambiguousAlias);
    codes := WithCode(codes, "corrected_value", h.correctedValue);
    codes := WithCode(codes, "implausible_value", h.implausible);
    var base := AddHints(unit, field in NUMERIC_FIELDS && lib.trimmedLength(raw) > 2, h);
    var unpenalised := base;
    for i := 0 to |codes|
      invariant base == unpenalised - Penalty(codes[..i])
    {
      assert codes[..i + 1][..i] == codes[..i];
      if codes[i] == "category_mismatch" {
        base := base - 0.08;
      } else if codes[i] == "ram_storage_swap_suspected" {
        base := base - 0.05;
      }
    }
    assert codes[..|codes|] == codes;
    fc := FieldConfidence(field, Clamp(base), [rawLabel], [raw], None, Distinct(codes));
  }

  function RawScore(lib: Library, field: string, raw: string, h: Hints): real {
    HintScore(LacksUnit(lib, field, raw, h), field in NUMERIC_FIELDS && lib.trimmedLength(raw) > 2, h)
    - Penalty(RowCodes(lib, field, raw, h))
  }

  function Score(lib: Library, field: string, rawLabel: string, raw: string, h: Hints): FieldConfidence {
    FieldConfidence(field, Clamp(RawScore(lib, field, raw, h)), [rawLabel], [raw], None,
                    Distinct(RowCodes(lib, field, raw, h)))
  }

  predicate InRange(fc: FieldConfidence) {
    LOWEST <= fc.confidence <= HIGHEST
  }

  // ----- merging

  function Highest(fcs: seq<FieldConfidence>): real
    requires fcs != []
  {
    if |fcs| == 1 then fcs[0].confidence
    else
      var rest := Highest(fcs[..|fcs| - 1]);
      var last := fcs[|fcs| - 1].confidence;
      if last > rest then last else rest
  }

  function Gather(fcs: seq<FieldConfidence>, part: FieldConfidence -> seq<string>): seq<string> {
    if fcs == [] then [] else Gather(fcs[..|fcs| - 1], part) + part(fcs[|fcs| - 1])
  }

  function LabelsOf(fc: FieldConfidence): seq<string> { fc.labels }

  function ValuesOf(fc: FieldConfidence): seq<string> { fc.values }

  function CodesOf(fc: FieldConfidence): seq<string> { fc.warnings }

  /** Each further supporting row adds 0.04, up to 0.12. */
  function Bump(n: nat): real {
    if n <= 1 then 0.0 else if n == 2 then 0.04 else if n == 3 then 0.08 else 0.12
  }

  function Merged(field: string, fcs: seq<FieldConfidence>): FieldConfidence {
    if fcs == [] then FieldConfidence(field, LOWEST, [], [], Some("no_evidence"), ["low_confidence"])
    else if |fcs| == 1 then fcs[0].(fieldName := field)
    else
      var c := Highest(fcs) + Bump(|fcs|);
      FieldConfidence(field, if c > HIGHEST then HIGHEST else c, Distinct(Gather(fcs, LabelsOf)),
                      Distinct(Gather(fcs, ValuesOf)),
                      Some("merged_equivalent_sources"), Distinct(Gather(fcs, CodesOf)))
  }

  method MergeFieldConfidences(field: string, evidences: seq<FieldConfidence>) returns (fc: FieldConfidence)
    ensures fc == Merged(field, evidences)
  {
    if evidences == [] { return FieldConfidence(field, LOWEST, [], [], Some("no_evidence"), ["low_confidence"]); }
    if |evidences| == 1 { return evidences[0].(fieldName := field); }
    var labels, values, codes := [], [], [];
    var top := evidences[0].confidence;
    assert evidences[..1] == [evidences[0]];
    for i := 0 to |evidences|
      invariant labels == Gather(evidences[..i], LabelsOf) && values == Gather(evidences[..i], ValuesOf)
                && codes == Gather(evidences[..i], CodesOf)
      invariant top == Highest(evidences[..if i == 0 then 1 else i])
    {
      assert evidences[..i + 1][..i] == evidences[..i];
      labels := labels + evidences[i].labels;
      codes := codes + evidences[i].warnings;
      values := values + evidences[i].values;
      if evidences[i].confidence > top { top := evidences[i].confidence; }
    }
    assert evidences[..|evidences|] == evidences;
    var step := 0.04 * (|evidences| - 1) as real;
    var bump := if step < 0.12 then step else 0.12;
    var conf := if top + bump < HIGHEST then top + bump else HIGHEST;
    fc := FieldConfidence(field, conf, Distinct(labels), Distinct(values), Some("merged_equivalent_sources"),
                          Distinct(codes));
  }

  /** Merging keeps scores in range and never lowers the best piece of evidence. */
  lemma MergedInRange(field: string, fcs: seq<FieldConfidence>)
    requires forall i :: 0 <= i < |fcs| ==> InRange(fcs[i])
    ensures InRange(Merged(field, fcs))
    ensures forall i :: 0 <= i < |fcs| ==> fcs[i].confidence <= Merged(field, fcs).confidence
    ensures Merged(field, fcs).fieldName == field
  {
    if fcs != [] { HighestBounds(fcs); }
  }

  lemma {:induction false} HighestBounds(fcs: seq<FieldConfidence>)
    requires fcs != []
    ensures forall i :: 0 <= i < |fcs| ==> fcs[i].confidence <= Highest(fcs)
    ensures exists i :: 0 <= i < |fcs| && fcs[i].confidence == Highest(fcs)
  {
    if |fcs| == 1 {
      assert fcs[0].confidence == Highest(fcs);
    } else {
      var rest := fcs[..|fcs| - 1];
      HighestBounds(rest);
      var i :| 0 <= i < |rest| && rest[i].confidence == Highest(rest);
      assert fcs[i] == rest[i];
      forall j | 0 <= j < |fcs| ensures fcs[j].confidence <= Highest(fcs) {
        if j < |rest| { assert rest[j] == fcs[j]; }
      }
    }
  }

  lemma {:induction false} GatherMembers(fcs: seq<FieldConfidence>, part: FieldConfidence -> seq<string>, x: string)
    ensures x in Gather(fcs, part) <==> exists i :: 0 <= i < |fcs| && x in part(fcs[i])
  {
    if fcs != [] {
      var rest := fcs[..|fcs| - 1];
      GatherMembers(rest, part, x);
      if i :| 0 <= i < |rest| && x in part(rest[i]) { assert x in part(fcs[i]); }
    }
  }

  ghost predicate IsHighest(fcs: seq<FieldConfidence>, top: real) {
    && (forall i :: 0 <= i < |fcs| ==> fcs[i].confidence <= top)
    && (exists i :: 0 <= i < |fcs| && fcs[i].confidence == top)
  }

  /** The strings are those of the parts, each once. */
  ghost predicate Collects(all: seq<string>, parts: seq<seq<string>>) {
    && (forall x :: x in all <==> exists i :: 0 <= i < |parts| && x in parts[i])
    && (forall i, j :: 0 <= i < j < |all| ==> all[i] != all[j])
  }

  lemma GatheredOnce(fcs: seq<FieldConfidence>, part: FieldConfidence -> seq<string>, parts: seq<seq<string>>)
    requires |parts| == |fcs| && forall i :: 0 <= i < |fcs| ==> parts[i] == part(fcs[i])
    ensures Collects(Distinct(Gather(fcs, part)), parts)
  {
    DistinctMembers(Gather(fcs, part));
    forall x ensures x in Gather(fcs, part) <==> exists i :: 0 <= i < |parts| && x in parts[i] {
      GatherMembers(fcs, part, x);
    }
  }

  /** Merged evidence scores as its best piece, plus 0.04 for each further piece up to 0.12, and at most 0.98; it
      has the labels, values and codes of all pieces, each once. A single piece is left as it is. */
  lemma MergedMeans(field: string, fcs: seq<FieldConfidence>, top: real)
    requires fcs != [] && IsHighest(fcs, top)
    ensures |fcs| == 1 ==> Merged(field, fcs) == fcs[0].(fieldName := field)
    ensures |fcs| > 1 ==>
              var m, more := Merged(field, fcs), 0.04 * (|fcs| - 1) as real;
              && m.confidence == AtMost(top + AtMost(more, 0.12), 0.98)
              && m.fieldName == field && m.reason == Some("merged_equivalent_sources")
              && Collects(m.labels, seq(|fcs|, i requires 0 <= i < |fcs| => fcs[i].labels))
              && Collects(m.values, seq(|fcs|, i requires 0 <= i < |fcs| => fcs[i].values))
              && Collects(m.warnings, seq(|fcs|, i requires 0 <= i < |fcs| => fcs[i].warnings))
  {
    HighestBounds(fcs);
    GatheredOnce(fcs, LabelsOf, seq(|fcs|, i requires 0 <= i < |fcs| => fcs[i].labels));
    GatheredOnce(fcs, ValuesOf, seq(|fcs|, i requires 0 <= i < |fcs| => fcs[i].values));
    GatheredOnce(fcs, CodesOf, seq(|fcs|, i requires 0 <= i < |fcs| => fcs[i].warnings));
    BumpSteps(|fcs|);
  }

  lemma MergedScore(field: string, fcs: seq<FieldConfidence>, top: real)
    requires fcs != [] && IsHighest(fcs, top)
    ensures Merged(field, fcs).confidence ==
            if |fcs| == 1 then top else AtMost(top + AtMost(0.04 * (|fcs| - 1) as real, 0.12), 0.98)
  {
    MergedMeans(field, fcs, top);
  }

  function AtMost(x: real, most: real): real {
    if x > most then most else x
  }

  lemma BumpSteps(n: nat)
    requires n > 0
    ensures Bump(n) == AtMost(0.04 * (n - 1) as real, 0.12)
  {
    if n >= 4 { assert (n - 1) as real >= 3.0; }
  }
}
