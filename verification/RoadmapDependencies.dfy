/** `build_roadmap_dependencies`: prerequisite edges inferred by rule, merged with explicit ones. */
module RoadmapDependencies {
  import opened DependencyGraph
  import opened Roadmap

  /** Some rule puts an item with code `u` before one with code `v`. */
  ghost predicate OrderedByRule(items: seq<RoadmapItem>, u: Code, v: Code) {
    exists r :: r != ExplicitDependency && ReasonHolds(items, RoadmapDependency(u, v, r))
  }

  ghost predicate OrderedExplicitly(items: seq<RoadmapItem>, u: Code, v: Code) {
    u != v && u in ItemCodes(items) && exists b :: b in items && b.itemCode == v && u in b.dependsOn
  }

  function Link(d: RoadmapDependency): Edge {
    (d.fromCode, d.toCode)
  }

  ghost predicate Links(deps: seq<RoadmapDependency>, u: Code, v: Code) {
    exists d :: d in deps && d.fromCode == u && d.toCode == v
  }

  // ----- the double loops of the rules

  function Select(items: seq<RoadmapItem>, workstream: Workstream, phase: Phase): seq<RoadmapItem> {
    if items == [] then []
    else
      (if items[0].workstream == workstream && items[0].phase == phase then [items[0]] else [])
      + Select(items[1..], workstream, phase)
  }

  function SelectPhase(items: seq<RoadmapItem>, phase: Phase): seq<RoadmapItem> {
    if items == [] then []
    else (if items[0].phase == phase then [items[0]] else []) + SelectPhase(items[1..], phase)
  }

  lemma {:induction false} SelectMembers(items: seq<RoadmapItem>, workstream: Workstream, phase: Phase, i: RoadmapItem)
    ensures i in Select(items, workstream, phase) <==> i in items && i.workstream == workstream && i.phase == phase
  {
    if items != [] { SelectMembers(items[1..], workstream, phase, i); }
  }

  lemma {:induction false} SelectPhaseMembers(items: seq<RoadmapItem>, phase: Phase, i: RoadmapItem)
    ensures i in SelectPhase(items, phase) <==> i in items && i.phase == phase
  {
    if items != [] { SelectPhaseMembers(items[1..], phase, i); }
  }

  /** An edge from every source to one target; `skipSame` leaves out equal codes. */
  function CrossOne(sources: seq<RoadmapItem>, target: RoadmapItem, skipSame: bool,
                    reason: Reason): seq<RoadmapDependency> {
    if sources == [] then []
    else
      var s := sources[|sources| - 1];
      CrossOne(sources[..|sources| - 1], target, skipSame, reason)
      + if skipSame && s.itemCode == target.itemCode then []
        else [RoadmapDependency(s.itemCode, target.itemCode, reason)]
  }

  function Cross(sources: seq<RoadmapItem>, targets: seq<RoadmapItem>, skipSame: bool,
                 reason: Reason): seq<RoadmapDependency> {
    if targets == [] then []
    else
      Cross(sources, targets[..|targets| - 1], skipSame, reason)
      + CrossOne(sources, targets[|targets| - 1], skipSame, reason)
  }

  method AddEdges(deps0: seq<RoadmapDependency>, sources: seq<RoadmapItem>, targets: seq<RoadmapItem>, skipSame: bool,
                  reason: Reason)
    returns (deps: seq<RoadmapDependency>)
    ensures deps == deps0 + Cross(sources, targets, skipSame, reason)
  {
    deps := deps0;
    ghost var done := [];
    for t := 0 to |targets|
      invariant done == targets[..t] && deps == deps0 + Cross(sources, done, skipSame, reason)
    {
      deps := AddEdgesTo(deps, sources, targets[t], skipSame, reason);
      done := done + [targets[t]];
    }
    assert done == targets;
  }

  method AddEdgesTo(deps0: seq<RoadmapDependency>, sources: seq<RoadmapItem>, target: RoadmapItem, skipSame: bool,
                    reason: Reason)
    returns (deps: seq<RoadmapDependency>)
    ensures deps == deps0 + CrossOne(sources, target, skipSame, reason)
  {
    deps := deps0;
    for s := 0 to |sources|
      invariant deps == deps0 + CrossOne(sources[..s], target, skipSame, reason)
    {
      assert sources[..s + 1][..s] == sources[..s];
      if !(skipSame && sources[s].itemCode == target.itemCode) {
        deps := deps + [RoadmapDependency(sources[s].itemCode, target.itemCode, reason)];
      }
    }
    assert sources[..|sources|] == sources;
  }

  ghost predicate Crossed(sources: seq<RoadmapItem>, targets: seq<RoadmapItem>, skipSame: bool, u: Code, v: Code) {
    exists a, b :: a in sources && b in targets && a.itemCode == u && b.itemCode == v && !(skipSame && u == v)
  }

  lemma {:induction false} CrossOneMembers(sources: seq<RoadmapItem>, target: RoadmapItem, skipSame: bool,
                                           reason: Reason, d: RoadmapDependency)
    ensures d in CrossOne(sources, target, skipSame, reason) <==>
              d.reason == reason && Crossed(sources, [target], skipSame, d.fromCode, d.toCode)
  {
    if sources != [] {
      var rest, s := sources[..|sources| - 1], sources[|sources| - 1];
      CrossOneMembers(rest, target, skipSame, reason, d);
      assert sources == rest + [s];
      assert s in sources && target in [target];
    }
  }

  /** The double loop lists exactly the crossed pairs, with its reason. */
  lemma {:induction false} CrossMembers(sources: seq<RoadmapItem>, targets: seq<RoadmapItem>, skipSame: bool,
                                        reason: Reason, d: RoadmapDependency)
    ensures d in Cross(sources, targets, skipSame, reason) <==>
              d.reason == reason && Crossed(sources, targets, skipSame, d.fromCode, d.toCode)
  {
    if targets != [] {
      var rest, last := targets[..|targets| - 1], targets[|targets| - 1];
      CrossMembers(sources, rest, skipSame, reason, d);
      CrossOneMembers(sources, last, skipSame, reason, d);
      assert targets == rest + [last];
    }
  }

  // ----- the rules

  /** The rules in the order in which they are applied, then what items state themselves. */
  function ReasonIndex(r: Reason): nat {
    match r
    case SecurityBeforeCrm => 0
    case CrawlBeforeCrm => 1
    case FoundationBeforeObservability => 2
    case ObservabilityBeforeRelease => 3
    case TransportBeforeLifecycle => 4
    case DocsBeforeSupport => 5
    case ExplicitDependency => 6
  }

  /** Reason `r` puts item `a` before item `b`. */
  predicate Applies(r: Reason, a: RoadmapItem, b: RoadmapItem) {
    match r
    case SecurityBeforeCrm => a.workstream == Security && b.workstream == CrmIntegration
      && a.phase == b.phase == Foundation
    case CrawlBeforeCrm => a.workstream == Crawl && b.workstream == CrmIntegration && a.phase == b.phase == Foundation
    case FoundationBeforeObservability =>
      a.phase == Foundation && b.workstream == Observability && b.phase == GoLiveBaseline && a.itemCode != b.itemCode
    case ObservabilityBeforeRelease =>
      a.workstream == Observability && b.workstream == ReleaseGovernance && a.phase == b.phase == GoLiveBaseline
    case TransportBeforeLifecycle =>
      a.workstream == CrmIntegration && a.phase == Foundation && b.workstream == Lifecycle && b.phase == GoLiveBaseline
    case DocsBeforeSupport => a.workstream == Documentation && b.workstream == Support
      && a.phase == b.phase == GoLiveBaseline
    case ExplicitDependency => a.itemCode in b.dependsOn && a.itemCode != b.itemCode
  }

  /** Some two items with the codes of `d` are ordered by its reason. */
  ghost predicate ReasonHolds(items: seq<RoadmapItem>, d: RoadmapDependency) {
    exists a, b ::
      a in items && b in items && a.itemCode == d.fromCode && b.itemCode == d.toCode && Applies(d.reason, a, b)
  }

  function Sources(items: seq<RoadmapItem>, r: Reason): seq<RoadmapItem> {
    match r
    case SecurityBeforeCrm => Select(items, Security, Foundation)
    case CrawlBeforeCrm => Select(items, Crawl, Foundation)
    case FoundationBeforeObservability => SelectPhase(items, Foundation)
    case ObservabilityBeforeRelease => Select(items, Observability, GoLiveBaseline)
    case TransportBeforeLifecycle => Select(items, CrmIntegration, Foundation)
    case DocsBeforeSupport => Select(items, Documentation, GoLiveBaseline)
    case ExplicitDependency => []
  }

  function Targets(items: seq<RoadmapItem>, r: Reason): seq<RoadmapItem> {
    match r
    case SecurityBeforeCrm => Select(items, CrmIntegration, Foundation)
    case CrawlBeforeCrm => Select(items, CrmIntegration, Foundation)
    case FoundationBeforeObservability => Select(items, Observability, GoLiveBaseline)
    case ObservabilityBeforeRelease => Select(items, ReleaseGovernance, GoLiveBaseline)
    case TransportBeforeLifecycle => Select(items, Lifecycle, GoLiveBaseline)
    case DocsBeforeSupport => Select(items, Support, GoLiveBaseline)
    case ExplicitDependency => []
  }

  function RuleList(items: seq<RoadmapItem>, r: Reason): seq<RoadmapDependency> {
    Cross(Sources(items, r), Targets(items, r), r == FoundationBeforeObservability, r)
  }

  lemma SelectedPair(items: seq<RoadmapItem>, r: Reason, a: RoadmapItem, b: RoadmapItem)
    requires r != ExplicitDependency
    ensures a in Sources(items, r) && b in Targets(items, r)
            && !(r == FoundationBeforeObservability && a.itemCode == b.itemCode) <==>
              a in items && b in items && Applies(r, a, b)
  {
    forall w, p, i ensures i in Select(items, w, p) <==> i in items && i.workstream == w && i.phase == p {
      SelectMembers(items, w, p, i);
    }
    SelectPhaseMembers(items, Foundation, a);
  }

  /** A rule lists exactly the dependencies for which it holds. */
  lemma RuleListMembers(items: seq<RoadmapItem>, r: Reason, d: RoadmapDependency)
    requires r != ExplicitDependency
    ensures d in RuleList(items, r) <==> d.reason == r && ReasonHolds(items, d)
  {
    CrossMembers(Sources(items, r), Targets(items, r), r == FoundationBeforeObservability, r, d);
    forall a, b
      ensures a in Sources(items, r) && b in Targets(items, r)
              && !(r == FoundationBeforeObservability && a.itemCode == b.itemCode) <==>
                a in items && b in items && Applies(r, a, b)
    {
      SelectedPair(items, r, a, b);
    }
  }

  // ----- explicit dependencies

  function Stated(prereqs: seq<Code>, code: Code, known: set<Code>): seq<RoadmapDependency> {
    if prereqs == [] then []
    else
      var p := prereqs[|prereqs| - 1];
      Stated(prereqs[..|prereqs| - 1], code, known)
      + if p in known && p != code then [RoadmapDependency(p, code, ExplicitDependency)] else []
  }

  function AllStated(items: seq<RoadmapItem>, known: set<Code>): seq<RoadmapDependency> {
    if items == [] then []
    else
      AllStated(items[..|items| - 1], known) + Stated(items[|items| - 1].dependsOn, items[|items| - 1].itemCode, known)
  }

  method AddExplicit(deps0: seq<RoadmapDependency>, items: seq<RoadmapItem>) returns (deps: seq<RoadmapDependency>)
    ensures deps == deps0 + AllStated(items, ItemCodes(items))
  {
    deps := deps0;
    var known := ItemCodes(items);
    ghost var done := [];
    for t := 0 to |items|
      invariant done == items[..t] && deps == deps0 + AllStated(done, known)
    {
      deps := AddStated(deps, items[t].dependsOn, items[t].itemCode, known);
      done := done + [items[t]];
    }
    assert done == items;
  }

  method AddStated(deps0: seq<RoadmapDependency>, prereqs: seq<Code>, code: Code, known: set<Code>)
    returns (deps: seq<RoadmapDependency>)
    ensures deps == deps0 + Stated(prereqs, code, known)
  {
    deps := deps0;
    for s := 0 to |prereqs|
      invariant deps == deps0 + Stated(prereqs[..s], code, known)
    {
      assert prereqs[..s + 1][..s] == prereqs[..s];
      if prereqs[s] in known && prereqs[s] != code {
        deps := deps + [RoadmapDependency(prereqs[s], code, ExplicitDependency)];
      }
    }
    assert prereqs[..|prereqs|] == prereqs;
  }

  lemma {:induction false} StatedMembers(prereqs: seq<Code>, code: Code, known: set<Code>, d: RoadmapDependency)
    ensures d in Stated(prereqs, code, known) <==>
              d.reason == ExplicitDependency && d.toCode == code && d.fromCode in prereqs && d.fromCode in known
                && d.fromCode != code
  {
    if prereqs != [] {
      StatedMembers(prereqs[..|prereqs| - 1], code, known, d);
      assert prereqs == prereqs[..|prereqs| - 1] + [prereqs[|prereqs| - 1]];
    }
  }

  ghost predicate StatedBySome(items: seq<RoadmapItem>, known: set<Code>, u: Code, v: Code) {
    u != v && u in known && exists b :: b in items && b.itemCode == v && u in b.dependsOn
  }

  lemma {:induction false} AllStatedMembers(items: seq<RoadmapItem>, known: set<Code>, d: RoadmapDependency)
    ensures d in AllStated(items, known) <==>
              d.reason == ExplicitDependency && StatedBySome(items, known, d.fromCode, d.toCode)
  {
    if items != [] {
      var rest, last := items[..|items| - 1], items[|items| - 1];
      AllStatedMembers(rest, known, d);
      StatedMembers(last.dependsOn, last.itemCode, known, d);
      assert items == rest + [last];
      assert last in items;
    }
  }

  /** The stated dependencies are exactly those for which the explicit reason holds. */
  lemma ExplicitMembers(items: seq<RoadmapItem>, d: RoadmapDependency)
    ensures d in AllStated(items, ItemCodes(items)) <==> d.reason == ExplicitDependency && ReasonHolds(items, d)
  {
    AllStatedMembers(items, ItemCodes(items), d);
    if d.reason == ExplicitDependency && StatedBySome(items, ItemCodes(items), d.fromCode, d.toCode) {
      var b :| b in items && b.itemCode == d.toCode && d.fromCode in b.dependsOn;
      var a :| a in items && a.itemCode == d.fromCode;
      assert Applies(ExplicitDependency, a, b);
    }
  }

  // ----- the whole list

  function Concat(pieces: seq<seq<RoadmapDependency>>): seq<RoadmapDependency> {
    if pieces == [] then [] else Concat(pieces[..|pieces| - 1]) + pieces[|pieces| - 1]
  }

  function ReasonAt(i: nat): Reason
    requires i < 7
  {
    match i
    case 0 => SecurityBeforeCrm
    case 1 => CrawlBeforeCrm
    case 2 => FoundationBeforeObservability
    case 3 => ObservabilityBeforeRelease
    case 4 => TransportBeforeLifecycle
    case 5 => DocsBeforeSupport
    case _ => ExplicitDependency
  }

  lemma ReasonIndexed(r: Reason)
    ensures ReasonIndex(r) < 7 && ReasonAt(ReasonIndex(r)) == r && (ReasonIndex(r) == 6 <==> r == ExplicitDependency)
  {
  }

  function Piece(items: seq<RoadmapItem>, r: Reason): seq<RoadmapDependency> {
    if r == ExplicitDependency then AllStated(items, ItemCodes(items)) else RuleList(items, r)
  }

  /** The list of each reason, in the order of `ReasonIndex`. */
  function Pieces(items: seq<RoadmapItem>): seq<seq<RoadmapDependency>> {
    seq(7, i requires 0 <= i < 7 => Piece(items, ReasonAt(i)))
  }

  /** What the rules list, one after the other. */
  function Ruled(items: seq<RoadmapItem>): seq<RoadmapDependency> {
    Piece(items, SecurityBeforeCrm) + Piece(items, CrawlBeforeCrm) + Piece(items, FoundationBeforeObservability)
    + Piece(items, ObservabilityBeforeRelease) + Piece(items, TransportBeforeLifecycle)
    + Piece(items, DocsBeforeSupport)
  }

  /** Everything listed before pairs are made unique: rule by rule, then what items state. */
  function Listed(items: seq<RoadmapItem>): seq<RoadmapDependency> {
    Ruled(items) + Piece(items, ExplicitDependency)
  }

  lemma FlatConcat(p: seq<seq<RoadmapDependency>>)
    requires |p| == 7
    ensures Concat(p) == p[0] + p[1] + p[2] + p[3] + p[4] + p[5] + p[6]
  {
    assert p[..0] == [] && p[..7] == p;
    NextPiece(p, 0);
    assert Concat(p[..1]) == p[0];
    NextPiece(p, 1);
    NextPiece(p, 2);
    NextPiece(p, 3);
    NextPiece(p, 4);
    NextPiece(p, 5);
    NextPiece(p, 6);
  }

  lemma NextPiece(p: seq<seq<RoadmapDependency>>, n: nat)
    requires n < |p|
    ensures Concat(p[..n + 1]) == Concat(p[..n]) + p[n]
  {
    assert p[..n] + [p[n]] == p[..n + 1];
  }

  lemma ListedInPieces(items: seq<RoadmapItem>)
    ensures Listed(items) == Concat(Pieces(items))
  {
    FlatConcat(Pieces(items));
  }

  /** Every piece lists exactly the dependencies for which its reason holds. */
  lemma PieceMembers(items: seq<RoadmapItem>, r: Reason, d: RoadmapDependency)
    ensures d in Piece(items, r) <==> d.reason == r && ReasonHolds(items, d)
  {
    if r == ExplicitDependency { ExplicitMembers(items, d); } else { RuleListMembers(items, r, d); }
  }

  lemma IndexOfReason(r: Reason, i: nat)
    requires i < 7
    ensures r == ReasonAt(i) <==> ReasonIndex(r) == i
  {
  }

  lemma PiecesMembers(items: seq<RoadmapItem>, p: seq<seq<RoadmapDependency>>, d: RoadmapDependency)
    requires p == Pieces(items)
    ensures |p| == 7 && forall i :: 0 <= i < 7 ==> (d in p[i] <==> ReasonIndex(d.reason) == i && ReasonHolds(items, d))
  {
    forall i | 0 <= i < 7 ensures d in p[i] <==> ReasonIndex(d.reason) == i && ReasonHolds(items, d) {
      PieceMembers(items, ReasonAt(i), d);
      IndexOfReason(d.reason, i);
    }
  }

  lemma {:induction false} ConcatMembers(pieces: seq<seq<RoadmapDependency>>, d: RoadmapDependency)
    ensures d in Concat(pieces) <==> exists i :: 0 <= i < |pieces| && d in pieces[i]
  {
    if pieces != [] { ConcatMembers(pieces[..|pieces| - 1], d); }
  }

  ghost predicate ByReason(deps: seq<RoadmapDependency>) {
    forall i, j :: 0 <= i <= j < |deps| ==> ReasonIndex(deps[i].reason) <= ReasonIndex(deps[j].reason)
  }

  lemma {:induction false} ConcatByReason(pieces: seq<seq<RoadmapDependency>>)
    requires forall i, d :: 0 <= i < |pieces| && d in pieces[i] ==> ReasonIndex(d.reason) == i
    ensures ByReason(Concat(pieces)) && forall d :: d in Concat(pieces) ==> ReasonIndex(d.reason) < |pieces|
  {
    if pieces != [] {
      var rest, last := pieces[..|pieces| - 1], pieces[|pieces| - 1];
      ConcatByReason(rest);
    }
  }

  lemma InOnePiece(p: seq<seq<RoadmapDependency>>, d: RoadmapDependency, n: nat, holds: bool)
    requires |p| == 7 && n < 7 && forall i :: 0 <= i < 7 ==> (d in p[i] <==> n == i && holds)
    ensures d in Concat(p) <==> holds
  {
    ConcatMembers(p, d);
    assert d in p[n] <==> holds;
  }

  /** What is listed is exactly what some reason holds for, in the order of the reasons. */
  lemma ListedMembers(items: seq<RoadmapItem>, d: RoadmapDependency)
    ensures d in Listed(items) <==> ReasonHolds(items, d)
  {
    ListedInPieces(items);
    ReasonIndexed(d.reason);
    PiecesMembers(items, Pieces(items), d);
    InOnePiece(Pieces(items), d, ReasonIndex(d.reason), ReasonHolds(items, d));
  }

  lemma ListedByReason(items: seq<RoadmapItem>)
    ensures ByReason(Listed(items))
  {
    var p := Pieces(items);
    ListedInPieces(items);
    forall i, d: RoadmapDependency | 0 <= i < |p| && d in p[i] ensures ReasonIndex(d.reason) == i {
      PiecesMembers(items, p, d);
    }
    ConcatByReason(p);
  }

  // ----- one dependency per pair

  function LinkSet(deps: seq<RoadmapDependency>): set<Edge> {
    set d | d in deps :: Link(d)
  }

  /** The first dependency between each two known codes, in order. */
  function FirstPerLink(deps: seq<RoadmapDependency>, known: set<Code>): seq<RoadmapDependency> {
    if deps == [] then []
    else
      var rest, d := deps[..|deps| - 1], deps[|deps| - 1];
      FirstPerLink(rest, known)
      + if Link(d) !in LinkSet(rest) && d.fromCode in known && d.toCode in known then [d] else []
  }

  /** `d` is the first of the dependencies between its two codes. */
  ghost predicate FirstOfItsLink(deps: seq<RoadmapDependency>, d: RoadmapDependency) {
    exists i :: 0 <= i < |deps| && deps[i] == d && forall j :: 0 <= j < i ==> Link(deps[j]) != Link(d)
  }

  lemma FirstOfLonger(rest: seq<RoadmapDependency>, last: RoadmapDependency, d: RoadmapDependency)
    ensures FirstOfItsLink(rest + [last], d) <==> FirstOfItsLink(rest, d) || (d == last && Link(last) !in LinkSet(rest))
  {
    var all := rest + [last];
    if FirstOfItsLink(rest, d) {
      var i :| 0 <= i < |rest| && rest[i] == d && forall j :: 0 <= j < i ==> Link(rest[j]) != Link(d);
      assert all[i] == d && forall j :: 0 <= j < i ==> all[j] == rest[j];
    }
    if d == last && Link(last) !in LinkSet(rest) {
      assert all[|rest|] == d;
      forall j | 0 <= j < |rest| ensures Link(all[j]) != Link(d) { assert rest[j] in rest && all[j] == rest[j]; }
    }
    if FirstOfItsLink(all, d) {
      var i :| 0 <= i < |all| && all[i] == d && forall j :: 0 <= j < i ==> Link(all[j]) != Link(d);
      if i < |rest| {
        assert rest[i] == d && forall j :: 0 <= j < i ==> rest[j] == all[j];
      } else {
        forall e | e in rest ensures Link(e) != Link(d) {
          var j :| 0 <= j < |rest| && rest[j] == e;
          assert all[j] == e;
        }
      }
    }
  }

  lemma {:induction false} FirstPerLinkMembers(deps: seq<RoadmapDependency>, known: set<Code>, d: RoadmapDependency)
    ensures d in FirstPerLink(deps, known) <==> FirstOfItsLink(deps, d) && d.fromCode in known && d.toCode in known
  {
    if deps != [] {
      var rest, last := deps[..|deps| - 1], deps[|deps| - 1];
      FirstPerLinkMembers(rest, known, d);
      FirstOfLonger(rest, last, d);
      assert deps == rest + [last];
    }
  }

  /** Making pairs unique loses none. */
  lemma {:induction false} LinkKept(deps: seq<RoadmapDependency>, u: Code, v: Code) returns (d: RoadmapDependency)
    requires Links(deps, u, v)
    ensures FirstOfItsLink(deps, d) && Link(d) == (u, v)
  {
    var rest, last := deps[..|deps| - 1], deps[|deps| - 1];
    assert deps == rest + [last];
    if Links(rest, u, v) {
      d := LinkKept(rest, u, v);
    } else {
      d := last;
    }
    FirstOfLonger(rest, last, d);
  }

  lemma {:induction false} LinksUnique(deps: seq<RoadmapDependency>, known: set<Code>)
    ensures DistinctLinks(FirstPerLink(deps, known))
  {
    if deps != [] {
      var rest := deps[..|deps| - 1];
      LinksUnique(rest, known);
      var kept := FirstPerLink(rest, known);
      forall i | 0 <= i < |kept| ensures Link(kept[i]) in LinkSet(rest) {
        assert kept[i] in kept;
        FirstPerLinkMembers(rest, known, kept[i]);
      }
    }
  }

  method Dedupe(deps: seq<RoadmapDependency>, known: set<Code>) returns (out: seq<RoadmapDependency>)
    ensures out == FirstPerLink(deps, known)
  {
    out := [];
    var seen: set<Edge> := {};
    for i := 0 to |deps|
      invariant out == FirstPerLink(deps[..i], known)
      invariant forall e: Edge :: e in seen <==> e in LinkSet(deps[..i]) && e.0 in known && e.1 in known
    {
      var d := deps[i];
      assert deps[..i + 1][..i] == deps[..i];
      assert LinkSet(deps[..i + 1]) == LinkSet(deps[..i]) + {Link(d)} by { assert deps[..i + 1] == deps[..i] + [d]; }
      if Link(d) !in seen && d.fromCode in known && d.toCode in known {
        seen := seen + {Link(d)};
        out := out + [d];
      }
    }
    assert deps[..|deps|] == deps;
  }

  /** `all` lists what some reason holds for, in the order of the reasons. */
  ghost predicate ListsReasons(items: seq<RoadmapItem>, all: seq<RoadmapDependency>) {
    ByReason(all) && forall d :: d in all <==> ReasonHolds(items, d)
  }

  lemma ListedListsReasons(items: seq<RoadmapItem>)
    ensures ListsReasons(items, Listed(items))
  {
    ListedByReason(items);
    forall d ensures d in Listed(items) <==> ReasonHolds(items, d) { ListedMembers(items, d); }
  }

  /** Where several reasons hold for a pair, the one listed first is kept: rules in their order,
      and what an item states only when no rule applies. */
  lemma FirstReasonWins(items: seq<RoadmapItem>, all: seq<RoadmapDependency>, d: RoadmapDependency, r: Reason)
    requires ListsReasons(items, all) && FirstOfItsLink(all, d) && ReasonHolds(items, d.(reason := r))
    ensures ReasonIndex(d.reason) <= ReasonIndex(r)
  {
    var e := d.(reason := r);
    var i :| 0 <= i < |all| && all[i] == d && forall j :: 0 <= j < i ==> Link(all[j]) != Link(d);
    var j :| 0 <= j < |all| && all[j] == e;
  }

  lemma StatedMeansReason(items: seq<RoadmapItem>, u: Code, v: Code)
    ensures OrderedExplicitly(items, u, v) <==> ReasonHolds(items, RoadmapDependency(u, v, ExplicitDependency))
  {
    if OrderedExplicitly(items, u, v) {
      var b :| b in items && b.itemCode == v && u in b.dependsOn;
      var a :| a in items && a.itemCode == u;
      assert Applies(ExplicitDependency, a, b);
    }
  }

  lemma LinkedPairs(items: seq<RoadmapItem>, all: seq<RoadmapDependency>, u: Code, v: Code)
    requires ListsReasons(items, all)
    ensures Links(FirstPerLink(all, ItemCodes(items)), u, v) <==>
              OrderedByRule(items, u, v) || OrderedExplicitly(items, u, v)
  {
    var known := ItemCodes(items);
    StatedMeansReason(items, u, v);
    if r :| ReasonHolds(items, RoadmapDependency(u, v, r)) {
      assert RoadmapDependency(u, v, r) in all;
      var d := LinkKept(all, u, v);
      FirstPerLinkMembers(all, known, d);
    }
    if Links(FirstPerLink(all, known), u, v) {
      var d :| d in FirstPerLink(all, known) && d.fromCode == u && d.toCode == v;
      FirstPerLinkMembers(all, known, d);
      assert d in all && d == RoadmapDependency(u, v, d.reason);
    }
  }

  method RuleEdges(items: seq<RoadmapItem>) returns (deps: seq<RoadmapDependency>)
    ensures deps == Ruled(items)
  {
    deps := AddSelected(items, [], SecurityBeforeCrm);
    assert deps == Piece(items, SecurityBeforeCrm);
    deps := AddSelected(items, deps, CrawlBeforeCrm);
    deps := AddSelected(items, deps, FoundationBeforeObservability);
    deps := AddSelected(items, deps, ObservabilityBeforeRelease);
    deps := AddSelected(items, deps, TransportBeforeLifecycle);
    deps := AddSelected(items, deps, DocsBeforeSupport);
  }

  method AddSelected(items: seq<RoadmapItem>, deps0: seq<RoadmapDependency>, r: Reason)
    returns (deps: seq<RoadmapDependency>)
    requires r != ExplicitDependency
    ensures deps == deps0 + Piece(items, r)
  {
    deps := AddEdges(deps0, Sources(items, r), Targets(items, r), r == FoundationBeforeObservability, r);
  }

  ghost predicate DistinctLinks(deps: seq<RoadmapDependency>) {
    forall i, j :: 0 <= i < j < |deps| ==> Link(deps[i]) != Link(deps[j])
  }

  /** The reason of `d` holds, and no reason that holds for its pair comes before it. */
  ghost predicate FirstReason(items: seq<RoadmapItem>, d: RoadmapDependency) {
    ReasonHolds(items, d) && forall r :: ReasonHolds(items, d.(reason := r)) ==> ReasonIndex(d.reason) <= ReasonIndex(r)
  }

  lemma UniquePairs(items: seq<RoadmapItem>, all: seq<RoadmapDependency>, out: seq<RoadmapDependency>)
    requires ListsReasons(items, all) && out == FirstPerLink(all, ItemCodes(items))
    ensures forall u, v :: Links(out, u, v) <==> OrderedByRule(items, u, v) || OrderedExplicitly(items, u, v)
    ensures DistinctLinks(out) && forall d :: d in out ==> FirstReason(items, d)
  {
    LinksUnique(all, ItemCodes(items));
    forall u, v ensures Links(out, u, v) <==> OrderedByRule(items, u, v) || OrderedExplicitly(items, u, v) {
      LinkedPairs(items, all, u, v);
    }
    forall d | d in out ensures FirstReason(items, d) {
      FirstPerLinkMembers(all, ItemCodes(items), d);
      forall r | ReasonHolds(items, d.(reason := r)) ensures ReasonIndex(d.reason) <= ReasonIndex(r) {
        FirstReasonWins(items, all, d, r);
      }
    }
  }

  /** One dependency per ordered pair: those the rules infer and those stated on items, no more,
      in the order in which they are first listed, each with the first reason that holds for it. */
  method BuildRoadmapDependencies(items: seq<RoadmapItem>) returns (out: seq<RoadmapDependency>)
    ensures out == FirstPerLink(Listed(items), ItemCodes(items))
    ensures forall u, v :: Links(out, u, v) <==> OrderedByRule(items, u, v) || OrderedExplicitly(items, u, v)
    ensures DistinctLinks(out) && forall d :: d in out ==> FirstReason(items, d)
  {
    if items == [] {
      NothingListed();
      out := [];
    } else {
      var ruled := RuleEdges(items);
      var deps := AddExplicit(ruled, items);
      out := Dedupe(deps, ItemCodes(items));
    }
    ListedListsReasons(items);
    UniquePairs(items, Listed(items), out);
  }

  lemma NothingListed()
    ensures Listed([]) == []
  {
    NoPiece(SecurityBeforeCrm);
    NoPiece(CrawlBeforeCrm);
    NoPiece(FoundationBeforeObservability);
    NoPiece(ObservabilityBeforeRelease);
    NoPiece(TransportBeforeLifecycle);
    NoPiece(DocsBeforeSupport);
    NoPiece(ExplicitDependency);
  }

  lemma NoPiece(r: Reason)
    ensures Piece([], r) == []
  {
    match r
    case SecurityBeforeCrm =>
    case CrawlBeforeCrm =>
    case FoundationBeforeObservability =>
    case ObservabilityBeforeRelease =>
    case TransportBeforeLifecycle =>
    case DocsBeforeSupport =>
    case ExplicitDependency =>
  }
}
