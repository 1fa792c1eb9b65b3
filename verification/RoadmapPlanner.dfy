/** `build_default_roadmap_from_gaps`: from readiness gaps to a phased, provably acyclic roadmap. */
module RoadmapPlanner {
  import opened Ordering
  import opened DependencyGraph
  import opened Roadmap
  import opened RoadmapDependencies
  import opened CriticalPath
  import opened ParallelLayers
  import RoadmapTheorems

  datatype ReadinessDomain =
    | CrawlDomain | NormalizationDomain | CrmIntegrationDomain | LifecycleDomain | BatchApplyDomain
    | ReplayReconciliationDomain | ObservabilityDomain | SupportabilityDomain | SecurityDomain
    | PerformanceDomain | ReleaseGovernanceDomain | DocumentationDomain

  datatype Severity = Low | Medium | High | Critical
  datatype Status = NotStarted | Partial | Ready | Blocked

  datatype ReadinessGap = ReadinessGap(domain: ReadinessDomain, gapCode: string, severity: Severity, blocking: bool)
  datatype ChecklistItem = ChecklistItem(domain: ReadinessDomain, itemCode: string, required: bool, status: Status,
                                         riskIfMissing: Severity)

  function DomainWorkstream(d: ReadinessDomain): Workstream {
    match d
    case CrawlDomain => Crawl
    case NormalizationDomain => Normalization
    case CrmIntegrationDomain => CrmIntegration
    case LifecycleDomain => Lifecycle
    case BatchApplyDomain => CrmIntegration
    case ReplayReconciliationDomain => Lifecycle
    case ObservabilityDomain => Observability
    case SupportabilityDomain => Support
    case SecurityDomain => Security
    case PerformanceDomain => Performance
    case ReleaseGovernanceDomain => ReleaseGovernance
    case DocumentationDomain => Documentation
  }

  function PriorityForGap(gap: ReadinessGap): Priority {
    if gap.blocking && gap.severity == Critical then P0
    else if gap.blocking || gap.severity == Critical then P1
    else if gap.severity == High then P2
    else P3
  }

  function PhaseForGap(gap: ReadinessGap): Phase {
    if gap.domain in {SecurityDomain, CrmIntegrationDomain} && (gap.blocking || gap.severity == Critical) then
      Foundation
    else if gap.domain == CrawlDomain && gap.blocking then Foundation
    else if gap.blocking then GoLiveBaseline
    else if gap.domain == PerformanceDomain then PostLaunchHardening
    else if gap.domain in {DocumentationDomain, SupportabilityDomain} && gap.severity in {Low, Medium} then
      PostLaunchHardening
    else if gap.severity == Low then ScaleMaturity
    else PostLaunchHardening
  }

  function ItemFromGap(gap: ReadinessGap): RoadmapItem {
    RoadmapItem("gap:" + gap.gapCode, DomainWorkstream(gap.domain), PhaseForGap(gap), PriorityForGap(gap), [],
                gap.blocking)
  }

  predicate NeedsWork(chk: ChecklistItem) {
    chk.status != Ready && chk.required
  }

  function GapFromChecklist(chk: ChecklistItem): ReadinessGap {
    ReadinessGap(chk.domain, "checklist." + chk.itemCode, chk.riskIfMissing,
                 chk.riskIfMissing == Critical || chk.domain in {SecurityDomain, CrmIntegrationDomain})
  }

  const SEED_SECURITY := "seed:foundation.security"
  const SEED_TRANSPORT := "seed:foundation.crm_transport"
  const SEED_OBSERVABILITY := "seed:go_live.observability"
  const SEED_COST := "seed:post.cost_tuning"

  function DefaultSeedItems(): seq<RoadmapItem> {
    [
      RoadmapItem(SEED_SECURITY, Security, Foundation, P0, [], true),
      RoadmapItem(SEED_TRANSPORT, CrmIntegration, Foundation, P0, [SEED_SECURITY], true),
      RoadmapItem(SEED_OBSERVABILITY, Observability, GoLiveBaseline, P1, [SEED_TRANSPORT], true),
      RoadmapItem(SEED_COST, Performance, PostLaunchHardening, P2, [SEED_OBSERVABILITY], false)
    ]
  }

  // ----- collecting the items

  /** Every item the inputs ask for, in order, before codes are made unique. */
  function RequestedItems(gaps: seq<ReadinessGap>, checklist: seq<ChecklistItem>): seq<RoadmapItem> {
    GapItems(gaps) + ChecklistItems(checklist)
  }

  function GapItems(gaps: seq<ReadinessGap>): seq<RoadmapItem> {
    if gaps == [] then [] else GapItems(gaps[..|gaps| - 1]) + [ItemFromGap(gaps[|gaps| - 1])]
  }

  function ChecklistItems(checklist: seq<ChecklistItem>): seq<RoadmapItem> {
    if checklist == [] then []
    else
      var c := checklist[|checklist| - 1];
      ChecklistItems(checklist[..|checklist| - 1]) + if NeedsWork(c) then [ItemFromGap(GapFromChecklist(c))] else []
  }

  ghost predicate UniqueCodes(items: seq<RoadmapItem>) {
    forall i, j :: 0 <= i < j < |items| ==> items[i].itemCode != items[j].itemCode
  }

  /** `kept` is `requested` with every item dropped whose code came before. */
  function FirstPerCode(requested: seq<RoadmapItem>): seq<RoadmapItem> {
    if requested == [] then []
    else
      var rest := requested[..|requested| - 1];
      var last := requested[|requested| - 1];
      FirstPerCode(rest) + if last.itemCode in ItemCodes(rest) then [] else [last]
  }

  lemma {:induction false} FirstPerCodeKeepsCodes(requested: seq<RoadmapItem>)
    ensures ItemCodes(FirstPerCode(requested)) == ItemCodes(requested)
    ensures UniqueCodes(FirstPerCode(requested))
    ensures forall i :: i in FirstPerCode(requested) ==> i in requested
  {
    if requested != [] {
      var rest := requested[..|requested| - 1];
      var last := requested[|requested| - 1];
      FirstPerCodeKeepsCodes(rest);
      assert requested == rest + [last];
      assert ItemCodes(requested) == ItemCodes(rest) + {last.itemCode};
      var kept := FirstPerCode(rest);
      forall i | 0 <= i < |kept| ensures kept[i].itemCode in ItemCodes(rest) { assert kept[i] in kept; }
      if last.itemCode !in ItemCodes(rest) {
        assert ItemCodes(kept + [last]) == ItemCodes(kept) + {last.itemCode};
      }
    }
  }

  function PlannedItems(gaps: seq<ReadinessGap>, checklist: seq<ChecklistItem>): seq<RoadmapItem> {
    var kept := FirstPerCode(RequestedItems(gaps, checklist));
    if kept == [] then DefaultSeedItems() else kept
  }

  lemma {:induction false} GapItemsHaveNoDependencies(gaps: seq<ReadinessGap>)
    ensures forall i :: i in GapItems(gaps) ==> i.dependsOn == []
  {
    if gaps != [] { GapItemsHaveNoDependencies(gaps[..|gaps| - 1]); }
  }

  lemma {:induction false} ChecklistItemsHaveNoDependencies(checklist: seq<ChecklistItem>)
    ensures forall i :: i in ChecklistItems(checklist) ==> i.dependsOn == []
  {
    if checklist != [] { ChecklistItemsHaveNoDependencies(checklist[..|checklist| - 1]); }
  }

  // ----- rank

  /** Prerequisites always have a smaller rank. */
  function Rank(i: RoadmapItem): nat {
    match (i.phase, i.workstream)
    case (Foundation, CrmIntegration) => 1
    case (Foundation, _) => 0
    case (GoLiveBaseline, Documentation) => 0
    case (GoLiveBaseline, Observability) => 2
    case _ => 3
  }

  /** Stated dependencies on known items rise in rank too. */
  ghost predicate ExplicitRises(items: seq<RoadmapItem>) {
    forall a, b :: a in items && b in items && a.itemCode in b.dependsOn && a.itemCode != b.itemCode ==>
      Rank(a) < Rank(b)
  }

  lemma PlannedItemsRise(gaps: seq<ReadinessGap>, checklist: seq<ChecklistItem>)
    ensures UniqueCodes(PlannedItems(gaps, checklist)) && ExplicitRises(PlannedItems(gaps, checklist))
    ensures PlannedItems(gaps, checklist) != []
  {
    var requested := RequestedItems(gaps, checklist);
    FirstPerCodeKeepsCodes(requested);
    GapItemsHaveNoDependencies(gaps);
    ChecklistItemsHaveNoDependencies(checklist);
    forall i | i in FirstPerCode(requested) ensures i.dependsOn == [] { assert i in requested; }
    SeedsRise();
  }

  lemma SeedsRise()
    ensures UniqueCodes(DefaultSeedItems()) && ExplicitRises(DefaultSeedItems())
  {
    var s := DefaultSeedItems();
    forall a, b | a in s && b in s && a.itemCode in b.dependsOn && a.itemCode != b.itemCode ensures Rank(a) < Rank(b) {
      var i :| 0 <= i < 4 && s[i] == a;
      var j :| 0 <= j < 4 && s[j] == b;
      assert j == i + 1;
    }
  }

  function ItemRank(items: seq<RoadmapItem>, v: Code): nat {
    if items == [] then 0 else if items[0].itemCode == v then Rank(items[0]) else ItemRank(items[1..], v)
  }

  lemma {:induction false} ItemRankIsRank(items: seq<RoadmapItem>, i: RoadmapItem)
    requires UniqueCodes(items) && i in items
    ensures ItemRank(items, i.itemCode) == Rank(i)
  {
    var k :| 0 <= k < |items| && items[k] == i;
    if k > 0 {
      assert items[1..][k - 1] == i;
      ItemRankIsRank(items[1..], i);
    }
  }

  lemma RulesRise(r: Reason, a: RoadmapItem, b: RoadmapItem)
    requires r != ExplicitDependency && Applies(r, a, b)
    ensures Rank(a) < Rank(b)
  {
  }

  lemma RankAtMostThree(i: RoadmapItem)
    ensures Rank(i) <= 3
  {
  }

  /** Two items ordered by some reason have the ranks of their codes, which rise. */
  lemma ReasonRises(items: seq<RoadmapItem>, d: RoadmapDependency)
    requires UniqueCodes(items) && ExplicitRises(items) && ReasonHolds(items, d)
    ensures ItemRank(items, d.fromCode) < ItemRank(items, d.toCode) <= 3
  {
    var a, b :| a in items && b in items && a.itemCode == d.fromCode && b.itemCode == d.toCode
      && Applies(d.reason, a, b);
    ItemRankIsRank(items, a);
    ItemRankIsRank(items, b);
    RankAtMostThree(b);
    if d.reason != ExplicitDependency { RulesRise(d.reason, a, b); }
  }

  lemma DependenciesRise(items: seq<RoadmapItem>, deps: seq<RoadmapDependency>, u: Code, v: Code)
    requires UniqueCodes(items) && ExplicitRises(items)
    requires forall a, b :: Links(deps, a, b) <==> OrderedByRule(items, a, b) || OrderedExplicitly(items, a, b)
    requires HasEdge(RoadmapGraph(items, deps), u, v)
    ensures ItemRank(items, u) < ItemRank(items, v) <= 3
  {
    KnownEdgesAreDependencies(ItemCodes(items), deps, u, v);
    assert Links(deps, u, v);
    StatedMeansReason(items, u, v);
    var r :| ReasonHolds(items, RoadmapDependency(u, v, r));
    ReasonRises(items, RoadmapDependency(u, v, r));
  }

  ghost predicate EdgesRise(g: Graph, items: seq<RoadmapItem>) {
    forall u, v :: HasEdge(g, u, v) ==> ItemRank(items, u) < ItemRank(items, v) <= 3
  }

  lemma {:induction false} RankAlongPath(g: Graph, items: seq<RoadmapItem>, p: seq<Code>)
    requires EdgesRise(g, items) && IsPath(g, p)
    ensures ItemRank(items, p[0]) + |p| - 1 <= ItemRank(items, p[|p| - 1])
    ensures |p| <= 4
  {
    if |p| > 1 {
      PathSlice(g, p, 0, |p| - 1);
      RankAlongPath(g, items, p[0..|p| - 1]);
      assert HasEdge(g, p[|p| - 2], p[|p| - 1]);
    }
  }

  lemma RankedGraphIsAcyclic(g: Graph, items: seq<RoadmapItem>)
    requires EdgesRise(g, items)
    ensures !HasCycle(g)
  {
    forall p ensures !IsCycle(g, p) {
      if IsPath(g, p) { RankAlongPath(g, items, p); }
    }
  }

  // ----- the roadmap

  datatype ImplementationRoadmap = ImplementationRoadmap(
    phases: map<Phase, seq<RoadmapItem>>,
    dependencies: seq<RoadmapDependency>,
    criticalPath: seq<Code>,
    goLiveBlockers: seq<Code>,
    postLaunchItems: seq<Code>)

  function Blockers(items: seq<RoadmapItem>): seq<Code> {
    if items == [] then []
    else
      var i := items[|items| - 1];
      Blockers(items[..|items| - 1]) + if i.blockingForGoLive then [i.itemCode] else []
  }

  function PostLaunch(items: seq<RoadmapItem>): seq<Code> {
    if items == [] then []
    else
      var i := items[|items| - 1];
      PostLaunch(items[..|items| - 1])
      + if !i.blockingForGoLive && i.phase in {PostLaunchHardening, ScaleMaturity} then [i.itemCode] else []
  }

  /** `items` and `seen` after everything in `done` was offered. */
  ghost predicate Collected(done: seq<RoadmapItem>, items: seq<RoadmapItem>, seen: set<Code>) {
    items == FirstPerCode(done) && seen == ItemCodes(done)
  }

  /** Keep an item whose code is new. */
  method Offer(ghost done: seq<RoadmapItem>, it: RoadmapItem, items0: seq<RoadmapItem>, seen0: set<Code>)
    returns (items: seq<RoadmapItem>, seen: set<Code>)
    requires Collected(done, items0, seen0)
    ensures Collected(done + [it], items, seen)
  {
    items, seen := items0, seen0;
    OneMoreRequested(done, it);
    if it.itemCode !in seen {
      seen := seen + {it.itemCode};
      items := items + [it];
    }
  }

  method CollectFromGaps(gaps: seq<ReadinessGap>) returns (items: seq<RoadmapItem>, seen: set<Code>)
    ensures Collected(GapItems(gaps), items, seen)
  {
    items, seen := [], {};
    for k := 0 to |gaps|
      invariant Collected(GapItems(gaps[..k]), items, seen)
    {
      assert gaps[..k + 1][..k] == gaps[..k];
      items, seen := Offer(GapItems(gaps[..k]), ItemFromGap(gaps[k]), items, seen);
    }
    assert gaps[..|gaps|] == gaps;
  }

  lemma OneMoreRow(fromGaps: seq<RoadmapItem>, checklist: seq<ChecklistItem>, k: nat)
    requires k < |checklist|
    ensures fromGaps + ChecklistItems(checklist[..k + 1]) ==
            if NeedsWork(checklist[k]) then
              fromGaps + ChecklistItems(checklist[..k]) + [ItemFromGap(GapFromChecklist(checklist[k]))]
            else fromGaps + ChecklistItems(checklist[..k])
  {
    assert checklist[..k + 1][..k] == checklist[..k];
  }

  method CollectItems(gaps: seq<ReadinessGap>, checklist: seq<ChecklistItem>) returns (items: seq<RoadmapItem>)
    ensures items == FirstPerCode(RequestedItems(gaps, checklist))
  {
    var seen;
    items, seen := CollectFromGaps(gaps);
    ghost var fromGaps := GapItems(gaps);
    assert fromGaps + ChecklistItems(checklist[..0]) == fromGaps;
    for k := 0 to |checklist|
      invariant Collected(fromGaps + ChecklistItems(checklist[..k]), items, seen)
    {
      OneMoreRow(fromGaps, checklist, k);
      if NeedsWork(checklist[k]) {
        items, seen :=
          Offer(fromGaps + ChecklistItems(checklist[..k]), ItemFromGap(GapFromChecklist(checklist[k])), items, seen);
      }
    }
    assert checklist[..|checklist|] == checklist;
  }

  lemma OneMoreRequested(done: seq<RoadmapItem>, it: RoadmapItem)
    ensures FirstPerCode(done + [it]) == FirstPerCode(done) + if it.itemCode in ItemCodes(done) then [] else [it]
    ensures ItemCodes(done + [it]) == ItemCodes(done) + {it.itemCode}
  {
    assert (done + [it])[..|done|] == done;
    assert it in done + [it];
  }

  /** The planner's own roadmap never has a cycle, so its critical path is a true longest path,
      at most four items long, and never the phase/priority fallback. */
  method BuildDefaultRoadmapFromGaps(gaps: seq<ReadinessGap>, checklist: seq<ChecklistItem>)
    returns (r: ImplementationRoadmap, ghost items: seq<RoadmapItem>, ghost layers: seq<seq<Code>>)
    ensures items == PlannedItems(gaps, checklist)
    ensures forall u, v :: Links(r.dependencies, u, v) <==> OrderedByRule(items, u, v) || OrderedExplicitly(items, u, v)
    ensures !HasCycle(RoadmapGraph(items, r.dependencies))
    ensures LongestPath(RoadmapGraph(items, r.dependencies), r.criticalPath) && NoDuplicates(r.criticalPath)
    ensures 1 <= |r.criticalPath| <= 4
    ensures IsLayering(RoadmapGraph(items, r.dependencies), layers) && |layers| == |r.criticalPath|
    ensures forall p :: p in r.phases && r.phases[p] == SelectPhase(items, p)
    ensures r.goLiveBlockers == Blockers(items) && r.postLaunchItems == PostLaunch(items)
  {
    var collected := CollectItems(gaps, checklist);
    if collected == [] {
      collected := DefaultSeedItems();
    }
    items := collected;
    PlannedItemsRise(gaps, checklist);
    var dependencies := ConnectItems(collected);
    ghost var g := RoadmapGraph(items, dependencies);
    RankedGraphIsAcyclic(g, items);
    var critical := InferCriticalPath(collected, dependencies);
    RankAlongPath(g, items, critical);
    var parallel := DetectParallelizableItems(collected, dependencies);
    RoadmapTheorems.CriticalPathCrossesEveryLayer(g, critical, parallel);
    layers := parallel;
    var byPhase := ByPhase(collected);
    var blockers, postLaunch := CollectCodes(collected);
    r := ImplementationRoadmap(byPhase, dependencies, critical, blockers, postLaunch);
  }

  method ConnectItems(items: seq<RoadmapItem>) returns (dependencies: seq<RoadmapDependency>)
    requires UniqueCodes(items) && ExplicitRises(items)
    ensures forall u, v :: Links(dependencies, u, v) <==> OrderedByRule(items, u, v) || OrderedExplicitly(items, u, v)
    ensures EdgesRise(RoadmapGraph(items, dependencies), items)
  {
    dependencies := BuildRoadmapDependencies(items);
    ghost var g := RoadmapGraph(items, dependencies);
    forall u, v | HasEdge(g, u, v) ensures ItemRank(items, u) < ItemRank(items, v) <= 3 {
      DependenciesRise(items, dependencies, u, v);
    }
  }

  method ByPhase(items: seq<RoadmapItem>) returns (byPhase: map<Phase, seq<RoadmapItem>>)
    ensures forall p :: p in byPhase && byPhase[p] == SelectPhase(items, p)
  {
    byPhase := map[Foundation := [], GoLiveBaseline := [], PostLaunchHardening := [], ScaleMaturity := []];
    forall p ensures p in byPhase {
      match p case Foundation => case GoLiveBaseline => case PostLaunchHardening => case ScaleMaturity =>
    }
    for k := 0 to |items|
      invariant forall p :: p in byPhase && byPhase[p] == SelectPhase(items[..k], p)
    {
      forall p
        ensures SelectPhase(items[..k + 1], p) ==
                SelectPhase(items[..k], p) + if items[k].phase == p then [items[k]] else []
      {
        assert items[..k + 1] == items[..k] + [items[k]];
        SelectPhaseSnoc(items[..k], items[k], p);
      }
      byPhase := byPhase[items[k].phase := byPhase[items[k].phase] + [items[k]]];
    }
    assert items[..|items|] == items;
  }

  lemma {:induction false} SelectPhaseSnoc(items: seq<RoadmapItem>, i: RoadmapItem, p: Phase)
    ensures SelectPhase(items + [i], p) == SelectPhase(items, p) + if i.phase == p then [i] else []
  {
    if items != [] {
      assert (items + [i])[1..] == items[1..] + [i];
      SelectPhaseSnoc(items[1..], i, p);
    }
  }

  method CollectCodes(items: seq<RoadmapItem>) returns (blockers: seq<Code>, postLaunch: seq<Code>)
    ensures blockers == Blockers(items) && postLaunch == PostLaunch(items)
  {
    blockers, postLaunch := [], [];
    for k := 0 to |items|
      invariant blockers == Blockers(items[..k]) && postLaunch == PostLaunch(items[..k])
    {
      assert items[..k + 1][..k] == items[..k];
      if items[k].blockingForGoLive {
        blockers := blockers + [items[k].itemCode];
      }
      if !items[k].blockingForGoLive && items[k].phase in {PostLaunchHardening, ScaleMaturity} {
        postLaunch := postLaunch + [items[k].itemCode];
      }
    }
    assert items[..|items|] == items;
  }

  /** With no gaps the critical path is the whole seed list, in order. */
  lemma SeedCriticalPath(deps: seq<RoadmapDependency>, path: seq<Code>)
    requires var items := DefaultSeedItems();
      && (forall u, v :: Links(deps, u, v) <==> OrderedByRule(items, u, v) || OrderedExplicitly(items, u, v))
      && LongestPath(RoadmapGraph(items, deps), path)
    ensures path == Codes(DefaultSeedItems())
  {
    var items := DefaultSeedItems();
    var g := RoadmapGraph(items, deps);
    SeedsRise();
    SeedChainIsPath(deps);
    forall u, v | HasEdge(g, u, v) ensures ItemRank(items, u) < ItemRank(items, v) <= 3 {
      DependenciesRise(items, deps, u, v);
    }
    RankAlongPath(g, items, path);
    forall k | 0 <= k < 4 ensures path[k] == items[k].itemCode {
      RankOnFullPath(g, items, path, k);
      SeedOfRank(path[k]);
    }
  }

  lemma RankOnFullPath(g: Graph, items: seq<RoadmapItem>, path: seq<Code>, k: nat)
    requires EdgesRise(g, items) && IsPath(g, path) && |path| == 4 && k < 4
    ensures ItemRank(items, path[k]) == k
  {
    PathSlice(g, path, 0, k + 1);
    RankAlongPath(g, items, path[0..k + 1]);
    PathSlice(g, path, k, 4);
    RankAlongPath(g, items, path[k..4]);
    assert HasEdge(g, path[2], path[3]);
  }

  lemma SeedOfRank(v: Code)
    requires v in ItemCodes(DefaultSeedItems())
    ensures ItemRank(DefaultSeedItems(), v) <= 3 && v == DefaultSeedItems()[ItemRank(DefaultSeedItems(), v)].itemCode
  {
    SeedsRise();
    var i :| i in DefaultSeedItems() && i.itemCode == v;
    ItemRankIsRank(DefaultSeedItems(), i);
  }

  lemma SeedChainIsPath(deps: seq<RoadmapDependency>)
    requires var items := DefaultSeedItems();
      forall u, v :: Links(deps, u, v) <==> OrderedByRule(items, u, v) || OrderedExplicitly(items, u, v)
    ensures IsPath(RoadmapGraph(DefaultSeedItems(), deps), Codes(DefaultSeedItems()))
  {
    var items := DefaultSeedItems();
    var p := Codes(items);
    SeedsRise();
    forall i | 0 <= i < |p| ensures p[i] in ItemCodes(items) { assert items[i] in items; }
    forall i, j | 0 <= i && j == i + 1 < |p| ensures HasEdge(RoadmapGraph(items, deps), p[i], p[j]) {
      assert items[i] in items && items[j] in items && p[i] in items[j].dependsOn;
      assert OrderedExplicitly(items, p[i], p[j]);
      KnownEdgesAreDependencies(ItemCodes(items), deps, p[i], p[j]);
      assert Links(deps, p[i], p[j]);
    }
  }
}
