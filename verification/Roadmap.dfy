/** Roadmap entities: domain/implementation_roadmap.py and the readiness inputs of the planner. */
module Roadmap {
  import opened Ordering
  import opened DependencyGraph

  datatype Phase = Foundation | GoLiveBaseline | PostLaunchHardening | ScaleMaturity
  datatype Priority = P0 | P1 | P2 | P3
  datatype Workstream =
    | Crawl | Normalization | CrmIntegration | Lifecycle | Observability
    | Security | Performance | ReleaseGovernance | Documentation | Support

  datatype RoadmapItem = RoadmapItem(
    itemCode: Code,
    workstream: Workstream,
    phase: Phase,
    priority: Priority,
    dependsOn: seq<Code>,
    blockingForGoLive: bool)

  /** Why a dependency was inferred; the texts of the source, as constructors. */
  datatype Reason =
    | SecurityBeforeCrm | CrawlBeforeCrm | FoundationBeforeObservability | ObservabilityBeforeRelease
    | TransportBeforeLifecycle | DocsBeforeSupport | ExplicitDependency

  datatype RoadmapDependency = RoadmapDependency(fromCode: Code, toCode: Code, reason: Reason)

  function ItemCodes(items: seq<RoadmapItem>): set<Code> {
    set i | i in items :: i.itemCode
  }

  /** The dependencies between known codes, in the order they are listed. */
  function KnownEdges(nodes: set<Code>, deps: seq<RoadmapDependency>): seq<Edge> {
    if deps == [] then []
    else
      var d := deps[|deps| - 1];
      KnownEdges(nodes, deps[..|deps| - 1])
      + if d.fromCode in nodes && d.toCode in nodes then [(d.fromCode, d.toCode)] else []
  }

  function RoadmapGraph(items: seq<RoadmapItem>, deps: seq<RoadmapDependency>): (g: Graph) {
    Graph(ItemCodes(items), KnownEdges(ItemCodes(items), deps))
  }

  /** An edge of the graph is a dependency both of whose ends are item codes. */
  lemma {:induction false} KnownEdgesAreDependencies(nodes: set<Code>, deps: seq<RoadmapDependency>, u: Code, v: Code)
    ensures (u, v) in KnownEdges(nodes, deps) <==>
              u in nodes && v in nodes && exists d :: d in deps && d.fromCode == u && d.toCode == v
  {
    if deps != [] {
      var rest := deps[..|deps| - 1];
      var last := deps[|deps| - 1];
      KnownEdgesAreDependencies(nodes, rest, u, v);
      assert deps == rest + [last];
      assert forall d :: d in deps <==> d in rest || d == last;
    }
  }

  lemma RoadmapGraphWellFormed(items: seq<RoadmapItem>, deps: seq<RoadmapDependency>)
    ensures WellFormed(RoadmapGraph(items, deps))
  {
    var g := RoadmapGraph(items, deps);
    forall u, v | HasEdge(g, u, v) ensures u in g.nodes && v in g.nodes {
      KnownEdgesAreDependencies(g.nodes, deps, u, v);
    }
  }

  // ----- the phase/priority order of `_fallback_path`

  function PhaseIndex(p: Phase): nat {
    match p
    case Foundation => 0
    case GoLiveBaseline => 1
    case PostLaunchHardening => 2
    case ScaleMaturity => 3
  }

  function PriorityIndex(p: Priority): nat {
    match p
    case P0 => 0
    case P1 => 1
    case P2 => 2
    case P3 => 3
  }

  predicate ItemLe(a: RoadmapItem, b: RoadmapItem) {
    if a.phase != b.phase then PhaseIndex(a.phase) < PhaseIndex(b.phase)
    else if a.priority != b.priority then PriorityIndex(a.priority) < PriorityIndex(b.priority)
    else StringLe(a.itemCode, b.itemCode)
  }

  lemma ItemLeIsTotal()
    ensures TotalPreorder(ItemLe)
  {
    StringLeIsTotalOrder();
  }

  /** Phases come from foundation to maturity. */
  predicate NoLaterPhase(p: Phase, q: Phase) {
    && (q == Foundation ==> p == Foundation) && (q == GoLiveBaseline ==> p in {Foundation, GoLiveBaseline})
    && (p == ScaleMaturity ==> q == ScaleMaturity)
  }

  predicate NoLessUrgent(p: Priority, q: Priority) {
    (q == P0 ==> p == P0) && (q == P1 ==> p in {P0, P1}) && (p == P3 ==> q == P3)
  }

  /** Sorted items come phase by phase, inside a phase by urgency, and inside that by code. */
  lemma SortedByPhase(items: seq<RoadmapItem>, i: nat, j: nat)
    requires i < j < |items| && SortedBy(items, ItemLe)
    ensures NoLaterPhase(items[i].phase, items[j].phase)
    ensures items[i].phase == items[j].phase ==> NoLessUrgent(items[i].priority, items[j].priority)
    ensures items[i].phase == items[j].phase && items[i].priority == items[j].priority ==>
              StringLe(items[i].itemCode, items[j].itemCode)
  {
    assert ItemLe(items[i], items[j]);
  }

  function Codes(items: seq<RoadmapItem>): seq<Code> {
    seq(|items|, i requires 0 <= i < |items| => items[i].itemCode)
  }

  /** `path` lists every item, repeats included, by phase, then priority, then code. */
  ghost predicate IsFallbackPath(items: seq<RoadmapItem>, path: seq<Code>) {
    exists ordered: seq<RoadmapItem> ::
      multiset(ordered) == multiset(items) && SortedBy(ordered, ItemLe) && path == Codes(ordered)
  }
}
