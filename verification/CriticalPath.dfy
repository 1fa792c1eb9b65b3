/** `infer_critical_path`: Kahn's order fused with longest-path relaxation and parent pointers. */
module CriticalPath {
  import opened Ordering
  import opened DependencyGraph
  import opened Roadmap
  import opened Adjacency

  // ----- relaxation

  /** The edges out of the finished codes. */
  function EdgesFrom(edges: seq<Edge>, done: set<Code>): set<Edge> {
    set e | e in edges && e.0 in done
  }

  /** Every used edge raises `dist`, and a parent explains the `dist` of its child exactly. */
  ghost predicate Relaxed(nodes: set<Code>, used: set<Edge>, dist: map<Code, nat>, parent: map<Code, Code>) {
    && dist.Keys == nodes
    && (forall u, v :: (u, v) in used ==> u in nodes && v in nodes && dist[u] < dist[v])
    && (forall v {:trigger parent[v]} :: v in parent ==> (parent[v], v) in used && dist[parent[v]] + 1 == dist[v])
    && (forall v {:trigger dist[v]} :: v in nodes && v !in parent ==> dist[v] == 0)
  }

  function RelaxDist(dist: map<Code, nat>, u: Code, v: Code): map<Code, nat>
    requires u in dist && v in dist
  {
    if dist[u] + 1 >= dist[v] then dist[v := dist[u] + 1] else dist
  }

  function RelaxParent(dist: map<Code, nat>, parent: map<Code, Code>, u: Code, v: Code): map<Code, Code>
    requires u in dist && v in dist
  {
    if dist[u] + 1 >= dist[v] then parent[v := u] else parent
  }

  lemma RelaxOneEdge(nodes: set<Code>, used: set<Edge>, dist: map<Code, nat>, parent: map<Code, Code>, u: Code, v: Code)
    requires Relaxed(nodes, used, dist, parent)
    requires u in nodes && v in nodes && u != v
    requires forall x :: (v, x) !in used
    ensures Relaxed(nodes, used + {(u, v)}, RelaxDist(dist, u, v), RelaxParent(dist, parent, u, v))
  {
    var used', dist', parent' := used + {(u, v)}, RelaxDist(dist, u, v), RelaxParent(dist, parent, u, v);
    forall a, b | (a, b) in used' ensures a in nodes && b in nodes && dist'[a] < dist'[b] {
      assert (a, b) != (u, v) ==> (a, b) in used && a != v;
    }
    forall b | b in parent' ensures (parent'[b], b) in used' && dist'[parent'[b]] + 1 == dist'[b] {
      assert b != v ==> b in parent && parent'[b] == parent[b] && (parent[b], b) in used && parent[b] != v;
      assert dist[u] + 1 < dist[v] ==> b in parent && (parent[b], b) in used;
    }
  }

  // ----- the sweep over the queue

  /** `topo` lists codes after all their predecessors, and the queue holds every other code
      whose predecessors are all listed. */
  ghost predicate Swept(g: Graph, topo: seq<Code>, q: seq<Code>, indeg: map<Code, nat>) {
    && NoDuplicates(topo + q)
    && indeg.Keys == g.nodes
    && (forall v :: v in topo + q <==> v in g.nodes && indeg[v] == 0)
  }

  /** The edges from `u` to each of `vs`, on top of those out of the finished codes. */
  ghost function EdgesUsed(edges: seq<Edge>, done: set<Code>, u: Code, vs: seq<Code>): set<Edge> {
    EdgesFrom(edges, done) + set v | v in vs :: (u, v)
  }

  lemma EdgesUsedStep(edges: seq<Edge>, done: set<Code>, u: Code, vs: seq<Code>, j: nat)
    requires j < |vs|
    ensures EdgesUsed(edges, done, u, vs[..j + 1]) == EdgesUsed(edges, done, u, vs[..j]) + {(u, vs[j])}
  {
    assert vs[..j + 1] == vs[..j] + [vs[j]];
  }

  lemma AllEdgesUsed(edges: seq<Edge>, done: set<Code>, u: Code)
    ensures EdgesUsed(edges, done, u, Successors(edges, u)) == EdgesFrom(edges, done + {u})
  {
    forall v ensures v in Successors(edges, u) <==> (u, v) in edges { SuccessorsAreEdges(edges, u, v); }
  }

  lemma SweptStep(g: Graph, topo: seq<Code>, q: seq<Code>, indeg: map<Code, nat>, v: Code)
    requires Swept(g, topo, q, indeg) && v in g.nodes && indeg[v] > 0
    ensures Swept(g, topo, if indeg[v] == 1 then q + [v] else q, indeg[v := indeg[v] - 1])
  {
    if indeg[v] == 1 {
      assert topo + (q + [v]) == (topo + q) + [v];
    }
  }

  /** The code taken from the queue was not finished before, has no edge to a finished code or
      to itself, and its predecessors are all finished. */
  lemma FreshCode(g: Graph, topo: seq<Code>, u: Code, q: seq<Code>, indeg: map<Code, nat>)
    requires WellFormed(g) && Swept(g, topo + [u], q, indeg)
    requires CountsInto(g, indeg, Elements(topo))
    ensures u in g.nodes && u !in topo && Elements(topo + [u]) == Elements(topo) + {u}
    ensures forall v :: HasEdge(g, v, u) ==> v in topo
    ensures forall v :: HasEdge(g, u, v) ==> v != u && v !in topo
  {
    assert (topo + [u] + q)[|topo|] == u;
    assert u in topo + [u] + q;
    forall i | 0 <= i < |topo| ensures topo[i] != u {
      assert (topo + [u] + q)[i] == topo[i];
    }
    ZeroMeansPredecessorsDone(g, indeg, Elements(topo));
    forall v | v in topo ensures v in topo + [u] + q {}
  }

  ghost predicate NoEdgeBack(g: Graph, topo: seq<Code>, u: Code) {
    forall v :: HasEdge(g, u, v) ==> v != u && v !in topo
  }

  /** The state of the sweep once `u`'s first `j` successors are handled. */
  ghost predicate Sweeping(g: Graph, topo: seq<Code>, u: Code, j: nat,
                           q: seq<Code>, indeg: map<Code, nat>, dist: map<Code, nat>, parent: map<Code, Code>)
    requires j <= |Successors(g.edges, u)|
  {
    && u in g.nodes && u !in topo && NoEdgeBack(g, topo, u)
    && Swept(g, topo + [u], q, indeg)
    && CountsDown(g, indeg, Elements(topo) + {u}, Successors(g.edges, u)[j..])
    && Relaxed(g.nodes, EdgesUsed(g.edges, Elements(topo), u, Successors(g.edges, u)[..j]), dist, parent)
  }

  /** The state of the sweep between two turns of the `while q` loop. */
  ghost predicate BetweenTurns(g: Graph, topo: seq<Code>, q: seq<Code>, indeg: map<Code, nat>, dist: map<Code, nat>,
                               parent: map<Code, Code>) {
    && Swept(g, topo, q, indeg)
    && CountsInto(g, indeg, Elements(topo))
    && Relaxed(g.nodes, EdgesFrom(g.edges, Elements(topo)), dist, parent)
  }

  lemma SweepBegins(g: Graph, topo: seq<Code>, q: seq<Code>, indeg: map<Code, nat>, dist: map<Code, nat>,
                    parent: map<Code, Code>)
    requires WellFormed(g) && q != [] && BetweenTurns(g, topo, q, indeg, dist, parent)
    ensures Sweeping(g, topo, q[0], 0, q[1..], indeg, dist, parent)
  {
    var u := q[0];
    var successors := Successors(g.edges, u);
    assert topo + q == topo + [u] + q[1..];
    FreshCode(g, topo, u, q[1..], indeg);
    StartProcessing(g, indeg, Elements(topo), u);
    assert successors[0..] == successors;
    assert EdgesUsed(g.edges, Elements(topo), u, successors[..0]) == EdgesFrom(g.edges, Elements(topo));
  }

  /** What the body of the successor loop does to the four tables keeps the sweep going. */
  lemma SweepStep(g: Graph, topo: seq<Code>, u: Code, j: nat, q: seq<Code>, indeg: map<Code, nat>,
                  dist: map<Code, nat>, parent: map<Code, Code>)
    requires WellFormed(g) && j < |Successors(g.edges, u)|
    requires Sweeping(g, topo, u, j, q, indeg, dist, parent)
    ensures
      var v := Successors(g.edges, u)[j];
      && v in indeg && indeg[v] > 0 && u in dist && v in dist
      && Sweeping(g, topo, u, j + 1, if indeg[v] == 1 then q + [v] else q, indeg[v := indeg[v] - 1],
                  RelaxDist(dist, u, v), RelaxParent(dist, parent, u, v))
  {
    var successors := Successors(g.edges, u);
    var v := successors[j];
    SuccessorsAreEdges(g.edges, u, v);
    assert HasEdge(g, u, v);
    CountsDownStep(g, indeg, Elements(topo) + {u}, successors, j, v);
    SweptStep(g, topo + [u], q, indeg, v);
    RelaxOneEdge(g.nodes, EdgesUsed(g.edges, Elements(topo), u, successors[..j]), dist, parent, u, v);
    EdgesUsedStep(g.edges, Elements(topo), u, successors, j);
  }

  lemma SweepEnds(g: Graph, topo: seq<Code>, u: Code, q: seq<Code>, indeg: map<Code, nat>, dist: map<Code, nat>,
                  parent: map<Code, Code>)
    requires Sweeping(g, topo, u, |Successors(g.edges, u)|, q, indeg, dist, parent)
    ensures BetweenTurns(g, topo + [u], q, indeg, dist, parent)
  {
    var successors := Successors(g.edges, u);
    assert successors[..|successors|] == successors;
    assert Elements(topo + [u]) == Elements(topo) + {u};
    AllEdgesUsed(g.edges, Elements(topo), u);
  }

  /** The body of the successor loop: the edge `u -> v` is crossed off and relaxed. */
  method VisitSuccessor(u: Code, v: Code, q0: seq<Code>, indeg0: map<Code, nat>, dist0: map<Code, nat>,
                        parent0: map<Code, Code>)
    returns (q: seq<Code>, indeg: map<Code, nat>, dist: map<Code, nat>, parent: map<Code, Code>)
    requires v in indeg0 && indeg0[v] > 0 && u in dist0 && v in dist0
    ensures indeg == indeg0[v := indeg0[v] - 1]
    ensures q == if indeg0[v] == 1 then q0 + [v] else q0
    ensures dist == RelaxDist(dist0, u, v)
    ensures parent == RelaxParent(dist0, parent0, u, v)
  {
    q, indeg, dist, parent := q0, indeg0, dist0, parent0;
    indeg := indeg[v := indeg[v] - 1];
    if indeg[v] == 0 {
      q := q + [v];
    }
    var cand := dist[u] + 1;
    if cand >= dist[v] {
      dist := dist[v := cand];
      parent := parent[v := u];
    }
  }

  /** One turn of the `while q` loop: the head `u` of the queue moves to `topo`, each of its
      edges is crossed off and relaxed, and every code left without edges in joins the queue. */
  method ProcessHead(ghost g: Graph, ghost topo: seq<Code>, q0: seq<Code>, successors: seq<Code>,
                     indeg0: map<Code, nat>, dist0: map<Code, nat>, parent0: map<Code, Code>)
    returns (q: seq<Code>, indeg: map<Code, nat>, dist: map<Code, nat>, parent: map<Code, Code>)
    requires WellFormed(g) && q0 != [] && successors == Successors(g.edges, q0[0])
    requires BetweenTurns(g, topo, q0, indeg0, dist0, parent0)
    ensures BetweenTurns(g, topo + [q0[0]], q, indeg, dist, parent)
  {
    var u := q0[0];
    q, indeg, dist, parent := q0[1..], indeg0, dist0, parent0;
    SweepBegins(g, topo, q0, indeg, dist, parent);
    for j := 0 to |successors|
      invariant Sweeping(g, topo, u, j, q, indeg, dist, parent)
    {
      SweepStep(g, topo, u, j, q, indeg, dist, parent);
      q, indeg, dist, parent := VisitSuccessor(u, successors[j], q, indeg, dist, parent);
    }
    SweepEnds(g, topo, u, q, indeg, dist, parent);
  }

  // ----- what the sweep says about the graph

  lemma DistIsChainLevels(g: Graph, topo: seq<Code>, dist: map<Code, nat>, parent: map<Code, Code>)
    requires WellFormed(g) && Elements(topo) == g.nodes
    requires Relaxed(g.nodes, EdgesFrom(g.edges, Elements(topo)), dist, parent)
    ensures ChainLevels(g, dist) && !HasCycle(g)
  {
    var used := EdgesFrom(g.edges, Elements(topo));
    forall u, v | HasEdge(g, u, v) ensures u in dist && v in dist && dist[u] < dist[v] {
      assert (u, v) in used;
    }
    forall v | v in dist && dist[v] > 0 ensures StepsUpTo(g, dist, v) {
      assert (parent[v], v) in used;
      assert HasEdge(g, parent[v], v);
    }
    NoCycleWhenLevelled(g, dist);
  }

  lemma NoCycleWhenLevelled(g: Graph, level: map<Code, nat>)
    requires ChainLevels(g, level) && level.Keys == g.nodes
    ensures !HasCycle(g)
  {
    forall p ensures !IsCycle(g, p) {
      if IsPath(g, p) && |p| >= 2 {
        LevelledIsAfterNoCycle(g, level, p[0]);
        assert IsCycle(g, p) ==> LassoTo(g, p, |p| - 1, p[0]);
      }
    }
  }

  lemma StalledSweepHasCycle(g: Graph, topo: seq<Code>, indeg: map<Code, nat>)
    requires WellFormed(g) && Swept(g, topo, [], indeg) && CountsInto(g, indeg, Elements(topo))
    ensures forall v :: v in g.nodes - Elements(topo) ==> OnOrAfterCycle(g, v)
  {
    var inside := g.nodes - Elements(topo);
    assert topo + [] == topo;
    ZeroMeansPredecessorsDone(g, indeg, Elements(topo));
    assert PredecessorInside(g, inside);
    forall v | v in inside ensures OnOrAfterCycle(g, v) { StuckSetIsCyclic(g, inside, v); }
  }

  lemma ListedSize(g: Graph, topo: seq<Code>, indeg: map<Code, nat>)
    requires Swept(g, topo, [], indeg)
    ensures |topo| <= |g.nodes| && Elements(topo) <= g.nodes
    ensures |topo| == |g.nodes| <==> Elements(topo) == g.nodes
  {
    assert topo + [] == topo;
    NoDuplicatesLength(topo);
    assert (set c | c in topo) == Elements(topo);
    SubsetSize(Elements(topo), g.nodes);
  }

  /** The sweep lists every code if and only if the graph has no cycle. */
  lemma KahnTheorem(g: Graph, topo: seq<Code>, indeg: map<Code, nat>, dist: map<Code, nat>, parent: map<Code, Code>)
    requires WellFormed(g) && BetweenTurns(g, topo, [], indeg, dist, parent)
    ensures |topo| <= |g.nodes|
    ensures |topo| < |g.nodes| <==> HasCycle(g)
    ensures !HasCycle(g) ==> ChainLevels(g, dist) && dist.Keys == g.nodes
  {
    ListedSize(g, topo, indeg);
    if forall v :: v in g.nodes ==> v in Elements(topo) {
      DistIsChainLevels(g, topo, dist, parent);
    } else {
      var v :| v in g.nodes && v !in Elements(topo);
      assert v in g.nodes - Elements(topo);
      StalledSweepHasCycle(g, topo, indeg);
      LassoHasCycle(g, v);
    }
  }

  // ----- reading the path off the parents

  /** Each parent is a predecessor whose `dist` is one less; without a parent, `dist` is 0. */
  ghost predicate ParentsFall(g: Graph, dist: map<Code, nat>, parent: map<Code, Code>) {
    && dist.Keys == g.nodes
    && (forall v {:trigger parent[v]} :: v in parent ==>
          v in g.nodes && parent[v] in g.nodes && HasEdge(g, parent[v], v) && dist[parent[v]] + 1 == dist[v])
    && (forall v {:trigger dist[v]} :: v in g.nodes && v !in parent ==> dist[v] == 0)
  }

  /** The codes met by following parents from `v`. */
  ghost function ParentWalk(g: Graph, dist: map<Code, nat>, parent: map<Code, Code>, v: Code): seq<Code>
    requires ParentsFall(g, dist, parent) && v in g.nodes
    decreases dist[v]
  {
    [v] + if v in parent then ParentWalk(g, dist, parent, parent[v]) else []
  }

  function Reverse(s: seq<Code>): seq<Code> {
    if s == [] then [] else Reverse(s[1..]) + [s[0]]
  }

  lemma {:induction false} ParentWalkReversed(g: Graph, dist: map<Code, nat>, parent: map<Code, Code>, v: Code)
    requires WellFormed(g) && ParentsFall(g, dist, parent) && v in g.nodes
    ensures PathTo(g, Reverse(ParentWalk(g, dist, parent, v)), v)
    ensures |Reverse(ParentWalk(g, dist, parent, v))| == dist[v] + 1
    decreases dist[v]
  {
    var walk := ParentWalk(g, dist, parent, v);
    assert Reverse(walk) == Reverse(walk[1..]) + [v];
    assert dist[v] >= 0;
    if v in parent {
      assert walk[1..] == ParentWalk(g, dist, parent, parent[v]);
      ParentWalkReversed(g, dist, parent, parent[v]);
      PathAppend(g, Reverse(walk[1..]), v);
    }
  }

  /** Follow parents from `end` and reverse: `dist` falls by one at every step, so the walk stops. */
  method WalkParents(ghost g: Graph, ghost dist: map<Code, nat>, parent: map<Code, Code>, end: Code)
    returns (path: seq<Code>)
    requires WellFormed(g) && end in g.nodes && ParentsFall(g, dist, parent)
    ensures PathTo(g, path, end) && |path| == dist[end] + 1
  {
    var chain := [];
    var cur := end;
    var more := true;
    while more
      invariant cur in g.nodes
      invariant ParentWalk(g, dist, parent, end) == chain + if more then ParentWalk(g, dist, parent, cur) else []
      decreases more, dist[cur]
    {
      WalkOn(g, dist, parent, chain, cur);
      chain := chain + [cur];
      if cur in parent {
        cur := parent[cur];
      } else {
        more := false;
      }
    }
    assert chain == ParentWalk(g, dist, parent, end);
    ParentWalkReversed(g, dist, parent, end);
    path := Reverse(chain);
  }

  lemma WalkOn(g: Graph, dist: map<Code, nat>, parent: map<Code, Code>, chain: seq<Code>, cur: Code)
    requires ParentsFall(g, dist, parent) && cur in g.nodes
    ensures chain + ParentWalk(g, dist, parent, cur) ==
            chain + [cur] + if cur in parent then ParentWalk(g, dist, parent, parent[cur]) else []
  {
  }

  /** `max(nodes, key=dist)`: some code of greatest `dist`. */
  method FarthestCode(nodes: set<Code>, dist: map<Code, nat>) returns (end: Code)
    requires nodes != {} && dist.Keys == nodes
    ensures end in nodes && forall v :: v in nodes ==> dist[v] <= dist[end]
  {
    var order := Enumerate(nodes);
    var n :| n in nodes;
    assert n in order;
    end := order[0];
    for i := 1 to |order|
      invariant end in nodes
      invariant forall k :: 0 <= k < i ==> dist[order[k]] <= dist[end]
    {
      assert order[i] in nodes;
      if dist[order[i]] > dist[end] {
        end := order[i];
      }
    }
  }

  lemma FarthestPathIsLongest(g: Graph, dist: map<Code, nat>, path: seq<Code>, end: Code)
    requires ChainLevels(g, dist) && dist.Keys == g.nodes
    requires PathTo(g, path, end) && |path| == dist[end] + 1
    requires forall v :: v in g.nodes ==> dist[v] <= dist[end]
    ensures LongestPath(g, path)
  {
    forall q | IsPath(g, q) ensures |q| <= |path| {
      PathBelowLevel(g, dist, q, 0);
    }
  }

  lemma SortedIsFallbackPath(items: seq<RoadmapItem>)
    ensures IsFallbackPath(items, Codes(Sort(items, ItemLe)))
  {
    ItemLeIsTotal();
    SortContents(items, ItemLe);
    SortSorted(items, ItemLe);
  }

  /** The longest prerequisite chain, or, exactly when the known dependencies have a cycle,
      every item by phase and priority. */
  method InferCriticalPath(items: seq<RoadmapItem>, deps: seq<RoadmapDependency>) returns (path: seq<Code>)
    ensures items == [] ==> path == []
    ensures items != [] && !HasCycle(RoadmapGraph(items, deps)) ==>
              LongestPath(RoadmapGraph(items, deps), path) && NoDuplicates(path)
    ensures items != [] && HasCycle(RoadmapGraph(items, deps)) ==> IsFallbackPath(items, path)
  {
    if items == [] { return []; }
    var nodes := ItemCodes(items);
    ghost var g := RoadmapGraph(items, deps);
    RoadmapGraphWellFormed(items, deps);
    assert items[0].itemCode in nodes;
    var adj, indeg := BuildAdjacency(nodes, deps);
    var dist: map<Code, nat> := map n | n in nodes :: 0;
    var parent: map<Code, Code> := map[];
    var topo: seq<Code> := [];
    var q := ZeroCodes(nodes, indeg);
    assert topo + q == q && Elements(topo) == {} && EdgesFrom(g.edges, {}) == {};
    while q != []
      invariant BetweenTurns(g, topo, q, indeg, dist, parent)
      decreases nodes - Elements(topo)
    {
      var u := q[0];
      q, indeg, dist, parent := ProcessHead(g, topo, q, Out(adj, u), indeg, dist, parent);
      TopoGrows(g, topo, u, q, indeg);
      topo := topo + [u];
    }
    KahnTheorem(g, topo, indeg, dist, parent);
    if |topo| < |nodes| {
      SortedIsFallbackPath(items);
      return Codes(Sort(items, ItemLe));
    }
    var end := FarthestCode(nodes, dist);
    ListedSize(g, topo, indeg);
    path := WalkParents(g, dist, parent, end);
    FarthestPathIsLongest(g, dist, path, end);
    AcyclicPathNoDuplicates(g, path);
  }

  lemma TopoGrows(g: Graph, topo: seq<Code>, u: Code, q: seq<Code>, indeg: map<Code, nat>)
    requires Swept(g, topo + [u], q, indeg)
    ensures u in g.nodes && u !in topo && Elements(topo + [u]) == Elements(topo) + {u}
  {
    var all := topo + [u] + q;
    assert all[|topo|] == u;
    assert u in all;
    forall i | 0 <= i < |topo| ensures topo[i] != u {
      assert all[i] == topo[i];
    }
  }
}
