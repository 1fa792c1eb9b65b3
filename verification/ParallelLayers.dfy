/** `detect_parallelizable_items`: layers peeled off the dependency graph by in-degree. */
module ParallelLayers {
  import opened Ordering
  import opened DependencyGraph
  import opened Roadmap
  import opened Adjacency

  ghost predicate IsSortedSet(s: seq<Code>) {
    NoDuplicates(s) && SortedBy(s, StringLe)
  }

  /** The number of layers before the one that collects what a cycle holds up. */
  ghost function PeeledCount(g: Graph, layers: seq<seq<Code>>): int {
    if HasCycle(g) then |layers| - 1 else |layers|
  }

  /** The first `k` layers: layer `i` holds exactly the codes whose longest path has `i + 1` codes. */
  ghost predicate LongestPathLayers(g: Graph, layers: seq<seq<Code>>, k: nat)
    requires k <= |layers|
  {
    forall i, v :: 0 <= i < k ==> (v in layers[i] <==> v in g.nodes && LongestPathTo(g, v, i + 1))
  }

  ghost predicate HeldUpByCycle(g: Graph, layer: seq<Code>) {
    forall v :: v in layer <==> v in g.nodes && OnOrAfterCycle(g, v)
  }

  ghost predicate InSomeLayer(layers: seq<seq<Code>>, v: Code) {
    exists i :: 0 <= i < |layers| && v in layers[i]
  }

  ghost predicate SortedLayers(layers: seq<seq<Code>>) {
    forall i :: 0 <= i < |layers| ==> layers[i] != [] && IsSortedSet(layers[i])
  }

  /** Layers of longest-path length; when there is a cycle, one more layer holds exactly the
      codes on a cycle or downstream of one. */
  ghost predicate IsLayering(g: Graph, layers: seq<seq<Code>>) {
    && SortedLayers(layers)
    && PeeledCount(g, layers) >= 0
    && LongestPathLayers(g, layers, PeeledCount(g, layers))
    && (HasCycle(g) ==> HeldUpByCycle(g, layers[|layers| - 1]))
    && (forall v :: v in g.nodes ==> InSomeLayer(layers, v))
  }

  // ----- sorting

  method SortedSet(s: set<Code>) returns (r: seq<Code>)
    ensures IsSortedSet(r) && forall v :: v in r <==> v in s
  {
    var order := Enumerate(s);
    r := SortedCodes(order);
  }

  method SortedCodes(s: seq<Code>) returns (r: seq<Code>)
    requires NoDuplicates(s)
    ensures IsSortedSet(r) && forall v :: v in r <==> v in s
  {
    StringLeIsTotalOrder();
    SortContents(s, StringLe);
    SortSorted(s, StringLe);
    SameElements(Sort(s, StringLe), s);
    MultisetNoDuplicates(s, Sort(s, StringLe));
    r := Sort(s, StringLe);
  }

  // ----- peeling one layer

  /** The codes outside `settled` whose predecessors are all finished. */
  ghost predicate Freed(g: Graph, settled: set<Code>, indeg: map<Code, nat>, nxt: seq<Code>) {
    indeg.Keys == g.nodes && forall v :: v in nxt <==> v in g.nodes && indeg[v] == 0 && v !in settled
  }

  ghost predicate FreedBy(g: Graph, layer: set<Code>, nxt: seq<Code>) {
    forall v {:trigger HasPredecessorIn(g, layer, v)} :: v in nxt ==> HasPredecessorIn(g, layer, v)
  }

  /** No edge leads from the layer back into itself or into the finished codes. */
  ghost predicate NoEdgeInto(g: Graph, layer: set<Code>, settled: set<Code>) {
    forall u, v :: u in layer && HasEdge(g, u, v) ==> v !in settled
  }

  method PeelCode(ghost g: Graph, ghost layer: set<Code>, ghost settled: set<Code>, ghost done: set<Code>,
                  u: Code, successors: seq<Code>, indeg0: map<Code, nat>, nxt0: seq<Code>)
    returns (indeg: map<Code, nat>, nxt: seq<Code>)
    requires WellFormed(g) && successors == Successors(g.edges, u)
    requires u in layer && u !in done && NoEdgeInto(g, layer, settled)
    requires CountsInto(g, indeg0, done) && Freed(g, settled, indeg0, nxt0) && FreedBy(g, layer, nxt0)
    ensures CountsInto(g, indeg, done + {u}) && Freed(g, settled, indeg, nxt) && FreedBy(g, layer, nxt)
  {
    indeg, nxt := indeg0, nxt0;
    StartProcessing(g, indeg, done, u);
    assert successors[0..] == successors;
    for j := 0 to |successors|
      invariant CountsDown(g, indeg, done + {u}, successors[j..])
      invariant Freed(g, settled, indeg, nxt) && FreedBy(g, layer, nxt)
    {
      var v := successors[j];
      SuccessorsAreEdges(g.edges, u, v);
      assert HasEdge(g, u, v) && HasPredecessorIn(g, layer, v);
      CountsDownStep(g, indeg, done + {u}, successors, j, v);
      indeg := indeg[v := indeg[v] - 1];
      if indeg[v] == 0 {
        nxt := nxt + [v];
      }
    }
  }

  method PeelLayer(ghost g: Graph, adj: AdjacencyMap, ghost done: set<Code>, current: seq<Code>, remaining0: set<Code>,
                   indeg0: map<Code, nat>)
    returns (remaining: set<Code>, indeg: map<Code, nat>, nxt: seq<Code>)
    requires WellFormed(g) && IsAdjacency(g.edges, adj) && NoDuplicates(current)
    requires forall c :: c in current ==> c !in done
    requires NoEdgeInto(g, Elements(current), done + Elements(current))
    requires CountsInto(g, indeg0, done) && Freed(g, done, indeg0, current)
    ensures remaining == remaining0 - Elements(current)
    ensures CountsInto(g, indeg, done + Elements(current))
    ensures Freed(g, done + Elements(current), indeg, nxt) && FreedBy(g, Elements(current), nxt)
  {
    remaining, indeg, nxt := remaining0, indeg0, [];
    ghost var layer := Elements(current);
    assert done + Elements(current[..0]) == done;
    for a := 0 to |current|
      invariant remaining == remaining0 - Elements(current[..a])
      invariant CountsInto(g, indeg, done + Elements(current[..a]))
      invariant Freed(g, done + layer, indeg, nxt) && FreedBy(g, layer, nxt)
    {
      var u := current[a];
      assert u in current && u !in current[..a];
      assert Elements(current[..a + 1]) == Elements(current[..a]) + {u};
      remaining := remaining - {u};
      indeg, nxt := PeelCode(g, layer, done + layer, done + Elements(current[..a]), u, Out(adj, u), indeg, nxt);
      assert done + Elements(current[..a]) + {u} == done + Elements(current[..a + 1]);
    }
    assert current[..|current|] == current;
  }

  // ----- all layers

  /** `level` numbers the peeled codes by layer. */
  ghost predicate LevelsMatch(layers: seq<seq<Code>>, level: map<Code, nat>) {
    && (forall v :: v in level ==> level[v] < |layers|)
    && SortedLayers(layers)
    && (forall i, v :: 0 <= i < |layers| ==> (v in layers[i] <==> v in level && level[v] == i))
  }

  /** The codes of the coming layer have, unless it is the first, a predecessor in the last one. */
  ghost predicate NextLayer(g: Graph, layers: seq<seq<Code>>, current: seq<Code>) {
    NoDuplicates(current) && (layers != [] ==> FreedBy(g, Elements(layers[|layers| - 1]), current))
  }

  function NumberLayer(level: map<Code, nat>, current: seq<Code>, n: nat): map<Code, nat> {
    level + map v | v in current :: n
  }

  lemma NewLayerMatches(layers: seq<seq<Code>>, level: map<Code, nat>, current: seq<Code>, sorted: seq<Code>)
    requires LevelsMatch(layers, level) && current != [] && forall v :: v in current ==> v !in level
    requires IsSortedSet(sorted) && forall v :: v in sorted <==> v in current
    ensures LevelsMatch(layers + [sorted], NumberLayer(level, current, |layers|))
  {
    assert current[0] in sorted;
  }

  lemma NewLayerSteps(g: Graph, layers: seq<seq<Code>>, level: map<Code, nat>, current: seq<Code>, v: Code)
    requires ChainLevels(g, level) && LevelsMatch(layers, level) && NextLayer(g, layers, current)
    requires forall c :: c in current ==> c !in level
    requires var grown := NumberLayer(level, current, |layers|); v in grown && grown[v] > 0
    ensures StepsUpTo(g, NumberLayer(level, current, |layers|), v)
  {
    var grown := NumberLayer(level, current, |layers|);
    if v in current {
      var last := layers[|layers| - 1];
      assert HasPredecessorIn(g, Elements(last), v);
      var u :| u in Elements(last) && HasEdge(g, u, v);
      assert u in last && u in level;
      assert grown[u] + 1 == grown[v];
    } else {
      assert StepsUpTo(g, level, v);
      var u :| HasEdge(g, u, v) && u in level && level[u] + 1 == level[v];
      assert grown[u] == level[u];
    }
  }

  lemma NewLayerClosed(g: Graph, level: map<Code, nat>, current: seq<Code>, indeg: map<Code, nat>, n: nat)
    requires WellFormed(g) && ChainLevels(g, level) && forall v :: v in level ==> level[v] < n
    requires CountsInto(g, indeg, level.Keys) && Freed(g, level.Keys, indeg, current)
    ensures forall u, v :: HasEdge(g, u, v) && v in NumberLayer(level, current, n) ==>
              u in level && level[u] < NumberLayer(level, current, n)[v]
    ensures NoEdgeInto(g, Elements(current), level.Keys + Elements(current))
  {
    ZeroMeansPredecessorsDone(g, indeg, level.Keys);
  }

  lemma LevelsGrow(g: Graph, layers: seq<seq<Code>>, level: map<Code, nat>, current: seq<Code>, indeg: map<Code, nat>,
                   sorted: seq<Code>)
    requires WellFormed(g) && ChainLevels(g, level) && LevelsMatch(layers, level) && NextLayer(g, layers, current)
    requires current != [] && IsSortedSet(sorted) && forall v :: v in sorted <==> v in current
    requires CountsInto(g, indeg, level.Keys) && Freed(g, level.Keys, indeg, current)
    ensures LevelsMatch(layers + [sorted], NumberLayer(level, current, |layers|))
    ensures ChainLevels(g, NumberLayer(level, current, |layers|))
    ensures NoEdgeInto(g, Elements(current), level.Keys + Elements(current))
  {
    var grown := NumberLayer(level, current, |layers|);
    NewLayerMatches(layers, level, current, sorted);
    NewLayerClosed(g, level, current, indeg, |layers|);
    forall v | v in grown && grown[v] > 0 ensures StepsUpTo(g, grown, v) {
      NewLayerSteps(g, layers, level, current, v);
    }
    forall u, v | HasEdge(g, u, v) && v in grown ensures u in grown && grown[u] < grown[v] {
      assert u in level && u !in current;
    }
  }

  /** What is left once no code is free is what a cycle holds up. */
  lemma LeftoverIsHeldUp(g: Graph, level: map<Code, nat>, indeg: map<Code, nat>, rest: seq<Code>)
    requires WellFormed(g) && ChainLevels(g, level) && CountsInto(g, indeg, level.Keys)
             && Freed(g, level.Keys, indeg, [])
    requires forall v :: v in rest <==> v in g.nodes && v !in level
    ensures HeldUpByCycle(g, rest)
  {
    var inside := g.nodes - level.Keys;
    ZeroMeansPredecessorsDone(g, indeg, level.Keys);
    assert forall v :: v in inside ==> v in g.nodes && v !in level.Keys;
    assert PredecessorInside(g, inside);
    forall v ensures v in rest <==> v in g.nodes && OnOrAfterCycle(g, v) {
      if v in level {
        LevelledIsAfterNoCycle(g, level, v);
      } else if v in g.nodes {
        StuckSetIsCyclic(g, inside, v);
      }
    }
  }

  lemma CycleHoldsSomethingUp(g: Graph, rest: seq<Code>)
    requires HeldUpByCycle(g, rest)
    ensures HasCycle(g) <==> rest != []
  {
    if HasCycle(g) {
      var p :| IsCycle(g, p);
      CycleIsLasso(g, p);
      assert p[0] in rest;
    }
    if rest != [] {
      assert rest[0] in rest;
      LassoHasCycle(g, rest[0]);
    }
  }

  lemma PeeledLayersAreLongest(g: Graph, layers: seq<seq<Code>>, level: map<Code, nat>, rest: seq<Code>,
                               all: seq<seq<Code>>)
    requires ChainLevels(g, level) && LevelsMatch(layers, level) && layers <= all
    requires HeldUpByCycle(g, rest) && forall v :: v in rest <==> v in g.nodes && v !in level
    ensures LongestPathLayers(g, all, |layers|)
  {
    forall i, v | 0 <= i < |layers| ensures v in all[i] <==> v in g.nodes && LongestPathTo(g, v, i + 1) {
      assert all[i] == layers[i];
      if v in level {
        LevelsAreLongest(g, level, v);
      } else if v in g.nodes {
        AfterCycleHasNoLongestPath(g, v, i + 1);
      }
    }
  }

  /** Without a cycle every code was peeled, and the peeled layers are all there is. */
  lemma AllPeeledGivesLayering(g: Graph, layers: seq<seq<Code>>, level: map<Code, nat>)
    requires ChainLevels(g, level) && LevelsMatch(layers, level)
    requires HeldUpByCycle(g, []) && forall v :: v in g.nodes ==> v in level
    ensures IsLayering(g, layers)
  {
    CycleHoldsSomethingUp(g, []);
    PeeledLayersAreLongest(g, layers, level, [], layers);
    forall v | v in g.nodes ensures InSomeLayer(layers, v) {
      assert v in layers[level[v]];
    }
  }

  /** With one, the codes it holds up make one more layer. */
  lemma LeftoverGivesLayering(g: Graph, layers: seq<seq<Code>>, level: map<Code, nat>, rest: seq<Code>)
    requires ChainLevels(g, level) && LevelsMatch(layers, level) && IsSortedSet(rest) && rest != []
    requires HeldUpByCycle(g, rest) && forall v :: v in rest <==> v in g.nodes && v !in level
    ensures IsLayering(g, layers + [rest])
  {
    var all := layers + [rest];
    CycleHoldsSomethingUp(g, rest);
    PeeledLayersAreLongest(g, layers, level, rest, all);
    forall v | v in g.nodes ensures InSomeLayer(all, v) {
      if v in level { assert v in all[level[v]]; } else { assert v in all[|layers|]; }
    }
  }

  function DropEmpty(layers: seq<seq<Code>>): seq<seq<Code>> {
    if layers == [] then []
    else (if layers[0] == [] then [] else [layers[0]]) + DropEmpty(layers[1..])
  }

  lemma {:induction false} DropEmptyKeeps(layers: seq<seq<Code>>)
    requires forall i :: 0 <= i < |layers| ==> layers[i] != []
    ensures DropEmpty(layers) == layers
  {
    if layers != [] { DropEmptyKeeps(layers[1..]); }
  }

  /** Between two turns of the `while current` loop. */
  ghost predicate Peeling(g: Graph, layers: seq<seq<Code>>, level: map<Code, nat>, current: seq<Code>,
                          indeg: map<Code, nat>) {
    && ChainLevels(g, level) && LevelsMatch(layers, level) && NextLayer(g, layers, current)
    && CountsInto(g, indeg, level.Keys) && Freed(g, level.Keys, indeg, current)
  }

  /** One turn of the loop: the current codes become a layer, and those they free come next. */
  method PeelTurn(ghost g: Graph, adj: AdjacencyMap, layers0: seq<seq<Code>>, ghost level0: map<Code, nat>,
                  current0: seq<Code>,
                  remaining0: set<Code>, indeg0: map<Code, nat>)
    returns (layers: seq<seq<Code>>, ghost level: map<Code, nat>, current: seq<Code>, remaining: set<Code>,
             indeg: map<Code, nat>)
    requires WellFormed(g) && IsAdjacency(g.edges, adj) && current0 != []
             && Peeling(g, layers0, level0, current0, indeg0)
    ensures Peeling(g, layers, level, current, indeg)
    ensures remaining == remaining0 - Elements(current0) && level.Keys == level0.Keys + Elements(current0)
  {
    var sorted := SortedCodes(current0);
    LevelsGrow(g, layers0, level0, current0, indeg0, sorted);
    var nxt: seq<Code>;
    remaining, indeg, nxt := PeelLayer(g, adj, level0.Keys, current0, remaining0, indeg0);
    level := NumberLayer(level0, current0, |layers0|);
    layers := layers0 + [sorted];
    assert Elements(sorted) == Elements(current0) && level.Keys == level0.Keys + Elements(current0);
    current := SortedSet(Elements(nxt));
  }

  method PeelAll(ghost g: Graph, adj: AdjacencyMap, indeg0: map<Code, nat>, current0: seq<Code>)
    returns (layers: seq<seq<Code>>, remaining: set<Code>, ghost level: map<Code, nat>, ghost indeg: map<Code, nat>)
    requires WellFormed(g) && IsAdjacency(g.edges, adj) && indeg0.Keys == g.nodes
    requires Peeling(g, [], map[], current0, indeg0)
    ensures Peeling(g, layers, level, [], indeg) && remaining == g.nodes - level.Keys
  {
    var current, counts := current0, indeg0;
    layers, remaining, level := [], counts.Keys, map[];
    while current != []
      invariant Peeling(g, layers, level, current, counts) && remaining == g.nodes - level.Keys
      decreases remaining
    {
      assert current[0] in current && current[0] in remaining && current[0] in Elements(current);
      layers, level, current, remaining, counts := PeelTurn(g, adj, layers, level, current, remaining, counts);
    }
    indeg := counts;
  }

  /** Layers of items that can proceed side by side, for any order in which the set is visited. */
  method DetectParallelizableItems(items: seq<RoadmapItem>, deps: seq<RoadmapDependency>)
    returns (layers: seq<seq<Code>>)
    ensures IsLayering(RoadmapGraph(items, deps), layers)
  {
    ghost var g := RoadmapGraph(items, deps);
    RoadmapGraphWellFormed(items, deps);
    if items == [] {
      return [];
    }
    var nodes := ItemCodes(items);
    var adj, indeg := BuildAdjacency(nodes, deps);
    var current := ZeroCodes(nodes, indeg);
    ghost var none: map<Code, nat> := map[];
    assert none.Keys == {};
    var remaining;
    ghost var level, counts;
    layers, remaining, level, counts := PeelAll(g, adj, indeg, current);
    if remaining != {} {
      var rest := SortedSet(remaining);
      assert rest != [] by { var v :| v in remaining; }
      LeftoverIsHeldUp(g, level, counts, rest);
      LeftoverGivesLayering(g, layers, level, rest);
      layers := layers + [rest];
    } else {
      assert forall v :: v in nodes ==> v in nodes - level.Keys || v in level;
      LeftoverIsHeldUp(g, level, counts, []);
      AllPeeledGivesLayering(g, layers, level);
    }
    DropEmptyKeeps(layers);
    layers := DropEmpty(layers);
  }
}
