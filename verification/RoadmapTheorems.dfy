/** What the critical path and the layers promise together. */
module RoadmapTheorems {
  import opened Ordering
  import opened DependencyGraph
  import opened Roadmap
  import opened ParallelLayers

  /** What being in layer `i` means. */
  lemma InLayer(g: Graph, layers: seq<seq<Code>>, i: nat, v: Code)
    requires IsLayering(g, layers) && i < |layers|
    ensures i < PeeledCount(g, layers) ==> (v in layers[i] <==> v in g.nodes && LongestPathTo(g, v, i + 1))
    ensures i >= PeeledCount(g, layers) ==> (v in layers[i] <==> v in g.nodes && OnOrAfterCycle(g, v))
  {
  }

  /** Every code is in exactly one layer, and layers hold nothing else. */
  lemma LayersPartition(g: Graph, layers: seq<seq<Code>>, v: Code)
    requires IsLayering(g, layers)
    ensures v in g.nodes <==> InSomeLayer(layers, v)
    ensures forall i, j :: 0 <= i < j < |layers| ==> !(v in layers[i] && v in layers[j])
  {
    forall i | 0 <= i < |layers| ensures v in layers[i] ==> v in g.nodes { InLayer(g, layers, i, v); }
    forall i, j | 0 <= i < j < |layers| ensures !(v in layers[i] && v in layers[j]) {
      InLayer(g, layers, i, v);
      InLayer(g, layers, j, v);
      NotLongestAfterCycle(g, v, i + 1);
    }
  }

  lemma NotLongestAfterCycle(g: Graph, v: Code, n: nat)
    ensures OnOrAfterCycle(g, v) ==> !LongestPathTo(g, v, n)
  {
    if OnOrAfterCycle(g, v) { AfterCycleHasNoLongestPath(g, v, n); }
  }

  /** Every dependency of a peeled code comes from a strictly earlier layer; without a cycle
      every code is peeled. */
  lemma EdgesGoToLaterLayers(g: Graph, layers: seq<seq<Code>>, u: Code, v: Code, i: nat, j: nat)
    requires WellFormed(g) && IsLayering(g, layers) && HasEdge(g, u, v)
    requires i < |layers| && j < PeeledCount(g, layers) && u in layers[i] && v in layers[j]
    ensures i < j
  {
    InLayer(g, layers, i, u);
    InLayer(g, layers, j, v);
    if i < PeeledCount(g, layers) {
      var p :| PathTo(g, p, u) && |p| == i + 1;
      PathAppend(g, p, v);
    } else {
      HeldUpIsClosed(g, u, v);
      NotLongestAfterCycle(g, v, j + 1);
    }
  }

  /** Whatever a held-up code points to is held up too. */
  lemma HeldUpIsClosed(g: Graph, u: Code, v: Code)
    requires WellFormed(g) && HasEdge(g, u, v) && OnOrAfterCycle(g, u)
    ensures OnOrAfterCycle(g, v)
  {
    var p, i :| LassoTo(g, p, i, u);
    PathAppend(g, p, v);
    assert LassoTo(g, p + [v], i, v);
  }

  ghost predicate EdgeInside(g: Graph, layer: seq<Code>) {
    exists u, v :: u in layer && v in layer && HasEdge(g, u, v)
  }

  /** The promise "no prerequisite edge between items in the same layer" holds exactly when the
      graph has no cycle. */
  lemma EdgeInsideLayerMeansCycle(g: Graph, layers: seq<seq<Code>>)
    requires WellFormed(g) && IsLayering(g, layers)
    ensures (exists i :: 0 <= i < |layers| && EdgeInside(g, layers[i])) <==> HasCycle(g)
  {
    if HasCycle(g) {
      var p :| IsCycle(g, p);
      CycleIsLasso(g, p);
      assert HasEdge(g, p[0], p[1]);
      HeldUpIsClosed(g, p[0], p[1]);
      assert EdgeInside(g, layers[|layers| - 1]);
    } else if i :| 0 <= i < |layers| && EdgeInside(g, layers[i]) {
      var u, v :| u in layers[i] && v in layers[i] && HasEdge(g, u, v);
      EdgesGoToLaterLayers(g, layers, u, v, i, i);
    }
  }

  /** Two items that wait for each other end up side by side in the only layer. */
  lemma TwoCycleSharesALayer(a: RoadmapItem, b: RoadmapItem, deps: seq<RoadmapDependency>, layers: seq<seq<Code>>)
    requires a.itemCode == "a" && b.itemCode == "b"
    requires deps == [RoadmapDependency("a", "b", ExplicitDependency), RoadmapDependency("b", "a", ExplicitDependency)]
    requires IsLayering(RoadmapGraph([a, b], deps), layers)
    ensures layers == [["a", "b"]] && EdgeInside(RoadmapGraph([a, b], deps), layers[0])
  {
    TwoCycleGraph(a, b, deps);
    TwoCycleLayers(RoadmapGraph([a, b], deps), "a", "b", layers);
    assert StringLe("a", "b") && StringLe("a", "a") && StringLe("b", "b");
    SortedSetUnique(layers[0], ["a", "b"]);
  }

  lemma TwoCycleLayers(g: Graph, u: Code, v: Code, layers: seq<seq<Code>>)
    requires g == Graph({u, v}, [(u, v), (v, u)]) && IsLayering(g, layers)
    ensures |layers| == 1 && EdgeInside(g, layers[0]) && forall c :: c in layers[0] <==> c in {u, v}
  {
    assert HasEdge(g, u, v) && HasEdge(g, v, u);
    assert IsCycle(g, [u, v, u]);
    CycleIsLasso(g, [u, v, u]);
    HeldUpIsClosed(g, u, v);
    var last := layers[|layers| - 1];
    assert u in last && v in last;
    if |layers| > 1 {
      var c := layers[0][0];
      LayersPartition(g, layers, c);
    }
  }

  lemma TwoCycleGraph(a: RoadmapItem, b: RoadmapItem, deps: seq<RoadmapDependency>)
    requires a.itemCode == "a" && b.itemCode == "b"
    requires deps == [RoadmapDependency("a", "b", ExplicitDependency), RoadmapDependency("b", "a", ExplicitDependency)]
    ensures RoadmapGraph([a, b], deps) == Graph({"a", "b"}, [("a", "b"), ("b", "a")])
  {
    var nodes := ItemCodes([a, b]);
    assert nodes == {"a", "b"} by {
      assert a in [a, b] && b in [a, b];
    }
    assert deps[..1] == [deps[0]] && deps[..1][..0] == [];
    assert KnownEdges(nodes, deps[..1]) == [("a", "b")];
  }

  lemma PrefixOfLongestIsLongest(g: Graph, path: seq<Code>, i: nat)
    requires LongestPath(g, path) && i < |path|
    ensures LongestPathTo(g, path[i], i + 1)
  {
    PathSlice(g, path, 0, i + 1);
    assert PathTo(g, path[0..i + 1], path[i]);
    forall q | PathTo(g, q, path[i]) ensures |q| <= i + 1 {
      var joined := q + path[i + 1..];
      forall a, b | 0 <= a && b == a + 1 < |joined| ensures HasEdge(g, joined[a], joined[b]) {
        var shift := |q| - (i + 1);
        if b < |q| {
        } else if b == |q| {
          assert joined[a] == path[i] && joined[b] == path[i + 1];
        } else {
          assert joined[a] == path[a - shift] && joined[b] == path[b - shift];
        }
      }
      assert IsPath(g, joined);
    }
  }

  /** The two algorithms agree: on a graph without cycles the critical path takes exactly one
      code from each layer, in order, so there are as many layers as codes on the path. */
  lemma CriticalPathCrossesEveryLayer(g: Graph, path: seq<Code>, layers: seq<seq<Code>>)
    requires !HasCycle(g) && LongestPath(g, path) && IsLayering(g, layers)
    ensures |layers| == |path|
    ensures forall i :: 0 <= i < |path| ==> path[i] in layers[i]
  {
    forall i | 0 <= i < |path| ensures i < |layers| && path[i] in layers[i] {
      PrefixOfLongestIsLongest(g, path, i);
      var k :| 0 <= k < |layers| && path[i] in layers[k];
    }
    if |layers| > 0 {
      var last := layers[|layers| - 1];
      InLayer(g, layers, |layers| - 1, last[0]);
      var p :| PathTo(g, p, last[0]) && |p| == |layers|;
    }
  }

  /** The layers do not depend on the order in which the set of codes is visited. */
  lemma LayeringIsUnique(g: Graph, a: seq<seq<Code>>, b: seq<seq<Code>>)
    requires IsLayering(g, a) && IsLayering(g, b)
    ensures a == b
  {
    LayeringNotLonger(g, a, b);
    LayeringNotLonger(g, b, a);
    forall i | 0 <= i < |a| ensures a[i] == b[i] {
      forall v ensures v in a[i] <==> v in b[i] {
        InLayer(g, a, i, v);
        InLayer(g, b, i, v);
      }
      SortedSetUnique(a[i], b[i]);
    }
  }

  lemma LayeringNotLonger(g: Graph, a: seq<seq<Code>>, b: seq<seq<Code>>)
    requires IsLayering(g, a) && IsLayering(g, b)
    ensures |a| <= |b|
  {
    var k := PeeledCount(g, a);
    if k > 0 {
      var v := a[k - 1][0];
      InLayer(g, a, k - 1, v);
      PlacedByLength(g, b, v, k);
    }
  }

  lemma PlacedByLength(g: Graph, layers: seq<seq<Code>>, v: Code, k: nat)
    requires IsLayering(g, layers) && v in g.nodes && LongestPathTo(g, v, k)
    ensures k <= PeeledCount(g, layers)
  {
    assert InSomeLayer(layers, v);
    var j :| 0 <= j < |layers| && v in layers[j];
    InLayer(g, layers, j, v);
    NotLongestAfterCycle(g, v, k);
  }
}
