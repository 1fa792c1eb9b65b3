/** The adjacency lists and in-degree tables both graph algorithms start from and count down. */
module Adjacency {
  import opened Ordering
  import opened DependencyGraph
  import opened Roadmap

  type AdjacencyMap = map<Code, seq<Code>>

  /** The lookup of a `defaultdict(list)`. */
  function Out(adj: AdjacencyMap, u: Code): seq<Code> {
    if u in adj then adj[u] else []
  }

  function Elements(s: seq<Code>): set<Code> {
    set c | c in s
  }

  ghost predicate IsAdjacency(edges: seq<Edge>, adj: AdjacencyMap) {
    forall u :: Out(adj, u) == Successors(edges, u)
  }

  ghost predicate CountsInto(g: Graph, indeg: map<Code, nat>, done: set<Code>) {
    indeg.Keys == g.nodes && forall v :: v in g.nodes ==> indeg[v] == CountInto(g.edges, v, done)
  }

  method BuildAdjacency(nodes: set<Code>, deps: seq<RoadmapDependency>)
    returns (adj: AdjacencyMap, indeg: map<Code, nat>)
    ensures IsAdjacency(KnownEdges(nodes, deps), adj)
    ensures CountsInto(Graph(nodes, KnownEdges(nodes, deps)), indeg, {})
  {
    adj := map[];
    indeg := map n | n in nodes :: 0;
    ghost var edges: seq<Edge> := [];
    for i := 0 to |deps|
      invariant edges == KnownEdges(nodes, deps[..i])
      invariant IsAdjacency(edges, adj) && CountsInto(Graph(nodes, edges), indeg, {})
    {
      var d := deps[i];
      assert deps[..i + 1][..i] == deps[..i];
      if d.fromCode in nodes && d.toCode in nodes {
        OneMoreEdge(nodes, edges, adj, indeg, d.fromCode, d.toCode);
        edges := edges + [(d.fromCode, d.toCode)];
        adj := adj[d.fromCode := Out(adj, d.fromCode) + [d.toCode]];
        indeg := indeg[d.toCode := indeg[d.toCode] + 1];
      }
    }
    assert deps[..|deps|] == deps;
  }

  lemma OneMoreEdge(nodes: set<Code>, edges: seq<Edge>, adj: AdjacencyMap, indeg: map<Code, nat>, u: Code, v: Code)
    requires IsAdjacency(edges, adj) && CountsInto(Graph(nodes, edges), indeg, {}) && v in nodes
    ensures IsAdjacency(edges + [(u, v)], adj[u := Out(adj, u) + [v]])
    ensures CountsInto(Graph(nodes, edges + [(u, v)]), indeg[v := indeg[v] + 1], {})
  {
    var more := edges + [(u, v)];
    assert more[..|edges|] == edges;
    forall x ensures Out(adj[u := Out(adj, u) + [v]], x) == Successors(more, x) {
      assert Out(adj, x) == Successors(edges, x);
      assert Successors(more, x) == Successors(edges, x) + if x == u then [v] else [];
    }
  }

  // ----- counting down

  /** Subtracting one code's edges one by one, with those to `left` still to come. */
  ghost predicate CountsDown(g: Graph, indeg: map<Code, nat>, done: set<Code>, left: seq<Code>) {
    indeg.Keys == g.nodes && forall v :: v in g.nodes ==> indeg[v] == CountInto(g.edges, v, done) + multiset(left)[v]
  }

  lemma StartProcessing(g: Graph, indeg: map<Code, nat>, done: set<Code>, u: Code)
    requires CountsInto(g, indeg, done) && u !in done
    ensures CountsDown(g, indeg, done + {u}, Successors(g.edges, u))
  {
    forall v | v in g.nodes
      ensures indeg[v] == CountInto(g.edges, v, done + {u}) + multiset(Successors(g.edges, u))[v]
    {
      CountStep(g.edges, u, v, done);
    }
  }

  /** The predecessors of a code whose count is down to zero are all finished. */
  lemma ZeroMeansPredecessorsDone(g: Graph, indeg: map<Code, nat>, done: set<Code>)
    requires WellFormed(g) && CountsInto(g, indeg, done)
    ensures forall u, v :: HasEdge(g, u, v) && indeg[v] == 0 ==> u in done
    ensures forall v :: v in g.nodes && indeg[v] != 0 ==> HasPredecessorIn(g, g.nodes - done, v)
  {
    forall v | v in g.nodes
      ensures indeg[v] == 0 ==> forall u :: HasEdge(g, u, v) ==> u in done
      ensures indeg[v] != 0 ==> HasPredecessorIn(g, g.nodes - done, v)
    {
      CountZero(g.edges, v, done);
      if indeg[v] != 0 {
        var u :| (u, v) in g.edges && u !in done;
        assert HasEdge(g, u, v);
      }
    }
  }

  lemma CountsDownStep(g: Graph, indeg: map<Code, nat>, done: set<Code>, vs: seq<Code>, j: nat, v: Code)
    requires j < |vs| && v == vs[j] && v in g.nodes && CountsDown(g, indeg, done, vs[j..])
    ensures indeg[v] > 0
    ensures CountsDown(g, indeg[v := indeg[v] - 1], done, vs[j + 1..])
  {
    assert vs[j..] == [v] + vs[j + 1..];
  }

  /** The codes that nothing points to, in the order the set is visited. */
  method ZeroCodes(nodes: set<Code>, indeg: map<Code, nat>) returns (q: seq<Code>)
    requires indeg.Keys == nodes
    ensures NoDuplicates(q) && forall v :: v in q <==> v in nodes && indeg[v] == 0
  {
    var order := Enumerate(nodes);
    q := [];
    for i := 0 to |order|
      invariant NoDuplicates(q)
      invariant forall v :: v in q <==> v in order[..i] && indeg[v] == 0
    {
      assert order[i] in nodes;
      if indeg[order[i]] == 0 {
        q := q + [order[i]];
      }
    }
  }
}
