/**
 Directed graphs over item codes, with repeated edges and self-loops allowed, and the two facts
 every topological algorithm on them rests on: a set that always has a predecessor of its own
 holds a cycle, and levels that step up by one along some edge are longest-chain lengths.
 */
module DependencyGraph {
  import opened Ordering

  type Code = string
  type Edge = (Code, Code)

  datatype Graph = Graph(nodes: set<Code>, edges: seq<Edge>)

  predicate HasEdge(g: Graph, u: Code, v: Code) {
    (u, v) in g.edges
  }

  ghost predicate WellFormed(g: Graph) {
    forall u, v :: HasEdge(g, u, v) ==> u in g.nodes && v in g.nodes
  }

  /** A non-empty walk along edges; codes may repeat. */
  ghost predicate IsPath(g: Graph, p: seq<Code>) {
    && p != []
    && (forall i :: 0 <= i < |p| ==> p[i] in g.nodes)
    && (forall i, j :: 0 <= i && j == i + 1 < |p| ==> HasEdge(g, p[i], p[j]))
  }

  ghost predicate PathTo(g: Graph, p: seq<Code>, v: Code) {
    IsPath(g, p) && p[|p| - 1] == v
  }

  ghost predicate IsCycle(g: Graph, p: seq<Code>) {
    IsPath(g, p) && |p| >= 2 && p[0] == p[|p| - 1]
  }

  ghost predicate HasCycle(g: Graph) {
    exists p :: IsCycle(g, p)
  }

  /** The walk `p` to `v` starts with a closed piece `p[..i + 1]`. */
  ghost predicate LassoTo(g: Graph, p: seq<Code>, i: int, v: Code) {
    PathTo(g, p, v) && 0 < i < |p| && p[0] == p[i]
  }

  /** `v` lies on a cycle or downstream of one. */
  ghost predicate OnOrAfterCycle(g: Graph, v: Code) {
    exists p, i :: LassoTo(g, p, i, v)
  }

  ghost predicate LongestPathTo(g: Graph, v: Code, length: nat) {
    && (exists p :: PathTo(g, p, v) && |p| == length)
    && (forall p :: PathTo(g, p, v) ==> |p| <= length)
  }

  ghost predicate LongestPath(g: Graph, p: seq<Code>) {
    IsPath(g, p) && forall q :: IsPath(g, q) ==> |q| <= |p|
  }

  // ----- slices and extensions

  lemma PathSlice(g: Graph, p: seq<Code>, i: nat, j: nat)
    requires IsPath(g, p) && i < j <= |p|
    ensures IsPath(g, p[i..j])
  {
    var q := p[i..j];
    forall a, b | 0 <= a && b == a + 1 < |q| ensures HasEdge(g, q[a], q[b]) {
      assert q[a] == p[i + a] && q[b] == p[i + b];
    }
  }

  lemma PathAppend(g: Graph, p: seq<Code>, v: Code)
    requires IsPath(g, p) && HasEdge(g, p[|p| - 1], v) && v in g.nodes
    ensures PathTo(g, p + [v], v)
  {
  }

  lemma LassoHasCycle(g: Graph, v: Code)
    requires OnOrAfterCycle(g, v)
    ensures HasCycle(g)
  {
    var p, i :| LassoTo(g, p, i, v);
    PathSlice(g, p, 0, i + 1);
    assert IsCycle(g, p[0..i + 1]);
  }

  lemma CycleIsLasso(g: Graph, p: seq<Code>)
    requires IsCycle(g, p)
    ensures OnOrAfterCycle(g, p[0])
  {
    assert LassoTo(g, p, |p| - 1, p[0]);
  }

  /** A path that meets one code twice starts, from there, with a closed piece. */
  lemma RepeatIsLasso(g: Graph, p: seq<Code>, i: nat, j: nat)
    requires IsPath(g, p) && i < j < |p|
    ensures p[i] == p[j] ==> OnOrAfterCycle(g, p[|p| - 1])
  {
    PathSlice(g, p, i, |p|);
    if p[i] == p[j] {
      assert LassoTo(g, p[i..|p|], j - i, p[|p| - 1]);
    }
  }

  lemma AcyclicPathNoDuplicates(g: Graph, p: seq<Code>)
    requires !HasCycle(g) && IsPath(g, p)
    ensures NoDuplicates(p)
  {
    forall i, j | 0 <= i < j < |p| ensures p[i] != p[j] {
      RepeatIsLasso(g, p, i, j);
      NoLassoWithoutCycle(g, p[|p| - 1]);
    }
  }

  lemma NoLassoWithoutCycle(g: Graph, v: Code)
    ensures OnOrAfterCycle(g, v) ==> HasCycle(g)
  {
    if OnOrAfterCycle(g, v) { LassoHasCycle(g, v); }
  }

  // ----- a set where everyone has a predecessor holds a cycle

  ghost predicate HasPredecessorIn(g: Graph, inside: set<Code>, v: Code) {
    exists u :: u in inside && HasEdge(g, u, v)
  }

  ghost predicate PredecessorInside(g: Graph, inside: set<Code>) {
    forall v {:trigger HasPredecessorIn(g, inside, v)} :: v in inside ==> HasPredecessorIn(g, inside, v)
  }

  lemma {:induction false} LongWalkInside(g: Graph, inside: set<Code>, v: Code, n: nat) returns (p: seq<Code>)
    requires WellFormed(g) && PredecessorInside(g, inside) && v in inside && inside <= g.nodes
    ensures PathTo(g, p, v) && |p| == n + 1 && forall i :: 0 <= i < |p| ==> p[i] in inside
    decreases n
  {
    if n == 0 {
      p := [v];
    } else {
      assert HasPredecessorIn(g, inside, v);
      var u :| u in inside && HasEdge(g, u, v);
      var q := LongWalkInside(g, inside, u, n - 1);
      PathAppend(g, q, v);
      p := q + [v];
    }
  }

  lemma LongListRepeats<T>(p: seq<T>, s: set<T>)
    requires (forall i :: 0 <= i < |p| ==> p[i] in s) && |p| > |s|
    ensures !NoDuplicates(p)
  {
    SubsetSize((set x | x in p), s);
    if NoDuplicates(p) { NoDuplicatesLength(p); }
  }

  lemma SubsetSize<T>(a: set<T>, b: set<T>)
    requires a <= b
    ensures |a| <= |b|
    ensures |a| == |b| ==> a == b
  {
    assert |b - a| == |b| - |a|;
    if |a| == |b| { assert b - a == {}; }
  }

  lemma StuckSetIsCyclic(g: Graph, inside: set<Code>, v: Code)
    requires WellFormed(g) && PredecessorInside(g, inside) && v in inside && inside <= g.nodes
    ensures OnOrAfterCycle(g, v)
  {
    var p := LongWalkInside(g, inside, v, |inside|);
    LongListRepeats(p, inside);
    var i, j :| 0 <= i < j < |p| && p[i] == p[j];
    RepeatIsLasso(g, p, i, j);
  }

  // ----- levels

  ghost predicate StepsUpTo(g: Graph, level: map<Code, nat>, v: Code)
    requires v in level
  {
    exists u :: HasEdge(g, u, v) && u in level && level[u] + 1 == level[v]
  }

  /** `level` is defined on a set closed under predecessors and rises along its edges,
      by exactly one along some edge into every code that is not at level 0. */
  ghost predicate ChainLevels(g: Graph, level: map<Code, nat>) {
    && (forall v :: v in level ==> v in g.nodes)
    && (forall u, v :: HasEdge(g, u, v) && v in level ==> u in level && level[u] < level[v])
    && (forall v {:trigger StepsUpTo(g, level, v)} :: v in level && level[v] > 0 ==> StepsUpTo(g, level, v))
  }

  lemma {:induction false} PathBelowLevel(g: Graph, level: map<Code, nat>, p: seq<Code>, i: nat)
    requires ChainLevels(g, level) && IsPath(g, p) && p[|p| - 1] in level && i < |p|
    ensures p[i] in level && level[p[i]] + (|p| - 1 - i) <= level[p[|p| - 1]]
    decreases |p| - i
  {
    if i < |p| - 1 {
      PathBelowLevel(g, level, p, i + 1);
      assert HasEdge(g, p[i], p[i + 1]);
    }
  }

  lemma {:induction false} PathUpToLevel(g: Graph, level: map<Code, nat>, v: Code) returns (p: seq<Code>)
    requires ChainLevels(g, level) && v in level
    ensures PathTo(g, p, v) && |p| == level[v] + 1
    decreases level[v]
  {
    if level[v] == 0 {
      p := [v];
    } else {
      assert StepsUpTo(g, level, v);
      var u :| HasEdge(g, u, v) && u in level && level[u] + 1 == level[v];
      var q := PathUpToLevel(g, level, u);
      PathAppend(g, q, v);
      p := q + [v];
    }
  }

  lemma LevelsAreLongest(g: Graph, level: map<Code, nat>, v: Code)
    requires ChainLevels(g, level) && v in level
    ensures LongestPathTo(g, v, level[v] + 1)
  {
    var p := PathUpToLevel(g, level, v);
    forall q | PathTo(g, q, v) ensures |q| <= level[v] + 1 {
      PathBelowLevel(g, level, q, 0);
    }
  }

  lemma LevelledIsAfterNoCycle(g: Graph, level: map<Code, nat>, v: Code)
    requires ChainLevels(g, level) && v in level
    ensures !OnOrAfterCycle(g, v)
  {
    forall p, i ensures !LassoTo(g, p, i, v) {
      if PathTo(g, p, v) && 0 < i < |p| {
        PathBelowLevel(g, level, p, i);
        PathSlice(g, p, 0, i + 1);
        PathBelowLevel(g, level, p[0..i + 1], 0);
      }
    }
  }

  /** A code on or after a cycle has arbitrarily long walks to it. */
  lemma {:induction false} LassoUnrolls(g: Graph, p: seq<Code>, i: nat, v: Code, n: nat) returns (q: seq<Code>)
    requires LassoTo(g, p, i, v)
    ensures PathTo(g, q, v) && |q| > n && q[0] == p[0]
  {
    if n == 0 {
      q := p;
    } else {
      var r := LassoUnrolls(g, p, i, v, n - 1);
      q := p[..i] + r;
      forall a, b | 0 <= a && b == a + 1 < |q| ensures HasEdge(g, q[a], q[b]) {
        if b < i {
          assert q[a] == p[a] && q[b] == p[b];
        } else if b == i {
          assert q[a] == p[a] && q[b] == r[0] == p[i];
        } else {
          assert q[a] == r[a - i] && q[b] == r[b - i];
        }
      }
    }
  }

  lemma AfterCycleHasNoLongestPath(g: Graph, v: Code, n: nat)
    requires OnOrAfterCycle(g, v)
    ensures !LongestPathTo(g, v, n)
  {
    var p, i :| LassoTo(g, p, i, v);
    var q := LassoUnrolls(g, p, i, v, n);
    assert PathTo(g, q, v) && |q| > n;
  }

  // ----- counting the edges into a code from outside a finished set

  function CountInto(edges: seq<Edge>, v: Code, done: set<Code>): nat {
    if edges == [] then 0
    else
      var e := edges[|edges| - 1];
      CountInto(edges[..|edges| - 1], v, done) + if e.1 == v && e.0 !in done then 1 else 0
  }

  function Successors(edges: seq<Edge>, u: Code): seq<Code> {
    if edges == [] then []
    else
      var e := edges[|edges| - 1];
      Successors(edges[..|edges| - 1], u) + if e.0 == u then [e.1] else []
  }

  lemma {:induction false} CountZero(edges: seq<Edge>, v: Code, done: set<Code>)
    ensures CountInto(edges, v, done) == 0 <==> forall u :: (u, v) in edges ==> u in done
  {
    if edges != [] {
      var rest := edges[..|edges| - 1];
      CountZero(rest, v, done);
      assert edges == rest + [edges[|edges| - 1]];
      if CountInto(rest, v, done) != 0 {
        var u :| (u, v) in rest && u !in done;
        assert (u, v) in edges;
      }
      var e := edges[|edges| - 1];
      if e.1 == v && e.0 !in done {
        assert (e.0, v) in edges;
      }
    }
  }

  lemma {:induction false} CountStep(edges: seq<Edge>, u: Code, v: Code, done: set<Code>)
    requires u !in done
    ensures CountInto(edges, v, done) == CountInto(edges, v, done + {u}) + multiset(Successors(edges, u))[v]
  {
    if edges != [] {
      CountStep(edges[..|edges| - 1], u, v, done);
    }
  }

  lemma {:induction false} SuccessorsAreEdges(edges: seq<Edge>, u: Code, v: Code)
    ensures v in Successors(edges, u) <==> (u, v) in edges
  {
    if edges != [] {
      var rest := edges[..|edges| - 1];
      SuccessorsAreEdges(rest, u, v);
      assert edges == rest + [edges[|edges| - 1]];
    }
  }
}
