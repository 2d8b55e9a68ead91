/**
 * The directed graph the plotting scripts build from the edge list: an empty
 * `nx.DiGraph()` that receives one `add_edge(u, v, weight=w)` per edge, in
 * list order. Only what `add_edge` makes observable is modelled: a node list
 * in order of first appearance (source before target), and one weight per
 * ordered pair, overwritten by every later edge on the same pair.
 */
module DiGraphModel {
  import opened Numbers
  import opened WmdReader

  predicate Distinct(s: seq<int>) {
    forall i, j :: 0 <= i < j < |s| ==> s[i] != s[j]
  }

  /** `s` with `x` appended, unless `x` is already there. */
  function AddIfAbsent(s: seq<int>, x: int): seq<int> {
    if x in s then s else s + [x]
  }

  /** The endpoints in the order `add_edge` meets them: source, then target, edge after edge. */
  function Endpoints(edges: seq<Edge>): seq<int> {
    if edges == [] then []
    else
      var e := edges[|edges| - 1];
      Endpoints(edges[..|edges| - 1]) + [e.source, e.target]
  }

  /** The distinct elements of `s`, each where it first occurs. */
  function FirstAppearances(s: seq<int>): seq<int> {
    if s == [] then [] else AddIfAbsent(FirstAppearances(s[..|s| - 1]), s[|s| - 1])
  }

  /** The node list of the graph built from `edges`. */
  function NodesOf(edges: seq<Edge>): seq<int> {
    FirstAppearances(Endpoints(edges))
  }

  /** The weight attribute of each edge of the graph built from `edges`. */
  function WeightsOf(edges: seq<Edge>): map<(int, int), Weight> {
    if edges == [] then map[]
    else
      var e := edges[|edges| - 1];
      WeightsOf(edges[..|edges| - 1])[(e.source, e.target) := e.weight]
  }

  /** Every node named by some edge. */
  function EndpointSet(edges: seq<Edge>): set<int> {
    (set e | e in edges :: e.source) + (set e | e in edges :: e.target)
  }

  /** The part of a `DiGraph` that `add_edge` changes. */
  class DiGraph {
    var nodes: seq<int>
    var weights: map<(int, int), Weight>

    /** Nodes are listed once each, and every edge joins two listed nodes. */
    ghost predicate Valid()
      reads this
    {
      && Distinct(nodes)
      && forall p :: p in weights ==> p.0 in nodes && p.1 in nodes
    }

    /** `nx.DiGraph()`. */
    constructor ()
      ensures Valid()
      ensures nodes == [] && weights == map[]
    {
      nodes := [];
      weights := map[];
    }

    /** `G.add_edge(u, v, weight=w)`: adds missing endpoints, then sets the pair's weight. */
    method AddEdge(u: int, v: int, w: Weight)
      requires Valid()
      modifies this
      ensures Valid()
      ensures nodes == AddIfAbsent(AddIfAbsent(old(nodes), u), v)
      ensures weights == old(weights)[(u, v) := w]
    {
      if u !in nodes {
        nodes := nodes + [u];
      }
      if v !in nodes {
        nodes := nodes + [v];
      }
      weights := weights[(u, v) := w];
    }

    /** `len(G.nodes())`. */
    function NumberOfNodes(): nat
      reads this
    {
      |nodes|
    }
  }

  /** The insertion loop of `plot_graph_from_file`. */
  method BuildGraph(edges: seq<Edge>) returns (g: DiGraph)
    ensures fresh(g) && g.Valid()
    ensures g.nodes == NodesOf(edges) && g.weights == WeightsOf(edges)
  {
    g := new DiGraph();
    var i := 0;
    while i < |edges|
      invariant 0 <= i <= |edges|
      invariant g.Valid()
      invariant g.nodes == NodesOf(edges[..i]) && g.weights == WeightsOf(edges[..i])
    {
      var e := edges[i];
      assert edges[..i + 1][..i] == edges[..i];
      NodesOfStep(edges[..i + 1]);
      g.AddEdge(e.source, e.target, e.weight);
      i := i + 1;
    }
    assert edges[..i] == edges;
  }

  /** Adding one edge adds its source, then its target, each unless already present. */
  lemma {:induction false} NodesOfStep(edges: seq<Edge>)
    requires edges != []
    ensures var e := edges[|edges| - 1];
      NodesOf(edges) == AddIfAbsent(AddIfAbsent(NodesOf(edges[..|edges| - 1]), e.source), e.target)
  {
    var e := edges[|edges| - 1];
    var s := Endpoints(edges);
    assert s == Endpoints(edges[..|edges| - 1]) + [e.source, e.target];
    assert s[..|s| - 1] == Endpoints(edges[..|edges| - 1]) + [e.source];
    var s1 := s[..|s| - 1];
    assert s1[..|s1| - 1] == Endpoints(edges[..|edges| - 1]);
    assert FirstAppearances(s1) == AddIfAbsent(FirstAppearances(Endpoints(edges[..|edges| - 1])), e.source);
    assert FirstAppearances(s) == AddIfAbsent(FirstAppearances(s1), e.target);
  }

  /** The first-appearance list holds each element of `s` exactly once. */
  lemma {:induction false} FirstAppearancesContents(s: seq<int>)
    ensures Distinct(FirstAppearances(s))
    ensures forall x :: x in FirstAppearances(s) <==> x in s
  {
    if s != [] {
      var init := s[..|s| - 1];
      FirstAppearancesContents(init);
      assert s == init + [s[|s| - 1]];
    }
  }

  /** First-appearance order: the nodes of any prefix come first, in the same order. */
  lemma {:induction false} FirstAppearancesPrefix(s: seq<int>, k: nat)
    requires k <= |s|
    ensures FirstAppearances(s[..k]) <= FirstAppearances(s)
    decreases |s| - k
  {
    if k < |s| {
      FirstAppearancesPrefix(s, k + 1);
      assert s[..k + 1][..k] == s[..k];
    } else {
      assert s[..k] == s;
    }
  }

  lemma {:induction false} EndpointsMembers(edges: seq<Edge>, x: int)
    ensures x in Endpoints(edges) <==> exists k :: 0 <= k < |edges| && (edges[k].source == x || edges[k].target == x)
  {
    if edges != [] {
      var init := edges[..|edges| - 1];
      EndpointsMembers(init, x);
      assert forall k :: 0 <= k < |init| ==> init[k] == edges[k];
    }
  }

  /** The graph's nodes are exactly the endpoints of the edges read, each listed once. */
  lemma {:induction false} NodesAreEndpoints(edges: seq<Edge>, x: int)
    ensures Distinct(NodesOf(edges))
    ensures x in NodesOf(edges) <==> exists k :: 0 <= k < |edges| && (edges[k].source == x || edges[k].target == x)
  {
    FirstAppearancesContents(Endpoints(edges));
    EndpointsMembers(edges, x);
  }

  /** The nodes of the first `k` edges are a prefix of the node list: first-appearance order. */
  lemma {:induction false} NodesInFirstAppearanceOrder(edges: seq<Edge>, k: nat)
    requires k <= |edges|
    ensures NodesOf(edges[..k]) <= NodesOf(edges)
  {
    EndpointsPrefix(edges, k);
    FirstAppearancesPrefix(Endpoints(edges), |Endpoints(edges[..k])|);
  }

  lemma {:induction false} EndpointsPrefix(edges: seq<Edge>, k: nat)
    requires k <= |edges|
    ensures |Endpoints(edges[..k])| <= |Endpoints(edges)|
    ensures Endpoints(edges[..k]) == Endpoints(edges)[..|Endpoints(edges[..k])|]
    decreases |edges| - k
  {
    if k < |edges| {
      EndpointsPrefix(edges, k + 1);
      assert edges[..k + 1][..k] == edges[..k];
    } else {
      assert edges[..k] == edges;
    }
  }

  lemma {:induction false} DistinctCardinality(s: seq<int>)
    requires Distinct(s)
    ensures |set x | x in s| == |s|
  {
    if s != [] {
      var init := s[..|s| - 1];
      DistinctCardinality(init);
      assert (set x | x in s) == (set x | x in init) + {s[|s| - 1]};
    }
  }

  /** `len(G.nodes())` is the number of distinct endpoints of the edges read. */
  lemma {:induction false} NodeCountIsDistinctEndpoints(edges: seq<Edge>)
    ensures |NodesOf(edges)| == |EndpointSet(edges)|
  {
    var nodes := NodesOf(edges);
    forall x ensures x in nodes <==> x in EndpointSet(edges) {
      NodesAreEndpoints(edges, x);
      if x in EndpointSet(edges) {
        var e :| e in edges && (e.source == x || e.target == x);
        var k :| 0 <= k < |edges| && edges[k] == e;
      }
    }
    NodesAreEndpoints(edges, 0);
    assert (set x | x in nodes) == EndpointSet(edges);
    DistinctCardinality(nodes);
  }

  /** The graph has no node exactly when no edge was read. */
  lemma {:induction false} NoNodesIffNoEdges(edges: seq<Edge>)
    ensures |NodesOf(edges)| == 0 <==> edges == []
  {
    if edges != [] {
      var e := edges[|edges| - 1];
      NodesAreEndpoints(edges, e.source);
    }
  }

  /** An ordered pair carries a weight exactly when some edge read joins it. */
  lemma {:induction false} WeightedPairs(edges: seq<Edge>, u: int, v: int)
    ensures (u, v) in WeightsOf(edges) <==> exists k :: 0 <= k < |edges| && edges[k].source == u && edges[k].target == v
  {
    if edges != [] {
      var init := edges[..|edges| - 1];
      WeightedPairs(init, u, v);
      assert forall k :: 0 <= k < |init| ==> init[k] == edges[k];
    }
  }

  /** Last write wins: a pair keeps the weight of its last edge in the list. */
  lemma {:induction false} LastWriteWins(edges: seq<Edge>, k: nat)
    requires k < |edges|
    requires forall j :: k < j < |edges| ==> (edges[j].source, edges[j].target) != (edges[k].source, edges[k].target)
    ensures (edges[k].source, edges[k].target) in WeightsOf(edges)
    ensures WeightsOf(edges)[(edges[k].source, edges[k].target)] == edges[k].weight
  {
    if k < |edges| - 1 {
      var init := edges[..|edges| - 1];
      assert init[k] == edges[k];
      LastWriteWins(init, k);
    }
  }

  /**
   * Three edges where the first pair comes back with a new weight: three
   * nodes in order of first appearance, and two weighted pairs, the repeated
   * one holding its later weight.
   */
  lemma {:induction false} RepeatedPairGraph(a: int, b: int, c: int, w1: Weight, w2: Weight, w3: Weight)
    requires a != b && b != c && a != c
    ensures NodesOf([Edge(a, b, w1), Edge(b, c, w2), Edge(a, b, w3)]) == [a, b, c]
    ensures WeightsOf([Edge(a, b, w1), Edge(b, c, w2), Edge(a, b, w3)]) == map[(a, b) := w3, (b, c) := w2]
  {
    var edges := [Edge(a, b, w1), Edge(b, c, w2), Edge(a, b, w3)];
    assert edges[..2] == [Edge(a, b, w1), Edge(b, c, w2)];
    assert edges[..2][..1] == [Edge(a, b, w1)];
    assert edges[..2][..1][..0] == [];
    assert NodesOf(edges) == [a, b, c] by {
      NodesOfStep(edges[..2][..1]);
      NodesOfStep(edges[..2]);
      NodesOfStep(edges);
      assert NodesOf([]) == [] by { assert Endpoints([]) == []; }
    }
    assert WeightsOf(edges) == map[(a, b) := w3, (b, c) := w2] by {
      assert WeightsOf(edges[..2][..1]) == map[(a, b) := w1];
      assert WeightsOf(edges[..2]) == map[(a, b) := w1][(b, c) := w2];
      assert WeightsOf(edges) == map[(a, b) := w1][(b, c) := w2][(a, b) := w3];
    }
  }
}
