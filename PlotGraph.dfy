/**
 * `plot_graph_from_file` of the top-level script, up to the layout call: read
 * the edges, build the directed graph, and compute the arguments of
 * `nx.spring_layout(G, seed=42, k=0.8/len(G.nodes())**0.5)`. The spacing `k`
 * is kept as its exact square `k * k == 0.64 / n`; with no node the division
 * fails, as Python's `ZeroDivisionError` does.
 */
module PlotGraph {
  import opened Text
  import opened Wrappers
  import opened Numbers
  import opened WmdReader
  import opened DiGraphModel

  /** Why the script stops before drawing: a bad number in the file, or a graph without nodes. */
  datatype PlotError = Format(error: ReadError) | ZeroNodes

  /** The seed and the squared optimal distance handed to the spring layout. */
  datatype SpringArguments = SpringArguments(seed: int, kSquared: real)

  /** What reaches the layout and drawing calls. */
  datatype LayoutInput = LayoutInput(nodes: seq<int>, weights: map<(int, int), Weight>, spring: SpringArguments)

  /** The fixed seed of the layout. */
  const LayoutSeed: int := 42

  /** `seed=42, k=0.8/len(G.nodes())**0.5` for a graph of `nodeCount` nodes. */
  function SpringArgumentsFor(nodeCount: nat): (r: Result<SpringArguments, PlotError>)
    ensures r.Failure? <==> nodeCount == 0
    ensures r.Failure? ==> r.error == ZeroNodes
    ensures r.Success? ==> r.value.seed == LayoutSeed
    ensures r.Success? ==> r.value.kSquared > 0.0 && r.value.kSquared * (nodeCount as real) == 0.64
  {
    if nodeCount == 0 then Failure(ZeroNodes)
    else Success(SpringArguments(LayoutSeed, 0.64 / nodeCount as real))
  }

  /** The spacing shrinks as the graph grows. */
  lemma {:induction false} SpacingShrinksWithSize(m: nat, n: nat)
    requires 0 < m <= n
    ensures SpringArgumentsFor(n).value.kSquared <= SpringArgumentsFor(m).value.kSquared
  {
    var km, kn := SpringArgumentsFor(m).value.kSquared, SpringArgumentsFor(n).value.kSquared;
    assert kn * (n as real) == km * (m as real);
    assert km * (m as real) <= km * (n as real);
  }

  /**
   * `plot_graph_from_file` on the lines of a file, up to the layout call. The
   * layout receives the graph of the edges read and the spacing of its node
   * count, whose meaning `SpringArgumentsFor` states.
   */
  method PlotGraphFromFile(lines: seq<string>) returns (r: Result<LayoutInput, PlotError>)
    ensures ReadEdges(lines).Failure? ==> r == Failure(Format(ReadEdges(lines).error))
    ensures ReadEdges(lines) == Success([]) ==> r == Failure(ZeroNodes)
    ensures ReadEdges(lines).Success? && ReadEdges(lines).value != [] ==>
      var edges := ReadEdges(lines).value;
      && r.Success?
      && r.value.nodes == NodesOf(edges)
      && r.value.weights == WeightsOf(edges)
      && r.value.spring == SpringArgumentsFor(|NodesOf(edges)|).value
  {
    var read := ReadWmdEdges(lines);
    if read.Failure? {
      return Failure(Format(read.error));
    }
    var g := BuildGraph(read.value);
    NoNodesIffNoEdges(read.value);
    var spring := SpringArgumentsFor(g.NumberOfNodes());
    if spring.Failure? {
      return Failure(spring.error);
    }
    return Success(LayoutInput(g.nodes, g.weights, spring.value));
  }

  /** A file of blank and comment lines only never reaches the layout. */
  lemma {:induction false} CommentsOnlyFileFails(lines: seq<string>)
    requires forall i :: 0 <= i < |lines| ==> IsIgnorable(Strip(lines[i]))
    ensures ReadEdges(lines) == Success([])
    ensures SpringArgumentsFor(|NodesOf([])|) == Failure(ZeroNodes)
  {
    NoEdgesIffAllSkipped(lines);
  }

  /**
   * The five-line file with a repeated pair, end to end: a weighted line on
   * `(a, b)`, an unweighted line on `(b, c)`, a comment, a blank line and a
   * second weighted line on `(a, b)` give a graph of three nodes in order of first appearance and two weighted
   * pairs, the repeated pair holding the weight of its later line.
   */
  lemma {:induction false} RepeatedPairPlot(a: int, b: int, c: int, w1: string, w2: string, comment: string)
    requires a != b && b != c && a != c
    requires WithinDigitLimit(a) && WithinDigitLimit(b) && WithinDigitLimit(c)
    requires ',' !in w1 && Trimmed(w1) && ParseFloat(w1).Some?
    requires ',' !in w2 && Trimmed(w2) && ParseFloat(w2).Some?
    ensures ReadEdges(RepeatedPairLines(a, b, c, w1, w2, comment)).Success?
    ensures var edges := ReadEdges(RepeatedPairLines(a, b, c, w1, w2, comment)).value;
      && NodesOf(edges) == [a, b, c]
      && WeightsOf(edges) == map[(a, b) := ParseFloat(w2).value, (b, c) := DefaultWeight]
      && SpringArgumentsFor(|NodesOf(edges)|) == Success(SpringArguments(LayoutSeed, 0.64 / 3.0))
  {
    RepeatedPairFile(a, b, c, w1, w2, comment);
    RepeatedPairGraph(a, b, c, ParseFloat(w1).value, DefaultWeight, ParseFloat(w2).value);
  }
}
