/**
 * `plot_graph_from_file` of the `data_KEP/G_visualization` script, up to
 * `plt.figure`, with the layout call assumed to return: read the edges, build
 * the directed graph, and size the figure
 * as `max(10, n/1.5)` by `max(8, n/1.5)` inches for `n` nodes.
 */
module KepPlotGraph {
  import opened Wrappers
  import opened Numbers
  import opened WmdReader
  import opened DiGraphModel

  /** Python's `max(a, b)` on numbers: `b` only when it is strictly larger. */
  function Max(a: real, b: real): (m: real)
    ensures m >= a && m >= b && (m == a || m == b)
  {
    if b > a then b else a
  }

  /** The `figsize` of a graph with `nodeCount` nodes: width then height, in inches. */
  function FigureSize(nodeCount: nat): (size: (real, real))
    ensures size.0 >= 10.0 && size.1 >= 8.0
    ensures size.0 >= nodeCount as real / 1.5 && size.1 >= nodeCount as real / 1.5
    ensures size.0 == 10.0 || size.0 == nodeCount as real / 1.5
    ensures size.1 == 8.0 || size.1 == nodeCount as real / 1.5
  {
    (Max(10.0, nodeCount as real / 1.5), Max(8.0, nodeCount as real / 1.5))
  }

  /** A graph with more nodes never gets a smaller figure. */
  lemma {:induction false} FigureGrowsWithNodes(m: nat, n: nat)
    requires m <= n
    ensures FigureSize(m).0 <= FigureSize(n).0 && FigureSize(m).1 <= FigureSize(n).1
  {
  }

  /** Up to 15 nodes the width is the 10-inch floor, up to 12 the height is the 8-inch floor; from 15 on both are `n/1.5`. */
  lemma {:induction false} FigureFloorAndGrowth(n: nat)
    ensures n <= 15 ==> FigureSize(n).0 == 10.0
    ensures n <= 12 ==> FigureSize(n).1 == 8.0
    ensures n >= 15 ==> FigureSize(n).0 == FigureSize(n).1 == n as real / 1.5
  {
  }

  /** What reaches the layout and drawing calls. */
  datatype Figure = Figure(nodes: seq<int>, weights: map<(int, int), Weight>, width: real, height: real)

  /** `plot_graph_from_file` on the lines of a file, up to `plt.figure`, with the layout call assumed to return. */
  method KepPlotGraphFromFile(lines: seq<string>) returns (r: Result<Figure, ReadError>)
    ensures ReadEdges(lines).Failure? ==> r == Failure(ReadEdges(lines).error)
    ensures ReadEdges(lines).Success? ==>
      var edges := ReadEdges(lines).value;
      && r.Success?
      && r.value.nodes == NodesOf(edges)
      && r.value.weights == WeightsOf(edges)
      && (r.value.width, r.value.height) == FigureSize(|EndpointSet(edges)|)
  {
    var read := ReadWmdEdges(lines);
    if read.Failure? {
      return Failure(read.error);
    }
    var g := BuildGraph(read.value);
    var n := g.NumberOfNodes();
    NodeCountIsDistinctEndpoints(read.value);
    var size := FigureSize(n);
    return Success(Figure(g.nodes, g.weights, size.0, size.1));
  }
}
