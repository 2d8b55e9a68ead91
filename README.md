# WMD edge-list reader and graph plotting, modelled in Dafny

The repository carries two Python plotting scripts, `plot_graph.py` and
`data_KEP/G_visualization/plot_graph.py`. Each reads a `.wmd` edge list with
`read_wmd_edges`, builds a NetworkX `DiGraph` with one `add_edge(u, v, weight=w)`
per edge, and draws it. This project models the part before the drawing:

- **Reading.** The model covers line stripping, comment and blank-line skipping,
  comma splitting, the checks on the number of fields, the `int` and `float`
  conversions, the default weight `1.0`, and the abort on a bad number. The two
  scripts' `read_wmd_edges` are the same code (`plot_graph.py:5-21` and
  `data_KEP/G_visualization/plot_graph.py:5-17`, without the docstring), so one
  module models both.
- **The graph.** The observable effect of the `add_edge` loop: nodes listed in order
  of first appearance, and one weight per ordered pair, where the last write wins.
- **`plot_graph.py` up to its layout call.** The spacing argument
  `k = 0.8/len(G.nodes())**0.5` of `spring_layout` divides by zero when the file
  yields no edge.
- **The `data_KEP` script up to its figure.** The figure size
  `max(10, n/1.5)` by `max(8, n/1.5)` inches is modelled.

Modules:

- `Wrappers`: `Option` and `Result`.
- `Text`: Python's `str.strip()` (the `str.isspace` character set) and
  `str.split(',')`, with `sep.join` as the inverse of split.
- `Numbers`: `int(text)` and `float(text)` on decimal text. Both take a sign and
  single underscores between digits. `float` also accepts `inf`, `infinity`
  and `nan` in any letter case. Values are exact reals, as `Weight`. The
  whitespace both skip around a number is narrower than `strip`'s: the four
  separator controls U+001C to U+001F are not skipped, so a field `1\x1f` is
  not an integer. `int` also refuses a text of more than 4300 digits, the
  default of `sys.get_int_max_str_digits()`.
- `WmdReader`: `ParseLine` is one iteration of the loop, and `ReadEdges` is the
  whole read as a function. `ReadWmdEdges` is the loop itself, proved equal to
  `ReadEdges`.
- `DiGraphModel`: the `DiGraph` class, whose `nodes` and `weights` fields
  `AddEdge` updates in place. `BuildGraph` is the insertion loop. `NodesOf` and
  `WeightsOf` are its specification.
- `PlotGraph`: `plot_graph_from_file` of `plot_graph.py` up to `spring_layout`.
- `KepPlotGraph`: `plot_graph_from_file` of the `data_KEP` script up to
  `plt.figure`.

A failed conversion is where Python raises `ValueError`. It becomes
`Failure(InvalidInt(field))` or `Failure(InvalidFloat(field))`, and no partial
edge list is returned.

The script raises `ZeroDivisionError` while it computes `k`, before any layout
runs. The model returns this as `Failure(ZeroNodes)`.

## Model

| member | source | states |
|---|---|---|
| Text.Strip | plot_graph.py:13 | the stripped line has no whitespace at either end and is no longer than the line |
| Text.TrimStartFacts | plot_graph.py:13 | the leading trim removes exactly the leading run of whitespace: the result is a suffix, what was removed is all whitespace, and the result does not start with whitespace |
| Text.TrimEndFacts | plot_graph.py:13 | the trailing trim removes exactly the trailing run of whitespace: the result is a prefix, what was removed is all whitespace, and the result does not end with whitespace |
| Text.StripDecomposes | plot_graph.py:13 | every line is whitespace, then its stripped text, then whitespace |
| Text.StripSurrounded | plot_graph.py:13 | whatever whitespace surrounds a text with no whitespace at its ends, stripping returns exactly that text |
| Text.StripIdempotent | plot_graph.py:13 | stripping twice is the same as stripping once |
| Text.StripIgnoresIndent | plot_graph.py:13 | leading whitespace does not change the stripped line |
| Text.Split | plot_graph.py:16 | `line.split(',')` has one more field than the line has commas, and no field contains a comma |
| Text.SplitSingleField | plot_graph.py:16-17 | the split has fewer than two fields if and only if the line has no comma; in that case the only field is the line itself |
| Text.SplitWithoutSeparator | plot_graph.py:16 | a text without commas splits into itself alone |
| Text.SplitAfterField | plot_graph.py:16 | a comma-free field followed by a comma splits off as the first field |
| Text.JoinSplit | plot_graph.py:16 | joining the fields with commas gives the line back |
| Text.SplitJoin | plot_graph.py:16 | splitting a comma-join of comma-free fields gives the fields back |
| Numbers.ParseInt | plot_graph.py:18 | no contract of its own; `int(field)` is the sign-and-digits reading of `NumberText(field)`, refused above 4300 digits (the default `sys.get_int_max_str_digits()`), and its meaning is stated by `ParseIntRoundTrip`, `ParseIgnoresSurroundingWhitespace`, `BlankIsNotANumber` and `SeparatorControlIsNotSpace` |
| Numbers.ParseFloat | plot_graph.py:19 | no contract of its own; `float(field)` reads a decimal or `inf`/`infinity`/`nan` from `NumberText(field)`, and its meaning is stated by `ParseIntAsFloat`, `ParseIgnoresSurroundingWhitespace` and `BlankIsNotANumber` |
| Numbers.NumberText | plot_graph.py:18-19 | the text a conversion reads has no number space (the `str.isspace` characters other than U+001C to U+001F) at either end, and is no longer than the field |
| Numbers.TrimNumberStartFacts | plot_graph.py:18-19 | the leading trim of a conversion removes exactly the leading run of number space |
| Numbers.TrimNumberEndFacts | plot_graph.py:18-19 | the trailing trim of a conversion keeps a prefix that does not end with number space |
| Numbers.NumberTextSurrounded | plot_graph.py:18-19 | whatever number space surrounds a text with none at its ends, the conversion reads exactly that text |
| Numbers.ParseIgnoresSurroundingWhitespace | plot_graph.py:18-19 | `int` and `float` give the same result on a field padded with spaces, tabs, line breaks or Unicode spaces as on the bare field |
| Numbers.SeparatorControlIsNotSpace | plot_graph.py:18 | a field ending in one of U+001C to U+001F is not an integer, although `str.isspace` holds for that character |
| Numbers.ParseIntRoundTrip | plot_graph.py:18 | `int` reads every integer back from its decimal text if that text has at most 4300 digits, and rejects the text otherwise |
| Numbers.IntTextParts | plot_graph.py:18 | `int` reads the decimal text of `n` whole, with no space to skip, as its sign and the digits of `|n|` |
| Numbers.DigitCountOfDigits | plot_graph.py:18 | in a text of digits only, the digits counted against the limit are all of its characters |
| Numbers.ParseIntAsFloat | plot_graph.py:19 | every text `int` accepts is a finite float of the same value |
| Numbers.BlankIsNotANumber | plot_graph.py:18-19 | an empty or all-whitespace field is rejected by both `int` and `float` |
| WmdReader.ReadWmdEdges | plot_graph.py:5-21 | the imperative reading loop returns exactly `ReadEdges(lines)`, including the early exit on the first bad field |
| WmdReader.GatherAppend | plot_graph.py:12-20 | reading is compositional: the outcome of the whole is that of the first part, then the second; the first failure wins and edges concatenate in order |
| WmdReader.GatherFailureIsFinal | plot_graph.py:18-19 | once a prefix of the lines fails, the whole read fails with that error |
| WmdReader.GatherSucceedsIff | plot_graph.py:18-19 | gathering succeeds if and only if no line outcome is a rejection |
| WmdReader.GatherCount | plot_graph.py:12-20 | a successful gather returns one edge per accepted line |
| WmdReader.GatherPlacesEdge | plot_graph.py:20 | the edge of accepted line k is preceded by exactly the edges of the accepted lines before k |
| WmdReader.GatherAllSkipped | plot_graph.py:14-17 | if every line is skipped, the result is the empty list |
| WmdReader.GatherFirstRejected | plot_graph.py:18-19 | the error returned is that of the first rejected line |
| WmdReader.ReadEdgesAppend | plot_graph.py:12-20 | reading a file is reading its first lines and then the rest |
| WmdReader.ReadEdgesSucceedsIff | plot_graph.py:18-19 | a file reads without error if and only if none of its lines is rejected |
| WmdReader.FirstRejectedLineDecides | data_KEP/G_visualization/plot_graph.py:14-15 | a failed read reports the first rejected line's error, and lines after it do not matter; no partial list is returned |
| WmdReader.SkippedLineIsInert | plot_graph.py:14-15 | inserting a skipped line anywhere in a file leaves the read unchanged |
| WmdReader.NoEdgesIffAllSkipped | plot_graph.py:12-21 | a read returns an empty list without error if and only if every line is skipped |
| WmdReader.EdgesInFileOrder | data_KEP/G_visualization/plot_graph.py:8-17 | the list has one edge per accepted line, and line k's edge sits at the position given by the number of accepted lines before it: file order, no sorting, no deduplication |
| WmdReader.ParseFieldsSkippedIff | plot_graph.py:17 | the fields produce no edge and no error if and only if there are fewer than two |
| WmdReader.ParseFields | plot_graph.py:16-20 | no contract of its own; its meaning is stated by `ParseFieldsSkippedIff`, `FieldsAfterWeightIgnored` and, on whole lines, by `BadSourceIsFatal`, `BadTargetIsFatal`, `BadTargetBeforeWeightIsFatal`, `BadWeightIsFatal` and the round-trip lemmas |
| WmdReader.ParseLine | plot_graph.py:13-20 | no contract of its own; one loop iteration, whose meaning is stated by `ParseLineSkippedIff`, `IndentIsIrrelevant`, `CommentLineIsSkipped`, `BlankLineIsSkipped`, the round-trip lemmas and the rejection lemmas |
| WmdReader.Gather | plot_graph.py:5-21 | no contract of its own; the loop over line outcomes, whose meaning is stated by `GatherAppend`, `GatherSucceedsIff`, `GatherCount`, `GatherPlacesEdge` and `GatherFirstRejected` |
| WmdReader.ReadEdges | plot_graph.py:5-21 | no contract of its own; `read_wmd_edges` on the lines of a file, whose meaning is stated by `ReadEdgesSucceedsIff`, `FirstRejectedLineDecides`, `EdgesInFileOrder` and `NoEdgesIffAllSkipped`, and which `ReadWmdEdges` computes |
| WmdReader.BadSourceIsFatal | plot_graph.py:16-18 | a line whose first field is comma-free, starts with no whitespace or `#`, and is not an integer is rejected with `InvalidInt` of that field, whatever follows the first comma |
| WmdReader.BadTargetIsFatal | plot_graph.py:18 | for `u` within the digit limit, the line `u,y` with `y` not an integer is rejected with `InvalidInt(y)`, leading whitespace included (so `1, x` fails on `" x"`); `y` only must not end in whitespace, which the line's strip would cut |
| WmdReader.BadTargetBeforeWeightIsFatal | plot_graph.py:18 | for `u` within the digit limit, a line `u,y,rest` with `y` comma-free and not an integer is rejected with `InvalidInt(y)` whatever `rest` holds, so `1,x,0.5` fails on `x` before the weight is read |
| WmdReader.TrimEndAfterField | plot_graph.py:13 | stripping the end of `y,rest` only trims `rest` |
| WmdReader.BadWeightIsFatal | plot_graph.py:19 | for endpoints within the digit limit, the line `u,v,w` with `w` not a float is rejected with `InvalidFloat(w)`, leading whitespace included; `w` only must not end in whitespace, which the line's strip would cut |
| WmdReader.HugeEndpointIsFatal | plot_graph.py:18 | a line whose first endpoint has more than 4300 digits is rejected with that field, whatever follows |
| WmdReader.ControlAfterEndpointIsFatal | plot_graph.py:13-18 | a separator control between an endpoint and its comma, as in `1\x1f,2`, is not skipped: the line is rejected with the field including that character |
| WmdReader.BadSourceFailsRead | plot_graph.py:5-21 | when the first rejected line starts with a field that is not an integer, the whole read fails with `InvalidInt` of that field and returns no edges |
| WmdReader.FieldsAfterWeightIgnored | plot_graph.py:19 | only the first three fields decide the outcome |
| WmdReader.ParseLineSkippedIff | plot_graph.py:13-17 | a line is skipped if and only if, once stripped, it is blank, starts with `#`, or contains no comma |
| WmdReader.IndentIsIrrelevant | plot_graph.py:13-15 | an indented line has the same outcome as the unindented one, so indented comments are comments |
| WmdReader.CommentLineIsSkipped | data_KEP/G_visualization/plot_graph.py:9-11 | any line that starts with `#` after optional whitespace is skipped |
| WmdReader.BlankLineIsSkipped | data_KEP/G_visualization/plot_graph.py:9-11 | an empty or all-whitespace line is skipped |
| WmdReader.UnweightedLineRoundTrip | plot_graph.py:18-19 | for endpoints within the digit limit, the line `u,v` yields the edge `(u, v)` with weight exactly 1.0 |
| WmdReader.WeightedLineRoundTrip | plot_graph.py:18-19 | for endpoints within the digit limit, the line `u,v,w` yields the edge `(u, v)` with weight `float(w)` |
| WmdReader.ExtraFieldsIgnored | data_KEP/G_visualization/plot_graph.py:15 | anything after the weight field, commas included, is ignored: the line converts like `u,v,w` |
| WmdReader.RepeatedPairFile | plot_graph.py:12-21 | for endpoints within the digit limit, a file with a weighted line on `(a,b)`, an unweighted line on `(b,c)`, a comment, a blank line and a second weighted line on `(a,b)` reads as exactly those three edges, in file order, with the repeated pair kept twice |
| WmdReader.TrailingCommaIsFatal | plot_graph.py:19 | for endpoints within the digit limit, `u,v,` has an empty third field, so `float('')` fails and the read is rejected |
| DiGraphModel.DiGraph.constructor | plot_graph.py:28 | a new graph has no nodes and no edges |
| DiGraphModel.DiGraph.NumberOfNodes | plot_graph.py:33 | no contract of its own; `len(G.nodes())` is the length of the node list, which `BuildGraph` makes `NodesOf(edges)`, so `NodeCountIsDistinctEndpoints` gives it as the number of distinct endpoints |
| DiGraphModel.DiGraph.AddEdge | plot_graph.py:30 | `add_edge` appends each missing endpoint, source first, keeps the old nodes, and sets the pair's weight with nothing else changed; distinct nodes and edges between listed nodes are preserved |
| DiGraphModel.NodesOf | plot_graph.py:28-30 | no contract of its own; the node list the `add_edge` loop leaves, whose meaning is stated by `NodesOfStep`, `NodesAreEndpoints`, `NodesInFirstAppearanceOrder` and `NodeCountIsDistinctEndpoints` |
| DiGraphModel.WeightsOf | plot_graph.py:28-30 | no contract of its own; the `weight` attribute per ordered pair the loop leaves, whose meaning is stated by `WeightedPairs` and `LastWriteWins` |
| DiGraphModel.BuildGraph | plot_graph.py:28-30 | the insertion loop gives a graph whose nodes are `NodesOf(edges)` and whose weights are `WeightsOf(edges)` |
| DiGraphModel.NodesOfStep | plot_graph.py:30 | one more edge adds its source, then its target, each only if absent |
| DiGraphModel.NodesAreEndpoints | data_KEP/G_visualization/plot_graph.py:21-23 | the nodes are listed once each, and a value is a node if and only if it is an endpoint of some edge read |
| DiGraphModel.NodesInFirstAppearanceOrder | plot_graph.py:29-30 | the nodes of the first k edges are a prefix of the node list |
| DiGraphModel.NodeCountIsDistinctEndpoints | data_KEP/G_visualization/plot_graph.py:29 | `len(G.nodes())` equals the number of distinct endpoints |
| DiGraphModel.NoNodesIffNoEdges | plot_graph.py:33 | the graph has no node if and only if the edge list is empty |
| DiGraphModel.WeightedPairs | plot_graph.py:29-30 | an ordered pair has a weight if and only if some edge joins it in that direction |
| DiGraphModel.LastWriteWins | data_KEP/G_visualization/plot_graph.py:22-23 | a pair holds the weight of its last edge in the list |
| DiGraphModel.RepeatedPairGraph | plot_graph.py:29-30 | edges `(a,b)`, `(b,c)`, `(a,b)` give the nodes `[a, b, c]` and two weighted pairs, the repeated one with its later weight |
| PlotGraph.SpringArgumentsFor | plot_graph.py:33 | fails if and only if there are no nodes; otherwise seed 42 and a positive `k` with `k*k*n = 0.64`, that is `k = 0.8/sqrt(n)` |
| PlotGraph.SpacingShrinksWithSize | plot_graph.py:33 | a larger graph never gets a larger `k` |
| PlotGraph.PlotGraphFromFile | plot_graph.py:23-33 | a read error is passed on; a file with no edges fails with `ZeroNodes` before any layout; otherwise the layout receives `NodesOf` and `WeightsOf` of the edges read and the spring arguments for their node count (seed 42, `k*k*n = 0.64`) |
| PlotGraph.RepeatedPairPlot | plot_graph.py:25-33 | the file of `RepeatedPairFile`, with three distinct endpoints, gives the nodes `[a, b, c]`, the later weight on `(a,b)`, weight 1.0 on `(b,c)`, and `k*k = 0.64/3` |
| PlotGraph.CommentsOnlyFileFails | plot_graph.py:33 | a file of comments and blank lines reads as no edges, and the spacing computation then fails |
| KepPlotGraph.Max | data_KEP/G_visualization/plot_graph.py:30 | Python's `max` of two numbers is at least both and equal to one of them |
| KepPlotGraph.FigureSize | data_KEP/G_visualization/plot_graph.py:30 | the figure is at least 10 by 8 and at least `n/1.5` in both directions; each side is the floor or `n/1.5` |
| KepPlotGraph.FigureGrowsWithNodes | data_KEP/G_visualization/plot_graph.py:30 | more nodes never make either side smaller |
| KepPlotGraph.FigureFloorAndGrowth | data_KEP/G_visualization/plot_graph.py:30 | up to 15 nodes the width is 10, up to 12 the height is 8, and from 15 nodes on both sides are `n/1.5` |
| KepPlotGraph.KepPlotGraphFromFile | data_KEP/G_visualization/plot_graph.py:19-30 | a read error is passed on; otherwise the figure receives `NodesOf` and `WeightsOf` of the edges read, and `FigureSize` of the number of distinct endpoints |

## Left out

- File opening and line iteration (`open`, `for line in f`) are not modelled. A file is the sequence of its lines. Universal-newline handling is not modelled; each line's trailing newline is whitespace that `strip` removes.
- `nx.spring_layout` and `nx.kamada_kawai_layout` are not modelled. They are iterative floating-point numerics inside NetworkX. For `plot_graph.py` the model stops at the arguments `spring_layout` receives. For the `data_KEP` script the model goes up to `plt.figure`, with the layout call assumed to return; nothing is claimed about what `kamada_kawai_layout` does on an empty graph.
- Drawing, titles, `plt.axis`, `tight_layout`, `savefig` and `close` are rendering and I/O. So is the fixed `figsize=(8, 6)` of `plot_graph.py:36`.
- The `print` completion notice and the module-level calls of `plot_graph_from_file` are left out. They only do I/O on fixed file names.
- Floating point is exact reals. `Weight` keeps the real number the text denotes, with no rounding to IEEE double, no overflow to infinity, and no `-0.0`; `nan` is a single value. The same holds for the two computed quantities: `PlotGraph.SpringArgumentsFor` gives `k*k = 0.64/n` and `KepPlotGraph.FigureSize` gives `n/1.5`, both exact, where Python computes rounded doubles (`16/1.5` is `10.666666666666666`, and `0.8/n**0.5` is rounded twice).
- `int` and `float` accept only ASCII digits. Python also accepts other Unicode decimal digits; those are left out.
- `k` is represented by its square, `k*k = 0.64/n`, because the model has no exact square root on reals.
- Of NetworkX, only what `add_edge` makes visible is modelled: node order and the `weight` attribute per ordered pair. Adjacency dictionaries, other attributes and successor order are left out.
- Numbers.ParseInt: the 4300-digit limit is CPython's default since its fix for CVE-2020-10735; releases without that fix have no limit, and `sys.set_int_max_str_digits` or `PYTHONINTMAXSTRDIGITS` can change or lift it. The model fixes the default.
- WeightedLineRoundTrip: requires the weight field to have no whitespace at its end, where the line's strip would cut it; leading whitespace is allowed. RepeatedPairFile and RepeatedPairPlot require both weight fields to be trimmed at both ends.
