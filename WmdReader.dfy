/**
 * The `.wmd` edge-list reader, `read_wmd_edges`. Both plotting scripts carry
 * the same function; this module models it once. A file is the sequence of
 * its lines. Each line is stripped; blank lines and lines starting with `#`
 * are skipped; the rest is split on `,`; a line with fewer than two fields is
 * skipped silently; otherwise fields 0 and 1 are converted with `int` and
 * field 2, when present, with `float` (the weight is 1.0 without it), and the
 * edge is appended. A conversion that fails aborts the whole read.
 */
module WmdReader {
  import opened Wrappers
  import opened Text
  import opened Numbers

  /** One `(u, v, w)` triple of the returned list. */
  datatype Edge = Edge(source: int, target: int, weight: Weight)

  /** The `ValueError` raised by `int(text)` or `float(text)`, with the offending field. */
  datatype ReadError = InvalidInt(text: string) | InvalidFloat(text: string)

  /** What one line contributes: nothing, one edge, or the error that ends the read. */
  datatype LineOutcome = Skipped | Accepted(edge: Edge) | Rejected(error: ReadError)

  /** The weight of a line that gives none. */
  const DefaultWeight: Weight := Finite(1.0)

  /** A stripped line that is blank or a comment. */
  predicate IsIgnorable(t: string) {
    t == [] || t[0] == '#'
  }

  /** The fields of a non-comment line, converted in the order Python evaluates them. */
  function ParseFields(parts: seq<string>): LineOutcome {
    if |parts| < 2 then Skipped
    else
      match ParseInt(parts[0])
      case None => Rejected(InvalidInt(parts[0]))
      case Some(u) =>
        match ParseInt(parts[1])
        case None => Rejected(InvalidInt(parts[1]))
        case Some(v) =>
          if |parts| > 2 then
            match ParseFloat(parts[2])
            case None => Rejected(InvalidFloat(parts[2]))
            case Some(w) => Accepted(Edge(u, v, w))
          else Accepted(Edge(u, v, DefaultWeight))
  }

  /** One iteration of the reading loop. */
  function ParseLine(line: string): LineOutcome {
    var t := Strip(line);
    if IsIgnorable(t) then Skipped else ParseFields(Split(t, ','))
  }

  /** What each line of `lines` contributes, line by line. */
  function Outcomes(lines: seq<string>): (outcomes: seq<LineOutcome>)
    ensures |outcomes| == |lines|
  {
    if lines == [] then [] else Outcomes(lines[..|lines| - 1]) + [ParseLine(lines[|lines| - 1])]
  }

  lemma {:induction false} OutcomesAt(lines: seq<string>, i: nat)
    requires i < |lines|
    ensures Outcomes(lines)[i] == ParseLine(lines[i])
  {
    if i < |lines| - 1 {
      OutcomesAt(lines[..|lines| - 1], i);
    }
  }

  /**
   * The list the reading loop builds from the outcomes of the lines, first to
   * last: accepted edges are appended, skipped lines add nothing, and the first
   * rejected line ends the read with its error.
   */
  function Gather(outcomes: seq<LineOutcome>): Result<seq<Edge>, ReadError> {
    if outcomes == [] then Success([])
    else
      match Gather(outcomes[..|outcomes| - 1])
      case Failure(err) => Failure(err)
      case Success(edges) =>
        match outcomes[|outcomes| - 1]
        case Skipped => Success(edges)
        case Accepted(e) => Success(edges + [e])
        case Rejected(err) => Failure(err)
  }

  /** `read_wmd_edges` as a function of the lines of the file. */
  function ReadEdges(lines: seq<string>): Result<seq<Edge>, ReadError> {
    Gather(Outcomes(lines))
  }

  /** Reading one part of a file after another: the first failure wins, edges concatenate. */
  function Then(first: Result<seq<Edge>, ReadError>, second: Result<seq<Edge>, ReadError>): Result<seq<Edge>, ReadError> {
    match first
    case Failure(_) => first
    case Success(xs) =>
      match second
      case Failure(_) => second
      case Success(ys) => Success(xs + ys)
  }

  /** The number of outcomes that are edges. */
  function AcceptedCount(outcomes: seq<LineOutcome>): nat {
    if outcomes == [] then 0
    else AcceptedCount(outcomes[..|outcomes| - 1]) + (if outcomes[|outcomes| - 1].Accepted? then 1 else 0)
  }

  /** `read_wmd_edges` run on the lines of a file. */
  method ReadWmdEdges(lines: seq<string>) returns (r: Result<seq<Edge>, ReadError>)
    ensures r == ReadEdges(lines)
  {
    ghost var outcomes := Outcomes(lines);
    var edges: seq<Edge> := [];
    var i := 0;
    while i < |lines|
      invariant 0 <= i <= |lines|
      invariant Gather(outcomes[..i]) == Success(edges)
    {
      assert outcomes[..i + 1][..i] == outcomes[..i];
      OutcomesAt(lines, i);
      var line := Strip(lines[i]);
      if line != [] && line[0] != '#' {
        var parts := Split(line, ',');
        if |parts| >= 2 {
          var u := ParseInt(parts[0]);
          if u.None? {
            r := Failure(InvalidInt(parts[0]));
            GatherFailureIsFinal(outcomes, i + 1);
            return;
          }
          var v := ParseInt(parts[1]);
          if v.None? {
            r := Failure(InvalidInt(parts[1]));
            GatherFailureIsFinal(outcomes, i + 1);
            return;
          }
          var w := DefaultWeight;
          if |parts| > 2 {
            var parsed := ParseFloat(parts[2]);
            if parsed.None? {
              r := Failure(InvalidFloat(parts[2]));
              GatherFailureIsFinal(outcomes, i + 1);
              return;
            }
            w := parsed.value;
          }
          edges := edges + [Edge(u.value, v.value, w)];
        }
      }
      i := i + 1;
    }
    assert outcomes[..i] == outcomes;
    r := Success(edges);
  }

  /** `Outcomes` is the line-by-line outcome: any sequence agreeing with it at every line is it. */
  lemma {:induction false} OutcomesFromLines(lines: seq<string>, outcomes: seq<LineOutcome>)
    requires |outcomes| == |lines|
    requires forall i :: 0 <= i < |lines| ==> ParseLine(lines[i]) == outcomes[i]
    ensures Outcomes(lines) == outcomes
  {
    forall i | 0 <= i < |lines| ensures Outcomes(lines)[i] == outcomes[i] {
      OutcomesAt(lines, i);
    }
  }

  lemma {:induction false} OutcomesAppend(a: seq<string>, b: seq<string>)
    ensures Outcomes(a + b) == Outcomes(a) + Outcomes(b)
    decreases |b|
  {
    if b == [] {
      assert a + b == a;
    } else {
      var b' := b[..|b| - 1];
      assert (a + b)[..|a + b| - 1] == a + b';
      assert (a + b)[|a + b| - 1] == b[|b| - 1];
      OutcomesAppend(a, b');
    }
  }

  /** Gathering is compositional: the outcome of a whole is that of its parts in order. */
  lemma {:induction false} GatherAppend(a: seq<LineOutcome>, b: seq<LineOutcome>)
    ensures Gather(a + b) == Then(Gather(a), Gather(b))
    decreases |b|
  {
    if b == [] {
      assert a + b == a;
      if Gather(a).Success? {
        assert Gather(a).value + [] == Gather(a).value;
      }
    } else {
      var b' := b[..|b| - 1];
      assert (a + b)[..|a + b| - 1] == a + b';
      assert (a + b)[|a + b| - 1] == b[|b| - 1];
      GatherAppend(a, b');
      if Gather(a).Success? && Gather(b').Success? && b[|b| - 1].Accepted? {
        var e := b[|b| - 1].edge;
        assert Gather(a).value + (Gather(b').value + [e]) == Gather(a).value + Gather(b').value + [e];
      }
    }
  }

  lemma {:induction false} GatherFailureIsFinal(outcomes: seq<LineOutcome>, k: nat)
    requires k <= |outcomes|
    requires Gather(outcomes[..k]).Failure?
    ensures Gather(outcomes) == Gather(outcomes[..k])
  {
    GatherAppend(outcomes[..k], outcomes[k..]);
    assert outcomes[..k] + outcomes[k..] == outcomes;
  }

  lemma {:induction false} GatherSucceedsIff(outcomes: seq<LineOutcome>)
    ensures Gather(outcomes).Success? <==> forall i :: 0 <= i < |outcomes| ==> !outcomes[i].Rejected?
  {
    if outcomes != [] {
      var init := outcomes[..|outcomes| - 1];
      GatherSucceedsIff(init);
      assert forall i :: 0 <= i < |init| ==> init[i] == outcomes[i];
    }
  }

  lemma {:induction false} GatherCount(outcomes: seq<LineOutcome>)
    requires Gather(outcomes).Success?
    ensures |Gather(outcomes).value| == AcceptedCount(outcomes)
  {
    if outcomes != [] {
      GatherCount(outcomes[..|outcomes| - 1]);
    }
  }

  lemma {:induction false} GatherPlacesEdge(outcomes: seq<LineOutcome>, k: nat)
    requires Gather(outcomes).Success?
    requires k < |outcomes| && outcomes[k].Accepted?
    ensures AcceptedCount(outcomes[..k]) < |Gather(outcomes).value|
    ensures Gather(outcomes).value[AcceptedCount(outcomes[..k])] == outcomes[k].edge
  {
    var init := outcomes[..|outcomes| - 1];
    GatherCount(outcomes);
    if k < |outcomes| - 1 {
      assert init[..k] == outcomes[..k];
      GatherPlacesEdge(init, k);
    } else {
      assert init == outcomes[..k];
      GatherCount(init);
    }
  }

  /** Reading a file is reading its first part and then its second. */
  lemma {:induction false} ReadEdgesAppend(a: seq<string>, b: seq<string>)
    ensures ReadEdges(a + b) == Then(ReadEdges(a), ReadEdges(b))
  {
    OutcomesAppend(a, b);
    GatherAppend(Outcomes(a), Outcomes(b));
  }

  /** A file reads exactly when none of its lines is rejected. */
  lemma {:induction false} ReadEdgesSucceedsIff(lines: seq<string>)
    ensures ReadEdges(lines).Success? <==> forall i :: 0 <= i < |lines| ==> !ParseLine(lines[i]).Rejected?
  {
    GatherSucceedsIff(Outcomes(lines));
    forall i | 0 <= i < |lines| ensures Outcomes(lines)[i] == ParseLine(lines[i]) {
      OutcomesAt(lines, i);
    }
  }

  lemma {:induction false} GatherFirstRejected(outcomes: seq<LineOutcome>, k: nat)
    requires k < |outcomes| && outcomes[k].Rejected?
    requires forall j :: 0 <= j < k ==> !outcomes[j].Rejected?
    ensures Gather(outcomes) == Failure(outcomes[k].error)
  {
    var before := outcomes[..k];
    assert forall j :: 0 <= j < k ==> before[j] == outcomes[j];
    GatherSucceedsIff(before);
    assert outcomes[..k + 1][..k] == before;
    GatherFailureIsFinal(outcomes, k + 1);
  }

  /** The error of a failed read is the one of the first rejected line; later lines do not matter. */
  lemma {:induction false} FirstRejectedLineDecides(lines: seq<string>, k: nat)
    requires k < |lines|
    requires ParseLine(lines[k]).Rejected?
    requires forall j :: 0 <= j < k ==> !ParseLine(lines[j]).Rejected?
    ensures ReadEdges(lines) == Failure(ParseLine(lines[k]).error)
  {
    var outcomes := Outcomes(lines);
    forall j | 0 <= j < k ensures outcomes[j] == ParseLine(lines[j]) {
      OutcomesAt(lines, j);
    }
    OutcomesAt(lines, k);
    GatherFirstRejected(outcomes, k);
  }

  /** A skipped line, wherever it stands, changes nothing about the read. */
  lemma {:induction false} SkippedLineIsInert(a: seq<string>, line: string, b: seq<string>)
    requires ParseLine(line) == Skipped
    ensures ReadEdges(a + [line] + b) == ReadEdges(a + b)
  {
    ReadEdgesAppend(a + [line], b);
    ReadEdgesAppend(a, [line]);
    ReadEdgesAppend(a, b);
    assert [line][..0] == [];
    assert Outcomes([line]) == [Skipped];
    assert [Skipped][..0] == [];
    if ReadEdges(a).Success? {
      assert ReadEdges(a).value + [] == ReadEdges(a).value;
    }
  }

  lemma {:induction false} GatherAllSkipped(outcomes: seq<LineOutcome>)
    requires forall i :: 0 <= i < |outcomes| ==> outcomes[i] == Skipped
    ensures Gather(outcomes) == Success([])
  {
    if outcomes != [] {
      var init := outcomes[..|outcomes| - 1];
      assert forall i :: 0 <= i < |init| ==> init[i] == outcomes[i];
      GatherAllSkipped(init);
    }
  }

  /** A read yields no edge and no error exactly when every line is skipped. */
  lemma {:induction false} NoEdgesIffAllSkipped(lines: seq<string>)
    ensures ReadEdges(lines) == Success([]) <==> forall i :: 0 <= i < |lines| ==> ParseLine(lines[i]) == Skipped
  {
    var outcomes := Outcomes(lines);
    forall i | 0 <= i < |lines| ensures outcomes[i] == ParseLine(lines[i]) {
      OutcomesAt(lines, i);
    }
    if forall i :: 0 <= i < |lines| ==> ParseLine(lines[i]) == Skipped {
      GatherAllSkipped(outcomes);
    }
    if ReadEdges(lines) == Success([]) {
      GatherSucceedsIff(outcomes);
      forall i | 0 <= i < |lines| ensures ParseLine(lines[i]) == Skipped {
        if outcomes[i].Accepted? {
          GatherPlacesEdge(outcomes, i);
        }
      }
    }
  }

  /**
   * A successful read returns one edge per accepted line, in file order: the
   * edge of line `k` comes right after the edges of the accepted lines before it.
   */
  lemma {:induction false} EdgesInFileOrder(lines: seq<string>, k: nat)
    requires ReadEdges(lines).Success?
    requires k < |lines| && ParseLine(lines[k]).Accepted?
    ensures |ReadEdges(lines).value| == AcceptedCount(Outcomes(lines))
    ensures AcceptedCount(Outcomes(lines[..k])) < |ReadEdges(lines).value|
    ensures ReadEdges(lines).value[AcceptedCount(Outcomes(lines[..k]))] == ParseLine(lines[k]).edge
  {
    var outcomes := Outcomes(lines);
    OutcomesAppend(lines[..k], lines[k..]);
    assert lines[..k] + lines[k..] == lines;
    assert Outcomes(lines[..k]) == outcomes[..k];
    OutcomesAt(lines, k);
    GatherCount(outcomes);
    GatherPlacesEdge(outcomes, k);
  }

  lemma {:induction false} ParseFieldsSkippedIff(parts: seq<string>)
    ensures ParseFields(parts).Skipped? <==> |parts| < 2
  {
  }

  /** Only the first three fields of a line are ever looked at. */
  lemma {:induction false} FieldsAfterWeightIgnored(parts: seq<string>)
    requires |parts| >= 3
    ensures ParseFields(parts) == ParseFields(parts[..3])
  {
    assert parts[..3][0] == parts[0] && parts[..3][1] == parts[1] && parts[..3][2] == parts[2];
  }

  /** A line is skipped exactly when, stripped, it is blank, a comment, or has no comma. */
  lemma {:induction false} ParseLineSkippedIff(line: string)
    ensures ParseLine(line) == Skipped <==> (IsIgnorable(Strip(line)) || ',' !in Strip(line))
  {
    var t := Strip(line);
    SplitSingleField(t, ',');
    ParseFieldsSkippedIff(Split(t, ','));
  }

  /** Indentation is irrelevant: an indented comment is a comment, an indented edge the same edge. */
  lemma {:induction false} IndentIsIrrelevant(indent: string, line: string)
    requires AllWhitespace(indent)
    ensures ParseLine(indent + line) == ParseLine(line)
  {
    StripIgnoresIndent(indent, line);
  }

  /** A comment line, indented or not, is skipped whatever follows its `#`. */
  lemma {:induction false} CommentLineIsSkipped(indent: string, text: string)
    requires AllWhitespace(indent)
    ensures ParseLine(indent + ['#'] + text) == Skipped
  {
    var s := ['#'] + text;
    assert indent + ['#'] + text == indent + s;
    IndentIsIrrelevant(indent, s);
    var before, after := StripDecomposes(s);
    assert Strip(s)[0] == s[0];
  }

  /** A line of whitespace only, the empty line included, is skipped. */
  lemma {:induction false} BlankLineIsSkipped(line: string)
    requires AllWhitespace(line)
    ensures ParseLine(line) == Skipped
  {
    assert line + [] + [] == line;
    StripSurrounded(line, [], []);
  }

  lemma {:induction false} IntToStringIsTrimmed(n: int)
    ensures |IntToString(n)| > 0
    ensures !IsWhitespace(IntToString(n)[0]) && IntToString(n)[0] != '#'
    ensures !IsWhitespace(IntToString(n)[|IntToString(n)| - 1])
    ensures ',' !in IntToString(n)
  {
    NatToStringDigits(if n < 0 then -n else n);
  }

  /** A line already stripped and not a comment is converted field by field. */
  lemma {:induction false} TrimmedLineFields(line: string, parts: seq<string>)
    requires Trimmed(line) && !IsIgnorable(line)
    requires Split(line, ',') == parts
    ensures ParseLine(line) == ParseFields(parts)
  {
    assert [] + line + [] == line;
    StripSurrounded([], line, []);
  }

  /** A line `u,v` written from two integers yields the edge `(u, v)` with weight 1.0. */
  lemma {:induction false} UnweightedLineRoundTrip(u: int, v: int)
    requires WithinDigitLimit(u) && WithinDigitLimit(v)
    ensures ParseLine(Join([IntToString(u), IntToString(v)], ',')) == Accepted(Edge(u, v, DefaultWeight))
  {
    var x, y := IntToString(u), IntToString(v);
    var line := Join([x, y], ',');
    assert [x, y][1..] == [y];
    assert Join([y], ',') == y;
    assert line == x + [','] + y;
    assert Trimmed(line) && !IsIgnorable(line) && ',' !in x && ',' !in y by {
      IntToStringIsTrimmed(u);
      IntToStringIsTrimmed(v);
      assert line[0] == x[0];
      assert line[|line| - 1] == y[|y| - 1];
    }
    SplitJoin([x, y], ',');
    TrimmedLineFields(line, [x, y]);
    assert ParseInt(x) == Some(u) && ParseInt(y) == Some(v) by {
      ParseIntRoundTrip(u);
      ParseIntRoundTrip(v);
    }
  }

  /** A line `u,v,w` yields the edge `(u, v)` with the weight `float(w)`. */
  lemma {:induction false} WeightedLineRoundTrip(u: int, v: int, w: string)
    requires WithinDigitLimit(u) && WithinDigitLimit(v)
    requires ',' !in w && (w == [] || !IsWhitespace(w[|w| - 1])) && ParseFloat(w).Some?
    ensures ParseLine(Join([IntToString(u), IntToString(v), w], ',')) == Accepted(Edge(u, v, ParseFloat(w).value))
  {
    var x, y := IntToString(u), IntToString(v);
    var line := Join([x, y, w], ',');
    assert [x, y, w][1..] == [y, w] && [y, w][1..] == [w];
    assert Join([y, w], ',') == y + [','] + w;
    assert line == x + [','] + (y + [','] + w);
    assert w != [] by {
      if w == [] { BlankIsNotANumber(w); }
    }
    assert Trimmed(line) && !IsIgnorable(line) && ',' !in x && ',' !in y by {
      IntToStringIsTrimmed(u);
      IntToStringIsTrimmed(v);
      assert line[0] == x[0];
      assert line[|line| - 1] == w[|w| - 1];
    }
    SplitJoin([x, y, w], ',');
    TrimmedLineFields(line, [x, y, w]);
    assert ParseInt(x) == Some(u) && ParseInt(y) == Some(v) by {
      ParseIntRoundTrip(u);
      ParseIntRoundTrip(v);
    }
  }

  /** Stripping a line `x,y,w,rest` whose first field starts with no whitespace only trims the end of `rest`. */
  lemma {:induction false} StripFourFields(x: string, y: string, w: string, rest: string)
    requires x != [] && !IsWhitespace(x[0])
    ensures Strip(Join([x, y, w, rest], ',')) == x + [','] + (y + [','] + (w + [','] + TrimEnd(rest)))
  {
    var r := TrimEnd(rest);
    TrimEndFacts(rest);
    var tail := rest[|r|..];
    var kept := x + [','] + (y + [','] + (w + [','] + r));
    var line := Join([x, y, w, rest], ',');
    assert Trimmed(kept) by {
      assert kept[0] == x[0];
      assert kept[|kept| - 1] == if r == [] then ',' else r[|r| - 1];
    }
    assert [x, y, w, rest][1..] == [y, w, rest] && [y, w, rest][1..] == [w, rest] && [w, rest][1..] == [rest];
    assert Join([w, rest], ',') == w + [','] + rest;
    assert Join([y, w, rest], ',') == y + [','] + (w + [','] + rest);
    assert line == x + [','] + (y + [','] + (w + [','] + rest));
    assert r + tail == rest;
    assert line == [] + kept + tail;
    StripSurrounded([], kept, tail);
  }

  /** The fields of `x,y,w,r` for comma-free `x`, `y`, `w` are those three, then the fields of `r`. */
  lemma {:induction false} SplitAfterThreeFields(x: string, y: string, w: string, r: string)
    requires ',' !in x && ',' !in y && ',' !in w
    ensures Split(x + [','] + (y + [','] + (w + [','] + r)), ',') == [x, y, w] + Split(r, ',')
  {
    var p3, p2 := w + [','] + r, y + [','] + (w + [','] + r);
    SplitAfterField(w, ',', r);
    SplitAfterField(y, ',', p3);
    SplitAfterField(x, ',', p2);
    ConsThree(x, y, w, Split(r, ','));
  }

  /** Whatever follows the weight field, commas included, is ignored. */
  lemma {:induction false} ExtraFieldsIgnored(u: int, v: int, w: string, rest: string)
    requires ',' !in w
    ensures ParseLine(Join([IntToString(u), IntToString(v), w, rest], ','))
         == ParseFields([IntToString(u), IntToString(v), w])
  {
    var x, y := IntToString(u), IntToString(v);
    var kept := x + [','] + (y + [','] + (w + [','] + TrimEnd(rest)));
    var parts := [x, y, w] + Split(TrimEnd(rest), ',');
    assert ParseLine(Join([x, y, w, rest], ',')) == ParseFields(parts) by {
      IntToStringIsTrimmed(u);
      IntToStringIsTrimmed(v);
      StripFourFields(x, y, w, rest);
      assert kept[0] == x[0];
      SplitAfterThreeFields(x, y, w, TrimEnd(rest));
    }
    FieldsAfterWeightIgnored(parts);
    assert parts[..3] == [x, y, w];
  }

  lemma ConsThree<T>(a: T, b: T, c: T, s: seq<T>)
    ensures [a] + ([b] + ([c] + s)) == [a, b, c] + s
  {
  }

  /** A trailing comma after the endpoints is fatal: `float('')` raises. */
  lemma {:induction false} TrailingCommaIsFatal(u: int, v: int)
    requires WithinDigitLimit(u) && WithinDigitLimit(v)
    ensures ParseLine(Join([IntToString(u), IntToString(v), ""], ',')) == Rejected(InvalidFloat(""))
  {
    var x, y := IntToString(u), IntToString(v);
    var line := Join([x, y, ""], ',');
    assert [x, y, ""][1..] == [y, ""] && [y, ""][1..] == [""];
    assert Join([y, ""], ',') == y + [','] + "";
    assert line == x + [','] + (y + [','] + "");
    assert Trimmed(line) && !IsIgnorable(line) && ',' !in x && ',' !in y by {
      IntToStringIsTrimmed(u);
      IntToStringIsTrimmed(v);
      assert line[0] == x[0];
    }
    SplitJoin([x, y, ""], ',');
    TrimmedLineFields(line, [x, y, ""]);
    assert ParseInt(x) == Some(u) && ParseInt(y) == Some(v) by {
      ParseIntRoundTrip(u);
      ParseIntRoundTrip(v);
    }
    BlankIsNotANumber("");
  }

  /**
   * A line whose first field is not an integer is rejected with that field,
   * whatever follows the first comma: `int` of the source fails before the
   * target or the weight is looked at.
   */
  lemma {:induction false} BadSourceIsFatal(x: string, rest: string)
    requires ',' !in x
    requires x == [] || (!IsWhitespace(x[0]) && x[0] != '#')
    requires ParseInt(x).None?
    ensures ParseLine(x + [','] + rest) == Rejected(InvalidInt(x))
  {
    var kept := x + [','] + TrimEnd(rest);
    var parts := [x] + Split(TrimEnd(rest), ',');
    assert ParseLine(x + [','] + rest) == ParseFields(parts) by {
      StripAfterFirstField(x, rest);
      assert kept[0] == if x == [] then ',' else x[0];
      SplitAfterField(x, ',', TrimEnd(rest));
    }
    assert |parts| >= 2 && parts[0] == x;
  }

  /** Stripping a line `x,rest` whose first field starts with no whitespace only trims the end of `rest`. */
  lemma {:induction false} StripAfterFirstField(x: string, rest: string)
    requires x == [] || !IsWhitespace(x[0])
    ensures Strip(x + [','] + rest) == x + [','] + TrimEnd(rest)
  {
    var r := TrimEnd(rest);
    TrimEndFacts(rest);
    var tail := rest[|r|..];
    var kept := x + [','] + r;
    assert Trimmed(kept) by {
      assert kept[0] == if x == [] then ',' else x[0];
      assert kept[|kept| - 1] == if r == [] then ',' else r[|r| - 1];
    }
    assert r + tail == rest;
    assert x + [','] + rest == [] + kept + tail;
    StripSurrounded([], kept, tail);
  }

  /** A line `u,y` whose second field is not an integer is rejected with that field. */
  lemma {:induction false} BadTargetIsFatal(u: int, y: string)
    requires WithinDigitLimit(u)
    requires ',' !in y && (y == [] || !IsWhitespace(y[|y| - 1])) && ParseInt(y).None?
    ensures ParseLine(Join([IntToString(u), y], ',')) == Rejected(InvalidInt(y))
  {
    var x := IntToString(u);
    var line := Join([x, y], ',');
    assert [x, y][1..] == [y];
    assert Join([y], ',') == y;
    assert line == x + [','] + y;
    assert Trimmed(line) && !IsIgnorable(line) && ',' !in x by {
      IntToStringIsTrimmed(u);
      assert line[0] == x[0];
      assert line[|line| - 1] == if y == [] then ',' else y[|y| - 1];
    }
    SplitJoin([x, y], ',');
    TrimmedLineFields(line, [x, y]);
    ParseIntRoundTrip(u);
  }

  /**
   * A bad second field is fatal also when more fields follow it, as in
   * `1,x,0.5`: `int` of the target fails before the weight is looked at.
   */
  lemma {:induction false} BadTargetBeforeWeightIsFatal(u: int, y: string, rest: string)
    requires WithinDigitLimit(u)
    requires ',' !in y && ParseInt(y).None?
    ensures ParseLine(IntToString(u) + [','] + (y + [','] + rest)) == Rejected(InvalidInt(y))
  {
    var x := IntToString(u);
    var r := TrimEnd(rest);
    var parts := [x] + ([y] + Split(r, ','));
    assert ParseLine(x + [','] + (y + [','] + rest)) == ParseFields(parts) by {
      IntToStringIsTrimmed(u);
      StripAfterFirstField(x, y + [','] + rest);
      TrimEndAfterField(y, rest);
      assert (x + [','] + (y + [','] + r))[0] == x[0];
      SplitAfterField(y, ',', r);
      SplitAfterField(x, ',', y + [','] + r);
    }
    assert parts[0] == x && parts[1] == y;
    ParseIntRoundTrip(u);
  }

  /** Trimming the end of `y,rest` only reaches `rest`. */
  lemma {:induction false} TrimEndAfterField(y: string, rest: string)
    ensures TrimEnd(y + [','] + rest) == y + [','] + TrimEnd(rest)
  {
    var r := TrimEnd(rest);
    TrimEndFacts(rest);
    var tail := rest[|r|..];
    var kept := y + [','] + r;
    assert kept[|kept| - 1] == if r == [] then ',' else r[|r| - 1];
    assert r + tail == rest;
    assert y + [','] + rest == kept + tail;
    TrimEndOfWhitespaceSuffix(kept, tail);
  }

  /** A line `u,v,w` whose weight field is not a float is rejected with that field. */
  lemma {:induction false} BadWeightIsFatal(u: int, v: int, w: string)
    requires WithinDigitLimit(u) && WithinDigitLimit(v)
    requires ',' !in w && (w == [] || !IsWhitespace(w[|w| - 1])) && ParseFloat(w).None?
    ensures ParseLine(Join([IntToString(u), IntToString(v), w], ',')) == Rejected(InvalidFloat(w))
  {
    var x, y := IntToString(u), IntToString(v);
    var line := Join([x, y, w], ',');
    assert [x, y, w][1..] == [y, w] && [y, w][1..] == [w];
    assert Join([y, w], ',') == y + [','] + w;
    assert line == x + [','] + (y + [','] + w);
    assert Trimmed(line) && !IsIgnorable(line) && ',' !in x && ',' !in y by {
      IntToStringIsTrimmed(u);
      IntToStringIsTrimmed(v);
      assert line[0] == x[0];
      assert line[|line| - 1] == if w == [] then ',' else w[|w| - 1];
    }
    SplitJoin([x, y, w], ',');
    TrimmedLineFields(line, [x, y, w]);
    assert ParseInt(x) == Some(u) && ParseInt(y) == Some(v) by {
      ParseIntRoundTrip(u);
      ParseIntRoundTrip(v);
    }
  }

  /**
   * A separator control after an endpoint is not whitespace to `int`: the line
   * `1\x1f,2` is rejected with the field `1\x1f`, although the same character
   * at the end of the line would have been stripped.
   */
  lemma {:induction false} ControlAfterEndpointIsFatal(n: int, c: char, rest: string)
    requires '\U{1c}' <= c <= '\U{1f}'
    ensures ParseLine(IntToString(n) + [c] + [','] + rest) == Rejected(InvalidInt(IntToString(n) + [c]))
  {
    var x := IntToString(n) + [c];
    IntToStringIsTrimmed(n);
    SeparatorControlIsNotSpace(IntToString(n), c);
    assert x[0] == IntToString(n)[0];
    BadSourceIsFatal(x, rest);
  }

  /**
   * An endpoint whose decimal text has more digits than `int` allows is
   * fatal: the line is rejected with that field.
   */
  lemma {:induction false} HugeEndpointIsFatal(n: int, rest: string)
    requires !WithinDigitLimit(n)
    ensures ParseLine(IntToString(n) + [','] + rest) == Rejected(InvalidInt(IntToString(n)))
  {
    IntToStringIsTrimmed(n);
    ParseIntRoundTrip(n);
    BadSourceIsFatal(IntToString(n), rest);
  }

  /**
   * At file level: when the first rejected line starts with a field that is not
   * an integer, the whole read fails with that field, and no edge is returned.
   */
  lemma {:induction false} BadSourceFailsRead(lines: seq<string>, k: nat, x: string, rest: string)
    requires k < |lines| && lines[k] == x + [','] + rest
    requires ',' !in x
    requires x == [] || (!IsWhitespace(x[0]) && x[0] != '#')
    requires ParseInt(x).None?
    requires forall j :: 0 <= j < k ==> !ParseLine(lines[j]).Rejected?
    ensures ReadEdges(lines) == Failure(InvalidInt(x))
  {
    BadSourceIsFatal(x, rest);
    FirstRejectedLineDecides(lines, k);
  }

  /** Two accepted outcomes, two skipped ones and a third accepted one gather into the three edges. */
  lemma {:induction false} GatherThreeOfFive(e1: Edge, e2: Edge, e3: Edge)
    ensures Gather([Accepted(e1), Accepted(e2), Skipped, Skipped, Accepted(e3)]) == Success([e1, e2, e3])
  {
    var o1, o2, o3, o4, o5 := Accepted(e1), Accepted(e2), Skipped, Skipped, Accepted(e3);
    assert [o1, o2, o3, o4, o5][..4] == [o1, o2, o3, o4];
    assert [o1, o2, o3, o4][..3] == [o1, o2, o3];
    assert [o1, o2, o3][..2] == [o1, o2];
    assert [o1, o2][..1] == [o1];
    assert [o1][..0] == [];
    assert [] + [e1] == [e1] && [e1] + [e2] == [e1, e2] && [e1, e2] + [e3] == [e1, e2, e3];
    assert Gather([o1]) == Success([e1]);
    assert Gather([o1, o2]) == Success([e1, e2]);
    assert Gather([o1, o2, o3]) == Success([e1, e2]);
    assert Gather([o1, o2, o3, o4]) == Success([e1, e2]);
  }

  /**
   * A five-line file with a repeated pair: a weighted line on `(a, b)`, an
   * unweighted line on `(b, c)`, a comment, a blank line, and a second
   * weighted line on `(a, b)`.
   */
  function RepeatedPairLines(a: int, b: int, c: int, w1: string, w2: string, comment: string): seq<string> {
    [ Join([IntToString(a), IntToString(b), w1], ','),
      Join([IntToString(b), IntToString(c)], ','),
      ['#'] + comment,
      [],
      Join([IntToString(a), IntToString(b), w2], ',') ]
  }

  lemma {:induction false} RepeatedPairOutcomes(a: int, b: int, c: int, w1: string, w2: string, comment: string)
    requires WithinDigitLimit(a) && WithinDigitLimit(b) && WithinDigitLimit(c)
    requires ',' !in w1 && Trimmed(w1) && ParseFloat(w1).Some?
    requires ',' !in w2 && Trimmed(w2) && ParseFloat(w2).Some?
    ensures Outcomes(RepeatedPairLines(a, b, c, w1, w2, comment)) == [
      Accepted(Edge(a, b, ParseFloat(w1).value)), Accepted(Edge(b, c, DefaultWeight)),
      Skipped, Skipped, Accepted(Edge(a, b, ParseFloat(w2).value))]
  {
    var lines := RepeatedPairLines(a, b, c, w1, w2, comment);
    var outcomes := [
      Accepted(Edge(a, b, ParseFloat(w1).value)), Accepted(Edge(b, c, DefaultWeight)),
      Skipped, Skipped, Accepted(Edge(a, b, ParseFloat(w2).value))];
    forall i | 0 <= i < 5 ensures ParseLine(lines[i]) == outcomes[i] {
      if i == 0 {
        WeightedLineRoundTrip(a, b, w1);
      } else if i == 1 {
        UnweightedLineRoundTrip(b, c);
      } else if i == 2 {
        CommentLineIsSkipped([], comment);
        assert [] + ['#'] + comment == lines[2];
      } else if i == 3 {
        BlankLineIsSkipped(lines[3]);
      } else {
        WeightedLineRoundTrip(a, b, w2);
      }
    }
    OutcomesFromLines(lines, outcomes);
  }

  /**
   * The five-line file with a repeated pair reads as exactly its three edge lines, in file order; the
   * comment and the blank line add nothing and the repeated pair is kept twice.
   */
  lemma {:induction false} RepeatedPairFile(a: int, b: int, c: int, w1: string, w2: string, comment: string)
    requires WithinDigitLimit(a) && WithinDigitLimit(b) && WithinDigitLimit(c)
    requires ',' !in w1 && Trimmed(w1) && ParseFloat(w1).Some?
    requires ',' !in w2 && Trimmed(w2) && ParseFloat(w2).Some?
    ensures ReadEdges(RepeatedPairLines(a, b, c, w1, w2, comment))
      == Success([Edge(a, b, ParseFloat(w1).value), Edge(b, c, DefaultWeight), Edge(a, b, ParseFloat(w2).value)])
  {
    RepeatedPairOutcomes(a, b, c, w1, w2, comment);
    GatherThreeOfFive(Edge(a, b, ParseFloat(w1).value), Edge(b, c, DefaultWeight), Edge(a, b, ParseFloat(w2).value));
  }
}
