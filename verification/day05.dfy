/** `day-05/src/main.rs`: hydrothermal vents. Each line of the input is a
    segment `x1,y1 -> x2,y2`. The first diagram counts, for every point,
    the vertical and horizontal segments through it; the second counts
    the diagonal ones as well. Each part answers the number of points
    covered at least twice. */
module Day05 {
  import opened Common
  import opened Text

  type Point = (int, int)

  /** One segment of the input, `Input` in the source. */
  datatype Input = Input(from: Point, to: Point)

  // ---------------------------------------------------------------------
  // Parsing

  /** `parse_pair`: the first two pieces between commas, each an `i64`;
      what follows a second comma is never looked at. */
  function ParsePair(pair: string): (r: Option<Point>)
  {
    var it := Split(pair, ",");
    match ParseI64(it[0])
    case None => None
    case Some(a) =>
      if |it| < 2 then None
      else
        match ParseI64(it[1])
        case None => None
        case Some(b) => Some((a, b))
  }

  /** The text of a number has no comma and no space. */
  lemma NumberText(s: string)
    requires ParseI64(s).Some?
    ensures forall i :: 0 <= i < |s| ==> s[i] != ',' && s[i] != ' '
  {
  }

  /** An answer of `parse_pair` is two `i64` written as text with a comma
      between them, perhaps followed by another comma and anything. */
  lemma ParsePairPieces(pair: string) returns (u: string, v: string, w: string)
    requires ParsePair(pair).Some?
    ensures ParseI64(u) == Some(ParsePair(pair).value.0)
    ensures ParseI64(v) == Some(ParsePair(pair).value.1)
    ensures pair == u + "," + v || pair == u + "," + v + "," + w
  {
    var it := Split(pair, ",");
    SplitJoin(pair, ",");
    u, v := it[0], it[1];
    if |it| > 2 {
      w := Join(it[2..], ",");
      assert it[1..][1..] == it[2..];
    } else {
      w := "";
    }
  }

  /** Text with no comma is not a pair. */
  lemma ParsePairMissing(pair: string)
    requires forall i :: 0 <= i < |pair| ==> pair[i] != ','
    ensures ParsePair(pair).None?
  {
    NoOccurrence(pair, ',');
    SplitNone(pair, ",");
  }

  function PairText(p: Point): string
  {
    IntToString(p.0) + "," + IntToString(p.1)
  }

  predicate InI64(p: Point)
  {
    I64Min <= p.0 <= I64Max && I64Min <= p.1 <= I64Max
  }

  /** `parse_pair` reads back a pair written as `x,y`. */
  lemma ParsePairOfText(p: Point)
    requires InI64(p)
    ensures ParsePair(PairText(p)) == Some(p)
  {
    var a, b := IntToString(p.0), IntToString(p.1);
    ParseIntOfIntToString(p.0, I64Min, I64Max);
    ParseIntOfIntToString(p.1, I64Min, I64Max);
    NumberText(a);
    NumberText(b);
    SplitFirst(a, ",", b);
    NoOccurrence(b, ',');
    SplitNone(b, ",");
  }

  /** A line of the input: empty lines are skipped, and a line is kept
      when its first two pieces between ` -> ` are pairs. */
  function ParseLine(line: string): (r: Option<Input>)
    ensures line == [] ==> r.None?
  {
    if line == [] then None
    else
      var it := Split(line, " -> ");
      match ParsePair(it[0])
      case None => None
      case Some(from) =>
        if |it| < 2 then None
        else
          match ParsePair(it[1])
          case None => None
          case Some(to) => Some(Input(from, to))
  }

  /** The segments of the lines that parse, in order; the others are
      dropped, as `flat_map` drops them. */
  function ParseInput(lines: seq<string>): (r: seq<Input>)
    ensures |r| <= |lines|
  {
    Somes(ParseLines(lines))
  }

  /** Every line, parsed or not. */
  function ParseLines(lines: seq<string>): (r: seq<Option<Input>>)
    ensures |r| == |lines|
  {
    seq(|lines|, k requires 0 <= k < |lines| => ParseLine(lines[k]))
  }

  function LineText(l: Input): string
  {
    PairText(l.from) + " -> " + PairText(l.to)
  }

  /** The text of a pair has no space. */
  lemma PairTextChars(p: Point)
    requires InI64(p)
    ensures forall j :: 0 <= j < |PairText(p)| ==> PairText(p)[j] != ' '
  {
    var a, b := IntToString(p.0), IntToString(p.1);
    ParseIntOfIntToString(p.0, I64Min, I64Max);
    ParseIntOfIntToString(p.1, I64Min, I64Max);
    NumberText(a);
    NumberText(b);
  }

  /** The text of a segment splits at its arrow into the texts of its ends. */
  lemma SplitLineText(l: Input)
    requires InI64(l.from) && InI64(l.to)
    ensures Split(LineText(l), " -> ") == [PairText(l.from), PairText(l.to)]
  {
    var a, b := PairText(l.from), PairText(l.to);
    PairTextChars(l.from);
    PairTextChars(l.to);
    SplitFirst(a, " -> ", b);
    forall j | 0 <= j <= |b|
      ensures !OccursAt(b, " -> ", j)
    {
      if j + 4 <= |b| {
        assert b[j..j + 4][0] == b[j];
      }
    }
    SplitNone(b, " -> ");
  }

  /** A segment written as `x1,y1 -> x2,y2` reads back as itself. */
  lemma ParseLineOfText(l: Input)
    requires InI64(l.from) && InI64(l.to)
    ensures ParseLine(LineText(l)) == Some(l)
  {
    SplitLineText(l);
    ParsePairOfText(l.from);
    ParsePairOfText(l.to);
  }

  /** The lines of an input written from its segments. */
  function InputText(input: seq<Input>): (r: seq<string>)
    ensures |r| == |input|
  {
    seq(|input|, k requires 0 <= k < |input| => LineText(input[k]))
  }

  lemma ParsedText(input: seq<Input>, k: nat)
    requires k < |input| && InI64(input[k].from) && InI64(input[k].to)
    ensures ParseLines(InputText(input))[k] == Some(input[k])
  {
    ParseLineOfText(input[k]);
  }

  /** Lines written from segments read back as those segments. */
  lemma ParseInputOfText(input: seq<Input>)
    requires forall k :: 0 <= k < |input| ==> InI64(input[k].from) && InI64(input[k].to)
    ensures ParseInput(InputText(input)) == input
  {
    var parsed := ParseLines(InputText(input));
    forall k | 0 <= k < |input|
      ensures parsed[k] == Some(input[k])
    {
      ParsedText(input, k);
    }
    SomesAll(parsed, input);
  }

  // ---------------------------------------------------------------------
  // The points of a segment

  predicate Vertical(l: Input) { l.from.0 == l.to.0 }

  predicate Horizontal(l: Input) { l.from.0 != l.to.0 && l.from.1 == l.to.1 }

  predicate Diagonal(l: Input) { l.from.0 != l.to.0 && l.from.1 != l.to.1 }

  /** The direction the source steps a coordinate in, from `a` toward `b`. */
  function Step(a: int, b: int): int
  {
    if a < b then 1 else -1
  }

  /** The points the source increments for a segment, in order: a
      vertical one from its lower end up, a horizontal one from its left
      end on, and any other one from `from` toward `to`, both coordinates
      together, until either runs out. */
  function Points(l: Input): seq<Point>
  {
    var (x1, y1) := l.from;
    var (x2, y2) := l.to;
    if x1 == x2 then seq(Max(y1, y2) - Min(y1, y2) + 1, t => (x1, Min(y1, y2) + t))
    else if y1 == y2 then seq(Max(x1, x2) - Min(x1, x2) + 1, t => (Min(x1, x2) + t, y1))
    else seq(Min(Abs(x2 - x1), Abs(y2 - y1)) + 1, t => (x1 + Step(x1, x2) * t, y1 + Step(y1, y2) * t))
  }

  /** A vertical segment covers exactly the points between its ends. */
  lemma VerticalPoints(l: Input, p: Point)
    requires Vertical(l)
    ensures p in Points(l) <==> p.0 == l.from.0 && Min(l.from.1, l.to.1) <= p.1 <= Max(l.from.1, l.to.1)
  {
    if p.0 == l.from.0 && Min(l.from.1, l.to.1) <= p.1 <= Max(l.from.1, l.to.1) {
      assert Points(l)[p.1 - Min(l.from.1, l.to.1)] == p;
    }
  }

  /** A horizontal segment covers exactly the points between its ends. */
  lemma HorizontalPoints(l: Input, p: Point)
    requires Horizontal(l)
    ensures p in Points(l) <==> p.1 == l.from.1 && Min(l.from.0, l.to.0) <= p.0 <= Max(l.from.0, l.to.0)
  {
    if p.1 == l.from.1 && Min(l.from.0, l.to.0) <= p.0 <= Max(l.from.0, l.to.0) {
      assert Points(l)[p.0 - Min(l.from.0, l.to.0)] == p;
    }
  }

  /** A diagonal segment starts at `from` and stops where the coordinate
      with the shorter way reaches its end: at `to` for a segment at 45
      degrees. */
  lemma DiagonalEnds(l: Input)
    requires Diagonal(l)
    ensures Points(l)[0] == l.from
    ensures Abs(l.to.0 - l.from.0) <= Abs(l.to.1 - l.from.1) ==> Points(l)[|Points(l)| - 1].0 == l.to.0
    ensures Abs(l.to.1 - l.from.1) <= Abs(l.to.0 - l.from.0) ==> Points(l)[|Points(l)| - 1].1 == l.to.1
  {
  }

  /** `1` when the diagonal rises with x, `-1` when it falls. */
  function Slope(l: Input): int
  {
    Step(l.from.0, l.to.0) * Step(l.from.1, l.to.1)
  }

  /** A segment at 45 degrees covers exactly the points of its line whose
      x lies between its ends. */
  lemma DiagonalPoints(l: Input, p: Point)
    requires Diagonal(l) && Abs(l.to.0 - l.from.0) == Abs(l.to.1 - l.from.1)
    ensures p in Points(l) <==>
      Min(l.from.0, l.to.0) <= p.0 <= Max(l.from.0, l.to.0) && p.1 - l.from.1 == Slope(l) * (p.0 - l.from.0)
  {
    var (x1, y1) := l.from;
    var sx, sy := Step(x1, l.to.0), Step(y1, l.to.1);
    if p in Points(l) {
      var t :| 0 <= t < |Points(l)| && Points(l)[t] == p;
      assert p == (x1 + sx * t, y1 + sy * t);
      assert p.0 - x1 == sx * t;
      assert p.1 - y1 == sy * t;
      assert sx * sx == 1;
      assert Slope(l) * (p.0 - x1) == sy * (sx * sx) * t;
    }
    if Min(x1, l.to.0) <= p.0 <= Max(x1, l.to.0) && p.1 - y1 == Slope(l) * (p.0 - x1) {
      var t := sx * (p.0 - x1);
      assert 0 <= t < |Points(l)|;
      assert sx * sx == 1;
      assert x1 + sx * t == p.0;
      assert y1 + sy * t == p.1;
      assert Points(l)[t] == p;
    }
  }

  /** No point comes twice in a segment. */
  lemma PointsDistinct(l: Input)
    ensures forall i, j :: 0 <= i < j < |Points(l)| ==> Points(l)[i] != Points(l)[j]
  {
  }

  /** In a sequence without repetition, a value occurs at most once. */
  lemma {:induction false} DistinctOnce<T>(s: seq<T>, x: T)
    requires forall i, j :: 0 <= i < j < |s| ==> s[i] != s[j]
    ensures multiset(s)[x] == if x in s then 1 else 0
  {
    if s != [] {
      var n := |s| - 1;
      DistinctOnce(s[..n], x);
      assert s == s[..n] + [s[n]];
      assert s[n] !in s[..n];
    }
  }

  // ---------------------------------------------------------------------
  // The diagrams

  /** The points a segment increments in a diagram; the first diagram
      leaves diagonal segments out. */
  function Marks(l: Input, diagonals: bool): seq<Point>
  {
    if diagonals || !Diagonal(l) then Points(l) else []
  }

  /** All the increments of a diagram, segment after segment. */
  function Trace(input: seq<Input>, diagonals: bool): seq<Point>
  {
    if input == [] then []
    else Trace(input[..|input| - 1], diagonals) + Marks(input[|input| - 1], diagonals)
  }

  function Get(m: map<Point, int>, p: Point): int
  {
    if p in m then m[p] else 0
  }

  /** `*diagram.entry(p).or_insert(0) += 1`. */
  function Bump(m: map<Point, int>, p: Point): map<Point, int>
  {
    m[p := Get(m, p) + 1]
  }

  /** A diagram after the given increments, from an empty one. */
  function Tally(ps: seq<Point>): map<Point, int>
  {
    if ps == [] then map[] else Bump(Tally(ps[..|ps| - 1]), ps[|ps| - 1])
  }

  lemma TallySnoc(ps: seq<Point>, p: Point)
    ensures Tally(ps + [p]) == Bump(Tally(ps), p)
  {
    assert (ps + [p])[..|ps|] == ps;
  }

  lemma TraceSnoc(input: seq<Input>, i: nat, diagonals: bool)
    requires i < |input|
    ensures Trace(input[..i + 1], diagonals) == Trace(input[..i], diagonals) + Marks(input[i], diagonals)
  {
    assert input[..i + 1][..i] == input[..i];
  }

  /** A diagram holds, for every point, how often it was incremented, and
      only the points incremented at all. */
  lemma {:induction false} TallyAt(ps: seq<Point>, p: Point)
    ensures Get(Tally(ps), p) == multiset(ps)[p]
    ensures p in Tally(ps) <==> p in ps
  {
    if ps != [] {
      var n := |ps| - 1;
      TallyAt(ps[..n], p);
      assert ps == ps[..n] + [ps[n]];
    }
  }

  /** The number of segments of the diagram through a point. */
  function Through(input: seq<Input>, p: Point, diagonals: bool): nat
  {
    if input == [] then 0
    else Through(input[..|input| - 1], p, diagonals) + (if p in Marks(input[|input| - 1], diagonals) then 1 else 0)
  }

  /** A point is incremented once for every segment through it. */
  lemma {:induction false} TraceThrough(input: seq<Input>, p: Point, diagonals: bool)
    ensures multiset(Trace(input, diagonals))[p] == Through(input, p, diagonals)
  {
    if input != [] {
      var n := |input| - 1;
      TraceThrough(input[..n], p, diagonals);
      PointsDistinct(input[n]);
      DistinctOnce(Marks(input[n], diagonals), p);
    }
  }

  /** So a diagram's value at a point is the number of segments through it. */
  lemma DiagramThrough(input: seq<Input>, p: Point, diagonals: bool)
    ensures Get(Tally(Trace(input, diagonals)), p) == Through(input, p, diagonals)
    ensures p in Tally(Trace(input, diagonals)) <==> Through(input, p, diagonals) > 0
  {
    TallyAt(Trace(input, diagonals), p);
    TraceThrough(input, p, diagonals);
  }

  /** Fewer segments of the first diagram pass through a point. */
  lemma {:induction false} ThroughFewer(input: seq<Input>, p: Point)
    ensures Through(input, p, false) <= Through(input, p, true)
  {
    if input != [] {
      ThroughFewer(input[..|input| - 1], p);
    }
  }

  /** The first diagram is pointwise at most the second. */
  lemma DiagramsPointwise(input: seq<Input>, p: Point)
    ensures Get(Tally(Trace(input, false)), p) <= Get(Tally(Trace(input, true)), p)
  {
    DiagramThrough(input, p, false);
    DiagramThrough(input, p, true);
    ThroughFewer(input, p);
  }

  /** The loop over the segments: a vertical or horizontal one
      increments its points in both diagrams, any other one only in the
      second. */
  method Diagrams(input: seq<Input>) returns (diagram: map<Point, int>, diagram2: map<Point, int>)
    ensures diagram == Tally(Trace(input, false))
    ensures diagram2 == Tally(Trace(input, true))
  {
    diagram, diagram2 := map[], map[];
    for i := 0 to |input|
      invariant diagram == Tally(Trace(input[..i], false))
      invariant diagram2 == Tally(Trace(input[..i], true))
    {
      TraceSnoc(input, i, false);
      TraceSnoc(input, i, true);
      var l := input[i];
      if l.from.0 == l.to.0 {
        diagram := Column(l, diagram, Trace(input[..i], false));
        diagram2 := Column(l, diagram2, Trace(input[..i], true));
      } else if l.from.1 == l.to.1 {
        diagram := Row(l, diagram, Trace(input[..i], false));
        diagram2 := Row(l, diagram2, Trace(input[..i], true));
      } else {
        diagram2 := Walk(l, diagram2, Trace(input[..i], true));
        assert Trace(input[..i], false) + Marks(l, false) == Trace(input[..i], false);
      }
    }
    assert input[..|input|] == input;
  }

  /** The `for` loop of a vertical segment, along y from its lower end. */
  method Column(l: Input, diagram: map<Point, int>, ghost base: seq<Point>) returns (d: map<Point, int>)
    requires Vertical(l) && diagram == Tally(base)
    ensures d == Tally(base + Points(l))
  {
    var (x1, y1) := l.from;
    var y2 := l.to.1;
    ghost var ps := Points(l);
    d := diagram;
    assert base + ps[..0] == base;
    var lo := Min(y1, y2);
    for y := lo to Max(y1, y2) + 1
      invariant d == Tally(base + ps[..y - lo])
    {
      assert ps[y - lo] == (x1, y);
      TallySnoc(base + ps[..y - lo], (x1, y));
      assert base + ps[..y + 1 - lo] == (base + ps[..y - lo]) + [(x1, y)];
      d := Bump(d, (x1, y));
    }
    assert ps[..|ps|] == ps;
  }

  /** The `for` loop of a horizontal segment, along x from its left end. */
  method Row(l: Input, diagram: map<Point, int>, ghost base: seq<Point>) returns (d: map<Point, int>)
    requires Horizontal(l) && diagram == Tally(base)
    ensures d == Tally(base + Points(l))
  {
    var (x1, y1) := l.from;
    var x2 := l.to.0;
    ghost var ps := Points(l);
    d := diagram;
    assert base + ps[..0] == base;
    var lo := Min(x1, x2);
    for x := lo to Max(x1, x2) + 1
      invariant d == Tally(base + ps[..x - lo])
    {
      assert ps[x - lo] == (x, y1);
      TallySnoc(base + ps[..x - lo], (x, y1));
      assert base + ps[..x + 1 - lo] == (base + ps[..x - lo]) + [(x, y1)];
      d := Bump(d, (x, y1));
    }
    assert ps[..|ps|] == ps;
  }

  /** The `while let` over the two ranges of a diagonal segment: each
      yields its coordinate from `from` toward `to`, and the walk stops
      when either has nothing left. */
  method Walk(l: Input, diagram2: map<Point, int>, ghost base: seq<Point>) returns (d: map<Point, int>)
    requires Diagonal(l) && diagram2 == Tally(base)
    ensures d == Tally(base + Points(l))
  {
    var (x1, y1) := l.from;
    var (x2, y2) := l.to;
    var sx, sy := Step(x1, x2), Step(y1, y2);
    var x, y := x1, y1;
    var xLeft, yLeft := Abs(x2 - x1) + 1, Abs(y2 - y1) + 1;
    ghost var ps := Points(l);
    ghost var t := 0;
    d := diagram2;
    assert base + ps[..0] == base;
    while xLeft > 0 && yLeft > 0
      invariant xLeft == Abs(x2 - x1) + 1 - t && yLeft == Abs(y2 - y1) + 1 - t
      invariant 0 <= t <= |ps|
      invariant x == x1 + sx * t && y == y1 + sy * t
      invariant d == Tally(base + ps[..t])
      decreases xLeft
    {
      assert ps[t] == (x, y);
      TallySnoc(base + ps[..t], (x, y));
      assert ps[..t + 1] == ps[..t] + [(x, y)];
      assert base + ps[..t + 1] == (base + ps[..t]) + [(x, y)];
      d := Bump(d, (x, y));
      x, y := x + sx, y + sy;
      xLeft, yLeft := xLeft - 1, yLeft - 1;
      t := t + 1;
    }
    assert ps[..t] == ps;
  }

  // ---------------------------------------------------------------------
  // The answers

  /** The number of points the map gives a value of at least two. */
  function Overlaps(m: map<Point, int>): nat
  {
    |set p | p in m && m[p] >= 2|
  }

  /** The points at least two segments of a diagram pass through. */
  ghost function Crossings(input: seq<Input>, diagonals: bool): set<Point>
  {
    set p | p in Trace(input, diagonals) && Through(input, p, diagonals) >= 2
  }

  /** A diagram's answer is the number of points at least two of its
      segments pass through. */
  lemma OverlapsCrossings(input: seq<Input>, diagonals: bool)
    ensures Overlaps(Tally(Trace(input, diagonals))) == |Crossings(input, diagonals)|
  {
    var m := Tally(Trace(input, diagonals));
    forall p
      ensures (p in m && m[p] >= 2) <==> p in Crossings(input, diagonals)
    {
      DiagramThrough(input, p, diagonals);
      TallyAt(Trace(input, diagonals), p);
    }
    assert (set p | p in m && m[p] >= 2) == Crossings(input, diagonals);
  }

  /** Part one's answer is at most part two's. */
  lemma CrossingsFewer(input: seq<Input>)
    ensures |Crossings(input, false)| <= |Crossings(input, true)|
  {
    forall p | p in Crossings(input, false)
      ensures p in Crossings(input, true)
    {
      ThroughFewer(input, p);
      TraceThrough(input, p, true);
    }
    var a, b := Crossings(input, false), Crossings(input, true);
    assert b == a + (b - a);
  }

  /** The whole puzzle from the lines of the input. */
  method Solve(lines: seq<string>) returns (part1: nat, part2: nat)
    ensures part1 == |Crossings(ParseInput(lines), false)|
    ensures part2 == |Crossings(ParseInput(lines), true)|
    ensures part1 <= part2
  {
    var input := ParseInput(lines);
    var diagram, diagram2 := Diagrams(input);
    part1 := Overlaps(diagram);
    part2 := Overlaps(diagram2);
    OverlapsCrossings(input, false);
    OverlapsCrossings(input, true);
    CrossingsFewer(input);
  }
}
