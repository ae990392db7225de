/** `day-15/src/main.rs`: the lowest total risk of a path through a cave
    of risk levels, from the top-left corner to the bottom-right one,
    found by Dijkstra's algorithm over a priority queue. Part two tiles
    the cave five times in each direction, each tile one risk level
    higher than the tile before it, wrapping from 9 back to 1. */
module Day15 {
  import opened Common

  /** A position `(x, y)`, column first. */
  type Pos = (int, int)

  /** `OFFSETS`: right, down, left, up. */
  const Offsets: seq<Pos> := [(1, 0), (0, 1), (-1, 0), (0, -1)]

  /** `i64::MAX`, the weight of a position not reached yet. */
  const I64Max: int := 0x7fff_ffff_ffff_ffff

  const UsizeModulus: int := 0x1_0000_0000_0000_0000

  function Add(a: Pos, b: Pos): Pos
  {
    (a.0 + b.0, a.1 + b.1)
  }

  /** `v as usize` for a 64-bit `v`: a negative value wraps around to a
      very large one. */
  function Usize(v: int): (r: nat)
    ensures r < UsizeModulus
    ensures 0 <= v < UsizeModulus ==> r == v
    ensures -UsizeModulus <= v < 0 ==> r == v + UsizeModulus
  {
    v % UsizeModulus
  }

  /** A value of type `i64`. */
  predicate I64(v: int)
  {
    -UsizeModulus / 2 <= v < UsizeModulus / 2
  }

  /** No more rows, and no longer rows, than `i64` can count. */
  predicate Fits(grid: seq<seq<int>>)
  {
    |grid| <= UsizeModulus / 2 && forall y :: 0 <= y < |grid| ==> |grid[y]| <= UsizeModulus / 2
  }

  /** `offset`: the risk at `pos + d`. Plain, the position must lie on the
      grid. Tiled (`extend`), the position is reduced modulo the first
      row's length and the number of rows, and the risk goes up by one for
      every tile to the right or down, wrapping from 9 to 1. */
  function Offset(grid: seq<seq<int>>, pos: Pos, d: Pos, extend: bool): Option<int>
    requires extend ==> |grid| > 0 && |grid[0]| > 0
  {
    var x, y := Usize(pos.0 + d.0), Usize(pos.1 + d.1);
    if extend then
      var penalty := x / |grid[0]| + y / |grid|;
      var row := grid[y % |grid|];
      if x % |grid[0]| < |row| then Some(TMod(row[x % |grid[0]|] + penalty - 1, 9) + 1) else None
    else if y < |grid| && x < |grid[y]| then Some(grid[y][x])
    else None
  }

  /** Plain `offset` finds a risk exactly for a position on the grid, and
      it is the risk stored there. */
  lemma OffsetPlain(grid: seq<seq<int>>, pos: Pos, d: Pos)
    requires I64(pos.0 + d.0) && I64(pos.1 + d.1) && Fits(grid)
    ensures var p := Add(pos, d);
      Offset(grid, pos, d, false).Some? <==> 0 <= p.1 < |grid| && 0 <= p.0 < |grid[p.1]|
    ensures var p := Add(pos, d);
      Offset(grid, pos, d, false).Some? ==> Offset(grid, pos, d, false).value == grid[p.1][p.0]
  {
  }

  /** Tiled `offset` at a position right of and below the origin: the risk
      of the cell the position falls on in the first tile, raised by the
      number of tiles to the left and above and wrapped into `1..=9`. */
  lemma OffsetTiled(grid: seq<seq<int>>, pos: Pos, d: Pos)
    requires |grid| > 0 && |grid[0]| > 0
    requires 0 <= pos.0 + d.0 < UsizeModulus && 0 <= pos.1 + d.1 < UsizeModulus
    ensures var p, w, h := Add(pos, d), |grid[0]|, |grid|;
      Offset(grid, pos, d, true).Some? <==> p.0 % w < |grid[p.1 % h]|
    ensures var p, w, h := Add(pos, d), |grid[0]|, |grid|;
      Offset(grid, pos, d, true).Some? ==>
        var v := grid[p.1 % h][p.0 % w] + p.0 / w + p.1 / h;
        (v >= 1 ==> Offset(grid, pos, d, true).value == (v - 1) % 9 + 1 &&
                    1 <= Offset(grid, pos, d, true).value <= 9) &&
        (v == 0 ==> Offset(grid, pos, d, true).value == 0)
  {
  }

  /** `get`: plain `offset` with no displacement. */
  function Get(grid: seq<seq<int>>, pos: Pos): (r: Option<int>)
    requires I64(pos.0) && I64(pos.1) && Fits(grid)
    ensures r.Some? <==> 0 <= pos.1 < |grid| && 0 <= pos.0 < |grid[pos.1]|
    ensures r.Some? ==> r.value == grid[pos.1][pos.0]
  {
    Offset(grid, pos, (0, 0), false)
  }

  /** `neighbors`: the risks of the four neighbours, in `OFFSETS` order. */
  function Neighbors(grid: seq<seq<int>>, pos: Pos, extend: bool): (r: seq<Option<int>>)
    requires extend ==> |grid| > 0 && |grid[0]| > 0
    ensures |r| == 4
    ensures forall k :: 0 <= k < 4 ==> r[k] == Offset(grid, Add(pos, Offsets[k]), (0, 0), extend)
  {
    seq(4, k requires 0 <= k < 4 => Offset(grid, pos, Offsets[k], extend))
  }

  /** The risk levels of one line: every character that parses as a
      number, that is every decimal digit. */
  function ParseLine(line: string): (r: seq<int>)
    ensures forall x :: 0 <= x < |r| ==> 0 <= r[x] <= 9
    ensures |line| > 0 && IsDigit(line[|line| - 1]) ==> |r| > 0 && r[|r| - 1] == line[|line| - 1] as int - '0' as int
    ensures (forall i :: 0 <= i < |line| ==> IsDigit(line[i])) ==>
      |r| == |line| && forall i :: 0 <= i < |line| ==> r[i] == line[i] as int - '0' as int
  {
    if line == [] then []
    else
      var n := |line| - 1;
      assert forall i :: 0 <= i < n ==> line[..n][i] == line[i];
      ParseLine(line[..n]) + (if IsDigit(line[n]) then [line[n] as int - '0' as int] else [])
  }

  /** The risks keep the order of the characters: reading two pieces of a
      line in turn reads each and joins the results. */
  lemma {:induction false} ParseLineAppend(a: string, b: string)
    ensures ParseLine(a + b) == ParseLine(a) + ParseLine(b)
    decreases |b|
  {
    if b == [] {
      assert a + b == a;
    } else {
      var n := |b| - 1;
      assert (a + b)[..|a + b| - 1] == a + b[..n];
      assert (a + b)[|a + b| - 1] == b[n];
      ParseLineAppend(a, b[..n]);
    }
  }

  /** One character is a risk exactly when it is a decimal digit. */
  lemma ParseLineOne(c: char)
    ensures ParseLine([c]) == if IsDigit(c) then [c as int - '0' as int] else []
  {
    assert [c][..0] == [];
  }

  function Parse(lines: seq<string>): (r: seq<seq<int>>)
    ensures |r| == |lines| && Digits(r)
  {
    seq(|lines|, y requires 0 <= y < |lines| => ParseLine(lines[y]))
  }

  /** Every risk level is a single digit. */
  predicate Digits(input: seq<seq<int>>)
  {
    forall y, x :: 0 <= y < |input| && 0 <= x < |input[y]| ==> 0 <= input[y][x] <= 9
  }

  // ---------------------------------------------------------------------
  // The cave as a graph

  /** A search problem: the risk levels, whether they are tiled, and the
      goal, the bottom-right corner. */
  datatype Cave = Cave(input: seq<seq<int>>, extend: bool, goal: Pos)

  /** The goal `dijkstra` computes: the last column of the first row and
      the last row, five times further in part two. */
  function Goal(input: seq<seq<int>>, part2: bool): (g: Pos)
    requires |input| > 0 && |input[0]| > 0
    ensures g.0 >= 0 && g.1 >= 0
  {
    if part2 then (|input[0]| * 5 - 1, |input| * 5 - 1) else (|input[0]| - 1, |input| - 1)
  }

  /** Every row as long as the first. */
  predicate Rectangular(input: seq<seq<int>>)
  {
    forall y :: 0 <= y < |input| ==> |input[y]| == |input[0]|
  }

  /** On a rectangular input the goal is the bottom-right cell: plain, it is
      on the grid with nothing to its right or below it; tiled, it is the
      bottom-right cell of the fifth tile down and across. */
  lemma GoalCorner(input: seq<seq<int>>, part2: bool)
    requires 0 < |input| < UsizeModulus / 2 && 0 < |input[0]| < UsizeModulus / 2 && Rectangular(input)
    ensures var g, w, h := Goal(input, part2), |input[0]|, |input|;
      !part2 ==> Offset(input, g, (0, 0), false).Some? &&
                 Offset(input, g, (1, 0), false).None? && Offset(input, g, (0, 1), false).None?
    ensures var g, w, h := Goal(input, part2), |input[0]|, |input|;
      part2 ==> g.0 / w == 4 && g.0 % w == w - 1 && g.1 / h == 4 && g.1 % h == h - 1
  {
    var g, w, h := Goal(input, part2), |input[0]|, |input|;
    if part2 {
      DivModUnique(g.0, 4, w - 1, w);
      DivModUnique(g.1, 4, h - 1, h);
    } else {
      OffsetPlain(input, g, (0, 0));
      OffsetPlain(input, g, (1, 0));
      OffsetPlain(input, g, (0, 1));
    }
  }

  /** Division by a positive number is unique. */
  lemma DivModUnique(a: int, q: int, r: int, d: int)
    requires d > 0 && a == q * d + r && 0 <= r < d
    ensures a / d == q && a % d == r
  {
    var q', r' := a / d, a % d;
    assert a == q' * d + r';
    if q' < q {
      assert (q - q') * d >= d by {
        MulAtLeast(q - q', d);
      }
    } else if q' > q {
      assert (q' - q) * d >= d by {
        MulAtLeast(q' - q, d);
      }
    }
  }

  lemma MulAtLeast(k: int, d: int)
    requires k >= 1 && d > 0
    ensures k * d >= d
  {
  }

  /** The number of positions of the weights grid. */
  function Cells(c: Cave): int
  {
    (c.goal.0 + 1) * (c.goal.1 + 1)
  }

  /** A cave the search can run on: risk levels that are single digits, and
      no path weight that could reach `i64::MAX`. */
  predicate Valid(c: Cave)
  {
    |c.input| > 0 && |c.input[0]| > 0 && Digits(c.input) && c.goal.0 >= 0 && c.goal.1 >= 0 &&
    9 * Cells(c) + 9 < I64Max
  }

  /** The positions of the weights grid. */
  predicate InBox(c: Cave, p: Pos)
  {
    0 <= p.0 <= c.goal.0 && 0 <= p.1 <= c.goal.1
  }

  /** The risk of entering `p`. */
  function Val(c: Cave, p: Pos): Option<int>
  {
    if |c.input| == 0 || |c.input[0]| == 0 then None else Offset(c.input, p, (0, 0), c.extend)
  }

  /** Every risk `offset` finds, on the grid or off it, is a digit. */
  lemma ValRange(c: Cave, p: Pos)
    requires Digits(c.input) && Val(c, p).Some?
    ensures 0 <= Val(c, p).value <= 9
  {
    if c.extend {
      var x, y := Usize(p.0), Usize(p.1);
      var w, h := |c.input[0]|, |c.input|;
      var i, j := y % h, x % w;
      var penalty := x / w + y / h;
      DivNonNegative(x, w);
      DivNonNegative(y, h);
      assert 0 <= i < h;
      assert j < |c.input[i]| && Val(c, p) == Some(TMod(c.input[i][j] + penalty - 1, 9) + 1);
      assert 0 <= c.input[i][j];
      WrapNine(c.input[i][j] + penalty - 1);
    }
  }

  lemma DivNonNegative(a: nat, b: nat)
    requires b > 0
    ensures a / b >= 0
  {
  }

  /** Wrapping a risk of at least 0 with `(v - 1) % 9 + 1` gives a digit. */
  lemma WrapNine(a: int)
    requires a >= -1
    ensures 0 <= TMod(a, 9) + 1 <= 9
  {
    if a == -1 {
      assert TDiv(a, 9) == 0;
    }
  }

  /** A position the search may enter: on the weights grid, with a risk. */
  predicate Node(c: Cave, p: Pos)
  {
    InBox(c, p) && Val(c, p).Some?
  }

  /** `b` is one of the four neighbours of `a`. */
  predicate Adjacent(a: Pos, b: Pos)
  {
    b == Add(a, Offsets[0]) || b == Add(a, Offsets[1]) || b == Add(a, Offsets[2]) || b == Add(a, Offsets[3])
  }

  function StepCost(c: Cave, p: Pos): int
  {
    if Val(c, p).Some? then Val(c, p).value else 0
  }

  /** The total risk of a path: the risks of every position it enters,
      not counting the start. */
  function PathCost(c: Cave, ps: seq<Pos>): int
  {
    if |ps| <= 1 then 0 else PathCost(c, ps[..|ps| - 1]) + StepCost(c, ps[|ps| - 1])
  }

  /** A path from the top-left corner to `p`, entering only positions of
      the grid that have a risk. */
  predicate IsPathTo(c: Cave, ps: seq<Pos>, p: Pos)
  {
    |ps| >= 1 && ps[0] == (0, 0) && ps[|ps| - 1] == p &&
    forall i :: 1 <= i < |ps| ==> Adjacent(ps[i - 1], ps[i]) && Node(c, ps[i])
  }

  ghost predicate Reachable(c: Cave, p: Pos)
  {
    exists ps :: IsPathTo(c, ps, p)
  }

  /** `d` is the lowest total risk of a path to `p`. */
  ghost predicate Shortest(c: Cave, p: Pos, d: int)
  {
    (exists ps :: IsPathTo(c, ps, p) && PathCost(c, ps) == d) &&
    forall ps :: IsPathTo(c, ps, p) ==> PathCost(c, ps) >= d
  }

  lemma {:induction false} PathCostNonNegative(c: Cave, ps: seq<Pos>)
    requires Digits(c.input)
    ensures PathCost(c, ps) >= 0
    decreases |ps|
  {
    if |ps| > 1 {
      PathCostNonNegative(c, ps[..|ps| - 1]);
      if Val(c, ps[|ps| - 1]).Some? {
        ValRange(c, ps[|ps| - 1]);
      }
    }
  }

  /** A path's first `i` positions are a path, no riskier than the whole. */
  lemma {:induction false} PathPrefix(c: Cave, ps: seq<Pos>, p: Pos, i: nat)
    requires Digits(c.input) && IsPathTo(c, ps, p) && 1 <= i <= |ps|
    ensures IsPathTo(c, ps[..i], ps[i - 1])
    ensures PathCost(c, ps[..i]) <= PathCost(c, ps)
    decreases |ps| - i
  {
    if i < |ps| {
      var q := ps[..|ps| - 1];
      assert IsPathTo(c, q, q[|q| - 1]);
      assert q[..i] == ps[..i];
      PathPrefix(c, q, q[|q| - 1], i);
      ValRange(c, ps[|ps| - 1]);
    } else {
      assert ps[..i] == ps;
    }
  }

  /** One more step to a neighbour on the grid extends a path, adding its
      risk. */
  lemma PathExtend(c: Cave, ps: seq<Pos>, p: Pos, q: Pos)
    requires IsPathTo(c, ps, p) && Adjacent(p, q) && Node(c, q)
    ensures IsPathTo(c, ps + [q], q)
    ensures PathCost(c, ps + [q]) == PathCost(c, ps) + Val(c, q).value
  {
    assert (ps + [q])[..|ps|] == ps;
  }

  // ---------------------------------------------------------------------
  // The weights grid and the invariant of the search

  /** The positions of the weights grid, as a set. */
  function Box(c: Cave): (b: set<Pos>)
    ensures forall p :: p in b <==> InBox(c, p)
  {
    set x, y | 0 <= x <= c.goal.0 && 0 <= y <= c.goal.1 :: (x, y)
  }

  /** A `w` by `h` rectangle of positions. */
  function Rect(w: nat, h: nat): (r: set<Pos>)
    ensures forall p :: p in r <==> 0 <= p.0 < w && 0 <= p.1 < h
  {
    set x, y | 0 <= x < w && 0 <= y < h :: (x, y)
  }

  function RowOf(w: nat, y: int): (r: set<Pos>)
    ensures forall p :: p in r <==> 0 <= p.0 < w && p.1 == y
  {
    set x | 0 <= x < w :: (x, y)
  }

  lemma {:induction false} RowOfCard(w: nat, y: int)
    ensures |RowOf(w, y)| == w
  {
    if w > 0 {
      RowOfCard(w - 1, y);
      assert RowOf(w, y) == RowOf(w - 1, y) + {(w - 1, y)};
    } else {
      assert RowOf(w, y) == {};
    }
  }

  lemma {:induction false} RectCard(w: nat, h: nat)
    ensures |Rect(w, h)| == w * h
  {
    if h > 0 {
      RectCard(w, h - 1);
      RowOfCard(w, h - 1);
      assert w * h == w * (h - 1) + w;
      assert Rect(w, h) == Rect(w, h - 1) + RowOf(w, h - 1);
      assert Rect(w, h - 1) !! RowOf(w, h - 1);
    } else {
      assert Rect(w, h) == {};
    }
  }

  /** There are `Cells` positions on the weights grid. */
  lemma BoxCard(c: Cave)
    requires c.goal.0 >= 0 && c.goal.1 >= 0
    ensures |Box(c)| == Cells(c)
  {
    RectCard(c.goal.0 + 1, c.goal.1 + 1);
    assert Box(c) == Rect(c.goal.0 + 1, c.goal.1 + 1);
  }

  /** The grid is far smaller than `usize` can count. */
  lemma GoalBound(c: Cave)
    requires Valid(c)
    ensures c.goal.0 + 1 <= Cells(c) && c.goal.1 + 1 <= Cells(c) && Cells(c) < UsizeModulus / 4
  {
    var a, b := c.goal.0 + 1, c.goal.1 + 1;
    assert a * b >= a * 1 && a * b >= 1 * b;
  }

  predicate Shaped(c: Cave, w: seq<seq<int>>)
  {
    c.goal.0 >= 0 && c.goal.1 >= 0 &&
    |w| == c.goal.1 + 1 && forall y :: 0 <= y < |w| ==> |w[y]| == c.goal.0 + 1
  }

  /** The weight of `p` as the search uses it: the start is popped with
      priority `-0`, every other position has the weight stored for it. */
  function D(c: Cave, w: seq<seq<int>>, p: Pos): int
    requires Shaped(c, w) && InBox(c, p)
  {
    if p == (0, 0) then 0 else w[p.1][p.0]
  }

  /** No path to `p` has a lower total risk than its weight. */
  ghost predicate Final(c: Cave, w: seq<seq<int>>, p: Pos)
    requires Shaped(c, w) && InBox(c, p)
  {
    forall ps :: IsPathTo(c, ps, p) ==> PathCost(c, ps) >= D(c, w, p)
  }

  /** The queue holds the unvisited positions with a weight, each with the
      negated weight as its priority. */
  ghost predicate QueueOk(c: Cave, w: seq<seq<int>>, q: map<Pos, int>, vis: set<Pos>)
    requires Shaped(c, w)
  {
    (forall p :: p in q ==> InBox(c, p) && p !in vis && D(c, w, p) < I64Max && q[p] == -D(c, w, p)) &&
    (forall p :: InBox(c, p) && p !in vis && D(c, w, p) < I64Max ==> p in q)
  }

  /** Every visited position has its final weight, at most nine per
      position visited before it. */
  ghost predicate VisitedOk(c: Cave, w: seq<seq<int>>, vis: set<Pos>)
    requires Shaped(c, w)
  {
    forall p :: p in vis ==> InBox(c, p) && D(c, w, p) <= 9 * |vis| - 9 && Final(c, w, p)
  }

  /** Every weight is the total risk of a path, the one `via` records. */
  ghost predicate ViaOk(c: Cave, w: seq<seq<int>>, via: map<Pos, seq<Pos>>)
    requires Shaped(c, w)
  {
    forall p :: InBox(c, p) && D(c, w, p) < I64Max ==>
      p in via && IsPathTo(c, via[p], p) && PathCost(c, via[p]) == D(c, w, p)
  }

  /** No weight exceeds `i64::MAX`, and no finite one exceeds nine per
      visited position. */
  ghost predicate Bounded(c: Cave, w: seq<seq<int>>, vis: set<Pos>)
    requires Shaped(c, w)
  {
    forall p :: InBox(c, p) ==> D(c, w, p) <= I64Max && (D(c, w, p) < I64Max ==> D(c, w, p) <= 9 * |vis|)
  }

  /** What holds between two pops. */
  ghost predicate Core(c: Cave, w: seq<seq<int>>, q: map<Pos, int>, vis: set<Pos>, via: map<Pos, seq<Pos>>)
  {
    Valid(c) && Shaped(c, w) && w[0][0] == I64Max &&
    QueueOk(c, w, q, vis) && VisitedOk(c, w, vis) && ViaOk(c, w, via) && Bounded(c, w, vis) &&
    ((vis == {} && q == map[(0, 0) := 0]) || (0, 0) in vis) &&
    c.goal !in vis
  }

  /** Every edge out of a position of `from` into an unvisited position
      has been relaxed. */
  ghost predicate Relaxed(c: Cave, w: seq<seq<int>>, vis: set<Pos>, from: set<Pos>)
    requires Shaped(c, w)
  {
    forall u, p :: u in from && InBox(c, u) && Adjacent(u, p) && Node(c, p) && p !in vis ==>
      D(c, w, p) <= D(c, w, u) + Val(c, p).value
  }

  /** The first `k` edges out of `u` have been relaxed. */
  ghost predicate RelaxedUpTo(c: Cave, w: seq<seq<int>>, vis: set<Pos>, u: Pos, k: nat)
    requires Shaped(c, w) && InBox(c, u) && k <= 4
  {
    forall j :: 0 <= j < k && Node(c, Add(u, Offsets[j])) && Add(u, Offsets[j]) !in vis ==>
      D(c, w, Add(u, Offsets[j])) <= D(c, w, u) + Val(c, Add(u, Offsets[j])).value
  }

  predicate IsMax(q: map<Pos, int>, u: Pos)
  {
    u in q && forall p :: p in q ==> q[p] <= q[u]
  }

  /** The visited positions are fewer than the positions of the grid, since
      the goal is never among them. */
  lemma VisitedFew(c: Cave, w: seq<seq<int>>, q: map<Pos, int>, vis: set<Pos>, via: map<Pos, seq<Pos>>)
    requires Core(c, w, q, vis, via)
    ensures 9 * |vis| + 9 < I64Max
  {
    BoxCard(c);
    assert c.goal in Box(c);
    SubsetCard(vis, Box(c) - {c.goal});
  }

  lemma {:induction false} SubsetCard<T>(a: set<T>, b: set<T>)
    requires a <= b
    ensures |a| <= |b|
  {
    if a != {} {
      var x :| x in a;
      SubsetCard(a - {x}, b - {x});
    }
  }

  /** A path from the visited start to an unvisited position steps, at
      some point, from a visited position to an unvisited one. */
  lemma FirstOut(ps: seq<Pos>, vis: set<Pos>) returns (i: nat)
    requires |ps| >= 1 && ps[0] in vis && ps[|ps| - 1] !in vis
    ensures 1 <= i < |ps| && ps[i - 1] in vis && ps[i] !in vis
  {
    i := 1;
    while ps[i] in vis
      invariant 1 <= i < |ps| && ps[i - 1] in vis
      decreases |ps| - i
    {
      i := i + 1;
    }
  }

  /** Every path from the start to an unvisited position crosses into the
      queue at a position whose weight is at most the path's total risk. */
  lemma FrontierBelow(c: Cave, w: seq<seq<int>>, q: map<Pos, int>, vis: set<Pos>, via: map<Pos, seq<Pos>>,
                      ps: seq<Pos>, p: Pos) returns (i: nat)
    requires Core(c, w, q, vis, via) && Relaxed(c, w, vis, vis)
    requires IsPathTo(c, ps, p) && (0, 0) in vis && p !in vis
    ensures 1 <= i < |ps| && ps[i] in q && D(c, w, ps[i]) <= PathCost(c, ps)
  {
    i := FirstOut(ps, vis);
    var u, v := ps[i - 1], ps[i];
    PathPrefix(c, ps, p, i);
    PathPrefix(c, ps, p, i + 1);
    assert ps[..i + 1][..i] == ps[..i];
    assert PathCost(c, ps[..i + 1]) == PathCost(c, ps[..i]) + Val(c, v).value;
    assert PathCost(c, ps[..i]) >= D(c, w, u);
    assert Adjacent(u, v) && Node(c, v);
    assert D(c, w, v) <= D(c, w, u) + Val(c, v).value;
    ValRange(c, v);
    VisitedFew(c, w, q, vis, via);
  }

  /** The position popped with the highest priority, that is the lowest
      weight, has its final weight: any path to it crosses into the queue
      at a position weighing at least as much. */
  lemma PopFinal(c: Cave, w: seq<seq<int>>, q: map<Pos, int>, vis: set<Pos>, via: map<Pos, seq<Pos>>, u: Pos)
    requires Core(c, w, q, vis, via) && Relaxed(c, w, vis, vis) && IsMax(q, u)
    ensures InBox(c, u) && Final(c, w, u)
  {
    forall ps | IsPathTo(c, ps, u)
      ensures PathCost(c, ps) >= D(c, w, u)
    {
      if u == (0, 0) {
        PathCostNonNegative(c, ps);
      } else {
        var i := FrontierBelow(c, w, q, vis, via, ps, u);
        assert q[ps[i]] <= q[u];
      }
    }
  }

  /** Popping `u` and marking it visited keeps the invariant, with the
      edges out of `u` still to relax. */
  lemma Visit(c: Cave, w: seq<seq<int>>, q: map<Pos, int>, vis: set<Pos>, via: map<Pos, seq<Pos>>, u: Pos)
    requires Core(c, w, q, vis, via) && Relaxed(c, w, vis, vis) && IsMax(q, u) && u != c.goal
    ensures Core(c, w, q - {u}, vis + {u}, via)
    ensures Relaxed(c, w, vis + {u}, vis)
  {
    PopFinal(c, w, q, vis, via, u);
    var q', vis' := q - {u}, vis + {u};
    assert |vis'| == |vis| + 1;
    assert QueueOk(c, w, q', vis');
    assert Bounded(c, w, vis');
  }

  /** The weights with `p` set to `v`. */
  function SetW(w: seq<seq<int>>, p: Pos, v: int): seq<seq<int>>
    requires 0 <= p.1 < |w| && 0 <= p.0 < |w[p.1]|
  {
    w[p.1 := w[p.1][p.0 := v]]
  }

  /** `w'` is `w` with the weight of `p` (not the start) set to `nd`. */
  ghost predicate Updated(c: Cave, w: seq<seq<int>>, w': seq<seq<int>>, p: Pos, nd: int)
    requires Shaped(c, w)
  {
    Shaped(c, w') && InBox(c, p) && p != (0, 0) && w'[0][0] == w[0][0] &&
    forall x :: InBox(c, x) ==> D(c, w', x) == if x == p then nd else D(c, w, x)
  }

  lemma SetWUpdated(c: Cave, w: seq<seq<int>>, p: Pos, nd: int)
    requires Shaped(c, w) && InBox(c, p) && p != (0, 0)
    ensures Updated(c, w, SetW(w, p, nd), p, nd)
  {
  }

  lemma RelaxVia(c: Cave, w: seq<seq<int>>, w': seq<seq<int>>, via: map<Pos, seq<Pos>>, u: Pos, p: Pos, nd: int)
    requires Shaped(c, w) && Updated(c, w, w', p, nd) && ViaOk(c, w, via)
    requires InBox(c, u) && D(c, w, u) < I64Max && Adjacent(u, p) && Node(c, p)
    requires nd == Min(D(c, w, p), D(c, w, u) + Val(c, p).value) && nd < I64Max
    ensures ViaOk(c, w', if nd == w[p.1][p.0] then via else via[p := via[u] + [p]])
  {
    if nd != w[p.1][p.0] {
      PathExtend(c, via[u], u, p);
    }
  }

  lemma RelaxQueue(c: Cave, w: seq<seq<int>>, w': seq<seq<int>>, q: map<Pos, int>, vis: set<Pos>, p: Pos, nd: int)
    requires Shaped(c, w) && Updated(c, w, w', p, nd) && QueueOk(c, w, q, vis)
    requires p !in vis && nd < I64Max
    ensures QueueOk(c, w', q[p := -nd], vis)
  {
  }

  lemma RelaxVisited(c: Cave, w: seq<seq<int>>, w': seq<seq<int>>, vis: set<Pos>, p: Pos, nd: int)
    requires Shaped(c, w) && Updated(c, w, w', p, nd) && VisitedOk(c, w, vis) && p !in vis
    ensures VisitedOk(c, w', vis)
  {
    forall x | x in vis
      ensures Final(c, w', x)
    {
      assert Final(c, w, x);
    }
  }

  lemma RelaxBounded(c: Cave, w: seq<seq<int>>, w': seq<seq<int>>, vis: set<Pos>, p: Pos, nd: int)
    requires Shaped(c, w) && Updated(c, w, w', p, nd) && Bounded(c, w, vis)
    requires nd <= D(c, w, p) && nd <= 9 * |vis|
    ensures Bounded(c, w', vis)
  {
  }

  lemma RelaxFrom(c: Cave, w: seq<seq<int>>, w': seq<seq<int>>, vis: set<Pos>, u: Pos, p: Pos, nd: int)
    requires Shaped(c, w) && Updated(c, w, w', p, nd) && p !in vis && nd <= D(c, w, p)
    requires Relaxed(c, w, vis, vis - {u})
    ensures Relaxed(c, w', vis, vis - {u})
  {
    forall v, x | v in vis - {u} && InBox(c, v) && Adjacent(v, x) && Node(c, x) && x !in vis
      ensures D(c, w', x) <= D(c, w', v) + Val(c, x).value
    {
      assert D(c, w, x) <= D(c, w, v) + Val(c, x).value;
    }
  }

  lemma RelaxEdge(c: Cave, w: seq<seq<int>>, w': seq<seq<int>>, vis: set<Pos>, u: Pos, k: nat, nd: int)
    requires Shaped(c, w) && InBox(c, u) && u in vis && k < 4
    requires Node(c, Add(u, Offsets[k])) && Add(u, Offsets[k]) !in vis
    requires Updated(c, w, w', Add(u, Offsets[k]), nd)
    requires nd <= D(c, w, Add(u, Offsets[k])) && nd <= D(c, w, u) + Val(c, Add(u, Offsets[k])).value
    requires RelaxedUpTo(c, w, vis, u, k)
    ensures RelaxedUpTo(c, w', vis, u, k + 1)
  {
    forall j | 0 <= j < k + 1 && Node(c, Add(u, Offsets[j])) && Add(u, Offsets[j]) !in vis
      ensures D(c, w', Add(u, Offsets[j])) <= D(c, w', u) + Val(c, Add(u, Offsets[j])).value
    {
      if j < k {
        assert D(c, w, Add(u, Offsets[j])) <= D(c, w, u) + Val(c, Add(u, Offsets[j])).value;
      }
    }
  }

  /** `w'` is `w` with the weight of `cell` lowered or kept, and every
      other weight kept. */
  predicate Lowers(w: seq<seq<int>>, w': seq<seq<int>>, cell: (nat, nat))
  {
    |w'| == |w| &&
    forall y :: 0 <= y < |w| ==>
      |w'[y]| == |w[y]| &&
      forall x :: 0 <= x < |w[y]| ==> if (y, x) == cell then w'[y][x] <= w[y][x] else w'[y][x] == w[y][x]
  }

  /** The paths after the edge from `u` into the cell `cell` is relaxed to
      weight `v`: the path through `u` when the weight went down. */
  ghost function ViaAfter(w: seq<seq<int>>, via: map<Pos, seq<Pos>>, u: Pos, p: Pos, cell: (nat, nat), v: int): map<Pos, seq<Pos>>
    requires cell.0 < |w| && cell.1 < |w[cell.0]| && u in via
  {
    if v == w[cell.0][cell.1] then via else via[p := via[u] + [p]]
  }

  /** `weights` with the weight of `cell` set to `v`. */
  function SetWeight(w: seq<seq<int>>, cell: (nat, nat), v: int): seq<seq<int>>
    requires cell.0 < |w| && cell.1 < |w[cell.0]|
  {
    w[cell.0 := w[cell.0][cell.1 := v]]
  }

  /** Setting one cell to at most its weight lowers that cell only. */
  lemma LowersCell(w: seq<seq<int>>, cell: (nat, nat), v: int)
    requires cell.0 < |w| && cell.1 < |w[cell.0]| && v <= w[cell.0][cell.1]
    ensures Lowers(w, w[cell.0 := w[cell.0][cell.1 := v]], cell)
  {
  }

  /** Relaxing the open edge from the visited `u` into `p`: the weight of
      `p` can only go down, to the weight of `u` plus the risk of `p`; the
      queue gets the new priority and `via` the path through `u` when the
      weight went down. The invariant holds again, with one edge more
      relaxed. */
  lemma Relax(c: Cave, w: seq<seq<int>>, q: map<Pos, int>, vis: set<Pos>, via: map<Pos, seq<Pos>>,
              u: Pos, k: nat, negWeight: int, risk: int, cell: (nat, nat))
    requires k < 4 && Relaxing(c, w, q, vis, via, u, k) && EdgeOpen(c, w, vis, via, u, k, negWeight, risk, cell)
    ensures cell.0 < |w| && cell.1 < |w[cell.0]|
    ensures var p, v := Add(u, Offsets[k]), Lowered(w, negWeight, risk, cell);
      Relaxing(c, SetWeight(w, cell, v), q[p := -v], vis,
               ViaAfter(w, via, u, p, cell, v), u, k + 1) &&
      Lowers(w, SetWeight(w, cell, v), cell)
  {
    var p := Add(u, Offsets[k]);
    var v := Lowered(w, negWeight, risk, cell);
    var w' := w[cell.0 := w[cell.0][cell.1 := v]];
    RelaxPrepare(c, w, q, vis, via, u, k, negWeight, risk, cell);
    RelaxCombine(c, w, w', q, vis, via, u, k, v);
    LowersCell(w, cell, v);
  }

  /** The new weight of the cell: the lower of its weight and the path
      through `u`, a finite weight of at most nine per visited position. */
  lemma RelaxPrepare(c: Cave, w: seq<seq<int>>, q: map<Pos, int>, vis: set<Pos>, via: map<Pos, seq<Pos>>,
                     u: Pos, k: nat, negWeight: int, risk: int, cell: (nat, nat))
    requires k < 4 && Relaxing(c, w, q, vis, via, u, k) && EdgeOpen(c, w, vis, via, u, k, negWeight, risk, cell)
    ensures cell.0 < |w| && cell.1 < |w[cell.0]|
    ensures var p, v := Add(u, Offsets[k]), Lowered(w, negWeight, risk, cell);
      Updated(c, w, w[cell.0 := w[cell.0][cell.1 := v]], p, v) &&
      v == Min(D(c, w, p), D(c, w, u) + Val(c, p).value) && v < I64Max && v <= 9 * |vis| &&
      cell == (p.1, p.0)
  {
    var p := Add(u, Offsets[k]);
    var v := Lowered(w, negWeight, risk, cell);
    assert v == Min(D(c, w, p), D(c, w, u) + Val(c, p).value);
    SetWUpdated(c, w, p, v);
    ValRange(c, p);
    VisitedFew(c, w, q, vis, via);
  }

  /** The invariant after the weight of the `k`-th neighbour of `u` is set
      to `v`. */
  lemma RelaxCombine(c: Cave, w: seq<seq<int>>, w': seq<seq<int>>, q: map<Pos, int>, vis: set<Pos>,
                     via: map<Pos, seq<Pos>>, u: Pos, k: nat, v: int)
    requires k < 4 && Relaxing(c, w, q, vis, via, u, k)
    requires Node(c, Add(u, Offsets[k])) && Add(u, Offsets[k]) !in vis && u in via
    requires Updated(c, w, w', Add(u, Offsets[k]), v)
    requires v == Min(D(c, w, Add(u, Offsets[k])), D(c, w, u) + Val(c, Add(u, Offsets[k])).value)
    requires v < I64Max && v <= 9 * |vis|
    ensures var p := Add(u, Offsets[k]);
      Relaxing(c, w', q[p := -v], vis, if v == w[p.1][p.0] then via else via[p := via[u] + [p]], u, k + 1)
  {
    var p := Add(u, Offsets[k]);
    VisitedFew(c, w, q, vis, via);
    RelaxVia(c, w, w', via, u, p, v);
    RelaxQueue(c, w, w', q, vis, p, v);
    RelaxVisited(c, w, w', vis, p, v);
    RelaxBounded(c, w, w', vis, p, v);
    RelaxFrom(c, w, w', vis, u, p, v);
    RelaxEdge(c, w, w', vis, u, k, v);
  }

  /** With its four edges relaxed, `u` joins the relaxed positions. */
  lemma RelaxedAll(c: Cave, w: seq<seq<int>>, vis: set<Pos>, u: Pos)
    requires Shaped(c, w) && InBox(c, u) && u in vis
    requires Relaxed(c, w, vis, vis - {u}) && RelaxedUpTo(c, w, vis, u, 4)
    ensures Relaxed(c, w, vis, vis)
  {
    forall v, p | v in vis && InBox(c, v) && Adjacent(v, p) && Node(c, p) && p !in vis
      ensures D(c, w, p) <= D(c, w, v) + Val(c, p).value
    {
      if v == u {
        assert p == Add(u, Offsets[0]) || p == Add(u, Offsets[1]) || p == Add(u, Offsets[2]) || p == Add(u, Offsets[3]);
      }
    }
  }

  /** The weights `dijkstra` starts from: `i64::MAX` in every cell up to
      the goal. */
  function Unreached(goal: Pos): (w: seq<seq<int>>)
    requires goal.0 >= 0 && goal.1 >= 0
    ensures |w| == goal.1 + 1 && forall y :: 0 <= y < |w| ==> |w[y]| == goal.0 + 1
    ensures forall y, x :: 0 <= y < |w| && 0 <= x < |w[y]| ==> w[y][x] == I64Max
  {
    seq(goal.1 + 1, _ => seq(goal.0 + 1, _ => I64Max))
  }

  /** Visiting one more position of the grid leaves fewer to visit. */
  lemma Shrinks(b: set<Pos>, vis: set<Pos>, u: Pos)
    requires u in b && u !in vis
    ensures |b - (vis + {u})| < |b - vis|
  {
    assert b - (vis + {u}) == (b - vis) - {u};
  }

  /** The start, alone in the queue with priority `-0`, satisfies the
      invariant. */
  lemma Start(c: Cave)
    requires Valid(c)
    ensures Core(c, Unreached(c.goal), map[(0, 0) := 0], {}, map[(0, 0) := [(0, 0)]])
    ensures Relaxed(c, Unreached(c.goal), {}, {})
  {
    var w := Unreached(c.goal);
    assert IsPathTo(c, [(0, 0)], (0, 0));
    assert forall p :: InBox(c, p) && p != (0, 0) ==> D(c, w, p) == I64Max;
  }

  /** When the goal is popped its weight is the lowest total risk of a
      path to it. */
  lemma Found(c: Cave, w: seq<seq<int>>, q: map<Pos, int>, vis: set<Pos>, via: map<Pos, seq<Pos>>)
    requires Core(c, w, q, vis, via) && Relaxed(c, w, vis, vis) && IsMax(q, c.goal) && c.goal != (0, 0)
    ensures Reachable(c, c.goal) && Shortest(c, c.goal, w[c.goal.1][c.goal.0])
  {
    PopFinal(c, w, q, vis, via, c.goal);
    assert IsPathTo(c, via[c.goal], c.goal);
  }

  /** When the queue runs dry before the goal is popped, no path leads to
      the goal and its weight is still `i64::MAX`. */
  lemma Exhausted(c: Cave, w: seq<seq<int>>, vis: set<Pos>, via: map<Pos, seq<Pos>>)
    requires Core(c, w, map[], vis, via) && Relaxed(c, w, vis, vis)
    ensures !Reachable(c, c.goal) && w[c.goal.1][c.goal.0] == I64Max
  {
    assert (0, 0) in vis;
    assert c.goal in Box(c);
    if ps :| IsPathTo(c, ps, c.goal) {
      var i := FrontierBelow(c, w, map[], vis, via, ps, c.goal);
    }
  }

  // ---------------------------------------------------------------------
  // The search

  /** `offset_mut`: the cell of the weights at `pos + d`, as a row and a
      column, if there is one. */
  function OffsetMut(weights: seq<seq<int>>, pos: Pos, d: Pos): (r: Option<(nat, nat)>)
    ensures r.Some? ==> r.value.0 < |weights| && r.value.1 < |weights[r.value.0]|
    ensures I64(pos.0 + d.0) && I64(pos.1 + d.1) && Fits(weights) ==>
      (r.Some? <==> 0 <= pos.1 + d.1 < |weights| && 0 <= pos.0 + d.0 < |weights[pos.1 + d.1]|) &&
      (r.Some? ==> r.value == (pos.1 + d.1, pos.0 + d.0))
  {
    var x, y := Usize(pos.0 + d.0), Usize(pos.1 + d.1);
    if y < |weights| && x < |weights[y]| then Some((y, x)) else None
  }

  /** `PriorityQueue::pop`: an item of highest priority, ties broken
      either way. */
  method PopMax(queue: map<Pos, int>) returns (item: Pos, priority: int)
    requires queue != map[]
    ensures IsMax(queue, item) && priority == queue[item]
  {
    var keys := queue.Keys;
    assert keys != {} by {
      var k :| k in queue;
      assert k in keys;
    }
    item := Pick(keys);
    var todo := keys - {item};
    while todo != {}
      invariant todo <= keys && item in queue
      invariant forall p :: p in keys - todo ==> queue[p] <= queue[item]
      decreases |todo|
    {
      var p := Pick(todo);
      if queue[p] > queue[item] {
        item := p;
      }
      todo := todo - {p};
    }
    priority := queue[item];
  }

  /** `offset_mut` finds a cell of the weights exactly for a neighbour on
      the grid. */
  lemma OffsetMutBox(c: Cave, w: seq<seq<int>>, u: Pos, k: nat)
    requires Valid(c) && Shaped(c, w) && InBox(c, u) && k < 4
    ensures var pos := Add(u, Offsets[k]);
      (OffsetMut(w, u, Offsets[k]).Some? <==> InBox(c, pos)) &&
      (InBox(c, pos) ==> OffsetMut(w, u, Offsets[k]).value == (pos.1, pos.0))
  {
    GoalBound(c);
    assert Fits(w);
    assert -1 <= Offsets[k].0 <= 1 && -1 <= Offsets[k].1 <= 1;
    assert I64(u.0 + Offsets[k].0) && I64(u.1 + Offsets[k].1);
  }

  /** What the invariant says about a visited `current` and the edge
      from it in direction `k`. */
  lemma EdgeFacts(c: Cave, w: seq<seq<int>>, q: map<Pos, int>, vis: set<Pos>, via: map<Pos, seq<Pos>>, current: Pos, k: nat)
    requires Core(c, w, q, vis, via) && current in vis && k < 4
    ensures var pos := Add(current, Offsets[k]);
      (OffsetMut(w, current, Offsets[k]).Some? <==> InBox(c, pos)) &&
      (InBox(c, pos) ==> OffsetMut(w, current, Offsets[k]).value == (pos.1, pos.0)) &&
      (pos !in vis ==> pos != (0, 0)) && current in via && InBox(c, current)
  {
    VisitedFew(c, w, q, vis, via);
    assert (0, 0) in vis;
    OffsetMutBox(c, w, current, k);
  }

  /** Between two edges out of the visited `u`: the invariant, with the
      first `k` edges out of `u` relaxed. */
  ghost predicate Relaxing(c: Cave, w: seq<seq<int>>, q: map<Pos, int>, vis: set<Pos>, via: map<Pos, seq<Pos>>, u: Pos, k: nat)
    requires k <= 4
  {
    Core(c, w, q, vis, via) && u in vis && InBox(c, u) &&
    Relaxed(c, w, vis, vis - {u}) && RelaxedUpTo(c, w, vis, u, k)
  }

  /** The edge from `u` in direction `k` leads to an unvisited cell `cell`
      (row first) with risk `risk`, and `u` was popped with priority
      `negWeight`. */
  ghost predicate EdgeOpen(c: Cave, w: seq<seq<int>>, vis: set<Pos>, via: map<Pos, seq<Pos>>,
                           u: Pos, k: nat, negWeight: int, risk: int, cell: (nat, nat))
    requires Shaped(c, w) && InBox(c, u) && k < 4
  {
    var pos := Add(u, Offsets[k]);
    Node(c, pos) && pos !in vis && pos != (0, 0) && cell == (pos.1, pos.0) &&
    risk == Val(c, pos).value && negWeight == -D(c, w, u) && u in via
  }

  /** The weight of `cell` once the edge into it is relaxed. */
  function Lowered(w: seq<seq<int>>, negWeight: int, risk: int, cell: (nat, nat)): int
    requires cell.0 < |w| && cell.1 < |w[cell.0]|
  {
    Min(w[cell.0][cell.1], risk - negWeight)
  }

  /** The body of the `for_each` in `dijkstra` for the edge from `current`
      in direction `k`, whose risk is `node`: an edge with a risk into an
      unvisited cell of the weights grid lowers that cell's weight to the
      popped weight plus the risk, if that is lower, and pushes the cell
      with its weight negated; any other edge changes nothing. */
  function EdgeUpdate(weights: seq<seq<int>>, queue: map<Pos, int>, visited: set<Pos>, current: Pos,
                      negWeight: int, node: Option<int>, k: nat): (seq<seq<int>>, map<Pos, int>)
    requires k < 4
  {
    var pos, cell := Add(current, Offsets[k]), OffsetMut(weights, current, Offsets[k]);
    if node.Some? && pos !in visited && cell.Some? then
      var v := Lowered(weights, negWeight, node.value, cell.value);
      (SetWeight(weights, cell.value, v), queue[pos := -v])
    else
      (weights, queue)
  }

  /** An edge with a risk into an unvisited cell of the grid is lowered. */
  lemma EdgeUpdateOpen(weights: seq<seq<int>>, queue: map<Pos, int>, visited: set<Pos>, current: Pos,
                       negWeight: int, node: Option<int>, k: nat, cell: (nat, nat))
    requires k < 4 && node.Some? && Add(current, Offsets[k]) !in visited
    requires OffsetMut(weights, current, Offsets[k]) == Some(cell)
    ensures cell.0 < |weights| && cell.1 < |weights[cell.0]|
    ensures EdgeUpdate(weights, queue, visited, current, negWeight, node, k).0 ==
      SetWeight(weights, cell, Lowered(weights, negWeight, node.value, cell))
    ensures EdgeUpdate(weights, queue, visited, current, negWeight, node, k).1 ==
      queue[Add(current, Offsets[k]) := -Lowered(weights, negWeight, node.value, cell)]
  {
  }

  /** Any other edge leaves the weights and the queue alone. */
  lemma EdgeUpdateSkip(weights: seq<seq<int>>, queue: map<Pos, int>, visited: set<Pos>, current: Pos,
                       negWeight: int, node: Option<int>, k: nat)
    requires k < 4
    requires !(node.Some? && Add(current, Offsets[k]) !in visited && OffsetMut(weights, current, Offsets[k]).Some?)
    ensures weights == EdgeUpdate(weights, queue, visited, current, negWeight, node, k).0
    ensures queue == EdgeUpdate(weights, queue, visited, current, negWeight, node, k).1
  {
  }

  /** The write through `get_mut` and the push for an edge into the cell
      `cell` of the grid at position `pos`: the weight of the cell becomes
      the lower of its own and the popped weight plus the risk, no other
      weight changes, and `pos` is pushed with the new weight negated. */
  method Lower(weights: seq<seq<int>>, queue: map<Pos, int>, pos: Pos, negWeight: int, risk: int, cell: (nat, nat))
    returns (weights': seq<seq<int>>, queue': map<Pos, int>)
    requires cell.0 < |weights| && cell.1 < |weights[cell.0]|
    ensures Lowers(weights, weights', cell)
    ensures weights'[cell.0][cell.1] == Min(weights[cell.0][cell.1], risk - negWeight)
    ensures weights' == SetWeight(weights, cell, Lowered(weights, negWeight, risk, cell))
    ensures queue' == queue[pos := -Lowered(weights, negWeight, risk, cell)]
  {
    var lowered := Lowered(weights, negWeight, risk, cell);
    weights' := SetWeight(weights, cell, lowered);
    LowersCell(weights, cell, lowered);
    queue' := queue[pos := -lowered];
  }

  /** An edge into a visited position or off the grid is left alone. */
  lemma Skip(c: Cave, w: seq<seq<int>>, vis: set<Pos>, u: Pos, k: nat)
    requires Shaped(c, w) && InBox(c, u) && k < 4 && RelaxedUpTo(c, w, vis, u, k)
    requires !(Node(c, Add(u, Offsets[k])) && Add(u, Offsets[k]) !in vis)
    ensures RelaxedUpTo(c, w, vis, u, k + 1)
  {
  }

  /** The paths after the edge from `current` in direction `k` is
      relaxed: the path through `current` when a weight went down. */
  ghost function EdgeVia(weights: seq<seq<int>>, via: map<Pos, seq<Pos>>, visited: set<Pos>, current: Pos,
                         negWeight: int, node: Option<int>, k: nat): map<Pos, seq<Pos>>
    requires k < 4 && current in via
  {
    var pos, cell := Add(current, Offsets[k]), OffsetMut(weights, current, Offsets[k]);
    if node.Some? && pos !in visited && cell.Some? then
      ViaAfter(weights, via, current, pos, cell.value, Lowered(weights, negWeight, node.value, cell.value))
    else
      via
  }

  /** Relaxing the edge from the visited `current` in direction `k`, whose
      risk is `node`, keeps the invariant with one edge more relaxed. */
  lemma EdgeUpdateRelaxes(c: Cave, weights: seq<seq<int>>, queue: map<Pos, int>, visited: set<Pos>,
                          via: map<Pos, seq<Pos>>, current: Pos, negWeight: int, node: Option<int>, k: nat)
    requires k < 4 && Relaxing(c, weights, queue, visited, via, current, k)
    requires negWeight == -D(c, weights, current) && node == Val(c, Add(current, Offsets[k]))
    ensures current in via
    ensures Relaxing(c, EdgeUpdate(weights, queue, visited, current, negWeight, node, k).0,
                     EdgeUpdate(weights, queue, visited, current, negWeight, node, k).1, visited,
                     EdgeVia(weights, via, visited, current, negWeight, node, k), current, k + 1)
    ensures negWeight == -D(c, EdgeUpdate(weights, queue, visited, current, negWeight, node, k).0, current)
  {
    EdgeFacts(c, weights, queue, visited, via, current, k);
    var pos, cell := Add(current, Offsets[k]), OffsetMut(weights, current, Offsets[k]);
    if node.Some? && pos !in visited && cell.Some? {
      OpenEdgeRelaxes(c, weights, queue, visited, via, current, negWeight, node, k, cell.value);
    } else {
      Skip(c, weights, visited, current, k);
      EdgeUpdateSkip(weights, queue, visited, current, negWeight, node, k);
    }
  }

  /** `EdgeUpdateRelaxes` for an open edge into the cell `cell`. */
  lemma OpenEdgeRelaxes(c: Cave, weights: seq<seq<int>>, queue: map<Pos, int>, visited: set<Pos>,
                        via: map<Pos, seq<Pos>>, current: Pos, negWeight: int, node: Option<int>, k: nat, cell: (nat, nat))
    requires k < 4 && Relaxing(c, weights, queue, visited, via, current, k)
    requires node.Some? && EdgeOpen(c, weights, visited, via, current, k, negWeight, node.value, cell)
    requires OffsetMut(weights, current, Offsets[k]) == Some(cell)
    ensures current in via
    ensures Relaxing(c, EdgeUpdate(weights, queue, visited, current, negWeight, node, k).0,
                     EdgeUpdate(weights, queue, visited, current, negWeight, node, k).1, visited,
                     EdgeVia(weights, via, visited, current, negWeight, node, k), current, k + 1)
    ensures negWeight == -D(c, EdgeUpdate(weights, queue, visited, current, negWeight, node, k).0, current)
  {
    Relax(c, weights, queue, visited, via, current, k, negWeight, node.value, cell);
    EdgeUpdateOpen(weights, queue, visited, current, negWeight, node, k, cell);
    KeepsPopped(c, weights, current, cell, Lowered(weights, negWeight, node.value, cell));
  }

  /** Writing the weight of another cell leaves the weight of `u` alone. */
  lemma KeepsPopped(c: Cave, w: seq<seq<int>>, u: Pos, cell: (nat, nat), v: int)
    requires Shaped(c, w) && InBox(c, u) && cell.0 < |w| && cell.1 < |w[cell.0]| && cell != (u.1, u.0)
    ensures Shaped(c, SetWeight(w, cell, v)) && D(c, SetWeight(w, cell, v), u) == D(c, w, u)
  {
  }

  /** One step of the `for_each` in `dijkstra`: the edge from `current` in
      direction `k`, whose risk is `node`, is relaxed when it leads to an
      unvisited cell of the weights grid. */
  method RelaxNeighbor(weights: seq<seq<int>>, queue: map<Pos, int>, visited: set<Pos>,
                       current: Pos, negWeight: int, node: Option<int>, k: nat)
    returns (weights': seq<seq<int>>, queue': map<Pos, int>)
    requires k < 4
    ensures weights' == EdgeUpdate(weights, queue, visited, current, negWeight, node, k).0
    ensures queue' == EdgeUpdate(weights, queue, visited, current, negWeight, node, k).1
  {
    var pos := Add(current, Offsets[k]);
    if node.Some? && pos !in visited {
      var cell := OffsetMut(weights, current, Offsets[k]);
      if cell.Some? {
        weights', queue' := Lower(weights, queue, pos, negWeight, node.value, cell.value);
        EdgeUpdateOpen(weights, queue, visited, current, negWeight, node, k, cell.value);
        return;
      }
    }
    EdgeUpdateSkip(weights, queue, visited, current, negWeight, node, k);
    weights', queue' := weights, queue;
  }

  /** The body of the `while let` in `dijkstra` once `current`, which is
      not the goal, has come out of the queue: it leaves the queue, is
      marked visited, and the edges out of it are relaxed in `OFFSETS`
      order. */
  method Expand(input: seq<seq<int>>, part2: bool, ghost c: Cave, weights: seq<seq<int>>, queue: map<Pos, int>, visited: set<Pos>,
                ghost via: map<Pos, seq<Pos>>, current: Pos, negWeight: int)
    returns (weights': seq<seq<int>>, queue': map<Pos, int>, visited': set<Pos>, ghost via': map<Pos, seq<Pos>>)
    requires c.input == input && c.extend == part2
    requires Core(c, weights, queue, visited, via) && Relaxed(c, weights, visited, visited)
    requires IsMax(queue, current) && negWeight == queue[current] && current != c.goal
    ensures Core(c, weights', queue', visited', via') && Relaxed(c, weights', visited', visited')
    ensures visited' == visited + {current}
  {
    Visit(c, weights, queue, visited, via, current);
    weights', queue', via' := weights, queue - {current}, via;
    visited' := visited + {current};
    assert visited' - {current} == visited;
    var nodes := Neighbors(input, current, part2);
    for k := 0 to 4
      invariant Relaxing(c, weights', queue', visited', via', current, k)
      invariant negWeight == -D(c, weights', current)
    {
      EdgeUpdateRelaxes(c, weights', queue', visited', via', current, negWeight, nodes[k], k);
      via' := EdgeVia(weights', via', visited', current, negWeight, nodes[k], k);
      weights', queue' := RelaxNeighbor(weights', queue', visited', current, negWeight, nodes[k], k);
    }
    RelaxedAll(c, weights', visited', current);
  }

  /** Errors of `dijkstra`: indexing the first row of an empty input, or
      taking one from the length of an empty first row. */
  datatype Error = EmptyInput

  /** What `dijkstra` answers: the lowest total risk of a path to the
      goal, `i64::MAX` when no path leads there, and also `i64::MAX` when
      the goal is the start itself, whose weight is never written. */
  ghost predicate Answer(input: seq<seq<int>>, part2: bool, v: int)
    requires |input| > 0 && |input[0]| > 0
  {
    var c := Cave(input, part2, Goal(input, part2));
    if c.goal == (0, 0) then v == I64Max
    else if Reachable(c, c.goal) then Shortest(c, c.goal, v)
    else v == I64Max
  }

  /** `dijkstra`: the lowest total risk of a path from the top-left corner
      to the goal, or `i64::MAX` when there is none, and also when the goal
      is the start itself, whose weight is never written. */
  method Dijkstra(input: seq<seq<int>>, part2: bool) returns (r: Result<int, Error>)
    requires Digits(input)
    requires |input| > 0 && |input[0]| > 0 ==> Valid(Cave(input, part2, Goal(input, part2)))
    ensures r.Err? <==> |input| == 0 || |input[0]| == 0
    ensures r.Ok? ==> Answer(input, part2, r.value)
  {
    if |input| == 0 || |input[0]| == 0 {
      return Err(EmptyInput);
    }
    var goal := Goal(input, part2);
    ghost var c := Cave(input, part2, goal);
    var queue: map<Pos, int> := map[(0, 0) := 0];
    var weights := Unreached(goal);
    var visited: set<Pos> := {};
    ghost var via: map<Pos, seq<Pos>> := map[(0, 0) := [(0, 0)]];
    Start(c);
    while queue != map[]
      invariant Core(c, weights, queue, visited, via) && Relaxed(c, weights, visited, visited)
      decreases |Box(c) - visited|
    {
      var current, negWeight := PopMax(queue);
      if current == goal {
        if goal != (0, 0) {
          Found(c, weights, queue, visited, via);
        }
        return Ok(weights[goal.1][goal.0]);
      }
      ghost var before := visited;
      weights, queue, visited, via := Expand(input, part2, c, weights, queue, visited, via, current, negWeight);
      Shrinks(Box(c), before, current);
    }
    Exhausted(c, weights, visited, via);
    return Ok(weights[goal.1][goal.0]);
  }

  /** `main` after reading the file: the risk levels of the lines, then
      the answers of both parts. */
  method Solve(lines: seq<string>) returns (r: Result<(int, int), Error>)
    requires var input := Parse(lines);
      |input| > 0 && |input[0]| > 0 ==>
        Valid(Cave(input, false, Goal(input, false))) && Valid(Cave(input, true, Goal(input, true)))
    ensures r.Err? <==> |lines| == 0 || |Parse(lines)[0]| == 0
    ensures r.Ok? ==> Answer(Parse(lines), false, r.value.0) && Answer(Parse(lines), true, r.value.1)
  {
    var input := Parse(lines);
    var part1 := Dijkstra(input, false);
    if part1.Err? {
      return Err(part1.error);
    }
    var part2 := Dijkstra(input, true);
    return Ok((part1.value, part2.value));
  }
}
