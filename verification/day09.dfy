/** `day-09/src/main.rs`: smoke basin. The height map is a grid of digits.
    A low point is lower than every neighbour that exists; part one sums
    one plus the height of every low point. For part two every cell that is
    not a 9 flows downhill, always to its lowest lower neighbour, until it
    reaches a cell with no lower neighbour; each such cell collects one unit
    per cell that flows to it, and the answer is the product of the three
    largest collections. */
module Day09 {
  import opened Common

  type Grid = seq<seq<int>>
  type Pos = (int, int)

  /** Every height is a single digit. */
  predicate Digits(g: Grid)
  {
    forall y, x :: 0 <= y < |g| && 0 <= x < |g[y]| ==> 0 <= g[y][x] <= 9
  }

  /** The position is a cell of its row. */
  predicate InGrid(g: Grid, pos: Pos)
  {
    0 <= pos.1 < |g| && 0 <= pos.0 < |g[pos.1]|
  }

  function Height(g: Grid, pos: Pos): int
    requires InGrid(g, pos)
  {
    g[pos.1][pos.0]
  }

  /** `offset`: the height at `pos + d`, `None` off the grid. A negative
      coordinate cast to `usize` is at least 2^63, beyond the length of any
      vector, so it is `None` as well. */
  function Offset(g: Grid, pos: Pos, d: Pos): Option<int>
  {
    var (x, y) := (pos.0 + d.0, pos.1 + d.1);
    if 0 <= y < |g| && 0 <= x < |g[y]| then Some(g[y][x]) else None
  }

  /** An offset is `None` exactly off the grid, and the height there
      otherwise. */
  lemma OffsetOnGrid(g: Grid, pos: Pos, d: Pos)
    ensures Offset(g, pos, d).Some? <==> InGrid(g, (pos.0 + d.0, pos.1 + d.1))
    ensures Offset(g, pos, d).Some? ==> Offset(g, pos, d).value == Height(g, (pos.0 + d.0, pos.1 + d.1))
    ensures Offset(g, (-1, 0), (0, 0)).None? && Offset(g, (0, -1), (0, 0)).None?
  {
  }

  /** Direction `i`: right, down, left, up. */
  function Dir(i: nat): Pos
  {
    if i == 0 then (1, 0) else if i == 1 then (0, 1) else if i == 2 then (-1, 0) else (0, -1)
  }

  /** Entry `i` of `neighbors`. */
  function Neighbor(g: Grid, pos: Pos, i: nat): Option<int>
  {
    Offset(g, pos, Dir(i))
  }

  /** `neighbors`: right, down, left and up, in that order. */
  function Neighbors(g: Grid, pos: Pos): (r: seq<Option<int>>)
    ensures |r| == 4 && forall i :: 0 <= i < 4 ==> r[i] == Neighbor(g, pos, i)
    ensures r == [Offset(g, pos, (1, 0)), Offset(g, pos, (0, 1)), Offset(g, pos, (-1, 0)), Offset(g, pos, (0, -1))]
  {
    [Neighbor(g, pos, 0), Neighbor(g, pos, 1), Neighbor(g, pos, 2), Neighbor(g, pos, 3)]
  }

  /** Every neighbour that exists is strictly higher than the cell. */
  predicate IsLowPoint(g: Grid, pos: Pos)
    requires InGrid(g, pos)
  {
    forall i :: 0 <= i < 4 && Neighbor(g, pos, i).Some? ==> Height(g, pos) < Neighbor(g, pos, i).value
  }

  /** A low point is strictly below each of the (up to four) grid cells next
      to it, and a cell strictly below all of them is a low point. */
  lemma LowPointMeaning(g: Grid, pos: Pos)
    requires InGrid(g, pos)
    ensures IsLowPoint(g, pos) <==>
      forall i :: 0 <= i < 4 && InGrid(g, (pos.0 + Dir(i).0, pos.1 + Dir(i).1)) ==>
        Height(g, pos) < Height(g, (pos.0 + Dir(i).0, pos.1 + Dir(i).1))
  {
    forall i | 0 <= i < 4
      ensures Neighbor(g, pos, i).Some? <==> InGrid(g, (pos.0 + Dir(i).0, pos.1 + Dir(i).1))
      ensures Neighbor(g, pos, i).Some? ==> Neighbor(g, pos, i).value == Height(g, (pos.0 + Dir(i).0, pos.1 + Dir(i).1))
    {
      OffsetOnGrid(g, pos, Dir(i));
    }
  }

  // ---------------------------------------------------------------------
  // Part one

  /** What the cell adds to the risk sum: one plus its height at a low point. */
  function Risk(g: Grid, pos: Pos): int
    requires InGrid(g, pos)
  {
    if IsLowPoint(g, pos) then 1 + Height(g, pos) else 0
  }

  /** Every row is at least as long as the first, so that the sweep over the
      first row's width stays inside each row. */
  predicate Sweepable(g: Grid)
  {
    forall y :: 0 <= y < |g| ==> |g[y]| >= |g[0]|
  }

  function RowRisk(g: Grid, y: nat, n: nat): int
    requires y < |g| && n <= |g[y]|
  {
    if n == 0 then 0 else RowRisk(g, y, n - 1) + Risk(g, (n - 1, y))
  }

  function GridRisk(g: Grid, n: nat): int
    requires n <= |g| && Sweepable(g)
  {
    if n == 0 then 0 else GridRisk(g, n - 1) + RowRisk(g, n - 1, |g[0]|)
  }

  /** The cells of the first `n` columns of row `y` that are low points. */
  ghost function LowPoints(g: Grid, y: nat, n: nat): set<nat>
    requires y < |g| && n <= |g[y]|
  {
    set x: nat | x < n && IsLowPoint(g, (x, y))
  }

  /** A low point adds between 1 and 10, any other cell nothing. */
  lemma RiskRange(g: Grid, pos: Pos)
    requires Digits(g) && InGrid(g, pos)
    ensures IsLowPoint(g, pos) ==> 1 <= Risk(g, pos) <= 10
    ensures !IsLowPoint(g, pos) ==> Risk(g, pos) == 0
  {
  }

  /** The risk sum counts at least one for every low point of the sweep and
      nothing for any other cell: it lies between the number of low points
      and ten times that number. */
  lemma {:induction false} RowRiskBounds(g: Grid, y: nat, n: nat)
    requires Digits(g) && y < |g| && n <= |g[y]|
    ensures |LowPoints(g, y, n)| <= RowRisk(g, y, n) <= 10 * |LowPoints(g, y, n)|
  {
    if n > 0 {
      RowRiskBounds(g, y, n - 1);
      RiskRange(g, (n - 1, y));
      var prev := LowPoints(g, y, n - 1);
      var all := LowPoints(g, y, n);
      if IsLowPoint(g, (n - 1, y)) {
        assert all == prev + {n - 1};
        assert |all| == |prev| + 1;
      } else {
        assert all == prev;
      }
    }
  }

  /** The loop over the four neighbours: the cell is strictly below each
      that exists. */
  method CheckLow(g: Grid, pos: Pos) returns (low: bool)
    requires InGrid(g, pos)
    ensures low == IsLowPoint(g, pos)
  {
    var center := g[pos.1][pos.0];
    var n := Neighbors(g, pos);
    low := true;
    for i := 0 to 4
      invariant low <==> forall j :: 0 <= j < i && n[j].Some? ==> center < n[j].value
    {
      if n[i].Some? && !(center < n[i].value) {
        low := false;
      }
    }
  }

  /** The inner loop of part one over one row. */
  method RiskRow(g: Grid, y: nat) returns (row: int)
    requires Sweepable(g) && y < |g|
    ensures row == RowRisk(g, y, |g[0]|)
  {
    row := 0;
    for x := 0 to |g[0]|
      invariant row == RowRisk(g, y, x)
    {
      var low := CheckLow(g, (x, y));
      if low {
        row := row + 1 + g[y][x];
      }
    }
  }

  /** The double loop of part one. */
  method Part1(g: Grid) returns (sum: int)
    requires Sweepable(g)
    ensures sum == GridRisk(g, |g|)
  {
    sum := 0;
    for y := 0 to |g|
      invariant sum == GridRisk(g, y)
    {
      var row := RiskRow(g, y);
      sum := sum + row;
    }
  }

  // ---------------------------------------------------------------------
  // Descent

  /** One step of `min_by_key` over the neighbours lower than the cell,
      each kept with the index of its direction: neighbour `i` replaces the
      best so far only when it exists, is lower than the cell, and is
      strictly lower than the best so far, so of equal keys the first stays. */
  function Fold(g: Grid, pos: Pos, best: Option<(int, nat)>, i: nat): Option<(int, nat)>
    requires InGrid(g, pos) && i < 4
  {
    var n := Neighbor(g, pos, i);
    if n.Some? && Height(g, pos) > n.value && (best.None? || n.value < best.value.0) then Some((n.value, i))
    else best
  }

  /** `min_by_key` over neighbours `i` to 3, starting from `best`. */
  function Lowest(g: Grid, pos: Pos, best: Option<(int, nat)>, i: nat): Option<(int, nat)>
    requires InGrid(g, pos) && i <= 4
    decreases 4 - i
  {
    if i == 4 then best else Lowest(g, pos, Fold(g, pos, best, i), i + 1)
  }

  /** The move of one iteration of the descent loop, `None` at a cell with
      no lower neighbour. */
  function Next(g: Grid, pos: Pos): (r: Option<Pos>)
    requires InGrid(g, pos)
  {
    var best := Lowest(g, pos, None, 0);
    if best.Some? && best.value.1 < 4 then Some(Dir(best.value.1)) else None
  }

  /** After the first `k` neighbours: `None` exactly when none of them is
      lower than the cell; otherwise the first of the lowest of them. */
  ghost predicate FoldInvariant(g: Grid, pos: Pos, best: Option<(int, nat)>, k: nat)
    requires InGrid(g, pos) && k <= 4
  {
    var h := Height(g, pos);
    (best.None? <==> forall j :: 0 <= j < k && Neighbor(g, pos, j).Some? ==> Neighbor(g, pos, j).value >= h) &&
    (best.Some? ==>
      var (v, i) := best.value;
      i < k && Neighbor(g, pos, i) == Some(v) && v < h &&
      (forall j :: 0 <= j < k && Neighbor(g, pos, j).Some? && Neighbor(g, pos, j).value < h ==> v <= Neighbor(g, pos, j).value) &&
      (forall j :: 0 <= j < i && Neighbor(g, pos, j).Some? ==> Neighbor(g, pos, j).value != v))
  }

  lemma FoldStep(g: Grid, pos: Pos, best: Option<(int, nat)>, k: nat)
    requires InGrid(g, pos) && k < 4 && FoldInvariant(g, pos, best, k)
    ensures FoldInvariant(g, pos, Fold(g, pos, best, k), k + 1)
  {
  }

  /** The move goes to a lowest lower neighbour, the first of several as
      low, and there is none exactly when no neighbour is lower. */
  lemma NextIsLowest(g: Grid, pos: Pos) returns (i: nat)
    requires InGrid(g, pos)
    ensures Next(g, pos).None? <==>
      forall j :: 0 <= j < 4 && Neighbor(g, pos, j).Some? ==> Neighbor(g, pos, j).value >= Height(g, pos)
    ensures Next(g, pos).Some? ==>
      i < 4 && Next(g, pos).value == Dir(i) && Neighbor(g, pos, i).Some? && Neighbor(g, pos, i).value < Height(g, pos) &&
      (forall j :: 0 <= j < 4 && Neighbor(g, pos, j).Some? && Neighbor(g, pos, j).value < Height(g, pos) ==>
        Neighbor(g, pos, i).value <= Neighbor(g, pos, j).value) &&
      (forall j :: 0 <= j < i && Neighbor(g, pos, j).Some? ==> Neighbor(g, pos, j).value != Neighbor(g, pos, i).value)
  {
    LowestInvariant(g, pos, None, 0);
    var best := Lowest(g, pos, None, 0);
    i := if best.Some? then best.value.1 else 0;
  }

  lemma {:induction false} LowestInvariant(g: Grid, pos: Pos, best: Option<(int, nat)>, k: nat)
    requires InGrid(g, pos) && k <= 4 && FoldInvariant(g, pos, best, k)
    ensures FoldInvariant(g, pos, Lowest(g, pos, best, k), 4)
    decreases 4 - k
  {
    if k < 4 {
      FoldStep(g, pos, best, k);
      LowestInvariant(g, pos, Fold(g, pos, best, k), k + 1);
    }
  }

  /** The move lands on a cell of the grid lower than the current one. */
  lemma NextIsLower(g: Grid, pos: Pos)
    requires InGrid(g, pos) && Next(g, pos).Some?
    ensures InGrid(g, (pos.0 + Next(g, pos).value.0, pos.1 + Next(g, pos).value.1))
    ensures Height(g, (pos.0 + Next(g, pos).value.0, pos.1 + Next(g, pos).value.1)) < Height(g, pos)
  {
    var i := NextIsLowest(g, pos);
    OffsetOnGrid(g, pos, Dir(i));
  }

  /** The cell the move of `Next` leads to. */
  function Succ(g: Grid, pos: Pos): Pos
    requires InGrid(g, pos) && Next(g, pos).Some?
  {
    (pos.0 + Next(g, pos).value.0, pos.1 + Next(g, pos).value.1)
  }

  /** Where the descent from `pos` stops. */
  function Sink(g: Grid, pos: Pos): Pos
    requires Digits(g) && InGrid(g, pos)
    decreases Height(g, pos)
  {
    if Next(g, pos).None? then pos
    else
      NextIsLower(g, pos);
      Sink(g, Succ(g, pos))
  }

  /** A cell none of whose neighbours is lower. */
  ghost predicate IsBottom(g: Grid, pos: Pos)
    requires InGrid(g, pos)
  {
    forall j :: 0 <= j < 4 && Neighbor(g, pos, j).Some? ==> Neighbor(g, pos, j).value >= Height(g, pos)
  }

  lemma SinkStep(g: Grid, pos: Pos)
    requires Digits(g) && InGrid(g, pos) && Next(g, pos).Some?
    ensures InGrid(g, Succ(g, pos)) && Height(g, Succ(g, pos)) < Height(g, pos)
    ensures Sink(g, pos) == Sink(g, Succ(g, pos))
  {
    NextIsLower(g, pos);
  }

  lemma SinkStop(g: Grid, pos: Pos)
    requires Digits(g) && InGrid(g, pos) && Next(g, pos).None?
    ensures Sink(g, pos) == pos && IsBottom(g, pos)
  {
    var _ := NextIsLowest(g, pos);
  }

  /** The descent ends on a cell of the grid, no higher than where it
      started, with no lower neighbour. */
  lemma {:induction false} SinkIsBottom(g: Grid, pos: Pos)
    requires Digits(g) && InGrid(g, pos)
    ensures InGrid(g, Sink(g, pos)) && IsBottom(g, Sink(g, pos))
    ensures Height(g, Sink(g, pos)) <= Height(g, pos)
    decreases Height(g, pos)
  {
    if Next(g, pos).Some? {
      SinkStep(g, pos);
      SinkIsBottom(g, Succ(g, pos));
    } else {
      SinkStop(g, pos);
    }
  }

  /** A low point is its own sink: every low point ends a basin. */
  lemma LowPointIsSink(g: Grid, pos: Pos)
    requires Digits(g) && InGrid(g, pos) && IsLowPoint(g, pos)
    ensures Sink(g, pos) == pos
  {
    var _ := NextIsLowest(g, pos);
  }

  /** The `loop` of part two: step to the lowest lower neighbour until
      there is none. */
  method Descend(g: Grid, start: Pos) returns (pos: Pos)
    requires Digits(g) && InGrid(g, start)
    ensures pos == Sink(g, start)
  {
    pos := start;
    while true
      invariant InGrid(g, pos) && Sink(g, pos) == Sink(g, start)
      decreases Height(g, pos)
    {
      if Next(g, pos).Some? {
        SinkStep(g, pos);
        pos := Succ(g, pos);
      } else {
        SinkStop(g, pos);
        return;
      }
    }
  }

  // ---------------------------------------------------------------------
  // Basins

  /** `*basin_scores.entry(pos).or_insert(0) += 1`. */
  function Add(m: map<Pos, int>, k: Pos): map<Pos, int>
  {
    m[k := (if k in m then m[k] else 0) + 1]
  }

  /** The basin sizes after the first `n` cells of row `y`, starting from
      `m`; a 9 joins no basin. */
  function RowBasins(g: Grid, m: map<Pos, int>, y: nat, n: nat): map<Pos, int>
    requires Digits(g) && y < |g| && n <= |g[y]|
  {
    if n == 0 then m
    else
      var m' := RowBasins(g, m, y, n - 1);
      if g[y][n - 1] == 9 then m' else Add(m', Sink(g, (n - 1, y)))
  }

  function GridBasins(g: Grid, n: nat): map<Pos, int>
    requires Digits(g) && Sweepable(g) && n <= |g|
  {
    if n == 0 then map[] else RowBasins(g, GridBasins(g, n - 1), n - 1, |g[0]|)
  }

  /** The number of cells in the first `n` columns of row `y` that are not 9. */
  function RowNonNine(g: Grid, y: nat, n: nat): nat
    requires y < |g| && n <= |g[y]|
  {
    if n == 0 then 0 else RowNonNine(g, y, n - 1) + (if g[y][n - 1] == 9 then 0 else 1)
  }

  function GridNonNine(g: Grid, n: nat): nat
    requires Sweepable(g) && n <= |g|
  {
    if n == 0 then 0 else GridNonNine(g, n - 1) + RowNonNine(g, n - 1, |g[0]|)
  }

  /** The sum of the values of a map, in no particular order. */
  ghost function Total(m: map<Pos, int>): int
    decreases |m|
  {
    if m == map[] then 0
    else
      var k :| k in m;
      m[k] + Total(m - {k})
  }

  lemma {:induction false} TotalAny(m: map<Pos, int>, k: Pos)
    requires k in m
    ensures Total(m) == m[k] + Total(m - {k})
    decreases |m|
  {
    var j :| j in m && Total(m) == m[j] + Total(m - {j});
    if j != k {
      TotalAny(m - {j}, k);
      TotalAny(m - {k}, j);
      assert m - {j} - {k} == m - {k} - {j};
    }
  }

  /** Adding a cell to a basin adds exactly one to the total. */
  lemma TotalAdd(m: map<Pos, int>, k: Pos)
    ensures Total(Add(m, k)) == Total(m) + 1
  {
    var m' := Add(m, k);
    TotalAny(m', k);
    assert m' - {k} == m - {k};
    if k in m {
      TotalAny(m, k);
    } else {
      assert m - {k} == m;
    }
  }

  /** Every basin is keyed by a cell with no lower neighbour. */
  ghost predicate SinksOnly(g: Grid, m: map<Pos, int>)
  {
    forall k :: k in m ==> InGrid(g, k) && IsBottom(g, k)
  }

  /** Each cell that is not a 9 adds exactly one to one basin: the sizes
      add up to the number of such cells. */
  lemma {:induction false} RowBasinsTotal(g: Grid, m: map<Pos, int>, y: nat, n: nat)
    requires Digits(g) && y < |g| && n <= |g[y]|
    ensures Total(RowBasins(g, m, y, n)) == Total(m) + RowNonNine(g, y, n)
  {
    if n > 0 {
      RowBasinsTotal(g, m, y, n - 1);
      if g[y][n - 1] != 9 {
        TotalAdd(RowBasins(g, m, y, n - 1), Sink(g, (n - 1, y)));
      }
    }
  }

  /** The cell a basin is keyed by is where some descent ended: it has no
      lower neighbour. */
  lemma {:induction false} RowBasinsSinks(g: Grid, m: map<Pos, int>, y: nat, n: nat)
    requires Digits(g) && y < |g| && n <= |g[y]| && SinksOnly(g, m)
    ensures SinksOnly(g, RowBasins(g, m, y, n))
  {
    if n > 0 {
      RowBasinsSinks(g, m, y, n - 1);
      if g[y][n - 1] != 9 {
        var s := Sink(g, (n - 1, y));
        SinkIsBottom(g, (n - 1, y));
        assert RowBasins(g, m, y, n) == Add(RowBasins(g, m, y, n - 1), s);
        assert RowBasins(g, m, y, n).Keys == RowBasins(g, m, y, n - 1).Keys + {s};
      }
    }
  }

  /** Over the whole grid the basin sizes add up to the number of cells
      that are not 9. */
  lemma {:induction false} GridBasinsTotal(g: Grid, n: nat)
    requires Digits(g) && Sweepable(g) && n <= |g|
    ensures Total(GridBasins(g, n)) == GridNonNine(g, n)
  {
    if n > 0 {
      GridBasinsTotal(g, n - 1);
      RowBasinsTotal(g, GridBasins(g, n - 1), n - 1, |g[0]|);
    }
  }

  /** Over the whole grid every basin ends at a cell with no lower
      neighbour. */
  lemma {:induction false} GridBasinsSinks(g: Grid, n: nat)
    requires Digits(g) && Sweepable(g) && n <= |g|
    ensures SinksOnly(g, GridBasins(g, n))
  {
    if n > 0 {
      GridBasinsSinks(g, n - 1);
      RowBasinsSinks(g, GridBasins(g, n - 1), n - 1, |g[0]|);
    }
  }

  /** The inner loop of part two over one row. */
  method BasinsRow(g: Grid, basins: map<Pos, int>, y: nat) returns (r: map<Pos, int>)
    requires Digits(g) && Sweepable(g) && y < |g|
    ensures r == RowBasins(g, basins, y, |g[0]|)
  {
    r := basins;
    for x := 0 to |g[0]|
      invariant r == RowBasins(g, basins, y, x)
    {
      var center := g[y][x];
      if center == 9 {
        continue;
      }
      var pos := Descend(g, (x, y));
      r := Add(r, pos);
    }
  }

  /** The double loop of part two. */
  method Basins(g: Grid) returns (basins: map<Pos, int>)
    requires Digits(g) && Sweepable(g)
    ensures basins == GridBasins(g, |g|)
  {
    basins := map[];
    for y := 0 to |g|
      invariant basins == GridBasins(g, y)
    {
      basins := BasinsRow(g, basins, y);
    }
  }

  // ---------------------------------------------------------------------
  // The three largest basins

  /** The values of a map, in no particular order. */
  ghost function ValueList(m: map<Pos, int>): seq<int>
    decreases |m|
  {
    if m == map[] then []
    else
      var k :| k in m;
      [m[k]] + ValueList(m - {k})
  }

  /** The values of a map, with their multiplicities. */
  ghost function Bag(m: map<Pos, int>): multiset<int>
  {
    multiset(ValueList(m))
  }

  lemma {:induction false} BagAny(m: map<Pos, int>, k: Pos)
    requires k in m
    ensures Bag(m) == multiset{m[k]} + Bag(m - {k})
    decreases |m|
  {
    var j :| j in m && ValueList(m) == [m[j]] + ValueList(m - {j});
    assert Bag(m) == multiset{m[j]} + Bag(m - {j});
    if j != k {
      var both := m - {j} - {k};
      assert m - {k} - {j} == both;
      assert (m - {j})[k] == m[k] && (m - {k})[j] == m[j];
      BagAny(m - {j}, k);
      BagAny(m - {k}, j);
    }
  }

  /** `basin_scores.values()`, in the map's iteration order. */
  method Values(m: map<Pos, int>) returns (vals: seq<int>)
    ensures multiset(vals) == Bag(m)
  {
    vals := [];
    var rest := m;
    while rest != map[]
      invariant multiset(vals) + Bag(rest) == Bag(m)
      decreases |rest|
    {
      var k := Pick(rest.Keys);
      BagAny(rest, k);
      vals := vals + [rest[k]];
      rest := rest - {k};
    }
    assert Bag(rest) == multiset{};
  }

  predicate Descending(s: seq<int>)
  {
    forall i, j :: 0 <= i < j < |s| ==> s[i] >= s[j]
  }

  function InsertDescending(x: int, s: seq<int>): (r: seq<int>)
    requires Descending(s)
    ensures Descending(r) && multiset(r) == multiset(s) + multiset{x}
  {
    if s == [] || x >= s[0] then [x] + s
    else
      assert s == [s[0]] + s[1..];
      var rest := InsertDescending(x, s[1..]);
      AtMostHead(s, x, rest);
      [s[0]] + rest
  }

  /** Putting the head of `s` in front of `s[1..]` with `x` inserted keeps
      the sequence descending, since `x` is below the head. */
  lemma AtMostHead(s: seq<int>, x: int, rest: seq<int>)
    requires Descending(s) && s != [] && x < s[0] && Descending(rest)
    requires multiset(rest) == multiset(s[1..]) + multiset{x}
    ensures Descending([s[0]] + rest)
    ensures multiset([s[0]] + rest) == multiset(s) + multiset{x}
  {
    assert s == [s[0]] + s[1..];
    forall i | 0 <= i < |rest|
      ensures rest[i] <= s[0]
    {
      assert rest[i] in multiset(rest);
      if rest[i] != x {
        assert rest[i] in multiset(s[1..]);
        var j :| 0 <= j < |s[1..]| && s[1..][j] == rest[i];
        assert s[j + 1] == rest[i];
      }
    }
    ConsDescending(s[0], rest);
  }

  lemma ConsDescending(h: int, rest: seq<int>)
    requires Descending(rest) && forall i :: 0 <= i < |rest| ==> rest[i] <= h
    ensures Descending([h] + rest)
  {
    var r := [h] + rest;
    forall i, j | 0 <= i < j < |r|
      ensures r[i] >= r[j]
    {
      assert r[j] == rest[j - 1];
      if i > 0 {
        assert r[i] == rest[i - 1];
      }
    }
  }

  /** `sorted().rev()`: the values from largest to smallest. */
  function SortDescending(s: seq<int>): (r: seq<int>)
    ensures Descending(r) && multiset(r) == multiset(s)
  {
    if s == [] then []
    else
      assert s == [s[0]] + s[1..];
      InsertDescending(s[0], SortDescending(s[1..]))
  }

  /** The first element of a descending sequence is its largest. */
  lemma HeadIsMax(a: seq<int>, v: int)
    requires Descending(a) && v in multiset(a)
    ensures a != [] && v <= a[0]
  {
    var i :| 0 <= i < |a| && a[i] == v;
  }

  /** Two descending sequences with the same elements start alike. */
  lemma SameHead(a: seq<int>, b: seq<int>)
    requires Descending(a) && Descending(b) && multiset(a) == multiset(b) && a != []
    ensures b != [] && a[0] == b[0]
  {
    assert a[0] in multiset(a);
    HeadIsMax(b, a[0]);
    assert b[0] in multiset(b);
    HeadIsMax(a, b[0]);
  }

  /** What follows the head holds the other elements. */
  lemma TailBag(a: seq<int>)
    requires a != []
    ensures multiset(a[1..]) == multiset(a) - multiset{a[0]}
  {
    assert a == [a[0]] + a[1..];
  }

  /** Two descending sequences with the same elements are the same: the
      order the values come out of the map does not matter. */
  lemma {:induction false} DescendingUnique(a: seq<int>, b: seq<int>)
    requires Descending(a) && Descending(b) && multiset(a) == multiset(b)
    ensures a == b
  {
    if a == [] {
      assert |b| == |multiset(b)| == 0;
    } else {
      SameHead(a, b);
      TailBag(a);
      TailBag(b);
      assert Descending(a[1..]) && Descending(b[1..]);
      DescendingUnique(a[1..], b[1..]);
      assert a == [a[0]] + a[1..] && b == [b[0]] + b[1..];
    }
  }

  /** `take(3).product()`: the product of at most the first three. */
  function TopProduct(sorted: seq<int>): int
  {
    Product(sorted[..Min(3, |sorted|)])
  }

  /** The product of the three largest basins, whatever order the map
      yields its values in. */
  ghost function LargestThree(m: map<Pos, int>): int
  {
    TopProduct(SortDescending(ValueList(m)))
  }

  /** Any listing of the values gives the same answer. */
  lemma LargestThreeOf(m: map<Pos, int>, vals: seq<int>)
    requires multiset(vals) == Bag(m)
    ensures LargestThree(m) == TopProduct(SortDescending(vals))
  {
    DescendingUnique(SortDescending(ValueList(m)), SortDescending(vals));
  }

  /** No value left out of the first three of a descending sequence is
      larger than one taken into them. */
  lemma TopThreeAreLargest(s: seq<int>)
    requires Descending(s)
    ensures forall i, v :: 0 <= i < Min(3, |s|) && v in multiset(s) - multiset(s[..Min(3, |s|)]) ==> v <= s[i]
  {
    var t := Min(3, |s|);
    assert s == s[..t] + s[t..];
    assert multiset(s) == multiset(s[..t]) + multiset(s[t..]);
    forall i, v | 0 <= i < t && v in multiset(s) - multiset(s[..t])
      ensures v <= s[i]
    {
      assert v in multiset(s[t..]);
      var j :| 0 <= j < |s[t..]| && s[t..][j] == v;
      assert s[t + j] == v;
    }
  }

  /** Part two: the product of the three largest basin sizes. */
  method Part2(basins: map<Pos, int>) returns (r: int)
    ensures r == LargestThree(basins)
  {
    var vals := Values(basins);
    LargestThreeOf(basins, vals);
    r := TopProduct(SortDescending(vals));
  }

  // ---------------------------------------------------------------------
  // Input

  /** One line: each character that parses as a number, as its digit;
      the others are dropped. */
  function ParseLine(line: string): (row: seq<int>)
    ensures |row| <= |line| && forall x :: 0 <= x < |row| ==> 0 <= row[x] <= 9
  {
    if line == [] then []
    else
      var rest := ParseLine(line[1..]);
      if IsDigit(line[0]) then [line[0] as int - '0' as int] + rest else rest
  }

  function Parse(lines: seq<string>): (g: Grid)
    ensures |g| == |lines| && Digits(g)
    ensures forall y :: 0 <= y < |g| ==> g[y] == ParseLine(lines[y])
  {
    if lines == [] then [] else [ParseLine(lines[0])] + Parse(lines[1..])
  }

  /** `main`: both parts on the parsed lines. */
  method Solve(lines: seq<string>) returns (part1: int, part2: int)
    requires Sweepable(Parse(lines))
    ensures part1 == GridRisk(Parse(lines), |lines|)
    ensures part2 == LargestThree(GridBasins(Parse(lines), |lines|))
  {
    var g := Parse(lines);
    part1 := Part1(g);
    var basins := Basins(g);
    part2 := Part2(basins);
  }
}
