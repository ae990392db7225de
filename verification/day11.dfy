/** `day-11/src/main.rs`: dumbo octopuses. `process` raises one energy
    level and, when it reaches exactly 10, flashes: it counts one flash and
    processes the eight neighbours. `step` processes every cell and then
    resets every level above 9 to 0. The functions below are the reference
    the grid-mutating methods of `Octopuses` are proved against. */
module Day11 {
  import opened Common
  import opened Grids

  /** `OFFSETS`, in the source's order. */
  const Offsets: seq<(int, int)> := [(1, 0), (0, 1), (-1, 0), (0, -1), (1, 1), (-1, 1), (-1, -1), (1, -1)]

  /** An octopus that has not reached 10 yet in this step. */
  predicate Unflashed(v: int)
  {
    v < 10
  }

  predicate Flashed(v: int)
  {
    v >= 10
  }

  predicate IsZero(v: int)
  {
    v == 0
  }

  predicate IsLevel(v: int)
  {
    0 <= v <= 9
  }

  /** No level falls, and a negative level (which `process` skips) stays. */
  predicate Grows(a: Grid<int>, b: Grid<int>)
  {
    SameShape(a, b) &&
    forall y, x :: 0 <= y < |a| && 0 <= x < |a[y]| ==> a[y][x] <= b[y][x] && (a[y][x] < 0 ==> b[y][x] == a[y][x])
  }

  lemma GrowsTrans(a: Grid<int>, b: Grid<int>, c: Grid<int>)
    requires Grows(a, b) && Grows(b, c)
    ensures Grows(a, c)
  {
  }

  function Neighbour(pos: (int, int), k: nat): (int, int)
    requires k < 8
  {
    (pos.0 + Offsets[k].0, pos.1 + Offsets[k].1)
  }

  /** `process`: the new grid and the number of flashes; an off-grid
      position changes nothing. */
  function ProcessGrid(g: Grid<int>, pos: (int, int)): (r: (Grid<int>, nat))
    ensures |r.0| == |g|
    ensures !OnGrid(g, pos) ==> r == (g, 0)
    decreases Count(g, Unflashed), 1
  {
    if !OnGrid(g, pos) || g[pos.1][pos.0] < 0 then (g, 0)
    else
      var v := g[pos.1][pos.0] + 1;
      CountSet(g, pos, v, Unflashed);
      var h := Set(g, pos, v);
      if v == 10 then
        var r := NeighboursGrid(h, pos, 0);
        (r.0, 1 + r.1)
      else (h, 0)
  }

  /** The neighbours from the `k`-th offset on, processed in order. */
  function NeighboursGrid(g: Grid<int>, pos: (int, int), k: nat): (r: (Grid<int>, nat))
    requires k <= 8
    ensures |r.0| == |g|
    decreases Count(g, Unflashed) + 1, 0, 8 - k
  {
    if k == 8 then (g, 0)
    else
      var first := ProcessGrid(g, Neighbour(pos, k));
      ProcessCount(g, Neighbour(pos, k));
      var rest := NeighboursGrid(first.0, pos, k + 1);
      (rest.0, first.1 + rest.1)
  }

  /** Every flash is a level crossing from below 10 to 10, so the flashes
      of `process` are exactly the drop in the number of unflashed
      octopuses. */
  lemma {:induction false} ProcessCount(g: Grid<int>, pos: (int, int))
    ensures var r := ProcessGrid(g, pos);
      r.1 + Count(r.0, Unflashed) == Count(g, Unflashed)
    decreases Count(g, Unflashed), 2
  {
    if OnGrid(g, pos) && g[pos.1][pos.0] >= 0 {
      var v := g[pos.1][pos.0] + 1;
      CountSet(g, pos, v, Unflashed);
      var h := Set(g, pos, v);
      if v == 10 {
        NeighboursCount(h, pos, 0);
      }
    }
  }

  lemma {:induction false} NeighboursCount(g: Grid<int>, pos: (int, int), k: nat)
    requires k <= 8
    ensures var r := NeighboursGrid(g, pos, k);
      r.1 + Count(r.0, Unflashed) == Count(g, Unflashed)
    decreases Count(g, Unflashed) + 1, 1, 8 - k
  {
    if k < 8 {
      var first := ProcessGrid(g, Neighbour(pos, k));
      ProcessCount(g, Neighbour(pos, k));
      NeighboursCount(first.0, pos, k + 1);
    }
  }

  /** `process` only raises levels, skips negative ones, and raises the
      level at `pos` when that is on the grid and not negative. */
  lemma {:induction false} ProcessGrows(g: Grid<int>, pos: (int, int))
    ensures Grows(g, ProcessGrid(g, pos).0)
    ensures OnGrid(g, pos) && g[pos.1][pos.0] >= 0 ==> ProcessGrid(g, pos).0[pos.1][pos.0] > g[pos.1][pos.0]
    decreases Count(g, Unflashed), 1
  {
    if OnGrid(g, pos) && g[pos.1][pos.0] >= 0 {
      var v := g[pos.1][pos.0] + 1;
      CountSet(g, pos, v, Unflashed);
      var h := Set(g, pos, v);
      if v == 10 {
        NeighboursGrows(h, pos, 0);
        GrowsTrans(g, h, NeighboursGrid(h, pos, 0).0);
      }
    }
  }

  lemma {:induction false} NeighboursGrows(g: Grid<int>, pos: (int, int), k: nat)
    requires k <= 8
    ensures Grows(g, NeighboursGrid(g, pos, k).0)
    decreases Count(g, Unflashed) + 1, 0, 8 - k
  {
    if k < 8 {
      var first := ProcessGrid(g, Neighbour(pos, k));
      ProcessGrows(g, Neighbour(pos, k));
      ProcessCount(g, Neighbour(pos, k));
      NeighboursGrows(first.0, pos, k + 1);
      GrowsTrans(g, first.0, NeighboursGrid(first.0, pos, k + 1).0);
    }
  }

  /** Processing the `k`-th neighbour, reaching `h` with `n` flashes,
      leaves the remaining neighbours to process from `h`. */
  lemma NeighboursNext(g: Grid<int>, pos: (int, int), k: nat, h: Grid<int>, n: nat)
    requires k < 8 && (h, n) == ProcessGrid(g, Neighbour(pos, k))
    ensures NeighboursGrid(g, pos, k).0 == NeighboursGrid(h, pos, k + 1).0
    ensures NeighboursGrid(g, pos, k).1 == n + NeighboursGrid(h, pos, k + 1).1
    ensures Count(h, Unflashed) <= Count(g, Unflashed)
  {
    ProcessCount(g, Neighbour(pos, k));
  }

  /** The `for y`/`for x` loops of `step` from cell `(x, y)` on, `w` being
      the length of the first row. */
  function SweepGrid(g: Grid<int>, h: nat, w: nat, y: nat, x: nat): (r: (Grid<int>, nat))
    requires |g| == h
    ensures |r.0| == h
    decreases h - y, w - x
  {
    if y >= h then (g, 0)
    else if x >= w then SweepGrid(g, h, w, y + 1, 0)
    else
      var first := ProcessGrid(g, (x, y));
      var rest := SweepGrid(first.0, h, w, y, x + 1);
      (rest.0, first.1 + rest.1)
  }

  /** The flashes of a sweep are the drop in unflashed octopuses. */
  lemma {:induction false} SweepCount(g: Grid<int>, h: nat, w: nat, y: nat, x: nat)
    requires |g| == h
    ensures var r := SweepGrid(g, h, w, y, x);
      r.1 + Count(r.0, Unflashed) == Count(g, Unflashed)
    decreases h - y, w - x
  {
    if y >= h {
    } else if x >= w {
      SweepCount(g, h, w, y + 1, 0);
    } else {
      var first := ProcessGrid(g, (x, y));
      ProcessCount(g, (x, y));
      SweepCount(first.0, h, w, y, x + 1);
    }
  }

  /** Processing cell `(x, y)`, reaching `g'` with `n` flashes, leaves the
      rest of the sweep to do from `g'`. */
  lemma SweepNext(g: Grid<int>, h: nat, w: nat, y: nat, x: nat, g': Grid<int>, n: nat)
    requires |g| == h && y < h && x < w && (g', n) == ProcessGrid(g, (x, y))
    ensures SweepGrid(g, h, w, y, x).0 == SweepGrid(g', h, w, y, x + 1).0
    ensures SweepGrid(g, h, w, y, x).1 == n + SweepGrid(g', h, w, y, x + 1).1
  {
  }

  function ResetCell(v: int): int
  {
    if v > 9 then 0 else v
  }

  /** The reset loop of `step`: every level above 9 becomes 0, and no other
      level changes. */
  function Reset(g: Grid<int>): (r: Grid<int>)
    ensures SameShape(g, r)
    ensures forall y, x :: 0 <= y < |g| && 0 <= x < |g[y]| ==> r[y][x] == if g[y][x] > 9 then 0 else g[y][x]
  {
    seq(|g|, y requires 0 <= y < |g| => seq(|g[y]|, x requires 0 <= x < |g[y]| => ResetCell(g[y][x])))
  }

  function Width(g: Grid<int>): nat
  {
    if g == [] then 0 else |g[0]|
  }

  /** `step`: the grid after one step and its number of flashes. */
  function StepGrid(g: Grid<int>): (r: (Grid<int>, nat))
    ensures |r.0| == |g|
  {
    var swept := SweepGrid(g, |g|, Width(g), 0, 0);
    (Reset(swept.0), swept.1)
  }

  // ---------------------------------------------------------------------
  // What a step does to a grid of digits

  /** A sweep from `(x, y)` on raises every non-negative cell at or after
      `(x, y)` in row order. */
  lemma {:induction false} SweepGrows(g: Grid<int>, h: nat, w: nat, y: nat, x: nat)
    requires |g| == h
    ensures Grows(g, SweepGrid(g, h, w, y, x).0)
    decreases h - y, w - x
  {
    if y >= h {
    } else if x >= w {
      SweepGrows(g, h, w, y + 1, 0);
    } else {
      var first := ProcessGrid(g, (x, y));
      ProcessGrows(g, (x, y));
      SweepGrows(first.0, h, w, y, x + 1);
      GrowsTrans(g, first.0, SweepGrid(first.0, h, w, y, x + 1).0);
    }
  }

  /** A sweep from `(x, y)` on raises every non-negative cell at or after
      `(x, y)` in row order. */
  lemma {:induction false} SweepRaises(g: Grid<int>, h: nat, w: nat, y: nat, x: nat)
    requires |g| == h && Rectangular(g, w)
    ensures var r := SweepGrid(g, h, w, y, x).0;
      Rectangular(r, w) &&
      forall j, i :: 0 <= j < h && 0 <= i < w && (j > y || (j == y && i >= x)) && g[j][i] >= 0 ==> r[j][i] > g[j][i]
    decreases h - y, w - x
  {
    if y >= h {
    } else if x >= w {
      SweepRaises(g, h, w, y + 1, 0);
    } else {
      var first := ProcessGrid(g, (x, y));
      var r := SweepGrid(first.0, h, w, y, x + 1).0;
      assert SweepGrid(g, h, w, y, x).0 == r;
      ProcessGrows(g, (x, y));
      SweepGrows(first.0, h, w, y, x + 1);
      assert Rectangular(first.0, w);
      SweepRaises(first.0, h, w, y, x + 1);
      forall j, i | 0 <= j < h && 0 <= i < w && (j > y || (j == y && i >= x)) && g[j][i] >= 0
        ensures r[j][i] > g[j][i]
      {
        assert first.0[j][i] >= g[j][i];
        assert r[j][i] >= first.0[j][i];
        if j == y && i == x {
          assert first.0[j][i] > g[j][i];
        } else {
          assert r[j][i] > first.0[j][i];
        }
      }
    }
  }

  /** On a rectangular grid of digits a step leaves digits, and its flash
      count is the number of octopuses at 0 afterwards. */
  lemma StepOfDigits(g: Grid<int>, w: nat)
    requires Rectangular(g, w) && w == Width(g)
    requires forall y, x :: 0 <= y < |g| && 0 <= x < |g[y]| ==> IsLevel(g[y][x])
    ensures var (after, flashes) := StepGrid(g);
      (forall y, x :: 0 <= y < |after| && 0 <= x < |after[y]| ==> IsLevel(after[y][x])) &&
      flashes == Count(after, IsZero)
  {
    var swept := SweepGrid(g, |g|, Width(g), 0, 0);
    SweepGrows(g, |g|, w, 0, 0);
    SweepRaises(g, |g|, w, 0, 0);
    SweepCount(g, |g|, w, 0, 0);
    var mid := swept.0;
    assert forall y, x :: 0 <= y < |mid| && 0 <= x < |mid[y]| ==> mid[y][x] >= 1;
    CountAll(g, Unflashed);
    SizeSameShape(g, mid);
    CountComplement(mid, Unflashed, Flashed);
    assert swept.1 == Count(mid, Flashed);
    CountPointwise(mid, Flashed, Reset(mid), IsZero);
  }

  /** A step in which every octopus flashes leaves every octopus at 0. */
  lemma SynchronisedStep(g: Grid<int>, w: nat)
    requires Rectangular(g, w) && w == Width(g)
    requires forall y, x :: 0 <= y < |g| && 0 <= x < |g[y]| ==> IsLevel(g[y][x])
    requires StepGrid(g).1 == |g| * w
    ensures var after := StepGrid(g).0;
      Rectangular(after, w) && forall y, x :: 0 <= y < |after| && 0 <= x < |after[y]| ==> after[y][x] == 0
  {
    StepOfDigits(g, w);
    var after := StepGrid(g).0;
    SweepGrows(g, |g|, w, 0, 0);
    assert Rectangular(after, w);
    SizeRectangular(after, w);
    CountFull(after, IsZero);
  }

  // ---------------------------------------------------------------------
  // The answers

  /** The grid after `n` steps and the flashes of those steps. */
  function Steps(g: Grid<int>, n: nat): (Grid<int>, nat)
  {
    if n == 0 then (g, 0)
    else
      var before := Steps(g, n - 1);
      var next := StepGrid(before.0);
      (next.0, before.1 + next.1)
  }

  /** The flashes of step `n + 1`. */
  function FlashesAfter(g: Grid<int>, n: nat): nat
  {
    StepGrid(Steps(g, n).0).1
  }

  /** The flashes of each step, step `n + 1` at `n`. */
  function FlashSeries(g: Grid<int>): nat -> nat
  {
    (n: nat) => FlashesAfter(g, n)
  }

  lemma StepsNext(g: Grid<int>, n: nat)
    ensures Steps(g, n + 1).0 == StepGrid(Steps(g, n).0).0
  {
  }

  /** The first `n` among `from` to `from + fuel - 1` with `f(n) == size`. */
  function FirstWith(f: nat -> nat, size: nat, from: nat, fuel: nat): Option<nat>
    decreases fuel
  {
    if fuel == 0 then None
    else if f(from) == size then Some(from)
    else FirstWith(f, size, from + 1, fuel - 1)
  }

  lemma FirstWithNext(f: nat -> nat, size: nat, from: nat, fuel: nat)
    requires fuel > 0
    ensures FirstWith(f, size, from, fuel) ==
      if f(from) == size then Some(from) else FirstWith(f, size, from + 1, fuel - 1)
  {
  }

  /** The search finds the first index with the value sought: `f` takes it
      there and nowhere earlier; with no answer, nowhere in the range. */
  lemma {:induction false} FirstWithMeaning(f: nat -> nat, size: nat, from: nat, fuel: nat)
    ensures var r := FirstWith(f, size, from, fuel);
      (r.Some? ==> (from <= r.value < from + fuel && f(r.value) == size &&
        forall n :: from <= n < r.value ==> f(n) != size)) &&
      (r.None? ==> forall n :: from <= n < from + fuel ==> f(n) != size)
    decreases fuel
  {
    if fuel > 0 && f(from) != size {
      FirstWithMeaning(f, size, from + 1, fuel - 1);
    }
  }

  /** The `loop` of part 2 on values: the first step, among steps `from + 1`
      to `from + fuel`, in which `size` octopuses flash; `g` is the grid
      after `from` steps. */
  function SyncFrom(g: Grid<int>, size: nat, from: nat, fuel: nat): Option<nat>
    decreases fuel
  {
    if fuel == 0 then None
    else
      var next := StepGrid(g);
      if next.1 == size then Some(from + 1) else SyncFrom(next.0, size, from + 1, fuel - 1)
  }

  function Succ(r: Option<nat>): Option<nat>
  {
    match r
    case None => None
    case Some(n) => Some(n + 1)
  }

  /** The loop finds the first step of the flash series with `size`
      flashes, counting steps from 1. */
  lemma {:induction false} SyncFromSeries(g0: Grid<int>, g: Grid<int>, size: nat, from: nat, fuel: nat)
    requires g == Steps(g0, from).0
    ensures SyncFrom(g, size, from, fuel) == Succ(FirstWith(FlashSeries(g0), size, from, fuel))
    decreases fuel
  {
    if fuel > 0 {
      var next := StepGrid(g);
      StepsNext(g0, from);
      assert FlashSeries(g0)(from) == next.1;
      FirstWithNext(FlashSeries(g0), size, from, fuel);
      if next.1 != size {
        SyncFromSeries(g0, next.0, size, from + 1, fuel - 1);
      }
    }
  }

  /** The first step, counting from 1 and among the first `fuel`, in which
      `size` octopuses flash: it flashes `size` and no earlier step does;
      with no answer, none of the first `fuel` steps does. */
  lemma FirstSyncMeaning(g: Grid<int>, size: nat, fuel: nat)
    ensures var r := SyncFrom(g, size, 0, fuel);
      (r.Some? ==> 1 <= r.value <= fuel && FlashSeries(g)(r.value - 1) == size) &&
      (r.Some? ==> forall n: nat :: n < r.value - 1 ==> FlashSeries(g)(n) != size) &&
      (r.None? ==> forall n: nat :: n < fuel ==> FlashSeries(g)(n) != size)
  {
    SyncFromSeries(g, g, size, 0, fuel);
    FirstWithMeaning(FlashSeries(g), size, 0, fuel);
  }

  /** The mutable octopus grid. */
  class Octopuses {
    var cells: Grid<int>

    constructor(cells: Grid<int>)
      ensures this.cells == cells
    {
      this.cells := cells;
    }

    /** `process`. */
    method Process(pos: (int, int)) returns (sum: nat)
      modifies this
      ensures (cells, sum) == ProcessGrid(old(cells), pos)
      decreases Count(cells, Unflashed)
    {
      if !OnGrid(cells, pos) || cells[pos.1][pos.0] < 0 {
        return 0;
      }
      var v := cells[pos.1][pos.0] + 1;
      CountSet(cells, pos, v, Unflashed);
      cells := Set(cells, pos, v);
      if v != 10 {
        return 0;
      }
      ghost var start := cells;
      sum := 0;
      var k := 0;
      ghost var target := NeighboursGrid(start, pos, 0);
      while k < 8
        invariant k <= 8
        invariant Count(cells, Unflashed) <= Count(start, Unflashed) < Count(old(cells), Unflashed)
        invariant target.0 == NeighboursGrid(cells, pos, k).0 && target.1 == sum + NeighboursGrid(cells, pos, k).1
      {
        ghost var k0, sum0 := k, sum;
        ghost var before := cells;
        var n := Process(Neighbour(pos, k));
        NeighboursNext(before, pos, k, cells, n);
        sum := sum + n;
        k := k + 1;
        assert target.0 == NeighboursGrid(before, pos, k0).0;
        assert target.0 == NeighboursGrid(cells, pos, k).0;
        assert target.1 == sum0 + NeighboursGrid(before, pos, k0).1;
        assert target.1 == sum + NeighboursGrid(cells, pos, k).1;
      }
      sum := 1 + sum;
    }

    /** `step`: every cell processed in row order, then the reset. */
    method Step() returns (sum: nat)
      modifies this
      ensures (cells, sum) == StepGrid(old(cells))
    {
      ghost var start := cells;
      ghost var target := SweepGrid(start, |start|, Width(start), 0, 0);
      var w := Width(cells);
      sum := 0;
      var y := 0;
      while y < |cells|
        invariant |cells| == |start| && y <= |cells|
        invariant target.0 == SweepGrid(cells, |start|, w, y, 0).0
        invariant target.1 == sum + SweepGrid(cells, |start|, w, y, 0).1
      {
        var x := 0;
        while x < w
          invariant |cells| == |start| && x <= w
          invariant target.0 == SweepGrid(cells, |start|, w, y, x).0
          invariant target.1 == sum + SweepGrid(cells, |start|, w, y, x).1
        {
          ghost var before, sum0 := cells, sum;
          var n := Process((x, y));
          SweepNext(before, |start|, w, y, x, cells, n);
          sum := sum + n;
          x := x + 1;
          assert target.1 == sum0 + SweepGrid(before, |start|, w, y, x - 1).1;
        }
        assert SweepGrid(cells, |start|, w, y, x) == SweepGrid(cells, |start|, w, y + 1, 0);
        y := y + 1;
      }
      ResetAll();
    }

    /** The end of a step: every cell whose energy went above nine, that is
        every cell that flashed, drops back to zero. */
    method ResetAll()
      modifies this
      ensures cells == Reset(old(cells))
    {
      ghost var start := cells;
      var y := 0;
      while y < |cells|
        invariant SameShape(start, cells) && y <= |cells|
        invariant forall j, i :: 0 <= j < |cells| && 0 <= i < |cells[j]| ==>
          cells[j][i] == if j < y then ResetCell(start[j][i]) else start[j][i]
      {
        var x := 0;
        while x < |cells[y]|
          invariant SameShape(start, cells) && x <= |cells[y]|
          invariant forall j, i :: 0 <= j < |cells| && 0 <= i < |cells[j]| ==>
            cells[j][i] == if j < y || (j == y && i < x) then ResetCell(start[j][i]) else start[j][i]
        {
          if cells[y][x] > 9 {
            cells := Set(cells, (x, y), 0);
          }
          x := x + 1;
        }
        y := y + 1;
      }
      assert forall j :: 0 <= j < |cells| ==> cells[j] == Reset(start)[j];
    }
  }

  /** Part 1: the flashes of the first 100 steps, on a copy of the grid. */
  method Part1(input: Grid<int>) returns (total: nat)
    ensures total == Steps(input, 100).1
  {
    var octopuses := new Octopuses(input);
    total := 0;
    var i := 0;
    while i < 100
      invariant i <= 100 && (octopuses.cells, total) == Steps(input, i)
    {
      var n := octopuses.Step();
      total := total + n;
      i := i + 1;
    }
  }

  /** Part 2: the first step in which every octopus flashes, searched among
      the first `fuel` steps; `None` for an empty grid, where `input[0]`
      panics, or when no searched step synchronises. */
  method Part2(input: Grid<int>, fuel: nat) returns (r: Option<nat>)
    ensures input == [] ==> r.None?
    ensures input != [] ==> r == SyncFrom(input, |input| * |input[0]|, 0, fuel)
  {
    if input == [] {
      return None;
    }
    var size := |input| * |input[0]|;
    var octopuses := new Octopuses(input);
    var index := 0;
    while index < fuel
      invariant index <= fuel
      invariant SyncFrom(input, size, 0, fuel) == SyncFrom(octopuses.cells, size, index, fuel - index)
    {
      var flashes := octopuses.Step();
      if flashes == size {
        return Some(index + 1);
      }
      index := index + 1;
    }
    return None;
  }
}
