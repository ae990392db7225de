/** `day-22/src/main.rs`: reactor reboot. Each step switches a cuboid of
    cubes on or off. The bounds of all steps, with -50 and 50, are sorted per
    axis; consecutive bounds delimit the cells of a compressed grid, one
    flag per cell. Each step, in order, fills the cells between its bounds
    with its flag, so the last step covering a cell decides it. Part two
    sums the volumes of the lit cells, part one only those whose lower
    corner lies in `[-50, 50)` on every axis. */
module Day22 {
  import opened Common

  /** A step with exclusive upper bounds. */
  datatype Step = Step(on: bool, x: (int, int), y: (int, int), z: (int, int))

  /** The numbers of one match of the step pattern, upper bounds included. */
  datatype Capture = Capture(word: string, x1: int, x2: int, y1: int, y2: int, z1: int, z2: int)

  datatype Point = Point(x: int, y: int, z: int)

  /** The closure in `flat_map`: `"on"` or not, and every upper bound made
      exclusive by adding one. */
  function ToStep(c: Capture): Step
  {
    Step(c.word == "on", (c.x1, c.x2 + 1), (c.y1, c.y2 + 1), (c.z1, c.z2 + 1))
  }

  /** The half-open cuboid of the step holds the point. */
  predicate Contains(s: Step, p: Point)
  {
    s.x.0 <= p.x < s.x.1 && s.y.0 <= p.y < s.y.1 && s.z.0 <= p.z < s.z.1
  }

  /** The step switches `on` exactly the cubes of the inclusive ranges it was
      written with, and no others. */
  lemma ToStepCovers(c: Capture, p: Point)
    ensures Contains(ToStep(c), p) <==>
      c.x1 <= p.x <= c.x2 && c.y1 <= p.y <= c.y2 && c.z1 <= p.z <= c.z2
    ensures ToStep(c).on <==> c.word == "on"
  {
  }

  /** Whether the cube at the point is on after the steps: the last step
      that contains it decides; no step leaves it off. */
  function LitAt(steps: seq<Step>, p: Point): bool
  {
    if |steps| == 0 then false
    else if Contains(steps[|steps| - 1], p) then steps[|steps| - 1].on
    else LitAt(steps[..|steps| - 1], p)
  }

  /** Step `n` is `on`, contains the point, and no later step contains it. */
  ghost predicate LastOn(steps: seq<Step>, n: int, p: Point)
  {
    0 <= n < |steps| && Contains(steps[n], p) && steps[n].on &&
    forall m :: n < m < |steps| ==> !Contains(steps[m], p)
  }

  /** Last writer wins: the cube is on exactly when some step containing it
      is `on` and no later step contains it. */
  lemma {:induction false} LastWriterWins(steps: seq<Step>, p: Point)
    ensures LitAt(steps, p) <==> exists n :: LastOn(steps, n, p)
  {
    if |steps| > 0 {
      var prefix := steps[..|steps| - 1];
      var last := |steps| - 1;
      LastWriterWins(prefix, p);
      if LitAt(steps, p) {
        if Contains(steps[last], p) {
          assert LastOn(steps, last, p);
        } else {
          var n :| LastOn(prefix, n, p);
          assert steps[n] == prefix[n];
          forall m | n < m < |steps|
            ensures !Contains(steps[m], p)
          {
            if m < last {
              assert steps[m] == prefix[m];
            }
          }
          assert LastOn(steps, n, p);
        }
      }
      if exists n :: LastOn(steps, n, p) {
        var n :| LastOn(steps, n, p);
        if n < last {
          assert !Contains(steps[last], p);
          assert prefix[n] == steps[n];
          forall m | n < m < |prefix|
            ensures !Contains(prefix[m], p)
          {
            assert prefix[m] == steps[m];
          }
          assert LastOn(prefix, n, p);
        }
      }
    }
  }

  // ---------------------------------------------------------------------
  // Coordinates

  predicate StrictlyIncreasing(vs: seq<int>)
  {
    forall i, j :: 0 <= i < j < |vs| ==> vs[i] < vs[j]
  }

  /** The bounds of one axis: `0` is x, `1` is y, `2` is z. */
  function Axis(s: Step, axis: nat): (int, int)
  {
    if axis == 0 then s.x else if axis == 1 then s.y else s.z
  }

  /** The coordinate of one axis of a point. */
  function Coord(p: Point, axis: nat): int
  {
    if axis == 0 then p.x else if axis == 1 then p.y else p.z
  }

  /** The values `flat_map` and `chain` produce for one axis: both bounds of
      every step, then -50 and 50. */
  function Endpoints(steps: seq<Step>, axis: nat): (vs: seq<int>)
    ensures forall v :: v in vs <==>
      (v == -50 || v == 50 || exists i :: 0 <= i < |steps| && (Axis(steps[i], axis).0 == v || Axis(steps[i], axis).1 == v))
  {
    if |steps| == 0 then [-50, 50]
    else [Axis(steps[0], axis).0, Axis(steps[0], axis).1] + Endpoints(steps[1..], axis)
  }

  /** Adds a value to a strictly increasing sequence, unless it is there. */
  method InsertSorted(vs: seq<int>, v: int) returns (r: seq<int>)
    requires StrictlyIncreasing(vs)
    ensures StrictlyIncreasing(r)
    ensures forall w :: w in r <==> w in vs || w == v
  {
    var i := 0;
    while i < |vs| && vs[i] < v
      invariant 0 <= i <= |vs|
      invariant forall j :: 0 <= j < i ==> vs[j] < v
    {
      i := i + 1;
    }
    if i < |vs| && vs[i] == v {
      return vs;
    }
    r := vs[..i] + [v] + vs[i..];
    InsertAt(vs, i, v);
  }

  /** Putting `v` at the index where the smaller values end keeps the
      sequence strictly increasing and adds just `v`. */
  lemma InsertAt(vs: seq<int>, i: nat, v: int)
    requires StrictlyIncreasing(vs) && i <= |vs|
    requires forall j :: 0 <= j < i ==> vs[j] < v
    requires i < |vs| ==> v < vs[i]
    ensures StrictlyIncreasing(vs[..i] + [v] + vs[i..])
    ensures forall w :: w in vs[..i] + [v] + vs[i..] <==> w in vs || w == v
  {
    var r := vs[..i] + [v] + vs[i..];
    assert forall j :: 0 <= j < |r| ==> r[j] == if j < i then vs[j] else if j == i then v else vs[j - 1];
    assert forall w :: w in vs <==> w in vs[..i] || w in vs[i..] by {
      assert vs == vs[..i] + vs[i..];
    }
  }

  /** `.unique().sorted()`: the distinct values in increasing order. */
  method SortedUnique(values: seq<int>) returns (r: seq<int>)
    ensures StrictlyIncreasing(r)
    ensures forall v :: v in r <==> v in values
  {
    r := [];
    for k := 0 to |values|
      invariant StrictlyIncreasing(r)
      invariant forall v :: v in r <==> v in values[..k]
    {
      r := InsertSorted(r, values[k]);
      assert values[..k + 1] == values[..k] + [values[k]];
    }
    assert values[..|values|] == values;
  }

  /** `x_values`, `y_values` or `z_values`. */
  method Coordinates(steps: seq<Step>, axis: nat) returns (r: seq<int>)
    ensures StrictlyIncreasing(r) && -50 in r && 50 in r
    ensures forall i :: 0 <= i < |steps| ==> Axis(steps[i], axis).0 in r && Axis(steps[i], axis).1 in r
    ensures forall v :: v in r ==> v in Endpoints(steps, axis)
  {
    var values := Endpoints(steps, axis);
    r := SortedUnique(values);
    forall i | 0 <= i < |steps|
      ensures Axis(steps[i], axis).0 in r && Axis(steps[i], axis).1 in r
    {
      assert Axis(steps[i], axis).0 in values;
      assert Axis(steps[i], axis).1 in values;
    }
  }

  /** Binary search for the index of a value in a strictly increasing
      sequence that holds it. */
  method BinarySearch(vs: seq<int>, v: int) returns (i: nat)
    requires StrictlyIncreasing(vs) && v in vs
    ensures i < |vs| && vs[i] == v
  {
    var lo, hi := 0, |vs|;
    while lo < hi
      invariant 0 <= lo <= hi <= |vs|
      invariant forall j :: 0 <= j < lo ==> vs[j] < v
      invariant forall j :: hi <= j < |vs| ==> vs[j] > v
      decreases hi - lo
    {
      var mid := (lo + hi) / 2;
      if vs[mid] < v {
        lo := mid + 1;
      } else if vs[mid] > v {
        hi := mid;
      } else {
        return mid;
      }
    }
    assert false;
  }

  // ---------------------------------------------------------------------
  // The compressed grid

  /** The three coordinate lists: cell `(i, j, k)` spans `zs[i]..zs[i+1]`,
      `ys[j]..ys[j+1]` and `xs[k]..xs[k+1]`. */
  datatype Axes = Axes(xs: seq<int>, ys: seq<int>, zs: seq<int>)

  predicate ValidAxes(ax: Axes)
  {
    StrictlyIncreasing(ax.xs) && StrictlyIncreasing(ax.ys) && StrictlyIncreasing(ax.zs) &&
    |ax.xs| >= 2 && |ax.ys| >= 2 && |ax.zs| >= 2
  }

  predicate IsCell(ax: Axes, i: int, j: int, k: int)
  {
    0 <= i < |ax.zs| - 1 && 0 <= j < |ax.ys| - 1 && 0 <= k < |ax.xs| - 1
  }

  /** The lower corner of the cell. */
  function Corner(ax: Axes, i: nat, j: nat, k: nat): Point
    requires IsCell(ax, i, j, k)
  {
    Point(ax.xs[k], ax.ys[j], ax.zs[i])
  }

  /** The point lies in the cell. */
  predicate InCell(ax: Axes, i: nat, j: nat, k: nat, p: Point)
    requires IsCell(ax, i, j, k)
  {
    ax.zs[i] <= p.z < ax.zs[i + 1] && ax.ys[j] <= p.y < ax.ys[j + 1] && ax.xs[k] <= p.x < ax.xs[k + 1]
  }

  /** Every bound of every step is a coordinate of its axis. */
  predicate Covered(steps: seq<Step>, ax: Axes)
  {
    forall n :: 0 <= n < |steps| ==>
      steps[n].x.0 in ax.xs && steps[n].x.1 in ax.xs &&
      steps[n].y.0 in ax.ys && steps[n].y.1 in ax.ys &&
      steps[n].z.0 in ax.zs && steps[n].z.1 in ax.zs
  }

  /** No bound falls strictly inside a cell, so a point of the cell and its
      corner lie on the same side of it. */
  lemma SameSide(vs: seq<int>, i: nat, b: int, v: int)
    requires StrictlyIncreasing(vs) && i + 1 < |vs| && b in vs
    requires vs[i] <= v < vs[i + 1]
    ensures b <= v <==> b <= vs[i]
  {
    var m :| 0 <= m < |vs| && vs[m] == b;
    if b <= v {
      assert m < i + 1;
      assert m <= i;
    }
  }

  /** The compression is exact: every cube of a cell is on exactly when its
      corner is. */
  lemma {:induction false} CellUniform(steps: seq<Step>, ax: Axes, i: nat, j: nat, k: nat, p: Point)
    requires ValidAxes(ax) && Covered(steps, ax) && IsCell(ax, i, j, k) && InCell(ax, i, j, k, p)
    ensures LitAt(steps, p) == LitAt(steps, Corner(ax, i, j, k))
  {
    if |steps| > 0 {
      var s := steps[|steps| - 1];
      var c := Corner(ax, i, j, k);
      SameSide(ax.xs, k, s.x.0, p.x);
      SameSide(ax.xs, k, s.x.1, p.x);
      SameSide(ax.ys, j, s.y.0, p.y);
      SameSide(ax.ys, j, s.y.1, p.y);
      SameSide(ax.zs, i, s.z.0, p.z);
      SameSide(ax.zs, i, s.z.1, p.z);
      assert Contains(s, p) <==> Contains(s, c);
      assert Covered(steps[..|steps| - 1], ax) by {
        forall n | 0 <= n < |steps| - 1
          ensures steps[..|steps| - 1][n] == steps[n]
        {
        }
      }
      CellUniform(steps[..|steps| - 1], ax, i, j, k, p);
    }
  }

  /** The cells of the grid hold what the steps so far leave at their corners. */
  ghost predicate Holds(a: array3<bool>, ax: Axes, steps: seq<Step>)
    reads a
    requires a.Length0 == |ax.zs| - 1 && a.Length1 == |ax.ys| - 1 && a.Length2 == |ax.xs| - 1
  {
    forall i, j, k :: IsCell(ax, i, j, k) ==> a[i, j, k] == LitAt(steps, Corner(ax, i, j, k))
  }

  /** Setting a cuboid of the grid to `on`, for one line of x: the cells
      `x0` up to `x1` of row `(i, j)`. */
  method FillLine(a: array3<bool>, i: nat, j: nat, x0: nat, x1: nat, on: bool)
    requires i < a.Length0 && j < a.Length1 && x1 <= a.Length2
    modifies a
    ensures forall i', j', k :: 0 <= i' < a.Length0 && 0 <= j' < a.Length1 && 0 <= k < a.Length2 ==>
      a[i', j', k] == if i' == i && j' == j && x0 <= k < x1 then on else old(a[i', j', k])
  {
    var k := x0;
    while k < x1
      invariant x0 <= k && (k <= x1 || k == x0)
      invariant forall i', j', k' :: 0 <= i' < a.Length0 && 0 <= j' < a.Length1 && 0 <= k' < a.Length2 ==>
        a[i', j', k'] == if i' == i && j' == j && x0 <= k' < k then on else old(a[i', j', k'])
      decreases x1 - k
    {
      a[i, j, k] := on;
      k := k + 1;
    }
  }

  /** One plane of y and x. */
  method FillPlane(a: array3<bool>, i: nat, y0: nat, y1: nat, x0: nat, x1: nat, on: bool)
    requires i < a.Length0 && y1 <= a.Length1 && x1 <= a.Length2
    modifies a
    ensures forall i', j, k :: 0 <= i' < a.Length0 && 0 <= j < a.Length1 && 0 <= k < a.Length2 ==>
      a[i', j, k] == if i' == i && y0 <= j < y1 && x0 <= k < x1 then on else old(a[i', j, k])
  {
    var j := y0;
    while j < y1
      invariant y0 <= j && (j <= y1 || j == y0)
      invariant forall i', j', k :: 0 <= i' < a.Length0 && 0 <= j' < a.Length1 && 0 <= k < a.Length2 ==>
        a[i', j', k] == if i' == i && y0 <= j' < j && x0 <= k < x1 then on else old(a[i', j', k])
      decreases y1 - j
    {
      FillLine(a, i, j, x0, x1, on);
      j := j + 1;
    }
  }

  /** The whole box; a range whose end precedes its start is empty. */
  method FillBox(a: array3<bool>, z0: nat, z1: nat, y0: nat, y1: nat, x0: nat, x1: nat, on: bool)
    requires z1 <= a.Length0 && y1 <= a.Length1 && x1 <= a.Length2
    modifies a
    ensures forall i, j, k :: 0 <= i < a.Length0 && 0 <= j < a.Length1 && 0 <= k < a.Length2 ==>
      a[i, j, k] == if z0 <= i < z1 && y0 <= j < y1 && x0 <= k < x1 then on else old(a[i, j, k])
  {
    var i := z0;
    while i < z1
      invariant z0 <= i && (i <= z1 || i == z0)
      invariant forall i', j, k :: 0 <= i' < a.Length0 && 0 <= j < a.Length1 && 0 <= k < a.Length2 ==>
        a[i', j, k] == if z0 <= i' < i && y0 <= j < y1 && x0 <= k < x1 then on else old(a[i', j, k])
      decreases z1 - i
    {
      FillPlane(a, i, y0, y1, x0, x1, on);
      i := i + 1;
    }
  }

  /** The cells between the indices of a step's bounds are exactly those
      whose corner the step contains. */
  lemma BoxIsStep(ax: Axes, s: Step, z0: nat, z1: nat, y0: nat, y1: nat, x0: nat, x1: nat, i: nat, j: nat, k: nat)
    requires ValidAxes(ax) && IsCell(ax, i, j, k)
    requires z0 < |ax.zs| && z1 < |ax.zs| && ax.zs[z0] == s.z.0 && ax.zs[z1] == s.z.1
    requires y0 < |ax.ys| && y1 < |ax.ys| && ax.ys[y0] == s.y.0 && ax.ys[y1] == s.y.1
    requires x0 < |ax.xs| && x1 < |ax.xs| && ax.xs[x0] == s.x.0 && ax.xs[x1] == s.x.1
    ensures (z0 <= i < z1 && y0 <= j < y1 && x0 <= k < x1) <==> Contains(s, Corner(ax, i, j, k))
  {
  }

  /** One step of the loop: look up the indices of the bounds and fill. */
  method ApplyStep(a: array3<bool>, ax: Axes, steps: seq<Step>, n: nat)
    requires ValidAxes(ax) && Covered(steps, ax) && n < |steps|
    requires a.Length0 == |ax.zs| - 1 && a.Length1 == |ax.ys| - 1 && a.Length2 == |ax.xs| - 1
    requires Holds(a, ax, steps[..n])
    modifies a
    ensures Holds(a, ax, steps[..n + 1])
  {
    var s := steps[n];
    var z0 := BinarySearch(ax.zs, s.z.0);
    var z1 := BinarySearch(ax.zs, s.z.1);
    var y0 := BinarySearch(ax.ys, s.y.0);
    var y1 := BinarySearch(ax.ys, s.y.1);
    var x0 := BinarySearch(ax.xs, s.x.0);
    var x1 := BinarySearch(ax.xs, s.x.1);
    FillBox(a, z0, z1, y0, y1, x0, x1, s.on);
    assert steps[..n + 1][..n] == steps[..n];
    forall i, j, k | IsCell(ax, i, j, k)
      ensures a[i, j, k] == LitAt(steps[..n + 1], Corner(ax, i, j, k))
    {
      BoxIsStep(ax, s, z0, z1, y0, y1, x0, x1, i, j, k);
    }
  }

  // ---------------------------------------------------------------------
  // Volumes

  /** The volume of the cell, `dz * dy * dx`. */
  function Volume(ax: Axes, i: nat, j: nat, k: nat): int
    requires IsCell(ax, i, j, k)
  {
    (ax.zs[i + 1] - ax.zs[i]) * (ax.ys[j + 1] - ax.ys[j]) * (ax.xs[k + 1] - ax.xs[k])
  }

  /** Cell volumes are positive, the coordinates being strictly increasing. */
  lemma VolumePositive(ax: Axes, i: nat, j: nat, k: nat)
    requires ValidAxes(ax) && IsCell(ax, i, j, k)
    ensures Volume(ax, i, j, k) > 0
  {
    var dz, dy, dx := ax.zs[i + 1] - ax.zs[i], ax.ys[j + 1] - ax.ys[j], ax.xs[k + 1] - ax.xs[k];
    assert dz > 0 && dy > 0 && dx > 0;
    assert dz * dy > 0;
    assert dz * dy * dx > 0;
  }

  /** The corner lies in `[-50, 50)` on every axis. */
  predicate Initialization(p: Point)
  {
    -50 <= p.x < 50 && -50 <= p.y < 50 && -50 <= p.z < 50
  }

  /** What the cell adds: its volume when its corner is on, and, for part
      one, when its corner is in the initialization region. */
  function Term(steps: seq<Step>, ax: Axes, i: nat, j: nat, k: nat, part1: bool): int
    requires IsCell(ax, i, j, k)
  {
    var c := Corner(ax, i, j, k);
    if LitAt(steps, c) && (!part1 || Initialization(c)) then Volume(ax, i, j, k) else 0
  }

  /** The sum over the first `n` cells of row `(i, j)`. */
  function RowSum(steps: seq<Step>, ax: Axes, i: nat, j: nat, n: nat, part1: bool): int
    requires i < |ax.zs| - 1 && j < |ax.ys| - 1 && n <= |ax.xs| - 1
  {
    if n == 0 then 0 else RowSum(steps, ax, i, j, n - 1, part1) + Term(steps, ax, i, j, n - 1, part1)
  }

  /** The sum over the first `n` rows of plane `i`. */
  function PlaneSum(steps: seq<Step>, ax: Axes, i: nat, n: nat, part1: bool): int
    requires i < |ax.zs| - 1 && n <= |ax.ys| - 1 && |ax.xs| >= 1
  {
    if n == 0 then 0 else PlaneSum(steps, ax, i, n - 1, part1) + RowSum(steps, ax, i, n - 1, |ax.xs| - 1, part1)
  }

  /** The sum over the first `n` planes. */
  function GridSum(steps: seq<Step>, ax: Axes, n: nat, part1: bool): int
    requires n <= |ax.zs| - 1 && |ax.ys| >= 1 && |ax.xs| >= 1
  {
    if n == 0 then 0 else GridSum(steps, ax, n - 1, part1) + PlaneSum(steps, ax, n - 1, |ax.ys| - 1, part1)
  }

  /** Part one never exceeds part two, and neither is negative: part one
      sums a subset of the positive volumes part two sums. */
  lemma {:induction false} RowSumBounds(steps: seq<Step>, ax: Axes, i: nat, j: nat, n: nat)
    requires ValidAxes(ax) && i < |ax.zs| - 1 && j < |ax.ys| - 1 && n <= |ax.xs| - 1
    ensures 0 <= RowSum(steps, ax, i, j, n, true) <= RowSum(steps, ax, i, j, n, false)
  {
    if n > 0 {
      RowSumBounds(steps, ax, i, j, n - 1);
      VolumePositive(ax, i, j, n - 1);
    }
  }

  lemma {:induction false} PlaneSumBounds(steps: seq<Step>, ax: Axes, i: nat, n: nat)
    requires ValidAxes(ax) && i < |ax.zs| - 1 && n <= |ax.ys| - 1
    ensures 0 <= PlaneSum(steps, ax, i, n, true) <= PlaneSum(steps, ax, i, n, false)
  {
    if n > 0 {
      PlaneSumBounds(steps, ax, i, n - 1);
      RowSumBounds(steps, ax, i, n - 1, |ax.xs| - 1);
    }
  }

  lemma {:induction false} Part1AtMostPart2(steps: seq<Step>, ax: Axes, n: nat)
    requires ValidAxes(ax) && n <= |ax.zs| - 1
    ensures 0 <= GridSum(steps, ax, n, true) <= GridSum(steps, ax, n, false)
  {
    if n > 0 {
      Part1AtMostPart2(steps, ax, n - 1);
      PlaneSumBounds(steps, ax, n - 1, |ax.ys| - 1);
    }
  }

  /** The inner loop over x, with `dzy` computed by the caller. */
  method SumRow(a: array3<bool>, ax: Axes, ghost steps: seq<Step>, i: nat, j: nat, dzy: int) returns (part1: int, part2: int)
    requires ValidAxes(ax)
    requires a.Length0 == |ax.zs| - 1 && a.Length1 == |ax.ys| - 1 && a.Length2 == |ax.xs| - 1
    requires Holds(a, ax, steps) && i < a.Length0 && j < a.Length1
    requires dzy == (ax.zs[i + 1] - ax.zs[i]) * (ax.ys[j + 1] - ax.ys[j])
    ensures part1 == RowSum(steps, ax, i, j, a.Length2, true)
    ensures part2 == RowSum(steps, ax, i, j, a.Length2, false)
  {
    part1, part2 := 0, 0;
    for k := 0 to a.Length2
      invariant part1 == RowSum(steps, ax, i, j, k, true)
      invariant part2 == RowSum(steps, ax, i, j, k, false)
    {
      if a[i, j, k] {
        var volume := dzy * (ax.xs[k + 1] - ax.xs[k]);
        part2 := part2 + volume;
        if -50 <= ax.zs[i] && ax.zs[i] < 50 && -50 <= ax.ys[j] && ax.ys[j] < 50 && -50 <= ax.xs[k] && ax.xs[k] < 50 {
          part1 := part1 + volume;
        }
      }
    }
  }

  /** The body of the closure mapped over z. */
  method SumPlane(a: array3<bool>, ax: Axes, ghost steps: seq<Step>, i: nat) returns (part1: int, part2: int)
    requires ValidAxes(ax)
    requires a.Length0 == |ax.zs| - 1 && a.Length1 == |ax.ys| - 1 && a.Length2 == |ax.xs| - 1
    requires Holds(a, ax, steps) && i < a.Length0
    ensures part1 == PlaneSum(steps, ax, i, a.Length1, true)
    ensures part2 == PlaneSum(steps, ax, i, a.Length1, false)
  {
    var dz := ax.zs[i + 1] - ax.zs[i];
    part1, part2 := 0, 0;
    for j := 0 to a.Length1
      invariant part1 == PlaneSum(steps, ax, i, j, true)
      invariant part2 == PlaneSum(steps, ax, i, j, false)
    {
      var dzy := dz * (ax.ys[j + 1] - ax.ys[j]);
      var p1, p2 := SumRow(a, ax, steps, i, j, dzy);
      part1, part2 := part1 + p1, part2 + p2;
    }
  }

  /** The parallel map over z and its reduce, summed in order. */
  method SumGrid(a: array3<bool>, ax: Axes, ghost steps: seq<Step>) returns (part1: int, part2: int)
    requires ValidAxes(ax)
    requires a.Length0 == |ax.zs| - 1 && a.Length1 == |ax.ys| - 1 && a.Length2 == |ax.xs| - 1
    requires Holds(a, ax, steps)
    ensures part1 == GridSum(steps, ax, a.Length0, true)
    ensures part2 == GridSum(steps, ax, a.Length0, false)
    ensures 0 <= part1 <= part2
  {
    part1, part2 := 0, 0;
    for i := 0 to a.Length0
      invariant part1 == GridSum(steps, ax, i, true)
      invariant part2 == GridSum(steps, ax, i, false)
    {
      var p1, p2 := SumPlane(a, ax, steps, i);
      part1, part2 := part1 + p1, part2 + p2;
    }
    Part1AtMostPart2(steps, ax, a.Length0);
  }

  /** The three coordinate lists. */
  method MakeAxes(steps: seq<Step>) returns (ax: Axes)
    ensures ValidAxes(ax) && Covered(steps, ax)
  {
    var xs := Coordinates(steps, 0);
    var ys := Coordinates(steps, 1);
    var zs := Coordinates(steps, 2);
    TwoValues(xs);
    TwoValues(ys);
    TwoValues(zs);
    ax := Axes(xs, ys, zs);
  }

  /** The zeroed grid with one cell between each pair of consecutive
      coordinates, and every step applied to it in order. */
  method Fill(ax: Axes, steps: seq<Step>) returns (a: array3<bool>)
    requires ValidAxes(ax) && Covered(steps, ax)
    ensures a.Length0 == |ax.zs| - 1 && a.Length1 == |ax.ys| - 1 && a.Length2 == |ax.xs| - 1
    ensures Holds(a, ax, steps)
  {
    a := new bool[|ax.zs| - 1, |ax.ys| - 1, |ax.xs| - 1]((i, j, k) => false);
    for n := 0 to |steps|
      invariant Holds(a, ax, steps[..n])
    {
      ApplyStep(a, ax, steps, n);
    }
    assert steps[..|steps|] == steps;
  }

  /** `main` after parsing: compress the coordinates, apply the steps in
      order, and sum the lit volumes. */
  method Solve(captures: seq<Capture>) returns (part1: int, part2: int, ax: Axes)
    ensures ValidAxes(ax) && Covered(Map(captures), ax)
    ensures part1 == GridSum(Map(captures), ax, |ax.zs| - 1, true)
    ensures part2 == GridSum(Map(captures), ax, |ax.zs| - 1, false)
    ensures 0 <= part1 <= part2
  {
    var steps := Map(captures);
    ax := MakeAxes(steps);
    var a := Fill(ax, steps);
    part1, part2 := SumGrid(a, ax, steps);
  }

  /** The steps of the captures, in order. */
  function Map(captures: seq<Capture>): (steps: seq<Step>)
    ensures |steps| == |captures| && forall n :: 0 <= n < |captures| ==> steps[n] == ToStep(captures[n])
  {
    if |captures| == 0 then [] else [ToStep(captures[0])] + Map(captures[1..])
  }

  lemma TwoValues(vs: seq<int>)
    requires -50 in vs && 50 in vs
    ensures |vs| >= 2
  {
    var i :| 0 <= i < |vs| && vs[i] == -50;
    var j :| 0 <= j < |vs| && vs[j] == 50;
    assert i != j;
  }
}
