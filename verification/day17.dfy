/** `day-17/src/main.rs`: the probe launcher. A probe starts at the origin
    with a velocity; every step adds the velocity to the position, drag
    moves the horizontal velocity one toward zero and gravity lowers the
    vertical velocity by one. The search launches every velocity with
    `0 <= vx < 400` and `-400 <= vy < 400`, follows each probe until it
    falls below the target area, and reports the greatest height of a
    probe that hits the target (part one) and how many velocities hit it
    (part two). */
module Day17 {
  import opened Common
  import opened Text

  // ---------------------------------------------------------------------
  // The probe

  /** A probe's position and velocity, as `ProbeState` holds them. */
  datatype Probe = Probe(pos: (int, int), vel: (int, int))

  /** `i64::signum`. */
  function Signum(v: int): (r: int)
    ensures r == -1 || r == 0 || r == 1
    ensures r * v == Abs(v)
  {
    if v > 0 then 1 else if v < 0 then -1 else 0
  }

  /** One step of the probe: the velocity is added to the position, the
      horizontal velocity moves one toward zero and the vertical one drops
      by one. */
  function Next(s: Probe): (r: Probe)
    ensures r.pos == (s.pos.0 + s.vel.0, s.pos.1 + s.vel.1)
    ensures s.vel.0 > 0 ==> r.vel.0 == s.vel.0 - 1
    ensures s.vel.0 < 0 ==> r.vel.0 == s.vel.0 + 1
    ensures s.vel.0 == 0 ==> r.vel.0 == 0
    ensures Abs(r.vel.0) == if s.vel.0 == 0 then 0 else Abs(s.vel.0) - 1
    ensures r.vel.1 == s.vel.1 - 1
  {
    Probe((s.pos.0 + s.vel.0, s.pos.1 + s.vel.1), (s.vel.0 - Signum(s.vel.0), s.vel.1 - 1))
  }

  /** `ProbeState`: the probe as the search changes it in place. */
  class ProbeState {
    var pos: (int, int)
    var vel: (int, int)

    /** `ProbeState::default()`: at rest at the origin. */
    constructor()
      ensures pos == (0, 0) && vel == (0, 0)
    {
      pos := (0, 0);
      vel := (0, 0);
    }

    function State(): Probe
      reads this
    {
      Probe(pos, vel)
    }

    /** `step`: one step of the probe. */
    method Step()
      modifies this
      ensures State() == Next(old(State()))
    {
      pos := (pos.0 + vel.0, pos.1 + vel.1);
      vel := (vel.0 - Signum(vel.0), vel.1 - 1);
    }
  }

  /** The probe after `n` steps. */
  function Steps(s: Probe, n: nat): Probe
    decreases n
  {
    if n == 0 then s else Steps(Next(s), n - 1)
  }

  /** After `n` steps the vertical velocity has dropped by `n`, and the
      height has risen by `n * vy - n * (n - 1) / 2`. */
  lemma {:induction false} StepsVertical(s: Probe, n: nat)
    ensures Steps(s, n).vel.1 == s.vel.1 - n
    ensures 2 * Steps(s, n).pos.1 == 2 * s.pos.1 + 2 * n * s.vel.1 - n * (n - 1)
    decreases n
  {
    if n > 0 {
      var t := Next(s);
      StepsVertical(t, n - 1);
      TriangleStep(n, s.vel.1);
    }
  }

  /** With a horizontal velocity `vx >= 0`, the probe moves
      `n * vx - n * (n - 1) / 2` in its first `n <= vx` steps and then
      stays where drag stopped it, `vx * (vx + 1) / 2` from the start. */
  lemma StepsHorizontal(s: Probe, n: nat)
    requires s.vel.0 >= 0
    ensures Steps(s, n).vel.0 == Max(s.vel.0 - n, 0)
    ensures 2 * Steps(s, n).pos.0 == 2 * s.pos.0 +
      if n <= s.vel.0 then 2 * n * s.vel.0 - n * (n - 1) else s.vel.0 * (s.vel.0 + 1)
  {
    var v := s.vel.0;
    if n <= v {
      StepsMoving(s, n);
    } else {
      StepsMoving(s, v);
      StepsSplit(s, v, n - v);
      StepsStopped(Steps(s, v), n - v);
      TriangleStop(v);
    }
  }

  /** The distance after `v` steps at `v`, `v - 1`, ..., `1` is `v * (v + 1) / 2`. */
  lemma TriangleStop(v: int)
    ensures 2 * v * v - v * (v - 1) == v * (v + 1)
  {
  }

  /** The arithmetic of one more step: `vx` now and `(n - 1)` steps at
      one less. */
  lemma TriangleStep(n: int, v: int)
    ensures 2 * v + 2 * (n - 1) * (v - 1) - (n - 1) * (n - 2) == 2 * n * v - n * (n - 1)
  {
  }

  /** While drag has not stopped it, the probe slows by one every step. */
  lemma {:induction false} StepsMoving(s: Probe, n: nat)
    requires n <= s.vel.0
    ensures Steps(s, n).vel.0 == s.vel.0 - n
    ensures 2 * Steps(s, n).pos.0 == 2 * s.pos.0 + 2 * n * s.vel.0 - n * (n - 1)
    decreases n
  {
    if n > 0 {
      var t := Next(s);
      StepsMoving(t, n - 1);
      TriangleStep(n, s.vel.0);
    }
  }

  /** Once the horizontal velocity is zero the probe moves only up and
      down. */
  lemma {:induction false} StepsStopped(s: Probe, n: nat)
    requires s.vel.0 == 0
    ensures Steps(s, n).vel.0 == 0 && Steps(s, n).pos.0 == s.pos.0
    decreases n
  {
    if n > 0 {
      StepsStopped(Next(s), n - 1);
    }
  }

  /** `a + b` steps are `a` steps and then `b` more. */
  lemma {:induction false} StepsSplit(s: Probe, a: nat, b: nat)
    ensures Steps(s, a + b) == Steps(Steps(s, a), b)
    decreases a
  {
    if a > 0 {
      StepsSplit(Next(s), a - 1, b);
    }
  }

  // ---------------------------------------------------------------------
  // The target area

  /** `TargetArea`: the inclusive ranges `xlo..=xhi` and `ylo..=yhi`. */
  datatype TargetArea = TargetArea(xlo: int, xhi: int, ylo: int, yhi: int)

  /** `contains`: both coordinates in their ranges. */
  predicate Contains(t: TargetArea, p: (int, int))
  {
    t.xlo <= p.0 <= t.xhi && t.ylo <= p.1 <= t.yhi
  }

  /** The area between two x bounds and two y bounds given in either
      order: the ranges run from the smaller bound to the larger. */
  function MakeTarget(x1: int, x2: int, y1: int, y2: int): (t: TargetArea)
    ensures t.xlo <= t.xhi && t.ylo <= t.yhi
    ensures {t.xlo, t.xhi} == {x1, x2} && {t.ylo, t.yhi} == {y1, y2}
  {
    TargetArea(Min(x1, x2), Max(x1, x2), Min(y1, y2), Max(y1, y2))
  }

  /** The normalised area holds a point exactly when each coordinate lies
      between its two bounds, whichever order they came in. */
  lemma MakeTargetContains(x1: int, x2: int, y1: int, y2: int, p: (int, int))
    ensures Contains(MakeTarget(x1, x2, y1, y2), p) <==>
      (x1 <= p.0 <= x2 || x2 <= p.0 <= x1) && (y1 <= p.1 <= y2 || y2 <= p.1 <= y1)
  {
  }

  /** The four captured numbers parsed as `i64`; a capture that does not
      parse is the `?` error. */
  function ParseTarget(x1: string, x2: string, y1: string, y2: string): (r: Option<TargetArea>)
    ensures r.Some? <==> ParseI64(x1).Some? && ParseI64(x2).Some? && ParseI64(y1).Some? && ParseI64(y2).Some?
    ensures r.Some? ==> r.value == MakeTarget(ParseI64(x1).value, ParseI64(x2).value, ParseI64(y1).value, ParseI64(y2).value)
  {
    match (ParseI64(x1), ParseI64(x2), ParseI64(y1), ParseI64(y2))
    case (Some(a), Some(b), Some(c), Some(d)) => Some(MakeTarget(a, b, c, d))
    case _ => None
  }

  /** The bounds written in decimal read back as the area they span. */
  lemma ParseTargetOfNumbers(x1: int, x2: int, y1: int, y2: int)
    requires I64Min <= x1 <= I64Max && I64Min <= x2 <= I64Max
    requires I64Min <= y1 <= I64Max && I64Min <= y2 <= I64Max
    ensures ParseTarget(IntToString(x1), IntToString(x2), IntToString(y1), IntToString(y2)) == Some(MakeTarget(x1, x2, y1, y2))
  {
    ParseIntOfIntToString(x1, I64Min, I64Max);
    ParseIntOfIntToString(x2, I64Min, I64Max);
    ParseIntOfIntToString(y1, I64Min, I64Max);
    ParseIntOfIntToString(y2, I64Min, I64Max);
  }

  // ---------------------------------------------------------------------
  // One launch

  /** While the vertical velocity is positive it drops every step. */
  function Rise(s: Probe): nat
  {
    if s.vel.1 > 0 then s.vel.1 else 0
  }

  /** Then the height above the area's lower bound drops every step, the
      step at the apex (vertical velocity zero) counted as one. */
  function Drop(s: Probe, ylo: int): int
  {
    s.pos.1 - ylo + if s.vel.1 == 0 then 1 else 0
  }

  /** The closure's loop from state `s`, with `height` the greatest height
      so far: while the probe is not below the area it steps, and it stops
      with the greatest height as soon as it is in the area; `None` once it
      falls below the area. */
  function Fly(t: TargetArea, s: Probe, height: int): (r: Option<int>)
    ensures r.Some? ==> r.value >= height
    decreases Rise(s), Drop(s, t.ylo)
  {
    if s.pos.1 < t.ylo then None
    else
      var s' := Next(s);
      var h := Max(height, s'.pos.1);
      if Contains(t, s'.pos) then Some(h) else Fly(t, s', h)
  }

  /** The greatest of `height` and the heights of the first `n` steps. */
  function PeakOf(s: Probe, n: nat, height: int): (r: int)
    ensures r >= height
    decreases n
  {
    if n == 0 then height else PeakOf(Next(s), n - 1, Max(height, Next(s).pos.1))
  }

  /** The flight from `s` ends after some `n` steps, every one of them
      taken from a height not below the area and none before the last in
      the area: it hits at step `n` with the greatest height of those
      steps, or it misses because step `n` is below the area. */
  lemma {:induction false} FlyEnds(t: TargetArea, s: Probe, height: int) returns (n: nat)
    ensures forall j :: 0 <= j < n ==> Steps(s, j).pos.1 >= t.ylo
    ensures forall j :: 1 <= j < n ==> !Contains(t, Steps(s, j).pos)
    ensures Fly(t, s, height).Some? ==>
      n >= 1 && Contains(t, Steps(s, n).pos) && Fly(t, s, height).value == PeakOf(s, n, height)
    ensures Fly(t, s, height).None? ==> Steps(s, n).pos.1 < t.ylo
    decreases Rise(s), Drop(s, t.ylo)
  {
    if s.pos.1 < t.ylo {
      n := 0;
    } else {
      var s' := Next(s);
      var h := Max(height, s'.pos.1);
      if Contains(t, s'.pos) {
        n := 1;
      } else {
        var m := FlyEnds(t, s', h);
        n := m + 1;
        forall j | 1 <= j < n
          ensures Steps(s, j).pos == Steps(s', j - 1).pos
        {
        }
        forall j | 0 <= j < n
          ensures Steps(s, j).pos.1 >= t.ylo
        {
          if j > 0 {
            assert Steps(s, j) == Steps(s', j - 1);
          }
        }
      }
    }
  }

  /** Every step height is below `c / 2`, so the greatest of them is too. */
  lemma {:induction false} PeakBound(s: Probe, n: nat, height: int, c: int)
    requires forall j :: 1 <= j <= n ==> 2 * Steps(s, j).pos.1 <= c
    ensures 2 * PeakOf(s, n, height) <= Max(2 * height, c)
    decreases n
  {
    if n > 0 {
      forall j | 1 <= j <= n - 1
        ensures 2 * Steps(Next(s), j).pos.1 <= c
      {
        assert Steps(s, j + 1) == Steps(Next(s), j);
      }
      assert Steps(s, 1) == Next(s);
      PeakBound(Next(s), n - 1, Max(height, Next(s).pos.1), c);
    }
  }

  /** The launch from the origin with velocity `vel`. */
  function Height(t: TargetArea, vel: (int, int)): Option<int>
  {
    Fly(t, Probe((0, 0), vel), I64Min)
  }

  /** The greatest height a probe launched upward at `vy` can reach is
      `vy * (vy + 1) / 2`, so a hit reports no more. */
  lemma HeightBound(t: TargetArea, vel: (int, int))
    requires Height(t, vel).Some?
    ensures 2 * Height(t, vel).value <= vel.1 * (vel.1 + 1)
  {
    var s := Probe((0, 0), vel);
    var n := FlyEnds(t, s, I64Min);
    var c := vel.1 * (vel.1 + 1);
    forall j | 1 <= j <= n
      ensures 2 * Steps(s, j).pos.1 <= c
    {
      StepBelowPeak(s, j);
    }
    PeakBound(s, n, I64Min, c);
    ConsecutiveProduct(vel.1);
  }

  /** From the origin, no step is above `vy * (vy + 1) / 2`. */
  lemma StepBelowPeak(s: Probe, j: nat)
    requires s.pos == (0, 0)
    ensures 2 * Steps(s, j).pos.1 <= s.vel.1 * (s.vel.1 + 1)
  {
    var vy := s.vel.1;
    StepsVertical(s, j);
    ConsecutiveProduct(vy - j);
    assert vy * (vy + 1) - (2 * j * vy - j * (j - 1)) == (vy - j) * (vy - j + 1);
  }

  lemma ConsecutiveProduct(m: int)
    ensures m * (m + 1) >= 0
  {
    if m < 0 {
      assert m * (m + 1) == (-m) * (-m - 1);
    }
  }

  /** The closure for one velocity: a fresh `ProbeState` stepped until it
      is in the area or below it. */
  method Launch(t: TargetArea, vel: (int, int)) returns (r: Option<int>)
    ensures r == Height(t, vel)
  {
    var state := new ProbeState();
    state.vel := vel;
    var height := I64Min;
    while state.pos.1 >= t.ylo
      invariant Fly(t, state.State(), height) == Height(t, vel)
      decreases Rise(state.State()), Drop(state.State(), t.ylo)
    {
      state.Step();
      height := Max(height, state.pos.1);
      if Contains(t, state.pos) {
        return Some(height);
      }
    }
    return None;
  }

  // ---------------------------------------------------------------------
  // The search

  const VxEnd: int := 400
  const VyStart: int := -400
  const VyEnd: int := 400
  const Width: int := VyEnd - VyStart
  const Launches: int := VxEnd * Width

  /** The `i`-th velocity tried: `vx` from 0 below 400 in the outer order and
      `vy` from -400 below 400 in the inner one. */
  function Velocity(i: nat): (v: (int, int))
    requires i < Launches
    ensures 0 <= v.0 < VxEnd && VyStart <= v.1 < VyEnd
  {
    (i / Width, VyStart + i % Width)
  }

  /** The product lists every velocity of the ranges, `vx` major. */
  lemma VelocityOf(vx: int, vy: int)
    requires 0 <= vx < VxEnd && VyStart <= vy < VyEnd
    ensures 0 <= vx * Width + (vy - VyStart) < Launches
    ensures Velocity(vx * Width + (vy - VyStart)) == (vx, vy)
  {
    var i := vx * Width + (vy - VyStart);
    DivUnique(i, Width, vx, vy - VyStart);
  }

  /** `Iterator::max` over the heights present: the greater of two. */
  function Better(a: Option<int>, b: Option<int>): (r: Option<int>)
    ensures r.None? <==> a.None? && b.None?
    ensures r.Some? ==> (r == a || r == b)
    ensures r.Some? ==> (a.Some? ==> a.value <= r.value) && (b.Some? ==> b.value <= r.value)
  {
    match (a, b)
    case (None, _) => b
    case (_, None) => a
    case (Some(x), Some(y)) => Some(Max(x, y))
  }

  /** The greatest height over the first `n` launches. */
  function Best(t: TargetArea, n: nat): Option<int>
    requires n <= Launches
  {
    if n == 0 then None else Better(Best(t, n - 1), Height(t, Velocity(n - 1)))
  }

  /** How many of the first `n` launches hit: `part2 += 1` once per
      launch, since the closure returns right after. */
  function Hits(t: TargetArea, n: nat): (r: nat)
    requires n <= Launches
    ensures r <= n
  {
    if n == 0 then 0 else Hits(t, n - 1) + if Height(t, Velocity(n - 1)).Some? then 1 else 0
  }

  /** The best height is the height of a launch that hits, and no launch
      that hits goes higher; there is none exactly when no launch hits. */
  lemma {:induction false} BestIsMax(t: TargetArea, n: nat)
    requires n <= Launches
    ensures Best(t, n).None? <==> forall i :: 0 <= i < n ==> Height(t, Velocity(i)).None?
    ensures Best(t, n).Some? ==> exists i :: 0 <= i < n && Height(t, Velocity(i)) == Best(t, n)
    ensures Best(t, n).Some? ==> forall i :: 0 <= i < n && Height(t, Velocity(i)).Some? ==>
      Height(t, Velocity(i)).value <= Best(t, n).value
  {
    if n > 0 {
      BestIsMax(t, n - 1);
    }
  }

  /** No launch hits exactly when none is counted. */
  lemma {:induction false} HitsNone(t: TargetArea, n: nat)
    requires n <= Launches
    ensures Hits(t, n) == 0 <==> Best(t, n).None?
  {
    if n > 0 {
      HitsNone(t, n - 1);
    }
  }

  /** The search over all launches: part one is the greatest height of a
      launch that hits, part two the number of launches that hit. */
  method Search(t: TargetArea) returns (part1: Option<int>, part2: nat)
    ensures part1 == Best(t, Launches) && part2 == Hits(t, Launches)
  {
    part1, part2 := None, 0;
    for i := 0 to Launches
      invariant part1 == Best(t, i) && part2 == Hits(t, i)
    {
      var height := Launch(t, Velocity(i));
      if height.Some? {
        part2 := part2 + 1;
      }
      part1 := Better(part1, height);
    }
  }

  /** Both answers for the area the four numbers span. */
  method Solve(x1: string, x2: string, y1: string, y2: string) returns (r: Option<(Option<int>, nat)>)
    ensures ParseTarget(x1, x2, y1, y2).None? ==> r.None?
    ensures ParseTarget(x1, x2, y1, y2).Some? ==> var t := ParseTarget(x1, x2, y1, y2).value;
      r == Some((Best(t, Launches), Hits(t, Launches)))
  {
    var t := ParseTarget(x1, x2, y1, y2);
    if t.None? {
      return None;
    }
    var part1, part2 := Search(t.value);
    return Some((part1, part2));
  }

  /** Part one is the height of some launch in range, and at most
      `vy * (vy + 1) / 2` for that launch's `vy`. */
  lemma Part1Bound(t: TargetArea) returns (vx: int, vy: int)
    requires Best(t, Launches).Some?
    ensures 0 <= vx < VxEnd && VyStart <= vy < VyEnd
    ensures Height(t, (vx, vy)) == Best(t, Launches)
    ensures 2 * Best(t, Launches).value <= vy * (vy + 1)
  {
    BestIsMax(t, Launches);
    var i :| 0 <= i < Launches && Height(t, Velocity(i)) == Best(t, Launches);
    vx, vy := Velocity(i).0, Velocity(i).1;
    HeightBound(t, Velocity(i));
  }
}
