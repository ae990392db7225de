/** `day-25/src/main.rs`: sea cucumbers. The herd lives on a grid that wraps
    around in both directions. A step first moves every `'>'` whose east
    neighbour is free, all decided on the same snapshot, and then every
    `'v'` whose south neighbour is free; the answer is the number of the
    first step in which nothing moves. The grid is a pair of `height x width`
    buffers of characters, read from one and written to the other, swapped
    after each phase. */
module Day25 {
  import opened Common
  import opened Grids

  // ---------------------------------------------------------------------
  // Sums over a range of indices

  /** `f(0) + ... + f(n - 1)`. */
  function SumTo(n: nat, f: nat -> int): int
  {
    if n == 0 then 0 else SumTo(n - 1, f) + f(n - 1)
  }

  lemma {:induction false} SumToPointwise(n: nat, f: nat -> int, g: nat -> int)
    requires forall i: nat :: i < n ==> f(i) == g(i)
    ensures SumTo(n, f) == SumTo(n, g)
  {
    if n > 0 {
      SumToPointwise(n - 1, f, g);
    }
  }

  lemma {:induction false} SumToAdd(n: nat, f: nat -> int, g: nat -> int, h: nat -> int)
    requires forall i: nat :: i < n ==> h(i) == f(i) + g(i)
    ensures SumTo(n, h) == SumTo(n, f) + SumTo(n, g)
  {
    if n > 0 {
      SumToAdd(n - 1, f, g, h);
    }
  }

  lemma {:induction false} SumToShift(n: nat, f: nat -> int, g: nat -> int)
    requires forall i: nat :: i < n ==> g(i) == f(i + 1)
    ensures SumTo(n, g) == SumTo(n + 1, f) - f(0)
  {
    if n > 0 {
      SumToShift(n - 1, f, g);
    }
  }

  // ---------------------------------------------------------------------
  // Wrapping neighbours

  /** `(x + width - 1) % width`. */
  function Before(x: nat, n: nat): (r: nat)
    requires x < n
    ensures r < n
  {
    (x + n - 1) % n
  }

  /** `(x + width + 1) % width`. */
  function After(x: nat, n: nat): (r: nat)
    requires x < n
    ensures r < n
  {
    (x + n + 1) % n
  }

  lemma AfterValue(x: nat, n: nat)
    requires x < n
    ensures After(x, n) == if x + 1 < n then x + 1 else 0
  {
  }

  lemma BeforeValue(x: nat, n: nat)
    requires x < n
    ensures Before(x, n) == if x > 0 then x - 1 else n - 1
  {
  }

  /** The two wrapping neighbours undo each other. */
  lemma BeforeAfter(x: nat, n: nat)
    requires x < n
    ensures Before(After(x, n), n) == x && After(Before(x, n), n) == x
  {
    AfterValue(x, n);
    BeforeValue(x, n);
    BeforeValue(After(x, n), n);
    AfterValue(Before(x, n), n);
  }

  /** Summing around a cycle from the second element on gives the same. */
  lemma SumToRotate(n: nat, f: nat -> int, g: nat -> int)
    requires n > 0 && forall i: nat :: i < n ==> g(i) == f(After(i, n))
    ensures SumTo(n, g) == SumTo(n, f)
  {
    forall i: nat | i < n - 1
      ensures g(i) == f(i + 1)
    {
      AfterValue(i, n);
    }
    var m := n - 1;
    SumToShift(m, f, g);
    assert m + 1 == n;
    AfterValue(m, n);
    assert g(m) == f(0);
    assert SumTo(n, g) == SumTo(m, g) + g(m);
  }

  // ---------------------------------------------------------------------
  // The two phases on values

  /** The east phase at one cell: a free cell behind a `'>'` receives it, a
      `'>'` in front of a free cell leaves. */
  function EastCell(row: seq<char>, x: nat): char
    requires x < |row|
  {
    var w := |row|;
    var center, left, right := row[x], row[Before(x, w)], row[After(x, w)];
    if center == '.' && left == '>' then '>'
    else if center == '>' && right == '.' then '.'
    else center
  }

  /** Whether the east phase moves something at the cell. */
  predicate EastMoves(row: seq<char>, x: nat)
    requires x < |row|
  {
    var w := |row|;
    (row[x] == '.' && row[Before(x, w)] == '>') || (row[x] == '>' && row[After(x, w)] == '.')
  }

  function EastRow(row: seq<char>): (r: seq<char>)
    ensures |r| == |row|
  {
    seq(|row|, x requires 0 <= x < |row| => EastCell(row, x))
  }

  /** The east phase: every row on its own, from the same snapshot. */
  function East(g: Grid<char>): (r: Grid<char>)
    ensures SameShape(g, r)
  {
    seq(|g|, y requires 0 <= y < |g| => EastRow(g[y]))
  }

  /** The `change` flag of the east phase: whether some cell moves. */
  predicate EastChanged(g: Grid<char>)
  {
    EastRowsMove(g, |g|)
  }

  /** The south phase at one cell, the column wrapping around. */
  function SouthCell(g: Grid<char>, w: nat, y: nat, x: nat): char
    requires Rectangular(g, w) && y < |g| && x < w
  {
    var h := |g|;
    var center, top, bottom := g[y][x], g[Before(y, h)][x], g[After(y, h)][x];
    if center == '.' && top == 'v' then 'v'
    else if center == 'v' && bottom == '.' then '.'
    else center
  }

  predicate SouthMoves(g: Grid<char>, w: nat, y: nat, x: nat)
    requires Rectangular(g, w) && y < |g| && x < w
  {
    var h := |g|;
    (g[y][x] == '.' && g[Before(y, h)][x] == 'v') || (g[y][x] == 'v' && g[After(y, h)][x] == '.')
  }

  function SouthRow(g: Grid<char>, w: nat, y: nat): (r: seq<char>)
    requires Rectangular(g, w) && y < |g|
    ensures |r| == w
  {
    seq(w, x requires 0 <= x < w => SouthCell(g, w, y, x))
  }

  function South(g: Grid<char>, w: nat): (r: Grid<char>)
    requires Rectangular(g, w)
    ensures |r| == |g| && Rectangular(r, w)
  {
    seq(|g|, y requires 0 <= y < |g| => SouthRow(g, w, y))
  }

  predicate SouthChanged(g: Grid<char>, w: nat)
    requires Rectangular(g, w)
  {
    SouthRowsMove(g, w, |g|)
  }

  /** One step: both phases, and whether either moved something. */
  function Step(g: Grid<char>, w: nat): (Grid<char>, bool)
    requires Rectangular(g, w)
  {
    var e := East(g);
    assert Rectangular(e, w);
    (South(e, w), EastChanged(g) || SouthChanged(e, w))
  }

  // ---------------------------------------------------------------------
  // What the phases do

  /** The `change` flag of the east phase is set exactly when the phase
      changes the grid. */
  lemma EastChangedIff(g: Grid<char>)
    ensures EastChanged(g) <==> East(g) != g
  {
    EastRowsMoveMeaning(g, |g|);
    if EastChanged(g) {
      var y, x :| 0 <= y < |g| && 0 <= x < |g[y]| && EastMoves(g[y], x);
      assert East(g)[y][x] != g[y][x];
    } else {
      forall y | 0 <= y < |g|
        ensures East(g)[y] == g[y]
      {
        forall x | 0 <= x < |g[y]|
          ensures East(g)[y][x] == g[y][x]
        {
          assert !EastMoves(g[y], x);
        }
      }
    }
  }

  lemma SouthChangedIff(g: Grid<char>, w: nat)
    requires Rectangular(g, w)
    ensures SouthChanged(g, w) <==> South(g, w) != g
  {
    SouthRowsMoveMeaning(g, w, |g|);
    if SouthChanged(g, w) {
      var y, x :| 0 <= y < |g| && 0 <= x < w && SouthMoves(g, w, y, x);
      assert South(g, w)[y][x] != g[y][x];
    } else {
      forall y | 0 <= y < |g|
        ensures South(g, w)[y] == g[y]
      {
        forall x | 0 <= x < w
          ensures South(g, w)[y][x] == g[y][x]
        {
          assert !SouthMoves(g, w, y, x);
        }
      }
    }
  }

  /** A step reports a move exactly when it changes the grid: the east
      phase decides where the `'>'`s are, and the south phase never
      touches them. */
  lemma StepChangedIff(g: Grid<char>, w: nat)
    requires Rectangular(g, w)
    ensures Step(g, w).1 <==> Step(g, w).0 != g
  {
    var e := East(g);
    assert Rectangular(e, w);
    EastChangedIff(g);
    SouthChangedIff(e, w);
    EastRowsMoveMeaning(g, |g|);
    if EastChanged(g) {
      var y, x :| 0 <= y < |g| && 0 <= x < |g[y]| && EastMoves(g[y], x);
      assert (e[y][x] == '>') != (g[y][x] == '>');
      assert (South(e, w)[y][x] == '>') == (e[y][x] == '>');
    }
  }

  // ---------------------------------------------------------------------
  // The phases keep the herds

  /** The number of cells of `row` holding `c`. */
  function Occurrences(row: seq<char>, c: char): int
  {
    SumTo(|row|, (x: nat) => if x < |row| && row[x] == c then 1 else 0)
  }

  function GridOccurrences(g: Grid<char>, c: char): int
  {
    SumTo(|g|, (y: nat) => if y < |g| then Occurrences(g[y], c) else 0)
  }

  /** The east phase keeps the number of `'>'` in a row: every `'>'` that
      leaves its cell arrives in the next one. */
  lemma EastRowKeepsEast(row: seq<char>)
    ensures Occurrences(EastRow(row), '>') == Occurrences(row, '>')
  {
    var n := |row|;
    if n > 0 {
      var r := EastRow(row);
      var stays := (x: nat) => if x < n && row[x] == '>' && row[After(x, n)] != '.' then 1 else 0;
      var leaves := (x: nat) => if x < n && row[x] == '>' && row[After(x, n)] == '.' then 1 else 0;
      var arrives := (x: nat) => if x < n && row[x] == '.' && row[Before(x, n)] == '>' then 1 else 0;
      var before := (x: nat) => if x < n && row[x] == '>' then 1 else 0;
      var after := (x: nat) => if x < |r| && r[x] == '>' then 1 else 0;
      SumToAdd(n, stays, arrives, after);
      forall i: nat | i < n
        ensures leaves(i) == arrives(After(i, n))
      {
        BeforeAfter(i, n);
      }
      SumToRotate(n, arrives, leaves);
      SumToAdd(n, stays, leaves, before);
    }
  }

  lemma {:induction false} EastRowKeepsSouth(row: seq<char>)
    ensures Occurrences(EastRow(row), 'v') == Occurrences(row, 'v')
  {
    var r := EastRow(row);
    SumToPointwise(|row|, (x: nat) => if x < |row| && row[x] == 'v' then 1 else 0,
      (x: nat) => if x < |r| && r[x] == 'v' then 1 else 0);
  }

  /** The east phase keeps both herds' sizes. */
  lemma EastKeepsHerds(g: Grid<char>)
    ensures GridOccurrences(East(g), '>') == GridOccurrences(g, '>')
    ensures GridOccurrences(East(g), 'v') == GridOccurrences(g, 'v')
  {
    var e := East(g);
    forall y: nat | y < |g|
      ensures Occurrences(e[y], '>') == Occurrences(g[y], '>')
      ensures Occurrences(e[y], 'v') == Occurrences(g[y], 'v')
    {
      EastRowKeepsEast(g[y]);
      EastRowKeepsSouth(g[y]);
    }
    SumToPointwise(|g|, (y: nat) => if y < |e| then Occurrences(e[y], '>') else 0,
      (y: nat) => if y < |g| then Occurrences(g[y], '>') else 0);
    SumToPointwise(|g|, (y: nat) => if y < |e| then Occurrences(e[y], 'v') else 0,
      (y: nat) => if y < |g| then Occurrences(g[y], 'v') else 0);
  }

  /** In row `y`: the `'v'`s that stay, the `'v'`s that leave, and the free
      cells a `'v'` arrives in, one indicator per column. */
  function Stays(g: Grid<char>, w: nat, y: nat): nat -> int
    requires Rectangular(g, w) && y < |g|
  {
    (x: nat) => if x < w && g[y][x] == 'v' && g[After(y, |g|)][x] != '.' then 1 else 0
  }

  function Leaves(g: Grid<char>, w: nat, y: nat): nat -> int
    requires Rectangular(g, w) && y < |g|
  {
    (x: nat) => if x < w && g[y][x] == 'v' && g[After(y, |g|)][x] == '.' then 1 else 0
  }

  function Arrives(g: Grid<char>, w: nat, y: nat): nat -> int
    requires Rectangular(g, w) && y < |g|
  {
    (x: nat) => if x < w && g[y][x] == '.' && g[Before(y, |g|)][x] == 'v' then 1 else 0
  }

  /** Row `y` after the south phase holds the `'v'`s that stayed and those
      that arrived; before it, those that stay and those that leave. */
  lemma SouthRowSplit(g: Grid<char>, w: nat, y: nat)
    requires Rectangular(g, w) && y < |g|
    ensures Occurrences(South(g, w)[y], 'v') == SumTo(w, Stays(g, w, y)) + SumTo(w, Arrives(g, w, y))
    ensures Occurrences(g[y], 'v') == SumTo(w, Stays(g, w, y)) + SumTo(w, Leaves(g, w, y))
  {
    var s := South(g, w)[y];
    SumToAdd(w, Stays(g, w, y), Arrives(g, w, y), (x: nat) => if x < |s| && s[x] == 'v' then 1 else 0);
    SumToAdd(w, Stays(g, w, y), Leaves(g, w, y), (x: nat) => if x < |g[y]| && g[y][x] == 'v' then 1 else 0);
  }

  /** What leaves row `y` arrives in the row below it. */
  lemma SouthLeavesArrive(g: Grid<char>, w: nat, y: nat)
    requires Rectangular(g, w) && y < |g|
    ensures SumTo(w, Leaves(g, w, y)) == SumTo(w, Arrives(g, w, After(y, |g|)))
  {
    BeforeAfter(y, |g|);
    SumToPointwise(w, Leaves(g, w, y), Arrives(g, w, After(y, |g|)));
  }

  /** The row sums of the three indicators. */
  function RowSums(g: Grid<char>, w: nat, per: (Grid<char>, nat, nat) --> (nat -> int)): nat -> int
    requires Rectangular(g, w) && forall y :: 0 <= y < |g| ==> per.requires(g, w, y)
  {
    (y: nat) => if y < |g| then SumTo(w, per(g, w, y)) else 0
  }

  lemma SouthAfterSums(g: Grid<char>, w: nat)
    requires Rectangular(g, w)
    ensures GridOccurrences(South(g, w), 'v') == SumTo(|g|, RowSums(g, w, Stays)) + SumTo(|g|, RowSums(g, w, Arrives))
  {
    var s := South(g, w);
    forall y: nat | y < |g|
      ensures Occurrences(s[y], 'v') == RowSums(g, w, Stays)(y) + RowSums(g, w, Arrives)(y)
    {
      SouthRowSplit(g, w, y);
    }
    SumToAdd(|g|, RowSums(g, w, Stays), RowSums(g, w, Arrives), (y: nat) => if y < |s| then Occurrences(s[y], 'v') else 0);
  }

  lemma SouthBeforeSums(g: Grid<char>, w: nat)
    requires Rectangular(g, w)
    ensures GridOccurrences(g, 'v') == SumTo(|g|, RowSums(g, w, Stays)) + SumTo(|g|, RowSums(g, w, Leaves))
  {
    forall y: nat | y < |g|
      ensures Occurrences(g[y], 'v') == RowSums(g, w, Stays)(y) + RowSums(g, w, Leaves)(y)
    {
      SouthRowSplit(g, w, y);
    }
    SumToAdd(|g|, RowSums(g, w, Stays), RowSums(g, w, Leaves), (y: nat) => if y < |g| then Occurrences(g[y], 'v') else 0);
  }

  /** The south phase keeps the number of `'v'`: summed over the rows,
      every `'v'` that leaves its cell arrives in the row below. */
  lemma SouthKeepsSouth(g: Grid<char>, w: nat)
    requires Rectangular(g, w)
    ensures GridOccurrences(South(g, w), 'v') == GridOccurrences(g, 'v')
  {
    var h := |g|;
    SouthAfterSums(g, w);
    SouthBeforeSums(g, w);
    if h > 0 {
      forall y: nat | y < h
        ensures RowSums(g, w, Leaves)(y) == RowSums(g, w, Arrives)(After(y, h))
      {
        SouthLeavesArrive(g, w, y);
      }
      SumToRotate(h, RowSums(g, w, Arrives), RowSums(g, w, Leaves));
    }
  }

  lemma SouthKeepsEast(g: Grid<char>, w: nat)
    requires Rectangular(g, w)
    ensures GridOccurrences(South(g, w), '>') == GridOccurrences(g, '>')
  {
    var s := South(g, w);
    forall y: nat | y < |g|
      ensures Occurrences(s[y], '>') == Occurrences(g[y], '>')
    {
      SumToPointwise(w, (x: nat) => if x < |s[y]| && s[y][x] == '>' then 1 else 0,
        (x: nat) => if x < |g[y]| && g[y][x] == '>' then 1 else 0);
    }
    SumToPointwise(|g|, (y: nat) => if y < |s| then Occurrences(s[y], '>') else 0,
      (y: nat) => if y < |g| then Occurrences(g[y], '>') else 0);
  }

  /** A whole step keeps the size of both herds. */
  lemma StepKeepsHerds(g: Grid<char>, w: nat)
    requires Rectangular(g, w)
    ensures GridOccurrences(Step(g, w).0, '>') == GridOccurrences(g, '>')
    ensures GridOccurrences(Step(g, w).0, 'v') == GridOccurrences(g, 'v')
  {
    var e := East(g);
    assert Rectangular(e, w);
    EastKeepsHerds(g);
    SouthKeepsEast(e, w);
    SouthKeepsSouth(e, w);
  }

  // ---------------------------------------------------------------------
  // The answer

  /** The number of the first step, counting on from `done`, that moves
      nothing; `None` when none of the next `fuel` steps is still. */
  function FirstStill(g: Grid<char>, w: nat, done: nat, fuel: nat): Option<nat>
    requires Rectangular(g, w)
    decreases fuel
  {
    if fuel == 0 then None
    else
      var (next, change) := Step(g, w);
      if !change then Some(done + 1) else FirstStill(next, w, done + 1, fuel - 1)
  }

  /** The grid after `n` steps. */
  function Steps(g: Grid<char>, w: nat, n: nat): (r: Grid<char>)
    requires Rectangular(g, w)
    ensures Rectangular(r, w) && |r| == |g|
  {
    if n == 0 then g else Step(Steps(g, w, n - 1), w).0
  }

  /** Step `n` leaves the grid as it was. */
  predicate StillAt(g0: Grid<char>, w: nat, n: nat)
    requires Rectangular(g0, w) && n >= 1
  {
    Steps(g0, w, n) == Steps(g0, w, n - 1)
  }

  /** The reported step is the first that leaves the grid as it was: the
      steps before it all change it. */
  lemma {:induction false} FirstStillMeaning(g0: Grid<char>, w: nat, done: nat, fuel: nat)
    requires Rectangular(g0, w)
    ensures var r := FirstStill(Steps(g0, w, done), w, done, fuel);
      (r.Some? ==> done < r.value <= done + fuel && StillAt(g0, w, r.value)) &&
      (r.Some? ==> forall n :: done < n < r.value ==> !StillAt(g0, w, n)) &&
      (r.None? ==> forall n :: done < n <= done + fuel ==> !StillAt(g0, w, n))
    decreases fuel
  {
    if fuel > 0 {
      var g := Steps(g0, w, done);
      StepChangedIff(g, w);
      assert Steps(g0, w, done + 1) == Step(g, w).0;
      assert StillAt(g0, w, done + 1) <==> !Step(g, w).1;
      if Step(g, w).1 {
        FirstStillMeaning(g0, w, done + 1, fuel - 1);
      }
    }
  }

  // ---------------------------------------------------------------------
  // Parsing

  /** The characters of a line other than spaces. */
  function NonSpace(line: string): (r: string)
    ensures |r| <= |line| && forall i :: 0 <= i < |r| ==> r[i] != ' '
  {
    if line == [] then []
    else if line[|line| - 1] == ' ' then NonSpace(line[..|line| - 1])
    else NonSpace(line[..|line| - 1]) + [line[|line| - 1]]
  }

  function NonEmpty(lines: seq<string>): (r: seq<string>)
    ensures |r| <= |lines|
  {
    if lines == [] then []
    else if lines[|lines| - 1] == "" then NonEmpty(lines[..|lines| - 1])
    else NonEmpty(lines[..|lines| - 1]) + [lines[|lines| - 1]]
  }

  /** Every non-empty line fits the width of the first line once its spaces
      are dropped (the source indexes out of bounds otherwise). */
  predicate Fits(lines: seq<string>, w: nat)
  {
    forall y :: 0 <= y < |NonEmpty(lines)| ==> |NonSpace(NonEmpty(lines)[y])| <= w
  }

  /** The grid the input fills: row `y` holds the non-space characters of
      the `y`-th non-empty line, and every other cell stays `'\0'` (the
      zero byte of `Array::zeros`). */
  function Initial(lines: seq<string>, h: nat, w: nat): (g: Grid<char>)
    ensures |g| == h && Rectangular(g, w)
  {
    var rows := NonEmpty(lines);
    seq(h, y requires 0 <= y < h =>
      seq(w, x requires 0 <= x < w =>
        if y < |rows| && x < |NonSpace(rows[y])| then NonSpace(rows[y])[x] else '\0'))
  }

  // ---------------------------------------------------------------------
  // The buffers

  function Contents(a: array2<char>): (g: Grid<char>)
    reads a
    ensures |g| == a.Length0 && Rectangular(g, a.Length1)
  {
    seq(a.Length0, y requires 0 <= y < a.Length0 reads a =>
      seq(a.Length1, x requires 0 <= x < a.Length1 reads a => a[y, x]))
  }

  /** Whether the east phase moves something among the first `x` cells of
      `row`: the `change` flag as the scan of a row sets it. */
  predicate EastMovesBefore(row: seq<char>, x: nat)
    requires x <= |row|
  {
    x > 0 && (EastMovesBefore(row, x - 1) || EastMoves(row, x - 1))
  }

  /** Whether the east phase moves something in the first `y` rows. */
  predicate EastRowsMove(g: Grid<char>, y: nat)
    requires y <= |g|
  {
    y > 0 && (EastRowsMove(g, y - 1) || EastMovesBefore(g[y - 1], |g[y - 1]|))
  }

  lemma {:induction false} EastMovesBeforeMeaning(row: seq<char>, x: nat)
    requires x <= |row|
    ensures EastMovesBefore(row, x) <==> exists i :: 0 <= i < x && EastMoves(row, i)
  {
    if x > 0 {
      EastMovesBeforeMeaning(row, x - 1);
    }
  }

  lemma {:induction false} EastRowsMoveMeaning(g: Grid<char>, y: nat)
    requires y <= |g|
    ensures EastRowsMove(g, y) <==> exists j, i :: 0 <= j < y && 0 <= i < |g[j]| && EastMoves(g[j], i)
  {
    if y > 0 {
      EastRowsMoveMeaning(g, y - 1);
      EastMovesBeforeMeaning(g[y - 1], |g[y - 1]|);
    }
  }

  predicate SouthMovesBefore(g: Grid<char>, w: nat, y: nat, x: nat)
    requires Rectangular(g, w) && y < |g| && x <= w
  {
    x > 0 && (SouthMovesBefore(g, w, y, x - 1) || SouthMoves(g, w, y, x - 1))
  }

  predicate SouthRowsMove(g: Grid<char>, w: nat, y: nat)
    requires Rectangular(g, w) && y <= |g|
  {
    y > 0 && (SouthRowsMove(g, w, y - 1) || SouthMovesBefore(g, w, y - 1, w))
  }

  lemma {:induction false} SouthMovesBeforeMeaning(g: Grid<char>, w: nat, y: nat, x: nat)
    requires Rectangular(g, w) && y < |g| && x <= w
    ensures SouthMovesBefore(g, w, y, x) <==> exists i :: 0 <= i < x && SouthMoves(g, w, y, i)
  {
    if x > 0 {
      SouthMovesBeforeMeaning(g, w, y, x - 1);
    }
  }

  lemma {:induction false} SouthRowsMoveMeaning(g: Grid<char>, w: nat, y: nat)
    requires Rectangular(g, w) && y <= |g|
    ensures SouthRowsMove(g, w, y) <==> exists j, i :: 0 <= j < y && 0 <= i < w && SouthMoves(g, w, j, i)
  {
    if y > 0 {
      SouthRowsMoveMeaning(g, w, y - 1);
      SouthMovesBeforeMeaning(g, w, y - 1, w);
    }
  }

  /** The east phase from `src` into `dst`; `true` when something moved. */
  method EastPhase(src: array2<char>, dst: array2<char>) returns (change: bool)
    requires src != dst && src.Length0 == dst.Length0 && src.Length1 == dst.Length1
    modifies dst
    ensures Contents(dst) == East(Contents(src)) && change == EastChanged(Contents(src))
  {
    ghost var g := Contents(src);
    change := false;
    for y := 0 to src.Length0
      invariant forall j, i :: 0 <= j < y && 0 <= i < src.Length1 ==> dst[j, i] == EastCell(g[j], i)
      invariant change == EastRowsMove(g, y)
    {
      var moved := EastPhaseRow(src, dst, y, g);
      change := change || moved;
    }
    assert forall j :: 0 <= j < src.Length0 ==> Contents(dst)[j] == East(g)[j];
  }

  /** One row of the east phase. */
  method EastPhaseRow(src: array2<char>, dst: array2<char>, y: nat, ghost g: Grid<char>) returns (moved: bool)
    requires src != dst && src.Length0 == dst.Length0 && src.Length1 == dst.Length1
    requires g == Contents(src) && y < src.Length0
    modifies dst
    ensures forall i :: 0 <= i < src.Length1 ==> dst[y, i] == EastCell(g[y], i)
    ensures forall j, i :: 0 <= j < src.Length0 && j != y && 0 <= i < src.Length1 ==> dst[j, i] == old(dst[j, i])
    ensures moved == EastMovesBefore(g[y], src.Length1)
  {
    var width := src.Length1;
    moved := false;
    for x := 0 to width
      invariant forall i :: 0 <= i < x ==> dst[y, i] == EastCell(g[y], i)
      invariant forall j, i :: 0 <= j < src.Length0 && j != y && 0 <= i < width ==> dst[j, i] == old(dst[j, i])
      invariant moved == EastMovesBefore(g[y], x)
    {
      var center := src[y, x];
      var left := src[y, (x + width - 1) % width];
      var right := src[y, (x + width + 1) % width];
      assert center == g[y][x] && left == g[y][Before(x, width)] && right == g[y][After(x, width)];
      if center == '.' && left == '>' {
        moved := true;
        dst[y, x] := '>';
      } else if center == '>' && right == '.' {
        moved := true;
        dst[y, x] := '.';
      } else {
        dst[y, x] := center;
      }
    }
  }

  /** The south phase from `src` into `dst`; `true` when something moved. */
  method SouthPhase(src: array2<char>, dst: array2<char>) returns (change: bool)
    requires src != dst && src.Length0 == dst.Length0 && src.Length1 == dst.Length1
    modifies dst
    ensures Contents(dst) == South(Contents(src), src.Length1)
    ensures change == SouthChanged(Contents(src), src.Length1)
  {
    ghost var g := Contents(src);
    change := false;
    for y := 0 to src.Length0
      invariant forall j, i :: 0 <= j < y && 0 <= i < src.Length1 ==> dst[j, i] == SouthCell(g, src.Length1, j, i)
      invariant change == SouthRowsMove(g, src.Length1, y)
    {
      var moved := SouthPhaseRow(src, dst, y, g);
      change := change || moved;
    }
    assert forall j :: 0 <= j < src.Length0 ==> Contents(dst)[j] == South(g, src.Length1)[j];
  }

  /** One row of the south phase. */
  method SouthPhaseRow(src: array2<char>, dst: array2<char>, y: nat, ghost g: Grid<char>) returns (moved: bool)
    requires src != dst && src.Length0 == dst.Length0 && src.Length1 == dst.Length1
    requires g == Contents(src) && y < src.Length0
    modifies dst
    ensures forall i :: 0 <= i < src.Length1 ==> dst[y, i] == SouthCell(g, src.Length1, y, i)
    ensures forall j, i :: 0 <= j < src.Length0 && j != y && 0 <= i < src.Length1 ==> dst[j, i] == old(dst[j, i])
    ensures moved == SouthMovesBefore(g, src.Length1, y, src.Length1)
  {
    var height, width := src.Length0, src.Length1;
    moved := false;
    for x := 0 to width
      invariant forall i :: 0 <= i < x ==> dst[y, i] == SouthCell(g, width, y, i)
      invariant forall j, i :: 0 <= j < height && j != y && 0 <= i < width ==> dst[j, i] == old(dst[j, i])
      invariant moved == SouthMovesBefore(g, width, y, x)
    {
      var center := src[y, x];
      var top := src[(y + height - 1) % height, x];
      var bottom := src[(y + height + 1) % height, x];
      assert center == g[y][x] && top == g[Before(y, height)][x] && bottom == g[After(y, height)][x];
      if center == '.' && top == 'v' {
        moved := true;
        dst[y, x] := 'v';
      } else if center == 'v' && bottom == '.' {
        moved := true;
        dst[y, x] := '.';
      } else {
        dst[y, x] := center;
      }
    }
  }

  /** The parsing loops: a zeroed buffer, then each character written in
      place. */
  method Load(lines: seq<string>, height: nat, width: nat) returns (src: array2<char>)
    requires Fits(lines, width)
    ensures fresh(src) && src.Length0 == height && src.Length1 == width
    ensures Contents(src) == Initial(lines, height, width)
  {
    src := new char[height, width]((_, _) => '\0');
    var rows := NonEmpty(lines);
    var y := 0;
    while y < |rows| && y < height
      invariant y <= |rows|
      invariant forall j, i :: 0 <= j < height && 0 <= i < width ==>
        src[j, i] == if j < y && i < |NonSpace(rows[j])| then NonSpace(rows[j])[i] else '\0'
    {
      var chars := NonSpace(rows[y]);
      for x := 0 to |chars|
        invariant forall j, i :: 0 <= j < height && 0 <= i < width ==>
          src[j, i] == if (j < y && i < |NonSpace(rows[j])|) || (j == y && i < x) then NonSpace(rows[j])[i] else '\0'
      {
        src[y, x] := chars[x];
      }
      y := y + 1;
    }
    assert forall j :: 0 <= j < height ==> Contents(src)[j] == Initial(lines, height, width)[j];
  }

  /** `main`: `None` when there is no first line, or when none of the first
      `fuel` steps is still; otherwise the number of the first still step. */
  method Solve(lines: seq<string>, fuel: nat) returns (r: Option<nat>)
    requires lines != [] ==> Fits(lines, |lines[0]|)
    ensures lines == [] ==> r.None?
    ensures lines != [] ==> r == FirstStill(Initial(lines, |lines|, |lines[0]|), |lines[0]|, 0, fuel)
  {
    if lines == [] {
      return None;
    }
    var height, width := |lines|, |lines[0]|;
    var src := Load(lines, height, width);
    var dst := new char[height, width]((_, _) => '\0');
    r := Run(src, dst, fuel);
  }

  /** The `for _ in 0..` loop of `main`: steps until one moves nothing,
      swapping the buffers after each phase; `None` when `fuel` steps all
      move something. */
  method Run(src: array2<char>, dst: array2<char>, fuel: nat) returns (r: Option<nat>)
    requires src != dst && src.Length0 == dst.Length0 && src.Length1 == dst.Length1
    modifies src, dst
    ensures r == FirstStill(old(Contents(src)), src.Length1, 0, fuel)
  {
    var width := src.Length1;
    ghost var start := Contents(src);
    var a, b := src, dst;
    var step := 0;
    while step < fuel
      invariant {a, b} == {src, dst} && a != b
      invariant a.Length0 == b.Length0 && a.Length1 == b.Length1 == width
      invariant step <= fuel
      invariant FirstStill(start, width, 0, fuel) == FirstStill(Contents(a), width, step, fuel - step)
    {
      ghost var before := Contents(a);
      var change := EastPhase(a, b);
      a, b := b, a;
      var moved := SouthPhase(a, b);
      change := change || moved;
      a, b := b, a;
      step := step + 1;
      assert (Contents(a), change) == Step(before, width);
      if !change {
        return Some(step);
      }
    }
    return None;
  }
}
