/** Grids stored as a vector of rows (`Vec<Vec<T>>`), as several days keep
    them: cell access that falls off the grid, including at a negative
    coordinate (which `as usize` turns into a huge index), yields nothing;
    and counting the cells that satisfy a predicate. */
module Grids {
  import opened Common

  type Grid<T> = seq<seq<T>>

  /** `(x, y)` names a cell: `y` selects the row and `x` the column. */
  predicate OnGrid<T>(g: Grid<T>, pos: (int, int))
  {
    0 <= pos.1 < |g| && 0 <= pos.0 < |g[pos.1]|
  }

  /** The cell at `pos`, looked up row first and then column; nothing off
      the grid. */
  function Get<T>(g: Grid<T>, pos: (int, int)): (r: Option<T>)
    ensures r.Some? <==> OnGrid(g, pos)
  {
    if OnGrid(g, pos) then Some(g[pos.1][pos.0]) else None
  }

  /** The grid with one cell replaced. */
  function Set<T>(g: Grid<T>, pos: (int, int), v: T): (h: Grid<T>)
    requires OnGrid(g, pos)
    ensures SameShape(g, h)
    ensures forall y, x :: 0 <= y < |g| && 0 <= x < |g[y]| ==>
      h[y][x] == if (x, y) == pos then v else g[y][x]
  {
    g[pos.1 := g[pos.1][pos.0 := v]]
  }

  /** Both grids have the same rows of the same lengths. */
  predicate SameShape<T, U>(a: Grid<T>, b: Grid<U>)
  {
    |a| == |b| && forall y :: 0 <= y < |a| ==> |a[y]| == |b[y]|
  }

  /** Every row is `w` cells long. */
  predicate Rectangular<T>(g: Grid<T>, w: nat)
  {
    forall y :: 0 <= y < |g| ==> |g[y]| == w
  }

  function RowCount<T>(row: seq<T>, p: T -> bool): (n: nat)
    ensures n <= |row|
  {
    if row == [] then 0 else RowCount(row[..|row| - 1], p) + (if p(row[|row| - 1]) then 1 else 0)
  }

  /** The number of cells satisfying `p`. */
  function Count<T>(g: Grid<T>, p: T -> bool): nat
  {
    if g == [] then 0 else Count(g[..|g| - 1], p) + RowCount(g[|g| - 1], p)
  }

  /** The number of cells. */
  function Size<T>(g: Grid<T>): nat
  {
    if g == [] then 0 else Size(g[..|g| - 1]) + |g[|g| - 1]|
  }

  lemma {:induction false} RowCountSet<T>(row: seq<T>, x: nat, v: T, p: T -> bool)
    requires x < |row|
    ensures RowCount(row[x := v], p) + (if p(row[x]) then 1 else 0) == RowCount(row, p) + (if p(v) then 1 else 0)
  {
    var n := |row| - 1;
    if x < n {
      assert row[x := v][..n] == row[..n][x := v];
      RowCountSet(row[..n], x, v, p);
    } else {
      assert row[x := v][..n] == row[..n];
    }
  }

  /** Replacing one cell changes the count by what the old and the new
      value contribute. */
  lemma {:induction false} CountSet<T>(g: Grid<T>, pos: (int, int), v: T, p: T -> bool)
    requires OnGrid(g, pos)
    ensures Count(Set(g, pos, v), p) + (if p(g[pos.1][pos.0]) then 1 else 0) == Count(g, p) + (if p(v) then 1 else 0)
  {
    var n := |g| - 1;
    var h := Set(g, pos, v);
    if pos.1 < n {
      assert h[..n] == Set(g[..n], pos, v);
      CountSet(g[..n], pos, v, p);
      assert h[n] == g[n];
    } else {
      assert h[..n] == g[..n];
      RowCountSet(g[n], pos.0, v, p);
    }
  }

  lemma {:induction false} RowCountPointwise<T, U>(a: seq<T>, p: T -> bool, b: seq<U>, q: U -> bool)
    requires |a| == |b| && forall x :: 0 <= x < |a| ==> p(a[x]) == q(b[x])
    ensures RowCount(a, p) == RowCount(b, q)
  {
    if a != [] {
      RowCountPointwise(a[..|a| - 1], p, b[..|b| - 1], q);
    }
  }

  /** Counts agree on grids of the same shape whose cells agree on the
      predicates, cell by cell. */
  lemma {:induction false} CountPointwise<T, U>(a: Grid<T>, p: T -> bool, b: Grid<U>, q: U -> bool)
    requires SameShape(a, b)
    requires forall y, x :: 0 <= y < |a| && 0 <= x < |a[y]| ==> p(a[y][x]) == q(b[y][x])
    ensures Count(a, p) == Count(b, q)
  {
    if a != [] {
      var n := |a| - 1;
      CountPointwise(a[..n], p, b[..n], q);
      RowCountPointwise(a[n], p, b[n], q);
    }
  }

  lemma {:induction false} RowCountComplement<T>(row: seq<T>, p: T -> bool, q: T -> bool)
    requires forall x :: 0 <= x < |row| ==> p(row[x]) != q(row[x])
    ensures RowCount(row, p) + RowCount(row, q) == |row|
  {
    if row != [] {
      RowCountComplement(row[..|row| - 1], p, q);
    }
  }

  /** Cells satisfying exactly one of two predicates split the grid. */
  lemma {:induction false} CountComplement<T>(g: Grid<T>, p: T -> bool, q: T -> bool)
    requires forall y, x :: 0 <= y < |g| && 0 <= x < |g[y]| ==> p(g[y][x]) != q(g[y][x])
    ensures Count(g, p) + Count(g, q) == Size(g)
  {
    if g != [] {
      var n := |g| - 1;
      CountComplement(g[..n], p, q);
      RowCountComplement(g[n], p, q);
    }
  }

  lemma {:induction false} RowCountAll<T>(row: seq<T>, p: T -> bool)
    requires forall x :: 0 <= x < |row| ==> p(row[x])
    ensures RowCount(row, p) == |row|
  {
    if row != [] {
      RowCountAll(row[..|row| - 1], p);
    }
  }

  /** When every cell satisfies the predicate, the count is the size. */
  lemma {:induction false} CountAll<T>(g: Grid<T>, p: T -> bool)
    requires forall y, x :: 0 <= y < |g| && 0 <= x < |g[y]| ==> p(g[y][x])
    ensures Count(g, p) == Size(g)
  {
    if g != [] {
      var n := |g| - 1;
      CountAll(g[..n], p);
      RowCountAll(g[n], p);
    }
  }

  lemma {:induction false} RowCountFull<T>(row: seq<T>, p: T -> bool)
    requires RowCount(row, p) == |row|
    ensures forall x :: 0 <= x < |row| ==> p(row[x])
  {
    if row != [] {
      RowCountFull(row[..|row| - 1], p);
      assert forall x :: 0 <= x < |row| - 1 ==> row[x] == row[..|row| - 1][x];
    }
  }

  /** When the count is the size, every cell satisfies the predicate. */
  lemma {:induction false} CountFull<T>(g: Grid<T>, p: T -> bool)
    requires Count(g, p) == Size(g)
    ensures forall y, x :: 0 <= y < |g| && 0 <= x < |g[y]| ==> p(g[y][x])
  {
    if g != [] {
      var n := |g| - 1;
      CountBound(g[..n], p);
      CountFull(g[..n], p);
      RowCountFull(g[n], p);
      assert forall y :: 0 <= y < n ==> g[y] == g[..n][y];
    }
  }

  lemma {:induction false} CountBound<T>(g: Grid<T>, p: T -> bool)
    ensures Count(g, p) <= Size(g)
  {
    if g != [] {
      CountBound(g[..|g| - 1], p);
    }
  }

  /** Grids of the same shape have the same number of cells. */
  lemma {:induction false} SizeSameShape<T, U>(a: Grid<T>, b: Grid<U>)
    requires SameShape(a, b)
    ensures Size(a) == Size(b)
  {
    if a != [] {
      var n := |a| - 1;
      assert SameShape(a[..n], b[..n]);
      SizeSameShape(a[..n], b[..n]);
    }
  }

  /** A rectangular grid of `h` rows of `w` cells has `h * w` cells. */
  lemma {:induction false} SizeRectangular<T>(g: Grid<T>, w: nat)
    requires Rectangular(g, w)
    ensures Size(g) == |g| * w
  {
    if g != [] {
      var n := |g| - 1;
      assert Rectangular(g[..n], w);
      SizeRectangular(g[..n], w);
    }
  }
}
