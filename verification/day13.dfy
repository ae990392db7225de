/** `day-13/src/main.rs`: folding transparent paper. The dots are a set of
    points; a fold along `x = c` keeps the dots left of the line and
    mirrors those right of it onto the left half, a fold along `y = c`
    does the same upward, and after the folds the dots are drawn as a
    picture of `█` and spaces. */
module Day13 {
  import opened Common
  import opened Text

  type Point = (int, int)

  // ---------------------------------------------------------------------
  // Reading the captures

  /** The dots: every capture pair whose numbers both parse as `i64`;
      `flat_map` drops the others and `collect` keeps one of each. */
  function ParseDots(caps: seq<(string, string)>): (r: set<Point>)
    ensures forall k :: 0 <= k < |caps| && DotOf(caps[k]).Some? ==> DotOf(caps[k]).value in r
    ensures forall p :: p in r ==> exists k :: 0 <= k < |caps| && DotOf(caps[k]) == Some(p)
  {
    set k | 0 <= k < |caps| && DotOf(caps[k]).Some? :: DotOf(caps[k]).value
  }

  function DotOf(cap: (string, string)): (r: Option<Point>)
    ensures r.Some? <==> ParseI64(cap.0).Some? && ParseI64(cap.1).Some?
    ensures r.Some? ==> r.value == (ParseI64(cap.0).value, ParseI64(cap.1).value)
  {
    match (ParseI64(cap.0), ParseI64(cap.1))
    case (Some(x), Some(y)) => Some((x, y))
    case _ => None
  }

  /** The folds: every capture pair whose axis text has a first character
      and whose coordinate parses as `i64`, in order. */
  function ParseFolds(caps: seq<(string, string)>): (r: seq<(char, int)>)
    ensures |r| <= |caps|
    ensures forall k :: 0 <= k < |r| ==> exists j :: 0 <= j < |caps| && FoldOf(caps[j]) == Some(r[k])
    ensures forall j :: 0 <= j < |caps| && FoldOf(caps[j]).Some? ==> FoldOf(caps[j]).value in r
  {
    if caps == [] then []
    else
      var n := |caps| - 1;
      assert forall j :: 0 <= j < n ==> caps[..n][j] == caps[j];
      ParseFolds(caps[..n]) + match FoldOf(caps[n]) case Some(f) => [f] case None => []
  }

  /** The folds keep the order of the captures: reading two runs of
      captures one after the other reads each and joins the results. */
  lemma {:induction false} ParseFoldsAppend(a: seq<(string, string)>, b: seq<(string, string)>)
    ensures ParseFolds(a + b) == ParseFolds(a) + ParseFolds(b)
    decreases |b|
  {
    if b == [] {
      assert a + b == a;
    } else {
      var n := |b| - 1;
      assert (a + b)[..|a + b| - 1] == a + b[..n];
      assert (a + b)[|a + b| - 1] == b[n];
      ParseFoldsAppend(a, b[..n]);
    }
  }

  /** One capture yields its fold when it has one and nothing otherwise. */
  lemma ParseFoldsOne(cap: (string, string))
    ensures ParseFolds([cap]) == if cap.0 != [] && ParseI64(cap.1).Some? then [(cap.0[0], ParseI64(cap.1).value)] else []
  {
    assert [cap][..0] == [];
  }

  function FoldOf(cap: (string, string)): (r: Option<(char, int)>)
    ensures r.Some? <==> cap.0 != [] && ParseI64(cap.1).Some?
    ensures r.Some? ==> r.value == (cap.0[0], ParseI64(cap.1).value)
  {
    if cap.0 == [] then None
    else match ParseI64(cap.1)
      case Some(c) => Some((cap.0[0], c))
      case None => None
  }

  // ---------------------------------------------------------------------
  // One fold

  predicate IsAxis(axis: char)
  {
    axis == 'x' || axis == 'y'
  }

  /** Where a fold moves one dot: along `x`, a dot left of the line stays
      and one on or right of it goes to `2 * c - x`; along `y` the same
      with the roles of `x` and `y` swapped. */
  function FoldPoint(axis: char, c: int, p: Point): Point
    requires IsAxis(axis)
  {
    if axis == 'x' then (if p.0 < c then p.0 else 2 * c - p.0, p.1)
    else (p.0, if p.1 < c then p.1 else 2 * c - p.1)
  }

  /** One fold of the whole set. An axis other than `x` or `y` reaches
      `unreachable!` at the first dot, so only an empty set survives it. */
  function Fold(axis: char, c: int, dots: set<Point>): (r: Option<set<Point>>)
    ensures r.None? <==> !IsAxis(axis) && dots != {}
  {
    if !IsAxis(axis) then (if dots == {} then Some({}) else None)
    else Some(set p | p in dots :: FoldPoint(axis, c, p))
  }

  /** A fold along `x` holds a dot exactly when it was left of the line
      or its mirror image `(2 * c - x, y)` was a dot. */
  lemma FoldXMembers(c: int, dots: set<Point>, q: Point)
    ensures Fold('x', c, dots).Some?
    ensures q in Fold('x', c, dots).value <==>
      (q.0 < c && q in dots) || (q.0 <= c && (2 * c - q.0, q.1) in dots)
  {
    var r := Fold('x', c, dots).value;
    if (q.0 < c && q in dots) {
      assert FoldPoint('x', c, q) == q;
    } else if q.0 <= c && (2 * c - q.0, q.1) in dots {
      assert FoldPoint('x', c, (2 * c - q.0, q.1)) == q;
    }
  }

  /** A fold along `y` holds a dot exactly when it was above the line or
      its mirror image `(x, 2 * c - y)` was a dot. */
  lemma FoldYMembers(c: int, dots: set<Point>, q: Point)
    ensures Fold('y', c, dots).Some?
    ensures q in Fold('y', c, dots).value <==>
      (q.1 < c && q in dots) || (q.1 <= c && (q.0, 2 * c - q.1) in dots)
  {
    var r := Fold('y', c, dots).value;
    if (q.1 < c && q in dots) {
      assert FoldPoint('y', c, q) == q;
    } else if q.1 <= c && (q.0, 2 * c - q.1) in dots {
      assert FoldPoint('y', c, (q.0, 2 * c - q.1)) == q;
    }
  }

  /** The dots with `x` and `y` exchanged. */
  function Swap(dots: set<Point>): (r: set<Point>)
    ensures forall p :: p in r <==> (p.1, p.0) in dots
  {
    set p | p in dots :: (p.1, p.0)
  }

  /** A fold along `y` is a fold along `x` of the transposed dots,
      transposed back. */
  lemma FoldYIsSwappedX(c: int, dots: set<Point>)
    ensures Fold('y', c, dots) == Some(Swap(Fold('x', c, Swap(dots)).value))
  {
    var a := Fold('y', c, dots).value;
    var b := Swap(Fold('x', c, Swap(dots)).value);
    forall q
      ensures q in a <==> q in b
    {
      FoldYMembers(c, dots, q);
      FoldXMembers(c, Swap(dots), (q.1, q.0));
    }
    assert a == b;
  }

  /** After a fold along `x` no dot is right of the line, and after a
      fold along `y` none is below it. */
  lemma FoldBound(axis: char, c: int, dots: set<Point>)
    requires IsAxis(axis)
    ensures forall q :: q in Fold(axis, c, dots).value ==> (if axis == 'x' then q.0 else q.1) <= c
  {
  }

  /** Folding twice at the same line is folding once. */
  lemma FoldIdempotent(axis: char, c: int, dots: set<Point>)
    requires IsAxis(axis)
    ensures Fold(axis, c, Fold(axis, c, dots).value) == Fold(axis, c, dots)
  {
    var once := Fold(axis, c, dots).value;
    FoldBound(axis, c, dots);
    forall p | p in once
      ensures FoldPoint(axis, c, p) == p
    {
    }
    var twice := Fold(axis, c, once).value;
    forall q
      ensures q in twice <==> q in once
    {
      if q in once {
        assert FoldPoint(axis, c, q) == q;
      }
    }
    assert twice == once;
  }

  /** A fold never adds dots: the result is the image of the set. */
  lemma FoldCount(axis: char, c: int, dots: set<Point>)
    requires IsAxis(axis)
    ensures |Fold(axis, c, dots).value| <= |dots|
  {
    ImageCount(axis, c, dots);
  }

  lemma {:induction false} ImageCount(axis: char, c: int, dots: set<Point>)
    requires IsAxis(axis)
    ensures |set p | p in dots :: FoldPoint(axis, c, p)| <= |dots|
    decreases |dots|
  {
    if dots != {} {
      var d :| d in dots;
      var rest := dots - {d};
      ImageCount(axis, c, rest);
      var img := set p | p in dots :: FoldPoint(axis, c, p);
      var imgRest := set p | p in rest :: FoldPoint(axis, c, p);
      assert img <= imgRest + {FoldPoint(axis, c, d)} by {
        forall q | q in img
          ensures q in imgRest + {FoldPoint(axis, c, d)}
        {
          var p :| p in dots && FoldPoint(axis, c, p) == q;
          if p != d {
            assert p in rest;
          }
        }
      }
      SubsetCard(img, imgRest + {FoldPoint(axis, c, d)});
    }
  }

  lemma SubsetCard(a: set<Point>, b: set<Point>)
    requires a <= b
    ensures |a| <= |b|
  {
    assert b == a + (b - a);
  }

  // ---------------------------------------------------------------------
  // All folds

  /** The folds applied in order; `None` once one reaches `unreachable!`. */
  function Folds(dots: set<Point>, folds: seq<(char, int)>): (r: Option<set<Point>>)
    decreases |folds|
  {
    if folds == [] then Some(dots)
    else match Fold(folds[0].0, folds[0].1, dots)
      case None => None
      case Some(d) => Folds(d, folds[1..])
  }

  /** The sizes `dbg!` shows, one after each fold that succeeds. */
  function Sizes(dots: set<Point>, folds: seq<(char, int)>): (r: seq<nat>)
    ensures |r| <= |folds|
    decreases |folds|
  {
    if folds == [] then []
    else match Fold(folds[0].0, folds[0].1, dots)
      case None => []
      case Some(d) => [|d|] + Sizes(d, folds[1..])
  }

  /** Folding never adds dots, and the sizes shown never grow. */
  lemma {:induction false} FoldsCount(dots: set<Point>, folds: seq<(char, int)>)
    requires forall k :: 0 <= k < |folds| ==> IsAxis(folds[k].0)
    ensures Folds(dots, folds).Some? && |Folds(dots, folds).value| <= |dots|
    ensures |Sizes(dots, folds)| == |folds|
    ensures forall k :: 0 <= k < |folds| ==> Sizes(dots, folds)[k] <= if k == 0 then |dots| else Sizes(dots, folds)[k - 1]
    decreases |folds|
  {
    if folds != [] {
      var d := Fold(folds[0].0, folds[0].1, dots).value;
      FoldCount(folds[0].0, folds[0].1, dots);
      FoldsCount(d, folds[1..]);
      var rest := Sizes(d, folds[1..]);
      assert Sizes(dots, folds) == [|d|] + rest;
      forall k | 0 <= k < |folds|
        ensures Sizes(dots, folds)[k] <= if k == 0 then |dots| else Sizes(dots, folds)[k - 1]
      {
        if k > 1 {
          assert Sizes(dots, folds)[k] == rest[k - 1];
          assert Sizes(dots, folds)[k - 1] == rest[k - 2];
          assert rest[k - 1] <= rest[k - 2];
        } else if k == 1 {
          assert Sizes(dots, folds)[1] == rest[0];
          assert Sizes(dots, folds)[0] == |d|;
          assert rest[0] <= |d|;
        } else {
          assert Sizes(dots, folds)[0] == |d|;
        }
      }
    }
  }

  /** The loop `for (axis, coordinate) in folds`: each fold replaces the
      set, and the size after it is recorded. */
  method FoldAll(dots: set<Point>, folds: seq<(char, int)>) returns (r: Option<set<Point>>, sizes: seq<nat>)
    ensures r == Folds(dots, folds) && sizes == Sizes(dots, folds)
  {
    var cur := dots;
    sizes := [];
    for i := 0 to |folds|
      invariant Folds(cur, folds[i..]) == Folds(dots, folds)
      invariant sizes + Sizes(cur, folds[i..]) == Sizes(dots, folds)
    {
      assert folds[i..][1..] == folds[i + 1..];
      var (axis, coordinate) := folds[i];
      var next := Fold(axis, coordinate, cur);
      if next.None? {
        return None, sizes;
      }
      cur := next.value;
      sizes := sizes + [|cur|];
    }
    assert folds[|folds|..] == [];
    return Some(cur), sizes;
  }

  // ---------------------------------------------------------------------
  // Drawing the dots

  datatype Error = NoDots

  const Block: char := '\U{2588}'

  /** The coordinate of `p` along an axis: `x` for `'x'`, `y` otherwise. */
  function Coord(p: Point, axis: char): int
  {
    if axis == 'x' then p.0 else p.1
  }

  /** The largest coordinate of the dots along an axis, as `max()` over
      the mapped set finds it. */
  ghost function MaxCoord(dots: set<Point>, axis: char): (r: int)
    requires dots != {}
    ensures exists p :: p in dots && Coord(p, axis) == r
    ensures forall p :: p in dots ==> Coord(p, axis) <= r
    decreases |dots|
  {
    var p :| p in dots;
    if dots == {p} then Coord(p, axis)
    else
      var m := MaxCoord(dots - {p}, axis);
      assert forall q :: q in dots ==> q == p || q in dots - {p};
      Max(Coord(p, axis), m)
  }

  /** A coordinate that some dot has and none exceeds is the maximum. */
  lemma MaxCoordUnique(dots: set<Point>, axis: char, m: int)
    requires dots != {}
    requires exists p :: p in dots && Coord(p, axis) == m
    requires forall p :: p in dots ==> Coord(p, axis) <= m
    ensures MaxCoord(dots, axis) == m
  {
    var r := MaxCoord(dots, axis);
    var p :| p in dots && Coord(p, axis) == r;
    var q :| q in dots && Coord(q, axis) == m;
    assert r <= m && m <= r;
  }

  /** The `x` range `0..=max` holds `max + 1` columns, none when `max` is
      negative. */
  function Span(max: int): nat
  {
    if max < 0 then 0 else max + 1
  }

  /** One printed row: `█` where there is a dot and a space elsewhere. */
  function Row(dots: set<Point>, y: int, w: nat): (r: string)
    ensures |r| == w
    ensures forall x :: 0 <= x < w ==> (r[x] == Block <==> (x, y) in dots)
    ensures forall x :: 0 <= x < w ==> r[x] == Block || r[x] == ' '
  {
    seq(w, x requires 0 <= x < w => if (x, y) in dots then Block else ' ')
  }

  /** The first `h` printed rows, each `w` wide and ended by a newline. */
  function Picture(dots: set<Point>, w: nat, h: nat): (r: string)
    ensures |r| == h * (w + 1)
  {
    if h == 0 then [] else Picture(dots, w, h - 1) + Row(dots, h - 1, w) + "\n"
  }

  /** What the program prints: the rows `0..=max_y` of the columns
      `0..=max_x`; no dots at all is the parse error. */
  ghost function Drawing(dots: set<Point>): Result<string, Error>
  {
    if dots == {} then Err(NoDots)
    else
      Ok(Picture(dots, Span(MaxCoord(dots, 'x')), Span(MaxCoord(dots, 'y'))))
  }

  /** The rows before row `y` are the start of the picture. */
  lemma {:induction false} PicturePrefix(dots: set<Point>, w: nat, h: nat, y: nat)
    requires y <= h
    ensures Picture(dots, w, y) <= Picture(dots, w, h)
    decreases h
  {
    if y < h {
      PicturePrefix(dots, w, h - 1, y);
    }
  }

  /** In the picture, the character of column `x` of row `y` is `█`
      exactly when `(x, y)` is a dot, and every row ends in a newline. */
  lemma PictureShows(dots: set<Point>, w: nat, h: nat, x: nat, y: nat)
    requires x < w && y < h
    ensures y * (w + 1) + w < |Picture(dots, w, h)|
    ensures Picture(dots, w, h)[y * (w + 1) + x] == Block <==> (x, y) in dots
    ensures Picture(dots, w, h)[y * (w + 1) + w] == '\n'
  {
    PicturePrefix(dots, w, h, y + 1);
    var p := Picture(dots, w, y + 1);
    assert p == Picture(dots, w, y) + Row(dots, y, w) + "\n";
    assert |Picture(dots, w, y)| == y * (w + 1);
    assert (y + 1) * (w + 1) == y * (w + 1) + w + 1;
    assert p[y * (w + 1) + x] == Row(dots, y, w)[x];
  }

  /** `max()` over the coordinates, by one pass over the set. */
  method MaxCoords(dots: set<Point>) returns (maxX: int, maxY: int)
    requires dots != {}
    ensures maxX == MaxCoord(dots, 'x') && maxY == MaxCoord(dots, 'y')
  {
    var first := Pick(dots);
    var px, py := first, first;
    maxX, maxY := first.0, first.1;
    var rest := dots - {first};
    while rest != {}
      invariant rest <= dots
      invariant px in dots && px.0 == maxX && py in dots && py.1 == maxY
      invariant forall p :: p in dots && p !in rest ==> p.0 <= maxX && p.1 <= maxY
      decreases |rest|
    {
      var p := Pick(rest);
      if p.0 > maxX {
        px, maxX := p, p.0;
      }
      if p.1 > maxY {
        py, maxY := p, p.1;
      }
      rest := rest - {p};
    }
    assert Coord(px, 'x') == maxX && Coord(py, 'y') == maxY;
    MaxCoordUnique(dots, 'x', maxX);
    MaxCoordUnique(dots, 'y', maxY);
  }

  /** The inner loop: one row of the picture. */
  method DrawRow(dots: set<Point>, y: int, w: nat) returns (row: string)
    ensures row == Row(dots, y, w)
  {
    row := [];
    for x := 0 to w
      invariant row == Row(dots, y, x)
    {
      row := row + [if (x, y) in dots then Block else ' '];
    }
  }

  /** The drawing loops, with the text they print collected. */
  method Draw(dots: set<Point>) returns (r: Result<string, Error>)
    ensures r == Drawing(dots)
  {
    if dots == {} {
      return Err(NoDots);
    }
    var maxX, maxY := MaxCoords(dots);
    var w, h := Span(maxX), Span(maxY);
    var out := [];
    for y := 0 to h
      invariant out == Picture(dots, w, y)
    {
      var row := DrawRow(dots, y, w);
      out := out + row + "\n";
    }
    return Ok(out);
  }

  /** The whole run from the captures: the sizes after the folds and the
      picture. */
  method Solve(dotCaps: seq<(string, string)>, foldCaps: seq<(string, string)>) returns (sizes: seq<nat>, picture: Option<Result<string, Error>>)
    ensures var dots := ParseDots(dotCaps); var folds := ParseFolds(foldCaps);
      sizes == Sizes(dots, folds) &&
      picture == match Folds(dots, folds) case None => None case Some(d) => Some(Drawing(d))
  {
    var folded;
    folded, sizes := FoldAll(ParseDots(dotCaps), ParseFolds(foldCaps));
    if folded.None? {
      return sizes, None;
    }
    var drawn := Draw(folded.value);
    picture := Some(drawn);
  }
}
