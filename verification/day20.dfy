/** `day-20/src/main.rs`: trench-map image enhancement. An image is an
    infinite grid of pixels kept as the lit pixels inside a rectangle (two
    inclusive ranges) plus the colour of every pixel outside it. A step
    replaces each pixel by the character of the 512-character decode string
    that its 3x3 neighbourhood, read row by row as nine bits, indexes. */
module Day20 {
  import opened Common

  /** An inclusive range `lo..=hi`. */
  type Range = (int, int)

  predicate InRange(r: Range, v: int)
  {
    r.0 <= v <= r.1
  }

  /** One more on either end. */
  function Widen(r: Range): Range
  {
    (r.0 - 1, r.1 + 1)
  }

  /** The fields of `Image`, as a value. */
  datatype ImageState = ImageState(decode: string, pixels: set<(int, int)>, xRange: Range, yRange: Range, background: char)

  /** The lit pixels lie inside the rectangle. */
  predicate Inside(s: ImageState)
  {
    forall p :: p in s.pixels ==> InRange(s.xRange, p.0) && InRange(s.yRange, p.1)
  }

  /** A decode string the image can be stepped with: 512 characters, each
      `'#'` or `'.'`, and a background that is one of the two. */
  predicate WellFormed(s: ImageState)
  {
    |s.decode| == 512 && (forall i :: 0 <= i < 512 ==> s.decode[i] in {'#', '.'}) &&
    s.background in {'#', '.'}
  }

  /** Whether the infinite image is lit at `p`: inside the rectangle a
      pixel is lit when it is in the set, outside when the background is
      `'#'`. */
  predicate Lit(s: ImageState, p: (int, int))
  {
    if InRange(s.xRange, p.0) && InRange(s.yRange, p.1) then p in s.pixels else s.background == '#'
  }

  /** The `k`-th pair of `(-1..=1).cartesian_product(-1..=1)`: `dy` in the
      outer place, `dx` in the inner one; returned as `(dx, dy)`. */
  function Offset(k: nat): (d: (int, int))
    requires k < 9
    ensures -1 <= d.0 <= 1 && -1 <= d.1 <= 1
  {
    (k % 3 - 1, k / 3 - 1)
  }

  function Shifted(p: (int, int), k: nat): (int, int)
    requires k < 9
  {
    (p.0 + Offset(k).0, p.1 + Offset(k).1)
  }

  /** The nine pixels around `p`, row by row. */
  function Neighbourhood(s: ImageState, p: (int, int)): (b: seq<bool>)
    ensures |b| == 9
  {
    seq(9, k requires 0 <= k < 9 => Lit(s, Shifted(p, k)))
  }

  /** `neightborhood_encoded`: the neighbourhood as a 9-bit number, first
      pixel most significant. */
  function Code(s: ImageState, p: (int, int)): (c: nat)
    ensures c < 512
  {
    assert Pow2(9) == 512;
    BitsValue(Neighbourhood(s, p))
  }

  /** Whether the enhanced image is lit at `p`. */
  predicate DecodesLit(s: ImageState, p: (int, int))
    requires |s.decode| >= 512
  {
    s.decode[Code(s, p)] == '#'
  }

  /** The pixels `step` inserts: those of the widened rectangle whose
      neighbourhood decodes to `'#'`. */
  function NextPixels(s: ImageState): set<(int, int)>
    requires |s.decode| >= 512
  {
    set p | p in Box(Widen(s.xRange), Widen(s.yRange)) && DecodesLit(s, p)
  }

  /** The pixels of a rectangle. */
  function Box(xr: Range, yr: Range): (b: set<(int, int)>)
    ensures forall p :: p in b <==> InRange(xr, p.0) && InRange(yr, p.1)
  {
    set x, y | xr.0 <= x <= xr.1 && yr.0 <= y <= yr.1 :: (x, y)
  }

  /** The new background: the decoded all-dark neighbourhood after a dark
      background, the decoded all-lit one otherwise. */
  function NextBackground(s: ImageState): char
    requires |s.decode| >= 512
  {
    if s.background == '.' then s.decode[0] else s.decode[511]
  }

  /** `step`, on values; the decode string carries over. */
  function Enhance(s: ImageState): (r: ImageState)
    requires |s.decode| >= 512
    ensures r.decode == s.decode
  {
    ImageState(s.decode, NextPixels(s), Widen(s.xRange), Widen(s.yRange), NextBackground(s))
  }

  /** The image after `n` steps. */
  function Steps(s: ImageState, n: nat): (r: ImageState)
    requires |s.decode| >= 512
    ensures r.decode == s.decode
  {
    if n == 0 then s else Enhance(Steps(s, n - 1))
  }

  // ---------------------------------------------------------------------
  // The encoding

  /** The neighbourhood is encoded row by row, most significant bit first:
      bit `8 - k` of the code is the pixel at the `k`-th offset. */
  lemma CodeBit(s: ImageState, p: (int, int), k: nat)
    requires k < 9
    ensures (Code(s, p) / Pow2(8 - k)) % 2 == if Lit(s, Shifted(p, k)) then 1 else 0
  {
    BitsValueBit(Neighbourhood(s, p), k);
  }

  /** `n` equal bits: all zero or all one. */
  lemma {:induction false} BitsValueConstant(b: seq<bool>, v: bool)
    requires forall i :: 0 <= i < |b| ==> b[i] == v
    ensures BitsValue(b) == if v then Pow2(|b|) - 1 else 0
    decreases |b|
  {
    if |b| > 0 {
      var n := |b| - 1;
      assert b == b[..n] + [b[n]];
      BitsValueSnoc(b[..n], b[n]);
      BitsValueConstant(b[..n], v);
    }
  }

  // ---------------------------------------------------------------------
  // What a step means

  /** Every pixel a step lights lies inside the widened rectangle. */
  lemma EnhanceInside(s: ImageState)
    requires |s.decode| >= 512
    ensures Inside(Enhance(s))
  {
  }

  /** Stepping keeps a well-formed image well formed. */
  lemma StepWellFormed(s: ImageState)
    requires WellFormed(s)
    ensures WellFormed(Enhance(s))
  {
  }

  /** A pixel outside the widened rectangle sees only background: its code
      is 0 after a dark background and 511 after a lit one. */
  lemma CodeOutside(s: ImageState, p: (int, int))
    requires !(InRange(Widen(s.xRange), p.0) && InRange(Widen(s.yRange), p.1))
    ensures Code(s, p) == if s.background == '#' then 511 else 0
  {
    var b := Neighbourhood(s, p);
    forall i | 0 <= i < 9
      ensures b[i] == (s.background == '#')
    {
      var q := Shifted(p, i);
      assert !(InRange(s.xRange, q.0) && InRange(s.yRange, q.1));
    }
    BitsValueConstant(b, s.background == '#');
    assert Pow2(9) == 512;
  }

  /** The finite image steps as the infinite one does: after a step, every
      pixel of the plane, inside the new rectangle or not, is lit exactly
      when its old neighbourhood decodes to `'#'`. */
  lemma StepIsEnhancement(s: ImageState, p: (int, int))
    requires WellFormed(s)
    ensures Lit(Enhance(s), p) <==> DecodesLit(s, p)
  {
    if !(InRange(Widen(s.xRange), p.0) && InRange(Widen(s.yRange), p.1)) {
      CodeOutside(s, p);
    }
  }

  /** Every image reached by steps from a well-formed one is well formed. */
  lemma {:induction false} StepsWellFormed(s: ImageState, n: nat)
    requires WellFormed(s)
    ensures WellFormed(Steps(s, n))
  {
    if n > 0 {
      StepsWellFormed(s, n - 1);
      StepWellFormed(Steps(s, n - 1));
    }
  }

  // ---------------------------------------------------------------------
  // Parsing

  /** The lines after the decode string, empty lines dropped. */
  function NonEmptyLines(lines: seq<string>): (r: seq<string>)
    ensures forall i :: 0 <= i < |r| ==> r[i] != ""
    ensures |r| <= |lines|
  {
    if lines == [] then []
    else
      var rest := NonEmptyLines(lines[..|lines| - 1]);
      if lines[|lines| - 1] == "" then rest else rest + [lines[|lines| - 1]]
  }

  /** The `'#'` cells of the rows, as `(x, y)`. */
  function HashCells(rows: seq<string>): set<(int, int)>
  {
    set y, x | 0 <= y < |rows| && 0 <= x < |rows[y]| && rows[y][x] == '#' :: (x, y)
  }

  /** The largest column holding a `'#'`, or 0. */
  function RowXMax(row: string): (m: nat)
    ensures forall x :: 0 <= x < |row| && row[x] == '#' ==> x <= m
    ensures m == 0 || (m < |row| && row[m] == '#')
  {
    if row == [] then 0
    else if row[|row| - 1] == '#' then |row| - 1
    else
      var m := RowXMax(row[..|row| - 1]);
      assert forall x :: 0 <= x < |row| - 1 ==> row[x] == row[..|row| - 1][x];
      m
  }

  function XMax(rows: seq<string>): (m: nat)
    ensures forall y, x :: 0 <= y < |rows| && 0 <= x < |rows[y]| && rows[y][x] == '#' ==> x <= m
    ensures m == 0 || exists y :: 0 <= y < |rows| && m < |rows[y]| && rows[y][m] == '#'
  {
    if rows == [] then 0
    else
      var n := |rows| - 1;
      var m := XMax(rows[..n]);
      assert forall y :: 0 <= y < n ==> rows[y] == rows[..n][y];
      Max(m, RowXMax(rows[n]))
  }

  /** `from_str` on values: `None` when there is no first line. */
  function Parse(lines: seq<string>): (r: Option<ImageState>)
    ensures r.Some? <==> lines != []
  {
    if lines == [] then None
    else
      var rows := NonEmptyLines(lines[1..]);
      Some(ImageState(lines[0], HashCells(rows), (0, XMax(rows)), (0, if rows == [] then 0 else |rows| - 1), '.'))
  }

  /** A parsed image lights exactly the `'#'` cells, lies inside its
      rectangle, and its rectangle is the smallest one from `(0, 0)` that
      holds every `'#'` and every non-empty line. */
  lemma ParseMeaning(lines: seq<string>)
    requires lines != []
    ensures var s := Parse(lines).value;
      var rows := NonEmptyLines(lines[1..]);
      Inside(s) && s.background == '.' && s.decode == lines[0] &&
      (forall x: int, y: int :: (x, y) in s.pixels <==> 0 <= y < |rows| && 0 <= x < |rows[y]| && rows[y][x] == '#') &&
      s.xRange.0 == 0 && s.yRange.0 == 0 &&
      (s.xRange.1 == 0 || exists y :: 0 <= y < |rows| && s.xRange.1 < |rows[y]| && rows[y][s.xRange.1] == '#') &&
      s.yRange.1 == (if rows == [] then 0 else |rows| - 1)
  {
  }

  // ---------------------------------------------------------------------
  // The mutable image

  class Image {
    var decode: string
    var pixels: set<(int, int)>
    var xRange: Range
    var yRange: Range
    var background: char

    function State(): ImageState
      reads this
    {
      ImageState(decode, pixels, xRange, yRange, background)
    }

    /** `Image::new`: no pixels, the one-pixel rectangle at the origin, a
        dark background. */
    constructor(decode: string)
      ensures State() == ImageState(decode, {}, (0, 0), (0, 0), '.')
    {
      this.decode := decode;
      pixels := {};
      xRange := (0, 0);
      yRange := (0, 0);
      background := '.';
    }

    constructor Load(s: ImageState)
      ensures State() == s
    {
      decode := s.decode;
      pixels := s.pixels;
      xRange := s.xRange;
      yRange := s.yRange;
      background := s.background;
    }

    /** `step`: fills `next` with the enhanced image; `next` keeps its own
        decode string, and this image does not change. */
    method Step(next: Image)
      requires next != this && |decode| >= 512
      modifies next
      ensures next.State() == Enhance(State()).(decode := old(next.decode))
    {
      ghost var s := State();
      next.pixels := {};
      next.xRange := Widen(xRange);
      next.yRange := Widen(yRange);
      var y := next.yRange.0;
      while y <= next.yRange.1
        invariant next.xRange == Widen(s.xRange) && next.yRange == Widen(s.yRange)
        invariant next.decode == old(next.decode) && next.background == old(next.background)
        invariant next.yRange.0 <= y <= Max(next.yRange.0, next.yRange.1 + 1)
        invariant forall p :: p in next.pixels <==>
          InRange(next.xRange, p.0) && next.yRange.0 <= p.1 < y && DecodesLit(s, p)
      {
        FillRow(next, y);
        y := y + 1;
      }
      assert forall p :: p in next.pixels <==> p in NextPixels(s);
      if background == '.' {
        next.background := decode[0];
      } else {
        next.background := decode[511];
      }
    }

    /** The `for x` loop of `step` for row `y`: inserts the pixels of the
        row, across the widened rectangle, that decode to `'#'`. */
    method FillRow(next: Image, y: int)
      requires next != this && |decode| >= 512 && next.xRange == Widen(xRange)
      modifies next
      ensures next.decode == old(next.decode) && next.background == old(next.background)
      ensures next.xRange == old(next.xRange) && next.yRange == old(next.yRange)
      ensures forall p :: p in next.pixels <==>
        p in old(next.pixels) || (p.1 == y && InRange(next.xRange, p.0) && DecodesLit(State(), p))
    {
      var x := next.xRange.0;
      while x <= next.xRange.1
        invariant next.xRange == old(next.xRange) && next.yRange == old(next.yRange)
        invariant next.decode == old(next.decode) && next.background == old(next.background)
        invariant next.xRange.0 <= x <= Max(next.xRange.0, next.xRange.1 + 1)
        invariant forall p :: p in next.pixels <==>
          p in old(next.pixels) || (p.1 == y && next.xRange.0 <= p.0 < x && DecodesLit(State(), p))
      {
        var code := Encode(x, y);
        if decode[code] == '#' {
          next.pixels := next.pixels + {(x, y)};
        }
        x := x + 1;
      }
    }

    /** The inner loop of `step`: nine shifts, each bringing in the pixel at
        the next offset (the background outside the rectangle). */
    method Encode(x: int, y: int) returns (code: nat)
      ensures code == Code(State(), (x, y))
    {
      ghost var b := Neighbourhood(State(), (x, y));
      code := 0;
      var k := 0;
      while k < 9
        invariant k <= 9 && code == BitsValue(b[..k])
      {
        var (dx, dy) := Offset(k);
        var bit := if !InRange(xRange, x + dx) || !InRange(yRange, y + dy) then background == '#'
          else (x + dx, y + dy) in pixels;
        assert bit == b[k];
        assert b[..k + 1] == b[..k] + [bit];
        BitsValueSnoc(b[..k], bit);
        code := code * 2 + (if bit then 1 else 0);
        k := k + 1;
      }
      assert b[..9] == b;
    }
  }

  /** `from_str`: `None` when the input has no first line. */
  method FromLines(lines: seq<string>) returns (r: Option<Image>)
    ensures r.Some? <==> lines != []
    ensures r.Some? ==> fresh(r.value) && r.value.State() == Parse(lines).value
  {
    if lines == [] {
      return None;
    }
    var image := new Image.Load(Parse(lines).value);
    return Some(image);
  }

  /** `count` rounds of `image.step(&mut next_image)` followed by
      `swap(&mut image, &mut next_image)`, from the image after `from` steps
      of `start`: the first image returned holds the result. */
  method Advance(image: Image, next: Image, count: nat, ghost start: ImageState, ghost from: nat, ghost to: nat)
      returns (a: Image, b: Image)
    requires image != next && |start.decode| >= 512 && to == from + count
    requires image.State() == Steps(start, from) && next.decode == start.decode
    modifies image, next
    ensures (a, b) == (image, next) || (a, b) == (next, image)
    ensures a.State() == Steps(start, to) && b.decode == start.decode
  {
    a, b := image, next;
    var i := 0;
    ghost var n := from;
    while i < count
      invariant i <= count && n == from + i
      invariant (a, b) == (image, next) || (a, b) == (next, image)
      invariant a.State() == Steps(start, n) && b.decode == start.decode
    {
      StepsNext(start, n, a.State());
      a.Step(b);
      a, b := b, a;
      i, n := i + 1, n + 1;
    }
    assert n == to;
  }

  /** One more step enhances the image so far; the decode string, which
      never changes, may be written back as it is. */
  lemma StepsNext(s: ImageState, n: nat, t: ImageState)
    requires |s.decode| >= 512 && t == Steps(s, n)
    ensures Enhance(t).(decode := s.decode) == Steps(s, n + 1)
  {
  }

  /** `main`: the number of lit pixels after 2 and after 50 steps, the two
      images swapping roles after every step. `None` when the input has no
      first line. */
  method Solve(lines: seq<string>) returns (r: Option<(nat, nat)>)
    requires lines != [] ==> |lines[0]| >= 512
    ensures r.Some? <==> lines != []
    ensures r.Some? ==> var s := Parse(lines).value;
      r.value == (|Steps(s, 2).pixels|, |Steps(s, 50).pixels|)
  {
    var parsed := FromLines(lines);
    if parsed.None? {
      return None;
    }
    var image := parsed.value;
    ghost var start := image.State();
    assert Steps(start, 0) == start;
    var next := new Image(image.decode);
    image, next := Advance(image, next, 2, start, 0, 2);
    var part1: nat := |image.pixels|;
    image, next := Advance(image, next, 48, start, 2, 50);
    var part2: nat := |image.pixels|;
    return Some((part1, part2));
  }
}
