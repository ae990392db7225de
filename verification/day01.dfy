/** `day-01/src/main.rs`: sonar sweep. The depths are the lines of the
    file that parse as `i64`; part one counts the windows of two depths
    that rise, part two the windows of four whose last depth is greater
    than the first, which is the same as counting the rises of the sums of
    three consecutive depths. */
module Day01 {
  import opened Common
  import opened Text

  // ---------------------------------------------------------------------
  // Reading the depths

  /** One line: an empty line is filtered out, any other is kept when it
      parses as `i64`. */
  function DepthOf(line: string): (r: Option<int>)
    ensures line == [] ==> r.None?
    ensures r.Some? ==> I64Min <= r.value <= I64Max
  {
    if line == [] then None else ParseI64(line)
  }

  /** The depths of the lines that parse, in order; `flat_map` drops the
      others. */
  function ParseDepths(lines: seq<string>): (r: seq<int>)
    ensures |r| <= |lines|
  {
    Somes(seq(|lines|, k requires 0 <= k < |lines| => DepthOf(lines[k])))
  }

  /** An empty or unparsable line anywhere in the file is skipped: the
      depths are those of the other lines. */
  lemma ParseDepthsSkips(a: seq<string>, line: string, b: seq<string>)
    requires DepthOf(line).None?
    ensures ParseDepths(a + [line] + b) == ParseDepths(a) + ParseDepths(b)
  {
    var xa := seq(|a|, k requires 0 <= k < |a| => DepthOf(a[k]));
    var xb := seq(|b|, k requires 0 <= k < |b| => DepthOf(b[k]));
    var all := a + [line] + b;
    assert seq(|all|, k requires 0 <= k < |all| => DepthOf(all[k])) == xa + [None] + xb;
    SomesAppend(xa + [None], xb);
    SomesAppend(xa, [None]);
  }

  /** Depths written one per line read back as themselves. */
  lemma ParseDepthsOfText(depths: seq<int>)
    requires forall k :: 0 <= k < |depths| ==> I64Min <= depths[k] <= I64Max
    ensures ParseDepths(seq(|depths|, k requires 0 <= k < |depths| => IntToString(depths[k]))) == depths
  {
    var lines := seq(|depths|, k requires 0 <= k < |depths| => IntToString(depths[k]));
    var xs := seq(|lines|, k requires 0 <= k < |lines| => DepthOf(lines[k]));
    forall k | 0 <= k < |depths|
      ensures xs[k] == Some(depths[k])
    {
      ParseIntOfIntToString(depths[k], I64Min, I64Max);
    }
    SomesAll(xs, depths);
  }

  // ---------------------------------------------------------------------
  // Counting rises

  /** `tuple_windows()` of a given size: every run of `size` consecutive
      depths, in order. */
  function Windows(s: seq<int>, size: nat): (r: seq<seq<int>>)
    requires size >= 1
    ensures |r| == if |s| >= size then |s| - size + 1 else 0
    ensures forall i :: 0 <= i < |r| ==> |r[i]| == size && r[i] == s[i..i + size]
  {
    if |s| < size then []
    else seq(|s| - size + 1, i requires 0 <= i < |s| - size + 1 => s[i..i + size])
  }

  /** The filter of both parts: the last depth of the window is greater
      than the first. */
  predicate Rising(w: seq<int>)
    requires |w| >= 1
  {
    w[0] < w[|w| - 1]
  }

  /** How many windows, each of at least one depth, are rising. */
  function CountRising(ws: seq<seq<int>>): (r: nat)
    requires forall i :: 0 <= i < |ws| ==> |ws[i]| >= 1
    ensures r <= |ws|
  {
    if ws == [] then 0
    else CountRising(ws[..|ws| - 1]) + if Rising(ws[|ws| - 1]) then 1 else 0
  }

  /** No window counts exactly when none rises, and every window counts
      exactly when all rise. */
  lemma {:induction false} CountRisingExtremes(ws: seq<seq<int>>)
    requires forall i :: 0 <= i < |ws| ==> |ws[i]| >= 1
    ensures CountRising(ws) == 0 <==> forall i :: 0 <= i < |ws| ==> !Rising(ws[i])
    ensures CountRising(ws) == |ws| <==> forall i :: 0 <= i < |ws| ==> Rising(ws[i])
  {
    if ws != [] {
      var n := |ws| - 1;
      CountRisingExtremes(ws[..n]);
      assert forall i :: 0 <= i < n ==> ws[..n][i] == ws[i];
    }
  }

  /** Two lists of windows that rise at the same places count alike. */
  lemma {:induction false} CountRisingAlike(vs: seq<seq<int>>, ws: seq<seq<int>>)
    requires |vs| == |ws|
    requires forall i :: 0 <= i < |vs| ==> |vs[i]| >= 1 && |ws[i]| >= 1
    requires forall i :: 0 <= i < |vs| ==> (Rising(vs[i]) <==> Rising(ws[i]))
    ensures CountRising(vs) == CountRising(ws)
  {
    if vs != [] {
      var n := |vs| - 1;
      assert forall i :: 0 <= i < n ==> vs[..n][i] == vs[i] && ws[..n][i] == ws[i];
      CountRisingAlike(vs[..n], ws[..n]);
    }
  }

  /** Part one: adjacent pairs `a < b`. */
  function Part1(depths: seq<int>): (r: nat)
    ensures |depths| >= 1 ==> r <= |depths| - 1
    ensures |depths| < 2 ==> r == 0
  {
    CountRising(Windows(depths, 2))
  }

  /** Part two: windows of four `(a, _, _, d)` with `a < d`. */
  function Part2(depths: seq<int>): (r: nat)
    ensures |depths| >= 3 ==> r <= |depths| - 3
    ensures |depths| < 4 ==> r == 0
  {
    CountRising(Windows(depths, 4))
  }

  /** Part one counts the places where the next depth is greater: none
      exactly when the depths never increase, all of them exactly when
      the depths strictly increase. */
  lemma Part1Extremes(depths: seq<int>)
    ensures Part1(depths) == 0 <==> forall i :: 0 <= i < |depths| - 1 ==> depths[i] >= depths[i + 1]
    ensures |depths| >= 1 ==>
      (Part1(depths) == |depths| - 1 <==> forall i :: 0 <= i < |depths| - 1 ==> depths[i] < depths[i + 1])
  {
    var ws := Windows(depths, 2);
    CountRisingExtremes(ws);
    assert forall i :: 0 <= i < |ws| ==> (Rising(ws[i]) <==> depths[i] < depths[i + 1]);
  }

  /** The sums of each three consecutive depths. */
  function SlidingSums(depths: seq<int>): (r: seq<int>)
    ensures |r| == if |depths| >= 3 then |depths| - 2 else 0
  {
    if |depths| < 3 then []
    else seq(|depths| - 2, i requires 0 <= i < |depths| - 2 => depths[i] + depths[i + 1] + depths[i + 2])
  }

  /** The puzzle's part two: the rises of the three-depth sums. Comparing
      the first and last depth of a window of four counts the same, since
      the two sums share the middle two depths. */
  lemma Part2IsSlidingSums(depths: seq<int>)
    ensures Part2(depths) == Part1(SlidingSums(depths))
  {
    var sums := SlidingSums(depths);
    var vs, ws := Windows(depths, 4), Windows(sums, 2);
    assert |vs| == |ws|;
    forall i | 0 <= i < |vs|
      ensures Rising(vs[i]) <==> Rising(ws[i])
    {
      assert ws[i] == [sums[i], sums[i + 1]];
      assert vs[i] == depths[i..i + 4];
    }
    CountRisingAlike(vs, ws);
  }

  /** Both counts on the lines of the file. */
  function Solve(lines: seq<string>): (r: (nat, nat))
    ensures var depths := ParseDepths(lines);
      (|depths| >= 1 ==> r.0 <= |depths| - 1) && r.1 == Part1(SlidingSums(depths))
  {
    var depths := ParseDepths(lines);
    Part2IsSlidingSums(depths);
    (Part1(depths), Part2(depths))
  }
}
