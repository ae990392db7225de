/** `day-07/src/main.rs`: aligning the crabs. Every position between the
    leftmost and the rightmost crab is a candidate, and `calc_fuel` finds
    the first candidate whose total fuel is least, once with a fuel that
    grows linearly with the distance moved and once with one that grows
    as the triangular numbers. */
module Day07 {
  import opened Common
  import opened Text

  datatype Error = NoFirstLine | NoCrabs

  /** The two closures handed to `calc_fuel`. */
  datatype Cost = Linear | Triangular

  // ---------------------------------------------------------------------
  // Reading the crabs

  /** The first line split at commas, keeping the pieces that parse as
      `i64`; a file without a first line is the parse error. */
  function ParseCrabs(lines: seq<string>): (r: Result<seq<int>, Error>)
    ensures r.Err? <==> lines == []
    ensures r.Ok? ==> |r.value| <= |Split(lines[0], ",")|
    ensures r.Ok? ==> forall k :: 0 <= k < |r.value| ==> I64Min <= r.value[k] <= I64Max
  {
    if lines == [] then Err(NoFirstLine)
    else
      var pieces := Split(lines[0], ",");
      var crabs := Somes(seq(|pieces|, k requires 0 <= k < |pieces| => ParseI64(pieces[k])));
      SomesIn(seq(|pieces|, k requires 0 <= k < |pieces| => ParseI64(pieces[k])));
      Ok(crabs)
  }

  /** Every value `Somes` keeps was present. */
  lemma {:induction false} SomesIn(xs: seq<Option<int>>)
    ensures forall k :: 0 <= k < |Somes(xs)| ==> Some(Somes(xs)[k]) in xs
  {
    if xs != [] {
      var n := |xs| - 1;
      SomesIn(xs[..n]);
      forall k | 0 <= k < |Somes(xs)|
        ensures Some(Somes(xs)[k]) in xs
      {
        if k < |Somes(xs[..n])| {
          assert Somes(xs)[k] == Somes(xs[..n])[k];
          assert Some(Somes(xs)[k]) in xs[..n];
        } else {
          assert Somes(xs)[k] == xs[n].value;
        }
      }
    }
  }

  /** The first line written from the crabs, the numbers joined by commas. */
  function CrabsText(crabs: seq<int>): string
    requires crabs != []
  {
    Join(seq(|crabs|, k requires 0 <= k < |crabs| => IntToString(crabs[k])), ",")
  }

  /** Pieces without commas, joined by commas, split back into themselves. */
  lemma {:induction false} SplitOfJoin(parts: seq<string>)
    requires |parts| >= 1
    requires forall k, i :: 0 <= k < |parts| && 0 <= i < |parts[k]| ==> parts[k][i] != ','
    ensures Split(Join(parts, ","), ",") == parts
  {
    if |parts| == 1 {
      NoOccurrence(parts[0], ',');
      SplitNone(parts[0], ",");
    } else {
      SplitOfJoin(parts[1..]);
      SplitFirst(parts[0], ",", Join(parts[1..], ","));
      assert parts == [parts[0]] + parts[1..];
    }
  }

  /** Crabs written on the first line read back as themselves. */
  lemma ParseCrabsOfText(crabs: seq<int>, rest: seq<string>)
    requires crabs != []
    requires forall k :: 0 <= k < |crabs| ==> I64Min <= crabs[k] <= I64Max
    ensures ParseCrabs([CrabsText(crabs)] + rest) == Ok(crabs)
  {
    var parts := seq(|crabs|, k requires 0 <= k < |crabs| => IntToString(crabs[k]));
    forall k | 0 <= k < |crabs|
      ensures ParseI64(parts[k]) == Some(crabs[k])
      ensures forall i :: 0 <= i < |parts[k]| ==> parts[k][i] != ','
    {
      ParseIntOfIntToString(crabs[k], I64Min, I64Max);
    }
    SplitOfJoin(parts);
    var xs := seq(|parts|, k requires 0 <= k < |parts| => ParseI64(parts[k]));
    SomesAll(xs, crabs);
  }

  // ---------------------------------------------------------------------
  // The range of candidates

  /** The least element, folded from the left. */
  function SeqMin(s: seq<int>): (r: int)
    requires s != []
    ensures r in s && forall k :: 0 <= k < |s| ==> r <= s[k]
  {
    if |s| == 1 then s[0]
    else
      var m := SeqMin(s[..|s| - 1]);
      assert forall k :: 0 <= k < |s| - 1 ==> s[..|s| - 1][k] == s[k];
      Min(m, s[|s| - 1])
  }

  /** The greatest element, folded from the left. */
  function SeqMax(s: seq<int>): (r: int)
    requires s != []
    ensures r in s && forall k :: 0 <= k < |s| ==> s[k] <= r
  {
    if |s| == 1 then s[0]
    else
      var m := SeqMax(s[..|s| - 1]);
      assert forall k :: 0 <= k < |s| - 1 ==> s[..|s| - 1][k] == s[k];
      Max(m, s[|s| - 1])
  }

  // ---------------------------------------------------------------------
  // Fuel

  /** The fuel one crab burns to move from `p` to `pos`: the distance, or
      for the triangular cost `n * (n + 1) / 2` with `n` the distance. */
  function Fuel(cost: Cost, p: int, pos: int): (r: nat)
  {
    match cost
    case Linear => Abs(p - pos)
    case Triangular =>
      var n := Abs(pos - p);
      n * (n + 1) / 2
  }

  /** The triangular cost is what moving costs when each step burns one
      unit more than the step before: `1 + 2 + ... + n`. */
  function StepSum(n: nat): nat
  {
    if n == 0 then 0 else StepSum(n - 1) + n
  }

  lemma {:induction false} TriangularSteps(p: int, pos: int)
    ensures Fuel(Triangular, p, pos) == StepSum(Abs(pos - p))
  {
    StepSumClosed(Abs(pos - p));
  }

  lemma {:induction false} StepSumClosed(n: nat)
    ensures 2 * StepSum(n) == n * (n + 1)
  {
    if n > 0 {
      StepSumClosed(n - 1);
      assert n * (n + 1) == (n - 1) * n + 2 * n;
    }
  }

  /** A longer move never burns less triangular fuel. */
  lemma TriangleMonotone(n: nat, m: nat)
    requires n <= m
    ensures n * (n + 1) / 2 <= m * (m + 1) / 2
  {
    MulLeft(n, n + 1, m + 1);
    MulRight(n, m, m + 1);
    assert n * (n + 1) <= m * (m + 1);
  }

  lemma MulLeft(a: nat, b: nat, c: nat)
    requires b <= c
    ensures a * b <= a * c
  {
  }

  lemma MulRight(a: nat, b: nat, c: nat)
    requires a <= b
    ensures a * c <= b * c
  {
  }

  /** The fuel every crab spends to reach `pos`, added up. */
  function Total(crabs: seq<int>, cost: Cost, pos: int): nat
  {
    if crabs == [] then 0
    else Total(crabs[..|crabs| - 1], cost, pos) + Fuel(cost, crabs[|crabs| - 1], pos)
  }

  /** Moving the meeting point further left of every crab never costs
      less in total. */
  lemma {:induction false} TotalLeft(crabs: seq<int>, cost: Cost, q: int, lo: int)
    requires q <= lo && forall k :: 0 <= k < |crabs| ==> lo <= crabs[k]
    ensures Total(crabs, cost, lo) <= Total(crabs, cost, q)
  {
    if crabs != [] {
      var n := |crabs| - 1;
      TotalLeft(crabs[..n], cost, q, lo);
      FuelShift(cost, crabs[n], lo, q);
    }
  }

  /** Moving the meeting point further right of every crab never costs
      less in total. */
  lemma {:induction false} TotalRight(crabs: seq<int>, cost: Cost, q: int, hi: int)
    requires hi <= q && forall k :: 0 <= k < |crabs| ==> crabs[k] <= hi
    ensures Total(crabs, cost, hi) <= Total(crabs, cost, q)
  {
    if crabs != [] {
      var n := |crabs| - 1;
      TotalRight(crabs[..n], cost, q, hi);
      FuelShift(cost, crabs[n], hi, q);
    }
  }

  /** The fuel of one crab, measured from a point nearer to it. */
  lemma FuelShift(cost: Cost, p: int, near: int, far: int)
    requires Abs(p - near) <= Abs(p - far)
    ensures Fuel(cost, p, near) <= Fuel(cost, p, far)
  {
    if cost == Triangular {
      TriangleMonotone(Abs(near - p), Abs(far - p));
    }
  }

  // ---------------------------------------------------------------------
  // calc_fuel

  /** The first position of the inclusive range from `lo` to `hi` whose total
      fuel is least, as the minimum by key over that range picks it. */
  function ArgMin(crabs: seq<int>, cost: Cost, lo: int, hi: int): (r: int)
    requires lo <= hi
    ensures lo <= r <= hi
    ensures forall q :: lo <= q <= hi ==> Total(crabs, cost, r) <= Total(crabs, cost, q)
    ensures forall q :: lo <= q < r ==> Total(crabs, cost, r) < Total(crabs, cost, q)
    decreases hi - lo
  {
    if lo == hi then lo
    else
      var rest := ArgMin(crabs, cost, lo + 1, hi);
      if Total(crabs, cost, lo) <= Total(crabs, cost, rest) then lo else rest
  }

  /** `calc_fuel(f)`: the candidates are exactly `min..=max` of the crabs,
      and the answer is the first of them with the least total fuel. */
  function CalcFuel(crabs: seq<int>, cost: Cost): (r: int)
    requires crabs != []
    ensures SeqMin(crabs) <= r <= SeqMax(crabs)
    ensures forall q :: SeqMin(crabs) <= q <= SeqMax(crabs) ==> Total(crabs, cost, r) <= Total(crabs, cost, q)
    ensures forall q :: SeqMin(crabs) <= q < r ==> Total(crabs, cost, r) < Total(crabs, cost, q)
  {
    ArgMin(crabs, cost, SeqMin(crabs), SeqMax(crabs))
  }

  /** Searching only between the outermost crabs loses nothing: the
      answer needs no more fuel than any position at all. */
  lemma CalcFuelBest(crabs: seq<int>, cost: Cost, q: int)
    requires crabs != []
    ensures Total(crabs, cost, CalcFuel(crabs, cost)) <= Total(crabs, cost, q)
  {
    var lo, hi := SeqMin(crabs), SeqMax(crabs);
    if q < lo {
      TotalLeft(crabs, cost, q, lo);
    } else if q > hi {
      TotalRight(crabs, cost, q, hi);
    }
  }

  /** The whole run on the lines of the file: the best position for part
      one and for part two. No first line is the parse error, and no crab
      makes the `unwrap` of `reduce` panic. */
  function Solve(lines: seq<string>): (r: Result<(int, int), Error>)
    ensures r == Err(NoFirstLine) <==> lines == []
    ensures r == Err(NoCrabs) <==> ParseCrabs(lines) == Ok([])
    ensures r.Ok? ==> var crabs := ParseCrabs(lines).value;
      crabs != [] && r.value == (CalcFuel(crabs, Linear), CalcFuel(crabs, Triangular))
  {
    match ParseCrabs(lines)
    case Err(e) => Err(e)
    case Ok(crabs) =>
      if crabs == [] then Err(NoCrabs)
      else Ok((CalcFuel(crabs, Linear), CalcFuel(crabs, Triangular)))
  }
}
