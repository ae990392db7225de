/** `day-03/src/main.rs`: the binary diagnostic. Every line is a binary
    number, most significant bit first. A vote per bit position counts the
    ones against the zeros; part one builds the gamma and epsilon rates
    from the votes, part two filters the numbers bit by bit, keeping the
    majority bit for the oxygen rating and the minority bit for the CO2
    rating. */
module Day03 {
  import opened Common

  // ---------------------------------------------------------------------
  // Reading the lines

  /** A `0` takes one from the vote of its position, a `1` adds one, and
      any other character leaves it. */
  function CharVote(c: char): int
  {
    if c == '0' then -1 else if c == '1' then 1 else 0
  }

  /** `Vec::resize(n, 0)`: cut to `n` entries, or filled up with zeros. */
  function Resize(e: seq<int>, n: nat): (r: seq<int>)
    ensures |r| == n
    ensures forall i :: 0 <= i < n ==> r[i] == if i < |e| then e[i] else 0
  {
    if n <= |e| then e[..n] else e + seq(n - |e|, _ => 0)
  }

  /** The votes after the first `pos` characters of `line`, from the votes
      `r` before it. */
  function Partial(r: seq<int>, line: string, pos: nat): (e: seq<int>)
    requires |r| == |line|
    ensures |e| == |line|
  {
    seq(|line|, j requires 0 <= j < |line| => r[j] + if j < pos then CharVote(line[j]) else 0)
  }

  /** `epsilon_array` after the given lines: every non-empty line first
      resizes it to its own length, then votes position by position. */
  function Votes(lines: seq<string>): seq<int>
  {
    if lines == [] then []
    else
      var e := Votes(lines[..|lines| - 1]);
      var l := lines[|lines| - 1];
      if l == [] then e else Partial(Resize(e, |l|), l, |l|)
  }

  /** The bits of a line: a `1` is set, any other character is not. */
  function Bits(line: string): (b: seq<bool>)
    ensures |b| == |line|
  {
    seq(|line|, i requires 0 <= i < |line| => line[i] == '1')
  }

  function Number(line: string): nat
  {
    BitsValue(Bits(line))
  }

  /** `numbers`: the value of every non-empty line, in order. */
  function Numbers(lines: seq<string>): seq<nat>
  {
    if lines == [] then []
    else Numbers(lines[..|lines| - 1]) + if lines[|lines| - 1] == [] then [] else [Number(lines[|lines| - 1])]
  }

  /** The loop over the lines: each non-empty one adds its number and its
      votes. */
  method ReadInput(lines: seq<string>) returns (numbers: seq<nat>, epsilon: seq<int>)
    ensures numbers == Numbers(lines)
    ensures epsilon == Votes(lines)
  {
    numbers, epsilon := [], [];
    for i := 0 to |lines|
      invariant numbers == Numbers(lines[..i])
      invariant epsilon == Votes(lines[..i])
    {
      assert lines[..i + 1][..i] == lines[..i];
      var l := lines[i];
      if l != [] {
        var number;
        number, epsilon := ReadLine(l, epsilon);
        numbers := numbers + [number];
      }
    }
    assert lines[..|lines|] == lines;
  }

  /** The loop over the characters of a line: `number` is shifted left
      for every character and gets a one for a `1`; the vote array is
      resized to the line's length and updated at the character's
      position. */
  method ReadLine(l: string, votes: seq<int>) returns (number: nat, epsilon: seq<int>)
    requires l != []
    ensures number == Number(l)
    ensures epsilon == Partial(Resize(votes, |l|), l, |l|)
  {
    ghost var r := Resize(votes, |l|);
    epsilon := votes;
    number := 0;
    for pos := 0 to |l|
      invariant Resize(epsilon, |l|) == Partial(r, l, pos)
      invariant pos > 0 ==> |epsilon| == |l|
      invariant number == BitsValue(Bits(l)[..pos])
    {
      epsilon := Resize(epsilon, |l|);
      PartialStep(r, l, pos);
      assert Bits(l)[..pos + 1] == Bits(l)[..pos] + [l[pos] == '1'];
      BitsValueSnoc(Bits(l)[..pos], l[pos] == '1');
      number := number * 2;
      match l[pos] {
        case '0' =>
          epsilon := epsilon[pos := epsilon[pos] - 1];
        case '1' =>
          epsilon := epsilon[pos := epsilon[pos] + 1];
          number := number + 1;
        case _ =>
      }
      ResizeSame(epsilon, |l|);
    }
    assert Bits(l)[..|l|] == Bits(l);
    ResizeSame(epsilon, |l|);
  }

  lemma PartialStep(r: seq<int>, line: string, pos: nat)
    requires |r| == |line| && pos < |line|
    ensures var e := Partial(r, line, pos);
      e[pos := e[pos] + CharVote(line[pos])] == Partial(r, line, pos + 1)
  {
  }

  lemma ResizeSame(e: seq<int>, n: nat)
    requires |e| == n
    ensures Resize(e, n) == e
  {
  }

  /** The votes of one position over lines that all have that position. */
  function ColumnVote(lines: seq<string>, pos: nat): int
    requires forall k :: 0 <= k < |lines| ==> pos < |lines[k]|
  {
    if lines == [] then 0 else ColumnVote(lines[..|lines| - 1], pos) + CharVote(lines[|lines| - 1][pos])
  }

  /** With lines all of one length, a position's vote is the number of
      lines with a `1` there less the number with a `0`. */
  lemma {:induction false} VotesUniform(lines: seq<string>, width: nat, pos: nat)
    requires width > 0 && pos < width && forall k :: 0 <= k < |lines| ==> |lines[k]| == width
    requires |lines| > 0
    ensures |Votes(lines)| == width && Votes(lines)[pos] == ColumnVote(lines, pos)
  {
    var n := |lines| - 1;
    if n > 0 {
      VotesUniform(lines[..n], width, pos);
    }
  }

  // ---------------------------------------------------------------------
  // Part one

  /** The gamma bits: set where zeros win the vote. */
  function GammaBits(e: seq<int>): (b: seq<bool>)
    ensures |b| == |e|
  {
    seq(|e|, i requires 0 <= i < |e| => e[i] < 0)
  }

  /** The epsilon bits: set where ones win the vote. */
  function EpsBits(e: seq<int>): (b: seq<bool>)
    ensures |b| == |e|
  {
    seq(|e|, i requires 0 <= i < |e| => e[i] > 0)
  }

  /** The loop over the votes that shifts both rates and sets their bits. */
  method Rates(epsilon: seq<int>) returns (gamma: nat, eps: nat)
    ensures gamma == BitsValue(GammaBits(epsilon))
    ensures eps == BitsValue(EpsBits(epsilon))
  {
    gamma, eps := 0, 0;
    for i := 0 to |epsilon|
      invariant gamma == BitsValue(GammaBits(epsilon)[..i])
      invariant eps == BitsValue(EpsBits(epsilon)[..i])
    {
      var e := epsilon[i];
      assert GammaBits(epsilon)[..i + 1] == GammaBits(epsilon)[..i] + [e < 0];
      assert EpsBits(epsilon)[..i + 1] == EpsBits(epsilon)[..i] + [e > 0];
      BitsValueSnoc(GammaBits(epsilon)[..i], e < 0);
      BitsValueSnoc(EpsBits(epsilon)[..i], e > 0);
      gamma := gamma * 2;
      eps := eps * 2;
      eps := eps + if e > 0 then 1 else 0;
      gamma := gamma + if e < 0 then 1 else 0;
    }
    assert GammaBits(epsilon)[..|epsilon|] == GammaBits(epsilon);
    assert EpsBits(epsilon)[..|epsilon|] == EpsBits(epsilon);
  }

  /** No position sets both rates' bits, so their sum stays below
      `2^n`. */
  lemma {:induction false} RatesBelow(e: seq<int>)
    ensures BitsValue(GammaBits(e)) + BitsValue(EpsBits(e)) <= Pow2(|e|) - 1
  {
    if e != [] {
      var n := |e| - 1;
      RatesBelow(e[..n]);
      GammaSnoc(e);
      EpsSnoc(e);
    }
  }

  /** With no tie, the two rates are each other's complement: their sum is
      exactly `2^n - 1`. */
  lemma {:induction false} RatesComplement(e: seq<int>)
    requires forall i :: 0 <= i < |e| ==> e[i] != 0
    ensures BitsValue(GammaBits(e)) + BitsValue(EpsBits(e)) == Pow2(|e|) - 1
  {
    if e != [] {
      var n := |e| - 1;
      RatesComplement(e[..n]);
      GammaSnoc(e);
      EpsSnoc(e);
    }
  }

  lemma GammaSnoc(e: seq<int>)
    requires e != []
    ensures BitsValue(GammaBits(e)) == 2 * BitsValue(GammaBits(e[..|e| - 1])) + (if e[|e| - 1] < 0 then 1 else 0)
  {
    assert GammaBits(e)[..|e| - 1] == GammaBits(e[..|e| - 1]);
  }

  lemma EpsSnoc(e: seq<int>)
    requires e != []
    ensures BitsValue(EpsBits(e)) == 2 * BitsValue(EpsBits(e[..|e| - 1])) + (if e[|e| - 1] > 0 then 1 else 0)
  {
    assert EpsBits(e)[..|e| - 1] == EpsBits(e[..|e| - 1]);
  }

  // ---------------------------------------------------------------------
  // Part two

  /** `(n >> k) & 1 == 1` for a number that is not negative. */
  predicate Bit(n: nat, k: nat)
  {
    (n / Pow2(k)) % 2 == 1
  }

  /** A line's number has the line's `pos`-th character as its bit
      `width - pos - 1`, counted from the least significant end. */
  lemma BitOfNumber(line: string, pos: nat)
    requires pos < |line|
    ensures Bit(Number(line), |line| - pos - 1) <==> line[pos] == '1'
  {
    BitsValueBit(Bits(line), pos);
  }

  /** The fold of a filter: one up for a number with bit `k` set, one down
      for any other. */
  function Vote(ns: seq<nat>, k: nat): int
  {
    if ns == [] then 0 else Vote(ns[..|ns| - 1], k) + if Bit(ns[|ns| - 1], k) then 1 else -1
  }

  /** `retain`: the numbers whose bit `k` is `b`, in order. */
  function Retain(ns: seq<nat>, k: nat, b: bool): (r: seq<nat>)
    ensures |r| <= |ns|
  {
    if ns == [] then []
    else Retain(ns[..|ns| - 1], k, b) + if Bit(ns[|ns| - 1], k) == b then [ns[|ns| - 1]] else []
  }

  /** A number is kept exactly when it is one of the numbers and its bit
      is the one asked for. */
  lemma {:induction false} RetainMember(ns: seq<nat>, k: nat, b: bool, x: nat)
    ensures x in Retain(ns, k, b) <==> x in ns && Bit(x, k) == b
  {
    if ns != [] {
      var n := |ns| - 1;
      RetainMember(ns[..n], k, b, x);
      assert ns == ns[..n] + [ns[n]];
    }
  }

  /** The vote is the count of ones less the count of zeros, and the two
      counts make up all the numbers. */
  lemma {:induction false} VoteCounts(ns: seq<nat>, k: nat)
    ensures Vote(ns, k) == |Retain(ns, k, true)| - |Retain(ns, k, false)|
    ensures |Retain(ns, k, true)| + |Retain(ns, k, false)| == |ns|
  {
    if ns != [] {
      VoteCounts(ns[..|ns| - 1], k);
    }
  }

  /** The bit a filter keeps after a vote: the oxygen filter keeps ones
      unless the vote is negative, the CO2 filter keeps ones only then. */
  function Kept(oxygen: bool, vote: int): bool
  {
    if oxygen then vote >= 0 else vote < 0
  }

  /** The oxygen filter keeps the most common bit, a one on a tie. */
  lemma OxygenMajority(ns: seq<nat>, k: nat)
    ensures Kept(true, Vote(ns, k)) <==> |Retain(ns, k, true)| >= |Retain(ns, k, false)|
  {
    VoteCounts(ns, k);
  }

  /** The CO2 filter keeps the least common bit, a zero on a tie. */
  lemma Co2Minority(ns: seq<nat>, k: nat)
    ensures Kept(false, Vote(ns, k)) <==> |Retain(ns, k, true)| < |Retain(ns, k, false)|
  {
    VoteCounts(ns, k);
  }

  /** The oxygen filter never empties a list of numbers. */
  lemma OxygenKeepsSome(ns: seq<nat>, k: nat)
    requires |ns| > 0
    ensures |Retain(ns, k, Kept(true, Vote(ns, k)))| > 0
  {
    VoteCounts(ns, k);
  }

  /** The filter from bit position `pos` on: the bit examined is
      `width - pos - 1`; the numbers not having the kept bit are dropped,
      and the filter stops once one number remains. */
  function FilterFrom(ns: seq<nat>, width: nat, pos: nat, oxygen: bool): seq<nat>
    decreases width - pos
  {
    if pos >= width then ns
    else
      var k := width - pos - 1;
      var kept := Retain(ns, k, Kept(oxygen, Vote(ns, k)));
      if |kept| == 1 then kept else FilterFrom(kept, width, pos + 1, oxygen)
  }

  /** The loop of a filter over the bit positions, with its `break`. */
  method Filter(numbers: seq<nat>, width: nat, oxygen: bool) returns (kept: seq<nat>)
    ensures kept == FilterFrom(numbers, width, 0, oxygen)
  {
    kept := numbers;
    for pos := 0 to width
      invariant FilterFrom(numbers, width, 0, oxygen) == FilterFrom(kept, width, pos, oxygen)
    {
      var k := width - pos - 1;
      var vote := Vote(kept, k);
      kept := Retain(kept, k, Kept(oxygen, vote));
      if |kept| == 1 {
        break;
      }
    }
  }

  /** `idx` places the elements of `a`, in order, among those of `b`. */
  ghost predicate Embeds(a: seq<nat>, b: seq<nat>, idx: seq<nat>)
  {
    && |idx| == |a|
    && (forall i :: 0 <= i < |idx| ==> idx[i] < |b| && a[i] == b[idx[i]])
    && (forall i, j :: 0 <= i < j < |idx| ==> idx[i] < idx[j])
  }

  lemma {:induction false} RetainEmbeds(ns: seq<nat>, k: nat, b: bool) returns (idx: seq<nat>)
    ensures Embeds(Retain(ns, k, b), ns, idx)
  {
    if ns == [] {
      idx := [];
    } else {
      var n := |ns| - 1;
      idx := RetainEmbeds(ns[..n], k, b);
      if Bit(ns[n], k) == b {
        idx := idx + [n];
      }
    }
  }

  lemma EmbedsCompose(a: seq<nat>, b: seq<nat>, c: seq<nat>, i1: seq<nat>, i2: seq<nat>) returns (idx: seq<nat>)
    requires Embeds(a, b, i1) && Embeds(b, c, i2)
    ensures Embeds(a, c, idx)
  {
    idx := seq(|i1|, t requires 0 <= t < |i1| => i2[i1[t]]);
  }

  /** What a filter leaves is a subsequence of the numbers it started
      from. */
  lemma {:induction false} FilterEmbeds(ns: seq<nat>, width: nat, pos: nat, oxygen: bool) returns (idx: seq<nat>)
    ensures Embeds(FilterFrom(ns, width, pos, oxygen), ns, idx)
    decreases width - pos
  {
    if pos >= width {
      idx := seq(|ns|, i requires 0 <= i < |ns| => i);
    } else {
      var k := width - pos - 1;
      var kept := Retain(ns, k, Kept(oxygen, Vote(ns, k)));
      var i1 := RetainEmbeds(ns, k, Kept(oxygen, Vote(ns, k)));
      if |kept| == 1 {
        idx := i1;
      } else {
        var i2 := FilterEmbeds(kept, width, pos + 1, oxygen);
        idx := EmbedsCompose(FilterFrom(kept, width, pos + 1, oxygen), kept, ns, i2, i1);
      }
    }
  }

  /** The oxygen filter leaves at least one number of a non-empty list. */
  lemma {:induction false} OxygenNonEmpty(ns: seq<nat>, width: nat, pos: nat)
    requires |ns| > 0
    ensures |FilterFrom(ns, width, pos, true)| > 0
    decreases width - pos
  {
    if pos < width {
      var k := width - pos - 1;
      OxygenKeepsSome(ns, k);
      var kept := Retain(ns, k, Kept(true, Vote(ns, k)));
      if |kept| != 1 {
        OxygenNonEmpty(kept, width, pos + 1);
      }
    }
  }

  /** Every number a filter leaves was among those it started from. */
  lemma FilterMember(ns: seq<nat>, width: nat, pos: nat, oxygen: bool, x: nat)
    requires x in FilterFrom(ns, width, pos, oxygen)
    ensures x in ns
  {
    var idx := FilterEmbeds(ns, width, pos, oxygen);
    var r := FilterFrom(ns, width, pos, oxygen);
    var i :| 0 <= i < |r| && r[i] == x;
    assert x == ns[idx[i]];
  }

  /** Unless a filter stopped at one number, all the numbers it leaves
      agree on every bit it examined. */
  lemma {:induction false} FilterAgrees(ns: seq<nat>, width: nat, pos: nat, oxygen: bool, x: nat, y: nat, k: nat)
    requires |FilterFrom(ns, width, pos, oxygen)| != 1
    requires x in FilterFrom(ns, width, pos, oxygen) && y in FilterFrom(ns, width, pos, oxygen)
    requires pos <= width && k < width - pos
    ensures Bit(x, k) == Bit(y, k)
    decreases width - pos
  {
    var k0 := width - pos - 1;
    var b := Kept(oxygen, Vote(ns, k0));
    var kept := Retain(ns, k0, b);
    FilterMember(kept, width, pos + 1, oxygen, x);
    FilterMember(kept, width, pos + 1, oxygen, y);
    if k < k0 {
      FilterAgrees(kept, width, pos + 1, oxygen, x, y, k);
    } else {
      RetainMember(ns, k0, b, x);
      RetainMember(ns, k0, b, y);
    }
  }

  /** A single number whose examined bit is set is dropped by the CO2
      filter: the vote of one is not negative, so zeros are kept. */
  lemma Co2DropsLoneOne()
    ensures FilterFrom([1], 1, 0, false) == []
  {
    assert Bit(1, 0);
    assert Vote([1], 0) == 1;
    assert Retain([1], 0, false) == [];
  }

  /** Whenever every remaining number has the same bit `k`, the CO2 step
      keeps none of them: the vote is all ones or all zeros, and the bit
      it keeps is the other one. */
  lemma Co2DropsAgreeing(ns: seq<nat>, k: nat, b: bool)
    requires ns != [] && forall i :: 0 <= i < |ns| ==> Bit(ns[i], k) == b
    ensures Retain(ns, k, Kept(false, Vote(ns, k))) == []
  {
    var other := Retain(ns, k, !b);
    if other != [] {
      RetainMember(ns, k, !b, other[0]);
      assert false;
    }
    VoteCounts(ns, k);
    assert Kept(false, Vote(ns, k)) == !b;
  }

  /** The lines `10` and `11` agree on their first bit, so the CO2 filter
      leaves nothing and the source's `unwrap` panics. */
  lemma Co2DropsPair()
    ensures FilterFrom([2, 3], 2, 0, false) == []
  {
    assert Bit(2, 1) && Bit(3, 1);
    Co2DropsAgreeing([2, 3], 1, true);
  }

  /** The rating a filter reads: its first remaining number, `None` when
      none remains. */
  function Rating(numbers: seq<nat>, width: nat, oxygen: bool): (r: Option<nat>)
    ensures r.Some? ==> r.value in numbers
  {
    var kept := FilterFrom(numbers, width, 0, oxygen);
    if |kept| == 0 then None
    else
      FilterMember(numbers, width, 0, oxygen, kept[0]);
      Some(kept[0])
  }

  /** Part two's answer: the CO2 rating times the oxygen rating, `None`
      where the source's `unwrap` panics. */
  function LifeSupport(numbers: seq<nat>, width: nat): Option<nat>
  {
    match (Rating(numbers, width, false), Rating(numbers, width, true))
    case (Some(co2), Some(o2)) => Some(co2 * o2)
    case _ => None
  }

  /** The answers: part one is gamma times epsilon, part two the life
      support rating. */
  method Solve(lines: seq<string>) returns (part1: nat, part2: Option<nat>)
    ensures part1 == BitsValue(GammaBits(Votes(lines))) * BitsValue(EpsBits(Votes(lines)))
    ensures part2 == LifeSupport(Numbers(lines), |Votes(lines)|)
  {
    var numbers, epsilon := ReadInput(lines);
    var gamma, eps := Rates(epsilon);
    part1 := gamma * eps;
    part2 := LifeSupportRating(numbers, |epsilon|);
  }

  /** Both filters over the numbers, and the product of their ratings. */
  method LifeSupportRating(numbers: seq<nat>, width: nat) returns (part2: Option<nat>)
    ensures part2 == LifeSupport(numbers, width)
  {
    var oxygen := Filter(numbers, width, true);
    var scuba := Filter(numbers, width, false);
    if |scuba| > 0 && |oxygen| > 0 {
      var co2, o2 := scuba[0], oxygen[0];
      part2 := Some(co2 * o2);
    } else {
      part2 := None;
    }
  }

  /** A non-empty input always has an oxygen rating; only the CO2 filter
      can leave part two without an answer. */
  lemma Part2Answers(numbers: seq<nat>, width: nat)
    requires |numbers| > 0
    ensures Rating(numbers, width, true).Some?
  {
    OxygenNonEmpty(numbers, width, 0);
  }
}
