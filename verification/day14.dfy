/** `day-14/src/main.rs`: polymer insertion. Every round inserts, between
    each adjacent pair that has a rule, the rule's letter. The solver never
    builds the polymer: `expand_chars` counts the letters a pair grows into
    (its second letter and everything inserted before it), memoised in a
    cache keyed by the pair and the number of rounds, and `expand` adds the
    counts of all pairs of the template to its first letter. Letters are
    counted in arrays of 26, one slot per letter `'A'`..`'Z'`. */
module Day14 {
  import opened Common

  type Rules = map<(char, char), char>

  /** An index into the 26-slot count arrays; the source computes
      `c as usize - 'A' as usize` and panics for anything but a capital. */
  predicate Upper(c: char)
  {
    'A' <= c <= 'Z'
  }

  predicate AllUpper(s: seq<char>)
  {
    forall i :: 0 <= i < |s| ==> Upper(s[i])
  }

  /** Every letter a rule inserts can be counted. */
  predicate ValidRules(rules: Rules)
  {
    forall k :: k in rules ==> Upper(rules[k])
  }

  lemma AllUpperAppend(s: seq<char>, t: seq<char>)
    requires AllUpper(s) && AllUpper(t)
    ensures AllUpper(s + t)
  {
    forall i | 0 <= i < |s + t| ensures Upper((s + t)[i]) {
      if i >= |s| {
        assert (s + t)[i] == t[i - |s|];
      }
    }
  }

  // ---------------------------------------------------------------------
  // Count arrays

  /** The count array of the single letter `c`. */
  function Unit(c: char): (u: seq<nat>)
    ensures |u| == 26
  {
    seq(26, i => if c as int - 'A' as int == i then 1 else 0)
  }

  function Zeros(): (z: seq<nat>)
    ensures |z| == 26
  {
    seq(26, i => 0)
  }

  /** The slot-by-slot sum of two count arrays. */
  function AddCounts(a: seq<nat>, b: seq<nat>): (c: seq<nat>)
    requires |a| == |b|
    ensures |c| == |a|
  {
    seq(|a|, i requires 0 <= i < |a| => a[i] + b[i])
  }

  lemma AddCountsComm(a: seq<nat>, b: seq<nat>)
    requires |a| == |b|
    ensures AddCounts(a, b) == AddCounts(b, a)
  {
  }

  lemma AddCountsAssoc(a: seq<nat>, b: seq<nat>, c: seq<nat>)
    requires |a| == |b| == |c|
    ensures AddCounts(AddCounts(a, b), c) == AddCounts(a, AddCounts(b, c))
  {
  }

  lemma AddZeros(a: seq<nat>)
    requires |a| == 26
    ensures AddCounts(a, Zeros()) == a
  {
  }

  /** The letter counts of a string, one letter at a time. */
  function Tally(s: seq<char>): (c: seq<nat>)
    ensures |c| == 26
  {
    if s == [] then Zeros() else AddCounts(Unit(s[0]), Tally(s[1..]))
  }

  /** Slot `i` of the tally is the multiplicity of the `i`-th capital. */
  lemma {:induction false} TallyMeaning(s: seq<char>, i: nat)
    requires i < 26
    ensures Tally(s)[i] == multiset(s)[('A' as int + i) as char]
  {
    if s != [] {
      TallyMeaning(s[1..], i);
      assert s == [s[0]] + s[1..];
      assert multiset(s) == multiset{s[0]} + multiset(s[1..]);
    }
  }

  lemma {:induction false} TallyAppend(s: seq<char>, t: seq<char>)
    ensures Tally(s + t) == AddCounts(Tally(s), Tally(t))
  {
    if s == [] {
      assert s + t == t;
      AddCountsComm(Zeros(), Tally(t));
      AddZeros(Tally(t));
    } else {
      assert (s + t)[1..] == s[1..] + t;
      TallyAppend(s[1..], t);
      AddCountsAssoc(Unit(s[0]), Tally(s[1..]), Tally(t));
    }
  }

  lemma TallyOne(c: char)
    ensures Tally([c]) == Unit(c)
  {
    assert [c][1..] == [];
    AddZeros(Unit(c));
  }

  /** The counts of a string of capitals add up to its length. */
  lemma {:induction false} TallyTotal(s: seq<char>)
    requires AllUpper(s)
    ensures Sum(Tally(s)) == |s|
  {
    if s != [] {
      assert AllUpper(s[1..]) by {
        forall i | 0 <= i < |s[1..]| ensures Upper(s[1..][i]) {
          assert s[1..][i] == s[i + 1];
        }
      }
      TallyTotal(s[1..]);
      SumAddCounts(Unit(s[0]), Tally(s[1..]));
      UnitTotal(s[0], 26);
      assert Unit(s[0])[..26] == Unit(s[0]);
      assert Sum(Unit(s[0])) == 1;
      assert Tally(s) == AddCounts(Unit(s[0]), Tally(s[1..]));
    } else {
      ZerosTotal(26);
      assert Zeros()[..26] == Zeros();
    }
  }

  lemma {:induction false} SumAddCounts(a: seq<nat>, b: seq<nat>)
    requires |a| == |b|
    ensures Sum(AddCounts(a, b)) == Sum(a) + Sum(b)
    decreases |a|
  {
    if a != [] {
      var n := |a| - 1;
      assert AddCounts(a, b)[..n] == AddCounts(a[..n], b[..n]);
      SumAddCounts(a[..n], b[..n]);
    }
  }

  lemma {:induction false} ZerosTotal(n: nat)
    requires n <= 26
    ensures Sum(Zeros()[..n]) == 0
  {
    if n > 0 {
      assert Zeros()[..n][..n - 1] == Zeros()[..n - 1];
      ZerosTotal(n - 1);
    } else {
      assert Zeros()[..n] == [];
    }
  }

  /** The first `n` slots of a unit count sum to 1 exactly when they hold
      the letter's slot. */
  lemma {:induction false} UnitTotal(c: char, n: nat)
    requires n <= 26
    ensures Sum(Unit(c)[..n]) == if 0 <= c as int - 'A' as int < n then 1 else 0
  {
    if n > 0 {
      assert Unit(c)[..n][..n - 1] == Unit(c)[..n - 1];
      UnitTotal(c, n - 1);
    } else {
      assert Unit(c)[..n] == [];
    }
    if n == 26 {
      assert Unit(c)[..n] == Unit(c);
    }
  }

  // ---------------------------------------------------------------------
  // The polymer itself: the reference the counts are proved against

  /** The letters a rule inserts between `a` and `b`: one or none. */
  function Insertion(rules: Rules, a: char, b: char): seq<char>
  {
    if (a, b) in rules then [rules[(a, b)]] else []
  }

  /** One round of insertion. */
  function Step(p: seq<char>, rules: Rules): (q: seq<char>)
    ensures p != [] ==> q != [] && q[0] == p[0] && q[|q| - 1] == p[|p| - 1]
    ensures ValidRules(rules) && AllUpper(p) ==> AllUpper(q)
  {
    if |p| < 2 then p else [p[0]] + Insertion(rules, p[0], p[1]) + Step(p[1..], rules)
  }

  /** `n` rounds of insertion. */
  function Grow(p: seq<char>, rules: Rules, n: nat): (q: seq<char>)
    ensures p != [] ==> q != [] && q[0] == p[0] && q[|q| - 1] == p[|p| - 1]
    ensures ValidRules(rules) && AllUpper(p) ==> AllUpper(q)
    decreases n
  {
    if n == 0 then p else Grow(Step(p, rules), rules, n - 1)
  }

  /** One round of insertion on two strings glued at a shared letter is the
      two rounds glued at that letter. */
  lemma {:induction false} StepGlue(u: seq<char>, v: seq<char>, rules: Rules)
    requires u != [] && v != [] && u[|u| - 1] == v[0]
    ensures Step(u + v[1..], rules) == Step(u, rules) + Step(v, rules)[1..]
  {
    var sv := Step(v, rules);
    if |u| == 1 {
      assert u + v[1..] == v;
      assert sv == [sv[0]] + sv[1..];
    } else {
      var w := u + v[1..];
      assert w[0] == u[0] && w[1] == u[1] && w[1..] == u[1..] + v[1..];
      StepGlue(u[1..], v, rules);
      var head := [u[0]] + Insertion(rules, u[0], u[1]);
      AppendAssoc(head, Step(u[1..], rules), sv[1..]);
    }
  }

  lemma {:induction false} GrowGlue(u: seq<char>, v: seq<char>, rules: Rules, n: nat)
    requires u != [] && v != [] && u[|u| - 1] == v[0]
    ensures Grow(u + v[1..], rules, n) == Grow(u, rules, n) + Grow(v, rules, n)[1..]
    decreases n
  {
    if n > 0 {
      StepGlue(u, v, rules);
      GrowGlue(Step(u, rules), Step(v, rules), rules, n - 1);
    }
  }

  /** A pair without a rule never grows. */
  lemma {:induction false} GrowStuck(a: char, b: char, rules: Rules, n: nat)
    requires (a, b) !in rules
    ensures Grow([a, b], rules, n) == [a, b]
  {
    if n > 0 {
      assert Step([a, b], rules) == [a, b];
      GrowStuck(a, b, rules, n - 1);
    }
  }

  lemma {:induction false} GrowSingle(c: char, rules: Rules, n: nat)
    ensures Grow([c], rules, n) == [c]
  {
    if n > 0 {
      GrowSingle(c, rules, n - 1);
    }
  }

  // ---------------------------------------------------------------------
  // expand_chars

  /** The recursion `expand_chars` memoises: an expandable pair adds the
      counts of its two halves, any other pair counts its second letter. */
  function PairCounts(a: char, b: char, rules: Rules, steps: nat): (c: seq<nat>)
    requires Upper(b) && ValidRules(rules)
    ensures |c| == 26
    decreases steps
  {
    if (a, b) in rules && steps > 0 then
      var insertion := rules[(a, b)];
      AddCounts(PairCounts(a, insertion, rules, steps - 1), PairCounts(insertion, b, rules, steps - 1))
    else Unit(b)
  }

  /** A pair with a rule grows into its two halves, glued at the inserted
      letter. */
  lemma PairGrowSplit(a: char, b: char, rules: Rules, n: nat)
    requires (a, b) in rules
    ensures var c := rules[(a, b)];
      Grow([a, b], rules, n + 1)[1..] == Grow([a, c], rules, n)[1..] + Grow([c, b], rules, n)[1..]
  {
    var c := rules[(a, b)];
    StepPair(a, b, rules);
    assert Grow([a, b], rules, n + 1) == Grow([a, c] + [c, b][1..], rules, n);
    GrowGlue([a, c], [c, b], rules, n);
    var left, right := Grow([a, c], rules, n), Grow([c, b], rules, n);
    assert (left + right[1..])[1..] == left[1..] + right[1..];
  }

  /** One round on a pair with a rule puts the inserted letter between
      the two. */
  lemma StepPair(a: char, b: char, rules: Rules)
    requires (a, b) in rules
    ensures Step([a, b], rules) == [a, rules[(a, b)]] + [rules[(a, b)], b][1..]
  {
    assert [a, b][1..] == [b];
  }

  /** A pair that cannot grow keeps only its second letter after the
      first. */
  lemma PairGrowStuck(a: char, b: char, rules: Rules, n: nat)
    requires (a, b) !in rules || n == 0
    ensures Grow([a, b], rules, n)[1..] == [b]
  {
    if (a, b) !in rules {
      GrowStuck(a, b, rules, n);
    }
  }

  /** The counts of a pair are the letters it grows into, without its first
      letter. */
  lemma {:induction false} PairCountsMeaning(a: char, b: char, rules: Rules, steps: nat)
    requires Upper(b) && ValidRules(rules)
    ensures PairCounts(a, b, rules, steps) == Tally(Grow([a, b], rules, steps)[1..])
    decreases steps
  {
    if (a, b) in rules && steps > 0 {
      var c := rules[(a, b)];
      PairCountsMeaning(a, c, rules, steps - 1);
      PairCountsMeaning(c, b, rules, steps - 1);
      PairGrowSplit(a, b, rules, steps - 1);
      TallyAppend(Grow([a, c], rules, steps - 1)[1..], Grow([c, b], rules, steps - 1)[1..]);
    } else {
      PairGrowStuck(a, b, rules, steps);
      TallyOne(b);
    }
  }

  /** A pair with no rule, or with no rounds left, counts its second letter
      once. */
  lemma PairCountsStuck(a: char, b: char, rules: Rules, steps: nat)
    requires Upper(b) && ValidRules(rules)
    requires (a, b) !in rules || steps == 0
    ensures forall i :: 0 <= i < 26 ==> PairCounts(a, b, rules, steps)[i] == (if i == b as int - 'A' as int then 1 else 0)
  {
  }

  /** The counts of a pair add up to the letters it grows into, less one. */
  lemma PairCountsTotal(a: char, b: char, rules: Rules, steps: nat)
    requires Upper(a) && Upper(b) && ValidRules(rules)
    ensures Sum(PairCounts(a, b, rules, steps)) == |Grow([a, b], rules, steps)| - 1
  {
    PairCountsMeaning(a, b, rules, steps);
    var g := Grow([a, b], rules, steps);
    assert AllUpper([a, b]);
    assert AllUpper(g[1..]) by {
      forall i | 0 <= i < |g[1..]| ensures Upper(g[1..][i]) {
        assert g[1..][i] == g[i + 1];
      }
    }
    TallyTotal(g[1..]);
  }

  /** The template grown pair by pair: the first letter and the counts of
      every adjacent pair are the letters of the grown template. */
  lemma PrefixGrows(template: seq<char>, rules: Rules, steps: nat, i: nat)
    requires i + 1 < |template|
    ensures Grow(template[..i + 2], rules, steps)
      == Grow(template[..i + 1], rules, steps) + Grow([template[i], template[i + 1]], rules, steps)[1..]
  {
    assert template[..i + 2] == template[..i + 1] + [template[i], template[i + 1]][1..];
    GrowGlue(template[..i + 1], [template[i], template[i + 1]], rules, steps);
  }

  /** The memo table of `expand_chars`, for one set of rules. */
  class Cache {
    const rules: Rules
    var entries: map<((char, char), nat), seq<nat>>

    /** Every entry holds what the recursion computes without the cache. */
    predicate Valid()
      reads this
    {
      ValidRules(rules) &&
      forall key :: key in entries ==> Upper(key.0.1) && entries[key] == PairCounts(key.0.0, key.0.1, rules, key.1)
    }

    constructor(rules: Rules)
      requires ValidRules(rules)
      ensures Valid() && this.rules == rules && entries == map[]
    {
      this.rules := rules;
      entries := map[];
    }

    /** `expand_chars`: the counts of the pair `(a, b)` after `steps`
        rounds, filling the cache on the way. */
    method ExpandChars(a: char, b: char, steps: nat) returns (r: seq<nat>)
      requires Valid() && Upper(b)
      modifies this
      ensures Valid() && r == PairCounts(a, b, rules, steps)
      ensures old(entries).Keys <= entries.Keys && ((a, b), steps) in entries
      decreases steps
    {
      var key := ((a, b), steps);
      if key !in entries {
        if (a, b) in rules && steps > 0 {
          var insertion := rules[(a, b)];
          var part1 := ExpandChars(a, insertion, steps - 1);
          var part2 := ExpandChars(insertion, b, steps - 1);
          entries := entries[key := AddCounts(part1, part2)];
        } else {
          entries := entries[key := Unit(b)];
        }
      }
      r := entries[key];
    }

    /** `expand`: the first letter counted once plus the counts of every
        adjacent pair; `None` for an empty template. */
    method Expand(template: seq<char>, steps: nat) returns (r: Option<seq<nat>>)
      requires Valid() && AllUpper(template)
      modifies this
      ensures Valid() && old(entries).Keys <= entries.Keys
      ensures template == [] ==> r.None?
      ensures template != [] ==> r == Some(Tally(Grow(template, rules, steps)))
    {
      if template == [] {
        return None;
      }
      var result := Unit(template[0]);
      TallyFirst(template, rules, steps);
      var i := 0;
      while i + 1 < |template|
        invariant Valid() && old(entries).Keys <= entries.Keys
        invariant i < |template|
        invariant result == Tally(Grow(template[..i + 1], rules, steps))
      {
        var counts := ExpandChars(template[i], template[i + 1], steps);
        TallyNextPair(template, rules, steps, i);
        result := AddCounts(counts, result);
        i := i + 1;
      }
      assert template[..i + 1] == template;
      return Some(result);
    }
  }

  /** Before `expand`'s loop: the first letter alone grows into itself. */
  lemma TallyFirst(template: seq<char>, rules: Rules, steps: nat)
    requires template != []
    ensures Unit(template[0]) == Tally(Grow(template[..1], rules, steps))
  {
    GrowSingle(template[0], rules, steps);
    assert template[..1] == [template[0]];
    TallyOne(template[0]);
  }

  /** One step of `expand`'s loop: adding the counts of the next pair to
      the counts so far gives the counts of the prefix one letter longer. */
  lemma TallyNextPair(template: seq<char>, rules: Rules, steps: nat, i: nat)
    requires AllUpper(template) && ValidRules(rules) && i + 1 < |template|
    ensures AddCounts(PairCounts(template[i], template[i + 1], rules, steps), Tally(Grow(template[..i + 1], rules, steps)))
      == Tally(Grow(template[..i + 2], rules, steps))
  {
    var rest := Grow([template[i], template[i + 1]], rules, steps)[1..];
    PairCountsMeaning(template[i], template[i + 1], rules, steps);
    PrefixGrows(template, rules, steps, i);
    TallyAppend(Grow(template[..i + 1], rules, steps), rest);
    AddCountsComm(PairCounts(template[i], template[i + 1], rules, steps), Tally(Grow(template[..i + 1], rules, steps)));
  }

  /** The counts `expand` returns add up to the length of the grown
      template. */
  lemma ExpandTotal(template: seq<char>, rules: Rules, steps: nat)
    requires AllUpper(template) && ValidRules(rules)
    ensures Sum(Tally(Grow(template, rules, steps))) == |Grow(template, rules, steps)|
  {
    TallyTotal(Grow(template, rules, steps));
  }

  // ---------------------------------------------------------------------
  // The answer

  /** The largest non-zero count, if any. */
  function MaxNonZero(c: seq<nat>): (r: Option<nat>)
    ensures r.None? <==> forall i :: 0 <= i < |c| ==> c[i] == 0
    ensures r.Some? ==> r.value != 0 && r.value in c && forall i :: 0 <= i < |c| ==> c[i] <= r.value
  {
    if c == [] then None
    else
      var rest := MaxNonZero(c[1..]);
      assert forall i :: 1 <= i < |c| ==> c[i] == c[1..][i - 1];
      if c[0] == 0 then rest
      else if rest.Some? && rest.value > c[0] then rest
      else Some(c[0])
  }

  /** The smallest non-zero count, if any. */
  function MinNonZero(c: seq<nat>): (r: Option<nat>)
    ensures r.None? <==> forall i :: 0 <= i < |c| ==> c[i] == 0
    ensures r.Some? ==> r.value != 0 && r.value in c && forall i :: 0 <= i < |c| && c[i] != 0 ==> r.value <= c[i]
  {
    if c == [] then None
    else
      var rest := MinNonZero(c[1..]);
      assert forall i :: 1 <= i < |c| ==> c[i] == c[1..][i - 1];
      if c[0] == 0 then rest
      else if rest.Some? && rest.value < c[0] then rest
      else Some(c[0])
  }

  /** The greatest non-zero count minus the least one: no answer when every
      count is zero. */
  function Spread(c: seq<nat>): (r: Option<nat>)
    ensures r.None? <==> forall i :: 0 <= i < |c| ==> c[i] == 0
  {
    match (MaxNonZero(c), MinNonZero(c))
    case (Some(hi), Some(lo)) =>
      Some(hi - lo)
    case _ => None
  }

  /** The spread is the largest difference between two non-zero counts,
      and it is attained. */
  lemma SpreadIsLargestDifference(c: seq<nat>)
    requires Spread(c).Some?
    ensures var d := Spread(c).value;
      (exists i, j :: 0 <= i < |c| && 0 <= j < |c| && c[i] != 0 && c[j] != 0 && c[i] == c[j] + d) &&
      (forall i, j :: 0 <= i < |c| && 0 <= j < |c| && c[i] != 0 && c[j] != 0 ==> c[i] <= c[j] + d)
  {
    var hi, lo := MaxNonZero(c).value, MinNonZero(c).value;
    var i :| 0 <= i < |c| && c[i] == hi;
    var j :| 0 <= j < |c| && c[j] == lo;
    assert c[i] != 0 && c[j] != 0 && c[i] == c[j] + Spread(c).value;
  }

  /** `main`: parts 1 and 2 after 10 and 40 rounds, sharing one cache;
      `None` where `expand(..).unwrap()` panics on an empty template. */
  method Solve(template: seq<char>, rules: Rules) returns (r: Option<(Option<nat>, Option<nat>)>)
    requires AllUpper(template) && ValidRules(rules)
    ensures template == [] <==> r.None?
    ensures r.Some? ==>
      r.value == (Spread(Tally(Grow(template, rules, 10))), Spread(Tally(Grow(template, rules, 40))))
  {
    var cache := new Cache(rules);
    var part1 := cache.Expand(template, 10);
    if part1.None? {
      return None;
    }
    var part2 := cache.Expand(template, 40);
    return Some((Spread(part1.value), Spread(part2.value)));
  }
}
