/** Text helpers shared by the days that read numbers: Rust's `str::split`
    on a non-empty pattern and `str::parse` of an integer type. */
module Text {
  import opened Common

  const I64Min: int := -0x8000_0000_0000_0000
  const I64Max: int := 0x7fff_ffff_ffff_ffff

  predicate AllDigits(s: string)
  {
    forall i :: 0 <= i < |s| ==> IsDigit(s[i])
  }

  /** `sep` occurs in `s` at position `i`. */
  predicate OccursAt(s: string, sep: string, i: nat)
  {
    i + |sep| <= |s| && s[i..i + |sep|] == sep
  }

  /** The first position from `from` on where `sep` occurs. */
  function FindFrom(s: string, sep: string, from: nat): (r: Option<nat>)
    requires from <= |s|
    ensures r.Some? ==> from <= r.value && OccursAt(s, sep, r.value)
    ensures r.Some? ==> forall j :: from <= j < r.value ==> !OccursAt(s, sep, j)
    ensures r.None? ==> forall j :: from <= j <= |s| ==> !OccursAt(s, sep, j)
    decreases |s| - from
  {
    if OccursAt(s, sep, from) then Some(from)
    else if from == |s| then None
    else FindFrom(s, sep, from + 1)
  }

  /** `s.split(sep)`: the pieces between the occurrences of `sep`, found
      from the left without overlapping. */
  function Split(s: string, sep: string): (r: seq<string>)
    requires |sep| > 0
    ensures |r| >= 1
    decreases |s|
  {
    match FindFrom(s, sep, 0)
    case None => [s]
    case Some(i) => [s[..i]] + Split(s[i + |sep|..], sep)
  }

  /** The pieces put back together with `sep` between them. */
  function Join(parts: seq<string>, sep: string): string
    requires |parts| >= 1
  {
    if |parts| == 1 then parts[0] else parts[0] + sep + Join(parts[1..], sep)
  }

  /** Splitting loses nothing: joining the pieces gives the text back. */
  lemma {:induction false} SplitJoin(s: string, sep: string)
    requires |sep| > 0
    ensures Join(Split(s, sep), sep) == s
    decreases |s|
  {
    var f := FindFrom(s, sep, 0);
    if f.Some? {
      var i := f.value;
      var rest := s[i + |sep|..];
      SplitJoin(rest, sep);
      JoinCons(s[..i], Split(rest, sep), sep);
      SliceAround(s, i, |sep|);
    }
  }

  lemma JoinCons(a: string, parts: seq<string>, sep: string)
    requires |parts| >= 1
    ensures Join([a] + parts, sep) == a + sep + Join(parts, sep)
  {
    assert ([a] + parts)[1..] == parts;
  }

  lemma SliceAround(s: string, i: nat, n: nat)
    requires i + n <= |s|
    ensures s == s[..i] + s[i..i + n] + s[i + n..]
  {
  }

  /** Text in which `sep` does not occur is one piece. */
  lemma SplitNone(s: string, sep: string)
    requires |sep| > 0 && forall j :: 0 <= j <= |s| ==> !OccursAt(s, sep, j)
    ensures Split(s, sep) == [s]
  {
  }

  /** A piece before a separator: `a + sep + b`, with no character of `a`
      the first of `sep`, splits into `a` and the pieces of `b`. */
  lemma SplitFirst(a: string, sep: string, b: string)
    requires |sep| > 0 && forall j :: 0 <= j < |a| ==> a[j] != sep[0]
    ensures Split(a + sep + b, sep) == [a] + Split(b, sep)
  {
    var s := a + sep + b;
    assert OccursAt(s, sep, |a|) by {
      assert s[|a|..|a| + |sep|] == sep;
    }
    forall j | 0 <= j < |a|
      ensures !OccursAt(s, sep, j)
    {
      if j + |sep| <= |s| {
        assert s[j..j + |sep|][0] == a[j];
      }
    }
    var i := FindFrom(s, sep, 0).value;
    assert i == |a|;
    assert s[..i] == a && s[i + |sep|..] == b;
  }

  /** Rust's `str::parse` for an integer type whose values are `lo..=hi`:
      an optional `+`, or a `-` when the type is signed, then one or more
      decimal digits and nothing else, with a value in range. */
  function ParseInt(s: string, lo: int, hi: int): (r: Option<int>)
    ensures r.Some? ==> lo <= r.value <= hi
    ensures r.Some? ==> |s| > 0 && forall i :: 0 < i < |s| ==> IsDigit(s[i])
    ensures r.Some? && r.value < 0 ==> s[0] == '-'
    ensures r.Some? ==> s[0] == '+' || s[0] == '-' || IsDigit(s[0])
  {
    var neg := |s| > 0 && s[0] == '-' && lo < 0;
    var t := if |s| > 0 && (s[0] == '+' || neg) then s[1..] else s;
    if t == [] || !AllDigits(t) then None
    else
      var d: int := DigitsValue(t);
      var v := if neg then -d else d;
      if lo <= v <= hi then Some(v) else None
  }

  function ParseI64(s: string): (r: Option<int>)
    ensures r.Some? ==> I64Min <= r.value <= I64Max
  {
    ParseInt(s, I64Min, I64Max)
  }

  /** Parsing reads back what `{}` formatting writes, for every value of
      the type. */
  lemma ParseIntOfIntToString(v: int, lo: int, hi: int)
    requires lo <= v <= hi
    ensures ParseInt(IntToString(v), lo, hi) == Some(v)
  {
    DigitsValueOfNatToString(Abs(v));
    var d := NatToString(Abs(v));
    assert IsDigit(d[0]);
    if v < 0 {
      assert IntToString(v)[1..] == d;
    }
  }

  /** Text without the character `c` has no occurrence of `[c]`. */
  lemma NoOccurrence(s: string, c: char)
    requires forall i :: 0 <= i < |s| ==> s[i] != c
    ensures forall j :: 0 <= j <= |s| ==> !OccursAt(s, [c], j)
  {
    forall j | 0 <= j <= |s|
      ensures !OccursAt(s, [c], j)
    {
      if j < |s| {
        assert s[j..j + 1][0] == s[j];
      }
    }
  }
}
