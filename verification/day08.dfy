/** `day-08/src/main.rs`: the seven-segment search. Every line holds ten
    scrambled digit patterns and four output words; a wiring is one of the
    orderings of the letters `a` to `g`, and it is accepted when every
    pattern, decoded through it, is one of the ten segment sets of a
    display. The first accepted wiring, in the order `itertools` lists
    the orderings, reads the output digits. */
module Day08 {
  import opened Common
  import opened Text

  // ---------------------------------------------------------------------
  // Sorting the letters of a word

  predicate Sorted(s: string)
  {
    forall i, j :: 0 <= i < j < |s| ==> s[i] <= s[j]
  }

  /** One step of the sort: `c` put before the first letter not below
      it. */
  function Insert(c: char, s: string): (r: string)
    ensures |r| == |s| + 1
  {
    if s == [] || c <= s[0] then [c] + s else [s[0]] + Insert(c, s[1..])
  }

  /** `sorted()` on the letters of a word. */
  function Sort(s: string): (r: string)
    ensures |r| == |s|
  {
    if s == [] then [] else Insert(s[0], Sort(s[1..]))
  }

  /** Inserting into a sorted word keeps it sorted. */
  lemma {:induction false} InsertSorted(c: char, s: string)
    requires Sorted(s)
    ensures Sorted(Insert(c, s))
  {
    if s != [] && c > s[0] {
      InsertSorted(c, s[1..]);
      InsertAbove(c, s[1..], s[0]);
      var t := Insert(c, s[1..]);
      var r := [s[0]] + t;
      forall i, j | 0 <= i < j < |r|
        ensures r[i] <= r[j]
      {
        assert r[j] == t[j - 1];
        if i > 0 {
          assert r[i] == t[i - 1];
        }
      }
    }
  }

  /** A lower bound of the letters and of `c` bounds the insertion. */
  lemma {:induction false} InsertAbove(c: char, s: string, x: char)
    requires x <= c && forall k :: 0 <= k < |s| ==> x <= s[k]
    ensures forall k :: 0 <= k < |s| + 1 ==> x <= Insert(c, s)[k]
  {
    if s != [] && c > s[0] {
      InsertAbove(c, s[1..], x);
      var t := Insert(c, s[1..]);
      forall k | 0 <= k < |s| + 1
        ensures x <= Insert(c, s)[k]
      {
        if k > 0 {
          assert Insert(c, s)[k] == t[k - 1];
        }
      }
    }
  }

  /** Inserting adds the letter and keeps the others. */
  lemma {:induction false} InsertCount(c: char, s: string)
    ensures multiset(Insert(c, s)) == multiset(s) + multiset{c}
  {
    if s != [] && c > s[0] {
      InsertCount(c, s[1..]);
      assert s == [s[0]] + s[1..];
    }
  }

  /** The sort orders the letters and keeps each of them. */
  lemma {:induction false} SortSorted(s: string)
    ensures Sorted(Sort(s)) && multiset(Sort(s)) == multiset(s)
  {
    if s != [] {
      SortSorted(s[1..]);
      InsertSorted(s[0], Sort(s[1..]));
      InsertCount(s[0], Sort(s[1..]));
      assert s == [s[0]] + s[1..];
    }
  }

  /** A sorted word is fixed by its letters: two sorted words with the same
      letters are the same word. */
  lemma {:induction false} SortedUnique(a: string, b: string)
    requires Sorted(a) && Sorted(b) && multiset(a) == multiset(b)
    ensures a == b
    decreases |a|
  {
    assert |a| == |multiset(a)| == |b|;
    if a != [] {
      assert a[0] in multiset(b);
      var i :| 0 <= i < |b| && b[i] == a[0];
      assert b[0] in multiset(a);
      var j :| 0 <= j < |a| && a[j] == b[0];
      assert a[0] == b[0] by {
        if j > 0 {
          assert a[0] <= a[j];
        }
        if i > 0 {
          assert b[0] <= b[i];
        }
      }
      SortedTail(a);
      SortedTail(b);
      MultisetTail(a);
      MultisetTail(b);
      SortedUnique(a[1..], b[1..]);
    }
  }

  lemma MultisetTail(s: string)
    requires s != []
    ensures multiset(s[1..]) == multiset(s) - multiset{s[0]}
  {
    assert s == [s[0]] + s[1..];
  }

  lemma SortedTail(s: string)
    requires Sorted(s) && s != []
    ensures Sorted(s[1..])
  {
    forall i, j | 0 <= i < j < |s| - 1
      ensures s[1..][i] <= s[1..][j]
    {
      assert s[1..][i] == s[i + 1] && s[1..][j] == s[j + 1];
    }
  }

  /** Sorting a sorted word leaves it as it is. */
  lemma SortFixed(s: string)
    requires Sorted(s)
    ensures Sort(s) == s
  {
    SortSorted(s);
    SortedUnique(Sort(s), s);
  }

  // ---------------------------------------------------------------------
  // Decoding a word through a wiring

  const Letters: string := "abcdefg"

  /** `position`: the first index of `c` in `a`. */
  function IndexOf(a: string, c: char): (i: nat)
    requires c in a
    ensures i < |a| && a[i] == c
    ensures forall j :: 0 <= j < i ==> a[j] != c
  {
    if a[0] == c then 0 else 1 + IndexOf(a[1..], c)
  }

  /** Every letter of `word` occurs in `a`, so that its `position` exists. */
  predicate Over(word: string, a: string)
  {
    forall i :: 0 <= i < |word| ==> word[i] in a
  }

  /** Each letter of `word` replaced by the letter of `b` at its position
      in `a`. */
  function Translate(word: string, a: string, b: string): (r: string)
    requires Over(word, a) && |a| <= |b|
    ensures |r| == |word|
  {
    seq(|word|, i requires 0 <= i < |word| => b[IndexOf(a, word[i])])
  }

  /** `decode`: the word translated from `a` to `b`, sorted. */
  function Decode(word: string, a: string, b: string): (r: string)
    requires Over(word, a) && |a| <= |b|
    ensures |r| == |word|
  {
    Sort(Translate(word, a, b))
  }

  /** A decoded word is sorted and holds the translated letters. */
  lemma DecodeSorted(word: string, a: string, b: string)
    requires Over(word, a) && |a| <= |b|
    ensures Sorted(Decode(word, a, b))
    ensures multiset(Decode(word, a, b)) == multiset(Translate(word, a, b))
  {
    SortSorted(Translate(word, a, b));
  }

  /** Through the wiring that changes nothing, decoding only sorts. */
  lemma DecodeUnwired(word: string)
    requires Over(word, Letters)
    ensures Decode(word, Letters, Letters) == Sort(word)
  {
    assert Translate(word, Letters, Letters) == word;
  }

  /** The order of a word's letters does not matter to its decoding. */
  lemma {:induction false} DecodeLetters(w1: string, w2: string, a: string, b: string)
    requires Over(w1, a) && Over(w2, a) && |a| <= |b|
    requires multiset(w1) == multiset(w2)
    ensures Decode(w1, a, b) == Decode(w2, a, b)
  {
    TranslateLetters(w1, w2, a, b);
    DecodeSorted(w1, a, b);
    DecodeSorted(w2, a, b);
    SortedUnique(Decode(w1, a, b), Decode(w2, a, b));
  }

  lemma {:induction false} TranslateLetters(w1: string, w2: string, a: string, b: string)
    requires Over(w1, a) && Over(w2, a) && |a| <= |b|
    requires multiset(w1) == multiset(w2)
    ensures multiset(Translate(w1, a, b)) == multiset(Translate(w2, a, b))
    decreases |w1|
  {
    assert |w1| == |multiset(w1)| == |w2|;
    if w1 != [] {
      assert w1[0] in multiset(w2);
      var i :| 0 <= i < |w2| && w2[i] == w1[0];
      TranslateRemove(w1, 0, a, b);
      TranslateRemove(w2, i, a, b);
      MultisetRemove(w1, 0);
      MultisetRemove(w2, i);
      TranslateLetters(Remove(w1, 0), Remove(w2, i), a, b);
      MultisetRemove(Translate(w1, a, b), 0);
      MultisetRemove(Translate(w2, a, b), i);
      assert Translate(w1, a, b)[0] == Translate(w2, a, b)[i];
    }
  }

  /** Translation goes letter by letter: dropping a letter before
      translating drops its translation. */
  lemma TranslateRemove(w: string, i: nat, a: string, b: string)
    requires Over(w, a) && |a| <= |b| && i < |w|
    ensures Over(Remove(w, i), a)
    ensures Translate(Remove(w, i), a, b) == Remove(Translate(w, a, b), i)
  {
    var r := Remove(w, i);
    forall k | 0 <= k < |r|
      ensures r[k] == w[if k < i then k else k + 1]
    {
    }
  }

  lemma MultisetRemove(w: string, i: nat)
    requires i < |w|
    ensures multiset(Remove(w, i)) == multiset(w) - multiset{w[i]}
    ensures multiset(w) == multiset(Remove(w, i)) + multiset{w[i]}
  {
    assert w == w[..i] + [w[i]] + w[i + 1..];
  }

  lemma OverSlice(w: string, a: string, i: nat, j: nat)
    requires Over(w, a) && i <= j <= |w|
    ensures Over(w[i..j], a)
  {
    forall k | 0 <= k < j - i
      ensures w[i..j][k] in a
    {
      assert w[i..j][k] == w[i + k];
    }
  }

  /** Translation goes letter by letter. */
  lemma TranslateAppend(x: string, y: string, a: string, b: string)
    requires Over(x, a) && Over(y, a) && |a| <= |b|
    ensures Over(x + y, a)
    ensures Translate(x + y, a, b) == Translate(x, a, b) + Translate(y, a, b)
  {
    assert Over(x + y, a) by {
      forall i | 0 <= i < |x + y|
        ensures (x + y)[i] in a
      {
        if i >= |x| {
          assert (x + y)[i] == y[i - |x|];
        }
      }
    }
  }

  // ---------------------------------------------------------------------
  // The decode table

  /** The pairs the `HashMap` is collected from. */
  const DecodeTable: seq<(string, nat)> := [
    ("abcefg", 0), ("cf", 1), ("acdeg", 2), ("acdfg", 3), ("bcdf", 4),
    ("abdfg", 5), ("abdefg", 6), ("acf", 7), ("abcdefg", 8), ("abcdfg", 9)]

  /** A table of pairs of a segment set and its digit. */
  type Table = seq<(string, nat)>

  /** `get` on the table: the digit paired with `w`, if any. */
  function Lookup(table: Table, w: string): (r: Option<nat>)
    ensures r.Some? ==> exists k :: 0 <= k < |table| && table[k] == (w, r.value)
    ensures r.None? ==> forall k :: 0 <= k < |table| ==> table[k].0 != w
  {
    LookupFrom(table, w, 0)
  }

  function LookupFrom(table: Table, w: string, i: nat): (r: Option<nat>)
    requires i <= |table|
    ensures r.Some? ==> exists k :: i <= k < |table| && table[k] == (w, r.value)
    ensures r.None? ==> forall k :: i <= k < |table| ==> table[k].0 != w
    decreases |table| - i
  {
    if i == |table| then None
    else if table[i].0 == w then Some(table[i].1)
    else LookupFrom(table, w, i + 1)
  }

  /** The table pairs the ten segment sets with the digits 0 to 9, each
      set written sorted over the letters `a` to `g`. */
  lemma TableDigits()
    ensures |DecodeTable| == 10
    ensures forall k :: 0 <= k < 10 ==> DecodeTable[k].1 == k
    ensures forall k :: 0 <= k < 10 ==> Sorted(DecodeTable[k].0) && Segments(DecodeTable[k].0)
  {
  }

  /** No two digits share a segment set, so the table is one to one and
      `get` finds each digit's set. */
  lemma TableDistinct()
    ensures forall j, k :: 0 <= j < k < 10 ==> DecodeTable[j].0 != DecodeTable[k].0
    ensures forall k :: 0 <= k < 10 ==> Lookup(DecodeTable, DecodeTable[k].0) == Some(k)
  {
    TableDigits();
    forall j, k | 0 <= j < k < 10
      ensures DecodeTable[j].0 != DecodeTable[k].0
    {
    }
  }

  /** The lengths part one counts. */
  predicate Easy(n: nat)
  {
    n == 2 || n == 3 || n == 4 || n == 7
  }

  /** A segment set has one of those lengths exactly when it shows a 1, a 4,
      a 7 or an 8, and no other set has the same length. */
  lemma EasyDigits(k: nat)
    requires k < 10
    ensures Easy(|DecodeTable[k].0|) <==> k in {1, 4, 7, 8}
    ensures Easy(|DecodeTable[k].0|) ==> forall j :: 0 <= j < 10 && |DecodeTable[j].0| == |DecodeTable[k].0| ==> j == k
  {
  }

  // ---------------------------------------------------------------------
  // Reading one line through one wiring

  /** A wiring: seven letters among which every letter `a` to `g`
      occurs, so the letters `a` to `g` in some order. */
  predicate Wiring(p: string)
  {
    |p| == |Letters| && forall c :: Segment(c) ==> c in p
  }

  /** An ordering of the letters is a wiring. */
  lemma OrderingWiring(p: string)
    requires multiset(p) == multiset(Letters)
    ensures Wiring(p)
  {
    assert |p| == |multiset(p)| == |Letters|;
    forall c | Segment(c)
      ensures c in p
    {
      assert Letters[(c as int) - ('a' as int)] == c;
      assert c in multiset(Letters);
    }
  }

  lemma WiringOver(word: string, p: string)
    requires Wiring(p) && Segments(word)
    ensures Over(word, p)
  {
  }

  predicate AllSegments(words: seq<string>)
  {
    forall k :: 0 <= k < |words| ==> Segments(words[k])
  }

  /** A letter of a segment, `a` to `g`. */
  predicate Segment(c: char)
  {
    'a' <= c <= 'g'
  }

  /** Every letter of `word` is a segment's. */
  predicate Segments(word: string)
  {
    forall i :: 0 <= i < |word| ==> Segment(word[i])
  }

  /** The segment letters are those of `abcdefg`. */
  lemma LettersOver(word: string)
    requires Segments(word)
    ensures Over(word, Letters)
  {
    forall i | 0 <= i < |word|
      ensures word[i] in Letters
    {
      var c := word[i];
      assert Letters[(c as int) - ('a' as int)] == c;
    }
  }

  /** The digit a word decodes to, if its decoding is in the table. */
  function Digit(table: Table, word: string, p: string): Option<nat>
    requires Wiring(p) && Segments(word)
  {
    WiringOver(word, p);
    Lookup(table, Decode(word, p, Letters))
  }

  /** A word's digit is the one paired with the word it decodes to; it
      has none when no segment set of the table is that word. */
  lemma DigitDecodes(table: Table, word: string, p: string)
    requires Wiring(p) && Segments(word)
    ensures Over(word, p)
    ensures Digit(table, word, p).Some? ==> exists k :: 0 <= k < |table| && table[k] == (Decode(word, p, Letters), Digit(table, word, p).value)
    ensures Digit(table, word, p).None? ==> forall k :: 0 <= k < |table| ==> table[k].0 != Decode(word, p, Letters)
  {
    WiringOver(word, p);
  }

  /** Through the decode table, a word's digit is a digit whose segment set
      the word decodes to. */
  lemma DigitOfTable(word: string, p: string)
    requires Wiring(p) && Segments(word)
    ensures Over(word, p)
    ensures Digit(DecodeTable, word, p).Some? ==> var d := Digit(DecodeTable, word, p).value;
      d < 10 && DecodeTable[d].0 == Decode(word, p, Letters)
  {
    DigitDecodes(DecodeTable, word, p);
    TableDigits();
  }

  /** The digit of every word through the wiring. */
  function Digits(table: Table, words: seq<string>, p: string): (r: seq<Option<nat>>)
    requires Wiring(p) && AllSegments(words)
    ensures |r| == |words|
    ensures forall k :: 0 <= k < |words| ==> r[k] == Digit(table, words[k], p)
  {
    seq(|words|, k requires 0 <= k < |words| => Digit(table, words[k], p))
  }

  lemma DigitsPrefix(table: Table, words: seq<string>, p: string, n: nat)
    requires Wiring(p) && AllSegments(words) && n <= |words|
    ensures AllSegments(words[..n]) && Digits(table, words[..n], p) == Digits(table, words, p)[..n]
  {
  }

  predicate AllSome(ds: seq<Option<nat>>)
  {
    forall k :: 0 <= k < |ds| ==> ds[k].Some?
  }

  /** The wiring is accepted: every pattern decodes to a table entry. */
  predicate Accepted(table: Table, patterns: seq<string>, p: string)
    requires Wiring(p) && AllSegments(patterns)
  {
    AllSome(Digits(table, patterns, p))
  }

  /** The loop that reads digits as a decimal number, most significant
      first; `None` at the first digit missing. */
  function Decimal(ds: seq<Option<nat>>): Option<nat>
  {
    if ds == [] then Some(0)
    else
      match (Decimal(ds[..|ds| - 1]), ds[|ds| - 1])
      case (Some(v), Some(d)) => Some(10 * v + d)
      case _ => None
  }

  /** The decimal value of digits, most significant first. */
  function DecimalValue(ds: seq<nat>): nat
  {
    if ds == [] then 0 else 10 * DecimalValue(ds[..|ds| - 1]) + ds[|ds| - 1]
  }

  /** Digits read to a number exactly when none is missing. */
  lemma {:induction false} DecimalSome(ds: seq<Option<nat>>)
    ensures Decimal(ds).Some? <==> AllSome(ds)
  {
    if ds != [] {
      DecimalSome(ds[..|ds| - 1]);
    }
  }

  /** Digits all present read as their decimal value. */
  lemma {:induction false} DecimalOfValues(ds: seq<nat>)
    ensures Decimal(seq(|ds|, k requires 0 <= k < |ds| => Some(ds[k]))) == Some(DecimalValue(ds))
  {
    if ds != [] {
      var n := |ds| - 1;
      DecimalOfValues(ds[..n]);
      assert seq(|ds|, k requires 0 <= k < |ds| => Some(ds[k]))[..n] == seq(n, k requires 0 <= k < n => Some(ds[..n][k]));
    }
  }

  /** A reading's last decimal digit is the last digit read, and the
      number of the digits before it is the rest. */
  lemma DecimalLast(ds: seq<Option<nat>>)
    requires ds != [] && Decimal(ds).Some?
    requires forall k :: 0 <= k < |ds| && ds[k].Some? ==> ds[k].value < 10
    ensures var v := Decimal(ds).value; var n := |ds| - 1;
      ds[n] == Some(v % 10) && Decimal(ds[..n]) == Some(v / 10)
  {
    var n := |ds| - 1;
    var v := Decimal(ds[..n]).value;
    var d := ds[n].value;
    var r := Decimal(ds).value;
    assert r == 10 * v + d;
    DivUnique(r, 10, v, d);
  }

  /** One more digit read: ten times the number so far plus the digit. */
  lemma DecimalSnoc(ds: seq<Option<nat>>, k: nat)
    requires k < |ds| && Decimal(ds[..k]).Some? && ds[k].Some?
    ensures Decimal(ds[..k + 1]) == Some(10 * Decimal(ds[..k]).value + ds[k].value)
  {
    assert ds[..k + 1][..k] == ds[..k];
  }

  function Pow10(n: nat): (r: nat)
    ensures r >= 1
  {
    if n == 0 then 1 else 10 * Pow10(n - 1)
  }

  /** A number read from `n` digits is below `10^n`. */
  lemma {:induction false} DecimalBound(ds: seq<Option<nat>>)
    requires Decimal(ds).Some?
    requires forall k :: 0 <= k < |ds| && ds[k].Some? ==> ds[k].value < 10
    ensures Decimal(ds).value < Pow10(|ds|)
  {
    if ds != [] {
      DecimalBound(ds[..|ds| - 1]);
    }
  }

  /** The output words read through the wiring. */
  function Reading(table: Table, outputs: seq<string>, p: string): Option<nat>
    requires Wiring(p) && AllSegments(outputs)
  {
    Decimal(Digits(table, outputs, p))
  }

  /** The closure for one wiring. */
  function Attempt(table: Table, patterns: seq<string>, outputs: seq<string>, p: string): Option<nat>
    requires Wiring(p) && AllSegments(patterns) && AllSegments(outputs)
  {
    if Accepted(table, patterns, p) then Reading(table, outputs, p) else None
  }

  /** The closure for one wiring: `?` gives up on the first pattern not
      in the table, then the outputs are read digit by digit. */
  method TryWiring(table: Table, patterns: seq<string>, outputs: seq<string>, p: string) returns (r: Option<nat>)
    requires Wiring(p) && AllSegments(patterns) && AllSegments(outputs)
    ensures r == Attempt(table, patterns, outputs, p)
  {
    var ok := CheckPatterns(table, patterns, p);
    if !ok {
      return None;
    }
    r := ReadOutputs(table, outputs, p);
  }

  /** The loop over the patterns. */
  method CheckPatterns(table: Table, patterns: seq<string>, p: string) returns (ok: bool)
    requires Wiring(p) && AllSegments(patterns)
    ensures ok == Accepted(table, patterns, p)
  {
    ghost var pats := Digits(table, patterns, p);
    for k := 0 to |patterns|
      invariant forall j :: 0 <= j < k ==> pats[j].Some?
    {
      var d := Digit(table, patterns[k], p);
      if d.None? {
        return false;
      }
    }
    return true;
  }

  /** The loop that reads the outputs: ten times the number so far plus
      the next digit. */
  method ReadOutputs(table: Table, outputs: seq<string>, p: string) returns (r: Option<nat>)
    requires Wiring(p) && AllSegments(outputs)
    ensures r == Reading(table, outputs, p)
  {
    ghost var outs := Digits(table, outputs, p);
    var number := 0;
    for k := 0 to |outputs|
      invariant Decimal(outs[..k]) == Some(number)
    {
      number := number * 10;
      var digit := Digit(table, outputs[k], p);
      if digit.None? {
        DecimalSome(outs);
        return None;
      }
      DecimalSnoc(outs, k);
      number := number + digit.value;
    }
    assert outs[..|outputs|] == outs;
    return Some(number);
  }

  /** Under a wiring that reads the outputs, an output word has a length
      part one counts exactly when it shows a 1, a 4, a 7 or an 8. */
  lemma EasyOutputs(outputs: seq<string>, p: string, k: nat)
    requires Wiring(p) && AllSegments(outputs) && k < |outputs|
    requires Reading(DecodeTable, outputs, p).Some?
    ensures Digit(DecodeTable, outputs[k], p).Some?
    ensures Easy(|outputs[k]|) <==> Digit(DecodeTable, outputs[k], p).value in {1, 4, 7, 8}
  {
    DecimalSome(Digits(DecodeTable, outputs, p));
    DigitOfTable(outputs[k], p);
    EasyDigits(Digit(DecodeTable, outputs[k], p).value);
  }

  // ---------------------------------------------------------------------
  // The orderings `permutations(7)` lists

  function Remove(s: string, i: nat): (r: string)
    requires i < |s|
    ensures |r| == |s| - 1
  {
    s[..i] + s[i + 1..]
  }

  function Prepend(c: char, ps: seq<string>): (r: seq<string>)
    ensures |r| == |ps|
    ensures forall k :: 0 <= k < |ps| ==> r[k] == [c] + ps[k]
  {
    seq(|ps|, k requires 0 <= k < |ps| => [c] + ps[k])
  }

  /** `permutations(n)` of `n` items, in its order: the orderings that
      begin with the first item, then those with the second, and so on. */
  function Permutations(s: string): seq<string>
    decreases |s|, 1, 0
  {
    if s == [] then [[]] else PermsFrom(s, 0)
  }

  function PermsFrom(s: string, i: nat): seq<string>
    requires i <= |s|
    decreases |s|, 0, |s| - i
  {
    if i == |s| then [] else Prepend(s[i], Permutations(Remove(s, i))) + PermsFrom(s, i + 1)
  }

  function Factorial(n: nat): nat
  {
    if n == 0 then 1 else n * Factorial(n - 1)
  }

  /** There are `n!` orderings of `n` items. */
  lemma {:induction false} PermutationsCount(s: string)
    ensures |Permutations(s)| == Factorial(|s|)
    decreases |s|, 1, 0
  {
    if s != [] {
      PermsFromCount(s, 0);
    }
  }

  lemma {:induction false} PermsFromCount(s: string, i: nat)
    requires i <= |s| && s != []
    ensures |PermsFrom(s, i)| == (|s| - i) * Factorial(|s| - 1)
    decreases |s|, 0, |s| - i
  {
    if i < |s| {
      var f := Factorial(|s| - 1);
      PermutationsCount(Remove(s, i));
      PermsFromCount(s, i + 1);
      PermsFromLength(s, i);
      MulSucc(|s| - i - 1, f);
    }
  }

  lemma PermsFromLength(s: string, i: nat)
    requires i < |s|
    ensures |PermsFrom(s, i)| == |Permutations(Remove(s, i))| + |PermsFrom(s, i + 1)|
  {
  }

  lemma MulSucc(m: nat, f: nat)
    ensures (m + 1) * f == f + m * f
  {
  }

  /** Every ordering listed has the items of `s`. */
  lemma {:induction false} PermutationsOf(s: string, k: nat)
    requires k < |Permutations(s)|
    ensures multiset(Permutations(s)[k]) == multiset(s)
    decreases |s|, 1, 0
  {
    if s != [] {
      PermsFromOf(s, 0, k);
    }
  }

  lemma {:induction false} PermsFromOf(s: string, i: nat, k: nat)
    requires i <= |s| && k < |PermsFrom(s, i)|
    ensures multiset(PermsFrom(s, i)[k]) == multiset(s)
    decreases |s|, 0, |s| - i
  {
    var head := Prepend(s[i], Permutations(Remove(s, i)));
    if k < |head| {
      PermutationsOf(Remove(s, i), k);
      assert s == s[..i] + [s[i]] + s[i + 1..];
    } else {
      PermsFromOf(s, i + 1, k - |head|);
    }
  }

  /** Every ordering of the items of `s` is listed. */
  lemma {:induction false} PermutationsComplete(s: string, q: string)
    requires multiset(q) == multiset(s)
    ensures q in Permutations(s)
    decreases |s|, 1, 0
  {
    assert |q| == |multiset(q)| == |s|;
    if s != [] {
      assert q[0] in multiset(s);
      var i :| 0 <= i < |s| && s[i] == q[0];
      PermsFromComplete(s, 0, i, q);
    }
  }

  lemma {:induction false} PermsFromComplete(s: string, j: nat, i: nat, q: string)
    requires j <= i < |s| && q != [] && q[0] == s[i]
    requires multiset(q) == multiset(s)
    ensures q in PermsFrom(s, j)
    decreases |s|, 0, |s| - j
  {
    if j < i {
      PermsFromComplete(s, j + 1, i, q);
    } else {
      PermsFromHead(s, i, q);
    }
  }

  /** An ordering that begins with the `i`-th item is among those
      listed for it. */
  lemma {:induction false} PermsFromHead(s: string, i: nat, q: string)
    requires i < |s| && q != [] && q[0] == s[i]
    requires multiset(q) == multiset(s)
    ensures q in PermsFrom(s, i)
    decreases |s|, 0, 0
  {
    var rest := Permutations(Remove(s, i));
    assert q[1..] in rest by {
      MultisetTail(q);
      MultisetRemove(s, i);
      PermutationsComplete(Remove(s, i), q[1..]);
    }
    PrependIn(s[i], rest, q[1..]);
    assert q == [s[i]] + q[1..];
  }

  lemma PrependIn(c: char, ps: seq<string>, t: string)
    requires t in ps
    ensures [c] + t in Prepend(c, ps)
  {
    var m :| 0 <= m < |ps| && ps[m] == t;
    assert Prepend(c, ps)[m] == [c] + t;
  }

  /** The first ordering listed is `s` itself. */
  lemma {:induction false} PermutationsFirst(s: string)
    ensures |Permutations(s)| > 0 && Permutations(s)[0] == s
    decreases |s|
  {
    if s != [] {
      PermutationsFirst(Remove(s, 0));
      assert [s[0]] + Remove(s, 0) == s;
    }
  }

  // ---------------------------------------------------------------------
  // The search and the answers

  /** The first value present, as the first item of a flattened map. */
  function FirstSome(xs: seq<Option<nat>>): (r: Option<nat>)
  {
    if xs == [] then None
    else if xs[0].Some? then xs[0]
    else FirstSome(xs[1..])
  }

  /** The first value present is found at some position, with none before
      it. */
  lemma {:induction false} FirstSomeFound(xs: seq<Option<nat>>) returns (k: nat)
    requires FirstSome(xs).Some?
    ensures k < |xs| && xs[k] == FirstSome(xs)
    ensures forall j :: 0 <= j < k ==> xs[j].None?
  {
    if xs[0].Some? {
      k := 0;
    } else {
      var k' := FirstSomeFound(xs[1..]);
      k := k' + 1;
    }
  }

  /** Any value present makes the search find one. */
  lemma {:induction false} FirstSomeAt(xs: seq<Option<nat>>, k: nat)
    requires k < |xs| && xs[k].Some?
    ensures FirstSome(xs).Some?
  {
    if k > 0 && xs[0].None? {
      FirstSomeAt(xs[1..], k - 1);
    }
  }

  /** The orderings of the letters are all wirings. */
  lemma AllWirings()
    ensures forall k :: 0 <= k < |Permutations(Letters)| ==> Wiring(Permutations(Letters)[k])
  {
    forall k | 0 <= k < |Permutations(Letters)|
      ensures Wiring(Permutations(Letters)[k])
    {
      PermutationsOf(Letters, k);
      OrderingWiring(Permutations(Letters)[k]);
    }
  }

  /** A line: its parts between the `|`, each a list of words. */
  type Entry = seq<seq<string>>

  /** Every line has the patterns and the outputs, and all their words are
      over the letters `a` to `g`. */
  predicate WellFormed(e: Entry)
  {
    |e| >= 2 && AllSegments(e[0]) && AllSegments(e[1])
  }

  /** The closure's answer for each of the wirings, in order. */
  function Attempts(table: Table, e: Entry, ps: seq<string>): (r: seq<Option<nat>>)
    requires WellFormed(e) && forall k :: 0 <= k < |ps| ==> Wiring(ps[k])
    ensures |r| == |ps|
  {
    seq(|ps|, k requires 0 <= k < |ps| => Attempt(table, e[0], e[1], ps[k]))
  }

  lemma AttemptsAt(table: Table, e: Entry, ps: seq<string>, k: nat)
    requires WellFormed(e) && forall k :: 0 <= k < |ps| ==> Wiring(ps[k])
    requires k < |ps|
    ensures Attempts(table, e, ps)[k] == Attempt(table, e[0], e[1], ps[k])
  {
  }

  /** The value of one line: the search over all orderings of the letters. */
  function LineValue(table: Table, e: Entry): Option<nat>
    requires WellFormed(e)
  {
    AllWirings();
    FirstSome(Attempts(table, e, Permutations(Letters)))
  }

  /** A line's value is what the first ordering that reads it reads, and
      no ordering before it does. */
  lemma LineValueFound(table: Table, e: Entry) returns (k: nat)
    requires WellFormed(e) && LineValue(table, e).Some?
    ensures k < |Permutations(Letters)| && Wiring(Permutations(Letters)[k])
    ensures Attempt(table, e[0], e[1], Permutations(Letters)[k]) == LineValue(table, e)
    ensures forall j :: 0 <= j < k ==> Wiring(Permutations(Letters)[j]) && Attempt(table, e[0], e[1], Permutations(Letters)[j]).None?
  {
    AllWirings();
    var ps := Permutations(Letters);
    k := FirstSomeFound(Attempts(table, e, ps));
    AttemptsAt(table, e, ps, k);
    forall j | 0 <= j < k
      ensures Attempt(table, e[0], e[1], ps[j]).None?
    {
      AttemptsAt(table, e, ps, j);
    }
  }

  /** A line has a value whenever some ordering of the letters reads it. */
  lemma LineValueExists(table: Table, e: Entry, p: string)
    requires WellFormed(e) && multiset(p) == multiset(Letters)
    requires Wiring(p) && Attempt(table, e[0], e[1], p).Some?
    ensures LineValue(table, e).Some?
  {
    AllWirings();
    PermutationsComplete(Letters, p);
    var k :| 0 <= k < |Permutations(Letters)| && Permutations(Letters)[k] == p;
    var xs := Attempts(table, e, Permutations(Letters));
    AttemptsAt(table, e, Permutations(Letters), k);
    FirstSomeAt(xs, k);
  }

  /** The words a display shows for some digits, without scrambling. */
  function Display(ds: seq<nat>): (r: seq<string>)
    requires forall k :: 0 <= k < |ds| ==> ds[k] < 10
    ensures |r| == |ds|
  {
    TableDigits();
    seq(|ds|, k requires 0 <= k < |ds| => DecodeTable[ds[k]].0)
  }

  /** Through the ordering `abcdefg`, a display's patterns are accepted
      and its outputs read as their digits. */
  lemma AttemptUnscrambled(patterns: seq<nat>, outputs: seq<nat>)
    requires forall k :: 0 <= k < |patterns| ==> patterns[k] < 10
    requires forall k :: 0 <= k < |outputs| ==> outputs[k] < 10
    ensures Wiring(Letters) && AllSegments(Display(patterns)) && AllSegments(Display(outputs))
    ensures Attempt(DecodeTable, Display(patterns), Display(outputs), Letters) == Some(DecimalValue(outputs))
  {
    UnscrambledDigits(patterns);
    UnscrambledDigits(outputs);
    DecimalOfValues(outputs);
    assert Accepted(DecodeTable, Display(patterns), Letters);
  }

  lemma UnscrambledDigit(d: nat)
    requires d < 10
    ensures Segments(DecodeTable[d].0) && Digit(DecodeTable, DecodeTable[d].0, Letters) == Some(d)
  {
    TableDigits();
    TableDistinct();
    OrderingWiring(Letters);
    LettersOver(DecodeTable[d].0);
    DecodeUnwired(DecodeTable[d].0);
    SortFixed(DecodeTable[d].0);
  }

  /** Through the ordering `abcdefg`, the words of a display read as its
      digits. */
  lemma UnscrambledDigits(ds: seq<nat>)
    requires forall k :: 0 <= k < |ds| ==> ds[k] < 10
    ensures Wiring(Letters) && AllSegments(Display(ds))
    ensures Digits(DecodeTable, Display(ds), Letters) == seq(|ds|, k requires 0 <= k < |ds| => Some(ds[k]))
  {
    TableDigits();
    OrderingWiring(Letters);
    forall k | 0 <= k < |ds|
      ensures Segments(Display(ds)[k]) && Digit(DecodeTable, Display(ds)[k], Letters) == Some(ds[k])
    {
      UnscrambledDigit(ds[k]);
    }
  }

  /** A line shown without scrambling reads as the digits of its outputs:
      the first ordering, `abcdefg`, is accepted and reads them. */
  lemma LineValueUnscrambled(patterns: seq<nat>, outputs: seq<nat>)
    requires forall k :: 0 <= k < |patterns| ==> patterns[k] < 10
    requires forall k :: 0 <= k < |outputs| ==> outputs[k] < 10
    ensures WellFormed([Display(patterns), Display(outputs)])
    ensures LineValue(DecodeTable, [Display(patterns), Display(outputs)]) == Some(DecimalValue(outputs))
  {
    var e := [Display(patterns), Display(outputs)];
    AttemptUnscrambled(patterns, outputs);
    PermutationsFirst(Letters);
    AllWirings();
    AttemptsAt(DecodeTable, e, Permutations(Letters), 0);
  }

  /** Part one: the output words of an easy length, over all lines. */
  function Part1(entries: seq<Entry>): nat
    requires forall i :: 0 <= i < |entries| ==> |entries[i]| >= 2
  {
    if entries == [] then 0
    else Part1(entries[..|entries| - 1]) + EasyCount(entries[|entries| - 1][1])
  }

  function EasyCount(words: seq<string>): (r: nat)
    ensures r <= |words|
  {
    if words == [] then 0
    else EasyCount(words[..|words| - 1]) + if Easy(|words[|words| - 1]|) then 1 else 0
  }

  /** Under a wiring that reads a line, the easy words of its outputs are
      exactly those that show a 1, a 4, a 7 or an 8. */
  lemma {:induction false} EasyCountDigits(outputs: seq<string>, p: string)
    requires Wiring(p) && AllSegments(outputs) && Reading(DecodeTable, outputs, p).Some?
    ensures EasyCount(outputs) == EasyDigitCount(Digits(DecodeTable, outputs, p))
  {
    if outputs != [] {
      var n := |outputs| - 1;
      DigitsPrefix(DecodeTable, outputs, p, n);
      DecimalSome(Digits(DecodeTable, outputs, p));
      DecimalSome(Digits(DecodeTable, outputs[..n], p));
      EasyCountDigits(outputs[..n], p);
      EasyOutputs(outputs, p, n);
    }
  }

  /** A line whose value is found: under the wiring that reads it, the
      easy output words are exactly those that show a 1, a 4, a 7 or an
      8, and the value has no more decimal digits than there are outputs. */
  lemma LineEasyDigits(e: Entry) returns (p: string)
    requires WellFormed(e) && LineValue(DecodeTable, e).Some?
    ensures Wiring(p) && Attempt(DecodeTable, e[0], e[1], p) == LineValue(DecodeTable, e)
    ensures EasyCount(e[1]) == EasyDigitCount(Digits(DecodeTable, e[1], p))
    ensures LineValue(DecodeTable, e).value < Pow10(|e[1]|)
  {
    var k := LineValueFound(DecodeTable, e);
    p := Permutations(Letters)[k];
    EasyCountDigits(e[1], p);
    var ds := Digits(DecodeTable, e[1], p);
    forall j | 0 <= j < |ds| && ds[j].Some?
      ensures ds[j].value < 10
    {
      DigitOfTable(e[1][j], p);
    }
    DecimalBound(ds);
  }

  /** How many of the digits are a 1, a 4, a 7 or an 8. */
  function EasyDigitCount(ds: seq<Option<nat>>): nat
  {
    if ds == [] then 0
    else EasyDigitCount(ds[..|ds| - 1]) + if ds[|ds| - 1].Some? && ds[|ds| - 1].value in {1, 4, 7, 8} then 1 else 0
  }

  /** Part two: the sum of the lines' values; a line without one adds
      nothing. */
  function Part2(entries: seq<Entry>): int
    requires forall i :: 0 <= i < |entries| ==> WellFormed(entries[i])
  {
    Sum(Somes(LineValues(entries)))
  }

  /** Each line's value, in input order. */
  function LineValues(entries: seq<Entry>): (vs: seq<Option<nat>>)
    requires forall i :: 0 <= i < |entries| ==> WellFormed(entries[i])
    ensures |vs| == |entries|
    ensures forall i :: 0 <= i < |entries| ==> vs[i] == LineValue(DecodeTable, entries[i])
  {
    seq(|entries|, i requires 0 <= i < |entries| => LineValue(DecodeTable, entries[i]))
  }

  /** Part one is a sum over the lines: the input split anywhere counts
      the two halves' easy words together. */
  lemma {:induction false} Part1Append(a: seq<Entry>, b: seq<Entry>)
    requires forall i :: 0 <= i < |a| ==> |a[i]| >= 2
    requires forall i :: 0 <= i < |b| ==> |b[i]| >= 2
    ensures forall i :: 0 <= i < |a + b| ==> |(a + b)[i]| >= 2
    ensures Part1(a + b) == Part1(a) + Part1(b)
    decreases |b|
  {
    if b == [] {
      assert a + b == a;
    } else {
      var n := |b| - 1;
      assert (a + b)[..|a + b| - 1] == a + b[..n];
      Part1Append(a, b[..n]);
    }
  }

  /** Part two is a sum over the lines: the input split anywhere adds the
      two halves' values. */
  lemma Part2Split(entries: seq<Entry>, k: nat)
    requires k <= |entries| && forall i :: 0 <= i < |entries| ==> WellFormed(entries[i])
    ensures Part2(entries) == Part2(entries[..k]) + Part2(entries[k..])
  {
    LineValuesSplit(entries, k);
    SomesAppend(LineValues(entries[..k]), LineValues(entries[k..]));
    SumAppend(Somes(LineValues(entries[..k])), Somes(LineValues(entries[k..])));
  }

  lemma LineValuesSplit(entries: seq<Entry>, k: nat)
    requires k <= |entries| && forall i :: 0 <= i < |entries| ==> WellFormed(entries[i])
    ensures LineValues(entries) == LineValues(entries[..k]) + LineValues(entries[k..])
  {
    var vs, front, back := LineValues(entries), LineValues(entries[..k]), LineValues(entries[k..]);
    forall i | 0 <= i < |vs|
      ensures vs[i] == (front + back)[i]
    {
      if i < k {
        assert entries[..k][i] == entries[i];
      } else {
        assert entries[k..][i - k] == entries[i];
      }
    }
  }

  /** One line adds its value, or nothing when no ordering reads it. */
  lemma Part2Line(e: Entry)
    requires WellFormed(e)
    ensures Part2([e]) == if LineValue(DecodeTable, e).Some? then LineValue(DecodeTable, e).value else 0
  {
    assert LineValues([e]) == [LineValue(DecodeTable, e)];
    SumSomesSingle(LineValue(DecodeTable, e));
  }

  // ---------------------------------------------------------------------
  // Reading a line of text

  /** The words of a line: its pieces between spaces, empty pieces dropped. */
  function Words(s: string): (r: seq<string>)
    ensures forall k :: 0 <= k < |r| ==> r[k] != []
  {
    NonEmpty(Split(s, " "))
  }

  /** The non-empty pieces, in order. */
  function NonEmpty(ws: seq<string>): (r: seq<string>)
    ensures forall k :: 0 <= k < |r| ==> r[k] != [] && r[k] in ws
    ensures forall k :: 0 <= k < |ws| && ws[k] != [] ==> ws[k] in r
    ensures |r| <= |ws|
  {
    if ws == [] then []
    else
      var n := |ws| - 1;
      assert forall k :: 0 <= k < n ==> ws[..n][k] == ws[k];
      NonEmpty(ws[..n]) + if ws[n] == [] then [] else [ws[n]]
  }

  /** Filtering two runs of pieces one after the other is filtering each:
      the kept pieces stay in their order. */
  lemma {:induction false} NonEmptyAppend(a: seq<string>, b: seq<string>)
    ensures NonEmpty(a + b) == NonEmpty(a) + NonEmpty(b)
    decreases |b|
  {
    if b == [] {
      assert a + b == a;
    } else {
      var n := |b| - 1;
      assert (a + b)[..|a + b| - 1] == a + b[..n];
      NonEmptyAppend(a, b[..n]);
    }
  }

  /** Pieces that are all non-empty are kept as they are. */
  lemma {:induction false} NonEmptyKeepsAll(ws: seq<string>)
    requires forall k :: 0 <= k < |ws| ==> ws[k] != []
    ensures NonEmpty(ws) == ws
  {
    if ws != [] {
      var n := |ws| - 1;
      NonEmptyKeepsAll(ws[..n]);
      assert ws[..n] + [ws[n]] == ws;
    }
  }

  /** A line split at `|` into parts, each split into its words. */
  function ParseEntry(line: string): (e: Entry)
    ensures |e| == |Split(line, "|")| >= 1
    ensures forall i, k :: 0 <= i < |e| && 0 <= k < |e[i]| ==> e[i][k] != []
  {
    var parts := Split(line, "|");
    seq(|parts|, i requires 0 <= i < |parts| => Words(parts[i]))
  }
}
