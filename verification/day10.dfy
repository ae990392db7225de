/** `day-10/src/main.rs`: syntax scoring. Each line is read character by
    character with a stack: an opener is pushed, a closer pops the stack and
    scores when what it pops is not its own opener. Part one sums these
    scores over every mismatch of every line; part two takes the lines that
    score nothing, scores the openers they leave on the stack, and answers
    the middle of those scores. */
module Day10 {
  import opened Common

  predicate IsOpener(c: char)
  {
    c == '(' || c == '[' || c == '{' || c == '<'
  }

  predicate IsCloser(c: char)
  {
    c == ')' || c == ']' || c == '}' || c == '>'
  }

  /** The opener a closer matches. */
  function OpenerOf(c: char): (o: char)
    requires IsCloser(c)
    ensures IsOpener(o)
  {
    match c
    case ')' => '('
    case ']' => '['
    case '}' => '{'
    case '>' => '<'
  }

  /** The closer of an opener. */
  function CloserOf(o: char): (c: char)
    requires IsOpener(o)
    ensures IsCloser(c) && OpenerOf(c) == o
  {
    match o
    case '(' => ')'
    case '[' => ']'
    case '{' => '}'
    case '<' => '>'
  }

  /** The points of a closer that pops the wrong opener. */
  function Points(c: char): (p: int)
    requires IsCloser(c)
    ensures p > 0
    ensures c == ')' ==> p == 3
    ensures c == ']' ==> p == 57
    ensures c == '}' ==> p == 1197
    ensures c == '>' ==> p == 25137
  {
    match c
    case ')' => 3
    case ']' => 57
    case '}' => 1197
    case '>' => 25137
  }

  /** The stack after a prefix of a line, and the score so far. */
  datatype Scan = Scan(score: int, stack: seq<char>)

  /** A closer meeting a non-empty stack whose top is not its opener. */
  predicate Mismatch(stack: seq<char>, c: char)
  {
    IsCloser(c) && stack != [] && stack[|stack| - 1] != OpenerOf(c)
  }

  /** What one character does: an opener is pushed; a closer pops (nothing
      on an empty stack) and scores on a mismatch; any other character is
      ignored. */
  function Step(s: Scan, c: char): Scan
  {
    if IsOpener(c) then Scan(s.score, s.stack + [c])
    else if IsCloser(c) then
      if s.stack == [] then s
      else Scan(s.score + (if Mismatch(s.stack, c) then Points(c) else 0), s.stack[..|s.stack| - 1])
    else s
  }

  /** The scan of `line` from the state `s`. */
  function Run(s: Scan, line: string): Scan
  {
    if line == [] then s else Step(Run(s, line[..|line| - 1]), line[|line| - 1])
  }

  function Start(): Scan
  {
    Scan(0, [])
  }

  predicate AllOpeners(stack: seq<char>)
  {
    forall i :: 0 <= i < |stack| ==> IsOpener(stack[i])
  }

  /** The stack holds nothing but openers, and the score never decreases. */
  lemma {:induction false} RunKeepsOpeners(s: Scan, line: string)
    requires AllOpeners(s.stack)
    ensures AllOpeners(Run(s, line).stack) && Run(s, line).score >= s.score
  {
    if line != [] {
      RunKeepsOpeners(s, line[..|line| - 1]);
    }
  }

  /** Scanning two pieces one after the other is scanning them together. */
  lemma {:induction false} RunAppend(s: Scan, a: string, b: string)
    ensures Run(s, a + b) == Run(Run(s, a), b)
  {
    if b == [] {
      assert a + b == a;
    } else {
      RunAppend(s, a, b[..|b| - 1]);
      assert (a + b)[..|a + b| - 1] == a + b[..|b| - 1];
    }
  }

  /** No character of `line` is a mismatch. */
  ghost predicate Clean(s: Scan, line: string)
  {
    forall i :: 0 <= i < |line| ==> !Mismatch(Run(s, line[..i]).stack, line[i])
  }

  /** A line is clean exactly when all but its last character are and the
      last is no mismatch. */
  lemma CleanStep(s: Scan, line: string)
    requires line != []
    ensures Clean(s, line) <==>
      Clean(s, line[..|line| - 1]) && !Mismatch(Run(s, line[..|line| - 1]).stack, line[|line| - 1])
  {
    var n := |line| - 1;
    var init := line[..n];
    forall i | 0 <= i < n
      ensures line[..i] == init[..i] && line[i] == init[i]
    {
    }
  }

  /** The last character adds its points exactly when it is a mismatch. */
  lemma ScoreStep(s: Scan, line: string)
    requires line != []
    ensures Run(s, line).score == Run(s, line[..|line| - 1]).score +
      (if Mismatch(Run(s, line[..|line| - 1]).stack, line[|line| - 1]) then Points(line[|line| - 1]) else 0)
  {
  }

  /** A line adds nothing to the score exactly when none of its characters
      is a mismatch: every mismatch counts, not only the first. */
  lemma {:induction false} ZeroIffClean(s: Scan, line: string)
    ensures Run(s, line).score >= s.score
    ensures Run(s, line).score == s.score <==> Clean(s, line)
  {
    if line != [] {
      ZeroIffClean(s, line[..|line| - 1]);
      CleanStep(s, line);
      ScoreStep(s, line);
    }
  }

  /** Both mismatches of `([)]` count: the `)` pops `[` and the `]` pops `(`. */
  lemma EveryMismatchCounts()
    ensures Run(Start(), "([)]").score == 3 + 57
  {
    RunLast(Start(), "(", "", '(');
    assert Run(Start(), "(") == Scan(0, ['(']);
    RunLast(Start(), "([", "(", '[');
    assert Run(Start(), "([") == Scan(0, ['(', '[']);
    RunLast(Start(), "([)", "([", ')');
    assert Mismatch(['(', '['], ')');
    assert Run(Start(), "([)") == Scan(3, ['(']);
    RunLast(Start(), "([)]", "([)", ']');
    assert Mismatch(['('], ']');
  }

  /** The scan of a line ending in `c` is one step past the rest. */
  lemma RunLast(s: Scan, line: string, init: string, c: char)
    requires line == init + [c]
    ensures Run(s, line) == Step(Run(s, init), c)
  {
    assert line[..|line| - 1] == init;
  }

  /** The loop over the characters of a line, with its own stack. */
  method ScanLine(line: string) returns (score: int, stack: seq<char>)
    ensures Scan(score, stack) == Run(Start(), line)
  {
    score := 0;
    stack := [];
    for i := 0 to |line|
      invariant Scan(score, stack) == Run(Start(), line[..i])
    {
      assert line[..i + 1][..i] == line[..i];
      var c := line[i];
      if IsOpener(c) {
        stack := stack + [c];
      } else if IsCloser(c) {
        if stack != [] {
          var expected := stack[|stack| - 1];
          stack := stack[..|stack| - 1];
          if expected != OpenerOf(c) {
            score := score + Points(c);
          }
        }
      }
    }
    assert line[..|line|] == line;
  }

  // ---------------------------------------------------------------------
  // Part one

  /** The sum of the scores of the lines. */
  function TotalScore(lines: seq<string>): int
  {
    if lines == [] then 0 else TotalScore(lines[..|lines| - 1]) + Run(Start(), lines[|lines| - 1]).score
  }

  /** Part one is zero exactly when no line has a mismatch. */
  lemma {:induction false} TotalZeroIffClean(lines: seq<string>)
    ensures TotalScore(lines) >= 0
    ensures TotalScore(lines) == 0 <==> forall k :: 0 <= k < |lines| ==> Clean(Start(), lines[k])
  {
    if lines != [] {
      var n := |lines| - 1;
      TotalZeroIffClean(lines[..n]);
      ZeroIffClean(Start(), lines[n]);
      assert forall k :: 0 <= k < n ==> lines[..n][k] == lines[k];
    }
  }

  method Part1(lines: seq<string>) returns (sum: int)
    ensures sum == TotalScore(lines)
  {
    sum := 0;
    for k := 0 to |lines|
      invariant sum == TotalScore(lines[..k])
    {
      assert lines[..k + 1][..k] == lines[..k];
      var score, _ := ScanLine(lines[k]);
      sum := sum + score;
    }
    assert lines[..|lines|] == lines;
  }

  // ---------------------------------------------------------------------
  // Completion

  /** The value of an opener left open. */
  function Value(o: char): (v: int)
    requires IsOpener(o)
    ensures 1 <= v <= 4
  {
    match o
    case '(' => 1
    case '[' => 2
    case '{' => 3
    case '<' => 4
  }

  /** The completion score as a number in base 5: the bottom of the stack
      is the lowest digit, the top the highest. */
  function Completion(stack: seq<char>): (r: int)
    requires AllOpeners(stack)
  {
    if stack == [] then 0 else Value(stack[0]) + 5 * Completion(stack[1..])
  }

  /** The fold from the top of the stack, `acc * 5 + value`. */
  method CompletionScore(stack: seq<char>) returns (acc: int)
    requires AllOpeners(stack)
    ensures acc == Completion(stack)
  {
    acc := 0;
    var k := |stack|;
    while k > 0
      invariant 0 <= k <= |stack| && acc == Completion(stack[k..])
    {
      k := k - 1;
      assert stack[k..][1..] == stack[k + 1..];
      acc := acc * 5 + Value(stack[k]);
    }
  }

  /** The lowest base-5 digit of a completion score is the bottom opener,
      the rest is the score of the openers above it; the score is zero
      exactly for an empty stack. */
  lemma CompletionDigits(stack: seq<char>)
    requires AllOpeners(stack)
    ensures Completion(stack) >= 0
    ensures Completion(stack) == 0 <==> stack == []
    ensures stack != [] ==> Completion(stack) % 5 == Value(stack[0]) && Completion(stack) / 5 == Completion(stack[1..])
  {
    if stack != [] {
      CompletionDigits(stack[1..]);
    }
  }

  /** Different stacks have different completion scores. */
  lemma {:induction false} CompletionInjective(a: seq<char>, b: seq<char>)
    requires AllOpeners(a) && AllOpeners(b) && Completion(a) == Completion(b)
    ensures a == b
  {
    CompletionDigits(a);
    CompletionDigits(b);
    if a != [] {
      assert Value(a[0]) == Value(b[0]);
      CompletionInjective(a[1..], b[1..]);
      assert a == [a[0]] + a[1..] && b == [b[0]] + b[1..];
    }
  }

  /** The characters that close the stack, from the top down. */
  function Closers(stack: seq<char>): (r: string)
    requires AllOpeners(stack)
    ensures |r| == |stack|
  {
    if stack == [] then [] else [CloserOf(stack[|stack| - 1])] + Closers(stack[..|stack| - 1])
  }

  /** The completion closes every open chunk and scores nothing. */
  lemma {:induction false} ClosersClose(s: Scan)
    requires AllOpeners(s.stack)
    ensures Run(s, Closers(s.stack)) == Scan(s.score, [])
    decreases |s.stack|
  {
    var st := s.stack;
    if st != [] {
      var c := CloserOf(st[|st| - 1]);
      var rest := Scan(s.score, st[..|st| - 1]);
      RunAppend(s, [c], Closers(st[..|st| - 1]));
      assert [c][..0] == [];
      assert Run(s, [c]) == rest;
      ClosersClose(rest);
    }
  }

  /** Appending the completion to a line ends it with an empty stack and
      no further score. */
  lemma CompletedLine(line: string)
    ensures AllOpeners(Run(Start(), line).stack)
    ensures Run(Start(), line + Closers(Run(Start(), line).stack)) == Scan(Run(Start(), line).score, [])
  {
    RunKeepsOpeners(Start(), line);
    var r := Run(Start(), line);
    RunAppend(Start(), line, Closers(r.stack));
    ClosersClose(r);
  }

  // ---------------------------------------------------------------------
  // Part two

  /** The completion scores of the lines that score nothing, in order. */
  function Completions(lines: seq<string>): (r: seq<int>)
    ensures |r| <= |lines|
  {
    if lines == [] then []
    else
      var prev := Completions(lines[..|lines| - 1]);
      var s := Run(Start(), lines[|lines| - 1]);
      if s.score == 0 then
        RunKeepsOpeners(Start(), lines[|lines| - 1]);
        prev + [Completion(s.stack)]
      else prev
  }

  predicate Ascending(s: seq<int>)
  {
    forall i, j :: 0 <= i < j < |s| ==> s[i] <= s[j]
  }

  function InsertAscending(x: int, s: seq<int>): (r: seq<int>)
    requires Ascending(s)
    ensures Ascending(r) && multiset(r) == multiset(s) + multiset{x}
  {
    if s == [] || x <= s[0] then [x] + s
    else
      assert s == [s[0]] + s[1..];
      var rest := InsertAscending(x, s[1..]);
      AboveHead(s, x, rest);
      [s[0]] + rest
  }

  /** Putting the head of `s` in front of `s[1..]` with `x` inserted keeps
      the sequence ascending, since `x` is above the head. */
  lemma AboveHead(s: seq<int>, x: int, rest: seq<int>)
    requires Ascending(s) && s != [] && x > s[0] && Ascending(rest)
    requires multiset(rest) == multiset(s[1..]) + multiset{x}
    ensures Ascending([s[0]] + rest)
    ensures multiset([s[0]] + rest) == multiset(s) + multiset{x}
  {
    assert s == [s[0]] + s[1..];
    forall i | 0 <= i < |rest|
      ensures rest[i] >= s[0]
    {
      assert rest[i] in multiset(rest);
      if rest[i] != x {
        assert rest[i] in multiset(s[1..]);
        var j :| 0 <= j < |s[1..]| && s[1..][j] == rest[i];
        assert s[j + 1] == rest[i];
      }
    }
    ConsAscending(s[0], rest);
  }

  lemma ConsAscending(h: int, rest: seq<int>)
    requires Ascending(rest) && forall i :: 0 <= i < |rest| ==> rest[i] >= h
    ensures Ascending([h] + rest)
  {
    var r := [h] + rest;
    forall i, j | 0 <= i < j < |r|
      ensures r[i] <= r[j]
    {
      assert r[j] == rest[j - 1];
      if i > 0 {
        assert r[i] == rest[i - 1];
      }
    }
  }

  /** `sorted()`: the same values, smallest first. */
  function Sort(s: seq<int>): (r: seq<int>)
    ensures Ascending(r) && multiset(r) == multiset(s)
  {
    if s == [] then []
    else
      assert s == [s[0]] + s[1..];
      InsertAscending(s[0], Sort(s[1..]))
  }

  /** How many values are below `m`, and how many above. */
  function CountBelow(s: seq<int>, m: int): nat
  {
    if s == [] then 0 else (if s[0] < m then 1 else 0) + CountBelow(s[1..], m)
  }

  function CountAbove(s: seq<int>, m: int): nat
  {
    if s == [] then 0 else (if s[0] > m then 1 else 0) + CountAbove(s[1..], m)
  }

  lemma {:induction false} InsertCounts(x: int, s: seq<int>, m: int)
    requires Ascending(s)
    ensures CountBelow(InsertAscending(x, s), m) == CountBelow(s, m) + (if x < m then 1 else 0)
    ensures CountAbove(InsertAscending(x, s), m) == CountAbove(s, m) + (if x > m then 1 else 0)
  {
    if s != [] && x > s[0] {
      assert s == [s[0]] + s[1..];
      InsertCounts(x, s[1..], m);
      var r := InsertAscending(x, s);
      assert r[1..] == InsertAscending(x, s[1..]);
    }
  }

  /** Sorting changes neither count. */
  lemma {:induction false} SortCounts(s: seq<int>, m: int)
    ensures CountBelow(Sort(s), m) == CountBelow(s, m)
    ensures CountAbove(Sort(s), m) == CountAbove(s, m)
  {
    if s != [] {
      SortCounts(s[1..], m);
      InsertCounts(s[0], Sort(s[1..]), m);
    }
  }

  /** At most `k` values are below `m` when none from index `k` on is. */
  lemma {:induction false} BelowBound(t: seq<int>, m: int, k: nat)
    requires k <= |t| && forall i :: k <= i < |t| ==> t[i] >= m
    ensures CountBelow(t, m) <= k
  {
    if t != [] {
      BelowBound(t[1..], m, if k == 0 then 0 else k - 1);
    }
  }

  /** At most `|t| - j` values are above `m` when none of the first `j` is. */
  lemma {:induction false} AboveBound(t: seq<int>, m: int, j: nat)
    requires j <= |t| && forall i :: 0 <= i < j ==> t[i] <= m
    ensures CountAbove(t, m) <= |t| - j
  {
    if t != [] {
      AboveBound(t[1..], m, if j == 0 then 0 else j - 1);
    }
  }

  /** Nothing after index `k` of an ascending sequence is below `t[k]`,
      nothing up to it above. */
  lemma AscendingAround(t: seq<int>, k: nat)
    requires Ascending(t) && k < |t|
    ensures forall i :: k <= i < |t| ==> t[i] >= t[k]
    ensures forall i :: 0 <= i < k + 1 ==> t[i] <= t[k]
  {
  }

  /** `sorted[len / 2]`, `None` where the source indexes an empty vector. */
  function Middle(scores: seq<int>): (r: Option<int>)
    ensures r.Some? <==> scores != []
  {
    var sorted := Sort(scores);
    if sorted == [] then None else Some(sorted[|sorted| / 2])
  }

  /** The middle score is a median: at most half the scores lie below it
      and at most half above it. */
  lemma MiddleIsMedian(scores: seq<int>)
    requires scores != []
    ensures Middle(scores).value in multiset(scores)
    ensures CountBelow(scores, Middle(scores).value) <= |scores| / 2
    ensures CountAbove(scores, Middle(scores).value) <= |scores| - 1 - |scores| / 2
  {
    var t := Sort(scores);
    var k := |t| / 2;
    var m := t[k];
    assert m in multiset(t);
    SortCounts(scores, m);
    AscendingAround(t, k);
    BelowBound(t, m, k);
    AboveBound(t, m, k + 1);
  }

  /** The loop collecting the completion scores of the clean lines. */
  method CollectCompletions(lines: seq<string>) returns (scores: seq<int>)
    ensures scores == Completions(lines)
  {
    scores := [];
    for k := 0 to |lines|
      invariant scores == Completions(lines[..k])
    {
      assert lines[..k + 1][..k] == lines[..k];
      var score, stack := ScanLine(lines[k]);
      if score == 0 {
        RunKeepsOpeners(Start(), lines[k]);
        var c := CompletionScore(stack);
        scores := scores + [c];
      }
    }
    assert lines[..|lines|] == lines;
  }

  /** Part two: the middle completion score, `None` when no line is clean. */
  method Part2(lines: seq<string>) returns (r: Option<int>)
    ensures r == Middle(Completions(lines))
  {
    var scores := CollectCompletions(lines);
    var sorted := Sort(scores);
    if sorted == [] {
      return None;
    }
    r := Some(sorted[|sorted| / 2]);
  }
}
