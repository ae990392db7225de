/** `day-23/src/main.rs`, the input side: the room rows are read by a
    regular expression, the deeper puzzle of part two is unfolded from the
    shallow one, every amphipod that already sits at the bottom of its own
    room is marked `Correct`, and the search starts from a free hallway. */
module Day23Parse {
  import opened Common
  import opened Day23

  datatype AocError =
    | EndOfInput
    /** `"Expected {N} amphipods"`. */
    | ParseError(expected: nat)

  predicate IsLetter(c: char)
  {
    'A' <= c <= 'D'
  }

  /** The four letters of one room row, left to right. */
  predicate IsRow(r: seq<char>)
  {
    |r| == 4 && forall j :: 0 <= j < 4 ==> IsLetter(r[j])
  }

  /** `#([ABCD])#([ABCD])#([ABCD])#([ABCD])#` matches `line` at `j`. */
  predicate MatchAt(line: string, j: nat)
  {
    j + 9 <= |line| &&
    line[j] == '#' && IsLetter(line[j + 1]) && line[j + 2] == '#' && IsLetter(line[j + 3]) &&
    line[j + 4] == '#' && IsLetter(line[j + 5]) && line[j + 6] == '#' && IsLetter(line[j + 7]) &&
    line[j + 8] == '#'
  }

  /** `captures_iter` over one line from position `j`: the leftmost match,
      then the matches after it. */
  function LineCaptures(line: string, j: nat): (r: seq<seq<char>>)
    requires j <= |line|
    ensures forall k :: 0 <= k < |r| ==> IsRow(r[k])
    ensures (forall i :: j <= i < |line| ==> !MatchAt(line, i)) ==> r == []
    ensures MatchAt(line, j) ==> |r| >= 1 && r[0] == [line[j + 1], line[j + 3], line[j + 5], line[j + 7]]
    decreases |line| - j
  {
    if j + 9 > |line| then []
    else if MatchAt(line, j) then [[line[j + 1], line[j + 3], line[j + 5], line[j + 7]]] + LineCaptures(line, j + 9)
    else LineCaptures(line, j + 1)
  }

  /** `captures_iter` over the whole input. No match crosses a line break,
      since the pattern holds none, so the rows are those of each line in
      turn. */
  function Captures(lines: seq<string>): (r: seq<seq<char>>)
    ensures forall k :: 0 <= k < |r| ==> IsRow(r[k])
  {
    if lines == [] then [] else Captures(lines[..|lines| - 1]) + LineCaptures(lines[|lines| - 1], 0)
  }

  /** For `N == 16`: the first four lines, the two rows folded into the
      paper, and the fifth line; whatever follows is dropped. */
  function Unfold(lines: seq<string>): (r: Result<seq<string>, AocError>)
    ensures r.Err? <==> |lines| < 5
    ensures r.Err? ==> r.error == EndOfInput
    ensures r.Ok? ==> |r.value| == 7 && r.value[..4] == lines[..4] && r.value[6] == lines[4]
  {
    if |lines| < 5 then Err(EndOfInput)
    else Ok(lines[..4] + Folded() + [lines[4]])
  }

  /** The two rows folded into the paper. */
  function Folded(): seq<string>
  {
    ["#D#C#B#A#", "#D#B#A#C#"]
  }

  /** Reading lines one after another reads their rows one after another. */
  lemma {:induction false} CapturesAppend(a: seq<string>, b: seq<string>)
    ensures Captures(a + b) == Captures(a) + Captures(b)
    decreases |b|
  {
    if b == [] {
      assert a + b == a;
    } else {
      var b' := b[..|b| - 1];
      assert (a + b)[..|a + b| - 1] == a + b';
      CapturesAppend(a, b');
    }
  }

  /** Unfolding puts the rows `DCBA` and `DBAC` between the rows of the
      first four lines and those of the fifth. */
  lemma UnfoldRows(lines: seq<string>)
    requires |lines| >= 5
    ensures Captures(Unfold(lines).value) == Captures(lines[..4]) + ["DCBA", "DBAC"] + Captures([lines[4]])
  {
    CapturesAppend(lines[..4] + Folded(), [lines[4]]);
    CapturesAppend(lines[..4], Folded());
    FoldedCaptures();
  }

  lemma FoldedCaptures()
    ensures Captures(Folded()) == ["DCBA", "DBAC"]
  {
    CapturesAppend(["#D#C#B#A#"], ["#D#B#A#C#"]);
    assert Folded() == ["#D#C#B#A#"] + ["#D#B#A#C#"];
    SingleCaptures("#D#C#B#A#", "DCBA");
    SingleCaptures("#D#B#A#C#", "DBAC");
  }

  /** A line that is exactly one match captures its row. */
  lemma SingleCaptures(line: string, row: seq<char>)
    requires |line| == 9 && MatchAt(line, 0) && row == [line[1], line[3], line[5], line[7]]
    ensures Captures([line]) == [row]
  {
    assert [line][..0] == [];
    assert [] + LineCaptures(line, 0) == LineCaptures(line, 0);
  }

  /** The amphipods of the captured rows, each `Wrong` at its depth, with
      the room column, target and energy of its letter. */
  function Captured(rows: seq<seq<char>>): (state: seq<seq<Amphipod>>)
    requires forall k :: 0 <= k < |rows| ==> IsRow(rows[k])
    ensures |state| == |rows| && forall y :: 0 <= y < |state| ==> |state[y]| == 4
  {
    seq(|rows|, y requires 0 <= y < |rows| => CapturedRow(rows[y], y + 1))
  }

  /** The amphipods of one row, at depth `depth`. */
  function CapturedRow(row: seq<char>, depth: nat): (r: seq<Amphipod>)
    requires IsRow(row)
    ensures |r| == 4
  {
    seq(4, j requires 0 <= j < 4 => Arrival(row[j], j, depth))
  }

  /** The amphipod of letter `c` found in room `j` at depth `depth`. */
  function Arrival(c: char, j: nat, depth: nat): Amphipod
    requires IsLetter(c)
  {
    Wrong(RoomColumn(j), RoomColumn(LetterToIdx(c)), MoveCost(LetterToIdx(c)), depth)
  }

  /** The target rooms of the captured amphipods, flattened row by row. */
  function Targets(rows: seq<seq<char>>): (t: seq<nat>)
    requires forall k :: 0 <= k < |rows| ==> IsRow(rows[k])
    ensures |t| == 4 * |rows|
  {
    seq(4 * |rows|, i requires 0 <= i < 4 * |rows| => TargetOf(rows[i / 4], i % 4))
  }

  function TargetOf(row: seq<char>, j: nat): nat
    requires IsRow(row) && j < 4
  {
    RoomColumn(LetterToIdx(row[j]))
  }

  /** A `Wrong` amphipod already in its own room. */
  predicate Home(s: Amphipod)
  {
    s.Wrong? && s.target == s.actual
  }

  predicate FourWide(state: seq<seq<Amphipod>>)
  {
    forall y :: 0 <= y < |state| ==> |state[y]| == 4
  }

  /** Every amphipod in column `j` from row `y` to the bottom is home. */
  predicate HomeBelow(state: seq<seq<Amphipod>>, j: nat, y: nat)
    requires FourWide(state) && j < 4
  {
    forall z :: y <= z < |state| ==> Home(state[z][j])
  }

  /** The post-pass: an amphipod becomes `Correct` at its depth when it and
      all below it in its column are home; the others stay as they are. */
  function Marked(state: seq<seq<Amphipod>>, y: nat, j: nat): Amphipod
    requires FourWide(state) && y < |state| && j < 4
  {
    if HomeBelow(state, j, y) then Correct(y + 1) else state[y][j]
  }

  function MarkAll(state: seq<seq<Amphipod>>): (m: seq<seq<Amphipod>>)
    requires FourWide(state)
    ensures |m| == |state| && FourWide(m)
  {
    seq(|state|, y requires 0 <= y < |state| => seq(4, j requires 0 <= j < 4 => Marked(state, y, j)))
  }

  /** `.flatten()`: row after row. */
  function Flatten(state: seq<seq<Amphipod>>): (a: seq<Amphipod>)
    requires FourWide(state)
    ensures |a| == 4 * |state|
  {
    seq(4 * |state|, i requires 0 <= i < 4 * |state| => state[i / 4][i % 4])
  }

  /** The input lines `parse::<N>` reads the rows from. */
  function Input(lines: seq<string>, n: nat): Result<seq<string>, AocError>
  {
    if n == 16 then Unfold(lines) else Ok(lines)
  }

  /** `parse::<N>`: the marked amphipods, or the error that stops it. */
  function Parsed(lines: seq<string>, n: nat): (r: Result<seq<Amphipod>, AocError>)
    ensures r.Ok? ==> |r.value| == n
  {
    match Input(lines, n)
    case Err(e) => Err(e)
    case Ok(input) =>
      var rows := Captures(input);
      if 4 * |rows| != n then Err(ParseError(n)) else Ok(Flatten(MarkAll(Captured(rows))))
  }

  /** The state rows of a 4-wide grid. */
  function Rows(state: array2<Amphipod>): (r: seq<seq<Amphipod>>)
    reads state
    requires state.Length1 == 4
    ensures |r| == state.Length0 && FourWide(r)
  {
    seq(state.Length0, y requires 0 <= y < state.Length0 reads state => seq(4, j requires 0 <= j < 4 reads state => state[y, j]))
  }

  /** The post-pass, column by column. */
  method MarkHome(state: array2<Amphipod>)
    requires state.Length1 == 4
    modifies state
    ensures Rows(state) == MarkAll(old(Rows(state)))
  {
    ghost var rows := Rows(state);
    for i := 0 to 4
      invariant forall y, j :: 0 <= y < state.Length0 && 0 <= j < 4 ==>
        state[y, j] == if j < i then Marked(rows, y, j) else rows[y][j]
    {
      ghost var cur := Rows(state);
      assert forall z :: 0 <= z < |cur| ==> cur[z][i] == rows[z][i];
      MarkColumn(state, i);
      forall y | 0 <= y < state.Length0
        ensures state[y, i] == Marked(rows, y, i)
      {
        assert HomeBelow(cur, i, y) == HomeBelow(rows, i, y);
      }
    }
    forall y | 0 <= y < state.Length0
      ensures Rows(state)[y] == MarkAll(rows)[y]
    {
    }
  }

  /** One column of the post-pass: from the bottom up, while the amphipod
      is home, it becomes `Correct` at its depth. */
  method MarkColumn(state: array2<Amphipod>, i: nat)
    requires state.Length1 == 4 && i < 4
    modifies state
    ensures forall y, j :: 0 <= y < state.Length0 && 0 <= j < 4 ==>
      state[y, j] == if j == i then Marked(old(Rows(state)), y, i) else old(state[y, j])
  {
    ghost var rows := Rows(state);
    var y := state.Length0;
    while y > 0 && Home(state[y - 1, i])
      invariant 0 <= y <= state.Length0
      invariant forall z, j :: 0 <= z < state.Length0 && 0 <= j < 4 && (j != i || z < y) ==> state[z, j] == rows[z][j]
      invariant forall z :: y <= z < state.Length0 ==> state[z, i] == Correct(z + 1)
      invariant HomeBelow(rows, i, y)
    {
      state[y - 1, i] := Correct(y);
      y := y - 1;
    }
    forall z | 0 <= z < y
      ensures !HomeBelow(rows, i, z)
    {
      assert !Home(rows[y - 1][i]);
    }
  }

  /** `parse::<N>`, with the rows put into a grid that the post-pass
      changes in place. */
  method Parse(lines: seq<string>, n: nat) returns (r: Result<seq<Amphipod>, AocError>)
    ensures r == Parsed(lines, n)
  {
    var input: seq<string>;
    if n == 16 {
      if |lines| < 5 {
        return Err(EndOfInput);
      }
      input := lines[..4] + Folded() + [lines[4]];
    } else {
      input := lines;
    }
    var rows := Captures(input);
    var captured := Captured(rows);
    var state := new Amphipod[|rows|, 4]((y, j) requires 0 <= y < |rows| && 0 <= j < 4 => captured[y][j]);
    assert Rows(state) == captured by {
      forall y | 0 <= y < |rows|
        ensures Rows(state)[y] == captured[y]
      {
      }
    }
    MarkHome(state);
    if 4 * |rows| != n {
      return Err(ParseError(n));
    }
    r := Ok(Flatten(Rows(state)));
  }

  /** An amphipod is marked `Correct` exactly when it and every amphipod
      below it in its room carry the letter of that room. */
  lemma MarkedMeaning(rows: seq<seq<char>>, y: nat, j: nat)
    requires forall k :: 0 <= k < |rows| ==> IsRow(rows[k])
    requires y < |rows| && j < 4
    ensures Marked(Captured(rows), y, j).Correct? <==> forall z :: y <= z < |rows| ==> LetterToIdx(rows[z][j]) == j
    ensures Marked(Captured(rows), y, j).Correct? ==> Marked(Captured(rows), y, j).stackDepth == y + 1
  {
    var c := Captured(rows);
    forall z | y <= z < |rows|
      ensures Home(c[z][j]) <==> LetterToIdx(rows[z][j]) == j
    {
      assert IsRow(rows[z]);
      assert c[z][j] == Arrival(rows[z][j], j, z + 1);
    }
  }

  /** The hallway tokens `main` starts from: every position of
      `"..........."`. */
  function OpenHallway(): (r: set<nat>)
    ensures forall p: nat :: p in r <==> p < HallwayLength
  {
    FreeHallway([])
  }

  /** Where amphipod `i` of the parsed state sits: room `i % 4`, one row
      further down for every four amphipods before it. */
  lemma ParsedSlot(rows: seq<seq<char>>, i: nat)
    requires forall k :: 0 <= k < |rows| ==> IsRow(rows[k])
    requires i < 4 * |rows|
    ensures Slot(Targets(rows), Flatten(MarkAll(Captured(rows))), i) == Some((RoomColumn(i % 4), i / 4 + 1))
    ensures Placed(Targets(rows), Flatten(MarkAll(Captured(rows))), i)
  {
    var y, j := i / 4, i % 4;
    var c := Captured(rows);
    assert IsRow(rows[y]);
    assert c[y][j] == Arrival(rows[y][j], j, y + 1);
    assert Flatten(MarkAll(c))[i] == Marked(c, y, j);
    assert Targets(rows)[i] == RoomColumn(LetterToIdx(rows[y][j]));
  }

  /** The parsed state, a free hallway and no free slot are a consistent
      start for the search: the amphipods fill every slot of the rooms,
      one each. */
  lemma ParsedConsistent(rows: seq<seq<char>>)
    requires forall k :: 0 <= k < |rows| ==> IsRow(rows[k])
    ensures Consistent(Targets(rows), Flatten(MarkAll(Captured(rows))), OpenHallway(), {})
  {
    var t, a := Targets(rows), Flatten(MarkAll(Captured(rows)));
    forall i | 0 <= i < |a|
      ensures Placed(t, a, i) && Slot(t, a, i) == Some((RoomColumn(i % 4), i / 4 + 1)) && !a[i].Parked?
    {
      ParsedSlot(rows, i);
    }
    forall i, k | 0 <= i < |a| && 0 <= k < |a| && i != k && Slot(t, a, i).Some?
      ensures Slot(t, a, i) != Slot(t, a, k)
    {
      assert i == 4 * (i / 4) + i % 4 && k == 4 * (k / 4) + k % 4;
    }
    assert ParkedAt(a) == {};
    assert FreeHallway(a) == OpenHallway();
    forall p | p in Slots(|a| / 4)
      ensures p in Occupied(t, a)
    {
      var i := 4 * (p.1 - 1) + (p.0 - 3) / 2;
      assert Slot(t, a, i) == Some(p);
    }
  }

  /** `main`: the hallway tokens for every position, no free slot, and the
      uncached search from the parsed state. */
  method Part2(lines: seq<string>, n: nat) returns (r: Result<Option<nat>, AocError>)
    ensures Parsed(lines, n).Err? ==> r == Err(Parsed(lines, n).error)
    ensures Parsed(lines, n).Ok? ==> r == Ok(Search(Parsed(lines, n).value, OpenHallway(), {}))
  {
    var parsed := Parse(lines, n);
    if parsed.Err? {
      return Err(parsed.error);
    }
    var a := parsed.value;
    ghost var rows := Captures(Input(lines, n).value);
    ParsedConsistent(rows);
    var hallway: set<nat> := {};
    for p := 0 to HallwayLength
      invariant forall q: nat :: q in hallway <==> q < p
    {
      hallway := hallway + {p};
    }
    assert hallway == OpenHallway();
    var amphipods := new Amphipod[|a|](i requires 0 <= i < |a| => a[i]);
    assert amphipods[..] == a;
    var solver := new Solver(Targets(rows));
    var cost := solver.Solve(amphipods, hallway, {});
    r := Ok(cost);
  }
}
