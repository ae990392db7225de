/** `day-04/src/main.rs`: giant squid bingo. Numbers are drawn one by one;
    after each draw every board is checked in order. A board has won once
    all numbers of one of its columns or rows are drawn; its score is the
    sum of its numbers not drawn. Part one answers the score of the first
    board to win times the number just drawn; part two keeps a set of the
    boards that have won and answers at the draw that completes it. */
module Day04 {
  import opened Common

  /** A board, row by row. */
  type Board = seq<seq<int>>

  /** The source reads `block[0]` and, for every row, the first row's width
      of cells: a board needs a row, and no row shorter than the first. */
  predicate WellFormed(b: Board)
  {
    |b| > 0 && forall y :: 0 <= y < |b| ==> |b[y]| >= |b[0]|
  }

  predicate AllWellFormed(blocks: seq<Board>)
  {
    forall k :: 0 <= k < |blocks| ==> WellFormed(blocks[k])
  }

  predicate ColumnFull(b: Board, drawn: set<int>, x: nat)
    requires WellFormed(b) && x < |b[0]|
  {
    forall y :: 0 <= y < |b| ==> b[y][x] in drawn
  }

  /** A row is full when its first `width` cells are drawn, `width` being
      the first row's length. */
  predicate RowFull(b: Board, drawn: set<int>, y: nat)
    requires WellFormed(b) && y < |b|
  {
    forall x :: 0 <= x < |b[0]| ==> b[y][x] in drawn
  }

  /** One of the first `n` columns is fully drawn. */
  predicate AnyColumnFull(b: Board, drawn: set<int>, n: nat)
    requires WellFormed(b) && n <= |b[0]|
  {
    n > 0 && (AnyColumnFull(b, drawn, n - 1) || ColumnFull(b, drawn, n - 1))
  }

  /** One of the first `n` rows is fully drawn. */
  predicate AnyRowFull(b: Board, drawn: set<int>, n: nat)
    requires WellFormed(b) && n <= |b|
  {
    n > 0 && (AnyRowFull(b, drawn, n - 1) || RowFull(b, drawn, n - 1))
  }

  /** Some column or some row is fully drawn. */
  predicate Complete(b: Board, drawn: set<int>)
    requires WellFormed(b)
  {
    AnyColumnFull(b, drawn, |b[0]|) || AnyRowFull(b, drawn, |b|)
  }

  function RowUndrawn(row: seq<int>, drawn: set<int>): int
  {
    if row == [] then 0
    else RowUndrawn(row[..|row| - 1], drawn) + (if row[|row| - 1] in drawn then 0 else row[|row| - 1])
  }

  /** The sum of every number of the board, in every row, not drawn. */
  function Undrawn(b: Board, drawn: set<int>): int
  {
    if b == [] then 0 else Undrawn(b[..|b| - 1], drawn) + RowUndrawn(b[|b| - 1], drawn)
  }

  /** The score of a winning board, `None` for one that has not won. */
  function Won(b: Board, drawn: set<int>): Option<int>
    requires WellFormed(b)
  {
    if Complete(b, drawn) then Some(Undrawn(b, drawn)) else None
  }

  /** `has_won`: the columns first, then the rows; the first full line found
      gives the sum of the numbers not drawn. Which line is found first
      does not change the sum. */
  method HasWon(b: Board, drawn: set<int>) returns (r: Option<int>)
    requires WellFormed(b)
    ensures r == Won(b, drawn)
  {
    var height := |b|;
    var width := |b[0]|;
    for x := 0 to width
      invariant !AnyColumnFull(b, drawn, x)
    {
      var found := true;
      for y := 0 to height
        invariant found <==> forall y' :: 0 <= y' < y ==> b[y'][x] in drawn
      {
        var current := b[y][x];
        found := found && current in drawn;
      }
      if found {
        assert ColumnFull(b, drawn, x) && AnyColumnFull(b, drawn, x + 1);
        AnyColumnUpTo(b, drawn, x + 1, width);
        return Some(Undrawn(b, drawn));
      }
    }
    for y := 0 to height
      invariant !AnyRowFull(b, drawn, y)
    {
      var found := true;
      for x := 0 to width
        invariant found <==> forall x' :: 0 <= x' < x ==> b[y][x'] in drawn
      {
        var current := b[y][x];
        found := found && current in drawn;
      }
      if found {
        assert RowFull(b, drawn, y) && AnyRowFull(b, drawn, y + 1);
        AnyRowUpTo(b, drawn, y + 1, height);
        return Some(Undrawn(b, drawn));
      }
    }
    return None;
  }

  lemma {:induction false} AnyColumnUpTo(b: Board, drawn: set<int>, n: nat, m: nat)
    requires WellFormed(b) && n <= m <= |b[0]| && AnyColumnFull(b, drawn, n)
    ensures AnyColumnFull(b, drawn, m)
    decreases m - n
  {
    if n < m {
      AnyColumnUpTo(b, drawn, n + 1, m);
    }
  }

  lemma {:induction false} AnyRowUpTo(b: Board, drawn: set<int>, n: nat, m: nat)
    requires WellFormed(b) && n <= m <= |b| && AnyRowFull(b, drawn, n)
    ensures AnyRowFull(b, drawn, m)
    decreases m - n
  {
    if n < m {
      AnyRowUpTo(b, drawn, n + 1, m);
    }
  }

  lemma {:induction false} AnyColumnMonotone(b: Board, d1: set<int>, d2: set<int>, n: nat)
    requires WellFormed(b) && n <= |b[0]| && d1 <= d2 && AnyColumnFull(b, d1, n)
    ensures AnyColumnFull(b, d2, n)
  {
    if AnyColumnFull(b, d1, n - 1) {
      AnyColumnMonotone(b, d1, d2, n - 1);
    } else {
      assert ColumnFull(b, d2, n - 1);
    }
  }

  lemma {:induction false} AnyRowMonotone(b: Board, d1: set<int>, d2: set<int>, n: nat)
    requires WellFormed(b) && n <= |b| && d1 <= d2 && AnyRowFull(b, d1, n)
    ensures AnyRowFull(b, d2, n)
  {
    if AnyRowFull(b, d1, n - 1) {
      AnyRowMonotone(b, d1, d2, n - 1);
    } else {
      assert RowFull(b, d2, n - 1);
    }
  }

  /** A board that has won stays won as more numbers are drawn. */
  lemma WonMonotone(b: Board, d1: set<int>, d2: set<int>)
    requires WellFormed(b) && d1 <= d2 && Won(b, d1).Some?
    ensures Won(b, d2).Some?
  {
    if AnyColumnFull(b, d1, |b[0]|) {
      AnyColumnMonotone(b, d1, d2, |b[0]|);
    } else {
      AnyRowMonotone(b, d1, d2, |b|);
    }
  }

  lemma {:induction false} RowUndrawnShrinks(row: seq<int>, d1: set<int>, d2: set<int>)
    requires d1 <= d2 && forall x :: 0 <= x < |row| ==> row[x] >= 0
    ensures 0 <= RowUndrawn(row, d2) <= RowUndrawn(row, d1)
  {
    if row != [] {
      RowUndrawnShrinks(row[..|row| - 1], d1, d2);
    }
  }

  /** With numbers that are not negative, the score only shrinks as more
      numbers are drawn. */
  lemma {:induction false} UndrawnShrinks(b: Board, d1: set<int>, d2: set<int>)
    requires d1 <= d2 && forall y, x :: 0 <= y < |b| && 0 <= x < |b[y]| ==> b[y][x] >= 0
    ensures 0 <= Undrawn(b, d2) <= Undrawn(b, d1)
  {
    if b != [] {
      UndrawnShrinks(b[..|b| - 1], d1, d2);
      RowUndrawnShrinks(b[|b| - 1], d1, d2);
    }
  }

  // ---------------------------------------------------------------------
  // The draws

  /** The numbers drawn after `i` draws. */
  function Drawn(numbers: seq<int>, i: nat): set<int>
    requires i <= |numbers|
  {
    set j | 0 <= j < i :: numbers[j]
  }

  lemma DrawnNext(numbers: seq<int>, i: nat)
    requires i < |numbers|
    ensures Drawn(numbers, i + 1) == Drawn(numbers, i) + {numbers[i]}
  {
  }

  lemma DrawnMonotone(numbers: seq<int>, i: nat, j: nat)
    requires i <= j <= |numbers|
    ensures Drawn(numbers, i) <= Drawn(numbers, j)
  {
  }

  /** No board has won. */
  predicate NoWinner(blocks: seq<Board>, drawn: set<int>)
    requires AllWellFormed(blocks)
  {
    forall k :: 0 <= k < |blocks| ==> Won(blocks[k], drawn).None?
  }

  /** Every board has won. */
  predicate AllWon(blocks: seq<Board>, drawn: set<int>)
    requires AllWellFormed(blocks)
  {
    forall k :: 0 <= k < |blocks| ==> Won(blocks[k], drawn).Some?
  }

  /** The first board from `k` on that has won, with its score. */
  function FirstWinner(blocks: seq<Board>, drawn: set<int>, k: nat): (r: Option<(nat, int)>)
    requires AllWellFormed(blocks)
    ensures r.Some? ==> k <= r.value.0 < |blocks| && Won(blocks[r.value.0], drawn) == Some(r.value.1)
    ensures r.Some? ==> forall b :: k <= b < r.value.0 ==> Won(blocks[b], drawn).None?
    ensures r.None? <==> forall b :: k <= b < |blocks| ==> Won(blocks[b], drawn).None?
    decreases |blocks| - k
  {
    if k >= |blocks| then None
    else
      match Won(blocks[k], drawn)
      case Some(sum) => Some((k, sum))
      case None => FirstWinner(blocks, drawn, k + 1)
  }

  // ---------------------------------------------------------------------
  // Part one

  /** The outcome of `play1` from draw `i` on. */
  function Play1From(numbers: seq<int>, blocks: seq<Board>, i: nat): Option<int>
    requires AllWellFormed(blocks)
    decreases |numbers| - i
  {
    if i >= |numbers| then None
    else
      match FirstWinner(blocks, Drawn(numbers, i + 1), 0)
      case Some((_, sum)) => Some(sum * numbers[i])
      case None => Play1From(numbers, blocks, i + 1)
  }

  /** `play1`: draw by draw, board by board, the first board that has won. */
  method Play1(numbers: seq<int>, blocks: seq<Board>) returns (r: Option<int>)
    requires AllWellFormed(blocks)
    ensures r == Play1From(numbers, blocks, 0)
  {
    var drawn := {};
    for i := 0 to |numbers|
      invariant drawn == Drawn(numbers, i)
      invariant Play1From(numbers, blocks, 0) == Play1From(numbers, blocks, i)
    {
      var draw := numbers[i];
      drawn := drawn + {draw};
      DrawnNext(numbers, i);
      for k := 0 to |blocks|
        invariant FirstWinner(blocks, drawn, 0) == FirstWinner(blocks, drawn, k)
      {
        var won := HasWon(blocks[k], drawn);
        if won.Some? {
          return Some(won.value * draw);
        }
      }
    }
    return None;
  }

  /** When part one answers, it is the score of a board that has won at
      draw `i` times that draw, no board had won at an earlier draw, and no
      board before it has won at draw `i`. */
  lemma {:induction false} Play1Found(numbers: seq<int>, blocks: seq<Board>, from: nat) returns (i: nat, k: nat)
    requires AllWellFormed(blocks) && Play1From(numbers, blocks, from).Some?
    ensures from <= i < |numbers| && k < |blocks|
    ensures Won(blocks[k], Drawn(numbers, i + 1)).Some?
    ensures Play1From(numbers, blocks, from).value == Won(blocks[k], Drawn(numbers, i + 1)).value * numbers[i]
    ensures forall b :: 0 <= b < k ==> Won(blocks[b], Drawn(numbers, i + 1)).None?
    ensures forall m :: from < m <= i ==> NoWinner(blocks, Drawn(numbers, m))
    decreases |numbers| - from
  {
    var w := FirstWinner(blocks, Drawn(numbers, from + 1), 0);
    if w.Some? {
      i, k := from, w.value.0;
    } else {
      i, k := Play1Found(numbers, blocks, from + 1);
    }
  }

  /** Once no board has won at the last draw, none had at any draw. */
  lemma {:induction false} Play1NoneFrom(numbers: seq<int>, blocks: seq<Board>, from: nat)
    requires AllWellFormed(blocks) && NoWinner(blocks, Drawn(numbers, |numbers|))
    ensures Play1From(numbers, blocks, from).None?
    decreases |numbers| - from
  {
    if from < |numbers| {
      DrawnMonotone(numbers, from + 1, |numbers|);
      forall b | 0 <= b < |blocks|
        ensures Won(blocks[b], Drawn(numbers, from + 1)).None?
      {
        if Won(blocks[b], Drawn(numbers, from + 1)).Some? {
          WonMonotone(blocks[b], Drawn(numbers, from + 1), Drawn(numbers, |numbers|));
        }
      }
      Play1NoneFrom(numbers, blocks, from + 1);
    }
  }

  /** Part one has no answer exactly when nothing is drawn or no board has
      won once every number is drawn. */
  lemma Play1None(numbers: seq<int>, blocks: seq<Board>)
    requires AllWellFormed(blocks)
    ensures Play1From(numbers, blocks, 0).None? <==> |numbers| == 0 || NoWinner(blocks, Drawn(numbers, |numbers|))
  {
    if NoWinner(blocks, Drawn(numbers, |numbers|)) {
      Play1NoneFrom(numbers, blocks, 0);
    } else if |numbers| > 0 && Play1From(numbers, blocks, 0).None? {
      Play1LastDraw(numbers, blocks, 0);
    }
  }

  lemma {:induction false} Play1LastDraw(numbers: seq<int>, blocks: seq<Board>, from: nat)
    requires AllWellFormed(blocks) && from < |numbers| && Play1From(numbers, blocks, from).None?
    ensures NoWinner(blocks, Drawn(numbers, |numbers|))
    decreases |numbers| - from
  {
    if from + 1 < |numbers| {
      Play1LastDraw(numbers, blocks, from + 1);
    }
  }

  // ---------------------------------------------------------------------
  // Part two

  /** The boards from `k` on, as values. */
  function BoardsFrom(blocks: seq<Board>, k: nat): set<Board>
  {
    set j | k <= j < |blocks| :: blocks[j]
  }

  /** The boards from `k` on that have won, as values: equal boards are
      one element, as the source's set of references hashes and compares
      the boards themselves. */
  function WinnersFrom(blocks: seq<Board>, drawn: set<int>, k: nat): set<Board>
    requires AllWellFormed(blocks)
  {
    set j | k <= j < |blocks| && Won(blocks[j], drawn).Some? :: blocks[j]
  }

  lemma BoardsStep(blocks: seq<Board>, k: nat)
    requires k < |blocks|
    ensures BoardsFrom(blocks, k) == {blocks[k]} + BoardsFrom(blocks, k + 1)
  {
  }

  lemma WinnersStep(blocks: seq<Board>, drawn: set<int>, k: nat)
    requires AllWellFormed(blocks) && k < |blocks|
    ensures WinnersFrom(blocks, drawn, k) ==
      (if Won(blocks[k], drawn).Some? then {blocks[k]} else {}) + WinnersFrom(blocks, drawn, k + 1)
  {
  }

  /** The winners are some of the boards, and a board is among them
      exactly when it has won. */
  lemma WinnersMember(blocks: seq<Board>, drawn: set<int>)
    requires AllWellFormed(blocks)
    ensures WinnersFrom(blocks, drawn, 0) <= BoardsFrom(blocks, 0)
    ensures forall b :: 0 <= b < |blocks| ==> (blocks[b] in WinnersFrom(blocks, drawn, 0) <==> Won(blocks[b], drawn).Some?)
  {
  }

  /** There are no more board values than boards. */
  lemma {:induction false} BoardsCount(blocks: seq<Board>, k: nat)
    requires k <= |blocks|
    ensures |BoardsFrom(blocks, k)| <= |blocks| - k
    decreases |blocks| - k
  {
    if k < |blocks| {
      BoardsCount(blocks, k + 1);
      BoardsStep(blocks, k);
      var rest := BoardsFrom(blocks, k + 1);
      if blocks[k] in rest {
        assert {blocks[k]} + rest == rest;
      } else {
        assert |{blocks[k]} + rest| == |rest| + 1;
      }
    } else {
      assert BoardsFrom(blocks, k) == {};
    }
  }

  predicate NoDuplicates(blocks: seq<Board>)
  {
    forall i, j :: 0 <= i < j < |blocks| ==> blocks[i] != blocks[j]
  }

  /** The boards are pairwise different exactly when there are as many
      board values as boards. */
  lemma {:induction false} DistinctCount(blocks: seq<Board>, k: nat)
    requires k <= |blocks|
    ensures |BoardsFrom(blocks, k)| == |blocks| - k <==>
      forall i, j :: k <= i < j < |blocks| ==> blocks[i] != blocks[j]
    decreases |blocks| - k
  {
    if k < |blocks| {
      DistinctCount(blocks, k + 1);
      BoardsCount(blocks, k + 1);
      BoardsStep(blocks, k);
      var rest := BoardsFrom(blocks, k + 1);
      if blocks[k] in rest {
        assert {blocks[k]} + rest == rest;
        var j :| k + 1 <= j < |blocks| && blocks[j] == blocks[k];
        assert blocks[k] == blocks[j];
      } else {
        assert |{blocks[k]} + rest| == |rest| + 1;
        forall i, j | k <= i < j < |blocks|
          ensures (forall i', j' :: k + 1 <= i' < j' < |blocks| ==> blocks[i'] != blocks[j']) ==> blocks[i] != blocks[j]
        {
          if i == k {
            assert blocks[j] in rest;
          }
        }
      }
    } else {
      assert BoardsFrom(blocks, k) == {};
    }
  }

  /** Adding an element already present changes nothing; adding a new one
      adds one to the size. */
  lemma AddOne<T>(s: set<T>, x: T)
    ensures x in s ==> s + {x} == s
    ensures x !in s ==> |s + {x}| == |s| + 1
  {
  }

  lemma SubsetCard<T>(a: set<T>, b: set<T>)
    requires a <= b
    ensures |a| <= |b| && (|a| == |b| ==> a == b)
  {
    assert b == a + (b - a);
    if |a| == |b| {
      assert |b - a| == 0;
    }
  }

  /** As many winners as boards means every board has won. */
  lemma WinnersFull(blocks: seq<Board>, drawn: set<int>)
    requires AllWellFormed(blocks) && |WinnersFrom(blocks, drawn, 0)| >= |blocks|
    ensures AllWon(blocks, drawn) && NoDuplicates(blocks)
  {
    var w := WinnersFrom(blocks, drawn, 0);
    var all := BoardsFrom(blocks, 0);
    WinnersMember(blocks, drawn);
    BoardsCount(blocks, 0);
    SubsetCard(w, all);
    DistinctCount(blocks, 0);
  }

  /** With every board won, the winners are all the boards. */
  lemma AllWonWinners(blocks: seq<Board>, drawn: set<int>)
    requires AllWellFormed(blocks) && AllWon(blocks, drawn)
    ensures WinnersFrom(blocks, drawn, 0) == BoardsFrom(blocks, 0)
  {
    WinnersMember(blocks, drawn);
  }

  /** The winners only grow as more numbers are drawn. */
  lemma WinnersMonotone(blocks: seq<Board>, d1: set<int>, d2: set<int>)
    requires AllWellFormed(blocks) && d1 <= d2
    ensures WinnersFrom(blocks, d1, 0) <= WinnersFrom(blocks, d2, 0)
  {
    forall x | x in WinnersFrom(blocks, d1, 0)
      ensures x in WinnersFrom(blocks, d2, 0)
    {
      var j :| 0 <= j < |blocks| && Won(blocks[j], d1).Some? && blocks[j] == x;
      WonMonotone(blocks[j], d1, d2);
    }
  }

  /** The inner loop of `play2` over the boards, from board `k` on, with
      the winners so far: it finishes with a score or carries the winners
      on to the next draw. */
  datatype Round = Finished(sum: int) | Going(winners: set<Board>)

  function RoundFrom(blocks: seq<Board>, drawn: set<int>, k: nat, winners: set<Board>): Round
    requires AllWellFormed(blocks)
    decreases |blocks| - k
  {
    if k >= |blocks| then Going(winners)
    else
      match Won(blocks[k], drawn)
      case None => RoundFrom(blocks, drawn, k + 1, winners)
      case Some(sum) =>
        var w := winners + {blocks[k]};
        if |w| == |blocks| then Finished(sum) else RoundFrom(blocks, drawn, k + 1, w)
  }

  /** A round that does not finish adds the boards that have won to the
      winners, and it has not completed them if any board won in it. */
  lemma {:induction false} RoundGoing(blocks: seq<Board>, drawn: set<int>, k: nat, winners: set<Board>)
    requires AllWellFormed(blocks) && RoundFrom(blocks, drawn, k, winners).Going?
    ensures RoundFrom(blocks, drawn, k, winners).winners == winners + WinnersFrom(blocks, drawn, k)
    ensures WinnersFrom(blocks, drawn, k) != {} ==> |RoundFrom(blocks, drawn, k, winners).winners| != |blocks|
    decreases |blocks| - k
  {
    if k < |blocks| {
      WinnersStep(blocks, drawn, k);
      if Won(blocks[k], drawn).Some? {
        var w := winners + {blocks[k]};
        RoundGoing(blocks, drawn, k + 1, w);
      } else {
        RoundGoing(blocks, drawn, k + 1, winners);
      }
    } else {
      assert WinnersFrom(blocks, drawn, k) == {};
    }
  }

  /** A round that finishes does so at a board that has won, was not among
      the winners before, and completes them. */
  lemma {:induction false} RoundFinished(blocks: seq<Board>, drawn: set<int>, k: nat, winners: set<Board>) returns (j: nat)
    requires AllWellFormed(blocks) && |winners| != |blocks| && RoundFrom(blocks, drawn, k, winners).Finished?
    ensures k <= j < |blocks| && Won(blocks[j], drawn) == Some(RoundFrom(blocks, drawn, k, winners).sum)
    ensures blocks[j] !in winners
    ensures |winners + WinnersFrom(blocks, drawn, k)| >= |blocks|
    decreases |blocks| - k
  {
    var w := winners + {blocks[k]};
    WinnersStep(blocks, drawn, k);
    AddOne(winners, blocks[k]);
    if Won(blocks[k], drawn).Some? && |w| == |blocks| {
      j := k;
      SubsetCard(w, winners + WinnersFrom(blocks, drawn, k));
    } else if Won(blocks[k], drawn).Some? {
      j := RoundFinished(blocks, drawn, k + 1, w);
      SubsetCard(w + WinnersFrom(blocks, drawn, k + 1), winners + WinnersFrom(blocks, drawn, k));
    } else {
      j := RoundFinished(blocks, drawn, k + 1, winners);
    }
  }

  /** The winners recorded after draw `i`. */
  function Recorded(numbers: seq<int>, blocks: seq<Board>, i: nat): set<Board>
    requires AllWellFormed(blocks) && i <= |numbers|
  {
    if i == 0 then {} else WinnersFrom(blocks, Drawn(numbers, i), 0)
  }

  /** The outcome of `play2` from draw `i` on, with the winners so far. */
  function Play2From(numbers: seq<int>, blocks: seq<Board>, i: nat, winners: set<Board>): Option<int>
    requires AllWellFormed(blocks)
    decreases |numbers| - i
  {
    if i >= |numbers| then None
    else
      match RoundFrom(blocks, Drawn(numbers, i + 1), 0, winners)
      case Finished(sum) => Some(sum * numbers[i])
      case Going(w) => Play2From(numbers, blocks, i + 1, w)
  }

  /** After a round that does not finish, the winners are those recorded
      for the next draw, and they are still not all the boards. */
  lemma RoundCarries(numbers: seq<int>, blocks: seq<Board>, i: nat)
    requires AllWellFormed(blocks) && i < |numbers|
    requires |Recorded(numbers, blocks, i)| != |blocks|
    requires RoundFrom(blocks, Drawn(numbers, i + 1), 0, Recorded(numbers, blocks, i)).Going?
    ensures RoundFrom(blocks, Drawn(numbers, i + 1), 0, Recorded(numbers, blocks, i)).winners == Recorded(numbers, blocks, i + 1)
    ensures |Recorded(numbers, blocks, i + 1)| != |blocks|
  {
    var d := Drawn(numbers, i + 1);
    var w := Recorded(numbers, blocks, i);
    RoundGoing(blocks, d, 0, w);
    if i > 0 {
      DrawnMonotone(numbers, i, i + 1);
      WinnersMonotone(blocks, Drawn(numbers, i), d);
    }
    assert w + WinnersFrom(blocks, d, 0) == WinnersFrom(blocks, d, 0);
  }

  /** `play2`: draw by draw, board by board, every board that has won joins
      the set of winners; the draw at which the set holds as many boards as
      there are ends the game. */
  method Play2(numbers: seq<int>, blocks: seq<Board>) returns (r: Option<int>)
    requires AllWellFormed(blocks)
    ensures r == Play2From(numbers, blocks, 0, {})
  {
    var drawn := {};
    var winners := {};
    for i := 0 to |numbers|
      invariant drawn == Drawn(numbers, i)
      invariant Play2From(numbers, blocks, 0, {}) == Play2From(numbers, blocks, i, winners)
    {
      var draw := numbers[i];
      drawn := drawn + {draw};
      DrawnNext(numbers, i);
      var start := winners;
      for k := 0 to |blocks|
        invariant RoundFrom(blocks, drawn, 0, start) == RoundFrom(blocks, drawn, k, winners)
      {
        var won := HasWon(blocks[k], drawn);
        if won.Some? {
          winners := winners + {blocks[k]};
          if |winners| == |blocks| {
            return Some(won.value * draw);
          }
        }
      }
    }
    return None;
  }

  /** A round that finishes does so at a board that has won at this draw
      and not before, once every board has won; the boards are then
      pairwise different. */
  lemma RoundFinishes(numbers: seq<int>, blocks: seq<Board>, i: nat) returns (k: nat)
    requires AllWellFormed(blocks) && i < |numbers|
    requires |Recorded(numbers, blocks, i)| != |blocks|
    requires RoundFrom(blocks, Drawn(numbers, i + 1), 0, Recorded(numbers, blocks, i)).Finished?
    ensures k < |blocks|
    ensures Won(blocks[k], Drawn(numbers, i + 1)) == Some(RoundFrom(blocks, Drawn(numbers, i + 1), 0, Recorded(numbers, blocks, i)).sum)
    ensures AllWon(blocks, Drawn(numbers, i + 1)) && NoDuplicates(blocks)
    ensures i > 0 ==> Won(blocks[k], Drawn(numbers, i)).None?
  {
    var d := Drawn(numbers, i + 1);
    var w := Recorded(numbers, blocks, i);
    k := RoundFinished(blocks, d, 0, w);
    if i > 0 {
      DrawnMonotone(numbers, i, i + 1);
      WinnersMonotone(blocks, Drawn(numbers, i), d);
      WinnersMember(blocks, Drawn(numbers, i));
    }
    assert w + WinnersFrom(blocks, d, 0) == WinnersFrom(blocks, d, 0);
    WinnersFull(blocks, d);
  }

  /** With pairwise different boards that have all won at draw `i`, the
      round of that draw records a winner and ends with all the boards. */
  lemma RoundFull(numbers: seq<int>, blocks: seq<Board>, i: nat)
    requires AllWellFormed(blocks) && i < |numbers| && |blocks| > 0 && NoDuplicates(blocks)
    requires AllWon(blocks, Drawn(numbers, i + 1))
    ensures WinnersFrom(blocks, Drawn(numbers, i + 1), 0) != {}
    ensures |Recorded(numbers, blocks, i) + WinnersFrom(blocks, Drawn(numbers, i + 1), 0)| == |blocks|
  {
    var d := Drawn(numbers, i + 1);
    var w := Recorded(numbers, blocks, i);
    var all := BoardsFrom(blocks, 0);
    AllWonWinners(blocks, d);
    WinnersMember(blocks, d);
    if i > 0 {
      WinnersMember(blocks, Drawn(numbers, i));
    }
    assert w <= all;
    assert w + all == all;
    DistinctCount(blocks, 0);
    assert blocks[0] in WinnersFrom(blocks, d, 0);
  }

  /** With pairwise different boards, a round that does not finish is one
      after which some board has still not won. */
  lemma RoundNotAllWon(numbers: seq<int>, blocks: seq<Board>, i: nat)
    requires AllWellFormed(blocks) && i < |numbers| && |blocks| > 0 && NoDuplicates(blocks)
    requires RoundFrom(blocks, Drawn(numbers, i + 1), 0, Recorded(numbers, blocks, i)).Going?
    ensures !AllWon(blocks, Drawn(numbers, i + 1))
  {
    if AllWon(blocks, Drawn(numbers, i + 1)) {
      RoundFull(numbers, blocks, i);
      RoundGoing(blocks, Drawn(numbers, i + 1), 0, Recorded(numbers, blocks, i));
    }
  }

  /** Part two, played from draw `from`, answers the score at draw `i` of
      board `k` times that draw: every board has won by then, board `k`
      had not won before this draw, and at no draw between `from` and `i`
      had every board won. */
  ghost predicate Play2Witness(numbers: seq<int>, blocks: seq<Board>, from: nat, i: nat, k: nat)
    requires AllWellFormed(blocks) && from <= |numbers|
  {
    && from <= i < |numbers| && k < |blocks|
    && AllWon(blocks, Drawn(numbers, i + 1)) && NoDuplicates(blocks)
    && Play2From(numbers, blocks, from, Recorded(numbers, blocks, from)) ==
      Some(Won(blocks[k], Drawn(numbers, i + 1)).value * numbers[i])
    && (i > 0 ==> Won(blocks[k], Drawn(numbers, i)).None?)
    && (i > from ==> !AllWon(blocks, Drawn(numbers, i)))
  }

  /** When part two answers, there is a draw and a board that account for
      the answer. */
  lemma {:induction false} Play2Found(numbers: seq<int>, blocks: seq<Board>, from: nat) returns (i: nat, k: nat)
    requires AllWellFormed(blocks) && from <= |numbers|
    requires |Recorded(numbers, blocks, from)| != |blocks|
    requires Play2From(numbers, blocks, from, Recorded(numbers, blocks, from)).Some?
    ensures Play2Witness(numbers, blocks, from, i, k)
    decreases |numbers| - from, 1
  {
    if RoundFrom(blocks, Drawn(numbers, from + 1), 0, Recorded(numbers, blocks, from)).Finished? {
      i := from;
      k := Play2FoundNow(numbers, blocks, from);
    } else {
      i, k := Play2FoundLater(numbers, blocks, from);
    }
  }

  /** The same, when the round of draw `from` finishes. */
  lemma Play2FoundNow(numbers: seq<int>, blocks: seq<Board>, from: nat) returns (k: nat)
    requires AllWellFormed(blocks) && from < |numbers|
    requires |Recorded(numbers, blocks, from)| != |blocks|
    requires RoundFrom(blocks, Drawn(numbers, from + 1), 0, Recorded(numbers, blocks, from)).Finished?
    ensures Play2Witness(numbers, blocks, from, from, k)
  {
    var round := RoundFrom(blocks, Drawn(numbers, from + 1), 0, Recorded(numbers, blocks, from));
    k := RoundFinishes(numbers, blocks, from);
    assert Play2From(numbers, blocks, from, Recorded(numbers, blocks, from)) == Some(round.sum * numbers[from]);
  }

  /** The same, when the round of draw `from` does not finish. */
  lemma {:induction false} Play2FoundLater(numbers: seq<int>, blocks: seq<Board>, from: nat) returns (i: nat, k: nat)
    requires AllWellFormed(blocks) && from < |numbers|
    requires |Recorded(numbers, blocks, from)| != |blocks|
    requires RoundFrom(blocks, Drawn(numbers, from + 1), 0, Recorded(numbers, blocks, from)).Going?
    requires Play2From(numbers, blocks, from, Recorded(numbers, blocks, from)).Some?
    ensures Play2Witness(numbers, blocks, from, i, k)
    decreases |numbers| - from, 0
  {
    RoundCarries(numbers, blocks, from);
    assert Play2From(numbers, blocks, from, Recorded(numbers, blocks, from)) ==
      Play2From(numbers, blocks, from + 1, Recorded(numbers, blocks, from + 1));
    i, k := Play2Found(numbers, blocks, from + 1);
    RoundNotAllWon(numbers, blocks, from);
  }

  /** With pairwise different boards that have all won by the last draw,
      part two answers. */
  lemma {:induction false} Play2Reaches(numbers: seq<int>, blocks: seq<Board>, from: nat)
    requires AllWellFormed(blocks) && from < |numbers| && |blocks| > 0 && NoDuplicates(blocks)
    requires AllWon(blocks, Drawn(numbers, |numbers|))
    requires |Recorded(numbers, blocks, from)| != |blocks|
    ensures Play2From(numbers, blocks, from, Recorded(numbers, blocks, from)).Some?
    decreases |numbers| - from
  {
    Play2Step(numbers, blocks, from);
    if Play2From(numbers, blocks, from, Recorded(numbers, blocks, from)).None? {
      Play2Reaches(numbers, blocks, from + 1);
    }
  }

  /** One draw of part two: either the game ends with an answer, or it
      goes on from the next draw, which exists, with the winners recorded
      for it, still not all the boards. */
  lemma Play2Step(numbers: seq<int>, blocks: seq<Board>, from: nat)
    requires AllWellFormed(blocks) && from < |numbers| && |blocks| > 0 && NoDuplicates(blocks)
    requires AllWon(blocks, Drawn(numbers, |numbers|))
    requires |Recorded(numbers, blocks, from)| != |blocks|
    ensures Play2From(numbers, blocks, from, Recorded(numbers, blocks, from)).None? ==>
      from + 1 < |numbers| && |Recorded(numbers, blocks, from + 1)| != |blocks| &&
      Play2From(numbers, blocks, from, Recorded(numbers, blocks, from)) == Play2From(numbers, blocks, from + 1, Recorded(numbers, blocks, from + 1))
  {
    var round := RoundFrom(blocks, Drawn(numbers, from + 1), 0, Recorded(numbers, blocks, from));
    if from + 1 == |numbers| {
      RoundAllWonFinishes(numbers, blocks, from);
      Play2FromFinished(numbers, blocks, from, Recorded(numbers, blocks, from));
    } else if round.Going? {
      Play2Carries(numbers, blocks, from);
    } else {
      Play2FromFinished(numbers, blocks, from, Recorded(numbers, blocks, from));
    }
  }

  /** A round that finishes ends part two with an answer. */
  lemma Play2FromFinished(numbers: seq<int>, blocks: seq<Board>, i: nat, winners: set<Board>)
    requires AllWellFormed(blocks) && i < |numbers|
    requires RoundFrom(blocks, Drawn(numbers, i + 1), 0, winners).Finished?
    ensures Play2From(numbers, blocks, i, winners).Some?
  {
  }

  /** The round of a draw after which every board has won finishes the
      game. */
  lemma RoundAllWonFinishes(numbers: seq<int>, blocks: seq<Board>, i: nat)
    requires AllWellFormed(blocks) && i < |numbers| && |blocks| > 0 && NoDuplicates(blocks)
    requires AllWon(blocks, Drawn(numbers, i + 1))
    ensures RoundFrom(blocks, Drawn(numbers, i + 1), 0, Recorded(numbers, blocks, i)).Finished?
  {
    if RoundFrom(blocks, Drawn(numbers, i + 1), 0, Recorded(numbers, blocks, i)).Going? {
      RoundNotAllWon(numbers, blocks, i);
      assert false;
    }
  }

  /** After a round that does not finish, part two goes on from the next
      draw with the winners recorded for it, still not all the boards. */
  lemma Play2Carries(numbers: seq<int>, blocks: seq<Board>, i: nat)
    requires AllWellFormed(blocks) && i < |numbers|
    requires |Recorded(numbers, blocks, i)| != |blocks|
    requires RoundFrom(blocks, Drawn(numbers, i + 1), 0, Recorded(numbers, blocks, i)).Going?
    ensures Play2From(numbers, blocks, i, Recorded(numbers, blocks, i)) == Play2From(numbers, blocks, i + 1, Recorded(numbers, blocks, i + 1))
    ensures |Recorded(numbers, blocks, i + 1)| != |blocks|
  {
    RoundCarries(numbers, blocks, i);
    Play2FromStep(numbers, blocks, i, Recorded(numbers, blocks, i));
  }

  /** A round that does not finish hands its winners to the next draw. */
  lemma Play2FromStep(numbers: seq<int>, blocks: seq<Board>, i: nat, winners: set<Board>)
    requires AllWellFormed(blocks) && i < |numbers|
    requires RoundFrom(blocks, Drawn(numbers, i + 1), 0, winners).Going?
    ensures Play2From(numbers, blocks, i, winners)
      == Play2From(numbers, blocks, i + 1, RoundFrom(blocks, Drawn(numbers, i + 1), 0, winners).winners)
  {
  }

  /** Every board won at some draw has still won at a later one. */
  lemma AllWonMonotone(numbers: seq<int>, blocks: seq<Board>, m: nat, n: nat)
    requires AllWellFormed(blocks) && m <= n <= |numbers| && AllWon(blocks, Drawn(numbers, m))
    ensures AllWon(blocks, Drawn(numbers, n))
  {
    DrawnMonotone(numbers, m, n);
    forall b | 0 <= b < |blocks|
      ensures Won(blocks[b], Drawn(numbers, n)).Some?
    {
      WonMonotone(blocks[b], Drawn(numbers, m), Drawn(numbers, n));
    }
  }

  /** Part two's answer is the score at draw `i` of board `k` times that
      draw, where draw `i` is the first after which every board has won
      and board `k` is one that won only at that draw. */
  lemma Play2Winner(numbers: seq<int>, blocks: seq<Board>) returns (i: nat, k: nat)
    requires AllWellFormed(blocks) && Play2From(numbers, blocks, 0, {}).Some?
    ensures i < |numbers| && k < |blocks| && NoDuplicates(blocks)
    ensures AllWon(blocks, Drawn(numbers, i + 1))
    ensures Play2From(numbers, blocks, 0, {}).value == Won(blocks[k], Drawn(numbers, i + 1)).value * numbers[i]
    ensures forall m :: 0 < m <= i ==> !AllWon(blocks, Drawn(numbers, m))
    ensures i > 0 ==> Won(blocks[k], Drawn(numbers, i)).None?
  {
    if |blocks| == 0 {
      EmptyNeverFinishes(numbers, blocks, 0);
    }
    i, k := Play2Found(numbers, blocks, 0);
    forall m | 0 < m <= i
      ensures !AllWon(blocks, Drawn(numbers, m))
    {
      if AllWon(blocks, Drawn(numbers, m)) {
        AllWonMonotone(numbers, blocks, m, i);
      }
    }
  }

  /** Part two answers exactly when something is drawn, there is a board,
      no two boards are equal, and every board has won by the last draw. */
  lemma Play2Answers(numbers: seq<int>, blocks: seq<Board>)
    requires AllWellFormed(blocks)
    ensures Play2From(numbers, blocks, 0, {}).Some? <==>
      |numbers| > 0 && |blocks| > 0 && NoDuplicates(blocks) && AllWon(blocks, Drawn(numbers, |numbers|))
  {
    if Play2From(numbers, blocks, 0, {}).Some? {
      if |blocks| == 0 {
        EmptyNeverFinishes(numbers, blocks, 0);
      } else {
        var i, k := Play2Found(numbers, blocks, 0);
        DrawnMonotone(numbers, i + 1, |numbers|);
        forall b | 0 <= b < |blocks|
          ensures Won(blocks[b], Drawn(numbers, |numbers|)).Some?
        {
          WonMonotone(blocks[b], Drawn(numbers, i + 1), Drawn(numbers, |numbers|));
        }
      }
    } else if |numbers| > 0 && |blocks| > 0 && NoDuplicates(blocks) && AllWon(blocks, Drawn(numbers, |numbers|)) {
      Play2Reaches(numbers, blocks, 0);
    }
  }

  lemma {:induction false} EmptyNeverFinishes(numbers: seq<int>, blocks: seq<Board>, from: nat)
    requires blocks == []
    ensures Play2From(numbers, blocks, from, {}).None?
    decreases |numbers| - from
  {
    if from < |numbers| {
      EmptyNeverFinishes(numbers, blocks, from + 1);
    }
  }
}
