/** `day-21/src/main.rs`: Dirac dice. Part 1 plays the deterministic die
    through a closed form for each player's position; part 2 counts, for
    every split of the universe by three rolls of a three-sided die, which
    player reaches the target score first, memoising on the game state. */
module Day21 {
  import opened Common

  // ---------------------------------------------------------------------
  // DICE_SUM_FREQUENCIES

  /** The frequencies of the sums 3 to 9 of three rolls of a three-sided
      die. */
  const Frequencies: seq<nat> := [1, 3, 6, 7, 6, 3, 1]

  /** How many last rolls below `c` bring the first two rolls, which sum to
      `s - x`, up to `s`. */
  function LastRolls(x: int, c: nat): nat
  {
    if 1 <= x < c then 1 else 0
  }

  /** How many middle rolls below `b`, each with every last roll, reach
      `x`. */
  function MiddleRolls(x: int, b: nat): nat
  {
    (if b > 1 then LastRolls(x - 1, 4) else 0) +
    (if b > 2 then LastRolls(x - 2, 4) else 0) +
    (if b > 3 then LastRolls(x - 3, 4) else 0)
  }

  /** How many first rolls below `a`, each with every pair of later rolls,
      reach `s`. */
  function FirstRolls(s: int, a: nat): nat
  {
    (if a > 1 then MiddleRolls(s - 1, 4) else 0) +
    (if a > 2 then MiddleRolls(s - 2, 4) else 0) +
    (if a > 3 then MiddleRolls(s - 3, 4) else 0)
  }

  /** The frequencies add up to the 27 outcomes. */
  lemma FrequenciesTotal()
    ensures Sum(Frequencies) == 27 && forall k :: 0 <= k < 7 ==> Frequencies[k] == FirstRolls(k + 3, 4)
  {
    var f := Frequencies;
    assert f[..1][..0] == [] && Sum(f[..1]) == 1;
    assert f[..2][..1] == f[..1] && Sum(f[..2]) == 4;
    assert f[..3][..2] == f[..2] && Sum(f[..3]) == 10;
    assert f[..4][..3] == f[..3] && Sum(f[..4]) == 17;
    assert f[..5][..4] == f[..4] && Sum(f[..5]) == 23;
    assert f[..6][..5] == f[..5] && Sum(f[..6]) == 26;
    assert f[..6] == f[..|f| - 1];
  }

  /** The static table: one counter per sum, bumped for every outcome. */
  method ComputeFrequencies() returns (counts: array<nat>)
    ensures fresh(counts) && counts[..] == Frequencies
  {
    counts := new nat[7](_ => 0);
    for a := 1 to 4
      invariant forall k :: 0 <= k < 7 ==> counts[k] == FirstRolls(k + 3, a)
    {
      for b := 1 to 4
        invariant forall k :: 0 <= k < 7 ==> counts[k] == FirstRolls(k + 3, a) + MiddleRolls(k + 3 - a, b)
      {
        for c := 1 to 4
          invariant forall k :: 0 <= k < 7 ==>
            counts[k] == FirstRolls(k + 3, a) + MiddleRolls(k + 3 - a, b) + LastRolls(k + 3 - a - b, c)
        {
          counts[a + b + c - 3] := counts[a + b + c - 3] + 1;
        }
      }
    }
    FrequenciesTotal();
  }

  // ---------------------------------------------------------------------
  // The board

  /** `((p + sum - 1) % 10) + 1`: the square `sum` steps on from `p` on a
      ring of ten squares numbered 1 to 10. */
  function Advance(p: nat, sum: nat): (q: nat)
    requires sum >= 1
    ensures 1 <= q <= 10
    ensures (q - p - sum) % 10 == 0
  {
    (p + sum - 1) % 10 + 1
  }

  /** The state of a game: both scores, both positions, and whether player
      1 moves next. */
  datatype Game = Game(scores: (nat, nat), positions: (nat, nat), p1: bool)

  /** The player to move advances by `sum` and scores the square reached;
      the other player is untouched and the turn passes. */
  function Turn(g: Game, sum: nat): (h: Game)
    requires sum >= 1
    ensures h.p1 == !g.p1
    ensures g.p1 ==> (h.positions.1 == g.positions.1 && h.scores.1 == g.scores.1 &&
      h.scores.0 == g.scores.0 + h.positions.0 && 1 <= h.positions.0 <= 10)
    ensures !g.p1 ==> (h.positions.0 == g.positions.0 && h.scores.0 == g.scores.0 &&
      h.scores.1 == g.scores.1 + h.positions.1 && 1 <= h.positions.1 <= 10)
  {
    if g.p1 then
      var pos := Advance(g.positions.0, sum);
      Game((g.scores.0 + pos, g.scores.1), (pos, g.positions.1), false)
    else
      var pos := Advance(g.positions.1, sum);
      Game((g.scores.0, g.scores.1 + pos), (g.positions.0, pos), true)
  }

  predicate Over(g: Game, maxScore: nat)
  {
    g.scores.0 >= maxScore || g.scores.1 >= maxScore
  }

  /** How far both players still are from the target: every turn of a game
      that is not over lowers it by at least one. */
  function Distance(g: Game, maxScore: nat): nat
  {
    (if g.scores.0 < maxScore then maxScore - g.scores.0 else 0) +
    (if g.scores.1 < maxScore then maxScore - g.scores.1 else 0)
  }

  lemma TurnApproaches(g: Game, sum: nat, maxScore: nat)
    requires sum >= 1 && !Over(g, maxScore)
    ensures Distance(Turn(g, sum), maxScore) < Distance(g, maxScore)
  {
  }

  // ---------------------------------------------------------------------
  // play_quantum

  /** The universes in which player 1 and player 2 win, from `g` on:
      player 1's win is checked first, and a game that is not over splits
      into the seven dice sums, weighted by their frequencies. */
  function Wins(g: Game, maxScore: nat): (nat, nat)
    decreases Distance(g, maxScore), 1
  {
    if g.scores.0 >= maxScore then (1, 0)
    else if g.scores.1 >= maxScore then (0, 1)
    else Weighted(g, maxScore, 7)
  }

  /** The weighted sum of the outcomes of the first `k` dice sums. */
  function Weighted(g: Game, maxScore: nat, k: nat): (nat, nat)
    requires !Over(g, maxScore) && k <= 7
    decreases Distance(g, maxScore), 0, k
  {
    if k == 0 then (0, 0)
    else
      var prev := Weighted(g, maxScore, k - 1);
      TurnApproaches(g, k + 2, maxScore);
      var sub := Wins(Turn(g, k + 2), maxScore);
      (prev.0 + Frequencies[k - 1] * sub.0, prev.1 + Frequencies[k - 1] * sub.1)
  }

  function SwapPair(r: (nat, nat)): (nat, nat)
  {
    (r.1, r.0)
  }

  /** The same game seen from the other player's seat. */
  function Swap(g: Game): Game
  {
    Game((g.scores.1, g.scores.0), (g.positions.1, g.positions.0), !g.p1)
  }

  lemma TurnSwap(g: Game, sum: nat)
    requires sum >= 1
    ensures Turn(Swap(g), sum) == Swap(Turn(g, sum))
  {
  }

  /** The count is symmetric in the players: exchanging their scores,
      positions and turn exchanges the two win counts. A state where both
      have won cannot be reached, as only the mover scores. */
  lemma {:induction false} WinsSymmetric(g: Game, maxScore: nat)
    requires !(g.scores.0 >= maxScore && g.scores.1 >= maxScore)
    ensures Wins(Swap(g), maxScore) == SwapPair(Wins(g, maxScore))
    decreases Distance(g, maxScore), 1
  {
    if !Over(g, maxScore) {
      WeightedSymmetric(g, maxScore, 7);
    }
  }

  lemma {:induction false} WeightedSymmetric(g: Game, maxScore: nat, k: nat)
    requires !Over(g, maxScore) && k <= 7
    ensures Weighted(Swap(g), maxScore, k) == SwapPair(Weighted(g, maxScore, k))
    decreases Distance(g, maxScore), 0, k
  {
    if k > 0 {
      WeightedSymmetric(g, maxScore, k - 1);
      TurnApproaches(g, k + 2, maxScore);
      var h := Turn(g, k + 2);
      TurnSwap(g, k + 2);
      WinsSymmetric(h, maxScore);
      var prev, sub, f := Weighted(g, maxScore, k - 1), Wins(h, maxScore), Frequencies[k - 1];
      assert Weighted(g, maxScore, k) == (prev.0 + f * sub.0, prev.1 + f * sub.1);
      assert Weighted(Swap(g), maxScore, k) == (prev.1 + f * sub.1, prev.0 + f * sub.0);
    }
  }

  /** Every state leads to at least one universe, and a game that is not
      over splits into at least 27. */
  lemma {:induction false} WinsCount(g: Game, maxScore: nat)
    ensures Wins(g, maxScore).0 + Wins(g, maxScore).1 >= (if Over(g, maxScore) then 1 else 27)
    decreases Distance(g, maxScore), 1
  {
    if !Over(g, maxScore) {
      WeightedCount(g, maxScore, 7);
      FrequenciesTotal();
      assert Frequencies[..7] == Frequencies;
    }
  }

  lemma {:induction false} WeightedCount(g: Game, maxScore: nat, k: nat)
    requires !Over(g, maxScore) && k <= 7
    ensures Weighted(g, maxScore, k).0 + Weighted(g, maxScore, k).1 >= Sum(Frequencies[..k])
    decreases Distance(g, maxScore), 0, k
  {
    if k > 0 {
      WeightedCount(g, maxScore, k - 1);
      TurnApproaches(g, k + 2, maxScore);
      WinsCount(Turn(g, k + 2), maxScore);
      assert Frequencies[..k][..k - 1] == Frequencies[..k - 1];
      var sub := Wins(Turn(g, k + 2), maxScore);
      WeightedAtLeast(Frequencies[k - 1], sub.0, sub.1);
    }
  }

  lemma WeightedAtLeast(f: nat, x: nat, y: nat)
    requires x + y >= 1
    ensures f * x + f * y >= f
  {
    assert f * x + f * y == f * (x + y);
  }

  /** The memo table of `play_quantum`, for one target score: the source
      keys it on the state alone. */
  class QuantumCache {
    var entries: map<Game, (nat, nat)>

    predicate Valid(maxScore: nat)
      reads this
    {
      forall g :: g in entries ==> entries[g] == Wins(g, maxScore)
    }

    constructor()
      ensures entries == map[]
    {
      entries := map[];
    }

    /** `play_quantum`: the win counts from `g`, filling the cache. */
    method PlayQuantum(g: Game, maxScore: nat) returns (r: (nat, nat))
      requires Valid(maxScore)
      modifies this
      ensures Valid(maxScore) && r == Wins(g, maxScore)
      decreases Distance(g, maxScore)
    {
      if g.scores.0 >= maxScore {
        return (1, 0);
      }
      if g.scores.1 >= maxScore {
        return (0, 1);
      }
      if g in entries {
        return entries[g];
      }
      var acc: (nat, nat) := (0, 0);
      var idx := 0;
      while idx < 7
        invariant Valid(maxScore) && idx <= 7 && acc == Weighted(g, maxScore, idx)
      {
        var sum := idx + 3;
        TurnApproaches(g, sum, maxScore);
        var sub := PlayQuantum(Turn(g, sum), maxScore);
        acc := (acc.0 + Frequencies[idx] * sub.0, acc.1 + Frequencies[idx] * sub.1);
        idx := idx + 1;
      }
      entries := entries[g := acc];
      return acc;
    }
  }

  /** Part 2: the larger win count from the starting squares, to 21. */
  method Part2(start: (nat, nat)) returns (r: nat)
    ensures var w := Wins(Game((0, 0), start, true), 21);
      r == Max(w.0, w.1)
  {
    var cache := new QuantumCache();
    var w := cache.PlayQuantum(Game((0, 0), start, true), 21);
    r := Max(w.0, w.1);
  }

  // ---------------------------------------------------------------------
  // Part 1: the deterministic die

  /** The target score of part 1. */
  const PracticeTarget: nat := 1000

  /** The `r`-th roll of the deterministic die, which counts 1 to 100 and
      starts over. */
  function Die(r: nat): (v: nat)
    requires r >= 1
    ensures 1 <= v <= 100 && (v - r) % 10 == 0
  {
    DieCycle(r);
    (r - 1) % 100 + 1
  }

  lemma DieCycle(r: nat)
    requires r >= 1
    ensures ((r - 1) % 100 + 1 - r) % 10 == 0
  {
    var q, m := (r - 1) / 100, (r - 1) % 100;
    assert r - 1 == 100 * q + m;
    var k := -10 * q;
    assert m + 1 - r == 10 * k;
    TenMultiple(k);
  }

  lemma TenMultiple(k: int)
    ensures (10 * k) % 10 == 0
  {
  }

  /** The sum of the three rolls after the first `rolls`. */
  function ThreeRolls(rolls: nat): nat
  {
    Die(rolls + 1) + Die(rolls + 2) + Die(rolls + 3)
  }

  /** The practice game played roll by roll: the mover takes the next three
      rolls, and the game stops as soon as a score reaches the target. The
      final state and the number of rolls. */
  function Practice(g: Game, rolls: nat, maxScore: nat): (Game, nat)
    decreases Distance(g, maxScore)
  {
    if Over(g, maxScore) then (g, rolls)
    else
      TurnApproaches(g, ThreeRolls(rolls), maxScore);
      Practice(Turn(g, ThreeRolls(rolls)), rolls + 3, maxScore)
  }

  /** The game ends with exactly one player at the target, the last to
      move, after a multiple of three rolls. */
  lemma {:induction false} PracticeEnds(g: Game, rolls: nat, maxScore: nat)
    requires !(g.scores.0 >= maxScore && g.scores.1 >= maxScore)
    ensures var (h, n) := Practice(g, rolls, maxScore);
      (h.scores.0 >= maxScore) != (h.scores.1 >= maxScore) && n >= rolls && (n - rolls) % 3 == 0
    decreases Distance(g, maxScore)
  {
    if !Over(g, maxScore) {
      var sum := ThreeRolls(rolls);
      TurnApproaches(g, sum, maxScore);
      PracticeEnds(Turn(g, sum), rolls + 3, maxScore);
      var n := Practice(g, rolls, maxScore).1;
      assert n == Practice(Turn(g, sum), rolls + 3, maxScore).1;
      var j := (n - rolls - 3) / 3;
      assert n - rolls - 3 == 3 * j;
      assert n - rolls == 3 * (j + 1);
    }
  }

  /** The source's closed form for a player's square after turn `n`
      (counting from 0): `9 n (n + 1)` is three times the first rolls'
      growth of 18 per round, summed, and `c` is the player's first sum, 6
      for player 1 and 15 for player 2. */
  function ClosedForm(p: nat, n: nat, c: nat): nat
    requires c >= 1
  {
    (3 * 6 / 2 * n * (n + 1) + c * (n + 1) + p - 1) % 10 + 1
  }

  /** A player's square after `n` turns. */
  function Square(p: nat, n: nat, c: nat): nat
    requires c >= 1
  {
    if n == 0 then p else ClosedForm(p, n - 1, c)
  }

  lemma ModAdd(a: int, b: int)
    ensures (a % 10 + b) % 10 == (a + b) % 10
  {
    var q := a / 10;
    assert a == 10 * q + a % 10;
  }

  /** Three consecutive rolls after the first `r` are congruent to
      `3 r + 6`: the die's wrap from 100 to 1 keeps the last digit's
      progression. */
  lemma ThreeRollsDigit(r: nat)
    ensures (ThreeRolls(r) - 3 * r - 6) % 10 == 0
  {
    var k1 := Tens(Die(r + 1) - (r + 1));
    var k2 := Tens(Die(r + 2) - (r + 2));
    var k3 := Tens(Die(r + 3) - (r + 3));
    ModShift(0, k1 + k2 + k3);
    assert ThreeRolls(r) - 3 * r - 6 == 10 * (k1 + k2 + k3);
  }

  lemma Tens(x: int) returns (k: int)
    requires x % 10 == 0
    ensures x == 10 * k
  {
    k := x / 10;
  }

  /** Moving by any `s` congruent to `18 n + c` from the square after `n`
      turns reaches the closed form's square for turn `n`. */
  lemma ClosedFormArith(p: nat, n: nat, c: nat, s: nat, k: int)
    requires c >= 1 && s >= 1 && s == 18 * n + c + 10 * k
    ensures Advance(Square(p, n, c), s) == ClosedForm(p, n, c)
  {
    var x := 3 * 6 / 2 * n * (n + 1) + c * (n + 1) + p - 1;
    assert ClosedForm(p, n, c) == x % 10 + 1;
    if n == 0 {
      assert x == c + p - 1;
      ModShift(p + c - 1, k);
    } else {
      var a := 3 * 6 / 2 * (n - 1) * n + c * n + p - 1;
      assert Square(p, n, c) == a % 10 + 1;
      Growth(n, c);
      assert x == a + 18 * n + c;
      ModAdd(a, s);
      ModShift(x, k);
    }
  }

  lemma Growth(n: nat, c: nat)
    requires n >= 1
    ensures 3 * 6 / 2 * n * (n + 1) + c * (n + 1) == 3 * 6 / 2 * (n - 1) * n + c * n + 18 * n + c
  {
    assert 9 * n * (n + 1) == 9 * n * n + 9 * n;
    assert 9 * (n - 1) * n == 9 * n * n - 9 * n;
    assert c * (n + 1) == c * n + c;
  }

  lemma ModShift(x: int, k: int)
    ensures (x + 10 * k) % 10 == x % 10
  {
    var q := x / 10;
    assert x == 10 * q + x % 10;
    assert x + 10 * k == 10 * (q + k) + x % 10;
  }

  /** The closed form is the game: after `n` rounds of six rolls, the
      player whose three rolls start at `off` (0 for player 1, 3 for player
      2) moves from its square after `n` turns to the closed form's square
      for turn `n`. */
  lemma ClosedFormStep(p: nat, n: nat, c: nat, off: nat, rolls: nat)
    requires (c == 6 && off == 0) || (c == 15 && off == 3)
    requires rolls == 6 * n + off
    ensures Advance(Square(p, n, c), ThreeRolls(rolls)) == ClosedForm(p, n, c)
  {
    var s := ThreeRolls(rolls);
    ThreeRollsDigit(rolls);
    var k := (s - 18 * n - c) / 10;
    assert s == 18 * n + c + 10 * k;
    ClosedFormArith(p, n, c, s, k);
  }

  /** One turn of the practice game. */
  lemma PracticeStep(g: Game, rolls: nat, maxScore: nat)
    requires !Over(g, maxScore)
    ensures Practice(g, rolls, maxScore) == Practice(Turn(g, ThreeRolls(rolls)), rolls + 3, maxScore)
  {
  }

  lemma PracticeOver(g: Game, rolls: nat, maxScore: nat)
    requires Over(g, maxScore)
    ensures Practice(g, rolls, maxScore) == (g, rolls)
  {
  }

  /** Part 1: the loser's score times the number of rolls, with each
      round's squares taken from the closed form. */
  method Part1(start: (nat, nat)) returns (part1: nat)
    ensures var (h, rolls) := Practice(Game((0, 0), start, true), 0, PracticeTarget);
      part1 == Min(h.scores.0, h.scores.1) * rolls
  {
    var scores: (nat, nat) := (0, 0);
    var rolls := 0;
    var n := 0;
    ghost var total := Practice(Game((0, 0), start, true), 0, PracticeTarget);
    while true
      invariant scores.0 < PracticeTarget && scores.1 < PracticeTarget && rolls == 6 * n
      invariant total == Practice(Game(scores, (Square(start.0, n, 6), Square(start.1, n, 15)), true), rolls, PracticeTarget)
      decreases PracticeTarget - scores.0
    {
      ghost var g := Game(scores, (Square(start.0, n, 6), Square(start.1, n, 15)), true);
      PracticeStep(g, rolls, PracticeTarget);
      ClosedFormStep(start.0, n, 6, 0, rolls);
      var square1 := ClosedForm(start.0, n, 6);
      ghost var g1 := Game((scores.0 + square1, scores.1), (square1, Square(start.1, n, 15)), false);
      assert Turn(g, ThreeRolls(rolls)) == g1;
      scores := (scores.0 + square1, scores.1);
      rolls := rolls + 3;
      if scores.0 >= PracticeTarget {
        PracticeOver(g1, rolls, PracticeTarget);
        return Answer(scores, rolls);
      }
      PracticeStep(g1, rolls, PracticeTarget);
      ClosedFormStep(start.1, n, 15, 3, rolls);
      var square2 := ClosedForm(start.1, n, 15);
      ghost var g2 := Game((scores.0, scores.1 + square2), (square1, square2), true);
      assert Turn(g1, ThreeRolls(rolls)) == g2;
      assert g2 == Game((scores.0, scores.1 + square2), (Square(start.0, n + 1, 6), Square(start.1, n + 1, 15)), true);
      scores := (scores.0, scores.1 + square2);
      rolls := rolls + 3;
      if scores.1 >= PracticeTarget {
        PracticeOver(g2, rolls, PracticeTarget);
        return Answer(scores, rolls);
      }
      n := n + 1;
    }
  }

  /** The losing score times the number of rolls. */
  function Answer(scores: (nat, nat), rolls: nat): (r: nat)
    ensures r == Min(scores.0, scores.1) * rolls
  {
    if scores.0 <= scores.1 then scores.0 * rolls else scores.1 * rolls
  }
}
