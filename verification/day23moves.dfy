/** The amphipod moves as a game of their own: a move is legal under the
    conditions the search checks, a play is a list of moves that leaves
    every amphipod home, and its cost is the energy of its moves. The
    search finds a play exactly when one exists, and its result is the
    cost of the cheapest. */
module Day23Moves {
  import opened Common
  import opened Day23

  /** The state of a search: the amphipods and the two sets of tokens. */
  datatype Burrow = Burrow(a: seq<Amphipod>, hallway: set<nat>, house: set<(nat, nat)>)

  /** `GoHome(i)` takes amphipod `i` home, from its first room or from the
      hallway; `Park(i, p)` takes it from its first room to hallway
      position `p`. */
  datatype Move = GoHome(idx: nat) | Park(idx: nat, place: nat)

  /** The burrow after a legal move and the energy the move takes. A
      `Correct` amphipod has no legal move; a `Wrong` one moves only when
      the slots above it are free; every hallway position it passes, and
      the one it parks at, must be free; and it goes home to the deepest
      slot of its room reachable from the top. */
  ghost function Apply(b: Burrow, m: Move): (r: Option<(Burrow, nat)>)
    ensures r.Some? ==> m.idx < |b.a| && !b.a[m.idx].Correct? && |r.value.0.a| == |b.a|
    ensures r.Some? && m.Park? ==> b.a[m.idx].Wrong? && m.place in b.hallway
  {
    if m.idx >= |b.a| then None
    else
      var s := b.a[m.idx];
      match m
      case GoHome(idx) =>
        if s.Wrong? then
          var span := Between(s.actual, s.target);
          if !AboveFree(b.house, s.actual, s.stackDepth) || !Clear(b.hallway, span.0, span.1) then None
          else
            match FreeHouse(b.house, s.target, |b.a| / 4)
            case None => None
            case Some(h) =>
              Some((Burrow(b.a[idx := Correct(h.1)], b.hallway, b.house + {(s.actual, s.stackDepth)} - {h}),
                    Energy(s.moveCost, h.1 + s.stackDepth + Dist(s.actual, s.target))))
        else if s.Parked? then
          var clear := if s.actual < s.target then Clear(b.hallway, s.actual + 1, s.target)
            else Clear(b.hallway, s.target, s.actual - 1);
          if !clear then None
          else
            match FreeHouse(b.house, s.target, |b.a| / 4)
            case None => None
            case Some(h) =>
              Some((Burrow(b.a[idx := Correct(h.1)], b.hallway + {s.actual}, b.house - {h}),
                    Energy(s.moveCost, h.1 + Dist(s.actual, s.target))))
        else None
      case Park(idx, place) =>
        if !s.Wrong? then None
        else
          var span := Between(s.actual, place);
          if !AboveFree(b.house, s.actual, s.stackDepth) || !Clear(b.hallway, span.0, span.1) then None
          else
            assert span.0 <= place <= span.1;
            Some((Burrow(b.a[idx := Parked(place, s.target, s.moveCost)], b.hallway - {place},
                         b.house + {(s.actual, s.stackDepth)}),
                  Energy(s.moveCost, s.stackDepth + Dist(s.actual, place))))
  }

  /** The energy of playing `moves` from `b`, when every move is legal and
      the last leaves every amphipod home. */
  ghost function Play(b: Burrow, moves: seq<Move>): (r: Option<nat>)
    ensures moves == [] ==> (r.Some? <==> AllHome(b.a))
    decreases |moves|
  {
    if moves == [] then (if AllHome(b.a) then Some(0) else None)
    else
      match Apply(b, moves[0])
      case None => None
      case Some(next) =>
        match Play(next.0, moves[1..])
        case None => None
        case Some(rest) => Some(rest + next.1)
  }

  /** `GoHome(i)` from a room is the move whose cost `HomeFromRoom` adds. */
  lemma HomeFromRoomMove(b: Burrow, idx: nat)
    requires idx < |b.a| && b.a[idx].Wrong? && AboveFree(b.house, b.a[idx].actual, b.a[idx].stackDepth)
    requires HomeFromRoom(b.a, idx, b.hallway, b.house).Some?
    ensures Apply(b, GoHome(idx)).Some?
    ensures Rank(Apply(b, GoHome(idx)).value.0.a) < Rank(b.a)
    ensures var next := Apply(b, GoHome(idx)).value;
      Search(next.0.a, next.0.hallway, next.0.house).Some? &&
      HomeFromRoom(b.a, idx, b.hallway, b.house).value == Search(next.0.a, next.0.hallway, next.0.house).value + next.1
  {
    var s := b.a[idx];
    var span := Between(s.actual, s.target);
    assert Clear(b.hallway, span.0, span.1);
    var h := FreeHouse(b.house, s.target, |b.a| / 4).value;
    RankUpdate(b.a, idx, Correct(h.1));
    var next := Burrow(b.a[idx := Correct(h.1)], b.hallway, b.house + {(s.actual, s.stackDepth)} - {h});
    var e := Energy(s.moveCost, h.1 + s.stackDepth + Dist(s.actual, s.target));
    assert Apply(b, GoHome(idx)) == Some((next, e));
    assert HomeFromRoom(b.a, idx, b.hallway, b.house) == Some(Search(next.a, next.hallway, next.house).value + e);
  }

  /** `GoHome(i)` from the hallway is the move whose cost `HomeFromHallway`
      adds. */
  lemma HomeFromHallwayMove(b: Burrow, idx: nat)
    requires idx < |b.a| && b.a[idx].Parked?
    requires HomeFromHallway(b.a, idx, b.hallway, b.house).Some?
    ensures Apply(b, GoHome(idx)).Some?
    ensures Rank(Apply(b, GoHome(idx)).value.0.a) < Rank(b.a)
    ensures var next := Apply(b, GoHome(idx)).value;
      Search(next.0.a, next.0.hallway, next.0.house).Some? &&
      HomeFromHallway(b.a, idx, b.hallway, b.house).value == Search(next.0.a, next.0.hallway, next.0.house).value + next.1
  {
    var s := b.a[idx];
    var h := FreeHouse(b.house, s.target, |b.a| / 4).value;
    RankUpdate(b.a, idx, Correct(h.1));
  }

  /** `Park(i, p)` is the move whose cost `ParkCost` adds. */
  lemma ParkMove(b: Burrow, idx: nat, place: nat)
    requires idx < |b.a| && b.a[idx].Wrong? && AboveFree(b.house, b.a[idx].actual, b.a[idx].stackDepth)
    requires ParkCost(b.a, idx, b.hallway, b.house, place).Some?
    ensures Apply(b, Park(idx, place)).Some?
    ensures Rank(Apply(b, Park(idx, place)).value.0.a) < Rank(b.a)
    ensures var next := Apply(b, Park(idx, place)).value;
      Search(next.0.a, next.0.hallway, next.0.house).Some? &&
      ParkCost(b.a, idx, b.hallway, b.house, place).value == Search(next.0.a, next.0.hallway, next.0.house).value + next.1
  {
    var s := b.a[idx];
    RankUpdate(b.a, idx, Parked(place, s.target, s.moveCost));
  }

  /** The cheapest of the first `k` amphipods' moves is one of them. */
  lemma {:induction false} BestFromWitness(a: seq<Amphipod>, hallway: set<nat>, house: set<(nat, nat)>, k: nat)
    requires k <= |a| && BestFrom(a, hallway, house, k).Some?
    ensures exists i :: 0 <= i < k && Options(a, i, hallway, house) == BestFrom(a, hallway, house, k)
  {
    if BestFrom(a, hallway, house, k - 1) == BestFrom(a, hallway, house, k) {
      BestFromWitness(a, hallway, house, k - 1);
    } else {
      assert Options(a, k - 1, hallway, house) == BestFrom(a, hallway, house, k);
    }
  }

  /** The cheapest of the first `k` amphipods' moves is no dearer than any
      of them. */
  lemma {:induction false} BestFromBelow(a: seq<Amphipod>, hallway: set<nat>, house: set<(nat, nat)>, k: nat, i: nat)
    requires i < k <= |a| && Options(a, i, hallway, house).Some?
    ensures BestFrom(a, hallway, house, k).Some?
    ensures BestFrom(a, hallway, house, k).value <= Options(a, i, hallway, house).value
  {
    if i < k - 1 {
      BestFromBelow(a, hallway, house, k - 1, i);
    }
  }

  /** The cheapest move of amphipod `i` is a legal move to a burrow from
      which the search finds the rest. */
  lemma OptionsMove(b: Burrow, i: nat) returns (m: Move)
    requires i < |b.a| && Options(b.a, i, b.hallway, b.house).Some?
    ensures Apply(b, m).Some? && Rank(Apply(b, m).value.0.a) < Rank(b.a)
    ensures var next := Apply(b, m).value;
      Search(next.0.a, next.0.hallway, next.0.house).Some? &&
      Options(b.a, i, b.hallway, b.house).value == Search(next.0.a, next.0.hallway, next.0.house).value + next.1
  {
    var c := Options(b.a, i, b.hallway, b.house);
    match b.a[i]
    case Correct(_) =>
      assert false;
    case Wrong(actual, _, _, stackDepth) =>
      var home := HomeFromRoom(b.a, i, b.hallway, b.house);
      var parks := ParkCosts(b.a, i, b.hallway, b.house, b.hallway);
      assert c == MinOption(home, Least(parks));
      if home == c {
        HomeFromRoomMove(b, i);
        m := GoHome(i);
      } else {
        var place :| place in b.hallway && ParkCost(b.a, i, b.hallway, b.house, place) == c;
        ParkMove(b, i, place);
        m := Park(i, place);
      }
    case Parked(_, _, _) =>
      HomeFromHallwayMove(b, i);
      m := GoHome(i);
  }

  /** Whatever the search finds, some play achieves. */
  lemma {:induction false} SearchSound(b: Burrow) returns (moves: seq<Move>)
    requires Search(b.a, b.hallway, b.house).Some?
    ensures Play(b, moves) == Search(b.a, b.hallway, b.house)
    decreases Rank(b.a)
  {
    if AllHome(b.a) {
      return [];
    }
    assert Search(b.a, b.hallway, b.house) == BestFrom(b.a, b.hallway, b.house, |b.a|);
    BestFromWitness(b.a, b.hallway, b.house, |b.a|);
    var i :| 0 <= i < |b.a| && Options(b.a, i, b.hallway, b.house) == Search(b.a, b.hallway, b.house);
    var m := OptionsMove(b, i);
    var next := Apply(b, m).value;
    var rest := SearchSound(next.0);
    PlayCons(b, m, rest);
    moves := [m] + rest;
    assert Play(b, moves).value == Search(next.0.a, next.0.hallway, next.0.house).value + next.1;
  }

  /** Playing one more move first adds its energy. */
  lemma PlayCons(b: Burrow, m: Move, rest: seq<Move>)
    requires Apply(b, m).Some? && Play(Apply(b, m).value.0, rest).Some?
    ensures Play(b, [m] + rest) == Some(Play(Apply(b, m).value.0, rest).value + Apply(b, m).value.1)
  {
    assert ([m] + rest)[1..] == rest;
  }

  /** One move is worth at least what the search takes for it. */
  lemma MoveBelow(b: Burrow, m: Move)
    requires Apply(b, m).Some?
    requires var next := Apply(b, m).value; Search(next.0.a, next.0.hallway, next.0.house).Some?
    ensures Options(b.a, m.idx, b.hallway, b.house).Some?
    ensures var next := Apply(b, m).value;
      Options(b.a, m.idx, b.hallway, b.house).value <= Search(next.0.a, next.0.hallway, next.0.house).value + next.1
  {
    var s := b.a[m.idx];
    var next := Apply(b, m).value;
    match m
    case GoHome(idx) =>
      if s.Wrong? {
        var h := FreeHouse(b.house, s.target, |b.a| / 4).value;
        RankUpdate(b.a, idx, Correct(h.1));
        assert HomeFromRoom(b.a, idx, b.hallway, b.house).Some?;
      } else {
        var h := FreeHouse(b.house, s.target, |b.a| / 4).value;
        RankUpdate(b.a, idx, Correct(h.1));
      }
    case Park(idx, place) =>
      RankUpdate(b.a, idx, Parked(place, s.target, s.moveCost));
      var p := ParkCost(b.a, idx, b.hallway, b.house, place);
      assert p.Some? && p.value == Search(next.0.a, next.0.hallway, next.0.house).value + next.1;
      assert p.value in ParkCosts(b.a, idx, b.hallway, b.house, b.hallway);
  }

  /** No play is cheaper than what the search finds, and the search finds
      something whenever a play exists. */
  lemma {:induction false} SearchOptimal(b: Burrow, moves: seq<Move>)
    requires Play(b, moves).Some?
    ensures Search(b.a, b.hallway, b.house).Some?
    ensures Search(b.a, b.hallway, b.house).value <= Play(b, moves).value
    decreases |moves|
  {
    if AllHome(b.a) {
      return;
    }
    var m := moves[0];
    var next := Apply(b, m).value;
    SearchOptimal(next.0, moves[1..]);
    MoveBelow(b, m);
    BestFromBelow(b.a, b.hallway, b.house, |b.a|, m.idx);
  }

  /** The search is the cheapest play: it finds a cost exactly when some
      play exists, some play costs what it finds, and none costs less. */
  lemma SearchIsCheapestPlay(b: Burrow)
    ensures Search(b.a, b.hallway, b.house).Some? <==> exists moves :: Play(b, moves).Some?
    ensures Search(b.a, b.hallway, b.house).Some? ==>
      (exists moves :: Play(b, moves) == Search(b.a, b.hallway, b.house)) &&
      forall moves :: Play(b, moves).Some? ==> Search(b.a, b.hallway, b.house).value <= Play(b, moves).value
  {
    if Search(b.a, b.hallway, b.house).Some? {
      var moves := SearchSound(b);
    }
    forall moves | Play(b, moves).Some?
      ensures Search(b.a, b.hallway, b.house).Some? && Search(b.a, b.hallway, b.house).value <= Play(b, moves).value
    {
      SearchOptimal(b, moves);
    }
  }
}
