/** `day-23/src/main.rs`: amphipods. Each amphipod is `Wrong` (still in the
    room it started in, at some depth), `Parked` (in the hallway) or
    `Correct` (home, at some depth). The search tries every move from a
    state, recursing on the state the move leads to, and returns the
    cheapest total cost of bringing every amphipod home. The free hallway
    positions and the free room slots travel with the search as two sets of
    tokens; the state array is changed in place for each trial move and
    restored afterwards; and the results are cached by the state array
    alone. */
module Day23 {
  import opened Common

  datatype Amphipod =
    | Parked(actual: nat, target: nat, moveCost: nat)
    | Wrong(actual: nat, target: nat, moveCost: nat, stackDepth: nat)
    | Correct(stackDepth: nat)

  /** The hallway positions `0..11`, one per character of `"..........."`. */
  const HallwayLength: nat := 11

  /** `letter_to_idx`: `'A'` is 0, `'B'` is 1, and so on. */
  function LetterToIdx(c: char): (r: nat)
    requires 'A' <= c
    ensures r < 4 <==> c <= 'D'
  {
    c as int - 'A' as int
  }

  /** `stack_positions`: the hallway position above room `i`. */
  function RoomColumn(i: nat): (c: nat)
    ensures i < 4 ==> IsColumn(c)
  {
    3 + 2 * i
  }

  predicate IsColumn(c: nat)
  {
    c == 3 || c == 5 || c == 7 || c == 9
  }

  /** `10_u64.pow(i)`: the energy one step costs. */
  function MoveCost(i: nat): (r: nat)
    ensures r >= 1
  {
    if i == 0 then 1 else 10 * MoveCost(i - 1)
  }

  /** The four amphipod kinds: `A` to `D` live in the rooms above positions
      3, 5, 7 and 9 and pay 1, 10, 100 and 1000 per step. */
  lemma KindsOfAmphipods()
    ensures RoomColumn(LetterToIdx('A')) == 3 && MoveCost(LetterToIdx('A')) == 1
    ensures RoomColumn(LetterToIdx('B')) == 5 && MoveCost(LetterToIdx('B')) == 10
    ensures RoomColumn(LetterToIdx('C')) == 7 && MoveCost(LetterToIdx('C')) == 100
    ensures RoomColumn(LetterToIdx('D')) == 9 && MoveCost(LetterToIdx('D')) == 1000
  {
    assert MoveCost(1) == 10;
    assert MoveCost(2) == 100;
  }

  // ---------------------------------------------------------------------
  // Tokens

  /** Every hallway position from `lo` to `hi`, both included, is free. */
  predicate Clear(hallway: set<nat>, lo: int, hi: int)
  {
    forall i: nat :: lo <= i <= hi ==> i in hallway
  }

  /** `actual..=target` or `target..=actual`, whichever is ascending. */
  function Between(x: nat, y: nat): (r: (nat, nat))
    ensures r.0 <= r.1 && {r.0, r.1} == {x, y}
  {
    if x < y then (x, y) else (y, x)
  }

  /** `(x as i64 - y as i64).abs()`. */
  function Dist(x: nat, y: nat): nat
  {
    if x < y then y - x else x - y
  }

  /** `move_cost * steps`: the energy of a move. */
  function Energy(moveCost: nat, steps: nat): nat
  {
    moveCost * steps
  }

  /** The depth of the run of free slots of room `target` that starts at
      depth `i`, counted from the top. */
  function FreeFrom(house: set<(nat, nat)>, target: nat, depth: nat, i: nat): (r: nat)
    requires 1 <= i <= depth + 1
    ensures i - 1 <= r <= depth
    ensures forall k: nat :: i <= k <= r ==> (target, k) in house
    ensures r < depth ==> (target, r + 1) !in house
    decreases depth + 1 - i
  {
    if i <= depth && (target, i) in house then FreeFrom(house, target, depth, i + 1) else i - 1
  }

  /** `free_house`: the deepest slot of room `target` reachable through free
      slots from the top; nothing when the top slot is taken. */
  function FreeHouse(house: set<(nat, nat)>, target: nat, depth: nat): (r: Option<(nat, nat)>)
    ensures r.None? <==> depth == 0 || (target, 1) !in house
    ensures r.Some? ==> r.value.0 == target && 1 <= r.value.1 <= depth
    ensures r.Some? ==> forall k: nat :: 1 <= k <= r.value.1 ==> (target, k) in house
    ensures r.Some? && r.value.1 < depth ==> (target, r.value.1 + 1) !in house
  {
    var d := FreeFrom(house, target, depth, 1);
    if d == 0 then None else Some((target, d))
  }

  /** The slots above the amphipod in its room, from depth 1 to the one just
      above its own, are free. */
  predicate AboveFree(house: set<(nat, nat)>, actual: nat, stackDepth: nat)
  {
    forall i: nat :: 1 <= i < stackDepth ==> (actual, i) in house
  }

  // ---------------------------------------------------------------------
  // Minima

  /** The smaller of two optional costs, as `min` over their values. */
  function MinOption(x: Option<nat>, y: Option<nat>): (r: Option<nat>)
    ensures r.None? <==> x.None? && y.None?
    ensures r == x || r == y
    ensures r.Some? ==> (x.Some? ==> r.value <= x.value) && (y.Some? ==> r.value <= y.value)
  {
    match x
    case None => y
    case Some(u) =>
      match y
      case None => x
      case Some(v) => if u <= v then x else y
  }

  /** `.min()` over a collection of costs. */
  ghost function Least(s: set<nat>): (r: Option<nat>)
    ensures r.None? <==> s == {}
    ensures r.Some? ==> r.value in s && forall y :: y in s ==> r.value <= y
    decreases |s|
  {
    if s == {} then None
    else
      var x :| x in s;
      assert forall y :: y in s ==> y == x || y in s - {x};
      MinOption(Some(x), Least(s - {x}))
  }

  /** The cost, as a set holding it or nothing. */
  function Costs(c: Option<nat>): set<nat>
  {
    if c.Some? then {c.value} else {}
  }

  /** Adding one more candidate to a minimum. */
  lemma LeastAdd(s: set<nat>, c: Option<nat>)
    ensures Least(s + Costs(c)) == MinOption(Least(s), c)
  {
    var l := Least(s + Costs(c));
    var m := MinOption(Least(s), c);
    if l.Some? {
      assert m.Some?;
      assert l.value <= m.value;
      assert m.value <= l.value;
    }
  }

  // ---------------------------------------------------------------------
  // The search

  /** What a search step does to the measure: `Wrong` counts 2, `Parked`
      1 and `Correct` 0. */
  function RankOf(s: Amphipod): nat
  {
    match s
    case Wrong(_, _, _, _) => 2
    case Parked(_, _, _) => 1
    case Correct(_) => 0
  }

  function Rank(a: seq<Amphipod>): nat
  {
    if a == [] then 0 else Rank(a[..|a| - 1]) + RankOf(a[|a| - 1])
  }

  /** Replacing one amphipod changes the rank by the difference of the two. */
  lemma {:induction false} RankUpdate(a: seq<Amphipod>, idx: nat, v: Amphipod)
    requires idx < |a|
    ensures Rank(a[idx := v]) + RankOf(a[idx]) == Rank(a) + RankOf(v)
  {
    var n := |a| - 1;
    if idx < n {
      assert a[idx := v][..n] == a[..n][idx := v];
      RankUpdate(a[..n], idx, v);
    } else {
      assert a[idx := v][..n] == a[..n];
    }
  }

  /** `AmphipodState::correct` holds of every amphipod. */
  predicate AllHome(a: seq<Amphipod>)
  {
    forall i :: 0 <= i < |a| ==> a[i].Correct?
  }

  /** `solve_hallway`: nothing left to do when every amphipod is home;
      otherwise the cheapest of the moves of all amphipods, if any leads
      home. */
  ghost function Search(a: seq<Amphipod>, hallway: set<nat>, house: set<(nat, nat)>): Option<nat>
    decreases Rank(a), 5, 0
  {
    if AllHome(a) then Some(0)
    else BestFrom(a, hallway, house, |a|)
  }

  /** The cheapest over the moves of the first `k` amphipods. */
  ghost function BestFrom(a: seq<Amphipod>, hallway: set<nat>, house: set<(nat, nat)>, k: nat): Option<nat>
    requires k <= |a|
    decreases Rank(a), 4, k
  {
    if k == 0 then None
    else MinOption(BestFrom(a, hallway, house, k - 1), Options(a, k - 1, hallway, house))
  }

  /** The cheapest move of amphipod `idx`: a `Correct` one never moves; a
      `Wrong` one whose way up is free goes home or parks; a `Parked` one
      goes home. */
  ghost function Options(a: seq<Amphipod>, idx: nat, hallway: set<nat>, house: set<(nat, nat)>): Option<nat>
    requires idx < |a|
    decreases Rank(a), 3, 0
  {
    match a[idx]
    case Correct(_) => None
    case Wrong(actual, _, _, stackDepth) =>
      if AboveFree(house, actual, stackDepth) then
        MinOption(HomeFromRoom(a, idx, hallway, house), Least(ParkCosts(a, idx, hallway, house, hallway)))
      else None
    case Parked(_, _, _) => HomeFromHallway(a, idx, hallway, house)
  }

  /** A `Wrong` amphipod walks the hallway to its room and down to the
      deepest free slot, when the hallway between is free: its own slot
      becomes free and the slot it takes does not. */
  ghost function HomeFromRoom(a: seq<Amphipod>, idx: nat, hallway: set<nat>, house: set<(nat, nat)>): Option<nat>
    requires idx < |a| && a[idx].Wrong?
    decreases Rank(a), 1, 0
  {
    var s := a[idx];
    var span := Between(s.actual, s.target);
    if !Clear(hallway, span.0, span.1) then None
    else
      match FreeHouse(house, s.target, |a| / 4)
      case None => None
      case Some(h) =>
        RankUpdate(a, idx, Correct(h.1));
        match Search(a[idx := Correct(h.1)], hallway, house + {(s.actual, s.stackDepth)} - {h})
        case None => None
        case Some(rest) => Some(rest + Energy(s.moveCost, h.1 + s.stackDepth + Dist(s.actual, s.target)))
  }

  /** A `Wrong` amphipod parks at hallway position `place`, when the
      hallway up to it is free. */
  ghost function ParkCost(a: seq<Amphipod>, idx: nat, hallway: set<nat>, house: set<(nat, nat)>, place: nat): Option<nat>
    requires idx < |a| && a[idx].Wrong?
    decreases Rank(a), 1, 0
  {
    var s := a[idx];
    var span := Between(s.actual, place);
    if !Clear(hallway, span.0, span.1) then None
    else
      RankUpdate(a, idx, Parked(place, s.target, s.moveCost));
      match Search(a[idx := Parked(place, s.target, s.moveCost)], hallway - {place}, house + {(s.actual, s.stackDepth)})
      case None => None
      case Some(rest) => Some(rest + Energy(s.moveCost, s.stackDepth + Dist(s.actual, place)))
  }

  /** The costs of parking at each of `places`. */
  ghost function ParkCosts(a: seq<Amphipod>, idx: nat, hallway: set<nat>, house: set<(nat, nat)>, places: set<nat>): set<nat>
    requires idx < |a| && a[idx].Wrong?
    decreases Rank(a), 2, 0
  {
    set place | place in places && ParkCost(a, idx, hallway, house, place).Some? ::
      ParkCost(a, idx, hallway, house, place).value
  }

  /** A `Parked` amphipod walks to its room, past its own position, and down
      to the deepest free slot. */
  ghost function HomeFromHallway(a: seq<Amphipod>, idx: nat, hallway: set<nat>, house: set<(nat, nat)>): Option<nat>
    requires idx < |a| && a[idx].Parked?
    decreases Rank(a), 1, 0
  {
    var s := a[idx];
    var clear := if s.actual < s.target then Clear(hallway, s.actual + 1, s.target)
      else Clear(hallway, s.target, s.actual - 1);
    if !clear then None
    else
      match FreeHouse(house, s.target, |a| / 4)
      case None => None
      case Some(h) =>
        RankUpdate(a, idx, Correct(h.1));
        match Search(a[idx := Correct(h.1)], hallway + {s.actual}, house - {h})
        case None => None
        case Some(rest) => Some(rest + Energy(s.moveCost, h.1 + Dist(s.actual, s.target)))
  }

  /** `HomeFromRoom` once the way and the free place `h` are known: the
      rest of the search plus the energy of the move. */
  lemma HomeFromRoomThen(a: seq<Amphipod>, idx: nat, hallway: set<nat>, house: set<(nat, nat)>,
                         h: (nat, nat), rest: Option<nat>)
    requires idx < |a| && a[idx].Wrong?
    requires var span := Between(a[idx].actual, a[idx].target); Clear(hallway, span.0, span.1)
    requires FreeHouse(house, a[idx].target, |a| / 4) == Some(h)
    requires rest == Search(a[idx := Correct(h.1)], hallway, house + {(a[idx].actual, a[idx].stackDepth)} - {h})
    ensures HomeFromRoom(a, idx, hallway, house) ==
      if rest.Some? then Some(rest.value + Energy(a[idx].moveCost, h.1 + a[idx].stackDepth + Dist(a[idx].actual, a[idx].target)))
      else None
  {
  }

  /** `HomeFromHallway` once the way and the free place `h` are known. */
  lemma HomeFromHallwayThen(a: seq<Amphipod>, idx: nat, hallway: set<nat>, house: set<(nat, nat)>,
                            h: (nat, nat), rest: Option<nat>)
    requires idx < |a| && a[idx].Parked?
    requires var s := a[idx];
      if s.actual < s.target then Clear(hallway, s.actual + 1, s.target) else Clear(hallway, s.target, s.actual - 1)
    requires FreeHouse(house, a[idx].target, |a| / 4) == Some(h)
    requires rest == Search(a[idx := Correct(h.1)], hallway + {a[idx].actual}, house - {h})
    ensures HomeFromHallway(a, idx, hallway, house) ==
      if rest.Some? then Some(rest.value + Energy(a[idx].moveCost, h.1 + Dist(a[idx].actual, a[idx].target)))
      else None
  {
  }

  lemma ParkCostsAdd(a: seq<Amphipod>, idx: nat, hallway: set<nat>, house: set<(nat, nat)>, done: set<nat>, place: nat)
    requires idx < |a| && a[idx].Wrong?
    ensures ParkCosts(a, idx, hallway, house, done + {place}) ==
      ParkCosts(a, idx, hallway, house, done) + Costs(ParkCost(a, idx, hallway, house, place))
  {
  }

  // ---------------------------------------------------------------------
  // The tokens follow from the state

  /** The room slot amphipod `i` fills, if it is in a room; `targets[i]` is
      its own room, which `Correct` does not record. */
  function Slot(targets: seq<nat>, a: seq<Amphipod>, i: nat): Option<(nat, nat)>
    requires |targets| == |a| && i < |a|
  {
    match a[i]
    case Wrong(actual, _, _, stackDepth) => Some((actual, stackDepth))
    case Correct(stackDepth) => Some((targets[i], stackDepth))
    case Parked(_, _, _) => None
  }

  /** Amphipod `i` is where a search can put it: heading for `targets[i]`,
      in a slot of a room of depth `|a| / 4` or in the hallway. */
  predicate Placed(targets: seq<nat>, a: seq<Amphipod>, i: nat)
    requires |targets| == |a| && i < |a|
  {
    IsColumn(targets[i]) &&
    match a[i]
    case Wrong(actual, target, _, stackDepth) =>
      target == targets[i] && IsColumn(actual) && 1 <= stackDepth <= |a| / 4
    case Parked(actual, target, _) => target == targets[i] && actual < HallwayLength
    case Correct(stackDepth) => 1 <= stackDepth <= |a| / 4
  }

  /** Every amphipod is placed, and no two share a slot or a hallway
      position. */
  predicate WellPlaced(targets: seq<nat>, a: seq<Amphipod>)
  {
    |targets| == |a| &&
    (forall i :: 0 <= i < |a| ==> Placed(targets, a, i)) &&
    (forall i, j :: 0 <= i < |a| && 0 <= j < |a| && i != j && Slot(targets, a, i).Some? ==>
      Slot(targets, a, i) != Slot(targets, a, j)) &&
    (forall i, j :: 0 <= i < |a| && 0 <= j < |a| && i != j && a[i].Parked? && a[j].Parked? ==>
      a[i].actual != a[j].actual)
  }

  function ParkedAt(a: seq<Amphipod>): (r: set<nat>)
    ensures forall p :: p in r <==> exists i :: 0 <= i < |a| && a[i].Parked? && a[i].actual == p
  {
    set i | 0 <= i < |a| && a[i].Parked? :: a[i].actual
  }

  /** The hallway positions no parked amphipod takes. */
  function FreeHallway(a: seq<Amphipod>): (r: set<nat>)
    ensures forall p: nat :: p in r <==> p < HallwayLength && p !in ParkedAt(a)
  {
    set p: nat | p < HallwayLength && p !in ParkedAt(a)
  }

  /** All slots of the four rooms of depth `depth`. */
  function Slots(depth: nat): (r: set<(nat, nat)>)
    ensures forall p :: p in r <==> IsColumn(p.0) && 1 <= p.1 <= depth
  {
    set c: nat, k: nat | c in {3, 5, 7, 9} && 1 <= k <= depth :: (c, k)
  }

  function Occupied(targets: seq<nat>, a: seq<Amphipod>): (r: set<(nat, nat)>)
    requires |targets| == |a|
    ensures forall p :: p in r <==> exists i :: 0 <= i < |a| && Slot(targets, a, i) == Some(p)
  {
    set i | 0 <= i < |a| && Slot(targets, a, i).Some? :: Slot(targets, a, i).value
  }

  /** The room slots no amphipod fills. */
  function FreeSlots(targets: seq<nat>, a: seq<Amphipod>): set<(nat, nat)>
    requires |targets| == |a|
  {
    Slots(|a| / 4) - Occupied(targets, a)
  }

  /** The tokens a search carries are the free positions of its state. */
  predicate Consistent(targets: seq<nat>, a: seq<Amphipod>, hallway: set<nat>, house: set<(nat, nat)>)
  {
    WellPlaced(targets, a) && hallway == FreeHallway(a) && house == FreeSlots(targets, a)
  }

  /** Replacing amphipod `idx` by `v` keeps every other amphipod placed and
      apart, as long as `v` is placed and its slot or position is free. */
  lemma {:induction false} ReplaceWellPlaced(targets: seq<nat>, a: seq<Amphipod>, idx: nat, v: Amphipod)
    requires WellPlaced(targets, a) && idx < |a|
    requires Placed(targets, a[idx := v], idx)
    requires Slot(targets, a[idx := v], idx).Some? ==> Slot(targets, a[idx := v], idx).value !in Occupied(targets, a)
    requires v.Parked? ==> v.actual !in ParkedAt(a)
    ensures WellPlaced(targets, a[idx := v])
  {
    var b := a[idx := v];
    forall i | 0 <= i < |b|
      ensures Placed(targets, b, i)
    {
      if i != idx {
        assert Placed(targets, a, i);
      }
    }
    forall i, j | 0 <= i < |b| && 0 <= j < |b| && i != j && Slot(targets, b, i).Some?
      ensures Slot(targets, b, i) != Slot(targets, b, j)
    {
      if i != idx && j != idx {
        assert Slot(targets, b, i) == Slot(targets, a, i);
        assert Slot(targets, b, j) == Slot(targets, a, j);
      } else if i == idx {
        assert Slot(targets, b, j) == Slot(targets, a, j);
      } else {
        assert Slot(targets, b, i) == Slot(targets, a, i);
        assert Slot(targets, b, i).value in Occupied(targets, a);
      }
    }
  }

  /** A `Wrong` amphipod going home keeps the tokens right: the slot it left
      becomes free, the slot it takes does not, and the hallway is as it
      was. */
  lemma HomeFromRoomConsistent(targets: seq<nat>, a: seq<Amphipod>, idx: nat, hallway: set<nat>,
                               house: set<(nat, nat)>, h: (nat, nat))
    requires Consistent(targets, a, hallway, house) && idx < |a| && a[idx].Wrong?
    requires FreeHouse(house, a[idx].target, |a| / 4) == Some(h)
    ensures Consistent(targets, a[idx := Correct(h.1)], hallway, house + {(a[idx].actual, a[idx].stackDepth)} - {h})
  {
    var b := a[idx := Correct(h.1)];
    var x := (a[idx].actual, a[idx].stackDepth);
    assert h in house;
    assert Placed(targets, a, idx);
    assert Slot(targets, b, idx) == Some(h);
    ReplaceWellPlaced(targets, a, idx, Correct(h.1));
    assert ParkedAt(b) == ParkedAt(a) by {
      forall p | p in ParkedAt(a) ensures p in ParkedAt(b) {
        var i :| 0 <= i < |a| && a[i].Parked? && a[i].actual == p;
        assert b[i] == a[i];
      }
    }
    assert Occupied(targets, b) == Occupied(targets, a) - {x} + {h} by {
      forall p | p in Occupied(targets, a) - {x} ensures p in Occupied(targets, b) {
        var i :| 0 <= i < |a| && Slot(targets, a, i) == Some(p);
        assert i != idx;
        assert Slot(targets, b, i) == Some(p);
      }
      forall p | p in Occupied(targets, b) ensures p in Occupied(targets, a) - {x} + {h} {
        var i :| 0 <= i < |b| && Slot(targets, b, i) == Some(p);
        if i != idx {
          assert Slot(targets, a, i) == Some(p);
          assert Slot(targets, a, idx) == Some(x);
        }
      }
    }
    assert x in Slots(|a| / 4);
  }

  /** A `Wrong` amphipod parking at a free position keeps the tokens right:
      its slot becomes free and the position does not. */
  lemma ParkConsistent(targets: seq<nat>, a: seq<Amphipod>, idx: nat, hallway: set<nat>,
                       house: set<(nat, nat)>, place: nat)
    requires Consistent(targets, a, hallway, house) && idx < |a| && a[idx].Wrong?
    requires place in hallway
    ensures Consistent(targets, a[idx := Parked(place, a[idx].target, a[idx].moveCost)],
      hallway - {place}, house + {(a[idx].actual, a[idx].stackDepth)})
  {
    var v := Parked(place, a[idx].target, a[idx].moveCost);
    var b := a[idx := v];
    var x := (a[idx].actual, a[idx].stackDepth);
    assert Placed(targets, a, idx);
    ReplaceWellPlaced(targets, a, idx, v);
    assert ParkedAt(b) == ParkedAt(a) + {place} by {
      forall p | p in ParkedAt(a) ensures p in ParkedAt(b) {
        var i :| 0 <= i < |a| && a[i].Parked? && a[i].actual == p;
        assert b[i] == a[i];
      }
      assert b[idx].actual == place;
    }
    assert Occupied(targets, b) == Occupied(targets, a) - {x} by {
      forall p | p in Occupied(targets, a) - {x} ensures p in Occupied(targets, b) {
        var i :| 0 <= i < |a| && Slot(targets, a, i) == Some(p);
        assert i != idx;
        assert Slot(targets, b, i) == Some(p);
      }
      forall p | p in Occupied(targets, b) ensures p in Occupied(targets, a) - {x} {
        var i :| 0 <= i < |b| && Slot(targets, b, i) == Some(p);
        assert i != idx;
        assert Slot(targets, a, i) == Some(p);
        assert Slot(targets, a, idx) == Some(x);
      }
    }
    assert x in Slots(|a| / 4);
  }

  /** A `Parked` amphipod going home keeps the tokens right: its position
      becomes free and the slot it takes does not. */
  lemma HomeFromHallwayConsistent(targets: seq<nat>, a: seq<Amphipod>, idx: nat, hallway: set<nat>,
                                  house: set<(nat, nat)>, h: (nat, nat))
    requires Consistent(targets, a, hallway, house) && idx < |a| && a[idx].Parked?
    requires FreeHouse(house, a[idx].target, |a| / 4) == Some(h)
    ensures Consistent(targets, a[idx := Correct(h.1)], hallway + {a[idx].actual}, house - {h})
  {
    var b := a[idx := Correct(h.1)];
    var q := a[idx].actual;
    assert h in house;
    assert Placed(targets, a, idx);
    assert Slot(targets, b, idx) == Some(h);
    ReplaceWellPlaced(targets, a, idx, Correct(h.1));
    assert ParkedAt(b) == ParkedAt(a) - {q} by {
      forall p | p in ParkedAt(a) - {q} ensures p in ParkedAt(b) {
        var i :| 0 <= i < |a| && a[i].Parked? && a[i].actual == p;
        assert i != idx;
        assert b[i] == a[i];
      }
      forall p | p in ParkedAt(b) ensures p in ParkedAt(a) - {q} {
        var i :| 0 <= i < |b| && b[i].Parked? && b[i].actual == p;
        assert i != idx;
        assert a[i] == b[i];
      }
    }
    assert Occupied(targets, b) == Occupied(targets, a) + {h} by {
      forall p | p in Occupied(targets, a) ensures p in Occupied(targets, b) {
        var i :| 0 <= i < |a| && Slot(targets, a, i) == Some(p);
        assert i != idx;
        assert Slot(targets, b, i) == Some(p);
      }
      forall p | p in Occupied(targets, b) && p != h ensures p in Occupied(targets, a) {
        var i :| 0 <= i < |b| && Slot(targets, b, i) == Some(p);
        assert i != idx;
        assert Slot(targets, a, i) == Some(p);
      }
    }
  }

  // ---------------------------------------------------------------------
  // The search in place, with its cache

  /** The cache of `solve_hallway_cached`, keyed by the state array alone;
      `targets` names the room of each amphipod of the search. */
  class Solver {
    var cache: map<seq<Amphipod>, Option<nat>>
    ghost const targets: seq<nat>

    /** Every cached result is the search from that state with the tokens
        the state leaves free. */
    ghost predicate Valid()
      reads this
    {
      forall k :: k in cache ==>
        WellPlaced(targets, k) && cache[k] == Search(k, FreeHallway(k), FreeSlots(targets, k))
    }

    constructor(ghost targets: seq<nat>)
      ensures Valid() && cache == map[] && this.targets == targets
    {
      cache := map[];
      this.targets := targets;
    }

    /** `solve_hallway_cached`: the stored result for the state if there is
        one, otherwise the search, stored. Sound because the tokens follow
        from the state. */
    method SolveCached(amphipods: array<Amphipod>, hallway: set<nat>, house: set<(nat, nat)>) returns (r: Option<nat>)
      requires Valid() && Consistent(targets, amphipods[..], hallway, house)
      modifies this, amphipods
      ensures Valid() && amphipods[..] == old(amphipods[..])
      ensures r == Search(old(amphipods[..]), hallway, house)
      decreases Rank(amphipods[..]), 5
    {
      var key := amphipods[..];
      if key in cache {
        return cache[key];
      }
      r := Solve(amphipods, hallway, house);
      cache := cache[key := r];
    }

    /** `solve_hallway`: `Some(0)` when every amphipod is home, otherwise
        the cheapest move over all amphipods. */
    method Solve(amphipods: array<Amphipod>, hallway: set<nat>, house: set<(nat, nat)>) returns (r: Option<nat>)
      requires Valid() && Consistent(targets, amphipods[..], hallway, house)
      modifies this, amphipods
      ensures Valid() && amphipods[..] == old(amphipods[..])
      ensures r == Search(old(amphipods[..]), hallway, house)
      decreases Rank(amphipods[..]), 4
    {
      ghost var a := amphipods[..];
      if AllHome(amphipods[..]) {
        return Some(0);
      }
      r := None;
      for idx := 0 to amphipods.Length
        invariant Valid() && amphipods[..] == a
        invariant r == BestFrom(a, hallway, house, idx)
      {
        var o := TryMoves(amphipods, idx, hallway, house);
        r := MinOption(r, o);
      }
    }

    /** The moves of amphipod `idx`. */
    method TryMoves(amphipods: array<Amphipod>, idx: nat, hallway: set<nat>, house: set<(nat, nat)>) returns (r: Option<nat>)
      requires Valid() && Consistent(targets, amphipods[..], hallway, house) && idx < amphipods.Length
      modifies this, amphipods
      ensures Valid() && amphipods[..] == old(amphipods[..])
      ensures r == Options(old(amphipods[..]), idx, hallway, house)
      decreases Rank(amphipods[..]), 3
    {
      match amphipods[idx]
      case Correct(_) =>
        r := None;
      case Wrong(actual, _, _, stackDepth) =>
        if AboveFree(house, actual, stackDepth) {
          var home := TryHomeFromRoom(amphipods, idx, hallway, house);
          var park := TryPark(amphipods, idx, hallway, house);
          r := MinOption(home, park);
        } else {
          r := None;
        }
      case Parked(_, _, _) =>
        r := TryHomeFromHallway(amphipods, idx, hallway, house);
    }

    /** The first element of the `[..]` pair: straight from the room home. */
    method TryHomeFromRoom(amphipods: array<Amphipod>, idx: nat, hallway: set<nat>, house: set<(nat, nat)>)
      returns (r: Option<nat>)
      requires Valid() && Consistent(targets, amphipods[..], hallway, house)
      requires idx < amphipods.Length && amphipods[idx].Wrong?
      modifies this, amphipods
      ensures Valid() && amphipods[..] == old(amphipods[..])
      ensures r == HomeFromRoom(old(amphipods[..]), idx, hallway, house)
      decreases Rank(amphipods[..]), 1
    {
      ghost var a := amphipods[..];
      var s := amphipods[idx];
      var span := Between(s.actual, s.target);
      if !Clear(hallway, span.0, span.1) {
        return None;
      }
      var free := FreeHouse(house, s.target, amphipods.Length / 4);
      if free.None? {
        return None;
      }
      var h := free.value;
      amphipods[idx] := Correct(h.1);
      RankUpdate(a, idx, Correct(h.1));
      HomeFromRoomConsistent(targets, a, idx, hallway, house, h);
      var rest := SolveCached(amphipods, hallway, house + {(s.actual, s.stackDepth)} - {h});
      amphipods[idx] := s;
      assert amphipods[..] == a;
      HomeFromRoomThen(a, idx, hallway, house, h, rest);
      if rest.Some? {
        var total: nat := rest.value + Energy(s.moveCost, h.1 + s.stackDepth + Dist(s.actual, s.target));
        r := Some(total);
      } else {
        r := None;
      }
    }

    /** The second element of the `[..]` pair: the cheapest parking place,
        over the hallway tokens in whatever order the set yields them. */
    method TryPark(amphipods: array<Amphipod>, idx: nat, hallway: set<nat>, house: set<(nat, nat)>) returns (r: Option<nat>)
      requires Valid() && Consistent(targets, amphipods[..], hallway, house)
      requires idx < amphipods.Length && amphipods[idx].Wrong?
      modifies this, amphipods
      ensures Valid() && amphipods[..] == old(amphipods[..])
      ensures r == Least(ParkCosts(old(amphipods[..]), idx, hallway, house, hallway))
      decreases Rank(amphipods[..]), 2
    {
      ghost var a := amphipods[..];
      r := None;
      var todo := hallway;
      ghost var done: set<nat> := {};
      while todo != {}
        invariant Valid() && amphipods[..] == a
        invariant todo + done == hallway && todo !! done
        invariant r == Least(ParkCosts(a, idx, hallway, house, done))
        decreases |todo|
      {
        var place := Pick(todo);
        r := TryParkNext(amphipods, idx, hallway, house, done, place, r);
        todo := todo - {place};
        done := done + {place};
      }
    }

    /** One turn of the parking loop: the cheapest parking so far, with one
        more hallway token tried. */
    method TryParkNext(amphipods: array<Amphipod>, idx: nat, hallway: set<nat>, house: set<(nat, nat)>,
                       ghost done: set<nat>, place: nat, best: Option<nat>)
      returns (r: Option<nat>)
      requires Valid() && Consistent(targets, amphipods[..], hallway, house)
      requires idx < amphipods.Length && amphipods[idx].Wrong? && place in hallway
      requires best == Least(ParkCosts(amphipods[..], idx, hallway, house, done))
      modifies this, amphipods
      ensures Valid() && amphipods[..] == old(amphipods[..])
      ensures r == Least(ParkCosts(old(amphipods[..]), idx, hallway, house, done + {place}))
      decreases Rank(amphipods[..]), 1
    {
      ghost var a := amphipods[..];
      var c := TryParkAt(amphipods, idx, hallway, house, place);
      ParkCostsAdd(a, idx, hallway, house, done, place);
      LeastAdd(ParkCosts(a, idx, hallway, house, done), c);
      r := MinOption(best, c);
    }

    /** Parking at one hallway token. */
    method TryParkAt(amphipods: array<Amphipod>, idx: nat, hallway: set<nat>, house: set<(nat, nat)>, place: nat)
      returns (r: Option<nat>)
      requires Valid() && Consistent(targets, amphipods[..], hallway, house)
      requires idx < amphipods.Length && amphipods[idx].Wrong? && place in hallway
      modifies this, amphipods
      ensures Valid() && amphipods[..] == old(amphipods[..])
      ensures r == ParkCost(old(amphipods[..]), idx, hallway, house, place)
      decreases Rank(amphipods[..]), 0
    {
      ghost var a := amphipods[..];
      var s := amphipods[idx];
      var span := Between(s.actual, place);
      if !Clear(hallway, span.0, span.1) {
        return None;
      }
      amphipods[idx] := Parked(place, s.target, s.moveCost);
      RankUpdate(a, idx, Parked(place, s.target, s.moveCost));
      ParkConsistent(targets, a, idx, hallway, house, place);
      var rest := SolveCached(amphipods, hallway - {place}, house + {(s.actual, s.stackDepth)});
      amphipods[idx] := s;
      assert amphipods[..] == a;
      if rest.Some? {
        var total: nat := rest.value + Energy(s.moveCost, s.stackDepth + Dist(s.actual, place));
        r := Some(total);
      } else {
        r := None;
      }
    }

    /** A parked amphipod going home. */
    method TryHomeFromHallway(amphipods: array<Amphipod>, idx: nat, hallway: set<nat>, house: set<(nat, nat)>)
      returns (r: Option<nat>)
      requires Valid() && Consistent(targets, amphipods[..], hallway, house)
      requires idx < amphipods.Length && amphipods[idx].Parked?
      modifies this, amphipods
      ensures Valid() && amphipods[..] == old(amphipods[..])
      ensures r == HomeFromHallway(old(amphipods[..]), idx, hallway, house)
      decreases Rank(amphipods[..]), 1
    {
      ghost var a := amphipods[..];
      var s := amphipods[idx];
      var clear := if s.actual < s.target then Clear(hallway, s.actual + 1, s.target)
        else Clear(hallway, s.target, s.actual - 1);
      if !clear {
        return None;
      }
      var free := FreeHouse(house, s.target, amphipods.Length / 4);
      if free.None? {
        return None;
      }
      var h := free.value;
      amphipods[idx] := Correct(h.1);
      RankUpdate(a, idx, Correct(h.1));
      HomeFromHallwayConsistent(targets, a, idx, hallway, house, h);
      var rest := SolveCached(amphipods, hallway + {s.actual}, house - {h});
      amphipods[idx] := s;
      assert amphipods[..] == a;
      HomeFromHallwayThen(a, idx, hallway, house, h, rest);
      if rest.Some? {
        var total: nat := rest.value + Energy(s.moveCost, h.1 + Dist(s.actual, s.target));
        r := Some(total);
      } else {
        r := None;
      }
    }
  }
}
