/** `day-02/src/main.rs`: piloting the submarine. Each line is a command,
    a direction and an amount; part one reads `up`, `down`, `forward` and
    `backward` as moves of the position, part two reads `up` and `down` as
    turns of the aim and `forward` as a move along it. */
module Day02 {
  import opened Common
  import opened Text

  datatype Command = Command(direction: string, amount: int)

  // ---------------------------------------------------------------------
  // Reading the commands

  /** A line of the input: empty lines are filtered out, and a line is
      kept when it has a piece after its first space and that piece parses
      as `i64`. The first piece is the direction, whatever it says. */
  function ParseCommand(line: string): (r: Option<Command>)
    ensures line == [] ==> r.None?
    ensures r.Some? ==> I64Min <= r.value.amount <= I64Max
  {
    if line == [] then None
    else
      var pieces := Split(line, " ");
      if |pieces| < 2 then None
      else
        match ParseI64(pieces[1])
        case None => None
        case Some(v) => Some(Command(pieces[0], v))
  }

  /** The commands of the lines that parse, in order; `flat_map` drops
      the others. */
  function ParseCommands(lines: seq<string>): (r: seq<Command>)
    ensures |r| <= |lines|
  {
    Somes(seq(|lines|, k requires 0 <= k < |lines| => ParseCommand(lines[k])))
  }

  /** How a command is written: direction, one space, amount. */
  function CommandText(c: Command): string
  {
    c.direction + " " + IntToString(c.amount)
  }

  /** The text of a command splits at its space into the direction and
      the amount. */
  lemma SplitCommandText(c: Command)
    requires forall i :: 0 <= i < |c.direction| ==> c.direction[i] != ' '
    requires I64Min <= c.amount <= I64Max
    ensures Split(CommandText(c), " ") == [c.direction, IntToString(c.amount)]
  {
    var n := IntToString(c.amount);
    ParseIntOfIntToString(c.amount, I64Min, I64Max);
    assert forall i :: 0 <= i < |n| ==> n[i] != ' ';
    SplitFirst(c.direction, " ", n);
    NoOccurrence(n, ' ');
    SplitNone(n, " ");
  }

  /** A command whose direction has no space and whose amount is an
      `i64` reads back as itself. */
  lemma ParseCommandOfText(c: Command)
    requires forall i :: 0 <= i < |c.direction| ==> c.direction[i] != ' '
    requires I64Min <= c.amount <= I64Max
    ensures ParseCommand(CommandText(c)) == Some(c)
  {
    SplitCommandText(c);
    ParseIntOfIntToString(c.amount, I64Min, I64Max);
  }

  /** Lines written from such commands read back as those commands. */
  lemma ParseCommandsOfText(cmds: seq<Command>)
    requires forall k :: 0 <= k < |cmds| ==> I64Min <= cmds[k].amount <= I64Max
    requires forall k, i :: 0 <= k < |cmds| && 0 <= i < |cmds[k].direction| ==> cmds[k].direction[i] != ' '
    ensures ParseCommands(seq(|cmds|, k requires 0 <= k < |cmds| => CommandText(cmds[k]))) == cmds
  {
    var lines := seq(|cmds|, k requires 0 <= k < |cmds| => CommandText(cmds[k]));
    var parsed := seq(|lines|, k requires 0 <= k < |lines| => ParseCommand(lines[k]));
    forall k | 0 <= k < |cmds|
      ensures parsed[k] == Some(cmds[k])
    {
      ParseCommandOfText(cmds[k]);
    }
    SomesAll(parsed, cmds);
  }

  // ---------------------------------------------------------------------
  // Part one: moving the position

  /** The arms of `match c.direction.as_str()`; any other text falls to
      the `_` arm. */
  datatype Direction = Up | Down | Forward | Backward | Unknown

  function DirectionOf(c: Command): Direction
  {
    match c.direction
    case "up" => Up
    case "down" => Down
    case "forward" => Forward
    case "backward" => Backward
    case _ => Unknown
  }

  datatype Position = Position(x: int, depth: int)

  /** The four directions part one knows. */
  predicate Known(c: Command)
  {
    DirectionOf(c) != Unknown
  }

  /** One command of part one. Each command moves along one axis only,
      by its amount, and an unknown direction does not move at all. */
  function Move(p: Position, c: Command): (r: Position)
    ensures r.x == p.x || r.depth == p.depth
    ensures Abs(r.x - p.x) + Abs(r.depth - p.depth) == if Known(c) then Abs(c.amount) else 0
  {
    match DirectionOf(c)
    case Up => Position(p.x, p.depth - c.amount)
    case Down => Position(p.x, p.depth + c.amount)
    case Backward => Position(p.x - c.amount, p.depth)
    case Forward => Position(p.x + c.amount, p.depth)
    case Unknown => p
  }

  /** The position after the commands, from `(0, 0)`. */
  function Run(cmds: seq<Command>): Position
  {
    if cmds == [] then Position(0, 0)
    else Move(Run(cmds[..|cmds| - 1]), cmds[|cmds| - 1])
  }

  /** The amounts of the commands in one direction, added up. */
  function Total(cmds: seq<Command>, dir: Direction): int
  {
    if cmds == [] then 0
    else
      var c := cmds[|cmds| - 1];
      Total(cmds[..|cmds| - 1], dir) + if DirectionOf(c) == dir then c.amount else 0
  }

  /** Part one's position in closed form: `forward` less `backward`
      along, `down` less `up` in depth. */
  lemma {:induction false} RunTotals(cmds: seq<Command>)
    ensures Run(cmds) == Position(Total(cmds, Forward) - Total(cmds, Backward),
                                  Total(cmds, Down) - Total(cmds, Up))
  {
    if cmds != [] {
      RunTotals(cmds[..|cmds| - 1]);
    }
  }

  lemma {:induction false} TotalAppend(a: seq<Command>, b: seq<Command>, dir: Direction)
    ensures Total(a + b, dir) == Total(a, dir) + Total(b, dir)
    decreases |b|
  {
    if b == [] {
      assert a + b == a;
    } else {
      var n := |b| - 1;
      assert (a + b)[..|a + b| - 1] == a + b[..n];
      TotalAppend(a, b[..n], dir);
    }
  }

  /** The order of the commands does not matter in part one: two runs
      of commands give the same position in either order. */
  lemma RunSwap(a: seq<Command>, b: seq<Command>)
    ensures Run(a + b) == Run(b + a)
  {
    RunTotals(a + b);
    RunTotals(b + a);
    TotalAppend(a, b, Forward);
    TotalAppend(a, b, Backward);
    TotalAppend(a, b, Down);
    TotalAppend(a, b, Up);
    TotalAppend(b, a, Forward);
    TotalAppend(b, a, Backward);
    TotalAppend(b, a, Down);
    TotalAppend(b, a, Up);
  }

  /** The commands in the known directions, in order. */
  function KnownOnly(cmds: seq<Command>): (r: seq<Command>)
    ensures |r| <= |cmds|
    ensures forall k :: 0 <= k < |r| ==> Known(r[k])
  {
    if cmds == [] then []
    else
      var c := cmds[|cmds| - 1];
      KnownOnly(cmds[..|cmds| - 1]) + if Known(c) then [c] else []
  }

  /** Commands in unknown directions are ignored: dropping them all
      leaves part one's position unchanged. */
  lemma {:induction false} RunIgnoresUnknown(cmds: seq<Command>)
    ensures Run(KnownOnly(cmds)) == Run(cmds)
  {
    if cmds != [] {
      var init, c := cmds[..|cmds| - 1], cmds[|cmds| - 1];
      RunIgnoresUnknown(init);
      if Known(c) {
        assert (KnownOnly(init) + [c])[..|KnownOnly(init) + [c]| - 1] == KnownOnly(init);
      } else {
        assert KnownOnly(cmds) == KnownOnly(init);
      }
    }
  }

  /** The first loop, over local `x` and `depth`, and the product
      `dbg!` shows. */
  method Part1(cmds: seq<Command>) returns (x: int, depth: int, product: int)
    ensures Position(x, depth) == Run(cmds)
    ensures x == Total(cmds, Forward) - Total(cmds, Backward)
    ensures depth == Total(cmds, Down) - Total(cmds, Up)
    ensures product == depth * x
  {
    x, depth := 0, 0;
    for i := 0 to |cmds|
      invariant Position(x, depth) == Run(cmds[..i])
    {
      assert cmds[..i + 1][..i] == cmds[..i];
      var c := cmds[i];
      match c.direction {
        case "up" => depth := depth - c.amount;
        case "down" => depth := depth + c.amount;
        case "backward" => x := x - c.amount;
        case "forward" => x := x + c.amount;
        case _ =>
      }
    }
    assert cmds[..|cmds|] == cmds;
    RunTotals(cmds);
    product := depth * x;
  }

  // ---------------------------------------------------------------------
  // Part two: steering by the aim

  datatype Course = Course(x: int, depth: int, aim: int)

  /** One command of part two. Only `forward` moves, and then the depth
      grows by the aim times the distance moved; `up` and `down` change
      only the aim, and every other direction, `backward` included,
      changes nothing. */
  function Steer(s: Course, c: Command): (r: Course)
    ensures DirectionOf(c) != Forward ==> r.x == s.x && r.depth == s.depth
    ensures DirectionOf(c) !in {Up, Down} ==> r.aim == s.aim
    ensures DirectionOf(c) !in {Up, Down, Forward} ==> r == s
  {
    match DirectionOf(c)
    case Up => Course(s.x, s.depth, s.aim - c.amount)
    case Down => Course(s.x, s.depth, s.aim + c.amount)
    case Forward => Course(s.x + c.amount, s.depth + s.aim * c.amount, s.aim)
    case _ => s
  }

  /** Part two dives by the aim: the depth a command adds is the aim
      times the distance it moves along. */
  lemma SteerDepth(s: Course, c: Command)
    ensures Steer(s, c).depth - s.depth == s.aim * (Steer(s, c).x - s.x)
  {
  }

  /** The course after the commands, from `(0, 0)` with aim 0. */
  function Pilot(cmds: seq<Command>): Course
  {
    if cmds == [] then Course(0, 0, 0)
    else Steer(Pilot(cmds[..|cmds| - 1]), cmds[|cmds| - 1])
  }

  /** Part two's aim follows the same totals as part one's depth, and
      its position along is the sum of the `forward` amounts. */
  lemma {:induction false} PilotAim(cmds: seq<Command>)
    ensures Pilot(cmds).aim == Run(cmds).depth
    ensures Pilot(cmds).x == Total(cmds, Forward)
  {
    if cmds != [] {
      PilotAim(cmds[..|cmds| - 1]);
    }
  }

  /** The course of a run `q` made after a run `p`: it starts from the
      aim `p` left, so its depth gain is offset by that aim times the
      distance it moves. */
  function Then(p: Course, q: Course): Course
  {
    Course(p.x + q.x, p.depth + q.depth + p.aim * q.x, p.aim + q.aim)
  }

  /** Steering after a run is steering the second run, carried over. */
  lemma SteerThen(p: Course, q: Course, c: Command)
    ensures Steer(Then(p, q), c) == Then(p, Steer(q, c))
  {
    if DirectionOf(c) == Forward {
      assert p.aim * (q.x + c.amount) == p.aim * q.x + p.aim * c.amount;
      assert (p.aim + q.aim) * c.amount == p.aim * c.amount + q.aim * c.amount;
    }
  }

  /** The course of two runs of commands is the first run's followed by
      the second's. */
  lemma {:induction false} PilotAppend(a: seq<Command>, b: seq<Command>)
    ensures Pilot(a + b) == Then(Pilot(a), Pilot(b))
    decreases |b|
  {
    if b == [] {
      assert a + b == a;
      assert Pilot(a).aim * 0 == 0;
    } else {
      var n := |b| - 1;
      PilotAppend(a, b[..n]);
      PilotLast(a, b);
      SteerThen(Pilot(a), Pilot(b[..n]), b[n]);
    }
  }

  /** The last command of `a + b` is the last of `b`. */
  lemma PilotLast(a: seq<Command>, b: seq<Command>)
    requires b != []
    ensures Pilot(a + b) == Steer(Pilot(a + b[..|b| - 1]), b[|b| - 1])
  {
    assert (a + b)[..|a + b| - 1] == a + b[..|b| - 1];
  }

  /** The commands part two acts on, in order. */
  function SteeringOnly(cmds: seq<Command>): (r: seq<Command>)
    ensures |r| <= |cmds|
    ensures forall k :: 0 <= k < |r| ==> DirectionOf(r[k]) in {Up, Down, Forward}
  {
    if cmds == [] then []
    else
      var c := cmds[|cmds| - 1];
      SteeringOnly(cmds[..|cmds| - 1]) + if DirectionOf(c) in {Up, Down, Forward} then [c] else []
  }

  /** `backward` and unknown directions are ignored by part two: dropping
      them leaves the course unchanged. */
  lemma {:induction false} PilotIgnoresOthers(cmds: seq<Command>)
    ensures Pilot(SteeringOnly(cmds)) == Pilot(cmds)
  {
    if cmds != [] {
      var init, c := cmds[..|cmds| - 1], cmds[|cmds| - 1];
      PilotIgnoresOthers(init);
      if DirectionOf(c) in {Up, Down, Forward} {
        assert (SteeringOnly(init) + [c])[..|SteeringOnly(init) + [c]| - 1] == SteeringOnly(init);
      } else {
        assert SteeringOnly(cmds) == SteeringOnly(init);
      }
    }
  }

  /** The second loop, over fresh `x`, `depth` and `aim`, and the product
      `dbg!` shows. */
  method Part2(cmds: seq<Command>) returns (x: int, depth: int, aim: int, product: int)
    ensures Course(x, depth, aim) == Pilot(cmds)
    ensures x == Total(cmds, Forward) && aim == Run(cmds).depth
    ensures product == depth * x
  {
    x, depth, aim := 0, 0, 0;
    for i := 0 to |cmds|
      invariant Course(x, depth, aim) == Pilot(cmds[..i])
    {
      assert cmds[..i + 1][..i] == cmds[..i];
      var c := cmds[i];
      match c.direction {
        case "up" => aim := aim - c.amount;
        case "down" => aim := aim + c.amount;
        case "forward" =>
          x := x + c.amount;
          depth := depth + aim * c.amount;
        case _ =>
      }
    }
    assert cmds[..|cmds|] == cmds;
    PilotAim(cmds);
    product := depth * x;
  }

  /** The whole run on the lines of the input: both products. */
  method Solve(lines: seq<string>) returns (part1: int, part2: int)
    ensures var cmds := ParseCommands(lines);
      part1 == Run(cmds).depth * Run(cmds).x && part2 == Pilot(cmds).depth * Pilot(cmds).x
  {
    var cmds := ParseCommands(lines);
    var _, _, p1 := Part1(cmds);
    var _, _, _, p2 := Part2(cmds);
    part1, part2 := p1, p2;
  }
}
