/** `day-12/src/main.rs`: counting the paths through a cave system. The
    system maps each cave name to the set of caves it is connected to, each
    edge entered in both directions; a cave is small when its name is all
    lower-case letters. `depth_search` counts the paths from a cave to
    `"end"`: a small cave may be entered once, or a second time while the
    one second visit is still allowed; big caves may always be entered.
    Results are cached by (cave, visit counts, flag). */
module Day12 {
  import opened Common

  datatype Cave = Big(name: string) | Small(name: string)

  type System = map<string, set<Cave>>
  type Visits = map<Cave, nat>

  /** `^[a-z]*$`. */
  predicate IsSmallName(name: string)
  {
    forall i :: 0 <= i < |name| ==> 'a' <= name[i] <= 'z'
  }

  /** `Cave::Small` when the name matches `^[a-z]*$`, `Cave::Big` otherwise. */
  function Classify(name: string): Cave
  {
    if IsSmallName(name) then Small(name) else Big(name)
  }

  // ---------------------------------------------------------------------
  // Building the system

  /** Adds `c` to the neighbours of `key`, starting an empty set for a cave
      seen for the first time. */
  function Insert(sys: System, key: string, c: Cave): System
  {
    sys[key := (if key in sys then sys[key] else {}) + {c}]
  }

  /** The system after the first `|edges|` captures: each edge `a-b` puts
      `b` among the successors of `a` and `a` among those of `b`. */
  function SystemOf(edges: seq<(string, string)>): System
  {
    if |edges| == 0 then map[]
    else
      var (a, b) := edges[|edges| - 1];
      Insert(Insert(SystemOf(edges[..|edges| - 1]), a, Classify(b)), b, Classify(a))
  }

  /** The name occurs on either side of some edge. */
  ghost predicate Mentions(edges: seq<(string, string)>, name: string)
  {
    exists i :: 0 <= i < |edges| && (edges[i].0 == name || edges[i].1 == name)
  }

  /** Some edge joins `a` and `b`, written either way round. */
  ghost predicate Linked(edges: seq<(string, string)>, a: string, b: string)
  {
    exists i :: 0 <= i < |edges| && (edges[i] == (a, b) || edges[i] == (b, a))
  }

  /** One more edge `a-b`: `a` gains `b` and `b` gains `a`. */
  lemma SystemOfLast(edges: seq<(string, string)>)
    requires |edges| > 0
    ensures var prev := SystemOf(edges[..|edges| - 1]);
            var (a, b) := edges[|edges| - 1];
            SystemOf(edges).Keys == prev.Keys + {a, b} &&
            forall n :: n in SystemOf(edges) ==>
              SystemOf(edges)[n] == (if n in prev then prev[n] else {})
                                    + (if n == a then {Classify(b)} else {})
                                    + (if n == b then {Classify(a)} else {})
  {
  }

  /** The keys of the system are exactly the names on the edges. */
  lemma {:induction false} SystemOfKeys(edges: seq<(string, string)>, a: string)
    ensures a in SystemOf(edges) <==> Mentions(edges, a)
  {
    if |edges| > 0 {
      var prefix := edges[..|edges| - 1];
      SystemOfKeys(prefix, a);
      SystemOfLast(edges);
      if Mentions(prefix, a) {
        var i :| 0 <= i < |prefix| && (prefix[i].0 == a || prefix[i].1 == a);
        assert edges[i] == prefix[i];
      }
      if Mentions(edges, a) {
        var i :| 0 <= i < |edges| && (edges[i].0 == a || edges[i].1 == a);
        if i < |edges| - 1 {
          assert prefix[i] == edges[i];
          assert Mentions(prefix, a);
        }
      }
    }
  }

  /** A successor of `a` is joined to `a` by an edge. */
  lemma {:induction false} SuccessorLinked(edges: seq<(string, string)>, a: string, c: Cave)
    requires a in SystemOf(edges) && c in SystemOf(edges)[a]
    ensures c == Classify(c.name) && Linked(edges, a, c.name)
  {
    var prefix := edges[..|edges| - 1];
    var last := |edges| - 1;
    SystemOfLast(edges);
    if a in SystemOf(prefix) && c in SystemOf(prefix)[a] {
      SuccessorLinked(prefix, a, c);
      var i :| 0 <= i < |prefix| && (prefix[i] == (a, c.name) || prefix[i] == (c.name, a));
      assert edges[i] == prefix[i];
    } else {
      assert edges[last] == (a, c.name) || edges[last] == (c.name, a);
    }
  }

  /** A cave joined to `a` by an edge, classified by name, is a successor. */
  lemma {:induction false} LinkedSuccessor(edges: seq<(string, string)>, a: string, c: Cave)
    requires c == Classify(c.name) && Linked(edges, a, c.name)
    ensures a in SystemOf(edges) && c in SystemOf(edges)[a]
  {
    var prefix := edges[..|edges| - 1];
    var i :| 0 <= i < |edges| && (edges[i] == (a, c.name) || edges[i] == (c.name, a));
    if i < |edges| - 1 {
      assert prefix[i] == edges[i];
      LinkedSuccessor(prefix, a, c);
      SuccessorKept(edges, a, c);
    } else {
      LastSuccessor(edges, a, c);
    }
  }

  /** A successor stays one when an edge is added. */
  lemma SuccessorKept(edges: seq<(string, string)>, a: string, c: Cave)
    requires |edges| > 0
    requires a in SystemOf(edges[..|edges| - 1]) && c in SystemOf(edges[..|edges| - 1])[a]
    ensures a in SystemOf(edges) && c in SystemOf(edges)[a]
  {
    SystemOfLast(edges);
  }

  /** The last edge makes each of its ends, classified, a successor of the
      other. */
  lemma LastSuccessor(edges: seq<(string, string)>, a: string, c: Cave)
    requires |edges| > 0 && c == Classify(c.name)
    requires edges[|edges| - 1] == (a, c.name) || edges[|edges| - 1] == (c.name, a)
    ensures a in SystemOf(edges) && c in SystemOf(edges)[a]
  {
    SystemOfLast(edges);
  }

  /** Both together, for every name and cave. */
  lemma SystemOfSpec(edges: seq<(string, string)>)
    ensures forall a :: a in SystemOf(edges) <==> Mentions(edges, a)
    ensures forall a, c :: a in SystemOf(edges) ==>
      (c in SystemOf(edges)[a] <==> c == Classify(c.name) && Linked(edges, a, c.name))
  {
    forall a
      ensures a in SystemOf(edges) <==> Mentions(edges, a)
    {
      SystemOfKeys(edges, a);
    }
    forall a: string, c: Cave | a in SystemOf(edges)
      ensures c in SystemOf(edges)[a] <==> c == Classify(c.name) && Linked(edges, a, c.name)
    {
      if c in SystemOf(edges)[a] {
        SuccessorLinked(edges, a, c);
      }
      if c == Classify(c.name) && Linked(edges, a, c.name) {
        LinkedSuccessor(edges, a, c);
      }
    }
  }

  /** Every edge is entered both ways: if `c` follows `a`, then `a`,
      classified by its name, follows `c`. */
  lemma Symmetric(edges: seq<(string, string)>, a: string, c: Cave)
    requires a in SystemOf(edges) && c in SystemOf(edges)[a]
    ensures c.name in SystemOf(edges) && Classify(a) in SystemOf(edges)[c.name]
  {
    SystemOfSpec(edges);
    var i :| 0 <= i < |edges| && (edges[i] == (a, c.name) || edges[i] == (c.name, a));
    assert Mentions(edges, c.name);
    assert Linked(edges, c.name, a);
  }

  /** The capture loop: each edge inserted in both directions. */
  method BuildSystem(edges: seq<(string, string)>) returns (system: System)
    ensures system == SystemOf(edges)
  {
    system := map[];
    for k := 0 to |edges|
      invariant system == SystemOf(edges[..k])
    {
      var (a, b) := edges[k];
      var cave1 := Classify(a);
      var cave2 := Classify(b);
      system := Insert(system, a, cave2);
      system := Insert(system, b, cave1);
      assert edges[..k + 1][..k] == edges[..k];
    }
    assert edges[..|edges|] == edges;
  }

  // ---------------------------------------------------------------------
  // The search

  /** What the search needs of a system: every successor is classified by
      its name and has successors of its own, and no big cave leads to a
      big cave (otherwise the search would go back and forth between the
      two forever). */
  ghost predicate WellFormed(sys: System)
  {
    forall n, c :: n in sys && c in sys[n] ==>
      c == Classify(c.name) && c.name in sys && (c.Big? ==> IsSmallName(n))
  }

  /** No edge joins two big caves. */
  ghost predicate NoBigPair(edges: seq<(string, string)>)
  {
    forall i :: 0 <= i < |edges| ==> IsSmallName(edges[i].0) || IsSmallName(edges[i].1)
  }

  /** A system built from edges without a big-big pair is well formed. */
  lemma BuiltWellFormed(edges: seq<(string, string)>)
    requires NoBigPair(edges)
    ensures WellFormed(SystemOf(edges))
  {
    var sys := SystemOf(edges);
    SystemOfSpec(edges);
    forall n: string, c: Cave | n in sys && c in sys[n]
      ensures c == Classify(c.name) && c.name in sys && (c.Big? ==> IsSmallName(n))
    {
      var i :| 0 <= i < |edges| && (edges[i] == (n, c.name) || edges[i] == (c.name, n));
      assert Mentions(edges, c.name);
    }
  }

  /** The small caves of the system. */
  ghost function Smalls(sys: System): set<Cave>
  {
    set n, c | n in sys && c in sys[n] && c.Small? :: c
  }

  /** Twice the number of small caves not yet visited, plus one while the
      second visit is still allowed: every entry into a small cave lowers it. */
  ghost function Potential(sys: System, vis: Visits, ok: bool): nat
  {
    2 * |Smalls(sys) - vis.Keys| + (if ok then 1 else 0)
  }

  function Rank(name: string): nat
  {
    if IsSmallName(name) then 1 else 0
  }

  lemma PotentialEnter(sys: System, from: string, s: Cave, vis: Visits, ok: bool, count: nat)
    requires from in sys && s in sys[from] && s.Small? && s !in vis
    ensures Potential(sys, vis[s := count], ok) < Potential(sys, vis, ok)
  {
    assert s in Smalls(sys);
    assert Smalls(sys) - vis[s := count].Keys == (Smalls(sys) - vis.Keys) - {s};
  }

  lemma PotentialRevisit(sys: System, s: Cave, vis: Visits, count: nat)
    requires s in vis
    ensures Potential(sys, vis[s := count], false) < Potential(sys, vis, true)
  {
    assert vis[s := count].Keys == vis.Keys;
  }

  /** `depth_search` without the cache: one path from `"end"`, otherwise
      the sum over the successors of what entering each one yields. */
  ghost function DepthSearch(sys: System, name: string, vis: Visits, ok: bool): nat
    requires WellFormed(sys) && (name == "end" || name in sys)
    decreases Potential(sys, vis, ok), Rank(name), 2, 0
  {
    if name == "end" then 1 else SumSteps(sys, name, sys[name], vis, ok)
  }

  /** The sum over a set of successors, in no particular order. */
  ghost function SumSteps(sys: System, from: string, succ: set<Cave>, vis: Visits, ok: bool): nat
    requires WellFormed(sys) && from in sys && succ <= sys[from]
    decreases Potential(sys, vis, ok), Rank(from), 1, |succ|
  {
    if succ == {} then 0
    else
      var s :| s in succ;
      Step(sys, from, s, vis, ok) + SumSteps(sys, from, succ - {s}, vis, ok)
  }

  /** The closure mapped over the successors: an unvisited small cave is
      entered with count 1; a small cave visited once is entered again with
      count 2 only while the second visit is allowed, which uses it up; a
      big cave is always entered; anything else contributes no path. */
  ghost function Step(sys: System, from: string, s: Cave, vis: Visits, ok: bool): nat
    requires WellFormed(sys) && from in sys && s in sys[from]
    decreases Potential(sys, vis, ok), Rank(from), 0, 0
  {
    match s
    case Small(name) =>
      if s !in vis then
        PotentialEnter(sys, from, s, vis, ok, 1);
        DepthSearch(sys, name, vis[s := 1], ok)
      else if vis[s] == 1 && ok then
        PotentialRevisit(sys, s, vis, 2);
        DepthSearch(sys, name, vis[s := 2], false)
      else 0
    case Big(name) => DepthSearch(sys, name, vis, ok)
  }

  /** The sum does not depend on which successor is taken first. */
  lemma {:induction false} SumStepsAny(sys: System, from: string, succ: set<Cave>, vis: Visits, ok: bool, s: Cave)
    requires WellFormed(sys) && from in sys && succ <= sys[from] && s in succ
    ensures SumSteps(sys, from, succ, vis, ok) == Step(sys, from, s, vis, ok) + SumSteps(sys, from, succ - {s}, vis, ok)
    decreases |succ|
  {
    var t :| t in succ && SumSteps(sys, from, succ, vis, ok) == Step(sys, from, t, vis, ok) + SumSteps(sys, from, succ - {t}, vis, ok);
    if t != s {
      SumStepsAny(sys, from, succ - {t}, vis, ok, s);
      SumStepsAny(sys, from, succ - {s}, vis, ok, t);
      assert succ - {t} - {s} == succ - {s} - {t};
    }
  }

  /** `"end"` counts as one path, whatever has been visited. */
  lemma EndIsOnePath(sys: System, vis: Visits, ok: bool)
    requires WellFormed(sys)
    ensures DepthSearch(sys, "end", vis, ok) == 1
  {
  }

  /** `start` is marked as visited twice before the search, so no path
      ever enters it again. */
  lemma StartNotReentered(sys: System, from: string, vis: Visits, ok: bool)
    requires WellFormed(sys) && from in sys && Small("start") in sys[from]
    requires Small("start") in vis && vis[Small("start")] == 2
    ensures Step(sys, from, Small("start"), vis, ok) == 0
  {
  }

  /** Without the second visit, a small cave already visited yields no path. */
  lemma NoRevisitWithoutFlag(sys: System, from: string, s: Cave, vis: Visits)
    requires WellFormed(sys) && from in sys && s in sys[from] && s.Small? && s in vis
    ensures Step(sys, from, s, vis, false) == 0
  {
  }

  /** Allowing one second visit never loses a path: part two counts at least
      as many paths as part one. */
  lemma {:induction false} SecondVisitMonotone(sys: System, name: string, vis: Visits)
    requires WellFormed(sys) && (name == "end" || name in sys)
    ensures DepthSearch(sys, name, vis, false) <= DepthSearch(sys, name, vis, true)
    decreases Potential(sys, vis, false), Rank(name), 2, 0
  {
    if name != "end" {
      SumStepsMonotone(sys, name, sys[name], vis);
    }
  }

  lemma {:induction false} SumStepsMonotone(sys: System, from: string, succ: set<Cave>, vis: Visits)
    requires WellFormed(sys) && from in sys && succ <= sys[from]
    ensures SumSteps(sys, from, succ, vis, false) <= SumSteps(sys, from, succ, vis, true)
    decreases Potential(sys, vis, false), Rank(from), 1, |succ|
  {
    if succ != {} {
      var s :| s in succ;
      SumStepsAny(sys, from, succ, vis, false, s);
      SumStepsAny(sys, from, succ, vis, true, s);
      StepMonotone(sys, from, s, vis);
      SumStepsMonotone(sys, from, succ - {s}, vis);
    }
  }

  lemma {:induction false} StepMonotone(sys: System, from: string, s: Cave, vis: Visits)
    requires WellFormed(sys) && from in sys && s in sys[from]
    ensures Step(sys, from, s, vis, false) <= Step(sys, from, s, vis, true)
    decreases Potential(sys, vis, false), Rank(from), 0, 0
  {
    match s
    case Small(name) =>
      if s !in vis {
        PotentialEnter(sys, from, s, vis, false, 1);
        SecondVisitMonotone(sys, name, vis[s := 1]);
      }
    case Big(name) =>
      SecondVisitMonotone(sys, name, vis);
  }

  // ---------------------------------------------------------------------
  // The paths the search counts

  /** Visit counts as the search records them: every recorded cave has
      been entered once or twice. */
  ghost predicate Recorded(vis: Visits)
  {
    forall c :: c in vis ==> vis[c] == 1 || vis[c] == 2
  }

  /** How often `c` has been entered once the walk `p` is done, counting
      the entries already recorded in `vis`. */
  function Occ(vis: Visits, p: seq<Cave>, c: Cave): nat
  {
    multiset(p)[c] + (if c in vis then vis[c] else 0)
  }

  /** `p` leads from `name` along successors and stops at its first
      `"end"`. */
  ghost predicate Chain(sys: System, name: string, p: seq<Cave>)
  {
    name in sys && p != [] && p[0] in sys[name] && p[|p| - 1].name == "end" &&
    forall i :: 0 <= i < |p| - 1 ==> p[i].name != "end" && p[i].name in sys && p[i + 1] in sys[p[i].name]
  }

  /** The visit rule for a whole walk: no small cave on it is entered more
      than twice in all, and at most one of them twice, and that only while
      the second visit is allowed. */
  ghost predicate Admissible(vis: Visits, ok: bool, p: seq<Cave>)
  {
    (forall c :: c in p && c.Small? ==> Occ(vis, p, c) <= 2) &&
    (forall c, d :: c in p && d in p && c.Small? && d.Small? && Occ(vis, p, c) == 2 && Occ(vis, p, d) == 2 ==>
      ok && c == d)
  }

  /** A path from `name` on, defined without the search: nothing is left
      to walk at `"end"`; from any other cave, a chain to `"end"` that keeps
      the visit rule. */
  ghost predicate IsWalk(sys: System, name: string, vis: Visits, ok: bool, p: seq<Cave>)
  {
    if name == "end" then p == [] else Chain(sys, name, p) && Admissible(vis, ok, p)
  }

  /** The paths the search enumerates, following its recursion: the empty
      continuation at `"end"`, otherwise each successor followed by a path
      from it. */
  ghost function Paths(sys: System, name: string, vis: Visits, ok: bool): set<seq<Cave>>
    requires WellFormed(sys) && (name == "end" || name in sys)
    decreases Potential(sys, vis, ok), Rank(name), 2, 0
  {
    if name == "end" then {[]} else Through(sys, name, sys[name], vis, ok)
  }

  ghost function Through(sys: System, from: string, succ: set<Cave>, vis: Visits, ok: bool): set<seq<Cave>>
    requires WellFormed(sys) && from in sys && succ <= sys[from]
    decreases Potential(sys, vis, ok), Rank(from), 1, |succ|
  {
    set s, q | s in succ && q in StepPaths(sys, from, s, vis, ok) :: [s] + q
  }

  ghost function StepPaths(sys: System, from: string, s: Cave, vis: Visits, ok: bool): set<seq<Cave>>
    requires WellFormed(sys) && from in sys && s in sys[from]
    decreases Potential(sys, vis, ok), Rank(from), 0, 0
  {
    match s
    case Small(name) =>
      if s !in vis then
        PotentialEnter(sys, from, s, vis, ok, 1);
        Paths(sys, name, vis[s := 1], ok)
      else if vis[s] == 1 && ok then
        PotentialRevisit(sys, s, vis, 2);
        Paths(sys, name, vis[s := 2], false)
      else {}
    case Big(name) => Paths(sys, name, vis, ok)
  }

  /** `depth_search` counts paths: its count is the number of walks from
      `name`, and they are exactly the chains to `"end"` that keep the
      visit rule. */
  lemma WalksCounted(sys: System, name: string, vis: Visits, ok: bool)
    requires WellFormed(sys) && (name == "end" || name in sys) && Recorded(vis)
    ensures DepthSearch(sys, name, vis, ok) == |Paths(sys, name, vis, ok)|
    ensures forall p :: p in Paths(sys, name, vis, ok) <==> IsWalk(sys, name, vis, ok, p)
  {
    PathsCount(sys, name, vis, ok);
    forall p
      ensures p in Paths(sys, name, vis, ok) <==> IsWalk(sys, name, vis, ok, p)
    {
      PathWalk(sys, name, vis, ok, p);
    }
  }

  lemma {:induction false} PathsCount(sys: System, name: string, vis: Visits, ok: bool)
    requires WellFormed(sys) && (name == "end" || name in sys)
    ensures |Paths(sys, name, vis, ok)| == DepthSearch(sys, name, vis, ok)
    decreases Potential(sys, vis, ok), Rank(name), 2, 0
  {
    if name != "end" {
      ThroughCount(sys, name, sys[name], vis, ok);
    }
  }

  lemma {:induction false} ThroughCount(sys: System, from: string, succ: set<Cave>, vis: Visits, ok: bool)
    requires WellFormed(sys) && from in sys && succ <= sys[from]
    ensures |Through(sys, from, succ, vis, ok)| == SumSteps(sys, from, succ, vis, ok)
    decreases Potential(sys, vis, ok), Rank(from), 1, |succ|
  {
    if succ == {} {
      assert Through(sys, from, succ, vis, ok) == {};
    } else {
      var s :| s in succ;
      SumStepsAny(sys, from, succ, vis, ok, s);
      ThroughSplit(sys, from, succ, vis, ok, s);
      ThroughCount(sys, from, succ - {s}, vis, ok);
      StepCount(sys, from, s, vis, ok);
      PrefixedCount(s, StepPaths(sys, from, s, vis, ok));
    }
  }

  lemma {:induction false} StepCount(sys: System, from: string, s: Cave, vis: Visits, ok: bool)
    requires WellFormed(sys) && from in sys && s in sys[from]
    ensures |StepPaths(sys, from, s, vis, ok)| == Step(sys, from, s, vis, ok)
    decreases Potential(sys, vis, ok), Rank(from), 0, 0
  {
    match s
    case Small(name) =>
      if s !in vis {
        PotentialEnter(sys, from, s, vis, ok, 1);
        PathsCount(sys, name, vis[s := 1], ok);
      } else if vis[s] == 1 && ok {
        PotentialRevisit(sys, s, vis, 2);
        PathsCount(sys, name, vis[s := 2], false);
      }
    case Big(name) =>
      PathsCount(sys, name, vis, ok);
  }

  /** The walks through one successor and those through the others are
      apart, and together they are all of them. */
  lemma ThroughSplit(sys: System, from: string, succ: set<Cave>, vis: Visits, ok: bool, s: Cave)
    requires WellFormed(sys) && from in sys && succ <= sys[from] && s in succ
    ensures var first := set q | q in StepPaths(sys, from, s, vis, ok) :: [s] + q;
      Through(sys, from, succ, vis, ok) == first + Through(sys, from, succ - {s}, vis, ok) &&
      first * Through(sys, from, succ - {s}, vis, ok) == {}
  {
    var first := set q | q in StepPaths(sys, from, s, vis, ok) :: [s] + q;
    var rest := Through(sys, from, succ - {s}, vis, ok);
    forall p | p in first
      ensures p[0] == s
    {
    }
    forall p | p in rest
      ensures p[0] != s
    {
    }
  }

  /** Putting the same cave in front of every path keeps them apart. */
  lemma {:induction false} PrefixedCount(s: Cave, qs: set<seq<Cave>>)
    ensures |set q | q in qs :: [s] + q| == |qs|
    decreases |qs|
  {
    if qs != {} {
      var q0 :| q0 in qs;
      var rest := qs - {q0};
      PrefixedCount(s, rest);
      var small := set q | q in rest :: [s] + q;
      forall q | q in rest
        ensures [s] + q != [s] + q0
      {
        assert ([s] + q)[1..] == q;
        assert ([s] + q0)[1..] == q0;
      }
      assert (set q | q in qs :: [s] + q) == small + {[s] + q0};
    }
  }

  /** A path is in the search's set exactly when it is a walk. */
  lemma {:induction false} PathWalk(sys: System, name: string, vis: Visits, ok: bool, p: seq<Cave>)
    requires WellFormed(sys) && (name == "end" || name in sys) && Recorded(vis)
    ensures p in Paths(sys, name, vis, ok) <==> IsWalk(sys, name, vis, ok, p)
    decreases |p|
  {
    if name != "end" && p != [] && p[0] in sys[name] {
      var s, q := p[0], p[1..];
      assert p == [s] + q;
      ThroughMember(sys, name, sys[name], vis, ok, s, q);
      ChainUnfold(sys, name, s, q);
      match s
      case Small(n) =>
        if s !in vis {
          PathWalk(sys, n, vis[s := 1], ok, q);
          AdmissibleFresh(vis, ok, s, q);
        } else if vis[s] == 1 && ok {
          PathWalk(sys, n, vis[s := 2], false, q);
          AdmissibleRevisit(vis, s, q);
        } else {
          AdmissibleBlocked(vis, ok, s, q);
        }
      case Big(n) =>
        PathWalk(sys, n, vis, ok, q);
        AdmissibleBig(vis, ok, s, q);
    } else if name != "end" && p != [] {
      ThroughFirst(sys, name, sys[name], vis, ok, p);
    }
  }

  lemma ThroughMember(sys: System, from: string, succ: set<Cave>, vis: Visits, ok: bool, s: Cave, q: seq<Cave>)
    requires WellFormed(sys) && from in sys && succ <= sys[from] && s in succ
    ensures [s] + q in Through(sys, from, succ, vis, ok) <==> q in StepPaths(sys, from, s, vis, ok)
  {
    if [s] + q in Through(sys, from, succ, vis, ok) {
      var s', q' :| s' in succ && q' in StepPaths(sys, from, s', vis, ok) && [s'] + q' == [s] + q;
      assert s' == ([s'] + q')[0] && s == ([s] + q)[0];
      assert q' == ([s'] + q')[1..] && q == ([s] + q)[1..];
    }
  }

  lemma ThroughFirst(sys: System, from: string, succ: set<Cave>, vis: Visits, ok: bool, p: seq<Cave>)
    requires WellFormed(sys) && from in sys && succ <= sys[from]
    ensures p in Through(sys, from, succ, vis, ok) ==> p != [] && p[0] in succ
  {
  }

  /** The first step of a chain, and the chain from there on. */
  lemma ChainUnfold(sys: System, name: string, s: Cave, q: seq<Cave>)
    requires WellFormed(sys) && name in sys && s in sys[name]
    ensures Chain(sys, name, [s] + q) <==> if s.name == "end" then q == [] else Chain(sys, s.name, q)
  {
    var p := [s] + q;
    if s.name == "end" {
      if Chain(sys, name, p) {
        assert |p| == 1;
      }
      if q == [] {
        assert p == [s];
      }
    } else {
      if Chain(sys, s.name, q) {
        assert p[|p| - 1] == q[|q| - 1];
        forall i | 0 <= i < |p| - 1
          ensures p[i].name != "end" && p[i].name in sys && p[i + 1] in sys[p[i].name]
        {
          if i > 0 {
            assert p[i] == q[i - 1] && p[i + 1] == q[i];
          }
        }
      }
      if Chain(sys, name, p) {
        assert q != [] && q[0] == p[1];
        assert q[|q| - 1] == p[|p| - 1];
        forall i | 0 <= i < |q| - 1
          ensures q[i].name != "end" && q[i].name in sys && q[i + 1] in sys[q[i].name]
        {
          assert q[i] == p[i + 1] && q[i + 1] == p[i + 2];
        }
      }
    }
  }

  /** Entering a small cave for the first time: the rule for the rest of
      the walk is the rule with the cave recorded once. */
  lemma AdmissibleFresh(vis: Visits, ok: bool, s: Cave, q: seq<Cave>)
    requires s.Small? && s !in vis
    ensures Admissible(vis, ok, [s] + q) <==> Admissible(vis[s := 1], ok, q)
  {
    OccStep(vis, s, q, 1);
    if s !in q {
      assert Occ(vis, [s] + q, s) == 1;
    }
  }

  /** Entering a small cave recorded once, while allowed: the rule for the
      rest of the walk is the rule with the cave recorded twice and the
      second visit used up. */
  lemma AdmissibleRevisit(vis: Visits, s: Cave, q: seq<Cave>)
    requires s.Small? && s in vis && vis[s] == 1
    ensures Admissible(vis, true, [s] + q) <==> Admissible(vis[s := 2], false, q)
  {
    OccStep(vis, s, q, 2);
    assert Occ(vis, [s] + q, s) == 2 + multiset(q)[s];
  }

  /** Entering a small cave recorded twice, or recorded once when the
      second visit is not allowed, breaks the rule. */
  lemma AdmissibleBlocked(vis: Visits, ok: bool, s: Cave, q: seq<Cave>)
    requires s.Small? && s in vis && Recorded(vis) && !(vis[s] == 1 && ok)
    ensures !Admissible(vis, ok, [s] + q)
  {
    assert s in [s] + q;
    assert Occ(vis, [s] + q, s) >= 2;
  }

  /** Big caves are not counted. */
  lemma AdmissibleBig(vis: Visits, ok: bool, s: Cave, q: seq<Cave>)
    requires s.Big?
    ensures Admissible(vis, ok, [s] + q) <==> Admissible(vis, ok, q)
  {
    forall c: Cave | c.Small?
      ensures Occ(vis, [s] + q, c) == Occ(vis, q, c) && (c in [s] + q <==> c in q)
    {
      assert multiset([s] + q) == multiset([s]) + multiset(q);
    }
  }

  /** Recording the entry into `s` moves it from the walk into the counts. */
  lemma OccStep(vis: Visits, s: Cave, q: seq<Cave>, count: nat)
    requires count == 1 + (if s in vis then vis[s] else 0)
    ensures forall c :: Occ(vis[s := count], q, c) == Occ(vis, [s] + q, c)
    ensures forall c :: c in [s] + q <==> c == s || c in q
  {
    assert multiset([s] + q) == multiset([s]) + multiset(q);
  }

  /** `depth_search` with its cache, shared between the two parts. */
  class Searcher {
    const system: System
    var cache: map<(string, Visits, bool), nat>

    /** Every cached count is the count the uncached search gives. */
    ghost predicate Valid()
      reads this
    {
      WellFormed(system) &&
      forall k :: k in cache ==>
        (k.0 == "end" || k.0 in system) && cache[k] == DepthSearch(system, k.0, k.1, k.2)
    }

    constructor(system: System)
      requires WellFormed(system)
      ensures Valid() && this.system == system && cache == map[]
    {
      this.system := system;
      cache := map[];
    }

    /** The cached count if there is one, otherwise the sum over the
        successors, stored in the cache. */
    method Search(name: string, visited: Visits, ok: bool) returns (r: nat)
      requires Valid() && (name == "end" || name in system)
      modifies this
      ensures Valid() && r == DepthSearch(system, name, visited, ok)
      decreases Potential(system, visited, ok), Rank(name), 2, 0
    {
      if name == "end" {
        return 1;
      }
      if (name, visited, ok) in cache {
        return cache[(name, visited, ok)];
      }
      var successors := system[name];
      var todo := successors;
      r := 0;
      while todo != {}
        invariant Valid() && todo <= successors
        invariant r + SumSteps(system, name, todo, visited, ok) == SumSteps(system, name, successors, visited, ok)
        decreases |todo|
      {
        var s := Pick(todo);
        SumStepsAny(system, name, todo, visited, ok, s);
        var n := Enter(name, s, visited, ok);
        r := r + n;
        todo := todo - {s};
      }
      cache := cache[(name, visited, ok) := r];
    }

    /** The match on the successor and its visit count. */
    method Enter(from: string, s: Cave, visited: Visits, ok: bool) returns (r: nat)
      requires Valid() && from in system && s in system[from]
      modifies this
      ensures Valid() && r == Step(system, from, s, visited, ok)
      decreases Potential(system, visited, ok), Rank(from), 0, 0
    {
      match s
      case Small(name) =>
        if s !in visited {
          PotentialEnter(system, from, s, visited, ok, 1);
          r := Search(name, visited[s := 1], ok);
        } else if visited[s] == 1 && ok {
          PotentialRevisit(system, s, visited, 2);
          r := Search(name, visited[s := 2], false);
        } else {
          r := 0;
        }
      case Big(name) =>
        r := Search(name, visited, ok);
    }
  }

  datatype Error = NoStart

  /** The visits both parts start from: `start` marked twice. */
  function StartVisits(): Visits
  {
    map[Small("start") := 2]
  }

  /** `main`: build the system, then count the paths from `start` without
      and with the second visit, sharing one cache. A system without
      `start` makes `system["start"]` panic, here an error. */
  method Solve(edges: seq<(string, string)>) returns (r: Result<(nat, nat), Error>)
    requires NoBigPair(edges)
    ensures r.Err? <==> !Mentions(edges, "start")
    ensures r.Ok? ==> WellFormed(SystemOf(edges)) && "start" in SystemOf(edges)
    ensures r.Ok? ==> r.value == (DepthSearch(SystemOf(edges), "start", StartVisits(), false),
                                  DepthSearch(SystemOf(edges), "start", StartVisits(), true))
    ensures r.Ok? ==> r.value.0 <= r.value.1
    ensures r.Ok? ==> r.value == (|Paths(SystemOf(edges), "start", StartVisits(), false)|,
                                  |Paths(SystemOf(edges), "start", StartVisits(), true)|)
  {
    var system := BuildSystem(edges);
    SystemOfSpec(edges);
    BuiltWellFormed(edges);
    if "start" !in system {
      return Err(NoStart);
    }
    var searcher := new Searcher(system);
    var part1 := searcher.Search("start", StartVisits(), false);
    var part2 := searcher.Search("start", StartVisits(), true);
    SecondVisitMonotone(system, "start", StartVisits());
    WalksCounted(system, "start", StartVisits(), false);
    WalksCounted(system, "start", StartVisits(), true);
    r := Ok((part1, part2));
  }
}
