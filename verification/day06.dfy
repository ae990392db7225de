/** `day-06/src/main.rs`: lanternfish. `fish(n)` counts a fish and all its
    descendants when `n` days remain after its timer first reaches zero;
    the recurrence is memoised on `n` and evaluated with a loop over the
    fish's spawning days. */
module Day06 {
  import opened Common

  /** `fish(n)`: the fish itself plus everything it spawns. */
  function Fish(n: int): (r: nat)
    ensures r >= 1
    decreases if n > 0 then n else 0, 1
  {
    1 + Spawned(n)
  }

  /** The descendants from spawning days `d`, `d - 7`, `d - 14`, ... while
      positive: each spawn starts a fish with nine more days to wait. */
  function Spawned(d: int): nat
    decreases if d > 0 then d else 0, 0
  {
    if d <= 0 then 0 else Fish(d - 9) + Spawned(d - 7)
  }

  /** With no days left there is only the fish itself. */
  lemma FishNone(n: int)
    requires n <= 0
    ensures Fish(n) == 1
  {
  }

  /** In the first week the fish spawns once, and its child has no time
      left to spawn. */
  lemma FishFirstWeek(n: int)
    requires 1 <= n <= 7
    ensures Fish(n) == 2
  {
    assert Spawned(n - 7) == 0;
    assert Fish(n - 9) == 1;
  }

  /** The population after the first spawn is the parent seven days on plus
      the child nine days on. */
  lemma FishRecurrence(n: int)
    requires n >= 1
    ensures Fish(n) == Fish(n - 7) + Fish(n - 9)
  {
    assert Spawned(n) == Fish(n - 9) + Spawned(n - 7);
  }

  /** The reference: the population, after `days` days, descended from one
      fish whose timer shows `timer`. A fish at 0 resets to 6 and spawns a
      fish at 8; any other fish counts down. */
  function Population(timer: nat, days: nat): nat
    decreases days
  {
    if days == 0 then 1
    else if timer == 0 then Population(6, days - 1) + Population(8, days - 1)
    else Population(timer - 1, days - 1)
  }

  /** `fish(days - timer)` is the population descended from a fish with
      that timer. */
  lemma {:induction false} FishIsPopulation(timer: nat, days: nat)
    ensures Fish(days - timer) == Population(timer, days)
    decreases days
  {
    if days == 0 {
      FishNone(days - timer);
    } else if timer == 0 {
      FishIsPopulation(6, days - 1);
      FishIsPopulation(8, days - 1);
      FishRecurrence(days);
    } else {
      FishIsPopulation(timer - 1, days - 1);
    }
  }

  /** The memo table of `fish`. */
  class FishCache {
    var entries: map<int, nat>

    predicate Valid()
      reads this
    {
      forall n :: n in entries ==> entries[n] == Fish(n)
    }

    constructor()
      ensures Valid() && entries == map[]
    {
      entries := map[];
    }

    /** `fish`: a cached value, or one plus the descendants of every
        spawning day, counted down by sevens. */
    method CountFish(daysLeft: int) returns (sum: nat)
      requires Valid()
      modifies this
      ensures Valid() && sum == Fish(daysLeft)
      decreases if daysLeft > 0 then daysLeft else 0
    {
      if daysLeft in entries {
        return entries[daysLeft];
      }
      sum := 1;
      var d := daysLeft;
      while d > 0
        invariant Valid() && d <= daysLeft
        invariant sum + Spawned(d) == Fish(daysLeft)
        decreases d
      {
        var children := CountFish(d - 9);
        sum := sum + children;
        d := d - 7;
      }
      entries := entries[daysLeft := sum];
    }
  }

  /** The fish of all the timers after `days` days. */
  function Total(timers: seq<int>, days: int): nat
  {
    if timers == [] then 0 else Total(timers[..|timers| - 1], days) + Fish(days - timers[|timers| - 1])
  }

  /** For timers in range the total is the simulated population of the
      whole school. */
  lemma {:induction false} TotalIsPopulation(timers: seq<nat>, days: nat)
    ensures Total(timers, days) == PopulationOf(timers, days)
  {
    if timers != [] {
      var n := |timers| - 1;
      TotalIsPopulation(timers[..n], days);
      FishIsPopulation(timers[n], days);
    }
  }

  function PopulationOf(timers: seq<nat>, days: nat): nat
  {
    if timers == [] then 0 else PopulationOf(timers[..|timers| - 1], days) + Population(timers[|timers| - 1], days)
  }

  /** The school's size after `days` days: the descendants of each fish,
      counted through the shared cache from its own timer, added up. */
  method School(cache: FishCache, timers: seq<int>, days: int) returns (total: nat)
    requires cache.Valid()
    modifies cache
    ensures cache.Valid() && total == Total(timers, days)
  {
    total := 0;
    var i := 0;
    while i < |timers|
      invariant cache.Valid() && i <= |timers|
      invariant total == Total(timers[..i], days)
    {
      var f := cache.CountFish(days - timers[i]);
      assert timers[..i + 1][..i] == timers[..i];
      total := total + f;
      i := i + 1;
    }
    assert timers[..i] == timers;
  }

  /** `main`: the school after 80 and after 256 days, sharing one cache. */
  method Solve(timers: seq<int>) returns (part1: nat, part2: nat)
    ensures part1 == Total(timers, 80) && part2 == Total(timers, 256)
  {
    var cache := new FishCache();
    part1 := School(cache, timers, 80);
    part2 := School(cache, timers, 256);
  }
}
