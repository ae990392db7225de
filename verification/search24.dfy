/** The search in `day-24/src/main.rs`: the program is cut at every `inp`,
    each piece gets a table of the `z` values it can reach, and the largest
    and smallest accepted model numbers are read back from the tables. */
module Search24 {
  import opened Common
  import opened Instr24
  import opened Alu24

  // ---------------------------------------------------------------------
  // Splitting the program at its `inp` instructions
  // ---------------------------------------------------------------------

  predicate NoInput(p: seq<Instruction>)
  {
    forall k :: 0 <= k < |p| ==> !p[k].Input?
  }

  function WithoutInputs(prog: seq<Instruction>): seq<Instruction>
  {
    if prog == [] then []
    else (if prog[0].Input? then [] else [prog[0]]) + WithoutInputs(prog[1..])
  }

  function Flatten(pieces: seq<seq<Instruction>>): seq<Instruction>
  {
    if pieces == [] then [] else pieces[0] + Flatten(pieces[1..])
  }

  /** The piece read so far, unless it is empty: empty pieces are dropped. */
  function Keep(cur: seq<Instruction>): seq<seq<Instruction>>
  {
    if cur == [] then [] else [cur]
  }

  /** `split` on `Input` with the current piece `cur` still open. */
  function Pieces(prog: seq<Instruction>, cur: seq<Instruction>): seq<seq<Instruction>>
    decreases |prog|
  {
    if prog == [] then Keep(cur)
    else if prog[0].Input? then Keep(cur) + Pieces(prog[1..], [])
    else Pieces(prog[1..], cur + [prog[0]])
  }

  function Subprograms(prog: seq<Instruction>): seq<seq<Instruction>>
  {
    Pieces(prog, [])
  }

  predicate PieceShaped(pieces: seq<seq<Instruction>>)
  {
    forall k :: 0 <= k < |pieces| ==> pieces[k] != [] && NoInput(pieces[k])
  }

  lemma FlattenAppend(a: seq<seq<Instruction>>, b: seq<seq<Instruction>>)
    ensures Flatten(a + b) == Flatten(a) + Flatten(b)
  {
    if a != [] {
      assert (a + b)[1..] == a[1..] + b;
      FlattenAppend(a[1..], b);
    } else {
      assert a + b == b;
    }
  }

  lemma {:induction false} PiecesShape(prog: seq<Instruction>, cur: seq<Instruction>)
    requires NoInput(cur)
    ensures PieceShaped(Pieces(prog, cur))
    ensures Flatten(Pieces(prog, cur)) == cur + WithoutInputs(prog)
    decreases |prog|
  {
    if prog == [] {
      KeepShape(cur);
    } else if prog[0].Input? {
      var rest := Pieces(prog[1..], []);
      PiecesShape(prog[1..], []);
      KeepShape(cur);
      FlattenAppend(Keep(cur), rest);
      assert Pieces(prog, cur) == Keep(cur) + rest;
      assert WithoutInputs(prog) == WithoutInputs(prog[1..]);
    } else {
      var cur' := cur + [prog[0]];
      assert NoInput(cur');
      PiecesShape(prog[1..], cur');
      assert WithoutInputs(prog) == [prog[0]] + WithoutInputs(prog[1..]);
      assert cur' + WithoutInputs(prog[1..]) == cur + WithoutInputs(prog);
    }
  }

  lemma KeepShape(cur: seq<Instruction>)
    requires NoInput(cur)
    ensures PieceShaped(Keep(cur)) && Flatten(Keep(cur)) == cur
  {
    if cur != [] {
      assert [cur][1..] == [];
    }
  }

  /** Every piece is non-empty and free of `inp`, and the pieces put back
      together are the program without its `inp` instructions. */
  lemma SubprogramsShape(prog: seq<Instruction>)
    ensures PieceShaped(Subprograms(prog))
    ensures Flatten(Subprograms(prog)) == WithoutInputs(prog)
  {
    PiecesShape(prog, []);
  }

  /** A program made of `inp` instructions each followed by its body. */
  function Join(reg: char, bodies: seq<seq<Instruction>>): seq<Instruction>
  {
    if bodies == [] then [] else [Input(reg)] + bodies[0] + Join(reg, bodies[1..])
  }

  lemma {:induction false} PiecesSkip(body: seq<Instruction>, rest: seq<Instruction>, cur: seq<Instruction>)
    requires NoInput(body)
    ensures Pieces(body + rest, cur) == Pieces(rest, cur + body)
    decreases |body|
  {
    if body != [] {
      assert (body + rest)[0] == body[0] && !body[0].Input?;
      assert (body + rest)[1..] == body[1..] + rest;
      PiecesSkip(body[1..], rest, cur + [body[0]]);
      assert cur + [body[0]] + body[1..] == cur + body;
    } else {
      assert body + rest == rest && cur + body == cur;
    }
  }

  lemma {:induction false} PiecesOfJoin(reg: char, bodies: seq<seq<Instruction>>, cur: seq<Instruction>)
    requires PieceShaped(bodies)
    ensures Pieces(Join(reg, bodies), cur) == Keep(cur) + bodies
    decreases |bodies|
  {
    if bodies != [] {
      var b := bodies[0];
      var j := [Input(reg)] + b + Join(reg, bodies[1..]);
      assert j[1..] == b + Join(reg, bodies[1..]);
      PiecesSkip(b, Join(reg, bodies[1..]), []);
      assert [] + b == b;
      PiecesOfJoin(reg, bodies[1..], b);
      assert bodies == [b] + bodies[1..];
    }
  }

  /** Splitting undoes `Join`: the pieces of a program written as `inp`
      followed by a body, body after body, are exactly those bodies. */
  lemma SubprogramsOfJoin(reg: char, bodies: seq<seq<Instruction>>)
    requires PieceShaped(bodies)
    ensures Subprograms(Join(reg, bodies)) == bodies
  {
    PiecesOfJoin(reg, bodies, []);
  }

  // ---------------------------------------------------------------------
  // Running one piece
  // ---------------------------------------------------------------------

  /** The closure of the table loop: a fresh ALU with `z` and `w` set, the
      piece run on the tape `[d]`, and `z` read back; `None` where `unwrap`
      panics. */
  function RunPiece(p: seq<Instruction>, d: int, z: int): Option<int>
  {
    var o := Execute(Machine(map['z' := z]['w' := d], 0), p, [d]);
    if o.Continue? then Some(Get(o.machine.registers, 'z')) else None
  }

  /** The same run on the `Alu` object. */
  method RunOne(p: seq<Instruction>, d: int, z: int) returns (r: Option<int>)
    ensures r == RunPiece(p, d, z)
  {
    var alu := new Alu();
    var _ := alu.RegisterMut('z');
    alu.SetRegister('z', z);
    var _ := alu.RegisterMut('w');
    alu.SetRegister('w', d);
    assert alu.registers == map['z' := z]['w' := d];
    var res := alu.Run(p, [d]);
    if res.Err? {
      return None;
    }
    var v := alu.Register('z');
    return Some(v);
  }

  // ---------------------------------------------------------------------
  // One table
  // ---------------------------------------------------------------------

  /** `partial_solution`: reachable `z` to the `(input, previous z)` pairs
      that reach it. */
  type Table = map<int, seq<(int, int)>>

  function Entry(t: Table, key: int): seq<(int, int)>
  {
    if key in t then t[key] else []
  }

  /** The table built from `pairs` in order, `run` giving the `z` each pair
      reaches; `None` when a run fails. */
  function TableOf(run: (int, int) -> Option<int>, pairs: seq<(int, int)>): Option<Table>
  {
    if pairs == [] then Some(map[])
    else
      var e := pairs[|pairs| - 1];
      match TableOf(run, pairs[..|pairs| - 1])
      case None => None
      case Some(t) =>
        match run(e.0, e.1)
        case None => None
        case Some(z') => Some(t[z' := Entry(t, z') + [e]])
  }

  /** Building a table fails exactly when one of its runs fails. */
  lemma {:induction false} TableOfFails(run: (int, int) -> Option<int>, pairs: seq<(int, int)>)
    ensures TableOf(run, pairs).None? <==> exists e :: e in pairs && run(e.0, e.1).None?
  {
    if pairs != [] {
      var init, e := pairs[..|pairs| - 1], pairs[|pairs| - 1];
      assert pairs == init + [e];
      TableOfFails(run, init);
      if TableOf(run, init).None? {
        var e' :| e' in init && run(e'.0, e'.1).None?;
        assert e' in pairs;
      } else if run(e.0, e.1).None? {
        assert e in pairs;
      } else {
        forall x | x in pairs
          ensures run(x.0, x.1).Some?
        {
          if x != e {
            assert x in init;
          }
        }
      }
    }
  }

  /** No key of a table is without pairs. */
  lemma {:induction false} TableOfNonEmpty(run: (int, int) -> Option<int>, pairs: seq<(int, int)>)
    ensures TableOf(run, pairs).Some? ==> forall z' :: z' in TableOf(run, pairs).value ==> TableOf(run, pairs).value[z'] != []
  {
    if pairs != [] && TableOf(run, pairs).Some? {
      TableOfNonEmpty(run, pairs[..|pairs| - 1]);
    }
  }

  /** Every pair stored under a key came from `pairs` and its run reaches
      that key. */
  predicate Sound(run: (int, int) -> Option<int>, pairs: seq<(int, int)>, t: Table)
  {
    forall k, x :: k in t && x in t[k] ==> x in pairs && run(x.0, x.1) == Some(k)
  }

  /** Every pair stored under a key reaches that key and came from `pairs`. */
  lemma {:induction false} TableOfSound(run: (int, int) -> Option<int>, pairs: seq<(int, int)>)
    ensures TableOf(run, pairs).Some? ==> Sound(run, pairs, TableOf(run, pairs).value)
  {
    if pairs != [] && TableOf(run, pairs).Some? {
      var init, e := pairs[..|pairs| - 1], pairs[|pairs| - 1];
      TableOfSound(run, init);
      var t := TableOf(run, init).value;
      var z' := run(e.0, e.1).value;
      assert TableOf(run, pairs).value == t[z' := Entry(t, z') + [e]];
      StoreSound(run, pairs, t, z');
    }
  }

  /** Storing the last pair under the key its run reaches keeps every
      stored pair sound. */
  lemma StoreSound(run: (int, int) -> Option<int>, pairs: seq<(int, int)>, t: Table, z': int)
    requires pairs != [] && Sound(run, pairs[..|pairs| - 1], t)
    requires run(pairs[|pairs| - 1].0, pairs[|pairs| - 1].1) == Some(z')
    ensures Sound(run, pairs, t[z' := Entry(t, z') + [pairs[|pairs| - 1]]])
  {
    var e := pairs[|pairs| - 1];
    var t' := t[z' := Entry(t, z') + [e]];
    forall k, x | k in t' && x in t'[k]
      ensures x in pairs && run(x.0, x.1) == Some(k)
    {
      if k != z' || x != e {
        if k == z' {
          assert x in Entry(t, z');
        }
        assert x in pairs[..|pairs| - 1];
      }
    }
  }

  /** Every pair is stored under the key its run reaches. */
  lemma {:induction false} TableOfComplete(run: (int, int) -> Option<int>, pairs: seq<(int, int)>)
    ensures TableOf(run, pairs).Some? ==>
      var t := TableOf(run, pairs).value;
      forall e :: e in pairs ==>
        run(e.0, e.1).Some? && run(e.0, e.1).value in t && e in t[run(e.0, e.1).value]
  {
    if pairs != [] && TableOf(run, pairs).Some? {
      var init, e := pairs[..|pairs| - 1], pairs[|pairs| - 1];
      assert pairs == init + [e];
      TableOfComplete(run, init);
      var t := TableOf(run, init).value;
      var z' := run(e.0, e.1).value;
      var t' := t[z' := Entry(t, z') + [e]];
      assert TableOf(run, pairs) == Some(t');
      forall x | x in pairs
        ensures run(x.0, x.1).Some? && run(x.0, x.1).value in t' &&
          x in t'[run(x.0, x.1).value]
      {
        if x != e {
          assert x in init;
          var k := run(x.0, x.1).value;
          assert x in t[k];
          assert k == z' ==> t'[k] == t[k] + [e];
        }
      }
    }
  }

  /** The `(input, z)` pairs for the inputs `1..=n`, input by input. */
  function DigitPairs(n: nat, keys: seq<int>): seq<(int, int)>
  {
    if n == 0 then [] else DigitPairs(n - 1, keys) + Row(n, keys)
  }

  function Row(d: int, keys: seq<int>): seq<(int, int)>
  {
    seq(|keys|, j requires 0 <= j < |keys| => (d, keys[j]))
  }

  /** `(1..=9).cartesian_product(keys)`. */
  function Pairs(keys: seq<int>): seq<(int, int)>
  {
    DigitPairs(9, keys)
  }

  lemma {:induction false} DigitPairsMembers(n: nat, keys: seq<int>)
    ensures forall e :: e in DigitPairs(n, keys) <==> 1 <= e.0 <= n && e.1 in keys
  {
    if n > 0 {
      DigitPairsMembers(n - 1, keys);
      forall e | e in Row(n, keys)
        ensures e.0 == n && e.1 in keys
      {
        var j :| 0 <= j < |keys| && Row(n, keys)[j] == e;
      }
      forall e: (int, int) | e.0 == n && e.1 in keys
        ensures e in Row(n, keys)
      {
        var j :| 0 <= j < |keys| && keys[j] == e.1;
        assert Row(n, keys)[j] == e;
      }
    }
  }

  /** A pair is tried exactly when its input is a digit and its `z` a key. */
  lemma PairsMembers(keys: seq<int>)
    ensures forall e :: e in Pairs(keys) <==> 1 <= e.0 <= 9 && e.1 in keys
  {
    DigitPairsMembers(9, keys);
  }

  lemma {:induction false} TableOfFailed(run: (int, int) -> Option<int>, a: seq<(int, int)>, b: seq<(int, int)>)
    requires TableOf(run, a).None?
    ensures TableOf(run, a + b).None?
    decreases |b|
  {
    if b != [] {
      var b' := b[..|b| - 1];
      TableOfFailed(run, a, b');
      assert (a + b)[..|a + b| - 1] == a + b';
      assert TableOf(run, (a + b)[..|a + b| - 1]).None?;
    } else {
      assert a + b == a;
    }
  }

  lemma {:induction false} DigitPairsGrow(m: nat, n: nat, keys: seq<int>)
    requires m <= n
    ensures exists rest :: DigitPairs(n, keys) == DigitPairs(m, keys) + rest
    decreases n
  {
    if m < n {
      DigitPairsGrow(m, n - 1, keys);
      var rest :| DigitPairs(n - 1, keys) == DigitPairs(m, keys) + rest;
      assert DigitPairs(n, keys) == DigitPairs(m, keys) + (rest + Row(n, keys));
    } else {
      assert DigitPairs(n, keys) == DigitPairs(m, keys) + [];
    }
  }

  lemma RowStep(run: (int, int) -> Option<int>, done: seq<(int, int)>, d: int, keys: seq<int>, j: nat, t: Table, z': int)
    requires j < |keys|
    requires TableOf(run, done + Row(d, keys)[..j]) == Some(t)
    requires run(d, keys[j]) == Some(z')
    ensures TableOf(run, done + Row(d, keys)[..j + 1]) == Some(t[z' := Entry(t, z') + [(d, keys[j])]])
  {
    assert (done + Row(d, keys)[..j + 1])[..|done| + j] == done + Row(d, keys)[..j];
  }

  lemma RowFails(run: (int, int) -> Option<int>, done: seq<(int, int)>, d: int, keys: seq<int>, j: nat)
    requires 1 <= d <= 9 && j < |keys| && done == DigitPairs(d - 1, keys)
    requires TableOf(run, done + Row(d, keys)[..j]).Some?
    requires run(d, keys[j]).None?
    ensures TableOf(run, Pairs(keys)).None?
  {
    var before := done + Row(d, keys)[..j + 1];
    assert before[..|done| + j] == done + Row(d, keys)[..j];
    assert before[|before| - 1] == (d, keys[j]);
    assert TableOf(run, before).None?;
    var rest := PairsAfter(d, keys, j);
    TableOfFailed(run, before, rest);
  }

  lemma PairsAfter(d: int, keys: seq<int>, j: nat) returns (rest: seq<(int, int)>)
    requires 1 <= d <= 9 && j < |keys|
    ensures Pairs(keys) == DigitPairs(d - 1, keys) + Row(d, keys)[..j + 1] + rest
  {
    DigitPairsGrow(d, 9, keys);
    var more :| DigitPairs(9, keys) == DigitPairs(d, keys) + more;
    assert Row(d, keys)[..j + 1] + Row(d, keys)[j + 1..] == Row(d, keys);
    rest := Row(d, keys)[j + 1..] + more;
  }

  /** The runs of one piece, as a function of the input and the previous `z`. */
  function Runner(p: seq<Instruction>): (int, int) -> Option<int>
  {
    (d, z) => RunPiece(p, d, z)
  }

  /** One round of the table loop, on the `Alu` object. */
  method PartialSolution(p: seq<Instruction>, keys: seq<int>) returns (r: Option<Table>)
    ensures r == TableOf(Runner(p), Pairs(keys))
  {
    var t: Table := map[];
    var d := 1;
    while d <= 9
      invariant 1 <= d <= 10
      invariant TableOf(Runner(p), DigitPairs(d - 1, keys)) == Some(t)
    {
      var row := AddRow(p, keys, d, t);
      if row.None? {
        return None;
      }
      t := row.value;
      d := d + 1;
    }
    return Some(t);
  }

  /** The inner loop for input digit `d`: every key in turn is run and its
      pair stored under the `z` it reaches. When a run fails the whole
      table fails. */
  method AddRow(p: seq<Instruction>, keys: seq<int>, d: int, t0: Table) returns (r: Option<Table>)
    requires 1 <= d <= 9 && TableOf(Runner(p), DigitPairs(d - 1, keys)) == Some(t0)
    ensures r.None? ==> TableOf(Runner(p), Pairs(keys)).None?
    ensures r.Some? ==> TableOf(Runner(p), DigitPairs(d, keys)) == r
  {
    ghost var done := DigitPairs(d - 1, keys);
    assert done + Row(d, keys)[..0] == done;
    var t := t0;
    var j := 0;
    while j < |keys|
      invariant 0 <= j <= |keys|
      invariant TableOf(Runner(p), done + Row(d, keys)[..j]) == Some(t)
    {
      var z' := RunOne(p, d, keys[j]);
      if z'.None? {
        RowFails(Runner(p), done, d, keys, j);
        return None;
      }
      RowStep(Runner(p), done, d, keys, j, t, z'.value);
      t := t[z'.value := Entry(t, z'.value) + [(d, keys[j])]];
      j := j + 1;
    }
    assert Row(d, keys)[..|keys|] == Row(d, keys);
    return Some(t);
  }

  /** `.keys()` of a table, in some order the map chooses. */
  method KeysOf(t: Table) returns (keys: seq<int>)
    ensures forall k :: k in keys <==> k in t
    ensures forall i, j :: 0 <= i < j < |keys| ==> keys[i] != keys[j]
  {
    keys := [];
    var left := t.Keys;
    while left != {}
      invariant left <= t.Keys
      invariant forall k :: k in keys <==> k in t && k !in left
      invariant forall i, j :: 0 <= i < j < |keys| ==> keys[i] != keys[j]
      decreases |left|
    {
      var k := Pick(left);
      keys := keys + [k];
      left := left - {k};
    }
  }

  // ---------------------------------------------------------------------
  // All tables
  // ---------------------------------------------------------------------

  /** The `z` values table `k` starts from: `{0}` for the first piece
      (`just_zero`), else the keys of the table before. */
  function PrevKeys(tables: seq<Table>, k: nat): set<int>
    requires k <= |tables|
  {
    if k == 0 then {0} else tables[k - 1].Keys
  }

  /** `t` is a table for the runs `run` over the starting values `prev`:
      it holds, under each `z` reached, exactly the `(digit, z0)` pairs with
      `z0` in `prev` whose run reaches it. */
  ghost predicate TableFor(run: (int, int) -> Option<int>, prev: set<int>, t: Table)
  {
    (forall z' :: z' in t ==> t[z'] != []) &&
    (forall z', e :: z' in t && e in t[z'] ==> 1 <= e.0 <= 9 && e.1 in prev && run(e.0, e.1) == Some(z')) &&
    (forall d, z :: 1 <= d <= 9 && z in prev ==> run(d, z).Some? && run(d, z).value in t && (d, z) in t[run(d, z).value])
  }

  /** The runs of each piece in turn. */
  function Runs(pieces: seq<seq<Instruction>>): (runs: seq<(int, int) -> Option<int>>)
    ensures |runs| == |pieces| && forall k :: 0 <= k < |pieces| ==> runs[k] == Runner(pieces[k])
  {
    seq(|pieces|, k requires 0 <= k < |pieces| => Runner(pieces[k]))
  }

  /** The first `|tables|` tables are right for the first pieces. */
  ghost predicate TablesUpTo(runs: seq<(int, int) -> Option<int>>, tables: seq<Table>)
    decreases |tables|
  {
    |tables| <= |runs| &&
    (tables == [] ||
      var n := |tables|;
      TablesUpTo(runs, tables[..n - 1]) && TableFor(runs[n - 1], PrevKeys(tables, n - 1), tables[n - 1]))
  }

  /** A table built over an enumeration of `prev` is a table for its runs. */
  lemma TableOfIsTableFor(run: (int, int) -> Option<int>, keys: seq<int>, prev: set<int>)
    requires forall z :: z in keys <==> z in prev
    requires TableOf(run, Pairs(keys)).Some?
    ensures TableFor(run, prev, TableOf(run, Pairs(keys)).value)
  {
    var t := TableOf(run, Pairs(keys)).value;
    TableOfNonEmpty(run, Pairs(keys));
    TableOfSound(run, Pairs(keys));
    TableOfComplete(run, Pairs(keys));
    PairsMembers(keys);
    forall z', e: (int, int) | z' in t && e in t[z']
      ensures 1 <= e.0 <= 9 && e.1 in prev && run(e.0, e.1) == Some(z')
    {
      assert e in Pairs(keys);
      var z := e.1;
      assert z in keys;
    }
    forall d, z | 1 <= d <= 9 && z in prev
      ensures run(d, z).Some? && run(d, z).value in t && (d, z) in t[run(d, z).value]
    {
      assert z in keys;
      assert (d, z) in Pairs(keys);
    }
  }

  /** A failed table has a digit and a starting value whose run fails. */
  lemma TableOfFailsAt(run: (int, int) -> Option<int>, keys: seq<int>, prev: set<int>)
    requires forall z :: z in keys <==> z in prev
    requires TableOf(run, Pairs(keys)).None?
    ensures exists d, z :: 1 <= d <= 9 && z in prev && run(d, z).None?
  {
    TableOfFails(run, Pairs(keys));
    PairsMembers(keys);
    var e :| e in Pairs(keys) && run(e.0, e.1).None?;
    var d, z := e.0, e.1;
    assert z in keys;
    assert 1 <= d <= 9 && z in prev && run(d, z).None?;
  }

  lemma TablesExtend(runs: seq<(int, int) -> Option<int>>, tables: seq<Table>, t: Table)
    requires |tables| < |runs| && TablesUpTo(runs, tables)
    requires TableFor(runs[|tables|], PrevKeys(tables, |tables|), t)
    ensures TablesUpTo(runs, tables + [t])
  {
    var n := |tables|;
    assert (tables + [t])[..n] == tables;
    assert PrevKeys(tables + [t], n) == PrevKeys(tables, n);
  }

  /** The table loop of `main`: one table per piece; `false` where a run
      fails and `unwrap` panics, with the tables built so far. */
  method PartialSolutions(pieces: seq<seq<Instruction>>) returns (tables: seq<Table>, ok: bool)
    ensures TablesUpTo(Runs(pieces), tables)
    ensures ok <==> |tables| == |pieces|
    ensures !ok ==> exists d, z :: 1 <= d <= 9 && z in PrevKeys(tables, |tables|) && RunPiece(pieces[|tables|], d, z).None?
  {
    tables := [];
    for k := 0 to |pieces|
      invariant |tables| == k
      invariant TablesUpTo(Runs(pieces), tables)
    {
      var keys: seq<int>;
      if k == 0 {
        keys := [0];
      } else {
        keys := KeysOf(tables[k - 1]);
      }
      var t := PartialSolution(pieces[k], keys);
      if t.None? {
        TableOfFailsAt(Runner(pieces[k]), keys, PrevKeys(tables, k));
        return tables, false;
      }
      TableOfIsTableFor(Runner(pieces[k]), keys, PrevKeys(tables, k));
      TablesExtend(Runs(pieces), tables, t.value);
      tables := tables + [t.value];
    }
    ok := true;
  }

  // ---------------------------------------------------------------------
  // Reading the answers back: solve_max and solve_min
  // ---------------------------------------------------------------------

  /** The better of two candidates, a missing one counting for nothing:
      `Iterator::max` or `Iterator::min` over the candidates that exist. */
  function Better(a: Option<int>, b: Option<int>, largest: bool): (r: Option<int>)
    ensures r.None? <==> a.None? && b.None?
    ensures r == a || r == b
    ensures largest && r.Some? ==> (a.Some? ==> a.value <= r.value) && (b.Some? ==> b.value <= r.value)
    ensures !largest && r.Some? ==> (a.Some? ==> r.value <= a.value) && (b.Some? ==> r.value <= b.value)
  {
    if a.None? then b
    else if b.None? then a
    else if largest then Some(Max(a.value, b.value))
    else Some(Min(a.value, b.value))
  }

  /** `solve_max` (`largest`) and `solve_min` (not `largest`): with the
      last table, look up `target` and take the best over its entries of
      `input + 10 * solve(rest, previous)`. */
  function Solve(tables: seq<Table>, target: int, largest: bool): Option<int>
    decreases |tables|, 1, 0
  {
    if tables == [] then Some(0)
    else
      var last := tables[|tables| - 1];
      if target !in last then None
      else BestOf(tables[..|tables| - 1], last[target], largest)
  }

  /** The best candidate over `entries`; entries whose own search fails are
      skipped (`flat_map` over `Option`). */
  function BestOf(rest: seq<Table>, entries: seq<(int, int)>, largest: bool): Option<int>
    decreases |rest| + 1, 0, |entries|
  {
    if entries == [] then None
    else
      var e := entries[|entries| - 1];
      Better(BestOf(rest, entries[..|entries| - 1], largest), Candidate(rest, e, largest), largest)
  }

  function Candidate(rest: seq<Table>, e: (int, int), largest: bool): Option<int>
    decreases |rest| + 1, 0, 0
  {
    match Solve(rest, e.1, largest)
    case None => None
    case Some(v) => Some(e.0 + 10 * v)
  }

  /** A chain of entries, one from each table, that the search can follow
      back from `target`: each entry is stored under the value the next
      piece started from. */
  predicate IsPath(tables: seq<Table>, target: int, path: seq<(int, int)>)
    decreases |tables|
  {
    |path| == |tables| &&
    (tables == [] ||
      var n := |tables|;
      target in tables[n - 1] && path[n - 1] in tables[n - 1][target] &&
      IsPath(tables[..n - 1], path[n - 1].1, path[..n - 1]))
  }

  /** The number a digit sequence spells, first digit most significant. */
  function Number(ds: seq<int>): int
  {
    if ds == [] then 0 else ds[|ds| - 1] + 10 * Number(ds[..|ds| - 1])
  }

  function Digits(path: seq<(int, int)>): (ds: seq<int>)
    ensures |ds| == |path| && forall i :: 0 <= i < |path| ==> ds[i] == path[i].0
  {
    seq(|path|, i requires 0 <= i < |path| => path[i].0)
  }

  lemma DigitsOfPrefix(path: seq<(int, int)>)
    requires path != []
    ensures Digits(path)[..|path| - 1] == Digits(path[..|path| - 1])
    ensures Digits(path)[|path| - 1] == path[|path| - 1].0
  {
  }

  /** Whatever the search returns is spelled by a path through the tables. */
  lemma {:induction false} SolveWitness(tables: seq<Table>, target: int, largest: bool) returns (path: seq<(int, int)>)
    requires Solve(tables, target, largest).Some?
    ensures IsPath(tables, target, path) && Number(Digits(path)) == Solve(tables, target, largest).value
    decreases |tables|, 1, 0
  {
    if tables == [] {
      path := [];
    } else {
      var n := |tables|;
      var e, p := BestWitness(tables[..n - 1], tables[n - 1][target], largest);
      path := p + [e];
      assert path[..n - 1] == p;
      DigitsOfPrefix(path);
    }
  }

  lemma {:induction false} BestWitness(rest: seq<Table>, entries: seq<(int, int)>, largest: bool)
    returns (e: (int, int), path: seq<(int, int)>)
    requires BestOf(rest, entries, largest).Some?
    ensures e in entries && IsPath(rest, e.1, path)
    ensures e.0 + 10 * Number(Digits(path)) == BestOf(rest, entries, largest).value
    decreases |rest| + 1, 0, |entries|
  {
    var n := |entries|;
    var last := entries[n - 1];
    if BestOf(rest, entries, largest) == Candidate(rest, last, largest) {
      e := last;
      path := SolveWitness(rest, last.1, largest);
    } else {
      e, path := BestWitness(rest, entries[..n - 1], largest);
    }
  }

  /** Every path through the tables is found, and none beats the result. */
  lemma {:induction false} SolveOptimal(tables: seq<Table>, target: int, largest: bool, path: seq<(int, int)>)
    requires IsPath(tables, target, path)
    ensures Solve(tables, target, largest).Some?
    ensures largest ==> Number(Digits(path)) <= Solve(tables, target, largest).value
    ensures !largest ==> Solve(tables, target, largest).value <= Number(Digits(path))
    decreases |tables|, 1, 0
  {
    if tables != [] {
      var n := |tables|;
      BestOptimal(tables[..n - 1], tables[n - 1][target], largest, path[n - 1], path[..n - 1]);
      DigitsOfPrefix(path);
    }
  }

  lemma {:induction false} BestOptimal(rest: seq<Table>, entries: seq<(int, int)>, largest: bool,
                                       e: (int, int), path: seq<(int, int)>)
    requires e in entries && IsPath(rest, e.1, path)
    ensures BestOf(rest, entries, largest).Some?
    ensures largest ==> e.0 + 10 * Number(Digits(path)) <= BestOf(rest, entries, largest).value
    ensures !largest ==> BestOf(rest, entries, largest).value <= e.0 + 10 * Number(Digits(path))
    decreases |rest| + 1, 0, |entries|
  {
    var n := |entries|;
    if e == entries[n - 1] {
      SolveOptimal(rest, e.1, largest, path);
    } else {
      assert e in entries[..n - 1];
      BestOptimal(rest, entries[..n - 1], largest, e, path);
    }
  }

  /** `solve_min` never exceeds `solve_max` on the same tables. */
  lemma SolveMinAtMostMax(tables: seq<Table>, target: int)
    requires Solve(tables, target, true).Some? && Solve(tables, target, false).Some?
    ensures Solve(tables, target, false).value <= Solve(tables, target, true).value
  {
    var path := SolveWitness(tables, target, false);
    SolveOptimal(tables, target, true, path);
  }

  // ---------------------------------------------------------------------
  // What the tables mean: digit sequences the program accepts
  // ---------------------------------------------------------------------

  predicate AllDigits(ds: seq<int>)
  {
    forall i :: 0 <= i < |ds| ==> 1 <= ds[i] <= 9
  }

  /** `z` after running the first `|ds|` pieces, piece `k` on digit `ds[k]`,
      starting from `z = 0`; `None` when a run fails. */
  function Chain(runs: seq<(int, int) -> Option<int>>, ds: seq<int>): Option<int>
    requires |ds| <= |runs|
  {
    if ds == [] then Some(0)
    else
      match Chain(runs, ds[..|ds| - 1])
      case None => None
      case Some(z) => runs[|ds| - 1](ds[|ds| - 1], z)
  }

  /** A model number the program accepts: one digit in `1..=9` per piece,
      ending with `z = 0`. */
  ghost predicate Accepted(pieces: seq<seq<Instruction>>, ds: seq<int>)
  {
    |ds| == |pieces| && AllDigits(ds) && Chain(Runs(pieces), ds) == Some(0)
  }

  ghost predicate IsLargestAccepted(pieces: seq<seq<Instruction>>, v: int)
  {
    (exists ds :: Accepted(pieces, ds) && Number(ds) == v) &&
    forall ds :: Accepted(pieces, ds) ==> Number(ds) <= v
  }

  ghost predicate IsSmallestAccepted(pieces: seq<seq<Instruction>>, v: int)
  {
    (exists ds :: Accepted(pieces, ds) && Number(ds) == v) &&
    forall ds :: Accepted(pieces, ds) ==> v <= Number(ds)
  }

  /** A path through the tables spells digits whose chain of runs ends at
      the path's target. */
  lemma {:induction false} PathChain(runs: seq<(int, int) -> Option<int>>, tables: seq<Table>, target: int,
                                     path: seq<(int, int)>)
    requires TablesUpTo(runs, tables) && IsPath(tables, target, path)
    requires tables == [] ==> target == 0
    ensures AllDigits(Digits(path)) && Chain(runs, Digits(path)) == Some(target)
    decreases |tables|
  {
    if tables != [] {
      var n := |tables|;
      var z := PathStep(runs, tables, target, path);
      PathChain(runs, tables[..n - 1], z, path[..n - 1]);
      ChainExtend(runs, path, z, target);
    }
  }

  /** The last step of a path: a digit, a `z` the table before reaches
      (or `0` for the first table), and the run of the last piece that
      takes it to `target`. */
  lemma PathStep(runs: seq<(int, int) -> Option<int>>, tables: seq<Table>, target: int, path: seq<(int, int)>)
    returns (z: int)
    requires TablesUpTo(runs, tables) && IsPath(tables, target, path) && tables != []
    ensures var n := |tables|;
      z == path[n - 1].1 && 1 <= path[n - 1].0 <= 9 && runs[n - 1](path[n - 1].0, z) == Some(target)
    ensures TablesUpTo(runs, tables[..|tables| - 1]) && IsPath(tables[..|tables| - 1], z, path[..|tables| - 1])
    ensures tables[..|tables| - 1] == [] ==> z == 0
  {
    var n := |tables|;
    z := path[n - 1].1;
    assert TableFor(runs[n - 1], PrevKeys(tables, n - 1), tables[n - 1]);
  }

  /** One more step of a path extends the chain of runs by one digit. */
  lemma ChainExtend(runs: seq<(int, int) -> Option<int>>, path: seq<(int, int)>, z: int, target: int)
    requires 1 <= |path| <= |runs|
    requires var n := |path|; 1 <= path[n - 1].0 <= 9 && runs[n - 1](path[n - 1].0, z) == Some(target)
    requires var p' := path[..|path| - 1]; AllDigits(Digits(p')) && Chain(runs, Digits(p')) == Some(z)
    ensures AllDigits(Digits(path)) && Chain(runs, Digits(path)) == Some(target)
  {
    var n := |path|;
    DigitsOfPrefix(path);
    var ds, ds' := Digits(path), Digits(path[..n - 1]);
    assert ds[..n - 1] == ds';
    assert forall i :: 0 <= i < n - 1 ==> ds[i] == ds'[i];
  }

  /** Conversely, digits whose chain of runs reaches `target` spell a path
      through the tables. */
  lemma {:induction false} ChainPath(runs: seq<(int, int) -> Option<int>>, tables: seq<Table>, ds: seq<int>,
                                     target: int) returns (path: seq<(int, int)>)
    requires TablesUpTo(runs, tables) && |ds| == |tables| && AllDigits(ds)
    requires Chain(runs, ds) == Some(target)
    ensures IsPath(tables, target, path) && Digits(path) == ds
    decreases |tables|
  {
    if tables == [] {
      path := [];
    } else {
      var n := |tables|;
      var z := Chain(runs, ds[..n - 1]).value;
      var d := ds[n - 1];
      var path' := ChainPath(runs, tables[..n - 1], ds[..n - 1], z);
      if n > 1 {
        assert tables[..n - 1][n - 2] == tables[n - 2];
      }
      assert z in PrevKeys(tables, n - 1);
      assert TableFor(runs[n - 1], PrevKeys(tables, n - 1), tables[n - 1]);
      assert runs[n - 1](d, z) == Some(target);
      path := path' + [(d, z)];
      assert path[..n - 1] == path';
      assert Digits(path) == Digits(path') + [d];
    }
  }

  lemma {:induction false} TablesUpToPrefix(runs: seq<(int, int) -> Option<int>>, tables: seq<Table>, k: nat)
    requires TablesUpTo(runs, tables) && k <= |tables|
    ensures TablesUpTo(runs, tables[..k])
    decreases |tables|
  {
    if k < |tables| {
      TablesUpToPrefix(runs, tables[..|tables| - 1], k);
      assert tables[..|tables| - 1][..k] == tables[..k];
    } else {
      assert tables[..k] == tables;
    }
  }

  /** Every value a table starts from is reached by some digits. */
  lemma {:induction false} KeyReached(runs: seq<(int, int) -> Option<int>>, tables: seq<Table>, z: int)
    returns (ds: seq<int>)
    requires TablesUpTo(runs, tables) && z in PrevKeys(tables, |tables|)
    ensures |ds| == |tables| && AllDigits(ds) && Chain(runs, ds) == Some(z)
    decreases |tables|
  {
    if tables == [] {
      ds := [];
    } else {
      var n := |tables|;
      var t := tables[n - 1];
      assert TableFor(runs[n - 1], PrevKeys(tables, n - 1), t);
      var e := t[z][0];
      var d, z0 := e.0, e.1;
      assert 1 <= d <= 9 && z0 in PrevKeys(tables, n - 1) && runs[n - 1](d, z0) == Some(z);
      if n > 1 {
        assert tables[..n - 1][n - 2] == tables[n - 2];
      }
      var ds' := KeyReached(runs, tables[..n - 1], z0);
      ds := ds' + [d];
      assert ds[..n - 1] == ds';
    }
  }

  /** Every value some digits reach is a key the next table starts from. */
  lemma ReachedIsKey(runs: seq<(int, int) -> Option<int>>, tables: seq<Table>, ds: seq<int>)
    requires TablesUpTo(runs, tables) && |ds| <= |tables| && AllDigits(ds)
    requires Chain(runs, ds).Some?
    ensures Chain(runs, ds).value in PrevKeys(tables, |ds|)
  {
    var k := |ds|;
    if k > 0 {
      TablesUpToPrefix(runs, tables, k);
      var path := ChainPath(runs, tables[..k], ds, Chain(runs, ds).value);
      assert tables[..k][k - 1] == tables[k - 1];
    }
  }

  /** Complete tables answer `solve_max` and `solve_min` for the program:
      a result exists exactly when some model number is accepted, and it is
      the largest, respectively smallest, of them. */
  lemma SolveCorrect(pieces: seq<seq<Instruction>>, tables: seq<Table>, largest: bool)
    requires TablesUpTo(Runs(pieces), tables) && |tables| == |pieces|
    ensures Solve(tables, 0, largest).Some? <==> exists ds :: Accepted(pieces, ds)
    ensures Solve(tables, 0, largest).Some? && largest ==>
      IsLargestAccepted(pieces, Solve(tables, 0, largest).value)
    ensures Solve(tables, 0, largest).Some? && !largest ==>
      IsSmallestAccepted(pieces, Solve(tables, 0, largest).value)
  {
    var runs := Runs(pieces);
    forall ds | Accepted(pieces, ds)
      ensures Solve(tables, 0, largest).Some?
      ensures largest ==> Number(ds) <= Solve(tables, 0, largest).value
      ensures !largest ==> Solve(tables, 0, largest).value <= Number(ds)
    {
      var path := ChainPath(runs, tables, ds, 0);
      SolveOptimal(tables, 0, largest, path);
    }
    if Solve(tables, 0, largest).Some? {
      var path := SolveWitness(tables, 0, largest);
      PathChain(runs, tables, 0, path);
      assert Accepted(pieces, Digits(path));
    }
  }

  /** Some reachable start of some piece makes its run fail: the table loop
      panics at `unwrap`. */
  ghost predicate RunFails(pieces: seq<seq<Instruction>>)
  {
    exists ds, d :: |ds| < |pieces| && AllDigits(ds) && 1 <= d <= 9 && Chain(Runs(pieces), ds).Some? &&
      RunPiece(pieces[|ds|], d, Chain(Runs(pieces), ds).value).None?
  }

  /** `main` after parsing: split at `inp`, insist on 14 pieces, build the
      tables and read back part 1 (`solve_max`) and part 2 (`solve_min`).
      `None` stands for the two panics. */
  method ModelNumbers(prog: seq<Instruction>) returns (r: Option<(Option<int>, Option<int>)>)
    ensures r.None? <==> |Subprograms(prog)| != 14 || RunFails(Subprograms(prog))
    ensures r.Some? ==>
      var pieces := Subprograms(prog);
      (r.value.0.Some? <==> exists ds :: Accepted(pieces, ds)) &&
      (r.value.1.Some? <==> exists ds :: Accepted(pieces, ds)) &&
      (r.value.0.Some? ==> IsLargestAccepted(pieces, r.value.0.value)) &&
      (r.value.1.Some? ==> IsSmallestAccepted(pieces, r.value.1.value))
  {
    var pieces := Subprograms(prog);
    if |pieces| != 14 {
      return None;
    }
    var tables, ok := PartialSolutions(pieces);
    var runs := Runs(pieces);
    if !ok {
      var d, z :| 1 <= d <= 9 && z in PrevKeys(tables, |tables|) && RunPiece(pieces[|tables|], d, z).None?;
      var ds := KeyReached(runs, tables, z);
      assert runs[|ds|] == Runner(pieces[|ds|]);
      return None;
    }
    forall ds, d | |ds| < |pieces| && AllDigits(ds) && 1 <= d <= 9 && Chain(runs, ds).Some?
      ensures RunPiece(pieces[|ds|], d, Chain(runs, ds).value).Some?
    {
      var z := Chain(runs, ds).value;
      ReachedIsKey(runs, tables, ds);
      TablesUpToPrefix(runs, tables, |ds| + 1);
      var t := tables[..|ds| + 1];
      assert TableFor(runs[|ds|], PrevKeys(t, |ds|), t[|ds|]);
      assert PrevKeys(t, |ds|) == PrevKeys(tables, |ds|);
      assert runs[|ds|](d, z).Some?;
    }
    SolveCorrect(pieces, tables, true);
    SolveCorrect(pieces, tables, false);
    r := Some((Solve(tables, 0, true), Solve(tables, 0, false)));
  }
}
