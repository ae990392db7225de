/** `day-18/src/main.rs`: snailfish numbers. A snailfish number is a
    regular number or a pair of two snailfish numbers; adding two numbers
    pairs them and then reduces the pair by repeated explosions and
    splits. The source rewrites a JSON tree in place through mutable
    references; here every rewrite returns the new tree. */
module Day18 {
  import opened Common

  datatype Snail = Num(n: nat) | Pair(left: Snail, right: Snail)

  /** The regular numbers of a tree, from left to right. */
  function Leaves(t: Snail): (s: seq<nat>)
    ensures |s| >= 1
  {
    match t
    case Num(n) => [n]
    case Pair(l, r) => Leaves(l) + Leaves(r)
  }

  /** The number of pairs on the longest path from the root to a number. */
  function Depth(t: Snail): nat
  {
    match t
    case Num(_) => 0
    case Pair(l, r) => 1 + Common.Max(Depth(l), Depth(r))
  }

  /** Two trees with the same pairs, whatever their numbers. */
  predicate SameShape(t: Snail, u: Snail)
  {
    match t
    case Num(_) => u.Num?
    case Pair(l, r) => u.Pair? && SameShape(l, u.left) && SameShape(r, u.right)
  }

  /** A reduced number: no pair nested inside four pairs, no number of 10
      or more. */
  predicate IsReduced(t: Snail)
  {
    Depth(t) <= 4 && AllSmall(Leaves(t))
  }

  // ---------------------------------------------------------------------
  // Adding to the first and last number of a sequence

  function AddFirst(s: seq<nat>, x: nat): (r: seq<nat>)
    ensures |r| == |s|
    ensures s != [] ==> r[0] == s[0] + x && r[1..] == s[1..]
  {
    if s == [] then [] else [s[0] + x] + s[1..]
  }

  function AddLast(s: seq<nat>, x: nat): (r: seq<nat>)
    ensures |r| == |s|
    ensures s != [] ==> r[|s| - 1] == s[|s| - 1] + x && r[..|s| - 1] == s[..|s| - 1]
  {
    if s == [] then [] else s[..|s| - 1] + [s[|s| - 1] + x]
  }

  lemma AddFirstAppend(a: seq<nat>, b: seq<nat>, x: nat)
    requires a != []
    ensures AddFirst(a + b, x) == AddFirst(a, x) + b
  {
    assert (a + b)[1..] == a[1..] + b;
  }

  lemma AddLastAppend(a: seq<nat>, b: seq<nat>, x: nat)
    requires b != []
    ensures AddLast(a + b, x) == a + AddLast(b, x)
  {
    assert (a + b)[..|a + b| - 1] == a + b[..|b| - 1];
  }

  // ---------------------------------------------------------------------
  // add_nested

  /** `add_nested`: add `b` to the number reached by following child
      `index` down from `a`; nothing happens without a tree. */
  function AddNested(a: Option<Snail>, b: nat, index: nat): (r: Option<Snail>)
    requires index < 2
    ensures r.Some? <==> a.Some?
  {
    match a
    case None => None
    case Some(t) => Some(AddInto(t, b, index))
  }

  /** The descent of `add_nested` once it holds a tree. */
  function AddInto(t: Snail, b: nat, index: nat): Snail
    requires index < 2
  {
    match t
    case Num(n) => Num(n + b)
    case Pair(l, r) =>
      if index == 0 then Pair(AddInto(l, b, index), r) else Pair(l, AddInto(r, b, index))
  }

  /** Child 0 all the way down reaches the leftmost number, child 1 the
      rightmost; the shape of the tree does not change. */
  lemma {:induction false} AddNestedLeaves(t: Snail, b: nat, index: nat)
    requires index < 2
    ensures SameShape(t, AddNested(Some(t), b, index).value)
    ensures index == 0 ==> Leaves(AddNested(Some(t), b, index).value) == AddFirst(Leaves(t), b)
    ensures index == 1 ==> Leaves(AddNested(Some(t), b, index).value) == AddLast(Leaves(t), b)
  {
    match t
    case Num(n) =>
    case Pair(l, r) =>
      if index == 0 {
        AddNestedLeaves(l, b, index);
        SameShapeRefl(r);
        AddFirstAppend(Leaves(l), Leaves(r), b);
      } else {
        AddNestedLeaves(r, b, index);
        SameShapeRefl(l);
        AddLastAppend(Leaves(l), Leaves(r), b);
      }
  }

  lemma {:induction false} SameShapeRefl(t: Snail)
    ensures SameShape(t, t)
  {
    match t
    case Num(_) =>
    case Pair(l, r) => SameShapeRefl(l); SameShapeRefl(r);
  }

  /** The leftmost and rightmost additions used by an explosion. */
  function AddLeftmost(t: Snail, b: nat): (u: Snail)
    ensures Leaves(u) == AddFirst(Leaves(t), b) && SameShape(t, u)
  {
    AddNestedLeaves(t, b, 0);
    AddNested(Some(t), b, 0).value
  }

  function AddRightmost(t: Snail, a: nat): (u: Snail)
    ensures Leaves(u) == AddLast(Leaves(t), a) && SameShape(t, u)
  {
    AddNestedLeaves(t, a, 1);
    AddNested(Some(t), a, 1).value
  }

  // ---------------------------------------------------------------------
  // Split

  /** No number of 10 or more. */
  predicate AllSmall(s: seq<nat>)
  {
    forall i :: 0 <= i < |s| ==> s[i] < 10
  }

  lemma AllSmallAppend(a: seq<nat>, b: seq<nat>)
    ensures AllSmall(a + b) <==> AllSmall(a) && AllSmall(b)
  {
    if AllSmall(a) && AllSmall(b) {
      forall i | 0 <= i < |a + b| ensures (a + b)[i] < 10 {
        if i < |a| { assert (a + b)[i] == a[i]; } else { assert (a + b)[i] == b[i - |a|]; }
      }
    }
    if AllSmall(a + b) {
      forall i | 0 <= i < |a| ensures a[i] < 10 { assert (a + b)[i] == a[i]; }
      forall i | 0 <= i < |b| ensures b[i] < 10 { assert (a + b)[|a| + i] == b[i]; }
    }
  }

  /** What a split does to the numbers: the first number `n` of 10 or more,
      between `pre` and `post`, becomes `n / 2` and `(n + 1) / 2`. */
  predicate SplitsAt(s: seq<nat>, s': seq<nat>, pre: seq<nat>, n: nat, post: seq<nat>)
  {
    s == pre + [n] + post && AllSmall(pre) && n >= 10
    && s' == pre + [n / 2, (n + 1) / 2] + post
  }

  /** `snail_fish_split`: the leftmost number of 10 or more becomes the
      pair of its halves, rounded down and up; the flag says whether a
      split happened. */
  function Split(t: Snail): (r: (Snail, bool))
  {
    match t
    case Num(n) =>
      if n >= 10 then (Pair(Num(n / 2), Num((n + 1) / 2)), true) else (t, false)
    case Pair(l, r) =>
      var (l', splitLeft) := Split(l);
      if splitLeft then (Pair(l', r), true)
      else
        var (r', splitRight) := Split(r);
        (Pair(l, r'), splitRight)
  }

  /** A split happens exactly when some number is 10 or more; it replaces
      the first such number by its two halves, and nothing else. */
  lemma {:induction false} SplitLeaves(t: Snail)
    ensures Split(t).1 ==> exists pre, n, post :: SplitsAt(Leaves(t), Leaves(Split(t).0), pre, n, post)
    ensures !Split(t).1 ==> Split(t).0 == t && AllSmall(Leaves(t))
  {
    match t
    case Num(n) =>
      if n >= 10 {
        assert Leaves(t) == [] + [n] + [];
        assert SplitsAt(Leaves(t), Leaves(Split(t).0), [], n, []);
      }
    case Pair(l, r) =>
      SplitLeaves(l);
      SplitLeaves(r);
      var sl, sr := Leaves(l), Leaves(r);
      assert Leaves(t) == sl + sr;
      if Split(l).1 {
        assert Split(t) == (Pair(Split(l).0, r), true);
        var pre: seq<nat>, n: nat, post: seq<nat> :| SplitsAt(sl, Leaves(Split(l).0), pre, n, post);
        AppendAssoc(pre + [n], post, sr);
        AppendAssoc(pre + [n / 2, (n + 1) / 2], post, sr);
        assert SplitsAt(Leaves(t), Leaves(Split(t).0), pre, n, post + sr);
      } else if Split(r).1 {
        assert Split(t) == (Pair(l, Split(r).0), true);
        var pre: seq<nat>, n: nat, post: seq<nat> :| SplitsAt(sr, Leaves(Split(r).0), pre, n, post);
        AllSmallAppend(sl, pre);
        AppendAssoc(sl, pre + [n], post);
        AppendAssoc(sl, pre, [n]);
        AppendAssoc(sl, pre + [n / 2, (n + 1) / 2], post);
        AppendAssoc(sl, pre, [n / 2, (n + 1) / 2]);
        assert SplitsAt(Leaves(t), Leaves(Split(t).0), sl + pre, n, post);
      } else {
        assert Split(t) == (Pair(l, r), false);
        AllSmallAppend(sl, sr);
      }
  }

  /** Split reports a change exactly when some number is 10 or more. */
  lemma SplitIffBig(t: Snail)
    ensures Split(t).1 <==> !AllSmall(Leaves(t))
  {
    SplitLeaves(t);
    if Split(t).1 {
      var pre: seq<nat>, n: nat, post: seq<nat> :| SplitsAt(Leaves(t), Leaves(Split(t).0), pre, n, post);
      assert Leaves(t)[|pre|] == n;
    }
  }

  /** The sum of the regular numbers of a tree. */
  function LeafSum(t: Snail): nat
  {
    match t
    case Num(n) => n
    case Pair(l, r) => LeafSum(l) + LeafSum(r)
  }

  /** A split keeps the sum of the numbers, since `n/2 + (n+1)/2 == n`. */
  lemma {:induction false} SplitKeepsSum(t: Snail)
    ensures LeafSum(Split(t).0) == LeafSum(t)
  {
    match t
    case Num(n) =>
    case Pair(l, r) =>
      SplitKeepsSum(l);
      SplitKeepsSum(r);
  }

  // ---------------------------------------------------------------------
  // Explode

  /** The outcome of `snail_fish_explode` on a subtree: nothing to explode,
      an explosion (with the values still to be added to the nearest
      numbers left and right of the subtree; 0 once they were added), or
      the `unreachable!()` of a pair to explode that does not hold two
      numbers. */
  datatype Explosion = Unchanged | Exploded(t: Snail, toLeft: nat, toRight: nat) | Unreachable

  /** `snail_fish_explode` on a subtree at nesting `level`: a pair at level
      3 or more explodes its first child that is a pair; otherwise the left
      child is tried before the right one. */
  function Explode(t: Snail, level: nat): (r: Explosion)
  {
    match t
    case Num(_) => Unchanged
    case Pair(l, r) =>
      if level >= 3 && (l.Pair? || r.Pair?) then
        if l.Pair? then
          if l.left.Num? && l.right.Num? then Exploded(Pair(Num(0), AddLeftmost(r, l.right.n)), l.left.n, 0)
          else Unreachable
        else
          if r.left.Num? && r.right.Num? then Exploded(Pair(AddRightmost(l, r.left.n), Num(0)), 0, r.right.n)
          else Unreachable
      else
        match Explode(l, level + 1)
        case Unreachable => Unreachable
        case Exploded(l', a, b) => Exploded(Pair(l', AddLeftmost(r, b)), a, 0)
        case Unchanged =>
          match Explode(r, level + 1)
          case Unreachable => Unreachable
          case Exploded(r', a, b) => Exploded(Pair(AddRightmost(l, a), r'), 0, b)
          case Unchanged => Unchanged
  }

  /** What an explosion does to the numbers: the exploding pair `[a, b]`
      sits between `pre` and `post` and becomes a single 0; `a` is added to
      the last number of `pre` and `b` to the first number of `post`. A
      value with no number on its side inside the subtree is handed up. */
  predicate ExplodesAt(s: seq<nat>, s': seq<nat>, pre: seq<nat>, a: nat, b: nat, post: seq<nat>,
                       toLeft: nat, toRight: nat)
  {
    s == pre + [a, b] + post
    && s' == AddLast(pre, a) + [0] + AddFirst(post, b)
    && toLeft == (if pre == [] then a else 0)
    && toRight == (if post == [] then b else 0)
  }

  /** Every explosion is of that form. */
  lemma {:induction false} ExplodeLeaves(t: Snail, level: nat)
    requires Explode(t, level).Exploded?
    ensures var e := Explode(t, level);
      exists pre, a, b, post :: ExplodesAt(Leaves(t), Leaves(e.t), pre, a, b, post, e.toLeft, e.toRight)
    decreases t
  {
    match t
    case Pair(l, r) =>
      if level >= 3 && (l.Pair? || r.Pair?) {
        if l.Pair? {
          ExplodeHereLeft(l.left.n, l.right.n, r);
        } else {
          ExplodeHereRight(l, r.left.n, r.right.n);
        }
      } else if Explode(l, level + 1).Exploded? {
        ExplodeLeaves(l, level + 1);
        ExplodeInLeft(l, r, Explode(l, level + 1));
      } else {
        ExplodeLeaves(r, level + 1);
        ExplodeInRight(l, r, Explode(r, level + 1));
      }
  }

  lemma ExplodeHereLeft(a: nat, b: nat, r: Snail)
    ensures ExplodesAt(Leaves(Pair(Pair(Num(a), Num(b)), r)), Leaves(Pair(Num(0), AddLeftmost(r, b))),
                       [], a, b, Leaves(r), a, 0)
  {
    assert Leaves(Pair(Num(a), Num(b))) == [a, b];
  }

  lemma ExplodeHereRight(l: Snail, a: nat, b: nat)
    ensures ExplodesAt(Leaves(Pair(l, Pair(Num(a), Num(b)))), Leaves(Pair(AddRightmost(l, a), Num(0))),
                       Leaves(l), a, b, [], 0, b)
  {
    var sl := Leaves(l);
    assert Leaves(Pair(Num(a), Num(b))) == [a, b];
    assert Leaves(Pair(l, Pair(Num(a), Num(b)))) == sl + [a, b] + [] by {
      assert sl + [a, b] + [] == sl + [a, b];
    }
    assert Leaves(Pair(AddRightmost(l, a), Num(0))) == AddLast(sl, a) + [0] + AddFirst([], b) by {
      assert AddFirst([], b) == [];
      assert AddLast(sl, a) + [0] + [] == AddLast(sl, a) + [0];
    }
  }

  lemma ExplodeInLeft(l: Snail, r: Snail, el: Explosion)
    requires el.Exploded?
    requires exists pre, a, b, post :: ExplodesAt(Leaves(l), Leaves(el.t), pre, a, b, post, el.toLeft, el.toRight)
    ensures exists pre, a, b, post ::
      ExplodesAt(Leaves(Pair(l, r)), Leaves(Pair(el.t, AddLeftmost(r, el.toRight))), pre, a, b, post, el.toLeft, 0)
  {
    var pre, a, b, post :| ExplodesAt(Leaves(l), Leaves(el.t), pre, a, b, post, el.toLeft, el.toRight);
    ExplodedLeft(Leaves(l), Leaves(r), Leaves(el.t), pre, a, b, post, el.toLeft, el.toRight);
    assert Leaves(Pair(l, r)) == Leaves(l) + Leaves(r);
    assert Leaves(Pair(el.t, AddLeftmost(r, el.toRight))) == Leaves(el.t) + AddFirst(Leaves(r), el.toRight);
    assert ExplodesAt(Leaves(Pair(l, r)), Leaves(Pair(el.t, AddLeftmost(r, el.toRight))),
                      pre, a, b, post + Leaves(r), el.toLeft, 0);
  }

  lemma ExplodeInRight(l: Snail, r: Snail, er: Explosion)
    requires er.Exploded?
    requires exists pre, a, b, post :: ExplodesAt(Leaves(r), Leaves(er.t), pre, a, b, post, er.toLeft, er.toRight)
    ensures exists pre, a, b, post ::
      ExplodesAt(Leaves(Pair(l, r)), Leaves(Pair(AddRightmost(l, er.toLeft), er.t)), pre, a, b, post, 0, er.toRight)
  {
    var pre, a, b, post :| ExplodesAt(Leaves(r), Leaves(er.t), pre, a, b, post, er.toLeft, er.toRight);
    ExplodedRight(Leaves(l), Leaves(r), Leaves(er.t), pre, a, b, post, er.toLeft, er.toRight);
    assert Leaves(Pair(l, r)) == Leaves(l) + Leaves(r);
    assert Leaves(Pair(AddRightmost(l, er.toLeft), er.t)) == AddLast(Leaves(l), er.toLeft) + Leaves(er.t);
    assert ExplodesAt(Leaves(Pair(l, r)), Leaves(Pair(AddRightmost(l, er.toLeft), er.t)),
                      Leaves(l) + pre, a, b, post, 0, er.toRight);
  }

  /** What the left child hands to the right lands on the first number
      after the exploding pair. */
  lemma AddFirstJoin(post: seq<nat>, sr: seq<nat>, b: nat)
    requires sr != []
    ensures AddFirst(post, b) + AddFirst(sr, if post == [] then b else 0) == AddFirst(post + sr, b)
  {
    if post == [] {
      assert post + sr == sr;
    } else {
      AddFirstAppend(post, sr, b);
      assert AddFirst(sr, 0) == sr;
    }
  }

  lemma AddLastJoin(sl: seq<nat>, pre: seq<nat>, a: nat)
    requires sl != []
    ensures AddLast(sl, if pre == [] then a else 0) + AddLast(pre, a) == AddLast(sl + pre, a)
  {
    if pre == [] {
      assert sl + pre == sl;
    } else {
      AddLastAppend(sl, pre, a);
      assert AddLast(sl, 0) == sl;
    }
  }

  /** An explosion in the left child, seen from the parent: what it hands
      to the right is added to the leftmost number of the right child. */
  lemma ExplodedLeft(sl: seq<nat>, sr: seq<nat>, sl': seq<nat>, pre: seq<nat>, a: nat, b: nat, post: seq<nat>,
                     toLeft: nat, toRight: nat)
    requires sr != [] && ExplodesAt(sl, sl', pre, a, b, post, toLeft, toRight)
    ensures ExplodesAt(sl + sr, sl' + AddFirst(sr, toRight), pre, a, b, post + sr, toLeft, 0)
  {
    AppendAssoc(pre + [a, b], post, sr);
    AppendAssoc(AddLast(pre, a) + [0], AddFirst(post, b), AddFirst(sr, toRight));
    AddFirstJoin(post, sr, b);
  }

  /** An explosion in the right child, seen from the parent: what it hands
      to the left is added to the rightmost number of the left child. */
  lemma ExplodedRight(sl: seq<nat>, sr: seq<nat>, sr': seq<nat>, pre: seq<nat>, a: nat, b: nat, post: seq<nat>,
                      toLeft: nat, toRight: nat)
    requires sl != [] && ExplodesAt(sr, sr', pre, a, b, post, toLeft, toRight)
    ensures ExplodesAt(sl + sr, AddLast(sl, toLeft) + sr', sl + pre, a, b, post, 0, toRight)
  {
    AppendAssoc(sl, pre + [a, b], post);
    AppendAssoc(sl, pre, [a, b]);
    AppendAssoc(AddLast(sl, toLeft), AddLast(pre, a) + [0], AddFirst(post, b));
    AppendAssoc(AddLast(sl, toLeft), AddLast(pre, a), [0]);
    AddLastJoin(sl, pre, a);
  }

  /** Nothing explodes exactly when no pair sits at level 4 or deeper
      (for the levels at which the search looks at the children of a
      pair). */
  lemma {:induction false} ExplodeUnchanged(t: Snail, level: nat)
    requires level <= 3
    ensures Explode(t, level).Unchanged? <==> t.Num? || level + Depth(t) <= 4
  {
    match t
    case Num(_) =>
    case Pair(l, r) =>
      if level < 3 {
        ExplodeUnchanged(l, level + 1);
        ExplodeUnchanged(r, level + 1);
      } else if l.Pair? || r.Pair? {
        assert Depth(t) >= 2;
      }
  }

  /** The `unreachable!()` cannot be reached while no pair sits at level 5
      or deeper, which holds for the sum of two reduced numbers. */
  lemma {:induction false} ExplodeReachable(t: Snail, level: nat)
    requires level + Depth(t) <= 5
    ensures !Explode(t, level).Unreachable?
  {
    match t
    case Num(_) =>
    case Pair(l, r) =>
      if !(level >= 3 && (l.Pair? || r.Pair?)) {
        ExplodeReachable(l, level + 1);
        ExplodeReachable(r, level + 1);
      } else if l.Pair? {
        assert Depth(l) <= 1;
        DepthOfPairChild(l);
      } else {
        assert Depth(r) <= 1;
        DepthOfPairChild(r);
      }
  }

  /** A pair of depth 1 holds two numbers. */
  lemma DepthOfPairChild(t: Snail)
    requires t.Pair? && Depth(t) <= 1
    ensures t.left.Num? && t.right.Num?
  {
  }

  // ---------------------------------------------------------------------
  // Reduce and add

  /** `snail_fish_reduce`: explode if possible, otherwise split. `None` is
      the `unreachable!()` panic; the flag says whether anything changed. */
  function Reduce(t: Snail): (r: Option<(Snail, bool)>)
    ensures r.Some? && !r.value.1 ==> r.value.0 == t
  {
    match Explode(t, 0)
    case Unreachable => None
    case Exploded(u, _, _) => Some((u, true))
    case Unchanged =>
      SplitLeaves(t);
      Some(Split(t))
  }

  /** A number that reduction leaves alone is reduced. */
  lemma ReduceStops(t: Snail)
    requires Reduce(t) == Some((t, false))
    ensures IsReduced(t)
  {
    ExplodeUnchanged(t, 0);
    SplitLeaves(t);
  }

  /** A reduced number is left alone by reduction. */
  lemma ReducedStays(t: Snail)
    requires IsReduced(t)
    ensures Reduce(t) == Some((t, false))
  {
    ExplodeUnchanged(t, 0);
    SplitIffBig(t);
    SplitLeaves(t);
  }

  lemma {:induction false} SameShapeDepth(t: Snail, u: Snail)
    requires SameShape(t, u)
    ensures Depth(t) == Depth(u)
  {
    match t
    case Num(_) =>
    case Pair(l, r) =>
      SameShapeDepth(l, u.left);
      SameShapeDepth(r, u.right);
  }

  /** An explosion never makes the tree deeper. */
  lemma {:induction false} ExplodeDepth(t: Snail, level: nat)
    requires Explode(t, level).Exploded?
    ensures Depth(Explode(t, level).t) <= Depth(t)
  {
    match t
    case Pair(l, r) =>
      if level >= 3 && (l.Pair? || r.Pair?) {
        if l.Pair? {
          SameShapeDepth(r, AddLeftmost(r, l.right.n));
        } else {
          SameShapeDepth(l, AddRightmost(l, r.left.n));
        }
      } else if Explode(l, level + 1).Exploded? {
        ExplodeDepth(l, level + 1);
        SameShapeDepth(r, AddLeftmost(r, Explode(l, level + 1).toRight));
      } else {
        ExplodeDepth(r, level + 1);
        SameShapeDepth(l, AddRightmost(l, Explode(r, level + 1).toLeft));
      }
  }

  /** A split deepens the tree by at most one pair. */
  lemma {:induction false} SplitDepth(t: Snail)
    ensures Depth(Split(t).0) <= Depth(t) + 1
  {
    match t
    case Num(_) =>
    case Pair(l, r) =>
      SplitDepth(l);
      SplitDepth(r);
  }

  /** Starting from a tree with no pair at level 5 (the sum of two reduced
      numbers), every round of reduction avoids the `unreachable!()` and
      keeps that bound: explosions do not deepen the tree, and a split
      only happens once nothing explodes, at depth 4 or less. */
  lemma ReduceKeepsDepth(t: Snail)
    requires Depth(t) <= 5
    ensures Reduce(t).Some?
    ensures Depth(Reduce(t).value.0) <= 5
  {
    ExplodeReachable(t, 0);
    if Explode(t, 0).Exploded? {
      ExplodeDepth(t, 0);
    } else {
      ExplodeUnchanged(t, 0);
      SplitDepth(t);
    }
  }

  /** The sum of two reduced numbers starts within that bound. */
  lemma SumOfReducedDepth(a: Snail, b: Snail)
    requires IsReduced(a) && IsReduced(b)
    ensures Depth(Pair(a, b)) <= 5
  {
  }

  /** Reduction repeated until nothing changes, for at most `fuel` rounds:
      `None` for the panic or when the rounds run out. */
  function ReduceFully(t: Snail, fuel: nat): (r: Option<Snail>)
    decreases fuel
  {
    if fuel == 0 then None
    else
      match Reduce(t)
      case None => None
      case Some((u, changed)) => if changed then ReduceFully(u, fuel - 1) else Some(t)
  }

  lemma {:induction false} ReduceFullyReduced(t: Snail, fuel: nat)
    ensures ReduceFully(t, fuel).Some? ==> IsReduced(ReduceFully(t, fuel).value)
    decreases fuel
  {
    if fuel > 0 {
      match Reduce(t)
      case None =>
      case Some((u, changed)) =>
        if changed { ReduceFullyReduced(u, fuel - 1); } else { ReduceStops(t); }
    }
  }

  /** `snail_fish_add`: the pair of the two numbers, reduced by repeating
      `snail_fish_reduce` while it changes something (at most `fuel`
      times). The result, when there is one, is reduced. */
  method Add(a: Snail, b: Snail, fuel: nat) returns (r: Option<Snail>)
    ensures r == ReduceFully(Pair(a, b), fuel)
    ensures r.Some? ==> IsReduced(r.value)
  {
    var current := Pair(a, b);
    var rounds := 0;
    r := None;
    while rounds < fuel
      invariant rounds <= fuel
      invariant ReduceFully(Pair(a, b), fuel) == ReduceFully(current, fuel - rounds)
      decreases fuel - rounds
    {
      var step := Reduce(current);
      if step.None? {
        return;
      }
      if !step.value.1 {
        r := Some(current);
        ReduceFullyReduced(Pair(a, b), fuel);
        return;
      }
      current := step.value.0;
      rounds := rounds + 1;
    }
    ReduceFullyReduced(Pair(a, b), fuel);
  }

  /** The sum of two numbers as a function, for the puzzle answers. */
  function AddSpec(a: Snail, b: Snail, fuel: nat): Option<Snail>
  {
    ReduceFully(Pair(a, b), fuel)
  }

  /** `magnitude`: a number is its own magnitude; a pair is three times the
      magnitude of its left child plus twice that of its right child. */
  function Magnitude(t: Snail): nat
  {
    match t
    case Num(n) => n
    case Pair(l, r) => 3 * Magnitude(l) + 2 * Magnitude(r)
  }

  /** The magnitude lies between the sum of the numbers and `3^depth` times
      that sum. */
  lemma {:induction false} MagnitudeBounds(t: Snail)
    ensures LeafSum(t) <= Magnitude(t) <= Pow3(Depth(t)) * LeafSum(t)
  {
    match t
    case Num(n) =>
    case Pair(l, r) =>
      MagnitudeBounds(l);
      MagnitudeBounds(r);
      var d := Depth(t) - 1;
      var sl, sr := LeafSum(l), LeafSum(r);
      var ml, mr := Magnitude(l), Magnitude(r);
      var p := Pow3(d);
      assert ml <= p * sl by {
        Pow3Mono(Depth(l), d);
        MulLeq(Pow3(Depth(l)), p, sl);
      }
      assert mr <= p * sr by {
        Pow3Mono(Depth(r), d);
        MulLeq(Pow3(Depth(r)), p, sr);
      }
      assert Pow3(Depth(t)) == 3 * p;
      MagnitudeStep(ml, mr, p, sl, sr);
  }

  lemma MagnitudeStep(ml: nat, mr: nat, p: nat, sl: nat, sr: nat)
    requires ml <= p * sl && mr <= p * sr
    ensures 3 * ml + 2 * mr <= (3 * p) * (sl + sr)
  {
    assert (3 * p) * (sl + sr) == 3 * (p * sl) + 3 * (p * sr);
  }

  lemma MulLeq(x: nat, y: nat, z: nat)
    requires x <= y
    ensures x * z <= y * z
  {
  }

  function Pow3(n: nat): nat
  {
    if n == 0 then 1 else 3 * Pow3(n - 1)
  }

  lemma {:induction false} Pow3Mono(m: nat, n: nat)
    requires m <= n
    ensures Pow3(m) <= Pow3(n)
    decreases n
  {
    if m < n { Pow3Mono(m, n - 1); }
  }

  // ---------------------------------------------------------------------
  // The puzzle answers

  /** Part 1: the numbers added from left to right (the iterator's
      `reduce`); `None` without numbers, on a panic or when the fuel runs
      out. */
  function SumAll(xs: seq<Snail>, fuel: nat): (r: Option<Snail>)
    ensures xs == [] ==> r == None
    ensures |xs| == 1 ==> r == Some(xs[0])
    decreases |xs|
  {
    if xs == [] then None
    else if |xs| == 1 then Some(xs[0])
    else
      match SumAll(xs[..|xs| - 1], fuel)
      case None => None
      case Some(acc) => AddSpec(acc, xs[|xs| - 1], fuel)
  }

  /** The sum of several numbers is reduced. */
  lemma SumAllReduced(xs: seq<Snail>, fuel: nat)
    requires |xs| >= 2
    ensures SumAll(xs, fuel).Some? ==> IsReduced(SumAll(xs, fuel).value)
  {
    var acc := SumAll(xs[..|xs| - 1], fuel);
    if acc.Some? {
      ReduceFullyReduced(Pair(acc.value, xs[|xs| - 1]), fuel);
    }
  }

  function Part1(xs: seq<Snail>, fuel: nat): Option<nat>
  {
    match SumAll(xs, fuel)
    case None => None
    case Some(t) => Some(Magnitude(t))
  }

  /** The magnitude of `xs[i] + xs[j]`. */
  function PairMagnitude(xs: seq<Snail>, i: nat, j: nat, fuel: nat): Option<nat>
    requires i < |xs| && j < |xs|
  {
    match AddSpec(xs[i], xs[j], fuel)
    case None => None
    case Some(t) => Some(Magnitude(t))
  }

  /** The outcome of part 2 over some of the ordered pairs: a failure
      (`Failed`), no pair (`Best(None)`), or the largest magnitude. */
  datatype Best = Failed | Best(m: Option<nat>)

  /** One more candidate magnitude, as the iterator's `max` takes it. */
  function Join(x: Best, y: Best): (r: Best)
    ensures r.Failed? <==> x.Failed? || y.Failed?
  {
    match (x, y)
    case (Failed, _) => Failed
    case (_, Failed) => Failed
    case (Best(None), _) => y
    case (_, Best(None)) => x
    case (Best(Some(m)), Best(Some(n))) => Best(Some(Common.Max(m, n)))
  }

  function Candidate(xs: seq<Snail>, i: nat, j: nat, fuel: nat): Best
    requires i < |xs| && j < |xs|
  {
    if i == j then Best(None)
    else match PairMagnitude(xs, i, j, fuel)
      case None => Failed
      case Some(m) => Best(Some(m))
  }

  /** The pairs `(i, j)` with `j >= from`. */
  function RowBest(xs: seq<Snail>, i: nat, from: nat, fuel: nat): Best
    requires i < |xs| && from <= |xs|
    decreases |xs| - from
  {
    if from == |xs| then Best(None) else Join(Candidate(xs, i, from, fuel), RowBest(xs, i, from + 1, fuel))
  }

  /** The pairs `(i, j)` with `i >= from`. */
  function BestFrom(xs: seq<Snail>, from: nat, fuel: nat): Best
    requires from <= |xs|
    decreases |xs| - from
  {
    if from == |xs| then Best(None) else Join(RowBest(xs, from, 0, fuel), BestFrom(xs, from + 1, fuel))
  }

  /** Part 2: the largest magnitude of a sum of two different numbers of the
      list, in either order (the iterator's `permutations(2)` and `max`). */
  function Part2(xs: seq<Snail>, fuel: nat): Best
  {
    BestFrom(xs, 0, fuel)
  }

  /** What a `Best` says about a set of candidates: every candidate
      succeeds and is at most the result, and one of them equals it. */
  predicate IsBestOf(r: Best, xs: seq<Snail>, lo: nat, hi: nat, from: nat, fuel: nat)
    requires lo <= hi <= |xs| && from <= |xs|
  {
    r.Best? ==>
      (forall i, j :: lo <= i < hi && from <= j < |xs| && i != j ==>
        PairMagnitude(xs, i, j, fuel).Some?
        && r.m.Some? && PairMagnitude(xs, i, j, fuel).value <= r.m.value)
      && (r.m.Some? ==>
            exists i, j :: lo <= i < hi && from <= j < |xs| && i != j && PairMagnitude(xs, i, j, fuel) == r.m)
  }

  lemma {:induction false} RowBestIsBest(xs: seq<Snail>, i: nat, from: nat, fuel: nat)
    requires i < |xs| && from <= |xs|
    ensures IsBestOf(RowBest(xs, i, from, fuel), xs, i, i + 1, from, fuel)
    decreases |xs| - from
  {
    if from < |xs| {
      RowBestIsBest(xs, i, from + 1, fuel);
    }
  }

  lemma {:induction false} BestFromIsBest(xs: seq<Snail>, from: nat, fuel: nat)
    requires from <= |xs|
    ensures IsBestOf(BestFrom(xs, from, fuel), xs, from, |xs|, 0, fuel)
    decreases |xs| - from
  {
    if from < |xs| {
      RowBestIsBest(xs, from, 0, fuel);
      BestFromIsBest(xs, from + 1, fuel);
    }
  }

  /** Part 2 is the largest magnitude over all ordered pairs of distinct
      numbers, and is attained by one of them. */
  lemma Part2IsMax(xs: seq<Snail>, fuel: nat)
    ensures var r := Part2(xs, fuel);
      r.Best? ==>
        (forall i, j :: 0 <= i < |xs| && 0 <= j < |xs| && i != j ==>
          PairMagnitude(xs, i, j, fuel).Some?
          && r.m.Some? && PairMagnitude(xs, i, j, fuel).value <= r.m.value)
        && (r.m.Some? ==>
              exists i, j :: 0 <= i < |xs| && 0 <= j < |xs| && i != j && PairMagnitude(xs, i, j, fuel) == r.m)
  {
    var r := Part2(xs, fuel);
    BestFromIsBest(xs, 0, fuel);
    assert IsBestOf(r, xs, 0, |xs|, 0, fuel);
    if r.Best? {
      forall i, j | 0 <= i < |xs| && 0 <= j < |xs| && i != j
        ensures PairMagnitude(xs, i, j, fuel).Some? && r.m.Some? && PairMagnitude(xs, i, j, fuel).value <= r.m.value
      {
        assert 0 <= i < |xs| && 0 <= j < |xs| && i != j;
      }
      if r.m.Some? {
        var i, j :| 0 <= i < |xs| && 0 <= j < |xs| && i != j && PairMagnitude(xs, i, j, fuel) == r.m;
        assert PairMagnitude(xs, i, j, fuel) == r.m;
      }
    }
  }
}
