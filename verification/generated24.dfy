/** `day-24/src/generated.rs`: the closed form of each of the fourteen
    pieces of the puzzle program, as a function of the digit `w` and the
    incoming `z`. Every piece has the same shape: it compares `z % 26` plus
    an offset with `w`, optionally divides `z` by 26 first, and on a
    mismatch multiplies by 26 and adds `w` plus an addend. */
module Generated24 {
  import opened Common

  /** The common shape of a piece: `pops` says whether `z` is divided by
      26 first, `offset` is added to `z % 26` before comparing with `w`,
      and `addend` is added to `w` on a mismatch. */
  function Piece(w: int, z: int, pops: bool, offset: int, addend: int): int
  {
    var base := if pops then TDiv(z, 26) else z;
    var differs := TMod(z, 26) + offset != w;
    base * ((if differs then 25 else 0) + 1) + (if differs then w + addend else 0)
  }

  /** `prog(prog_idx, w, z)`; `None` for an index past 13, where the source
      reaches `unimplemented!()`. */
  function Prog(idx: nat, w: int, z: int): (r: Option<int>)
    ensures r.Some? <==> idx <= 13
  {
    match idx
    case 0 => Some(Piece(w, z, false, 11, 3))
    case 1 => Some(Piece(w, z, false, 14, 7))
    case 2 => Some(Piece(w, z, false, 13, 1))
    case 3 => Some(Piece(w, z, true, -4, 6))
    case 4 => Some(Piece(w, z, false, 11, 14))
    case 5 => Some(Piece(w, z, false, 10, 7))
    case 6 => Some(Piece(w, z, true, -4, 9))
    case 7 => Some(Piece(w, z, true, -12, 9))
    case 8 => Some(Piece(w, z, false, 10, 6))
    case 9 => Some(Piece(w, z, true, -11, 4))
    case 10 => Some(Piece(w, z, false, 12, 0))
    case 11 => Some(Piece(w, z, true, -1, 7))
    case 12 => Some(Piece(w, z, true, 0, 12))
    case 13 => Some(Piece(w, z, true, -11, 1))
    case _ => None
  }

  /** The pieces that never divide `z`. */
  predicate IsPush(idx: nat)
  {
    idx in {0, 1, 2, 4, 5, 8, 10}
  }

  /** The pieces that divide `z` by 26. */
  predicate IsPop(idx: nat)
  {
    idx in {3, 6, 7, 9, 11, 12, 13}
  }

  /** The offset each piece adds to `z % 26` before comparing with `w`. */
  function Offset(idx: nat): int
    requires idx <= 13
  {
    [11, 14, 13, -4, 11, 10, -4, -12, 10, -11, 12, -1, 0, -11][idx]
  }

  /** The amount each piece adds to `w` when it pushes. */
  function Addend(idx: nat): int
    requires idx <= 13
  {
    [3, 7, 1, 6, 14, 7, 9, 9, 6, 4, 0, 7, 12, 1][idx]
  }

  /** Every piece is the common shape with its own three constants. */
  lemma ProgShape(idx: nat, w: int, z: int)
    requires idx <= 13
    ensures IsPush(idx) != IsPop(idx)
    ensures Prog(idx, w, z) == Some(Piece(w, z, IsPop(idx), Offset(idx), Addend(idx)))
  {
  }

  /** A push piece cannot match a digit when `z` is not negative, since its
      offset is at least 10: it appends `w + addend` as a new base-26 digit. */
  lemma PushAppends(idx: nat, w: int, z: int)
    requires idx <= 13 && IsPush(idx)
    requires z >= 0 && 1 <= w <= 9
    ensures Offset(idx) >= 10
    ensures Prog(idx, w, z) == Some(26 * z + w + Addend(idx))
  {
    ProgShape(idx, w, z);
  }

  /** A pop piece whose test matches drops the last base-26 digit. */
  lemma PopMatchDrops(idx: nat, w: int, z: int)
    requires idx <= 13 && IsPop(idx)
    requires TMod(z, 26) + Offset(idx) == w
    ensures Prog(idx, w, z) == Some(TDiv(z, 26))
  {
    ProgShape(idx, w, z);
  }

  /** A pop piece whose test fails replaces the last base-26 digit. */
  lemma PopMismatchReplaces(idx: nat, w: int, z: int)
    requires idx <= 13 && IsPop(idx)
    requires TMod(z, 26) + Offset(idx) != w
    ensures Prog(idx, w, z) == Some(TDiv(z, 26) * 26 + w + Addend(idx))
  {
    ProgShape(idx, w, z);
  }

  /** Piece 12 compares `z % 26` with `w` directly. */
  lemma TwelveComparesDirectly(w: int, z: int)
    ensures Prog(12, w, z) == Some(
      TDiv(z, 26) * (if TMod(z, 26) != w then 26 else 1) + (if TMod(z, 26) != w then w + 12 else 0))
  {
  }

  /** With a digit and a non-negative `z`, every piece keeps `z` non-negative. */
  lemma ProgNonNegative(idx: nat, w: int, z: int)
    requires idx <= 13 && z >= 0 && 1 <= w <= 9
    ensures Prog(idx, w, z).value >= 0
  {
    ProgShape(idx, w, z);
  }

  /** As a stack of base-26 digits: after a push, the top digit is
      `w + addend` and the rest is the old `z`. */
  lemma PushIsStackPush(idx: nat, w: int, z: int)
    requires idx <= 13 && IsPush(idx) && z >= 0 && 1 <= w <= 9
    ensures TMod(Prog(idx, w, z).value, 26) == w + Addend(idx)
    ensures TDiv(Prog(idx, w, z).value, 26) == z
  {
    PushAppends(idx, w, z);
    var v := 26 * z + w + Addend(idx);
    assert 0 <= w + Addend(idx) < 26;
    assert v / 26 == z && v % 26 == w + Addend(idx) by {
      assert v == z * 26 + (w + Addend(idx));
    }
  }
}
