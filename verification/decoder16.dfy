/** `day-16/src/main.rs`, the parser as the source runs it: a `Chars`
    iterator over the bit string that `parse_*` advance one bit at a time, a
    shared `buffer` refilled for every field, and a `consumed` counter bumped
    by hand. Every method is proved against the decoder functions of
    `Day16`. */
module Day16Decoder {
  import opened Common
  import opened Day16

  /** A result paired with the position the decoder reached. */
  function WithPos<T>(r: Result<T, DecodeError>, pos: nat): Result<(T, nat), DecodeError>
  {
    match r
    case Ok(v) => Ok((v, pos))
    case Err(e) => Err(e)
  }

  /** `ps` in front of the packages of a result. */
  function Prepend(ps: seq<Package>, r: Result<(seq<Package>, nat), DecodeError>): Result<(seq<Package>, nat), DecodeError>
  {
    match r
    case Ok((qs, last)) => Ok((ps + qs, last))
    case Err(e) => Err(e)
  }

  lemma PrependTwice(ps: seq<Package>, p: Package, r: Result<(seq<Package>, nat), DecodeError>)
    ensures Prepend(ps, Prepend([p], r)) == Prepend(ps + [p], r)
  {
    if r.Ok? {
      AppendAssoc(ps, [p], r.value.0);
    }
  }

  lemma PrependNothing(r: Result<(seq<Package>, nat), DecodeError>)
    ensures Prepend([], r) == r
  {
    if r.Ok? {
      assert [] + r.value.0 == r.value.0;
    }
  }

  lemma PrependAll(ps: seq<Package>, pos: nat)
    ensures Prepend(ps, Ok(([], pos))) == Ok((ps, pos))
  {
    assert ps + [] == ps;
  }

  class Decoder {
    /** The bits of the input, `true` for `'1'`. */
    const bits: seq<bool>
    /** How many bits the iterator has handed out. */
    var pos: nat
    /** The counter the source keeps next to the iterator. */
    var consumed: nat
    /** The characters collected for the field being read. */
    var buffer: seq<bool>

    predicate Valid()
      reads this
    {
      pos <= |bits|
    }

    constructor(bits: seq<bool>)
      ensures Valid() && this.bits == bits && pos == 0 && consumed == 0 && buffer == []
    {
      this.bits := bits;
      pos := 0;
      consumed := 0;
      buffer := [];
    }

    /** `it.next()`: the next bit, or `None` when the bits are exhausted. */
    method Next() returns (c: Option<bool>)
      requires Valid()
      modifies this
      ensures Valid() && consumed == old(consumed) && buffer == old(buffer)
      ensures old(pos) < |bits| ==> c == Some(bits[old(pos)]) && pos == old(pos) + 1
      ensures old(pos) == |bits| ==> c.None? && pos == old(pos)
    {
      if pos < |bits| {
        c := Some(bits[pos]);
        pos := pos + 1;
      } else {
        c := None;
      }
    }

    /** Moves the next `width` bits of the input onto the buffer, one at a
        time; `false` where the input runs out and the source panics. */
    method Push(width: nat) returns (ok: bool)
      requires Valid()
      modifies this
      ensures Valid() && consumed == old(consumed)
      ensures ok <==> old(pos) + width <= |bits|
      ensures ok ==> pos == old(pos) + width && buffer == old(buffer) + bits[old(pos)..pos]
    {
      var i := 0;
      while i < width
        invariant Valid() && i <= width && pos == old(pos) + i && consumed == old(consumed)
        invariant buffer == old(buffer) + bits[old(pos)..pos]
      {
        var c := Next();
        if c.None? {
          return false;
        }
        assert bits[old(pos)..pos] == bits[old(pos)..pos - 1] + [c.value];
        AppendAssoc(old(buffer), bits[old(pos)..pos - 1], [c.value]);
        buffer := buffer + [c.value];
        i := i + 1;
      }
      return true;
    }

    /** `parse_literal`: groups of a continuation bit and four payload bits,
        `consumed` growing by 5 per group. */
    method ParseLiteral() returns (r: Result<nat, DecodeError>)
      requires Valid()
      modifies this
      ensures Valid()
      ensures WithPos(r, pos) == LiteralAt(bits, old(pos), [])
      ensures r.Ok? ==> consumed == old(consumed) + (pos - old(pos))
    {
      buffer := [];
      var keepGoing := true;
      while keepGoing
        invariant Valid() && old(pos) <= pos && consumed == old(consumed) + (pos - old(pos))
        invariant keepGoing ==> LiteralAt(bits, old(pos), []) == LiteralAt(bits, pos, buffer)
        invariant !keepGoing ==>
          LiteralAt(bits, old(pos), []) == (if BitsValue(buffer) < U64 then Ok((BitsValue(buffer), pos)) else Err(LiteralOverflow))
        decreases if keepGoing then |bits| - pos + 1 else 0
      {
        ghost var start, before := pos, buffer;
        var c := Next();
        if c.None? {
          return Err(OutOfBits);
        }
        keepGoing := c.value;
        var ok := Push(4);
        if !ok {
          return Err(OutOfBits);
        }
        assert buffer == before + bits[start + 1..start + 5];
        consumed := consumed + 5;
      }
      if BitsValue(buffer) < U64 {
        r := Ok(BitsValue(buffer));
      } else {
        r := Err(LiteralOverflow);
      }
    }

    /** `parse_package`: a 3-bit version and a 3-bit type id, `consumed`
        growing by 3 after each, then a literal for type 4 and an operator
        otherwise. */
    method ParsePackage() returns (r: Result<Package, DecodeError>)
      requires Valid()
      modifies this
      ensures Valid()
      ensures WithPos(r, pos) == PackageAt(bits, old(pos))
      ensures r.Ok? ==> consumed == old(consumed) + (pos - old(pos))
      decreases |bits| - pos, 1
    {
      buffer := [];
      var ok := Push(3);
      if !ok {
        return Err(OutOfBits);
      }
      assert buffer == bits[old(pos)..old(pos) + 3];
      consumed := consumed + 3;
      var version := BitsValue(buffer);
      buffer := [];
      ok := Push(3);
      if !ok {
        return Err(OutOfBits);
      }
      assert buffer == bits[old(pos) + 3..old(pos) + 6];
      consumed := consumed + 3;
      var typeId := BitsValue(buffer);
      assert Pow2(3) == 8;
      var op := OpOf(typeId);
      if op.None? {
        var number := ParseLiteral();
        match number
        case Err(e) => return Err(e);
        case Ok(n) => return Ok(Package(version, Literal(n)));
      } else {
        var packages := ParseOperator();
        match packages
        case Err(e) => return Err(e);
        case Ok(ps) => return Ok(Package(version, Operator(op.value, ps)));
      }
    }

    /** `parse_operator`: the length-type bit, the 15-bit length or 11-bit
        count (`consumed` growing by the field width plus one), then the
        sub-packets; in length mode the loop tests `consumed` against its
        value before the first sub-packet. */
    method ParseOperator() returns (r: Result<seq<Package>, DecodeError>)
      requires Valid()
      modifies this
      ensures Valid()
      ensures WithPos(r, pos) == OperatorAt(bits, old(pos))
      ensures r.Ok? ==> consumed == old(consumed) + (pos - old(pos))
      decreases |bits| - pos, 0
    {
      buffer := [];
      var c := Next();
      if c.None? {
        OperatorAtShort(bits, old(pos));
        return Err(OutOfBits);
      }
      var length := if !c.value then 15 else 11;
      var ok := Push(length);
      if !ok {
        OperatorAtShort(bits, old(pos));
        return Err(OutOfBits);
      }
      consumed := consumed + length + 1;
      assert buffer == bits[old(pos) + 1..old(pos) + 1 + length];
      var subPackages := BitsValue(buffer);
      var start := pos;
      if length == 11 {
        CountFrame(bits, old(pos), subPackages, CountChildren(bits, start, subPackages));
        r := ParseCount(subPackages);
      } else {
        LengthFrame(bits, old(pos), subPackages, start + subPackages, LengthChildren(bits, start, start + subPackages));
        r := ParseLength(subPackages);
      }
    }

    /** The count-mode loop of `parse_operator`: `n` sub-packets. */
    method ParseCount(n: nat) returns (r: Result<seq<Package>, DecodeError>)
      requires Valid()
      modifies this
      ensures Valid()
      ensures WithPos(r, pos) == CountChildren(bits, old(pos), n)
      ensures r.Ok? ==> consumed == old(consumed) + (pos - old(pos))
      decreases |bits| - pos, 2
    {
      var packages := [];
      PrependNothing(CountChildren(bits, pos, n));
      var i := 0;
      while i < n
        invariant Valid() && old(pos) <= pos && consumed == old(consumed) + (pos - old(pos))
        invariant i <= n
        invariant CountChildren(bits, old(pos), n) == Prepend(packages, CountChildren(bits, pos, n - i))
        decreases n - i
      {
        var p := ParsePackage();
        if p.Err? {
          return Err(p.error);
        }
        PrependTwice(packages, p.value, CountChildren(bits, pos, n - i - 1));
        packages := packages + [p.value];
        i := i + 1;
      }
      PrependAll(packages, pos);
      return Ok(packages);
    }

    /** The length-mode loop of `parse_operator`: sub-packets while
        `consumed` is below its value on entry plus `n`. */
    method ParseLength(n: nat) returns (r: Result<seq<Package>, DecodeError>)
      requires Valid()
      modifies this
      ensures Valid()
      ensures WithPos(r, pos) == LengthChildren(bits, old(pos), old(pos) + n)
      ensures r.Ok? ==> consumed == old(consumed) + (pos - old(pos))
      decreases |bits| - pos, 2
    {
      var packages := [];
      var before := consumed;
      PrependNothing(LengthChildren(bits, pos, pos + n));
      while consumed < before + n
        invariant Valid() && old(pos) <= pos && consumed == old(consumed) + (pos - old(pos))
        invariant before == old(consumed)
        invariant LengthChildren(bits, old(pos), old(pos) + n) == Prepend(packages, LengthChildren(bits, pos, old(pos) + n))
        decreases |bits| - pos
      {
        var p := ParsePackage();
        if p.Err? {
          return Err(p.error);
        }
        PrependTwice(packages, p.value, LengthChildren(bits, pos, old(pos) + n));
        packages := packages + [p.value];
      }
      PrependAll(packages, pos);
      return Ok(packages);
    }
  }

  /** `main`: the bits of the hexadecimal input, the first package, its
      version sum (part 1) and its value (part 2). */
  method Solve(input: string) returns (r: Result<(nat, Option<int>), DecodeError>)
    ensures r.Ok? <==> PackageAt(HexBits(input), 0).Ok?
    ensures r.Ok? ==> var p := PackageAt(HexBits(input), 0).value.0;
      r.value == (VersionSum(p), Evaluate(p))
  {
    var decoder := new Decoder(HexBits(input));
    var parsed := decoder.ParsePackage();
    match parsed
    case Err(e) => return Err(e);
    case Ok(p) => return Ok((VersionSum(p), Evaluate(p)));
  }
}
