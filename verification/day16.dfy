/** `day-16/src/main.rs`: the BITS packet decoder. The hexadecimal input is
    expanded to a string of bits; a packet is a 3-bit version, a 3-bit type
    and either a literal (5-bit groups) or an operator with sub-packets
    framed by a total bit length or by a sub-packet count. Bits are modelled
    as booleans, `true` standing for the character `'1'`. */
module Day16 {
  import opened Common

  datatype Op = Sum | Product | Max | Min | GreaterThan | LessThan | Eq

  datatype PackageType = Literal(number: nat) | Operator(op: Op, packages: seq<Package>)

  datatype Package = Package(version: nat, packageType: PackageType)

  /** The two ways the source panics while decoding: an `unwrap` on an
      exhausted bit iterator, and a literal that does not fit in a `u64`. */
  datatype DecodeError = OutOfBits | LiteralOverflow

  const U64: nat := 0x1_0000_0000_0000_0000

  lemma {:induction false} BitsValueAppend(a: seq<bool>, b: seq<bool>)
    ensures BitsValue(a + b) == BitsValue(a) * Pow2(|b|) + BitsValue(b)
    decreases |b|
  {
    if |b| == 0 {
      assert a + b == a;
    } else {
      var b' := b[..|b| - 1];
      var x := b[|b| - 1];
      assert a + b == (a + b') + [x];
      assert b == b' + [x];
      BitsValueSnoc(a + b', x);
      BitsValueSnoc(b', x);
      BitsValueAppend(a, b');
      var v, w, bx := BitsValue(a), Pow2(|b'|), if x then 1 else 0;
      assert Pow2(|b|) == 2 * w;
      calc {
        BitsValue(a + b);
        2 * BitsValue(a + b') + bx;
        2 * (v * w + BitsValue(b')) + bx;
        { MulDouble(v, w); }
        v * (2 * w) + (2 * BitsValue(b') + bx);
        v * Pow2(|b|) + BitsValue(b);
      }
    }
  }

  lemma MulDouble(v: int, w: int)
    ensures 2 * (v * w) == v * (2 * w)
  {
  }

  // ---------------------------------------------------------------------
  // Hexadecimal expansion

  /** `u32::from_str_radix(c, 16)` on a one-character string. */
  function HexValue(c: char): (r: Option<nat>)
    ensures r.Some? <==> '0' <= c <= '9' || 'a' <= c <= 'f' || 'A' <= c <= 'F'
    ensures r.Some? ==> r.value < 16
  {
    if '0' <= c <= '9' then Some(c as nat - '0' as nat)
    else if 'a' <= c <= 'f' then Some(c as nat - 'a' as nat + 10)
    else if 'A' <= c <= 'F' then Some(c as nat - 'A' as nat + 10)
    else None
  }

  /** `format!("{:04b}", n)`: four bits whose value is `n`. */
  function FourBits(n: nat): (b: seq<bool>)
    requires n < 16
    ensures |b| == 4 && BitsValue(b) == n
  {
    assert Pow2(4) == 16;
    Bits(n, 4)
  }

  /** The hexadecimal digits of the input, in order, with every other
      character skipped. */
  function HexDigits(s: string): (ds: seq<nat>)
    ensures forall i :: 0 <= i < |ds| ==> ds[i] < 16
  {
    if s == [] then []
    else (match HexValue(s[0]) case Some(n) => [n] case None => []) + HexDigits(s[1..])
  }

  /** The value of a sequence of hexadecimal digits, most significant first. */
  function NibblesValue(ds: seq<nat>): nat
  {
    if ds == [] then 0 else NibblesValue(ds[..|ds| - 1]) * 16 + ds[|ds| - 1]
  }

  /** The bit string `main` builds from the input text. */
  function HexBits(s: string): seq<bool>
  {
    if s == [] then []
    else (match HexValue(s[0]) case Some(n) => FourBits(n) case None => []) + HexBits(s[1..])
  }

  /** Every hexadecimal digit becomes exactly four bits, the other
      characters none, and the bit string spells the same number as the
      hexadecimal digits. */
  lemma {:induction false} HexBitsValue(s: string)
    ensures |HexBits(s)| == 4 * |HexDigits(s)|
    ensures BitsValue(HexBits(s)) == NibblesValue(HexDigits(s))
  {
    if s != [] {
      HexBitsValue(s[1..]);
      if HexValue(s[0]).None? {
        HexSkip(s);
      } else {
        HexDigitStep(s);
      }
    }
  }

  /** A character that is not a hexadecimal digit adds neither bits nor
      digits. */
  lemma HexSkip(s: string)
    requires s != [] && HexValue(s[0]).None?
    ensures HexBits(s) == HexBits(s[1..]) && HexDigits(s) == HexDigits(s[1..])
  {
    assert HexBits(s) == [] + HexBits(s[1..]);
    assert HexDigits(s) == [] + HexDigits(s[1..]);
  }

  /** A hexadecimal digit adds its four bits in front and its value as the
      leading digit, and both spell the same number. */
  lemma HexDigitStep(s: string)
    requires s != [] && HexValue(s[0]).Some?
    requires |HexBits(s[1..])| == 4 * |HexDigits(s[1..])|
    requires BitsValue(HexBits(s[1..])) == NibblesValue(HexDigits(s[1..]))
    ensures |HexBits(s)| == 4 * |HexDigits(s)|
    ensures BitsValue(HexBits(s)) == NibblesValue(HexDigits(s))
  {
    var n := HexValue(s[0]).value;
    var bits, digits := HexBits(s[1..]), HexDigits(s[1..]);
    assert HexBits(s) == FourBits(n) + bits;
    assert HexDigits(s) == [n] + digits;
    BitsValueAppend(FourBits(n), bits);
    NibblesValueAppend([n], digits);
    assert NibblesValue([n]) == n by {
      assert [n][..0] == [];
    }
    Pow2Times4(|digits|);
  }

  function Pow16(n: nat): nat
  {
    if n == 0 then 1 else 16 * Pow16(n - 1)
  }

  lemma {:induction false} Pow2Times4(n: nat)
    ensures Pow2(4 * n) == Pow16(n)
  {
    if n > 0 {
      Pow2Times4(n - 1);
      var m := 4 * (n - 1);
      assert Pow2(m + 4) == 2 * Pow2(m + 3) == 4 * Pow2(m + 2) == 8 * Pow2(m + 1) == 16 * Pow2(m);
    }
  }

  lemma {:induction false} NibblesValueAppend(a: seq<nat>, b: seq<nat>)
    ensures NibblesValue(a + b) == NibblesValue(a) * Pow16(|b|) + NibblesValue(b)
    decreases |b|
  {
    if |b| == 0 {
      assert a + b == a;
    } else {
      var b' := b[..|b| - 1];
      assert (a + b)[..|a + b| - 1] == a + b';
      NibblesValueAppend(a, b');
      ShiftNibble(NibblesValue(a), Pow16(|b'|), NibblesValue(b'), b[|b| - 1]);
    }
  }

  /** Shifting `x * p + y` by one hexadecimal digit and adding `d`. */
  lemma ShiftNibble(x: nat, p: nat, y: nat, d: nat)
    ensures (x * p + y) * 16 + d == x * (16 * p) + (y * 16 + d)
  {
  }

  // ---------------------------------------------------------------------
  // The decoder, as functions of the bit string and a position

  /** The opcode a 3-bit type id selects; type 4 is a literal. The enum
      lists Max before Min, but type 2 is Min and type 3 is Max. */
  function OpOf(typeId: nat): (r: Option<Op>)
    ensures r.None? <==> typeId == 4 || typeId >= 8
  {
    match typeId
    case 0 => Some(Sum)
    case 1 => Some(Product)
    case 2 => Some(Min)
    case 3 => Some(Max)
    case 5 => Some(GreaterThan)
    case 6 => Some(LessThan)
    case 7 => Some(Eq)
    case _ => None
  }

  /** The type id that selects an opcode. */
  function TypeId(op: Op): (t: nat)
    ensures t < 8 && t != 4 && OpOf(t) == Some(op)
  {
    match op
    case Sum => 0
    case Product => 1
    case Min => 2
    case Max => 3
    case GreaterThan => 5
    case LessThan => 6
    case Eq => 7
  }

  /** `parse_literal` from bit `pos`, with the payload bits read so far in
      `buffer`: each group is a continuation bit and four payload bits, and
      the literal is the value of all payloads together. */
  function LiteralAt(bits: seq<bool>, pos: nat, buffer: seq<bool>): (r: Result<(nat, nat), DecodeError>)
    requires pos <= |bits|
    ensures r.Ok? ==> pos + 5 <= r.value.1 <= |bits| && (r.value.1 - pos) % 5 == 0
    ensures r.Ok? ==> r.value.0 < U64
    decreases |bits| - pos
  {
    if pos + 5 > |bits| then Err(OutOfBits)
    else
      var buffer' := buffer + bits[pos + 1..pos + 5];
      if bits[pos] then LiteralAt(bits, pos + 5, buffer')
      else if BitsValue(buffer') < U64 then Ok((BitsValue(buffer'), pos + 5))
      else Err(LiteralOverflow)
  }

  /** `parse_package` from bit `pos`: the package and the position after it. */
  function PackageAt(bits: seq<bool>, pos: nat): (r: Result<(Package, nat), DecodeError>)
    requires pos <= |bits|
    ensures r.Ok? ==> pos + 6 <= r.value.1 <= |bits| && r.value.0.version < 8
    decreases |bits| - pos, 0
  {
    if pos + 6 > |bits| then Err(OutOfBits)
    else
      var version := BitsValue(bits[pos..pos + 3]);
      var typeId := BitsValue(bits[pos + 3..pos + 6]);
      assert Pow2(3) == 8;
      match OpOf(typeId)
      case None =>
        (match LiteralAt(bits, pos + 6, [])
         case Err(e) => Err(e)
         case Ok((number, next)) => Ok((Package(version, Literal(number)), next)))
      case Some(op) =>
        (match OperatorAt(bits, pos + 6)
         case Err(e) => Err(e)
         case Ok((packages, next)) => Ok((Package(version, Operator(op, packages)), next)))
  }

  /** `parse_operator` from bit `pos`: a `0` bit announces a 15-bit total
      length of the sub-packets, a `1` bit an 11-bit count of them. */
  function OperatorAt(bits: seq<bool>, pos: nat): (r: Result<(seq<Package>, nat), DecodeError>)
    requires pos <= |bits|
    ensures r.Ok? ==> pos + 12 <= r.value.1 <= |bits|
    decreases |bits| - pos, 0
  {
    if pos + 1 > |bits| then Err(OutOfBits)
    else
      var length := if bits[pos] then 11 else 15;
      if pos + 1 + length > |bits| then Err(OutOfBits)
      else
        var subPackages := BitsValue(bits[pos + 1..pos + 1 + length]);
        var start := pos + 1 + length;
        if length == 11 then CountChildren(bits, start, subPackages)
        else LengthChildren(bits, start, start + subPackages)
  }

  /** Count mode: exactly `n` packages, one after the other. */
  function CountChildren(bits: seq<bool>, pos: nat, n: nat): (r: Result<(seq<Package>, nat), DecodeError>)
    requires pos <= |bits|
    ensures r.Ok? ==> pos <= r.value.1 <= |bits| && |r.value.0| == n
    decreases |bits| - pos, 1, n
  {
    if n == 0 then Ok(([], pos))
    else
      match PackageAt(bits, pos)
      case Err(e) => Err(e)
      case Ok((p, next)) =>
        match CountChildren(bits, next, n - 1)
        case Err(e) => Err(e)
        case Ok((ps, last)) => Ok(([p] + ps, last))
  }

  /** Length mode: packages until the position reaches `end` (a package
      that runs past `end` is kept). */
  function LengthChildren(bits: seq<bool>, pos: nat, end: nat): (r: Result<(seq<Package>, nat), DecodeError>)
    requires pos <= |bits|
    ensures r.Ok? ==> pos <= r.value.1 <= |bits| && end <= r.value.1
    decreases |bits| - pos, 1
  {
    if pos >= end then Ok(([], pos))
    else
      match PackageAt(bits, pos)
      case Err(e) => Err(e)
      case Ok((p, next)) =>
        match LengthChildren(bits, next, end)
        case Err(e) => Err(e)
        case Ok((ps, last)) => Ok(([p] + ps, last))
  }

  // ---------------------------------------------------------------------
  // Version sum and evaluation

  /** `version_sum`: the versions of the package and of all its
      descendants. */
  function VersionSum(p: Package): nat
    decreases p
  {
    p.version + match p.packageType
      case Literal(_) => 0
      case Operator(_, packages) => VersionSums(packages)
  }

  function VersionSums(ps: seq<Package>): nat
    decreases ps
  {
    if ps == [] then 0 else VersionSum(ps[0]) + VersionSums(ps[1..])
  }

  /** The version sum of a list of packages is the sum of their version
      sums, as the source adds up the version sum of each package. */
  lemma {:induction false} VersionSumsIsSum(ps: seq<Package>)
    ensures VersionSums(ps) == Common.Sum(seq(|ps|, i requires 0 <= i < |ps| => VersionSum(ps[i]) as int))
  {
    var f := seq(|ps|, i requires 0 <= i < |ps| => VersionSum(ps[i]) as int);
    if ps != [] {
      VersionSumsIsSum(ps[1..]);
      var g := seq(|ps| - 1, i requires 0 <= i < |ps| - 1 => VersionSum(ps[1..][i]) as int);
      assert f[1..] == g;
      assert f == [f[0]] + g;
      SumCons(f[0], g);
    }
  }

  /** The test a comparison operator applies between the first sub-packet's
      value and each later one. */
  predicate Holds(op: Op, a: int, b: int)
  {
    match op
    case GreaterThan => a > b
    case LessThan => a < b
    case _ => a == b
  }

  predicate IsComparison(op: Op)
  {
    op == GreaterThan || op == LessThan || op == Eq
  }

  /** `evaluate`. It is `None` where the source panics: `min`, `max` or
      `next` on an operator without sub-packets. As with `Iterator::all`, a
      comparison stops evaluating at the first later sub-packet that fails
      the test. */
  function Evaluate(p: Package): (r: Option<int>)
    ensures p.packageType.Operator? && IsComparison(p.packageType.op) && r.Some? ==> 0 <= r.value <= 1
    decreases p
  {
    match p.packageType
    case Literal(number) => Some(number)
    case Operator(op, packages) =>
      if IsComparison(op) then
        if packages == [] then None
        else
          match Evaluate(packages[0])
          case None => None
          case Some(first) =>
            match AllHold(op, first, packages[1..])
            case None => None
            case Some(b) => Some(if b then 1 else 0)
      else
        match EvaluateAll(packages)
        case None => None
        case Some(values) => Fold(op, values)
  }

  /** The values of all sub-packets, or `None` if one of them panics. */
  function EvaluateAll(ps: seq<Package>): (r: Option<seq<int>>)
    ensures r.Some? ==> |r.value| == |ps|
    decreases ps
  {
    if ps == [] then Some([])
    else
      match Evaluate(ps[0])
      case None => None
      case Some(v) =>
        match EvaluateAll(ps[1..])
        case None => None
        case Some(vs) => Some([v] + vs)
  }

  /** Whether the first value compares by `op` with every later sub-packet's
      value, evaluating them lazily and stopping at the first that fails. */
  function AllHold(op: Op, first: int, rest: seq<Package>): (r: Option<bool>)
    decreases rest
  {
    if rest == [] then Some(true)
    else
      match Evaluate(rest[0])
      case None => None
      case Some(v) => if Holds(op, first, v) then AllHold(op, first, rest[1..]) else Some(false)
  }

  /** Sum, product, minimum and maximum of the sub-packets' values; the last
      two have no value for an empty list, where the source panics. */
  function Fold(op: Op, values: seq<int>): (r: Option<int>)
    requires !IsComparison(op)
    ensures r.None? <==> values == [] && (op == Min || op == Max)
    ensures op == Min && r.Some? ==> r.value in values && forall v :: v in values ==> r.value <= v
    ensures op == Max && r.Some? ==> r.value in values && forall v :: v in values ==> r.value >= v
  {
    match op
    case Sum => Some(Common.Sum(values))
    case Product => Some(Common.Product(values))
    case Min => if values == [] then None else Some(SeqMin(values))
    case Max => if values == [] then None else Some(SeqMax(values))
  }

  function SeqMin(vs: seq<int>): (m: int)
    requires vs != []
    ensures m in vs && forall v :: v in vs ==> m <= v
  {
    assert vs == [vs[0]] + vs[1..];
    if |vs| == 1 then vs[0] else Common.Min(vs[0], SeqMin(vs[1..]))
  }

  function SeqMax(vs: seq<int>): (m: int)
    requires vs != []
    ensures m in vs && forall v :: v in vs ==> m >= v
  {
    assert vs == [vs[0]] + vs[1..];
    if |vs| == 1 then vs[0] else Common.Max(vs[0], SeqMax(vs[1..]))
  }

  /** When every sub-packet has a value, a comparison is 1 exactly when the
      first value passes the test against every later one. */
  lemma ComparisonMeaning(p: Package, values: seq<int>)
    requires p.packageType.Operator? && IsComparison(p.packageType.op)
    requires EvaluateAll(p.packageType.packages) == Some(values) && values != []
    ensures Evaluate(p) == Some(if forall i :: 1 <= i < |values| ==> Holds(p.packageType.op, values[0], values[i]) then 1 else 0)
  {
    var ps := p.packageType.packages;
    EvaluateAllParts(ps, values);
    AllHoldMeaning(p.packageType.op, values[0], ps[1..], values[1..]);
    if forall i :: 1 <= i < |values| ==> Holds(p.packageType.op, values[0], values[i]) {
      assert forall j :: 0 <= j < |values[1..]| ==> Holds(p.packageType.op, values[0], values[1..][j]) by {
        forall j | 0 <= j < |values[1..]| ensures Holds(p.packageType.op, values[0], values[1..][j]) {
          assert values[1..][j] == values[j + 1];
        }
      }
    } else {
      var i :| 1 <= i < |values| && !Holds(p.packageType.op, values[0], values[i]);
      assert values[1..][i - 1] == values[i];
    }
  }

  lemma {:induction false} EvaluateAllParts(ps: seq<Package>, values: seq<int>)
    requires EvaluateAll(ps) == Some(values) && ps != []
    ensures Evaluate(ps[0]) == Some(values[0]) && EvaluateAll(ps[1..]) == Some(values[1..])
  {
  }

  lemma {:induction false} AllHoldMeaning(op: Op, first: int, rest: seq<Package>, values: seq<int>)
    requires EvaluateAll(rest) == Some(values)
    ensures AllHold(op, first, rest) == Some(forall j :: 0 <= j < |values| ==> Holds(op, first, values[j]))
    decreases rest
  {
    if rest != [] {
      EvaluateAllParts(rest, values);
      AllHoldMeaning(op, first, rest[1..], values[1..]);
      if Holds(op, first, values[0]) {
        if !(forall j :: 0 <= j < |values[1..]| ==> Holds(op, first, values[1..][j])) {
          var j :| 0 <= j < |values[1..]| && !Holds(op, first, values[1..][j]);
          assert values[1..][j] == values[j + 1];
        } else {
          forall j | 0 <= j < |values| ensures Holds(op, first, values[j]) {
            if j > 0 { assert values[j] == values[1..][j - 1]; }
          }
        }
      }
    }
  }

  /** The comparison stops early: `5 > 7` fails before the third
      sub-packet, a `min` without sub-packets that would panic, is reached. */
  lemma ComparisonIsLazy()
    ensures Evaluate(Package(0, Operator(GreaterThan, [
      Package(0, Literal(5)), Package(0, Literal(7)), Package(0, Operator(Min, []))]))) == Some(0)
    ensures Evaluate(Package(0, Operator(Min, []))) == None
  {
    var ps := [Package(0, Literal(5)), Package(0, Literal(7)), Package(0, Operator(Min, []))];
    assert ps[1..][0] == Package(0, Literal(7));
  }

  // ---------------------------------------------------------------------
  // Encoding, the inverse of decoding

  /** The low `width` bits of `v`, most significant first. */
  function Bits(v: nat, width: nat): (b: seq<bool>)
    ensures |b| == width
    ensures v < Pow2(width) ==> BitsValue(b) == v
  {
    if width == 0 then []
    else
      var b := Bits(v / 2, width - 1) + [v % 2 == 1];
      BitsValueSnoc(Bits(v / 2, width - 1), v % 2 == 1);
      b
  }

  /** The hexadecimal digits of `n`, most significant first, without
      leading zeros (a single 0 for zero). */
  function Nibbles(n: nat): (ds: seq<nat>)
    ensures ds != [] && NibblesValue(ds) == n
    ensures forall i :: 0 <= i < |ds| ==> ds[i] < 16
  {
    if n < 16 then [n]
    else
      var ds := Nibbles(n / 16) + [n % 16];
      assert ds[..|ds| - 1] == Nibbles(n / 16);
      ds
  }

  /** The four-bit payloads of a sequence of nibbles, concatenated. */
  function NibbleBits(ds: seq<nat>): (b: seq<bool>)
    requires forall i :: 0 <= i < |ds| ==> ds[i] < 16
    ensures |b| == 4 * |ds|
  {
    if ds == [] then [] else FourBits(ds[0]) + NibbleBits(ds[1..])
  }

  /** Literal groups: a continuation bit (set on all but the last group)
      and four payload bits each. */
  function LiteralGroups(ds: seq<nat>): (b: seq<bool>)
    requires forall i :: 0 <= i < |ds| ==> ds[i] < 16
    ensures |b| == 5 * |ds|
  {
    if ds == [] then [] else [|ds| > 1] + (FourBits(ds[0]) + LiteralGroups(ds[1..]))
  }

  /** The bits of a package. `useCount` picks, for every operator, the
      count framing (`true`) or the length framing (`false`). */
  function Encode(p: Package, useCount: bool): (b: seq<bool>)
    ensures |b| >= 6
    decreases p, 1
  {
    Bits(p.version, 3) + Payload(p, useCount)
  }

  /** The bits after the version: the type id, then the literal groups or
      the framing field and the sub-packets. */
  function Payload(p: Package, useCount: bool): (b: seq<bool>)
    ensures |b| >= 3
    decreases p, 0
  {
    match p.packageType
    case Literal(n) => Bits(4, 3) + LiteralGroups(Nibbles(n))
    case Operator(op, packages) =>
      Bits(TypeId(op), 3) + (Frame(packages, useCount) + EncodeAll(packages, useCount))
  }

  /** The length-type bit and the 11-bit count or the 15-bit length. */
  function Frame(packages: seq<Package>, useCount: bool): (b: seq<bool>)
    ensures |b| == if useCount then 12 else 16
    decreases packages, 1
  {
    if useCount then [true] + Bits(|packages|, 11)
    else [false] + Bits(|EncodeAll(packages, useCount)|, 15)
  }

  function EncodeAll(ps: seq<Package>, useCount: bool): seq<bool>
    decreases ps, 0
  {
    if ps == [] then [] else Encode(ps[0], useCount) + EncodeAll(ps[1..], useCount)
  }

  /** What an encodable package looks like: versions fit in 3 bits,
      literals in a `u64`, and the framing field of every operator in its
      11 or 15 bits. */
  predicate WellFormed(p: Package, useCount: bool)
    decreases p
  {
    p.version < 8 &&
    match p.packageType
    case Literal(n) => n < U64
    case Operator(_, packages) =>
      (if useCount then |packages| < Pow2(11) else |EncodeAll(packages, useCount)| < Pow2(15))
      && AllWellFormed(packages, useCount)
  }

  predicate AllWellFormed(ps: seq<Package>, useCount: bool)
    decreases ps
  {
    ps == [] || (WellFormed(ps[0], useCount) && AllWellFormed(ps[1..], useCount))
  }

  /** `e` occurs in `bits` at `pos`, stated bit by bit. */
  predicate At(bits: seq<bool>, pos: nat, e: seq<bool>)
    decreases |e|
  {
    pos + |e| <= |bits| && (e == [] || (bits[pos] == e[0] && At(bits, pos + 1, e[1..])))
  }

  lemma {:induction false} AtSlice(bits: seq<bool>, pos: nat, e: seq<bool>)
    requires At(bits, pos, e)
    ensures bits[pos..pos + |e|] == e
    decreases |e|
  {
    if e != [] {
      AtSlice(bits, pos + 1, e[1..]);
      assert bits[pos..pos + |e|] == [bits[pos]] + bits[pos + 1..pos + |e|];
      assert e == [e[0]] + e[1..];
    }
  }

  lemma {:induction false} SliceAt(bits: seq<bool>, pos: nat, e: seq<bool>)
    requires pos + |e| <= |bits| && bits[pos..pos + |e|] == e
    ensures At(bits, pos, e)
    decreases |e|
  {
    if e != [] {
      assert bits[pos] == e[0];
      assert bits[pos + 1..pos + |e|] == e[1..];
      SliceAt(bits, pos + 1, e[1..]);
    }
  }

  lemma {:induction false} AtSplit(bits: seq<bool>, pos: nat, a: seq<bool>, b: seq<bool>)
    requires At(bits, pos, a + b)
    ensures At(bits, pos, a) && At(bits, pos + |a|, b)
    decreases |a|
  {
    if a == [] {
      assert a + b == b;
    } else {
      assert (a + b)[0] == a[0];
      assert (a + b)[1..] == a[1..] + b;
      AtSplit(bits, pos + 1, a[1..], b);
    }
  }

  lemma {:induction false} NibbleBitsValue(ds: seq<nat>)
    requires forall i :: 0 <= i < |ds| ==> ds[i] < 16
    ensures BitsValue(NibbleBits(ds)) == NibblesValue(ds)
    decreases |ds|
  {
    if ds != [] {
      var init := ds[..|ds| - 1];
      NibbleBitsSnoc(init, ds[|ds| - 1]);
      assert init + [ds[|ds| - 1]] == ds;
      NibbleBitsValue(init);
      BitsValueAppend(NibbleBits(init), FourBits(ds[|ds| - 1]));
      assert Pow2(4) == 16;
    }
  }

  lemma {:induction false} NibbleBitsSnoc(ds: seq<nat>, d: nat)
    requires forall i :: 0 <= i < |ds| ==> ds[i] < 16
    requires d < 16
    ensures NibbleBits(ds + [d]) == NibbleBits(ds) + FourBits(d)
    decreases |ds|
  {
    if ds == [] {
      assert NibbleBits([d]) == FourBits(d) + NibbleBits([]);
    } else {
      assert (ds + [d])[1..] == ds[1..] + [d];
      NibbleBitsSnoc(ds[1..], d);
    }
  }

  /** A field written with `Bits` reads back as its value. */
  lemma AtValue(bits: seq<bool>, pos: nat, v: nat, width: nat)
    requires At(bits, pos, Bits(v, width)) && v < Pow2(width)
    ensures pos + width <= |bits| && BitsValue(bits[pos..pos + width]) == v
  {
    AtSlice(bits, pos, Bits(v, width));
  }

  /** A field written with `Bits`, followed by `rest`. */
  lemma FieldThen(bits: seq<bool>, pos: nat, v: nat, width: nat, rest: seq<bool>, next: nat)
    requires At(bits, pos, Bits(v, width) + rest) && v < Pow2(width) && next == pos + width
    ensures next <= |bits| && BitsValue(bits[pos..next]) == v
    ensures At(bits, next, rest)
  {
    AtSplit(bits, pos, Bits(v, width), rest);
    AtValue(bits, pos, v, width);
  }

  /** Decoding literal groups adds their payloads to the buffer: starting
      from `buffer`, the literal read is the value of `payload`, the buffer
      followed by the payloads of all groups. */
  lemma {:induction false} LiteralRoundTrip(bits: seq<bool>, pos: nat, buffer: seq<bool>, ds: seq<nat>,
                                            payload: seq<bool>)
    requires forall i :: 0 <= i < |ds| ==> ds[i] < 16
    requires ds != [] && At(bits, pos, LiteralGroups(ds))
    requires payload == buffer + NibbleBits(ds) && BitsValue(payload) < U64
    ensures LiteralAt(bits, pos, buffer) == Ok((BitsValue(payload), pos + 5 * |ds|))
    decreases |ds|, 1
  {
    LiteralHead(bits, pos, buffer, ds);
    if |ds| > 1 {
      LiteralRoundTripMore(bits, pos, buffer, ds, payload);
    } else {
      LiteralLastThen(bits, pos, buffer, ds);
    }
  }

  /** The step of `LiteralRoundTrip` past a group whose lead bit is 1. */
  lemma {:induction false} LiteralRoundTripMore(bits: seq<bool>, pos: nat, buffer: seq<bool>, ds: seq<nat>,
                                                payload: seq<bool>)
    requires forall i :: 0 <= i < |ds| ==> ds[i] < 16
    requires |ds| > 1 && pos + 5 <= |bits| && bits[pos] && bits[pos + 1..pos + 5] == FourBits(ds[0])
    requires At(bits, pos + 5, LiteralGroups(ds[1..]))
    requires payload == (buffer + FourBits(ds[0])) + NibbleBits(ds[1..]) && BitsValue(payload) < U64
    ensures LiteralAt(bits, pos, buffer) == Ok((BitsValue(payload), pos + 5 * |ds|))
    decreases |ds|, 0
  {
    var group := FourBits(ds[0]);
    LiteralRoundTrip(bits, pos + 5, buffer + group, ds[1..], payload);
    LiteralMore(bits, pos, buffer, group);
  }

  /** The first group of encoded literal digits: its continuation bit, its
      payload, and the groups after it. */
  lemma LiteralHead(bits: seq<bool>, pos: nat, buffer: seq<bool>, ds: seq<nat>)
    requires forall i :: 0 <= i < |ds| ==> ds[i] < 16
    requires ds != [] && At(bits, pos, LiteralGroups(ds))
    ensures pos + 5 <= |bits| && bits[pos] == (|ds| > 1) && bits[pos + 1..pos + 5] == FourBits(ds[0])
    ensures At(bits, pos + 5, LiteralGroups(ds[1..]))
    ensures buffer + NibbleBits(ds) == (buffer + FourBits(ds[0])) + NibbleBits(ds[1..])
  {
    var more := |ds| > 1;
    var rest := LiteralGroups(ds[1..]);
    var group := FourBits(ds[0]);
    AtSplit(bits, pos, [more], group + rest);
    AtSplit(bits, pos + 1, group, rest);
    AtHead(bits, pos, [more]);
    AtSlice(bits, pos + 1, group);
    AppendAssoc(buffer, group, NibbleBits(ds[1..]));
  }

  /** The last group of a literal ends it. */
  lemma LiteralLastThen(bits: seq<bool>, pos: nat, buffer: seq<bool>, ds: seq<nat>)
    requires |ds| == 1 && ds[0] < 16
    requires pos + 5 <= |bits| && !bits[pos] && bits[pos + 1..pos + 5] == FourBits(ds[0])
    requires BitsValue(buffer + NibbleBits(ds)) < U64
    ensures LiteralAt(bits, pos, buffer) == Ok((BitsValue(buffer + NibbleBits(ds)), pos + 5 * |ds|))
  {
    assert NibbleBits(ds) == FourBits(ds[0]) + NibbleBits([]);
    assert NibbleBits(ds) == FourBits(ds[0]);
    LiteralLast(bits, pos, buffer, FourBits(ds[0]));
  }

  lemma AtHead(bits: seq<bool>, pos: nat, e: seq<bool>)
    requires At(bits, pos, e) && e != []
    ensures pos < |bits| && bits[pos] == e[0]
  {
  }

  lemma LiteralMore(bits: seq<bool>, pos: nat, buffer: seq<bool>, group: seq<bool>)
    requires pos + 5 <= |bits| && bits[pos] && bits[pos + 1..pos + 5] == group
    ensures LiteralAt(bits, pos, buffer) == LiteralAt(bits, pos + 5, buffer + group)
  {
  }

  lemma LiteralLast(bits: seq<bool>, pos: nat, buffer: seq<bool>, group: seq<bool>)
    requires pos + 5 <= |bits| && !bits[pos] && bits[pos + 1..pos + 5] == group
    requires BitsValue(buffer + group) < U64
    ensures LiteralAt(bits, pos, buffer) == Ok((BitsValue(buffer + group), pos + 5))
  {
  }

  lemma PackageAtLiteral(bits: seq<bool>, pos: nat, number: nat, next: nat)
    requires pos + 6 <= |bits| && BitsValue(bits[pos + 3..pos + 6]) == 4
    requires LiteralAt(bits, pos + 6, []) == Ok((number, next))
    ensures PackageAt(bits, pos) == Ok((Package(BitsValue(bits[pos..pos + 3]), Literal(number)), next))
  {
  }

  lemma PackageAtOperator(bits: seq<bool>, pos: nat, op: Op, packages: seq<Package>, next: nat)
    requires pos + 6 <= |bits| && BitsValue(bits[pos + 3..pos + 6]) == TypeId(op)
    requires OperatorAt(bits, pos + 6) == Ok((packages, next))
    ensures PackageAt(bits, pos) == Ok((Package(BitsValue(bits[pos..pos + 3]), Operator(op, packages)), next))
  {
  }

  lemma CountStep(bits: seq<bool>, pos: nat, n: nat, ps: seq<Package>, next: nat, last: nat)
    requires pos <= next <= |bits| && n > 0 && ps != []
    requires PackageAt(bits, pos) == Ok((ps[0], next)) && CountChildren(bits, next, n - 1) == Ok((ps[1..], last))
    ensures CountChildren(bits, pos, n) == Ok((ps, last))
  {
    assert [ps[0]] + ps[1..] == ps;
  }

  lemma LengthStep(bits: seq<bool>, pos: nat, end: nat, ps: seq<Package>, next: nat, last: nat)
    requires pos <= next <= |bits| && pos < end && ps != []
    requires PackageAt(bits, pos) == Ok((ps[0], next)) && LengthChildren(bits, next, end) == Ok((ps[1..], last))
    ensures LengthChildren(bits, pos, end) == Ok((ps, last))
  {
    assert [ps[0]] + ps[1..] == ps;
  }

  /** `parse_operator` panics when the bits end before its framing
      field is complete. */
  lemma OperatorAtShort(bits: seq<bool>, pos: nat)
    requires pos <= |bits|
    requires pos == |bits| || pos + 1 + (if bits[pos] then 11 else 15) > |bits|
    ensures OperatorAt(bits, pos) == Err(OutOfBits)
  {
  }

  lemma CountFrame(bits: seq<bool>, pos: nat, n: nat, r: Result<(seq<Package>, nat), DecodeError>)
    requires pos + 12 <= |bits| && bits[pos] && BitsValue(bits[pos + 1..pos + 12]) == n
    requires CountChildren(bits, pos + 12, n) == r
    ensures OperatorAt(bits, pos) == r
  {
  }

  lemma LengthFrame(bits: seq<bool>, pos: nat, n: nat, end: nat, r: Result<(seq<Package>, nat), DecodeError>)
    requires pos + 16 <= |bits| && !bits[pos] && BitsValue(bits[pos + 1..pos + 16]) == n
    requires end == pos + 16 + n && LengthChildren(bits, pos + 16, end) == r
    ensures OperatorAt(bits, pos) == r
  {
  }

  /** Decoding the bits of a well-formed package gives the package back and
      stops right after its bits. */
  lemma {:induction false} RoundTrip(bits: seq<bool>, pos: nat, p: Package, useCount: bool, end: nat)
    requires WellFormed(p, useCount) && At(bits, pos, Encode(p, useCount))
    requires end == pos + |Encode(p, useCount)|
    ensures PackageAt(bits, pos) == Ok((p, end))
    decreases p, 1
  {
    var payload := Payload(p, useCount);
    assert Pow2(3) == 8;
    FieldThen(bits, pos, p.version, 3, payload, pos + 3);
    assert end == pos + 3 + |payload|;
    if p.packageType.Literal? {
      LiteralPackageRoundTrip(bits, pos, p.version, p.packageType.number, end);
    } else {
      OperatorPackageRoundTrip(bits, pos, p.version, p.packageType.op, p.packageType.packages, useCount, end);
    }
  }

  /** A literal package after its version field. */
  lemma LiteralPackageRoundTrip(bits: seq<bool>, pos: nat, version: nat, n: nat, end: nat)
    requires pos + 6 <= |bits| && BitsValue(bits[pos..pos + 3]) == version && n < U64
    requires At(bits, pos + 3, Bits(4, 3) + LiteralGroups(Nibbles(n)))
    requires end == pos + 6 + |LiteralGroups(Nibbles(n))|
    ensures PackageAt(bits, pos) == Ok((Package(version, Literal(n)), end))
  {
    var ds := Nibbles(n);
    var groups := LiteralGroups(ds);
    assert Pow2(3) == 8;
    FieldThen(bits, pos + 3, 4, 3, groups, pos + 6);
    LiteralDecodes(bits, pos + 6, n, end);
    PackageAtLiteral(bits, pos, n, end);
  }

  /** The literal groups of `n` read back as `n`. */
  lemma LiteralDecodes(bits: seq<bool>, pos: nat, n: nat, end: nat)
    requires n < U64 && At(bits, pos, LiteralGroups(Nibbles(n)))
    requires end == pos + |LiteralGroups(Nibbles(n))|
    ensures LiteralAt(bits, pos, []) == Ok((n, end))
  {
    var ds := Nibbles(n);
    NibbleBitsValue(ds);
    assert [] + NibbleBits(ds) == NibbleBits(ds);
    LiteralRoundTrip(bits, pos, [], ds, NibbleBits(ds));
  }

  /** An operator package after its version field. */
  lemma {:induction false} OperatorPackageRoundTrip(bits: seq<bool>, pos: nat, version: nat, op: Op,
                                                    packages: seq<Package>, useCount: bool, end: nat)
    requires AllWellFormed(packages, useCount)
    requires useCount ==> |packages| < Pow2(11)
    requires !useCount ==> |EncodeAll(packages, useCount)| < Pow2(15)
    requires pos + 6 <= |bits| && BitsValue(bits[pos..pos + 3]) == version
    requires At(bits, pos + 3, Bits(TypeId(op), 3) + (Frame(packages, useCount) + EncodeAll(packages, useCount)))
    requires end == pos + 6 + |Frame(packages, useCount)| + |EncodeAll(packages, useCount)|
    ensures PackageAt(bits, pos) == Ok((Package(version, Operator(op, packages)), end))
    decreases packages, 3
  {
    assert Pow2(3) == 8;
    FieldThen(bits, pos + 3, TypeId(op), 3, Frame(packages, useCount) + EncodeAll(packages, useCount), pos + 6);
    OperatorRoundTrip(bits, pos + 6, packages, useCount, end);
    PackageAtOperator(bits, pos, op, packages, end);
  }

  lemma {:induction false} OperatorRoundTrip(bits: seq<bool>, pos: nat, packages: seq<Package>, useCount: bool, end: nat)
    requires AllWellFormed(packages, useCount)
    requires useCount ==> |packages| < Pow2(11)
    requires !useCount ==> |EncodeAll(packages, useCount)| < Pow2(15)
    requires At(bits, pos, Frame(packages, useCount) + EncodeAll(packages, useCount))
    requires end == pos + |Frame(packages, useCount)| + |EncodeAll(packages, useCount)|
    ensures OperatorAt(bits, pos) == Ok((packages, end))
    decreases packages, 2
  {
    FrameAt(bits, pos, packages, useCount);
    if useCount {
      CountRoundTrip(bits, pos + 12, packages, useCount, |packages|, end);
      CountFrame(bits, pos, |packages|, Ok((packages, end)));
    } else {
      var n := |EncodeAll(packages, useCount)|;
      LengthRoundTrip(bits, pos + 16, packages, useCount, end);
      LengthFrame(bits, pos, n, end, Ok((packages, end)));
    }
  }

  /** The framing of an operator reads back as the mode bit and the count or
      length, and the sub-packets follow it. */
  lemma FrameAt(bits: seq<bool>, pos: nat, packages: seq<Package>, useCount: bool)
    requires useCount ==> |packages| < Pow2(11)
    requires !useCount ==> |EncodeAll(packages, useCount)| < Pow2(15)
    requires At(bits, pos, Frame(packages, useCount) + EncodeAll(packages, useCount))
    ensures useCount ==>
      (pos + 12 <= |bits| && bits[pos] && BitsValue(bits[pos + 1..pos + 12]) == |packages|
       && At(bits, pos + 12, EncodeAll(packages, useCount)))
    ensures !useCount ==>
      (pos + 16 <= |bits| && !bits[pos] && BitsValue(bits[pos + 1..pos + 16]) == |EncodeAll(packages, useCount)|
       && At(bits, pos + 16, EncodeAll(packages, useCount)))
  {
    var body := EncodeAll(packages, useCount);
    var length := if useCount then 11 else 15;
    var n := if useCount then |packages| else |body|;
    var field := Bits(n, length);
    assert Frame(packages, useCount) == [useCount] + field;
    AppendAssoc([useCount], field, body);
    AtSplit(bits, pos, [useCount], field + body);
    AtHead(bits, pos, [useCount]);
    FieldThen(bits, pos + 1, n, length, body, pos + 1 + length);
  }

  /** The bits of the first sub-packet and of the others, in a row. */
  lemma AtEncodeAll(bits: seq<bool>, pos: nat, ps: seq<Package>, useCount: bool)
    requires ps != [] && At(bits, pos, EncodeAll(ps, useCount)) && AllWellFormed(ps, useCount)
    ensures At(bits, pos, Encode(ps[0], useCount))
    ensures At(bits, pos + |Encode(ps[0], useCount)|, EncodeAll(ps[1..], useCount))
    ensures |EncodeAll(ps, useCount)| == |Encode(ps[0], useCount)| + |EncodeAll(ps[1..], useCount)|
    ensures WellFormed(ps[0], useCount) && AllWellFormed(ps[1..], useCount)
  {
    AtSplit(bits, pos, Encode(ps[0], useCount), EncodeAll(ps[1..], useCount));
  }

  lemma {:induction false} CountRoundTrip(bits: seq<bool>, pos: nat, packages: seq<Package>, useCount: bool, n: nat, end: nat)
    requires AllWellFormed(packages, useCount) && At(bits, pos, EncodeAll(packages, useCount))
    requires n == |packages| && end == pos + |EncodeAll(packages, useCount)|
    ensures CountChildren(bits, pos, n) == Ok((packages, end))
    decreases packages, 0
  {
    if packages != [] {
      var first := Encode(packages[0], useCount);
      var rest := packages[1..];
      var next := pos + |first|;
      AtEncodeAll(bits, pos, packages, useCount);
      assert end == next + |EncodeAll(rest, useCount)|;
      CountRoundTrip(bits, next, rest, useCount, n - 1, end);
      RoundTrip(bits, pos, packages[0], useCount, next);
      CountStep(bits, pos, n, packages, next, end);
    }
  }

  lemma {:induction false} LengthRoundTrip(bits: seq<bool>, pos: nat, packages: seq<Package>, useCount: bool, end: nat)
    requires AllWellFormed(packages, useCount) && At(bits, pos, EncodeAll(packages, useCount))
    requires end == pos + |EncodeAll(packages, useCount)|
    ensures LengthChildren(bits, pos, end) == Ok((packages, end))
    decreases packages, 0
  {
    if packages != [] {
      var first := Encode(packages[0], useCount);
      var rest := packages[1..];
      var next := pos + |first|;
      AtEncodeAll(bits, pos, packages, useCount);
      assert end == next + |EncodeAll(rest, useCount)|;
      LengthRoundTrip(bits, next, rest, useCount, end);
      RoundTrip(bits, pos, packages[0], useCount, next);
      LengthStep(bits, pos, end, packages, next, end);
    }
  }

  /** Decoding the bits of a well-formed package, in either framing, gives
      the package back. */
  lemma DecodeEncode(p: Package, useCount: bool)
    requires WellFormed(p, useCount)
    ensures PackageAt(Encode(p, useCount), 0) == Ok((p, |Encode(p, useCount)|))
  {
    var e := Encode(p, useCount);
    assert e[0..|e|] == e;
    SliceAt(e, 0, e);
    RoundTrip(e, 0, p, useCount, |e|);
  }
}
