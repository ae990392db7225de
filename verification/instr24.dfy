/** The ALU instruction language of day 24: six opcodes over four registers,
    and a hand-written recursive-descent parser with the grammar of the
    combinator parser in day-24/src/instruction.rs. Parsing works on
    suffixes of the input text: every parser returns the text it left. */
module Instr24 {
  import opened Common

  datatype Operand = Literal(value: int) | Register(name: char)

  datatype Instruction =
    | Input(reg: char)
    | Mod(a: Operand, b: Operand)
    | Div(a: Operand, b: Operand)
    | Add(a: Operand, b: Operand)
    | Mul(a: Operand, b: Operand)
    | Eql(a: Operand, b: Operand)

  /** The parse failure; `position` is the offset of the instruction the
      parser could not accept. */
  datatype ParseError = ParseError(position: nat)

  /** What one grammar alternative did: recognised a value, did not apply
      (nothing consumed), or failed after committing to a keyword. */
  datatype Parsed<T> = Parsed(value: T, rest: string) | NoMatch | Failed(at: string)

  predicate IsLetter(c: char) { 'a' <= c <= 'z' || 'A' <= c <= 'Z' }

  predicate IsSpace(c: char) { c == ' ' || c == '\t' || c == '\n' || c == '\r' }

  predicate IsSuffix(t: string, s: string) { |t| <= |s| && t == s[|s| - |t|..] }

  /** `spaces()`: skips zero or more whitespace characters. */
  function SkipSpaces(s: string): (rest: string)
    ensures |rest| <= |s|
    ensures IsSuffix(rest, s)
    ensures forall i :: 0 <= i < |s| - |rest| ==> IsSpace(s[i])
    ensures rest == [] || !IsSpace(rest[0])
  {
    if s != [] && IsSpace(s[0]) then SkipSpaces(s[1..]) else s
  }

  /** `many(digit())`: the longest prefix of decimal digits. */
  function TakeDigits(s: string): (d: string)
    ensures d <= s
    ensures forall i :: 0 <= i < |d| ==> IsDigit(d[i])
    ensures |d| == |s| || !IsDigit(s[|d|])
  {
    if s != [] && IsDigit(s[0]) then [s[0]] + TakeDigits(s[1..]) else []
  }

  /** An operand: a letter is a register; an optional `-` followed by one or
      more digits is a literal with that signed value. */
  function ParseOperand(s: string): (r: Option<(Operand, string)>)
    ensures r.Some? ==> |r.value.1| < |s|
  {
    if s != [] && IsLetter(s[0]) then Some((Register(s[0]), s[1..]))
    else
      var neg := s != [] && s[0] == '-';
      var t := if neg then s[1..] else s;
      var d := TakeDigits(t);
      if d == [] then None
      else
        var v: int := DigitsValue(d);
        Some((Literal(if neg then -v else v), t[|d|..]))
  }

  /** The opcodes; `inp` takes a register, the others two operands. */
  datatype Opcode = InpOp | AddOp | MulOp | DivOp | ModOp | EqlOp

  /** The opcode a three-letter keyword names, if any; the letters are
      compared one by one. */
  function Keyword(kw: string): Option<Opcode>
    requires |kw| == 3
  {
    var c0, c1, c2 := kw[0], kw[1], kw[2];
    if c0 == 'i' && c1 == 'n' && c2 == 'p' then Some(InpOp)
    else if c0 == 'a' && c1 == 'd' && c2 == 'd' then Some(AddOp)
    else if c0 == 'm' && c1 == 'u' && c2 == 'l' then Some(MulOp)
    else if c0 == 'd' && c1 == 'i' && c2 == 'v' then Some(DivOp)
    else if c0 == 'm' && c1 == 'o' && c2 == 'd' then Some(ModOp)
    else if c0 == 'e' && c1 == 'q' && c2 == 'l' then Some(EqlOp)
    else None
  }

  function Binary(op: Opcode, o1: Operand, o2: Operand): Instruction
    requires op != InpOp
  {
    match op
    case AddOp => Add(o1, o2)
    case MulOp => Mul(o1, o2)
    case DivOp => Div(o1, o2)
    case ModOp => Mod(o1, o2)
    case EqlOp => Eql(o1, o2)
  }

  /** Two operands separated by optional whitespace. */
  function ParseOperands(t: string): (r: Parsed<(Operand, Operand)>)
    ensures r.Parsed? ==> |r.rest| < |t|
    ensures r.Failed? ==> |r.at| <= |t|
    ensures !r.NoMatch?
  {
    match ParseOperand(t)
    case None => Failed(t)
    case Some((o1, t1)) =>
      var t2 := SkipSpaces(t1);
      match ParseOperand(t2)
      case None => Failed(t2)
      case Some((o2, t3)) => Parsed((o1, o2), t3)
  }

  /** One instruction: `inp` then a letter, or a binary keyword then two
      operands, with optional whitespace between the parts. A text that
      starts with no keyword is not consumed at all. */
  function ParseInstruction(s: string): (r: Parsed<Instruction>)
    ensures r.Parsed? ==> |r.rest| < |s|
    ensures r.Failed? ==> |r.at| <= |s|
  {
    if |s| < 3 then NoMatch
    else
      match Keyword(s[..3])
      case None => NoMatch
      case Some(op) =>
        var t := SkipSpaces(s[3..]);
        if op == InpOp then
          if t != [] && IsLetter(t[0]) then Parsed(Input(t[0]), t[1..]) else Failed(t)
        else
          match ParseOperands(t)
          case Parsed((o1, o2), rest) => Parsed(Binary(op, o1, o2), rest)
          case Failed(at) => Failed(at)
  }

  /** `sep_by(optional(instruction), spaces())` with the empty slots dropped:
      instructions are read until the text begins no instruction. A failure
      carries the offset, within `s`, of the instruction that could not be
      read. */
  function ParseFrom(s: string): (r: Result<seq<Instruction>, nat>)
    ensures r.Err? ==> r.error <= |s|
    decreases |s|, 1
  {
    var t := SkipSpaces(s);
    ParseAfter(s, t, ParseInstruction(t))
  }

  /** The rest of `ParseFrom` once the instruction at `t`, a suffix of `s`,
      has been tried. */
  function ParseAfter(s: string, t: string, p: Parsed<Instruction>): (r: Result<seq<Instruction>, nat>)
    requires |t| <= |s|
    requires p.Parsed? ==> |p.rest| < |t|
    ensures r.Err? ==> r.error <= |s|
    decreases |s|, 0
  {
    match p
    case NoMatch => Ok([])
    case Failed(_) => Err(|s| - |t|)
    case Parsed(ins, rest) =>
      match ParseFrom(rest)
      case Ok(more) => Ok([ins] + more)
      case Err(k) => Err(|s| - |rest| + k)
  }

  /** `parse_instructions`: a failure becomes a `ParseError`. */
  function ParseInstructions(input: string): (r: Result<seq<Instruction>, ParseError>)
    ensures r.Err? ==> r.error.position <= |input|
  {
    match ParseFrom(input)
    case Ok(prog) => Ok(prog)
    case Err(k) => Err(ParseError(k))
  }

  // ---------------------------------------------------------------------
  // The textual form of a program, the inverse of the parser.

  function OperandText(o: Operand): string
  {
    match o
    case Register(c) => [c]
    case Literal(v) => IntToString(v)
  }

  function Mnemonic(op: Opcode): (kw: string)
    ensures |kw| == 3 && Keyword(kw) == Some(op)
  {
    match op
    case InpOp => "inp"
    case AddOp => "add"
    case MulOp => "mul"
    case DivOp => "div"
    case ModOp => "mod"
    case EqlOp => "eql"
  }

  function OpcodeOf(i: Instruction): (op: Opcode)
    ensures (op == InpOp) == i.Input?
    ensures !i.Input? ==> Binary(op, i.a, i.b) == i
  {
    match i
    case Input(_) => InpOp
    case Add(_, _) => AddOp
    case Mul(_, _) => MulOp
    case Div(_, _) => DivOp
    case Mod(_, _) => ModOp
    case Eql(_, _) => EqlOp
  }

  function InstructionText(i: Instruction): string
  {
    if i.Input? then "inp " + [i.reg]
    else Mnemonic(OpcodeOf(i)) + " " + OperandText(i.a) + " " + OperandText(i.b)
  }

  /** One instruction per line. */
  function ProgramText(prog: seq<Instruction>): string
  {
    if prog == [] then [] else InstructionText(prog[0]) + "\n" + ProgramText(prog[1..])
  }

  predicate OperandWellFormed(o: Operand) { o.Register? ==> IsLetter(o.name) }

  /** Register names are letters; literals may stand anywhere, also as the
      first operand, which the grammar accepts. */
  predicate InstructionWellFormed(i: Instruction)
  {
    match i
    case Input(c) => IsLetter(c)
    case Add(a, b) => OperandWellFormed(a) && OperandWellFormed(b)
    case Mul(a, b) => OperandWellFormed(a) && OperandWellFormed(b)
    case Div(a, b) => OperandWellFormed(a) && OperandWellFormed(b)
    case Mod(a, b) => OperandWellFormed(a) && OperandWellFormed(b)
    case Eql(a, b) => OperandWellFormed(a) && OperandWellFormed(b)
  }

  predicate WellFormed(prog: seq<Instruction>)
  {
    forall k :: 0 <= k < |prog| ==> InstructionWellFormed(prog[k])
  }

  // ---------------------------------------------------------------------
  // Properties of the grammar.

  lemma {:induction false} SkipSpacesOver(sp: string, t: string)
    requires forall i :: 0 <= i < |sp| ==> IsSpace(sp[i])
    requires t == [] || !IsSpace(t[0])
    ensures SkipSpaces(sp + t) == t
    decreases |sp|
  {
    if sp != [] {
      assert (sp + t)[1..] == sp[1..] + t;
      SkipSpacesOver(sp[1..], t);
    } else {
      assert sp + t == t;
    }
  }

  lemma {:induction false} TakeDigitsOver(d: string, t: string)
    requires forall i :: 0 <= i < |d| ==> IsDigit(d[i])
    requires t == [] || !IsDigit(t[0])
    ensures TakeDigits(d + t) == d
    decreases |d|
  {
    if d != [] {
      assert (d + t)[1..] == d[1..] + t;
      TakeDigitsOver(d[1..], t);
    } else {
      assert d + t == t;
    }
  }

  /** An operand's text is read back as that operand, whatever follows it
      as long as it is not a digit. */
  lemma OperandRoundTrip(o: Operand, t: string)
    requires OperandWellFormed(o)
    requires t == [] || !IsDigit(t[0])
    ensures ParseOperand(OperandText(o) + t) == Some((o, t))
  {
    match o
    case Register(c) =>
      assert (OperandText(o) + t)[1..] == t;
    case Literal(v) =>
      var n := IntDigits(v);
      TakeDigitsOver(n, t);
      var s := OperandText(o) + t;
      if v < 0 {
        assert s == "-" + (n + t);
        NegativeLiteralParses(s, n, t);
      } else {
        assert s == n + t;
        NonNegativeLiteralParses(s, n, t);
      }
  }

  /** A minus sign followed by digits parses to the negative literal of
      their value. */
  lemma NegativeLiteralParses(s: string, n: string, t: string)
    requires s == "-" + (n + t)
    requires n != [] && TakeDigits(n + t) == n
    ensures ParseOperand(s) == Some((Literal(-(DigitsValue(n) as int)), t))
  {
    assert s[0] == '-' && !IsLetter(s[0]);
    assert s[1..] == n + t;
    assert (n + t)[|n|..] == t;
  }

  /** Digits without a sign parse to the literal of their value. */
  lemma NonNegativeLiteralParses(s: string, n: string, t: string)
    requires s == n + t
    requires n != [] && TakeDigits(n + t) == n && IsDigit(n[0])
    ensures ParseOperand(s) == Some((Literal(DigitsValue(n)), t))
  {
    assert s[0] == n[0];
    assert s[|n|..] == t;
  }

  /** `inp`, whitespace and a letter parse to `Input` of that letter. */
  lemma InputParses(sp: string, c: char, rest: string)
    requires forall i :: 0 <= i < |sp| ==> IsSpace(sp[i])
    requires IsLetter(c)
    ensures ParseInstruction("inp" + sp + [c] + rest) == Parsed(Input(c), rest)
  {
    var kw := Mnemonic(InpOp);
    var s := kw + sp + [c] + rest;
    assert s[..3] == kw;
    assert s[3..] == sp + ([c] + rest);
    SkipSpacesOver(sp, [c] + rest);
    InputParsesAt(s, c, rest);
  }

  lemma InputParsesAt(s: string, c: char, rest: string)
    requires |s| >= 3 && Keyword(s[..3]) == Some(InpOp)
    requires SkipSpaces(s[3..]) == [c] + rest && IsLetter(c)
    ensures ParseInstruction(s) == Parsed(Input(c), rest)
  {
    assert ([c] + rest)[1..] == rest;
  }

  lemma OperandTextStart(o: Operand)
    requires OperandWellFormed(o)
    ensures OperandText(o) != [] && !IsSpace(OperandText(o)[0])
  {
    if o.Literal? {
      var n := NatToString(Abs(o.value));
      assert IsDigit(n[0]);
    }
  }

  lemma BinaryTextParses(s: string, kw: string, op: Opcode, a: Operand, b: Operand, t0: string, t1: string, rest: string)
    requires |s| >= 3 && s[..3] == kw && Keyword(kw) == Some(op) && op != InpOp
    requires s[3..] == " " + t0
    requires SkipSpaces(" " + t0) == t0
    requires SkipSpaces(" " + t1) == t1
    requires ParseOperand(t0) == Some((a, " " + t1))
    requires ParseOperand(t1) == Some((b, rest))
    ensures ParseInstruction(s) == Parsed(Binary(op, a, b), rest)
  {
    assert ParseOperands(t0) == Parsed((a, b), rest);
  }

  lemma SplitLine(kw: string, ta: string, tb: string, rest: string)
    requires |kw| == 3
    ensures (kw + " " + ta + " " + tb + rest)[..3] == kw
    ensures (kw + " " + ta + " " + tb + rest)[3..] == " " + (ta + (" " + (tb + rest)))
  {
    var s := kw + " " + ta + " " + tb + rest;
    assert s == kw + (" " + (ta + (" " + (tb + rest))));
  }

  lemma BinaryRoundTrip(kw: string, op: Opcode, a: Operand, b: Operand, rest: string)
    requires |kw| == 3 && Keyword(kw) == Some(op) && op != InpOp
    requires OperandWellFormed(a) && OperandWellFormed(b)
    requires rest == [] || IsSpace(rest[0])
    ensures ParseInstruction(kw + " " + OperandText(a) + " " + OperandText(b) + rest)
         == Parsed(Binary(op, a, b), rest)
  {
    var ta, tb := OperandText(a), OperandText(b);
    var t1 := tb + rest;
    var t0 := ta + (" " + t1);
    OperandTextStart(a);
    OperandTextStart(b);
    OperandRoundTrip(a, " " + t1);
    OperandRoundTrip(b, rest);
    SkipSpacesOver(" ", t0);
    SkipSpacesOver(" ", t1);
    SplitLine(kw, ta, tb, rest);
    BinaryTextParses(kw + " " + ta + " " + tb + rest, kw, op, a, b, t0, t1, rest);
  }

  /** An instruction's text is read back as that instruction. */
  lemma InstructionRoundTrip(i: Instruction, rest: string)
    requires InstructionWellFormed(i)
    requires rest == [] || IsSpace(rest[0])
    ensures ParseInstruction(InstructionText(i) + rest) == Parsed(i, rest)
  {
    if i.Input? {
      InputRoundTrip(i.reg, rest);
    } else {
      BinaryRoundTrip(Mnemonic(OpcodeOf(i)), OpcodeOf(i), i.a, i.b, rest);
    }
  }

  lemma InputRoundTrip(c: char, rest: string)
    requires IsLetter(c)
    ensures ParseInstruction(InstructionText(Input(c)) + rest) == Parsed(Input(c), rest)
  {
    assert InstructionText(Input(c)) + rest == "inp" + " " + [c] + rest;
    InputParses(" ", c, rest);
  }

  /** The parser is the inverse of the one-instruction-per-line text form:
      every instruction comes back, in source order. */
  lemma {:induction false} ProgramRoundTrip(prog: seq<Instruction>)
    requires WellFormed(prog)
    ensures ParseInstructions(ProgramText(prog)) == Ok(prog)
  {
    ParseFromProgramText(prog);
  }

  lemma {:induction false} ParseFromProgramText(prog: seq<Instruction>)
    requires WellFormed(prog)
    ensures ParseFrom(ProgramText(prog)) == Ok(prog)
    decreases |prog|
  {
    if prog == [] {
      assert SkipSpaces([]) == [];
    } else {
      WellFormedTail(prog);
      ParseFromProgramText(prog[1..]);
      LineThenTail(prog[0], ProgramText(prog[1..]), prog[1..]);
      ProgramTextCons(prog);
    }
  }

  /** Instructions laid out with arbitrary whitespace: `seps[0]` before the
      first, `seps[k]` between instructions `k - 1` and `k`, and the last
      one after all of them. */
  function SpacedText(prog: seq<Instruction>, seps: seq<string>): string
    requires |seps| == |prog| + 1
  {
    if prog == [] then seps[0] else seps[0] + (InstructionText(prog[0]) + SpacedText(prog[1..], seps[1..]))
  }

  /** Every separator is whitespace, and the ones between two instructions
      are not empty. */
  predicate Separators(seps: seq<string>)
  {
    (forall k, i :: 0 <= k < |seps| && 0 <= i < |seps[k]| ==> IsSpace(seps[k][i]))
    && forall k :: 0 < k < |seps| - 1 ==> seps[k] != []
  }

  /** Whitespace-separated instructions, with any whitespace before the
      first and after the last, are read back in source order. */
  lemma {:induction false} ParseFromSpacedText(prog: seq<Instruction>, seps: seq<string>)
    requires WellFormed(prog) && |seps| == |prog| + 1 && Separators(seps)
    ensures ParseFrom(SpacedText(prog, seps)) == Ok(prog)
    decreases |prog|
  {
    if prog == [] {
      SkipSpacesOver(seps[0], []);
      assert seps[0] + [] == seps[0];
    } else {
      WellFormedTail(prog);
      SeparatorsTail(seps);
      ParseFromSpacedText(prog[1..], seps[1..]);
      assert |prog| > 1 ==> seps[1..][0] != [];
      SpacedTextStart(prog[1..], seps[1..]);
      SpacedStep(prog, seps[0], SpacedText(prog[1..], seps[1..]));
    }
  }

  /** One instruction, with whitespace before it, in front of a text that
      parses and is empty or starts with whitespace. */
  lemma SpacedStep(prog: seq<Instruction>, sep: string, tail: string)
    requires prog != [] && InstructionWellFormed(prog[0])
    requires forall i :: 0 <= i < |sep| ==> IsSpace(sep[i])
    requires tail == [] || IsSpace(tail[0])
    requires ParseFrom(tail) == Ok(prog[1..])
    ensures ParseFrom(sep + (InstructionText(prog[0]) + tail)) == Ok(prog)
  {
    InstructionRoundTrip(prog[0], tail);
    InstructionTextStart(prog[0]);
    ParseFromStep(InstructionText(prog[0]) + tail, prog[0], tail, prog[1..]);
    LeadingSpaces(sep, InstructionText(prog[0]) + tail);
    assert [prog[0]] + prog[1..] == prog;
  }

  lemma SeparatorsTail(seps: seq<string>)
    requires Separators(seps) && seps != []
    ensures Separators(seps[1..])
    ensures forall i :: 0 <= i < |seps[0]| ==> IsSpace(seps[0][i])
  {
    forall k, i | 0 <= k < |seps| - 1 && 0 <= i < |seps[1..][k]|
      ensures IsSpace(seps[1..][k][i])
    {
      assert seps[1..][k] == seps[k + 1];
    }
    forall k | 0 < k < |seps| - 2
      ensures seps[1..][k] != []
    {
      assert seps[1..][k] == seps[k + 1];
    }
  }

  /** The text after an instruction starts with whitespace, or is empty. */
  lemma SpacedTextStart(prog: seq<Instruction>, seps: seq<string>)
    requires |seps| == |prog| + 1 && Separators(seps)
    requires prog == [] || seps[0] != []
    ensures var t := SpacedText(prog, seps); t == [] || IsSpace(t[0])
  {
    if prog != [] {
      assert SpacedText(prog, seps)[0] == seps[0][0];
    }
  }

  /** Whitespace before a text that parses does not change what it parses to. */
  lemma LeadingSpaces(sp: string, x: string)
    requires forall i :: 0 <= i < |sp| ==> IsSpace(sp[i])
    requires x != [] && !IsSpace(x[0]) && ParseFrom(x).Ok?
    ensures ParseFrom(sp + x) == ParseFrom(x)
  {
    SkipSpacesOver(sp, x);
    assert SkipSpaces(x) == x;
  }

  lemma ProgramTextCons(prog: seq<Instruction>)
    requires prog != []
    ensures ProgramText(prog) == InstructionText(prog[0]) + ("\n" + ProgramText(prog[1..]))
    ensures [prog[0]] + prog[1..] == prog
  {
    assert InstructionText(prog[0]) + "\n" + ProgramText(prog[1..]) ==
      InstructionText(prog[0]) + ("\n" + ProgramText(prog[1..]));
  }

  lemma WellFormedTail(prog: seq<Instruction>)
    requires WellFormed(prog) && prog != []
    ensures InstructionWellFormed(prog[0]) && WellFormed(prog[1..])
  {
    assert InstructionWellFormed(prog[0]);
    forall k | 0 <= k < |prog| - 1 ensures InstructionWellFormed(prog[1..][k]) {
      assert prog[1..][k] == prog[k + 1];
    }
  }

  lemma LineThenTail(ins: Instruction, tail: string, more: seq<Instruction>)
    requires InstructionWellFormed(ins)
    requires ParseFrom(tail) == Ok(more)
    ensures ParseFrom(InstructionText(ins) + ("\n" + tail)) == Ok([ins] + more)
  {
    InstructionTextStart(ins);
    InstructionRoundTrip(ins, "\n" + tail);
    TailAfterNewline(tail);
    ParseFromStep(InstructionText(ins) + ("\n" + tail), ins, "\n" + tail, more);
  }

  lemma ParseFromStep(s: string, ins: Instruction, rest: string, more: seq<Instruction>)
    requires s != [] && !IsSpace(s[0])
    requires ParseInstruction(s) == Parsed(ins, rest)
    requires ParseFrom(rest) == Ok(more)
    ensures ParseFrom(s) == Ok([ins] + more)
  {
    assert SkipSpaces(s) == s;
  }

  lemma InstructionTextStart(i: Instruction)
    ensures InstructionText(i) != [] && !IsSpace(InstructionText(i)[0])
  {
  }

  lemma TailAfterNewline(tail: string)
    requires ParseFrom(tail).Ok?
    ensures ParseFrom("\n" + tail) == ParseFrom(tail)
  {
    assert ("\n" + tail)[1..] == tail;
    assert SkipSpaces("\n" + tail) == SkipSpaces(tail);
  }

  lemma KeywordIsLetters(kw: string)
    requires |kw| == 3 && Keyword(kw).Some?
    ensures kw == Mnemonic(Keyword(kw).value) && IsLetter(kw[0])
  {
  }

  /** A binary keyword whose first operand is malformed makes the whole
      parse fail, at the offset of that instruction, wherever it follows a
      well-formed program. */
  lemma MalformedOperandFails(prog: seq<Instruction>, s: string, op: Opcode)
    requires WellFormed(prog)
    requires |s| >= 3 && Keyword(s[..3]) == Some(op) && op != InpOp
    requires ParseOperand(SkipSpaces(s[3..])) == None
    ensures ParseInstructions(ProgramText(prog) + s) == Err(ParseError(|ProgramText(prog)|))
  {
    var t := SkipSpaces(s[3..]);
    OperandsFail(t);
    BinaryFails(s, op, t);
    KeywordIsLetters(s[..3]);
    assert s[0] == s[..3][0];
    FailedInstructionFails(prog, s, t);
  }

  lemma OperandsFail(t: string)
    requires ParseOperand(t) == None
    ensures ParseOperands(t) == Failed(t)
  {
  }

  lemma BinaryFails(s: string, op: Opcode, t: string)
    requires |s| >= 3 && Keyword(s[..3]) == Some(op) && op != InpOp
    requires t == SkipSpaces(s[3..]) && ParseOperands(t) == Failed(t)
    ensures ParseInstruction(s) == Failed(t)
  {
  }

  /** An instruction that starts with a keyword but cannot be read makes the
      whole parse fail, at its own offset, wherever it follows a well-formed
      program. */
  lemma FailedInstructionFails(prog: seq<Instruction>, s: string, at: string)
    requires WellFormed(prog)
    requires s != [] && !IsSpace(s[0]) && ParseInstruction(s) == Failed(at)
    ensures ParseInstructions(ProgramText(prog) + s) == Err(ParseError(|ProgramText(prog)|))
  {
    assert SkipSpaces(s) == s;
    assert ParseFrom(s) == ParseAfter(s, s, Failed(at));
    ErrorAfterProgram(prog, s, 0);
  }

  /** Two texts that are the same once leading whitespace is skipped parse
      alike; an error offset counts from the start of each. */
  lemma ParseFromShift(s1: string, s2: string)
    requires SkipSpaces(s1) == SkipSpaces(s2)
    ensures ParseFrom(s1).Ok? <==> ParseFrom(s2).Ok?
    ensures ParseFrom(s1).Ok? ==> ParseFrom(s1) == ParseFrom(s2)
    ensures ParseFrom(s1).Err? ==> ParseFrom(s1).error + |s2| == ParseFrom(s2).error + |s1|
  {
    var t := SkipSpaces(s1);
    assert ParseFrom(s1) == ParseAfter(s1, t, ParseInstruction(t));
    assert ParseFrom(s2) == ParseAfter(s2, t, ParseInstruction(t));
  }

  /** A failure after a well-formed program is reported at its offset in
      the failing text, moved past the program's text. */
  lemma {:induction false} ErrorAfterProgram(prog: seq<Instruction>, tail: string, k: nat)
    requires WellFormed(prog) && ParseFrom(tail) == Err(k)
    ensures ParseFrom(ProgramText(prog) + tail).Err?
    ensures ParseFrom(ProgramText(prog) + tail).error == |ProgramText(prog)| + k
    decreases |prog|
  {
    if prog == [] {
      ErrorAfterEmpty(prog, tail, k);
    } else {
      WellFormedTail(prog);
      ErrorAfterProgram(prog[1..], tail, k);
      ErrorAfterFirst(prog, tail, |ProgramText(prog[1..])| + k);
    }
  }

  lemma ErrorAfterEmpty(prog: seq<Instruction>, tail: string, k: nat)
    requires prog == [] && ParseFrom(tail) == Err(k)
    ensures ParseFrom(ProgramText(prog) + tail).Err?
    ensures ParseFrom(ProgramText(prog) + tail).error == |ProgramText(prog)| + k
  {
    EmptyProgramText(prog, tail);
  }

  lemma EmptyProgramText(prog: seq<Instruction>, tail: string)
    requires prog == []
    ensures ProgramText(prog) == [] && ProgramText(prog) + tail == tail
  {
  }

  lemma ErrorAfterFirst(prog: seq<Instruction>, tail: string, j: nat)
    requires prog != [] && InstructionWellFormed(prog[0])
    requires ParseFrom(ProgramText(prog[1..]) + tail).Err?
    requires ParseFrom(ProgramText(prog[1..]) + tail).error == j
    ensures ParseFrom(ProgramText(prog) + tail).Err?
    ensures ParseFrom(ProgramText(prog) + tail).error == |ProgramText(prog)| - |ProgramText(prog[1..])| + j
  {
    ProgramTextThen(prog, tail);
    ErrorAfterLine(prog[0], ProgramText(prog[1..]) + tail, j);
  }

  lemma ProgramTextThen(prog: seq<Instruction>, tail: string)
    requires prog != []
    ensures ProgramText(prog) + tail == InstructionText(prog[0]) + ("\n" + (ProgramText(prog[1..]) + tail))
  {
    ProgramTextCons(prog);
    ConcatAssoc(InstructionText(prog[0]), "\n", ProgramText(prog[1..]), tail);
  }

  lemma ConcatAssoc(a: string, n: string, b: string, t: string)
    ensures (a + (n + b)) + t == a + (n + (b + t))
  {
  }

  /** One instruction and its newline in front of a text that fails. */
  lemma ErrorAfterLine(ins: Instruction, r: string, k: nat)
    requires InstructionWellFormed(ins) && ParseFrom(r).Err? && ParseFrom(r).error == k
    ensures ParseFrom(InstructionText(ins) + ("\n" + r)).Err?
    ensures ParseFrom(InstructionText(ins) + ("\n" + r)).error == |InstructionText(ins)| + 1 + k
  {
    var t := InstructionText(ins);
    var n := "\n" + r;
    var s := t + n;
    assert ParseFrom(r) == Err(k);
    InstructionTextStart(ins);
    InstructionRoundTrip(ins, n);
    assert s[0] == t[0];
    NewlineBeforeError(r, k, k + 1);
    ParseFromStepErr(s, ins, n, k + 1);
  }

  /** A newline in front of a text that fails moves the offset by one. */
  lemma NewlineBeforeError(r: string, k: nat, j: nat)
    requires ParseFrom(r) == Err(k) && j == k + 1
    ensures ParseFrom("\n" + r) == Err(j)
  {
    assert ("\n" + r)[1..] == r;
    assert SkipSpaces("\n" + r) == SkipSpaces(r);
    ParseFromShift("\n" + r, r);
  }

  /** An instruction read from the start of `s`, in front of a text that
      fails: the failure's offset moves past the instruction. */
  lemma ParseFromStepErr(s: string, ins: Instruction, rest: string, k: nat)
    requires s != [] && !IsSpace(s[0])
    requires ParseInstruction(s) == Parsed(ins, rest)
    requires ParseFrom(rest) == Err(k)
    ensures ParseFrom(s).Err? && ParseFrom(s).error == |s| - |rest| + k
  {
    ParseFromUnspaced(s);
    ParseAfterErr(s, ins, rest, k);
  }

  lemma ParseFromUnspaced(s: string)
    requires s != [] && !IsSpace(s[0])
    ensures ParseFrom(s) == ParseAfter(s, s, ParseInstruction(s))
  {
    assert SkipSpaces(s) == s;
  }

  lemma ParseAfterErr(s: string, ins: Instruction, rest: string, k: nat)
    requires |rest| < |s| && ParseFrom(rest) == Err(k)
    ensures ParseAfter(s, s, Parsed(ins, rest)).Err?
    ensures ParseAfter(s, s, Parsed(ins, rest)).error == |s| - |rest| + k
  {
  }
}
