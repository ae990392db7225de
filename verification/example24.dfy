/** The example ALU program of day 24, which splits its input into binary
    digits, and what both interpreters make of it (the tests of
    day-24/src/main.rs). */
module Example24 {
  import opened Common
  import opened Instr24
  import opened Alu24
  import Op24

  /** `inp w`, then bit 0 into z, bit 1 into y, bit 2 into x and bit 3 into w. */
  const BinaryProgram: seq<Instruction> := [
    Input('w'),
    Add(Register('z'), Register('w')),
    Mod(Register('z'), Literal(2)),
    Div(Register('w'), Literal(2)),
    Add(Register('y'), Register('w')),
    Mod(Register('y'), Literal(2)),
    Div(Register('w'), Literal(2)),
    Add(Register('x'), Register('w')),
    Mod(Register('x'), Literal(2)),
    Div(Register('w'), Literal(2)),
    Mod(Register('w'), Literal(2))
  ]

  /** The program's text reads back as the program. */
  lemma BinaryProgramParses()
    ensures ParseInstructions(ProgramText(BinaryProgram)) == Ok(BinaryProgram)
  {
    assert WellFormed(BinaryProgram) by {
      forall k | 0 <= k < |BinaryProgram| ensures InstructionWellFormed(BinaryProgram[k]) {
      }
    }
    ProgramRoundTrip(BinaryProgram);
  }

  /** The machine after the first k instructions of the example on input n. */
  function Machines(k: nat, n: int): Machine
    requires k <= 11
  {
    var w1, w2, w3 := n / 2, n / 2 / 2, n / 2 / 2 / 2;
    match k
    case 0 => Machine(map[], 0)
    case 1 => Machine(map['w' := n], 1)
    case 2 => Machine(map['w' := n, 'z' := n], 1)
    case 3 => Machine(map['w' := n, 'z' := n % 2], 1)
    case 4 => Machine(map['w' := w1, 'z' := n % 2], 1)
    case 5 => Machine(map['w' := w1, 'z' := n % 2, 'y' := w1], 1)
    case 6 => Machine(map['w' := w1, 'z' := n % 2, 'y' := w1 % 2], 1)
    case 7 => Machine(map['w' := w2, 'z' := n % 2, 'y' := w1 % 2], 1)
    case 8 => Machine(map['w' := w2, 'z' := n % 2, 'y' := w1 % 2, 'x' := w2], 1)
    case 9 => Machine(map['w' := w2, 'z' := n % 2, 'y' := w1 % 2, 'x' := w2 % 2], 1)
    case 10 => Machine(map['w' := w3, 'z' := n % 2, 'y' := w1 % 2, 'x' := w2 % 2], 1)
    case 11 => Machine(map['w' := w3 % 2, 'z' := n % 2, 'y' := w1 % 2, 'x' := w2 % 2], 1)
  }

  lemma HalfOfNonNegative(x: int)
    requires x >= 0
    ensures TDiv(x, 2) == x / 2 && TMod(x, 2) == x % 2
  {
  }

  /** Each instruction of the example takes one state of `Machines` to the next. */
  lemma StepAt(k: nat, n: int)
    requires k < 11 && n >= 0
    ensures Step(Machines(k, n), BinaryProgram[k], [n]) == Continue(Machines(k + 1, n))
  {
    if k < 4 {
      StepsOfBitZero(k, n);
    } else if k < 8 {
      StepsOfBitOne(k, n);
    } else {
      StepsOfBitsTwoAndThree(k, n);
    }
  }

  lemma StepsOfBitZero(k: nat, n: int)
    requires 0 <= k <= 3 && n >= 0
    ensures Step(Machines(k, n), BinaryProgram[k], [n]) == Continue(Machines(k + 1, n))
  {
    if k <= 1 {
      StepsOfBitZeroStart(k, n);
    } else {
      StepsOfBitZeroEnd(k, n);
    }
  }

  lemma StepsOfBitZeroStart(k: nat, n: int)
    requires 0 <= k <= 1 && n >= 0
    ensures Step(Machines(k, n), BinaryProgram[k], [n]) == Continue(Machines(k + 1, n))
  {
    var p := BinaryProgram;
    var m, m' := Machines(k, n), Machines(k + 1, n);
    if k == 0 {
      assert Step(m, p[0], [n]) == Continue(m');
    } else {
      assert Step(m, p[1], [n]) == Continue(m');
    }
  }

  lemma StepsOfBitZeroEnd(k: nat, n: int)
    requires 2 <= k <= 3 && n >= 0
    ensures Step(Machines(k, n), BinaryProgram[k], [n]) == Continue(Machines(k + 1, n))
  {
    var p := BinaryProgram;
    var m, m' := Machines(k, n), Machines(k + 1, n);
    HalfOfNonNegative(n);
    if k == 2 {
      assert Step(m, p[2], [n]) == Continue(m');
    } else {
      assert Step(m, p[3], [n]) == Continue(m');
    }
  }

  lemma StepsOfBitOne(k: nat, n: int)
    requires 4 <= k <= 7 && n >= 0
    ensures Step(Machines(k, n), BinaryProgram[k], [n]) == Continue(Machines(k + 1, n))
  {
    var p := BinaryProgram;
    var m, m' := Machines(k, n), Machines(k + 1, n);
    if k == 4 {
      assert Step(m, p[4], [n]) == Continue(m');
    } else if k == 5 {
      HalfOfNonNegative(n / 2);
      assert Step(m, p[5], [n]) == Continue(m');
    } else if k == 6 {
      HalfOfNonNegative(n / 2);
      assert Step(m, p[6], [n]) == Continue(m');
    } else {
      assert Step(m, p[7], [n]) == Continue(m');
    }
  }

  lemma StepsOfBitsTwoAndThree(k: nat, n: int)
    requires 8 <= k <= 10 && n >= 0
    ensures Step(Machines(k, n), BinaryProgram[k], [n]) == Continue(Machines(k + 1, n))
  {
    var p := BinaryProgram;
    var m, m' := Machines(k, n), Machines(k + 1, n);
    if k == 8 {
      HalfOfNonNegative(n / 2 / 2);
      assert Step(m, p[8], [n]) == Continue(m');
    } else if k == 9 {
      HalfOfNonNegative(n / 2 / 2);
      assert Step(m, p[9], [n]) == Continue(m');
    } else {
      LastStep(n);
    }
  }

  lemma LastStep(n: int)
    requires n >= 0
    ensures Step(Machines(10, n), BinaryProgram[10], [n]) == Continue(Machines(11, n))
  {
    HalfOfNonNegative(n / 2 / 2 / 2);
  }

  lemma {:induction false} RunFrom(k: nat, n: int)
    requires k <= 11 && n >= 0
    ensures Execute(Machines(k, n), BinaryProgram[k..], [n]) == Continue(Machines(11, n))
    decreases 11 - k
  {
    if k < 11 {
      StepAt(k, n);
      RunFrom(k + 1, n);
      assert BinaryProgram[k..][1..] == BinaryProgram[k + 1..];
    }
  }

  /** On a non-negative input n the four registers end as the four lowest
      binary digits of n: z the lowest, w the highest. */
  lemma BinaryDigits(n: int)
    requires n >= 0
    ensures var o := Execute(Machine(map[], 0), BinaryProgram, [n]);
      o.Continue? &&
      Get(o.machine.registers, 'z') == n % 2 &&
      Get(o.machine.registers, 'y') == (n / 2) % 2 &&
      Get(o.machine.registers, 'x') == (n / 2 / 2) % 2 &&
      Get(o.machine.registers, 'w') == (n / 2 / 2 / 2) % 2
  {
    FinalRegisters(n);
    RunFrom(0, n);
    assert BinaryProgram[0..] == BinaryProgram;
  }

  lemma FinalRegisters(n: int)
    ensures var regs := Machines(11, n).registers;
      Get(regs, 'z') == n % 2 && Get(regs, 'y') == (n / 2) % 2 &&
      Get(regs, 'x') == (n / 2 / 2) % 2 && Get(regs, 'w') == (n / 2 / 2 / 2) % 2
  {
  }

  /** The two concrete runs of the `convert_binary` test: 3 is 0011 and 8 is
      1000 in w x y z. */
  lemma ConvertBinary(n: int)
    requires n == 3 || n == 8
    ensures var o := Execute(Machine(map[], 0), BinaryProgram, [n]);
      var regs := o.machine.registers;
      o.Continue? &&
      (n == 3 ==> Get(regs, 'w') == 0 && Get(regs, 'x') == 0 && Get(regs, 'y') == 1 && Get(regs, 'z') == 1) &&
      (n == 8 ==> Get(regs, 'w') == 1 && Get(regs, 'x') == 0 && Get(regs, 'y') == 0 && Get(regs, 'z') == 0)
  {
    BinaryDigits(n);
    DigitsOfThreeAndEight(n);
  }

  lemma DigitsOfThreeAndEight(n: int)
    requires n == 3 || n == 8
    ensures n == 3 ==> (n / 2 / 2 / 2) % 2 == 0 && (n / 2 / 2) % 2 == 0 && (n / 2) % 2 == 1 && n % 2 == 1
    ensures n == 8 ==> (n / 2 / 2 / 2) % 2 == 1 && (n / 2 / 2) % 2 == 0 && (n / 2) % 2 == 0 && n % 2 == 0
  {
  }

  function Half(e: Op24.Op): Op24.Op { Op24.Div(e, Op24.Value(2)) }

  function Bit(e: Op24.Op): Op24.Op { Op24.Mod(e, Op24.Value(2)) }

  /** The symbolic registers after the first k instructions of the example. */
  function States(k: nat): SymState
    requires k <= 11
  {
    var i0, zero := Op24.Input(0), Op24.Value(0);
    match k
    case 0 => InitialSymbolic
    case 1 => SymState(map['w' := i0, 'x' := zero, 'y' := zero, 'z' := zero], 1)
    case 2 => SymState(map['w' := i0, 'x' := zero, 'y' := zero, 'z' := i0], 1)
    case 3 => SymState(map['w' := i0, 'x' := zero, 'y' := zero, 'z' := Bit(i0)], 1)
    case 4 => SymState(map['w' := Half(i0), 'x' := zero, 'y' := zero, 'z' := Bit(i0)], 1)
    case 5 => SymState(map['w' := Half(i0), 'x' := zero, 'y' := Half(i0), 'z' := Bit(i0)], 1)
    case 6 => SymState(map['w' := Half(i0), 'x' := zero, 'y' := Bit(Half(i0)), 'z' := Bit(i0)], 1)
    case 7 => SymState(map['w' := Half(Half(i0)), 'x' := zero, 'y' := Bit(Half(i0)), 'z' := Bit(i0)], 1)
    case 8 => SymState(map['w' := Half(Half(i0)), 'x' := Half(Half(i0)), 'y' := Bit(Half(i0)), 'z' := Bit(i0)], 1)
    case 9 => SymState(map['w' := Half(Half(i0)), 'x' := Bit(Half(Half(i0))), 'y' := Bit(Half(i0)), 'z' := Bit(i0)], 1)
    case 10 => SymState(map['w' := Half(Half(Half(i0))), 'x' := Bit(Half(Half(i0))), 'y' := Bit(Half(i0)), 'z' := Bit(i0)], 1)
    case 11 => SymState(map['w' := Bit(Half(Half(Half(i0)))), 'x' := Bit(Half(Half(i0))), 'y' := Bit(Half(i0)), 'z' := Bit(i0)], 1)
  }

  lemma SymStepAt(k: nat)
    requires k < 11
    ensures SymStep(States(k), BinaryProgram[k]) == Ok(States(k + 1))
  {
    if k < 6 {
      SymStepsLow(k);
    } else {
      SymStepsHigh(k);
    }
  }

  lemma SymStepsLow(k: nat)
    requires k < 6
    ensures SymStep(States(k), BinaryProgram[k]) == Ok(States(k + 1))
  {
    var p := BinaryProgram;
    var i0 := Op24.Input(0);
    if k == 0 {
      assert States(1) == SymState(States(0).registers['w' := i0], 1);
    } else if k == 1 {
      SymWrites(States(1), p[1], 'z', i0, States(2));
    } else if k == 2 {
      SymWrites(States(2), p[2], 'z', Bit(i0), States(3));
    } else if k == 3 {
      SymWrites(States(3), p[3], 'w', Half(i0), States(4));
    } else if k == 4 {
      SymWrites(States(4), p[4], 'y', Half(i0), States(5));
    } else {
      SymWrites(States(5), p[5], 'y', Bit(Half(i0)), States(6));
    }
  }

  /** A binary instruction writing `e` into register `r` moves `st` to `st'`. */
  lemma SymWrites(st: SymState, i: Instruction, r: char, e: Op24.Op, st': SymState)
    requires !i.Input? && i.a == Register(r) && r in st.registers
    requires SymOperand(st.registers, i.b).Ok?
    requires Rewrite(i, st.registers[r], SymOperand(st.registers, i.b).value) == e
    requires st' == SymState(st.registers[r := e], st.counter)
    ensures SymStep(st, i) == Ok(st')
  {
  }

  lemma SymStepsHigh(k: nat)
    requires 6 <= k < 11
    ensures SymStep(States(k), BinaryProgram[k]) == Ok(States(k + 1))
  {
    var p := BinaryProgram;
    var i0 := Op24.Input(0);
    if k == 6 {
      SymWrites(States(6), p[6], 'w', Half(Half(i0)), States(7));
    } else if k == 7 {
      SymWrites(States(7), p[7], 'x', Half(Half(i0)), States(8));
    } else if k == 8 {
      SymWrites(States(8), p[8], 'x', Bit(Half(Half(i0))), States(9));
    } else if k == 9 {
      SymWrites(States(9), p[9], 'w', Half(Half(Half(i0))), States(10));
    } else {
      SymWrites(States(10), p[10], 'w', Bit(Half(Half(Half(i0)))), States(11));
    }
  }

  lemma {:induction false} SymRunFrom(k: nat)
    requires k <= 11
    ensures SymRun(States(k), BinaryProgram[k..]) == Ok(States(11))
    decreases 11 - k
  {
    if k < 11 {
      SymStepAt(k);
      SymRunFrom(k + 1);
      assert BinaryProgram[k..][1..] == BinaryProgram[k + 1..];
    }
  }

  /** Symbolic execution of the example yields one remainder-of-halvings
      expression per register. */
  lemma BinarySymbolic(prog: seq<Instruction>)
    requires prog == BinaryProgram
    ensures var r := SymbolicExecution(prog);
      r.Ok? && r.value.Keys == {'w', 'x', 'y', 'z'} &&
      r.value['w'] == Bit(Half(Half(Half(Op24.Input(0))))) &&
      r.value['x'] == Bit(Half(Half(Op24.Input(0)))) &&
      r.value['y'] == Bit(Half(Op24.Input(0))) &&
      r.value['z'] == Bit(Op24.Input(0))
  {
    SymRunFrom(0);
    assert prog[0..] == prog;
    assert States(0) == InitialSymbolic;
    FinalSymbolic();
  }

  lemma FinalSymbolic()
    ensures var r := States(11).registers;
      r.Keys == {'w', 'x', 'y', 'z'} &&
      r['w'] == Bit(Half(Half(Half(Op24.Input(0))))) &&
      r['x'] == Bit(Half(Half(Op24.Input(0)))) &&
      r['y'] == Bit(Half(Op24.Input(0))) &&
      r['z'] == Bit(Op24.Input(0))
  {
  }

  /** The printed expressions of the `convert_binary_symbolic` test. */
  lemma BinarySymbolicText(i0: Op24.Op)
    requires i0 == Op24.Input(0)
    ensures Op24.Show(Bit(i0)) == "(input0 % 2)"
    ensures Op24.Show(Bit(Half(i0))) == "((input0 / 2) % 2)"
    ensures Op24.Show(Bit(Half(Half(i0)))) == "(((input0 / 2) / 2) % 2)"
    ensures Op24.Show(Bit(Half(Half(Half(i0))))) == "((((input0 / 2) / 2) / 2) % 2)"
  {
    HalvesText(i0);
    BitText0(i0);
    BitText1(Half(i0));
    BitText2(Half(Half(i0)));
    BitText3(Half(Half(Half(i0))));
  }

  lemma BitText0(e: Op24.Op)
    requires Op24.Show(e) == "input0"
    ensures Op24.Show(Bit(e)) == "(input0 % 2)"
  {
    BitShows(e);
    BitLiteral0();
  }

  lemma BitLiteral0()
    ensures "(" + "input0" + " % 2)" == "(input0 % 2)"
  {
  }

  lemma BitText1(e: Op24.Op)
    requires Op24.Show(e) == "(input0 / 2)"
    ensures Op24.Show(Bit(e)) == "((input0 / 2) % 2)"
  {
    BitShows(e);
    BitLiteral1();
  }

  lemma BitLiteral1()
    ensures "(" + "(input0 / 2)" + " % 2)" == "((input0 / 2) % 2)"
  {
  }

  lemma BitText2(e: Op24.Op)
    requires Op24.Show(e) == "((input0 / 2) / 2)"
    ensures Op24.Show(Bit(e)) == "(((input0 / 2) / 2) % 2)"
  {
    BitShows(e);
    BitLiteral2();
  }

  lemma BitLiteral2()
    ensures "(" + "((input0 / 2) / 2)" + " % 2)" == "(((input0 / 2) / 2) % 2)"
  {
  }

  lemma BitText3(e: Op24.Op)
    requires Op24.Show(e) == "(((input0 / 2) / 2) / 2)"
    ensures Op24.Show(Bit(e)) == "((((input0 / 2) / 2) / 2) % 2)"
  {
    BitShows(e);
    BitLiteral3();
  }

  lemma BitLiteral3()
    ensures "(" + "(((input0 / 2) / 2) / 2)" + " % 2)" == "((((input0 / 2) / 2) / 2) % 2)"
  {
  }

  /** A bit prints as its operand followed by `% 2`, in parentheses. */
  lemma BitShows(e: Op24.Op)
    ensures Op24.Show(Bit(e)) == "(" + Op24.Show(e) + " % 2)"
  {
    assert IntToString(2) == "2";
  }

  lemma HalvesText(i0: Op24.Op)
    requires i0 == Op24.Input(0)
    ensures Op24.Show(i0) == "input0"
    ensures Op24.Show(Half(i0)) == "(input0 / 2)"
    ensures Op24.Show(Half(Half(i0))) == "((input0 / 2) / 2)"
    ensures Op24.Show(Half(Half(Half(i0)))) == "(((input0 / 2) / 2) / 2)"
  {
    InputText(i0);
    HalfText(i0, "input0", "(input0 / 2)");
    HalfText(Half(i0), "(input0 / 2)", "((input0 / 2) / 2)");
    HalfText(Half(Half(i0)), "((input0 / 2) / 2)", "(((input0 / 2) / 2) / 2)");
  }

  lemma InputText(i0: Op24.Op)
    requires i0 == Op24.Input(0)
    ensures Op24.Show(i0) == "input0"
  {
    assert NatToString(0) == "0";
  }

  lemma HalfText(e: Op24.Op, t: string, u: string)
    requires Op24.Show(e) == t
    requires u == "(" + t + " / 2)"
    ensures Op24.Show(Half(e)) == u
  {
    assert IntToString(2) == "2";
  }
}
