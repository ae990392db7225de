/** The arithmetic logic unit of day 24 (day-24/src/alu.rs): a concrete
    interpreter over a register map, and a symbolic interpreter that builds
    expression trees with a few simplifying rewrites. The main theorem says
    the symbolic registers evaluate to the concrete ones. */
module Alu24 {
  import opened Common
  import opened Instr24
  import Op24

  /** Why a run stopped. `ArithmeticFault` is Rust's panic on a zero divisor
      and `UnknownRegister` the panic of indexing the symbolic register map
      with a register it does not hold. */
  datatype AluError =
    | NoAluInputLeft
    | InvalidInstruction(instruction: Instruction)
    | ArithmeticFault
    | UnknownRegister(name: char)

  /** A register's value; a register never written reads as zero. */
  function Get(regs: map<char, int>, c: char): int
  {
    if c in regs then regs[c] else 0
  }

  /** `entry(c).or_default()`: make sure the register exists. */
  function Touch(regs: map<char, int>, c: char): (r: map<char, int>)
    ensures r.Keys == regs.Keys + {c}
    ensures forall d :: Get(r, d) == Get(regs, d)
  {
    if c in regs then regs else regs[c := 0]
  }

  /** `get_value`: the operand's value, and the map after the lookup. */
  function OperandValue(regs: map<char, int>, o: Operand): int
  {
    match o
    case Register(c) => Get(regs, c)
    case Literal(v) => v
  }

  function TouchOperand(regs: map<char, int>, o: Operand): (r: map<char, int>)
    ensures o.Register? ==> r.Keys == regs.Keys + {o.name}
    ensures o.Literal? ==> r == regs
    ensures forall d :: Get(r, d) == Get(regs, d)
  {
    match o
    case Register(c) => Touch(regs, c)
    case Literal(_) => regs
  }

  /** The register an instruction writes, if it is one the ALU accepts. */
  function Dest(i: Instruction): Option<char>
  {
    if i.Input? then Some(i.reg)
    else if i.a.Register? then Some(i.a.name)
    else None
  }

  /** The result of a binary instruction on the destination value `x` and
      the operand value `v`. */
  function Compute(i: Instruction, x: int, v: int): (r: int)
    requires !i.Input?
    requires (i.Mod? || i.Div?) ==> v != 0
    ensures i.Eql? ==> (r == 1 <==> x == v) && (r == 0 <==> x != v)
    ensures i.Mod? && x >= 0 ==> 0 <= r < Abs(v)
  {
    match i
    case Add(_, _) => x + v
    case Mul(_, _) => x * v
    case Mod(_, _) => TMod(x, v)
    case Div(_, _) => TDiv(x, v)
    case Eql(_, _) => if x == v then 1 else 0
  }

  /** The registers and the number of inputs consumed so far. */
  datatype Machine = Machine(registers: map<char, int>, counter: nat)

  /** The machine after an instruction or a program: carrying on, or stopped
      with the machine as the failing instruction left it. */
  datatype Outcome = Continue(machine: Machine) | Halt(machine: Machine, error: AluError)

  /** One instruction of `Alu::run`. */
  function Step(m: Machine, i: Instruction, input: seq<int>): (o: Outcome)
    ensures o.Continue? ==> o.machine.counter == m.counter + (if i.Input? then 1 else 0)
    ensures o.Halt? ==> o.machine.counter == m.counter
    ensures forall c :: Dest(i) != Some(c) ==> Get(o.machine.registers, c) == Get(m.registers, c)
    ensures Dest(i).None? ==> o == Halt(m, InvalidInstruction(i))
    ensures i.Input? ==> (o.Halt? <==> m.counter >= |input|)
    ensures o.Halt? && o.error == NoAluInputLeft ==> o.machine == m
    ensures o.Continue? && i.Input? ==> Get(o.machine.registers, i.reg) == input[m.counter]
    ensures m.registers.Keys <= o.machine.registers.Keys
  {
    if i.Input? then
      if m.counter < |input| then Continue(Machine(m.registers[i.reg := input[m.counter]], m.counter + 1))
      else Halt(m, NoAluInputLeft)
    else if i.a.Literal? then Halt(m, InvalidInstruction(i))
    else
      var reg := i.a.name;
      var v := OperandValue(m.registers, i.b);
      var regs := Touch(TouchOperand(m.registers, i.b), reg);
      if (i.Mod? || i.Div?) && v == 0 then Halt(Machine(regs, m.counter), ArithmeticFault)
      else Continue(Machine(regs[reg := Compute(i, Get(m.registers, reg), v)], m.counter))
  }

  /** `Alu::run` from a given machine. */
  function Execute(m: Machine, prog: seq<Instruction>, input: seq<int>): (o: Outcome)
    ensures m.registers.Keys <= o.machine.registers.Keys
    decreases |prog|
  {
    if prog == [] then Continue(m)
    else
      match Step(m, prog[0], input)
      case Halt(m', e) => Halt(m', e)
      case Continue(m') => Execute(m', prog[1..], input)
  }

  class Alu {
    var registers: map<char, int>

    /** `Alu::default()`: no register exists yet. */
    constructor ()
      ensures registers == map[]
    {
      registers := map[];
    }

    method Reset()
      modifies this
      ensures registers == map[]
    {
      registers := map[];
    }

    method GetValue(o: Operand) returns (v: int)
      modifies this
      ensures v == OperandValue(old(registers), o)
      ensures registers == TouchOperand(old(registers), o)
    {
      match o
      case Register(c) =>
        if c !in registers {
          registers := registers[c := 0];
        }
        v := registers[c];
      case Literal(value) =>
        v := value;
    }

    /** Reading through `register_mut`: creates the register if needed. */
    method RegisterMut(name: char) returns (v: int)
      modifies this
      ensures registers == Touch(old(registers), name)
      ensures v == Get(old(registers), name)
    {
      if name !in registers {
        registers := registers[name := 0];
      }
      v := registers[name];
    }

    /** Writing through `register_mut`. */
    method SetRegister(name: char, v: int)
      modifies this
      ensures registers == old(registers)[name := v]
    {
      registers := registers[name := v];
    }

    /** `register`: panics on a register that does not exist. */
    method Register(name: char) returns (v: int)
      requires name in registers
      ensures v == registers[name] && v == Get(registers, name)
    {
      v := registers[name];
    }

    /** `Alu::run`: the registers end as `Execute` says, and the result is an
        error exactly when `Execute` halts. */
    method Run(instructions: seq<Instruction>, input: seq<int>) returns (r: Result<(), AluError>)
      modifies this
      ensures var o := Execute(Machine(old(registers), 0), instructions, input);
        registers == o.machine.registers && (r.Ok? <==> o.Continue?) && (o.Halt? ==> r == Err(o.error))
    {
      var counter: nat := 0;
      var k := 0;
      while k < |instructions|
        invariant 0 <= k <= |instructions|
        invariant Execute(Machine(registers, counter), instructions[k..], input)
          == Execute(Machine(old(registers), 0), instructions, input)
      {
        var i := instructions[k];
        assert instructions[k..][1..] == instructions[k + 1..];
        ghost var m := Machine(registers, counter);
        if i.Input? {
          if counter >= |input| {
            return Err(NoAluInputLeft);
          }
          registers := registers[i.reg := input[counter]];
          counter := counter + 1;
        } else {
          if i.a.Literal? {
            return Err(InvalidInstruction(i));
          }
          var v := GetValue(i.b);
          var x := RegisterMut(i.a.name);
          if (i.Mod? || i.Div?) && v == 0 {
            return Err(ArithmeticFault);
          }
          SetRegister(i.a.name, Compute(i, x, v));
        }
        assert Step(m, i, input) == Continue(Machine(registers, counter));
        k := k + 1;
      }
      r := Ok(());
    }
  }

  function CountInputs(prog: seq<Instruction>): (n: nat)
    ensures n <= |prog|
  {
    if prog == [] then 0 else (if prog[0].Input? then 1 else 0) + CountInputs(prog[1..])
  }

  /** A run that completes has read one input per `inp` instruction, so it
      needed at least that many. */
  lemma {:induction false} ExecuteConsumesInputs(m: Machine, prog: seq<Instruction>, input: seq<int>)
    requires m.counter <= |input|
    ensures Execute(m, prog, input).Continue? ==>
      Execute(m, prog, input).machine.counter == m.counter + CountInputs(prog) <= |input|
    decreases |prog|
  {
    if prog != [] {
      var o := Step(m, prog[0], input);
      if o.Continue? {
        ExecuteConsumesInputs(o.machine, prog[1..], input);
      }
    }
  }

  /** A register that no instruction writes keeps its value, also when the
      run halts. */
  lemma {:induction false} ExecuteFrame(m: Machine, prog: seq<Instruction>, input: seq<int>, c: char)
    requires forall k :: 0 <= k < |prog| ==> Dest(prog[k]) != Some(c)
    ensures Get(Execute(m, prog, input).machine.registers, c) == Get(m.registers, c)
    decreases |prog|
  {
    if prog != [] {
      var o := Step(m, prog[0], input);
      if o.Continue? {
        ExecuteFrame(o.machine, prog[1..], input, c);
      }
    }
  }

  /** Running two pieces one after the other is running their concatenation. */
  lemma {:induction false} ExecuteAppend(m: Machine, p: seq<Instruction>, q: seq<Instruction>, input: seq<int>)
    ensures Execute(m, p + q, input) ==
      (match Execute(m, p, input)
       case Halt(m', e) => Halt(m', e)
       case Continue(m') => Execute(m', q, input))
    decreases |p|
  {
    if p == [] {
      assert p + q == q;
    } else {
      assert (p + q)[0] == p[0];
      assert (p + q)[1..] == p[1..] + q;
      var o := Step(m, p[0], input);
      if o.Continue? {
        ExecuteAppend(o.machine, p[1..], q, input);
      }
    }
  }

  // ---------------------------------------------------------------------
  // Symbolic execution.

  /** `registers[&c]` on the symbolic map, or the literal as a constant. */
  function SymOperand(regs: map<char, Op24.Op>, o: Operand): (r: Result<Op24.Op, AluError>)
    ensures o.Literal? ==> r == Ok(Op24.Value(o.value))
    ensures o.Register? ==> (r.Ok? <==> o.name in regs)
  {
    match o
    case Literal(v) => Ok(Op24.Value(v))
    case Register(c) => if c in regs then Ok(regs[c]) else Err(UnknownRegister(c))
  }

  function MkMod(l: Op24.Op, r: Op24.Op): Op24.Op
  {
    if l == Op24.Value(0) then Op24.Value(0) else Op24.Mod(l, r)
  }

  function MkDiv(l: Op24.Op, r: Op24.Op): Op24.Op
  {
    if l == Op24.Value(0) then Op24.Value(0)
    else if r == Op24.Value(1) then l
    else Op24.Div(l, r)
  }

  function MkAdd(l: Op24.Op, r: Op24.Op): Op24.Op
  {
    if l == Op24.Value(0) then r
    else if r == Op24.Value(0) then l
    else Op24.Add(l, r)
  }

  /** A product with a 0/1 comparison becomes a conditional. */
  function MkMul(l: Op24.Op, r: Op24.Op): Op24.Op
  {
    if l == Op24.Value(1) then r
    else if r == Op24.Value(1) then l
    else if l == Op24.Value(0) || r == Op24.Value(0) then Op24.Value(0)
    else if l.Eql? then Op24.If(l, r)
    else if r.Eql? then Op24.If(r, l)
    else if l.Neql? then Op24.If(l, r)
    else if r.Neql? then Op24.If(r, l)
    else Op24.Mul(l, r)
  }

  /** A comparison folds constants, uses that inputs are digits 1 to 9, and
      simplifies comparisons of a comparison with a constant. */
  function MkEql(l: Op24.Op, r: Op24.Op): Op24.Op
  {
    if l.Value? && r.Value? then Op24.Value(if l.value == r.value then 1 else 0)
    else if l.Value? && (l.value == 0 || l.value >= 10) && r.Input? then Op24.Value(0)
    else if l.Input? && r.Value? && (r.value == 0 || r.value >= 10) then Op24.Value(0)
    else if l.Eql? && r == Op24.Value(0) then Op24.Neql(l.a, l.b)
    else if l == Op24.Value(0) && r.Eql? then Op24.Neql(r.a, r.b)
    else if l.Eql? && r == Op24.Value(1) then Op24.Eql(l.a, l.b)
    else if l == Op24.Value(1) && r.Eql? then Op24.Eql(r.a, r.b)
    else if l.Eql? && r.Value? && r.value >= 2 then Op24.Value(0)
    else if l.Value? && l.value >= 2 && r.Eql? then Op24.Value(0)
    else Op24.Eql(l, r)
  }

  function Rewrite(i: Instruction, l: Op24.Op, r: Op24.Op): Op24.Op
    requires !i.Input?
  {
    match i
    case Mod(_, _) => MkMod(l, r)
    case Div(_, _) => MkDiv(l, r)
    case Add(_, _) => MkAdd(l, r)
    case Mul(_, _) => MkMul(l, r)
    case Eql(_, _) => MkEql(l, r)
  }

  datatype SymState = SymState(registers: map<char, Op24.Op>, counter: nat)

  /** One instruction of `symbolic_execution`. */
  function SymStep(st: SymState, i: Instruction): (r: Result<SymState, AluError>)
    ensures r.Ok? ==> st.registers.Keys <= r.value.registers.Keys
    ensures r.Ok? ==> r.value.counter == st.counter + (if i.Input? then 1 else 0)
    ensures Dest(i).None? ==> r == Err(InvalidInstruction(i))
    ensures r.Ok? && i.Input? ==> i.reg in r.value.registers && r.value.registers[i.reg] == Op24.Input(st.counter)
  {
    if i.Input? then Ok(SymState(st.registers[i.reg := Op24.Input(st.counter)], st.counter + 1))
    else if i.a.Literal? then Err(InvalidInstruction(i))
    else if i.a.name !in st.registers then Err(UnknownRegister(i.a.name))
    else
      match SymOperand(st.registers, i.b)
      case Err(e) => Err(e)
      case Ok(rhs) => Ok(SymState(st.registers[i.a.name := Rewrite(i, st.registers[i.a.name], rhs)], st.counter))
  }

  function SymRun(st: SymState, prog: seq<Instruction>): Result<SymState, AluError>
    decreases |prog|
  {
    if prog == [] then Ok(st)
    else
      match SymStep(st, prog[0])
      case Err(e) => Err(e)
      case Ok(st') => SymRun(st', prog[1..])
  }

  const InitialSymbolic: SymState :=
    SymState(map['w' := Op24.Value(0), 'x' := Op24.Value(0), 'y' := Op24.Value(0), 'z' := Op24.Value(0)], 0)

  /** `Alu::symbolic_execution`: one expression per register. */
  function SymbolicExecution(prog: seq<Instruction>): Result<map<char, Op24.Op>, AluError>
  {
    match SymRun(InitialSymbolic, prog)
    case Err(e) => Err(e)
    case Ok(st) => Ok(st.registers)
  }

  // ---------------------------------------------------------------------
  // Soundness of the rewrites and of symbolic execution.

  /** Every input is a digit from 1 to 9, as the puzzle's model numbers are. */
  predicate InputsInRange(env: seq<int>)
  {
    forall k :: 0 <= k < |env| ==> 1 <= env[k] <= 9
  }

  lemma MkModSound(l: Op24.Op, r: Op24.Op, env: seq<int>, x: int, y: int)
    requires Op24.Eval(l, env) == Some(x) && Op24.Eval(r, env) == Some(y) && y != 0
    ensures Op24.Eval(MkMod(l, r), env) == Some(TMod(x, y))
  {
  }

  lemma MkDivSound(l: Op24.Op, r: Op24.Op, env: seq<int>, x: int, y: int)
    requires Op24.Eval(l, env) == Some(x) && Op24.Eval(r, env) == Some(y) && y != 0
    ensures Op24.Eval(MkDiv(l, r), env) == Some(TDiv(x, y))
  {
    if l == Op24.Value(0) {
      TDivOfZero(y);
    } else if r == Op24.Value(1) {
      TDivByOne(x);
    } else {
      assert MkDiv(l, r) == Op24.Div(l, r);
    }
  }

  lemma TDivOfZero(y: int)
    requires y != 0
    ensures TDiv(0, y) == 0
  {
    assert Abs(0) / Abs(y) == 0;
  }

  lemma TDivByOne(x: int)
    ensures TDiv(x, 1) == x
  {
    assert Abs(x) / Abs(1) == Abs(x);
  }

  lemma MkAddSound(l: Op24.Op, r: Op24.Op, env: seq<int>, x: int, y: int)
    requires Op24.Eval(l, env) == Some(x) && Op24.Eval(r, env) == Some(y)
    ensures Op24.Eval(MkAdd(l, r), env) == Some(x + y)
  {
    if l == Op24.Value(0) {
      assert x == 0;
    } else if r == Op24.Value(0) {
      assert y == 0;
    } else {
      assert MkAdd(l, r) == Op24.Add(l, r);
    }
  }

  lemma MkMulSound(l: Op24.Op, r: Op24.Op, env: seq<int>, x: int, y: int)
    requires Op24.Eval(l, env) == Some(x) && Op24.Eval(r, env) == Some(y)
    ensures Op24.Eval(MkMul(l, r), env) == Some(x * y)
  {
    if l == Op24.Value(1) || r == Op24.Value(1) || l == Op24.Value(0) || r == Op24.Value(0) {
    } else if l.Eql? || l.Neql? {
      assert x == 0 || x == 1;
    } else if r.Eql? || r.Neql? {
      assert y == 0 || y == 1;
    }
  }

  /** Folding a comparison of a constant with an input needs the inputs to
      be digits; the other rewrites hold for any inputs. */
  lemma MkEqlSound(l: Op24.Op, r: Op24.Op, env: seq<int>, x: int, y: int)
    requires InputsInRange(env)
    requires Op24.Eval(l, env) == Some(x) && Op24.Eval(r, env) == Some(y)
    ensures Op24.Eval(MkEql(l, r), env) == Some(if x == y then 1 else 0)
  {
  }

  lemma RewriteSound(i: Instruction, l: Op24.Op, r: Op24.Op, env: seq<int>, x: int, y: int)
    requires !i.Input? && InputsInRange(env)
    requires Op24.Eval(l, env) == Some(x) && Op24.Eval(r, env) == Some(y)
    requires (i.Mod? || i.Div?) ==> y != 0
    ensures Op24.Eval(Rewrite(i, l, r), env) == Some(Compute(i, x, y))
  {
    match i
    case Mod(_, _) =>
      assert Rewrite(i, l, r) == MkMod(l, r) && Compute(i, x, y) == TMod(x, y);
      MkModSound(l, r, env, x, y);
    case Div(_, _) =>
      assert Rewrite(i, l, r) == MkDiv(l, r) && Compute(i, x, y) == TDiv(x, y);
      MkDivSound(l, r, env, x, y);
    case Add(_, _) =>
      assert Rewrite(i, l, r) == MkAdd(l, r) && Compute(i, x, y) == x + y;
      MkAddSound(l, r, env, x, y);
    case Mul(_, _) =>
      assert Rewrite(i, l, r) == MkMul(l, r) && Compute(i, x, y) == x * y;
      MkMulSound(l, r, env, x, y);
    case Eql(_, _) =>
      assert Rewrite(i, l, r) == MkEql(l, r) && Compute(i, x, y) == if x == y then 1 else 0;
      MkEqlSound(l, r, env, x, y);
  }

  predicate AluRegister(c: char) { c == 'w' || c == 'x' || c == 'y' || c == 'z' }

  /** The instruction names only the four ALU registers. */
  predicate NamesAluRegisters(i: Instruction)
  {
    if i.Input? then AluRegister(i.reg)
    else (i.a.Register? ==> AluRegister(i.a.name)) && (i.b.Register? ==> AluRegister(i.b.name))
  }

  predicate HoldsAluRegisters(regs: map<char, Op24.Op>)
  {
    'w' in regs && 'x' in regs && 'y' in regs && 'z' in regs
  }

  /** Every symbolic register evaluates to the concrete register's value. */
  ghost predicate Agree(sym: map<char, Op24.Op>, regs: map<char, int>, env: seq<int>)
  {
    forall c :: c in sym ==> Op24.Eval(sym[c], env) == Some(Get(regs, c))
  }

  lemma SymStepAgrees(st: SymState, m: Machine, i: Instruction, env: seq<int>)
    requires InputsInRange(env) && NamesAluRegisters(i) && HoldsAluRegisters(st.registers)
    requires st.counter == m.counter && Agree(st.registers, m.registers, env)
    requires Step(m, i, env).Continue?
    ensures SymStep(st, i).Ok?
    ensures SymStep(st, i).value.counter == Step(m, i, env).machine.counter
    ensures HoldsAluRegisters(SymStep(st, i).value.registers)
    ensures Agree(SymStep(st, i).value.registers, Step(m, i, env).machine.registers, env)
  {
    if !i.Input? {
      var reg := i.a.name;
      var x, v := Get(m.registers, reg), OperandValue(m.registers, i.b);
      var rhs := SymOperand(st.registers, i.b).value;
      assert Op24.Eval(rhs, env) == Some(v);
      RewriteSound(i, st.registers[reg], rhs, env, x, v);
      BinaryAgrees(st, m, i, env, Rewrite(i, st.registers[reg], rhs), Compute(i, x, v));
    }
  }

  /** The destination gets agreeing values; every other register keeps its
      agreeing value. */
  lemma BinaryAgrees(st: SymState, m: Machine, i: Instruction, env: seq<int>, e: Op24.Op, v: int)
    requires !i.Input? && i.a.Register? && Agree(st.registers, m.registers, env)
    requires Op24.Eval(e, env) == Some(v)
    requires forall c :: c != i.a.name ==> Get(Step(m, i, env).machine.registers, c) == Get(m.registers, c)
    requires Get(Step(m, i, env).machine.registers, i.a.name) == v
    ensures Agree(st.registers[i.a.name := e], Step(m, i, env).machine.registers, env)
  {
  }

  lemma {:induction false} SymRunAgrees(st: SymState, m: Machine, prog: seq<Instruction>, env: seq<int>)
    requires InputsInRange(env) && HoldsAluRegisters(st.registers)
    requires forall k :: 0 <= k < |prog| ==> NamesAluRegisters(prog[k])
    requires st.counter == m.counter && Agree(st.registers, m.registers, env)
    requires Execute(m, prog, env).Continue?
    ensures SymRun(st, prog).Ok?
    ensures HoldsAluRegisters(SymRun(st, prog).value.registers)
    ensures Agree(SymRun(st, prog).value.registers, Execute(m, prog, env).machine.registers, env)
    decreases |prog|
  {
    if prog != [] {
      SymStepAgrees(st, m, prog[0], env);
      SymRunAgrees(SymStep(st, prog[0]).value, Step(m, prog[0], env).machine, prog[1..], env);
    }
  }

  /** Whenever the concrete ALU runs a program over the four registers to
      completion on digit inputs, symbolic execution succeeds and each
      register's expression evaluates to the register's concrete value. */
  lemma SymbolicExecutionSound(prog: seq<Instruction>, env: seq<int>)
    requires InputsInRange(env)
    requires forall k :: 0 <= k < |prog| ==> NamesAluRegisters(prog[k])
    requires Execute(Machine(map[], 0), prog, env).Continue?
    ensures SymbolicExecution(prog).Ok?
    ensures forall c :: AluRegister(c) ==>
      (c in SymbolicExecution(prog).value &&
       Op24.Eval(SymbolicExecution(prog).value[c], env) == Some(Get(Execute(Machine(map[], 0), prog, env).machine.registers, c)))
  {
    SymRunAgrees(InitialSymbolic, Machine(map[], 0), prog, env);
  }

  /** A binary instruction whose first operand is a literal is rejected by
      both interpreters. */
  lemma LiteralDestinationRejected(m: Machine, st: SymState, prog: seq<Instruction>, env: seq<int>)
    requires prog != [] && !prog[0].Input? && prog[0].a.Literal?
    ensures Execute(m, prog, env) == Halt(m, InvalidInstruction(prog[0]))
    ensures SymRun(st, prog) == Err(InvalidInstruction(prog[0]))
  {
  }
}
