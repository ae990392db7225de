# Advent of Code 2021 solvers, modelled in Dafny

This project models the solvers of an Advent of Code 2021 repository written
in Rust. The centrepiece is the day-24 ALU toolchain:

- a parser for the six-opcode, four-register instruction language;
- a concrete interpreter over a register map;
- a symbolic interpreter that builds expression trees and rewrites them on
  the fly;
- the printers of those trees (an infix form and a Graphviz graph);
- the search that cuts the program at each `inp`, builds one table of
  reachable `z` values per digit and reads back the largest and smallest
  accepted model numbers;
- the closed form of the fourteen program pieces.

The other days are small self-contained solvers. Each is modelled in its own
module (`DayNN`). Most start from the lines of the input file and read them
with the helpers of module `Text`, which model Rust's `str::split` and the
integer `str::parse`. Where the source reads its input with a regular
expression or with `serde_json`, the model starts from the captured or
deserialised values instead.

Conventions used throughout:

- Rust's `/` and `%` on signed integers truncate toward zero. They are
  modelled by `Common.TDiv` and `Common.TMod`.
- A panic (`unwrap` on `None`, `unimplemented!`, an index out of range) is
  modelled as an `Option` or `Result` error value, or excluded by a
  `requires` where a line under "Left out" says so.
- Integers are unbounded. Where the source's fixed width could overflow,
  the bound is stated in the contracts or listed under "Left out".

## Model

| member | source | states |
|---|---|---|
| Instr24.SkipSpaces | day-24/src/instruction.rs:50-59 | `spaces()` consumes exactly a maximal run of whitespace and returns the rest of the text |
| Instr24.TakeDigits | day-24/src/instruction.rs:39 | `many1(digit())` takes a maximal prefix of decimal digits |
| Instr24.OperandRoundTrip | day-24/src/instruction.rs:36-46 | a register letter parses back to `Register(c)` and a signed decimal literal to `Literal(v)`, leaving the following text untouched |
| Instr24.NegativeLiteralParses | day-24/src/instruction.rs:39-45 | `-` followed by digits parses to the negative literal with that value |
| Instr24.NonNegativeLiteralParses | day-24/src/instruction.rs:39-45 | digits without a sign parse to the non-negative literal with that value |
| Instr24.InputParses | day-24/src/instruction.rs:50 | `inp`, whitespace and a letter parse to `Input(letter)` |
| Instr24.BinaryRoundTrip | day-24/src/instruction.rs:51-60 | `add`/`mul`/`div`/`mod`/`eql` with two operands parse to the matching variant with the operands in source order; a literal first operand is accepted |
| Instr24.InstructionRoundTrip | day-24/src/instruction.rs:49-61 | printing any well-formed instruction and parsing it back gives the same instruction |
| Instr24.ProgramRoundTrip | day-24/src/instruction.rs:62-72 | parsing the newline-separated text of a program yields exactly that program, in order |
| Instr24.ParseFromProgramText | day-24/src/instruction.rs:62-65 | the newline-joined text of a well-formed program parses back to that program, in order |
| Instr24.ParseFromSpacedText | day-24/src/instruction.rs:62-65 | well-formed instructions separated by any non-empty whitespace, with any whitespace before the first and after the last, parse back in source order |
| Instr24.ParseInstructions | day-24/src/instruction.rs:68-72 | a parse failure reports a position inside the input |
| Instr24.MalformedOperandFails | day-24/src/instruction.rs:51-72 | a binary keyword followed by a malformed operand makes the whole parse fail, at that instruction's offset, whether it starts the text or follows any well-formed program |
| Instr24.FailedInstructionFails | day-24/src/instruction.rs:62-72 | an instruction that fails after its keyword makes the whole parse fail, at that instruction's offset, whether it starts the text or follows any well-formed program |
| Instr24.ErrorAfterProgram | day-24/src/instruction.rs:62-65 | a text that fails to parse still fails behind the text of a well-formed program, at its own offset moved past that program's text |
| Instr24.Mnemonic | day-24/src/instruction.rs:49-61 | each opcode's keyword has three letters and is recognised as that opcode |
| Instr24.OpcodeOf | day-24/src/instruction.rs:18-25 | every two-operand instruction is rebuilt from its opcode and operands |
| Op24.Eval | day-24/src/op.rs:5-16 | the meaning of an expression tree: a value is itself, comparisons give 0 or 1 |
| Op24.Apply | day-24/src/op.rs:5-16 | division and remainder are undefined exactly for a zero divisor; comparisons give 0 or 1 |
| Op24.ShowUsesTypeString | day-24/src/op.rs:19-90 | leaves print as their `type_string` label; the four arithmetic nodes print `(a <label> b)` |
| Op24.ShowBalanced | day-24/src/op.rs:82-95 | the printed form of every expression has balanced parentheses |
| Op24.ChildEdges | day-24/src/op.rs:40-64 | leaves have no edges; inner nodes have one edge per child, first child first; only `If`'s first edge is labelled "condition" and only `Div`'s second "divide by" |
| Op24.SubTermsClosed | day-24/src/op.rs:36-66 | the sub-terms of an expression include both children of every inner sub-term |
| Op24.DotGraph | day-24/src/op.rs:34-66 | `DrawnGraph`: the worklist visits every sub-term exactly once, and the edges are exactly the child edges of the visited nodes |
| Op24.ToDot | day-24/src/op.rs:67-78 | `DotText`: the text is the header `digraph N {` and a newline, one line per node of the graph the worklist draws, one line per edge of it, and `}` and a newline; that graph holds every sub-term once and exactly the child edges |
| Alu24.Touch | day-24/src/alu.rs:174-176 | `entry(c).or_default()` adds register `c` with value 0 if absent and changes no value |
| Alu24.Alu.SetRegister | day-24/src/alu.rs:174-176 | writing through `register_mut` sets that register and leaves every other register as it was |
| Alu24.TouchOperand | day-24/src/alu.rs:51-56 | reading a register operand creates it with 0; a literal changes nothing |
| Alu24.Compute | day-24/src/alu.rs:24-40 | `eql` gives 1 exactly when the values are equal and 0 otherwise; `mod` of a non-negative value lies in `[0, |v|)` |
| Alu24.Step | day-24/src/alu.rs:17-43 | one instruction changes only its destination register; `inp` stores the next tape value and advances the counter, and halts with `NoAluInputLeft` exactly on an empty tape; a literal destination halts with `InvalidInstruction` |
| Alu24.Execute | day-24/src/alu.rs:15-44 | running instructions never removes a register |
| Alu24.Alu.constructor | day-24/src/alu.rs:9-12 | a new ALU has no registers |
| Alu24.Alu.Reset | day-24/src/alu.rs:47-49 | `reset` empties the register map, so every register reads 0 again |
| Alu24.Alu.GetValue | day-24/src/alu.rs:51-56 | a register never written reads as 0 and is created; a literal is its value |
| Alu24.Alu.RegisterMut | day-24/src/alu.rs:174-176 | `register_mut` creates the register with 0 if absent and yields its value |
| Alu24.Alu.Register | day-24/src/alu.rs:178-180 | `register` reads an existing register |
| Alu24.Alu.Run | day-24/src/alu.rs:15-44 | the run leaves the registers as `Execute` says and reports the error `Execute` halts with |
| Alu24.ExecuteConsumesInputs | day-24/src/alu.rs:19-23 | a completed run read one tape value per `inp` |
| Alu24.ExecuteFrame | day-24/src/alu.rs:24-40 | a register no instruction writes keeps its value |
| Alu24.ExecuteAppend | day-24/src/alu.rs:17-43 | running `p + q` is running `p`, then `q` from where `p` stopped |
| Alu24.SymOperand | day-24/src/alu.rs:76-162 | a literal becomes `Value`, and a register operand resolves exactly when the register is bound |
| Alu24.SymStep | day-24/src/alu.rs:70-164 | the k-th `inp` binds its register to `Input(k)`; a literal destination gives `InvalidInstruction`; no register is lost |
| Alu24.MkModSound | day-24/src/alu.rs:76-89 | the `%` rewrites (`0 % x` to 0) keep the value |
| Alu24.MkDivSound | day-24/src/alu.rs:90-104 | the `/` rewrites (`0 / x` to 0, `x / 1` to x) keep the value |
| Alu24.MkAddSound | day-24/src/alu.rs:105-119 | the `+` rewrites (`0 + x` and `x + 0` to x) keep the value |
| Alu24.MkMulSound | day-24/src/alu.rs:120-140 | the `*` rewrites (`x * 0`, `x * 1`, a 0/1 mask times a value to `If`) keep the value |
| Alu24.MkEqlSound | day-24/src/alu.rs:141-162 | the `eql` rewrites (constant folding, an input against 0 or a value of 10 or more, nested comparisons to `Neql`) keep the value when every input is a digit 1..9 |
| Alu24.RewriteSound | day-24/src/alu.rs:76-162 | every rewritten node evaluates to what the concrete instruction computes |
| Alu24.SymStepAgrees | day-24/src/alu.rs:17-164 | one symbolic step keeps the symbolic registers evaluating to the concrete ones |
| Alu24.SymRunAgrees | day-24/src/alu.rs:15-167 | a whole symbolic run agrees with the concrete run, register by register |
| Alu24.SymbolicExecutionSound | day-24/src/alu.rs:58-167 | symbolic execution from `w,x,y,z = 0` succeeds wherever the concrete run does, and each register's expression evaluates to the concrete register |
| Alu24.LiteralDestinationRejected | day-24/src/alu.rs:41-163 | an instruction with a literal first operand is rejected with `InvalidInstruction`, both concretely and symbolically |
| Example24.BinaryProgramParses | day-24/src/main.rs:118-121 | the example program text parses to the eleven-instruction binary conversion program |
| Example24.BinaryDigits | day-24/src/main.rs:118-139 | for any non-negative input the example program leaves its four low bits in `w,x,y,z` |
| Example24.ConvertBinary | day-24/src/main.rs:118-139 | input 3 gives `w,x,y,z = 0,0,1,1` and input 8 gives `1,0,0,0` |
| Example24.BinarySymbolic | day-24/src/main.rs:141-145 | symbolic execution of the example binds `w..z` to the bits of `input0`, from the fourth bit down |
| Example24.BinarySymbolicText | day-24/src/main.rs:146-152 | the four expressions print as `((((input0 / 2) / 2) / 2) % 2)` down to `(input0 % 2)` |
| Search24.SubprogramsShape | day-24/src/main.rs:36-39 | cutting at `inp` and dropping empty pieces leaves non-empty pieces without `inp` whose concatenation is the program without its `inp`s |
| Search24.SubprogramsOfJoin | day-24/src/main.rs:36-39 | a program made of `inp` plus body, body after body, splits into exactly those bodies |
| Search24.RunOne | day-24/src/main.rs:65-68 | a fresh ALU with `z` and `w` set runs the piece on the tape `[w]`; the result is the `z` it ends with |
| Search24.TableOfFails | day-24/src/main.rs:64-73 | building a table fails exactly when some run fails |
| Search24.TableOfSound | day-24/src/main.rs:69-72 | every pair stored under a key came from the inputs tried and its run reaches that key |
| Search24.TableOfComplete | day-24/src/main.rs:69-72 | every pair tried is stored under the key its run reaches |
| Search24.TableOfNonEmpty | day-24/src/main.rs:69-72 | no key of a table is without pairs |
| Search24.PairsMembers | day-24/src/main.rs:46-54 | the pairs tried are exactly a digit 1..9 with a key of the previous table |
| Search24.PartialSolution | day-24/src/main.rs:45-73 | the nested loop on the `Alu` object builds the table `TableOf` describes |
| Search24.AddRow | day-24/src/main.rs:64-72 | running every key with input digit `d` extends the table of the digits before `d` to the table of the pairs up to `d`; a failing run fails the whole table |
| Search24.KeysOf | day-24/src/main.rs:48-53 | the keys of a table are enumerated once each |
| Search24.TableOfIsTableFor | day-24/src/main.rs:45-73 | a table built over the previous keys holds exactly the runs from those keys |
| Search24.PartialSolutions | day-24/src/main.rs:42-75 | table k is built from `{0}` for k = 0 and the keys of table k-1 otherwise; the loop stops at the first failing run |
| Search24.Better | day-24/src/main.rs:93-109 | the maximum (minimum) of the candidates that exist, `None` when there is none |
| Search24.SolveWitness | day-24/src/main.rs:88-112 | `Solve`: every result of `solve_max`/`solve_min` is spelled, last table least significant, by a path through the tables |
| Search24.SolveOptimal | day-24/src/main.rs:88-112 | every path through the tables is found, none beats `solve_max`, and none is below `solve_min` |
| Search24.SolveMinAtMostMax | day-24/src/main.rs:88-112 | `solve_min` never exceeds `solve_max` |
| Search24.PathChain | day-24/src/main.rs:88-112 | a path through complete tables spells digits 1..9 whose chain of runs ends at the path's target |
| Search24.ChainPath | day-24/src/main.rs:42-75 | digits whose chain of runs reaches a value spell a path through the tables to it |
| Search24.KeyReached | day-24/src/main.rs:42-75 | every key a table starts from is reached by some digits |
| Search24.SolveCorrect | day-24/src/main.rs:77-112 | on complete tables, `solve_max(.., 0)` is the largest and `solve_min(.., 0)` the smallest accepted model number, and both are `None` exactly when none is accepted |
| Search24.ModelNumbers | day-24/src/main.rs:34-79 | the pipeline panics exactly when there are not 14 pieces or a reachable run fails; otherwise part 1 is the largest and part 2 the smallest accepted model number |
| Generated24.Prog | day-24/src/generated.rs:2-185 | `prog` is defined exactly for indices 0..13 |
| Generated24.ProgShape | day-24/src/generated.rs:5-184 | each piece is one shape with its own divide flag, offset and addend |
| Generated24.PushAppends | day-24/src/generated.rs:6-18 | for indices 0,1,2,4,5,8,10, a digit and a non-negative `z`, the test always differs and the result is `26*z + w + k` |
| Generated24.PopMatchDrops | day-24/src/generated.rs:45-57 | for the dividing indices, a matching test gives `z / 26` |
| Generated24.PopMismatchReplaces | day-24/src/generated.rs:45-57 | for the dividing indices, a differing test gives `(z / 26) * 26 + w + k` |
| Generated24.TwelveComparesDirectly | day-24/src/generated.rs:162-169 | index 12 compares `z % 26` with `w` directly |
| Generated24.ProgNonNegative | day-24/src/generated.rs:2-185 | a digit and a non-negative `z` give a non-negative result |
| Generated24.PushIsStackPush | day-24/src/generated.rs:6-18 | a push stacks `w + k` as a new base-26 digit over the old `z` |
| Day17.Signum | day-17/src/main.rs:27 | `signum` is -1, 0 or 1, and times the value gives its magnitude |
| Day17.Next | day-17/src/main.rs:21-28 | a step adds the velocity to the position, moves the horizontal velocity one toward zero (zero stays zero) and lowers the vertical velocity by one |
| Day17.ProbeState.constructor | day-17/src/main.rs:14-18 | `ProbeState::default()` is at the origin with zero velocity |
| Day17.ProbeState.Step | day-17/src/main.rs:21-28 | `step` changes the state in place to the next state of the probe |
| Day17.StepsVertical | day-17/src/main.rs:26-27 | after `n` steps the vertical velocity is `vy - n` and the height has risen by `n * vy - n * (n - 1) / 2` |
| Day17.StepsHorizontal | day-17/src/main.rs:26-27 | with `vx >= 0`, after `n` steps the horizontal velocity is `max(vx - n, 0)`, and the probe has moved `n * vx - n * (n - 1) / 2` while `n <= vx` and `vx * (vx + 1) / 2` after |
| Day17.StepsMoving | day-17/src/main.rs:26-27 | while drag has not stopped it, the probe slows by one each step and covers the triangular distance |
| Day17.StepsStopped | day-17/src/main.rs:27 | once the horizontal velocity is zero, the horizontal position never changes |
| Day17.StepsSplit | day-17/src/main.rs:72-73 | `a + b` steps are `a` steps and then `b` more |
| Day17.MakeTarget | day-17/src/main.rs:58-61 | the ranges run from the smaller bound to the larger, whichever order the bounds came in |
| Day17.MakeTargetContains | day-17/src/main.rs:37-41 | `contains` on the normalised area holds exactly when each coordinate lies between its two bounds |
| Day17.ParseTarget | day-17/src/main.rs:53-61 | the area exists exactly when all four captures parse as `i64`, and then spans the parsed bounds |
| Day17.ParseTargetOfNumbers | day-17/src/main.rs:53-56 | bounds written in decimal parse back as the area they span |
| Day17.FlyEnds | day-17/src/main.rs:72-80 | the simulation steps only from a height not below the area and never from inside it; it hits at the first step in the area with the greatest height so far, and misses once a step is below the area |
| Day17.PeakBound | day-17/src/main.rs:74 | when no step is higher than a bound, the greatest height kept is not either |
| Day17.HeightBound | day-17/src/main.rs:65-82 | a launch with vertical velocity `vy` that hits reports a height of at most `vy * (vy + 1) / 2` |
| Day17.StepBelowPeak | day-17/src/main.rs:26-27 | from the origin no step is above `vy * (vy + 1) / 2` |
| Day17.Launch | day-17/src/main.rs:69-80 | the closure's loop on a fresh `ProbeState` gives the launch's outcome: the greatest height when it hits, `None` when it falls below |
| Day17.Velocity | day-17/src/main.rs:65-67 | the `i`-th velocity of the product has `0 <= vx < 400` and `-400 <= vy < 400` |
| Day17.VelocityOf | day-17/src/main.rs:65-67 | the product lists every velocity of the two ranges, `vx` major |
| Day17.Better | day-17/src/main.rs:68-82 | `max` over the heights present: absent only when both are, and the greater of those present |
| Day17.Hits | day-17/src/main.rs:76-77 | each launch counts at most once toward part two |
| Day17.BestIsMax | day-17/src/main.rs:65-82 | part one is the height of a launch that hits, no hitting launch is higher, and it is `None` exactly when no launch hits |
| Day17.HitsNone | day-17/src/main.rs:63-82 | part two is zero exactly when part one is `None` |
| Day17.Search | day-17/src/main.rs:63-82 | the search over all 320000 launches gives the greatest height of a hit and the number of hits |
| Day17.Solve | day-17/src/main.rs:53-82 | a capture that does not parse is an error, and otherwise both answers of the search over the area |
| Day17.Part1Bound | day-17/src/main.rs:65-82 | part one is reached by a launch in range and is at most `vy * (vy + 1) / 2` for its `vy` |
| Day18.AddNested | day-18/src/main.rs:28-38 | `add_nested` with no tree gives no tree, and with a tree gives one |
| Day18.AddNestedLeaves | day-18/src/main.rs:28-38 | following child 0 adds to the first number, child 1 to the last number; the shape is unchanged |
| Day18.AddLeftmost | day-18/src/main.rs:61 | the value handed right is added to the leftmost number of the right neighbour |
| Day18.AddRightmost | day-18/src/main.rs:66 | the value handed left is added to the rightmost number of the left neighbour |
| Day18.SplitLeaves | day-18/src/main.rs:17-26 | a split, when it happens, replaces the first number of 10 or more by `n/2` and `(n+1)/2` and changes nothing else; no split leaves the tree unchanged with every number below 10 |
| Day18.SplitIffBig | day-18/src/main.rs:17-26 | `Split`: the split flag is true exactly when some number is 10 or more |
| Day18.SplitKeepsSum | day-18/src/main.rs:20 | a split keeps the sum of the numbers |
| Day18.SplitDepth | day-18/src/main.rs:17-26 | a split deepens the tree by at most one pair |
| Day18.ExplodeLeaves | day-18/src/main.rs:40-83 | `Explode`: an explosion turns an adjacent pair `a, b` of numbers into one 0, adds `a` to the number before it and `b` to the number after it; a value with no number on its side is dropped at the top |
| Day18.ExplodeUnchanged | day-18/src/main.rs:46-53 | nothing explodes exactly when no pair sits inside four pairs |
| Day18.ExplodeReachable | day-18/src/main.rs:54-74 | the `unreachable!()` branches cannot be reached while no pair sits inside five pairs |
| Day18.ExplodeDepth | day-18/src/main.rs:40-83 | an explosion never deepens the tree |
| Day18.Reduce | day-18/src/main.rs:13-15 | a reduction that reports no change leaves the tree as it was |
| Day18.ReduceStops | day-18/src/main.rs:13-15 | a tree that reduction leaves alone has no pair inside four pairs and no number of 10 or more |
| Day18.ReducedStays | day-18/src/main.rs:13-15 | a reduced tree is left alone by reduction |
| Day18.ReduceKeepsDepth | day-18/src/main.rs:13-15 | from a tree of depth at most 5, a round of reduction never panics and keeps depth at most 5 |
| Day18.SumOfReducedDepth | day-18/src/main.rs:86 | pairing two reduced numbers gives depth at most 5 |
| Day18.ReduceFullyReduced | day-18/src/main.rs:85-89 | repeated reduction, when it stops, leaves a reduced number |
| Day18.Add | day-18/src/main.rs:85-89 | `snail_fish_add` pairs the numbers and reduces until nothing changes; its result is reduced |
| Day18.MagnitudeBounds | day-18/src/main.rs:91-97 | `Magnitude`: a magnitude lies between the sum of the numbers and `3^depth` times that sum |
| Day18.SumAll | day-18/src/main.rs:103-108 | part 1 has no sum without numbers, and the number itself for one number |
| Day18.SumAllReduced | day-18/src/main.rs:103-108 | the sum of several numbers is reduced |
| Day18.Join | day-18/src/main.rs:112-116 | a failed sum makes the whole maximum fail |
| Day18.Part2IsMax | day-18/src/main.rs:112-116 | part 2 is at least the magnitude of every sum of two distinct numbers, in both orders, and equals one of them |
| Day16.HexValue | day-16/src/main.rs:144 | a character is a hexadecimal digit exactly when it has a value, which is below 16 |
| Day16.HexBitsValue | day-16/src/main.rs:142-145 | the bit string has four bits per hexadecimal digit, skips every character that is not a hexadecimal digit and spells the same number |
| Day16.OpOf | day-16/src/main.rs:88-97 | type 4 and values of 8 or more select no operator; every other 3-bit type selects one |
| Day16.TypeId | day-16/src/main.rs:88-97 | every operator has a 3-bit type other than 4 that selects it |
| Day16.LiteralAt | day-16/src/main.rs:36-47 | a decoded literal takes a positive whole number of 5-bit groups and fits in 64 bits |
| Day16.PackageAt | day-16/src/main.rs:73-100 | a decoded package takes at least six bits and has a 3-bit version |
| Day16.OperatorAt | day-16/src/main.rs:49-71 | an operator's sub-packets start after at least twelve framing bits |
| Day16.CountChildren | day-16/src/main.rs:60-63 | count mode yields exactly the announced number of sub-packets |
| Day16.LengthChildren | day-16/src/main.rs:64-69 | length mode stops at or after the announced end |
| Day16.OperatorAtShort | day-16/src/main.rs:51-54 | running out of bits inside the framing field is an error |
| Day16.LiteralRoundTrip | day-16/src/main.rs:36-47 | reading literal groups appends their payloads to the buffer and stops after the first group whose lead bit is 0 |
| Day16.RoundTrip | day-16/src/main.rs:73-100 | decoding the bits of any well-formed package, in either framing, gives it back and stops right after it |
| Day16.DecodeEncode | day-16/src/main.rs:73-100 | decoding is a left inverse of encoding on well-formed packages |
| Day16.VersionSumsIsSum | day-16/src/main.rs:102-108 | the version sum of the children is the sum of their version sums |
| Day16.Evaluate | day-16/src/main.rs:120-131 | a comparison evaluates to 0 or 1 |
| Day16.Fold | day-16/src/main.rs:115-119 | sum and product always have a value; min and max fail exactly without sub-packets and are a least and a greatest element |
| Day16.ComparisonMeaning | day-16/src/main.rs:120-131 | a comparison is 1 exactly when the first value passes the test against every later one |
| Day16.ComparisonIsLazy | day-16/src/main.rs:120-131 | the comparison stops at the first failing sub-packet, so a later panicking one is not reached |
| Day16Decoder.Decoder.constructor | day-16/src/main.rs:147-149 | the iterator starts at the first bit with nothing consumed |
| Day16Decoder.Decoder.Next | day-16/src/main.rs:40 | the iterator yields the next bit and advances, or yields nothing at the end |
| Day16Decoder.Decoder.Push | day-16/src/main.rs:52-54 | pushing `width` bits appends exactly the next `width` bits to the buffer, or fails when fewer remain |
| Day16Decoder.Decoder.ParseLiteral | day-16/src/main.rs:36-47 | the loop computes `LiteralAt` and `consumed` grows by the bits taken |
| Day16Decoder.Decoder.ParsePackage | day-16/src/main.rs:73-100 | the method computes `PackageAt` and `consumed` grows by the bits taken |
| Day16Decoder.Decoder.ParseOperator | day-16/src/main.rs:49-71 | the method computes `OperatorAt` and `consumed` grows by the bits taken |
| Day16Decoder.Decoder.ParseCount | day-16/src/main.rs:60-63 | the count loop computes `CountChildren` |
| Day16Decoder.Decoder.ParseLength | day-16/src/main.rs:64-69 | the loop on `consumed` computes `LengthChildren` |
| Day16Decoder.Solve | day-16/src/main.rs:147-156 | the answers are the version sum and the value of the package decoded from the input's bits |
| Day14.TallyMeaning | day-14/src/main.rs:34-35 | slot `i` of a letter count is the number of occurrences of the `i`-th capital |
| Day14.PairCountsMeaning | day-14/src/main.rs:17-41 | the recursion `expand_chars` memoises counts exactly the letters a pair grows into after `steps` rounds, less its first letter |
| Day14.PairCountsStuck | day-14/src/main.rs:32-37 | a pair without a rule, or with no rounds left, counts its second letter once and nothing else |
| Day14.PairCountsTotal | day-14/src/main.rs:17-41 | the counts of a pair add up to the length of what it grows into, less one |
| Day14.Cache.constructor | day-14/src/main.rs:84 | the cache starts empty |
| Day14.Cache.ExpandChars | day-14/src/main.rs:17-41 | the result is the memoised recursion's value, every cache entry stays equal to that recursion, and no entry is lost |
| Day14.Cache.Expand | day-14/src/main.rs:43-58 | the counts are the letter counts of the template grown `steps` rounds; no answer for an empty template |
| Day14.ExpandTotal | day-14/src/main.rs:43-58 | the counts `expand` returns add up to the length of the grown polymer |
| Day14.Spread | day-14/src/main.rs:87-93 | there is no answer exactly when every count is zero |
| Day14.SpreadIsLargestDifference | day-14/src/main.rs:87-93 | the answer is the largest difference between two non-zero counts, and two counts attain it |
| Day14.Solve | day-14/src/main.rs:84-96 | parts 1 and 2 are the spreads of the letter counts after 10 and 40 rounds, sharing one cache; an empty template gives no answer |
| Day21.ComputeFrequencies | day-21/src/main.rs:17-25 | counting the 27 outcomes of three three-sided rolls gives the frequencies 1, 3, 6, 7, 6, 3, 1 of the sums 3 to 9 |
| Day21.FrequenciesTotal | day-21/src/main.rs:17-25 | the frequencies add up to 27 and each is the number of roll triples with that sum |
| Day21.Advance | day-21/src/main.rs:49-53 | the new square lies in 1..10 and is congruent to the old square plus the sum modulo 10 |
| Day21.Turn | day-21/src/main.rs:49-61 | only the player to move moves and scores the square reached; the other is untouched and the turn flag flips |
| Day21.TurnApproaches | day-21/src/main.rs:54-61 | a turn of a game that is not over brings the players closer to the target, so the recursion ends |
| Day21.WinsSymmetric | day-21/src/main.rs:36-73 | exchanging the players' scores, squares and turn exchanges the two win counts |
| Day21.WinsCount | day-21/src/main.rs:36-73 | a finished game counts one universe and a running one at least 27 |
| Day21.QuantumCache.constructor | day-21/src/main.rs:109 | the cache starts empty |
| Day21.QuantumCache.PlayQuantum | day-21/src/main.rs:29-74 | the result is the frequency-weighted count of wins, player 1's win checked first, and every cache entry stays equal to it |
| Day21.Part2 | day-21/src/main.rs:109-113 | part 2 is the larger win count from the starting squares with target 21 |
| Day21.ClosedFormStep | day-21/src/main.rs:91-104 | the closed form for a player's square after each turn agrees with moving by the next three rolls of the deterministic die, wrap at 100 included |
| Day21.PracticeEnds | day-21/src/main.rs:91-104 | the practice game stops with exactly one player at the target, after a multiple of three rolls |
| Day21.Part1 | day-21/src/main.rs:89-106 | the closed-form loop gives the loser's score times the rolls of the game played roll by roll to 1000 |
| Day06.FishNone | day-06/src/main.rs:19-21 | with no days left a fish counts only itself |
| Day06.FishFirstWeek | day-06/src/main.rs:19-24 | with one to seven days left a fish counts itself and one child |
| Day06.FishRecurrence | day-06/src/main.rs:19-24 | after its first spawn a fish counts as itself seven days on plus its child nine days on |
| Day06.FishIsPopulation | day-06/src/main.rs:15-28 | `fish(days - timer)` equals the population a day-by-day simulation grows from one fish with that timer |
| Day06.FishCache.constructor | day-06/src/main.rs:52 | the cache starts empty |
| Day06.FishCache.CountFish | day-06/src/main.rs:15-28 | the loop over spawning days computes the recurrence, and every cache entry stays equal to it |
| Day06.School | day-06/src/main.rs:53-62 | the answer is the sum of `fish(days - timer)` over the school |
| Day06.TotalIsPopulation | day-06/src/main.rs:53-62 | that sum is the simulated population of the whole school |
| Day06.Solve | day-06/src/main.rs:52-63 | parts 1 and 2 are the school after 80 and 256 days, sharing one cache |
| Day11.ProcessCount | day-11/src/main.rs:33-49 | the flashes `process` counts equal the drop in the number of octopuses below 10: each flash is one level reaching exactly 10 |
| Day11.ProcessGrows | day-11/src/main.rs:33-49 | `process` never lowers a level, leaves negative levels alone, and raises the level at its position when that is on the grid and not negative |
| Day11.ProcessGrid | day-11/src/main.rs:23-49 | a position off the grid, including a negative one, changes nothing and flashes nothing; the grid keeps its rows |
| Day11.Octopuses.Process | day-11/src/main.rs:33-49 | the recursive in-place `process` leaves the grid and returns the flash count of the reference `ProcessGrid` |
| Day11.SweepCount | day-11/src/main.rs:52-57 | the flashes of the `for y`/`for x` sweep equal the drop in octopuses below 10 |
| Day11.SweepRaises | day-11/src/main.rs:52-57 | the sweep raises every non-negative cell it visits, and the grid keeps its shape |
| Day11.Reset | day-11/src/main.rs:59-63 | every level above 9 becomes 0 and every other level stays |
| Day11.Octopuses.ResetAll | day-11/src/main.rs:59-63 | the in-place reset loop leaves exactly the grid `Reset` describes |
| Day11.Octopuses.Step | day-11/src/main.rs:51-66 | one in-place step leaves the grid and returns the flash count of the reference `StepGrid` |
| Day11.StepOfDigits | day-11/src/main.rs:51-66 | on a rectangular grid of digits a step leaves digits, and its flashes are the octopuses at 0 afterwards |
| Day11.SynchronisedStep | day-11/src/main.rs:81-85 | a step that flashes all `len * len[0]` octopuses leaves every octopus at 0 |
| Day11.Octopuses.constructor | day-11/src/main.rs:77 | the mutable grid starts as a copy of the input |
| Day11.Part1 | day-11/src/main.rs:77-78 | part 1 is the total flashes of the first 100 steps |
| Day11.Part2 | day-11/src/main.rs:81-85 | part 2 steps the grid until one step flashes all octopuses and answers that step's 1-based number; an empty grid gives no answer |
| Day11.FirstWithMeaning | day-11/src/main.rs:82-85 | `find_position` gives the first index with the value sought, and with no answer no index in the range has it |
| Day11.SyncFromSeries | day-11/src/main.rs:82-85 | the step loop answers one more than the first position of the flash series at which `size` octopuses flash |
| Day11.FirstSyncMeaning | day-11/src/main.rs:81-85 | the answer of part 2 is the first step that flashes every octopus: that step does and no earlier one does |
| Day20.Offset | day-20/src/main.rs:101 | each neighbour offset lies in `-1..=1` in both directions |
| Day20.Code | day-20/src/main.rs:100-110 | the encoded neighbourhood is below 512 |
| Day20.CodeBit | day-20/src/main.rs:100-110 | the neighbourhood is encoded row by row, `dy` outer and `dx` inner, first pixel most significant: bit `8 - k` of the code is the pixel at the `k`-th offset |
| Day20.Image.Encode | day-20/src/main.rs:100-110 | the nine shift-and-or rounds compute the code of the neighbourhood, reading the background outside the old rectangle |
| Day20.Image.FillRow | day-20/src/main.rs:99-115 | one row of the widened rectangle gains exactly its pixels whose code decodes to `'#'` |
| Day20.Image.Step | day-20/src/main.rs:85-122 | `next` is cleared and gets the widened ranges, the decoded pixels and the new background, keeping its own decode string |
| Day20.EnhanceInside | day-20/src/main.rs:92-116 | every pixel a step lights lies inside the new ranges |
| Day20.CodeOutside | day-20/src/main.rs:103-107 | a pixel outside the widened rectangle reads only background, so its code is 0 or 511 |
| Day20.StepIsEnhancement | day-20/src/main.rs:98-121 | after a step every pixel of the infinite plane, inside the new rectangle or outside it, is lit exactly when its old neighbourhood decodes to `'#'`, so the background rule matches the decoding of an all-dark or all-lit neighbourhood |
| Day20.StepWellFormed | day-20/src/main.rs:117-121 | a 512-character decode string of `'#'` and `'.'` keeps the background one of the two |
| Day20.StepsWellFormed | day-20/src/main.rs:133-143 | every image the steps reach stays well formed |
| Day20.NonEmptyLines | day-20/src/main.rs:59-61 | the image rows are the lines after the first with the empty ones dropped |
| Day20.RowXMax | day-20/src/main.rs:64-72 | the largest column holding `'#'` in a row, or 0 |
| Day20.XMax | day-20/src/main.rs:57-76 | `x_max` bounds every `'#'` column and is 0 or the column of some `'#'` |
| Day20.Parse | day-20/src/main.rs:54-56 | parsing fails exactly when there is no first line |
| Day20.ParseMeaning | day-20/src/main.rs:54-83 | the parsed image lights exactly the `'#'` cells, has ranges `0..=x_max` and `0..=y_max` with `y_max` the last row, a dark background, and lies inside its ranges |
| Day20.FromLines | day-20/src/main.rs:54-83 | `from_str` builds a fresh image holding the parsed state |
| Day20.Image.constructor | day-20/src/main.rs:46-53 | a new image has no pixels, the ranges `0..=0` and a dark background |
| Day20.Image.Load | day-20/src/main.rs:77-82 | the image holds the given fields |
| Day20.Advance | day-20/src/main.rs:133-143 | stepping into the other image and swapping, `count` times, leaves the image `count` steps further on in the first one |
| Day20.Solve | day-20/src/main.rs:125-146 | the answers are the numbers of lit pixels after 2 and after 50 steps |
| Day25.BeforeAfter | day-25/src/main.rs:55-56 | the wrapping left and right neighbours (`(x + width - 1) % width`, `(x + width + 1) % width`) undo each other, so the grid is a ring in each direction |
| Day25.EastRowsMoveMeaning | day-25/src/main.rs:51-69 | the `change` flag after scanning the first `y` rows of the east phase is set exactly when some cell among them moves |
| Day25.SouthRowsMoveMeaning | day-25/src/main.rs:71-88 | the same for the south phase |
| Day25.EastChangedIff | day-25/src/main.rs:51-69 | the east phase reports a move exactly when it produces a grid different from its input |
| Day25.SouthChangedIff | day-25/src/main.rs:71-88 | the south phase reports a move exactly when it produces a grid different from its input |
| Day25.StepChangedIff | day-25/src/main.rs:51-93 | a whole step sets `change` exactly when the grid after both phases differs from the one before, although the south phase alone might look like it could undo the east one |
| Day25.EastRowKeepsEast | day-25/src/main.rs:52-69 | on one row the east phase keeps the number of `'>'`: each one leaving its cell arrives in the next, around the wrap |
| Day25.EastKeepsHerds | day-25/src/main.rs:52-69 | the east phase keeps the numbers of `'>'` and `'v'` on the grid |
| Day25.SouthKeepsSouth | day-25/src/main.rs:71-88 | the south phase keeps the number of `'v'`, each one leaving arriving in the row below, around the wrap |
| Day25.SouthKeepsEast | day-25/src/main.rs:71-88 | the south phase keeps the number of `'>'` |
| Day25.StepKeepsHerds | day-25/src/main.rs:51-89 | a whole step keeps both herds' sizes |
| Day25.FirstStillMeaning | day-25/src/main.rs:41-95 | the reported step number is the first step after which the grid is as it was before it, counting that step, and every earlier step changes the grid; with no such step within the fuel, every step changes it |
| Day25.EastPhaseRow | day-25/src/main.rs:53-68 | one row of `dst` becomes the east phase of that row of `src`, every other row of `dst` is untouched, and the flag says whether a cell of the row moved |
| Day25.EastPhase | day-25/src/main.rs:51-69 | `dst` becomes the east phase of `src`, all cells decided on the unchanged `src`, with the flag of the phase |
| Day25.SouthPhaseRow | day-25/src/main.rs:72-87 | one row of `dst` becomes the south phase at that row, every other row untouched |
| Day25.SouthPhase | day-25/src/main.rs:71-88 | `dst` becomes the south phase of `src`, with the flag of the phase |
| Day25.Load | day-25/src/main.rs:24-39 | a zeroed `height x width` buffer holds, in row `y`, the non-space characters of the `y`-th non-empty line and zero elsewhere |
| Day25.Run | day-25/src/main.rs:41-94 | phases into the other buffer and swaps, step after step, returning the number of the first step that moves nothing |
| Day25.Solve | day-25/src/main.rs:17-95 | no first line is an error; otherwise the answer is the first still step of the loaded grid, whose height is the number of lines and whose width is the length of the first line |
| Day23.KindsOfAmphipods | day-23/src/main.rs:223-225 | `A` to `D` are indices 0 to 3, live in the rooms below hallway positions 3, 5, 7 and 9 and pay 1, 10, 100 and 1000 per step |
| Day23.LetterToIdx | day-23/src/main.rs:223-225 | a letter from `'A'` on has an index below 4 exactly when it is at most `'D'` |
| Day23.Between | day-23/src/main.rs:98-102 | the inclusive range between two positions, lower end first, has exactly the two positions as ends |
| Day23.FreeFrom | day-23/src/main.rs:105-108 | the run of free slots of a room from a given depth: every slot up to the result is free and the one below it is not, or the room ends |
| Day23.FreeHouse | day-23/src/main.rs:105-108 | `free_house` is nothing exactly when the room has no depth or its top slot is taken; otherwise it is a slot of that room, every slot above it down to it is free and the one below it is taken or absent |
| Day23.MinOption | day-23/src/main.rs:170-176 | the minimum of two optional costs is one of them, nothing only when both are nothing, and no larger than either |
| Day23.Least | day-23/src/main.rs:170 | `.min()` over a set of costs is nothing exactly for the empty set, and otherwise a member no larger than any other |
| Day23.LeastAdd | day-23/src/main.rs:135-170 | the minimum over one more candidate is the minimum of the old minimum and the candidate, so the costs can be folded in any order |
| Day23.RankUpdate | day-23/src/main.rs:87-218 | replacing one amphipod changes the measure by the difference of the two states; since every move turns `Wrong` into `Parked` or `Correct` and `Parked` into `Correct`, every recursive call is on a state of smaller measure |
| Day23.ReplaceWellPlaced | day-23/src/main.rs:110-111 | putting an amphipod into a free slot or a free hallway position keeps every amphipod in a slot or position of its own |
| Day23.HomeFromRoomConsistent | day-23/src/main.rs:104-117 | after a `Wrong` amphipod goes home the hallway tokens are unchanged, and the room tokens gain the slot it left and lose the slot it took, so the tokens are still the free positions of the new state |
| Day23.ParkConsistent | day-23/src/main.rs:144-155 | after a `Wrong` amphipod parks the hallway tokens lose its place and the room tokens gain its slot, and they are still the free positions of the new state |
| Day23.HomeFromHallwayConsistent | day-23/src/main.rs:192-204 | after a `Parked` amphipod goes home the hallway tokens gain its place and the room tokens lose the slot it took, still the free positions of the new state |
| Day23.Solver.constructor | day-23/src/main.rs:314-319 | a new cache is empty |
| Day23.Solver.SolveCached | day-23/src/main.rs:41-54 | the cached wrapper returns the search from the state, stored or computed and stored; every stored result stays the search from its key, and the array is back as it came in |
| Day23.Solver.Solve | day-23/src/main.rs:56-221 | `Search`, `BestFrom`: `solve_hallway` returns `Some(0)` when every amphipod is `Correct` and otherwise the cheapest over every amphipod's moves, leaving the array as it found it |
| Day23.Solver.TryMoves | day-23/src/main.rs:87-219 | a `Correct` amphipod has no move; a `Wrong` one moves only when the slots above it are free, and then home or into the hallway; a `Parked` one only goes home |
| Day23.Solver.TryHomeFromRoom | day-23/src/main.rs:97-133 | a `Wrong` amphipod goes home when the hallway from its room to its target is free and its room has a free top slot, paying `move_cost` times the depth it leaves, the depth it reaches and the distance; the array is restored |
| Day23.Solver.TryPark | day-23/src/main.rs:134-171 | the cheapest parking over all hallway tokens, whatever order the set yields them in |
| Day23.Solver.TryParkNext | day-23/src/main.rs:137-170 | one more token folded into the running minimum of the parking costs |
| Day23.Solver.TryParkAt | day-23/src/main.rs:138-168 | parking at one place needs the hallway from the room to the place free, costs `move_cost` times the depth plus the distance, and restores the array |
| Day23.Solver.TryHomeFromHallway | day-23/src/main.rs:181-217 | a `Parked` amphipod goes home over the hallway between its place, excluded, and its room, costing `move_cost` times depth plus distance, and the array is restored |
| Day23Moves.Apply | day-23/src/main.rs:87-218 | a legal move never starts from a `Correct` amphipod, and parking only goes from a room to a free hallway position |
| Day23Moves.Play | day-23/src/main.rs:81-82 | an empty play succeeds exactly when every amphipod is home |
| Day23Moves.HomeFromRoomMove | day-23/src/main.rs:104-129 | the cost of going home from a room is that move's energy plus the search from the state it leads to, of smaller measure |
| Day23Moves.HomeFromHallwayMove | day-23/src/main.rs:192-213 | the same for a parked amphipod going home |
| Day23Moves.ParkMove | day-23/src/main.rs:144-165 | the same for parking at one place |
| Day23Moves.BestFromWitness | day-23/src/main.rs:84-219 | the minimum over the amphipods' moves is the cost of one of them |
| Day23Moves.BestFromBelow | day-23/src/main.rs:84-219 | the minimum over the amphipods' moves is no larger than any of them |
| Day23Moves.OptionsMove | day-23/src/main.rs:87-218 | the cheapest option of one amphipod is a legal move plus the search from where it leads |
| Day23Moves.PlayCons | day-23/src/main.rs:118-126 | playing a legal move first adds its energy to the rest of the play |
| Day23Moves.SearchSound | day-23/src/main.rs:56-221 | whatever the search returns is the energy of some play of legal moves that brings every amphipod home |
| Day23Moves.MoveBelow | day-23/src/main.rs:87-218 | the cheapest option of an amphipod costs no more than any of its legal moves followed by the search from there |
| Day23Moves.SearchOptimal | day-23/src/main.rs:56-221 | when some play brings every amphipod home, the search returns a cost, no larger than that play's |
| Day23Moves.SearchIsCheapestPlay | day-23/src/main.rs:56-221 | the search returns a cost exactly when some play exists, and then it is the energy of the cheapest play |
| Day23Parse.LineCaptures | day-23/src/main.rs:248 | the regex captures of a line are rows of four letters; a line without a match has none, and a match at the scan position gives its four letters first |
| Day23Parse.Captures | day-23/src/main.rs:248 | every captured row is four letters from `A` to `D` |
| Day23Parse.Unfold | day-23/src/main.rs:229-243 | for `N == 16`, fewer than five lines is `EndOfInput`; otherwise the first four lines, two more, and the fifth line |
| Day23Parse.CapturesAppend | day-23/src/main.rs:248 | capturing over lines read one after another gives the rows of the first lines then those of the rest |
| Day23Parse.UnfoldRows | day-23/src/main.rs:233-238 | unfolding puts the rows `DCBA` and `DBAC` between the rows of the first four lines and those of the fifth |
| Day23Parse.Captured | day-23/src/main.rs:248-262 | one row of four `Wrong` amphipods per captured row |
| Day23Parse.CapturedRow | day-23/src/main.rs:250-261 | every captured row gives four amphipods |
| Day23Parse.Targets | day-23/src/main.rs:254-256 | one target room per amphipod of the flattened state |
| Day23Parse.MarkAll | day-23/src/main.rs:265-279 | the post-pass keeps the shape of the state |
| Day23Parse.Flatten | day-23/src/main.rs:281-284 | flattening gives four amphipods per row |
| Day23Parse.Parsed | day-23/src/main.rs:227-287 | a parsed state holds exactly `N` amphipods |
| Day23Parse.Rows | day-23/src/main.rs:249-263 | the rows of a four-wide grid are its cells row by row |
| Day23Parse.MarkColumn | day-23/src/main.rs:266-278 | one column of the post-pass marks, from the bottom up, each amphipod already home while all below it are, and leaves every other cell as it was |
| Day23Parse.MarkHome | day-23/src/main.rs:265-279 | the grid becomes the marked state of what it held |
| Day23Parse.Parse | day-23/src/main.rs:227-287 | `parse::<N>` returns the marked, flattened state, `EndOfInput` for a short input to unfold, or the error naming `N` when the number of amphipods is not `N` |
| Day23Parse.MarkedMeaning | day-23/src/main.rs:265-279 | an amphipod is marked `Correct`, at its own depth, exactly when it and everything below it in its room carry that room's letter |
| Day23Parse.OpenHallway | day-23/src/main.rs:309-312 | the starting hallway tokens are the positions 0 to 10 |
| Day23Parse.ParsedSlot | day-23/src/main.rs:248-279 | amphipod `i` of the parsed state fills slot `i / 4 + 1` of room `i % 4`, and is placed |
| Day23Parse.ParsedConsistent | day-23/src/main.rs:307-319 | the parsed state with every hallway position free and no free room slot is a consistent start: the amphipods fill the rooms' slots one each |
| Day23Parse.Part2 | day-23/src/main.rs:289-322 | `main` reports the parse error, or the search from the parsed state with every hallway position free and no free room slot; the amphipod count `n` is a parameter, and `main` itself passes 8 (`parse::<8>`, day-23/src/main.rs:307) |
| Day15.Usize | day-15/src/main.rs:26-31 | `as usize` keeps a value in `0..2^64` and wraps a negative 64-bit value around to `v + 2^64` |
| Day15.OffsetPlain | day-15/src/main.rs:33-37 | plain `offset` finds a risk exactly for a position on the grid, and it is the risk stored there; any other position gives `None` |
| Day15.OffsetTiled | day-15/src/main.rs:25-32 | `Offset`: tiled `offset` finds a risk exactly when the position's column, reduced modulo the first row's length, lies within the row it falls on; the risk is `(v + tiles right + tiles down - 1) % 9 + 1`, in `1..=9` once that sum is positive |
| Day15.Get | day-15/src/main.rs:50-52 | `get` finds a risk exactly for a position on the grid, the risk stored there |
| Day15.Neighbors | day-15/src/main.rs:17-56 | four risks, one per `OFFSETS` entry in order, each the `offset` of the neighbour in that direction |
| Day15.ValRange | day-15/src/main.rs:19-39 | on single-digit input every risk `offset` finds, plain or tiled, on the grid or off it, is in `0..=9` |
| Day15.ParseLine | day-15/src/main.rs:111-115 | a line parses to single digits, keeping a trailing digit as the last risk; a line of decimal digits parses to exactly their values, in order |
| Day15.ParseLineAppend | day-15/src/main.rs:111-115 | the risks keep the characters' order: reading two pieces of a line in turn reads each and joins the results |
| Day15.ParseLineOne | day-15/src/main.rs:113 | a single character gives its digit value when it is a decimal digit and nothing otherwise, as `format!("{}", c).parse::<i64>()` does |
| Day15.Parse | day-15/src/main.rs:109-116 | one row of single digits per line |
| Day15.GoalCorner | day-15/src/main.rs:59-69 | on a rectangular input the goal is the bottom-right cell: on the grid with nothing right of it or below it, or in part two the bottom-right cell of the fifth tile across and down |
| Day15.OffsetMut | day-15/src/main.rs:40-48 | `offset_mut` finds a cell of the weights exactly for a position on the weights grid, at its row and column |
| Day15.OffsetMutBox | day-15/src/main.rs:40-96 | from a position of the weights grid, `offset_mut` in any direction finds a cell exactly for a neighbour inside the grid, so only positions inside the weights grid are relaxed |
| Day15.PopMax | day-15/src/main.rs:82 | `pop` returns an item of highest priority, with its priority |
| Day15.BoxCard | day-15/src/main.rs:74-79 | the weights grid has `(goal.0 + 1) * (goal.1 + 1)` positions |
| Day15.Start | day-15/src/main.rs:71-81 | the start alone in the queue with priority `-0`, every weight `i64::MAX` and nothing visited satisfy the search invariant |
| Day15.FrontierBelow | day-15/src/main.rs:82-101 | any path from the visited start to an unvisited position crosses into the queue at a position weighing no more than the path's total risk |
| Day15.PopFinal | day-15/src/main.rs:82 | the position popped with the highest priority has its final weight: no path to it has a lower total risk |
| Day15.Visit | day-15/src/main.rs:82-87 | popping a position that is not the goal and marking it visited keeps the invariant, with the edges out of it still to relax |
| Day15.Relax | day-15/src/main.rs:92-99 | relaxing an edge into an unvisited cell sets its weight to the lower of its own and the popped weight plus its risk, pushes it with the negated weight, and keeps the invariant with one edge more relaxed |
| Day15.Skip | day-15/src/main.rs:91-96 | an edge into a visited position, off the weights grid or without a risk is left alone and counts as relaxed |
| Day15.RelaxedAll | day-15/src/main.rs:88-100 | once its four edges are relaxed, the visited position joins the relaxed ones |
| Day15.Lower | day-15/src/main.rs:96-97 | the weight written through `get_mut` becomes the lower of its own and the popped weight plus the risk, so it never goes up; no other weight changes; the position is pushed with the new weight negated |
| Day15.RelaxNeighbor | day-15/src/main.rs:89-99 | the weights and queue after one edge of the `for_each` are `EdgeUpdate`: an edge with a risk into an unvisited cell of the weights grid lowers that cell and pushes it, any other edge changes neither |
| Day15.EdgeUpdateRelaxes | day-15/src/main.rs:89-99 | relaxing an edge out of the popped position keeps the search invariant with one edge more relaxed and leaves the popped weight as it was |
| Day15.Expand | day-15/src/main.rs:86-100 | after a pop that is not the goal, the popped position is visited, every edge out of it is relaxed and the invariant holds |
| Day15.Found | day-15/src/main.rs:83-103 | when the goal is popped, its weight is the lowest total risk of a path to it |
| Day15.Exhausted | day-15/src/main.rs:82-103 | when the queue runs dry before the goal is popped, no path reaches the goal and its weight is still `i64::MAX` |
| Day15.Dijkstra | day-15/src/main.rs:58-104 | an empty input is an error; otherwise the answer is the lowest total risk of a path from the top-left corner to the goal, `i64::MAX` when no path reaches it, and also `i64::MAX` for a one-cell part-one grid, whose goal is the never-written start |
| Day15.Solve | day-15/src/main.rs:106-125 | `main` parses the lines and answers both parts as `dijkstra` does, failing exactly on an empty input |
| Day12.SystemOfKeys | day-12/src/main.rs:64-84 | a cave name is a key of the built system exactly when some edge names it |
| Day12.SuccessorLinked | day-12/src/main.rs:64-84 | every successor of a cave is joined to it by an edge and is `Small` exactly when its name matches `^[a-z]*$` |
| Day12.LinkedSuccessor | day-12/src/main.rs:64-84 | every cave joined to a cave by an edge, classified by its name, is among its successors |
| Day12.SystemOfSpec | day-12/src/main.rs:64-84 | both directions together: the system is the undirected graph of the edges |
| Day12.Symmetric | day-12/src/main.rs:76-83 | each edge is inserted both ways: if `c` follows `a`, then `a` follows `c` |
| Day12.BuildSystem | day-12/src/main.rs:62-84 | the capture loop builds exactly the system of the edges |
| Day12.BuiltWellFormed | day-12/src/main.rs:64-84 | without an edge between two big caves, every successor is classified by its name, is a key itself, and no big cave leads to a big cave |
| Day12.SumStepsAny | day-12/src/main.rs:35-49 | the sum over the successors does not depend on the order the hash set yields them in |
| Day12.EndIsOnePath | day-12/src/main.rs:29-30 | `"end"` counts as exactly one path |
| Day12.StartNotReentered | day-12/src/main.rs:38-47 | a cave marked twice, as `start` is before the search, yields no path when it is a successor |
| Day12.NoRevisitWithoutFlag | day-12/src/main.rs:38-47 | without the second visit, a small cave already visited yields no path |
| Day12.SecondVisitMonotone | day-12/src/main.rs:21-53 | allowing the one second visit never loses a path: the count with it is at least the count without |
| Day12.WalksCounted | day-12/src/main.rs:21-53 | `DepthSearch` counts paths: its count is the number of walks from the cave, and a sequence of caves is such a walk exactly when it leads along successors to its first `"end"`, enters no small cave more than twice in all (counting the visits already recorded), and enters at most one twice, that only while the second visit is allowed |
| Day12.PathsCount | day-12/src/main.rs:21-53 | the count is the size of the set of walks the recursion enumerates, one per successor and continuation |
| Day12.PathWalk | day-12/src/main.rs:29-48 | a sequence of caves is among the enumerated walks exactly when it is a chain to `"end"` that keeps the visit rule |
| Day12.AdmissibleFresh | day-12/src/main.rs:38-40 | entering a small cave not yet visited: the visit rule for the rest of the walk is the rule with that cave recorded once |
| Day12.AdmissibleRevisit | day-12/src/main.rs:41-43 | entering a small cave visited once, while allowed: the rule for the rest of the walk is the rule with that cave recorded twice and no second visit left |
| Day12.AdmissibleBlocked | day-12/src/main.rs:37-47 | a small cave recorded twice, or recorded once when the second visit is not allowed, cannot be entered by any walk |
| Day12.AdmissibleBig | day-12/src/main.rs:44-46 | big caves are entered freely: the visit rule ignores them |
| Day12.Searcher.Search | day-12/src/main.rs:21-53 | the cached search returns the count the uncached search gives, and every entry it stores is that count |
| Day12.Searcher.Enter | day-12/src/main.rs:37-48 | the match on the successor: unvisited small caves entered with count 1, a once-visited one with count 2 only while allowed, clearing the flag, big caves always, anything else 0 |
| Day12.Solve | day-12/src/main.rs:55-104 | `DepthSearch`: an input without `start` is an error; otherwise part one and part two are the searches from `start`, marked twice, without and with the second visit, sharing one cache; each part is the number of walks from `start` under its visit rule, and part one is at most part two |
| Day13.ParseDots | day-13/src/main.rs:21-24 | the dots hold exactly the capture pairs whose two numbers both parse as `i64`, each once |
| Day13.DotOf | day-13/src/main.rs:23 | a capture pair gives a dot exactly when both numbers parse, and the dot is the two parsed values |
| Day13.ParseFolds | day-13/src/main.rs:26-29 | the folds come from capture pairs, at most one per pair, each one a pair whose fold parses, and every pair whose fold parses gives its fold |
| Day13.ParseFoldsAppend | day-13/src/main.rs:26-29 | the folds keep the captures' order: reading two runs of captures in turn reads each and joins the results |
| Day13.ParseFoldsOne | day-13/src/main.rs:28 | one capture yields `(first character of the axis, coordinate)` when the axis text is non-empty and the coordinate parses as `i64`, and nothing otherwise |
| Day13.FoldOf | day-13/src/main.rs:28 | a capture pair gives a fold exactly when its axis text has a first character and its coordinate parses, and the fold is that character and value |
| Day13.Fold | day-13/src/main.rs:32-53 | a fold fails exactly when the axis is neither `x` nor `y` and there is a dot to reach `unreachable!` |
| Day13.FoldXMembers | day-13/src/main.rs:35-42 | `FoldPoint`: after a fold along `x = c` a point is a dot exactly when it was a dot left of the line or its mirror image `(2c - x, y)` was a dot |
| Day13.FoldYMembers | day-13/src/main.rs:43-50 | after a fold along `y = c` a point is a dot exactly when it was a dot above the line or its mirror image `(x, 2c - y)` was a dot |
| Day13.Swap | day-13/src/main.rs:34-50 | the transposed set holds `(x, y)` exactly when the dots hold `(y, x)` |
| Day13.FoldYIsSwappedX | day-13/src/main.rs:35-50 | the `y` fold is the `x` fold of the transposed dots, transposed back |
| Day13.FoldBound | day-13/src/main.rs:35-50 | after a fold no dot lies right of (for `x`) or below (for `y`) the fold line |
| Day13.FoldIdempotent | day-13/src/main.rs:35-50 | folding a second time at the same line changes nothing |
| Day13.FoldCount | day-13/src/main.rs:32-53 | a fold never increases the number of dots |
| Day13.Sizes | day-13/src/main.rs:54 | one size is shown per fold that succeeds, so no more sizes than folds |
| Day13.FoldsCount | day-13/src/main.rs:31-55 | with `x`/`y` axes every fold succeeds, one size is shown per fold, and each size is at most the one before it (the first at most the dots read) |
| Day13.FoldAll | day-13/src/main.rs:31-55 | `Folds`: the loop ends with the folds applied in order and the sizes it records are the ones `dbg!` shows |
| Day13.MaxCoord | day-13/src/main.rs:57-62 | the maximum coordinate along an axis is one some dot has, and no dot has a larger one |
| Day13.MaxCoordUnique | day-13/src/main.rs:57-62 | a coordinate that some dot has and none exceeds is the maximum |
| Day13.Row | day-13/src/main.rs:64-70 | a row is as wide as asked, and its column `x` is `█` exactly when `(x, y)` is a dot and a space otherwise |
| Day13.Picture | day-13/src/main.rs:63-72 | the picture has `h` rows of `w` characters each plus a newline |
| Day13.PicturePrefix | day-13/src/main.rs:63-72 | the rows printed before row `y` begin the whole picture |
| Day13.PictureShows | day-13/src/main.rs:63-72 | in the picture, the character of row `y` and column `x` is `█` exactly when `(x, y)` is a dot, and each row ends with a newline |
| Day13.MaxCoords | day-13/src/main.rs:57-62 | one pass over the dots finds the maximum `x` and the maximum `y` |
| Day13.DrawRow | day-13/src/main.rs:64-70 | the inner loop prints exactly one row |
| Day13.Draw | day-13/src/main.rs:57-72 | no dots is the parse error; otherwise the loops print the rows `0..=max_y` of the columns `0..=max_x` |
| Day13.Solve | day-13/src/main.rs:21-72 | the sizes are those after each fold of the parsed dots, and the picture is the drawing of the folded dots, absent when a fold reaches `unreachable!` |
| Day22.ToStepCovers | day-22/src/main.rs:29-34 | a step made from a capture, its upper bounds made exclusive by adding one, contains exactly the cubes of the inclusive ranges written in the line, and is `on` exactly when the word is `"on"` |
| Day22.Map | day-22/src/main.rs:26-36 | the steps are the captures converted one by one, in order |
| Day22.LastWriterWins | day-22/src/main.rs:64-71 | `LitAt`: after the steps, a cube is on exactly when some `on` step contains it and no later step does: later steps overwrite earlier ones |
| Day22.Endpoints | day-22/src/main.rs:38-41 | the values collected for an axis are exactly both bounds of every step, -50 and 50 |
| Day22.InsertSorted | day-22/src/main.rs:42-43 | adding a value keeps the list strictly increasing and adds exactly that value |
| Day22.SortedUnique | day-22/src/main.rs:42-44 | `unique().sorted()` gives a strictly increasing list holding exactly the values |
| Day22.Coordinates | day-22/src/main.rs:38-60 | each axis's list is strictly increasing, holds -50, 50 and every bound of every step on that axis, and nothing else |
| Day22.MakeAxes | day-22/src/main.rs:38-60 | the three lists are strictly increasing, have at least two entries, and hold every bound of every step |
| Day22.BinarySearch | day-22/src/main.rs:65-67 | the search finds the index of a bound in its strictly increasing list |
| Day22.CellUniform | day-22/src/main.rs:38-71 | the compression is exact: every cube of a cell is on exactly when the cell's lower corner is, since no step bound falls strictly inside a cell |
| Day22.BoxIsStep | day-22/src/main.rs:65-69 | the cells between the indices of a step's bounds are exactly those whose corner the step contains |
| Day22.FillLine | day-22/src/main.rs:68-70 | one x line of the slice is set to the flag, every other cell keeps its value |
| Day22.FillPlane | day-22/src/main.rs:68-70 | one y-x plane of the slice is set to the flag, every other cell keeps its value |
| Day22.FillBox | day-22/src/main.rs:68-70 | `slice_mut(...).fill(is_on)`: the cells of the box get the flag, every other cell keeps its value; a reversed range is empty |
| Day22.ApplyStep | day-22/src/main.rs:64-71 | after one more step, every cell holds what the steps so far leave at its corner |
| Day22.Fill | day-22/src/main.rs:62-71 | the zeroed grid has one cell per pair of consecutive coordinates on each axis, and after the loop every cell holds what the last step containing its corner left |
| Day22.VolumePositive | day-22/src/main.rs:77-84 | every cell volume is positive, the coordinate lists being strictly increasing |
| Day22.RowSumBounds | day-22/src/main.rs:82-95 | along a row, the part-one sum is between zero and the part-two sum |
| Day22.PlaneSumBounds | day-22/src/main.rs:80-97 | in a plane, the part-one sum is between zero and the part-two sum |
| Day22.Part1AtMostPart2 | day-22/src/main.rs:73-100 | over the grid, part one is between zero and part two: it sums a subset of the positive lit volumes |
| Day22.SumRow | day-22/src/main.rs:82-95 | the loop over x adds the volume of each lit cell to part two, and to part one when its corner is in `[-50, 50)` on every axis |
| Day22.SumPlane | day-22/src/main.rs:76-98 | the closure over one z sums its rows, computing `dz * dy` once per row |
| Day22.SumGrid | day-22/src/main.rs:73-100 | `GridSum`: the map over z and the reduce give the sums over all cells, part one at most part two |
| Day22.Solve | day-22/src/main.rs:26-100 | part two is the total volume of the lit cells of the compressed grid, part one the volume of those whose corner is in the initialization region, and `0 <= part1 <= part2` |
| Day08.InsertSorted | day-08/src/main.rs:20 | inserting a letter into a sorted word keeps it sorted |
| Day08.InsertCount | day-08/src/main.rs:20 | inserting adds exactly that letter and keeps the others |
| Day08.SortSorted | day-08/src/main.rs:20 | `sorted()` returns the word's letters, each as often as in the word, in ascending order |
| Day08.SortedUnique | day-08/src/main.rs:20 | two sorted words with the same letters are equal, so the sort's result depends only on the letters |
| Day08.SortFixed | day-08/src/main.rs:20 | sorting a sorted word leaves it unchanged |
| Day08.IndexOf | day-08/src/main.rs:18 | `position` finds an index holding the letter, and no earlier index holds it |
| Day08.DecodeSorted | day-08/src/main.rs:16-22 | `Decode`: a decoded word is sorted and holds the translated letters |
| Day08.DecodeUnwired | day-08/src/main.rs:16-22 | through the identity wiring `abcdefg`, decoding only sorts the word |
| Day08.DecodeLetters | day-08/src/main.rs:16-22 | two words with the same letters in any order decode to the same word |
| Day08.TranslateLetters | day-08/src/main.rs:17-18 | translating words with the same letters gives words with the same letters |
| Day08.TranslateRemove | day-08/src/main.rs:17-18 | translation maps letter by letter: dropping a letter drops its translation |
| Day08.Lookup | day-08/src/main.rs:76 | `get` returns a digit paired with the word in the table, and `None` only when no pair has that word |
| Day08.TableDigits | day-08/src/main.rs:50-64 | the table pairs the ten digits 0 to 9, in order, with sorted segment sets over `a` to `g` |
| Day08.TableDistinct | day-08/src/main.rs:50-64 | no two digits share a segment set, and `get` on each digit's set returns that digit |
| Day08.EasyDigits | day-08/src/main.rs:41-44 | a segment set has 2, 3, 4 or 7 segments exactly when it shows 1, 7, 4 or 8, and no other digit has that many |
| Day08.OrderingWiring | day-08/src/main.rs:71-73 | every ordering of the letters `a` to `g` holds each of them, so decoding through it never fails a `position` |
| Day08.WiringOver | day-08/src/main.rs:18 | through a wiring, every letter of a word over `a` to `g` has a position, so the first `unwrap` does not panic |
| Day08.DigitDecodes | day-08/src/main.rs:76 | a word's digit is the one the table pairs with its decoding, and there is none when no table entry is that decoding |
| Day08.DigitOfTable | day-08/src/main.rs:76 | a word's digit is below 10 and is the digit whose segment set the word decodes to |
| Day08.DecimalSome | day-08/src/main.rs:79-85 | reading the digits gives a number exactly when every digit is present |
| Day08.DecimalOfValues | day-08/src/main.rs:79-85 | digits all present read as their decimal value |
| Day08.DecimalLast | day-08/src/main.rs:79-85 | the last digit read is the number's last decimal digit, and the digits before it read as the number divided by 10 |
| Day08.DecimalSnoc | day-08/src/main.rs:81-83 | one more digit read makes ten times the number so far plus that digit |
| Day08.DecimalBound | day-08/src/main.rs:79-85 | `n` decimal digits read a number below `10^n` |
| Day08.TryWiring | day-08/src/main.rs:74-86 | the closure for one wiring answers `None` when a pattern is not in the table and otherwise the reading of the outputs |
| Day08.CheckPatterns | day-08/src/main.rs:75-77 | the loop over the patterns succeeds exactly when every pattern's decoding is in the table |
| Day08.ReadOutputs | day-08/src/main.rs:79-85 | the loop over the outputs gives `None` at the first word not in the table and otherwise the decimal number of their digits |
| Day08.EasyOutputs | day-08/src/main.rs:41-44 | when a wiring reads the outputs, an output word has an easy length exactly when it shows 1, 4, 7 or 8 |
| Day08.PermutationsCount | day-08/src/main.rs:73 | there are `n!` orderings of `n` letters |
| Day08.PermutationsOf | day-08/src/main.rs:73 | every ordering listed holds the letters, each as often as the input does |
| Day08.PermutationsComplete | day-08/src/main.rs:73 | every ordering of the letters is listed |
| Day08.PermsFromHead | day-08/src/main.rs:73 | every ordering that begins with the `i`-th letter is among those listed for it |
| Day08.PermutationsFirst | day-08/src/main.rs:73 | the first ordering listed is the input itself |
| Day08.FirstSomeFound | day-08/src/main.rs:86-87 | `flat_map(..).next()` returns the first value present, with none before it |
| Day08.FirstSomeAt | day-08/src/main.rs:86-87 | the search finds a value whenever any ordering yields one |
| Day08.AllWirings | day-08/src/main.rs:71-73 | every ordering tried is a wiring |
| Day08.LineValueFound | day-08/src/main.rs:70-88 | `LineValue`: a line's value is the reading of the first ordering that accepts it, and every earlier ordering is rejected |
| Day08.LineValueExists | day-08/src/main.rs:70-88 | a line has a value whenever some ordering of the letters reads it |
| Day08.AttemptUnscrambled | day-08/src/main.rs:74-86 | through `abcdefg`, an unscrambled display's patterns are accepted and its outputs read as the number of its digits |
| Day08.UnscrambledDigit | day-08/src/main.rs:76 | through `abcdefg`, each digit's segment set reads as that digit |
| Day08.UnscrambledDigits | day-08/src/main.rs:80-83 | through `abcdefg`, an unscrambled display's words read as its digits |
| Day08.LineValueUnscrambled | day-08/src/main.rs:68-88 | an unscrambled line's value is the number its output digits show |
| Day08.EasyCount | day-08/src/main.rs:40-45 | the easy words of a line are at most its words |
| Day08.EasyCountDigits | day-08/src/main.rs:37-47 | under a wiring that reads the outputs, part one's count is the number of 1, 4, 7 and 8 digits among them |
| Day08.LineEasyDigits | day-08/src/main.rs:37-89 | for a line whose value is found, part one counts its 1, 4, 7 and 8 digits, and the value has at most as many decimal digits as there are outputs |
| Day08.Part1Append | day-08/src/main.rs:37-47 | `Part1`: part one is a sum over the lines, so the count of two runs of lines one after the other is the sum of their counts |
| Day08.Part2Split | day-08/src/main.rs:68-89 | `Part2`: part two sums the values of the lines that have one, so splitting the input anywhere adds the two halves' sums |
| Day08.Part2Line | day-08/src/main.rs:68-89 | `Part2`: a single line adds its value, found by the search over orderings, or nothing when no ordering reads it |
| Day08.Words | day-08/src/main.rs:32 | splitting on spaces and dropping empty pieces leaves only non-empty words |
| Day08.NonEmpty | day-08/src/main.rs:32 | every kept piece is a non-empty piece of the split, and every non-empty piece is kept |
| Day08.NonEmptyAppend | day-08/src/main.rs:32 | the filter keeps the pieces in their order: filtering two runs one after the other is filtering each |
| Day08.NonEmptyKeepsAll | day-08/src/main.rs:32 | pieces that are all non-empty are kept as they are |
| Day08.ParseEntry | day-08/src/main.rs:28-35 | a line gives one part per piece between the `|`, each a list of non-empty words |
| Day09.OffsetOnGrid | day-09/src/main.rs:16-22 | an offset is `None` exactly when `pos + d` is off the grid (a negative coordinate included) and the height there otherwise |
| Day09.Neighbors | day-09/src/main.rs:24-31 | the four neighbours are entry `i` for direction `i`, in the order right, down, left, up |
| Day09.LowPointMeaning | day-09/src/main.rs:47-50 | a cell is a low point exactly when it is strictly below every grid cell next to it |
| Day09.CheckLow | day-09/src/main.rs:45-50 | the loop over the existing neighbours answers whether the cell is a low point |
| Day09.RiskRow | day-09/src/main.rs:44-54 | one row of the sweep adds the risk of its low points |
| Day09.Part1 | day-09/src/main.rs:42-55 | the sum is the risk of the low points of the sweep, row by row |
| Day09.RiskRange | day-09/src/main.rs:50-53 | a low point adds between 1 and 10 to the sum, any other cell nothing |
| Day09.RowRiskBounds | day-09/src/main.rs:42-55 | a row's risk lies between its number of low points and ten times that number |
| Day09.NextIsLowest | day-09/src/main.rs:68-74 | the move goes to a lowest lower neighbour, the first of several equally low, and there is none exactly when no neighbour is lower |
| Day09.LowestInvariant | day-09/src/main.rs:69-74 | the fold over the neighbours keeps the first lowest lower neighbour seen so far |
| Day09.FoldStep | day-09/src/main.rs:72-74 | one step of `min_by_key` over the filtered neighbours keeps that invariant |
| Day09.NextIsLower | day-09/src/main.rs:73-76 | the move lands on a cell of the grid strictly lower than the current one, so the descent terminates |
| Day09.SinkStep | day-09/src/main.rs:75-76 | a move keeps the descent's end point and lowers the height |
| Day09.SinkStop | day-09/src/main.rs:77-78 | the descent stops only at a cell with no lower neighbour |
| Day09.SinkIsBottom | day-09/src/main.rs:67-80 | `Sink`: the descent ends on a cell of the grid, no higher than the start, with no lower neighbour |
| Day09.LowPointIsSink | day-09/src/main.rs:67-80 | the descent from a low point stays there |
| Day09.Descend | day-09/src/main.rs:67-80 | the loop ends at the end point of the descent from the start |
| Day09.TotalAny | day-09/src/main.rs:58 | the sum of a map's values does not depend on the key taken first |
| Day09.TotalAdd | day-09/src/main.rs:81 | `entry(pos).or_insert(0) += 1` adds exactly one to the total |
| Day09.RowBasinsTotal | day-09/src/main.rs:61-82 | the basin sizes of a row add one for each cell that is not a 9 |
| Day09.RowBasinsSinks | day-09/src/main.rs:61-82 | every basin of a row is keyed by a cell with no lower neighbour |
| Day09.GridBasinsTotal | day-09/src/main.rs:58-83 | the basin sizes add up to the number of cells that are not 9 |
| Day09.GridBasinsSinks | day-09/src/main.rs:58-83 | every basin is keyed by a cell of the grid with no lower neighbour |
| Day09.BasinsRow | day-09/src/main.rs:61-82 | the inner loop adds each cell that is not a 9 to the basin its descent ends in |
| Day09.Basins | day-09/src/main.rs:58-83 | the double loop builds the basin map of the whole sweep |
| Day09.BagAny | day-09/src/main.rs:85 | the multiset of a map's values does not depend on the key taken first |
| Day09.Values | day-09/src/main.rs:85 | `values()` lists each value of the map once per key, in any order |
| Day09.InsertDescending | day-09/src/main.rs:85 | inserting into a descending sequence keeps it descending and adds exactly the one element |
| Day09.AtMostHead | day-09/src/main.rs:85 | an element below the head inserted after it keeps the sequence descending |
| Day09.ConsDescending | day-09/src/main.rs:85 | a head no smaller than a descending rest gives a descending sequence |
| Day09.SortDescending | day-09/src/main.rs:85 | `sorted().rev()` is descending and a permutation of its input |
| Day09.HeadIsMax | day-09/src/main.rs:85 | the head of a descending sequence is its largest element |
| Day09.SameHead | day-09/src/main.rs:85 | two descending permutations of each other start with the same element |
| Day09.TailBag | day-09/src/main.rs:85 | the tail holds all elements but the head |
| Day09.DescendingUnique | day-09/src/main.rs:85 | two descending permutations of each other are equal, so the map's order does not change the answer |
| Day09.LargestThreeOf | day-09/src/main.rs:85 | any listing of the values gives the same product of the three largest |
| Day09.TopThreeAreLargest | day-09/src/main.rs:85 | no value left out of the first three is larger than one taken into them |
| Day09.Part2 | day-09/src/main.rs:85 | the answer is the product of the three largest basin sizes |
| Day09.ParseLine | day-09/src/main.rs:39 | a line keeps only its digit characters, each as a value from 0 to 9 |
| Day09.Parse | day-09/src/main.rs:37-40 | one row per line, every height a digit |
| Day09.Solve | day-09/src/main.rs:33-88 | part one is the risk sum and part two the product of the three largest basins of the parsed grid |
| Day10.OpenerOf | day-10/src/main.rs:29-32 | each closer has an opener |
| Day10.CloserOf | day-10/src/main.rs:72-75 | each opener has the closer that matches it back |
| Day10.Points | day-10/src/main.rs:29-33 | a mismatched `)`, `]`, `}`, `>` scores 3, 57, 1197, 25137 |
| Day10.RunKeepsOpeners | day-10/src/main.rs:19-37 | the stack only ever holds openers and the score never decreases |
| Day10.RunAppend | day-10/src/main.rs:20-37 | the scan of two pieces is the scan of the second from where the first ended |
| Day10.CleanStep | day-10/src/main.rs:26-34 | a line is free of mismatches exactly when its prefix is and its last character is no mismatch |
| Day10.ScoreStep | day-10/src/main.rs:26-34 | a closer adds its points exactly when it pops an opener not its own; on an empty stack it adds 0 |
| Day10.ZeroIffClean | day-10/src/main.rs:20-38 | a line scores 0 exactly when none of its characters is a mismatch |
| Day10.EveryMismatchCounts | day-10/src/main.rs:38 | the line `([)]` scores 3 + 57: every mismatch counts, not only the first |
| Day10.ScanLine | day-10/src/main.rs:19-38 | `Run`: the loop computes the scan of the line, its score and the stack it leaves |
| Day10.TotalZeroIffClean | day-10/src/main.rs:16-40 | part one is 0 exactly when no line has a mismatch |
| Day10.Part1 | day-10/src/main.rs:16-40 | the sum of the scores of all lines |
| Day10.Value | day-10/src/main.rs:71-77 | an opener left open is worth 1 to 4 |
| Day10.CompletionScore | day-10/src/main.rs:69-78 | `Completion`: the fold from the top of the stack equals the base-5 number whose lowest digit is the bottom opener |
| Day10.CompletionDigits | day-10/src/main.rs:69-78 | the score is 0 only for an empty stack, its last base-5 digit is the bottom opener and the rest the openers above it |
| Day10.CompletionInjective | day-10/src/main.rs:69-78 | different stacks have different completion scores |
| Day10.Closers | day-10/src/main.rs:69-78 | the completion has one closer per open chunk |
| Day10.ClosersClose | day-10/src/main.rs:69-78 | the completion closes every open chunk and adds no score |
| Day10.CompletedLine | day-10/src/main.rs:47-78 | a line followed by its completion ends with an empty stack and its own score |
| Day10.Completions | day-10/src/main.rs:68-81 | only lines that score 0 contribute a completion score |
| Day10.InsertAscending | day-10/src/main.rs:83 | inserting keeps the sequence ascending and adds exactly the one element |
| Day10.AboveHead | day-10/src/main.rs:83 | an element above the head inserted after it keeps the sequence ascending |
| Day10.ConsAscending | day-10/src/main.rs:83 | a head no larger than an ascending rest gives an ascending sequence |
| Day10.Sort | day-10/src/main.rs:83 | `sorted()` is ascending and a permutation of its input |
| Day10.InsertCounts | day-10/src/main.rs:83 | inserting one value changes the counts below and above a bound by that value alone |
| Day10.SortCounts | day-10/src/main.rs:83 | sorting keeps the number of values below and above any bound |
| Day10.BelowBound | day-10/src/main.rs:85 | at most `k` values lie below a bound that every value from index `k` on reaches |
| Day10.AboveBound | day-10/src/main.rs:85 | at most `len - j` values lie above a bound that none of the first `j` exceeds |
| Day10.AscendingAround | day-10/src/main.rs:83-85 | in an ascending sequence the element at `k` is above all before it and below all after it |
| Day10.Middle | day-10/src/main.rs:83-85 | there is a middle exactly when there is a score |
| Day10.MiddleIsMedian | day-10/src/main.rs:83-85 | the middle is one of the scores with at most half the scores below it and at most half above it |
| Day10.CollectCompletions | day-10/src/main.rs:44-82 | the loop collects the completion scores of the lines that score 0, in order |
| Day10.Part2 | day-10/src/main.rs:44-85 | the middle of the sorted completion scores, `None` when there are none |
| Day04.HasWon | day-04/src/main.rs:15-41 | `Won`: the columns, then the rows, are checked cell by cell; the answer is the sum of the undrawn numbers exactly when some column or row of the first row's width is fully drawn, and `None` otherwise |
| Day04.AnyColumnUpTo | day-04/src/main.rs:18-28 | a full column among the first `n` columns is one among the first `m >= n` |
| Day04.AnyRowUpTo | day-04/src/main.rs:29-39 | a full row among the first `n` rows is one among the first `m >= n` |
| Day04.AnyColumnMonotone | day-04/src/main.rs:18-28 | a column fully drawn stays fully drawn when more numbers are drawn |
| Day04.AnyRowMonotone | day-04/src/main.rs:29-39 | a row fully drawn stays fully drawn when more numbers are drawn |
| Day04.WonMonotone | day-04/src/main.rs:15-41 | a board that has won still wins with more numbers drawn |
| Day04.RowUndrawnShrinks | day-04/src/main.rs:25 | with numbers that are not negative, a row's undrawn sum is not negative and only shrinks as more is drawn |
| Day04.UndrawnShrinks | day-04/src/main.rs:25 | with numbers that are not negative, a board's score is not negative and only shrinks as more is drawn |
| Day04.DrawnNext | day-04/src/main.rs:45-46 | the set drawn after `i + 1` draws is the one after `i` draws plus the `i`-th number |
| Day04.DrawnMonotone | day-04/src/main.rs:44-46 | the drawn set only grows from draw to draw |
| Day04.FirstWinner | day-04/src/main.rs:47-51 | the board found is the first from `k` on that has won, with its score; `None` exactly when none from `k` on has won |
| Day04.Play1 | day-04/src/main.rs:43-54 | the loops over draws and boards answer what part one answers from the first draw |
| Day04.Play1Found | day-04/src/main.rs:43-54 | `Play1From`: an answer is the score of board `k` at draw `i` times that draw, every board before `k` has not won at draw `i`, and no board had won at any earlier draw |
| Day04.Play1NoneFrom | day-04/src/main.rs:43-54 | when no board has won after the last draw, part one has no answer from any draw on |
| Day04.Play1None | day-04/src/main.rs:43-54 | part one answers `None` exactly when nothing is drawn or no board has won after the last draw |
| Day04.Play1LastDraw | day-04/src/main.rs:53 | when part one has no answer from a draw on, no board has won after the last draw |
| Day04.BoardsStep | day-04/src/main.rs:62 | the board values from `k` on are board `k` and those from `k + 1` on |
| Day04.WinnersStep | day-04/src/main.rs:62-64 | the winning board values from `k` on are board `k` when it has won and those from `k + 1` on |
| Day04.WinnersMember | day-04/src/main.rs:63-64 | the winners are board values, and a board is among them exactly when it has won |
| Day04.BoardsCount | day-04/src/main.rs:65 | there are no more board values than boards |
| Day04.DistinctCount | day-04/src/main.rs:65 | there are as many board values as boards exactly when no two boards are equal |
| Day04.WinnersFull | day-04/src/main.rs:65 | as many winning board values as boards means every board has won and no two boards are equal |
| Day04.AllWonWinners | day-04/src/main.rs:63-65 | when every board has won, the winners are all the board values |
| Day04.WinnersMonotone | day-04/src/main.rs:58-64 | the winners only grow as more numbers are drawn |
| Day04.RoundGoing | day-04/src/main.rs:62-69 | a round over the boards that does not finish adds the winning boards to the winners, and leaves them incomplete |
| Day04.RoundFinished | day-04/src/main.rs:63-67 | a round that finishes does so at a board that has won, was not a winner before, and completes the winners |
| Day04.RoundCarries | day-04/src/main.rs:58-69 | after a round that does not finish, the winners are exactly the boards that have won so far, and they are still not all the boards |
| Day04.Play2 | day-04/src/main.rs:56-72 | the loops over draws and boards answer what part two answers from the first draw with no winners |
| Day04.RoundFinishes | day-04/src/main.rs:63-67 | a round that finishes does so at a board that has won at this draw and not at the one before, with every board won and no two boards equal |
| Day04.RoundFull | day-04/src/main.rs:62-65 | with pairwise different boards all won, the round records a winner and completes the winners |
| Day04.RoundNotAllWon | day-04/src/main.rs:62-69 | with pairwise different boards, a round that does not finish leaves a board that has not won |
| Day04.Play2Found | day-04/src/main.rs:56-72 | `Play2From`: an answer from draw `from` has a draw and a board that account for it: every board has won by then, no two boards are equal, that board had not won at the draw before, and no draw since `from` had every board won |
| Day04.Play2FoundNow | day-04/src/main.rs:63-67 | the same, when the round of the first draw finishes |
| Day04.Play2FoundLater | day-04/src/main.rs:60-69 | the same, when the round of the first draw does not finish |
| Day04.Play2Reaches | day-04/src/main.rs:56-72 | with pairwise different boards all won after the last draw, part two answers |
| Day04.AllWonMonotone | day-04/src/main.rs:56-72 | once every board has won, every board has won at every later draw |
| Day04.Play2Winner | day-04/src/main.rs:56-72 | part two's answer is the score of the last board to win, at the first draw after which every board has won, times that draw |
| Day04.Play2Answers | day-04/src/main.rs:56-72 | part two answers exactly when something is drawn, there is a board, no two boards are equal and every board has won after the last draw |
| Day04.EmptyNeverFinishes | day-04/src/main.rs:65 | with no boards, part two never answers |
| Text.FindFrom | day-05/src/main.rs:22 | the position found is the first occurrence of the separator from `from` on; `None` exactly when it occurs nowhere from there |
| Text.SplitJoin | day-05/src/main.rs:22 | joining the pieces of `split` with the separator gives back the text |
| Text.SplitNone | day-05/src/main.rs:22 | text in which the separator does not occur is a single piece |
| Text.SplitFirst | day-05/src/main.rs:31 | text `a + sep + b` with no character of `a` starting `sep` splits into `a` followed by the pieces of `b` |
| Text.ParseInt | day-05/src/main.rs:23 | an accepted text is an optional sign and decimal digits only, and its value lies in the type's range; a negative value had a `-` |
| Text.ParseI64 | day-05/src/main.rs:23 | `parse::<i64>` answers only values within `i64` |
| Text.ParseIntOfIntToString | day-05/src/main.rs:23 | parsing the `{}` text of any value of the type gives that value back |
| Text.NoOccurrence | day-05/src/main.rs:22 | a one-character separator occurs nowhere in text without that character |
| Common.SomesAll | day-05/src/main.rs:30-36 | when every line parses, `flat_map` keeps all of them, in order |
| Common.SomesAppend | day-01/src/main.rs:10 | `flat_map` over two runs of lines keeps the values of the first, then those of the second |
| Day03.Resize | day-03/src/main.rs:13 | `resize(n, 0)` keeps the first `n` votes and fills the rest with zeros |
| Day03.ReadInput | day-03/src/main.rs:9-27 | the loop over the non-empty lines yields every line's number, in order, and the votes of all of them |
| Day03.ReadLine | day-03/src/main.rs:11-25 | the loop over a line's characters yields its value as a binary number, most significant bit first, and adds its votes to the resized vote array |
| Day03.PartialStep | day-03/src/main.rs:15-24 | voting at one more position changes only that position's vote |
| Day03.ResizeSame | day-03/src/main.rs:13 | resizing to the current length changes nothing |
| Day03.VotesUniform | day-03/src/main.rs:15-23 | `Votes`: with lines of one width, a position's vote counts one up for each `1` there and one down for each `0` |
| Day03.Rates | day-03/src/main.rs:29-36 | the loop builds gamma from the positions where zeros win and epsilon from those where ones win |
| Day03.GammaSnoc | day-03/src/main.rs:32-35 | one more vote doubles gamma and adds its bit |
| Day03.EpsSnoc | day-03/src/main.rs:33-34 | one more vote doubles epsilon and adds its bit |
| Day03.RatesBelow | day-03/src/main.rs:31-36 | no position sets both rates' bits, so gamma plus epsilon is at most `2^n - 1` |
| Day03.RatesComplement | day-03/src/main.rs:31-36 | without a tied position gamma and epsilon are complements: their sum is exactly `2^n - 1` |
| Day03.BitOfNumber | day-03/src/main.rs:11-44 | `Number`: bit `width - pos - 1` of a line's number is set exactly when its character at `pos` is `1` |
| Day03.RetainMember | day-03/src/main.rs:50-53 | `retain` keeps exactly the numbers with the asked-for bit |
| Day03.VoteCounts | day-03/src/main.rs:43-49 | the fold's vote is the count of numbers with the bit set less the count of the others, and the two counts add up to all numbers |
| Day03.OxygenMajority | day-03/src/main.rs:43-53 | the oxygen filter keeps the ones exactly when they are at least as many as the zeros: the most common bit, ties to `1` |
| Day03.Co2Minority | day-03/src/main.rs:63-73 | the CO2 filter keeps the ones exactly when they are fewer than the zeros: the least common bit, ties to `0` |
| Day03.OxygenKeepsSome | day-03/src/main.rs:50-53 | one oxygen step never empties a non-empty list |
| Day03.Filter | day-03/src/main.rs:40-77 | `FilterFrom`: the loop over the bit positions, with its `break` once one number remains, computes the filter from the most significant bit down |
| Day03.RetainEmbeds | day-03/src/main.rs:50-53 | what `retain` keeps is a subsequence of its list |
| Day03.EmbedsCompose | day-03/src/main.rs:50-57 | a subsequence of a subsequence is a subsequence |
| Day03.FilterEmbeds | day-03/src/main.rs:40-77 | what a filter leaves is a subsequence of the numbers it started from |
| Day03.FilterMember | day-03/src/main.rs:40-77 | every number a filter leaves is one of the input numbers |
| Day03.OxygenNonEmpty | day-03/src/main.rs:40-58 | the oxygen filter leaves at least one number of a non-empty list |
| Day03.FilterAgrees | day-03/src/main.rs:42-57 | unless a filter stopped at one number, the numbers it leaves agree on every bit it examined |
| Day03.Co2DropsLoneOne | day-03/src/main.rs:70-79 | a lone number whose examined bit is `1` is dropped by the CO2 filter, so its `unwrap` panics |
| Day03.Co2DropsAgreeing | day-03/src/main.rs:63-73 | whenever all remaining numbers have the same examined bit, the CO2 step keeps none of them |
| Day03.Co2DropsPair | day-03/src/main.rs:58-79 | the lines `10` and `11` leave the CO2 filter empty, so its `unwrap` panics |
| Day03.Rating | day-03/src/main.rs:58-78 | a rating, when there is one, is one of the input numbers |
| Day03.LifeSupportRating | day-03/src/main.rs:40-79 | both filters and the product of the first numbers they leave, `None` where either leaves none |
| Day03.Solve | day-03/src/main.rs:7-80 | part one is gamma times epsilon from the votes of all lines; part two the product of the CO2 and oxygen ratings |
| Day03.Part2Answers | day-03/src/main.rs:40-58 | a non-empty input always has an oxygen rating |
| Day05.NumberText | day-05/src/main.rs:21-24 | the text of a number that parses has neither a comma nor a space |
| Day05.ParsePairPieces | day-05/src/main.rs:21-24 | `ParsePair`: an answer `(a, b)` of `parse_pair` comes from text `a,b` or `a,b,` followed by anything, with `a` and `b` parsing as `i64` |
| Day05.ParsePairMissing | day-05/src/main.rs:21-24 | text without a comma is not a pair |
| Day05.ParsePairOfText | day-05/src/main.rs:21-24 | `parse_pair` reads back any pair of `i64` written as `x,y` |
| Day05.PairTextChars | day-05/src/main.rs:31 | the text of a pair has no space, so it holds no arrow |
| Day05.SplitLineText | day-05/src/main.rs:31 | the text `x1,y1 -> x2,y2` splits at its arrow into the texts of its two ends |
| Day05.ParseLine | day-05/src/main.rs:30-36 | an empty line gives no segment |
| Day05.ParseLineOfText | day-05/src/main.rs:30-36 | a segment written as `x1,y1 -> x2,y2` parses back as itself |
| Day05.ParseInput | day-05/src/main.rs:30-36 | no more segments than lines |
| Day05.ParsedText | day-05/src/main.rs:30-36 | each line written from a segment parses as that segment |
| Day05.ParseInputOfText | day-05/src/main.rs:30-36 | the lines written from any segments parse back as those segments, in order |
| Day05.VerticalPoints | day-05/src/main.rs:41-51 | a vertical segment covers exactly the points of its column between its two ends, inclusive |
| Day05.HorizontalPoints | day-05/src/main.rs:52-60 | a horizontal segment covers exactly the points of its row between its two ends, inclusive |
| Day05.DiagonalEnds | day-05/src/main.rs:61-76 | any other segment starts at `from` and stops when the coordinate with the shorter way reaches its end, so at `to` for a segment at 45 degrees |
| Day05.DiagonalPoints | day-05/src/main.rs:61-76 | `Points`: a segment at 45 degrees covers exactly the points of its line whose x lies between its ends |
| Day05.PointsDistinct | day-05/src/main.rs:41-76 | no segment increments a point twice |
| Day05.DistinctOnce | day-05/src/main.rs:41-76 | in a sequence without repetition a value occurs at most once |
| Day05.TallySnoc | day-05/src/main.rs:48 | one more increment bumps the diagram at that point |
| Day05.TraceSnoc | day-05/src/main.rs:41-78 | the increments of one more segment follow those of the segments before it |
| Day05.TallyAt | day-05/src/main.rs:48-49 | a diagram's value at a point is how often it was incremented, and it holds exactly the points incremented at all |
| Day05.TraceThrough | day-05/src/main.rs:41-78 | a point is incremented once for every segment of the diagram through it |
| Day05.DiagramThrough | day-05/src/main.rs:41-78 | a diagram's value at a point is the number of its segments through that point |
| Day05.ThroughFewer | day-05/src/main.rs:41-78 | fewer segments of the first diagram pass through any point than of the second |
| Day05.DiagramsPointwise | day-05/src/main.rs:41-84 | the first diagram is pointwise at most the second |
| Day05.Diagrams | day-05/src/main.rs:41-78 | the loop builds both diagrams: vertical and horizontal segments in both, the others only in the second |
| Day05.Column | day-05/src/main.rs:47-50 | the loop increments every point of a vertical segment, from its lower end up |
| Day05.Row | day-05/src/main.rs:56-59 | the loop increments every point of a horizontal segment, from its left end on |
| Day05.Walk | day-05/src/main.rs:65-75 | the `while let` increments the points of any other segment, stepping both coordinates from `from` toward `to` until either range runs out |
| Day05.OverlapsCrossings | day-05/src/main.rs:80-83 | a diagram's answer is the number of points at least two of its segments pass through |
| Day05.CrossingsFewer | day-05/src/main.rs:80-84 | part one's answer is at most part two's |
| Day05.Solve | day-05/src/main.rs:26-87 | the answers are the numbers of points crossed by at least two segments, without and with the diagonal ones, the first at most the second |
| Day02.ParseCommand | day-02/src/main.rs:15-23 | an empty line, or one without a piece after its first space that parses as `i64`, gives no command; a command's amount is always an `i64` |
| Day02.ParseCommands | day-02/src/main.rs:14-24 | the lines that do not parse are dropped, so there are never more commands than lines |
| Day02.SplitCommandText | day-02/src/main.rs:18 | a written command splits at its one space into the direction and the amount |
| Day02.ParseCommandOfText | day-02/src/main.rs:17-23 | a command with a space-free direction and an `i64` amount, written as `direction amount`, reads back as itself |
| Day02.ParseCommandsOfText | day-02/src/main.rs:14-24 | lines written from such commands read back as exactly those commands, in order |
| Day02.Move | day-02/src/main.rs:27-33 | each command moves along one axis only, by its amount, and a direction outside the four moves nothing |
| Day02.RunTotals | day-02/src/main.rs:26-34 | `Run`: part one ends at `forward` less `backward` along and `down` less `up` in depth |
| Day02.TotalAppend | day-02/src/main.rs:26-34 | the amount in a direction over two runs of commands is the sum of the two |
| Day02.RunSwap | day-02/src/main.rs:26-34 | in part one the order of two runs of commands does not change where the submarine ends |
| Day02.KnownOnly | day-02/src/main.rs:27-32 | the kept commands are all in the four known directions, and there are no more of them |
| Day02.RunIgnoresUnknown | day-02/src/main.rs:32 | dropping every command in an unknown direction leaves part one's position unchanged |
| Day02.Part1 | day-02/src/main.rs:11-36 | the first loop ends at part one's position, equal to its closed form, and the product shown is `depth * x` |
| Day02.Steer | day-02/src/main.rs:43-55 | only `forward` moves the position; only `up` and `down` change the aim; `backward` and unknown directions change nothing |
| Day02.SteerDepth | day-02/src/main.rs:50-53 | the depth a command adds is the aim times the distance it moves along |
| Day02.PilotAim | day-02/src/main.rs:42-56 | `Pilot`: part two's aim ends where part one's depth does, and its distance along is the sum of the `forward` amounts |
| Day02.SteerThen | day-02/src/main.rs:42-56 | one command after a run of commands acts on the second run's course, carried over from the first |
| Day02.PilotAppend | day-02/src/main.rs:42-56 | the course of two runs is the first run's followed by the second's: distances and aims add, and the second run's dive is offset by the first run's aim times the distance the second moves |
| Day02.PilotLast | day-02/src/main.rs:42-56 | the course after a run ends with a step of its last command |
| Day02.SteeringOnly | day-02/src/main.rs:43-54 | the kept commands are all `up`, `down` or `forward`, and there are no more of them |
| Day02.PilotIgnoresOthers | day-02/src/main.rs:54 | dropping every `backward` and unknown command leaves part two's course unchanged |
| Day02.Part2 | day-02/src/main.rs:38-57 | the second loop ends at part two's course, with the distance along the `forward` total and the aim part one's depth, and the product shown is `depth * x` |
| Day02.Solve | day-02/src/main.rs:7-59 | both products, of part one's and part two's final position, on the commands parsed from the lines |
| Day07.ParseCrabs | day-07/src/main.rs:17-23 | no first line is the parse error; otherwise the crabs are the comma-separated pieces of the first line that parse as `i64`, so no more crabs than pieces |
| Day07.SomesIn | day-07/src/main.rs:22 | `flat_map` keeps only values that were parsed |
| Day07.SplitOfJoin | day-07/src/main.rs:21 | numbers joined by commas split back into those numbers |
| Day07.ParseCrabsOfText | day-07/src/main.rs:17-23 | a first line written as `i64` numbers joined by commas reads back as those numbers |
| Day07.SeqMin | day-07/src/main.rs:25 | `reduce` with `min` gives a crab's position that no crab is left of |
| Day07.SeqMax | day-07/src/main.rs:26 | `reduce` with `max` gives a crab's position that no crab is right of |
| Day07.StepSumClosed | day-07/src/main.rs:35-38 | twice the sum `1 + 2 + ... + n` is `n * (n + 1)` |
| Day07.TriangularSteps | day-07/src/main.rs:35-38 | `Fuel`: the part-two fuel `n * (n + 1) / 2` is the cost of `n` steps each burning one more unit than the last |
| Day07.TriangleMonotone | day-07/src/main.rs:35-38 | a longer move never burns less part-two fuel |
| Day07.FuelShift | day-07/src/main.rs:32-38 | with either cost, a crab burns no more fuel to reach a point nearer to it |
| Day07.TotalLeft | day-07/src/main.rs:29 | left of every crab, moving the meeting point further left never lowers the total fuel |
| Day07.TotalRight | day-07/src/main.rs:29 | right of every crab, moving the meeting point further right never lowers the total fuel |
| Day07.ArgMin | day-07/src/main.rs:29 | `min_by_key` over `lo..=hi` returns a position in the range whose total fuel no position of the range beats, and no earlier position ties it |
| Day07.CalcFuel | day-07/src/main.rs:28-30 | the candidates are exactly `min..=max` of the crabs; the answer is the first of them with the least total fuel |
| Day07.CalcFuelBest | day-07/src/main.rs:25-30 | the position found needs no more fuel than any position at all, inside the range or not |
| Day07.Solve | day-07/src/main.rs:17-39 | no first line and no crabs are the two errors; otherwise the answers are the best positions under the linear and the triangular fuel |
| Day01.DepthOf | day-01/src/main.rs:9-10 | an empty line gives no depth, and a depth is always an `i64` |
| Day01.ParseDepths | day-01/src/main.rs:8-10 | the depths come from the lines, never more of them than lines |
| Day01.ParseDepthsSkips | day-01/src/main.rs:9-10 | an empty or unparsable line anywhere in the file is skipped: the depths are those of the lines before it followed by those after it |
| Day01.ParseDepthsOfText | day-01/src/main.rs:8-10 | `i64` depths written one per line read back as themselves |
| Day01.Windows | day-01/src/main.rs:11 | `tuple_windows` gives every run of `size` consecutive depths, in order: `n - size + 1` of them for `n >= size` depths, none otherwise |
| Day01.CountRising | day-01/src/main.rs:12-13 | the count of rising windows is at most the number of windows |
| Day01.CountRisingExtremes | day-01/src/main.rs:12-13 | the count is zero exactly when no window rises, and the number of windows exactly when every window rises |
| Day01.CountRisingAlike | day-01/src/main.rs:16-22 | windows that rise at the same places count alike |
| Day01.Part1 | day-01/src/main.rs:7-13 | part one counts at most one fewer than the number of depths, and nothing with fewer than two depths |
| Day01.Part2 | day-01/src/main.rs:16-22 | part two counts at most three fewer than the number of depths, and nothing with fewer than four depths |
| Day01.Part1Extremes | day-01/src/main.rs:11-13 | part one is zero exactly when the depths never increase, and one fewer than the number of depths exactly when they strictly increase |
| Day01.SlidingSums | day-01/src/main.rs:16-22 | there is one three-depth sum per window of three depths |
| Day01.Part2IsSlidingSums | day-01/src/main.rs:16-22 | comparing the first and last depth of every window of four counts exactly the rises of the sums of three consecutive depths |
| Day01.Solve | day-01/src/main.rs:7-23 | on the lines of the file, part one is at most one fewer than the number of depths, and part two counts the rises of the three-depth sums |

## Left out

- File reading, command-line arguments and printing (`main` functions, `dbg!`, progress bars) are left out; the models start from the lines of the file or from already-parsed values, as each day's line below says.
- Day 19 (rotation matrices over floating point) is not part of this model.
- The 64-bit width of the ALU registers and of the search results is not modelled: integers are unbounded, so an overflow the source would hit is not captured. The same holds for the index of an input node, which the source keeps in a `u8` (day-24/src/op.rs:7) and `Op24.Op.Input` keeps as a `nat`: the source's counter overflows once a program has read 256 inputs.
- Alu24.Alu.Register: the name must be one of the registers the ALU holds; the source indexes its map with an unknown name and panics (day-24/src/alu.rs:178-180), a failure the model turns into this precondition.
- Instr24.ParseInstructions: a failure carries the offset of the failing instruction, not the combinator library's formatted message.
- Instr24.SkipSpaces: only ASCII space, tab, line feed and carriage return count as whitespace, where the combinator library's `spaces()` skips every character for which `char::is_whitespace` holds; on ASCII text the two agree.
- Instr24.IsLetter: a register name is an ASCII letter, where `letter()` accepts every character for which `char::is_alphabetic` holds; on ASCII text the two agree.
- Instr24.ParseOperand: a literal is read as an unbounded integer, where `.parse::<i64>().unwrap()` panics on a literal outside the `i64` range.
- Op24.ToDot: nodes are named by their position in the visit order instead of their memory address, and are printed in visit order instead of hash-set order; nodes that are equal as values are drawn once, where the source draws equal sub-trees at different addresses separately.
- Search24.KeysOf: the order of a hash map's keys is left open; every contract about the tables holds for any order.
- Search24.PartialSolutions: the requirement that each piece starts fresh from `z` and `w` only (`x` and `y` reset) is an assumption of the source about its puzzle input, which is not part of this model.
- Generated24: the puzzle input the closed forms were derived from is not part of this model, so the link between `prog` and the ALU pieces is not stated.
- Day17: the regular expression and reading the file are left out; the model starts from the four captured numbers as text. Positions, velocities and heights are unbounded; the `i64` overflow of a position for a target far below the start is not modelled. The `dbg!` output is left out.
- Day17.StepsHorizontal: states the horizontal motion for `vx >= 0` only, the velocities the search launches.
- Day18: snailfish numbers are a datatype of pairs and numbers instead of JSON values, so arrays of another length and other JSON values are not represented; every rewrite returns a new tree instead of changing it through references.
- Day18.Add: the loop runs at most `fuel` rounds; whether reduction always stops is not proved, and running out of rounds gives `None` like the panic does.
- Day18.MagnitudeBounds: the 64-bit width of numbers and magnitudes is not modelled.
- Day16: the bits are a sequence of booleans instead of a string of `'0'` and `'1'` characters; a panic (`unwrap` on an exhausted iterator, a literal beyond 64 bits) is an error value. A type id of 8 or more cannot come from three bits, so the `unreachable!` arm has no counterpart.
- Day16.Evaluate: values are unbounded; the 64-bit overflow of `sum` and `product` is not modelled.
- Day16.RoundTrip: the encoder it inverts is not part of the source; it is written here to state what the decoder reads.
- Day14: letters are counted in 26 slots, so the template and the rule letters must be capitals (the source panics on an index out of range otherwise); this is a requirement of the model, not an error value. The rules are a map fixed for the cache's lifetime, as the one `HashMap` the source passes to every call.
- Day14.Cache.Expand: counts are unbounded; the 64-bit overflow of `u64` counts is not modelled.
- Day21: exactly two players; scores, squares and win counts are unbounded, so `u64` overflow is not modelled. The `play_quantum` cache is keyed on the state alone, as in the source, so it is valid for one target score; the model states that requirement.
- Day21.Practice: the roll-by-roll game is a reference written for the model; the source only has the closed form it is compared with.
- Day06: the input timers are already parsed (the source silently drops entries that are not numbers); the warm-up loop over days 1 to 18 only prints, so it is not modelled. `BigInt` values are unbounded integers.
- Day11: levels are unbounded integers instead of `i64`; the grid is already parsed. The sweep visits, in every row, as many columns as the first row has, as the source does; a shorter row's missing cells are off the grid.
- Day11.Part2: the source loops until a synchronised step appears; the model searches the first `fuel` steps and answers `None` when none of them synchronises.
- Day20: the decode string is a sequence of characters, where the source indexes its bytes; the two agree on the ASCII `'#'` and `'.'` the puzzle uses. The input is already split into lines. The `Display` implementation only prints, so it is not modelled. The model requires a decode string of at least 512 characters. The source indexes only the codes it reaches, and index 0 or 511 for the background, so a shorter string panics only when one of those codes lies beyond its end; an all-dark image whose decode string starts with `.` reads index 0 alone. For such inputs the model's requirement is stronger than what the source demands.
- Day25: the grid holds characters where the source stores bytes; they agree on the ASCII input, and a never-written cell holds `'\0'` for the zero byte. A non-empty line with more non-space characters than the first line has makes the source index out of bounds; `Day25.Solve` and `Day25.Load` require that every line fits. The input is already split into lines, and printing the answer is left out.
- Day25.Run: the source loops until a step moves nothing, with no bound; the model stops after `fuel` steps and answers `None` then, so a herd that never settles is not modelled beyond the fuel.
- Day23: the `RECORD` tracer, the `dbg!` output and the printing of the parsed input (day-23/src/main.rs:244) only print, so they are left out. Energies are unbounded; the `u64` overflow is not modelled. The regular expression is modelled over the input split into lines, which finds the same matches since the pattern holds no line break.
- Day23: the moves are those the code tries, not the puzzle's rules: an amphipod may park at a hallway position right above a room, and may go home into a room that still holds an amphipod of another kind, below the one that arrives.
- Day23.Least: the minimum over a set of costs is a specification; the code computes it over the hash set's iteration order, which `Pick` leaves open.
- Day23.Solver: the search state is an array changed in place, as the source's `[AmphipodState; N]`; the cache's keys are its contents as values.
- Day15: reading the file and the `dbg!` output are left out; the model starts from the lines of the file. Risks and weights are unbounded integers.
- Day15.Dijkstra: the model requires `9 * cells + 9 < i64::MAX` for the weights grid of the part, so that no weight can reach `i64::MAX` and the goal coordinates fit in `i64`; the source's overflows beyond that are not modelled. An empty input makes the source panic (an index out of range, or a `usize` underflow for an empty first row); the model answers `Err(EmptyInput)`.
- Day15.Offset: in part two the source computes the tile penalty of every neighbour, also of one left of or above the grid, whose coordinate `-1` becomes `usize::MAX`. For a grid one column or one row wide that penalty does not fit in `i64`, so `try_into().unwrap()` panics in every build; for a grid two columns (or rows) wide the quotient is `i64::MAX`, so while the other coordinate lies in the first tile the penalty is `i64::MAX` and adding the risk overflows `i64` (a panic in a debug build), and in any later tile the penalty exceeds `i64::MAX` and `try_into().unwrap()` panics in every build. The model computes these values with unbounded integers, and the search discards them because the position is off the weights grid.
- Day15.PopMax: `priority_queue` is modelled as a map from item to priority; `push` of an item already queued changes its priority, as the crate does. Among items of equal priority the crate's choice is left open.
- Day12: the regular expressions `(\w+)-(\w+)` and `^[a-z]*$` are modelled on the edges already split into pairs of names, with a name classified small when every character is a lower-case ASCII letter; reading the file and the `dbg!` output are left out. Path counts are unbounded; the `u64` overflow is not modelled.
- Day12.Solve: the model requires that no edge joins two big caves. When the search from `start` reaches such an edge, the source recurses between the two caves forever (a stack overflow), which is not modelled. When no path from `start` reaches the pair, the source answers normally (edges `start-end` and `A-B` give 1), so for those inputs the model's requirement is stronger than what the source demands. A system without `start` makes `system["start"]` panic; the model answers `Err(NoStart)`.
- Day12.DepthSearch: the count is a sum over a set of successors in no particular order; the visit counts are a map from cave to count, as `im::HashMap` is a persistent map.
- Day13: the regular expressions `(\d+),(\d+)` and `fold along ([xy])=(\d+)` are modelled on their captures, given as pairs of strings; reading the file is left out. The `dbg!` sizes and the printed picture are returned as values instead of being written out, and the iteration order of the `HashSet` does not show in any of them.
- Day13.FoldPoint: coordinates are unbounded; the `i64` overflow of `2 * coordinate - x` is not modelled (with the regular expression's digits the coordinates are never negative, but one near the top of the range would overflow).
- Day22: the regular expression is left out; the model starts from its captures with the numbers already parsed (the source drops a capture whose number does not parse as `i64`, and the puzzle has none). The `indicatif` progress bar only prints; the `rayon` parallel map and reduce become a sequential sum over z, which gives the same totals. Volumes and sums are unbounded integers; the `i64` and `u64` overflows are not modelled. The grid is a three-dimensional array indexed `[z, y, x]`; its column-major memory layout does not affect any value.
- Day22: part one counts the cells whose lower corner lies in `[-50, 50)` on every axis, as the source's `< 50` tests do (day-22/src/main.rs:86-91); the cubes at coordinate 50, which the puzzle's initialization region `-50..50` includes, are counted neither by the source nor by the model.
- Day22.FillBox: a step whose lower bound exceeds its exclusive upper bound fills no cell in the model; the puzzle input has no such step.
- Day08: reading the file and the `dbg!` output are left out; the model starts from the lines of the file. Counts and sums are unbounded integers; the `usize` overflow is not modelled. The `HashMap` is modelled as its list of pairs, searched in order; since no two pairs share a key (Day08.TableDistinct), `get` finds the same digit.
- Day08.EasyCount: a word's length is its number of characters, where `c.len()` counts its UTF-8 bytes; they agree on the letters `a` to `g` the puzzle uses. The same holds for Day08.Part1, which sums these counts.
- Day08.WellFormed: a pattern or output with a letter outside `a` to `g` makes the first `unwrap` in `decode` panic, and a line without `|` makes `l[1]` panic; the model requires every line to have both parts and only those letters, so `Part2` requires it of every line and `Part1` requires both parts of every line.
- Day09: reading the file and the `dbg!` output are left out; the model starts from the lines of the file. Heights and sums are unbounded integers; the `i64` overflow is not modelled. A negative coordinate cast to `usize` wraps to a huge index that no row reaches, which the model states as "off the grid".
- Day09.Solve: a row shorter than the first makes the source index out of bounds in the sweep; the model requires every row to be at least as long as the first.
- Day09.Values: the hash map's iteration order is left open; the answer is proved the same for every order.
- Day10: reading the file and the `dbg!` output are left out; the model starts from the lines of the file. Scores are unbounded integers; the `i64` overflow of a completion score for a stack deeper than 27 openers is not modelled. The `unreachable!` arm cannot be reached because the stack holds only openers, which the model proves.
- Day10.Part2: an input with no line that scores 0 makes the source index an empty vector and panic; the model answers `None`.
- Day04: reading the file, parsing the numbers and boards, and the `dbg!` output are left out; the model starts from the parsed numbers and boards. Scores and products are unbounded integers; the `i64` overflow is not modelled.
- Day04.HasWon: the model requires a board with a first row and no row shorter than it, since the source indexes `block[0]` and every row up to the first row's width and panics otherwise. `Play1` and `Play2` require this of every board, which is more than the source demands of a board that is never reached.
- Day04.Play2: the winners are a set of board values, as the source's set of references hashes and compares the boards themselves; with two equal boards the set never grows to the number of boards and part two answers `None`, which `Day04.Play2Answers` states.
- Day03: reading the file and the `dbg!` output are left out; the model starts from the lines of the file. Numbers are unbounded: the `i64` shift of a line longer than 63 characters, the `u64` rates of more than 64 positions, a shift by 64 or more, and the overflow of the products are not modelled.
- Day03.LifeSupportRating: part two is `None` where the source's `unwrap` panics, that is when a filter leaves no number. That happens for no input, and for the CO2 filter whenever all numbers it still holds agree on the examined bit (Day03.Co2DropsAgreeing), be it one number or several, as for the lines `10` and `11` (Day03.Co2DropsPair).
- Day05: reading the file and the `dbg!` output are left out; the model starts from the lines of the file. Coordinates and counts are unbounded integers; the `i64` overflow of a count is not modelled. The hash maps are maps from point to count; their iteration order does not matter to a count.
- Day02: reading the file and the `dbg!` output are left out; the model starts from the lines of the file. Positions, aims and products are unbounded integers; the `i64` overflow of `aim * amount`, of the sums and of the products is not modelled.
- Day07: reading the file and the `dbg!` output are left out; the model starts from the lines of the file. The value shown for each part is the position `calc_fuel` returns, as the source computes it, not the fuel spent there. Fuel is unbounded; the `i64` overflow of a distance, of `n * (n + 1)` or of a total is not modelled.
- Day07.CalcFuel: `min_by_key` returns an `Option`; over the non-empty range `min..=max` it always has a value, so the model returns the position itself.
- Day01: reading the file and the `dbg!` output are left out; the model starts from the lines of the file. Depths are unbounded integers; the three-depth sums are a reference written for the model, since the source compares the ends of each window of four instead.
