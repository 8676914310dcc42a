/**
 * Day 8, Handheld Halting: a boot-code machine with three operations.
 * acc adds its argument to the accumulator, jmp moves the instruction
 * index by its argument and nop does nothing; acc and nop go on to the
 * next instruction.  run_program stops when the index is just past the
 * end (Finished), when an instruction is about to execute a second time
 * (InfiniteLoop) or when the index leaves the program (InstructionFailure).
 * The repair flips one nop to jmp or jmp to nop and runs the result.
 */
module HandheldHalting {
  import opened Text

  datatype Operation = NoOperation | Accumulate | Jump

  datatype Instruction = Instruction(operation: Operation, argument: int)

  datatype ProgramResult = InfiniteLoop | Finished | InstructionFailure

  /** The machine state: the index of the next instruction and the
      accumulator. */
  datatype Config = Config(index: int, accumulator: int)

  /** One executed instruction. */
  function Step(ins: Instruction, c: Config): Config
  {
    match ins.operation
    case NoOperation => Config(c.index + 1, c.accumulator)
    case Accumulate => Config(c.index + 1, c.accumulator + ins.argument)
    case Jump => Config(c.index + ins.argument, c.accumulator)
  }

  predicate InProgram(program: seq<Instruction>, i: int)
  {
    0 <= i < |program|
  }

  /** The state after n steps from index 0 and accumulator 0; a state whose
      index is outside the program does not move any more. */
  function Trace(program: seq<Instruction>, n: nat): Config
    decreases n
  {
    if n == 0 then Config(0, 0)
    else
      var c := Trace(program, n - 1);
      if InProgram(program, c.index) then Step(program[c.index], c) else c
  }

  /** The instruction index before step k was already used by an earlier
      step. */
  ghost predicate Seen(program: seq<Instruction>, n: nat, i: int)
  {
    exists k :: 0 <= k < n && Trace(program, k).index == i
  }

  /** Step k executes an instruction of the program that no earlier step
      executed. */
  ghost predicate FirstVisit(program: seq<Instruction>, k: nat)
  {
    InProgram(program, Trace(program, k).index) && !Seen(program, k, Trace(program, k).index)
  }

  /** The first n steps each execute a fresh instruction. */
  ghost predicate Runs(program: seq<Instruction>, n: nat)
  {
    forall k: nat :: k < n ==> FirstVisit(program, k)
  }

  /** After n steps the loop stops: the index is the length, is outside
      the program, or was used before. */
  ghost predicate Stops(program: seq<Instruction>, n: nat)
  {
    !FirstVisit(program, n)
  }

  /** What run_program returns when it stops after n steps; the length
      check comes first, then the visited check. */
  ghost function Verdict(program: seq<Instruction>, n: nat): (ProgramResult, int)
  {
    var c := Trace(program, n);
    (if c.index == |program| then Finished
     else if Seen(program, n, c.index) then InfiniteLoop
     else InstructionFailure,
     c.accumulator)
  }

  /** The indices executed by the first n steps. */
  ghost function Visited(program: seq<Instruction>, n: nat): set<int>
  {
    set k | 0 <= k < n :: Trace(program, k).index
  }

  /** The indices of a program of n instructions. */
  function Indices(n: nat): (r: set<int>)
    ensures forall i :: i in r <==> 0 <= i < n
    ensures |r| == n
    decreases n
  {
    if n == 0 then {} else Indices(n - 1) + {n - 1}
  }

  lemma SubsetCard(a: set<int>, b: set<int>)
    requires a <= b
    ensures |a| <= |b|
  {
    assert a * b == a;
    assert |b - a| + |a * b| == |b|;
  }

  lemma VisitedStep(program: seq<Instruction>, n: nat)
    ensures Visited(program, n + 1) == Visited(program, n) + {Trace(program, n).index}
  {
    var v, w := Visited(program, n), Visited(program, n + 1);
    forall i | i in w ensures i in v + {Trace(program, n).index} {
      var k :| 0 <= k < n + 1 && Trace(program, k).index == i;
      if k < n { assert i in v; }
    }
  }

  /** The steps of a run use distinct indices inside the program. */
  lemma {:induction false} VisitedCard(program: seq<Instruction>, n: nat)
    requires Runs(program, n)
    ensures |Visited(program, n)| == n && Visited(program, n) <= Indices(|program|)
    decreases n
  {
    if n > 0 {
      VisitedCard(program, n - 1);
      VisitedStep(program, n - 1);
      assert FirstVisit(program, n - 1);
      var i := Trace(program, n - 1).index;
      assert i !in Visited(program, n - 1);
    }
  }

  /** A run executes each instruction at most once, so it takes at most as
      many steps as the program has instructions; the loop body is entered
      at most one time more. */
  lemma RunsBound(program: seq<Instruction>, n: nat)
    requires Runs(program, n)
    ensures n <= |program|
  {
    VisitedCard(program, n);
    SubsetCard(Visited(program, n), Indices(|program|));
  }

  /** A program stops after exactly one number of steps. */
  lemma StopUnique(program: seq<Instruction>, m: nat, n: nat)
    requires Runs(program, m) && Stops(program, m)
    requires Runs(program, n) && Stops(program, n)
    ensures m == n
  {
    assert m < n ==> FirstVisit(program, m);
    assert n < m ==> FirstVisit(program, n);
  }

  /** Finished, InfiniteLoop and InstructionFailure each say where the
      index was when the run stopped. */
  lemma VerdictSpec(program: seq<Instruction>, n: nat)
    requires Runs(program, n) && Stops(program, n)
    ensures Verdict(program, n).0 == Finished <==> Trace(program, n).index == |program|
    ensures Verdict(program, n).0 == InfiniteLoop <==>
      InProgram(program, Trace(program, n).index) && Seen(program, n, Trace(program, n).index)
    ensures Verdict(program, n).0 == InstructionFailure <==>
      Trace(program, n).index < 0 || Trace(program, n).index > |program|
  {
    var i := Trace(program, n).index;
    if Seen(program, n, i) {
      var k :| 0 <= k < n && Trace(program, k).index == i;
      assert FirstVisit(program, k);
    }
  }

  /** nop and acc advance the index by one and jmp by its argument; only
      acc changes the accumulator, by its argument. */
  lemma TraceStep(program: seq<Instruction>, k: nat)
    requires InProgram(program, Trace(program, k).index)
    ensures var c, d := Trace(program, k), Trace(program, k + 1);
      var ins := program[c.index];
      d.index == c.index + (if ins.operation == Jump then ins.argument else 1)
      && d.accumulator == c.accumulator + (if ins.operation == Accumulate then ins.argument else 0)
  {
  }

  /** What step k adds to the accumulator. */
  function Gain(program: seq<Instruction>, c: Config): int
  {
    if InProgram(program, c.index) && program[c.index].operation == Accumulate
    then program[c.index].argument else 0
  }

  ghost function Gains(program: seq<Instruction>, n: nat): seq<int>
  {
    if n == 0 then [] else Gains(program, n - 1) + [Gain(program, Trace(program, n - 1))]
  }

  /** The accumulator is the sum of the arguments of the acc instructions
      executed so far. */
  lemma {:induction false} AccumulatorSum(program: seq<Instruction>, n: nat)
    ensures Trace(program, n).accumulator == Sum(Gains(program, n))
    decreases n
  {
    if n > 0 {
      AccumulatorSum(program, n - 1);
      SumAppend(Gains(program, n - 1), [Gain(program, Trace(program, n - 1))]);
      assert Sum([Gain(program, Trace(program, n - 1))]) == Gain(program, Trace(program, n - 1));
    }
  }

  /** run_program: executes from index 0 with accumulator 0, remembering
      the visited indices, until the index is the length, is about to be
      visited again, or leaves the program.  The ghost steps is the number
      of executed instructions. */
  method RunProgram(program: seq<Instruction>) returns (result: ProgramResult, accumulator: int, ghost steps: nat)
    ensures Runs(program, steps) && Stops(program, steps)
    ensures (result, accumulator) == Verdict(program, steps)
    ensures steps <= |program|
  {
    var index := 0;
    accumulator := 0;
    var visited: set<int> := {};
    steps := 0;
    while true
      invariant Trace(program, steps) == Config(index, accumulator)
      invariant Runs(program, steps) && visited == Visited(program, steps)
      invariant steps <= |program|
      decreases |program| - steps
    {
      if index == |program| {
        result := Finished;
        return;
      }
      if index in visited {
        result := InfiniteLoop;
        return;
      }
      VisitedStep(program, steps);
      visited := visited + {index};
      if !(0 <= index < |program|) {
        result := InstructionFailure;
        return;
      }
      var ins := program[index];
      match ins.operation {
        case NoOperation =>
          index := index + 1;
        case Accumulate =>
          index := index + 1;
          accumulator := accumulator + ins.argument;
        case Jump =>
          index := index + ins.argument;
      }
      assert FirstVisit(program, steps);
      steps := steps + 1;
      RunsBound(program, steps);
    }
  }

  /** The repair: acc is left alone, nop becomes jmp and jmp becomes nop,
      keeping the argument. */
  function Flip(program: seq<Instruction>, i: nat): (r: Option<seq<Instruction>>)
    requires i < |program|
  {
    var ins := program[i];
    match ins.operation
    case Accumulate => None
    case NoOperation => Some(program[i := Instruction(Jump, ins.argument)])
    case Jump => Some(program[i := Instruction(NoOperation, ins.argument)])
  }

  /** A flip exists for nop and jmp only, changes exactly the operation of
      instruction i (never into acc), and flipping it back restores the
      program. */
  lemma FlipSpec(program: seq<Instruction>, i: nat)
    requires i < |program|
    ensures Flip(program, i).None? <==> program[i].operation == Accumulate
    ensures Flip(program, i).Some? ==> var q := Flip(program, i).value;
      |q| == |program| && q[i].argument == program[i].argument
      && q[i].operation != program[i].operation && q[i].operation != Accumulate
      && (forall j :: 0 <= j < |q| && j != i ==> q[j] == program[j])
      && Flip(q, i) == Some(program)
  {
    if Flip(program, i).Some? {
      var q := Flip(program, i).value;
      assert q[i := program[i]] == program;
    }
  }

  /** Flipping instruction i makes the program finish with accumulator a. */
  ghost predicate Repairs(program: seq<Instruction>, i: nat, a: int)
  {
    i < |program| && Flip(program, i).Some?
    && exists n :: Runs(Flip(program, i).value, n) && Stops(Flip(program, i).value, n)
         && Verdict(Flip(program, i).value, n) == (Finished, a)
  }

  /** The reported repairs: every repair, in increasing index order, and
      nothing else. */
  ghost predicate RepairsListed(program: seq<Instruction>, fixes: seq<(nat, int)>)
  {
    (forall k :: 0 <= k < |fixes| ==> Repairs(program, fixes[k].0, fixes[k].1))
    && (forall j, k :: 0 <= j < k < |fixes| ==> fixes[j].0 < fixes[k].0)
    && (forall i: nat, a :: Repairs(program, i, a) ==> (i, a) in fixes)
  }

  /** The search of part two: each index in order, acc skipped, every
      flipped program run, and the accumulator of each one that finishes
      reported. */
  method RepairProgram(program: seq<Instruction>) returns (fixes: seq<(nat, int)>)
    ensures RepairsListed(program, fixes)
  {
    fixes := [];
    for i := 0 to |program|
      invariant forall k :: 0 <= k < |fixes| ==> Repairs(program, fixes[k].0, fixes[k].1) && fixes[k].0 < i
      invariant forall j, k :: 0 <= j < k < |fixes| ==> fixes[j].0 < fixes[k].0
      invariant forall j: nat, a :: j < i && Repairs(program, j, a) ==> (j, a) in fixes
    {
      var flipped := Flip(program, i);
      if flipped.None? {
        continue;
      }
      var result, accumulator, steps := RunProgram(flipped.value);
      forall a | Repairs(program, i, a) ensures result == Finished && accumulator == a {
        var n :| Runs(flipped.value, n) && Stops(flipped.value, n) && Verdict(flipped.value, n) == (Finished, a);
        StopUnique(flipped.value, n, steps);
      }
      if result == Finished {
        fixes := fixes + [(i, accumulator)];
      }
    }
  }

  // Loading the boot code.

  const ParseError := "Could not parse instruction"

  /** load_program: the whitespace-separated tokens taken in pairs of an
      operation and an i32 argument; an odd last token is dropped. */
  function LoadProgram(input: string): Result<seq<Instruction>>
  {
    DecodeTokens(SplitWhitespace(input))
  }

  function DecodeTokens(tokens: seq<string>): (r: Result<seq<Instruction>>)
    ensures r.Ok? ==> |r.value| == |tokens| / 2
    ensures r.Err? ==> r.error == ParseError
    decreases |tokens|
  {
    if |tokens| < 2 then Ok([])
    else
      match DecodeInstruction(tokens[0], tokens[1])
      case None => Err(ParseError)
      case Some(ins) =>
        match DecodeTokens(tokens[2..])
        case Err(e) => Err(e)
        case Ok(rest) => Ok([ins] + rest)
  }

  function DecodeInstruction(op: string, arg: string): Option<Instruction>
  {
    match ParseInt(arg, I32_MIN, I32_MAX)
    case None => None
    case Some(v) =>
      if op == "nop" then Some(Instruction(NoOperation, v))
      else if op == "acc" then Some(Instruction(Accumulate, v))
      else if op == "jmp" then Some(Instruction(Jump, v))
      else None
  }

  function OperationName(op: Operation): string
  {
    match op
    case NoOperation => "nop"
    case Accumulate => "acc"
    case Jump => "jmp"
  }

  /** The tokens of a program written out as "op +arg" pairs. */
  function ShowTokens(program: seq<Instruction>): seq<string>
  {
    if program == [] then []
    else [OperationName(program[0].operation), ShowSigned(program[0].argument)] + ShowTokens(program[1..])
  }

  predicate ArgumentsFit(program: seq<Instruction>)
  {
    forall k :: 0 <= k < |program| ==> I32_MIN <= program[k].argument <= I32_MAX
  }

  lemma {:induction false} DecodeShowTokens(program: seq<Instruction>)
    requires ArgumentsFit(program)
    ensures DecodeTokens(ShowTokens(program)) == Ok(program)
    decreases |program|
  {
    if program != [] {
      var ts := ShowTokens(program);
      DecodeShowInstruction(program[0]);
      assert ArgumentsFit(program[1..]) by {
        forall k | 0 <= k < |program[1..]| ensures I32_MIN <= program[1..][k].argument <= I32_MAX {
          assert program[1..][k] == program[k + 1];
        }
      }
      DecodeShowTokens(program[1..]);
      assert ts[0] == OperationName(program[0].operation) && ts[1] == ShowSigned(program[0].argument);
      assert ts[2..] == ShowTokens(program[1..]);
      assert [program[0]] + program[1..] == program;
    }
  }

  /** One instruction written out reads back as itself. */
  lemma DecodeShowInstruction(ins: Instruction)
    requires I32_MIN <= ins.argument <= I32_MAX
    ensures DecodeInstruction(OperationName(ins.operation), ShowSigned(ins.argument)) == Some(ins)
  {
    ParseShowSigned(ins.argument, I32_MIN, I32_MAX);
  }

  lemma {:induction false} ShowTokensShape(program: seq<Instruction>)
    ensures |ShowTokens(program)| == 2 * |program|
    ensures forall k :: 0 <= k < |ShowTokens(program)| ==> Word(ShowTokens(program)[k])
    decreases |program|
  {
    if program != [] {
      ShowTokensShape(program[1..]);
      var ins := program[0];
      ShowSignedWord(ins.argument);
      assert Word(OperationName(ins.operation));
      var ts := ShowTokens(program);
      assert ts == [OperationName(ins.operation), ShowSigned(ins.argument)] + ShowTokens(program[1..]);
      forall k | 2 <= k < |ts| ensures ts[k] == ShowTokens(program[1..])[k - 2] { }
    }
  }

  /** A non-empty token with no whitespace in it. */
  predicate Word(token: string)
  {
    |token| > 0 && forall j :: 0 <= j < |token| ==> token[j] !in Whitespace
  }

  lemma ShowSignedWord(v: int)
    ensures Word(ShowSigned(v))
  {
    var digits := ShowNat(if v < 0 then -v else v);
    ShowNatValue(if v < 0 then -v else v);
    DigitsAvoid(digits, Whitespace);
    var t := ShowSigned(v);
    assert t == (if v < 0 then "-" else "+") + digits;
    forall j | 0 <= j < |t| ensures t[j] !in Whitespace {
      if j > 0 { assert t[j] == digits[j - 1]; }
    }
  }

  /** A program with arguments in the i32 range, written out as
      space-separated "op +arg" tokens, loads back as itself. */
  lemma LoadShowProgram(program: seq<Instruction>)
    requires ArgumentsFit(program)
    ensures LoadProgram(Join(ShowTokens(program), " ")) == Ok(program)
  {
    ShowTokensShape(program);
    DecodeShowTokens(program);
    if program == [] {
      assert Join(ShowTokens(program), " ") == "";
      assert SplitAny("", Whitespace) == [""];
      var none: seq<string> := [];
      assert [""][1..] == none;
      assert NonEmptyPieces([""]) == none;
      assert SplitWhitespace("") == [];
    } else {
      SplitWhitespaceJoin(ShowTokens(program));
    }
  }

  /** Signed arguments such as +4 and -99 parse as integers. */
  lemma SignedArguments()
    ensures DecodeInstruction("jmp", "+4") == Some(Instruction(Jump, 4))
    ensures DecodeInstruction("acc", "-99") == Some(Instruction(Accumulate, -99))
    ensures DecodeInstruction("nop", "+0") == Some(Instruction(NoOperation, 0))
    ensures DecodeInstruction("jmp", "4x") == None && DecodeInstruction("mov", "+1") == None
  {
    assert "+4"[1..] == "4" && "-99"[1..] == "99" && "+0"[1..] == "0";
    assert DigitsValue("99") == 99;
    assert !AllDigits("4x") by { assert !IsDigit("4x"[1]); }
  }

  // The example boot code.

  function ExampleProgram(): seq<Instruction>
  {
    [Instruction(NoOperation, 0), Instruction(Accumulate, 1), Instruction(Jump, 4),
     Instruction(Accumulate, 3), Instruction(Jump, -3), Instruction(Accumulate, -99),
     Instruction(Accumulate, 1), Instruction(Jump, -4), Instruction(Accumulate, 6)]
  }

  /** A run through the distinct in-program indices idx that then reaches
      an index that stops the loop. */
  lemma RunOf(program: seq<Instruction>, idx: seq<int>)
    requires forall k :: 0 <= k < |idx| ==> Trace(program, k).index == idx[k] && InProgram(program, idx[k])
    requires forall j, k :: 0 <= j < k < |idx| ==> idx[j] != idx[k]
    requires var i := Trace(program, |idx|).index; !InProgram(program, i) || i in idx
    ensures Runs(program, |idx|) && Stops(program, |idx|)
  {
    forall k: nat | k < |idx| ensures FirstVisit(program, k) {
      forall j | 0 <= j < k ensures Trace(program, j).index != idx[k] {
        assert Trace(program, j).index == idx[j];
      }
    }
    var i := Trace(program, |idx|).index;
    if i in idx {
      var k :| 0 <= k < |idx| && idx[k] == i;
      assert Trace(program, k).index == i;
    }
  }

  lemma ExampleTrace(program: seq<Instruction>)
    requires program == ExampleProgram()
    ensures Trace(program, 3) == Config(6, 1)
    ensures Trace(program, 7) == Config(1, 5)
  {
    assert Trace(program, 1) == Config(1, 0);
    assert Trace(program, 2) == Config(2, 1);
    assert Trace(program, 3) == Config(6, 1);
    assert Trace(program, 4) == Config(7, 2);
    assert Trace(program, 5) == Config(3, 2);
    assert Trace(program, 6) == Config(4, 5);
  }

  /** The example loops: its run stops after 7 steps, just before
      executing acc +1 a second time, with accumulator 5. */
  lemma ExampleLoop(program: seq<Instruction>, n: nat)
    requires program == ExampleProgram()
    requires Runs(program, n) && Stops(program, n)
    ensures n == 7 && Verdict(program, n) == (InfiniteLoop, 5)
  {
    ExampleTrace(program);
    var idx := [0, 1, 2, 6, 7, 3, 4];
    assert Trace(program, 1) == Config(1, 0);
    RunOf(program, idx);
    StopUnique(program, n, 7);
    assert Trace(program, 1).index == 1;
  }

  /** Flipping jmp -4 into nop -4 repairs the example: the run passes acc
      +6 and finishes with accumulator 8. */
  lemma ExampleRepair(program: seq<Instruction>, q: seq<Instruction>)
    requires program == ExampleProgram() && q == Flip(program, 7).value
    ensures Repairs(program, 7, 8)
  {
    ExampleRepairRun(program, q);
  }

  lemma ExampleRepairRun(program: seq<Instruction>, q: seq<Instruction>)
    requires program == ExampleProgram() && q == Flip(program, 7).value
    ensures Runs(q, 6) && Stops(q, 6) && Verdict(q, 6) == (Finished, 8)
  {
    assert q[7] == Instruction(NoOperation, -4);
    assert Trace(q, 1) == Config(1, 0);
    assert Trace(q, 2) == Config(2, 1);
    assert Trace(q, 3) == Config(6, 1);
    assert Trace(q, 4) == Config(7, 2);
    assert Trace(q, 5) == Config(8, 2);
    assert Trace(q, 6) == Config(9, 8);
    RunOf(q, [0, 1, 2, 6, 7, 8]);
    assert Verdict(q, 6) == (Finished, 8);
  }

  /** Flipping nop +0 into jmp +0 loops on the first instruction. */
  lemma ExampleFlip0(program: seq<Instruction>, q: seq<Instruction>, a: int)
    requires program == ExampleProgram() && q == Flip(program, 0).value
    ensures !Repairs(program, 0, a)
  {
    assert q[0] == Instruction(Jump, 0);
    assert Trace(q, 1) == Config(0, 0);
    RunOf(q, [0]);
    assert Verdict(q, 1).0 == InfiniteLoop by { assert Trace(q, 0).index == 0; }
    forall n | Runs(q, n) && Stops(q, n) ensures Verdict(q, n).0 != Finished { StopUnique(q, n, 1); }
  }

  /** Flipping jmp +4 into nop +4 loops back to acc +1 through jmp -3. */
  lemma ExampleFlip2(program: seq<Instruction>, q: seq<Instruction>, a: int)
    requires program == ExampleProgram() && q == Flip(program, 2).value
    ensures !Repairs(program, 2, a)
  {
    assert q[2] == Instruction(NoOperation, 4);
    assert Trace(q, 1) == Config(1, 0);
    assert Trace(q, 2) == Config(2, 1);
    assert Trace(q, 3) == Config(3, 1);
    assert Trace(q, 4) == Config(4, 4);
    assert Trace(q, 5) == Config(1, 4);
    RunOf(q, [0, 1, 2, 3, 4]);
    assert Verdict(q, 5).0 == InfiniteLoop by { assert Trace(q, 1).index == 1; }
    forall n | Runs(q, n) && Stops(q, n) ensures Verdict(q, n).0 != Finished { StopUnique(q, n, 5); }
  }

  /** Flipping jmp -3 into nop -3 runs into acc -99 and loops back to acc
      +1 at index 6. */
  lemma ExampleFlip4(program: seq<Instruction>, q: seq<Instruction>, a: int)
    requires program == ExampleProgram() && q == Flip(program, 4).value
    ensures !Repairs(program, 4, a)
  {
    assert q[4] == Instruction(NoOperation, -3);
    assert Trace(q, 1) == Config(1, 0);
    assert Trace(q, 2) == Config(2, 1);
    assert Trace(q, 3) == Config(6, 1);
    assert Trace(q, 4) == Config(7, 2);
    assert Trace(q, 5) == Config(3, 2);
    assert Trace(q, 6) == Config(4, 5);
    assert Trace(q, 7) == Config(5, 5);
    assert Trace(q, 8) == Config(6, -94);
    RunOf(q, [0, 1, 2, 6, 7, 3, 4, 5]);
    assert Verdict(q, 8).0 == InfiniteLoop by { assert Trace(q, 3).index == 6; }
    forall n | Runs(q, n) && Stops(q, n) ensures Verdict(q, n).0 != Finished { StopUnique(q, n, 8); }
  }

  /** The only repair of the example is flipping index 7, and it finishes
      with accumulator 8. */
  lemma ExampleOnlyRepair(program: seq<Instruction>, i: nat, a: int)
    requires program == ExampleProgram() && Repairs(program, i, a)
    ensures i == 7 && a == 8
  {
    if i == 0 { ExampleFlip0(program, Flip(program, 0).value, a); }
    else if i == 2 { ExampleFlip2(program, Flip(program, 2).value, a); }
    else if i == 4 { ExampleFlip4(program, Flip(program, 4).value, a); }
    assert i == 7;
    var q := Flip(program, 7).value;
    var n :| Runs(q, n) && Stops(q, n) && Verdict(q, n) == (Finished, a);
    ExampleRepairRun(program, q);
    StopUnique(q, n, 6);
  }

  /** The repair search on the example reports exactly one fix: index 7,
      with accumulator 8. */
  lemma ExampleRepairs(program: seq<Instruction>, fixes: seq<(nat, int)>)
    requires program == ExampleProgram() && RepairsListed(program, fixes)
    ensures fixes == [(7, 8)]
  {
    ExampleRepair(program, Flip(program, 7).value);
    assert (7, 8) in fixes;
    forall k | 0 <= k < |fixes| ensures fixes[k] == (7, 8) {
      ExampleOnlyRepair(program, fixes[k].0, fixes[k].1);
    }
    assert |fixes| > 1 ==> fixes[0].0 < fixes[1].0;
  }
}
