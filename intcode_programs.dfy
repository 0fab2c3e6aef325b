/** Whole Intcode programs run by `IntcodeSemantics.Run`: straight-line
    Add/Mul programs against a reference evaluator, and the
    self-reproducing program whose output is its own code. */
module IntcodePrograms {
  import opened Outcomes
  import opened SparseMemory
  import opened IntcodeDecode
  import opened IntcodeSemantics

  /** `m` holds the words of `code` at addresses `0..|code|-1`. */
  predicate Holds(m: Memory, code: seq<int>)
  {
    HoldsFrom(m, code, 0)
  }

  /** `m` holds the words of `code` from address `lo` on; stated word by
      word from the end, so that a proof looks up only the words it asks
      `HoldsFromAt` for. */
  predicate HoldsFrom(m: Memory, code: seq<int>, lo: nat)
  {
    HoldsBetween(m, code, lo, |code|)
  }

  /** `m` holds the words of `code` at addresses `lo..n-1`. */
  predicate HoldsBetween(m: Memory, code: seq<int>, lo: nat, n: nat)
    requires n <= |code|
  {
    n <= lo || (HoldsBetween(m, code, lo, n - 1) && Read(m, n - 1) == code[n - 1])
  }

  lemma {:induction false} HoldsBetweenAt(m: Memory, code: seq<int>, lo: nat, n: nat, a: int)
    requires n <= |code| && HoldsBetween(m, code, lo, n) && lo <= a < n
    ensures Read(m, a) == code[a]
    decreases n
  {
    if a < n - 1 {
      HoldsBetweenAt(m, code, lo, n - 1, a);
    }
  }

  lemma HoldsFromAt(m: Memory, code: seq<int>, lo: nat, a: int)
    requires HoldsFrom(m, code, lo) && lo <= a < |code|
    ensures Read(m, a) == code[a]
  {
    HoldsBetweenAt(m, code, lo, |code|, a);
  }

  lemma HoldsAt(m: Memory, code: seq<int>, a: int)
    requires Holds(m, code) && 0 <= a < |code|
    ensures Read(m, a) == code[a]
  {
    HoldsFromAt(m, code, 0, a);
  }

  lemma {:induction false} HoldsBetweenAll(m: Memory, code: seq<int>, n: nat)
    requires n <= |code| && forall a :: 0 <= a < n ==> Read(m, a) == code[a]
    ensures HoldsBetween(m, code, 0, n)
    decreases n
  {
    if n > 0 {
      HoldsBetweenAll(m, code, n - 1);
    }
  }

  /** A memory agreeing with `code` word by word holds it. */
  lemma HoldsAll(m: Memory, code: seq<int>)
    requires forall a :: 0 <= a < |code| ==> Read(m, a) == code[a]
    ensures Holds(m, code)
  {
    HoldsBetweenAll(m, code, |code|);
  }

  lemma {:induction false} HoldsBetweenRaise(m: Memory, code: seq<int>, lo: nat, hi: nat, n: nat)
    requires n <= |code| && lo <= hi && HoldsBetween(m, code, lo, n)
    ensures HoldsBetween(m, code, hi, n)
    decreases n
  {
    if n > hi {
      HoldsBetweenRaise(m, code, lo, hi, n - 1);
    }
  }

  /** Holding the words from `lo` on includes holding them from `hi >= lo` on. */
  lemma HoldsFromRaise(m: Memory, code: seq<int>, lo: nat, hi: nat)
    requires lo <= hi && HoldsFrom(m, code, lo)
    ensures HoldsFrom(m, code, hi)
  {
    HoldsBetweenRaise(m, code, lo, hi, |code|);
  }

  lemma {:induction false} HoldsBetweenAfterWrite(m: Memory, code: seq<int>, lo: nat, n: nat, a: int, v: int)
    requires n <= |code| && HoldsBetween(m, code, lo, n) && !(lo <= a < |code|)
    ensures HoldsBetween(m[a := v], code, lo, n)
    decreases n
  {
    if n > lo {
      HoldsBetweenAfterWrite(m, code, lo, n - 1, a, v);
    }
  }

  /** A write outside the words held from `lo` on keeps them. */
  lemma HoldsFromAfterWrite(m: Memory, code: seq<int>, lo: nat, a: int, v: int)
    requires HoldsFrom(m, code, lo) && !(lo <= a < |code|)
    ensures HoldsFrom(m[a := v], code, lo)
  {
    HoldsBetweenAfterWrite(m, code, lo, |code|, a, v);
  }

  /** A write outside the program's words keeps the program. */
  lemma HoldsAfterWrite(m: Memory, code: seq<int>, a: int, v: int)
    requires Holds(m, code) && !(0 <= a < |code|)
    ensures Holds(m[a := v], code)
  {
    HoldsFromAfterWrite(m, code, 0, a, v);
  }

  /** Decoding a word whose operator, modes and operand words are known. */
  lemma DecodeWord(m: Memory, ptr: int, op: Opcode, args: seq<int>, modes: seq<nat>)
    requires Read(m, ptr) >= 0 && Lookup(Read(m, ptr) % 100) == Some(op)
    requires Modes(Read(m, ptr)) == modes
    requires |args| == OpLen(op) - 1
    requires forall i :: 0 <= i < |args| ==> Read(m, ptr + 1 + i) == args[i]
    ensures Decode(m, ptr) == Ok(Instr(op, args, modes))
  {
    var d := Decode(m, ptr);
    assert d.Ok? && d.value.op == op && d.value.modes == modes;
    assert d.value.args == args;
  }

  // ---------------------------------------------------------------------
  // Straight-line arithmetic
  // ---------------------------------------------------------------------

  /** A source operand of Add or Mul: a cell read in positional mode, or a
      literal given in immediate mode. */
  datatype Source = Cell(addr: int) | Literal(value: int)

  function SourceMode(src: Source): nat
  {
    if src.Cell? then PositionalMode else ImmediateMode
  }

  /** The operand word that encodes the source. */
  function SourceWord(src: Source): int
  {
    match src
    case Cell(a) => a
    case Literal(v) => v
  }

  /** The value the source stands for in memory `m`. */
  function SourceValue(src: Source, m: Memory): int
  {
    match src
    case Cell(a) => Read(m, a)
    case Literal(v) => v
  }

  /** One Add (`mul` false) or Mul (`mul` true): the two sources are
      combined into the cell at `dst`, which is written in positional mode. */
  datatype ArithOp = ArithOp(mul: bool, x: Source, y: Source, dst: int)

  /** The instruction word: the opcode, with the mode digits of the two
      sources in the hundreds and thousands places. */
  function OpWord(op: ArithOp): int
  {
    (if op.mul then 2 else 1) + 100 * SourceMode(op.x) + 1000 * SourceMode(op.y)
  }

  /** The instruction word decodes to Add or Mul with the sources' modes
      and a positional destination. */
  lemma OpWordDecodes(op: ArithOp)
    ensures OpWord(op) >= 0 && OpWord(op) % 100 == if op.mul then 2 else 1
    ensures Modes(OpWord(op)) == [SourceMode(op.x), SourceMode(op.y), PositionalMode]
  {
    if op.x.Cell? && op.y.Cell? {
      assert OpWord(op) / 100 == 0;
    } else if op.y.Cell? {
      assert OpWord(op) / 100 == 1;
      assert Digits(1) == [1];
    } else if op.x.Cell? {
      assert OpWord(op) / 100 == 10;
      assert Digits(1) == [1];
      assert Digits(10) == [0, 1];
    } else {
      assert OpWord(op) / 100 == 11;
      assert Digits(1) == [1];
      assert Digits(11) == [1, 1];
    }
  }

  /** The four words of one instruction. */
  function Words(op: ArithOp): seq<int>
  {
    [OpWord(op), SourceWord(op.x), SourceWord(op.y), op.dst]
  }

  /** The instructions laid out one after another from address 0. */
  function Encode(ops: seq<ArithOp>): (code: seq<int>)
    ensures |code| == 4 * |ops|
  {
    if ops == [] then [] else Encode(ops[..|ops| - 1]) + Words(ops[|ops| - 1])
  }

  /** The instructions followed by a Halt word. */
  function Program(ops: seq<ArithOp>): (code: seq<int>)
    ensures |code| == 4 * |ops| + 1 && code[4 * |ops|] == 99
  {
    Encode(ops) + [99]
  }

  /** Word `j` of instruction `k` sits at address `4 * k + j`. */
  lemma {:induction false} EncodeAt(ops: seq<ArithOp>, k: nat, j: nat)
    requires k < |ops| && j < 4
    ensures Encode(ops)[4 * k + j] == Words(ops[k])[j]
    decreases |ops|
  {
    var init := ops[..|ops| - 1];
    if k < |ops| - 1 {
      EncodeAt(init, k, j);
      assert init[k] == ops[k];
    }
  }

  /** The reference meaning of one instruction, independent of decoding. */
  function Apply(op: ArithOp, m: Memory): (r: Memory)
    ensures Read(r, op.dst) ==
      if op.mul then SourceValue(op.x, m) * SourceValue(op.y, m)
      else SourceValue(op.x, m) + SourceValue(op.y, m)
    ensures forall a :: a != op.dst ==> Read(r, a) == Read(m, a)
  {
    var a, b := SourceValue(op.x, m), SourceValue(op.y, m);
    m[op.dst := if op.mul then a * b else a + b]
  }

  /** The reference evaluator: the instructions applied in order. */
  function Eval(ops: seq<ArithOp>, m: Memory): (r: Memory)
    decreases |ops|
  {
    if ops == [] then m
    else Eval(ops[1..], Apply(ops[0], m))
  }

  /** Evaluating from instruction `k` is applying it, then evaluating from
      `k + 1`. */
  lemma EvalSuffix(ops: seq<ArithOp>, k: nat, m: Memory)
    requires k < |ops|
    ensures Eval(ops[k..], m) == Eval(ops[k + 1..], Apply(ops[k], m))
  {
    assert ops[k..][0] == ops[k] && ops[k..][1..] == ops[k + 1..];
  }

  /** A cell that no instruction names as its destination keeps its value. */
  lemma {:induction false} EvalKeepsUnwritten(ops: seq<ArithOp>, m: Memory, a: int)
    requires forall k :: 0 <= k < |ops| ==> ops[k].dst != a
    ensures Read(Eval(ops, m), a) == Read(m, a)
    decreases |ops|
  {
    if ops != [] {
      assert forall k :: 0 <= k < |ops| - 1 ==> ops[1..][k] == ops[k + 1];
      EvalKeepsUnwritten(ops[1..], Apply(ops[0], m), a);
    }
  }

  /** No instruction writes into a word still to be executed: instruction
      `k` writes below its own end (into words already decoded) or past the
      final Halt word. */
  predicate WritesBehind(ops: seq<ArithOp>)
  {
    forall k :: 0 <= k < |ops| ==> !(4 * (k + 1) <= ops[k].dst <= 4 * |ops|)
  }

  /** One Add or Mul step does what `Apply` says and moves the pointer by 4. */
  lemma ArithOpStep(s: State, op: ArithOp)
    requires Read(s.memory, s.ptr) == OpWord(op)
    requires Read(s.memory, s.ptr + 1) == SourceWord(op.x) && Read(s.memory, s.ptr + 2) == SourceWord(op.y)
    requires Read(s.memory, s.ptr + 3) == op.dst
    ensures Step(s) == Outcome(Continue, s.(memory := Apply(op, s.memory), ptr := s.ptr + 4))
  {
    var m := s.memory;
    var opcode := if op.mul then Mul else Add;
    var args := [SourceWord(op.x), SourceWord(op.y), op.dst];
    var modes := [SourceMode(op.x), SourceMode(op.y), PositionalMode];
    OpWordDecodes(op);
    DecodeWord(m, s.ptr, opcode, args, modes);
    var instr := Instr(opcode, args, modes);
    ParamByMode(instr, m, s.relativeBase, 0);
    ParamByMode(instr, m, s.relativeBase, 1);
    var a, b := SourceValue(op.x, m), SourceValue(op.y, m);
    assert Param(instr, m, s.relativeBase, 0) == Ok(a);
    assert Param(instr, m, s.relativeBase, 1) == Ok(b);
    var v := if op.mul then a * b else a + b;
    assert Calculate(opcode, a, b) == v;
    assert Write(instr, m, s.relativeBase, v) == Ok(Apply(op, m));
    assert Execute(instr, s) == Outcome(Continue, s.(memory := Apply(op, m)));
    StepOfDecoded(s, instr);
  }

  /** The run after one such step goes on from the state it leaves. */
  lemma ArithOpRun(s: State, op: ArithOp, f: nat)
    requires Read(s.memory, s.ptr) == OpWord(op)
    requires Read(s.memory, s.ptr + 1) == SourceWord(op.x) && Read(s.memory, s.ptr + 2) == SourceWord(op.y)
    requires Read(s.memory, s.ptr + 3) == op.dst && f > 0
    ensures Run(s, false, f) == Run(s.(memory := Apply(op, s.memory), ptr := s.ptr + 4), false, f - 1)
  {
    ArithOpStep(s, op);
    RunAfterStep(s, Continue, s.(memory := Apply(op, s.memory), ptr := s.ptr + 4), false, f);
  }

  /** Instruction `k`, read from memory that holds the rest of the program,
      runs as `Apply` says and leaves the words after it intact. */
  lemma RunOneOp(ops: seq<ArithOp>, k: nat, m: Memory)
    requires k < |ops| && WritesBehind(ops) && HoldsFrom(m, Program(ops), 4 * k)
    ensures Run(State(m, 4 * k, 0, [], []), false, |ops| - k + 1) ==
      Run(State(Apply(ops[k], m), 4 * (k + 1), 0, [], []), false, |ops| - (k + 1) + 1)
    ensures HoldsFrom(Apply(ops[k], m), Program(ops), 4 * (k + 1))
  {
    var code := Program(ops);
    var op := ops[k];
    forall j | 0 <= j < 4
      ensures Read(m, 4 * k + j) == Words(op)[j]
    {
      EncodeAt(ops, k, j);
      HoldsFromAt(m, code, 4 * k, 4 * k + j);
      assert code[4 * k + j] == Encode(ops)[4 * k + j];
    }
    assert Read(m, 4 * k + 0) == Words(op)[0] && Read(m, 4 * k + 1) == Words(op)[1];
    assert Read(m, 4 * k + 2) == Words(op)[2] && Read(m, 4 * k + 3) == Words(op)[3];
    ArithOpRun(State(m, 4 * k, 0, [], []), op, |ops| - k + 1);
    assert 4 * k + 4 == 4 * (k + 1);
    HoldsFromRaise(m, code, 4 * k, 4 * (k + 1));
    HoldsFromAfterWrite(m, code, 4 * (k + 1), op.dst, Read(Apply(op, m), op.dst));
  }

  /** The final Halt word stops the run without changing anything. */
  lemma RunAtHalt(ops: seq<ArithOp>, m: Memory, f: nat)
    requires HoldsFrom(m, Program(ops), 4 * |ops|) && f > 0
    ensures Run(State(m, 4 * |ops|, 0, [], []), false, f) ==
      RunResult(Halted, State(m, 4 * |ops|, 0, [], []), f - 1)
  {
    var s := State(m, 4 * |ops|, 0, [], []);
    HoldsFromAt(m, Program(ops), 4 * |ops|, 4 * |ops|);
    HaltStep(s);
    RunAfterStep(s, Stop, s, false, f);
  }

  /** From instruction `k` on, with the rest of the program intact in
      memory, the run executes the remaining instructions as `Eval` does
      and halts on the final word with no fuel to spare. */
  lemma {:induction false} RunFrom(ops: seq<ArithOp>, k: nat, m: Memory)
    requires k <= |ops| && WritesBehind(ops) && HoldsFrom(m, Program(ops), 4 * k)
    ensures Run(State(m, 4 * k, 0, [], []), false, |ops| - k + 1) ==
      RunResult(Halted, State(Eval(ops[k..], m), 4 * |ops|, 0, [], []), 0)
    decreases |ops| - k
  {
    if k == |ops| {
      RunAtHalt(ops, m, |ops| - k + 1);
      assert ops[k..] == [];
    } else {
      RunOneOp(ops, k, m);
      RunFrom(ops, k + 1, Apply(ops[k], m));
      EvalSuffix(ops, k, m);
    }
  }

  /** A straight-line Add/Mul program that never writes into a word still
      to be executed, loaded fresh and given one step per instruction plus
      one for the Halt, halts on its final word with the memory the
      reference evaluator computes from the loaded image. */
  lemma StraightLineProgram(ops: seq<ArithOp>)
    requires WritesBehind(ops)
    ensures Run(Boot(Program(ops)), false, |ops| + 1) ==
      RunResult(Halted, State(Eval(ops, ProgramImage(Program(ops))), 4 * |ops|, 0, [], []), 0)
  {
    HoldsAll(ProgramImage(Program(ops)), Program(ops));
    RunFrom(ops, 0, ProgramImage(Program(ops)));
    assert ops[0..] == ops;
  }

  /** After such a run, a cell that no instruction writes still holds the
      value it was loaded with. */
  lemma StraightLineKeepsUnwritten(ops: seq<ArithOp>, a: int)
    requires WritesBehind(ops)
    requires forall k :: 0 <= k < |ops| ==> ops[k].dst != a
    ensures Read(Run(Boot(Program(ops)), false, |ops| + 1).state.memory, a) ==
      Read(ProgramImage(Program(ops)), a)
  {
    StraightLineProgram(ops);
    EvalKeepsUnwritten(ops, ProgramImage(Program(ops)), a);
  }

  /** `1101,5,5,0,99` is the straight-line program of one immediate Add
      into address 0, so the theorem gives its whole final state. */
  lemma AddImmediateAsStraightLine()
    ensures Run(Boot(AddImmediateCode), false, 2) ==
      RunResult(Halted, State(ProgramImage(AddImmediateCode)[0 := 10], 4, 0, [], []), 0)
  {
    var ops := [ArithOp(false, Literal(5), Literal(5), 0)];
    assert Encode(ops) == Encode([]) + Words(ops[0]);
    assert Program(ops) == AddImmediateCode;
    StraightLineProgram(ops);
    assert Eval(ops, ProgramImage(AddImmediateCode)) == Apply(ops[0], ProgramImage(AddImmediateCode));
  }

  // ---------------------------------------------------------------------
  // The quine
  // ---------------------------------------------------------------------

  /** The program that outputs a copy of itself. Each pass of its
      loop raises the relative base by 1, outputs the word just below the
      base, counts the pass at address 100, sets address 101 when the count
      reaches 16 and jumps back to 0 while address 101 is 0. */
  const QuineCode: seq<int> := [109, 1, 204, -1, 1001, 100, 1, 100, 1008, 100, 16, 101, 1006, 101, 0, 99]

  /** The sixteen words of a memory that holds the quine. */
  lemma QuineWords(m: Memory)
    requires Holds(m, QuineCode)
    ensures Read(m, 0) == 109 && Read(m, 1) == 1 && Read(m, 2) == 204 && Read(m, 3) == -1
    ensures Read(m, 4) == 1001 && Read(m, 5) == 100 && Read(m, 6) == 1 && Read(m, 7) == 100
    ensures Read(m, 8) == 1008 && Read(m, 9) == 100 && Read(m, 10) == 16 && Read(m, 11) == 101
    ensures Read(m, 12) == 1006 && Read(m, 13) == 101 && Read(m, 14) == 0 && Read(m, 15) == 99
  {
    forall a | 0 <= a < 16
      ensures Read(m, a) == QuineCode[a]
    {
      HoldsAt(m, QuineCode, a);
    }
  }

  /** Address 0: `109,1` raises the relative base by 1. */
  lemma QuineRaiseBase(s: State, f: nat)
    requires Holds(s.memory, QuineCode) && s.ptr == 0 && f > 0
    ensures Run(s, false, f) == Run(s.(relativeBase := s.relativeBase + 1, ptr := 2), false, f - 1)
  {
    QuineWords(s.memory);
    assert Modes(109) == [1, 0, 0] by { assert Digits(1) == [1]; }
    DecodeWord(s.memory, 0, AdjustBase, [1], [1, 0, 0]);
    ParamByMode(Instr(AdjustBase, [1], [1, 0, 0]), s.memory, s.relativeBase, 0);
    AdjustBaseStep(s, 1);
    RunAfterStep(s, Continue, s.(relativeBase := s.relativeBase + 1, ptr := 2), false, f);
  }

  /** Address 2: `204,-1` outputs the word just below the relative base. */
  lemma QuineEmit(s: State, f: nat)
    requires Holds(s.memory, QuineCode) && s.ptr == 2 && 0 < s.relativeBase <= 16 && f > 0
    ensures var v := QuineCode[s.relativeBase - 1];
      Run(s, false, f) == Run(s.(output := s.output + [v], ptr := 4), false, f - 1)
  {
    var v := QuineCode[s.relativeBase - 1];
    QuineWords(s.memory);
    HoldsAt(s.memory, QuineCode, s.relativeBase - 1);
    assert Modes(204) == [2, 0, 0] by { assert Digits(2) == [2]; }
    DecodeWord(s.memory, 2, Output, [-1], [2, 0, 0]);
    ParamByMode(Instr(Output, [-1], [2, 0, 0]), s.memory, s.relativeBase, 0);
    OutputStep(s, v);
    RunAfterStep(s, Emit(v), s.(output := s.output + [v], ptr := 4), false, f);
  }

  /** Address 4: `1001,100,1,100` adds 1 to the count at address 100. */
  lemma QuineCount(s: State, f: nat)
    requires Holds(s.memory, QuineCode) && s.ptr == 4 && f > 0
    ensures Run(s, false, f) ==
      Run(s.(memory := s.memory[100 := Read(s.memory, 100) + 1], ptr := 8), false, f - 1)
  {
    QuineWords(s.memory);
    assert Modes(1001) == [0, 1, 0] by {
      assert Digits(10) == [0, 1] by { assert Digits(1) == [1]; }
    }
    DecodeWord(s.memory, 4, Add, [100, 1, 100], [0, 1, 0]);
    var instr := Instr(Add, [100, 1, 100], [0, 1, 0]);
    ParamByMode(instr, s.memory, s.relativeBase, 0);
    ParamByMode(instr, s.memory, s.relativeBase, 1);
    ArithmeticStep(s, Read(s.memory, 100), 1);
    RunAfterStep(s, Continue, s.(memory := s.memory[100 := Read(s.memory, 100) + 1], ptr := 8), false, f);
  }

  /** Address 8: `1008,100,16,101` stores at address 101 whether the count
      is 16. */
  lemma QuineCompare(s: State, f: nat)
    requires Holds(s.memory, QuineCode) && s.ptr == 8 && f > 0
    ensures Run(s, false, f) == Run(s.(
      memory := s.memory[101 := if Read(s.memory, 100) == 16 then 1 else 0],
      ptr := 12), false, f - 1)
  {
    QuineWords(s.memory);
    assert Modes(1008) == [0, 1, 0] by {
      assert Digits(10) == [0, 1] by { assert Digits(1) == [1]; }
    }
    DecodeWord(s.memory, 8, Equals, [100, 16, 101], [0, 1, 0]);
    var instr := Instr(Equals, [100, 16, 101], [0, 1, 0]);
    ParamByMode(instr, s.memory, s.relativeBase, 0);
    ParamByMode(instr, s.memory, s.relativeBase, 1);
    ArithmeticStep(s, Read(s.memory, 100), 16);
    var flag := if Read(s.memory, 100) == 16 then 1 else 0;
    RunAfterStep(s, Continue, s.(memory := s.memory[101 := flag], ptr := 12), false, f);
  }

  /** Address 12: `1006,101,0` jumps back to 0 while address 101 holds 0. */
  lemma QuineBranch(s: State, f: nat)
    requires Holds(s.memory, QuineCode) && s.ptr == 12 && f > 0
    ensures Run(s, false, f) ==
      Run(s.(ptr := if Read(s.memory, 101) == 0 then 0 else 15), false, f - 1)
  {
    QuineWords(s.memory);
    assert Modes(1006) == [0, 1, 0] by {
      assert Digits(10) == [0, 1] by { assert Digits(1) == [1]; }
    }
    DecodeWord(s.memory, 12, JumpIfFalse, [101, 0], [0, 1, 0]);
    var instr := Instr(JumpIfFalse, [101, 0], [0, 1, 0]);
    ParamByMode(instr, s.memory, s.relativeBase, 0);
    ParamByMode(instr, s.memory, s.relativeBase, 1);
    JumpStep(s, Read(s.memory, 101), 0);
    if Read(s.memory, 101) == 0 {
      RunAfterStep(s, Jump, s.(ptr := 0), false, f);
    } else {
      RunAfterStep(s, Continue, s.(ptr := 15), false, f);
    }
  }

  /** Address 15: `99` halts. */
  lemma QuineHalt(s: State, f: nat)
    requires Holds(s.memory, QuineCode) && s.ptr == 15 && f > 0
    ensures Run(s, false, f) == RunResult(Halted, s, f - 1)
  {
    QuineWords(s.memory);
    HaltStep(s);
    RunAfterStep(s, Stop, s, false, f);
  }

  lemma PrefixGrows(q: seq<int>, k: nat)
    requires k < |q|
    ensures q[..k] + [q[k]] == q[..k + 1]
  {
  }

  /** The four instructions of pass `k` before the branch: the base is
      raised, word `k` is output, the count becomes `k + 1` and address 101
      records whether it reached 16. */
  lemma QuinePass(s: State, k: nat, f: nat)
    requires k < 16 && Holds(s.memory, QuineCode) && f >= 4
    requires s.ptr == 0 && s.relativeBase == k && Read(s.memory, 100) == k
    ensures var flag := if k + 1 == 16 then 1 else 0;
      Run(s, false, f) == Run(State(s.memory[100 := k + 1][101 := flag], 12, k + 1, s.input,
        s.output + [QuineCode[k]]), false, f - 4)
  {
    var q := QuineCode;
    QuineRaiseBase(s, f);
    var s1 := s.(relativeBase := k + 1, ptr := 2);
    QuineEmit(s1, f - 1);
    var s2 := s1.(output := s.output + [q[k]], ptr := 4);
    QuineCount(s2, f - 2);
    var s3 := s2.(memory := s.memory[100 := k + 1], ptr := 8);
    HoldsAfterWrite(s.memory, q, 100, k + 1);
    QuineCompare(s3, f - 3);
  }

  /** A pass before the last jumps back to address 0 with the count and
      the base raised by one and word `k` output. */
  lemma QuineNextPass(s: State, k: nat, f: nat)
    requires k < 15 && Holds(s.memory, QuineCode) && f >= 5
    requires s.ptr == 0 && s.relativeBase == k && Read(s.memory, 100) == k
    ensures Run(s, false, f) == Run(State(s.memory[100 := k + 1][101 := 0], 0, k + 1, s.input,
      s.output + [QuineCode[k]]), false, f - 5)
    ensures Holds(s.memory[100 := k + 1][101 := 0], QuineCode)
  {
    QuinePass(s, k, f);
    var s4 := State(s.memory[100 := k + 1][101 := 0], 12, k + 1, s.input, s.output + [QuineCode[k]]);
    HoldsAfterWrite(s.memory, QuineCode, 100, k + 1);
    HoldsAfterWrite(s.memory[100 := k + 1], QuineCode, 101, 0);
    QuineBranch(s4, f - 4);
  }

  /** The last pass outputs the last word, falls through the branch and
      halts. */
  lemma QuineLastPass(s: State, f: nat)
    requires Holds(s.memory, QuineCode) && f >= 6
    requires s.ptr == 0 && s.relativeBase == 15 && Read(s.memory, 100) == 15
    ensures var r := Run(s, false, f);
      r.status == Halted && r.state.output == s.output + [QuineCode[15]]
  {
    QuinePass(s, 15, f);
    var s4 := State(s.memory[100 := 16][101 := 1], 12, 16, s.input, s.output + [QuineCode[15]]);
    HoldsAfterWrite(s.memory, QuineCode, 100, 16);
    HoldsAfterWrite(s.memory[100 := 16], QuineCode, 101, 1);
    QuineBranch(s4, f - 4);
    QuineHalt(s4.(ptr := 15), f - 5);
  }

  /** Pass `k` of the loop starts at address 0 with relative base `k`, the
      count `k` at address 100 and the first `k` words already output; the
      remaining passes, given five steps each and one for the Halt, output
      the rest of the program and halt. */
  lemma {:induction false} QuineLoop(s: State, k: nat, extra: nat)
    requires k < 16 && Holds(s.memory, QuineCode)
    requires s.ptr == 0 && s.relativeBase == k && Read(s.memory, 100) == k
    requires s.output == QuineCode[..k]
    ensures var r := Run(s, false, 5 * (16 - k) + 1 + extra);
      r.status == Halted && r.state.output == QuineCode
    decreases 16 - k
  {
    var f := 5 * (16 - k) + 1 + extra;
    PrefixGrows(QuineCode, k);
    if k == 15 {
      QuineLastPass(s, f);
      assert QuineCode[..16] == QuineCode;
    } else {
      QuineNextPass(s, k, f);
      var next := State(s.memory[100 := k + 1][101 := 0], 0, k + 1, s.input, s.output + [QuineCode[k]]);
      assert Read(next.memory, 100) == k + 1;
      assert f - 5 == 5 * (16 - (k + 1)) + 1 + extra;
      QuineLoop(next, k + 1, extra);
    }
  }

  /** The quine, loaded fresh and given at least 81 steps, halts having
      output exactly its own code. */
  lemma QuineOutputsItself(extra: nat)
    ensures var r := Run(Boot(QuineCode), false, 81 + extra);
      r.status == Halted && r.state.output == QuineCode
  {
    var s := Boot(QuineCode);
    HoldsAll(s.memory, QuineCode);
    QuineLoop(s, 0, extra);
  }
}
