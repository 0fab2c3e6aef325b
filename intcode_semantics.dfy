/** What one Intcode instruction does to the machine, and what a run of
    instructions does, as functions of the machine state. The `Computer`
    class is proved to follow these functions. */
module IntcodeSemantics {
  import opened Outcomes
  import opened SparseMemory
  import opened IntcodeDecode

  /** The parts of a `Computer` that instructions read and change. */
  datatype State = State(
    memory: Memory,
    ptr: int,
    relativeBase: int,
    input: seq<int>,    // queued input, oldest first
    output: seq<int>)   // produced output, oldest first

  /** What one step did; replaces the `last_operation_*` flags and the
      exceptions of the source. */
  datatype Event =
    | Continue            // executed; the pointer moves past the instruction
    | Jump                // a jump fired; the pointer was redirected
    | Emit(value: int)    // Output executed
    | Stop                // Halt executed
    | Error(fault: Fault) // the step failed

  datatype Outcome = Outcome(event: Event, state: State)

  /** The address an operand word names: itself in positional mode, itself
      plus the relative base in relative mode, and none in any other mode. */
  function Address(mode: nat, arg: int, relativeBase: int): Option<int>
  {
    if mode == PositionalMode then Some(arg)
    else if mode == RelativeMode then Some(arg + relativeBase)
    else None
  }

  /** `get_param(i)`. */
  function Param(instr: Instr, memory: Memory, relativeBase: int, i: nat): (r: Result<int, Fault>)
    requires WellFormed(instr) && i < |instr.args|
    ensures r.Ok? <==> instr.modes[i] <= RelativeMode
  {
    var mode := instr.modes[i];
    if mode == ImmediateMode then Ok(instr.args[i])
    else match Address(mode, instr.args[i], relativeBase)
      case Some(a) => Ok(Read(memory, a))
      case None => Err(UnsupportedMode(mode))
  }

  /** Operand `i` reads the cell at its word in positional mode, the word
      itself in immediate mode, and the cell at word plus relative base in
      relative mode. */
  lemma ParamByMode(instr: Instr, memory: Memory, relativeBase: int, i: nat)
    requires WellFormed(instr) && i < |instr.args|
    ensures instr.modes[i] == PositionalMode ==>
      Param(instr, memory, relativeBase, i) == Ok(Read(memory, instr.args[i]))
    ensures instr.modes[i] == ImmediateMode ==>
      Param(instr, memory, relativeBase, i) == Ok(instr.args[i])
    ensures instr.modes[i] == RelativeMode ==>
      Param(instr, memory, relativeBase, i) == Ok(Read(memory, instr.args[i] + relativeBase))
  {
  }

  /** The operand word `write` stores through: the last one. */
  function WriteArg(instr: Instr): int
    requires |instr.args| >= 1
  {
    instr.args[|instr.args| - 1]
  }

  /** `write(val)`: refused in immediate mode; in positional or relative
      mode it stores `val` at the address of the last operand word; in a
      mode outside 0..2 it stores nothing. */
  function Write(instr: Instr, memory: Memory, relativeBase: int, val: int): (r: Result<Memory, Fault>)
    requires WellFormed(instr) && |instr.args| >= 1
    ensures r.Err? <==> WriteMode(instr.op, instr.modes) == ImmediateMode
    ensures r.Err? ==> r.error == ImmediateWrite
  {
    var mode := WriteMode(instr.op, instr.modes);
    if mode == ImmediateMode then Err(ImmediateWrite)
    else match Address(mode, WriteArg(instr), relativeBase)
      case Some(a) => Ok(memory[a := val])
      case None => Ok(memory)
  }

  /** A write in positional or relative mode changes exactly one cell: the
      one at the last operand word, offset by the relative base in relative
      mode. A write in a mode outside 0..2 changes nothing. */
  lemma WriteChangesOneCell(instr: Instr, memory: Memory, relativeBase: int, val: int, addr: int)
    requires WellFormed(instr) && |instr.args| >= 1
    ensures var r := Write(instr, memory, relativeBase, val);
      WriteMode(instr.op, instr.modes) == PositionalMode ==>
        r.Ok? && Read(r.value, addr) == if addr == WriteArg(instr) then val else Read(memory, addr)
    ensures var r := Write(instr, memory, relativeBase, val);
      WriteMode(instr.op, instr.modes) == RelativeMode ==>
        r.Ok? && Read(r.value, addr) == if addr == WriteArg(instr) + relativeBase then val else Read(memory, addr)
    ensures WriteMode(instr.op, instr.modes) > RelativeMode ==> Write(instr, memory, relativeBase, val) == Ok(memory)
  {
  }

  /** Reading back through an operand with the same word and mode as the
      write operand yields the value just written. */
  lemma ReadBackAfterWrite(instr: Instr, memory: Memory, relativeBase: int, val: int, k: nat)
    requires WellFormed(instr) && |instr.args| >= 1 && k < |instr.args|
    requires instr.modes[k] == WriteMode(instr.op, instr.modes)
    requires instr.modes[k] != ImmediateMode && instr.modes[k] <= RelativeMode
    requires instr.args[k] == WriteArg(instr)
    ensures Write(instr, memory, relativeBase, val).Ok?
    ensures Param(instr, Write(instr, memory, relativeBase, val).value, relativeBase, k) == Ok(val)
  {
  }

  /** `calculate` of Add and Mul, and the value LessThan and Equals write:
      the sum, the product, and a flag that is 1 exactly when the
      comparison holds and 0 otherwise. */
  function Calculate(op: Opcode, a: int, b: int): (r: int)
    requires op in {Add, Mul, LessThan, Equals}
    ensures op == Add ==> r == a + b
    ensures op == Mul ==> r == a * b
    ensures op == LessThan ==> (r == 1 <==> a < b) && (r == 0 <==> !(a < b))
    ensures op == Equals ==> (r == 1 <==> a == b) && (r == 0 <==> a != b)
  {
    if op == Add then a + b
    else if op == Mul then a * b
    else if op == LessThan then (if a < b then 1 else 0)
    else (if a == b then 1 else 0)
  }

  /** `execute` of each operator: its effect, before the pointer advance. */
  function Execute(instr: Instr, s: State): (o: Outcome)
    requires WellFormed(instr)
    ensures o.event.Stop? ==> o.state == s && instr.op == Halt
    ensures o.event.Error? ==>
      && o.state.memory == s.memory && o.state.ptr == s.ptr
      && o.state.relativeBase == s.relativeBase && o.state.output == s.output
      && (o.state.input == s.input || (s.input != [] && o.state.input == s.input[1..]))
    ensures o.event.Jump? ==> instr.op in {JumpIfTrue, JumpIfFalse} && o.state == s.(ptr := o.state.ptr)
    ensures (o.event.Continue? || o.event.Emit?) ==> o.state.ptr == s.ptr
    ensures o.event.Emit? ==> o.state.output == s.output + [o.event.value]
    ensures !o.event.Emit? ==> o.state.output == s.output
  {
    match instr.op
    case Add | Mul | LessThan | Equals =>
      var a := Param(instr, s.memory, s.relativeBase, 0);
      var b := Param(instr, s.memory, s.relativeBase, 1);
      if a.Err? then Outcome(Error(a.error), s)
      else if b.Err? then Outcome(Error(b.error), s)
      else
        var w := Write(instr, s.memory, s.relativeBase, Calculate(instr.op, a.value, b.value));
        if w.Err? then Outcome(Error(w.error), s)
        else Outcome(Continue, s.(memory := w.value))
    case Input =>
      if s.input == [] then Outcome(Error(EmptyInput), s)
      else
        // the value is taken from the queue before the write is attempted
        var taken := s.(input := s.input[1..]);
        var w := Write(instr, s.memory, s.relativeBase, s.input[0]);
        if w.Err? then Outcome(Error(w.error), taken)
        else Outcome(Continue, taken.(memory := w.value))
    case Output =>
      var v := Param(instr, s.memory, s.relativeBase, 0);
      if v.Err? then Outcome(Error(v.error), s)
      else Outcome(Emit(v.value), s.(output := s.output + [v.value]))
    case JumpIfTrue | JumpIfFalse =>
      var c := Param(instr, s.memory, s.relativeBase, 0);
      if c.Err? then Outcome(Error(c.error), s)
      else if (c.value != 0) == (instr.op == JumpIfTrue) then
        var target := Param(instr, s.memory, s.relativeBase, 1);
        if target.Err? then Outcome(Error(target.error), s)
        else Outcome(Jump, s.(ptr := target.value))
      else Outcome(Continue, s)
    case AdjustBase =>
      var v := Param(instr, s.memory, s.relativeBase, 0);
      if v.Err? then Outcome(Error(v.error), s)
      else Outcome(Continue, s.(relativeBase := s.relativeBase + v.value))
    case Halt =>
      Outcome(Stop, s)
  }

  /** One iteration of the run loop: decode the word at the pointer,
      execute it, and advance the pointer by the instruction's length
      unless a jump fired or the step halted or failed. */
  function Step(s: State): (o: Outcome)
    ensures o.event.Stop? ==>
      o.state == s && Decode(s.memory, s.ptr).Ok? && Decode(s.memory, s.ptr).value.op == Halt
    ensures o.event.Error? ==>
      && o.state.memory == s.memory && o.state.ptr == s.ptr
      && o.state.relativeBase == s.relativeBase && o.state.output == s.output
      && (o.state.input == s.input || (s.input != [] && o.state.input == s.input[1..]))
    ensures o.event.Jump? ==>
      && Decode(s.memory, s.ptr).Ok?
      && Decode(s.memory, s.ptr).value.op in {JumpIfTrue, JumpIfFalse}
      && o.state == s.(ptr := o.state.ptr)
    ensures (o.event.Continue? || o.event.Emit?) ==>
      && Decode(s.memory, s.ptr).Ok?
      && o.state.ptr == s.ptr + OpLen(Decode(s.memory, s.ptr).value.op)
    ensures o.event.Emit? ==> o.state.output == s.output + [o.event.value]
    ensures !o.event.Emit? ==> o.state.output == s.output
  {
    match Decode(s.memory, s.ptr)
    case Err(f) => Outcome(Error(f), s)
    case Ok(instr) =>
      var o := Execute(instr, s);
      if o.event.Continue? || o.event.Emit? then
        Outcome(o.event, o.state.(ptr := o.state.ptr + OpLen(instr.op)))
      else o
  }

  /** A step whose word decodes is the execution of the decoded
      instruction followed by the pointer advance. */
  lemma StepOfDecoded(s: State, instr: Instr)
    requires Decode(s.memory, s.ptr) == Ok(instr)
    ensures var o := Execute(instr, s);
      Step(s) == if o.event.Continue? || o.event.Emit? then
        Outcome(o.event, o.state.(ptr := o.state.ptr + OpLen(instr.op)))
      else o
  {
  }

  /** Add, Mul, LessThan and Equals store `Calculate` of their first two
      operands through the write operand and move the pointer by 4;
      nothing else changes. */
  lemma ArithmeticStep(s: State, a: int, b: int)
    requires Decode(s.memory, s.ptr).Ok?
    requires Decode(s.memory, s.ptr).value.op in {Add, Mul, LessThan, Equals}
    requires Param(Decode(s.memory, s.ptr).value, s.memory, s.relativeBase, 0) == Ok(a)
    requires Param(Decode(s.memory, s.ptr).value, s.memory, s.relativeBase, 1) == Ok(b)
    requires WriteMode(Decode(s.memory, s.ptr).value.op, Decode(s.memory, s.ptr).value.modes) != ImmediateMode
    ensures var instr := Decode(s.memory, s.ptr).value;
      Step(s) == Outcome(Continue, s.(
        memory := Write(instr, s.memory, s.relativeBase, Calculate(instr.op, a, b)).value,
        ptr := s.ptr + 4))
  {
  }

  /** A write through an immediate-mode operand fails the step and leaves
      memory, pointer and output unchanged. */
  lemma ImmediateWriteStep(s: State)
    requires Decode(s.memory, s.ptr).Ok?
    requires Decode(s.memory, s.ptr).value.op in {Add, Mul, LessThan, Equals, Input}
    requires WriteMode(Decode(s.memory, s.ptr).value.op, Decode(s.memory, s.ptr).value.modes) == ImmediateMode
    requires forall i :: 0 <= i < 2 && i < |Decode(s.memory, s.ptr).value.args| ==>
      Decode(s.memory, s.ptr).value.modes[i] <= RelativeMode
    requires Decode(s.memory, s.ptr).value.op == Input ==> s.input != []
    ensures Step(s).event == Error(ImmediateWrite)
    ensures Step(s).state.memory == s.memory && Step(s).state.ptr == s.ptr
  {
  }

  /** Input stores the oldest queued value through its operand, removes it
      from the queue and moves the pointer by 2; with an empty queue the
      step fails and nothing changes. */
  lemma InputStep(s: State)
    requires Decode(s.memory, s.ptr).Ok? && Decode(s.memory, s.ptr).value.op == Input
    ensures s.input == [] ==> Step(s) == Outcome(Error(EmptyInput), s)
    ensures s.input != [] && WriteMode(Input, Decode(s.memory, s.ptr).value.modes) != ImmediateMode ==>
      Step(s) == Outcome(Continue, s.(
        memory := Write(Decode(s.memory, s.ptr).value, s.memory, s.relativeBase, s.input[0]).value,
        input := s.input[1..],
        ptr := s.ptr + 2))
  {
  }

  /** Jump-If-True fires exactly when its first operand is non-zero and
      Jump-If-False exactly when it is zero; a jump sets the pointer to the
      second operand, otherwise the pointer moves by 3. */
  lemma JumpStep(s: State, c: int, target: int)
    requires Decode(s.memory, s.ptr).Ok?
    requires Decode(s.memory, s.ptr).value.op in {JumpIfTrue, JumpIfFalse}
    requires Param(Decode(s.memory, s.ptr).value, s.memory, s.relativeBase, 0) == Ok(c)
    requires Param(Decode(s.memory, s.ptr).value, s.memory, s.relativeBase, 1) == Ok(target)
    ensures var fires := if Decode(s.memory, s.ptr).value.op == JumpIfTrue then c != 0 else c == 0;
      Step(s) == if fires then Outcome(Jump, s.(ptr := target))
                 else Outcome(Continue, s.(ptr := s.ptr + 3))
  {
  }

  /** Adjust-Relative-Base adds its operand to the relative base, moves the
      pointer by 2 and changes nothing else. */
  lemma AdjustBaseStep(s: State, v: int)
    requires Decode(s.memory, s.ptr).Ok? && Decode(s.memory, s.ptr).value.op == AdjustBase
    requires Param(Decode(s.memory, s.ptr).value, s.memory, s.relativeBase, 0) == Ok(v)
    ensures Step(s) == Outcome(Continue, s.(relativeBase := s.relativeBase + v, ptr := s.ptr + 2))
  {
  }

  /** Output appends its operand to the output and moves the pointer by 2. */
  lemma OutputStep(s: State, v: int)
    requires Decode(s.memory, s.ptr).Ok? && Decode(s.memory, s.ptr).value.op == Output
    requires Param(Decode(s.memory, s.ptr).value, s.memory, s.relativeBase, 0) == Ok(v)
    ensures Step(s) == Outcome(Emit(v), s.(output := s.output + [v], ptr := s.ptr + 2))
  {
  }

  /** A word whose low two digits are 99 halts without changing anything:
      the pointer stays on the Halt word. */
  lemma HaltStep(s: State)
    requires Read(s.memory, s.ptr) >= 0 && Read(s.memory, s.ptr) % 100 == 99
    ensures Step(s) == Outcome(Stop, s)
  {
  }

  /** A word whose low two digits name no operator fails at dispatch,
      before anything changes. */
  lemma UnknownOpcodeStep(s: State)
    requires Lookup(Read(s.memory, s.ptr) % 100).None?
    ensures Step(s) == Outcome(Error(UnknownOpcode(Read(s.memory, s.ptr) % 100)), s)
  {
  }

  /** How a call of `run` ended. */
  datatype Status =
    | Halted            // Halt executed; `running` becomes false
    | Paused            // Output executed while pausing at output was requested
    | Faulted(fault: Fault)
    | OutOfFuel         // the step budget ran out first

  datatype RunResult = RunResult(status: Status, state: State, fuel: nat)

  /** The `while self.running` loop of `run`, over a step function and
      given at most `fuel` steps; the result carries the fuel left over.
      The loop does not depend on what a step does, so its properties are
      proved for every step function. */
  function RunLoop(step: State -> Outcome, s: State, pauseAtOutput: bool, fuel: nat): (r: RunResult)
    ensures r.fuel < fuel || (fuel == 0 && r == RunResult(OutOfFuel, s, 0))
    decreases fuel, 1
  {
    if fuel == 0 then RunResult(OutOfFuel, s, 0)
    else RunBody(step, s, pauseAtOutput, fuel)
  }

  /** One pass of the loop body, and the rest of the loop. */
  function RunBody(step: State -> Outcome, s: State, pauseAtOutput: bool, fuel: nat): (r: RunResult)
    requires fuel > 0
    ensures r.fuel < fuel
    decreases fuel, 0
  {
    var o := step(s);
    match o.event
    case Stop => RunResult(Halted, o.state, fuel - 1)
    case Error(f) => RunResult(Faulted(f), o.state, fuel - 1)
    case Emit(_) =>
      if pauseAtOutput then RunResult(Paused, o.state, fuel - 1)
      else RunLoop(step, o.state, pauseAtOutput, fuel - 1)
    case _ => RunLoop(step, o.state, pauseAtOutput, fuel - 1)
  }

  /** `run` of the Intcode machine: the loop over `Step`. A run that halts
      leaves the pointer on the Halt word, not past it; a run only appends
      to the output, and one that pauses has appended exactly one value. */
  function Run(s: State, pauseAtOutput: bool, fuel: nat): (r: RunResult)
    ensures r.status.Halted? ==>
      Read(r.state.memory, r.state.ptr) >= 0 && Read(r.state.memory, r.state.ptr) % 100 == 99
    ensures |r.state.output| >= |s.output| && r.state.output[..|s.output|] == s.output
    ensures r.status.Paused? ==> pauseAtOutput && |r.state.output| == |s.output| + 1
  {
    LoopHaltsAtStop(Step, s, pauseAtOutput, fuel);
    LoopOutput(Step, s, pauseAtOutput, fuel);
    RunLoop(Step, s, pauseAtOutput, fuel)
  }

  /** A step that continues, jumps, or outputs without pausing hands the
      remaining fuel to the next state. */
  lemma LoopContinues(step: State -> Outcome, s: State, pauseAtOutput: bool, fuel: nat)
    requires fuel > 0
    requires step(s).event.Continue? || step(s).event.Jump? || (step(s).event.Emit? && !pauseAtOutput)
    ensures RunLoop(step, s, pauseAtOutput, fuel) == RunLoop(step, step(s).state, pauseAtOutput, fuel - 1)
  {
  }

  /** A step that fails ends the run with its fault, and one that outputs
      while pausing ends it paused, both with the state the step leaves. */
  lemma LoopEnds(step: State -> Outcome, s: State, pauseAtOutput: bool, fuel: nat)
    requires fuel > 0
    ensures step(s).event.Error? ==>
      RunLoop(step, s, pauseAtOutput, fuel) == RunResult(Faulted(step(s).event.fault), step(s).state, fuel - 1)
    ensures step(s).event.Emit? && pauseAtOutput ==>
      RunLoop(step, s, pauseAtOutput, fuel) == RunResult(Paused, step(s).state, fuel - 1)
  {
  }

  /** A step that halts ends the run with the state it leaves. */
  lemma LoopStops(step: State -> Outcome, s: State, pauseAtOutput: bool, fuel: nat)
    requires fuel > 0 && step(s).event.Stop?
    ensures RunLoop(step, s, pauseAtOutput, fuel) == RunResult(Halted, step(s).state, fuel - 1)
  {
  }

  /** How the Intcode run continues after one step from `s`. */
  lemma RunAfterStep(s: State, ev: Event, next: State, pauseAtOutput: bool, fuel: nat)
    requires fuel > 0 && Step(s) == Outcome(ev, next)
    ensures ev.Stop? ==> Run(s, pauseAtOutput, fuel) == RunResult(Halted, next, fuel - 1)
    ensures ev.Error? ==> Run(s, pauseAtOutput, fuel) == RunResult(Faulted(ev.fault), next, fuel - 1)
    ensures ev.Emit? && pauseAtOutput ==> Run(s, pauseAtOutput, fuel) == RunResult(Paused, next, fuel - 1)
    ensures ev.Continue? || ev.Jump? || (ev.Emit? && !pauseAtOutput) ==>
      Run(s, pauseAtOutput, fuel) == Run(next, pauseAtOutput, fuel - 1)
  {
    LoopEnds(Step, s, pauseAtOutput, fuel);
    if ev.Stop? {
      LoopStops(Step, s, pauseAtOutput, fuel);
    } else if ev.Continue? || ev.Jump? || (ev.Emit? && !pauseAtOutput) {
      LoopContinues(Step, s, pauseAtOutput, fuel);
    }
  }

  /** Pausing loses no progress, whatever a step does: a paused run resumed
      without pausing ends exactly as one run without pausing, and a run
      that does not pause is the same with or without pausing. */
  lemma {:induction false} LoopPauseResume(step: State -> Outcome, s: State, fuel: nat)
    ensures var p := RunLoop(step, s, true, fuel);
      p.status.Paused? ==> RunLoop(step, s, false, fuel) == RunLoop(step, p.state, false, p.fuel)
    ensures !RunLoop(step, s, true, fuel).status.Paused? ==>
      RunLoop(step, s, false, fuel) == RunLoop(step, s, true, fuel)
    decreases fuel
  {
    if fuel > 0 {
      var o := step(s);
      if o.event.Continue? || o.event.Jump? {
        LoopPauseResume(step, o.state, fuel - 1);
      }
    }
  }

  /** Pausing at output and resuming gives the Intcode machine the same
      final state and status as running without pausing. */
  lemma PauseResume(s: State, fuel: nat)
    ensures var p := Run(s, true, fuel);
      p.status.Paused? ==> Run(s, false, fuel) == Run(p.state, false, p.fuel)
    ensures !Run(s, true, fuel).status.Paused? ==> Run(s, false, fuel) == Run(s, true, fuel)
  {
    LoopPauseResume(Step, s, fuel);
  }

  /** More fuel changes nothing about a run that ended before its fuel ran
      out: it ends the same way, with the extra fuel left over. */
  lemma {:induction false} LoopExtraFuel(step: State -> Outcome, s: State, pauseAtOutput: bool, fuel: nat, extra: nat)
    ensures var r := RunLoop(step, s, pauseAtOutput, fuel);
      !r.status.OutOfFuel? ==> RunLoop(step, s, pauseAtOutput, fuel + extra) == r.(fuel := r.fuel + extra)
    decreases fuel
  {
    if fuel > 0 {
      var o := step(s);
      if o.event.Continue? || o.event.Jump? || (o.event.Emit? && !pauseAtOutput) {
        LoopExtraFuel(step, o.state, pauseAtOutput, fuel - 1, extra);
      }
    }
  }

  /** The same for the Intcode run. */
  lemma RunExtraFuel(s: State, pauseAtOutput: bool, fuel: nat, extra: nat)
    ensures var r := Run(s, pauseAtOutput, fuel);
      !r.status.OutOfFuel? ==> Run(s, pauseAtOutput, fuel + extra) == r.(fuel := r.fuel + extra)
  {
    LoopExtraFuel(Step, s, pauseAtOutput, fuel, extra);
  }

  /** A run ends with `Halted` only in a state where the step halts, when
      halting leaves the state unchanged. */
  lemma {:induction false} LoopHaltsAtStop(step: State -> Outcome, s: State, pauseAtOutput: bool, fuel: nat)
    requires forall x :: step(x).event.Stop? ==> step(x).state == x
    ensures var r := RunLoop(step, s, pauseAtOutput, fuel);
      r.status.Halted? ==> step(r.state).event.Stop?
    decreases fuel
  {
    if fuel > 0 {
      var o := step(s);
      if o.event.Continue? || o.event.Jump? || (o.event.Emit? && !pauseAtOutput) {
        LoopHaltsAtStop(step, o.state, pauseAtOutput, fuel - 1);
      }
    }
  }

  /** When only an emitting step appends to the output, and appends its
      value, the output of a run extends the output it started with, and a
      run that pauses has appended exactly one value. */
  lemma {:induction false} LoopOutput(step: State -> Outcome, s: State, pauseAtOutput: bool, fuel: nat)
    requires forall x :: step(x).event.Emit? ==> step(x).state.output == x.output + [step(x).event.value]
    requires forall x :: !step(x).event.Emit? ==> step(x).state.output == x.output
    ensures var r := RunLoop(step, s, pauseAtOutput, fuel);
      |r.state.output| >= |s.output| && r.state.output[..|s.output|] == s.output
    ensures var r := RunLoop(step, s, pauseAtOutput, fuel);
      r.status.Paused? ==> pauseAtOutput && |r.state.output| == |s.output| + 1
    decreases fuel
  {
    if fuel > 0 {
      var o := step(s);
      if o.event.Continue? || o.event.Jump? || (o.event.Emit? && !pauseAtOutput) {
        LoopOutput(step, o.state, pauseAtOutput, fuel - 1);
        var r := RunLoop(step, o.state, pauseAtOutput, fuel - 1);
        assert r.state.output[..|s.output|] == r.state.output[..|o.state.output|][..|s.output|];
      }
    }
  }

  /** A step that outputs is where a pausing run stops; the pointer is
      already past the Output instruction, so the next run resumes there. */
  lemma PauseAfterOutput(s: State, fuel: nat)
    requires Step(s).event.Emit?
    ensures Run(s, true, fuel + 1) == RunResult(Paused, Step(s).state, fuel)
    ensures Run(s, true, fuel + 1).state.ptr == s.ptr + 2
  {
    LoopEnds(Step, s, true, fuel + 1);
  }

  /** The memory image `load_code` stores: word `i` of the program at address `i`. */
  function ProgramImage(code: seq<int>): (m: Memory)
    ensures forall a :: 0 <= a < |code| ==> Read(m, a) == code[a]
    ensures forall a :: !(0 <= a < |code|) ==> Read(m, a) == 0
  {
    map i | 0 <= i < |code| :: code[i]
  }

  /** A freshly loaded program: pointer and relative base 0, no input. */
  function Boot(code: seq<int>): State
  {
    State(ProgramImage(code), 0, 0, [], [])
  }

  const MultiplyCode: seq<int> := [1002, 4, 3, 4, 33]

  lemma MultiplyFirstStep()
    ensures var s0 := Boot(MultiplyCode);
      Step(s0) == Outcome(Continue, s0.(memory := s0.memory[4 := 99], ptr := 4))
  {
    var s0 := Boot(MultiplyCode);
    assert Modes(1002) == [0, 1, 0] by {
      assert Digits(10) == [0, 1] by { assert Digits(1) == [1]; }
    }
    assert Read(s0.memory, 0) == 1002 && Read(s0.memory, 1) == 4;
    assert Read(s0.memory, 2) == 3 && Read(s0.memory, 3) == 4;
    assert 1002 % 100 == 2;
    assert Decode(s0.memory, 0).Ok?;
    assert Decode(s0.memory, 0).value.op == Mul;
    assert Decode(s0.memory, 0).value.modes == [0, 1, 0];
    assert Decode(s0.memory, 0).value.args == [4, 3, 4];
    ArithmeticStep(s0, 33, 3);
  }

  lemma MultiplySecondStep()
    ensures var s1 := Boot(MultiplyCode).(memory := Boot(MultiplyCode).memory[4 := 99], ptr := 4);
      Step(s1) == Outcome(Stop, s1)
  {
    var s1 := Boot(MultiplyCode).(memory := Boot(MultiplyCode).memory[4 := 99], ptr := 4);
    assert Read(s1.memory, s1.ptr) == 99;
    HaltStep(s1);
  }

  /** Multiplying with an immediate operand: 1002,4,3,4,33 stores 3 * 33 at
      address 4, which turns that word into the Halt that ends the run. */
  lemma MultiplyProgram()
    ensures var r := Run(Boot(MultiplyCode), false, 2);
      r.status == Halted && Read(r.state.memory, 4) == 99 && r.state.ptr == 4
  {
    var s0 := Boot(MultiplyCode);
    var s1 := s0.(memory := s0.memory[4 := 99], ptr := 4);
    MultiplyFirstStep();
    LoopContinues(Step, s0, false, 2);
    MultiplySecondStep();
    LoopStops(Step, s1, false, 1);
  }

  const AddImmediateCode: seq<int> := [1101, 5, 5, 0, 99]

  lemma AddImmediateFirstStep()
    ensures var s0 := Boot(AddImmediateCode);
      Step(s0) == Outcome(Continue, s0.(memory := s0.memory[0 := 10], ptr := 4))
  {
    var s0 := Boot(AddImmediateCode);
    assert Modes(1101) == [1, 1, 0] by {
      assert Digits(11) == [1, 1] by { assert Digits(1) == [1]; }
    }
    assert Read(s0.memory, 0) == 1101 && Read(s0.memory, 1) == 5;
    assert Read(s0.memory, 2) == 5 && Read(s0.memory, 3) == 0;
    assert 1101 % 100 == 1;
    assert Decode(s0.memory, 0).Ok?;
    assert Decode(s0.memory, 0).value.op == Add;
    assert Decode(s0.memory, 0).value.modes == [1, 1, 0];
    assert Decode(s0.memory, 0).value.args == [5, 5, 0];
    ArithmeticStep(s0, 5, 5);
  }

  lemma AddImmediateSecondStep()
    ensures var s1 := Boot(AddImmediateCode).(memory := Boot(AddImmediateCode).memory[0 := 10], ptr := 4);
      Step(s1) == Outcome(Stop, s1)
  {
    var s1 := Boot(AddImmediateCode).(memory := Boot(AddImmediateCode).memory[0 := 10], ptr := 4);
    assert Read(s1.memory, s1.ptr) == 99;
    HaltStep(s1);
  }

  /** Adding two immediates: 1101,5,5,0,99 stores 10 at address 0. */
  lemma AddImmediateProgram()
    ensures var r := Run(Boot(AddImmediateCode), false, 2);
      r.status == Halted && Read(r.state.memory, 0) == 10
  {
    var s0 := Boot(AddImmediateCode);
    var s1 := s0.(memory := s0.memory[0 := 10], ptr := 4);
    AddImmediateFirstStep();
    LoopContinues(Step, s0, false, 2);
    AddImmediateSecondStep();
    LoopStops(Step, s1, false, 1);
  }

  const RelativeBaseCode: seq<int> := [109, -7, 21101, 2, 3, 12, 99]

  lemma RelativeBaseFirstStep()
    ensures var s0 := Boot(RelativeBaseCode);
      Step(s0) == Outcome(Continue, s0.(relativeBase := -7, ptr := 2))
  {
    var s0 := Boot(RelativeBaseCode);
    assert Modes(109) == [1, 0, 0] by {
      assert Digits(1) == [1];
    }
    assert Read(s0.memory, 0) == 109 && Read(s0.memory, 1) == -7;
    assert 109 % 100 == 9;
    assert Decode(s0.memory, 0).Ok?;
    assert Decode(s0.memory, 0).value.op == AdjustBase;
    assert Decode(s0.memory, 0).value.modes == [1, 0, 0];
    assert Decode(s0.memory, 0).value.args == [-7];
    AdjustBaseStep(s0, -7);
  }

  lemma RelativeBaseSecondStep()
    ensures var s1 := Boot(RelativeBaseCode).(relativeBase := -7, ptr := 2);
      Step(s1) == Outcome(Continue, s1.(memory := s1.memory[5 := 5], ptr := 6))
  {
    var s1 := Boot(RelativeBaseCode).(relativeBase := -7, ptr := 2);
    assert Modes(21101) == [1, 1, 2] by {
      assert Digits(211) == [1, 1, 2] by {
        assert Digits(2) == [2];
        assert Digits(21) == [1, 2];
      }
    }
    assert Read(s1.memory, 2) == 21101 && Read(s1.memory, 3) == 2;
    assert Read(s1.memory, 4) == 3 && Read(s1.memory, 5) == 12;
    assert 21101 % 100 == 1;
    assert Decode(s1.memory, 2).Ok?;
    assert Decode(s1.memory, 2).value.op == Add;
    assert Decode(s1.memory, 2).value.modes == [1, 1, 2];
    assert Decode(s1.memory, 2).value.args == [2, 3, 12];
    ArithmeticStep(s1, 2, 3);
  }

  lemma RelativeBaseThirdStep()
    ensures var s2 := Boot(RelativeBaseCode).(relativeBase := -7, memory := Boot(RelativeBaseCode).memory[5 := 5], ptr := 6);
      Step(s2) == Outcome(Stop, s2)
  {
    var s2 := Boot(RelativeBaseCode).(relativeBase := -7, memory := Boot(RelativeBaseCode).memory[5 := 5], ptr := 6);
    assert Read(s2.memory, s2.ptr) == 99;
    HaltStep(s2);
  }

  /** A relative-mode write after Adjust-Relative-Base lands at the operand
      word plus the new base, also for a negative base:
      109,-7,21101,2,3,12,99 moves the base to -7 and stores 2 + 3 at
      address 12 + (-7) = 5. */
  lemma RelativeBaseProgram()
    ensures var r := Run(Boot(RelativeBaseCode), false, 3);
      r.status == Halted && r.state.relativeBase == -7 && Read(r.state.memory, 5) == 5
  {
    var s0 := Boot(RelativeBaseCode);
    var s1 := s0.(relativeBase := -7, ptr := 2);
    var s2 := s1.(memory := s1.memory[5 := 5], ptr := 6);
    RelativeBaseFirstStep();
    LoopContinues(Step, s0, false, 3);
    RelativeBaseSecondStep();
    LoopContinues(Step, s1, false, 2);
    RelativeBaseThirdStep();
    LoopStops(Step, s2, false, 1);
  }
}
