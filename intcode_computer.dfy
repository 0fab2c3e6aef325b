/** The Intcode `Computer`: an object whose memory, pointer, relative base,
    flags and streams are updated in place as it runs. Each method is proved
    to follow the functions of `IntcodeSemantics`. */
module IntcodeComputer {
  import opened Outcomes
  import opened SparseMemory
  import opened IntcodeDecode
  import opened IntcodeStreams
  import Sem = IntcodeSemantics

  /** Memory as `run` leaves it before its loop: a non-zero noun is stored
      at address 1 and a non-zero verb at address 2; zero means "keep". */
  function Patch(s: Sem.State, noun: int, verb: int): (p: Sem.State)
    ensures Read(p.memory, 1) == if noun != 0 then noun else Read(s.memory, 1)
    ensures Read(p.memory, 2) == if verb != 0 then verb else Read(s.memory, 2)
    ensures forall a :: a != 1 && a != 2 ==> Read(p.memory, a) == Read(s.memory, a)
    ensures p == s.(memory := p.memory)
  {
    var m := if noun != 0 then s.memory[1 := noun] else s.memory;
    s.(memory := if verb != 0 then m[2 := verb] else m)
  }

  class Computer {
    var memory: Memory
    var ptr: int
    var relativeBase: int
    var lastOperationJump: bool
    var lastOperationOutput: bool
    var input: InStream
    var output: OutStream
    var running: bool
    var pauseAtOutput: bool

    /** The machine state instructions act on. */
    ghost function State(): Sem.State
      reads this, input, output
    {
      Sem.State(memory, ptr, relativeBase, input.buffer, output.buffer)
    }

    constructor ()
      ensures State() == Sem.State(map[], 0, 0, [], [])
      ensures fresh(input) && fresh(output)
      ensures !lastOperationJump && !lastOperationOutput && !running && !pauseAtOutput
    {
      memory := map[];
      ptr := 0;
      relativeBase := 0;
      lastOperationJump := false;
      lastOperationOutput := false;
      input := new InStream();
      output := new OutStream();
      running := false;
      pauseAtOutput := false;
    }

    /** `reset`: the state of a new computer, with new, empty streams. */
    method Reset()
      modifies this
      ensures State() == Sem.State(map[], 0, 0, [], [])
      ensures fresh(input) && fresh(output)
      ensures !lastOperationJump && !running && !pauseAtOutput
      ensures lastOperationOutput == old(lastOperationOutput)
    {
      memory := map[];
      ptr := 0;
      relativeBase := 0;
      lastOperationJump := false;
      input := new InStream();
      output := new OutStream();
      running := false;
      pauseAtOutput := false;
    }

    /** `_get_current_op`: look the opcode up, read the operand words, then
        parse the modes. */
    method GetCurrentOp() returns (r: Result<Instr, Fault>)
      ensures r == Decode(memory, ptr)
    {
      var mem, at := memory, ptr;
      var word := Read(mem, at);
      var op := Lookup(word % 100);
      if op.None? {
        return Err(UnknownOpcode(word % 100));
      }
      var n := OpLen(op.value) - 1;
      var args: seq<int> := [];
      for i := 0 to n
        invariant |args| == i
        invariant forall j :: 0 <= j < i ==> args[j] == Read(mem, at + 1 + j)
      {
        args := args + [Read(mem, at + 1 + i)];
      }
      if word < 0 {
        return Err(NegativeWord(word));
      }
      assert args == seq(n, i requires 0 <= i < n => Read(mem, at + 1 + i));
      r := Ok(Instr(op.value, args, Modes(word)));
    }

    /** `advance`: move the pointer past the instruction. */
    method Advance(instr: Instr)
      modifies this`ptr
      ensures ptr == old(ptr) + OpLen(instr.op)
    {
      ptr := ptr + OpLen(instr.op);
    }

    /** `load_code`: word `i` of the program goes to address `i`; every
        other address keeps its value. */
    method LoadCode(code: seq<int>)
      modifies this`memory
      ensures memory == old(memory) + Sem.ProgramImage(code)
      ensures forall a :: Read(memory, a) == if 0 <= a < |code| then code[a] else Read(old(memory), a)
    {
      for i := 0 to |code|
        invariant memory == old(memory) + map j | 0 <= j < i :: code[j]
      {
        memory := memory[i := code[i]];
      }
    }

    /** `read_input`: queue a value for Input instructions. */
    method ReadInput(val: int)
      modifies input
      ensures input.buffer == old(input.buffer) + [val]
    {
      input.Add(val);
    }

    /** `get_output`: pop the newest output value; `None` for an empty buffer. */
    method GetOutput() returns (r: Option<int>)
      modifies output
      ensures old(output.buffer) == [] ==> r == None && output.buffer == []
      ensures old(output.buffer) != [] ==>
        && r == Some(old(output.buffer)[|old(output.buffer)| - 1])
        && output.buffer == old(output.buffer)[..|old(output.buffer)| - 1]
    {
      r := output.Get();
    }

    /** `execute` of the operator for `instr`, acting on this computer:
        the state changes as `Sem.Execute` says, and the jump and output
        flags are raised when a jump fires or a value is output. */
    method Execute(instr: Instr) returns (ev: Sem.Event)
      requires WellFormed(instr)
      modifies this`memory, this`ptr, this`relativeBase, this`lastOperationJump, this`lastOperationOutput, input, output
      ensures Sem.Execute(instr, old(State())) == Sem.Outcome(ev, State())
      ensures lastOperationJump == (old(lastOperationJump) || ev.Jump?)
      ensures lastOperationOutput == (old(lastOperationOutput) || ev.Emit?)
    {
      match instr.op
      case Add | Mul | LessThan | Equals =>
        var a := Sem.Param(instr, memory, relativeBase, 0);
        if a.Err? { return Sem.Error(a.error); }
        var b := Sem.Param(instr, memory, relativeBase, 1);
        if b.Err? { return Sem.Error(b.error); }
        var w := Sem.Write(instr, memory, relativeBase, Sem.Calculate(instr.op, a.value, b.value));
        if w.Err? { return Sem.Error(w.error); }
        memory := w.value;
        ev := Sem.Continue;
      case Input =>
        var v := input.Get();
        if v.Err? { return Sem.Error(v.error); }
        var w := Sem.Write(instr, memory, relativeBase, v.value);
        if w.Err? { return Sem.Error(w.error); }
        memory := w.value;
        ev := Sem.Continue;
      case Output =>
        var v := Sem.Param(instr, memory, relativeBase, 0);
        if v.Err? { return Sem.Error(v.error); }
        output.Put(v.value);
        lastOperationOutput := true;
        ev := Sem.Emit(v.value);
      case JumpIfTrue | JumpIfFalse =>
        var c := Sem.Param(instr, memory, relativeBase, 0);
        if c.Err? { return Sem.Error(c.error); }
        if (c.value != 0) == (instr.op == JumpIfTrue) {
          var target := Sem.Param(instr, memory, relativeBase, 1);
          if target.Err? { return Sem.Error(target.error); }
          ptr := target.value;
          lastOperationJump := true;
          ev := Sem.Jump;
        } else {
          ev := Sem.Continue;
        }
      case AdjustBase =>
        var v := Sem.Param(instr, memory, relativeBase, 0);
        if v.Err? { return Sem.Error(v.error); }
        relativeBase := relativeBase + v.value;
        ev := Sem.Continue;
      case Halt =>
        ev := Sem.Stop;
    }

    /** One pass of the loop in `run`: build the operator at the pointer,
        clear both flags, execute it, and advance unless it jumped. The
        state changes as `Sem.Step` says; after a step that did not fail,
        the flags tell whether it jumped and whether it output. */
    method Cycle() returns (ev: Sem.Event)
      modifies this`memory, this`ptr, this`relativeBase, this`lastOperationJump, this`lastOperationOutput, input, output
      ensures Sem.Step(old(State())) == Sem.Outcome(ev, State())
      ensures !ev.Error? ==> lastOperationJump == ev.Jump? && lastOperationOutput == ev.Emit?
    {
      ghost var s := State();
      var op := GetCurrentOp();
      if op.Err? {
        return Sem.Error(op.error);
      }
      Sem.StepOfDecoded(s, op.value);
      lastOperationJump := false;
      lastOperationOutput := false;
      ev := Execute(op.value);
      if ev.Stop? || ev.Error? {
        return;
      }
      if !lastOperationJump {
        Advance(op.value);
      }
    }

    /** `run`: patch noun and verb in, raise `running`, then step until
        Halt, a fault, an output when pausing, or until the step budget
        `fuel` runs out. The status and the final state are those of
        `Sem.Run`; only a halt clears `running`. */
    method Run(noun: int, verb: int, pauseAtOutput: bool, fuel: nat) returns (status: Sem.Status)
      modifies this`memory, this`ptr, this`relativeBase, this`lastOperationJump, this`lastOperationOutput, input, output, this`running
      ensures var r := Sem.Run(Patch(old(State()), noun, verb), pauseAtOutput, fuel);
        status == r.status && State() == r.state
      ensures running == !status.Halted?
    {
      if noun != 0 {
        memory := memory[1 := noun];
      }
      if verb != 0 {
        memory := memory[2 := verb];
      }
      running := true;
      status := Loop(pauseAtOutput, fuel);
    }

    /** The `while self.running` loop of `run`. */
    method Loop(pauseAtOutput: bool, fuel: nat) returns (status: Sem.Status)
      requires running
      modifies this`memory, this`ptr, this`relativeBase, this`lastOperationJump, this`lastOperationOutput, input, output, this`running
      ensures var r := Sem.Run(old(State()), pauseAtOutput, fuel);
        status == r.status && State() == r.state
      ensures running == !status.Halted?
    {
      ghost var goal := Sem.Run(State(), pauseAtOutput, fuel);
      var f := fuel;
      while true
        invariant running
        invariant Sem.Run(State(), pauseAtOutput, f) == goal
        decreases f
      {
        if f == 0 {
          return Sem.OutOfFuel;
        }
        var exit := Turn(pauseAtOutput, f);
        if exit.Some? {
          return exit.value;
        }
        f := f - 1;
      }
    }

    /** One pass of the loop body of `run` and its exit test: a halt
        clears `running` and ends the loop, a fault ends it by an
        exception, and an output ends it when pausing. */
    method Turn(pauseAtOutput: bool, ghost fuel: nat) returns (exit: Option<Sem.Status>)
      requires fuel > 0 && running
      modifies this`memory, this`ptr, this`relativeBase, this`lastOperationJump, this`lastOperationOutput, input, output, this`running
      ensures exit.None? ==>
        running && Sem.Run(old(State()), pauseAtOutput, fuel) == Sem.Run(State(), pauseAtOutput, fuel - 1)
      ensures exit.Some? ==>
        && Sem.Run(old(State()), pauseAtOutput, fuel) == Sem.RunResult(exit.value, State(), fuel - 1)
        && running == !exit.value.Halted?
    {
      ghost var s := State();
      var ev := Cycle();
      Sem.RunAfterStep(s, ev, State(), pauseAtOutput, fuel);
      if ev.Stop? {
        running := false;
        return Some(Sem.Halted);
      }
      if ev.Error? {
        return Some(Sem.Faulted(ev.fault));
      }
      if pauseAtOutput && lastOperationOutput {
        return Some(Sem.Paused);
      }
      exit := None;
    }
  }

  /** A new computer with a program loaded is in the boot state of that
      program. */
  method LoadProgram(code: seq<int>) returns (c: Computer)
    ensures fresh(c) && fresh(c.input) && fresh(c.output)
    ensures c.State() == Sem.Boot(code)
    ensures !c.running
  {
    c := new Computer();
    c.LoadCode(code);
    assert map[] + Sem.ProgramImage(code) == Sem.ProgramImage(code);
  }
}
