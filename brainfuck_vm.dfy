/** The `BrainfuckVM` object: memory, pointers, buffers, code and jump
    table are fields updated in place. Each method is proved to follow the
    functions of `BrainfuckSemantics`. */
module BrainfuckInterpreter {
  import opened Outcomes
  import opened SparseMemory
  import opened BrainfuckJumpTable
  import Sem = BrainfuckSemantics

  class BrainfuckVM {
    var memory: Memory
    var iPtr: nat
    var dataPtr: int
    var outputResult: seq<int>
    var inputBuffer: seq<char>
    var code: Option<string>
    var jumpTable: Option<seq<Option<nat>>>

    /** The machine state commands act on. */
    ghost function Machine(): Sem.Machine
      reads this
    {
      Sem.Machine(memory, iPtr, dataPtr, inputBuffer, outputResult)
    }

    constructor ()
      ensures Machine() == Sem.Machine(map[], 0, 0, [], [])
      ensures code == None && jumpTable == None
    {
      memory := map[];
      iPtr := 0;
      dataPtr := 0;
      outputResult := [];
      inputBuffer := [];
      code := None;
      jumpTable := None;
    }

    /** `reset`: the state of a new machine. */
    method Reset()
      modifies this
      ensures Machine() == Sem.Machine(map[], 0, 0, [], [])
      ensures code == None && jumpTable == None
    {
      memory := map[];
      iPtr := 0;
      dataPtr := 0;
      outputResult := [];
      inputBuffer := [];
      code := None;
      jumpTable := None;
    }

    /** `load_code`: only the code changes; the pointer is not rewound. */
    method LoadCode(c: string)
      modifies this`code
      ensures code == Some(c)
    {
      code := Some(c);
    }

    /** `load_input`: the input buffer becomes the characters of `inp`,
        replacing any input not yet read. */
    method LoadInput(inp: string)
      modifies this`inputBuffer
      ensures inputBuffer == inp
    {
      inputBuffer := inp;
    }

    method IncrementDataPtr()
      modifies this`dataPtr
      ensures Machine() == Sem.IncrementDataPtr(old(Machine()))
    {
      dataPtr := dataPtr + 1;
    }

    method DecrementDataPtr()
      modifies this`dataPtr
      ensures Machine() == Sem.DecrementDataPtr(old(Machine()))
    {
      dataPtr := dataPtr - 1;
    }

    method IncrementValue()
      modifies this`memory
      ensures Machine() == Sem.IncrementValue(old(Machine()))
    {
      if Read(memory, dataPtr) == 255 {
        memory := memory[dataPtr := 0];
      } else {
        memory := memory[dataPtr := Read(memory, dataPtr) + 1];
      }
    }

    method DecrementValue()
      modifies this`memory
      ensures Machine() == Sem.DecrementValue(old(Machine()))
    {
      if Read(memory, dataPtr) == 0 {
        memory := memory[dataPtr := 255];
      } else {
        memory := memory[dataPtr := Read(memory, dataPtr) - 1];
      }
    }

    method InputValue()
      modifies this`memory, this`inputBuffer
      ensures Machine() == Sem.InputValue(old(Machine()))
    {
      if inputBuffer != [] {
        var c := inputBuffer[0];
        inputBuffer := inputBuffer[1..];
        memory := memory[dataPtr := c as int];
      }
    }

    method OutputValue()
      modifies this`outputResult
      ensures Machine() == Sem.OutputValue(old(Machine()))
    {
      outputResult := outputResult + [Read(memory, dataPtr)];
    }

    /** `__jump_if_zero`; `Some` error for a jump with no table entry, which
        changes nothing. */
    method JumpIfZero() returns (err: Option<Sem.BfError>)
      requires jumpTable.Some? && iPtr < |jumpTable.value|
      modifies this`iPtr
      ensures Sem.JumpIfZero(old(Machine()), jumpTable.value) ==
        if err.None? then Ok(Machine()) else Err(err.value)
      ensures err.Some? ==> Machine() == old(Machine())
    {
      if Read(memory, dataPtr) == 0 {
        var target := jumpTable.value[iPtr];
        if target.None? {
          return Some(Sem.NoJumpTarget(iPtr));
        }
        iPtr := target.value;
      }
      err := None;
    }

    /** `__jump_if_not_zero`; as `JumpIfZero` for a non-zero cell. */
    method JumpIfNotZero() returns (err: Option<Sem.BfError>)
      requires jumpTable.Some? && iPtr < |jumpTable.value|
      modifies this`iPtr
      ensures Sem.JumpIfNotZero(old(Machine()), jumpTable.value) ==
        if err.None? then Ok(Machine()) else Err(err.value)
      ensures err.Some? ==> Machine() == old(Machine())
    {
      if Read(memory, dataPtr) != 0 {
        var target := jumpTable.value[iPtr];
        if target.None? {
          return Some(Sem.NoJumpTarget(iPtr));
        }
        iPtr := target.value;
      }
      err := None;
    }

    /** `__exec_opcode`: run the handler of `opcode`; a character with no
        handler is an error and changes nothing. */
    method ExecOpcode(opcode: char) returns (err: Option<Sem.BfError>)
      requires jumpTable.Some? && iPtr < |jumpTable.value|
      modifies this`memory, this`iPtr, this`dataPtr, this`outputResult, this`inputBuffer
      ensures Sem.ExecOpcode(old(Machine()), opcode, jumpTable.value) ==
        if err.None? then Ok(Machine()) else Err(err.value)
      ensures err.Some? ==> Machine() == old(Machine())
    {
      err := None;
      match opcode
      case '>' => IncrementDataPtr();
      case '<' => DecrementDataPtr();
      case '+' => IncrementValue();
      case '-' => DecrementValue();
      case ',' => InputValue();
      case '.' => OutputValue();
      case '[' => err := JumpIfZero();
      case ']' => err := JumpIfNotZero();
      case _ => err := Some(Sem.UnknownCommand(opcode));
    }

    /** `__EOF`: the program is over once the pointer is at or past the
        end of the code, which is where `Sem.Run` stops. */
    method Eof() returns (b: bool)
      requires code.Some?
      ensures b <==> iPtr >= |code.value|
    {
      b := iPtr >= |code.value|;
    }

    /** `run_program`: build the jump table, then execute commands until the
        end of the code, for at most `fuel` commands, and return the output.
        Without code, or when a `]` closes nothing, the run fails before
        anything changes; otherwise the table is the program's jump table
        and the status and final machine are those of `Sem.Run`. */
    method RunProgram(fuel: nat) returns (status: Sem.Status, result: seq<int>)
      modifies this`memory, this`iPtr, this`dataPtr, this`outputResult, this`inputBuffer, this`jumpTable
      ensures result == outputResult
      ensures code.None? ==>
        status == Sem.Failed(Sem.NoCode) && Machine() == old(Machine()) && jumpTable == old(jumpTable)
      ensures code.Some? && !NeverNegative(code.value) ==>
        && status.Failed? && status.error.UnmatchedClose?
        && FirstUnmatchedClose(code.value, status.error.at)
        && Machine() == old(Machine()) && jumpTable == old(jumpTable)
      ensures code.Some? && NeverNegative(code.value) ==>
        && jumpTable.Some? && IsJumpTable(code.value, jumpTable.value)
        && var r := Sem.Run(old(Machine()), code.value, jumpTable.value, fuel);
           status == r.status && Machine() == r.machine
    {
      if code.None? {
        return Sem.Failed(Sem.NoCode), outputResult;
      }
      var table := CalculateJumpTable(code.value);
      if table.Err? {
        return Sem.Failed(Sem.UnmatchedClose(table.error)), outputResult;
      }
      jumpTable := Some(table.value);
      status := Loop(fuel);
      result := outputResult;
    }

    /** The `while not self.__EOF()` loop of `run_program`. */
    method Loop(fuel: nat) returns (status: Sem.Status)
      requires code.Some? && jumpTable.Some? && |jumpTable.value| == |code.value|
      modifies this`memory, this`iPtr, this`dataPtr, this`outputResult, this`inputBuffer
      ensures status == Sem.Run(old(Machine()), code.value, jumpTable.value, fuel).status
      ensures Machine() == Sem.Run(old(Machine()), code.value, jumpTable.value, fuel).machine
    {
      var c, jt := code.value, jumpTable.value;
      ghost var goal := Sem.Run(Machine(), c, jt, fuel);
      var f := fuel;
      while true
        invariant Sem.Run(Machine(), c, jt, f) == goal
        decreases f
      {
        var end := Eof();
        if end {
          return Sem.Finished;
        }
        if f == 0 {
          return Sem.OutOfFuel;
        }
        var err := ExecOpcode(c[iPtr]);
        if err.Some? {
          return Sem.Failed(err.value);
        }
        iPtr := iPtr + 1;
        f := f - 1;
      }
    }
  }
}
