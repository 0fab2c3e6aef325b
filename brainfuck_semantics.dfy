/** What the Brainfuck commands do to the machine, and what running a
    program does, as functions of the machine state. The `BrainfuckVM`
    class is proved to follow these functions. */
module BrainfuckSemantics {
  import opened Outcomes
  import opened SparseMemory
  import opened BrainfuckJumpTable

  /** The parts of a `BrainfuckVM` that commands read and change. */
  datatype Machine = Machine(
    memory: Memory,     // cells, 0 where never written
    iPtr: nat,          // index of the command being executed
    dataPtr: int,       // index of the current cell; may go below 0
    input: seq<char>,   // input not yet read, next first
    output: seq<int>)   // cell values output so far

  datatype BfError =
    | UnknownCommand(command: char)  // a character that is none of the eight commands
    | NoJumpTarget(at: nat)          // a jump taken from a `[` that has no matching `]`
    | UnmatchedClose(at: nat)        // building the jump table met a `]` with nothing open
    | NoCode                         // run before any code was loaded

  /** The eight commands. */
  predicate IsCommand(c: char)
  {
    c in {'>', '<', '+', '-', ',', '.', '[', ']'}
  }

  /** `+` on a cell value: 255 wraps to 0, anything else goes up by one. */
  function Inc(v: int): (r: int)
    ensures IsByte(v) ==> r == (v + 1) % 256 && IsByte(r)
  {
    if v == 255 then 0 else v + 1
  }

  /** `-` on a cell value: 0 wraps to 255, anything else goes down by one. */
  function Dec(v: int): (r: int)
    ensures IsByte(v) ==> r == (v - 1) % 256 && IsByte(r)
  {
    if v == 0 then 255 else v - 1
  }

  predicate IsByte(v: int)
  {
    0 <= v <= 255
  }

  /** On bytes, `+` and `-` undo each other. */
  lemma ByteArithmetic(v: int)
    requires IsByte(v)
    ensures Inc(Dec(v)) == v && Dec(Inc(v)) == v
  {
  }

  /** `>`: the data pointer moves one cell right; nothing else changes. */
  function IncrementDataPtr(m: Machine): (r: Machine)
    ensures r.dataPtr == m.dataPtr + 1 && r == m.(dataPtr := r.dataPtr)
  {
    m.(dataPtr := m.dataPtr + 1)
  }

  /** `<`: the data pointer moves one cell left; nothing else changes. */
  function DecrementDataPtr(m: Machine): (r: Machine)
    ensures r.dataPtr == m.dataPtr - 1 && r == m.(dataPtr := r.dataPtr)
  {
    m.(dataPtr := m.dataPtr - 1)
  }

  /** `+`: the current cell goes up by one with wrap-around, and no other
      cell or field changes. */
  function IncrementValue(m: Machine): (r: Machine)
    ensures r == m.(memory := r.memory)
    ensures forall a :: Read(r.memory, a) == if a == m.dataPtr then Inc(Read(m.memory, a)) else Read(m.memory, a)
  {
    m.(memory := m.memory[m.dataPtr := Inc(Read(m.memory, m.dataPtr))])
  }

  /** `-`: the current cell goes down by one with wrap-around, and no
      other cell or field changes. */
  function DecrementValue(m: Machine): (r: Machine)
    ensures r == m.(memory := r.memory)
    ensures forall a :: Read(r.memory, a) == if a == m.dataPtr then Dec(Read(m.memory, a)) else Read(m.memory, a)
  {
    m.(memory := m.memory[m.dataPtr := Dec(Read(m.memory, m.dataPtr))])
  }

  /** `,`: the next input character's code goes to the current cell and
      leaves the buffer; with no input left nothing happens. */
  function InputValue(m: Machine): (r: Machine)
    ensures m.input == [] ==> r == m
    ensures m.input != [] ==>
      && r == m.(memory := r.memory, input := m.input[1..])
      && forall a :: Read(r.memory, a) == if a == m.dataPtr then m.input[0] as int else Read(m.memory, a)
  {
    if m.input != [] then
      m.(memory := m.memory[m.dataPtr := m.input[0] as int], input := m.input[1..])
    else m
  }

  /** `.`: the current cell's value is appended to the output; nothing
      else changes. */
  function OutputValue(m: Machine): (r: Machine)
    ensures r == m.(output := r.output)
    ensures |r.output| == |m.output| + 1 && r.output[..|m.output|] == m.output
    ensures r.output[|m.output|] == Read(m.memory, m.dataPtr)
  {
    m.(output := m.output + [Read(m.memory, m.dataPtr)])
  }

  /** `[`: on a zero cell, the pointer moves to the table entry; an entry
      of `None` there is an error. */
  function JumpIfZero(m: Machine, jt: seq<Option<nat>>): (r: Result<Machine, BfError>)
    requires m.iPtr < |jt|
    ensures Read(m.memory, m.dataPtr) != 0 ==> r == Ok(m)
    ensures r.Err? <==> Read(m.memory, m.dataPtr) == 0 && jt[m.iPtr].None?
    ensures r.Ok? && Read(m.memory, m.dataPtr) == 0 ==> r.value == m.(iPtr := jt[m.iPtr].value)
  {
    if Read(m.memory, m.dataPtr) != 0 then Ok(m)
    else if jt[m.iPtr].None? then Err(NoJumpTarget(m.iPtr))
    else Ok(m.(iPtr := jt[m.iPtr].value))
  }

  /** `]`: on a non-zero cell, the pointer moves to the table entry. */
  function JumpIfNotZero(m: Machine, jt: seq<Option<nat>>): (r: Result<Machine, BfError>)
    requires m.iPtr < |jt|
    ensures Read(m.memory, m.dataPtr) == 0 ==> r == Ok(m)
    ensures r.Err? <==> Read(m.memory, m.dataPtr) != 0 && jt[m.iPtr].None?
    ensures r.Ok? && Read(m.memory, m.dataPtr) != 0 ==> r.value == m.(iPtr := jt[m.iPtr].value)
  {
    if Read(m.memory, m.dataPtr) == 0 then Ok(m)
    else if jt[m.iPtr].None? then Err(NoJumpTarget(m.iPtr))
    else Ok(m.(iPtr := jt[m.iPtr].value))
  }

  /** `__exec_opcode`: the handler of command `c`. Each command changes
      only its own part of the machine; a character that is no command,
      and a jump with nowhere to go, fail and change nothing. */
  function ExecOpcode(m: Machine, c: char, jt: seq<Option<nat>>): (r: Result<Machine, BfError>)
    requires m.iPtr < |jt|
    ensures r.Err? <==>
      || !IsCommand(c)
      || (c == '[' && Read(m.memory, m.dataPtr) == 0 && jt[m.iPtr].None?)
      || (c == ']' && Read(m.memory, m.dataPtr) != 0 && jt[m.iPtr].None?)
    ensures r.Err? ==> r.error == if IsCommand(c) then NoJumpTarget(m.iPtr) else UnknownCommand(c)
    ensures r.Ok? && c != '[' && c != ']' ==> r.value.iPtr == m.iPtr
    ensures r.Ok? && c != '>' && c != '<' ==> r.value.dataPtr == m.dataPtr
    ensures r.Ok? && c != '+' && c != '-' && c != ',' ==> r.value.memory == m.memory
    ensures r.Ok? && c != ',' ==> r.value.input == m.input
    ensures r.Ok? && c != '.' ==> r.value.output == m.output
  {
    match c
    case '>' => Ok(IncrementDataPtr(m))
    case '<' => Ok(DecrementDataPtr(m))
    case '+' => Ok(IncrementValue(m))
    case '-' => Ok(DecrementValue(m))
    case ',' => Ok(InputValue(m))
    case '.' => Ok(OutputValue(m))
    case '[' => JumpIfZero(m, jt)
    case ']' => JumpIfNotZero(m, jt)
    case _ => Err(UnknownCommand(c))
  }

  /** One pass of the loop in `run_program`: execute the command at the
      pointer, then move the pointer one further. */
  function Step(m: Machine, code: string, jt: seq<Option<nat>>): (r: Result<Machine, BfError>)
    requires m.iPtr < |code| && |jt| == |code|
    ensures r.Err? ==> r.error == if IsCommand(code[m.iPtr]) then NoJumpTarget(m.iPtr) else UnknownCommand(code[m.iPtr])
    ensures r.Ok? && code[m.iPtr] != '[' && code[m.iPtr] != ']' ==> r.value.iPtr == m.iPtr + 1
  {
    MoveOn(ExecOpcode(m, code[m.iPtr], jt))
  }

  /** The pointer increment that follows every command that did not fail. */
  function MoveOn(r: Result<Machine, BfError>): Result<Machine, BfError>
  {
    match r
    case Ok(m) => Ok(m.(iPtr := m.iPtr + 1))
    case Err(e) => Err(e)
  }

  /** A step at a bracket either falls through or continues after the
      table entry, and fails for a jump with no entry. */
  lemma BracketStep(m: Machine, code: string, jt: seq<Option<nat>>)
    requires m.iPtr < |code| && |jt| == |code|
    requires code[m.iPtr] == '[' || code[m.iPtr] == ']'
    ensures var jump := (Read(m.memory, m.dataPtr) == 0) == (code[m.iPtr] == '[');
      Step(m, code, jt) ==
        if !jump then Ok(m.(iPtr := m.iPtr + 1))
        else if jt[m.iPtr].None? then Err(NoJumpTarget(m.iPtr))
        else Ok(m.(iPtr := jt[m.iPtr].value + 1))
  {
  }

  datatype Status =
    | Finished          // the pointer reached the end of the code
    | Failed(error: BfError)
    | OutOfFuel         // the step budget ran out first

  datatype RunResult = RunResult(status: Status, machine: Machine)

  /** The loop of `run_program`, given at most `fuel` steps: it ends
      exactly when the pointer is at or past the end of the code, and a
      failing step leaves the machine as it was before that step. */
  function Run(m: Machine, code: string, jt: seq<Option<nat>>, fuel: nat): (r: RunResult)
    requires |jt| == |code|
    ensures r.status.Finished? <==> r.machine.iPtr >= |code|
    ensures m.iPtr >= |code| ==> r == RunResult(Finished, m)
    decreases fuel
  {
    if m.iPtr >= |code| then RunResult(Finished, m)
    else if fuel == 0 then RunResult(OutOfFuel, m)
    else match Step(m, code, jt)
      case Err(e) => RunResult(Failed(e), m)
      case Ok(m') => Run(m', code, jt, fuel - 1)
  }

  /** `>` and `<` move the data pointer by one; `.` appends the current
      cell; `,` consumes one character into the current cell, or does
      nothing without input. Nothing else changes but the pointer. */
  lemma SimpleCommandSteps(m: Machine, code: string, jt: seq<Option<nat>>)
    requires m.iPtr < |code| && |jt| == |code|
    ensures code[m.iPtr] == '>' ==> Step(m, code, jt) == Ok(m.(dataPtr := m.dataPtr + 1, iPtr := m.iPtr + 1))
    ensures code[m.iPtr] == '<' ==> Step(m, code, jt) == Ok(m.(dataPtr := m.dataPtr - 1, iPtr := m.iPtr + 1))
    ensures code[m.iPtr] == '.' ==>
      Step(m, code, jt) == Ok(m.(output := m.output + [Read(m.memory, m.dataPtr)], iPtr := m.iPtr + 1))
    ensures code[m.iPtr] == ',' && m.input == [] ==> Step(m, code, jt) == Ok(m.(iPtr := m.iPtr + 1))
    ensures code[m.iPtr] == ',' && m.input != [] ==>
      Step(m, code, jt) == Ok(m.(memory := m.memory[m.dataPtr := m.input[0] as int],
                                 input := m.input[1..], iPtr := m.iPtr + 1))
  {
  }

  /** `+` and `-` change the current cell, by `Inc` and `Dec`, and no other. */
  lemma CellCommandSteps(m: Machine, code: string, jt: seq<Option<nat>>, a: int)
    requires m.iPtr < |code| && |jt| == |code|
    requires code[m.iPtr] == '+' || code[m.iPtr] == '-'
    ensures Step(m, code, jt).Ok?
    ensures var m' := Step(m, code, jt).value;
      && m' == m.(memory := m'.memory, iPtr := m.iPtr + 1)
      && Read(m'.memory, a) == if a != m.dataPtr then Read(m.memory, a)
        else if code[m.iPtr] == '+' then Inc(Read(m.memory, a)) else Dec(Read(m.memory, a))
  {
  }

  /** With the program's jump table, `[` on a non-zero cell falls
      through; on a zero cell it continues after its matching `]`, and
      fails if it has none. */
  lemma OpenStep(m: Machine, code: string, jt: seq<Option<nat>>)
    requires IsJumpTable(code, jt) && m.iPtr < |code| && code[m.iPtr] == '['
    ensures Read(m.memory, m.dataPtr) != 0 ==> Step(m, code, jt) == Ok(m.(iPtr := m.iPtr + 1))
    ensures Read(m.memory, m.dataPtr) == 0 ==>
      forall j :: Matches(code, m.iPtr, j) ==> Step(m, code, jt) == Ok(m.(iPtr := j + 1))
    ensures Read(m.memory, m.dataPtr) == 0 && (forall j :: !Matches(code, m.iPtr, j)) ==>
      Step(m, code, jt) == Err(NoJumpTarget(m.iPtr))
  {
    BracketStep(m, code, jt);
    forall j | Matches(code, m.iPtr, j)
      ensures jt[m.iPtr] == Some(j)
    {
      CloseIsUnique(code, m.iPtr, jt[m.iPtr].value, j);
    }
  }

  /** With the program's jump table, `]` on a zero cell falls through; on
      a non-zero cell it continues after its matching `[`, which always
      exists, so `]` never fails. */
  lemma CloseStep(m: Machine, code: string, jt: seq<Option<nat>>)
    requires IsJumpTable(code, jt) && m.iPtr < |code| && code[m.iPtr] == ']'
    ensures Read(m.memory, m.dataPtr) == 0 ==> Step(m, code, jt) == Ok(m.(iPtr := m.iPtr + 1))
    ensures Read(m.memory, m.dataPtr) != 0 ==>
      exists i :: Matches(code, i, m.iPtr) && Step(m, code, jt) == Ok(m.(iPtr := i + 1))
  {
    BracketStep(m, code, jt);
    if Read(m.memory, m.dataPtr) != 0 {
      var i := jt[m.iPtr].value;
      assert JumpIfNotZero(m, jt) == Ok(m.(iPtr := i));
      assert Matches(code, i, m.iPtr) && Step(m, code, jt) == Ok(m.(iPtr := i + 1));
    }
  }

  /** Every jump target lies inside the code. */
  predicate TargetsInCode(code: string, jt: seq<Option<nat>>)
  {
    |jt| == |code| && forall k :: 0 <= k < |jt| && jt[k].Some? ==> jt[k].value < |code|
  }

  /** The program's jump table only jumps inside the code. */
  lemma JumpTableTargetsInCode(code: string, jt: seq<Option<nat>>)
    requires IsJumpTable(code, jt)
    ensures TargetsInCode(code, jt)
  {
  }

  /** When every jump target lies inside the code, no step moves the
      pointer past the end of the code. */
  lemma StepStaysInCode(m: Machine, code: string, jt: seq<Option<nat>>)
    requires TargetsInCode(code, jt) && m.iPtr < |code|
    ensures Step(m, code, jt).Ok? ==> Step(m, code, jt).value.iPtr <= |code|
  {
  }

  /** A run ends at the end of the code: a finished run started inside
      the code stops with the pointer exactly at its length, when every
      jump target lies inside the code, as the program's jump table's do. */
  lemma {:induction false} RunEndsAtLength(m: Machine, code: string, jt: seq<Option<nat>>, fuel: nat)
    requires TargetsInCode(code, jt) && m.iPtr <= |code|
    ensures Run(m, code, jt, fuel).status.Finished? ==> Run(m, code, jt, fuel).machine.iPtr == |code|
    decreases fuel
  {
    if m.iPtr < |code| && fuel > 0 {
      StepStaysInCode(m, code, jt);
      var r := Step(m, code, jt);
      if r.Ok? {
        RunEndsAtLength(r.value, code, jt, fuel - 1);
      }
    }
  }

  /** A run only appends to the output. */
  lemma {:induction false} RunOutputExtends(m: Machine, code: string, jt: seq<Option<nat>>, fuel: nat)
    requires |jt| == |code|
    ensures var out := Run(m, code, jt, fuel).machine.output;
      |out| >= |m.output| && out[..|m.output|] == m.output
    decreases fuel
  {
    if m.iPtr < |code| && fuel > 0 {
      var r := Step(m, code, jt);
      if r.Ok? {
        RunOutputExtends(r.value, code, jt, fuel - 1);
        var out := Run(r.value, code, jt, fuel - 1).machine.output;
        assert out[..|m.output|] == out[..|r.value.output|][..|m.output|];
      }
    }
  }

  /** Every cell holds a byte, and so does every value output. */
  ghost predicate BytesOnly(m: Machine)
  {
    && (forall a :: a in m.memory ==> IsByte(m.memory[a]))
    && (forall k :: 0 <= k < |m.output| ==> IsByte(m.output[k]))
  }

  /** Input characters whose codes are bytes. */
  predicate ByteInput(input: seq<char>)
  {
    forall k :: 0 <= k < |input| ==> (input[k] as int) < 256
  }

  /** A step keeps every cell and output value a byte when the input is bytes. */
  lemma StepKeepsBytes(m: Machine, code: string, jt: seq<Option<nat>>)
    requires m.iPtr < |code| && |jt| == |code|
    requires BytesOnly(m) && ByteInput(m.input)
    ensures Step(m, code, jt).Ok? ==>
      BytesOnly(Step(m, code, jt).value) && ByteInput(Step(m, code, jt).value.input)
  {
    var v := Read(m.memory, m.dataPtr);
    assert IsByte(v);
    ByteArithmetic(v);
  }

  /** Cells that start as bytes stay bytes for a whole run, and only bytes
      are output, when the input characters are bytes. */
  lemma {:induction false} RunKeepsBytes(m: Machine, code: string, jt: seq<Option<nat>>, fuel: nat)
    requires |jt| == |code|
    requires BytesOnly(m) && ByteInput(m.input)
    ensures BytesOnly(Run(m, code, jt, fuel).machine)
    decreases fuel
  {
    if m.iPtr < |code| && fuel > 0 {
      StepKeepsBytes(m, code, jt);
      var r := Step(m, code, jt);
      if r.Ok? {
        RunKeepsBytes(r.value, code, jt, fuel - 1);
      }
    }
  }

  /** A counter loop: set a cell to one, count it down to zero in a loop,
      and output it. */
  const CountdownCode: string := "+[-]."

  const CountdownTable: seq<Option<nat>> := [None, Some(3), None, Some(1), None]

  /** The two brackets of the countdown program match each other. */
  lemma CountdownTableIsJumpTable()
    ensures IsJumpTable(CountdownCode, CountdownTable)
  {
    var code := CountdownCode;
    assert Depth(code, 1) == 0 && Depth(code, 2) == 1 && Depth(code, 3) == 1;
    assert Matches(code, 1, 3);
  }

  /** Started on a fresh machine, the countdown program finishes after five
      commands, having output a single 0. */
  lemma CountdownRun()
    ensures var r := Run(Machine(map[], 0, 0, [], []), CountdownCode, CountdownTable, 5);
      r.status == Finished && r.machine.output == [0] && r.machine.iPtr == 5
  {
    var code, jt := CountdownCode, CountdownTable;
    var m0 := Machine(map[], 0, 0, [], []);
    var m1 := m0.(memory := map[0 := 1], iPtr := 1);
    assert Step(m0, code, jt) == Ok(m1);
    var m2 := m1.(iPtr := 2);
    BracketStep(m1, code, jt);
    var m3 := m2.(memory := m2.memory[0 := 0], iPtr := 3);
    assert Step(m2, code, jt) == Ok(m3);
    var m4 := m3.(iPtr := 4);
    BracketStep(m3, code, jt);
    var m5 := m4.(output := [0], iPtr := 5);
    assert code[4] == '.' && Read(m4.memory, 0) == 0;
    SimpleCommandSteps(m4, code, jt);
    assert m4.output + [0] == [0];
    assert Run(m4, code, jt, 1) == RunResult(Finished, m5);
    assert Run(m3, code, jt, 2) == RunResult(Finished, m5);
    assert Run(m2, code, jt, 3) == RunResult(Finished, m5);
    assert Run(m1, code, jt, 4) == RunResult(Finished, m5);
  }
}
