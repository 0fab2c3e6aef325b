# Intcode and Brainfuck interpreters in Dafny

This project models the two stored-program interpreters of the
`interpreters` repository and proves properties of them.

- **Intcode** (`intcode.py`). A machine with a sparse memory of unbounded
  integers, an instruction pointer and a relative base. Ten operators
  decode their addressing modes from the decimal digits of the instruction
  word. The machine reads from a FIFO input stream and writes to an output
  stack. `Computer.run` loops until Halt, optionally pausing after each
  Output.
- **Brainfuck** (`brainfuck.py`). A tape of byte cells with wrap-around,
  a data pointer, a character input buffer and an output list. Bracket
  jumps go through a jump table that is computed once, with a stack,
  before the program runs.

Each interpreter has two layers.

- A functional layer states what one step and a whole run do to a
  machine state:
  - `IntcodeDecode` and `IntcodeSemantics` for Intcode, with whole
    programs run in `IntcodePrograms`;
  - `BrainfuckJumpTable` and `BrainfuckSemantics` for Brainfuck.
- A class layer mirrors the source objects, whose fields change in place:
  - `IntcodeStreams.InStream`, `IntcodeStreams.OutStream` and
    `IntcodeComputer.Computer`;
  - `BrainfuckInterpreter.BrainfuckVM`.

  Every method of the classes is proved to change the object exactly as
  the functional layer says.

Both memories are `SparseMemory.Memory`: a `map<int, int>` in which an
unwritten address reads 0. This is the behaviour of Python's
`defaultdict(int)`. Python integers are unbounded, so Dafny's `int` models
them exactly. For positive divisors, Python's `%` and `//` agree with
Dafny's `%` and `/`.

Errors that the source raises as exceptions are modelled as values:
- `Fault` for Intcode, carried by the `Error` event and the `Faulted` status;
- `BfError` for Brainfuck, carried by `Failed`.

A run that never ends cannot be a function. Both run loops therefore
take a step budget `fuel` and end with `OutOfFuel` once it is spent.

The model follows the code as written:
- `OutStream.get` pops the newest value (LIFO); it is not a queue.
- The input value is taken from the queue before Input's write is
  attempted. An Input that fails with an immediate-mode target has
  therefore already consumed its value.
- `load_code` does not reset the pointer or the relative base.
- Negative addresses are ordinary memory keys, not errors.
- `OutStream.get` raises RuntimeError on an empty buffer
  (intcode.py:186). The model returns `None` instead, in
  `IntcodeStreams.OutStream.Get` and `IntcodeComputer.Computer.GetOutput`,
  and leaves the buffer empty.

## Model

| member | source | states |
|---|---|---|
| SparseMemory.Read | intcode.py:204 | an address that was never written reads 0 |
| SparseMemory.ReadAfterWrite | intcode.py:45 | storing at one address changes the value read there and at no other address |
| IntcodeDecode.Lookup | intcode.py:189-199 | the dispatch table finds an operator exactly when the code is one of the ten OP_CODEs, and the operator found has that code |
| IntcodeDecode.LookupCode | intcode.py:189-199 | looking up each operator's own OP_CODE finds that operator |
| IntcodeDecode.Code | intcode.py:189-199 | every operator's OP_CODE lies between 1 and 99, so it equals its own `% 100` and is found by the table lookup on `word % 100` |
| IntcodeDecode.OpLen | intcode.py:53-156 | every OP_LEN is between 1 and 4; it is 1 exactly for Halt, and at least 2 for every operator that writes, so the written operand exists |
| IntcodeDecode.Modes | intcode.py:25-29 | the mode list always has at least three entries, so params 0..2 always have a mode |
| IntcodeDecode.ModesAreDigits | intcode.py:25-29 | operand `i`'s mode is the decimal digit `(w / 10^(i+2)) % 10` of the word; digits past the word's length read as positional |
| IntcodeDecode.DigitAt | intcode.py:27-28 | digit `i` of the decimal expansion, least significant first, is `(n / 10^i) % 10`, and 0 past the last digit |
| IntcodeDecode.DigitsLength | intcode.py:27 | a number below `10^k` has at most `k` digits, so `zfill(5)` pads a word of at most five digits to exactly three modes |
| IntcodeDecode.Decode | intcode.py:224-226 | building the current operator fails with UnknownOpcode exactly when `word % 100` has no table entry, and otherwise with NegativeWord(word) exactly for a negative word; on success it yields that operator, the OP_LEN-1 words after the pointer as operands, and the word's modes |
| IntcodeDecode.WriteModeOfShortWord | intcode.py:41 | `WriteMode` takes mode 0 for Input and the last mode otherwise; for words below 100000 `write` thereby uses the mode digit of the operand it writes through: param 0 for Input and param 2 for the four-word operators |
| IntcodeDecode.WriteModeOfLongWord | intcode.py:41 | `modes[-1]` is not param 2's mode for a six-digit word: 100001 has a positional param 2 but writes in immediate mode |
| IntcodeSemantics.Param | intcode.py:31-38 | reading an operand succeeds exactly when its mode is 0, 1 or 2 |
| IntcodeSemantics.ParamByMode | intcode.py:31-38 | mode 0 reads `memory[args[i]]`, mode 1 yields `args[i]`, mode 2 reads `memory[args[i] + relative_base]`, and any other mode is UnsupportedMode |
| IntcodeSemantics.Write | intcode.py:40-50 | a write fails exactly in immediate mode, with ImmediateWrite |
| IntcodeSemantics.WriteChangesOneCell | intcode.py:40-50 | a positional write changes only `args[-1]`, a relative write changes only `args[-1] + relative_base`, and a mode above 2 leaves the memory as it was |
| IntcodeSemantics.ReadBackAfterWrite | intcode.py:31-50 | reading back through the operand that was written to yields the value written |
| IntcodeSemantics.Calculate | intcode.py:56-141 | Add yields `a + b`, Mul `a * b`; LessThan yields 1 iff `a < b` and 0 iff not; Equals yields 1 iff `a == b` and 0 iff not |
| IntcodeSemantics.Execute | intcode.py:53-158 | Halt stops without change; a failed operator leaves memory, pointer, base and output alone (Input may already have consumed its value); only the two jumps move the pointer and they change nothing else; only Output emits, appending exactly its value |
| IntcodeSemantics.Step | intcode.py:263-268 | a step that halts leaves the state alone at a Halt word; a failing step changes neither memory nor pointer; a jump changes only the pointer; any other step advances the pointer by the operator's OP_LEN; only Output extends the output |
| IntcodeSemantics.ArithmeticStep | intcode.py:59-76 | Add, Mul, LessThan and Equals write `Calculate(a, b)` of params 0 and 1 through the write operand and advance by 4 |
| IntcodeSemantics.ImmediateWriteStep | intcode.py:46-47 | a write through an immediate operand fails with ImmediateWrite and leaves memory and pointer unchanged |
| IntcodeSemantics.InputStep | intcode.py:83-85 | Input with an empty queue fails with EmptyInput before anything changes; otherwise it stores the oldest input, removes it from the queue, and advances by 2 |
| IntcodeSemantics.JumpStep | intcode.py:98-115 | JumpIfTrue fires on a non-zero param 0 and JumpIfFalse on zero; a jump sets the pointer to param 1 without advancing; otherwise the pointer advances by 3 |
| IntcodeSemantics.AdjustBaseStep | intcode.py:144-150 | opcode 9 adds param 0 to the relative base, advances by 2, and changes nothing else |
| IntcodeSemantics.OutputStep | intcode.py:92-95 | Output appends param 0 to the output, advances by 2, and changes nothing else |
| IntcodeSemantics.HaltStep | intcode.py:153-158 | a word ending in 99 stops the step with the state untouched, the pointer still on the 99 |
| IntcodeSemantics.UnknownOpcodeStep | intcode.py:224-226 | an unknown opcode fails at dispatch with the state untouched |
| IntcodeSemantics.RunLoop | intcode.py:259-273 | every step of the loop spends fuel, and a run without fuel is OutOfFuel in the state it started in |
| IntcodeSemantics.RunBody | intcode.py:259-273 | one pass of the loop body spends at least one unit of fuel |
| IntcodeSemantics.RunAfterStep | intcode.py:259-273 | after one step the loop halts on Stop, faults on an error, pauses after an Output when pausing, and otherwise continues from the new state |
| IntcodeSemantics.Run | intcode.py:259-273 | a run that halts stops on a word whose low two digits are 99, with the pointer still on it; a run only appends to the output; a run that pauses was asked to and has appended exactly one value |
| IntcodeSemantics.RunExtraFuel | intcode.py:259-273 | a run that ended before its step budget ran out ends the same way with any larger budget, with the extra budget left over |
| IntcodeSemantics.PauseResume | intcode.py:269-270 | resuming a paused run without pausing ends exactly where one non-pausing run ends; a pausing run that does not pause is the non-pausing run |
| IntcodeSemantics.PauseAfterOutput | intcode.py:269-270 | a pausing run whose first step is Output pauses right after it, with the pointer already advanced by 2 |
| IntcodeSemantics.ProgramImage | intcode.py:231-233 | a loaded program's word `i` is at address `i`, and every other address reads 0 |
| IntcodeSemantics.MultiplyProgram | intcode.py:72-76 | the program 1002,4,3,4,33 multiplies 33 by 3 into address 4 and then halts there |
| IntcodeSemantics.AddImmediateProgram | intcode.py:65-69 | the program 1101,5,5,0,99 adds two immediates, stores 10 at address 0 and halts |
| IntcodeSemantics.RelativeBaseProgram | intcode.py:144-150 | a program that moves the relative base to -7 and then writes 5 relative to it stores 5 at address 5 and halts |
| IntcodePrograms.Apply | intcode.py:59-76 | the reference meaning of one Add or Mul whose sources are each a cell (positional) or a literal (immediate): the destination cell gets the sum or product of the two source values, and no other cell changes |
| IntcodePrograms.EvalKeepsUnwritten | intcode.py:40-50 | under the reference evaluator, a cell that no instruction writes keeps its value |
| IntcodePrograms.OpWordDecodes | intcode.py:25-29 | the instruction word of an Add or Mul decodes to its opcode, with mode 0 or 1 for each source as it is a cell or a literal, and mode 0 for the destination |
| IntcodePrograms.ArithOpStep | intcode.py:31-76 | one Add or Mul step, each source positional or immediate and the destination positional, changes the memory as the reference `Apply` does and advances the pointer by 4 |
| IntcodePrograms.RunFrom | intcode.py:259-273 | from instruction `k` of a straight-line Add/Mul program (positional or immediate sources, positional destinations) that never writes into a word still to be executed, the run executes the remaining instructions as the reference evaluator does and halts on the final 99 |
| IntcodePrograms.StraightLineProgram | intcode.py:231-273 | a freshly loaded straight-line Add/Mul program (positional or immediate sources, positional destinations) that never writes into a word still to be executed halts after one step per instruction plus one, on its final 99, with the memory the reference evaluator computes |
| IntcodePrograms.StraightLineKeepsUnwritten | intcode.py:40-50 | after such a run, a cell that no instruction writes still holds the value it was loaded with |
| IntcodePrograms.AddImmediateAsStraightLine | intcode.py:65-69 | `1101,5,5,0,99` is an instance of the straight-line theorem: it halts on the 99 with 10 at address 0 and every other word as loaded |
| IntcodePrograms.QuineLoop | intcode.py:59-158 | each pass of the self-reproducing program's loop raises the base, outputs the next word of the program, counts the pass and jumps back, until the last pass halts with the whole program output |
| IntcodePrograms.QuineOutputsItself | intcode.py:251-273 | the program 109,1,204,-1,1001,100,1,100,1008,100,16,101,1006,101,0,99, freshly loaded and run without pausing for at least 81 steps, halts having output exactly its own sixteen words in order |
| IntcodeStreams.InStream.constructor | intcode.py:162-163 | a new input queue is empty |
| IntcodeStreams.InStream.Add | intcode.py:165-166 | `add` appends at the back |
| IntcodeStreams.InStream.Get | intcode.py:168-172 | `get` removes and returns the oldest value; an empty queue is EmptyInput and stays empty |
| IntcodeStreams.OutStream.constructor | intcode.py:176-177 | a new output buffer is empty |
| IntcodeStreams.OutStream.Put | intcode.py:179-180 | `put` appends |
| IntcodeStreams.OutStream.Get | intcode.py:182-186 | `get` removes and returns the newest value; an empty buffer gives None and stays empty |
| IntcodeStreams.InputIsFifo | intcode.py:161-172 | a value added behind a non-empty queue does not overtake its head |
| IntcodeStreams.OutputIsLifo | intcode.py:175-186 | `get` right after `put(v)` returns `v` and restores the buffer |
| IntcodeComputer.Patch | intcode.py:252-255 | a non-zero noun replaces address 1 and a non-zero verb address 2; everything else is kept |
| IntcodeComputer.Computer.constructor | intcode.py:203-211 | a new computer has empty memory, pointer and base 0, fresh empty streams, and is not running |
| IntcodeComputer.Computer.Reset | intcode.py:241-249 | `reset` restores the initial state with new streams and leaves `last_operation_output` alone |
| IntcodeComputer.Computer.GetCurrentOp | intcode.py:224-226 | the operator built from memory is `Decode(memory, ptr)`, including its errors |
| IntcodeComputer.Computer.Advance | intcode.py:228-229 | `advance` adds OP_LEN to the pointer |
| IntcodeComputer.Computer.LoadCode | intcode.py:231-233 | word `i` goes to address `i`; other addresses keep their value |
| IntcodeComputer.Computer.ReadInput | intcode.py:235-236 | queues the value at the back of the input |
| IntcodeComputer.Computer.GetOutput | intcode.py:238-239 | pops the newest output; None for an empty buffer |
| IntcodeComputer.Computer.Execute | intcode.py:53-158 | the state changes as `Execute` says; the jump flag is raised iff a jump fired and the output flag iff a value was output |
| IntcodeComputer.Computer.Cycle | intcode.py:263-268 | the state changes as `Step` says; after a step that did not fail, the flags say whether it jumped and whether it output |
| IntcodeComputer.Computer.Run | intcode.py:251-273 | status and final state are those of the functional run from the patched state; `running` is false exactly after a halt |
| IntcodeComputer.Computer.Loop | intcode.py:259-273 | the loop ends with the status and state of the functional run; only a halt clears `running` |
| IntcodeComputer.Computer.Turn | intcode.py:263-273 | one loop pass either continues the functional run with one unit of fuel less, or ends it with the status it reports |
| IntcodeComputer.LoadProgram | intcode.py:231-233 | a new computer with a program loaded is in the program's boot state |
| BrainfuckJumpTable.CalculateJumpTable | brainfuck.py:73-82 | construction succeeds iff no prefix of the code closes more brackets than it opens; on success every `]` holds its matching `[`, every `[` its matching `]` or None, every other position None; on failure it reports the first unmatched `]` |
| BrainfuckJumpTable.JumpTableSymmetric | brainfuck.py:80-81 | `jt[i] == j` iff `jt[j] == i` |
| BrainfuckJumpTable.JumpTargetPointsBack | brainfuck.py:80-81 | every table entry names a position whose entry names it back |
| BrainfuckJumpTable.JumpTableUnique | brainfuck.py:73-82 | a code has only one jump table |
| BrainfuckJumpTable.CloseIsUnique | brainfuck.py:76-81 | a `[` matches at most one `]` |
| BrainfuckJumpTable.OpenIsUnique | brainfuck.py:76-81 | a `]` matches at most one `[` |
| BrainfuckJumpTable.DepthAfterClose | brainfuck.py:79-81 | after a matching `]` the nesting depth is back at that of its `[` |
| BrainfuckJumpTable.BalancedHasMatches | brainfuck.py:76-81 | in balanced code every `[` has a matching `]` |
| BrainfuckSemantics.ByteArithmetic | brainfuck.py:46-56 | `+` and `-` undo each other on every byte (0..255); the source wraps only at 255 and 0, so they need not on other values |
| BrainfuckSemantics.Inc | brainfuck.py:46-50 | on a byte, `+` is addition of 1 modulo 256 and yields a byte (255 wraps to 0) |
| BrainfuckSemantics.Dec | brainfuck.py:52-56 | on a byte, `-` is subtraction of 1 modulo 256 and yields a byte (0 wraps to 255) |
| BrainfuckSemantics.IncrementDataPtr | brainfuck.py:40-41 | `>` adds 1 to the data pointer and changes nothing else |
| BrainfuckSemantics.DecrementDataPtr | brainfuck.py:43-44 | `<` subtracts 1 from the data pointer and changes nothing else |
| BrainfuckSemantics.IncrementValue | brainfuck.py:46-50 | `+` replaces the current cell by `Inc` of it; every other cell and the rest of the machine are unchanged |
| BrainfuckSemantics.DecrementValue | brainfuck.py:52-56 | `-` replaces the current cell by `Dec` of it; every other cell and the rest of the machine are unchanged |
| BrainfuckSemantics.InputValue | brainfuck.py:58-60 | `,` with no input changes nothing; otherwise it stores the first character's code in the current cell, drops that character, and changes nothing else |
| BrainfuckSemantics.OutputValue | brainfuck.py:62-63 | `.` appends exactly the current cell to the output and changes nothing else |
| BrainfuckSemantics.JumpIfZero | brainfuck.py:65-67 | `[` on a non-zero cell changes nothing; on a zero cell it fails iff the table has no entry, and otherwise moves the pointer to the entry and changes nothing else |
| BrainfuckSemantics.JumpIfNotZero | brainfuck.py:69-71 | `]` on a zero cell changes nothing; on a non-zero cell it fails iff the table has no entry, and otherwise moves the pointer to the entry and changes nothing else |
| BrainfuckSemantics.ExecOpcode | brainfuck.py:84-85 | a command fails iff it is not one of the eight, or is a bracket jump with no target; each command changes only its own part of the machine |
| BrainfuckSemantics.BracketStep | brainfuck.py:65-71 | a bracket step jumps through the table entry when its condition holds, failing if there is none, and otherwise falls through |
| BrainfuckSemantics.Step | brainfuck.py:92-94 | a step fails with UnknownCommand for a character that is not a command and with NoJumpTarget otherwise; every step other than a bracket moves the pointer on by exactly 1 |
| BrainfuckSemantics.Run | brainfuck.py:90-96 | a run finishes exactly when the pointer is at or past the end of the code, and one started there finishes at once |
| BrainfuckSemantics.SimpleCommandSteps | brainfuck.py:40-63 | `>` and `<` change only the data pointer, by 1; `.` appends the current cell; `,` moves the next input character's code into the cell, or changes nothing without input |
| BrainfuckSemantics.CellCommandSteps | brainfuck.py:46-56 | `+` and `-` change only the current cell, by `Inc` and `Dec` |
| BrainfuckSemantics.OpenStep | brainfuck.py:65-67 | `[` on a zero cell continues after its matching `]`, fails without one, and otherwise falls through |
| BrainfuckSemantics.CloseStep | brainfuck.py:69-71 | `]` on a non-zero cell continues after its matching `[`, which always exists; otherwise it falls through, so `]` never fails |
| BrainfuckSemantics.JumpTableTargetsInCode | brainfuck.py:73-82 | every target in the program's jump table is a position inside the code |
| BrainfuckSemantics.StepStaysInCode | brainfuck.py:92-94 | with a table whose targets lie inside the code, such as the program's own, no step moves the pointer past the end of the code |
| BrainfuckSemantics.RunEndsAtLength | brainfuck.py:87-94 | with a table whose targets lie inside the code, a finished run started inside the code stops with the pointer exactly at its length |
| BrainfuckSemantics.RunOutputExtends | brainfuck.py:62-63 | a run only appends to the output |
| BrainfuckSemantics.StepKeepsBytes | brainfuck.py:46-60 | with byte input, a step keeps every cell and output value in 0..255 |
| BrainfuckSemantics.RunKeepsBytes | brainfuck.py:46-60 | with byte input, cells that start in 0..255 stay there for a whole run |
| BrainfuckSemantics.CountdownTableIsJumpTable | brainfuck.py:73-82 | the jump table of `+[-].` pairs positions 1 and 3 |
| BrainfuckSemantics.CountdownRun | brainfuck.py:90-96 | `+[-].` finishes after five commands, having output a single 0 |
| BrainfuckInterpreter.BrainfuckVM.constructor | brainfuck.py:5-12 | a new machine has empty memory and buffers, both pointers at 0, and no code or table |
| BrainfuckInterpreter.BrainfuckVM.Reset | brainfuck.py:25-32 | `reset` restores the state of a new machine |
| BrainfuckInterpreter.BrainfuckVM.LoadCode | brainfuck.py:34-35 | only the code changes |
| BrainfuckInterpreter.BrainfuckVM.LoadInput | brainfuck.py:37-38 | the input buffer becomes the given characters |
| BrainfuckInterpreter.BrainfuckVM.IncrementDataPtr | brainfuck.py:40-41 | `>` as the functional layer defines it |
| BrainfuckInterpreter.BrainfuckVM.DecrementDataPtr | brainfuck.py:43-44 | `<` as the functional layer defines it |
| BrainfuckInterpreter.BrainfuckVM.IncrementValue | brainfuck.py:46-50 | `+` with the 255-to-0 wrap |
| BrainfuckInterpreter.BrainfuckVM.DecrementValue | brainfuck.py:52-56 | `-` with the 0-to-255 wrap |
| BrainfuckInterpreter.BrainfuckVM.InputValue | brainfuck.py:58-60 | `,` takes the first buffered character, if there is one |
| BrainfuckInterpreter.BrainfuckVM.OutputValue | brainfuck.py:62-63 | `.` appends the current cell |
| BrainfuckInterpreter.BrainfuckVM.JumpIfZero | brainfuck.py:65-67 | `[` as the functional layer defines it; a missing target is an error that changes nothing |
| BrainfuckInterpreter.BrainfuckVM.JumpIfNotZero | brainfuck.py:69-71 | `]` as the functional layer defines it |
| BrainfuckInterpreter.BrainfuckVM.ExecOpcode | brainfuck.py:84-85 | the machine changes as `ExecOpcode` says; an error changes nothing |
| BrainfuckInterpreter.BrainfuckVM.Eof | brainfuck.py:87-88 | the program is over iff the pointer is at or past the end of the code |
| BrainfuckInterpreter.BrainfuckVM.RunProgram | brainfuck.py:90-96 | without code, or with an unmatched `]`, the run fails and changes nothing; otherwise the stored table is the program's jump table, the status and final machine are those of the functional run, and the result is the output |
| BrainfuckInterpreter.BrainfuckVM.Loop | brainfuck.py:92-94 | the loop ends with the status and machine of the functional run |

## Left out

- `__repr__`, the `debug` printing in `run` and the `__main__` demo
  blocks: these are console output only.
- Python's `defaultdict` inserts a key when a missing address is read.
  Only a memory dump could see that, so `Read` does not insert.
- Exception classes (`StopIteration`, `ValueError`, `RuntimeError`,
  `KeyError`, `IndexError`, `TypeError`) are modelled as `Fault` and
  `BfError` values. A failed Intcode step leaves the computer as the
  exception left it, and `run` reports the fault as a status instead of
  raising.
- IntcodeSemantics.Param: for a mode digit outside 0..2, Python's
  `get_param` returns None, and execution carries on with None as a value.
  The model stops with UnsupportedMode instead. `write` with such a mode
  writes nothing, and the model does the same.
- IntcodeDecode.Decode: for a negative instruction word whose opcode is
  known, `int('-')` fails while parsing the modes. The model reports this
  as NegativeWord.
- IntcodeComputer.Computer.Cycle: when building the operator fails, the
  source has not yet cleared the jump and output flags, so after a failed
  step the contract says nothing about them.
- IntcodeComputer.Computer.constructor: the source does not create
  `last_operation_output` until `run`; the model starts it as false.
- `pause_at_output` is an attribute that the source never reads; `run`
  uses its argument. The field is modelled but only `reset` touches it.
- Termination: both run loops take a fuel bound, so the model says
  nothing about programs that need more steps than the fuel allows.
- BrainfuckSemantics.JumpIfZero, BrainfuckInterpreter.BrainfuckVM.JumpIfZero
  and BrainfuckSemantics.Run: when a taken `[` has no matching `]`, the
  source's handler does not fail; it sets `i_ptr` to None, and `run`
  then fails adding 1 to it. The model has the handler report
  NoJumpTarget and keep the machine as it was before that command.
- IntcodePrograms.StraightLineProgram: covers Add and Mul only, with
  positional or immediate sources and a positional destination, in
  programs that never write into a word still to be executed. Relative
  mode, the other operators and self-modifying programs are covered only
  by the single-step lemmas.
- BrainfuckInterpreter.BrainfuckVM.RunProgram: `len(None)` fails when no
  code is loaded; the model reports NoCode.
- BrainfuckSemantics.RunKeepsBytes: `,` stores `ord` of any character, so
  cells stay bytes only when every input character's code is below 256;
  the lemma assumes that of the input.
