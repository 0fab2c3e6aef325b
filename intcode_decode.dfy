/** Instruction decoding of the Intcode machine: the opcode table, the
    operand count of every operator, and the per-operand addressing modes
    taken from the decimal digits of the instruction word. */
module IntcodeDecode {
  import opened Outcomes
  import opened SparseMemory

  const PositionalMode: nat := 0
  const ImmediateMode: nat := 1
  const RelativeMode: nat := 2

  /** The ten operator classes of the dispatch table. */
  datatype Opcode =
    | Add | Mul | Input | Output | JumpIfTrue | JumpIfFalse
    | LessThan | Equals | AdjustBase | Halt

  /** Everything that stops a run with an error instead of a halt. */
  datatype Fault =
    | UnknownOpcode(code: int)      // no entry in the dispatch table
    | NegativeWord(word: int)       // the mode digits of a negative word cannot be parsed
    | UnsupportedMode(mode: nat)    // an operand read through a mode digit other than 0, 1, 2
    | ImmediateWrite                // a result written through an immediate-mode operand
    | EmptyInput                    // Input executed with nothing queued

  /** OP_CODE of each operator class; every code fits in the two low
      decimal digits of a word, which `word % 100` keeps. */
  function Code(op: Opcode): (c: int)
    ensures 0 < c < 100 && c % 100 == c
  {
    match op
    case Add => 1
    case Mul => 2
    case Input => 3
    case Output => 4
    case JumpIfTrue => 5
    case JumpIfFalse => 6
    case LessThan => 7
    case Equals => 8
    case AdjustBase => 9
    case Halt => 99
  }

  /** OP_LEN of each operator class: the word itself plus its operands.
      Only Halt has no operand, and every operator that writes has one to
      write through. */
  function OpLen(op: Opcode): (n: nat)
    ensures 1 <= n <= 4
    ensures n == 1 <==> op == Halt
    ensures op in {Add, Mul, LessThan, Equals, Input} ==> n >= 2
  {
    match op
    case Add | Mul | LessThan | Equals => 4
    case Input | Output | AdjustBase => 2
    case JumpIfTrue | JumpIfFalse => 3
    case Halt => 1
  }

  /** The dispatch-table lookup: the operator whose OP_CODE is `code`, if any. */
  function Lookup(code: int): (r: Option<Opcode>)
    ensures r.Some? ==> Code(r.value) == code
    ensures r.None? ==> forall op: Opcode :: Code(op) != code
  {
    if code == 1 then Some(Add)
    else if code == 2 then Some(Mul)
    else if code == 3 then Some(Input)
    else if code == 4 then Some(Output)
    else if code == 5 then Some(JumpIfTrue)
    else if code == 6 then Some(JumpIfFalse)
    else if code == 7 then Some(LessThan)
    else if code == 8 then Some(Equals)
    else if code == 9 then Some(AdjustBase)
    else if code == 99 then Some(Halt)
    else None
  }

  /** Looking up an operator's own code finds that operator. */
  lemma LookupCode(op: Opcode)
    ensures Lookup(Code(op)) == Some(op)
  {
  }

  function Pow10(n: nat): (r: nat)
    ensures r >= 1
  {
    if n == 0 then 1 else 10 * Pow10(n - 1)
  }

  /** Decimal digits of `n`, least significant first, without leading zeros. */
  function Digits(n: nat): seq<nat>
  {
    if n == 0 then [] else [n % 10] + Digits(n / 10)
  }

  /** `get_modes` of a non-negative word: the digits above the hundreds
      place, least significant first, padded with zeros to three entries
      (the effect of `str(w).zfill(5)[:-2]` read backwards). Longer words
      give more than three entries. */
  function Modes(w: nat): (ms: seq<nat>)
    ensures |ms| >= 3
  {
    var ds := Digits(w / 100);
    if |ds| >= 3 then ds else ds + seq(3 - |ds|, _ => 0)
  }

  /** The mode of operand `i`; a position past the end reads as positional. */
  function ModeAt(ms: seq<nat>, i: nat): nat
  {
    if i < |ms| then ms[i] else PositionalMode
  }

  /** The mode `write` uses: the first mode digit for Input and the LAST
      entry of the mode list for every other operator. */
  function WriteMode(op: Opcode, ms: seq<nat>): nat
    requires |ms| >= 1
  {
    if op == Input then ms[0] else ms[|ms| - 1]
  }

  /** A decoded instruction: the operator, its operand words and its modes. */
  datatype Instr = Instr(op: Opcode, args: seq<int>, modes: seq<nat>)

  predicate WellFormed(instr: Instr)
  {
    |instr.args| == OpLen(instr.op) - 1 && |instr.modes| >= 3
  }

  /** Building the operator for the word at `ptr` (`_get_current_op` and
      the operator's constructor): the dispatch-table lookup of `word % 100`
      fails first; then the operand words are read from `ptr + 1` on, and
      the modes are parsed, which fails for a negative word. */
  function Decode(memory: Memory, ptr: int): (r: Result<Instr, Fault>)
    ensures r.Ok? <==> Lookup(Read(memory, ptr) % 100).Some? && Read(memory, ptr) >= 0
    ensures Lookup(Read(memory, ptr) % 100).None? ==> r == Err(UnknownOpcode(Read(memory, ptr) % 100))
    ensures Lookup(Read(memory, ptr) % 100).Some? && Read(memory, ptr) < 0 ==> r == Err(NegativeWord(Read(memory, ptr)))
    ensures r.Ok? ==>
      && WellFormed(r.value)
      && Code(r.value.op) == Read(memory, ptr) % 100
      && r.value.modes == Modes(Read(memory, ptr))
      && forall i :: 0 <= i < |r.value.args| ==> r.value.args[i] == Read(memory, ptr + 1 + i)
  {
    var w := Read(memory, ptr);
    match Lookup(w % 100)
    case None => Err(UnknownOpcode(w % 100))
    case Some(op) =>
      if w < 0 then Err(NegativeWord(w))
      else
        var n := OpLen(op) - 1;
        Ok(Instr(op, seq(n, i requires 0 <= i < n => Read(memory, ptr + 1 + i)), Modes(w)))
  }

  /** Integer division by `d` has exactly one quotient. */
  lemma DivUnique(a: int, d: int, q: int, r: int)
    requires d > 0 && a == d * q + r && 0 <= r < d
    ensures a / d == q
  {
    var q0 := a / d;
    assert d * (q - q0) == a % d - r;
    if q - q0 >= 1 {
      assert false;
    } else if q - q0 <= -1 {
      assert false;
    }
  }

  /** Dividing by `b` then by `c` is dividing by `b * c`. */
  lemma DivDiv(a: nat, b: nat, c: nat)
    requires b > 0 && c > 0
    ensures a / b / c == a / (b * c)
  {
    var q, r := a / b, a % b;
    var q2, r2 := q / c, q % c;
    assert a == b * q + r;
    assert q == c * q2 + r2;
    assert b * q == (b * c) * q2 + b * r2 by {
      assert b * (c * q2 + r2) == b * (c * q2) + b * r2;
      assert b * (c * q2) == (b * c) * q2;
    }
    assert b * r2 + r < b * c by {
      assert r2 <= c - 1;
      assert b * r2 <= b * (c - 1) by { MulLeft(b, r2, c - 1); }
      assert b * (c - 1) == b * c - b;
    }
    DivUnique(a, b * c, q2, b * r2 + r);
  }

  /** Multiplying by a natural number keeps the order. */
  lemma MulLeft(k: nat, x: int, y: int)
    requires x <= y
    ensures k * x <= k * y
  {
    assert k * y - k * x == k * (y - x);
  }

  /** Digit `i` of `n` is `(n / 10^i) % 10`, and 0 past the last digit. */
  lemma {:induction false} DigitAt(n: nat, i: nat)
    ensures ModeAt(Digits(n), i) == (n / Pow10(i)) % 10
  {
    if n == 0 {
      assert Digits(n) == [];
    } else if i > 0 {
      DigitAt(n / 10, i - 1);
      DivDiv(n, 10, Pow10(i - 1));
    }
  }

  /** The mode of operand `i` is the decimal digit of the word at place
      `10^(i+2)`; digits beyond the word's length read as positional. */
  lemma {:induction false} ModesAreDigits(w: nat, i: nat)
    ensures ModeAt(Modes(w), i) == (w / Pow10(i + 2)) % 10
  {
    var ds := Digits(w / 100);
    DigitAt(w / 100, i);
    assert ModeAt(Modes(w), i) == ModeAt(ds, i);
    assert Pow10(i + 2) == 100 * Pow10(i);
    DivDiv(w, 100, Pow10(i));
  }

  lemma {:induction false} DigitsLength(n: nat, k: nat)
    requires n < Pow10(k)
    ensures |Digits(n)| <= k
  {
    if n > 0 {
      assert k > 0;
      DivUnique(Pow10(k), 10, Pow10(k - 1), 0);
      DigitsLength(n / 10, k - 1);
    }
  }

  /** For a word of at most five digits the mode `write` uses is that of
      the operand it writes through: the third for Add, Mul, LessThan and
      Equals, the first for Input. */
  lemma WriteModeOfShortWord(w: nat, op: Opcode)
    requires w < 100000
    requires op in {Add, Mul, LessThan, Equals, Input}
    ensures WriteMode(op, Modes(w)) == ModeAt(Modes(w), OpLen(op) - 2)
  {
    DigitsLength(w / 100, 3);
  }

  /** For a six-digit word the third operand's mode digit and the mode
      `write` uses differ: 100001 has a positional third operand, yet its
      result is written in immediate mode. */
  lemma WriteModeOfLongWord()
    ensures Modes(100001) == [0, 0, 0, 1]
    ensures ModeAt(Modes(100001), 2) == PositionalMode
    ensures WriteMode(Add, Modes(100001)) == ImmediateMode
  {
    assert Digits(0) == [];
    assert Digits(1) == [1];
    assert Digits(10) == [0, 1];
    assert Digits(100) == [0, 0, 1];
    assert Digits(1000) == [0, 0, 0, 1];
  }
}
