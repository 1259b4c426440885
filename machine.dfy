// The hypothetical machine's interpreter (TCASM_machine.cpp): a fetch/execute
// loop over a 65536-word memory, a program counter and a 16-bit
// accumulator. Standard input and output are an input text and the
// sequence of numbers printed.
module Machine {
  import opened Common
  import opened Numerals
  import opened Symbols

  /** Why the interpreter exits with status 1. */
  datatype Fault = DivisionByZero | InvalidInput | UnknownInstruction

  /**
   * The machine between two instructions: memory, pc, acc (an int16), how
   * much of the input scanf has consumed, and the numbers printed so far.
   */
  datatype MState = MState(mem: seq<uword>, pc: uword, acc: int, cursor: nat, out: seq<int>)

  /** What one pass of the loop body does. */
  datatype Outcome = Continue(next: MState) | Faulted(fault: Fault, out: seq<int>)

  /** What the loop does within a bound on the number of instructions. */
  datatype Run = Halted(last: MState) | Aborted(fault: Fault, out: seq<int>) | OutOfFuel(last: MState)

  ghost predicate WellFormed(s: MState, input: seq<char>)
  {
    |s.mem| == MemoryWords && -0x8000 <= s.acc < 0x8000 && s.cursor <= |input|
  }

  /** pc++ on a uint16_t. */
  function Next(pc: uword): uword
  {
    U16(pc + 1)
  }

  /** The image fread loads: at most 0xFFFF words of the file, zeros after. */
  function Load(image: seq<uword>): (m: seq<uword>)
    ensures |m| == MemoryWords
    ensures forall i :: 0 <= i < |image| && i < 0xFFFF ==> m[i] == image[i]
    ensures forall i :: (|image| <= i || 0xFFFF <= i) && i < MemoryWords ==> m[i] == 0
  {
    var n := if |image| < 0xFFFF then |image| else 0xFFFF;
    image[..n] + seq(MemoryWords - n, _ => 0)
  }

  predicate IsSpace(c: char)
  {
    c == ' ' || c == '\t' || c == '\n' || c == '\r' || c == '\U{000B}' || c == '\U{000C}'
  }

  /** scanf skips white space before a conversion. */
  function SkipSpace(input: seq<char>, p: nat): (q: nat)
    requires p <= |input|
    ensures p <= q <= |input|
    ensures q == |input| || !IsSpace(input[q])
    ensures forall i :: p <= i < q ==> IsSpace(input[i])
    decreases |input| - p
  {
    if p < |input| && IsSpace(input[p]) then SkipSpace(input, p + 1) else p
  }

  /**
   * scanf("%i", &i) into an int: the literal read, cut to 32 bits as the
   * store into i cuts it, and the cursor after it; None when no literal stands
   * after the blanks.
   */
  function ReadInt(input: seq<char>, p: nat): (r: Option<(int, nat)>)
    requires p <= |input|
    ensures r.Some? <==> ScanInt(input, SkipSpace(input, p)).Some?
    ensures r.Some? ==> p < r.value.1 <= |input| && -0x8000_0000 <= r.value.0 < 0x8000_0000
    ensures r.Some? ==> r.value == (Int32(ScanInt(input, SkipSpace(input, p)).value.0), ScanInt(input, SkipSpace(input, p)).value.1)
  {
    match ScanInt(input, SkipSpace(input, p))
    case None => None
    case Some((v, q)) => Some((Int32(v), q))
  }

  /**
   * One pass of the loop body, entered only when the word at pc is not 14.
   * Every read() takes the word at pc and moves pc on by one (mod 2^16);
   * mem() reads a word and uses it as an address.
   */
  function Step(s: MState, input: seq<char>): (r: Outcome)
    requires WellFormed(s, input) && s.mem[s.pc] != OpStop
  {
    var op := s.mem[s.pc];
    var p1 := Next(s.pc);
    var w := s.mem[p1];
    var p2 := Next(p1);
    if op == OpAdd then Continue(s.(acc := Wrap16(s.acc + Signed(s.mem[w])), pc := p2))
    else if op == OpSub then Continue(s.(acc := Wrap16(s.acc - Signed(s.mem[w])), pc := p2))
    else if op == OpMult then Continue(s.(acc := Wrap16(s.acc * Signed(s.mem[w])), pc := p2))
    else if op == OpDiv then
      if s.mem[w] == 0 then Faulted(DivisionByZero, s.out)
      else Continue(s.(acc := Wrap16(TruncDiv(s.acc, Signed(s.mem[w]))), pc := p2))
    else if op == OpJmp then Continue(s.(pc := w))
    else if op == OpJmpN then Continue(s.(pc := if s.acc < 0 then w else p2))
    else if op == OpJmpP then Continue(s.(pc := if s.acc > 0 then w else p2))
    else if op == OpJmpZ then Continue(s.(pc := if s.acc == 0 then w else p2))
    else if op == OpCopy then Continue(s.(mem := s.mem[s.mem[p2] := s.mem[w]], pc := Next(p2)))
    else if op == OpLoad then Continue(s.(acc := Signed(s.mem[w]), pc := p2))
    else if op == OpStore then Continue(s.(mem := s.mem[w := U16(s.acc)], pc := p2))
    else if op == OpInput then
      match ReadInt(input, s.cursor)
      case None => Faulted(InvalidInput, s.out)
      case Some((i, q)) =>
        if i < -32768 || i > 32767 then Faulted(InvalidInput, s.out)
        else Continue(s.(mem := s.mem[w := U16(i)], pc := p2, cursor := q))
    else if op == OpOutput then Continue(s.(out := s.out + [Signed(s.mem[w])], pc := p2))
    else Faulted(UnknownInstruction, s.out)
  }

  /** The loop `while (data[pc] != 14)`, for at most fuel passes. */
  function Execute(s: MState, input: seq<char>, fuel: nat): Run
    requires WellFormed(s, input)
    decreases fuel
  {
    if s.mem[s.pc] == OpStop then Halted(s)
    else if fuel == 0 then OutOfFuel(s)
    else
      match Step(s, input)
      case Faulted(f, out) => Aborted(f, out)
      case Continue(t) =>
        StepWellFormed(s, input);
        Execute(t, input, fuel - 1)
  }

  /** The process's exit status: 0 after STOP, 1 after an error message. */
  function ExitStatus(r: Run): (status: int)
    requires !r.OutOfFuel?
    ensures status == 0 <==> r.Halted?
    ensures status == 1 <==> r.Aborted?
  {
    if r.Halted? then 0 else 1
  }

  /** A pass of the loop body keeps memory at 65536 words and acc an int16. */
  lemma StepWellFormed(s: MState, input: seq<char>)
    requires WellFormed(s, input) && s.mem[s.pc] != OpStop
    ensures Step(s, input).Continue? ==> WellFormed(Step(s, input).next, input)
    ensures Step(s, input).Continue? ==> Step(s, input).next.cursor >= s.cursor
    ensures Step(s, input).Continue? ==> |Step(s, input).next.out| >= |s.out| && s.out <= Step(s, input).next.out
    ensures Step(s, input).Faulted? ==> Step(s, input).out == s.out
  {
    var op := s.mem[s.pc];
    var w := s.mem[Next(s.pc)];
    if op == OpDiv && s.mem[w] != 0 {
      Wrap16Range(TruncDiv(s.acc, Signed(s.mem[w])));
    }
  }

  /** The operand word k places after the opcode. */
  function Operand(s: MState, k: nat): uword
    requires |s.mem| == MemoryWords
  {
    s.mem[U16(s.pc + k)]
  }

  /** ADD, SUB and MULT: acc op MEM[operand], cut to 16 bits; pc moves by 2. */
  lemma ArithmeticStep(s: MState, input: seq<char>)
    requires WellFormed(s, input) && s.mem[s.pc] in {OpAdd, OpSub, OpMult}
    ensures var v := Signed(s.mem[Operand(s, 1)]);
      var exact := if s.mem[s.pc] == OpAdd then s.acc + v
                   else if s.mem[s.pc] == OpSub then s.acc - v else s.acc * v;
      Step(s, input) == Continue(s.(acc := Wrap16(exact), pc := U16(s.pc + 2)))
    ensures s.mem[s.pc] == OpAdd && -0x8000 <= s.acc + Signed(s.mem[Operand(s, 1)]) < 0x8000 ==>
      Step(s, input).next.acc == s.acc + Signed(s.mem[Operand(s, 1)])
  {
    var v := Signed(s.mem[Operand(s, 1)]);
    Wrap16Range(s.acc + v);
  }

  /** DIV exits with status 1 exactly when the divisor is zero; otherwise acc / divisor, rounded toward zero. */
  lemma DivisionStep(s: MState, input: seq<char>)
    requires WellFormed(s, input) && s.mem[s.pc] == OpDiv
    ensures Step(s, input).Faulted? <==> s.mem[Operand(s, 1)] == 0
    ensures Step(s, input).Faulted? ==> Step(s, input) == Faulted(DivisionByZero, s.out)
    ensures Step(s, input).Continue? ==>
      Step(s, input).next == s.(acc := Wrap16(TruncDiv(s.acc, Signed(s.mem[Operand(s, 1)]))), pc := U16(s.pc + 2))
    ensures Step(s, input).Continue? && s.acc >= 0 && Signed(s.mem[Operand(s, 1)]) > 0 ==>
      Step(s, input).next.acc == s.acc / Signed(s.mem[Operand(s, 1)])
  {
    U16Succ(s.pc + 1);
    assert Next(Next(s.pc)) == U16(s.pc + 2);
    var d := Signed(s.mem[Operand(s, 1)]);
    if s.acc >= 0 && d > 0 {
      QuotientBound(s.acc, d);
      Wrap16Range(s.acc / d);
    }
  }

  /** A quotient of naturals is no larger than the dividend. */
  lemma QuotientBound(x: int, d: int)
    requires x >= 0 && d > 0
    ensures 0 <= x / d <= x && TruncDiv(x, d) == x / d
  {
    var q := x / d;
    assert x == d * q + x % d;
    assert (d - 1) * q >= 0 by { ProductNonNegative(d - 1, q); }
    assert d * q == (d - 1) * q + q;
  }

  lemma ProductNonNegative(a: int, b: int)
    requires a >= 0 && b >= 0
    ensures a * b >= 0
  {
  }

  /** JMP takes its operand; JMPN, JMPP and JMPZ take it when acc < 0, > 0, = 0 and skip it otherwise. */
  lemma BranchStep(s: MState, input: seq<char>)
    requires WellFormed(s, input) && OpJmp <= s.mem[s.pc] <= OpJmpZ
    ensures Step(s, input).Continue?
    ensures var taken := match s.mem[s.pc]
      case 5 => true
      case 6 => s.acc < 0
      case 7 => s.acc > 0
      case _ => s.acc == 0;
      Step(s, input).next == s.(pc := if taken then Operand(s, 1) else U16(s.pc + 2))
  {
  }

  /** COPY: MEM[op2] := MEM[op1], every other cell unchanged, pc moves by 3. */
  lemma CopyStep(s: MState, input: seq<char>)
    requires WellFormed(s, input) && s.mem[s.pc] == OpCopy
    ensures Step(s, input).Continue?
    ensures var t := Step(s, input).next;
      t.mem[Operand(s, 2)] == s.mem[Operand(s, 1)] &&
      (forall a :: 0 <= a < MemoryWords && a != Operand(s, 2) ==> t.mem[a] == s.mem[a]) &&
      t.pc == U16(s.pc + 3) && t.acc == s.acc && t.cursor == s.cursor && t.out == s.out
  {
    var p1 := Next(s.pc);
    var p2 := Next(p1);
    U16Succ(s.pc + 1);
    U16Succ(s.pc + 2);
    assert Step(s, input) == Continue(s.(mem := s.mem[s.mem[p2] := s.mem[s.mem[p1]]], pc := Next(p2)));
  }

  /** LOAD: acc := MEM[op]; STORE: MEM[op] := acc, which LOAD reads back. */
  lemma LoadStoreStep(s: MState, input: seq<char>)
    requires WellFormed(s, input) && s.mem[s.pc] in {OpLoad, OpStore}
    ensures Step(s, input).Continue?
    ensures s.mem[s.pc] == OpLoad ==> Step(s, input).next == s.(acc := Signed(s.mem[Operand(s, 1)]), pc := U16(s.pc + 2))
    ensures s.mem[s.pc] == OpStore ==>
      var t := Step(s, input).next;
      Signed(t.mem[Operand(s, 1)]) == s.acc && t.mem == s.mem[Operand(s, 1) := t.mem[Operand(s, 1)]] &&
      t.pc == U16(s.pc + 2) && t.acc == s.acc
  {
    SignedU16(s.acc);
  }

  /**
   * INPUT exits with status 1 when no integer can be read or it lies outside
   * -32768..32767; otherwise the integer is stored and reads back unchanged.
   */
  lemma InputStep(s: MState, input: seq<char>)
    requires WellFormed(s, input) && s.mem[s.pc] == OpInput
    ensures var r := ReadInt(input, s.cursor);
      Step(s, input).Faulted? <==> (r.None? || r.value.0 < -32768 || r.value.0 > 32767)
    ensures Step(s, input).Faulted? ==> Step(s, input) == Faulted(InvalidInput, s.out)
    ensures Step(s, input).Continue? ==>
      var t := Step(s, input).next;
      var r := ReadInt(input, s.cursor);
      r.Some? && Signed(t.mem[Operand(s, 1)]) == r.value.0 && t.cursor == r.value.1 &&
      t.pc == U16(s.pc + 2) && t.acc == s.acc && t.out == s.out
  {
    match ReadInt(input, s.cursor)
    case None =>
    case Some((i, q)) =>
      if -32768 <= i <= 32767 {
        SignedU16(i);
      }
  }

  /**
   * The literal 4294967295 does not fit an int: the store into i leaves -1,
   * which INPUT accepts and stores as the word for -1.
   */
  lemma InputWraps(s: MState, input: seq<char>, q: nat)
    requires WellFormed(s, input) && s.mem[s.pc] == OpInput
    requires ScanInt(input, SkipSpace(input, s.cursor)) == Some((0xFFFF_FFFF, q))
    ensures Step(s, input).Continue? && Signed(Step(s, input).next.mem[Operand(s, 1)]) == -1
  {
    assert ReadInt(input, s.cursor) == Some((-1, q));
    InputStep(s, input);
  }

  /** OUTPUT prints MEM[op] as a signed number and changes nothing else. */
  lemma OutputStep(s: MState, input: seq<char>)
    requires WellFormed(s, input) && s.mem[s.pc] == OpOutput
    ensures Step(s, input) == Continue(s.(out := s.out + [Signed(s.mem[Operand(s, 1)])], pc := U16(s.pc + 2)))
  {
  }

  /** Any word outside 1..13 at pc exits with status 1. */
  lemma UnknownStep(s: MState, input: seq<char>)
    requires WellFormed(s, input) && s.mem[s.pc] != OpStop
    ensures Step(s, input).Faulted? && Step(s, input).fault == UnknownInstruction <==> !(OpAdd <= s.mem[s.pc] <= OpOutput)
  {
  }

  /** The numbers printed when the loop stops. */
  function Printed(r: Run): seq<int>
  {
    match r
    case Halted(t) => t.out
    case OutOfFuel(t) => t.out
    case Aborted(_, out) => out
  }

  /** The printed numbers only grow: an error message comes after everything printed before it. */
  lemma {:induction false} OutputGrows(s: MState, input: seq<char>, fuel: nat)
    requires WellFormed(s, input)
    ensures s.out <= Printed(Execute(s, input, fuel))
    decreases fuel
  {
    if s.mem[s.pc] != OpStop && fuel > 0 {
      StepWellFormed(s, input);
      var o := Step(s, input);
      if o.Continue? {
        OutputGrows(o.next, input, fuel - 1);
      }
    }
  }

  /** Execution stops normally exactly at a word 14 under pc. */
  lemma {:induction false} HaltsAtStop(s: MState, input: seq<char>, fuel: nat)
    requires WellFormed(s, input)
    ensures Execute(s, input, fuel).Halted? ==>
      var t := Execute(s, input, fuel).last; |t.mem| == MemoryWords && t.mem[t.pc] == OpStop
    decreases fuel
  {
    if s.mem[s.pc] != OpStop && fuel > 0 {
      match Step(s, input)
      case Faulted(_, _) =>
      case Continue(t) =>
        StepWellFormed(s, input);
        HaltsAtStop(t, input, fuel - 1);
    }
  }

  /** A bound that suffices gives the same verdict as any larger one. */
  lemma {:induction false} FuelMonotone(s: MState, input: seq<char>, fuel: nat, more: nat)
    requires WellFormed(s, input) && fuel <= more
    requires !Execute(s, input, fuel).OutOfFuel?
    ensures Execute(s, input, more) == Execute(s, input, fuel)
    decreases fuel
  {
    if s.mem[s.pc] != OpStop {
      StepWellFormed(s, input);
      var o := Step(s, input);
      if o.Continue? {
        FuelMonotone(o.next, input, fuel - 1, more - 1);
      }
    }
  }

  /** The interpreter's globals: data[], pc, acc, and the standard streams. */
  class Interpreter {
    const data: array<uword>
    var pc: uword
    var acc: int
    const input: seq<char>
    var cursor: nat
    var output: seq<int>

    ghost predicate Valid()
      reads this
    {
      data.Length == MemoryWords && -0x8000 <= acc < 0x8000 && cursor <= |input|
    }

    function State(): MState
      reads this, data
    {
      MState(data[..], pc, acc, cursor, output)
    }

    /** Static zeroed memory, filled by fread from the image; pc = acc = 0. */
    constructor (image: seq<uword>, input: seq<char>)
      ensures Valid() && fresh(data)
      ensures State() == MState(Load(image), 0, 0, 0, []) && this.input == input
    {
      var d := new uword[MemoryWords];
      var i := 0;
      while i < MemoryWords
        invariant 0 <= i <= MemoryWords
        invariant d[..i] == Load(image)[..i]
      {
        d[i] := if i < |image| && i < 0xFFFF then image[i] else 0;
        i := i + 1;
      }
      data := d;
      pc, acc := 0, 0;
      this.input := input;
      cursor, output := 0, [];
    }

    /** read(): the word at pc, with pc post-incremented. */
    method Read() returns (w: uword)
      requires Valid()
      modifies this`pc
      ensures w == data[old(pc)] && pc == Next(old(pc))
    {
      w := data[pc];
      pc := Next(pc);
    }

    /** One pass of the loop body; Some(fault) when the program exits with status 1. */
    method Cycle() returns (fault: Option<Fault>)
      requires Valid() && data[pc] != OpStop
      modifies this, data
      ensures Valid()
      ensures var r := Step(old(State()), input);
        match fault
        case None => r == Continue(State())
        case Some(f) => r == Faulted(f, output)
    {
      ghost var s := State();
      StepWellFormed(s, input);
      var op := Read();
      var w: uword;
      fault := None;
      if op == OpAdd {
        w := Read();
        acc := Wrap16(acc + Signed(data[w]));
      } else if op == OpSub {
        w := Read();
        acc := Wrap16(acc - Signed(data[w]));
      } else if op == OpMult {
        w := Read();
        acc := Wrap16(acc * Signed(data[w]));
      } else if op == OpDiv {
        w := Read();
        var aux := Signed(data[w]);
        if aux == 0 {
          return Some(DivisionByZero);
        }
        acc := Wrap16(TruncDiv(acc, aux));
      } else if op == OpJmp {
        pc := Read();
      } else if OpJmpN <= op <= OpJmpZ {
        var taken := if op == OpJmpN then acc < 0 else if op == OpJmpP then acc > 0 else acc == 0;
        if taken {
          pc := Read();
        } else {
          pc := Next(pc);
        }
      } else if op == OpCopy {
        var a := Read();
        var b := Read();
        data[b] := data[a];
      } else if op == OpLoad {
        w := Read();
        acc := Signed(data[w]);
      } else if op == OpStore {
        w := Read();
        data[w] := U16(acc);
      } else if op == OpInput {
        var r := ReadInt(input, cursor);
        if r.None? || r.value.0 < -32768 || r.value.0 > 32767 {
          return Some(InvalidInput);
        }
        cursor := r.value.1;
        w := Read();
        data[w] := U16(r.value.0);
      } else if op == OpOutput {
        w := Read();
        output := output + [Signed(data[w])];
      } else {
        return Some(UnknownInstruction);
      }
    }

    /** The fetch/execute loop, for at most fuel instructions. */
    method Run(fuel: nat) returns (r: Run)
      requires Valid()
      modifies this, data
      ensures r == Execute(old(State()), input, fuel)
    {
      var left: nat := fuel;
      while data[pc] != OpStop && left > 0
        invariant Valid() && left <= fuel
        invariant Execute(old(State()), input, fuel) == Execute(State(), input, left)
        decreases left
      {
        var f := Cycle();
        if f.Some? {
          return Aborted(f.value, output);
        }
        left := left - 1;
      }
      if data[pc] == OpStop {
        return Halted(State());
      }
      return OutOfFuel(State());
    }
  }
}
