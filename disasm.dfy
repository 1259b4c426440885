// The IA-32 disassembler (TCASM_IA-32_disassembler.c): translates an
// assembled image into NASM source text, one label per instruction named
// after the word index of its opcode, and one `dw` per data word.
module Disasm {
  import opened Common
  import opened Numerals
  import opened Symbols
  import opened Images

  /**
   * The input stream: words consumed, the last word fread stored (kept at
   * end of file) and the 16-bit counter `size` that every read() increments.
   */
  datatype Cursor = Cursor(pos: nat, code: uword, size: uword)

  /** read(): fread of one word, then ++size. */
  function Fetch(ws: seq<uword>, r: Cursor): (r': Cursor)
    ensures r'.size == U16(r.size + 1)
    ensures r.pos < |ws| ==> r'.pos == r.pos + 1 && r'.code == ws[r.pos]
    ensures r.pos >= |ws| ==> r'.pos == r.pos && r'.code == r.code
  {
    if r.pos < |ws| then Cursor(r.pos + 1, ws[r.pos], U16(r.size + 1))
    else r.(size := U16(r.size + 1))
  }

  /**
   * One fprintf call to the output file: a format without conversions, a
   * format with one `%d` between two literal parts, or the data line's
   * two-conversion format.
   */
  datatype Line =
    | Verbatim(text: string)
    | Format(before: string, n: int, after: string)
    | Word(index: int, value: int)

  /** The text one fprintf call prints. */
  function Render(l: Line): string
  {
    match l
    case Verbatim(t) => t
    case Format(before, n, after) => before + IntText(n) + after
    case Word(k, v) => "    var" + IntText(k) + ": dw " + IntText(v) + "\n"
  }

  /** The output file is what the fprintf calls print, one after another. */
  function Flatten(ls: seq<Line>): string
  {
    if ls == [] then "" else Flatten(ls[..|ls| - 1]) + Render(ls[|ls| - 1])
  }

  /** `instr%d:\n`, the label of the instruction whose opcode is word n. */
  function Label(n: int): Line
  {
    Format("instr", n, ":\n")
  }

  /** The lines printed for opcode op with operand words a and b. */
  function Body(op: uword, a: uword, b: uword): seq<Line>
  {
    match op
    case 1 => [Format("    add ax, [var", a, "]\n")]
    case 2 => [Format("    sub ax, [var", a, "]\n")]
    case 3 => [Format("    imul ax, [var", a, "]\n")]
    case 4 => [Verbatim("    cwd\n"), Format("    idiv word [var", a, "]\n")]
    case 5 => [Format("    jmp instr", a, "\n")]
    case 6 => [Verbatim("    cmp ax, 0\n"), Format("    jl instr", a, "\n")]
    case 7 => [Verbatim("    cmp ax, 0\n"), Format("    jg instr", a, "\n")]
    case 8 => [Verbatim("    cmp ax, 0\n"), Format("    je instr", a, "\n")]
    case 9 => [Format("    mov bx, [var", a, "]\n"), Format("    mov [var", b, "], bx\n")]
    case 10 => [Format("    mov ax, [var", a, "]\n")]
    case 11 => [Format("    mov [var", a, "], ax\n")]
    case 12 => [Verbatim("    call GetInt\n"), Format("    mov [var", a, "], bx\n")]
    case 13 => [Format("    mov bx, [var", a, "]\n"), Verbatim("    call PutInt\n")]
    case _ => []
  }

  /** s ends with t. */
  predicate EndsWith(s: string, t: string)
  {
    |t| <= |s| && s[|s| - |t|..] == t
  }

  /** The body of an instruction prints something exactly for opcodes 1..13, and never a data line. */
  lemma BodyPrints(op: uword, a: uword, b: uword)
    ensures Body(op, a, b) != [] <==> 0 < Operands(op)
    ensures forall l :: l in Body(op, a, b) ==> !l.Word?
  {
  }

  /**
   * Every number an instruction's body prints is an operand the instruction
   * reads: the first operand always, the second one only for COPY.
   */
  lemma BodyOperands(op: uword, a: uword, b: uword)
    ensures forall l :: l in Body(op, a, b) && l.Format? ==> l.n == a || (Operands(op) == 2 && l.n == b)
  {
  }

  /**
   * An instruction with operands prints its first one, and COPY prints its
   * second one as the destination of the final mov.
   */
  lemma BodyShowsOperands(op: uword, a: uword, b: uword)
    ensures 0 < Operands(op) ==> exists l :: l in Body(op, a, b) && l.Format? && l.n == a
    ensures Operands(op) == 2 ==> Format("    mov [var", b, "], bx\n") in Body(op, a, b)
  {
    if 0 < Operands(op) {
      var k := if op == 4 || op == 6 || op == 7 || op == 8 || op == 12 then 1 else 0;
      var ls := Body(op, a, b);
      assert ls[k].Format? && ls[k].n == a;
      assert ls[k] in ls;
    }
  }

  /** A jump names its operand as a label `instr`, every other instruction as a data word `var`. */
  lemma BodyTargets(op: uword, a: uword, b: uword)
    ensures forall l :: l in Body(op, a, b) && l.Format? ==>
      if OpJmp <= op <= OpJmpZ then EndsWith(l.before, "instr") else EndsWith(l.before, "[var")
  {
    LabelFormats();
    VarFormats();
  }

  lemma LabelFormats()
    ensures EndsWith("    jmp instr", "instr") && EndsWith("    jl instr", "instr")
    ensures EndsWith("    jg instr", "instr") && EndsWith("    je instr", "instr")
  {
    assert "    jmp instr"[8..] == "instr";
    assert "    jl instr"[7..] == "instr";
    assert "    jg instr"[7..] == "instr";
    assert "    je instr"[7..] == "instr";
  }

  lemma VarFormats()
    ensures EndsWith("    add ax, [var", "[var") && EndsWith("    sub ax, [var", "[var")
    ensures EndsWith("    imul ax, [var", "[var") && EndsWith("    idiv word [var", "[var")
    ensures EndsWith("    mov bx, [var", "[var") && EndsWith("    mov [var", "[var")
    ensures EndsWith("    mov ax, [var", "[var")
  {
    assert "    add ax, [var"[12..] == "[var";
    assert "    sub ax, [var"[12..] == "[var";
    assert "    imul ax, [var"[13..] == "[var";
    assert "    idiv word [var"[14..] == "[var";
    assert "    mov bx, [var"[12..] == "[var";
    assert "    mov [var"[8..] == "[var";
    assert "    mov ax, [var"[12..] == "[var";
  }

  /** The switch: reads op's operands from the stream and prints its body. */
  function Switch(op: uword, ws: seq<uword>, r: Cursor): (cs: (Cursor, seq<Line>))
    requires r.pos <= |ws|
    ensures r.pos <= cs.0.pos <= |ws|
  {
    var r1 := Fetch(ws, r);
    var r2 := Fetch(ws, r1);
    if Operands(op) == 2 then (r2, Body(op, r1.code, r2.code))
    else if Operands(op) == 1 then (r1, Body(op, r1.code, 0))
    else (r, Body(op, 0, 0))
  }

  /**
   * The loop `while (read() != 14)`, appending to out: None when a read at
   * end of file keeps giving a word other than 14, where the source never
   * leaves the loop.
   */
  function Text(ws: seq<uword>, r: Cursor, out: seq<Line>): (t: Option<(Cursor, seq<Line>)>)
    requires r.pos <= |ws|
    ensures t.Some? ==> r.pos <= t.value.0.pos <= |ws|
    decreases |ws| - r.pos
  {
    var r1 := Fetch(ws, r);
    if r1.code == 14 then Some((r1, out))
    else if r.pos == |ws| then None
    else
      var (r2, body) := Switch(r1.code, ws, r1);
      Text(ws, r2, out + [Label(r1.size - 1)] + body)
  }

  /** The exit sequence printed for STOP. */
  const Exit: seq<Line> := [Verbatim("    mov eax, 1\n"), Verbatim("    mov ebx, 0\n"), Verbatim("    int 80h\n")]

  /** One line of the data section. */
  function DataLine(n: int, w: uword): Line
  {
    Word(n, Signed(w))
  }

  /** `var{size}: dw {word}` for each remaining word, size counting on (mod 2^16) from n. */
  function DataLines(ds: seq<uword>, n: uword): seq<Line>
  {
    if ds == [] then []
    else DataLines(ds[..|ds| - 1], n) + [DataLine(U16(n + |ds| - 1), ds[|ds| - 1])]
  }

  /** The data lines of words a .. p, extended by word p. */
  lemma DataStep(ws: seq<uword>, a: nat, p: nat, n: uword, out: seq<Line>)
    requires a <= p < |ws|
    ensures out + DataLines(ws[a..p], n) + [DataLine(U16(n + p - a), ws[p])] == out + DataLines(ws[a..p + 1], n)
  {
    DataLinesSnoc(ws[a..p], ws[p], n);
    assert ws[a..p + 1] == ws[a..p] + [ws[p]];
  }

  /** The whole listing after the fixed prologue, or None when the text loop never ends. */
  function Disassembly(ws: seq<uword>, prologue: seq<Line>): Option<seq<Line>>
  {
    var t := Text(ws, Cursor(0, 0, 0), prologue);
    if t.None? then None
    else
      var r := t.value.0;
      Some(t.value.1 + Stop(r.size - 1) + DataLines(ws[r.pos..], r.size))
  }

  /** What STOP labelled n prints, and the data section header. */
  function Stop(n: int): seq<Line>
  {
    [Format("\ninstr", n, ":\n")] + Exit + [Verbatim("\nsection .data\n")]
  }

  lemma DataLinesSnoc(ds: seq<uword>, w: uword, n: uword)
    ensures DataLines(ds + [w], n) == DataLines(ds, n) + [DataLine(U16(n + |ds|), w)]
  {
    assert (ds + [w])[..|ds|] == ds;
  }

  /** The operand b that Listing prints for the instruction at p. */
  function SecondOperand(ws: seq<uword>, p: nat): uword
    requires WellFormedText(ws, p) && ws[p] != OpStop
  {
    if Operands(ws[p]) == 2 then ws[p + 2] else 0
  }

  /**
   * The listing of a well-formed walk from word p, by word index: each
   * instruction labelled with its opcode's index, its operands read from
   * the words after it.
   */
  function Listing(ws: seq<uword>, p: nat): seq<Line>
    requires WellFormedText(ws, p)
    decreases |ws| - p
  {
    if ws[p] == OpStop then []
    else
      [Label(p)] + Body(ws[p], ws[p + 1], SecondOperand(ws, p)) + Listing(ws, p + 1 + Operands(ws[p]))
  }

  /** `var{k}: dw {word k}` for words k = p .. q-1. */
  function DataListing(ws: seq<uword>, p: nat, q: nat): seq<Line>
    requires p <= q <= |ws|
    decreases q
  {
    if q == p then [] else DataListing(ws, p, q - 1) + [DataLine(q - 1, ws[q - 1])]
  }

  lemma Associative<T>(a: seq<T>, b: seq<T>, c: seq<T>)
    ensures (a + b) + c == a + (b + c)
  {
  }

  /** One instruction of a well-formed walk, with size equal to the words read. */
  lemma TextStep(ws: seq<uword>, p: nat, c: uword, out: seq<Line>)
    requires WellFormedText(ws, p) && |ws| <= 0x1_0000 && ws[p] != OpStop
    ensures var q := p + 1 + Operands(ws[p]);
      Text(ws, Cursor(p, c, p % 0x1_0000), out) ==
      Text(ws, Cursor(q, ws[q - 1], q % 0x1_0000), out + ([Label(p)] + Body(ws[p], ws[p + 1], SecondOperand(ws, p))))
  {
    var r1 := Fetch(ws, Cursor(p, c, p % 0x1_0000));
    assert r1.size - 1 == p;
    var q := p + 1 + Operands(ws[p]);
    var (r2, body) := Switch(r1.code, ws, r1);
    assert r2 == Cursor(q, ws[q - 1], q % 0x1_0000);
    assert body == Body(ws[p], ws[p + 1], SecondOperand(ws, p));
    Associative(out, [Label(p)], body);
    assert Text(ws, Cursor(p, c, p % 0x1_0000), out) == Text(ws, r2, out + [Label(p)] + body);
  }

  /** While no read runs past the image, size counts the words read. */
  lemma TextListing(ws: seq<uword>, p: nat, c: uword, out: seq<Line>)
    requires WellFormedText(ws, p) && |ws| <= 0x1_0000
    ensures var i := StopIndex(ws, p);
      Text(ws, Cursor(p, c, p % 0x1_0000), out) == Some((Cursor(i + 1, 14, U16(i + 1)), out + Listing(ws, p)))
  {
    TextListingAt(ws, p, c, out, StopIndex(ws, p));
  }

  /** TextListing, with the index of the STOP given by name. */
  lemma {:induction false} TextListingAt(ws: seq<uword>, p: nat, c: uword, out: seq<Line>, i: nat)
    requires WellFormedText(ws, p) && |ws| <= 0x1_0000 && i == StopIndex(ws, p)
    ensures Text(ws, Cursor(p, c, p % 0x1_0000), out) == Some((Cursor(i + 1, 14, U16(i + 1)), out + Listing(ws, p)))
    decreases |ws| - p
  {
    if ws[p] != OpStop {
      var q := p + 1 + Operands(ws[p]);
      var lb := [Label(p)] + Body(ws[p], ws[p + 1], SecondOperand(ws, p));
      TextStep(ws, p, c, out);
      TextListingAt(ws, q, ws[q - 1], out + lb, i);
      assert Listing(ws, p) == lb + Listing(ws, q);
      Associative(out, lb, Listing(ws, q));
    } else {
      TextAtStop(ws, p, c, out);
    }
  }

  /** At the STOP the text loop ends after one read, with nothing more printed. */
  lemma TextAtStop(ws: seq<uword>, p: nat, c: uword, out: seq<Line>)
    requires WellFormedText(ws, p) && ws[p] == OpStop
    ensures StopIndex(ws, p) == p && Listing(ws, p) == []
    ensures Text(ws, Cursor(p, c, p % 0x1_0000), out) == Some((Cursor(p + 1, 14, U16(p + 1)), out + Listing(ws, p)))
  {
    U16Succ(p);
    assert out + [] == out;
  }

  /** Data words print with their own index, once size has counted them. */
  lemma {:induction false} DataLinesListing(ws: seq<uword>, p: nat, q: nat)
    requires p <= q <= |ws| <= 0x1_0000
    ensures DataLines(ws[p..q], p % 0x1_0000) == DataListing(ws, p, q)
    decreases q
  {
    if p < q {
      var ds := ws[p..q];
      assert |ds| == q - p && ds[|ds| - 1] == ws[q - 1];
      assert ds[..|ds| - 1] == ws[p..q - 1];
      assert U16(p % 0x1_0000 + |ds| - 1) == q - 1;
      assert DataLines(ds, p % 0x1_0000) == DataLines(ws[p..q - 1], p % 0x1_0000) + [DataLine(q - 1, ws[q - 1])];
      DataLinesListing(ws, p, q - 1);
    }
  }

  /** The 16-bit counter after word i, less one: i, or -1 once it has wrapped. */
  lemma CountBack(i: int)
    requires 0 <= i < 0x1_0000
    ensures U16(i + 1) - 1 == if i < 0xFFFF then i else -1
  {
    if i == 0xFFFF {
      assert U16(i + 1) == 0;
    } else {
      assert U16(i + 1) == i + 1;
    }
  }

  /**
   * For a well-formed image the listing labels every instruction and the
   * STOP with the index of its opcode word (the STOP of a 65536th word
   * wraps to -1), prints each operand by its own value, and names every
   * data word after its index.
   */
  lemma Disassembles(ws: seq<uword>, prologue: seq<Line>)
    requires WellFormedText(ws, 0) && |ws| <= 0x1_0000
    ensures var i := StopIndex(ws, 0);
      Disassembly(ws, prologue) ==
        Some(prologue + Listing(ws, 0) + Stop(if i < 0xFFFF then i else -1) + DataListing(ws, i + 1, |ws|))
  {
    DisassemblesAt(ws, prologue, StopIndex(ws, 0));
  }

  /** Disassembles, with the index of the STOP given by name. */
  lemma DisassemblesAt(ws: seq<uword>, prologue: seq<Line>, i: nat)
    requires WellFormedText(ws, 0) && |ws| <= 0x1_0000 && i == StopIndex(ws, 0)
    ensures Disassembly(ws, prologue) ==
      Some(prologue + Listing(ws, 0) + Stop(if i < 0xFFFF then i else -1) + DataListing(ws, i + 1, |ws|))
  {
    ListingFromStart(ws, prologue);
    CountBack(i);
    DataTail(ws, i + 1);
    FinishedAt(ws, prologue, Cursor(i + 1, 14, U16(i + 1)), prologue + Listing(ws, 0), if i < 0xFFFF then i else -1, DataListing(ws, i + 1, |ws|));
  }

  /** The text loop from the start of the image ends just past the STOP, with the listing. */
  lemma ListingFromStart(ws: seq<uword>, prologue: seq<Line>)
    requires WellFormedText(ws, 0) && |ws| <= 0x1_0000
    ensures var i := StopIndex(ws, 0);
      Text(ws, Cursor(0, 0, 0), prologue) == Some((Cursor(i + 1, 14, U16(i + 1)), prologue + Listing(ws, 0)))
  {
    TextListing(ws, 0, 0, prologue);
    assert Cursor(0, 0, 0 % 0x1_0000) == Cursor(0, 0, 0);
  }

  lemma DataTail(ws: seq<uword>, p: nat)
    requires p <= |ws| <= 0x1_0000
    ensures DataLines(ws[p..], U16(p)) == DataListing(ws, p, |ws|)
  {
    DataLinesListing(ws, p, |ws|);
    assert ws[p..|ws|] == ws[p..];
  }

  /** Disassembly once the text loop has ended with r and text. */
  lemma Finished(ws: seq<uword>, prologue: seq<Line>, r: Cursor, text: seq<Line>)
    requires Text(ws, Cursor(0, 0, 0), prologue) == Some((r, text)) && r.pos <= |ws|
    ensures Disassembly(ws, prologue) == Some(text + Stop(r.size - 1) + DataLines(ws[r.pos..], r.size))
  {
  }

  /** Finished, with the label of STOP and the data lines given by name. */
  lemma FinishedAt(ws: seq<uword>, prologue: seq<Line>, r: Cursor, text: seq<Line>, n: int, data: seq<Line>)
    requires Text(ws, Cursor(0, 0, 0), prologue) == Some((r, text)) && r.pos <= |ws|
    requires r.size - 1 == n && DataLines(ws[r.pos..], r.size) == data
    ensures Disassembly(ws, prologue) == Some(text + Stop(n) + data)
  {
    Finished(ws, prologue, r, text);
  }

  /** The disassembler's globals: input stream, last word, word counter and output text. */
  class Disassembler {
    const input: seq<uword>
    var pos: nat
    var code: uword
    var size: uword
    var output: seq<Line>

    predicate Valid()
      reads this
    {
      pos <= |input|
    }

    function Stream(): Cursor
      reads this
    {
      Cursor(pos, code, size)
    }

    constructor (input: seq<uword>)
      ensures Valid() && this.input == input && Stream() == Cursor(0, 0, 0) && output == []
    {
      this.input := input;
      pos, code, size := 0, 0, 0;
      output := [];
    }

    method Read() returns (w: uword)
      requires Valid()
      modifies this`pos, this`code, this`size
      ensures Valid() && Stream() == Fetch(input, old(Stream())) && w == code
    {
      if pos < |input| {
        code := input[pos];
        pos := pos + 1;
      }
      size := U16(size + 1);
      w := code;
    }

    /** fprintf to the output file. */
    method Put(l: Line)
      modifies this`output
      ensures output == old(output) + [l]
    {
      output := output + [l];
    }

    method PutAll(ss: seq<Line>)
      modifies this`output
      ensures output == old(output) + ss
    {
      output := output + ss;
    }

    /** The switch on the opcode just read, after its label. */
    method Instruction(op: uword)
      requires Valid()
      modifies this
      ensures Valid()
      ensures Stream() == Switch(op, input, old(Stream())).0
      ensures output == old(output) + Switch(op, input, old(Stream())).1
    {
      if op == 9 {
        var a := Read();
        var b := Read();
        PutAll(Body(op, a, b));
      } else if 1 <= op <= 13 {
        assert Operands(op) == 1;
        var a := Read();
        PutAll(Body(op, a, 0));
      } else {
        assert Body(op, 0, 0) == [];
      }
    }

    /**
     * One turn of `while (read() != 14)`: done when the word read is 14,
     * stuck when the read was at end of file and the stale word is not 14.
     */
    method TextTurn() returns (done: bool, stuck: bool)
      requires Valid()
      modifies this
      ensures Valid()
      ensures var t := Text(input, old(Stream()), old(output));
        if done then t == Some((Stream(), output))
        else if stuck then t.None?
        else old(pos) < pos && t == Text(input, Stream(), output)
    {
      var atEnd := pos == |input|;
      var w := Read();
      if w == 14 {
        return true, false;
      }
      if atEnd {
        return false, true;
      }
      Put(Label(size - 1));
      Instruction(w);
      done, stuck := false, false;
    }

    /** The text section loop; false when it would never end. */
    method TranslateText() returns (ends: bool)
      requires Valid()
      modifies this
      ensures Valid()
      ensures var t := Text(input, old(Stream()), old(output));
        if ends then t == Some((Stream(), output)) else t.None?
    {
      while true
        invariant Valid()
        invariant Text(input, old(Stream()), old(output)) == Text(input, Stream(), output)
        decreases |input| - pos
      {
        var done, stuck := TextTurn();
        if done {
          return true;
        }
        if stuck {
          return false;
        }
      }
    }

    /** One pass of the data loop: print the word just read under the current count, then ++size. */
    method DataWord()
      requires Valid() && pos < |input|
      modifies this
      ensures Valid() && pos == old(pos) + 1 && size == U16(old(size) + 1)
      ensures output == old(output) + [DataLine(old(size), input[old(pos)])]
    {
      code := input[pos];
      Put(DataLine(size, code));
      pos := pos + 1;
      size := U16(size + 1);
    }

    /** The data loop: one `dw` per remaining word, ++size after each. */
    method TranslateData()
      requires Valid()
      modifies this
      ensures Valid() && pos == |input|
      ensures output == old(output) + DataLines(input[old(pos)..], old(size))
    {
      while pos < |input|
        invariant Valid() && old(pos) <= pos <= |input|
        invariant size == U16(old(size) + pos - old(pos))
        invariant output == old(output) + DataLines(input[old(pos)..pos], old(size))
      {
        DataStep(input, old(pos), pos, old(size), old(output));
        U16Succ(old(size) + pos - old(pos));
        DataWord();
      }
      assert input[old(pos)..pos] == input[old(pos)..];
    }

    /** main once the files are open: prologue, text, exit sequence, data. */
    method Disassemble(prologue: seq<Line>) returns (listing: Option<seq<Line>>)
      requires Valid() && Stream() == Cursor(0, 0, 0) && output == []
      modifies this
      ensures listing == Disassembly(input, prologue)
    {
      PutAll(prologue);
      assert output == prologue;
      var ends := TranslateText();
      if !ends {
        return None;
      }
      PutAll(Stop(size - 1));
      TranslateData();
      listing := Some(output);
    }
  }
}
