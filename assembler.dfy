// The single pass of TCASM_assembler.c: a state machine that reads the
// source one significant character at a time, builds the image word by word
// and resolves forward references through per-symbol reference lists,
// patching them as symbols get defined. Every message-and-exit of the
// source is an error result here.
module Assembling {
  import opened Common
  import opened Symbols
  import opened Errors
  import opened Scanning
  import opened Keywords
  import opened Resolution

  /** TCASM_state_t: what the pass expects next. */
  datatype State =
    | Section | SectionType | TextStatement | DataStatementBefore | DataStatementAfter | Text
    | DataCreateBefore | DataCreateAfter | DefineVarConst | DefineArray | Regular | Branch | Copy

  /** The states of a data section that follows the code, whose data goes straight into the image. */
  predicate AfterCode(st: State)
  {
    st.DataStatementAfter? || st.DataCreateAfter? || st.DefineVarConst? || st.DefineArray?
  }

  /** The state TCASM_decode_instruction moves to after emitting opcode op. */
  function NextState(op: uword): State
  {
    if OpJmp <= op <= OpJmpZ then Branch
    else if op == OpCopy then Copy
    else if op != OpStop then Regular
    else TextStatement
  }

  /** The message the end of the pass gives for a listed symbol that still has pending references. */
  function UndefinedError(k: Kind): (e: Option<ErrorKind>)
    ensures e.Some? <==> k.AddressText? || IsDataAddress(k)
  {
    match k
    case AddressText => Some(UndefinedLabel)
    case AddressVar => Some(UndefinedVariable)
    case AddressConst => Some(UndefinedConstant)
    case AddressArray => Some(UndefinedArray)
    case _ => None
  }

  /** The image words a data item takes: one for a variable or constant, the size of an array. */
  function CellsOf(sym: Symbol): nat
  {
    if sym.kind == AddressVar || sym.kind == AddressConst then 1
    else if sym.kind == AddressArray then sym.size as nat
    else 0
  }


  // ---------------------------------------------------------------------
  // The globals of the pass as one value.

  /**
   * The globals of TCASM_assembler.c: the scanner, the image with its
   * bookkeeping, the data size, the two section flags, the state, the key
   * of the last symbol looked up (TCASM_symbol), the opcode being
   * assembled and the COPY operand flag.
   */
  datatype Asm = Asm(sc: Scan, b: Book, dataSize: nat, textRead: bool, dataRead: bool,
                     state: State, current: string, opcode: uword, secondOp: bool)

  /** The states whose handler works on the record of the last symbol looked up. */
  predicate OnCurrent(st: State)
  {
    st.DataCreateBefore? || st.DataCreateAfter? || st.DefineVarConst? || st.DefineArray?
  }

  /**
   * What every handler needs: the file position inside the file, a
   * 65536-word image, a data size within the memory (with room for the
   * datum about to be declared), and the record a handler works on.
   */
  predicate Shaped(s: seq<char>, a: Asm)
  {
    a.sc.pos <= |s| && |a.b.code| == MemoryWords && a.b.size <= MemoryWords
    && a.dataSize <= MemoryWords && (a.state == DataCreateBefore ==> a.dataSize < MemoryWords)
    && (OnCurrent(a.state) ==> a.current in a.b.symtab)
  }

  /** A successful step keeps the pass well formed and never moves back in the file. */
  predicate Moves(s: seq<char>, a: Asm, r: Result<Asm>)
  {
    r.Ok? ==> Shaped(s, r.value) && a.sc.pos <= r.value.sc.pos
  }

  /** The message kind k, reported at the line of the statement being read. */
  function Fail(a: Asm, k: ErrorKind): Result<Asm>
  {
    Err(At(k, a.sc.statementLine))
  }

  /** TCASM_hashtable_get: w becomes the current symbol; a new key gets a zero record. */
  function Fetch(a: Asm, w: string): (r: Asm)
    ensures r.current == w && w in r.b.symtab
    ensures r.b == (if w in a.b.symtab then a.b else Lookup(a.b, w))
    ensures r == a.(b := r.b, current := w)
  {
    a.(b := if w in a.b.symtab then a.b else Lookup(a.b, w), current := w)
  }

  /** code[size++] = w; a full image cannot take one more word. */
  function Put(a: Asm, w: uword): (r: Result<Asm>)
    requires |a.b.code| == MemoryWords
    ensures r.Ok? <==> a.b.size < MemoryWords
    ensures r.Ok? ==> r.value == a.(b := Emit(a.b, w))
    ensures r.Err? ==> r == Fail(a, CodeOverflow)
  {
    if a.b.size < MemoryWords then Ok(a.(b := Emit(a.b, w))) else Fail(a, CodeOverflow)
  }

  /** The state after a successful step. */
  function Then(r: Result<Asm>, st: State): (r': Result<Asm>)
    ensures r'.Ok? <==> r.Ok?
    ensures r'.Ok? ==> r'.value == r.value.(state := st)
    ensures r'.Err? ==> r' == r
  {
    match r
    case Err(e) => Err(e)
    case Ok(a) => Ok(a.(state := st))
  }

  /** TCASM_read_symbol and the lookup: the word becomes the current symbol; says whether it is new. */
  function Word(s: seq<char>, a: Asm): (r: Result<(Asm, bool)>)
    requires a.sc.pos <= |s|
    ensures r.Ok? ==> (a.sc.pos <= r.value.0.sc.pos < |s|
      && (r.value.1 <==> r.value.0.current !in a.b.symtab)
      && r.value.0 == Fetch(a.(sc := r.value.0.sc), r.value.0.current)
      && r.value.0.sc.readLines == a.sc.readLines && r.value.0.sc.statementLine == a.sc.statementLine)
    ensures r.Err? ==> r.error.At? && r.error.line == a.sc.statementLine
  {
    match SymbolStep(s, a.sc)
    case Fault(k) => Err(At(k, a.sc.statementLine))
    case Got(w, sc1) => Ok((Fetch(a.(sc := sc1), w), w !in a.b.symtab))
  }

  /** check_new_line, then the statement's first word. */
  function Opening(s: seq<char>, a: Asm): (r: Result<(Asm, bool)>)
    requires a.sc.pos <= |s|
    ensures r.Err? && !a.sc.changedLine ==> r == Err(At(InvalidStatement, a.sc.statementLine))
    ensures r.Ok? ==> (a.sc.changedLine && a.sc.pos <= r.value.0.sc.pos < |s|
      && (r.value.1 <==> r.value.0.current !in a.b.symtab)
      && r.value.0 == Fetch(a.(sc := r.value.0.sc), r.value.0.current))
  {
    match NewLineStep(a.sc)
    case None => Err(At(InvalidStatement, a.sc.statementLine))
    case Some(sc1) => Word(s, a.(sc := sc1))
  }

  /** check_same_line, then an operand word. */
  function Operand(s: seq<char>, a: Asm): (r: Result<(Asm, bool)>)
    requires a.sc.pos <= |s|
    ensures a.sc.readLines > 0 ==> r == Err(At(InvalidStatement, a.sc.statementLine))
    ensures r.Ok? ==> (a.sc.readLines == 0 && a.sc.pos <= r.value.0.sc.pos < |s|
      && r.value.0.sc.statementLine == a.sc.statementLine
      && (r.value.1 <==> r.value.0.current !in a.b.symtab)
      && r.value.0 == Fetch(a.(sc := r.value.0.sc), r.value.0.current))
  {
    if a.sc.readLines > 0 then Err(At(InvalidStatement, a.sc.statementLine))
    else Word(s, a)
  }

  /** A constant literal must fit a signed 16-bit word. */
  predicate IsConstant(i: int)
  {
    -0x8000 <= i <= 0x7FFF
  }

  /**
   * fscanf("%i") into an int: the literal at the file position, cut to
   * 32 bits, and the scanner after it.
   */
  function Literal(s: seq<char>, c: Scan): (r: Option<(int, Scan)>)
    requires c.pos <= |s|
    ensures r.Some? <==> IntStep(s, c).Some?
    ensures r.Some? ==> r.value == (Int32(IntStep(s, c).value.0), IntStep(s, c).value.1)
    ensures r.Some? ==> -0x8000_0000 <= r.value.0 < 0x8000_0000 && c.pos < r.value.1.pos <= |s|
    ensures r.Some? ==> r.value.1.statementLine == c.statementLine
  {
    match IntStep(s, c)
    case None => None
    case Some((v, c2)) => Some((Int32(v), c2))
  }

  /**
   * The value after a CONST: the literal, which must be in the range a
   * word holds; anything else is an invalid constant.
   */
  function ConstantAt(s: seq<char>, c: Scan): (r: Got<int>)
    requires c.pos <= |s|
    ensures r.Got? <==> Literal(s, c).Some? && IsConstant(Literal(s, c).value.0)
    ensures r.Got? ==> r.value == Literal(s, c).value.0 && r.sc == Literal(s, c).value.1
    ensures r.Fault? ==> r.kind == InvalidConstant
  {
    match Literal(s, c)
    case None => Fault(InvalidConstant)
    case Some((i, c2)) => if IsConstant(i) then Got(i, c2) else Fault(InvalidConstant)
  }

  /**
   * The size after a SPACE, for a memory already holding used words: a
   * literal that is positive and fits with them. When used plus the size,
   * taken as a size_t, passes the memory the message is a memory overflow
   * (so a negative size, which wraps around, is one); any other rejected
   * size is an invalid array size.
   */
  function SizeAt(s: seq<char>, c: Scan, used: nat): (r: Got<nat>)
    requires c.pos <= |s| && used <= MemoryWords
    ensures r.Got? <==> (Literal(s, c).Some? && 0 < Literal(s, c).value.0
      && used + Literal(s, c).value.0 <= MemoryWords)
    ensures r.Got? ==> r.value == Literal(s, c).value.0 && r.sc == Literal(s, c).value.1
    ensures r.Got? ==> 0 < r.value && used + r.value <= MemoryWords && c.pos < r.sc.pos <= |s|
    ensures r.Fault? ==> r.kind == (if Literal(s, c).Some? && SizeT(used + Literal(s, c).value.0) > MemoryWords
      then MemoryOverflow else InvalidArraySize)
  {
    match Literal(s, c)
    case None => Fault(InvalidArraySize)
    case Some((i, c2)) =>
      SizeTRange(used + i);
      if SizeT(used + i) > MemoryWords then Fault(MemoryOverflow)
      else if i <= 0 then Fault(InvalidArraySize)
      else Got(i, c2)
  }

  /** Nothing more on the line: the file ends, or the next significant character is on a later line. */
  predicate LineDone(s: seq<char>, c: Scan)
    requires c.pos <= |s|
  {
    !CharStep(s, c).0 || CharStep(s, c).1.readLines > 0
  }

  /** The scanner after TCASM_read_char, with the character it found (if any) put back by fseek. */
  function Ahead(s: seq<char>, c: Scan): (r: Scan)
    requires c.pos <= |s|
    ensures c.pos <= r.pos <= |s| && r.statementLine == c.statementLine
  {
    if CharStep(s, c).0 then BackStep(CharStep(s, c).1) else CharStep(s, c).1
  }

  // ---------------------------------------------------------------------
  // The handlers, one per state. Each is called after TCASM_read_char has
  // found the significant character the handler starts from.

  /** SECTION: the keyword, its letters after the 'S' read raw. */
  function HandleSection(s: seq<char>, a: Asm): (r: Result<Asm>)
    requires Shaped(s, a)
    ensures Moves(s, a, r)
    ensures r.Ok? <==> a.sc.ch == 'S' && MatchRest(s, a.sc.pos, "ECTION").0
    ensures r.Ok? ==> r.value.state == SectionType && r.value.b == a.b
    ensures r.Err? ==> r == Fail(a, MustStartWithSection)
  {
    var m := MatchRest(s, a.sc.pos, "ECTION");
    if a.sc.ch == 'S' && m.0 then Ok(a.(sc := a.sc.(pos := m.1, ch := m.2.value), state := SectionType))
    else Fail(a, MustStartWithSection)
  }

  /** The TEXT keyword, read raw from the current character. */
  predicate TextMatch(s: seq<char>, c: Scan)
    requires c.pos <= |s|
  {
    c.ch == 'T' && MatchRest(s, c.pos, "EXT").0
  }

  /**
   * The DATA keyword: its 'D' is the current character, or, after a 'T'
   * whose TEXT match failed, the last raw character that match read.
   */
  function DataMatch(s: seq<char>, c: Scan): (r: (bool, nat, Option<char>))
    requires c.pos <= |s|
    ensures c.pos <= r.1 <= |s|
    ensures r.0 ==> r.2.Some?
  {
    var t := MatchRest(s, c.pos, "EXT");
    var last := if c.ch == 'T' then t.2 else Some(c.ch);
    var q := if c.ch == 'T' then t.1 else c.pos;
    if last != Some('D') then (false, q, last) else MatchRest(s, q, "ATA")
  }

  /**
   * TEXT or DATA on the line of the SECTION keyword. A failed TEXT match
   * falls through to the DATA match with the last raw character read in
   * place of the current one; each section may start once, and DATA leads
   * to the data state for data before or after the code.
   */
  function HandleSectionType(s: seq<char>, a: Asm): (r: Result<Asm>)
    requires Shaped(s, a)
    ensures Moves(s, a, r)
    ensures a.sc.readLines > 0 || a.sc.readChars == 0 ==> r == Fail(a, InvalidStatement)
    ensures r.Ok? <==> (a.sc.readLines == 0 && a.sc.readChars > 0
      && ((TextMatch(s, a.sc) && !a.textRead) || (!TextMatch(s, a.sc) && DataMatch(s, a.sc).0 && !a.dataRead)))
    ensures a.sc.readLines == 0 && a.sc.readChars > 0 ==> (
      (TextMatch(s, a.sc) && a.textRead ==> r == Fail(a, TextAlreadyStarted))
      && (!TextMatch(s, a.sc) && DataMatch(s, a.sc).0 && a.dataRead ==> r == Fail(a, DataAlreadyStarted))
      && (!TextMatch(s, a.sc) && !DataMatch(s, a.sc).0 ==> r == Fail(a, InvalidSectionType)))
    ensures r.Ok? ==> (r.value.b == a.b && (r.value.state == TextStatement || r.value.state == DataStatementBefore
      || r.value.state == DataStatementAfter))
    ensures r.Ok? && r.value.state == TextStatement ==> !a.textRead && r.value.textRead && r.value.dataRead == a.dataRead
    ensures r.Ok? && r.value.state != TextStatement ==> (!a.dataRead && r.value.dataRead
      && r.value.textRead == a.textRead && (r.value.state == DataStatementAfter <==> a.textRead))
  {
    if a.sc.readLines > 0 || a.sc.readChars == 0 then Fail(a, InvalidStatement)
    else if TextMatch(s, a.sc) then
      var t := MatchRest(s, a.sc.pos, "EXT");
      if a.textRead then Fail(a, TextAlreadyStarted)
      else Ok(a.(sc := a.sc.(pos := t.1, ch := t.2.value), textRead := true, state := TextStatement))
    else
      var d := DataMatch(s, a.sc);
      if !d.0 then Fail(a, InvalidSectionType)
      else if a.dataRead then Fail(a, DataAlreadyStarted)
      else Ok(a.(sc := a.sc.(pos := d.1, ch := d.2.value), dataRead := true,
                 state := if a.textRead then DataStatementAfter else DataStatementBefore))
  }

  /** TCASM_decode_instruction: the opcode of the current instruction is emitted. */
  function Decode(a: Asm): (r: Result<Asm>)
    requires |a.b.code| == MemoryWords && a.current in a.b.symtab
    ensures r.Ok? <==> a.b.size < MemoryWords
    ensures r.Ok? ==> (r.value.opcode == a.b.symtab[a.current].opcode
      && r.value == a.(b := Emit(a.b, r.value.opcode), opcode := r.value.opcode, state := NextState(r.value.opcode)))
    ensures r.Err? ==> r == Fail(a, CodeOverflow)
    ensures r.Ok? && a.current in KeywordTable && a.b.symtab[a.current] == KeywordTable[a.current] ==>
      forall i :: 0 <= i < |Mnemonics| && a.current == Mnemonics[i] ==>
        r.value.state == (if 4 <= i < 8 then Branch else if i == 8 then Copy else if i == 13 then TextStatement else Regular)
  {
    KeywordOpcodes();
    var op := a.b.symtab[a.current].opcode;
    Then(Put(a.(opcode := op), op), NextState(op))
  }

  /** A label w gets the current image size as its address and its pending references are patched. */
  function DefineLabel(a: Asm, w: string): (r: Result<Asm>)
    requires |a.b.code| == MemoryWords && w in a.b.symtab
    ensures r.Ok? && r.value == a.(b := r.value.b, state := Text)
    ensures r.value.b.symtab == a.b.symtab[w := a.b.symtab[w].(kind := AddressText, addr := U16(a.b.size), refs := [])]
    ensures r.value.b.addrOf == a.b.addrOf[w := a.b.size] && r.value.b.size == a.b.size
  {
    var b1 := Define(a.b, w, a.b.size);
    var b2 := SetSym(b1, w, b1.symtab[w].(kind := AddressText, addr := U16(a.b.size)));
    match Dump(b2, w, Plain)
    case Err(e) => Err(e)
    case Ok(b3) => Ok(a.(b := b3, state := Text))
  }

  /**
   * A statement of the code must start on a new line; its first word is
   * then handled as TextStatementWord describes.
   */
  function HandleTextStatement(s: seq<char>, a: Asm): (r: Result<Asm>)
    requires Shaped(s, a)
    ensures Moves(s, a, r)
    ensures !a.sc.changedLine ==> r == Fail(a, InvalidStatement)
    ensures Opening(s, a).Ok? ==> r == TextStatementWord(s, Opening(s, a).value.0, Opening(s, a).value.1)
  {
    match Opening(s, a)
    case Err(e) => Err(e)
    case Ok((a1, created)) => TextStatementWord(s, a1, created)
  }

  /**
   * The first word of a statement of the code, just looked up (new when
   * created): a new label, or one used before but not yet defined, opens a
   * labelled statement; an instruction is decoded; SECTION starts the data
   * section unless it has started already; any other keyword is an
   * invalid statement, and a data symbol a redefinition.
   */
  function TextStatementWord(s: seq<char>, a: Asm, created: bool): (r: Result<Asm>)
    requires Shaped(s, a) && a.current in a.b.symtab
    ensures Moves(s, a, r)
    ensures created || a.b.symtab[a.current].kind == AddressText ==> r == LabelStatement(s, a, created)
    ensures !created && IsInstruction(a.b.symtab[a.current].kind) ==> r == Decode(a)
    ensures !created && a.b.symtab[a.current].kind == DirectiveSection ==>
      r == (if a.dataRead then Fail(a, BothSectionsStarted) else Ok(a.(state := SectionType)))
    ensures !created && IsDirective(a.b.symtab[a.current].kind) && a.b.symtab[a.current].kind != DirectiveSection ==>
      r == Fail(a, InvalidStatement)
    ensures !created && IsDataAddress(a.b.symtab[a.current].kind) ==> r == Fail(a, Redefinition)
  {
    var sym := a.b.symtab[a.current];
    if created || sym.kind == AddressText then LabelStatement(s, a, created)
    else if IsInstruction(sym.kind) then Decode(a)
    else if sym.kind == DirectiveSection then
      if a.dataRead then Fail(a, BothSectionsStarted) else Ok(a.(state := SectionType))
    else if IsDirective(sym.kind) then Fail(a, InvalidStatement)
    else Fail(a, Redefinition)
  }

  /**
   * A label opening a statement of the code (new when created): its colon
   * must follow on the same line, and a label already defined may not be
   * defined again. The label gets the image size as its address, its
   * pending references are patched, and its instruction is read next.
   */
  function LabelStatement(s: seq<char>, a: Asm, created: bool): (r: Result<Asm>)
    requires Shaped(s, a) && a.current in a.b.symtab
    ensures Moves(s, a, r)
    ensures r.Ok? <==> MarkStep(s, a.sc, ':').Got? && (created || a.b.symtab[a.current].refs != [])
    ensures r.Err? ==> r == Fail(a, if MarkStep(s, a.sc, ':').Got? then Redefinition else InvalidStatement)
    ensures r.Ok? ==> (r.value == a.(sc := MarkStep(s, a.sc, ':').sc, b := r.value.b, state := Text)
      && r.value.b.size == a.b.size && r.value.b.addrOf == a.b.addrOf[a.current := a.b.size]
      && r.value.b.symtab == a.b.symtab[a.current := a.b.symtab[a.current].(kind := AddressText,
                                                     addr := U16(a.b.size), refs := [])])
  {
    match MarkStep(s, a.sc, ':')
    case Fault(k) => Fail(a, k)
    case Got(_, sc1) =>
      if !created && a.b.symtab[a.current].refs == [] then Fail(a, Redefinition)
      else DefineLabel(a.(sc := sc1), a.current)
  }

  /**
   * The instruction of a statement that started with a label: it must
   * follow on the label's line, and must be an instruction.
   */
  function HandleText(s: seq<char>, a: Asm): (r: Result<Asm>)
    requires Shaped(s, a)
    ensures Moves(s, a, r)
    ensures a.sc.readLines > 0 ==> r == Fail(a, InvalidStatement)
    ensures Operand(s, a).Ok? && !IsInstruction(Operand(s, a).value.0.b.symtab[Operand(s, a).value.0.current].kind)
      ==> r == Fail(a, InvalidInstruction)
    ensures Operand(s, a).Ok? && IsInstruction(Operand(s, a).value.0.b.symtab[Operand(s, a).value.0.current].kind)
      ==> r == Decode(Operand(s, a).value.0)
  {
    match Operand(s, a)
    case Err(e) => Err(e)
    case Ok((a1, _)) =>
      if !IsInstruction(a1.b.symtab[a1.current].kind) then Fail(a1, InvalidInstruction)
      else Decode(a1)
  }

  /** A mark that must follow on the same line (read_colon, read_comma); the state becomes st. */
  function Mark(s: seq<char>, a: Asm, mark: char, st: State): (r: Result<Asm>)
    requires a.sc.pos <= |s|
    ensures r.Ok? <==> MarkStep(s, a.sc, mark).Got?
    ensures r.Ok? ==> r.value == a.(sc := MarkStep(s, a.sc, mark).sc, state := st) && a.sc.pos < r.value.sc.pos <= |s|
    ensures r.Err? ==> r == Fail(a, InvalidStatement)
  {
    match MarkStep(s, a.sc, mark)
    case Fault(k) => Fail(a, k)
    case Got(_, sc1) => Ok(a.(sc := sc1, state := st))
  }

  /**
   * r is a after sym is declared before the code, n more words of data:
   * a named datum gives the current symbol the record sym and is listed by
   * name, an anonymous one is listed as sym itself; the image is untouched.
   */
  predicate DeclaredAs(a: Asm, r: Asm, sym: Symbol, n: nat, named: bool)
  {
    r == a.(sc := r.sc, b := r.b, dataSize := a.dataSize + n, state := DataStatementBefore)
    && r.b == a.b.(symtab := r.b.symtab, datalist := a.b.datalist + [if named then Named(a.current) else Anonymous(sym)])
    && r.b.symtab == (if named then a.b.symtab[a.current := sym] else a.b.symtab)
  }

  /** The data of a SPACE or CONST declared before the code goes to the data list, n words of it. */
  function Declared(a: Asm, sym: Symbol, n: nat, named: bool): (r: Asm)
    ensures DeclaredAs(a, r, sym, n, named) && r.sc == a.sc
  {
    if named then a.(b := Declare(a.b, a.current, sym), dataSize := a.dataSize + n, state := DataStatementBefore)
    else a.(b := ListAnonymous(a.b, sym), dataSize := a.dataSize + n, state := DataStatementBefore)
  }

  /**
   * The datum after SPACE or CONST in a data section before the code: a
   * variable when the line ends after SPACE, an array of the size that
   * follows it, a constant of the value after CONST, which must follow on
   * the line. It is listed, named (handle_state_data_create_databefore) or
   * anonymous (create_anonymous_data_databefore), for placement after the
   * code; the end of the file there means the code never came.
   */
  function DataBefore(s: seq<char>, a: Asm, space: bool, named: bool): (r: Result<Asm>)
    requires Shaped(s, a) && a.current in a.b.symtab && a.dataSize < MemoryWords
    ensures Moves(s, a, r)
    ensures r.Ok? ==> (r.value.state == DataStatementBefore && r.value.b.code == a.b.code
      && r.value.b.size == a.b.size && a.dataSize < r.value.dataSize)
    ensures !CharStep(s, a.sc).0 ==> r == Err(NoInstructions)
    ensures space && CharStep(s, a.sc).0 && LineDone(s, a.sc) ==>
      r.Ok? && r.value.sc == Ahead(s, a.sc) && DeclaredAs(a, r.value, Zero.(kind := AddressVar), 1, named)
    ensures !space && CharStep(s, a.sc).0 && LineDone(s, a.sc) ==> r == Fail(a, InvalidStatement)
    ensures !LineDone(s, a.sc) ==>
      r == (if space then ArrayBefore(s, a.(sc := Ahead(s, a.sc)), named) else ConstBefore(s, a.(sc := Ahead(s, a.sc)), named))
  {
    if !CharStep(s, a.sc).0 then Err(NoInstructions)
    else
      var a1 := a.(sc := Ahead(s, a.sc));
      if LineDone(s, a.sc) then
        if space then Ok(Declared(a1, Zero.(kind := AddressVar), 1, named)) else Fail(a1, InvalidStatement)
      else if space then ArrayBefore(s, a1, named)
      else ConstBefore(s, a1, named)
  }

  /** The value after CONST, before the code: a constant in the range a word holds is declared. */
  function ConstBefore(s: seq<char>, a: Asm, named: bool): (r: Result<Asm>)
    requires Shaped(s, a) && a.current in a.b.symtab && a.dataSize < MemoryWords
    ensures Moves(s, a, r)
    ensures r.Ok? ==> (r.value.state == DataStatementBefore && r.value.b.code == a.b.code
      && r.value.b.size == a.b.size && a.dataSize < r.value.dataSize)
    ensures r.Ok? <==> ConstantAt(s, a.sc).Got?
    ensures r.Err? ==> r == Fail(a, InvalidConstant)
    ensures r.Ok? ==> (r.value.sc == ConstantAt(s, a.sc).sc
      && DeclaredAs(a, r.value, Zero.(kind := AddressConst, value := ConstWord(ConstantAt(s, a.sc).value)), 1, named))
  {
    match ConstantAt(s, a.sc)
    case Fault(k) => Fail(a, k)
    case Got(i, sc2) => Ok(Declared(a.(sc := sc2), Zero.(kind := AddressConst, value := ConstWord(i)), 1, named))
  }

  /** The size after SPACE, before the code: an array of that many words, all of which must fit. */
  function ArrayBefore(s: seq<char>, a: Asm, named: bool): (r: Result<Asm>)
    requires Shaped(s, a) && a.current in a.b.symtab && a.dataSize < MemoryWords
    ensures Moves(s, a, r)
    ensures r.Ok? ==> (r.value.state == DataStatementBefore && r.value.b.code == a.b.code
      && r.value.b.size == a.b.size && a.dataSize < r.value.dataSize)
    ensures r.Ok? <==> SizeAt(s, a.sc, a.dataSize).Got?
    ensures r.Err? ==> r == Fail(a, SizeAt(s, a.sc, a.dataSize).kind)
    ensures r.Ok? ==> (r.value.sc == SizeAt(s, a.sc, a.dataSize).sc
      && DeclaredAs(a, r.value, Zero.(kind := AddressArray, size := U16(SizeAt(s, a.sc, a.dataSize).value)),
                    SizeAt(s, a.sc, a.dataSize).value, named))
  {
    match SizeAt(s, a.sc, a.dataSize)
    case Fault(k) => Fail(a, k)
    case Got(n, sc2) => Ok(Declared(a.(sc := sc2), Zero.(kind := AddressArray, size := U16(n)), n, named))
  }

  /**
   * A statement of a data section before the code must start on a new
   * line; its first word is then handled as DataStatementBeforeWord
   * describes.
   */
  function HandleDataStatementBefore(s: seq<char>, a: Asm): (r: Result<Asm>)
    requires Shaped(s, a)
    ensures Moves(s, a, r)
    ensures !a.sc.changedLine ==> r == Fail(a, InvalidStatement)
    ensures Opening(s, a).Ok? ==> r == DataStatementBeforeWord(s, Opening(s, a).value.0, Opening(s, a).value.1)
  {
    match Opening(s, a)
    case Err(e) => Err(e)
    case Ok((a1, created)) => DataStatementBeforeWord(s, a1, created)
  }

  /**
   * The first word of a statement of a data section before the code, just
   * looked up (new when created). With the data memory full nothing more
   * may be declared; a new name is a label whose colon must follow;
   * SECTION starts the code; SPACE or CONST opens anonymous data; another
   * keyword may not name data, and a symbol already declared is a
   * redefinition.
   */
  function DataStatementBeforeWord(s: seq<char>, a: Asm, created: bool): (r: Result<Asm>)
    requires Shaped(s, a) && a.current in a.b.symtab
    ensures Moves(s, a, r)
    ensures a.dataSize == MemoryWords ==> r == Fail(a, MemoryOverflow)
    ensures a.dataSize < MemoryWords && created ==> r == Mark(s, a, ':', DataCreateBefore)
    ensures a.dataSize < MemoryWords && !created && a.b.symtab[a.current].kind == DirectiveSection ==>
      r == Ok(a.(state := SectionType))
    ensures (a.dataSize < MemoryWords && !created
      && (a.b.symtab[a.current].kind == DirectiveSpace || a.b.symtab[a.current].kind == DirectiveConst)) ==>
      r == DataBefore(s, a, a.b.symtab[a.current].kind == DirectiveSpace, false)
    ensures (a.dataSize < MemoryWords && !created
      && (a.b.symtab[a.current].kind == DirectiveSectionType || IsInstruction(a.b.symtab[a.current].kind))) ==>
      r == Fail(a, DataWithKeyword)
    ensures a.dataSize < MemoryWords && !created && IsAddress(a.b.symtab[a.current].kind) ==> r == Fail(a, Redefinition)
  {
    var sym := a.b.symtab[a.current];
    if a.dataSize + 1 > MemoryWords then Fail(a, MemoryOverflow)
    else if created then Mark(s, a, ':', DataCreateBefore)
    else if sym.kind == DirectiveSection then Ok(a.(state := SectionType))
    else if sym.kind == DirectiveSpace || sym.kind == DirectiveConst then
      DataBefore(s, a, sym.kind == DirectiveSpace, false)
    else if Code(sym.kind) <= 6 then Fail(a, DataWithKeyword)
    else Fail(a, Redefinition)
  }

  /** The SPACE or CONST after a new label of a data section before the code, on the label's line. */
  function HandleDataCreateBefore(s: seq<char>, a: Asm): (r: Result<Asm>)
    requires Shaped(s, a) && a.current in a.b.symtab && a.dataSize < MemoryWords
    ensures Moves(s, a, r)
    ensures a.sc.readLines > 0 || DataTypeStep(s, a.sc).Fault? ==> r == Fail(a, InvalidStatement)
    ensures a.sc.readLines == 0 && DataTypeStep(s, a.sc).Got? ==>
      r == DataBefore(s, a.(sc := DataTypeStep(s, a.sc).sc), DataTypeStep(s, a.sc).value == DirectiveSpace, true)
  {
    if a.sc.readLines > 0 then Fail(a, InvalidStatement)
    else
      match DataTypeStep(s, a.sc)
      case Fault(k) => Fail(a, k)
      case Got(t, sc1) => DataBefore(s, a.(sc := sc1), t == DirectiveSpace, true)
  }

  /**
   * The datum after SPACE or CONST in a data section after the code goes
   * straight into the image (create_anonymous_data_dataafter,
   * handle_state_data_create_dataafter): after a SPACE, as SpaceAfterCode
   * describes; a CONST must be followed on its line by its value
   * (ConstAfterCode).
   */
  function DataAfter(s: seq<char>, a: Asm, space: bool): (r: Result<Asm>)
    requires Shaped(s, a)
    ensures Moves(s, a, r)
    ensures r.Ok? ==> (r.value.state == DataStatementAfter && r.value.b.symtab == a.b.symtab
      && r.value.b.addrOf == a.b.addrOf && a.b.size < r.value.b.size)
    ensures space ==> r == SpaceAfterCode(s, a)
    ensures !space && LineDone(s, a.sc) ==> r == Fail(a, InvalidStatement)
    ensures !space && !LineDone(s, a.sc) ==> r == ConstAfterCode(s, a.(sc := Ahead(s, a.sc), state := DataStatementAfter))
  {
    if space then SpaceAfterCode(s, a)
    else if LineDone(s, a.sc) then Fail(a, InvalidStatement)
    else ConstAfterCode(s, a.(sc := Ahead(s, a.sc), state := DataStatementAfter))
  }

  /**
   * The datum after a SPACE in a data section after the code: with nothing
   * more on its line, or at the end of the file, a variable, one zero
   * word; followed by a size, an array (ArrayAfterCode).
   */
  function SpaceAfterCode(s: seq<char>, a: Asm): (r: Result<Asm>)
    requires Shaped(s, a)
    ensures Moves(s, a, r)
    ensures r.Ok? ==> (r.value == a.(sc := r.value.sc, b := r.value.b, state := DataStatementAfter)
      && r.value.b.symtab == a.b.symtab && r.value.b.addrOf == a.b.addrOf && a.b.size < r.value.b.size)
    ensures LineDone(s, a.sc) ==>
      (r.Ok? <==> a.b.size < MemoryWords) && (r.Ok? ==> Grown(a.b, r.value.b, 1, 0))
    ensures !LineDone(s, a.sc) ==> r == ArrayAfterCode(s, a.(sc := Ahead(s, a.sc), state := DataStatementAfter))
  {
    var a1 := a.(sc := Ahead(s, a.sc), state := DataStatementAfter);
    if LineDone(s, a.sc) then Put(a1, 0) else ArrayAfterCode(s, a1)
  }

  /**
   * The value after CONST, after the code: a constant in the range a word
   * holds becomes the next word of the image.
   */
  function ConstAfterCode(s: seq<char>, a: Asm): (r: Result<Asm>)
    requires Shaped(s, a)
    ensures Moves(s, a, r)
    ensures r.Ok? <==> ConstantAt(s, a.sc).Got? && a.b.size < MemoryWords
    ensures r.Err? ==> r == Fail(a, if ConstantAt(s, a.sc).Got? then CodeOverflow else InvalidConstant)
    ensures r.Ok? ==> (r.value == a.(sc := ConstantAt(s, a.sc).sc, b := r.value.b)
      && Grown(a.b, r.value.b, 1, ConstWord(ConstantAt(s, a.sc).value)))
  {
    match ConstantAt(s, a.sc)
    case Fault(k) => Fail(a, k)
    case Got(i, sc2) => Put(a.(sc := sc2), ConstWord(i))
  }

  /** The size after SPACE, after the code: that many zero words go into the image, all of which must fit. */
  function ArrayAfterCode(s: seq<char>, a: Asm): (r: Result<Asm>)
    requires Shaped(s, a)
    ensures Moves(s, a, r)
    ensures r.Ok? <==> SizeAt(s, a.sc, a.b.size).Got?
    ensures r.Err? ==> r == Fail(a, SizeAt(s, a.sc, a.b.size).kind)
    ensures r.Ok? ==> (r.value == a.(sc := SizeAt(s, a.sc, a.b.size).sc, b := r.value.b)
      && Grown(a.b, r.value.b, SizeAt(s, a.sc, a.b.size).value, 0))
  {
    match SizeAt(s, a.sc, a.b.size)
    case Fault(k) => Fail(a, k)
    case Got(n, sc2) => Ok(a.(sc := sc2, b := Fill(a.b, n)))
  }

  /**
   * A statement of a data section after the code must start on a new
   * line; its first word is then handled as DataStatementAfterWord
   * describes.
   */
  function HandleDataStatementAfter(s: seq<char>, a: Asm): (r: Result<Asm>)
    requires Shaped(s, a)
    ensures Moves(s, a, r)
    ensures !a.sc.changedLine ==> r == Fail(a, InvalidStatement)
    ensures Opening(s, a).Ok? ==> r == DataStatementAfterWord(s, Opening(s, a).value.0, Opening(s, a).value.1)
  {
    match Opening(s, a)
    case Err(e) => Err(e)
    case Ok((a1, created)) => DataStatementAfterWord(s, a1, created)
  }

  /**
   * The first word of a statement of a data section after the code, just
   * looked up (new when created). With the image full nothing more may be
   * declared; a new name is a label whose colon must follow; a variable or
   * array the code used and that is not yet defined is defined here; SPACE
   * or CONST opens anonymous data; SECTION may not start a third section;
   * another keyword may not name data, and any other symbol is a
   * redefinition.
   */
  function DataStatementAfterWord(s: seq<char>, a: Asm, created: bool): (r: Result<Asm>)
    requires Shaped(s, a) && a.current in a.b.symtab
    ensures Moves(s, a, r)
    ensures a.b.size == MemoryWords ==> r == Fail(a, MemoryOverflow)
    ensures a.b.size < MemoryWords && created ==> r == Mark(s, a, ':', DataCreateAfter)
    ensures (a.b.size < MemoryWords && !created
      && (a.b.symtab[a.current].kind == AddressVar || a.b.symtab[a.current].kind == AddressArray)) ==>
      r == (if a.b.symtab[a.current].refs == [] then Fail(a, Redefinition)
            else Mark(s, a, ':', if a.b.symtab[a.current].kind == AddressVar then DefineVarConst else DefineArray))
    ensures (a.b.size < MemoryWords && !created
      && (a.b.symtab[a.current].kind == DirectiveSpace || a.b.symtab[a.current].kind == DirectiveConst)) ==>
      r == DataAfter(s, a, a.b.symtab[a.current].kind == DirectiveSpace)
    ensures a.b.size < MemoryWords && !created && a.b.symtab[a.current].kind == DirectiveSection ==>
      r == Fail(a, BothSectionsStarted)
    ensures (a.b.size < MemoryWords && !created
      && (a.b.symtab[a.current].kind == DirectiveSectionType || IsInstruction(a.b.symtab[a.current].kind))) ==>
      r == Fail(a, DataWithKeyword)
    ensures (a.b.size < MemoryWords && !created
      && (a.b.symtab[a.current].kind == AddressText || a.b.symtab[a.current].kind == AddressConst)) ==>
      r == Fail(a, Redefinition)
  {
    var sym := a.b.symtab[a.current];
    if a.b.size + 1 > MemoryWords then Fail(a, MemoryOverflow)
    else if created then Mark(s, a, ':', DataCreateAfter)
    else if sym.kind == AddressVar then
      if sym.refs != [] then Mark(s, a, ':', DefineVarConst) else Fail(a, Redefinition)
    else if sym.kind == AddressArray then
      if sym.refs != [] then Mark(s, a, ':', DefineArray) else Fail(a, Redefinition)
    else if sym.kind == DirectiveSpace || sym.kind == DirectiveConst then
      DataAfter(s, a, sym.kind == DirectiveSpace)
    else if sym.kind == DirectiveSection then Fail(a, BothSectionsStarted)
    else if Code(sym.kind) <= 6 then Fail(a, DataWithKeyword)
    else Fail(a, Redefinition)
  }

  /** The SPACE or CONST after a new, unused label of a data section after the code, on the label's line. */
  function HandleDataCreateAfter(s: seq<char>, a: Asm): (r: Result<Asm>)
    requires Shaped(s, a)
    ensures Moves(s, a, r)
    ensures a.sc.readLines > 0 || DataTypeStep(s, a.sc).Fault? ==> r == Fail(a, InvalidStatement)
    ensures a.sc.readLines == 0 && DataTypeStep(s, a.sc).Got? ==>
      r == DataAfter(s, a.(sc := DataTypeStep(s, a.sc).sc), DataTypeStep(s, a.sc).value == DirectiveSpace)
  {
    if a.sc.readLines > 0 then Fail(a, InvalidStatement)
    else
      match DataTypeStep(s, a.sc)
      case Fault(k) => Fail(a, k)
      case Got(t, sc1) => DataAfter(s, a.(sc := sc1), t == DirectiveSpace)
  }

  /**
   * r is a once the current symbol, a variable or constant the code used,
   * is defined as kind k holding w: it gets the next image word as its
   * address, and its references are drained.
   */
  predicate DefinedCell(a: Asm, r: Asm, k: Kind, w: uword)
    requires a.current in a.b.symtab
  {
    r.state == DataStatementAfter && |r.b.code| == MemoryWords && r.b.size == a.b.size + 1 <= MemoryWords
    && r.b.code[a.b.size] == w && r.b.addrOf == a.b.addrOf[a.current := a.b.size]
    && r.b.symtab == a.b.symtab[a.current := a.b.symtab[a.current].(kind := k, refs := [])]
  }

  /**
   * A variable or constant the code used gets the next image word: its
   * kind is set, its references are checked as check says and patched
   * with the address, and the word (zero, or the constant) is emitted. A
   * failed check is reported at the line of the offending reference.
   */
  function DefineCell(a: Asm, k: Kind, check: Check, w: uword): (r: Result<Asm>)
    requires |a.b.code| == MemoryWords && a.current in a.b.symtab
    ensures r.Ok? <==> PatchAll(a.b.code, a.b.symtab[a.current].refs, a.b.size, check).Ok? && a.b.size < MemoryWords
    ensures r.Err? && PatchAll(a.b.code, a.b.symtab[a.current].refs, a.b.size, check).Err? ==>
      r == Err(PatchAll(a.b.code, a.b.symtab[a.current].refs, a.b.size, check).error)
    ensures r.Err? && PatchAll(a.b.code, a.b.symtab[a.current].refs, a.b.size, check).Ok? ==> r == Fail(a, CodeOverflow)
    ensures r.Ok? ==> r.value == a.(b := r.value.b, state := DataStatementAfter) && DefinedCell(a, r.value, k, w)
  {
    var cur := a.current;
    var b1 := Define(a.b, cur, a.b.size);
    var b2 := SetSym(b1, cur, b1.symtab[cur].(kind := k));
    match Dump(b2, cur, check)
    case Err(e) => Err(e)
    case Ok(b3) => Then(Put(a.(b := b3), w), DataStatementAfter)
  }

  /** The SPACE or CONST of a variable or constant the code used, on the line of its label. */
  function HandleDefineVarConst(s: seq<char>, a: Asm): (r: Result<Asm>)
    requires Shaped(s, a) && a.current in a.b.symtab
    ensures Moves(s, a, r)
    ensures a.sc.readLines > 0 || DataTypeStep(s, a.sc).Fault? ==> r == Fail(a, InvalidStatement)
    ensures a.sc.readLines == 0 && DataTypeStep(s, a.sc).Got? ==>
      r == VarConstAfter(s, a.(sc := DataTypeStep(s, a.sc).sc), DataTypeStep(s, a.sc).value == DirectiveSpace)
  {
    if a.sc.readLines > 0 then Fail(a, InvalidStatement)
    else
      match DataTypeStep(s, a.sc)
      case Fault(k) => Fail(a, k)
      case Got(t, sc1) => VarConstAfter(s, a.(sc := sc1), t == DirectiveSpace)
  }

  /**
   * What follows the SPACE or CONST of a variable or constant the code
   * used: after a SPACE, as VariableDefinition describes; a CONST must be
   * followed on its line by its value, as ConstDefinition describes.
   */
  function VarConstAfter(s: seq<char>, a: Asm, space: bool): (r: Result<Asm>)
    requires Shaped(s, a) && a.current in a.b.symtab
    ensures Moves(s, a, r)
    ensures space ==> r == VariableDefinition(s, a)
    ensures !space && LineDone(s, a.sc) ==> r == Fail(a, InvalidStatement)
    ensures !space && !LineDone(s, a.sc) ==> r == ConstDefinition(s, a.(sc := Ahead(s, a.sc)))
  {
    if space then VariableDefinition(s, a)
    else if LineDone(s, a.sc) then Fail(a, InvalidStatement)
    else ConstDefinition(s, a.(sc := Ahead(s, a.sc)))
  }

  /**
   * What follows the SPACE of a variable the code used: nothing more on
   * its line (a size there is an unexpected array). The variable gets the
   * next image word, a zero.
   */
  function VariableDefinition(s: seq<char>, a: Asm): (r: Result<Asm>)
    requires Shaped(s, a) && a.current in a.b.symtab
    ensures Moves(s, a, r)
    ensures LineDone(s, a.sc) ==>
      (r.Ok? <==> a.b.size < MemoryWords) && (r.Ok? ==> DefinedCell(a, r.value, AddressVar, 0))
    ensures !LineDone(s, a.sc) ==> r == Fail(a, UnexpectedArray)
  {
    if LineDone(s, a.sc) then DefineCell(a.(sc := Ahead(s, a.sc)), AddressVar, Plain, 0)
    else Fail(a, UnexpectedArray)
  }

  /**
   * The value after CONST of a constant the code used: it must be in the
   * range a word holds. The constant gets the next image word, and its
   * references are checked against it: no instruction may write it, and
   * DIV may not divide by it when it is zero.
   */
  function ConstDefinition(s: seq<char>, a: Asm): (r: Result<Asm>)
    requires Shaped(s, a) && a.current in a.b.symtab
    ensures Moves(s, a, r)
    ensures ConstantAt(s, a.sc).Fault? ==> r == Fail(a, InvalidConstant)
    ensures ConstantAt(s, a.sc).Got? ==>
      (r.Ok? <==> (a.b.size < MemoryWords
        && PatchAll(a.b.code, a.b.symtab[a.current].refs, a.b.size, ConstantUse(ConstantAt(s, a.sc).value)).Ok?))
    ensures ConstantAt(s, a.sc).Got? ==>
      r == DefineCell(a.(sc := ConstantAt(s, a.sc).sc), AddressConst,
                      ConstantUse(ConstantAt(s, a.sc).value), ConstWord(ConstantAt(s, a.sc).value))
    ensures r.Ok? ==> DefinedCell(a, r.value, AddressConst, ConstWord(ConstantAt(s, a.sc).value))
  {
    match ConstantAt(s, a.sc)
    case Fault(k) => Fail(a, k)
    case Got(i, sc2) => DefineCell(a.(sc := sc2), AddressConst, ConstantUse(i), ConstWord(i))
  }

  /**
   * An array the code used gets n zero words at the end of the image: its
   * size is set, and its references are checked against it and patched;
   * an offset past the end is reported at the line of its reference.
   */
  function DefineBlock(a: Asm, n: nat): (r: Result<Asm>)
    requires |a.b.code| == MemoryWords && a.current in a.b.symtab && a.b.size + n <= MemoryWords
    ensures r.Ok? <==> forall j :: 0 <= j < |a.b.symtab[a.current].refs| ==> RefOffset(a.b.symtab[a.current].refs[j]) < U16(n)
    ensures r.Err? ==> (PatchAll(a.b.code, a.b.symtab[a.current].refs, a.b.size, ArrayBound(U16(n))).Err?
      && r == Err(PatchAll(a.b.code, a.b.symtab[a.current].refs, a.b.size, ArrayBound(U16(n))).error)
      && r.error.kind == InvalidArrayPosition)
    ensures r.Ok? ==> (r.value.state == DataStatementAfter && r.value.b.addrOf == a.b.addrOf[a.current := a.b.size]
      && r.value.b.size == a.b.size + n && |r.value.b.code| == MemoryWords
      && (forall k :: a.b.size <= k < a.b.size + n ==> r.value.b.code[k] == 0)
      && r.value.b.symtab == a.b.symtab[a.current := a.b.symtab[a.current].(size := U16(n), refs := [])])
  {
    var cur := a.current;
    var b1 := Define(a.b, cur, a.b.size);
    var b2 := SetSym(b1, cur, b1.symtab[cur].(size := U16(n)));
    PatchAllBound(a.b.code, a.b.symtab[cur].refs, a.b.size, U16(n));
    match Dump(b2, cur, ArrayBound(U16(n)))
    case Err(e) => Err(e)
    case Ok(b3) => Ok(a.(b := Fill(b3, n), state := DataStatementAfter))
  }

  /** The SPACE or CONST of an array the code used, on the line of its label. */
  function HandleDefineArray(s: seq<char>, a: Asm): (r: Result<Asm>)
    requires Shaped(s, a) && a.current in a.b.symtab
    ensures Moves(s, a, r)
    ensures a.sc.readLines > 0 || DataTypeStep(s, a.sc).Fault? ==> r == Fail(a, InvalidStatement)
    ensures a.sc.readLines == 0 && DataTypeStep(s, a.sc).Got? ==>
      r == ArrayAfter(s, a.(sc := DataTypeStep(s, a.sc).sc), DataTypeStep(s, a.sc).value == DirectiveSpace)
  {
    if a.sc.readLines > 0 then Fail(a, InvalidStatement)
    else
      match DataTypeStep(s, a.sc)
      case Fault(k) => Fail(a, k)
      case Got(t, sc1) => ArrayAfter(s, a.(sc := sc1), t == DirectiveSpace)
  }

  /**
   * What follows the SPACE or CONST of an array the code used: only a
   * SPACE followed on its line by a size will do. A CONST is an unexpected
   * constant, a SPACE alone an unexpected variable; the size is checked as
   * SizeAt describes, and the array is defined as DefineBlock describes.
   */
  function ArrayAfter(s: seq<char>, a: Asm, space: bool): (r: Result<Asm>)
    requires Shaped(s, a) && a.current in a.b.symtab
    ensures Moves(s, a, r)
    ensures !space ==> r == Fail(a, if CharStep(s, a.sc).0 then UnexpectedConstant else InvalidStatement)
    ensures space && LineDone(s, a.sc) ==> r == Fail(a, UnexpectedVariable)
    ensures space && !LineDone(s, a.sc) && SizeAt(s, Ahead(s, a.sc), a.b.size).Fault? ==>
      r == Fail(a, SizeAt(s, Ahead(s, a.sc), a.b.size).kind)
    ensures space && !LineDone(s, a.sc) && SizeAt(s, Ahead(s, a.sc), a.b.size).Got? ==>
      r == DefineBlock(a.(sc := SizeAt(s, Ahead(s, a.sc), a.b.size).sc), SizeAt(s, Ahead(s, a.sc), a.b.size).value)
  {
    if !space then Fail(a, if CharStep(s, a.sc).0 then UnexpectedConstant else InvalidStatement)
    else if LineDone(s, a.sc) then Fail(a, UnexpectedVariable)
    else
      match SizeAt(s, Ahead(s, a.sc), a.b.size)
      case Fault(k) => Fail(a, k)
      case Got(n, sc2) => DefineBlock(a.(sc := sc2), n)
  }

  /** The index of an array operand: its '+' or '[' must follow on the same line. */
  function ArrayOperand(s: seq<char>, a: Asm): (r: Got<int>)
    requires a.sc.pos <= |s|
    ensures r.Got? ==> a.sc.pos < r.sc.pos <= |s| && r.sc.statementLine == a.sc.statementLine
  {
    var (found, sc1) := CharStep(s, a.sc);
    if !found then Fault(InvalidArrayIndex)
    else if sc1.readLines > 0 then Fault(InvalidStatement)
    else IndexStep(s, sc1)
  }

  /** The address of the instruction whose operand is at p: one word back, two for COPY's second. */
  function InstrAddr(p: uword, second: bool): uword
  {
    U16(p - (if second then 2 else 1))
  }

  /** r's record of t is b's with kind k and one more reference, ref; no other record changes. */
  predicate Queued(b: Book, r: Book, t: string, k: Kind, ref: Ref)
    requires t in b.symtab
  {
    r.symtab == b.symtab[t := b.symtab[t].(kind := k, refs := b.symtab[t].refs + [ref])]
  }

  /** The next significant character is on the same line and is not a comma: an index follows the name. */
  predicate ArrayFollows(s: seq<char>, c: Scan)
    requires c.pos <= |s|
  {
    var (found, sc1) := CharStep(s, c);
    found && sc1.readLines == 0 && sc1.ch != ','
  }

  /** The next significant character is read and pushed back. */
  function Unread(s: seq<char>, a: Asm): (r: Asm)
    requires a.sc.pos <= |s|
    ensures r.sc.pos <= |s| && r == a.(sc := r.sc)
  {
    a.(sc := BackStep(CharStep(s, a.sc).1))
  }

  /**
   * TCASM_state_regular_create_ref_list: the first use of a symbol the
   * code has not seen, in a program whose data comes after the code. The
   * operand word is zeroed and queued; the symbol is listed, and becomes
   * an array when a '+' or '[' follows on the line, a variable otherwise.
   */
  function NewRefList(s: seq<char>, a: Asm): (r: Result<Asm>)
    requires Shaped(s, a) && a.current in a.b.symtab && a.sc.pos < |s|
    ensures Moves(s, a, r)
    ensures a.b.size >= MemoryWords ==> r == Fail(a, CodeOverflow)
    ensures r.Ok? ==> (r.value.b.size == a.b.size + 1 && r.value.b.addrOf == a.b.addrOf
      && r.value.b.reflist == a.b.reflist + [a.current]
      && r.value.b.code == a.b.code[a.b.size := 0]
      && r.value.b.symtab.Keys == a.b.symtab.Keys)
    ensures a.b.size < MemoryWords && !ArrayFollows(s, a.sc) ==> (r.Ok? &&
      Queued(a.b, r.value.b, a.current, AddressVar,
        VarConstRef(InstrAddr(a.b.size, a.secondOp), a.sc.statementLine, a.b.size)))
  {
    if a.b.size >= MemoryWords then Fail(a, CodeOverflow)
    else
      var cur := a.current;
      var p: uword := a.b.size;
      var b1 := ListRef(WriteAbove(a.b, p, 0), cur);
      var a1 := Unread(s, a).(b := b1);
      if !ArrayFollows(s, a.sc) then
        var ref := VarConstRef(InstrAddr(p, a.secondOp), a.sc.statementLine, p);
        Ok(a1.(b := Reserve(b1, cur, b1.symtab[cur].(kind := AddressVar), ref)))
      else FirstArrayUse(s, a1, a.sc.statementLine)
  }

  /**
   * The first use of a new symbol with an index after it: the symbol
   * becomes an array, queued with the index read after the push-back,
   * and the use fails exactly when no index can be read there.
   */
  lemma NewArrayUse(s: seq<char>, a: Asm)
    requires Shaped(s, a) && a.current in a.b.symtab && a.sc.pos < |s|
    requires a.b.size < MemoryWords && ArrayFollows(s, a.sc)
    ensures NewRefList(s, a).Ok? <==> ArrayOperand(s, Unread(s, a)).Got?
    ensures NewRefList(s, a).Err? ==> NewRefList(s, a) == Fail(a, ArrayOperand(s, Unread(s, a)).kind)
    ensures NewRefList(s, a).Ok? ==> Queued(a.b, NewRefList(s, a).value.b, a.current, AddressArray,
      ArrayRef(U16(ArrayOperand(s, Unread(s, a)).value), a.sc.statementLine, a.b.size))
  {
    var a1 := Unread(s, a).(b := ListRef(WriteAbove(a.b, a.b.size, 0), a.current));
    assert NewRefList(s, a) == FirstArrayUse(s, a1, a.sc.statementLine);
    assert ArrayOperand(s, a1) == ArrayOperand(s, Unread(s, a));
  }

  /** The first use of a new symbol followed by '+' or '[': it becomes an array, the reference has the index. */
  function FirstArrayUse(s: seq<char>, a: Asm, line: nat): (r: Result<Asm>)
    requires Shaped(s, a) && a.current in a.b.symtab && a.b.size < MemoryWords
    ensures Moves(s, a, r)
    ensures r.Ok? <==> ArrayOperand(s, a).Got?
    ensures r.Err? ==> r == Fail(a, ArrayOperand(s, a).kind)
    ensures r.Ok? ==> (r.value.b.size == a.b.size + 1 && r.value.b.addrOf == a.b.addrOf
      && r.value.b.reflist == a.b.reflist && r.value.b.code == a.b.code
      && Queued(a.b, r.value.b, a.current, AddressArray, ArrayRef(U16(ArrayOperand(s, a).value), line, a.b.size)))
  {
    match ArrayOperand(s, a)
    case Fault(k) => Fail(a, k)
    case Got(i, sc2) =>
      var ref := ArrayRef(U16(i), line, a.b.size);
      Ok(a.(sc := sc2, b := Reserve(a.b, a.current, a.b.symtab[a.current].(kind := AddressArray), ref)))
  }

  /** The current symbol's record gains the reference ref, to the operand word, which is taken. */
  function Requeue(a: Asm, ref: Ref): (r: Asm)
    requires a.current in a.b.symtab
    ensures r == a.(b := r.b) && r.b.size == a.b.size + 1 && r.b.addrOf == a.b.addrOf
    ensures r.b.reflist == a.b.reflist && r.b.code == a.b.code
    ensures Queued(a.b, r.b, a.current, a.b.symtab[a.current].kind, ref)
  {
    a.(b := Reserve(a.b, a.current, a.b.symtab[a.current], ref))
  }

  /**
   * TCASM_state_regular_add_ref: a further use of a data symbol; its
   * operand word is queued on the symbol's reference list. A variable's
   * reference records the instruction's address when the data come after
   * the code, a constant's only the operand word, and an array's the index
   * that follows the name; any other symbol only takes the word.
   */
  function AddRef(s: seq<char>, a: Asm): (r: Result<Asm>)
    requires Shaped(s, a) && a.current in a.b.symtab
    ensures Moves(s, a, r)
    ensures a.b.size >= MemoryWords ==> r == Fail(a, CodeOverflow)
    ensures r.Ok? ==> (r.value.b.size == a.b.size + 1 && r.value.b.addrOf == a.b.addrOf
      && r.value.b.reflist == a.b.reflist && r.value.b.code == a.b.code
      && r.value.b.symtab.Keys == a.b.symtab.Keys)
    ensures IsDataAddress(a.b.symtab[a.current].kind) ==>
      (r.Ok? <==> a.b.size < MemoryWords && (a.b.symtab[a.current].kind == AddressArray ==> ArrayOperand(s, a).Got?))
    ensures a.b.size < MemoryWords && a.b.symtab[a.current].kind == AddressVar ==> (r.Ok? &&
      Queued(a.b, r.value.b, a.current, AddressVar,
        if a.dataRead then AddrRef(a.sc.statementLine, a.b.size)
        else VarConstRef(InstrAddr(a.b.size, a.secondOp), a.sc.statementLine, a.b.size)))
    ensures a.b.size < MemoryWords && a.b.symtab[a.current].kind == AddressConst ==> (r.Ok? &&
      Queued(a.b, r.value.b, a.current, AddressConst, AddrRef(a.sc.statementLine, a.b.size)))
    ensures a.b.size < MemoryWords && a.b.symtab[a.current].kind == AddressArray ==> (
      (r.Err? ==> r == Fail(a, ArrayOperand(s, a).kind))
      && (r.Ok? ==> Queued(a.b, r.value.b, a.current, AddressArray,
        ArrayRef(U16(ArrayOperand(s, a).value), a.sc.statementLine, a.b.size))))
    ensures a.b.size < MemoryWords && !IsDataAddress(a.b.symtab[a.current].kind) ==> (r.Ok? &&
      r.value.b.symtab == a.b.symtab)
  {
    if a.b.size >= MemoryWords then Fail(a, CodeOverflow)
    else
      var cur := a.current;
      var sym := a.b.symtab[cur];
      var p: uword := a.b.size;
      var line := a.sc.statementLine;
      if sym.kind == AddressVar then
        var ref := if a.dataRead then AddrRef(line, p) else VarConstRef(InstrAddr(p, a.secondOp), line, p);
        Ok(Requeue(a, ref))
      else if sym.kind == AddressConst then Ok(Requeue(a, AddrRef(line, p)))
      else if sym.kind == AddressArray then ArrayUse(s, a)
      else Ok(a.(b := Bump(a.b, 1)))
  }

  /** A further use of an array: its bracketed offset is read and the operand word queued. */
  function ArrayUse(s: seq<char>, a: Asm): (r: Result<Asm>)
    requires Shaped(s, a) && a.current in a.b.symtab && a.b.size < MemoryWords
    ensures Moves(s, a, r)
    ensures r.Ok? <==> ArrayOperand(s, a).Got?
    ensures r.Err? ==> r == Fail(a, ArrayOperand(s, a).kind)
    ensures r.Ok? ==> (r.value.b.size == a.b.size + 1 && r.value.b.addrOf == a.b.addrOf
      && r.value.b.reflist == a.b.reflist && r.value.b.code == a.b.code
      && Queued(a.b, r.value.b, a.current, a.b.symtab[a.current].kind,
        ArrayRef(U16(ArrayOperand(s, a).value), a.sc.statementLine, a.b.size)))
  {
    var p: uword := a.b.size;
    match ArrayOperand(s, a)
    case Fault(k) => Fail(a, k)
    case Got(i, sc1) =>
      Ok(Requeue(a, ArrayRef(U16(i), a.sc.statementLine, p)).(sc := sc1))
  }

  /**
   * The operand of an instruction other than a jump, COPY or STOP must be
   * on the instruction's line; its symbol is then handled as
   * RegularOperand describes, and the statement ends.
   */
  function HandleRegular(s: seq<char>, a: Asm): (r: Result<Asm>)
    requires Shaped(s, a)
    ensures Moves(s, a, r)
    ensures r.Ok? ==> r.value.state == TextStatement && r.value.b.size == a.b.size + 1
    ensures a.sc.readLines > 0 ==> r == Fail(a, InvalidStatement)
    ensures Operand(s, a).Ok? ==> r == Then(RegularOperand(s, Operand(s, a).value.0, Operand(s, a).value.1), TextStatement)
  {
    match Operand(s, a)
    case Err(e) => Err(e)
    case Ok((a1, created)) => Then(RegularOperand(s, a1, created), TextStatement)
  }

  /**
   * The data symbol an instruction other than a jump, COPY or STOP names,
   * just looked up (new when created). A new name is a forward use when
   * the data comes after the code (NewRefList) and undefined data when it
   * came before; a keyword or a label is an invalid operand; INPUT and
   * STORE may not write a constant, and DIV may not divide by a constant
   * that is zero; any other use is queued (AddRef).
   */
  function RegularOperand(s: seq<char>, a: Asm, created: bool): (r: Result<Asm>)
    requires Shaped(s, a) && a.current in a.b.symtab && a.sc.pos < |s|
    ensures Moves(s, a, r)
    ensures r.Ok? ==> r.value.b.size == a.b.size + 1
    ensures created ==> r == (if a.dataRead then Fail(a, UndefinedData) else NewRefList(s, a))
    ensures !created && !IsDataAddress(a.b.symtab[a.current].kind) ==> r == Fail(a, InvalidOperand)
    ensures !created && a.b.symtab[a.current].kind == AddressConst && (a.opcode == OpInput || a.opcode == OpStore) ==>
      r == Fail(a, WriteToConstant)
    ensures !created && a.b.symtab[a.current].kind == AddressConst && a.opcode == OpDiv && a.b.symtab[a.current].value == 0 ==>
      r == Fail(a, DivisionByZeroConstant)
    ensures (!created && IsDataAddress(a.b.symtab[a.current].kind)
      && !(a.b.symtab[a.current].kind == AddressConst
           && (a.opcode == OpInput || a.opcode == OpStore || (a.opcode == OpDiv && a.b.symtab[a.current].value == 0)))) ==>
      r == AddRef(s, a)
  {
    var sym := a.b.symtab[a.current];
    if created then (if a.dataRead then Fail(a, UndefinedData) else NewRefList(s, a))
    else if !IsDataAddress(sym.kind) then Fail(a, InvalidOperand)
    else if sym.kind == AddressConst && (a.opcode == OpInput || a.opcode == OpStore) then Fail(a, WriteToConstant)
    else if sym.kind == AddressConst && a.opcode == OpDiv && sym.value == 0 then Fail(a, DivisionByZeroConstant)
    else AddRef(s, a)
  }

  /**
   * The operand word of a jump to label t at the end of the image: a new
   * or still undefined label is queued (a new one is listed first), a
   * defined one gives the address its record holds.
   */
  function LabelUse(b: Book, t: string, created: bool, line: nat): (r: Book)
    requires |b.code| == MemoryWords && b.size < MemoryWords && t in b.symtab
    ensures |r.code| == MemoryWords && r.size == b.size + 1 && r.addrOf == b.addrOf && r.datalist == b.datalist
    ensures r.symtab.Keys == b.symtab.Keys
    ensures created ==> (r.reflist == b.reflist + [t] && r.code == b.code
      && r.symtab == b.symtab[t := Zero.(kind := AddressText, refs := [AddrRef(line, b.size)])])
    ensures !created ==> r.reflist == b.reflist
    ensures !created && b.symtab[t].refs == [] ==> r.symtab == b.symtab && r.code == b.code[b.size := b.symtab[t].addr]
    ensures !created && b.symtab[t].refs != [] ==> r.code == b.code && Queued(b, r, t, b.symtab[t].kind, AddrRef(line, b.size))
  {
    var sym := b.symtab[t];
    if created then
      assert Zero.refs + [AddrRef(line, b.size)] == [AddrRef(line, b.size)];
      Reserve(ListRef(b, t), t, Zero.(kind := AddressText), AddrRef(line, b.size))
    else if sym.refs == [] then UseAddr(b, t, sym.addr)
    else Reserve(b, t, sym, AddrRef(line, b.size))
  }

  /**
   * The operand of a jump: a label. A label already defined gives its
   * address; a new or still undefined one is queued.
   */
  function HandleBranch(s: seq<char>, a: Asm): (r: Result<Asm>)
    requires Shaped(s, a)
    ensures Moves(s, a, r)
    ensures r.Ok? ==> r.value.state == TextStatement && r.value.b.size == a.b.size + 1
    ensures a.sc.readLines > 0 ==> r == Fail(a, InvalidStatement)
    ensures Operand(s, a).Ok? ==>
      var (a1, created) := Operand(s, a).value;
      (!created && a1.b.symtab[a1.current].kind != AddressText ==> r == Fail(a1, InvalidOperand))
      && ((created || a1.b.symtab[a1.current].kind == AddressText) && a1.b.size >= MemoryWords ==> r == Fail(a1, CodeOverflow))
      && ((created || a1.b.symtab[a1.current].kind == AddressText) && a1.b.size < MemoryWords ==>
            r == Ok(a1.(b := LabelUse(a1.b, a1.current, created, a1.sc.statementLine), state := TextStatement)))
  {
    match Operand(s, a)
    case Err(e) => Err(e)
    case Ok((a1, created)) =>
      var cur := a1.current;
      if !created && a1.b.symtab[cur].kind != AddressText then Fail(a1, InvalidOperand)
      else if a1.b.size >= MemoryWords then Fail(a1, CodeOverflow)
      else Ok(a1.(b := LabelUse(a1.b, cur, created, a1.sc.statementLine), state := TextStatement))
  }

  /**
   * A comma after COPY's first operand, when one is needed: it must follow
   * on the operand's line.
   */
  function Comma(s: seq<char>, r: Result<Asm>, needed: bool): (r': Result<Asm>)
    requires r.Ok? ==> r.value.sc.pos <= |s|
    ensures r'.Ok? ==> r.Ok? && r'.value == r.value.(sc := r'.value.sc) && r.value.sc.pos <= r'.value.sc.pos <= |s|
    ensures r.Err? || !needed ==> r' == r
    ensures r.Ok? && needed ==> (r'.Ok? <==> MarkStep(s, r.value.sc, ',').Got?)
    ensures r.Ok? && needed && r'.Err? ==> r' == Fail(r.value, InvalidStatement)
  {
    match r
    case Err(e) => Err(e)
    case Ok(a) => if needed then Mark(s, a, ',', a.state) else r
  }

  /**
   * An operand of COPY, whose second operand is the one written: the first
   * is followed by a comma, and after the second the statement ends.
   */
  function HandleCopy(s: seq<char>, a: Asm): (r: Result<Asm>)
    requires Shaped(s, a)
    ensures Moves(s, a, r)
    ensures r.Ok? ==> (r.value.b.size == a.b.size + 1 && r.value.secondOp == !a.secondOp
      && r.value.state == (if a.secondOp then TextStatement else a.state))
    ensures a.sc.readLines > 0 ==> r == Fail(a, InvalidStatement)
    ensures Operand(s, a).Ok? ==>
      var (a1, created) := Operand(s, a).value;
      (CopyOperand(s, a1, created).Err? ==> r == CopyOperand(s, a1, created))
      && (CopyOperand(s, a1, created).Ok? ==> (r.Ok? && r.value ==
            CopyOperand(s, a1, created).value.(secondOp := !a.secondOp, state := if a.secondOp then TextStatement else a.state)))
  {
    if Operand(s, a).Err? then Err(Operand(s, a).error)
    else
      var (a1, created) := Operand(s, a).value;
      if CopyOperand(s, a1, created).Err? then CopyOperand(s, a1, created)
      else Ok(CopyOperand(s, a1, created).value.(secondOp := !a.secondOp, state := if a.secondOp then TextStatement else a.state))
  }

  /**
   * The operand word of COPY for the symbol just looked up (new when
   * created): as for other instructions, except that only the second
   * operand is written, so only it may not be a constant, and the first
   * is followed by a comma.
   */
  function CopyOperand(s: seq<char>, a: Asm, created: bool): (r: Result<Asm>)
    requires Shaped(s, a) && a.current in a.b.symtab && a.sc.pos < |s|
    ensures Moves(s, a, r)
    ensures r.Ok? ==> r.value.b.size == a.b.size + 1 && r.value.secondOp == a.secondOp && r.value.state == a.state
    ensures created ==> r == (if a.dataRead then Fail(a, UndefinedData) else Comma(s, NewRefList(s, a), !a.secondOp))
    ensures !created && !IsDataAddress(a.b.symtab[a.current].kind) ==> r == Fail(a, InvalidOperand)
    ensures !created && a.secondOp && a.b.symtab[a.current].kind == AddressConst ==> r == Fail(a, WriteToConstant)
    ensures !created && IsDataAddress(a.b.symtab[a.current].kind) && !(a.secondOp && a.b.symtab[a.current].kind == AddressConst) ==>
      r == Comma(s, AddRef(s, a), !a.secondOp)
  {
    var sym := a.b.symtab[a.current];
    if created then
      if a.dataRead then Fail(a, UndefinedData) else Comma(s, NewRefList(s, a), !a.secondOp)
    else if !IsDataAddress(sym.kind) then Fail(a, InvalidOperand)
    else if a.secondOp && sym.kind == AddressConst then Fail(a, WriteToConstant)
    else Comma(s, AddRef(s, a), !a.secondOp)
  }

  /** The handler of the current state (the switch of TCASM_read_file). */
  function Handle(s: seq<char>, a: Asm): (r: Result<Asm>)
    requires Shaped(s, a)
    ensures Moves(s, a, r)
  {
    match a.state
    case Section => HandleSection(s, a)
    case SectionType => HandleSectionType(s, a)
    case TextStatement => HandleTextStatement(s, a)
    case DataStatementBefore => HandleDataStatementBefore(s, a)
    case DataStatementAfter => HandleDataStatementAfter(s, a)
    case Text => HandleText(s, a)
    case DataCreateBefore => HandleDataCreateBefore(s, a)
    case DataCreateAfter => HandleDataCreateAfter(s, a)
    case DefineVarConst => HandleDefineVarConst(s, a)
    case DefineArray => HandleDefineArray(s, a)
    case Regular => HandleRegular(s, a)
    case Branch => HandleBranch(s, a)
    case Copy => HandleCopy(s, a)
  }

  /**
   * The loop of TCASM_read_file: read the next significant character and
   * hand it to the current state's handler, until the file ends. Each round
   * consumes at least that character.
   */
  function Run(s: seq<char>, a: Asm): (r: Result<Asm>)
    requires Shaped(s, a)
    ensures r.Ok? ==> Shaped(s, r.value) && r.value.sc.pos == |s|
    decreases |s| - a.sc.pos
  {
    var (found, sc1) := CharStep(s, a.sc);
    if !found then Ok(a.(sc := sc1))
    else
      match Handle(s, a.(sc := sc1))
      case Err(e) => Err(e)
      case Ok(a1) => Run(s, a1)
  }

  // ---------------------------------------------------------------------
  // The end of the pass.

  /**
   * The array size a dump of an array declared before the code checks the
   * offsets against: the array's own size, or a size read off another record.
   */
  datatype Bound = OwnSize | Overlaid(size: uword)


  /** Whether data item names a data symbol of the table. */
  predicate IsNamedItem(symtab: map<string, Symbol>, item: DataItem)
  {
    item.Named? && item.name in symtab && IsDataAddress(symtab[item.name].kind)
  }

  /** The record a data item stands for: the named symbol's, the anonymous cell's, or a zero record. */
  function ItemSymbol(symtab: map<string, Symbol>, item: DataItem): Symbol
  {
    if IsNamedItem(symtab, item) then symtab[item.name] else if item.Anonymous? then item.item else Zero
  }

  /** The word each cell of a data item holds once placed: a constant's value, zero otherwise. */
  function CellWord(sym: Symbol): uword
  {
    if sym.kind == AddressConst then sym.value else 0
  }

  /** The image words data items take together. */
  function DataWords(symtab: map<string, Symbol>, items: seq<DataItem>): nat
    decreases |items|
  {
    if items == [] then 0 else CellsOf(ItemSymbol(symtab, items[0])) + DataWords(symtab, items[1..])
  }

  /** The words data items are placed as, one item after another in declaration order. */
  function DataImage(symtab: map<string, Symbol>, items: seq<DataItem>): (r: seq<uword>)
    ensures |r| == DataWords(symtab, items)
    decreases |items|
  {
    if items == [] then []
    else
      var sym := ItemSymbol(symtab, items[0]);
      seq(CellsOf(sym), _ => CellWord(sym)) + DataImage(symtab, items[1..])
  }

  /** The array size a placed array's references are checked against. */
  function BoundSize(sym: Symbol, bound: Bound): uword
  {
    if bound.OwnSize? then sym.size else bound.size
  }

  /**
   * One data item declared before the code is placed at the end of the
   * image (a turn of the loop of TCASM_dump_datalist): a variable gets a
   * zero word, a constant its word, an array its zero words, and an item
   * that does not fit is a code overflow. A named item gets the old image
   * size as its address and its references are patched; an array's are
   * first checked against the bound.
   */
  function Place(b: Book, item: DataItem, bound: Bound, line: nat): (r: Result<Book>)
    requires |b.code| == MemoryWords && b.size <= MemoryWords
    ensures r.Ok? ==> (|r.value.code| == MemoryWords && b.size <= r.value.size <= MemoryWords
      && r.value.datalist == b.datalist && r.value.reflist == b.reflist && r.value.uses == b.uses)
    ensures b.size + CellsOf(ItemSymbol(b.symtab, item)) > MemoryWords ==> r == Err(At(CodeOverflow, line))
    ensures !IsNamedItem(b.symtab, item) ==> (r.Ok? <==> b.size + CellsOf(ItemSymbol(b.symtab, item)) <= MemoryWords)
    ensures IsNamedItem(b.symtab, item) && b.size + CellsOf(ItemSymbol(b.symtab, item)) <= MemoryWords ==>
      (r.Ok? <==> (b.symtab[item.name].kind == AddressArray ==>
        forall j :: 0 <= j < |b.symtab[item.name].refs| ==>
          RefOffset(b.symtab[item.name].refs[j]) < BoundSize(b.symtab[item.name], bound)))
    ensures r.Ok? ==> r.value.size == b.size + CellsOf(ItemSymbol(b.symtab, item))
    ensures r.Ok? ==> r.value.addrOf == (if IsNamedItem(b.symtab, item) then b.addrOf[item.name := b.size] else b.addrOf)
    ensures r.Ok? ==> (r.value.symtab ==
      (if IsNamedItem(b.symtab, item) then b.symtab[item.name := b.symtab[item.name].(refs := [])] else b.symtab))
  {
    var named := IsNamedItem(b.symtab, item);
    var sym := ItemSymbol(b.symtab, item);
    var n := CellsOf(sym);
    if b.size + n > MemoryWords then Err(At(CodeOverflow, line))
    else
      var b1 := if named then Define(b, item.name, b.size) else b;
      var b2 := Cells(b1, sym);
      if named then
        if sym.kind != AddressArray then Dump(b2, item.name, Plain)
        else
          PatchAllBound(b2.code, sym.refs, b.size, BoundSize(sym, bound));
          Dump(b2, item.name, ArrayBound(BoundSize(sym, bound)))
      else Ok(b2)
  }

  /** The words of a data item, written at the end of the image: a zero variable, a constant, zero array words. */
  function Cells(b: Book, sym: Symbol): (r: Book)
    requires b.size + CellsOf(sym) <= |b.code|
    ensures Grown(b, r, CellsOf(sym), CellWord(sym))
  {
    if sym.kind == AddressVar then Emit(b, 0)
    else if sym.kind == AddressConst then Emit(b, sym.value)
    else Fill(b, CellsOf(sym))
  }

  /**
   * Placing an item leaves every word from lo on alone, except its own
   * cells, when all pending references lie below lo.
   */
  lemma PlaceImage(b: Book, item: DataItem, bound: Bound, line: nat, lo: nat)
    requires |b.code| == MemoryWords && b.size <= MemoryWords && lo <= b.size
    requires RefsBelow(b.symtab, lo) && Place(b, item, bound, line).Ok?
    ensures forall k :: lo <= k < MemoryWords ==> (Place(b, item, bound, line).value.code[k] ==
      if b.size <= k < b.size + CellsOf(ItemSymbol(b.symtab, item)) then CellWord(ItemSymbol(b.symtab, item)) else b.code[k])
  {
    var sym := ItemSymbol(b.symtab, item);
    if IsNamedItem(b.symtab, item) {
      var b2 := Cells(Define(b, item.name, b.size), sym);
      var check := if sym.kind != AddressArray then Plain else ArrayBound(BoundSize(sym, bound));
      PatchAllAbove(b2.code, sym.refs, b.size, check, lo);
    }
  }

  /** TCASM_dump_datalist: the data items are placed in declaration order. */
  function Flush(b: Book, bound: Bound, line: nat): (r: Result<Book>)
    requires |b.code| == MemoryWords && b.size <= MemoryWords
    ensures r.Ok? ==> (|r.value.code| == MemoryWords && b.size <= r.value.size <= MemoryWords
      && r.value.datalist == [] && r.value.reflist == b.reflist && r.value.uses == b.uses)
    ensures r.Ok? ==> r.value.size == b.size + DataWords(b.symtab, b.datalist)
    decreases |b.datalist|
  {
    if b.datalist == [] then Ok(b)
    else
      match Place(DropData(b), b.datalist[0], bound, line)
      case Err(e) => Err(e)
      case Ok(b1) =>
        ClearedItems(b.symtab, b.datalist[0], b.datalist[1..]);
        Flush(b1, bound, line)
  }

  /** Emptying the references of a named item changes no item's cells. */
  lemma ClearedItems(symtab: map<string, Symbol>, item: DataItem, items: seq<DataItem>)
    ensures IsNamedItem(symtab, item) ==>
      DataWords(symtab[item.name := symtab[item.name].(refs := [])], items) == DataWords(symtab, items)
      && DataImage(symtab[item.name := symtab[item.name].(refs := [])], items) == DataImage(symtab, items)
    decreases |items|
  {
    if items != [] {
      ClearedItems(symtab, item, items[1..]);
    }
  }

  /**
   * The data placed by a dump, from lo on: the items' words in declaration
   * order after the old end of the image, the rest untouched, when all
   * pending references lie below lo.
   */
  lemma {:induction false} FlushImage(b: Book, bound: Bound, line: nat, lo: nat)
    requires |b.code| == MemoryWords && b.size <= MemoryWords && lo <= b.size
    requires RefsBelow(b.symtab, lo) && Flush(b, bound, line).Ok?
    ensures forall k :: lo <= k < MemoryWords ==> (Flush(b, bound, line).value.code[k] ==
      if b.size <= k < Flush(b, bound, line).value.size then DataImage(b.symtab, b.datalist)[k - b.size] else b.code[k])
    decreases |b.datalist|
  {
    if b.datalist != [] {
      var item, rest := b.datalist[0], b.datalist[1..];
      var sym := ItemSymbol(b.symtab, item);
      var b1 := Place(DropData(b), item, bound, line).value;
      var r := Flush(b, bound, line).value;
      assert r == Flush(b1, bound, line).value;
      PlaceImage(DropData(b), item, bound, line, lo);
      ClearedItems(b.symtab, item, rest);
      FlushImage(b1, bound, line, lo);
      assert DataImage(b1.symtab, rest) == DataImage(b.symtab, rest);
      assert DataImage(b.symtab, b.datalist) == seq(CellsOf(sym), _ => CellWord(sym)) + DataImage(b.symtab, rest);
      forall k | lo <= k < MemoryWords
        ensures r.code[k] == if b.size <= k < r.size then DataImage(b.symtab, b.datalist)[k - b.size] else b.code[k]
      {
        if b.size <= k < b1.size {
          assert r.code[k] == b1.code[k] == CellWord(sym);
        }
      }
    }
  }

  /** The i-th listed symbol still has pending references: the end of the pass reports it undefined. */
  predicate Stuck(b: Book, i: nat)
    requires i < |b.reflist|
  {
    b.reflist[i] in b.symtab && b.symtab[b.reflist[i]].refs != [] && UndefinedError(b.symtab[b.reflist[i]].kind).Some?
  }

  /**
   * TCASM_dump_reflist_databefore and TCASM_dump_reflist_dataafter: the
   * first listed symbol, from index i on, that still has a pending
   * reference is reported, at the line of that reference.
   */
  function Pending(b: Book, i: nat): (r: Option<AsmError>)
    requires i <= |b.reflist|
    ensures r.None? <==> forall j :: i <= j < |b.reflist| ==> !Stuck(b, j)
    ensures r.Some? ==> exists j :: (i <= j < |b.reflist| && Stuck(b, j) && (forall k :: i <= k < j ==> !Stuck(b, k))
      && r.value == At(UndefinedError(b.symtab[b.reflist[j]].kind).value, b.symtab[b.reflist[j]].refs[0].line))
    decreases |b.reflist| - i
  {
    if i == |b.reflist| then None
    else
      var t := b.reflist[i];
      if t in b.symtab && b.symtab[t].refs != [] && UndefinedError(b.symtab[t].kind).Some? then
        assert Stuck(b, i);
        Some(At(UndefinedError(b.symtab[t].kind).value, b.symtab[t].refs[0].line))
      else Pending(b, i + 1)
  }

  /**
   * The bookkeeping once the data declared before the code is placed
   * after it, which happens when the pass ends in the code of a program
   * whose data came first.
   */
  function DataPlaced(a: Asm, bound: Bound): (r: Result<Book>)
    requires |a.b.code| == MemoryWords && a.b.size <= MemoryWords
  {
    if a.dataRead && a.state == TextStatement then Flush(a.b, bound, a.sc.statementLine) else Ok(a.b)
  }

  /**
   * The checks after the loop: some code must have been assembled, and
   * the last statement must be complete; the data declared before the
   * code is placed, and no listed symbol may be left undefined.
   */
  function Finish(a: Asm, bound: Bound): (r: Result<Book>)
    requires |a.b.code| == MemoryWords && a.b.size <= MemoryWords
    ensures r.Ok? ==> |r.value.code| == MemoryWords && 0 < r.value.size <= MemoryWords
    ensures a.state == Section || a.state == DataStatementBefore || a.b.size == 0 ==> r == Err(NoInstructions)
    ensures r.Ok? ==> (a.state == TextStatement || a.state == DataStatementAfter) && 0 < a.b.size
    ensures (!(a.state == Section || a.state == DataStatementBefore || a.b.size == 0)
      && a.state != TextStatement && a.state != DataStatementAfter) ==> r == Err(At(InvalidStatement, a.sc.statementLine))
    ensures (0 < a.b.size && (a.state == TextStatement || a.state == DataStatementAfter)
      && DataPlaced(a, bound).Err?) ==> r == DataPlaced(a, bound)
    ensures (0 < a.b.size && (a.state == TextStatement || a.state == DataStatementAfter)
      && DataPlaced(a, bound).Ok?) ==>
      r == (if Pending(DataPlaced(a, bound).value, 0).Some? then Err(Pending(DataPlaced(a, bound).value, 0).value)
            else DataPlaced(a, bound))
    ensures r.Ok? ==> Pending(r.value, 0).None?
  {
    if a.state == Section || a.state == DataStatementBefore || a.b.size == 0 then Err(NoInstructions)
    else if a.state != TextStatement && a.state != DataStatementAfter then Err(At(InvalidStatement, a.sc.statementLine))
    else
      match DataPlaced(a, bound)
      case Err(e) => Err(e)
      case Ok(b) => if Pending(b, 0).Some? then Err(Pending(b, 0).value) else Ok(b)
  }

  /** The globals as TCASM_assemble sets them up: the keyword table, empty lists, line 1. */
  function Start(): (a: Asm)
    ensures a.state == Section && a.b.size == 0 && a.b.symtab == KeywordTable
  {
    Asm(Scan(0, 0 as char, 1, 0, 0, 0, false, []),
        Book(seq(MemoryWords, _ => 0), 0, KeywordTable, [], [], map[], map[]),
        0, false, false, Section, [], 0, false)
  }

  /** The pass over source text s, and the bookkeeping it ends with. */
  function AssembleWith(s: seq<char>, bound: Bound): (r: Result<Book>)
    ensures r.Ok? ==> |r.value.code| == MemoryWords && 0 < r.value.size <= MemoryWords
  {
    match Run(s, Start())
    case Err(e) => Err(e)
    case Ok(a) => Finish(a, bound)
  }

  /** TCASM_read_file: the image assembled from source text s, or the error. */
  function Assemble(s: seq<char>): (r: Result<seq<uword>>)
    ensures r.Ok? ==> 0 < |r.value| <= MemoryWords
    ensures r.Ok? <==> AssembleWith(s, OwnSize).Ok?
  {
    match AssembleWith(s, OwnSize)
    case Err(e) => Err(e)
    case Ok(b) => Ok(b.code[..b.size])
  }
}
