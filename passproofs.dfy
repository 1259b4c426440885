// What the single pass guarantees: every step of the state machine keeps
// the resolution invariant of Resolution together with the facts about the
// mode of the pass that the handlers rely on, so that a run that ends
// without error leaves every operand word holding the address of the symbol
// it names (plus the array offset).
module PassProofs {
  import opened Common
  import opened Symbols
  import opened Errors
  import opened Scanning
  import opened Keywords
  import opened Resolution
  import opened Assembling

  /** Outside a data section after the code, only labels have addresses. */
  predicate TextOnly(b: Book)
  {
    forall t :: t in b.addrOf ==> t in b.symtab && b.symtab[t].kind == AddressText
  }

  /** The facts about the mode of the pass that the handlers rely on. */
  predicate Modes(a: Asm)
  {
    (a.b.datalist != [] ==> a.dataRead)
    && ((a.state == DataStatementBefore || a.state == DataCreateBefore) ==> a.dataRead)
    && (AfterCode(a.state) ==> a.b.datalist == [])
    && (!AfterCode(a.state) ==> TextOnly(a.b))
    && ((a.state == DataCreateBefore || a.state == DataCreateAfter) ==>
          a.current in a.b.symtab && a.b.symtab[a.current] == Zero && a.current !in a.b.addrOf)
    && (a.state == DefineVarConst ==>
          a.current in a.b.symtab && a.b.symtab[a.current].kind == AddressVar && a.b.symtab[a.current].refs != [])
    && (a.state == DefineArray ==>
          a.current in a.b.symtab && a.b.symtab[a.current].kind == AddressArray && a.b.symtab[a.current].refs != [])
  }

  /** The invariant of the pass between two characters. */
  predicate Good(s: seq<char>, a: Asm)
  {
    Shaped(s, a) && Sound(a.b) && Modes(a)
  }

  /** The pass starts in a good state. */
  lemma StartGood(s: seq<char>)
    ensures Good(s, Start())
  {
    KeywordRecords();
    KeywordKinds();
    StartSound(seq(MemoryWords, _ => 0), KeywordTable);
  }

  /** A lookup in a state that does not work on the current record keeps the invariant. */
  lemma FetchGood(s: seq<char>, a: Asm, sc: Scan, w: string)
    requires Good(s, a) && !OnCurrent(a.state) && sc.pos <= |s|
    ensures Good(s, Fetch(a.(sc := sc), w))
    ensures w !in a.b.symtab ==> Fetch(a.(sc := sc), w).b.symtab[w] == Zero && w !in a.b.addrOf
  {
    if w !in a.b.symtab {
      LookupKeeps(a.b, None, w);
    }
  }

  // ---------------------------------------------------------------------
  // The sections and the statements of the code.

  lemma SectionKeeps(s: seq<char>, a: Asm)
    requires Good(s, a) && a.state == Section && HandleSection(s, a).Ok?
    ensures Good(s, HandleSection(s, a).value)
  {
  }

  lemma SectionTypeKeeps(s: seq<char>, a: Asm)
    requires Good(s, a) && a.state == SectionType && HandleSectionType(s, a).Ok?
    ensures Good(s, HandleSectionType(s, a).value)
  {
  }

  /** A label gets its address: the invariant holds again, and only labels have addresses still. */
  lemma DefineLabelKeeps(a: Asm, w: string)
    requires |a.b.code| == MemoryWords && Sound(a.b) && TextOnly(a.b)
    requires w in a.b.symtab && w !in a.b.addrOf && !IsDataAddress(a.b.symtab[w].kind)
    ensures Sound(DefineLabel(a, w).value.b) && TextOnly(DefineLabel(a, w).value.b)
  {
    var b1 := Define(a.b, w, a.b.size);
    Relax(a.b, w);
    DefineKeeps(a.b, w, a.b.size);
    var sym := b1.symtab[w].(kind := AddressText, addr := U16(a.b.size));
    SetSymKeeps(b1, Some(w), w, sym);
    DumpKeeps(SetSym(b1, w, sym), w, Plain);
  }

  /** A label defined at the start of a statement keeps the invariant. */
  lemma LabelKeeps(s: seq<char>, a: Asm, w: string)
    requires Good(s, a) && !AfterCode(a.state) && |a.b.code| == MemoryWords
    requires w in a.b.symtab && w !in a.b.addrOf && !IsDataAddress(a.b.symtab[w].kind)
    ensures Good(s, DefineLabel(a, w).value)
  {
    DefineLabelKeeps(a, w);
    var r := DefineLabel(a, w).value;
    assert r == a.(b := r.b, state := Text);
  }

  /** An opcode emitted for an instruction keeps the invariant. */
  lemma DecodeKeeps(s: seq<char>, a: Asm)
    requires Good(s, a) && !AfterCode(a.state) && a.current in a.b.symtab && Decode(a).Ok?
    ensures Good(s, Decode(a).value)
  {
    EmitKeeps(a.b, None, a.b.symtab[a.current].opcode);
  }

  /** The first word of a statement of the code keeps the invariant. */
  lemma TextStatementWordKeeps(s: seq<char>, a: Asm, created: bool)
    requires Good(s, a) && a.state == TextStatement && a.current in a.b.symtab
    requires created ==> a.b.symtab[a.current] == Zero && a.current !in a.b.addrOf
    requires TextStatementWord(s, a, created).Ok?
    ensures Good(s, TextStatementWord(s, a, created).value)
  {
    var sym := a.b.symtab[a.current];
    if created || sym.kind == AddressText {
      LabelWordKeeps(s, a, created);
    } else if IsInstruction(sym.kind) {
      DecodeKeeps(s, a);
    }
  }

  /** A label opening a statement of the code keeps the invariant. */
  lemma LabelWordKeeps(s: seq<char>, a: Asm, created: bool)
    requires Good(s, a) && a.state == TextStatement && a.current in a.b.symtab
    requires created ==> a.b.symtab[a.current] == Zero && a.current !in a.b.addrOf
    requires created || a.b.symtab[a.current].kind == AddressText
    requires TextStatementWord(s, a, created).Ok?
    ensures Good(s, TextStatementWord(s, a, created).value)
  {
    var sc1 := MarkStep(s, a.sc, ':').sc;
    if !created {
      assert a.b.symtab[a.current].refs != [];
      assert a.current !in a.b.addrOf;
    }
    LabelKeeps(s, a.(sc := sc1), a.current);
    assert TextStatementWord(s, a, created) == DefineLabel(a.(sc := sc1), a.current);
  }

  lemma TextStatementKeeps(s: seq<char>, a: Asm)
    requires Good(s, a) && a.state == TextStatement && HandleTextStatement(s, a).Ok?
    ensures Good(s, HandleTextStatement(s, a).value)
  {
    var (a1, created) := Opening(s, a).value;
    FetchGood(s, a, a1.sc, a1.current);
    TextStatementWordKeeps(s, a1, created);
  }

  lemma TextKeeps(s: seq<char>, a: Asm)
    requires Good(s, a) && a.state == Text && HandleText(s, a).Ok?
    ensures Good(s, HandleText(s, a).value)
  {
    var (a1, _) := Operand(s, a).value;
    FetchGood(s, a, a1.sc, a1.current);
    DecodeKeeps(s, a1);
  }

  // ---------------------------------------------------------------------
  // The data sections.

  /** A declaration before the code keeps the book sound and the modes. */
  lemma DeclaredKeeps(s: seq<char>, a: Asm, sym: Symbol, n: nat, named: bool)
    requires Good(s, a) && (a.state == DataStatementBefore || a.state == DataCreateBefore) && a.current in a.b.symtab
    requires named ==> a.b.symtab[a.current] == Zero && a.current !in a.b.addrOf
    requires sym.refs == [] && IsDataAddress(sym.kind)
    ensures Sound(Declared(a, sym, n, named).b) && Modes(Declared(a, sym, n, named))
  {
    if named {
      DeclareKeeps(a.b, None, a.current, sym);
    } else {
      ListAnonymousKeeps(a.b, None, sym);
    }
  }

  lemma DataBeforeKeeps(s: seq<char>, a: Asm, space: bool, named: bool)
    requires Good(s, a) && (a.state == DataStatementBefore || a.state == DataCreateBefore)
    requires a.current in a.b.symtab && a.dataSize < MemoryWords
    requires named ==> a.b.symtab[a.current] == Zero && a.current !in a.b.addrOf
    requires DataBefore(s, a, space, named).Ok?
    ensures Good(s, DataBefore(s, a, space, named).value)
  {
    var (found, sc1) := CharStep(s, a.sc);
    var a1 := a.(sc := BackStep(sc1));
    if space && sc1.readLines > 0 {
      DeclaredKeeps(s, a1, Zero.(kind := AddressVar), 1, named);
    } else if space {
      ArrayBeforeKeeps(s, a1, named);
    } else {
      ConstBeforeKeeps(s, a1, named);
    }
  }

  lemma ConstBeforeKeeps(s: seq<char>, a: Asm, named: bool)
    requires Good(s, a) && (a.state == DataStatementBefore || a.state == DataCreateBefore)
    requires a.current in a.b.symtab && a.dataSize < MemoryWords
    requires named ==> a.b.symtab[a.current] == Zero && a.current !in a.b.addrOf
    requires ConstBefore(s, a, named).Ok?
    ensures Good(s, ConstBefore(s, a, named).value)
  {
    var (v, sc2) := IntStep(s, a.sc).value;
    DeclaredKeeps(s, a.(sc := sc2), Zero.(kind := AddressConst, value := ConstWord(Int32(v))), 1, named);
  }

  lemma ArrayBeforeKeeps(s: seq<char>, a: Asm, named: bool)
    requires Good(s, a) && (a.state == DataStatementBefore || a.state == DataCreateBefore)
    requires a.current in a.b.symtab && a.dataSize < MemoryWords
    requires named ==> a.b.symtab[a.current] == Zero && a.current !in a.b.addrOf
    requires ArrayBefore(s, a, named).Ok?
    ensures Good(s, ArrayBefore(s, a, named).value)
  {
    var (v, sc2) := IntStep(s, a.sc).value;
    var i := Int32(v);
    DeclaredKeeps(s, a.(sc := sc2), Zero.(kind := AddressArray, size := U16(i)), i as nat, named);
  }

  lemma DataStatementBeforeKeeps(s: seq<char>, a: Asm)
    requires Good(s, a) && a.state == DataStatementBefore && HandleDataStatementBefore(s, a).Ok?
    ensures Good(s, HandleDataStatementBefore(s, a).value)
  {
    var (a1, created) := Opening(s, a).value;
    FetchGood(s, a, a1.sc, a1.current);
    var sym := a1.b.symtab[a1.current];
    if a1.dataSize + 1 <= MemoryWords && !created && (sym.kind == DirectiveSpace || sym.kind == DirectiveConst) {
      DataBeforeKeeps(s, a1, sym.kind == DirectiveSpace, false);
    }
  }

  lemma DataCreateBeforeKeeps(s: seq<char>, a: Asm)
    requires Good(s, a) && a.state == DataCreateBefore && a.dataSize < MemoryWords
    requires HandleDataCreateBefore(s, a).Ok?
    ensures Good(s, HandleDataCreateBefore(s, a).value)
  {
    var sc1 := DataTypeStep(s, a.sc).sc;
    DataBeforeKeeps(s, a.(sc := sc1), DataTypeStep(s, a.sc).value == DirectiveSpace, true);
  }

  lemma DataAfterKeeps(s: seq<char>, a: Asm, space: bool)
    requires Good(s, a) && AfterCode(a.state) && DataAfter(s, a, space).Ok?
    ensures Good(s, DataAfter(s, a, space).value)
  {
    forall w: uword | a.b.size < MemoryWords
      ensures Sound(Emit(a.b, w))
    {
      EmitKeeps(a.b, None, w);
    }
    forall n: nat | a.b.size + n <= MemoryWords
      ensures Sound(Fill(a.b, n))
    {
      FillKeeps(a.b, None, n);
    }
  }

  lemma DataStatementAfterKeeps(s: seq<char>, a: Asm)
    requires Good(s, a) && a.state == DataStatementAfter && HandleDataStatementAfter(s, a).Ok?
    ensures Good(s, HandleDataStatementAfter(s, a).value)
  {
    var (a1, created) := Opening(s, a).value;
    FetchGood(s, a, a1.sc, a1.current);
    var sym := a1.b.symtab[a1.current];
    if a1.b.size + 1 <= MemoryWords && !created && (sym.kind == DirectiveSpace || sym.kind == DirectiveConst) {
      DataAfterKeeps(s, a1, sym.kind == DirectiveSpace);
    }
  }

  lemma DataCreateAfterKeeps(s: seq<char>, a: Asm)
    requires Good(s, a) && a.state == DataCreateAfter && HandleDataCreateAfter(s, a).Ok?
    ensures Good(s, HandleDataCreateAfter(s, a).value)
  {
    var sc1 := DataTypeStep(s, a.sc).sc;
    DataAfterKeeps(s, a.(sc := sc1), DataTypeStep(s, a.sc).value == DirectiveSpace);
  }

  /** A variable or constant placed after the code keeps the book sound. */
  lemma DefineCellKeeps(a: Asm, k: Kind, check: Check, w: uword)
    requires |a.b.code| == MemoryWords && Sound(a.b) && a.b.datalist == []
    requires a.current in a.b.symtab && a.current !in a.b.addrOf && IsDataAddress(k)
    requires DefineCell(a, k, check, w).Ok?
    ensures Sound(DefineCell(a, k, check, w).value.b) && DefineCell(a, k, check, w).value.b.datalist == []
  {
    var cur := a.current;
    var b1 := Define(a.b, cur, a.b.size);
    Relax(a.b, cur);
    DefineKeeps(a.b, cur, a.b.size);
    var sym := b1.symtab[cur].(kind := k);
    SetSymKeeps(b1, Some(cur), cur, sym);
    var b2 := SetSym(b1, cur, sym);
    DumpKeeps(b2, cur, check);
    EmitKeeps(Dump(b2, cur, check).value, None, w);
  }

  /** What follows the SPACE or CONST of a variable or constant the code used keeps the invariant. */
  lemma VarConstAfterKeeps(s: seq<char>, a: Asm, space: bool)
    requires Good(s, a) && a.state == DefineVarConst && VarConstAfter(s, a, space).Ok?
    ensures Good(s, VarConstAfter(s, a, space).value)
  {
    assert a.current !in a.b.addrOf;
    var (found, sc1) := CharStep(s, a.sc);
    if !found {
      DefineCellKeeps(a.(sc := sc1), AddressVar, Plain, 0);
    } else if space {
      DefineCellKeeps(a.(sc := BackStep(sc1)), AddressVar, Plain, 0);
    } else {
      var (v, sc2) := IntStep(s, BackStep(sc1)).value;
      var i := Int32(v);
      DefineCellKeeps(a.(sc := sc2), AddressConst, ConstantUse(i), ConstWord(i));
    }
  }

  lemma DefineVarConstKeeps(s: seq<char>, a: Asm)
    requires Good(s, a) && a.state == DefineVarConst && HandleDefineVarConst(s, a).Ok?
    ensures Good(s, HandleDefineVarConst(s, a).value)
  {
    var g := DataTypeStep(s, a.sc);
    VarConstAfterKeeps(s, a.(sc := g.sc), g.value == DirectiveSpace);
  }

  /** An array placed after the code keeps the book sound. */
  lemma DefineBlockKeeps(a: Asm, n: nat)
    requires |a.b.code| == MemoryWords && Sound(a.b) && a.b.datalist == [] && a.b.size + n <= MemoryWords
    requires a.current in a.b.symtab && a.current !in a.b.addrOf && a.b.symtab[a.current].kind == AddressArray
    requires DefineBlock(a, n).Ok?
    ensures Sound(DefineBlock(a, n).value.b) && DefineBlock(a, n).value.b.datalist == []
  {
    var cur := a.current;
    var b1 := Define(a.b, cur, a.b.size);
    Relax(a.b, cur);
    DefineKeeps(a.b, cur, a.b.size);
    var sym := b1.symtab[cur].(size := U16(n));
    SetSymKeeps(b1, Some(cur), cur, sym);
    var b2 := SetSym(b1, cur, sym);
    var check := ArrayBound(U16(n));
    DumpKeeps(b2, cur, check);
    FillKeeps(Dump(b2, cur, check).value, None, n);
  }

  lemma DefineArrayKeeps(s: seq<char>, a: Asm)
    requires Good(s, a) && a.state == DefineArray && HandleDefineArray(s, a).Ok?
    ensures Good(s, HandleDefineArray(s, a).value)
  {
    var g := DataTypeStep(s, a.sc);
    ArrayAfterKeeps(s, a.(sc := g.sc), g.value == DirectiveSpace);
  }

  lemma ArrayAfterKeeps(s: seq<char>, a: Asm, space: bool)
    requires Good(s, a) && a.state == DefineArray && ArrayAfter(s, a, space).Ok?
    ensures Good(s, ArrayAfter(s, a, space).value)
  {
    assert a.current !in a.b.addrOf;
    var (found, sc1) := CharStep(s, a.sc);
    var a1 := a.(sc := BackStep(sc1));
    var (v, sc2) := IntStep(s, a1.sc).value;
    DefineBlockKeeps(a1.(sc := sc2), Int32(v) as nat);
  }

  // ---------------------------------------------------------------------
  // The operands.

  /** What an operand step keeps, for the state the statement goes on in. */
  predicate OperandKept(a: Asm, a': Asm)
  {
    Sound(a'.b) && TextOnly(a'.b) && a'.b.datalist == a.b.datalist && a'.dataRead == a.dataRead
  }

  /** The book after the first use of a new symbol: a zeroed word, a new list entry, a queued reference. */
  lemma FirstUseKeeps(b: Book, t: string, sym: Symbol, r: Ref)
    requires Sound(b) && TextOnly(b) && b.size < |b.code|
    requires t in b.symtab && b.symtab[t] == Zero && t !in b.addrOf
    requires sym.refs == [] && IsDataAddress(sym.kind) && RefPos(r) == b.size
    ensures Sound(Reserve(ListRef(WriteAbove(b, b.size, 0), t), t, sym, r))
    ensures TextOnly(Reserve(ListRef(WriteAbove(b, b.size, 0), t), t, sym, r))
  {
    var b0 := WriteAbove(b, b.size, 0);
    WriteAboveKeeps(b, None, b.size, 0);
    var b1 := ListRef(b0, t);
    ListRefKeeps(b0, None, t);
    assert t in b1.reflist;
    ReserveKeeps(b1, None, t, sym, r);
  }

  /** The first use of a new symbol, queued on a new reference list. */
  lemma NewRefListKeeps(s: seq<char>, a: Asm)
    requires Good(s, a) && !AfterCode(a.state) && a.current in a.b.symtab && a.sc.pos < |s|
    requires a.b.symtab[a.current] == Zero && a.current !in a.b.addrOf
    requires NewRefList(s, a).Ok?
    ensures OperandKept(a, NewRefList(s, a).value)
  {
    var cur := a.current;
    var p: uword := a.b.size;
    var b1 := ListRef(WriteAbove(a.b, p, 0), cur);
    var a1 := Unread(s, a).(b := b1);
    if !ArrayFollows(s, a.sc) {
      var ref := VarConstRef(InstrAddr(p, a.secondOp), a.sc.statementLine, p);
      assert NewRefList(s, a) == Ok(a1.(b := Reserve(b1, cur, Zero.(kind := AddressVar), ref)));
      FirstUseKeeps(a.b, cur, Zero.(kind := AddressVar), ref);
    } else {
      assert NewRefList(s, a) == FirstArrayUse(s, a1, a.sc.statementLine);
      FirstArrayUseKeeps(s, a, a1);
    }
  }

  lemma FirstArrayUseKeeps(s: seq<char>, a: Asm, a1: Asm)
    requires Good(s, a) && !AfterCode(a.state) && a.current in a.b.symtab && a.b.size < MemoryWords
    requires a.b.symtab[a.current] == Zero && a.current !in a.b.addrOf
    requires Shaped(s, a1) && a1.b == ListRef(WriteAbove(a.b, a.b.size, 0), a.current) && a1.current == a.current
    requires a1.dataRead == a.dataRead
    requires FirstArrayUse(s, a1, a.sc.statementLine).Ok?
    ensures OperandKept(a, FirstArrayUse(s, a1, a.sc.statementLine).value)
  {
    var i := ArrayOperand(s, a1).value;
    FirstUseKeeps(a.b, a.current, Zero.(kind := AddressArray), ArrayRef(U16(i), a.sc.statementLine, a.b.size));
  }

  /** The book after a further use of a data symbol: one more reference queued. */
  lemma FurtherUseKeeps(b: Book, t: string, r: Ref)
    requires Sound(b) && TextOnly(b) && b.size < |b.code|
    requires t in b.symtab && IsDataAddress(b.symtab[t].kind) && RefPos(r) == b.size
    ensures Sound(Reserve(b, t, b.symtab[t], r)) && TextOnly(Reserve(b, t, b.symtab[t], r))
  {
    assert t !in b.addrOf;
    assert IsListed(b.reflist, b.datalist, t);
    ReserveKeeps(b, None, t, b.symtab[t], r);
  }

  /** A further use of a data symbol, queued on its reference list. */
  lemma AddRefKeeps(s: seq<char>, a: Asm)
    requires Good(s, a) && !AfterCode(a.state) && a.current in a.b.symtab
    requires IsDataAddress(a.b.symtab[a.current].kind)
    requires AddRef(s, a).Ok?
    ensures OperandKept(a, AddRef(s, a).value)
  {
    var cur := a.current;
    var sym := a.b.symtab[cur];
    var p: uword := a.b.size;
    var line := a.sc.statementLine;
    if sym.kind == AddressVar {
      FurtherUseKeeps(a.b, cur, if a.dataRead then AddrRef(line, p) else VarConstRef(InstrAddr(p, a.secondOp), line, p));
    } else if sym.kind == AddressConst {
      FurtherUseKeeps(a.b, cur, AddrRef(line, p));
    } else {
      var i := ArrayOperand(s, a).value;
      FurtherUseKeeps(a.b, cur, ArrayRef(U16(i), line, p));
    }
  }

  lemma RegularKeeps(s: seq<char>, a: Asm)
    requires Good(s, a) && a.state == Regular && HandleRegular(s, a).Ok?
    ensures Good(s, HandleRegular(s, a).value)
  {
    var (a1, created) := Operand(s, a).value;
    FetchGood(s, a, a1.sc, a1.current);
    if created {
      NewRefListKeeps(s, a1);
    } else {
      AddRefKeeps(s, a1);
    }
  }

  /** A jump's label: queued when new or undefined, its address when defined. */
  lemma LabelUseKeeps(b: Book, t: string, created: bool, line: nat)
    requires Sound(b) && TextOnly(b) && b.size < MemoryWords && t in b.symtab
    requires created ==> b.symtab[t] == Zero && t !in b.addrOf
    requires !created ==> b.symtab[t].kind == AddressText
    ensures Sound(LabelUse(b, t, created, line)) && TextOnly(LabelUse(b, t, created, line))
  {
    var sym := b.symtab[t];
    if created {
      var b1 := ListRef(b, t);
      ListRefKeeps(b, None, t);
      assert t in b1.reflist;
      ReserveKeeps(b1, None, t, Zero.(kind := AddressText), AddrRef(line, b.size));
    } else if sym.refs == [] {
      UseAddrKeeps(b, None, t, sym.addr);
    } else {
      assert t !in b.addrOf;
      ReserveKeeps(b, None, t, sym, AddrRef(line, b.size));
    }
  }

  lemma BranchKeeps(s: seq<char>, a: Asm)
    requires Good(s, a) && a.state == Branch && HandleBranch(s, a).Ok?
    ensures Good(s, HandleBranch(s, a).value)
  {
    var (a1, created) := Operand(s, a).value;
    FetchGood(s, a, a1.sc, a1.current);
    LabelUseKeeps(a1.b, a1.current, created, a1.sc.statementLine);
  }

  lemma CopyOperandKeeps(s: seq<char>, a: Asm, created: bool)
    requires Good(s, a) && a.state == Copy && a.current in a.b.symtab && a.sc.pos < |s|
    requires created ==> a.b.symtab[a.current] == Zero && a.current !in a.b.addrOf
    requires CopyOperand(s, a, created).Ok?
    ensures OperandKept(a, CopyOperand(s, a, created).value)
  {
    var r := if created then NewRefList(s, a) else AddRef(s, a);
    assert CopyOperand(s, a, created) == Comma(s, r, !a.secondOp);
    if created {
      NewRefListKeeps(s, a);
    } else {
      AddRefKeeps(s, a);
    }
    CommaKept(s, a, r, !a.secondOp);
  }

  /** The comma after COPY's first operand changes nothing the invariant speaks of. */
  lemma CommaKept(s: seq<char>, a: Asm, r: Result<Asm>, needed: bool)
    requires r.Ok? && r.value.sc.pos <= |s| && OperandKept(a, r.value) && Comma(s, r, needed).Ok?
    ensures OperandKept(a, Comma(s, r, needed).value)
  {
    assert Comma(s, r, needed).value.b == r.value.b;
  }

  lemma CopyKeeps(s: seq<char>, a: Asm)
    requires Good(s, a) && a.state == Copy && HandleCopy(s, a).Ok?
    ensures Good(s, HandleCopy(s, a).value)
  {
    var (a1, created) := Operand(s, a).value;
    FetchGood(s, a, a1.sc, a1.current);
    CopyOperandKeeps(s, a1, created);
    CopyEnds(s, a1, CopyOperand(s, a1, created).value, HandleCopy(s, a).value);
  }

  /** After a COPY operand the pass stays in Copy or goes back to the next statement. */
  lemma CopyEnds(s: seq<char>, a1: Asm, a2: Asm, a3: Asm)
    requires Good(s, a1) && a1.state == Copy && OperandKept(a1, a2) && Shaped(s, a2)
    requires a3 == a2.(secondOp := a3.secondOp, state := a3.state) && (a3.state == Copy || a3.state == TextStatement)
    ensures Good(s, a3)
  {
  }

  // ---------------------------------------------------------------------
  // The loop.

  /** Every handler keeps the invariant of the pass. */
  lemma HandleKeeps(s: seq<char>, a: Asm)
    requires Good(s, a) && Handle(s, a).Ok?
    ensures Good(s, Handle(s, a).value)
  {
    match a.state
    case Section => SectionKeeps(s, a);
    case SectionType => SectionTypeKeeps(s, a);
    case TextStatement => TextStatementKeeps(s, a);
    case DataStatementBefore => DataStatementBeforeKeeps(s, a);
    case DataStatementAfter => DataStatementAfterKeeps(s, a);
    case Text => TextKeeps(s, a);
    case DataCreateBefore => DataCreateBeforeKeeps(s, a);
    case DataCreateAfter => DataCreateAfterKeeps(s, a);
    case DefineVarConst => DefineVarConstKeeps(s, a);
    case DefineArray => DefineArrayKeeps(s, a);
    case Regular => RegularKeeps(s, a);
    case Branch => BranchKeeps(s, a);
    case Copy => CopyKeeps(s, a);
  }

  /** The whole loop of TCASM_read_file keeps the invariant. */
  lemma {:induction false} RunKeeps(s: seq<char>, a: Asm)
    requires Good(s, a) && Run(s, a).Ok?
    ensures Good(s, Run(s, a).value)
    decreases |s| - a.sc.pos
  {
    var (found, sc1) := CharStep(s, a.sc);
    if found {
      HandleKeeps(s, a.(sc := sc1));
      RunKeeps(s, Handle(s, a.(sc := sc1)).value);
    }
  }

  // ---------------------------------------------------------------------
  // The end of the pass.

  /** A named data item placed after the code: its references are patched. */
  lemma PlaceNamedKeeps(b: Book, t: string, bound: Bound, line: nat)
    requires Core(b, Some(t)) && b.size <= MemoryWords
    requires t in b.symtab && t !in b.addrOf && Named(t) !in b.datalist && IsDataAddress(b.symtab[t].kind)
    requires Place(b, Named(t), bound, line).Ok?
    ensures Sound(Place(b, Named(t), bound, line).value)
  {
    var sym := b.symtab[t];
    var b1 := Define(b, t, b.size);
    DefineKeeps(b, t, b.size);
    assert IsNamedItem(b.symtab, Named(t)) && ItemSymbol(b.symtab, Named(t)) == sym;
    if sym.kind == AddressVar {
      EmitKeeps(b1, Some(t), 0);
      assert Place(b, Named(t), bound, line) == Dump(Emit(b1, 0), t, Plain);
      DumpKeeps(Emit(b1, 0), t, Plain);
    } else if sym.kind == AddressConst {
      EmitKeeps(b1, Some(t), sym.value);
      assert Place(b, Named(t), bound, line) == Dump(Emit(b1, sym.value), t, Plain);
      DumpKeeps(Emit(b1, sym.value), t, Plain);
    } else {
      var n := CellsOf(sym);
      var check := ArrayBound(BoundSize(sym, bound));
      FillKeeps(b1, Some(t), n);
      assert Place(b, Named(t), bound, line) == Dump(Fill(b1, n), t, check);
      DumpKeeps(Fill(b1, n), t, check);
    }
  }

  /** One turn of the loop of TCASM_dump_datalist keeps the book sound. */
  lemma PlaceKeeps(b: Book, bound: Bound, line: nat)
    requires Sound(b) && b.size <= MemoryWords && b.datalist != []
    requires Place(DropData(b), b.datalist[0], bound, line).Ok?
    ensures Sound(Place(DropData(b), b.datalist[0], bound, line).value)
  {
    var b' := DropData(b);
    match b.datalist[0]
    case Named(t) =>
      Relax(b, t);
      DropDataKeeps(b, Some(t));
      forall j | 0 <= j < |b'.datalist|
        ensures b'.datalist[j] != Named(t)
      {
        assert b'.datalist[j] == b.datalist[j + 1];
      }
      PlaceNamedKeeps(b', t, bound, line);
    case Anonymous(sym) =>
      DropDataKeeps(b, None);
      forall w: uword | b'.size < MemoryWords
        ensures Sound(Emit(b', w))
      {
        EmitKeeps(b', None, w);
      }
      FillKeeps(b', None, CellsOf(sym));
  }

  lemma {:induction false} FlushKeeps(b: Book, bound: Bound, line: nat)
    requires Sound(b) && b.size <= MemoryWords && Flush(b, bound, line).Ok?
    ensures Sound(Flush(b, bound, line).value)
    decreases |b.datalist|
  {
    if b.datalist != [] {
      PlaceKeeps(b, bound, line);
      FlushKeeps(Place(DropData(b), b.datalist[0], bound, line).value, bound, line);
    }
  }

  /** No report from the end-of-pass scan: every listed symbol from i on has drained its references. */
  lemma {:induction false} PendingNone(b: Book, i: nat)
    requires i <= |b.reflist| && Sound(b) && Pending(b, i).None?
    ensures forall j :: i <= j < |b.reflist| ==> b.symtab[b.reflist[j]].refs == []
    decreases |b.reflist| - i
  {
    if i < |b.reflist| {
      PendingNone(b, i + 1);
    }
  }

  /**
   * The pass resolves every reference: once the source assembles, every
   * operand word naming a symbol holds that symbol's address plus the
   * operand's offset, whatever bound the array dumps check against.
   */
  lemma AssembledResolved(s: seq<char>, bound: Bound)
    requires AssembleWith(s, bound).Ok?
    ensures AllPatched(AssembleWith(s, bound).value)
  {
    StartGood(s);
    RunKeeps(s, Start());
    FinishResolved(s, Run(s, Start()).value, bound);
  }

  /** The end-of-file checks of a good state leave every reference patched. */
  lemma FinishResolved(s: seq<char>, a: Asm, bound: Bound)
    requires Good(s, a) && Finish(a, bound).Ok?
    ensures AllPatched(Finish(a, bound).value)
  {
    if a.dataRead && a.state == TextStatement {
      FlushKeeps(a.b, bound, a.sc.statementLine);
    }
    var b := Finish(a, bound).value;
    PendingNone(b, 0);
    Complete(b);
  }

  // ---------------------------------------------------------------------
  // The bound an array declared before the code is checked against.

  /**
   * As written, the dump of an array declared before the code checks the
   * offsets against the size field of the record looked up last, not the
   * array's own: an array A of 5 words used as A[10] is accepted when that
   * field reads 14, and is refused against its own size.
   */
  lemma OverlaidBoundAccepts()
    ensures var b := Book(seq(MemoryWords, _ => 0), 2,
                          map["A" := Zero.(kind := AddressArray, size := 5, refs := [ArrayRef(10, 3, 1)])],
                          [], [], map[1 := Use("A", 10)], map[]);
      Place(b, Named("A"), Overlaid(14), 3).Ok? && Place(b, Named("A"), OwnSize, 3) == Err(At(InvalidArrayPosition, 3))
  {
    var b := Book(seq(MemoryWords, _ => 0), 2,
                  map["A" := Zero.(kind := AddressArray, size := 5, refs := [ArrayRef(10, 3, 1)])],
                  [], [], map[1 := Use("A", 10)], map[]);
    var b2 := Fill(Define(b, "A", 2), 5);
    PatchAllBound(b2.code, [ArrayRef(10, 3, 1)], 2, 14);
  }

  /**
   * The 14 of OverlaidBoundAccepts is what a file ending on STOP leaves in
   * the record looked up last: the STOP keyword's record read as an array
   * gives its opcode, as long as the pass has not rewritten that record.
   */
  lemma StopOverlaid(a: Asm)
    requires "STOP" in a.b.symtab && a.b.symtab["STOP"] == KeywordTable["STOP"]
    ensures Fetch(a, "STOP").current == "STOP"
    ensures OverlaidSize(Fetch(a, "STOP").b.symtab[Fetch(a, "STOP").current]) == Some(14)
    ensures OverlaidSize(Fetch(Start(), "STOP").b.symtab[Fetch(Start(), "STOP").current]) == Some(14)
  {
    KeywordOpcodes();
    assert Mnemonics[13] == "STOP";
  }

  /**
   * Checked against the array's own size, a placed array's every pending
   * offset lies inside it, so each patched word addresses one of its words.
   */
  lemma OwnBoundInside(b: Book, t: string, line: nat)
    requires |b.code| == MemoryWords && b.size <= MemoryWords
    requires t in b.symtab && b.symtab[t].kind == AddressArray
    requires Place(b, Named(t), OwnSize, line).Ok?
    ensures forall j :: 0 <= j < |b.symtab[t].refs| ==> RefOffset(b.symtab[t].refs[j]) < b.symtab[t].size
  {
    var sym := b.symtab[t];
    var b2 := Fill(Define(b, t, b.size), CellsOf(sym));
    PatchAllBound(b2.code, sym.refs, b.size, sym.size);
  }
}
