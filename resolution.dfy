// The bookkeeping behind TCASM's single pass: every operand word that names
// a symbol is either already patched with the symbol's address (plus the
// array offset) or still waiting in the symbol's reference list, and so
// will be patched once the symbol is defined. The assembler's state is
// abstracted to a Book value; each step the assembler takes is a function
// on books, and each lemma shows that a step keeps the invariant.
module Resolution {
  import opened Common
  import opened Symbols
  import opened Errors

  /** An entry of TCASM_datalist: a declared symbol, or an anonymous SPACE/CONST cell. */
  datatype DataItem = Named(name: string) | Anonymous(item: Symbol)

  /** An operand word naming a symbol: the word must end up holding its address plus offset. */
  datatype Use = Use(name: string, offset: nat)

  /**
   * The assembler's state seen by the resolver: the image, its size, the
   * symbol table, the reference list and data list, and two ghost records:
   * the operand words emitted so far and the address each symbol got.
   */
  datatype Book = Book(
    code: seq<uword>, size: nat, symtab: map<string, Symbol>,
    reflist: seq<string>, datalist: seq<DataItem>,
    uses: map<nat, Use>, addrOf: map<string, nat>)

  /** refs holds a reference that patches word p with offset off. */
  predicate HasRefAt(refs: seq<Ref>, p: nat, off: nat)
    decreases |refs|
  {
    refs != [] && ((RefPos(refs[0]) == p && RefOffset(refs[0]) == off) || HasRefAt(refs[1..], p, off))
  }

  /** Appending a reference keeps the old ones and adds the new one. */
  lemma {:induction false} HasRefAppend(refs: seq<Ref>, r: Ref, p: nat, off: nat)
    ensures HasRefAt(refs + [r], p, off) <==> HasRefAt(refs, p, off) || (RefPos(r) == p && RefOffset(r) == off)
    decreases |refs|
  {
    if refs != [] {
      assert (refs + [r])[1..] == refs[1..] + [r];
      HasRefAppend(refs[1..], r, p, off);
    } else {
      assert ([] + [r])[1..] == [];
    }
  }

  predicate Base(b: Book)
  {
    |b.code| == MemoryWords && b.size <= |b.code|
  }

  // The parts of the invariant take the fields they read as parameters, so
  // that a step which leaves those fields alone visibly keeps that part.

  /** Every use lies inside the image and names a symbol of the table. */
  predicate Placed(uses: map<nat, Use>, size: nat, symtab: map<string, Symbol>)
  {
    forall p :: p in uses ==> p < size && uses[p].name in symtab
  }

  /** Every pending reference is recorded as a use of its word. */
  predicate Known(symtab: map<string, Symbol>, uses: map<nat, Use>)
  {
    forall t, j :: t in symtab && 0 <= j < |symtab[t].refs| ==>
      RefPos(symtab[t].refs[j]) in uses
      && uses[RefPos(symtab[t].refs[j])] == Use(t, RefOffset(symtab[t].refs[j]))
  }

  /** Use p holds the address of its symbol plus its offset. */
  predicate Patched(code: seq<uword>, uses: map<nat, Use>, addrOf: map<string, nat>, p: nat)
    requires p in uses
  {
    p < |code| && uses[p].name in addrOf && code[p] == U16(addrOf[uses[p].name] + uses[p].offset)
  }

  /** Every use is patched, or still pending in its symbol's reference list. */
  predicate Settled(code: seq<uword>, symtab: map<string, Symbol>, uses: map<nat, Use>, addrOf: map<string, nat>)
  {
    forall p :: p in uses ==>
      Patched(code, uses, addrOf, p)
      || (uses[p].name in symtab && HasRefAt(symtab[uses[p].name].refs, p, uses[p].offset))
  }

  /** Only defined symbols have addresses; they have drained their references, except ex. */
  predicate Addressed(symtab: map<string, Symbol>, addrOf: map<string, nat>, ex: Option<string>)
  {
    (forall t :: t in addrOf ==> t in symtab)
    && forall t :: t in addrOf && Some(t) != ex ==> symtab[t].refs == []
  }

  /** A label with no pending reference is defined, and its record holds its address. */
  predicate LabelsKnown(symtab: map<string, Symbol>, addrOf: map<string, nat>)
  {
    forall t :: t in symtab && symtab[t].kind == AddressText && symtab[t].refs == [] ==>
      t in addrOf && symtab[t].addr == U16(addrOf[t])
  }

  /** Where the end of the pass will look for t: the reference list or the data list. */
  predicate IsListed(reflist: seq<string>, datalist: seq<DataItem>, t: string)
  {
    t in reflist || Named(t) in datalist
  }

  /**
   * A symbol with pending references, or a data symbol not yet placed, is
   * listed (except ex, which is being defined).
   */
  predicate Listed(symtab: map<string, Symbol>, addrOf: map<string, nat>,
                   reflist: seq<string>, datalist: seq<DataItem>, ex: Option<string>)
  {
    forall t :: t in symtab && Some(t) != ex
      && (symtab[t].refs != [] || (IsDataAddress(symtab[t].kind) && t !in addrOf))
      ==> IsListed(reflist, datalist, t)
  }

  /** The reference list names symbols of the table. */
  predicate Tracked(symtab: map<string, Symbol>, reflist: seq<string>)
  {
    forall i :: 0 <= i < |reflist| ==> reflist[i] in symtab
  }

  /** Declared data items are undefined data symbols of the table, each declared once. */
  predicate DataFresh(symtab: map<string, Symbol>, addrOf: map<string, nat>, datalist: seq<DataItem>)
  {
    (forall i :: 0 <= i < |datalist| && datalist[i].Named? ==>
      datalist[i].name in symtab && datalist[i].name !in addrOf
      && IsDataAddress(symtab[datalist[i].name].kind))
    && forall i, j :: 0 <= i < j < |datalist| && datalist[i].Named? && datalist[j].Named? ==>
      datalist[i].name != datalist[j].name
  }

  /** Only an address symbol (a label or a data symbol) has pending references. */
  predicate Typed(symtab: map<string, Symbol>)
  {
    forall t :: t in symtab && symtab[t].refs != [] ==> IsAddress(symtab[t].kind)
  }

  predicate IsAddress(k: Kind)
  {
    k.AddressText? || IsDataAddress(k)
  }

  /** The invariant, while the references of ex are being drained. */
  predicate Core(b: Book, ex: Option<string>)
  {
    Base(b) && Placed(b.uses, b.size, b.symtab) && Known(b.symtab, b.uses)
    && Settled(b.code, b.symtab, b.uses, b.addrOf) && Addressed(b.symtab, b.addrOf, ex)
    && LabelsKnown(b.symtab, b.addrOf) && Listed(b.symtab, b.addrOf, b.reflist, b.datalist, ex)
    && Tracked(b.symtab, b.reflist) && DataFresh(b.symtab, b.addrOf, b.datalist) && Typed(b.symtab)
  }

  /** The invariant between steps of the assembler. */
  predicate Sound(b: Book)
  {
    Core(b, None)
  }

  /** Every use is patched: the image is complete. */
  predicate AllPatched(b: Book)
  {
    forall p :: p in b.uses ==> Patched(b.code, b.uses, b.addrOf, p)
  }

  // ---------------------------------------------------------------------
  // The steps.

  /** A lookup of a new key creates a zero record. */
  function Lookup(b: Book, s: string): Book
  {
    b.(symtab := b.symtab[s := Zero])
  }

  /** A record is overwritten. */
  function SetSym(b: Book, s: string, sym: Symbol): Book
  {
    b.(symtab := b.symtab[s := sym])
  }

  /** A word is written at or above the end of the image. */
  function WriteAbove(b: Book, q: nat, w: uword): Book
    requires q < |b.code|
  {
    b.(code := b.code[q := w])
  }

  /** The image grows by n words. */
  function Bump(b: Book, n: nat): Book
  {
    b.(size := b.size + n)
  }

  /** b grew into r by n words w at its end; nothing else changed. */
  predicate Grown(b: Book, r: Book, n: nat, w: uword)
  {
    r == b.(code := r.code, size := b.size + n) && |r.code| == |b.code|
    && forall k :: 0 <= k < |b.code| ==> r.code[k] == if b.size <= k < b.size + n then w else b.code[k]
  }

  /** code[size++] = w. */
  function Emit(b: Book, w: uword): (r: Book)
    requires b.size < |b.code|
    ensures Grown(b, r, 1, w)
  {
    Bump(WriteAbove(b, b.size, w), 1)
  }

  /**
   * An operand word of undefined symbol s is left for later: s's record
   * becomes sym (its kind may be set now) with r queued, and the image grows.
   */
  function Reserve(b: Book, s: string, sym: Symbol, r: Ref): Book
  {
    b.(symtab := b.symtab[s := sym.(refs := sym.refs + [r])],
       uses := b.uses[b.size := Use(s, RefOffset(r))], size := b.size + 1)
  }

  /** An operand word of defined symbol s is emitted; w is the address its record holds. */
  function UseAddr(b: Book, s: string, w: uword): Book
    requires b.size < |b.code|
  {
    b.(code := b.code[b.size := w], uses := b.uses[b.size := Use(s, 0)], size := b.size + 1)
  }

  /** s is appended to the reference list. */
  function ListRef(b: Book, s: string): Book
  {
    b.(reflist := b.reflist + [s])
  }

  /** A data symbol is declared: its record is set and it is appended to the data list. */
  function Declare(b: Book, s: string, sym: Symbol): Book
  {
    b.(symtab := b.symtab[s := sym], datalist := b.datalist + [Named(s)])
  }

  /** An anonymous cell is appended to the data list. */
  function ListAnonymous(b: Book, sym: Symbol): Book
  {
    b.(datalist := b.datalist + [Anonymous(sym)])
  }

  /** The first data item is removed. */
  function DropData(b: Book): Book
    requires b.datalist != []
  {
    b.(datalist := b.datalist[1..])
  }

  /** s gets address a. */
  function Define(b: Book, s: string, a: nat): Book
  {
    b.(addrOf := b.addrOf[s := a])
  }

  /** The first pending reference of s is patched with s's address and removed. */
  function PatchFirst(b: Book, s: string): Book
    requires |b.code| == MemoryWords && s in b.symtab && s in b.addrOf && b.symtab[s].refs != []
  {
    var r := b.symtab[s].refs[0];
    b.(code := b.code[RefPos(r) := U16(b.addrOf[s] + RefOffset(r))],
       symtab := b.symtab[s := b.symtab[s].(refs := b.symtab[s].refs[1..])])
  }

  // ---------------------------------------------------------------------
  // The reference dumps and the zero fill.

  /** The check a reference dump makes before patching a reference. */
  datatype Check =
    | Plain                   // labels, variables, and data declared before the code
    | ConstantUse(value: int) // a constant defined after the code
    | ArrayBound(size: uword) // an array of the given size

  /** The instructions that write their last operand (for COPY, the second one). */
  predicate WritesOperand(op: uword, second: bool)
  {
    op == OpStore || op == OpInput || (op == OpCopy && second)
  }

  /**
   * The error a dump reports for reference r, if any: a division by a
   * zero constant, a store into a constant (the second operand of COPY,
   * STORE or INPUT), or an offset past the end of the array.
   */
  function RefError(check: Check, r: Ref, code: seq<uword>): Option<ErrorKind>
    requires |code| == MemoryWords
  {
    match check
    case Plain => None
    case ConstantUse(v) =>
      if !r.VarConstRef? then None
      else
        var op := code[r.instrAddr];
        if op == OpDiv && v == 0 then Some(DivisionByZeroConstant)
        else if (op == OpCopy && r.instrAddr + 2 == r.opAddr) || op == OpStore || op == OpInput then
          Some(WriteToConstant)
        else None
    case ArrayBound(size) =>
      if RefOffset(r) >= size then Some(InvalidArrayPosition) else None
  }

  /**
   * A constant defined after the code accepts a reference exactly when its
   * instruction neither writes the constant nor divides by a zero constant;
   * an array accepts exactly the offsets inside it.
   */
  lemma RefErrorMeaning(v: int, size: uword, r: Ref, code: seq<uword>)
    requires |code| == MemoryWords
    ensures r.VarConstRef? ==>
      (RefError(ConstantUse(v), r, code).None? <==>
        !WritesOperand(code[r.instrAddr], r.opAddr == r.instrAddr + 2) && !(code[r.instrAddr] == OpDiv && v == 0))
    ensures RefError(ArrayBound(size), r, code).None? <==> RefOffset(r) < size
    ensures RefError(Plain, r, code).None?
  {
    if r.VarConstRef? {
      var op := code[r.instrAddr];
      if op == OpDiv {
        assert !WritesOperand(op, r.opAddr == r.instrAddr + 2);
      }
    }
  }

  /**
   * The loop of a reference dump: each reference in list order is checked,
   * then its word is patched with addr plus its offset; the first failing
   * check stops the pass with the line the reference was made on.
   */
  function PatchAll(code: seq<uword>, refs: seq<Ref>, addr: nat, check: Check): (r: Result<seq<uword>>)
    requires |code| == MemoryWords
    ensures r.Ok? ==> |r.value| == MemoryWords
    ensures check.Plain? ==> r.Ok?
    ensures r.Err? ==> r.error.At? && exists j :: 0 <= j < |refs| && r.error.line == refs[j].line
    ensures r.Err? && check.ArrayBound? ==> r.error.kind == InvalidArrayPosition
    ensures r.Err? && check.ConstantUse? ==>
      r.error.kind == DivisionByZeroConstant || r.error.kind == WriteToConstant
    decreases |refs|
  {
    if refs == [] then Ok(code)
    else
      match RefError(check, refs[0], code)
      case Some(e) => Err(At(e, refs[0].line))
      case None =>
        var r := PatchAll(code[RefPos(refs[0]) := U16(addr + RefOffset(refs[0]))], refs[1..], addr, check);
        assert r.Err? ==> exists j :: 0 <= j < |refs[1..]| && r.error.line == refs[1..][j].line;
        assert forall j :: 0 <= j < |refs[1..]| ==> refs[1..][j] == refs[j + 1];
        r
  }

  /** An array dump succeeds exactly when every offset is inside the array. */
  lemma {:induction false} PatchAllBound(code: seq<uword>, refs: seq<Ref>, addr: nat, size: uword)
    requires |code| == MemoryWords
    ensures PatchAll(code, refs, addr, ArrayBound(size)).Ok? <==>
      forall j :: 0 <= j < |refs| ==> RefOffset(refs[j]) < size
    decreases |refs|
  {
    if refs != [] {
      PatchAllBound(code[RefPos(refs[0]) := U16(addr + RefOffset(refs[0]))], refs[1..], addr, size);
      assert forall j :: 0 <= j < |refs[1..]| ==> refs[1..][j] == refs[j + 1];
    }
  }

  /** A dump whose references all lie below lo leaves the words from lo on alone. */
  lemma {:induction false} PatchAllAbove(code: seq<uword>, refs: seq<Ref>, addr: nat, check: Check, lo: nat)
    requires |code| == MemoryWords
    requires forall j :: 0 <= j < |refs| ==> RefPos(refs[j]) < lo
    ensures PatchAll(code, refs, addr, check).Ok? ==>
      forall k :: lo <= k < MemoryWords ==> PatchAll(code, refs, addr, check).value[k] == code[k]
    decreases |refs|
  {
    if refs != [] && RefError(check, refs[0], code).None? {
      assert forall j :: 0 <= j < |refs[1..]| ==> refs[1..][j] == refs[j + 1];
      PatchAllAbove(code[RefPos(refs[0]) := U16(addr + RefOffset(refs[0]))], refs[1..], addr, check, lo);
    }
  }

  /**
   * The dump of the pending references of s, which has its address: they
   * are patched and the list is left empty, as PatchAll describes.
   */
  function Dump(b: Book, s: string, check: Check): (r: Result<Book>)
    requires |b.code| == MemoryWords && s in b.symtab && s in b.addrOf
    ensures r.Ok? ==> r.value == b.(code := r.value.code, symtab := b.symtab[s := b.symtab[s].(refs := [])])
    ensures r.Ok? <==> PatchAll(b.code, b.symtab[s].refs, b.addrOf[s], check).Ok?
    ensures r.Ok? ==> r.value.code == PatchAll(b.code, b.symtab[s].refs, b.addrOf[s], check).value
    ensures r.Err? ==> r.error == PatchAll(b.code, b.symtab[s].refs, b.addrOf[s], check).error
  {
    match PatchAll(b.code, b.symtab[s].refs, b.addrOf[s], check)
    case Err(e) => Err(e)
    case Ok(code) => Ok(b.(code := code, symtab := b.symtab[s := b.symtab[s].(refs := [])]))
  }

  /** n zero words from the end of the image on (TCASM_write_uint16_zeroarray), and the image grows by n. */
  function Fill(b: Book, n: nat): (r: Book)
    requires b.size + n <= |b.code|
    ensures |r.code| == |b.code| && r.size == b.size + n && r == b.(code := r.code, size := r.size)
    ensures forall k :: 0 <= k < |b.code| ==> r.code[k] == if b.size <= k < b.size + n then 0 else b.code[k]
  {
    b.(code := b.code[..b.size] + seq(n, _ => 0) + b.code[b.size + n..], size := b.size + n)
  }

  /** Every pending reference of the table patches a word below n. */
  predicate RefsBelow(symtab: map<string, Symbol>, n: nat)
  {
    forall t, j :: t in symtab && 0 <= j < |symtab[t].refs| ==> RefPos(symtab[t].refs[j]) < n
  }

  // ---------------------------------------------------------------------
  // Each step keeps the invariant.

  /** Under the invariant every pending reference lies inside the image. */
  lemma SoundRefsBelow(b: Book)
    requires Sound(b)
    ensures RefsBelow(b.symtab, b.size)
  {
  }

  /** A table holding only keywords, with nothing emitted, meets the invariant. */
  lemma StartSound(code: seq<uword>, symtab: map<string, Symbol>)
    requires |code| == MemoryWords
    requires forall t :: t in symtab ==> symtab[t].refs == [] && !IsAddress(symtab[t].kind)
    ensures Sound(Book(code, 0, symtab, [], [], map[], map[]))
  {
  }

  /** The invariant without an exception implies it with any. */
  lemma Relax(b: Book, s: string)
    requires Sound(b)
    ensures Core(b, Some(s))
  {
  }

  lemma LookupKeeps(b: Book, ex: Option<string>, s: string)
    requires Core(b, ex) && s !in b.symtab
    ensures Core(Lookup(b, s), ex)
  {
    var b' := Lookup(b, s);
    forall p | p in b'.uses
      ensures Patched(b'.code, b'.uses, b'.addrOf, p)
        || (b'.uses[p].name in b'.symtab && HasRefAt(b'.symtab[b'.uses[p].name].refs, p, b'.uses[p].offset))
    {
      assert b.uses[p].name != s;
    }
  }

  /**
   * Overwriting a record keeps its references; a label without references
   * must carry its address, a data symbol must be listed, and a declared
   * data item must stay a data symbol.
   */
  lemma SetSymKeeps(b: Book, ex: Option<string>, s: string, sym: Symbol)
    requires Core(b, ex) && s in b.symtab && sym.refs == b.symtab[s].refs
    requires sym.kind == AddressText && sym.refs == [] ==> s in b.addrOf && sym.addr == U16(b.addrOf[s])
    requires IsDataAddress(sym.kind) && s !in b.addrOf && Some(s) != ex ==> IsListed(b.reflist, b.datalist, s)
    requires Named(s) in b.datalist ==> IsDataAddress(sym.kind)
    requires sym.refs != [] ==> IsAddress(sym.kind)
    ensures Core(SetSym(b, s, sym), ex)
  {
    var b' := SetSym(b, s, sym);
    assert forall t :: t in b.symtab ==> b'.symtab[t].refs == b.symtab[t].refs;
    forall i | 0 <= i < |b'.datalist| && b'.datalist[i].Named?
      ensures IsDataAddress(b'.symtab[b'.datalist[i].name].kind)
    {
      if b.datalist[i].name == s {
        assert Named(s) in b.datalist;
      }
    }
  }

  lemma WriteAboveKeeps(b: Book, ex: Option<string>, q: nat, w: uword)
    requires Core(b, ex) && b.size <= q < |b.code|
    ensures Core(WriteAbove(b, q, w), ex)
  {
  }

  lemma BumpKeeps(b: Book, ex: Option<string>, n: nat)
    requires Core(b, ex) && b.size + n <= |b.code|
    ensures Core(Bump(b, n), ex)
  {
  }

  lemma EmitKeeps(b: Book, ex: Option<string>, w: uword)
    requires Core(b, ex) && b.size < |b.code|
    ensures Core(Emit(b, w), ex)
  {
    WriteAboveKeeps(b, ex, b.size, w);
    BumpKeeps(WriteAbove(b, b.size, w), ex, 1);
  }

  /** Queuing a reference to a listed, undefined symbol at the next word. */
  lemma ReserveKeeps(b: Book, ex: Option<string>, s: string, sym: Symbol, r: Ref)
    requires Core(b, ex) && s in b.symtab && s !in b.addrOf && IsListed(b.reflist, b.datalist, s)
    requires sym.refs == b.symtab[s].refs && IsAddress(sym.kind)
    requires Named(s) in b.datalist ==> IsDataAddress(sym.kind)
    requires b.size < |b.code| && RefPos(r) == b.size
    ensures Core(Reserve(b, s, sym, r), ex)
  {
    ReserveKnown(b, s, sym, r);
    ReserveSettled(b, s, sym, r);
    var b' := Reserve(b, s, sym, r);
    forall i | 0 <= i < |b'.datalist| && b'.datalist[i].Named?
      ensures IsDataAddress(b'.symtab[b'.datalist[i].name].kind)
    {
      if b.datalist[i].name == s {
        assert Named(s) in b.datalist;
      }
    }
  }

  lemma ReserveKnown(b: Book, s: string, sym: Symbol, r: Ref)
    requires Placed(b.uses, b.size, b.symtab) && Known(b.symtab, b.uses)
    requires s in b.symtab && sym.refs == b.symtab[s].refs && RefPos(r) == b.size
    ensures var b' := Reserve(b, s, sym, r); Known(b'.symtab, b'.uses)
  {
    var b' := Reserve(b, s, sym, r);
    var refs := b.symtab[s].refs;
    forall t, j | t in b'.symtab && 0 <= j < |b'.symtab[t].refs|
      ensures RefPos(b'.symtab[t].refs[j]) in b'.uses
      ensures b'.uses[RefPos(b'.symtab[t].refs[j])] == Use(t, RefOffset(b'.symtab[t].refs[j]))
    {
      if t == s && j == |refs| {
        assert b'.symtab[t].refs[j] == r;
      } else {
        assert b'.symtab[t].refs[j] == b.symtab[t].refs[j];
        assert RefPos(b.symtab[t].refs[j]) < b.size;
      }
    }
  }

  lemma ReserveSettled(b: Book, s: string, sym: Symbol, r: Ref)
    requires Placed(b.uses, b.size, b.symtab) && Settled(b.code, b.symtab, b.uses, b.addrOf)
    requires s in b.symtab && s !in b.addrOf && sym.refs == b.symtab[s].refs && RefPos(r) == b.size
    ensures var b' := Reserve(b, s, sym, r); Settled(b'.code, b'.symtab, b'.uses, b'.addrOf)
  {
    var b' := Reserve(b, s, sym, r);
    var refs := b.symtab[s].refs;
    forall p | p in b'.uses
      ensures Patched(b'.code, b'.uses, b'.addrOf, p)
        || (b'.uses[p].name in b'.symtab && HasRefAt(b'.symtab[b'.uses[p].name].refs, p, b'.uses[p].offset))
    {
      HasRefAppend(refs, r, p, b'.uses[p].offset);
      if p != b.size {
        assert b'.uses[p] == b.uses[p];
      }
    }
  }

  /** Emitting the address of a defined symbol. */
  lemma UseAddrKeeps(b: Book, ex: Option<string>, s: string, w: uword)
    requires Core(b, ex) && s in b.addrOf && b.size < |b.code| && w == U16(b.addrOf[s])
    ensures Core(UseAddr(b, s, w), ex)
  {
    UseAddrKnown(b, s, w);
    UseAddrSettled(b, s, w);
  }

  lemma UseAddrKnown(b: Book, s: string, w: uword)
    requires Placed(b.uses, b.size, b.symtab) && Known(b.symtab, b.uses) && b.size < |b.code|
    ensures var b' := UseAddr(b, s, w); Known(b'.symtab, b'.uses)
  {
    var b' := UseAddr(b, s, w);
    forall t, j | t in b'.symtab && 0 <= j < |b'.symtab[t].refs|
      ensures RefPos(b'.symtab[t].refs[j]) in b'.uses
      ensures b'.uses[RefPos(b'.symtab[t].refs[j])] == Use(t, RefOffset(b'.symtab[t].refs[j]))
    {
      assert RefPos(b.symtab[t].refs[j]) < b.size;
    }
  }

  lemma UseAddrSettled(b: Book, s: string, w: uword)
    requires Settled(b.code, b.symtab, b.uses, b.addrOf) && Placed(b.uses, b.size, b.symtab)
    requires s in b.addrOf && b.size < |b.code| && w == U16(b.addrOf[s])
    ensures var b' := UseAddr(b, s, w); Settled(b'.code, b'.symtab, b'.uses, b'.addrOf)
  {
    var b' := UseAddr(b, s, w);
    forall p | p in b'.uses
      ensures Patched(b'.code, b'.uses, b'.addrOf, p)
        || (b'.uses[p].name in b'.symtab && HasRefAt(b'.symtab[b'.uses[p].name].refs, p, b'.uses[p].offset))
    {
      if p != b.size {
        assert b'.uses[p] == b.uses[p];
      }
    }
  }

  lemma ListRefKeeps(b: Book, ex: Option<string>, s: string)
    requires Core(b, ex) && s in b.symtab
    ensures Core(ListRef(b, s), ex)
  {
    var b' := ListRef(b, s);
    forall t | t in b.reflist
      ensures t in b'.reflist
    {
      var i :| 0 <= i < |b.reflist| && b.reflist[i] == t;
      assert b'.reflist[i] == t;
    }
  }

  /** Declaring a new data symbol with no references. */
  lemma DeclareKeeps(b: Book, ex: Option<string>, s: string, sym: Symbol)
    requires Core(b, ex) && s in b.symtab && s !in b.addrOf && Named(s) !in b.datalist
    requires b.symtab[s].refs == [] && sym.refs == [] && IsDataAddress(sym.kind)
    ensures Core(Declare(b, s, sym), ex)
  {
    var b' := Declare(b, s, sym);
    assert forall t :: t in b.symtab ==> b'.symtab[t].refs == b.symtab[t].refs;
    forall t | Named(t) in b.datalist
      ensures Named(t) in b'.datalist
    {
      var i :| 0 <= i < |b.datalist| && b.datalist[i] == Named(t);
      assert b'.datalist[i] == Named(t);
    }
    assert b'.datalist[|b.datalist|] == Named(s);
    forall i, j | 0 <= i < j < |b'.datalist| && b'.datalist[i].Named? && b'.datalist[j].Named?
      ensures b'.datalist[i].name != b'.datalist[j].name
    {
      if j == |b.datalist| {
        assert b'.datalist[i] == b.datalist[i];
      }
    }
  }

  lemma ListAnonymousKeeps(b: Book, ex: Option<string>, sym: Symbol)
    requires Core(b, ex)
    ensures Core(ListAnonymous(b, sym), ex)
  {
    var b' := ListAnonymous(b, sym);
    forall t | Named(t) in b.datalist
      ensures Named(t) in b'.datalist
    {
      var i :| 0 <= i < |b.datalist| && b.datalist[i] == Named(t);
      assert b'.datalist[i] == Named(t);
    }
  }

  /** Removing the first data item, which is the symbol being defined or anonymous. */
  lemma DropDataKeeps(b: Book, ex: Option<string>)
    requires Core(b, ex) && b.datalist != []
    requires b.datalist[0].Named? ==> ex == Some(b.datalist[0].name)
    ensures Core(DropData(b), ex)
  {
    var b' := DropData(b);
    forall t | Named(t) in b.datalist && Some(t) != ex
      ensures Named(t) in b'.datalist
    {
      var i :| 0 <= i < |b.datalist| && b.datalist[i] == Named(t);
      assert i != 0;
      assert b'.datalist[i - 1] == Named(t);
    }
  }

  /** Defining a symbol that is not defined yet and not waiting in the data list. */
  lemma DefineKeeps(b: Book, s: string, a: nat)
    requires Core(b, Some(s)) && s in b.symtab && s !in b.addrOf && Named(s) !in b.datalist
    ensures Core(Define(b, s, a), Some(s))
  {
    var b' := Define(b, s, a);
    forall i | 0 <= i < |b'.datalist| && b'.datalist[i].Named?
      ensures b'.datalist[i].name !in b'.addrOf
    {
      assert b.datalist[i] in b.datalist;
    }
  }

  /** Patching the first reference of the symbol being defined. */
  lemma PatchFirstKeeps(b: Book, s: string)
    requires Core(b, Some(s)) && s in b.symtab && s in b.addrOf && b.symtab[s].refs != []
    requires b.symtab[s].kind == AddressText ==> b.symtab[s].addr == U16(b.addrOf[s])
    ensures Core(PatchFirst(b, s), Some(s))
  {
    PatchFirstKnown(b, s);
    PatchFirstSettled(b, s);
  }

  lemma PatchFirstKnown(b: Book, s: string)
    requires |b.code| == MemoryWords && Known(b.symtab, b.uses)
    requires s in b.symtab && s in b.addrOf && b.symtab[s].refs != []
    ensures var b' := PatchFirst(b, s); Known(b'.symtab, b'.uses)
  {
    var b' := PatchFirst(b, s);
    var refs := b.symtab[s].refs;
    forall t, j | t in b'.symtab && 0 <= j < |b'.symtab[t].refs|
      ensures RefPos(b'.symtab[t].refs[j]) in b'.uses
      ensures b'.uses[RefPos(b'.symtab[t].refs[j])] == Use(t, RefOffset(b'.symtab[t].refs[j]))
    {
      if t == s {
        assert b'.symtab[t].refs[j] == refs[j + 1];
      }
    }
  }

  lemma PatchFirstSettled(b: Book, s: string)
    requires Base(b) && Placed(b.uses, b.size, b.symtab) && Known(b.symtab, b.uses)
    requires Settled(b.code, b.symtab, b.uses, b.addrOf)
    requires s in b.symtab && s in b.addrOf && b.symtab[s].refs != []
    ensures var b' := PatchFirst(b, s); Settled(b'.code, b'.symtab, b'.uses, b'.addrOf)
  {
    var b' := PatchFirst(b, s);
    var r := b.symtab[s].refs[0];
    assert b.uses[RefPos(r)] == Use(s, RefOffset(r));
    forall p | p in b'.uses
      ensures Patched(b'.code, b'.uses, b'.addrOf, p)
        || (b'.uses[p].name in b'.symtab && HasRefAt(b'.symtab[b'.uses[p].name].refs, p, b'.uses[p].offset))
    {
      if p != RefPos(r) {
        assert b'.code[p] == b.code[p];
      }
    }
  }

  lemma FillKeeps(b: Book, ex: Option<string>, n: nat)
    requires Core(b, ex) && b.size + n <= |b.code|
    ensures Core(Fill(b, n), ex)
  {
    var b' := Fill(b, n);
    forall p | p in b'.uses
      ensures Patched(b'.code, b'.uses, b'.addrOf, p)
        || (b'.uses[p].name in b'.symtab && HasRefAt(b'.symtab[b'.uses[p].name].refs, p, b'.uses[p].offset))
    {
      assert b'.code[p] == b.code[p];
    }
  }

  /**
   * Patching the references of s in list order is PatchFirst repeated: the
   * invariant is kept and the list of s ends empty.
   */
  lemma {:induction false} PatchAllKeeps(b: Book, s: string, check: Check)
    requires Core(b, Some(s)) && s in b.symtab && s in b.addrOf
    requires b.symtab[s].kind == AddressText ==> b.symtab[s].addr == U16(b.addrOf[s])
    requires PatchAll(b.code, b.symtab[s].refs, b.addrOf[s], check).Ok?
    ensures Core(b.(code := PatchAll(b.code, b.symtab[s].refs, b.addrOf[s], check).value,
                    symtab := b.symtab[s := b.symtab[s].(refs := [])]), Some(s))
    decreases |b.symtab[s].refs|
  {
    var refs := b.symtab[s].refs;
    if refs == [] {
      assert b.symtab[s := b.symtab[s].(refs := [])] == b.symtab;
    } else {
      PatchFirstKeeps(b, s);
      PatchAllStep(b, s, check);
      PatchAllKeeps(PatchFirst(b, s), s, check);
    }
  }

  /** One turn of a dump: the rest of the dump runs on the patched image and the shortened list. */
  lemma PatchAllStep(b: Book, s: string, check: Check)
    requires |b.code| == MemoryWords && s in b.symtab && s in b.addrOf && b.symtab[s].refs != []
    requires PatchAll(b.code, b.symtab[s].refs, b.addrOf[s], check).Ok?
    ensures var b1 := PatchFirst(b, s);
      s in b1.symtab && s in b1.addrOf && b1.addrOf[s] == b.addrOf[s] && b1.symtab[s].kind == b.symtab[s].kind
      && PatchAll(b1.code, b1.symtab[s].refs, b1.addrOf[s], check) == PatchAll(b.code, b.symtab[s].refs, b.addrOf[s], check)
      && b1.symtab[s := b1.symtab[s].(refs := [])] == b.symtab[s := b.symtab[s].(refs := [])]
  {
    var refs := b.symtab[s].refs;
    var b1 := PatchFirst(b, s);
    assert b1.symtab[s].refs == refs[1..];
    assert b1.code == b.code[RefPos(refs[0]) := U16(b.addrOf[s] + RefOffset(refs[0]))];
  }


  /**
   * A dump of the symbol being defined restores the invariant, and every
   * operand word naming that symbol then holds its address plus its offset.
   */
  lemma DumpKeeps(b: Book, s: string, check: Check)
    requires Core(b, Some(s)) && s in b.symtab && s in b.addrOf
    requires b.symtab[s].kind == AddressText ==> b.symtab[s].addr == U16(b.addrOf[s])
    requires Dump(b, s, check).Ok?
    ensures Sound(Dump(b, s, check).value)
    ensures forall p :: p in b.uses && b.uses[p].name == s ==> Patched(Dump(b, s, check).value.code, b.uses, b.addrOf, p)
  {
    PatchAllKeeps(b, s, check);
    var b' := Dump(b, s, check).value;
    FinishKeeps(b', s);
  }

  /** The symbol being defined has drained its references: the invariant is whole again. */
  lemma FinishKeeps(b: Book, s: string)
    requires Core(b, Some(s)) && s in b.symtab && s in b.addrOf && b.symtab[s].refs == []
    ensures Sound(b)
  {
  }

  /**
   * At the end of the pass, with the data list flushed and every listed
   * reference list empty, every operand word holds its symbol's address.
   */
  lemma Complete(b: Book)
    requires Sound(b) && b.datalist == []
    requires forall i :: 0 <= i < |b.reflist| ==> b.symtab[b.reflist[i]].refs == []
    ensures AllPatched(b)
  {
    forall t | t in b.symtab && IsListed(b.reflist, b.datalist, t)
      ensures b.symtab[t].refs == []
    {
      var i :| 0 <= i < |b.reflist| && b.reflist[i] == t;
    }
  }
}
