// TCASM_symbol_init (TCASM_symbol.c): the symbol table starts out holding the
// directive keywords and the instruction mnemonics. The source is 19 copies
// of one step (get the key's record, set its kind and, for an instruction,
// its opcode); here the 19 (key, kind, opcode) triples are a constant and
// the step is applied to each in source order.
module Keywords {
  import opened Common
  import opened Symbols
  import opened HashTables

  /** One seeded keyword: its key, its kind and its opcode (0 for a directive). */
  datatype Entry = Entry(key: string, kind: Kind, opcode: uword)

  /** The keywords in the order TCASM_symbol.c lines 12-81 seed them. */
  const Entries: seq<Entry> :=
    [
     Entry("SECTION", DirectiveSection, 0),
     Entry("SPACE", DirectiveSpace, 0),
     Entry("CONST", DirectiveConst, 0),
     Entry("TEXT", DirectiveSectionType, 0),
     Entry("DATA", DirectiveSectionType, 0),
     Entry("ADD", InstructionRegular, OpAdd),
     Entry("SUB", InstructionRegular, OpSub),
     Entry("MULT", InstructionRegular, OpMult),
     Entry("DIV", InstructionRegular, OpDiv),
     Entry("JMP", InstructionRegular, OpJmp),
     Entry("JMPN", InstructionRegular, OpJmpN),
     Entry("JMPP", InstructionRegular, OpJmpP),
     Entry("JMPZ", InstructionRegular, OpJmpZ),
     Entry("COPY", InstructionCopy, OpCopy),
     Entry("LOAD", InstructionRegular, OpLoad),
     Entry("STORE", InstructionRegular, OpStore),
     Entry("INPUT", InstructionRegular, OpInput),
     Entry("OUTPUT", InstructionRegular, OpOutput),
     Entry("STOP", InstructionStop, OpStop)
    ]

  /** The record a keyword is seeded with: a zero record with its kind and opcode set. */
  function Record(e: Entry): (s: Symbol)
    ensures s.kind == e.kind && s.opcode == e.opcode && s.refs == []
  {
    Zero.(kind := e.kind, opcode := e.opcode)
  }

  /** The key -> record map that seeding the first n entries of es, in order, into an empty table gives. */
  function TableOf(es: seq<Entry>, n: nat): (m: map<string, Symbol>)
    requires n <= |es|
    ensures m.Keys == set j | 0 <= j < n :: es[j].key
  {
    if n == 0 then map[] else TableOf(es, n - 1)[es[n - 1].key := Record(es[n - 1])]
  }

  /** The table contents right after TCASM_symbol_init on a new table. */
  const KeywordTable: map<string, Symbol> := TableOf(Entries, |Entries|)

  /**
   * One step of TCASM_symbol_init: get the record of a key the table does
   * not hold yet, which creates a zero record, and set its kind and opcode.
   */
  method Seed(table: HashTable<Symbol>, e: Entry) returns (cell: Cell<Symbol>)
    requires table.Valid() && table.zero == Zero && e.key !in table.Contents
    modifies table, table.Repr
    ensures table.Valid() && table.zero == Zero && table.Repr == old(table.Repr)
    ensures fresh(cell) && table.Contents == old(table.Contents)[e.key := cell]
    ensures cell.contents == Record(e)
  {
    var created;
    cell, created := table.Get(e.key);
    cell.contents := Zero.(kind := e.kind, opcode := e.opcode);
  }

  /** No key occurs twice in es. */
  predicate DistinctKeys(es: seq<Entry>)
  {
    forall a, b :: 0 <= a < b < |es| ==> es[a].key != es[b].key
  }

  /** Seeding one more entry adds its key, which the prefix before it does not hold. */
  lemma TableOfStep(es: seq<Entry>, i: nat)
    requires DistinctKeys(es) && i < |es|
    ensures es[i].key !in TableOf(es, i)
    ensures TableOf(es, i + 1) == TableOf(es, i)[es[i].key := Record(es[i])]
  {
  }

  /**
   * The steps of TCASM_symbol_init for the entries es, in order, on a new
   * table: afterwards the table holds exactly their keys, each bound to its
   * keyword record.
   */
  method SeedAll(table: HashTable<Symbol>, es: seq<Entry>)
    requires table.Valid() && table.zero == Zero && table.Contents == map[]
    requires DistinctKeys(es)
    modifies table, table.Repr
    ensures table.Valid() && table.zero == Zero && table.Repr == old(table.Repr)
    ensures table.Contents.Keys == TableOf(es, |es|).Keys
    ensures forall key :: key in table.Contents ==> table.Contents[key].contents == TableOf(es, |es|)[key]
  {
    for i := 0 to |es|
      invariant table.Valid() && table.zero == Zero && table.Repr == old(table.Repr)
      invariant table.Contents.Keys == TableOf(es, i).Keys
      invariant forall key :: key in table.Contents ==>
        table.Contents[key].contents == TableOf(es, i)[key]
    {
      TableOfStep(es, i);
      ghost var before := table.Contents;
      var cell := Seed(table, es[i]);
      forall key | key in before
        ensures table.Contents[key].contents == before[key].contents
      {
        assert before[key] != cell;
      }
    }
  }

  /**
   * TCASM_symbol_init on a new table: afterwards the table holds exactly
   * the keys of KeywordTable, each bound to its keyword record.
   */
  method SymbolInit(table: HashTable<Symbol>)
    requires table.Valid() && table.zero == Zero && table.Contents == map[]
    modifies table, table.Repr
    ensures table.Valid() && table.Contents.Keys == KeywordTable.Keys
    ensures forall key :: key in table.Contents ==> table.Contents[key].contents == KeywordTable[key]
  {
    EntriesDistinct();
    SeedAll(table, Entries);
  }

  /** The 19 keys are distinct upper-case words. */
  lemma EntriesDistinct()
    ensures |Entries| == 19
    ensures DistinctKeys(Entries)
    ensures forall j :: 0 <= j < |Entries| ==> IsUpperWord(Entries[j].key)
  {
    EntriesUpper();
    DistinctFrom(0, 5);
    DistinctFrom(5, 10);
    DistinctFrom(10, 15);
    DistinctFrom(15, 19);
  }

  /** The keys of entries lo .. hi - 1 differ from every key after them. */
  lemma DistinctFrom(lo: nat, hi: nat)
    requires (lo, hi) in {(0, 5), (5, 10), (10, 15), (15, 19)}
    ensures forall a, b :: lo <= a < hi && a < b < |Entries| ==> Entries[a].key != Entries[b].key
  {
    forall a, b | lo <= a < hi && a < b < |Entries|
      ensures Entries[a].key != Entries[b].key
    {
      assert Tag(Entries[a].key) != Tag(Entries[b].key);
    }
  }

  lemma EntriesUpper()
    ensures forall j :: 0 <= j < |Entries| ==> IsUpperWord(Entries[j].key)
  {
  }

  /** Length, first two letters and last letter: already different for any two keywords. */
  function Tag(w: string): (int, char, char, char)
    requires |w| >= 2
  {
    (|w|, w[0], w[1], w[|w| - 1])
  }

  predicate IsUpperWord(w: string)
  {
    |w| > 0 && forall i :: 0 <= i < |w| ==> 'A' <= w[i] <= 'Z'
  }

  /** With distinct keys, every seeded key is bound to its own entry's record. */
  lemma {:induction false} TableOfLookup(es: seq<Entry>, n: nat, j: nat)
    requires DistinctKeys(es) && j < n <= |es|
    ensures es[j].key in TableOf(es, n) && TableOf(es, n)[es[j].key] == Record(es[j])
  {
    if j < n - 1 {
      TableOfLookup(es, n - 1, j);
    }
  }

  /** Entry j of the seed order is bound to its record after TCASM_symbol_init. */
  lemma KeywordAt(j: nat)
    requires j < |Entries|
    ensures Entries[j].key in KeywordTable && KeywordTable[Entries[j].key] == Record(Entries[j])
  {
    EntriesDistinct();
    TableOfLookup(Entries, |Entries|, j);
  }

  /** The seed-order position of a key of the table after TCASM_symbol_init. */
  ghost function EntryOf(key: string): (j: nat)
    requires key in KeywordTable
    ensures j < |Entries| && Entries[j].key == key && KeywordTable[key] == Record(Entries[j])
  {
    var j :| 0 <= j < |Entries| && Entries[j].key == key;
    KeywordAt(j);
    j
  }

  /**
   * The kinds and opcodes of the seed order: directives first, then the 14
   * mnemonics in opcode order, COPY and STOP with their own kinds.
   */
  lemma EntryKinds()
    ensures forall j :: 0 <= j < |Entries| ==>
      (IsDirective(Entries[j].kind) <==> j < 5)
      && (Entries[j].kind == InstructionCopy <==> j == 13)
      && (Entries[j].kind == InstructionStop <==> j == 18)
      && (5 <= j ==> IsInstruction(Entries[j].kind) && Entries[j].key == Mnemonics[j - 5]
                     && Entries[j].opcode == j - 4)
  {
  }

  /**
   * After TCASM_symbol_init every key is an upper-case word bound to a
   * record with no pending references.
   */
  lemma KeywordRecords()
    ensures forall key :: key in KeywordTable ==> IsUpperWord(key) && KeywordTable[key].refs == []
  {
    EntriesDistinct();
    forall key | key in KeywordTable
      ensures IsUpperWord(key) && KeywordTable[key].refs == []
    {
      var j := EntryOf(key);
    }
  }

  /**
   * SECTION, SPACE and CONST each get their own directive kind; TEXT and
   * DATA share the section-type kind.
   */
  lemma KeywordDirectives()
    ensures "SECTION" in KeywordTable && KeywordTable["SECTION"].kind == DirectiveSection
    ensures "SPACE" in KeywordTable && KeywordTable["SPACE"].kind == DirectiveSpace
    ensures "CONST" in KeywordTable && KeywordTable["CONST"].kind == DirectiveConst
    ensures "TEXT" in KeywordTable && KeywordTable["TEXT"].kind == DirectiveSectionType
    ensures "DATA" in KeywordTable && KeywordTable["DATA"].kind == DirectiveSectionType
  {
    KeywordAt(0);
    KeywordAt(1);
    KeywordAt(2);
    KeywordAt(3);
    KeywordAt(4);
  }

  /** No key other than those five is a directive. */
  lemma OnlyDirectives()
    ensures forall key :: key in KeywordTable && IsDirective(KeywordTable[key].kind) ==>
      key == "SECTION" || key == "SPACE" || key == "CONST" || key == "TEXT" || key == "DATA"
  {
    EntryKinds();
    forall key | key in KeywordTable && IsDirective(KeywordTable[key].kind)
      ensures key == "SECTION" || key == "SPACE" || key == "CONST" || key == "TEXT" || key == "DATA"
    {
      var j := EntryOf(key);
      assert j < 5;
    }
  }

  /** ADD .. STOP get opcodes 1 .. 14 in enumeration order, as instructions, and only they are instructions. */
  lemma KeywordOpcodes()
    ensures forall i :: 0 <= i < |Mnemonics| ==>
      Mnemonics[i] in KeywordTable && KeywordTable[Mnemonics[i]].opcode == i + 1
      && IsInstruction(KeywordTable[Mnemonics[i]].kind)
    ensures forall key :: key in KeywordTable && IsInstruction(KeywordTable[key].kind) ==>
      key in Mnemonics
  {
    EntryKinds();
    forall i | 0 <= i < |Mnemonics|
      ensures Mnemonics[i] in KeywordTable && KeywordTable[Mnemonics[i]].opcode == i + 1
      ensures IsInstruction(KeywordTable[Mnemonics[i]].kind)
    {
      KeywordAt(i + 5);
    }
    forall key | key in KeywordTable && IsInstruction(KeywordTable[key].kind)
      ensures key in Mnemonics
    {
      var j := EntryOf(key);
      assert Mnemonics[j - 5] == key;
    }
  }

  /**
   * COPY is the only copy instruction and STOP the only stop instruction;
   * every other mnemonic, the four jumps included, is a regular
   * instruction, so only the opcode tells a branch apart.
   */
  lemma KeywordInstructionKinds()
    ensures forall key :: key in KeywordTable ==>
      (KeywordTable[key].kind == InstructionCopy <==> key == "COPY")
    ensures forall key :: key in KeywordTable ==>
      (KeywordTable[key].kind == InstructionStop <==> key == "STOP")
    ensures forall key :: key in KeywordTable && IsInstruction(KeywordTable[key].kind) ==>
      key == "COPY" || key == "STOP" || KeywordTable[key].kind == InstructionRegular
  {
    EntriesDistinct();
    EntryKinds();
    forall key | key in KeywordTable
      ensures KeywordTable[key].kind == InstructionCopy <==> key == "COPY"
      ensures KeywordTable[key].kind == InstructionStop <==> key == "STOP"
    {
      var j := EntryOf(key);
      assert Entries[13].key == "COPY" && Entries[18].key == "STOP";
    }
  }

  /** After TCASM_symbol_init every record is a directive or an instruction, never an address. */
  lemma KeywordKinds()
    ensures forall key :: key in KeywordTable ==>
      IsDirective(KeywordTable[key].kind) || IsInstruction(KeywordTable[key].kind)
  {
    EntryKinds();
    forall key | key in KeywordTable
      ensures IsDirective(KeywordTable[key].kind) || IsInstruction(KeywordTable[key].kind)
    {
      var j := EntryOf(key);
    }
  }
}
