// The declarations of TCASM_symbol.h: symbol kinds, opcodes, the pending
// reference records and the symbol record itself.
module Symbols {
  import opened Common

  /** TCASM_SYMBOL_MAX_IDENTIFIER_SIZE: the longest identifier accepted. */
  const MaxIdentifierSize: nat := 1000

  /** TCASM_symbol_type_t, in declaration order (see Code). */
  datatype Kind =
    | DirectiveSection | DirectiveSectionType | DirectiveSpace | DirectiveConst
    | InstructionRegular | InstructionCopy | InstructionStop
    | AddressText | AddressVar | AddressConst | AddressArray

  predicate IsDirective(k: Kind)
  {
    k.DirectiveSection? || k.DirectiveSectionType? || k.DirectiveSpace? || k.DirectiveConst?
  }

  predicate IsInstruction(k: Kind)
  {
    k.InstructionRegular? || k.InstructionCopy? || k.InstructionStop?
  }

  /** A data address: what an operand of a non-branch instruction may name. */
  predicate IsDataAddress(k: Kind)
  {
    k.AddressVar? || k.AddressConst? || k.AddressArray?
  }

  /**
   * The enumerator value of a kind. The assembler compares kinds by these
   * numbers, so the three groups must be contiguous and in this order:
   * directives 0-3, instructions 4-6, addresses 7-10.
   */
  function Code(k: Kind): (r: nat)
    ensures r <= 10
    ensures IsDirective(k) <==> r <= 3
    ensures IsInstruction(k) <==> 4 <= r <= 6
    ensures k.AddressText? <==> r == 7
    ensures IsDataAddress(k) <==> 8 <= r
  {
    match k
    case DirectiveSection => 0
    case DirectiveSectionType => 1
    case DirectiveSpace => 2
    case DirectiveConst => 3
    case InstructionRegular => 4
    case InstructionCopy => 5
    case InstructionStop => 6
    case AddressText => 7
    case AddressVar => 8
    case AddressConst => 9
    case AddressArray => 10
  }

  /** Distinct kinds have distinct enumerator values. */
  lemma CodeInjective(a: Kind, b: Kind)
    ensures Code(a) == Code(b) <==> a == b
  {
  }

  // The opcode enumeration: ADD = 1 up to STOP = 14, consecutive.
  const OpAdd: uword := 1
  const OpSub: uword := 2
  const OpMult: uword := 3
  const OpDiv: uword := 4
  const OpJmp: uword := 5
  const OpJmpN: uword := 6
  const OpJmpP: uword := 7
  const OpJmpZ: uword := 8
  const OpCopy: uword := 9
  const OpLoad: uword := 10
  const OpStore: uword := 11
  const OpInput: uword := 12
  const OpOutput: uword := 13
  const OpStop: uword := 14

  /** The mnemonics in opcode order: Mnemonics[i] has opcode i + 1. */
  const Mnemonics: seq<string> :=
    ["ADD", "SUB", "MULT", "DIV", "JMP", "JMPN", "JMPP", "JMPZ",
     "COPY", "LOAD", "STORE", "INPUT", "OUTPUT", "STOP"]

  /** The opcode constants listed in Mnemonics order. */
  const Opcodes: seq<uword> :=
    [OpAdd, OpSub, OpMult, OpDiv, OpJmp, OpJmpN, OpJmpP, OpJmpZ,
     OpCopy, OpLoad, OpStore, OpInput, OpOutput, OpStop]

  /** Opcodes are consecutive from ADD = 1 to STOP = 14. */
  lemma OpcodesConsecutive()
    ensures |Opcodes| == |Mnemonics| == 14
    ensures forall i :: 0 <= i < 14 ==> Opcodes[i] == i + 1
  {
  }

  /**
   * A pending reference, in one of the three shapes of TCASM_symbol.h:
   * (line, addr) for labels and for data declared before the code;
   * (instr_addr, line, op_addr) for data declared after the code;
   * (offset, line, addr) for arrays.
   */
  datatype Ref =
    | AddrRef(line: nat, addr: uword)
    | VarConstRef(instrAddr: uword, line: nat, opAddr: uword)
    | ArrayRef(offset: uword, line: nat, addr: uword)

  /** The image word the reference patches. */
  function RefPos(r: Ref): uword
  {
    match r
    case AddrRef(_, a) => a
    case VarConstRef(_, _, a) => a
    case ArrayRef(_, _, a) => a
  }

  /** The displacement the patched word adds to the symbol's address. */
  function RefOffset(r: Ref): nat
  {
    if r.ArrayRef? then r.offset else 0
  }

  /**
   * TCASM_symbol_t. The C union is split into one field per member that the
   * assembler reads or writes (instr.opcode, text.addr, constant.value,
   * array.size) plus the reference list every address kind carries.
   */
  datatype Symbol = Symbol(kind: Kind, opcode: uword, addr: uword, value: uword, size: uword, refs: seq<Ref>)

  /** A record as calloc leaves it: kind 0, i.e. DirectiveSection, and no references. */
  const Zero: Symbol := Symbol(DirectiveSection, 0, 0, 0, 0, [])

  /** A constant is kept as the 16-bit two's complement of its value. */
  function ConstWord(i: int): (w: uword)
    requires -0x8000 <= i < 0x8000
    ensures Signed(w) == i
    ensures w == 0 <==> i == 0
  {
    SignedU16(i);
    U16(i)
  }

  /**
   * The 16-bit word at the start of the union, which is what reading the
   * member array.size of a record of another kind yields: the opcode of an
   * instruction, the address of a label, the value of a constant, the size
   * of an array, and 0 for a keyword directive (its union is never set). The
   * head of a variable's union is part of a list header, so no word is given.
   */
  function OverlaidSize(s: Symbol): (r: Option<uword>)
    ensures IsInstruction(s.kind) ==> r == Some(s.opcode)
    ensures s.kind.AddressArray? ==> r == Some(s.size)
    ensures r.None? <==> s.kind.AddressVar?
  {
    match s.kind
    case InstructionRegular => Some(s.opcode)
    case InstructionCopy => Some(s.opcode)
    case InstructionStop => Some(s.opcode)
    case AddressText => Some(s.addr)
    case AddressConst => Some(s.value)
    case AddressArray => Some(s.size)
    case AddressVar => None
    case _ => Some(0)
  }
}
