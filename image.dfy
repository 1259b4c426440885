// The layout of an assembled image that the translators rely on: from word
// 0, instructions (an opcode followed by its operand words) up to a STOP,
// then the data words.
module Images {
  import opened Common
  import opened Symbols

  /** How many operand words follow opcode op. */
  function Operands(op: uword): nat
  {
    if op == OpCopy then 2 else if OpAdd <= op <= OpOutput then 1 else 0
  }

  /**
   * The instruction walk from word p: opcodes 1..13 with their operands
   * inside the image, up to a 14 inside the image.
   */
  predicate WellFormedText(ws: seq<uword>, p: nat)
    ensures WellFormedText(ws, p) ==> p < |ws| && (ws[p] != OpStop ==> p + 1 + Operands(ws[p]) < |ws|)
    decreases |ws| - p
  {
    p < |ws| &&
    (ws[p] == OpStop ||
     (OpAdd <= ws[p] <= OpOutput && WellFormedText(ws, p + 1 + Operands(ws[p]))))
  }

  /** The index of the STOP ending a well-formed walk from p. */
  function StopIndex(ws: seq<uword>, p: nat): (i: nat)
    requires WellFormedText(ws, p)
    ensures p <= i < |ws| && ws[i] == OpStop
    decreases |ws| - p
  {
    if ws[p] == OpStop then p else StopIndex(ws, p + 1 + Operands(ws[p]))
  }
}
