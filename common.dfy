// Value types shared by the TCASM tools: the 16-bit machine word, bytes, the
// C integer conversions the tools rely on, and an optional value.
module Common {

  datatype Option<T> = None | Some(value: T)

  /** An unsigned 16-bit word (uint16_t): one cell of the hypothetical machine. */
  type uword = x: int | 0 <= x < 0x1_0000

  /** An unsigned byte. */
  type byte = x: int | 0 <= x < 0x100

  /** Number of cells in the machine's memory, and so the largest image. */
  const MemoryWords: nat := 0x1_0000

  /** C's conversion of an integer to uint16_t: the value modulo 2^16. */
  function U16(x: int): uword
  {
    x % 0x1_0000
  }

  /** The two's complement reading of a word (a uint16_t cast to int16_t). */
  function Signed(w: uword): int
  {
    if w < 0x8000 then w else w - 0x1_0000
  }

  /** C's conversion of an integer to int16_t (wrap-around on overflow). */
  function Wrap16(x: int): int
  {
    Signed(U16(x))
  }

  lemma Wrap16Range(x: int)
    ensures -0x8000 <= Wrap16(x) < 0x8000
    ensures (Wrap16(x) - x) % 0x1_0000 == 0
    ensures -0x8000 <= x < 0x8000 ==> Wrap16(x) == x
  {
  }

  /** Counting on: wrapping before an increment is wrapping after it. */
  lemma U16Succ(x: int)
    ensures U16(U16(x) + 1) == U16(x + 1)
  {
    var q := x / 0x1_0000;
    assert x == q * 0x1_0000 + U16(x);
    assert x + 1 == q * 0x1_0000 + (U16(x) + 1);
  }

  lemma SignedU16(x: int)
    requires -0x8000 <= x < 0x8000
    ensures Signed(U16(x)) == x
  {
  }

  /** Addition of a size_t and an int as C performs it: modulo 2^64. */
  function SizeT(x: int): int
  {
    x % 0x1_0000_0000_0000_0000
  }

  /** C's truncating division (rounds toward zero), unlike Dafny's Euclidean `/`. */
  function TruncDiv(a: int, b: int): int
    requires b != 0
  {
    var q := (if a < 0 then -a else a) / (if b < 0 then -b else b);
    if (a < 0) == (b < 0) then q else -q
  }

  /**
   * C's conversion of a long to int, as gcc performs it: the value modulo
   * 2^32, read in two's complement.
   */
  function Int32(x: int): (r: int)
    ensures -0x8000_0000 <= r < 0x8000_0000
    ensures -0x8000_0000 <= x < 0x8000_0000 ==> r == x
  {
    var u := x % 0x1_0000_0000;
    if u < 0x8000_0000 then u else u - 0x1_0000_0000
  }

  /** A size_t sum that does not leave the range of a 64-bit word is the sum, or the sum plus 2^64 when negative. */
  lemma SizeTRange(x: int)
    requires -0x1_0000_0000_0000_0000 <= x < 0x1_0000_0000_0000_0000
    ensures SizeT(x) == if x < 0 then x + 0x1_0000_0000_0000_0000 else x
  {
  }
}
