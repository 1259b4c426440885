// The IA-32 ELF generator (TCASM_IA-32_ELF_generator.cpp): translates an
// assembled image word by word into x86 machine code, six bytes per word,
// and wraps it in an ELF32 executable (TIS ELF specification 1.2, book I,
// "ELF Header" and "Program Header").
module ElfGen {
  import opened Common
  import opened Images

  /** Virtual address at which the single segment is loaded. */
  const LoadAddress: nat := 0x0804_8000

  /** sizeof(Elf32_Ehdr) and sizeof(Elf32_Phdr). */
  const EhdrSize: nat := 52
  const PhdrSize: nat := 32

  /** The assembled GetInt/PutInt routines placed between the headers and the code. */
  const BlobSize: nat := 192

  /** File offset (and offset from LoadAddress) of the first translated word. */
  const StartOffset: nat := EhdrSize + PhdrSize + BlobSize

  /** Bytes per translated word. */
  const Width: nat := 6

  /**
   * The input stream: how many words have been consumed and the last word
   * fread stored. A read at end of file stores nothing and so gives the
   * previous word again.
   */
  datatype Cursor = Cursor(pos: nat, code: uword)

  function Fetch(ws: seq<uword>, r: Cursor): (r': Cursor)
    ensures r.pos < |ws| ==> r' == Cursor(r.pos + 1, ws[r.pos])
    ensures r.pos >= |ws| ==> r' == r
  {
    if r.pos < |ws| then Cursor(r.pos + 1, ws[r.pos]) else r
  }

  /** putWord(x): the four bytes of x as a 32-bit two's complement value, least significant first. */
  function Bytes32(x: int): (b: seq<byte>)
    ensures |b| == 4
  {
    var x1 := x / 0x100;
    var x2 := x1 / 0x100;
    var x3 := x2 / 0x100;
    [x % 0x100, x1 % 0x100, x2 % 0x100, x3 % 0x100]
  }

  /** The unsigned value of four little-endian bytes. */
  function Value32(b: seq<byte>): nat
    requires |b| == 4
  {
    var b0: int, b1: int, b2: int, b3: int := b[0], b[1], b[2], b[3];
    b0 + 0x100 * (b1 + 0x100 * (b2 + 0x100 * b3))
  }

  /** The low two bytes of x, least significant first (a uint16_t field). */
  function Bytes16(x: int): (b: seq<byte>)
    ensures |b| == 2
  {
    Bytes32(x)[..2]
  }

  /** putWord writes x modulo 2^32, least significant byte first. */
  lemma Bytes32Value(x: int)
    ensures Value32(Bytes32(x)) == x % 0x1_0000_0000
  {
    var x1 := x / 0x100;
    var x2 := x1 / 0x100;
    var x3 := x2 / 0x100;
    var x4 := x3 / 0x100;
    assert x == 0x100 * x1 + x % 0x100;
    assert x1 == 0x100 * x2 + x1 % 0x100;
    assert x2 == 0x100 * x3 + x2 % 0x100;
    assert x3 == 0x100 * x4 + x3 % 0x100;
    var v := Value32(Bytes32(x));
    assert x == v + 0x1_0000_0000 * x4;
    LowWord(x, v, x4);
  }

  /** x is v plus a multiple of 2^32, with v a 32-bit value: v is x's low 32 bits. */
  lemma LowWord(x: int, v: int, q: int)
    requires 0 <= v < 0x1_0000_0000 && x == v + 0x1_0000_0000 * q
    ensures x % 0x1_0000_0000 == v
  {
  }

  /** putDataAddress: the virtual address of data word d. */
  function DataAddress(d: uword): nat
  {
    LoadAddress + StartOffset + (d + 1) * Width
  }

  /**
   * putJumpAddress with len bytes already emitted: the rel32 field that
   * reaches the translation of word t from the end of the field.
   */
  function JumpField(t: uword, len: nat): seq<byte>
  {
    Bytes32(t * Width - (len + 4))
  }

  /** The translator's state after an instruction: the input position and the code so far. */
  datatype Emitted = Emitted(reader: Cursor, out: seq<byte>)

  /**
   * The bytes the switch emits for opcode op, reading its operands from r;
   * an opcode outside 1..13 emits nothing.
   */
  function Encode(op: uword, ws: seq<uword>, r: Cursor, out: seq<byte>): (e: Emitted)
    requires r.pos <= |ws|
    ensures r.pos <= e.reader.pos <= |ws|
    ensures out <= e.out
  {
    var r1 := Fetch(ws, r);
    var r2 := Fetch(ws, r1);
    match op
    case 1 => Emitted(r1, out + [0x66, 0x03, 0x05] + Bytes32(DataAddress(r1.code)))
    case 2 => Emitted(r1, out + [0x66, 0x2B, 0x05] + Bytes32(DataAddress(r1.code)))
    case 3 => Emitted(r1, out + [0x66, 0x0F, 0xAF, 0x05] + Bytes32(DataAddress(r1.code)))
    case 4 => Emitted(r1, out + [0x66, 0x99, 0x66, 0xF7, 0x3D] + Bytes32(DataAddress(r1.code)))
    case 5 => Emitted(r1, out + [0xE9] + JumpField(r1.code, |out| + 1) + [0x90, 0x90])
    case 6 => Emitted(r1, out + [0x66, 0x83, 0xF8, 0x00, 0x0F, 0x8C] + JumpField(r1.code, |out| + 6))
    case 7 => Emitted(r1, out + [0x66, 0x83, 0xF8, 0x00, 0x0F, 0x8F] + JumpField(r1.code, |out| + 6))
    case 8 => Emitted(r1, out + [0x66, 0x83, 0xF8, 0x00, 0x0F, 0x84] + JumpField(r1.code, |out| + 6))
    case 9 =>
      Emitted(r2, out + [0x66, 0x8B, 0x1D] + Bytes32(DataAddress(r1.code))
                      + [0x66, 0x89, 0x1D] + Bytes32(DataAddress(r2.code)))
    case 10 => Emitted(r1, out + [0x66, 0xA1] + Bytes32(DataAddress(r1.code)) + [0x90])
    case 11 => Emitted(r1, out + [0x66, 0xA3] + Bytes32(DataAddress(r1.code)) + [0x90])
    case 12 =>
      Emitted(r1, out + [0xE8] + Bytes32(-(|out| + 1 + 4 + 184))
                      + [0x66, 0x89, 0x1D] + Bytes32(DataAddress(r1.code)))
    case 13 =>
      Emitted(r1, out + [0x66, 0x8B, 0x1D] + Bytes32(DataAddress(r1.code))
                      + [0xE8] + Bytes32(-(|out| + 8 + 4 + 96)))
    case _ => Emitted(r, out)
  }

  /** NOPs (0x90) up to the next multiple of six bytes. */
  function Pad(out: seq<byte>): (p: seq<byte>)
    ensures |p| % Width == 0 && out <= p && |p| < |out| + Width
  {
    out + seq((Width - |out| % Width) % Width, _ => 0x90)
  }

  /**
   * The loop `while (read() != 14)`: None when a read at end of file keeps
   * giving a word other than 14, where the source never leaves the loop.
   */
  function Text(ws: seq<uword>, r: Cursor, out: seq<byte>): (t: Option<Emitted>)
    requires r.pos <= |ws|
    ensures t.Some? ==> r.pos <= t.value.reader.pos <= |ws| && t.value.reader.code == 14
    decreases |ws| - r.pos
  {
    var r1 := Fetch(ws, r);
    if r1.code == 14 then Some(Emitted(r1, out))
    else if r.pos == |ws| then None
    else
      var e := Encode(r1.code, ws, r1, out);
      Text(ws, e.reader, Pad(e.out))
  }

  /** STOP: mov eax, 1; mov ebx, 0; int 80h. */
  function StopCode(): (b: seq<byte>)
    ensures |b| == 12
  {
    [0xB8] + Bytes32(1) + [0xBB] + Bytes32(0) + [0xCD, 0x80]
  }

  /** Each word after STOP: its 32-bit value and two zero bytes. */
  function DataSection(ds: seq<uword>): (b: seq<byte>)
    ensures |b| == Width * |ds|
  {
    if ds == [] then []
    else DataSection(ds[..|ds| - 1]) + Bytes32(ds[|ds| - 1]) + [0, 0]
  }

  /** The translated program, or None when translation never ends. */
  function Translation(ws: seq<uword>): Option<seq<byte>>
  {
    match Text(ws, Cursor(0, 0), [])
    case None => None
    case Some(e) => Some(e.out + StopCode() + DataSection(ws[e.reader.pos..]))
  }

  const Ident: seq<byte> := [0x7F, 0x45, 0x4C, 0x46, 1, 1, 1, 0, 0, 0, 0, 0, 0, 0, 0, 0]

  /** The fields of the ELF header, each little-endian. */
  function ElfHeader(): seq<byte>
  {
    Ident + Bytes16(2) + Bytes16(3) + Bytes32(1) + Bytes32(LoadAddress + StartOffset)
    + Bytes32(EhdrSize) + Bytes32(0) + Bytes32(0)
    + Bytes16(EhdrSize) + Bytes16(PhdrSize) + Bytes16(1) + Bytes16(40) + Bytes16(0) + Bytes16(0)
  }

  /** The one program header: a loadable, RWX segment covering the whole file. */
  function ProgramHeader(codeSize: nat): seq<byte>
  {
    Bytes32(1) + Bytes32(0) + Bytes32(LoadAddress) + Bytes32(LoadAddress)
    + Bytes32(StartOffset + codeSize) + Bytes32(StartOffset + codeSize) + Bytes32(7) + Bytes32(4)
  }

  /** writeElf: header, program header, the GetInt/PutInt blob, the code. */
  function ElfFile(blob: seq<byte>, code: seq<byte>): seq<byte>
    requires |blob| == BlobSize
  {
    ElfHeader() + ProgramHeader(|code|) + blob + code
  }

  /**
   * The ELF header: 52 bytes, the ELF magic, version 1, an executable (2) for
   * the 386 (3), entering at the first code byte, with one program header of
   * 32 bytes right after the header.
   */
  lemma ElfHeaderFields()
    ensures var h := ElfHeader();
      |h| == EhdrSize && h[..4] == [0x7F, 0x45, 0x4C, 0x46] && h[4..7] == [1, 1, 1] &&
      h[16..18] == [2, 0] && h[18..20] == [3, 0] && Value32(h[20..24]) == 1 &&
      Value32(h[24..28]) == LoadAddress + StartOffset && Value32(h[28..32]) == EhdrSize &&
      h[40..42] == [52, 0] && h[42..44] == [32, 0] && h[44..46] == [1, 0]
  {
    var c := Ident + Bytes16(2) + Bytes16(3) + Bytes32(1) + Bytes32(LoadAddress + StartOffset) + Bytes32(EhdrSize);
    var t := Bytes32(0) + Bytes32(0) + Bytes16(EhdrSize) + Bytes16(PhdrSize) + Bytes16(1) + Bytes16(40) + Bytes16(0) + Bytes16(0);
    HeaderPrefix(c, t);
    EntryBytes();
    assert c[..16] == Ident;
    assert c[16..18] == Bytes16(2) && c[18..20] == Bytes16(3) && c[20..24] == Bytes32(1);
    assert c[24..28] == Bytes32(LoadAddress + StartOffset) && c[28..32] == Bytes32(EhdrSize);
    assert t[8..10] == Bytes16(EhdrSize) && t[10..12] == Bytes16(PhdrSize) && t[12..14] == Bytes16(1);
    var h := ElfHeader();
    assert h[..4] == c[..4] && h[4..7] == c[4..7] && h[16..18] == c[16..18] && h[18..20] == c[18..20];
    assert h[20..24] == c[20..24] && h[24..28] == c[24..28] && h[28..32] == c[28..32];
    assert h[40..42] == t[8..10] && h[42..44] == t[10..12] && h[44..46] == t[12..14];
  }

  lemma HeaderPrefix(c: seq<byte>, t: seq<byte>)
    requires c == Ident + Bytes16(2) + Bytes16(3) + Bytes32(1) + Bytes32(LoadAddress + StartOffset) + Bytes32(EhdrSize)
    requires t == Bytes32(0) + Bytes32(0) + Bytes16(EhdrSize) + Bytes16(PhdrSize) + Bytes16(1) + Bytes16(40) + Bytes16(0) + Bytes16(0)
    ensures |ElfHeader()| == EhdrSize && ElfHeader()[..32] == c && ElfHeader()[32..] == t
  {
    assert ElfHeader() == c + t;
  }

  lemma EntryBytes()
    ensures Bytes32(LoadAddress + StartOffset) == [0x14, 0x81, 0x04, 0x08]
    ensures Value32([0x14, 0x81, 0x04, 0x08]) == LoadAddress + StartOffset
    ensures Bytes32(EhdrSize) == [52, 0, 0, 0] && Bytes16(2) == [2, 0] && Bytes16(3) == [3, 0]
    ensures Bytes32(1) == [1, 0, 0, 0] && Value32([1, 0, 0, 0]) == 1
    ensures Bytes16(EhdrSize) == [52, 0] && Bytes16(PhdrSize) == [32, 0] && Bytes16(1) == [1, 0]
  {
  }

  /**
   * The program header: 32 bytes, a loadable segment (1) from file offset 0 at
   * virtual and physical address LoadAddress, whose file and memory sizes are
   * StartOffset plus the code, readable, writable and executable (7), aligned
   * to 4.
   */
  lemma ProgramHeaderFields(n: nat)
    ensures var p := ProgramHeader(n);
      |p| == PhdrSize && Value32(p[..4]) == 1 && Value32(p[4..8]) == 0 &&
      Value32(p[8..12]) == LoadAddress && Value32(p[12..16]) == LoadAddress &&
      Value32(p[16..20]) == (StartOffset + n) % 0x1_0000_0000 &&
      Value32(p[20..24]) == (StartOffset + n) % 0x1_0000_0000 &&
      Value32(p[24..28]) == 7 && Value32(p[28..32]) == 4
  {
    var p := ProgramHeader(n);
    assert p[..4] == Bytes32(1) && p[4..8] == Bytes32(0);
    assert p[8..12] == Bytes32(LoadAddress) && p[12..16] == Bytes32(LoadAddress);
    assert p[16..20] == Bytes32(StartOffset + n) && p[20..24] == Bytes32(StartOffset + n);
    assert p[24..28] == Bytes32(7) && p[28..32] == Bytes32(4);
    Bytes32Value(1);
    Bytes32Value(0);
    Bytes32Value(LoadAddress);
    Bytes32Value(StartOffset + n);
    Bytes32Value(7);
    Bytes32Value(4);
  }

  /**
   * The file's layout: the segment's size is the file's, and the code starts
   * at StartOffset, where the entry point is.
   */
  lemma ElfLayout(blob: seq<byte>, code: seq<byte>)
    requires |blob| == BlobSize
    ensures var f := ElfFile(blob, code);
      |f| == StartOffset + |code| && f[..EhdrSize] == ElfHeader() &&
      Value32(f[EhdrSize + 16..EhdrSize + 20]) == |f| % 0x1_0000_0000 &&
      Value32(f[EhdrSize + 20..EhdrSize + 24]) == |f| % 0x1_0000_0000 &&
      f[EhdrSize + PhdrSize..StartOffset] == blob && f[StartOffset..] == code
  {
    var f := ElfFile(blob, code);
    ElfHeaderFields();
    ProgramHeaderFields(|code|);
    var p := ProgramHeader(|code|);
    assert f[EhdrSize..EhdrSize + PhdrSize] == p;
    assert f[EhdrSize + 16..EhdrSize + 20] == p[16..20];
    assert f[EhdrSize + 20..EhdrSize + 24] == p[20..24];
  }

  /** A jump field emitted at offset len lands, after the field, on the first byte of word t's translation. */
  lemma JumpLands(t: uword, len: nat)
    ensures (len + 4 + Value32(JumpField(t, len))) % 0x1_0000_0000 == (t * Width) % 0x1_0000_0000
  {
    Bytes32Value(t * Width - (len + 4));
    ModShift(len + 4, t * Width);
  }

  /** Adding a to (b - a) mod 2^32 gives b, mod 2^32. */
  lemma ModShift(a: int, b: int)
    ensures (a + (b - a) % 0x1_0000_0000) % 0x1_0000_0000 == b % 0x1_0000_0000
  {
    var k := (b - a) / 0x1_0000_0000;
    assert (b - a) % 0x1_0000_0000 == b - a - 0x1_0000_0000 * k;
    LowWord(b, b % 0x1_0000_0000, b / 0x1_0000_0000);
    LowWord(a + (b - a) % 0x1_0000_0000, b % 0x1_0000_0000, b / 0x1_0000_0000 - k);
  }

  /** How many bytes the switch emits for opcode op, before padding. */
  function RawLength(op: uword): nat
  {
    match op
    case 1 => 7
    case 2 => 7
    case 3 => 8
    case 4 => 9
    case 5 => 7
    case 9 => 14
    case 10 => 7
    case 11 => 7
    case 12 => 12
    case 13 => 12
    case _ => if 6 <= op <= 8 then 10 else 0
  }

  lemma EncodeLength(op: uword, ws: seq<uword>, r: Cursor, out: seq<byte>)
    requires r.pos + Operands(op) <= |ws|
    ensures var e := Encode(op, ws, r, out);
      e.reader.pos == r.pos + Operands(op) && |e.out| == |out| + RawLength(op)
  {
  }

  lemma ModOffset(q: int, l: int)
    requires 0 < l <= Width
    ensures (Width * q + l) % Width == l % Width
  {
  }

  /**
   * An instruction read from the file with all its operands present takes
   * exactly six bytes per word once padded.
   */
  lemma EncodeAligned(op: uword, ws: seq<uword>, r: Cursor, out: seq<byte>)
    requires 1 <= op <= 13 && r.pos + Operands(op) <= |ws| && |out| == Width * (r.pos - 1)
    ensures var e := Encode(op, ws, r, out);
      e.reader.pos == r.pos + Operands(op) && |Pad(e.out)| == Width * e.reader.pos
  {
    var e := Encode(op, ws, r, out);
    EncodeLength(op, ws, r, out);
    var m := if op == 9 then 3 else 2;
    var q := r.pos - 1 + m - 1;
    assert |e.out| == Width * q + (RawLength(op) - Width * (m - 1));
    ModOffset(q, RawLength(op) - Width * (m - 1));
  }

  /** On a well-formed walk every word before STOP becomes six bytes. */
  lemma {:induction false} TextLayout(ws: seq<uword>, p: nat, c: uword, out: seq<byte>)
    requires WellFormedText(ws, p) && |out| == Width * p
    ensures var i := StopIndex(ws, p);
      Text(ws, Cursor(p, c), out).Some? &&
      Text(ws, Cursor(p, c), out).value.reader == Cursor(i + 1, 14) &&
      |Text(ws, Cursor(p, c), out).value.out| == Width * i &&
      out <= Text(ws, Cursor(p, c), out).value.out
    decreases |ws| - p
  {
    var r1 := Fetch(ws, Cursor(p, c));
    if ws[p] != 14 {
      var e := Encode(r1.code, ws, r1, out);
      EncodeAligned(r1.code, ws, r1, out);
      TextLayout(ws, e.reader.pos, e.reader.code, Pad(e.out));
    }
  }

  /**
   * For a well-formed image the code is six bytes per word plus six for
   * STOP's second half, and every data word d sits at code offset 6(d+1),
   * which is where DataAddress(d) points once the file is loaded.
   */
  lemma {:induction false} TranslationLayout(ws: seq<uword>)
    requires WellFormedText(ws, 0)
    ensures Translation(ws).Some?
    ensures var code := Translation(ws).value;
      |code| == Width * (|ws| + 1) &&
      forall d :: StopIndex(ws, 0) < d < |ws| ==>
        code[Width * (d + 1)..Width * (d + 1) + 4] == Bytes32(ws[d])
  {
    var i := StopIndex(ws, 0);
    TextLayout(ws, 0, 0, []);
    var e := Text(ws, Cursor(0, 0), []).value;
    var ds := ws[i + 1..];
    var code := e.out + StopCode() + DataSection(ds);
    forall d | i < d < |ws|
      ensures code[Width * (d + 1)..Width * (d + 1) + 4] == Bytes32(ws[d])
    {
      DataSectionAt(ds, d - i - 1);
      assert code[Width * (d + 1)..Width * (d + 1) + 4] == DataSection(ds)[Width * (d - i - 1)..Width * (d - i - 1) + 4];
    }
  }

  /**
   * A data operand d, encoded as DataAddress(d), addresses the four bytes
   * that hold data word d once the file is loaded at LoadAddress.
   */
  lemma DataOperandsPoint(ws: seq<uword>, blob: seq<byte>, d: uword)
    requires WellFormedText(ws, 0) && |blob| == BlobSize && StopIndex(ws, 0) < d < |ws|
    ensures Translation(ws).Some?
    ensures var f := ElfFile(blob, Translation(ws).value);
      var a := DataAddress(d) - LoadAddress;
      a + 4 <= |f| && f[a..a + 4] == Bytes32(ws[d])
  {
    TranslationLayout(ws);
    var code := Translation(ws).value;
    ElfLayout(blob, code);
    var f := ElfFile(blob, code);
    var a := DataAddress(d) - LoadAddress;
    assert a == StartOffset + Width * (d + 1);
    SuffixSlice(f, StartOffset, code, Width * (d + 1), Width * (d + 1) + 4);
  }

  /** A slice of the part after o is the slice of f shifted by o. */
  lemma SuffixSlice(f: seq<byte>, o: nat, code: seq<byte>, i: nat, j: nat)
    requires o <= |f| && f[o..] == code && i <= j <= |code|
    ensures f[o + i..o + j] == code[i..j]
  {
    forall k | 0 <= k < j - i
      ensures f[o + i..o + j][k] == code[i..j][k]
    {
      assert code[i + k] == f[o + (i + k)];
    }
  }

  /** Word k of the data section is at byte 6k. */
  lemma {:induction false} DataSectionAt(ds: seq<uword>, k: nat)
    requires k < |ds|
    ensures DataSection(ds)[Width * k..Width * k + 4] == Bytes32(ds[k])
    ensures DataSection(ds)[Width * k + 4..Width * k + 6] == [0, 0]
    decreases |ds|
  {
    var n := |ds| - 1;
    assert DataSection(ds) == DataSection(ds[..n]) + Bytes32(ds[n]) + [0, 0];
    if k < n {
      DataSectionAt(ds[..n], k);
    }
  }

  /** The translator's globals: the input stream, the last word read, the output vector. */
  class Generator {
    const input: seq<uword>
    var pos: nat
    var code: uword
    var output: seq<byte>

    predicate Valid()
      reads this
    {
      pos <= |input|
    }

    function Stream(): Cursor
      reads this
    {
      Cursor(pos, code)
    }

    constructor (input: seq<uword>)
      ensures Valid() && this.input == input && Stream() == Cursor(0, 0) && output == []
    {
      this.input := input;
      pos, code := 0, 0;
      output := [];
    }

    /** read(): fread of one word, which leaves code as it was at end of file. */
    method Read() returns (w: uword)
      requires Valid()
      modifies this`pos, this`code
      ensures Valid() && Stream() == Fetch(input, old(Stream())) && w == code
    {
      if pos < |input| {
        code := input[pos];
        pos := pos + 1;
      }
      w := code;
    }

    method PutByte(x: byte)
      modifies this`output
      ensures output == old(output) + [x]
    {
      output := output + [x];
    }

    method PutWord(x: int)
      modifies this`output
      ensures output == old(output) + Bytes32(x)
    {
      var x1 := x / 0x100;
      var x2 := x1 / 0x100;
      var x3 := x2 / 0x100;
      PutByte(x % 0x100);
      PutByte(x1 % 0x100);
      PutByte(x2 % 0x100);
      PutByte(x3 % 0x100);
    }

    method PutDataAddress()
      requires Valid()
      modifies this
      ensures Valid() && Stream() == Fetch(input, old(Stream()))
      ensures output == old(output) + Bytes32(DataAddress(code))
    {
      var d := Read();
      PutWord(LoadAddress + StartOffset + (d + 1) * Width);
    }

    method PutJumpAddress()
      requires Valid()
      modifies this
      ensures Valid() && Stream() == Fetch(input, old(Stream()))
      ensures output == old(output) + JumpField(code, |old(output)|)
    {
      var t := Read();
      var addr := t * Width;
      addr := addr - (|output| + 4);
      PutWord(addr);
    }

    method PutBytes(bs: seq<byte>)
      modifies this`output
      ensures output == old(output) + bs
    {
      var i := 0;
      while i < |bs|
        invariant 0 <= i <= |bs|
        invariant output == old(output) + bs[..i]
      {
        PutByte(bs[i]);
        i := i + 1;
      }
    }

    /** The switch on the opcode just read. */
    method Translate()
      requires Valid()
      modifies this
      ensures Valid()
      ensures Emitted(Stream(), output) == Encode(old(code), input, old(Stream()), old(output))
    {
      var op := code;
      if op == 1 {
        PutBytes([0x66, 0x03, 0x05]);
        PutDataAddress();
      } else if op == 2 {
        PutBytes([0x66, 0x2B, 0x05]);
        PutDataAddress();
      } else if op == 3 {
        PutBytes([0x66, 0x0F, 0xAF, 0x05]);
        PutDataAddress();
      } else if op == 4 {
        PutBytes([0x66, 0x99, 0x66, 0xF7, 0x3D]);
        PutDataAddress();
      } else if op == 5 {
        PutByte(0xE9);
        PutJumpAddress();
        PutBytes([0x90, 0x90]);
      } else if 6 <= op <= 8 {
        var cc: byte := if op == 6 then 0x8C else if op == 7 then 0x8F else 0x84;
        PutBytes([0x66, 0x83, 0xF8, 0x00, 0x0F, cc]);
        PutJumpAddress();
      } else if op == 9 {
        PutBytes([0x66, 0x8B, 0x1D]);
        PutDataAddress();
        PutBytes([0x66, 0x89, 0x1D]);
        PutDataAddress();
      } else if op == 10 {
        PutBytes([0x66, 0xA1]);
        PutDataAddress();
        PutByte(0x90);
      } else if op == 11 {
        PutBytes([0x66, 0xA3]);
        PutDataAddress();
        PutByte(0x90);
      } else if op == 12 {
        PutByte(0xE8);
        PutWord(-(|output| + 4 + 184));
        PutBytes([0x66, 0x89, 0x1D]);
        PutDataAddress();
      } else if op == 13 {
        PutBytes([0x66, 0x8B, 0x1D]);
        PutDataAddress();
        PutByte(0xE8);
        PutWord(-(|output| + 4 + 96));
      }
    }

    /** Each 16-bit word must become six bytes: pad with NOPs. */
    method Align()
      modifies this`output
      ensures output == Pad(old(output))
    {
      while |output| % Width != 0
        invariant old(output) <= output <= Pad(old(output))
        decreases |Pad(old(output))| - |output|
      {
        PutByte(0x90);
      }
    }

    /** The translation loop; false when it would never end. */
    method TranslateText() returns (ends: bool)
      requires Valid()
      modifies this
      ensures Valid()
      ensures var t := Text(input, old(Stream()), old(output));
        if ends then t == Some(Emitted(Stream(), output)) else t.None?
    {
      while true
        invariant Valid()
        invariant Text(input, old(Stream()), old(output)) == Text(input, Stream(), output)
        decreases |input| - pos
      {
        var atEnd := pos == |input|;
        var w := Read();
        if w == 14 {
          return true;
        }
        if atEnd {
          return false;
        }
        Translate();
        Align();
      }
    }

    /** `while (fread(&code, 2, 1, entrada) > 0)`: the words after STOP. */
    method TranslateData()
      requires Valid()
      modifies this
      ensures Valid() && pos == |input|
      ensures output == old(output) + DataSection(input[old(pos)..])
    {
      while pos < |input|
        invariant old(pos) <= pos <= |input|
        invariant output == old(output) + DataSection(input[old(pos)..pos])
      {
        code := input[pos];
        pos := pos + 1;
        PutWord(code);
        PutBytes([0, 0]);
        assert input[old(pos)..pos][..pos - 1 - old(pos)] == input[old(pos)..pos - 1];
      }
      assert input[old(pos)..pos] == input[old(pos)..];
    }

    /** STOP's exit sequence, then the data words. */
    method Finish()
      requires Valid()
      modifies this
      ensures Valid()
      ensures output == old(output) + StopCode() + DataSection(input[old(pos)..])
    {
      PutByte(0xB8);
      PutWord(1);
      PutByte(0xBB);
      PutWord(0);
      PutBytes([0xCD, 0x80]);
      TranslateData();
    }

    /** main after the files are open: the whole executable, or None when translation never ends. */
    method Generate(blob: seq<byte>) returns (file: Option<seq<byte>>)
      requires Valid() && Stream() == Cursor(0, 0) && output == [] && |blob| == BlobSize
      modifies this
      ensures file == match Translation(input) case None => None case Some(c) => Some(ElfFile(blob, c))
    {
      var ends := TranslateText();
      if !ends {
        return None;
      }
      Finish();
      file := Some(ElfHeader() + ProgramHeader(|output|) + blob + output);
    }
  }
}
