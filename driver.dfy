// The loops of the assembler that work in place: the character loop of
// TCASM_read_file over the pass state, the reference-list dumps that patch
// the image array, and the zero fill of an array's words. Each is proved
// to compute what the value-level functions of the Assembling and
// Resolution modules describe.
module Driver {
  import opened Common
  import opened Symbols
  import opened Errors
  import opened Scanning
  import opened Resolution
  import opened Assembling

  /**
   * TCASM_read_file: read the next significant character and run the
   * current state's handler on it until the file ends, then make the
   * end-of-file checks and place the data. The result is the assembled
   * image, as Assemble describes it.
   */
  method ReadFile(s: seq<char>) returns (r: Result<seq<uword>>)
    ensures r == Assemble(s)
  {
    var a := Start();
    while true
      invariant Shaped(s, a)
      invariant Run(s, a) == Run(s, Start())
      decreases |s| - a.sc.pos
    {
      var (found, sc1) := CharStep(s, a.sc);
      if !found {
        a := a.(sc := sc1);
        break;
      }
      var h := Handle(s, a.(sc := sc1));
      if h.Err? {
        return Err(h.error);
      }
      a := h.value;
    }
    var finished := Finish(a, OwnSize);
    if finished.Err? {
      return Err(finished.error);
    }
    r := Ok(finished.value.code[..finished.value.size]);
  }

  /**
   * A reference-list dump (the loops of TCASM_dump_*_reflist_*): while the
   * list is not empty, its first reference is checked and its image word
   * patched with the address plus the offset. The image ends as PatchAll
   * has it, and the error reported is the one PatchAll gives.
   */
  method DumpRefList(code: array<uword>, refs: seq<Ref>, addr: nat, check: Check) returns (err: Option<AsmError>)
    requires code.Length == MemoryWords
    modifies code
    ensures err.None? <==> PatchAll(old(code[..]), refs, addr, check).Ok?
    ensures err.None? ==> code[..] == PatchAll(old(code[..]), refs, addr, check).value
    ensures err.Some? ==> PatchAll(old(code[..]), refs, addr, check) == Err(err.value)
  {
    var i := 0;
    while i < |refs|
      invariant 0 <= i <= |refs|
      invariant PatchAll(old(code[..]), refs, addr, check) == PatchAll(code[..], refs[i..], addr, check)
      decreases |refs| - i
    {
      var ref := refs[i];
      assert refs[i..][0] == ref && refs[i..][1..] == refs[i + 1..];
      var e := RefError(check, ref, code[..]);
      if e.Some? {
        return Some(At(e.value, ref.line));
      }
      code[RefPos(ref)] := U16(addr + RefOffset(ref));
      i := i + 1;
    }
    err := None;
  }

  /** TCASM_write_uint16_zeroarray: count zero words from pos on; the image changes as Fill has it. */
  method ZeroFill(dst: array<uword>, pos: nat, count: nat)
    requires pos + count <= dst.Length
    modifies dst
    ensures forall k :: 0 <= k < dst.Length ==> dst[k] == if pos <= k < pos + count then 0 else old(dst[k])
  {
    var i := 0;
    while i < count
      invariant 0 <= i <= count
      invariant forall k :: 0 <= k < dst.Length ==> dst[k] == if pos <= k < pos + i then 0 else old(dst[k])
      decreases count - i
    {
      dst[pos + i] := 0;
      i := i + 1;
    }
  }

  /** The zero fill agrees with the value-level Fill of the image. */
  method FillImage(code: array<uword>, b: Book, n: nat)
    requires code[..] == b.code && b.size + n <= code.Length
    modifies code
    ensures code[..] == Fill(b, n).code
  {
    ZeroFill(code, b.size, n);
    assert forall k :: 0 <= k < code.Length ==> code[..][k] == Fill(b, n).code[k];
  }
}
