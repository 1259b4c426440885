// TCASM_hash: the PJW / ELF hash of a key, scrambled into a bucket index.
module Hashing {
  import opened Common

  /** The multiplier that scrambles the hash into a bucket index. */
  const Scramble: nat := 999983

  /** The byte a character of a key stands for. */
  function Byte(c: char): byte
  {
    (c as int) % 0x100
  }

  /** A char promoted to unsigned: plain char is signed, so bytes >= 128 sign-extend. */
  function CharWord(c: char): bv32
  {
    var b := Byte(c);
    if b < 0x80 then b as bv32 else (0xFFFF_FF00 + b) as bv32
  }

  /** One step of the hash loop on the accumulator h. */
  function HashStep(h: bv32, w: bv32): bv32
  {
    var h1 := (h << 4) + w;
    var g := h1 & 0xF000_0000;
    if g != 0 then (h1 ^ (g >> 24)) ^ g else h1
  }

  /** The hash of a whole key: HashStep folded over its characters from the left. */
  function ElfHash(key: string): bv32
  {
    if |key| == 0 then 0 else HashStep(ElfHash(key[..|key| - 1]), CharWord(key[|key| - 1]))
  }

  /** After every step the top nibble of the accumulator is clear. */
  lemma HashStepTopNibble(h: bv32, w: bv32)
    ensures HashStep(h, w) & 0xF000_0000 == 0
    ensures HashStep(h, w) < 0x1000_0000
  {
  }

  lemma WordBelow(h: bv32)
    requires h < 0x1000_0000
    ensures (h as int) < 0x1000_0000
  {
    assert (h as bv28) as int == h as int;
    NarrowWordBelow(h as bv28);
  }

  lemma NarrowWordBelow(h: bv28)
    ensures (h as int) < 0x1000_0000
  {
  }

  /** So a finished hash is below 2^28 and h * 999983 never leaves 64 bits. */
  lemma {:induction false} ElfHashBound(key: string)
    ensures (ElfHash(key) as int) < 0x1000_0000
    ensures (ElfHash(key) as int) * Scramble < 0x1_0000_0000_0000_0000
  {
    if |key| > 0 {
      HashStepTopNibble(ElfHash(key[..|key| - 1]), CharWord(key[|key| - 1]));
    }
    WordBelow(ElfHash(key));
  }

  /** The bucket a key belongs to in a table of arraySize buckets. */
  function Index(arraySize: nat, key: string): (r: nat)
    requires arraySize > 0
    ensures r < arraySize
  {
    ((ElfHash(key) as int) * Scramble) % arraySize
  }

  /** TCASM_hash: the bucket index of key, and key's length (key_size). */
  method Hash(arraySize: nat, key: string) returns (index: nat, keySize: nat)
    requires arraySize > 0
    ensures index == Index(arraySize, key) && index < arraySize
    ensures keySize == |key|
  {
    var h: bv32 := 0;
    var i := 0;
    while i < |key|
      invariant 0 <= i <= |key|
      invariant h == ElfHash(key[..i])
    {
      assert key[..i + 1][..i] == key[..i];
      h := Round(h, CharWord(key[i]));
      i := i + 1;
    }
    assert key[..i] == key;
    keySize := i;
    ElfHashBound(key);
    index := ((h as int) * Scramble) % arraySize;
  }

  /** The body of the hash loop: shift in one character, fold the top nibble back. */
  method Round(h0: bv32, w: bv32) returns (h: bv32)
    ensures h == HashStep(h0, w)
  {
    var h1 := (h0 << 4) + w;
    var g := h1 & 0xF000_0000;
    if g != 0 {
      h := h1 ^ (g >> 24);
      h := h ^ g;
    } else {
      h := h1;
    }
  }

}
