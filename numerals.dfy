// The integer literals the assembler reads with fscanf("%i"): an optional
// sign, then a hexadecimal numeral after "0x" or "0X", an octal numeral
// after a leading 0, or a decimal numeral. The literal always starts at the
// character the scanner has just pushed back, which is never blank, so no
// white space is skipped.
module Numerals {
  import opened Common

  predicate IsDecDigit(c: char)
  {
    '0' <= c <= '9'
  }

  predicate IsOctDigit(c: char)
  {
    '0' <= c <= '7'
  }

  predicate IsHexDigit(c: char)
  {
    IsDecDigit(c) || 'a' <= c <= 'f' || 'A' <= c <= 'F'
  }

  /** The digits of a numeral in the given base (8, 10 or 16). */
  predicate IsDigit(c: char, base: nat)
  {
    if base == 8 then IsOctDigit(c) else if base == 10 then IsDecDigit(c) else IsHexDigit(c)
  }

  function DigitValue(c: char): (d: nat)
    requires IsHexDigit(c)
    ensures d < 16
    ensures IsOctDigit(c) ==> d < 8
    ensures IsDecDigit(c) ==> d < 10
  {
    if IsDecDigit(c) then c as int - '0' as int
    else if 'a' <= c <= 'f' then c as int - 'a' as int + 10
    else c as int - 'A' as int + 10
  }

  /** The end of the run of base digits that starts at p. */
  function DigitsEnd(s: seq<char>, p: nat, base: nat): (q: nat)
    requires p <= |s|
    ensures p <= q <= |s|
    ensures forall i :: p <= i < q ==> IsDigit(s[i], base)
    ensures q < |s| ==> !IsDigit(s[q], base)
    decreases |s| - p
  {
    if p < |s| && IsDigit(s[p], base) then DigitsEnd(s, p + 1, base) else p
  }

  /** The value of the base digits s[p..q], most significant first. */
  function ValueOf(s: seq<char>, p: nat, q: nat, base: nat): nat
    requires p <= q <= |s| && base in {8, 10, 16}
    requires forall i :: p <= i < q ==> IsDigit(s[i], base)
    decreases q
  {
    if q == p then 0
    else
      assert IsDigit(s[q - 1], base);
      ValueOf(s, p, q - 1, base) * base + DigitValue(s[q - 1])
  }

  /** "0x" or "0X" at p. */
  predicate HexPrefix(s: seq<char>, p: nat)
  {
    p + 1 < |s| && s[p] == '0' && (s[p + 1] == 'x' || s[p + 1] == 'X')
  }

  /**
   * The unsigned part of a literal at p: its value and the position after
   * it. A "0x" with no hex digit after it is consumed whole and reads as
   * 0, since the stream can push back only the one character after it.
   */
  function ScanMagnitude(s: seq<char>, p: nat): (r: Option<(nat, nat)>)
    requires p <= |s|
    ensures r.Some? <==> p < |s| && IsDecDigit(s[p])
    ensures r.Some? ==> p < r.value.1 <= |s|
    ensures HexPrefix(s, p) && !(p + 2 < |s| && IsHexDigit(s[p + 2])) ==> r.Some? && r.value == (0, p + 2)
  {
    if p < |s| && s[p] == '0' then
      if HexPrefix(s, p) then
        if p + 2 < |s| && IsHexDigit(s[p + 2]) then
          var q := DigitsEnd(s, p + 2, 16);
          Some((ValueOf(s, p + 2, q, 16), q))
        else Some((0, p + 2))
      else
        var q := DigitsEnd(s, p, 8);
        Some((ValueOf(s, p, q, 8), q))
    else if p < |s| && IsDecDigit(s[p]) then
      var q := DigitsEnd(s, p, 10);
      Some((ValueOf(s, p, q, 10), q))
    else
      None
  }

  /**
   * fscanf("%i") at position p: the literal's value and the position right
   * after it, or None when no digit follows the optional sign (the
   * conversion fails).
   */
  function ScanInt(s: seq<char>, p: nat): (r: Option<(int, nat)>)
    requires p <= |s|
    ensures r.Some? ==> p < r.value.1 <= |s|
    ensures r.None? <==>
      !(p < |s| && IsDecDigit(s[p])) && !(p + 1 < |s| && (s[p] == '+' || s[p] == '-') && IsDecDigit(s[p + 1]))
  {
    if p < |s| && (s[p] == '+' || s[p] == '-') then
      match ScanMagnitude(s, p + 1)
      case None => None
      case Some((v, q)) =>
        var i: int := if s[p] == '-' then -(v as int) else v;
        Some((i, q))
    else
      match ScanMagnitude(s, p)
      case None => None
      case Some((v, q)) => Some((v, q))
  }

  /** A "0x" with no hex digit after it reads as 0, and reading resumes right after the x. */
  lemma BareHexPrefix(s: seq<char>, p: nat)
    requires HexPrefix(s, p) && !(p + 2 < |s| && IsHexDigit(s[p + 2]))
    ensures ScanInt(s, p).Some? && ScanInt(s, p).value == (0, p + 2)
    ensures ScanInt("0x 5", 0) == Some((0, 2)) && ScanInt("0x 5", 3) == Some((5, 4))
  {
    assert ScanMagnitude("0x 5", 3) == Some((5, 4)) by {
      assert DigitsEnd("0x 5", 4, 10) == 4;
    }
  }

  /** The decimal numeral of n, without leading zeros. */
  function DecimalText(n: nat): (t: string)
    ensures |t| > 0 && forall i :: 0 <= i < |t| ==> IsDecDigit(t[i])
    ensures n > 0 ==> t[0] != '0'
    ensures n == 0 ==> t == "0"
  {
    if n < 10 then ['0' + n as char]
    else DecimalText(n / 10) + ['0' + (n % 10) as char]
  }

  /** The decimal numeral of an integer, with '-' when it is negative, as printf("%d") writes it. */
  function IntText(i: int): string
  {
    (if i < 0 then "-" else "") + DecimalText(if i < 0 then -i else i)
  }

  /** A digit run reads the same inside any longer text. */
  lemma {:induction false} ValueOfPrefix(t: string, rest: string, q: nat, base: nat)
    requires q <= |t| && base in {8, 10, 16}
    requires forall i :: 0 <= i < q ==> IsDigit(t[i], base)
    ensures ValueOf(t + rest, 0, q, base) == ValueOf(t, 0, q, base)
  {
    if q > 0 {
      ValueOfPrefix(t, rest, q - 1, base);
      assert (t + rest)[q - 1] == t[q - 1];
    }
  }

  /** Reading DecimalText(n) back as base-10 digits gives n. */
  lemma {:induction false} DecimalValue(n: nat)
    ensures ValueOf(DecimalText(n), 0, |DecimalText(n)|, 10) == n
  {
    var t := DecimalText(n);
    if n >= 10 {
      var u := DecimalText(n / 10);
      assert t == u + ['0' + (n % 10) as char];
      DecimalValue(n / 10);
      ValueOfPrefix(u, ['0' + (n % 10) as char], |u|, 10);
    }
  }

  /** Decimal digits of a number without a leading zero are never read as octal. */
  lemma {:induction false} DigitsEndOfText(t: string, rest: string, p: nat, base: nat)
    requires p <= |t|
    requires forall i :: p <= i < |t| ==> IsDigit(t[i], base)
    requires rest == [] || !IsDigit(rest[0], base)
    ensures DigitsEnd(t + rest, p, base) == |t|
    decreases |t| - p
  {
    if p < |t| {
      assert (t + rest)[p] == t[p];
      DigitsEndOfText(t, rest, p + 1, base);
    } else if rest != [] {
      assert (t + rest)[p] == rest[0];
    }
  }

  /** A character that cannot continue a decimal literal, not even "0" into "0x". */
  predicate Terminates(c: char)
  {
    !IsDecDigit(c) && c != 'x' && c != 'X'
  }

  /** The unsigned decimal numeral of n, after any prefix, reads back as n. */
  lemma ScanMagnitudeText(pre: string, n: nat, rest: string)
    requires rest == [] || Terminates(rest[0])
    ensures ScanMagnitude(pre + (DecimalText(n) + rest), |pre|) == Some((n, |pre| + |DecimalText(n)|))
  {
    var d := DecimalText(n);
    var s := pre + (d + rest);
    var p := |pre|;
    assert s[p] == d[0];
    DecimalValue(n);
    if n == 0 {
      assert d == "0";
      assert p + 1 < |s| ==> s[p + 1] == rest[0];
      DigitsEndSkip(pre, d + rest, 0, 8);
      DigitsEndOfText(d, rest, 0, 8);
      assert DigitsEnd(s, p, 8) == p + 1;
      assert ValueOf(s, p, p + 1, 8) == DigitValue(s[p]) == 0;
    } else {
      DigitsEndSkip(pre, d + rest, 0, 10);
      DigitsEndOfText(d, rest, 0, 10);
      ValueOfPrefix(d, rest, |d|, 10);
      ValueOfSkip(pre, d + rest, |d|, 10);
    }
  }

  /**
   * fscanf("%i") reads back what printf("%d") writes: the decimal numeral of
   * any integer, with a minus sign when negative, followed by a character
   * that ends a literal.
   */
  lemma ScanDecimal(i: int, rest: string)
    requires rest == [] || Terminates(rest[0])
    ensures ScanInt(IntText(i) + rest, 0) == Some((i, |IntText(i)|))
  {
    var n: nat := if i < 0 then -i else i;
    var sign: string := if i < 0 then "-" else "";
    ScanMagnitudeText(sign, n, rest);
    assert sign + DecimalText(n) + rest == sign + (DecimalText(n) + rest);
  }

  /** Digit runs after a prefix are found at the shifted position. */
  lemma {:induction false} DigitsEndSkip(pre: string, t: string, p: nat, base: nat)
    requires p <= |t|
    ensures DigitsEnd(pre + t, |pre| + p, base) == |pre| + DigitsEnd(t, p, base)
    decreases |t| - p
  {
    if p < |t| {
      assert (pre + t)[|pre| + p] == t[p];
      if IsDigit(t[p], base) {
        DigitsEndSkip(pre, t, p + 1, base);
      }
    }
  }

  /** Digit values after a prefix are read at the shifted position. */
  lemma {:induction false} ValueOfSkip(pre: string, t: string, q: nat, base: nat)
    requires q <= |t| && base in {8, 10, 16}
    requires forall i :: 0 <= i < q ==> IsDigit(t[i], base)
    ensures forall i :: |pre| <= i < |pre| + q ==> IsDigit((pre + t)[i], base)
    ensures ValueOf(pre + t, |pre|, |pre| + q, base) == ValueOf(t, 0, q, base)
  {
    assert forall i :: |pre| <= i < |pre| + q ==> (pre + t)[i] == t[i - |pre|];
    if q > 0 {
      ValueOfSkip(pre, t, q - 1, base);
    }
  }
}
