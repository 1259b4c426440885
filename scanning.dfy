// The scanner of TCASM_assembler.c: the source file is read one character
// at a time, letters folded to upper case, blanks, comments and line breaks
// skipped while lines and characters are counted, and one character pushed
// back after a word or before a number. The file is a character sequence
// and the file position an index into it.
module Scanning {
  import opened Common
  import opened Symbols
  import opened Numerals
  import opened Errors

  /** The upper-case folding TCASM_read_char_from_file applies to every character. */
  function Fold(c: char): (u: char)
    ensures !('a' <= u <= 'z')
    ensures ('A' <= u <= 'Z') <==> ('A' <= c <= 'Z' || 'a' <= c <= 'z')
    ensures !('a' <= c <= 'z') ==> u == c
    ensures 'a' <= c <= 'z' ==> u as int == c as int - 32
  {
    if 'a' <= c <= 'z' then (c as int - 32) as char else c
  }

  /** Every character of w folded. */
  function FoldAll(w: string): (u: string)
    ensures |u| == |w| && forall i :: 0 <= i < |w| ==> u[i] == Fold(w[i])
  {
    if w == [] then [] else [Fold(w[0])] + FoldAll(w[1..])
  }

  lemma FoldAllSnoc(s: seq<char>, p: nat, q: nat)
    requires p <= q < |s|
    ensures FoldAll(s[p..q + 1]) == FoldAll(s[p..q]) + [Fold(s[q])]
  {
  }

  /** One more character of a word read so far: the word grows by its folded form. */
  lemma SpellingGrows(s: seq<char>, p: nat, q: nat, c: char, w: string)
    requires p <= q < |s| && w == [c] + FoldAll(s[p..q])
    ensures w + [Fold(s[q])] == [c] + FoldAll(s[p..q + 1])
  {
    FoldAllSnoc(s, p, q);
    assert w + [Fold(s[q])] == [c] + (FoldAll(s[p..q]) + [Fold(s[q])]);
  }

  predicate IsBlank(c: char)
  {
    c == ' ' || c == '\t'
  }

  predicate IsLineBreak(c: char)
  {
    c == '\r' || c == '\n'
  }

  /** A character TCASM_read_char stops at: not blank, not a line break, not a comment start. */
  predicate IsSignificant(c: char)
  {
    !IsBlank(c) && !IsLineBreak(c) && c != ';'
  }

  predicate IsIdentStart(c: char)
  {
    'A' <= c <= 'Z' || c == '_'
  }

  predicate IsIdentChar(c: char)
  {
    IsIdentStart(c) || '0' <= c <= '9'
  }

  /**
   * What TCASM_ignore_line consumes from p: everything through the first
   * line break, plus one more character after a '\r'. The flag says the end
   * of the file was hit, which happens only at |s|.
   */
  function LineRest(s: seq<char>, p: nat): (r: (nat, bool))
    requires p <= |s|
    ensures p <= r.0 <= |s|
    ensures r.1 ==> r.0 == |s|
    ensures !r.1 ==> p < r.0
    decreases |s| - p
  {
    if p == |s| then (p, true)
    else if Fold(s[p]) == '\n' then (p + 1, false)
    else if Fold(s[p]) == '\r' then (if p + 1 < |s| then (p + 2, false) else (p + 1, true))
    else LineRest(s, p + 1)
  }

  /**
   * The outcome of TCASM_read_char from position p: whether a significant
   * character was found, the position after it (or after the last character
   * consumed), and the line breaks crossed.
   */
  datatype Skip = Skip(found: bool, pos: nat, lines: nat)

  function SkipFrom(s: seq<char>, p: nat, lines: nat): (r: Skip)
    requires p <= |s|
    ensures p <= r.pos <= |s| && lines <= r.lines
    ensures r.found ==> p < r.pos && IsSignificant(Fold(s[r.pos - 1]))
    ensures !r.found ==> r.pos == |s|
    decreases |s| - p
  {
    if p == |s| then Skip(false, p, lines)
    else
      var c := Fold(s[p]);
      if IsBlank(c) then SkipFrom(s, p + 1, lines)
      else if c == ';' then
        var (q, eof) := LineRest(s, p + 1);
        if eof then Skip(false, q, lines) else SkipFrom(s, q, lines + 1)
      else if c == '\n' then SkipFrom(s, p + 1, lines + 1)
      else if c == '\r' then
        if p + 1 == |s| then Skip(false, p + 1, lines + 1) else SkipFrom(s, p + 2, lines + 1)
      else Skip(true, p + 1, lines)
  }

  /** A significant character reached without crossing a line break was preceded only by blanks. */
  lemma {:induction false} SkipOnSameLine(s: seq<char>, p: nat, lines: nat)
    requires p <= |s|
    requires SkipFrom(s, p, lines).found && SkipFrom(s, p, lines).lines == lines
    ensures forall i :: p <= i < SkipFrom(s, p, lines).pos - 1 ==> IsBlank(Fold(s[i]))
    decreases |s| - p
  {
    var c := Fold(s[p]);
    if IsBlank(c) {
      SkipOnSameLine(s, p + 1, lines);
    }
  }

  /** Blanks, then a significant character: TCASM_read_char stops right after it on the same line. */
  lemma {:induction false} SkipBlanks(s: seq<char>, p: nat, q: nat, lines: nat)
    requires p <= q < |s| && IsSignificant(Fold(s[q]))
    requires forall i :: p <= i < q ==> IsBlank(Fold(s[i]))
    ensures SkipFrom(s, p, lines) == Skip(true, q + 1, lines)
    decreases q - p
  {
    if p < q {
      SkipBlanks(s, p + 1, q, lines);
    }
  }

  /** The end of the identifier characters (after folding) that start at p. */
  function IdentEnd(s: seq<char>, p: nat): (q: nat)
    requires p <= |s|
    ensures p <= q <= |s|
    ensures forall i :: p <= i < q ==> IsIdentChar(Fold(s[i]))
    ensures q < |s| ==> !IsIdentChar(Fold(s[q]))
    decreases |s| - p
  {
    if p < |s| && IsIdentChar(Fold(s[p])) then IdentEnd(s, p + 1) else p
  }

  /** A word TCASM_read_symbol can return: an identifier start, then identifier characters. */
  predicate IsIdentifier(w: string)
  {
    |w| > 0 && IsIdentStart(w[0]) && forall i :: 0 <= i < |w| ==> IsIdentChar(w[i])
  }

  /**
   * TCASM_read_symbol when the current character is c and the file is at p:
   * the word read and the position of the character pushed back, or the
   * error. The word is c and the folded identifier characters after it; it
   * may not reach 1001 characters, and the file may not end inside it.
   */
  datatype Scanned<T> = Scanned(value: T, end: nat) | Rejected(kind: ErrorKind)

  function SymbolAt(s: seq<char>, p: nat, c: char): (r: Scanned<string>)
    requires p <= |s|
    ensures r.Scanned? ==> IsIdentifier(r.value) && |r.value| <= MaxIdentifierSize
    ensures r.Scanned? ==> p <= r.end < |s| && !IsIdentChar(Fold(s[r.end]))
    ensures r.Scanned? ==> r.value[0] == c && r.value[1..] == FoldAll(s[p..r.end])
  {
    var q := IdentEnd(s, p);
    if !IsIdentStart(c) then Rejected(InvalidSymbolStart)
    else if q - p >= MaxIdentifierSize then Rejected(IdentifierTooLong)
    else if q == |s| then Rejected(InvalidSymbol)
    else
      var w := [c] + FoldAll(s[p..q]);
      assert w[1..] == FoldAll(s[p..q]);
      Scanned(w, q)
  }

  /** An upper-case identifier of at most 1000 characters followed by a non-identifier character reads back whole. */
  lemma SymbolRoundTrip(w: string, rest: string)
    requires IsIdentifier(w) && |w| <= MaxIdentifierSize
    requires forall i :: 0 <= i < |w| ==> !('a' <= w[i] <= 'z')
    requires rest != [] && !IsIdentChar(Fold(rest[0]))
    ensures SymbolAt(w + rest, 1, w[0]) == Scanned(w, |w|)
  {
    var s := w + rest;
    assert forall i :: 1 <= i < |w| ==> s[i] == w[i] && Fold(s[i]) == w[i];
    IdentEndOfRun(s, 1, |w|);
    assert FoldAll(s[1..|w|]) == w[1..];
    assert [w[0]] + w[1..] == w;
  }

  lemma {:induction false} IdentEndOfRun(s: seq<char>, p: nat, q: nat)
    requires p <= q < |s| && !IsIdentChar(Fold(s[q]))
    requires forall i :: p <= i < q ==> IsIdentChar(Fold(s[i]))
    ensures IdentEnd(s, p) == q
    decreases q - p
  {
    if p < q {
      IdentEndOfRun(s, p + 1, q);
    }
  }

  /** A run of 1000 identifier characters after the first one is rejected as too long. */
  lemma TooLongIdentifier(s: seq<char>, p: nat, c: char)
    requires IsIdentStart(c) && p + MaxIdentifierSize <= |s|
    requires forall i :: p <= i < p + MaxIdentifierSize ==> IsIdentChar(Fold(s[i]))
    ensures SymbolAt(s, p, c) == Rejected(IdentifierTooLong)
  {
    IdentEndAtLeast(s, p, p + MaxIdentifierSize);
  }

  lemma {:induction false} IdentEndAtLeast(s: seq<char>, p: nat, q: nat)
    requires p <= q <= |s|
    requires forall i :: p <= i < q ==> IsIdentChar(Fold(s[i]))
    ensures IdentEnd(s, p) >= q
    decreases q - p
  {
    if p < q {
      IdentEndAtLeast(s, p + 1, q);
    }
  }

  /**
   * TCASM_read_array_ref when the current character is c and the file is at
   * p: the index and the position after the reference. c must be '+' or '[';
   * the index must start on the same line; after '[' the next character
   * must be ']' on the same line.
   */
  function ArrayIndexAt(s: seq<char>, p: nat, c: char): (r: Scanned<int>)
    requires p <= |s|
    ensures r.Scanned? ==> p < r.end <= |s|
    ensures r.Scanned? && c == '[' ==> Fold(s[r.end - 1]) == ']'
  {
    if c != '+' && c != '[' then Rejected(InvalidStatement)
    else IndexAfter(s, SkipFrom(s, p, 0), c)
  }

  /** The index after the '+' or '[', once the first significant character after it is known. */
  function IndexAfter(s: seq<char>, k: Skip, c: char): (r: Scanned<int>)
    requires k.pos <= |s| && (k.found ==> 0 < k.pos)
    ensures r.Scanned? ==> k.found && k.pos <= r.end <= |s|
    ensures r.Scanned? && c == '[' ==> Fold(s[r.end - 1]) == ']'
  {
    if !k.found then Rejected(InvalidArrayIndex)
    else if k.lines > 0 then Rejected(InvalidStatement)
    else
      match ScanInt(s, k.pos - 1)
      case None => Rejected(InvalidArrayIndex)
      case Some((i, q)) =>
        if c == '+' then Scanned(i, q) else Closed(s, i, q)
  }

  /** After the index of a "[i]" reference, ']' must follow on the same line. */
  function Closed(s: seq<char>, i: int, q: nat): (r: Scanned<int>)
    requires q <= |s|
    ensures r.Scanned? ==> q < r.end <= |s| && Fold(s[r.end - 1]) == ']'
  {
    var k := SkipFrom(s, q, 0);
    if !k.found || k.lines > 0 || Fold(s[k.pos - 1]) != ']' then Rejected(InvalidStatement)
    else Scanned(i, k.pos)
  }

  /** How each reading of an array reference ends, path by path. */
  lemma ArrayIndexCases(s: seq<char>, p: nat, c: char)
    requires p <= |s| && (c == '+' || c == '[')
    ensures var k := SkipFrom(s, p, 0);
      (!k.found ==> ArrayIndexAt(s, p, c) == Rejected(InvalidArrayIndex))
      && (k.found && k.lines > 0 ==> ArrayIndexAt(s, p, c) == Rejected(InvalidStatement))
      && (k.found && k.lines == 0 && ScanInt(s, k.pos - 1).None? ==> ArrayIndexAt(s, p, c) == Rejected(InvalidArrayIndex))
      && (k.found && k.lines == 0 && ScanInt(s, k.pos - 1).Some? && c == '+' ==>
            ArrayIndexAt(s, p, c) == Scanned(ScanInt(s, k.pos - 1).value.0, ScanInt(s, k.pos - 1).value.1))
  {
    assert ArrayIndexAt(s, p, c) == IndexAfter(s, SkipFrom(s, p, 0), c);
  }

  /** The index of a "[i]" reference, then what follows it on the line. */
  lemma BracketIndex(s: seq<char>, p: nat, k: Skip, i: int, q: nat)
    requires p <= |s| && k == SkipFrom(s, p, 0) && k.found && k.lines == 0
    requires ScanInt(s, k.pos - 1) == Some((i, q))
    ensures ArrayIndexAt(s, p, '[') == Closed(s, i, q)
  {
    assert ArrayIndexAt(s, p, '[') == IndexAfter(s, k, '[');
  }

  /** "+i" reads back as index i. */
  lemma PlusIndexRoundTrip(i: int, rest: string)
    requires rest == [] || Terminates(rest[0])
    ensures ArrayIndexAt(IntText(i) + rest, 0, '+') == Scanned(i, |IntText(i)|)
  {
    var t := IntText(i);
    var s := t + rest;
    IntTextStart(i);
    assert s[0] == t[0];
    SkipBlanks(s, 0, 0, 0);
    ScanDecimal(i, rest);
  }

  /** "[i]" reads back as index i, whatever blanks stand before the ']'. */
  lemma BracketIndexRoundTrip(i: int, blanks: string, rest: string)
    requires forall j :: 0 <= j < |blanks| ==> IsBlank(blanks[j])
    ensures ArrayIndexAt(IntText(i) + blanks + "]" + rest, 0, '[')
      == Scanned(i, |IntText(i)| + |blanks| + 1)
  {
    var t := IntText(i);
    var tail := blanks + "]" + rest;
    var s := t + tail;
    assert s == IntText(i) + blanks + "]" + rest;
    IntTextStart(i);
    assert s[0] == t[0];
    SkipBlanks(s, 0, 0, 0);
    if blanks == [] {
      assert Terminates(tail[0]);
    } else {
      assert tail[0] == blanks[0];
    }
    ScanDecimal(i, tail);
    forall j | |t| <= j < |t| + |blanks|
      ensures IsBlank(Fold(s[j]))
    {
      assert s[j] == blanks[j - |t|];
    }
    assert s[|t| + |blanks|] == ']';
    SkipBlanks(s, |t|, |t| + |blanks|, 0);
  }

  lemma IntTextStart(i: int)
    ensures |IntText(i)| > 0
    ensures IntText(i)[0] == '-' || IsDecDigit(IntText(i)[0])
    ensures IsSignificant(Fold(IntText(i)[0]))
  {
    var d := DecimalText(if i < 0 then -i else i);
    if i < 0 {
      assert IntText(i) == "-" + d;
    } else {
      assert IntText(i) == d;
      assert IsDecDigit(d[0]);
    }
  }

  /**
   * The comparisons of a hand-unrolled keyword match: raw characters from p
   * (not folded, but compared with either case of the letter) against the
   * upper-case letters of rest. The result says whether all matched, the
   * position after the last character read, and the last value read (None
   * when the read hit the end of the file).
   */
  function MatchRest(s: seq<char>, p: nat, rest: string): (r: (bool, nat, Option<char>))
    requires p <= |s| && rest != []
    ensures p <= r.1 <= |s|
    ensures r.0 ==> r.1 == p + |rest| && r.2 == Some(s[r.1 - 1])
    ensures r.0 <==> p + |rest| <= |s| && forall i :: 0 <= i < |rest| ==> Fold(s[p + i]) == rest[i]
    decreases |rest|
  {
    if p == |s| then (false, p, None)
    else if Fold(s[p]) != rest[0] then (false, p + 1, Some(s[p]))
    else if |rest| == 1 then (true, p + 1, Some(s[p]))
    else
      var r := MatchRest(s, p + 1, rest[1..]);
      assert forall i :: 1 <= i < |rest| ==> rest[1..][i - 1] == rest[i];
      r
  }

  /**
   * TCASM_read_data_type when the current character is c and the file is
   * at p: SPACE after "PACE", CONST after "ONST"; the word of which c is the
   * first letter otherwise is rejected. A failed SPACE match falls through
   * to the CONST match with the last raw character read standing for c, and
   * no character after either keyword is inspected.
   */
  function DataTypeAt(s: seq<char>, p: nat, c: char): (r: Scanned<Kind>)
    requires p <= |s|
    ensures r.Scanned? ==> r.value == DirectiveSpace || r.value == DirectiveConst
    ensures r.Rejected? ==> r.kind == InvalidStatement
    ensures r.Scanned? ==> p < r.end <= |s|
  {
    var space := MatchRest(s, p, "PACE");
    if c == 'S' && space.0 then Scanned(DirectiveSpace, space.1)
    else
      var last := if c == 'S' then space.2 else Some(c);
      var q := if c == 'S' then space.1 else p;
      if last != Some('C') then Rejected(InvalidStatement)
      else
        var cons := MatchRest(s, q, "ONST");
        if cons.0 then Scanned(DirectiveConst, cons.1) else Rejected(InvalidStatement)
  }

  /** The two data keywords, in any case after their folded first letter, are recognised. */
  lemma DataTypeKeywords(rest: string)
    ensures DataTypeAt("PACE" + rest, 0, 'S') == Scanned(DirectiveSpace, 4)
    ensures DataTypeAt("pace" + rest, 0, 'S') == Scanned(DirectiveSpace, 4)
    ensures DataTypeAt("ONST" + rest, 0, 'C') == Scanned(DirectiveConst, 4)
    ensures DataTypeAt("onst" + rest, 0, 'C') == Scanned(DirectiveConst, 4)
  {
    SpaceKeyword(rest);
    ConstKeyword(rest);
  }

  lemma SpaceKeyword(rest: string)
    ensures DataTypeAt("PACE" + rest, 0, 'S') == Scanned(DirectiveSpace, 4)
    ensures DataTypeAt("pace" + rest, 0, 'S') == Scanned(DirectiveSpace, 4)
  {
    assert ("PACE" + rest)[..4] == "PACE";
    assert ("pace" + rest)[..4] == "pace";
  }

  lemma ConstKeyword(rest: string)
    ensures DataTypeAt("ONST" + rest, 0, 'C') == Scanned(DirectiveConst, 4)
    ensures DataTypeAt("onst" + rest, 0, 'C') == Scanned(DirectiveConst, 4)
  {
    assert ("ONST" + rest)[..4] == "ONST";
    assert ("onst" + rest)[..4] == "onst";
  }

  /**
   * The fall-through accepts an 'S' followed by CONST as CONST, and stops
   * after the T, so letters glued after either keyword are left unread.
   */
  lemma DataTypeFallThrough()
    ensures DataTypeAt("CONST", 0, 'S') == Scanned(DirectiveConst, 5)
    ensures DataTypeAt("PACCONST", 0, 'S') == Scanned(DirectiveConst, 8)
    ensures DataTypeAt("PACEX", 0, 'S') == Scanned(DirectiveSpace, 4)
    ensures DataTypeAt("pacc", 0, 'S') == Rejected(InvalidStatement)
  {
    assert MatchRest("CONST", 1, "ONST").0;
    assert MatchRest("PACCONST", 4, "ONST").0;
  }

  // ---------------------------------------------------------------------
  // The scanner globals as a value, and each reading routine as a step on
  // that value. The handlers of the pass are written with these steps; the
  // Scanner class below performs the same steps in place.

  /** The scanner globals: file position, TCASM_char, the counters, the flag and the last word. */
  datatype Scan = Scan(pos: nat, ch: char, line: nat, statementLine: nat,
                       readChars: nat, readLines: nat, changedLine: bool, word: string)

  /** What a reading routine yields: a value and the scanner after it, or the error it exits with. */
  datatype Got<T> = Got(value: T, sc: Scan) | Fault(kind: ErrorKind)

  /**
   * TCASM_read_char: whether a significant character was found, and the
   * scanner after it. The characters and line breaks consumed are counted
   * afresh; each line break moves the line counter and raises the flag.
   */
  function CharStep(s: seq<char>, c: Scan): (r: (bool, Scan))
    requires c.pos <= |s|
    ensures c.pos <= r.1.pos <= |s| && r.1.readChars == r.1.pos - c.pos
    ensures r.0 ==> c.pos < r.1.pos && IsSignificant(r.1.ch)
    ensures !r.0 ==> r.1.pos == |s|
    ensures r.1.line == c.line + r.1.readLines && r.1.changedLine == (c.changedLine || r.1.readLines > 0)
    ensures r.1.statementLine == c.statementLine && r.1.word == c.word
  {
    var k := SkipFrom(s, c.pos, 0);
    (k.found, c.(pos := k.pos, ch := if k.pos > c.pos then Fold(s[k.pos - 1]) else c.ch,
                 readChars := k.pos - c.pos, readLines := k.lines, line := c.line + k.lines,
                 changedLine := c.changedLine || k.lines > 0))
  }

  /** fseek(fin, -1, SEEK_CUR): one character back; nothing else changes. */
  function BackStep(c: Scan): (r: Scan)
    ensures r.pos == if c.pos > 0 then c.pos - 1 else 0
    ensures r == c.(pos := r.pos)
  {
    c.(pos := if c.pos > 0 then c.pos - 1 else 0)
  }

  /**
   * TCASM_read_symbol: the word that starts with the current character.
   * The character after it is pushed back and the current character is the
   * word's last one; the counters are untouched.
   */
  function SymbolStep(s: seq<char>, c: Scan): (r: Got<string>)
    requires c.pos <= |s|
    ensures r.Got? <==> SymbolAt(s, c.pos, c.ch).Scanned?
    ensures r.Got? ==> r.value == r.sc.word && IsIdentifier(r.value) && |r.value| <= MaxIdentifierSize
    ensures r.Got? ==> c.pos <= r.sc.pos < |s| && !IsIdentChar(Fold(s[r.sc.pos]))
    ensures r.Got? ==> r.sc == c.(word := r.value, pos := r.sc.pos, ch := r.value[|r.value| - 1])
    ensures r.Fault? ==> r.kind == SymbolAt(s, c.pos, c.ch).kind
  {
    match SymbolAt(s, c.pos, c.ch)
    case Rejected(k) => Fault(k)
    case Scanned(w, e) => Got(w, c.(word := w, pos := e, ch := w[|w| - 1]))
  }

  /**
   * TCASM_read_colon and TCASM_read_comma: the next significant character
   * must be mark, on the same line.
   */
  function MarkStep(s: seq<char>, c: Scan, mark: char): (r: Got<char>)
    requires c.pos <= |s|
    ensures r.Got? <==> CharStep(s, c).0 && CharStep(s, c).1.readLines == 0 && CharStep(s, c).1.ch == mark
    ensures r.Got? ==> r.value == mark && r.sc == CharStep(s, c).1 && c.pos < r.sc.pos <= |s|
    ensures r.Fault? ==> r.kind == InvalidStatement
  {
    var (found, c1) := CharStep(s, c);
    if found && c1.readLines == 0 && c1.ch == mark then Got(mark, c1) else Fault(InvalidStatement)
  }

  /** fscanf("%i") from the file position: the value and the position after it. */
  function IntStep(s: seq<char>, c: Scan): (r: Option<(int, Scan)>)
    requires c.pos <= |s|
    ensures r.Some? <==> ScanInt(s, c.pos).Some?
    ensures r.Some? ==> r.value.0 == ScanInt(s, c.pos).value.0 && r.value.1 == c.(pos := ScanInt(s, c.pos).value.1)
    ensures r.Some? ==> c.pos < r.value.1.pos <= |s|
  {
    match ScanInt(s, c.pos)
    case None => None
    case Some((i, q)) => Some((i, c.(pos := q)))
  }

  /**
   * TCASM_read_array_ref: the index of the "+i" or "[i]" reference whose
   * '+' or '[' is the current character.
   */
  function IndexStep(s: seq<char>, c: Scan): (r: Got<int>)
    requires c.pos <= |s|
    ensures r.Got? ==> (r.sc.statementLine == c.statementLine && r.sc.line == c.line
      && r.sc.changedLine == c.changedLine && r.sc.readLines == 0 && c.pos < r.sc.pos <= |s|)
  {
    if c.ch != '+' && c.ch != '[' then Fault(InvalidStatement)
    else
      var (found, c1) := CharStep(s, c);
      if !found then Fault(InvalidArrayIndex)
      else if c1.readLines > 0 then Fault(InvalidStatement)
      else
        match IntStep(s, BackStep(c1))
        case None => Fault(InvalidArrayIndex)
        case Some((i, c2)) =>
          if c.ch == '+' then Got(i, c2)
          else
            var (found2, c3) := CharStep(s, c2);
            if !found2 || c3.readLines > 0 || c3.ch != ']' then Fault(InvalidStatement)
            else Got(i, c3)
  }

  /** The index read in the scanner value is the one ArrayIndexAt describes, and so is the error. */
  lemma IndexStepMeaning(s: seq<char>, c: Scan)
    requires c.pos <= |s|
    ensures IndexStep(s, c).Got? <==> ArrayIndexAt(s, c.pos, c.ch).Scanned?
    ensures IndexStep(s, c).Got? ==>
      IndexStep(s, c).value == ArrayIndexAt(s, c.pos, c.ch).value && IndexStep(s, c).sc.pos == ArrayIndexAt(s, c.pos, c.ch).end
    ensures IndexStep(s, c).Fault? ==> IndexStep(s, c).kind == ArrayIndexAt(s, c.pos, c.ch).kind
  {
    if c.ch == '+' || c.ch == '[' {
      var k := SkipFrom(s, c.pos, 0);
      var c1 := CharStep(s, c).1;
      assert ArrayIndexAt(s, c.pos, c.ch) == IndexAfter(s, k, c.ch);
      if k.found && k.lines == 0 {
        assert BackStep(c1).pos == k.pos - 1;
        var n := IntStep(s, BackStep(c1));
        if n.Some? && c.ch == '[' {
          ClosedStep(s, n.value.0, n.value.1);
        }
      }
    }
  }

  /** The ']' after an index, read by TCASM_read_char, is the one Closed describes. */
  lemma ClosedStep(s: seq<char>, i: int, c: Scan)
    requires c.pos <= |s|
    ensures var (found, c1) := CharStep(s, c);
      (found && c1.readLines == 0 && c1.ch == ']' <==> Closed(s, i, c.pos).Scanned?)
      && (Closed(s, i, c.pos).Scanned? ==> Closed(s, i, c.pos) == Scanned(i, c1.pos))
  {
  }

  /**
   * TCASM_read_data_type: SPACE or CONST, the letters after the current
   * character read raw; the current character is the last letter read.
   */
  function DataTypeStep(s: seq<char>, c: Scan): (r: Got<Kind>)
    requires c.pos <= |s|
    ensures r.Got? <==> DataTypeAt(s, c.pos, c.ch).Scanned?
    ensures r.Got? ==> (r.value == DataTypeAt(s, c.pos, c.ch).value
      && c.pos < r.sc.pos <= |s| && r.sc.pos == DataTypeAt(s, c.pos, c.ch).end
      && r.sc == c.(pos := r.sc.pos, ch := s[r.sc.pos - 1]))
    ensures r.Fault? ==> r.kind == InvalidStatement
  {
    match DataTypeAt(s, c.pos, c.ch)
    case Rejected(k) => Fault(k)
    case Scanned(t, e) => Got(t, c.(pos := e, ch := s[e - 1]))
  }

  /**
   * TCASM_check_new_line: a statement must start on a new line, whose number
   * it records as the statement line.
   */
  function NewLineStep(c: Scan): (r: Option<Scan>)
    ensures r.Some? <==> c.changedLine
    ensures r.Some? ==> r.value == c.(changedLine := false, statementLine := c.line)
  {
    if !c.changedLine then None else Some(c.(changedLine := false, statementLine := c.line))
  }

  /**
   * The scanner state of TCASM_assembler.c: the file and its position, the
   * current character TCASM_char, the line counter, the line the statement
   * being read started on, the characters and lines the last TCASM_read_char
   * consumed, the changed-line flag and the last word read.
   */
  class Scanner {
    const input: seq<char>
    var pos: nat
    var ch: char
    var line: nat
    var statementLine: nat
    var readChars: nat
    var readLines: nat
    var changedLine: bool
    var word: string

    ghost predicate Valid()
      reads this
    {
      pos <= |input|
    }

    /** The globals as the program starts: line 1, no line change seen, nothing read. */
    constructor (input: seq<char>)
      ensures Valid() && this.input == input && pos == 0
      ensures ch == 0 as char && line == 1 && statementLine == 0
      ensures readChars == 0 && readLines == 0 && !changedLine && word == []
    {
      this.input := input;
      pos := 0;
      ch := 0 as char;
      line := 1;
      statementLine := 0;
      readChars := 0;
      readLines := 0;
      changedLine := false;
      word := [];
    }

    /** The counters, flags and word are as before. */
    twostate predicate CountersKept()
      reads this
    {
      line == old(line) && statementLine == old(statementLine) && readChars == old(readChars)
      && readLines == old(readLines) && changedLine == old(changedLine) && word == old(word)
    }

    /** The current character is the folded last character consumed, if any was. */
    twostate predicate LastFolded()
      reads this
      requires pos <= |input|
    {
      ch == (if pos > old(pos) then Fold(input[pos - 1]) else old(ch))
    }

    /**
     * TCASM_read_char_from_file: one character, folded to upper case; at
     * the end of the file nothing changes.
     */
    method ReadCharFromFile() returns (ok: bool)
      requires Valid()
      modifies this
      ensures Valid() && CountersKept()
      ensures ok <==> old(pos) < |input|
      ensures pos == (if ok then old(pos) + 1 else old(pos))
      ensures ch == (if ok then Fold(input[old(pos)]) else old(ch))
    {
      if pos == |input| {
        return false;
      }
      ch := Fold(input[pos]);
      pos := pos + 1;
      return true;
    }

    /** The raw fgetc of the keyword matchers: no folding, None at the end of the file. */
    method ReadRaw() returns (c: Option<char>)
      requires Valid()
      modifies this
      ensures Valid() && CountersKept()
      ensures c == (if old(pos) < |input| then Some(input[old(pos)]) else None)
      ensures pos == (if c.Some? then old(pos) + 1 else old(pos))
      ensures c.Some? ==> ch == c.value
    {
      if pos == |input| {
        return None;
      }
      c := Some(input[pos]);
      ch := input[pos];
      pos := pos + 1;
    }

    /** fseek(fin, -1, SEEK_CUR): one character back. */
    method Unread()
      requires Valid()
      modifies this
      ensures Valid() && CountersKept() && ch == old(ch)
      ensures pos == (if old(pos) > 0 then old(pos) - 1 else 0)
    {
      if pos > 0 {
        pos := pos - 1;
      }
    }

    /**
     * TCASM_ignore_line: consumes through the end of the line and returns
     * how many characters it read, and whether the file ended.
     */
    method IgnoreLine() returns (count: nat, eof: bool)
      requires Valid()
      modifies this
      ensures Valid() && CountersKept() && LastFolded()
      ensures (pos, eof) == LineRest(input, old(pos))
      ensures count == pos - old(pos)
    {
      count := 0;
      while true
        invariant Valid() && old(pos) <= pos && count == pos - old(pos)
        invariant LineRest(input, pos) == LineRest(input, old(pos))
        invariant CountersKept() && LastFolded()
        decreases |input| - pos
      {
        var ok := ReadCharFromFile();
        if !ok {
          return count, true;
        }
        count := count + 1;
        if IsLineBreak(ch) {
          break;
        }
      }
      if ch == '\r' {
        var ok := ReadCharFromFile();
        if !ok {
          return count, true;
        }
        count := count + 1;
      }
      eof := false;
    }

    /**
     * The comment branch of TCASM_read_char: the rest of the line is
     * ignored and, unless the file ended, one more line is counted.
     */
    method SkipComment() returns (eof: bool)
      requires Valid()
      modifies this
      ensures Valid() && LastFolded()
      ensures (pos, eof) == LineRest(input, old(pos))
      ensures readChars == old(readChars) + (pos - old(pos))
      ensures readLines == old(readLines) + (if eof then 0 else 1) && line == old(line) + (readLines - old(readLines))
      ensures changedLine == (old(changedLine) || !eof)
      ensures statementLine == old(statementLine) && word == old(word)
    {
      var n;
      n, eof := IgnoreLine();
      readChars := readChars + n;
      if !eof {
        line := line + 1;
        readLines := readLines + 1;
        changedLine := true;
      }
    }

    /**
     * One pass of the loop of TCASM_read_char: reads a character and either
     * skips it (a blank, a comment through its line break, a line break and,
     * after a '\r', the character after it) or stops. The outcome is None to
     * go on, Some(true) at a significant character, Some(false) when the
     * file ended.
     */
    method SkipUnit() returns (outcome: Option<bool>)
      requires Valid()
      modifies this
      ensures Valid() && LastFolded()
      ensures SkipFrom(input, old(pos), old(readLines))
        == if outcome.Some? then Skip(outcome.value, pos, readLines) else SkipFrom(input, pos, readLines)
      ensures outcome.None? ==> pos > old(pos)
      ensures readChars == old(readChars) + (pos - old(pos)) && readLines >= old(readLines)
      ensures line == old(line) + (readLines - old(readLines))
      ensures changedLine == (old(changedLine) || readLines > old(readLines))
      ensures statementLine == old(statementLine) && word == old(word)
    {
      var ok := ReadCharFromFile();
      if !ok {
        return Some(false);
      }
      readChars := readChars + 1;
      if IsBlank(ch) {
        return None;
      }
      if ch == ';' {
        var eof := SkipComment();
        return if eof then Some(false) else None;
      }
      if IsLineBreak(ch) {
        line := line + 1;
        readLines := readLines + 1;
        changedLine := true;
        if ch == '\r' {
          ok := ReadCharFromFile();
          if !ok {
            return Some(false);
          }
          readChars := readChars + 1;
        }
        return None;
      }
      return Some(true);
    }

    /**
     * TCASM_read_char: skips blanks, comments and line breaks up to the next
     * significant character, counting the characters consumed and the line
     * breaks crossed; every line break raises the changed-line flag.
     */
    method ReadChar() returns (found: bool)
      requires Valid()
      modifies this
      ensures Valid() && LastFolded()
      ensures var k := SkipFrom(input, old(pos), 0);
        found == k.found && pos == k.pos && readLines == k.lines
        && line == old(line) + k.lines && changedLine == (old(changedLine) || k.lines > 0)
      ensures readChars == pos - old(pos)
      ensures found ==> readChars >= 1 && IsSignificant(ch)
      ensures statementLine == old(statementLine) && word == old(word)
    {
      readChars := 0;
      readLines := 0;
      ghost var start, ch0, line0, changed0 := pos, ch, line, changedLine;
      ghost var goal := SkipFrom(input, pos, 0);
      while true
        invariant start <= pos <= |input| && readChars == pos - start
        invariant SkipFrom(input, pos, readLines) == goal
        invariant line == line0 + readLines
        invariant changedLine == (changed0 || readLines > 0)
        invariant statementLine == old(statementLine) && word == old(word)
        invariant ch == (if pos > start then Fold(input[pos - 1]) else ch0)
        decreases |input| - pos
      {
        var outcome := SkipUnit();
        if outcome.Some? {
          return outcome.value;
        }
      }
    }

    /**
     * TCASM_read_symbol: the word that starts with the current character,
     * with the character after it pushed back. On success the current
     * character is the word's last one.
     */
    method ReadSymbol() returns (err: Option<ErrorKind>)
      requires Valid()
      modifies this
      ensures Valid()
      ensures var r := SymbolAt(input, old(pos), old(ch));
        (err.None? <==> r.Scanned?) && (err.Some? ==> err.value == r.kind)
        && (r.Scanned? ==> word == r.value && pos == r.end && ch == word[|word| - 1])
      ensures line == old(line) && statementLine == old(statementLine)
      ensures readChars == old(readChars) && readLines == old(readLines) && changedLine == old(changedLine)
    {
      if !IsIdentStart(ch) {
        return Some(InvalidSymbolStart);
      }
      ghost var start, ch0, q := pos, ch, IdentEnd(input, pos);
      word := [ch];
      while true
        invariant start <= pos <= q <= |input| && |word| == pos - start + 1
        invariant word == [ch0] + FoldAll(input[start..pos]) && |word| <= MaxIdentifierSize
        invariant IdentEnd(input, pos) == q
        invariant line == old(line) && statementLine == old(statementLine)
        invariant readChars == old(readChars) && readLines == old(readLines) && changedLine == old(changedLine)
        decreases |input| - pos
      {
        ghost var p0 := pos;
        var ok := ReadCharFromFile();
        if !ok {
          return Some(InvalidSymbol);
        }
        if !IsIdentChar(ch) {
          ch := word[|word| - 1];
          Unread();
          return None;
        }
        if |word| == MaxIdentifierSize {
          return Some(IdentifierTooLong);
        }
        SpellingGrows(input, start, p0, ch0, word);
        word := word + [ch];
      }
    }

    /**
     * TCASM_read_colon and TCASM_read_comma: the next significant character
     * must be the mark itself, on the same line.
     */
    method ReadMark(mark: char) returns (err: Option<ErrorKind>)
      requires Valid()
      modifies this
      ensures Valid() && LastFolded()
      ensures var k := SkipFrom(input, old(pos), 0);
        (err.None? <==> k.found && k.lines == 0 && Fold(input[k.pos - 1]) == mark)
        && (err.Some? ==> err.value == InvalidStatement)
        && pos == k.pos && readLines == k.lines && line == old(line) + k.lines
        && changedLine == (old(changedLine) || k.lines > 0)
      ensures readChars == pos - old(pos)
      ensures statementLine == old(statementLine) && word == old(word)
    {
      var found := ReadChar();
      if found {
        err := CheckSameLine();
        if err.None? && ch == mark {
          return None;
        }
      }
      return Some(InvalidStatement);
    }

    /**
     * TCASM_read_array_ref: the index of a "+i" or "[i]" reference whose
     * '+' or '[' is the current character.
     */
    method ReadArrayRef() returns (index: int, err: Option<ErrorKind>)
      requires Valid()
      modifies this
      ensures Valid()
      ensures var r := ArrayIndexAt(input, old(pos), old(ch));
        (err.None? <==> r.Scanned?) && (err.Some? ==> err.value == r.kind)
        && (r.Scanned? ==> index == r.value && pos == r.end && line == old(line)
                           && readLines == 0 && changedLine == old(changedLine))
      ensures statementLine == old(statementLine) && word == old(word)
    {
      var bracket := ch == '[';
      if ch != '+' && !bracket {
        return 0, Some(InvalidStatement);
      }
      ghost var p0, k := pos, SkipFrom(input, pos, 0);
      ArrayIndexCases(input, pos, ch);
      var found := ReadChar();
      if !found {
        return 0, Some(InvalidArrayIndex);
      }
      err := CheckSameLine();
      if err.Some? {
        return 0, err;
      }
      Unread();
      assert pos == k.pos - 1;
      var v := ReadInt();
      if v.None? {
        return 0, Some(InvalidArrayIndex);
      }
      index := v.value;
      if bracket {
        BracketIndex(input, p0, k, index, pos);
        err := ReadMark(']');
        if err.Some? {
          return 0, err;
        }
      }
      err := None;
    }

    /**
     * fscanf("%i"): the integer literal at the current position, read
     * without folding; the position moves past it.
     */
    method ReadInt() returns (v: Option<int>)
      requires Valid()
      modifies this
      ensures Valid() && CountersKept() && ch == old(ch)
      ensures var r := ScanInt(input, old(pos));
        (v.Some? <==> r.Some?) && (r.Some? ==> v.value == r.value.0 && pos == r.value.1)
        && (r.None? ==> pos == old(pos))
    {
      match ScanInt(input, pos)
      case None =>
        return None;
      case Some((i, q)) =>
        pos := q;
        return Some(i);
    }

    /**
     * The raw comparisons of a keyword match after its first letter: reads
     * until a character differs from the next letter of rest (in either
     * case) or the file ends.
     */
    method MatchRaw(rest: string) returns (ok: bool, last: Option<char>)
      requires Valid() && rest != []
      modifies this
      ensures Valid() && CountersKept()
      ensures (ok, pos, last) == MatchRest(input, old(pos), rest)
      ensures last.Some? ==> ch == last.value
    {
      var i := 0;
      last := None;
      while i < |rest|
        invariant Valid() && 0 <= i <= |rest| && CountersKept() && pos == old(pos) + i
        invariant i == 0 ==> pos == old(pos)
        invariant 0 < i ==> last == Some(input[pos - 1]) && ch == last.value
        invariant i < |rest| ==> MatchRest(input, pos, rest[i..]) == MatchRest(input, old(pos), rest)
        invariant i == |rest| ==> MatchRest(input, old(pos), rest) == (true, pos, last)
        decreases |rest| - i
      {
        last := ReadRaw();
        if last.None? || Fold(last.value) != rest[i] {
          return false, last;
        }
        assert rest[i..][1..] == rest[i + 1..];
        i := i + 1;
      }
      ok := true;
    }

    /**
     * TCASM_read_data_type: SPACE or CONST, reading the letters after the
     * folded current character raw.
     */
    method ReadDataType() returns (kind: Option<Kind>)
      requires Valid()
      modifies this
      ensures Valid() && CountersKept()
      ensures var r := DataTypeAt(input, old(pos), old(ch));
        (kind.Some? <==> r.Scanned?) && (r.Scanned? ==> kind.value == r.value && pos == r.end)
    {
      var last := Some(ch);
      if ch == 'S' {
        var ok;
        ok, last := MatchRaw("PACE");
        if ok {
          return Some(DirectiveSpace);
        }
      }
      if last == Some('C') {
        var ok, _ := MatchRaw("ONST");
        if ok {
          return Some(DirectiveConst);
        }
      }
      return None;
    }

    /** TCASM_check_new_line: a statement must start on a new line, whose number it records. */
    method CheckNewLine() returns (err: Option<ErrorKind>)
      requires Valid()
      modifies this
      ensures Valid()
      ensures err.Some? <==> !old(changedLine)
      ensures err.Some? ==> err.value == InvalidStatement
      ensures err.None? ==> !changedLine && statementLine == line
      ensures pos == old(pos) && ch == old(ch) && line == old(line) && word == old(word)
      ensures readChars == old(readChars) && readLines == old(readLines)
      ensures err.Some? ==> statementLine == old(statementLine)
    {
      if !changedLine {
        return Some(InvalidStatement);
      }
      changedLine := false;
      statementLine := line;
      return None;
    }

    /** TCASM_check_same_line: the last TCASM_read_char must not have crossed a line break. */
    method CheckSameLine() returns (err: Option<ErrorKind>)
      ensures err.Some? <==> readLines > 0
      ensures err.Some? ==> err.value == InvalidStatement
    {
      if readLines > 0 {
        return Some(InvalidStatement);
      }
      return None;
    }

    /** TCASM_check_new_column: the last TCASM_read_char must have consumed a character. */
    method CheckNewColumn() returns (err: Option<ErrorKind>)
      ensures err.Some? <==> readChars == 0
      ensures err.Some? ==> err.value == InvalidStatement
    {
      if readChars == 0 {
        return Some(InvalidStatement);
      }
      return None;
    }
  }
}
