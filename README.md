# TCASM in Dafny

TCASM is a toolchain for a small hypothetical accumulator machine. It has
16-bit words, a 65536-word memory and fourteen instructions, ADD (opcode 1)
to STOP (opcode 14). This project models the toolchain's four programs and
proves properties of the model:

- **The single-pass assembler** reads source text with a `SECTION TEXT`
  part and a `SECTION DATA` part, in either order, and produces an image of
  16-bit words. Its parts are modelled separately:
  - the scanner: blanks, `;` comments, upper-case folding, line counting,
    and one character of push-back;
  - the thirteen-state parsing machine;
  - the symbol table: a separate-chaining hash table using the ELF hash,
    with buckets kept in `strcmp` order in a doubly linked list, and seeded
    with the 19 keywords;
  - the resolver: a symbol used before it is defined has its operand words
    queued; once the label, variable, constant or array gets its address,
    those words are patched.
- **The interpreter** is a fetch/execute loop over `pc`, `acc` and the
  memory.
- **The IA-32 ELF generator** translates every image word into six bytes
  of 386 code or data, and wraps them in an ELF32 header and one program
  header.
- **The disassembler** prints NASM source. Labels are named after the word
  index of each opcode, and variables after the index of each data word.

Files:

| file | module | models |
|---|---|---|
| common.dfy | Common | 16-bit words, the C integer conversions, `Option` |
| errors.dfy | Errors | the assembler's error messages, with their lines, and `Result` |
| symbols.dfy | Symbols | `TCASM_symbol.h`: kinds, opcodes, reference records, the symbol record |
| numerals.dfy | Numerals | the `%i` conversion of `fscanf` and the `%d` conversion of `printf` |
| scanning.dfy | Scanning | the scanner of `TCASM_assembler.c`, as functions and as a `Scanner` class over the file |
| hash.dfy | Hashing | `TCASM_hash` on 32-bit words |
| lists.dfy | Lists | `TCASM_list.c` |
| hashtable.dfy | HashTables | `TCASM_hashtable.c` as a class over its buckets |
| keywords.dfy | Keywords | `TCASM_symbol_init` |
| resolution.dfy | Resolution | the pending-reference bookkeeping and the `TCASM_dump_*` loops |
| assembler.dfy | Assembling | the states' handlers, `TCASM_read_file` and the end-of-file checks |
| passproofs.dfy | PassProofs | the invariant of the pass, and that every reference is resolved |
| driver.dfy | Driver | the character loop and the in-place dumps, as methods over arrays |
| image.dfy | Images | the instruction walk of an image, which both translators use |
| machine.dfy | Machine | `TCASM_machine.cpp` |
| elfgen.dfy | ElfGen | `TCASM_IA-32_ELF_generator.cpp` |
| disasm.dfy | Disasm | `TCASM_IA-32_disassembler.c` |

The main theorems:

- `PassProofs.AssembledResolved`: once a source assembles, every operand
  word that names a symbol holds that symbol's address plus the operand's
  array offset.
- `Driver.ReadFile`: the imperative character loop computes exactly the
  image described by `Assembling.Assemble`.
- `Machine.Interpreter.Run`: the loop on the memory array runs exactly as
  `Machine.Execute`, whose per-opcode effects are stated by the `*Step`
  lemmas.
- `ElfGen.DataOperandsPoint`: in a generated ELF file, every data operand
  points at the bytes of its data word. `ElfGen.JumpLands` states the same
  for every jump target.
- `Disasm.Disassembles`: the listing of a well-formed image labels every
  instruction and data word by its index.

## Model

| member | source | states |
|---|---|---|
| Symbols.Code | trabalho1/TCASM_assembler/TCASM_symbol.h:17-29 | each symbol kind's enumerator value: directives are 0-3, instructions 4-6, a label 7 and the data addresses 8-10, the groups the assembler tells apart by comparing codes |
| Symbols.CodeInjective | trabalho1/TCASM_assembler/TCASM_symbol.h:17-29 | two kinds have the same enumerator value exactly when they are the same kind |
| Symbols.OpcodesConsecutive | trabalho1/TCASM_assembler/TCASM_symbol.h:34-49 | the fourteen opcodes ADD to STOP are 1 to 14, in the order of the mnemonics |
| Symbols.ConstWord | trabalho1/TCASM_assembler/TCASM_symbol.h:86-93 | a constant in the 16-bit range is stored as the word whose two's-complement reading is the constant, and the word is zero exactly for zero |
| Symbols.OverlaidSize | trabalho1/TCASM_assembler/TCASM_symbol.h:159-169 | the word read through the union member array.size of any record: an instruction's opcode, an array's size, and no defined word for a variable, whose union starts with a list header |
| Common.Int32 | trabalho1/TCASM_assembler/TCASM_assembler.c:953-954 | the int that a %i conversion stores lies in the 32-bit range and equals the number read whenever the number fits |
| Common.Wrap16Range | trabalho1/TCASM_machine/TCASM_machine.cpp:59-69 | an int16_t result lies in -32768..32767, differs from the exact value by a multiple of 65536, and is the exact value when that fits |
| Common.SizeTRange | trabalho1/TCASM_assembler/TCASM_assembler.c:1028 | the size_t sum of a size and an int is the sum, or the sum plus 2^64 when it is negative, so a sum below zero reads as a huge size and fails the memory check |
| Lists.DList.Zeroed | trabalho1/TCASM_assembler/TCASM_hashtable.c:19-20 | a list as calloc leaves it: value size 0 and no nodes |
| Lists.DList.Init | trabalho1/TCASM_assembler/TCASM_list.c:10-15 | an initialised list is empty and has the given value size |
| Lists.DList.Insert | trabalho1/TCASM_assembler/TCASM_list.c:24-46 | the new value sits immediately before the given node, or last when the position is NULL, and every other node keeps its order |
| Lists.DList.Erase | trabalho1/TCASM_assembler/TCASM_list.c:54-67 | the node at the position is removed and the others keep their order; a NULL position removes nothing |
| Lists.InsertThenErase | trabalho1/TCASM_assembler/TCASM_list.c:24-67 | erasing the node just inserted gives the original list back |
| Hashing.HashStepTopNibble | trabalho1/TCASM_assembler/TCASM_hashtable.c:149-154 | after every step of the hash loop the top four bits of the accumulator are clear |
| Hashing.ElfHashBound | trabalho1/TCASM_assembler/TCASM_hashtable.c:146-157 | a finished hash is below 2^28, so multiplying it by 999983 never leaves 64 bits |
| Hashing.Index | trabalho1/TCASM_assembler/TCASM_hashtable.c:157 | the bucket index is below the number of buckets |
| Hashing.Round | trabalho1/TCASM_assembler/TCASM_hashtable.c:149-154 | one turn of the hash loop computes the step function: shift in a character and fold the top nibble back |
| Hashing.Hash | trabalho1/TCASM_assembler/TCASM_hashtable.c:146-158 | the loop gives the bucket index of the whole key's hash and the key's length |
| HashTables.Strcmp | trabalho1/TCASM_assembler/TCASM_hashtable.c:56 | strcmp's sign is -1, 0 or 1 |
| HashTables.StrcmpZero | trabalho1/TCASM_assembler/TCASM_hashtable.c:56-59 | strcmp is zero exactly for equal keys |
| HashTables.StrcmpAntisymmetric | trabalho1/TCASM_assembler/TCASM_hashtable.c:56-65 | swapping the keys negates strcmp's sign |
| HashTables.StrcmpTransitive | trabalho1/TCASM_assembler/TCASM_hashtable.c:54-75 | strcmp's order is transitive, so a chain sorted node by node is sorted |
| HashTables.HasKeyAt | trabalho1/TCASM_assembler/TCASM_hashtable.c:54-66 | the chain walk finds a key exactly when some node of the chain holds it |
| HashTables.InsertAscending | trabalho1/TCASM_assembler/TCASM_hashtable.c:54-75 | inserting a key before the first larger key keeps the chain in strictly ascending strcmp order |
| HashTables.NotInChain | trabalho1/TCASM_assembler/TCASM_hashtable.c:54-66 | a key that falls strictly between its neighbours in an ascending chain is in no node of the chain |
| HashTables.AddKey | trabalho1/TCASM_assembler/TCASM_hashtable.c:68-78 | adding a key missing from its chain, at its sorted place and with a fresh record, keeps every chain ascending, every key in its own bucket and one record per key |
| HashTables.HashTable.constructor | trabalho1/TCASM_assembler/TCASM_hashtable.c:15-21 | a new table has the given number of buckets (1201 when 0 is given), untouched bucket lists and no keys |
| HashTables.HashTable.Search | trabalho1/TCASM_assembler/TCASM_hashtable.c:111-124 | the walk stops on the key's node, or where the key belongs: every earlier key is smaller and the node it stops at is larger |
| HashTables.HashTable.NewKey | trabalho1/TCASM_assembler/TCASM_hashtable.c:126-136 | the new node goes before the position found (last when none), and the table maps the key to its fresh record and keeps its invariant |
| HashTables.HashTable.Splice | trabalho1/TCASM_assembler/TCASM_hashtable.c:97-107 | an untouched bucket gets its value size before the node is linked in; only that bucket's chain changes |
| HashTables.HashTable.GetNode | trabalho1/TCASM_assembler/TCASM_hashtable.c:91-137 | an existing key gives back its own record with created false and nothing changes; a new key gets a fresh zero record, with created true |
| HashTables.HashTable.Get | trabalho1/TCASM_assembler/TCASM_hashtable.c:33-79 | the record of the key, created exactly when the key was absent, so one key always has one record |
| Keywords.Record | trabalho1/TCASM_assembler/TCASM_symbol.c:12-81 | a seeded keyword's record has the keyword's kind and opcode and no pending references |
| Keywords.TableOf | trabalho1/TCASM_assembler/TCASM_symbol.c:12-81 | seeding a prefix of the keywords binds exactly the keys of that prefix |
| Keywords.TableOfStep | trabalho1/TCASM_assembler/TCASM_symbol.c:12-81 | each seeding step adds a key the table did not hold yet, bound to its record |
| Keywords.Seed | trabalho1/TCASM_assembler/TCASM_symbol.c:12-13 | one seeding step: getting an absent key creates a fresh record, which then holds the keyword's kind and opcode, and the table keeps its invariant |
| Keywords.SeedAll | trabalho1/TCASM_assembler/TCASM_symbol.c:12-81 | seeding distinct keywords in order on an empty table leaves exactly their keys, each bound to its own record |
| Keywords.SymbolInit | trabalho1/TCASM_assembler/TCASM_symbol.c:9-82 | after initialisation the table holds exactly the 19 keywords, each bound to its keyword record |
| Keywords.EntriesDistinct | trabalho1/TCASM_assembler/TCASM_symbol.c:12-81 | the 19 seeded keys are distinct upper-case words |
| Keywords.TableOfLookup | trabalho1/TCASM_assembler/TCASM_symbol.c:12-81 | with distinct keys, every seeded key is bound to its own keyword's record |
| Keywords.KeywordAt | trabalho1/TCASM_assembler/TCASM_symbol.c:12-81 | the j-th keyword in seeding order is in the table with its record |
| Keywords.EntryKinds | trabalho1/TCASM_assembler/TCASM_symbol.c:12-81 | the first five keywords are the directives; the rest are the 14 mnemonics with opcodes 1-14; COPY and STOP alone have their own kinds |
| Keywords.KeywordRecords | trabalho1/TCASM_assembler/TCASM_symbol.c:12-81 | every seeded key is an upper-case word whose record has no pending references |
| Keywords.KeywordDirectives | trabalho1/TCASM_assembler/TCASM_symbol.c:12-25 | SECTION, SPACE and CONST get their own directive kinds; TEXT and DATA share the section-type kind |
| Keywords.OnlyDirectives | trabalho1/TCASM_assembler/TCASM_symbol.c:12-25 | no key other than those five is a directive |
| Keywords.KeywordOpcodes | trabalho1/TCASM_assembler/TCASM_symbol.c:27-81 | ADD to STOP are instructions with opcodes 1 to 14, and only the mnemonics are instructions |
| Keywords.KeywordInstructionKinds | trabalho1/TCASM_assembler/TCASM_symbol.c:43-81 | COPY is the only copy instruction and STOP the only stop instruction; the jumps are regular instructions told apart by opcode |
| Keywords.KeywordKinds | trabalho1/TCASM_assembler/TCASM_symbol.c:9-82 | after initialisation no key is an address |
| Numerals.DigitValue | trabalho1/TCASM_assembler/TCASM_assembler.c:581 | a hexadecimal digit is worth less than 16, an octal one less than 8 and a decimal one less than 10 |
| Numerals.DigitsEnd | trabalho1/TCASM_assembler/TCASM_assembler.c:581 | the digit run from a position ends at the first character that is not a digit of the base |
| Numerals.ScanMagnitude | trabalho1/TCASM_assembler/TCASM_assembler.c:581 | the unsigned part of a %i literal exists exactly when a decimal digit starts it, and ends after it; a "0x" with no hex digit after it is consumed whole and reads as 0, since the stream pushes back only the character after the x |
| Numerals.ScanInt | trabalho1/TCASM_assembler/TCASM_assembler.c:580-584 | %i reads a literal exactly when a digit, or a sign and then a digit, stands at the position; otherwise the conversion fails |
| Numerals.BareHexPrefix | trabalho1/TCASM_assembler/TCASM_assembler.c:580-584 | %i on a "0x" with no hex digit after it reads 0 and resumes right after the x, so "0x 5" reads as 0 and then 5 |
| Numerals.DecimalText | trabalho2/TCASM_IA-32_disassembler/TCASM_IA-32_disassembler.c:132-202 | the numeral %d prints is a non-empty run of decimal digits without a leading zero |
| Numerals.DecimalValue | trabalho2/TCASM_IA-32_disassembler/TCASM_IA-32_disassembler.c:132-202 | reading the printed decimal digits back gives the number |
| Numerals.ScanMagnitudeText | trabalho1/TCASM_assembler/TCASM_assembler.c:580-584 | the printed decimal numeral of a number reads back, after any prefix, as that number |
| Numerals.ScanDecimal | trabalho1/TCASM_assembler/TCASM_assembler.c:580-584 | %i reads back what %d prints: any integer with its sign, followed by a character that ends a literal |
| Scanning.Fold | trabalho1/TCASM_assembler/TCASM_assembler.c:483-494 | every character read is folded to upper case: lower-case letters become their capitals, nothing else changes |
| Scanning.FoldAll | trabalho1/TCASM_assembler/TCASM_assembler.c:483-494 | a word read character by character is the folded form of the characters consumed |
| Scanning.SpellingGrows | trabalho1/TCASM_assembler/TCASM_assembler.c:509-527 | each identifier character read extends the word by its folded form |
| Scanning.LineRest | trabalho1/TCASM_assembler/TCASM_assembler.c:411-427 | ignoring a comment consumes through the first line break, and one more character after a carriage return; end of file only at the end of the input |
| Scanning.SkipFrom | trabalho1/TCASM_assembler/TCASM_assembler.c:434-477 | reading a character skips blanks, comments and line breaks, counting the breaks, and stops just after a significant character or at the end of the file |
| Scanning.SkipOnSameLine | trabalho1/TCASM_assembler/TCASM_assembler.c:434-477 | a significant character reached without crossing a line break was preceded only by blanks |
| Scanning.SkipBlanks | trabalho1/TCASM_assembler/TCASM_assembler.c:434-477 | after blanks, the next character read is the significant one, on the same line |
| Scanning.IdentEnd | trabalho1/TCASM_assembler/TCASM_assembler.c:509-519 | the identifier run ends at the first character that cannot continue an identifier |
| Scanning.SymbolAt | trabalho1/TCASM_assembler/TCASM_assembler.c:500-528 | a symbol starts with a letter or '_', continues with folded identifier characters, has at most 1000 characters and is followed by a pushed-back character; otherwise it is rejected with the source's error |
| Scanning.SymbolRoundTrip | trabalho1/TCASM_assembler/TCASM_assembler.c:500-528 | an upper-case identifier of at most 1000 characters followed by a non-identifier character is read back whole |
| Scanning.TooLongIdentifier | trabalho1/TCASM_assembler/TCASM_assembler.c:521-524 | a symbol with more than 1000 identifier characters is rejected as too long |
| Scanning.ArrayIndexAt | trabalho1/TCASM_assembler/TCASM_assembler.c:564-600 | an array reference starts with '+' or '['; the index must start on the same line; a '[' reference ends with ']' |
| Scanning.IndexAfter | trabalho1/TCASM_assembler/TCASM_assembler.c:572-599 | the index is missing at end of file, refused on another line, and needs a %i literal |
| Scanning.Closed | trabalho1/TCASM_assembler/TCASM_assembler.c:586-597 | after the index of a bracketed reference the next significant character must be ']' on the same line |
| Scanning.ArrayIndexCases | trabalho1/TCASM_assembler/TCASM_assembler.c:564-600 | each way of reading an array reference ends with the error the source prints at that point, or with the literal's value |
| Scanning.BracketIndex | trabalho1/TCASM_assembler/TCASM_assembler.c:586-597 | a bracketed index is accepted exactly when the closing bracket follows |
| Scanning.PlusIndexRoundTrip | trabalho1/TCASM_assembler/TCASM_assembler.c:564-600 | "+i" is read back as index i |
| Scanning.BracketIndexRoundTrip | trabalho1/TCASM_assembler/TCASM_assembler.c:564-600 | "[i]" is read back as index i, with any blanks before the ']' |
| Scanning.MatchRest | trabalho1/TCASM_assembler/TCASM_assembler.c:606-636 | a hand-unrolled keyword match accepts exactly when the raw characters equal the keyword's letters in either case |
| Scanning.DataTypeAt | trabalho1/TCASM_assembler/TCASM_assembler.c:606-641 | the data type after a label is SPACE or CONST; anything else is an invalid statement |
| Scanning.DataTypeKeywords | trabalho1/TCASM_assembler/TCASM_assembler.c:606-636 | SPACE and CONST are recognised in either case after their first letter |
| Scanning.DataTypeFallThrough | trabalho1/TCASM_assembler/TCASM_assembler.c:606-636 | a failed SPACE match falls through to the CONST match with the last raw character read, and letters after either keyword are left unread |
| Scanning.CharStep | trabalho1/TCASM_assembler/TCASM_assembler.c:434-477 | one character read on the scanner state: the characters consumed are counted afresh, each line break moves the line and raises the flag, and the character found is significant |
| Scanning.BackStep | trabalho1/TCASM_assembler/TCASM_assembler.c:517 | pushing one character back moves only the position |
| Scanning.SymbolStep | trabalho1/TCASM_assembler/TCASM_assembler.c:500-528 | a symbol read on the scanner state: the word is stored, the character after it is pushed back and the counters do not move |
| Scanning.MarkStep | trabalho1/TCASM_assembler/TCASM_assembler.c:533-558 | a colon or comma is accepted exactly when it is the next significant character on the same line |
| Scanning.IntStep | trabalho1/TCASM_assembler/TCASM_assembler.c:579-584 | %i on the scanner state moves the position past the literal and nothing else |
| Scanning.IndexStep | trabalho1/TCASM_assembler/TCASM_assembler.c:564-600 | an array index read on the scanner state stays on the statement's line |
| Scanning.IndexStepMeaning | trabalho1/TCASM_assembler/TCASM_assembler.c:564-600 | the index read on the scanner state, and the error, are those of the reference's text |
| Scanning.ClosedStep | trabalho1/TCASM_assembler/TCASM_assembler.c:586-597 | the ']' read after an index on the scanner state is the one the text description finds |
| Scanning.DataTypeStep | trabalho1/TCASM_assembler/TCASM_assembler.c:606-641 | the data type read on the scanner state is the one of the text, and the current character is the last raw character read |
| Scanning.NewLineStep | trabalho1/TCASM_assembler/TCASM_assembler.c:647-655 | a statement must start on a new line; the flag is cleared and the statement line recorded |
| Scanning.Scanner.constructor | trabalho1/TCASM_assembler/TCASM_assembler.c:104-141 | the scanner starts at the start of the file, on line 1, with nothing read and no line change seen |
| Scanning.Scanner.ReadCharFromFile | trabalho1/TCASM_assembler/TCASM_assembler.c:483-494 | one character is read and folded; at the end of the file nothing changes |
| Scanning.Scanner.ReadRaw | trabalho1/TCASM_assembler/TCASM_assembler.c:609-630 | a raw read of the keyword matchers: no folding, nothing at the end of the file |
| Scanning.Scanner.Unread | trabalho1/TCASM_assembler/TCASM_assembler.c:517 | the position moves back by one character |
| Scanning.Scanner.IgnoreLine | trabalho1/TCASM_assembler/TCASM_assembler.c:411-427 | the loop consumes what LineRest describes and returns the number of characters it read |
| Scanning.Scanner.SkipComment | trabalho1/TCASM_assembler/TCASM_assembler.c:449-457 | a comment is ignored through its line break, as LineRest describes, and one more line is counted unless the file ended there |
| Scanning.Scanner.SkipUnit | trabalho1/TCASM_assembler/TCASM_assembler.c:439-474 | one pass of the reading loop skips one blank, comment or line break, or stops, as SkipFrom does |
| Scanning.Scanner.ReadChar | trabalho1/TCASM_assembler/TCASM_assembler.c:434-477 | the loop stops where SkipFrom does, with the characters consumed and the line breaks crossed counted; a character found means at least one character was consumed |
| Scanning.Scanner.ReadSymbol | trabalho1/TCASM_assembler/TCASM_assembler.c:500-528 | the loop reads the word, position and error SymbolAt gives, leaving the counters alone |
| Scanning.Scanner.ReadMark | trabalho1/TCASM_assembler/TCASM_assembler.c:533-558 | the colon or comma is accepted exactly when it is the next significant character on the same line |
| Scanning.Scanner.ReadArrayRef | trabalho1/TCASM_assembler/TCASM_assembler.c:564-600 | the index, position and error are those ArrayIndexAt gives |
| Scanning.Scanner.ReadInt | trabalho1/TCASM_assembler/TCASM_assembler.c:579-584 | the literal is read as ScanInt reads it; a failed conversion does not move |
| Scanning.Scanner.MatchRaw | trabalho1/TCASM_assembler/TCASM_assembler.c:609-635 | the raw comparisons stop as MatchRest does |
| Scanning.Scanner.ReadDataType | trabalho1/TCASM_assembler/TCASM_assembler.c:606-641 | the data type read is the one DataTypeAt gives |
| Scanning.Scanner.CheckNewLine | trabalho1/TCASM_assembler/TCASM_assembler.c:647-655 | an error exactly when no line break came before the statement; otherwise the statement line becomes the current line |
| Scanning.Scanner.CheckSameLine | trabalho1/TCASM_assembler/TCASM_assembler.c:661-666 | an error exactly when the last read crossed a line break |
| Scanning.Scanner.CheckNewColumn | trabalho1/TCASM_assembler/TCASM_assembler.c:672-677 | an error exactly when the last read consumed no character |
| Assembling.UndefinedError | trabalho1/TCASM_assembler/TCASM_assembler.c:841-873 | the end-of-pass scan gives a message exactly for labels, variables, constants and arrays, the four kinds that can be left undefined |
| Assembling.Fetch | trabalho1/TCASM_assembler/TCASM_assembler.c:1303 | after the lookup the word is the current symbol and is in the table; an existing key leaves the book as it was, a new one is added by Lookup; nothing else changes |
| Assembling.Put | trabalho1/TCASM_assembler/TCASM_assembler.c:1083 | a word is appended to the image exactly when the image is not full; a full image gives the overflow error |
| Assembling.Word | trabalho1/TCASM_assembler/TCASM_assembler.c:1302-1303 | reading a word moves forward within the file, says "new" exactly when the word was not in the table, makes it the current symbol as Fetch has it, and reports errors at the statement's line |
| Assembling.Opening | trabalho1/TCASM_assembler/TCASM_assembler.c:1300-1303 | a statement not starting on a new line is an invalid statement; otherwise its first word is read as Word has it |
| Assembling.Literal | trabalho1/TCASM_assembler/TCASM_assembler.c:952-953 | a %i conversion into an int reads a literal exactly when one stands at the position, gives its value cut to 32 bits and moves forward on the same line |
| Assembling.ConstantAt | trabalho1/TCASM_assembler/TCASM_assembler.c:980-986 | a constant is read exactly when a literal follows whose int lies in -32768..32767; every other case is an invalid constant |
| Assembling.SizeAt | trabalho1/TCASM_assembler/TCASM_assembler.c:952-971 | an array size is read exactly when a literal follows whose int is positive and fits in 65536 words with the words used before it; a size_t sum above 65536 is a memory overflow, any other failure an invalid array size |
| Assembling.Operand | trabalho1/TCASM_assembler/TCASM_assembler.c:1789-1793 | an operand on a later line is an invalid statement; otherwise the word is read on the same line as Word has it |
| Assembling.HandleSection | trabalho1/TCASM_assembler/TCASM_assembler.c:1205-1233 | the step succeeds exactly when the keyword SECTION is read, then leaves the book alone and moves to reading the section type; otherwise it fails with "must start with SECTION" |
| Assembling.HandleSectionType | trabalho1/TCASM_assembler/TCASM_assembler.c:1240-1289 | a word on a later line, or with no character consumed, is an invalid statement; TEXT read raw starts the code unless the code already started (text already started); otherwise DATA, whose D may be the last raw character of a failed TEXT match, starts the data unless the data already started (data already started), in the data state for data before the code or after it exactly when the code has been read; any other word is an invalid section type; success leaves the book unchanged |
| Assembling.Decode | trabalho1/TCASM_assembler/TCASM_assembler.c:1081-1093 | the current instruction's opcode is appended to the image, exactly when there is room, and the state becomes the one its opcode leads to: Branch for the four jumps, Copy for COPY, the next statement for STOP and Regular for the other mnemonics of the keyword table |
| Assembling.DefineLabel | trabalho1/TCASM_assembler/TCASM_assembler.c:1306-1324 | the label becomes a label whose address is the image size, its pending references are drained, and only its address entry is added; the image size stays the same |
| Assembling.HandleTextStatement | trabalho1/TCASM_assembler/TCASM_assembler.c:1297-1349 | a statement that does not start on a new line is an invalid statement at its line; otherwise the step is what TextStatementWord does with the first word and whether it was new |
| Assembling.TextStatementWord | trabalho1/TCASM_assembler/TCASM_assembler.c:1305-1348 | a new word or a known label opens a label statement; an instruction is decoded; SECTION is refused with "both sections started" once the data section has been read and otherwise moves to the section type; any other directive is an invalid statement; a variable, constant or array name is a redefinition |
| Assembling.LabelStatement | trabalho1/TCASM_assembler/TCASM_assembler.c:1306-1324 | a label statement succeeds exactly when a colon follows and the label is new or still has queued uses; a label already defined is a redefinition and a missing colon an invalid statement; on success the label gets the image size as its address and its queue is emptied, and nothing else in the book changes |
| Assembling.HandleText | trabalho1/TCASM_assembler/TCASM_assembler.c:1465-1479 | an instruction after a label must stand on the label's line (invalid statement); a word that is not an instruction is an invalid instruction; an instruction is decoded |
| Assembling.Mark | trabalho1/TCASM_assembler/TCASM_assembler.c:533-558 | the step succeeds exactly when the mark is found on the same line; only the scanner moves forward and the state changes; otherwise the statement is invalid |
| Assembling.DataBefore | trabalho1/TCASM_assembler/TCASM_assembler.c:935-1007 | with no character left the source has no instructions; SPACE at the end of its line declares a one-word variable; CONST at the end of its line is an invalid statement; otherwise the rest of the line is read as an array size (SPACE) or a constant (CONST) |
| Assembling.ConstBefore | trabalho1/TCASM_assembler/TCASM_assembler.c:976-1001 | a constant is accepted exactly when a %i literal follows and, cut to an int, lies in -32768..32767; anything else is an invalid constant; the accepted constant is recorded with its 16-bit word, one data word more, and the image is left alone |
| Assembling.ArrayBefore | trabalho1/TCASM_assembler/TCASM_assembler.c:950-974 | an array is accepted exactly when a %i literal follows whose int is positive and fits in the memory with the data before it; otherwise the error is a memory overflow when the size_t sum exceeds 65536 and an invalid array size else; the accepted array is recorded with its size |
| Assembling.HandleDataStatementBefore | trabalho1/TCASM_assembler/TCASM_assembler.c:1357-1396 | a statement that does not start on a new line is an invalid statement at its line; otherwise the step is what DataStatementBeforeWord does with the first word |
| Assembling.DataStatementBeforeWord | trabalho1/TCASM_assembler/TCASM_assembler.c:1363-1396 | with 65536 data words the statement is a memory overflow; a new name needs a colon; SECTION moves to the section type; SPACE and CONST declare anonymous data; any other keyword is data with a keyword; a known label, variable, constant or array is a redefinition |
| Assembling.HandleDataCreateBefore | trabalho1/TCASM_assembler/TCASM_assembler.c:1487-1570 | after a new name and its colon, a data type on another line or neither SPACE nor CONST is an invalid statement; otherwise the datum is declared under that name as DataBefore has it |
| Assembling.DataAfter | trabalho1/TCASM_assembler/TCASM_assembler.c:1013-1075 | SPACE goes to SpaceAfterCode; CONST with nothing more on its line is an invalid statement; otherwise the constant is read as ConstAfterCode has it |
| Assembling.SpaceAfterCode | trabalho1/TCASM_assembler/TCASM_assembler.c:1019-1071 | SPACE at the end of its line emits one zero word exactly when the image has room; otherwise the rest of the line is read as an array size as ArrayAfterCode has it |
| Assembling.ConstAfterCode | trabalho1/TCASM_assembler/TCASM_assembler.c:1047-1065 | an anonymous constant after the code is emitted exactly when it is a valid constant and the image has room, as its 16-bit word; otherwise the error is the invalid constant or the overflow |
| Assembling.ArrayAfterCode | trabalho1/TCASM_assembler/TCASM_assembler.c:1024-1043 | an anonymous array after the code is accepted exactly when a %i literal follows whose int is positive and fits in the image; its error is the memory overflow or invalid size SizeAt gives; the image grows by exactly that many zero words and nothing else changes |
| Assembling.HandleDataStatementAfter | trabalho1/TCASM_assembler/TCASM_assembler.c:1403-1459 | a statement that does not start on a new line is an invalid statement at its line; otherwise the step is what DataStatementAfterWord does with the first word |
| Assembling.DataStatementAfterWord | trabalho1/TCASM_assembler/TCASM_assembler.c:1403-1459 | with a full image the statement is a memory overflow; a new name is an unused declaration that needs a colon; a variable or array with queued uses is defined after a colon, one without is a redefinition; SPACE and CONST emit anonymous data; SECTION is "both sections started"; any other keyword is data with a keyword; a label or constant is a redefinition |
| Assembling.HandleDataCreateAfter | trabalho1/TCASM_assembler/TCASM_assembler.c:1578-1648 | after an unused name and its colon, a data type on another line or neither SPACE nor CONST is an invalid statement; otherwise the datum is emitted anonymously as DataAfter has it |
| Assembling.DefineCell | trabalho1/TCASM_assembler/TCASM_assembler.c:1666-1711 | defining a used variable or constant succeeds exactly when its queued operand words all accept it and the image has room; a refused reference gives the dump's error, a full image the overflow; on success the symbol gets the next word as its address and its word is written there |
| Assembling.HandleDefineVarConst | trabalho1/TCASM_assembler/TCASM_assembler.c:1657-1717 | a data type on another line or neither SPACE nor CONST is an invalid statement; otherwise the definition is read as VarConstAfter has it |
| Assembling.VarConstAfter | trabalho1/TCASM_assembler/TCASM_assembler.c:1662-1716 | SPACE defines the used variable as VariableDefinition has it; CONST with nothing more on its line is an invalid statement; otherwise the constant is read as ConstDefinition has it |
| Assembling.VariableDefinition | trabalho1/TCASM_assembler/TCASM_assembler.c:1666-1711 | SPACE at the end of its line defines the used variable as a zero word, exactly when the image has room; anything more on the line is an unexpected array |
| Assembling.ConstDefinition | trabalho1/TCASM_assembler/TCASM_assembler.c:1681-1701 | CONST defines the used constant exactly when a valid constant follows, the image has room and every queued use accepts it (no write, no division by zero); a bad literal is an invalid constant; the constant's word is written at its new address |
| Assembling.DefineBlock | trabalho1/TCASM_assembler/TCASM_assembler.c:1749-1755 | defining a used array succeeds exactly when every queued offset is below its size, and a failure is an invalid array position; on success it gets the image size as its address, n zero words, size n and an empty queue |
| Assembling.HandleDefineArray | trabalho1/TCASM_assembler/TCASM_assembler.c:1725-1779 | a data type on another line or neither SPACE nor CONST is an invalid statement; otherwise the definition is read as ArrayAfter has it |
| Assembling.ArrayAfter | trabalho1/TCASM_assembler/TCASM_assembler.c:1730-1778 | a used array must be defined by SPACE and a size: CONST is an unexpected constant (an invalid statement at end of file), SPACE alone an unexpected variable, a bad size the error SizeAt gives, and a good size defines the array as DefineBlock has it |
| Assembling.ArrayOperand | trabalho1/TCASM_assembler/TCASM_assembler.c:564-600 | a '+' or '[' index is read forward in the file, on the statement's own line |
| Assembling.NewRefList | trabalho1/TCASM_assembler/TCASM_assembler.c:1100-1140 | the first use of a symbol fails with CodeOverflow on a full image; otherwise its operand word is zeroed and taken, and the symbol is appended to the reference list, with no other key or address added. Unless an index follows on the line, the use succeeds and the symbol becomes a variable with one more VarConstRef to that word, naming the instruction one word back (two for COPY's second operand); no other record changes |
| Assembling.NewArrayUse | trabalho1/TCASM_assembler/TCASM_assembler.c:1117-1131 | when an index follows the first use of a symbol, the use succeeds exactly when the index can be read; the symbol then becomes an array with one more ArrayRef carrying that index, the statement's line and the operand word, and no other record changes; otherwise the index reader's error is reported at the statement's line |
| Assembling.FirstArrayUse | trabalho1/TCASM_assembler/TCASM_assembler.c:1117-1131 | succeeds exactly when an index follows on the line, and fails with the index reader's error otherwise; on success the symbol becomes an array with one more ArrayRef carrying that index, the line and the operand word, which is taken; nothing else changes |
| Assembling.AddRef | trabalho1/TCASM_assembler/TCASM_assembler.c:1146-1199 | a further use of a symbol with a full image is a code overflow; otherwise a variable queues a reference to the operand word, carrying the instruction address (one word back, two for the second operand of COPY) when the data come after the code; a constant queues a reference to the operand word; an array queues its index with the operand word, or fails with the index reader's error; any other symbol only takes the word; the queued record keeps its kind and every other record, the image words and the reference list are unchanged |
| Assembling.ArrayUse | trabalho1/TCASM_assembler/TCASM_assembler.c:1177-1192 | a further use of an array succeeds exactly when an index follows on the statement line, and otherwise fails with the reader's error; on success the array's record alone gains a reference holding the index and the operand word, and the image words and the reference list are unchanged |
| Assembling.HandleRegular | trabalho1/TCASM_assembler/TCASM_assembler.c:1786-1830 | an operand on a later line is an invalid statement; otherwise the step is RegularOperand on the word read, after which the statement ends; a successful operand takes one image word |
| Assembling.RegularOperand | trabalho1/TCASM_assembler/TCASM_assembler.c:1793-1829 | a new word is undefined data once the data section has been read and otherwise starts a reference list; a word that is no data address is an invalid operand; STORE or INPUT on a constant is a write to a constant; DIV by a constant zero is a division by zero; every other data address is queued |
| Assembling.LabelUse | trabalho1/TCASM_assembler/TCASM_assembler.c:1846-1875 | a new label becomes a text address, is listed, and has its single AddrRef to the operand word; a defined label (no pending references) writes its address into the operand word; an undefined one gets one more AddrRef to it; the operand word is taken in every case and nothing else changes |
| Assembling.HandleBranch | trabalho1/TCASM_assembler/TCASM_assembler.c:1836-1878 | a jump operand on a later line is an invalid statement; a known symbol that is not a label is an invalid operand; a full image is CodeOverflow; otherwise the label is used as LabelUse states and the state goes back to the next statement |
| Assembling.Comma | trabalho1/TCASM_assembler/TCASM_assembler.c:1917-1918 | after COPY's first operand the step succeeds exactly when a comma follows on the same line, and otherwise is an invalid statement; only the scanner moves, forward; after the second operand, or after an error, nothing changes |
| Assembling.HandleCopy | trabalho1/TCASM_assembler/TCASM_assembler.c:1884-1927 | an operand on a later line is an invalid statement; otherwise every error of CopyOperand (undefined data, invalid operand, write to a constant, a missing comma) is the result, and a success takes one image word, flips the operand flag and ends the statement after the second operand |
| Assembling.CopyOperand | trabalho1/TCASM_assembler/TCASM_assembler.c:1893-1919 | a new word is undefined data once the data section has been read and otherwise starts a reference list; a word that is no data address is an invalid operand; a constant as COPY's second operand is a write to a constant; every other data address is queued; the first operand must be followed by a comma |
| Assembling.Handle | trabalho1/TCASM_assembler/TCASM_assembler.c:314-368 | every state's handler keeps the pass well formed and never moves back in the file |
| Assembling.Run | trabalho1/TCASM_assembler/TCASM_assembler.c:307-369 | a loop that ends without error ends well formed at the end of the file |
| Assembling.Place | trabalho1/TCASM_assembler/TCASM_assembler.c:792-829 | placing a data item overflows exactly when its words do not fit; an anonymous item always fits otherwise, a named array only when each queued offset is below its bound; the image grows by exactly the item's words, a named item's address is the size before it and its queue is emptied |
| Assembling.Cells | trabalho1/TCASM_assembler/TCASM_assembler.c:796-821 | a data item's words are written right after the image: one zero for a variable, the constant's word for a constant, size zeros for an array; the image grows by exactly that count and nothing else changes |
| Assembling.Flush | trabalho1/TCASM_assembler/TCASM_assembler.c:792-829 | the dump of the data list empties it and grows the image by exactly the words of its items, leaving the reference list and the operand records alone |
| Assembling.PlaceImage | trabalho1/TCASM_assembler/TCASM_assembler.c:796-829 | placing an item writes its words at the end of the image and leaves every other word from the first data word on unchanged |
| Assembling.ClearedItems | trabalho1/TCASM_assembler/TCASM_assembler.c:792-829 | emptying a named item's queue changes neither the number nor the words of the data items to be placed |
| Assembling.FlushImage | trabalho1/TCASM_assembler/TCASM_assembler.c:792-829 | after the dump the image holds the words of the data items in declaration order right after the code, and every other word from the first data word on is unchanged |
| Assembling.Pending | trabalho1/TCASM_assembler/TCASM_assembler.c:835-873 | the end-of-pass scan reports nothing exactly when no listed symbol still has queued uses; otherwise it reports the first such symbol in list order, at the line of its first queued use, with the message for its kind |
| Assembling.Finish | trabalho1/TCASM_assembler/TCASM_assembler.c:372-388 | no instruction (still waiting for SECTION, in the data before the code, or an empty image) is reported first; a pass stopped in any state other than a statement start is an invalid statement at its line; the flushed data's error is passed on; the first symbol left undefined is reported; success leaves no reference pending |
| Assembling.Start | trabalho1/TCASM_assembler/TCASM_assembler.c:239-246 | the pass starts waiting for SECTION, with an empty image and only the keywords in the table |
| Assembling.AssembleWith | trabalho1/TCASM_assembler/TCASM_assembler.c:300-389 | a successful pass leaves a non-empty image within the memory |
| Assembling.Assemble | trabalho1/TCASM_assembler/TCASM_assembler.c:300-389 | the assembled image has between 1 and 65536 words, and assembly succeeds exactly when the pass does with each array checked against its own size |
| Resolution.HasRefAppend | trabalho1/TCASM_assembler/TCASM_list.c:24-46 | appending a reference to a reference list keeps every reference it held and adds exactly the new one |
| Resolution.RefErrorMeaning | trabalho1/TCASM_assembler/TCASM_assembler.c:725-786 | a constant accepts a reference exactly when its instruction neither writes it (COPY's second operand, STORE, INPUT) nor divides by it while it is zero; an array accepts exactly the offsets below its size; the other dumps never refuse |
| Resolution.PatchAll | trabalho1/TCASM_assembler/TCASM_assembler.c:683-786 | a dump keeps a 65536-word image, never fails without a check, and reports a failure at the line of one of the references, as an array-position error for arrays and a division-by-zero or write-to-constant error for constants |
| Resolution.PatchAllBound | trabalho1/TCASM_assembler/TCASM_assembler.c:753-786 | an array dump succeeds exactly when every pending offset lies below the array's size |
| Resolution.Dump | trabalho1/TCASM_assembler/TCASM_assembler.c:683-786 | the dump of a symbol succeeds exactly when PatchAll does, gives PatchAll's image or error, and leaves the symbol's reference list empty and everything else as it was |
| Resolution.Fill | trabalho1/TCASM_assembler/TCASM_assembler.c:258-261 | n zero words are written from the end of the image on, every other word is kept and the image grows by n |
| Resolution.Emit | trabalho1/TCASM_assembler/TCASM_assembler.c:1083 | appending a word grows the image by one and writes the word at the old end; every other word, and the rest of the book, is unchanged |
| Resolution.PatchAllAbove | trabalho1/TCASM_assembler/TCASM_assembler.c:683-786 | a successful dump whose references all lie below a position leaves every word from that position on unchanged |
| Resolution.StartSound | trabalho1/TCASM_assembler/TCASM_assembler.c:239-246 | a table holding only keywords, with nothing emitted, meets the resolution invariant |
| Resolution.LookupKeeps | trabalho1/TCASM_assembler/TCASM_hashtable.c:33-79 | adding a new key with a zero record keeps the invariant |
| Resolution.SetSymKeeps | trabalho1/TCASM_assembler/TCASM_assembler.c:1306-1311 | overwriting a record that keeps its references keeps the invariant, provided a label without references carries its address and a data symbol stays listed |
| Resolution.WriteAboveKeeps | trabalho1/TCASM_assembler/TCASM_assembler.c:1101 | writing a word above the end of the image keeps the invariant |
| Resolution.BumpKeeps | trabalho1/TCASM_assembler/TCASM_assembler.c:1139 | growing the image over words already written keeps the invariant |
| Resolution.EmitKeeps | trabalho1/TCASM_assembler/TCASM_assembler.c:1083 | appending a word that names no symbol keeps the invariant |
| Resolution.ReserveKeeps | trabalho1/TCASM_assembler/TCASM_assembler.c:1146-1199 | queuing a reference to a listed, undefined symbol at the next word keeps the invariant |
| Resolution.ReserveKnown | trabalho1/TCASM_assembler/TCASM_assembler.c:1146-1199 | after queuing, every pending reference points at a recorded operand word |
| Resolution.ReserveSettled | trabalho1/TCASM_assembler/TCASM_assembler.c:1146-1199 | after queuing, every operand word is patched or has its reference pending |
| Resolution.UseAddrKeeps | trabalho1/TCASM_assembler/TCASM_assembler.c:1866-1868 | emitting the address of a defined symbol keeps the invariant |
| Resolution.UseAddrKnown | trabalho1/TCASM_assembler/TCASM_assembler.c:1866-1868 | after emitting an address, every pending reference still points at a recorded operand word |
| Resolution.UseAddrSettled | trabalho1/TCASM_assembler/TCASM_assembler.c:1866-1868 | after emitting an address, every operand word is patched or pending |
| Resolution.ListRefKeeps | trabalho1/TCASM_assembler/TCASM_assembler.c:1134-1137 | appending a symbol to the reference list keeps the invariant |
| Resolution.DeclareKeeps | trabalho1/TCASM_assembler/TCASM_assembler.c:1487-1570 | declaring a new data symbol with no references, listed for placement, keeps the invariant |
| Resolution.ListAnonymousKeeps | trabalho1/TCASM_assembler/TCASM_assembler.c:935-1007 | listing an anonymous datum for placement keeps the invariant |
| Resolution.DropDataKeeps | trabalho1/TCASM_assembler/TCASM_assembler.c:826-827 | removing the first data item, the one being placed, keeps the invariant that excepts it |
| Resolution.DefineKeeps | trabalho1/TCASM_assembler/TCASM_assembler.c:1669-1672 | giving an address to a symbol not yet defined keeps the invariant that excepts it |
| Resolution.PatchFirstKeeps | trabalho1/TCASM_assembler/TCASM_assembler.c:683-690 | patching and erasing the first reference of the symbol being defined keeps the invariant |
| Resolution.PatchFirstKnown | trabalho1/TCASM_assembler/TCASM_assembler.c:683-690 | after patching the first reference, every pending reference still points at a recorded operand word |
| Resolution.PatchFirstSettled | trabalho1/TCASM_assembler/TCASM_assembler.c:683-690 | after patching the first reference, every operand word is patched or pending |
| Resolution.FillKeeps | trabalho1/TCASM_assembler/TCASM_assembler.c:258-261 | zero-filling the words of an array keeps the invariant |
| Resolution.PatchAllKeeps | trabalho1/TCASM_assembler/TCASM_assembler.c:683-786 | a successful dump of the symbol being defined keeps the invariant and leaves its reference list empty |
| Resolution.PatchAllStep | trabalho1/TCASM_assembler/TCASM_assembler.c:683-786 | one turn of a dump: the rest of the dump runs on the patched image and the shortened list |
| Resolution.DumpKeeps | trabalho1/TCASM_assembler/TCASM_assembler.c:683-786 | a successful dump restores the full invariant, and every operand word naming the symbol then holds its address plus its offset |
| Resolution.FinishKeeps | trabalho1/TCASM_assembler/TCASM_assembler.c:683-786 | once the symbol being defined has no references left, the full invariant holds |
| Resolution.Complete | trabalho1/TCASM_assembler/TCASM_assembler.c:373-388 | at the end of the pass, with the data list flushed and no reference pending, every operand word holds its symbol's address plus offset |
| PassProofs.StartGood | trabalho1/TCASM_assembler/TCASM_assembler.c:239-246 | the pass starts in a state meeting its invariant: sound bookkeeping and the facts about the pass's mode |
| PassProofs.FetchGood | trabalho1/TCASM_assembler/TCASM_assembler.c:1303 | a lookup keeps the invariant, and a new key gets a zero record and no address |
| PassProofs.SectionKeeps | trabalho1/TCASM_assembler/TCASM_assembler.c:1205-1233 | the SECTION handler keeps the invariant |
| PassProofs.SectionTypeKeeps | trabalho1/TCASM_assembler/TCASM_assembler.c:1240-1289 | the section-type handler keeps the invariant |
| PassProofs.DefineLabelKeeps | trabalho1/TCASM_assembler/TCASM_assembler.c:1306-1324 | defining a label keeps the bookkeeping sound, and before a data section after the code only labels have addresses |
| PassProofs.LabelKeeps | trabalho1/TCASM_assembler/TCASM_assembler.c:1306-1324 | a label defined at the start of a statement keeps the invariant |
| PassProofs.DecodeKeeps | trabalho1/TCASM_assembler/TCASM_assembler.c:1081-1093 | emitting an instruction's opcode keeps the invariant |
| PassProofs.TextStatementWordKeeps | trabalho1/TCASM_assembler/TCASM_assembler.c:1305-1348 | the first word of a statement of the code keeps the invariant |
| PassProofs.LabelWordKeeps | trabalho1/TCASM_assembler/TCASM_assembler.c:1305-1324 | a new label or a label used earlier opening a statement keeps the invariant |
| PassProofs.TextStatementKeeps | trabalho1/TCASM_assembler/TCASM_assembler.c:1297-1349 | the statement handler of the code keeps the invariant |
| PassProofs.TextKeeps | trabalho1/TCASM_assembler/TCASM_assembler.c:1465-1479 | the instruction after a label keeps the invariant |
| PassProofs.DeclaredKeeps | trabalho1/TCASM_assembler/TCASM_assembler.c:941-948 | listing a datum declared before the code keeps the bookkeeping sound and the mode facts |
| PassProofs.DataBeforeKeeps | trabalho1/TCASM_assembler/TCASM_assembler.c:935-1007 | a datum declared before the code keeps the invariant |
| PassProofs.ConstBeforeKeeps | trabalho1/TCASM_assembler/TCASM_assembler.c:976-1001 | a constant declared before the code keeps the invariant |
| PassProofs.ArrayBeforeKeeps | trabalho1/TCASM_assembler/TCASM_assembler.c:950-974 | an array declared before the code keeps the invariant |
| PassProofs.DataStatementBeforeKeeps | trabalho1/TCASM_assembler/TCASM_assembler.c:1357-1396 | the statement handler of a data section before the code keeps the invariant |
| PassProofs.DataCreateBeforeKeeps | trabalho1/TCASM_assembler/TCASM_assembler.c:1487-1570 | a named declaration before the code keeps the invariant |
| PassProofs.DataAfterKeeps | trabalho1/TCASM_assembler/TCASM_assembler.c:1013-1075 | anonymous data after the code keeps the invariant |
| PassProofs.DataStatementAfterKeeps | trabalho1/TCASM_assembler/TCASM_assembler.c:1403-1459 | the statement handler of a data section after the code keeps the invariant |
| PassProofs.DataCreateAfterKeeps | trabalho1/TCASM_assembler/TCASM_assembler.c:1578-1648 | a new, unused declaration after the code keeps the invariant |
| PassProofs.DefineCellKeeps | trabalho1/TCASM_assembler/TCASM_assembler.c:1666-1711 | placing a variable or constant the code used keeps the bookkeeping sound with an empty data list |
| PassProofs.VarConstAfterKeeps | trabalho1/TCASM_assembler/TCASM_assembler.c:1662-1716 | what follows SPACE or CONST of a used variable or constant keeps the invariant |
| PassProofs.DefineVarConstKeeps | trabalho1/TCASM_assembler/TCASM_assembler.c:1657-1717 | the definition of a used variable or constant keeps the invariant |
| PassProofs.DefineBlockKeeps | trabalho1/TCASM_assembler/TCASM_assembler.c:1749-1755 | placing an array the code used keeps the bookkeeping sound with an empty data list |
| PassProofs.DefineArrayKeeps | trabalho1/TCASM_assembler/TCASM_assembler.c:1725-1779 | the definition of a used array keeps the invariant |
| PassProofs.ArrayAfterKeeps | trabalho1/TCASM_assembler/TCASM_assembler.c:1730-1778 | what follows SPACE or CONST of a used array keeps the invariant |
| PassProofs.FirstUseKeeps | trabalho1/TCASM_assembler/TCASM_assembler.c:1100-1140 | the first use of a new data symbol (a zeroed word, a new list entry, a queued reference) keeps the bookkeeping sound |
| PassProofs.NewRefListKeeps | trabalho1/TCASM_assembler/TCASM_assembler.c:1100-1140 | the first use of a new symbol keeps the invariant |
| PassProofs.FirstArrayUseKeeps | trabalho1/TCASM_assembler/TCASM_assembler.c:1117-1131 | the first use of a new array keeps the invariant |
| PassProofs.FurtherUseKeeps | trabalho1/TCASM_assembler/TCASM_assembler.c:1146-1199 | one more reference queued on a data symbol keeps the bookkeeping sound |
| PassProofs.AddRefKeeps | trabalho1/TCASM_assembler/TCASM_assembler.c:1146-1199 | a further use of a data symbol keeps the invariant |
| PassProofs.RegularKeeps | trabalho1/TCASM_assembler/TCASM_assembler.c:1786-1830 | the operand of a regular instruction keeps the invariant |
| PassProofs.LabelUseKeeps | trabalho1/TCASM_assembler/TCASM_assembler.c:1846-1875 | a jump's label, queued or given its address, keeps the bookkeeping sound |
| PassProofs.BranchKeeps | trabalho1/TCASM_assembler/TCASM_assembler.c:1836-1878 | the operand of a jump keeps the invariant |
| PassProofs.CopyOperandKeeps | trabalho1/TCASM_assembler/TCASM_assembler.c:1893-1919 | an operand of COPY keeps the invariant |
| PassProofs.CommaKept | trabalho1/TCASM_assembler/TCASM_assembler.c:1917-1918 | the comma after COPY's first operand changes nothing the invariant speaks of |
| PassProofs.CopyKeeps | trabalho1/TCASM_assembler/TCASM_assembler.c:1884-1927 | the COPY handler keeps the invariant |
| PassProofs.HandleKeeps | trabalho1/TCASM_assembler/TCASM_assembler.c:313-368 | every handler keeps the invariant |
| PassProofs.RunKeeps | trabalho1/TCASM_assembler/TCASM_assembler.c:307-369 | the whole character loop keeps the invariant |
| PassProofs.PlaceNamedKeeps | trabalho1/TCASM_assembler/TCASM_assembler.c:796-821 | placing a named datum at the end of the image patches its references and restores the sound bookkeeping |
| PassProofs.PlaceKeeps | trabalho1/TCASM_assembler/TCASM_assembler.c:792-829 | one turn of the data-list dump keeps the bookkeeping sound |
| PassProofs.FlushKeeps | trabalho1/TCASM_assembler/TCASM_assembler.c:792-829 | the whole data-list dump keeps the bookkeeping sound |
| PassProofs.PendingNone | trabalho1/TCASM_assembler/TCASM_assembler.c:835-929 | when the end-of-pass scan reports nothing, every listed symbol has no pending reference |
| PassProofs.AssembledResolved | trabalho1/TCASM_assembler/TCASM_assembler.c:300-389 | once the source assembles, every operand word naming a symbol holds that symbol's address plus the operand's offset |
| PassProofs.FinishResolved | trabalho1/TCASM_assembler/TCASM_assembler.c:373-388 | the end-of-file checks of a state meeting the invariant leave every reference patched |
| PassProofs.OverlaidBoundAccepts | trabalho1/TCASM_assembler/TCASM_assembler.c:753-758 | an array A of 5 words used as A[10] is accepted when the size read off the other record is 14, and refused against its own size |
| PassProofs.StopOverlaid | trabalho1/TCASM_assembler/TCASM_assembler.c:753-758 | while the STOP keyword's record is the one seeded, looking up STOP makes it the last record, and its word read as array.size is 14 |
| PassProofs.OwnBoundInside | trabalho1/TCASM_assembler/TCASM_assembler.c:814-821 | checked against its own size, every pending offset of a placed array lies inside it |
| Driver.ReadFile | trabalho1/TCASM_assembler/TCASM_assembler.c:300-389 | the character loop, the end-of-file checks and the data placement compute exactly the image or the error that Assemble gives |
| Driver.DumpRefList | trabalho1/TCASM_assembler/TCASM_assembler.c:725-786 | patching the image array in place in list order succeeds exactly when PatchAll does, leaves the array holding PatchAll's image, and otherwise reports PatchAll's error |
| Driver.ZeroFill | trabalho1/TCASM_assembler/TCASM_assembler.c:258-261 | the count words from pos on become zero and every other word keeps its value |
| Driver.FillImage | trabalho1/TCASM_assembler/TCASM_assembler.c:1034-1035 | zero-filling the image array from its end gives the image Fill describes |
| Machine.Load | trabalho1/TCASM_machine/TCASM_machine.cpp:51-53 | memory is 65536 words; the first min(file length, 0xFFFF) words are the image's and the rest are zero |
| Machine.SkipSpace | trabalho1/TCASM_machine/TCASM_machine.cpp:120 | skipping white space before a conversion stops at the end of the input or at the first character that is not white space, and everything skipped is white space |
| Machine.ReadInt | trabalho1/TCASM_machine/TCASM_machine.cpp:120 | a read succeeds exactly when a %i literal stands after the blanks, consumes it, and gives its value cut to an int as the store into i does |
| Machine.StepWellFormed | trabalho1/TCASM_machine/TCASM_machine.cpp:57-137 | a pass of the loop body keeps memory at 65536 words and acc an int16, never moves the input cursor back, only extends the printed numbers, and an error prints nothing more |
| Machine.ArithmeticStep | trabalho1/TCASM_machine/TCASM_machine.cpp:59-69 | ADD, SUB and MULT set acc to the exact sum, difference or product cut to 16 bits, and pc moves past the operand; an ADD that does not overflow gives the exact sum |
| Machine.DivisionStep | trabalho1/TCASM_machine/TCASM_machine.cpp:71-83 | DIV exits with status 1 exactly when the divisor is zero; otherwise acc becomes the quotient rounded toward zero and cut to 16 bits, which is the plain quotient for a non-negative acc and a positive divisor |
| Machine.QuotientBound | trabalho1/TCASM_machine/TCASM_machine.cpp:81 | a quotient of naturals lies between zero and the dividend, and C's truncating division agrees with Euclidean division there |
| Machine.BranchStep | trabalho1/TCASM_machine/TCASM_machine.cpp:85-99 | JMP always takes its operand; JMPN, JMPP and JMPZ take it when acc is negative, positive or zero and otherwise skip it |
| Machine.CopyStep | trabalho1/TCASM_machine/TCASM_machine.cpp:101-106 | COPY writes the first operand's cell into the second operand's cell, changes no other cell, and moves pc past both operands |
| Machine.LoadStoreStep | trabalho1/TCASM_machine/TCASM_machine.cpp:108-114 | LOAD sets acc to the operand's cell; STORE writes acc into the operand's cell, which then reads back as acc, and changes no other cell |
| Machine.InputStep | trabalho1/TCASM_machine/TCASM_machine.cpp:116-128 | INPUT exits with status 1 exactly when no integer can be read or the int stored lies outside -32768..32767; otherwise the int is stored, reads back unchanged, and the cursor moves past it |
| Machine.InputWraps | trabalho1/TCASM_machine/TCASM_machine.cpp:116-128 | the literal 4294967295 is stored into the int as -1, which INPUT accepts and stores as the word for -1 |
| Machine.OutputStep | trabalho1/TCASM_machine/TCASM_machine.cpp:130-132 | OUTPUT appends the operand's cell, read as a signed number, to the printed numbers and changes nothing else |
| Machine.UnknownStep | trabalho1/TCASM_machine/TCASM_machine.cpp:134-136 | a word outside 1..13 under pc, and only such a word, exits with the unknown-instruction error |
| Machine.OutputGrows | trabalho1/TCASM_machine/TCASM_machine.cpp:55-138 | whatever the program does later, the numbers already printed stay printed, in front |
| Machine.HaltsAtStop | trabalho1/TCASM_machine/TCASM_machine.cpp:55 | execution stops normally only with the word 14 under pc |
| Machine.FuelMonotone | trabalho1/TCASM_machine/TCASM_machine.cpp:55-138 | once a bound on the number of instructions suffices for the run to stop, any larger bound gives the same run |
| Machine.ExitStatus | trabalho1/TCASM_machine/TCASM_machine.cpp:55-140 | the process exits with status 0 exactly after STOP and with status 1 exactly after an error |
| Machine.Interpreter.constructor | trabalho1/TCASM_machine/TCASM_machine.cpp:12-14 | the machine starts with the loaded image as memory, pc and acc zero, nothing read and nothing printed |
| Machine.Interpreter.Read | trabalho1/TCASM_machine/TCASM_machine.cpp:19-22 | read() returns the word at pc and advances pc by one, wrapping at 65536 |
| Machine.Interpreter.Cycle | trabalho1/TCASM_machine/TCASM_machine.cpp:57-137 | one pass of the loop body on the arrays changes the state as Step describes, or reports the fault Step gives |
| Machine.Interpreter.Run | trabalho1/TCASM_machine/TCASM_machine.cpp:55-138 | the fetch/execute loop on the arrays ends in exactly the run Execute describes |
| ElfGen.Fetch | trabalho2/TCASM_IA-32_ELF_generator/TCASM_IA-32_ELF_generator.cpp:93-97 | reading a word inside the file advances by one and yields that word; at end of file the position and the last word read stay as they were |
| ElfGen.Bytes32 | trabalho2/TCASM_IA-32_ELF_generator/TCASM_IA-32_ELF_generator.cpp:110-116 | putWord emits exactly four bytes |
| ElfGen.Bytes16 | trabalho2/TCASM_IA-32_ELF_generator/TCASM_IA-32_ELF_generator.cpp:13-29 | a uint16_t header field takes exactly two bytes |
| ElfGen.Bytes32Value | trabalho2/TCASM_IA-32_ELF_generator/TCASM_IA-32_ELF_generator.cpp:110-116 | the four bytes putWord emits, read back little-endian, are x modulo 2^32 |
| ElfGen.Encode | trabalho2/TCASM_IA-32_ELF_generator/TCASM_IA-32_ELF_generator.cpp:214-344 | the switch on an opcode never moves the reader back or past the file, and only appends to the output |
| ElfGen.Pad | trabalho2/TCASM_IA-32_ELF_generator/TCASM_IA-32_ELF_generator.cpp:346-348 | NOP padding makes the output a multiple of six bytes, keeps what was there, and adds fewer than six bytes |
| ElfGen.Text | trabalho2/TCASM_IA-32_ELF_generator/TCASM_IA-32_ELF_generator.cpp:212-349 | when translation of the code ends, it ends after reading the word 14, inside the file |
| ElfGen.StopCode | trabalho2/TCASM_IA-32_ELF_generator/TCASM_IA-32_ELF_generator.cpp:352-357 | STOP's exit sequence is twelve bytes |
| ElfGen.DataSection | trabalho2/TCASM_IA-32_ELF_generator/TCASM_IA-32_ELF_generator.cpp:360-365 | each word after STOP takes six bytes |
| ElfGen.ElfHeaderFields | trabalho2/TCASM_IA-32_ELF_generator/TCASM_IA-32_ELF_generator.cpp:142-164 | the ELF header is 52 bytes: the ELF magic, 32-bit little-endian ELF version 1, an executable for the 386, version 1, entering at LoadAddress + StartOffset, program headers at offset 52, a header size of 52 and one program header of 32 bytes |
| ElfGen.HeaderPrefix | trabalho2/TCASM_IA-32_ELF_generator/TCASM_IA-32_ELF_generator.cpp:142-164 | the ELF header is its 32 bytes of identification, type, machine, version, entry and program-header offset, followed by the section-header offset, flags and the six 16-bit size and count fields |
| ElfGen.EntryBytes | trabalho2/TCASM_IA-32_ELF_generator/TCASM_IA-32_ELF_generator.cpp:68-73 | the entry point 0x08048114 is written as 14 81 04 08, and reads back as LoadAddress + StartOffset |
| ElfGen.ProgramHeaderFields | trabalho2/TCASM_IA-32_ELF_generator/TCASM_IA-32_ELF_generator.cpp:167-177 | the program header is a loadable segment at file offset 0, virtual and physical address LoadAddress, with file and memory size StartOffset plus the code, flags RWX (7) and alignment 4 |
| ElfGen.ElfLayout | trabalho2/TCASM_IA-32_ELF_generator/TCASM_IA-32_ELF_generator.cpp:139-184 | the file is the header, the program header, the blob and the code; its segment sizes equal the file's length and the code starts at StartOffset |
| ElfGen.JumpLands | trabalho2/TCASM_IA-32_ELF_generator/TCASM_IA-32_ELF_generator.cpp:129-134 | a jump field written at offset len lands, counted from the end of the field, on the first byte of target word t's translation, modulo 2^32 |
| ElfGen.EncodeLength | trabalho2/TCASM_IA-32_ELF_generator/TCASM_IA-32_ELF_generator.cpp:214-344 | an instruction with its operands present reads exactly its operand words and emits its fixed number of bytes |
| ElfGen.EncodeAligned | trabalho2/TCASM_IA-32_ELF_generator/TCASM_IA-32_ELF_generator.cpp:346-348 | an instruction read with its operands present takes exactly six bytes per word once padded |
| ElfGen.TextLayout | trabalho2/TCASM_IA-32_ELF_generator/TCASM_IA-32_ELF_generator.cpp:212-349 | on a well-formed walk translation ends just after STOP, and every word before STOP takes six bytes |
| ElfGen.TranslationLayout | trabalho2/TCASM_IA-32_ELF_generator/TCASM_IA-32_ELF_generator.cpp:212-365 | for a well-formed image the code is six bytes per word plus six for STOP's second half, and data word d sits at code offset 6(d+1) |
| ElfGen.DataOperandsPoint | trabalho2/TCASM_IA-32_ELF_generator/TCASM_IA-32_ELF_generator.cpp:121-124 | the address putDataAddress writes for data word d points, once the file is loaded, at the four bytes holding that word |
| ElfGen.DataSectionAt | trabalho2/TCASM_IA-32_ELF_generator/TCASM_IA-32_ELF_generator.cpp:360-365 | word k of the data section is its 32-bit value at byte 6k followed by two zero bytes |
| ElfGen.Generator.constructor | trabalho2/TCASM_IA-32_ELF_generator/TCASM_IA-32_ELF_generator.cpp:78-88 | the generator starts at the beginning of the input, with the last word zero and an empty output |
| ElfGen.Generator.Read | trabalho2/TCASM_IA-32_ELF_generator/TCASM_IA-32_ELF_generator.cpp:93-97 | read() changes the stream as Fetch describes and returns the last word read |
| ElfGen.Generator.PutByte | trabalho2/TCASM_IA-32_ELF_generator/TCASM_IA-32_ELF_generator.cpp:102-105 | putByte appends one byte to the output |
| ElfGen.Generator.PutWord | trabalho2/TCASM_IA-32_ELF_generator/TCASM_IA-32_ELF_generator.cpp:110-116 | putWord appends the four bytes Bytes32 gives |
| ElfGen.Generator.PutDataAddress | trabalho2/TCASM_IA-32_ELF_generator/TCASM_IA-32_ELF_generator.cpp:121-124 | putDataAddress reads one word and appends the data address of that word |
| ElfGen.Generator.PutJumpAddress | trabalho2/TCASM_IA-32_ELF_generator/TCASM_IA-32_ELF_generator.cpp:129-134 | putJumpAddress reads one word and appends the jump field relative to the output length before it |
| ElfGen.Generator.PutBytes | trabalho2/TCASM_IA-32_ELF_generator/TCASM_IA-32_ELF_generator.cpp:218-220 | a run of putByte calls appends exactly those bytes |
| ElfGen.Generator.Translate | trabalho2/TCASM_IA-32_ELF_generator/TCASM_IA-32_ELF_generator.cpp:214-344 | the switch on the vector and stream produces exactly what Encode describes |
| ElfGen.Generator.Align | trabalho2/TCASM_IA-32_ELF_generator/TCASM_IA-32_ELF_generator.cpp:346-348 | the padding loop leaves the output as Pad describes |
| ElfGen.Generator.TranslateText | trabalho2/TCASM_IA-32_ELF_generator/TCASM_IA-32_ELF_generator.cpp:212-349 | the translation loop produces what Text describes, and reports when it would never end |
| ElfGen.Generator.TranslateData | trabalho2/TCASM_IA-32_ELF_generator/TCASM_IA-32_ELF_generator.cpp:360-365 | the data loop consumes the rest of the input and appends its data section |
| ElfGen.Generator.Finish | trabalho2/TCASM_IA-32_ELF_generator/TCASM_IA-32_ELF_generator.cpp:351-365 | after the loop the output gets STOP's exit sequence and then the data section of the remaining words |
| ElfGen.Generator.Generate | trabalho2/TCASM_IA-32_ELF_generator/TCASM_IA-32_ELF_generator.cpp:189-372 | the whole run produces the ELF file of the translation, or nothing when translation never ends |
| Images.WellFormedText | trabalho2/TCASM_IA-32_ELF_generator/TCASM_IA-32_ELF_generator.cpp:212-349 | a well-formed walk from p starts inside the image, and an instruction other than STOP has all its operand words inside it |
| Images.StopIndex | trabalho2/TCASM_IA-32_ELF_generator/TCASM_IA-32_ELF_generator.cpp:212 | the walk from p ends at a word 14 at or after p, inside the image |
| Disasm.Fetch | trabalho2/TCASM_IA-32_disassembler/TCASM_IA-32_disassembler.c:15-19 | read() counts one more word modulo 2^16; inside the file it advances and yields the next word, at end of file the last word read stays |
| Disasm.Switch | trabalho2/TCASM_IA-32_disassembler/TCASM_IA-32_disassembler.c:131-207 | the switch on an opcode never moves the stream back or past the file |
| Disasm.BodyPrints | trabalho2/TCASM_IA-32_disassembler/TCASM_IA-32_disassembler.c:131-207 | an instruction prints lines exactly for opcodes 1..13, and never a data line |
| Disasm.BodyOperands | trabalho2/TCASM_IA-32_disassembler/TCASM_IA-32_disassembler.c:131-207 | every number an instruction prints is an operand it read: the first one, or for COPY also the second |
| Disasm.BodyShowsOperands | trabalho2/TCASM_IA-32_disassembler/TCASM_IA-32_disassembler.c:131-207 | an instruction with operands prints its first one, and COPY prints its second as the destination of the final mov |
| Disasm.BodyTargets | trabalho2/TCASM_IA-32_disassembler/TCASM_IA-32_disassembler.c:131-207 | the jumps name their operand as a label instr, every other instruction as a data word var |
| Disasm.Text | trabalho2/TCASM_IA-32_disassembler/TCASM_IA-32_disassembler.c:129-208 | when the text loop ends, the stream is still inside the file and has not moved back |
| Disasm.DataStep | trabalho2/TCASM_IA-32_disassembler/TCASM_IA-32_disassembler.c:218-221 | the data lines of words a..p followed by the line of word p are the data lines of words a..p+1 |
| Disasm.DataLinesSnoc | trabalho2/TCASM_IA-32_disassembler/TCASM_IA-32_disassembler.c:218-221 | one more word read in the data loop adds one line, labelled with the counter after the words before it |
| Disasm.TextStep | trabalho2/TCASM_IA-32_disassembler/TCASM_IA-32_disassembler.c:129-207 | on a well-formed walk one turn of the text loop prints the label of the opcode's index and the instruction's body, and moves past its operands |
| Disasm.TextListing | trabalho2/TCASM_IA-32_disassembler/TCASM_IA-32_disassembler.c:129-208 | on a well-formed walk of an image of at most 65536 words the text loop ends just past STOP and prints the listing of every instruction labelled by its own index |
| Disasm.DataLinesListing | trabalho2/TCASM_IA-32_disassembler/TCASM_IA-32_disassembler.c:218-221 | while the counter has counted the words read, each data word is named after its own index |
| Disasm.CountBack | trabalho2/TCASM_IA-32_disassembler/TCASM_IA-32_disassembler.c:211 | the counter after word i, less one, is i, or -1 once it has wrapped at 65536 |
| Disasm.Disassembles | trabalho2/TCASM_IA-32_disassembler/TCASM_IA-32_disassembler.c:110-227 | for a well-formed image the output is the prologue, each instruction labelled by the index of its opcode word with its operands printed by value, STOP labelled by its index (-1 for a 65536th word), and each data word named after its index |
| Disasm.ListingFromStart | trabalho2/TCASM_IA-32_disassembler/TCASM_IA-32_disassembler.c:128-208 | the text loop from the start of a well-formed image ends just past the STOP and prints the listing |
| Disasm.DataTail | trabalho2/TCASM_IA-32_disassembler/TCASM_IA-32_disassembler.c:218-221 | the data words after STOP are named by their own indices |
| Disasm.Finished | trabalho2/TCASM_IA-32_disassembler/TCASM_IA-32_disassembler.c:210-221 | once the text loop ends, the output continues with STOP's lines labelled by the counter less one and then one data line per remaining word |
| Disasm.Disassembler.constructor | trabalho2/TCASM_IA-32_disassembler/TCASM_IA-32_disassembler.c:9-12 | the disassembler starts at the beginning of the input, with the last word and the counter zero and nothing printed |
| Disasm.Disassembler.Read | trabalho2/TCASM_IA-32_disassembler/TCASM_IA-32_disassembler.c:15-19 | read() changes the stream as Fetch describes and returns the last word read |
| Disasm.Disassembler.Put | trabalho2/TCASM_IA-32_disassembler/TCASM_IA-32_disassembler.c:130 | an fprintf appends its line to the output |
| Disasm.Disassembler.PutAll | trabalho2/TCASM_IA-32_disassembler/TCASM_IA-32_disassembler.c:149-150 | a run of fprintf calls appends exactly those lines |
| Disasm.Disassembler.Instruction | trabalho2/TCASM_IA-32_disassembler/TCASM_IA-32_disassembler.c:131-207 | the switch on the stream and the output does exactly what Switch describes |
| Disasm.Disassembler.TextTurn | trabalho2/TCASM_IA-32_disassembler/TCASM_IA-32_disassembler.c:129-207 | one turn of the text loop ends it as Text does, reports that it never ends, or moves forward with Text's outcome unchanged |
| Disasm.Disassembler.TranslateText | trabalho2/TCASM_IA-32_disassembler/TCASM_IA-32_disassembler.c:129-208 | the text loop produces what Text describes, and reports when it would never end |
| Disasm.Disassembler.DataWord | trabalho2/TCASM_IA-32_disassembler/TCASM_IA-32_disassembler.c:219-220 | one pass of the data loop prints the word under the current counter and counts it |
| Disasm.Disassembler.TranslateData | trabalho2/TCASM_IA-32_disassembler/TCASM_IA-32_disassembler.c:218-221 | the data loop consumes the rest of the input and prints its data lines |
| Disasm.Disassembler.Disassemble | trabalho2/TCASM_IA-32_disassembler/TCASM_IA-32_disassembler.c:127-221 | the whole run prints exactly the listing Disassembly describes, or reports that the text loop never ends |

## Left out

- Process entry points and file handling are not modelled: argument checks, `fopen`, `fclose`, `chmod`, and the `fwrite` of `TCASM_write_file` and `writeElf`. Inputs are passed in as sequences, and the image, bytes or lines are returned.
- Diagnostics: each error is a kind with the line it is reported at. The message text written to stderr, and the exit itself, are not modelled.
- Memory management is not modelled: `malloc`, `calloc`, `free` and the `strcpy` of keys.
- Assembling: the state handlers are functions on a value holding the globals of `TCASM_assembler.c` (scanner, image, bookkeeping, flags, state). They are not a class whose fields change in place. The update-in-place form appears in `Driver`: its character loop runs over that value, and its dumps and zero fill write an image array.
- Lists.DList: the list's contents are a sequence of values, and a node is named by its position in it. The rewiring of `prev`, `next`, `first` and `last`, and the identity of nodes, are not captured.
- Keywords.SymbolInit: the 19 get-and-assign statements of `TCASM_symbol_init` are modelled as a loop over the keyword table, in source order.
- Numerals.ScanInt: a `%i` literal is read as its mathematical value. The assembler (`Assembling.Literal`) and the interpreter (`Machine.ReadInt`) then cut it to an `int` with `Common.Int32`, as the store into an `int` does. libc's clamping of numbers beyond the range of `long` is not modelled.
- Assembling.Put: the source writes past the end of the 65536-word image without a check. The model reports this as an added `CodeOverflow` error instead, and so do the operand words taken by `Assembling.NewRefList`, `Assembling.AddRef` and `Assembling.HandleBranch`. The data flush of a data section before the code does the same, at `TCASM_assembler.c:792-829`.
- Assembling.Place: an anonymous array declared before the code is freed, and its size is then read (`TCASM_assembler.c:815-821`). The model uses the size as it was before the free.
- Assembling.Pending: a missing array's message reads the line of its first reference through the wrong union member (`TCASM_assembler.c:868`, `:918`). The model reports the line of that reference.
- Scanning.Scanner.CheckNewColumn: it can never fail after a character has been found, because at least one character has then been consumed. It is modelled as written.
- Machine.Interpreter.Run: a run is bounded by a count of instructions (fuel). A program that never stops is seen only as running out of that bound. `Machine.FuelMonotone` shows that a larger bound changes nothing once a bound suffices.
- Machine: `scanf` and `printf` become an input text with a cursor and a sequence of printed numbers.
- Machine.Load: `fread` of at most 0xFFFF words is modelled as written, so word 65535 of a full image is not loaded. The failure of `fopen` is not modelled.
- ElfGen.Generator.TranslateText and Disasm.Disassembler.TranslateText: the source loops forever when the file ends before a word 14, because `fread` then keeps the last word. The model reports this as `None`.
- ElfGen.Generator.Generate: the 192-byte `GetAndPutInt` routine blob is a parameter. What the emitted 386 code does when run is not modelled.
- Disasm.Disassembler.Disassemble: the fixed prologue text of `init()` is a parameter. The listing is a sequence of `fprintf` calls; `Disasm.Render` and `Disasm.Flatten` give its text.

## Findings

| source | as written | input that shows it | evidently intended | confidence | as-written member | corrected member |
|---|---|---|---|---|---|---|
| trabalho1/TCASM_assembler/TCASM_assembler.c:754 | The dump of an array declared before the code checks offsets against `TCASM_symbol->sym_union.array.size`, the size field of whichever record was looked up last. It does not use the array being placed. | The data section comes first and declares `A: SPACE 5`, and the code uses `A[10]`. The symbol looked up last (`TCASM_symbol`) holds 14 in the union word read as `array.size`. A is placed with 5 words, and A[10] is accepted, so it points past the array. | Each offset is checked against the placed array's own size. | not executed | PassProofs.OverlaidBoundAccepts | PassProofs.OwnBoundInside |
