# LC-3 assembler core, modelled in Dafny

This project models the translation core of a two-pass assembler for the LC-3
instruction set, and proves properties about that model. The modelled pipeline is
the one `src/lib.rs` runs: `tokenize`, then `parse_lines`, then `first_pass`,
then `encode`.

- **Lexer** (`lexer.dfy`, `cursor.dfy`, `token.dfy`). Bytes are read through a
  cursor that tracks line and column. They become tokens: opcodes, pseudo-ops,
  directives, registers, decimal/hex/binary numbers, string literals with escapes,
  labels, commas, newlines, comments, and one final end marker.
- **Parser** (`parse_helpers.dfy`, `operands.dfy`, `parser.dfy`, `ast.dfy`).
  Tokens are grouped into source lines. Each line has an optional label and a
  `LineContent`. Every instruction form and directive has its own operand grammar.
  The operand grammars of the macros are modelled as "signatures": ordered lists
  of checks, each with the error it reports.
- **Symbol table** (`symbol_table.dfy`). An insertion-ordered list of
  label/address entries, with a first-match lookup. It is related to a map view.
- **First pass** (`first_pass.dfy`). The three-state walk (waiting for `.ORIG`,
  processing, after `.END`). It keeps a 16-bit location counter, binds labels,
  and reports duplicate labels, a missing or repeated origin, a missing end,
  a zero `.BLKW` and address overflow.
- **Encoder** (`encoder.dfy`). The second pass. It emits one word per
  instruction and the data words of `.FILL`, `.BLKW` and `.STRINGZ`. PC-relative
  offsets are resolved against the symbol table, and fields are packed into
  16-bit words.
- **Pipeline** (`pipeline.dfy`). The cross-pass theorems. Under an error-free
  first pass and ASCII strings, every label address the first pass computes is
  the address at which the encoder emits that line. Under ASCII strings alone,
  the length of the machine code is `word_count` summed over all lines,
  including any lines after `.END`. Every resolved branch, load, store or call word sends the processor to
  its label.

Shared definitions live in `common.dfy`: 16-bit wrap-around, two's-complement
casts and powers of two. Error kinds and positions live in `errors.dfy`.

Integer widths of the source are explicit. Addresses and words are `u16`
(`0..0xFFFF`). Literal values are `i32`. `as u16` is `AsU16`, a reduction modulo
2^16. `wrapping_add` is `WrappingAdd`. Bitwise `|` of disjoint fields is written
as `+`, and `& mask` as `% 2^bits`.

Where the code and its own tests or comments disagree, the model follows the code:

- The parser does not range-check imm5 or offset6. A value is cast to `i16` and
  the encoder keeps its low 5 or 6 bits (`Pipeline.Imm5Truncated`). The
  integration tests `error_imm5_out_of_range` and `error_offset6_out_of_range`
  (tests/integration_tests.rs:304-323) expect an InvalidOperandType error instead.
- `.STRINGZ` characters are truncated to 16 bits by `as u16`. No error is
  reported.
- The first pass counts a `.STRINGZ` as its UTF-8 byte length plus one. The
  encoder emits one word per character plus one. The two agree only for ASCII
  strings (`Encoder.LineWordsAgree`, `Pipeline.NonAsciiStringShifts`).
- The encoder walks every line, including lines after `.END`
  (`Pipeline.EncodesAfterEnd`).

## Model

| member | source | states |
|---|---|---|
| Common.AsU16 | src/encoder/mod.rs:112 | `as u16` on an integer: the unique value in 0..0xFFFF congruent to it modulo 2^16 |
| Common.AsI16 | src/parser/macros.rs:43 | `as i16` on an i32: the unique value in -0x8000..0x7FFF congruent to it modulo 2^16 |
| Common.WrappingAdd | src/encoder/mod.rs:282-285 | `wrapping_add` on u16: the sum reduced modulo 2^16 |
| Common.WrapNext | src/encoder/mod.rs:282-285 | incrementing a counter that is the wrapped value of `a` with `wrapping_add` gives the wrapped value of `a + 1` |
| Common.AdvanceWrapped | src/first_pass/mod.rs:116-132 | adding words to a wrapped counter is wrapping the sum |
| Common.Upper | src/lexer/mod.rs:345 | `to_ascii_uppercase`: same length, only `a`..`z` changed, each to its capital |
| Errors.NewError | src/first_pass/mod.rs:97-101 | an error of the given kind at the given position, naming no value |
| Errors.UndefinedLabelError | src/encoder/mod.rs:276 | an undefined-label error at the position, naming the label |
| Errors.DuplicateLabelError | src/first_pass/mod.rs:179 | a duplicate-label error at the position, naming the label and the address of its first definition |
| Cursors.New | src/lexer/cursor.rs:30-37 | a new cursor is valid, at byte 0, line 1, column 1 |
| Cursors.AtEnd | src/lexer/cursor.rs:63-65 | a byte remains under the cursor exactly when it is not at the end |
| Cursors.Peek | src/lexer/cursor.rs:39-41 | the byte under the cursor as a char, and nothing exactly at the end |
| Cursors.Advance | src/lexer/cursor.rs:48-61 | moves past one byte; a line feed starts the next line at column 1, any other byte moves one column; the cursor stays valid (line and column are those of the bytes consumed) |
| Tokens.ParseBrFlags | src/lexer/token.rs:100-127 | succeeds exactly on `BR` followed only by N, Z and P; bare `BR` means all three flags; otherwise each flag is set exactly when its letter occurs; at least one flag is always set |
| Tokens.ScanFlags | src/lexer/token.rs:111-126 | the letter loop: succeeds exactly when every character is N, Z or P, and sets exactly the flags whose letters occur |
| Tokens.FlagBits | src/lexer/token.rs:132-134 | the 3-bit [N][Z][P] field: bit 2 is N, bit 1 is Z, bit 0 is P |
| Tokens.FlagBitsInjective | src/lexer/token.rs:132-134 | different flag sets give different bits |
| Tokens.FlagsText | src/lexer/token.rs:137-150 | `Display`: contains each of n, z, p exactly when that flag is set, in the order n, z, p |
| Tokens.FlagsTextRoundTrip | src/lexer/token.rs:100-150 | printing flags, upper-casing and parsing after `BR` gives the flags back; the empty set reads back as all three |
| Tokens.IsInstructionOrDirective | src/lexer/token.rs:153-168 | true exactly for the kinds that are not operands, punctuation or the end marker |
| Lexer.TwosComplement | src/lexer/mod.rs:39-45 | a 16-bit pattern read as signed: in -0x8000..0x7FFF, congruent to the pattern modulo 2^16, unchanged below 0x8000, negative above |
| Lexer.EscapeChar | src/lexer/mod.rs:49-59 | defined exactly for the letters n, r, t, backslash, quote and 0, and inverse to the escape letter of the character it yields |
| Lexer.EscapeRoundTrip | src/lexer/mod.rs:49-59 | every character that has an escape letter is recovered from it |
| Lexer.Keyword | src/lexer/mod.rs:369-391 | a keyword always yields an opcode, pseudo-op or directive, and never BR (BR is recognised by its flags); every keyword is two to five capital letters |
| Lexer.Directive | src/lexer/mod.rs:294-331 | a directive name always yields a directive kind |
| Lexer.NumberLiteral | src/lexer/mod.rs:402-463 | an X- or B-literal is accepted exactly when its digits' value fits in 16 bits, as that value's two's-complement reading; otherwise an invalid hex or binary literal error at the word |
| Lexer.LiteralShapes | src/lexer/mod.rs:347-463 | a hex or binary word is never a register, keyword or branch, and no word is both |
| Lexer.ClassifyWord | src/lexer/mod.rs:347-465 | R0..R7 give that register and R8, R9 an invalid-register error; a keyword gives its kind; an X- or B-word is the literal `NumberLiteral` reads; the result is a label named by the word exactly when the word has none of these shapes; never the end marker, and errors sit at the word's position |
| Lexer.RegisterRoundTrip | src/lexer/mod.rs:347-366 | every register is read from R and its digit, and no other digit gives it |
| Lexer.UnderscoreWordIsLabel | src/lexer/mod.rs:347-465 | a word holding an underscore is a label named by the word |
| Lexer.Chars | src/lexer/mod.rs:340-343 | the bytes of a range, each read as a char |
| Lexer.TakeWhile | src/lexer/mod.rs:340-343 | the longest run of characters satisfying the predicate, and the cursor at the first one that does not |
| Lexer.LexNewline | src/lexer/mod.rs:130-150 | one Newline token at the break; `\r\n` consumes two bytes, a lone `\n` or `\r` one |
| Lexer.LexComment | src/lexer/mod.rs:152-173 | the comment text is everything after `;` up to, not including, the line break or the end |
| Lexer.BodyStep | src/lexer/mod.rs:185-240 | one character of a string body: closes exactly at a quote, fails at the end or a line break (unterminated) or at an unknown escape, otherwise moves forward |
| Lexer.StringBody | src/lexer/mod.rs:185-240 | the body loop ends just after a closing quote, or fails at the literal's start with an unterminated-string or invalid-escape error |
| Lexer.LexString | src/lexer/mod.rs:175-247 | a successful string literal is one StringLiteral token, and the cursor always moves forward |
| Lexer.DecimalValue | src/lexer/mod.rs:249-292 | `parse::<i32>` of a sign and digits: no digits is an error; a value inside i32 is accepted and equals the signed digit value |
| Lexer.LexDecimal | src/lexer/mod.rs:249-292 | a `#` literal becomes a NumDecimal token, or an invalid-decimal error at the `#` |
| Lexer.LexDirective | src/lexer/mod.rs:294-331 | a `.` word becomes one of the five directives, or an unknown-directive error at the dot |
| Lexer.LexWord | src/lexer/mod.rs:333-474 | consumes a maximal run of letters, digits and underscores |
| Lexer.LexToken | src/lexer/mod.rs:91-128 | skips blanks, then produces a token and moves forward, or reports the end of input only at the end |
| Lexer.LexAll | src/lexer/mod.rs:62-89 | the main loop reads to the end of the input and never produces the end marker itself |
| Lexer.Tokenize | src/lexer/mod.rs:62-89 | the token list ends with exactly one end marker |
| Lexer.StringLiteralRoundTrip | src/lexer/mod.rs:175-247 | a quoted string with its special characters escaped lexes back to exactly that string, as one token at line 1, column 1, with no error |
| Lexer.StringBodyReadsEscaped | src/lexer/mod.rs:185-240 | the body loop reads an escaped body back to the original characters and stops just after the closing quote |
| Lexer.LexQuoted | src/lexer/mod.rs:175-247 | `lex_string` on exactly a quoted, escaped string yields it and reaches the end of input |
| Lexer.HexLiteralRoundTrip | src/lexer/mod.rs:402-431 | every 16-bit value written as `x` and four hex digits lexes to its two's-complement reading |
| Lexer.HexTextValue | src/lexer/mod.rs:402-431 | the four digits written for a value have that value |
| Lexer.DecimalTextValue | src/lexer/mod.rs:249-292 | the decimal digits written for a number have that value |
| Lexer.DecimalLiteralRoundTrip | src/lexer/mod.rs:249-292 | every i32 written as a sign and its digits reads back unchanged |
| Lexer.MnemonicRoundTrip | src/lexer/mod.rs:369-391 | every opcode and pseudo-op other than BR is reached from its spelling |
| Lexer.BranchRoundTrip | src/lexer/mod.rs:394-400 | every flag set with at least one flag is reached from `BR` followed by its flags |
| Lexer.ClassifyFlags | src/lexer/mod.rs:394-400 | a word that is neither a register nor a keyword but parses as flags is a BR with those flags |
| Lexer.NoKeywordStartsWithB | src/lexer/mod.rs:369-400 | no keyword starts with B, so a B-word is never shadowed before the BR check |
| Lexer.EscapedByteChars | src/lexer/mod.rs:49-59 | escaping keeps every character within a byte |
| Ast.Utf8Width | src/parser/ast.rs:66 | UTF-8 uses 1 to 4 bytes per character, and exactly 1 for ASCII |
| Ast.Utf8Len | src/parser/ast.rs:66 | `str::len` is at least the character count |
| Ast.WordCount | src/parser/ast.rs:58-69 | no words for empty lines, `.ORIG` and `.END`; one for `.FILL` and instructions; the count for `.BLKW`; UTF-8 length plus the terminator for `.STRINGZ` |
| Ast.Utf8LenAscii | src/parser/ast.rs:66 | the UTF-8 length equals the character count exactly when the string is ASCII |
| Ast.StringzWordsAscii | src/parser/ast.rs:66 | an ASCII `.STRINGZ` takes one word per character plus the terminator |
| ParseHelpers.TokenToI32 | src/parser/mod.rs:506-513 | a value exactly for the three number kinds, and that value |
| ParseHelpers.TokenToRegister | src/parser/mod.rs:515-520 | a register number exactly for a register token |
| ParseHelpers.TokenToLabel | src/parser/mod.rs:522-527 | a name exactly for a label token |
| ParseHelpers.EnsureNoExtra | src/parser/mod.rs:439-448 | fails exactly when more tokens than expected remain, at the first extra token |
| ParseHelpers.ExpectComma | src/parser/mod.rs:450-466 | succeeds exactly on a comma at the index; otherwise an expected-comma error at that token, or at the first token if it is missing |
| ParseHelpers.ExpectRegister | src/parser/mod.rs:468-485 | yields the register exactly when the token at the index is one; otherwise an expected-register error at that token or the first |
| ParseHelpers.ExpectLabel | src/parser/mod.rs:487-504 | yields the name exactly when the token at the index is a label; otherwise an expected-operand error at that token or the first |
| Operands.RegRegOrImm | src/parser/macros.rs:20-53 | a success has six tokens with registers in the operand slots; a register third operand gives the register form, a number the immediate form cast to i16 |
| Operands.RegLabel | src/parser/macros.rs:56-76 | a success has four tokens, a register and a label, and builds the instruction from them |
| Operands.RegRegImm | src/parser/macros.rs:79-105 | a success has six tokens, two registers and a number, and the offset is the number cast to i16 |
| Operands.SingleReg | src/parser/macros.rs:108-126 | a success has two tokens, the second a register |
| Operands.SingleLabel | src/parser/macros.rs:129-147 | a success has two tokens, the second a label, and builds JSR |
| Operands.NoOperands | src/parser/macros.rs:150-166 | a success has exactly the opcode token |
| Operands.RegRegOrImmJudged | src/parser/macros.rs:20-53 | ADD and AND fail exactly when their operand signature fails, with the signature's first error: too few tokens, then commas, then registers, then the third operand, then extras |
| Operands.RegLabelJudged | src/parser/macros.rs:56-76 | LD, LDI, LEA, ST and STI fail exactly as their signature orders the checks |
| Operands.RegRegImmJudged | src/parser/macros.rs:79-105 | LDR and STR fail exactly as their signature orders the checks |
| Operands.SingleRegJudged | src/parser/macros.rs:108-126 | JMP and JSRR fail exactly as their signature orders the checks |
| Operands.SingleLabelJudged | src/parser/macros.rs:129-147 | JSR fails exactly as its signature orders the checks |
| Operands.NoOperandsJudged | src/parser/macros.rs:150-166 | the operand-less instructions fail exactly on a second token, reported there |
| Parser.ParseNot | src/parser/mod.rs:254-267 | a success has four tokens with registers at 1 and 3, and builds NOT from them |
| Parser.ParseBr | src/parser/mod.rs:269-283 | a success has two tokens, a label second, and keeps the opcode's flags |
| Parser.ParseTrap | src/parser/mod.rs:285-311 | a success has a number in 0..255 as its only operand, kept as the vector rather than truncated |
| Parser.ParseOrig | src/parser/mod.rs:313-340 | a success has a number in -0x8000..0xFFFF, and the origin is its 16-bit pattern |
| Parser.ParseEnd | src/parser/mod.rs:342-351 | a success has no operand |
| Parser.ParseFill | src/parser/mod.rs:353-387 | a success has one operand: a number in -0x8000..0xFFFF kept as written, or else a label |
| Parser.ParseBlkw | src/parser/mod.rs:389-414 | a success has a count in 1..65535 |
| Parser.ParseStringz | src/parser/mod.rs:416-435 | a success has one string literal operand, kept as the text |
| Parser.ParseContent | src/parser/mod.rs:167-250 | a line not starting with an opcode or directive is an unexpected-token error at its first token; a success has the content kind its first token names |
| Parser.NotJudged | src/parser/mod.rs:254-267 | NOT fails exactly as its signature orders the checks |
| Parser.TrapJudged | src/parser/mod.rs:285-311 | TRAP fails exactly as its signature orders the checks, including the range check |
| Parser.OrigJudged | src/parser/mod.rs:313-340 | `.ORIG` fails exactly as its signature orders the checks |
| Parser.FillJudged | src/parser/mod.rs:353-387 | `.FILL` fails exactly as its signature orders the checks |
| Parser.BlkwJudged | src/parser/mod.rs:389-414 | `.BLKW` fails exactly as its signature orders the checks |
| Parser.StringzJudged | src/parser/mod.rs:416-435 | `.STRINGZ` fails exactly as its signature orders the checks |
| Parser.ParseContentJudged | src/parser/mod.rs:167-250 | a line starting with an opcode or directive fails exactly when that opcode's signature fails, with the same error |
| Parser.InstrRoundTrip | src/parser/mod.rs:167-250 | parsing the canonical tokens of any instruction gives the instruction back |
| Parser.OperateRoundTrip | src/parser/macros.rs:20-53 | round trip for ADD, AND and NOT |
| Parser.MemoryRoundTrip | src/parser/macros.rs:56-105 | round trip for the loads, stores and LEA |
| Parser.ControlRoundTrip | src/parser/mod.rs:269-283 | round trip for BR, JMP, JSR, JSRR, RET and RTI |
| Parser.TrapRoundTrip | src/parser/mod.rs:285-311 | round trip for TRAP and its aliases |
| Parser.ContentRoundTrip | src/parser/mod.rs:167-250 | parsing the canonical tokens of any content the parser can yield gives it back |
| Parser.ParsedMatchesRendering | src/parser/mod.rs:167-250 | whatever the parser accepts is content it can yield, and its canonical tokens match the input one for one, numbers up to radix and 16-bit pattern |
| Parser.CodeEnd | src/parser/mod.rs:76-80 | the index of the first comment token, or the length: nothing before it is a comment |
| Parser.ProcessLine | src/parser/mod.rs:67-147 | the line keeps its number; a label is recorded exactly when the code starts with a label token; a line of only a comment is empty without error; code opening with anything but a label, instruction or directive is an empty line and an unexpected-token error at that token; a label not followed by an instruction or directive stands alone without error, whatever follows; otherwise the content and the error are those the content parser gives for the tokens after the label |
| Parser.ParsedContentParsable | src/parser/mod.rs:167-250 | accepted content is never empty and keeps its operands in the parser's ranges |
| Parser.LineRoundTrip | src/parser/mod.rs:67-147 | processing a written line, with or without a label and a trailing comment, yields exactly its label and content, with no error |
| Parser.ParseFrom | src/parser/mod.rs:49-62 | the loop only appends lines and errors, numbers lines consecutively, and adds at most one error per line |
| Parser.ParseLines | src/parser/mod.rs:43-65 | one line per newline before the end marker plus the line it closes, numbered from 1, with at most one error per line |
| Parser.ParseFromCount | src/parser/mod.rs:49-62 | the loop adds one line per newline and one for the end marker |
| Parser.ProgramRoundTrip | src/parser/mod.rs:43-147 | parsing a whole written program gives back its lines, numbered from 1, with their labels and contents, and no errors |
| Symbols.Names | src/first_pass/symbol_table.rs:57-59 | the labels, one per entry, in insertion order |
| Symbols.AsMap | src/first_pass/symbol_table.rs:34-39 | the map view: its keys are exactly the table's labels |
| Symbols.New | src/first_pass/symbol_table.rs:18-22 | the new table is empty and its map view is the empty map |
| Symbols.GetFinds | src/first_pass/symbol_table.rs:34-39 | `get` succeeds exactly for the labels in the table, and yields an address stored with that label |
| Symbols.GetFirst | src/first_pass/symbol_table.rs:34-39 | `get` yields the address of the first entry carrying the label |
| Symbols.LookupFirst | src/first_pass/symbol_table.rs:34-39 | the search yields the address of the first entry carrying the label |
| Symbols.LookupFinds | src/first_pass/symbol_table.rs:34-39 | the first-match search succeeds exactly for present labels, and yields a stored entry |
| Symbols.InsertEntry | src/first_pass/symbol_table.rs:24-32 | the label now maps to the address, other labels keep theirs, and a new label is appended |
| Symbols.Insert | src/first_pass/symbol_table.rs:24-32 | `insert` updates a present label in place and appends a new one; every other label keeps its address |
| Symbols.Len | src/first_pass/symbol_table.rs:41-43 | the number of labels |
| Symbols.IsEmpty | src/first_pass/symbol_table.rs:45-47 | empty exactly when the length is 0 |
| Symbols.Iter | src/first_pass/symbol_table.rs:57-59 | the entries as (label, address) pairs, one per entry in insertion order, and every yielded label is found by `get` |
| Symbols.LookupIsMap | src/first_pass/symbol_table.rs:34-39 | a lookup is a lookup in the map view |
| Symbols.InsertIsMapUpdate | src/first_pass/symbol_table.rs:24-32 | inserting is a map update at one label |
| Symbols.InsertKeepsDistinct | src/first_pass/symbol_table.rs:24-32 | insertion never duplicates a label |
| FirstPass.Start | src/first_pass/mod.rs:53-60 | the walk starts with no error and an empty table |
| FirstPass.RecordLabel | src/first_pass/mod.rs:169-183 | a new label is bound to the address; a bound label keeps its first address and a duplicate-label error names it; other labels are untouched |
| FirstPass.LabelLine | src/first_pass/mod.rs:88-92 | the line's label is recorded at the address; an error is added exactly when the label was already bound |
| FirstPass.Advance | src/first_pass/mod.rs:116-132 | overflow exactly when the words run past 0x10000, and then the counter sticks at 0xFFFF; ending exactly at the top wraps to 0 without error |
| FirstPass.Process | src/first_pass/mod.rs:88-132 | a processing line advances the counter by its word count, binds a fresh label to the old counter, switches to after-end at `.END`, and adds errors exactly when the line is not clean |
| FirstPass.LineChecks | src/first_pass/mod.rs:94-132 | the counter advances as `Advance` says; errors, all at the line, are added exactly for a second `.ORIG`, an empty `.BLKW` or an overflow |
| FirstPass.ProcessErrors | src/first_pass/mod.rs:88-132 | the errors a processing line adds, in order: a duplicate label naming its first address, then MultipleOrig or InvalidBlkwCount, then AddressOverflow |
| FirstPass.ProcessCounts | src/first_pass/mod.rs:88-132 | per kind: one DuplicateLabel for a bound label, one MultipleOrig for `.ORIG`, one InvalidBlkwCount for `.BLKW 0`, one AddressOverflow past the top, nothing of any other kind |
| FirstPass.CountAppend | src/first_pass/mod.rs:53-166 | counting errors of a kind over two lists adds the counts |
| FirstPass.Step | src/first_pass/mod.rs:60-133 | after `.END` nothing changes; empty lines before the origin change nothing; `.ORIG` starts processing at its address; other content first reports a missing origin and assumes x3000 |
| FirstPass.Run | src/first_pass/mod.rs:60-133 | the counter is set exactly when an origin was seen or assumed |
| FirstPass.Assemble | src/first_pass/mod.rs:135-166 | an all-empty program gets a missing origin and a missing end; without `.END` the last error is a missing end; no error implies content and `.END` |
| FirstPass.Leading | src/first_pass/mod.rs:62-83 | the first content of the program, absent exactly when every line is empty |
| FirstPass.RunState | src/first_pass/mod.rs:40-105 | the state after a prefix is determined by the lines: waiting until content appears, after-end once `.END` appeared; the origin is the leading `.ORIG` or the default |
| FirstPass.AssembleErrors | src/first_pass/mod.rs:135-166 | the errors of the pass are the loop's, then a missing origin if still waiting, then a missing end unless `.END` was seen |
| FirstPass.EndChecksCount | src/first_pass/mod.rs:135-149 | the end-of-input checks add one missing origin exactly when the loop is still waiting |
| FirstPass.MissingOrigCount | src/first_pass/mod.rs:73-82 | a missing origin is reported once, unless the first content is `.ORIG`, in which case never |
| FirstPass.RunMissingOrig | src/first_pass/mod.rs:73-82 | the loop reports a missing origin at most once, at the first content |
| FirstPass.WaitingMissingOrig | src/first_pass/mod.rs:62-83 | leaving the waiting state reports a missing origin once, unless the line is `.ORIG` |
| FirstPass.LaterMissingOrig | src/first_pass/mod.rs:84-133 | once an origin is set, no line reports a missing origin |
| FirstPass.RunAddressed | src/first_pass/mod.rs:88-132 | while no error occurs, the counter is the origin plus the words of every line, wrapped, and every reached label holds its line's address |
| FirstPass.RunLabels | src/first_pass/mod.rs:84-92 | the table holds exactly the labels of the lines reached in the processing state |
| FirstPass.ErrorFree | src/first_pass/mod.rs:135-166 | an error-free pass started at a leading `.ORIG` and ended at `.END`, and returns the loop's table and origin |
| FirstPass.LabelAddresses | src/first_pass/mod.rs:53-183 | with no error, the table binds exactly the labels from the origin up to `.END`, each to the origin plus the words before its line, wrapped |
| FirstPass.WrapsWithoutOverflow | src/first_pass/mod.rs:116-132 | filling the address space exactly is accepted: after `.ORIG xFFFF` the next word is at 0 with no overflow |
| FirstPass.OverflowSticks | src/first_pass/mod.rs:116-132 | one word past the top is one overflow error, and the counter sticks at 0xFFFF |
| FirstPass.EarlyBlankLabelDropped | src/first_pass/mod.rs:72 | a label on an empty line before `.ORIG` is dropped without error |
| Encoder.NewEncoder | src/encoder/mod.rs:96-104 | nothing emitted, no error, the current address at the origin |
| Encoder.Emit | src/encoder/mod.rs:282-285 | one more word, and the current address moves on by one with wrap-around |
| Encoder.SignExtend | src/encoder/mod.rs:296-299 | the low bits of the value's 16-bit pattern: congruent to the value, and read back by SEXT whenever the value fits |
| Encoder.LowBits | src/encoder/mod.rs:296-299 | masking the 16-bit pattern keeps the value modulo 2^bits and inverts SEXT within range |
| Encoder.SignExtendExamples | src/encoder/mod.rs:305-310 | the three examples of the source's own unit test |
| Encoder.OffsetBits | src/encoder/mod.rs:161-219 | label operands have 9-bit fields, JSR an 11-bit field |
| Encoder.PcOffset | src/encoder/mod.rs:247-280 | an undefined label gives field 0 and an undefined-label error; otherwise an error exactly when the offset from the incremented PC is out of the signed range, with field 0 |
| Encoder.PcOffsetRoundTrip | src/encoder/mod.rs:247-280 | an accepted field takes the processor to the label: incremented PC plus the sign-extended field is the label's address |
| Encoder.OffsetLimit | src/encoder/mod.rs:161-219 | the field limit is 2^11 for JSR and 2^9 for the other label operands |
| Encoder.TargetField | src/encoder/mod.rs:161-219 | the field fits its width, and instructions without a label have none and no error |
| Encoder.EncodeInstruction | src/encoder/mod.rs:139-236 | exactly one word is emitted, earlier words untouched, and the only possible error is the label's |
| Encoder.OperateRegFields | src/encoder/mod.rs:142-151 | register-mode ADD and AND: the opcode, DR, SR1, bit 5 clear and SR2 read back from the word |
| Encoder.OperateImmFields | src/encoder/mod.rs:145-155 | immediate ADD and AND: the opcode, DR, SR1, bit 5 set, and imm5 read back by SEXT when it fits |
| Encoder.NotFields | src/encoder/mod.rs:156-158 | NOT: the opcode, DR, SR, and bits 5:0 all set |
| Encoder.PcRelativeFields | src/encoder/mod.rs:161-206 | LD, LDI, LEA, ST, STI and BR: the opcode, the register or N/Z/P bits in 11:9, the offset in 8:0 |
| Encoder.BaseOffsetFields | src/encoder/mod.rs:183-198 | LDR and STR: the opcode, the registers, and offset6 read back by SEXT when it fits |
| Encoder.JumpFields | src/encoder/mod.rs:209-220 | JMP, RET and JSRR: the opcode, BaseR (R7 for RET), bit 11 clear; RET is xC1C0 |
| Encoder.JsrFields | src/encoder/mod.rs:216-219 | JSR: the opcode, bit 11 set, the offset in 10:0 |
| Encoder.TrapFields | src/encoder/mod.rs:223-229 | TRAP and its aliases: opcode 15 and the vector (x20..x25 for the aliases) in bits 7:0; the word is xF000 plus the vector |
| Encoder.InstrWordOpcode | src/encoder/mod.rs:139-236 | every instruction word carries its instruction's opcode in bits 15:12 |
| Encoder.RtiWord | src/encoder/mod.rs:232 | RTI is x8000 |
| Encoder.EncodedTargetReached | src/encoder/mod.rs:139-280 | when the label resolved without error, the emitted word's offset field takes the incremented PC to the label's address |
| Encoder.EmitZeros | src/encoder/mod.rs:122-126 | `.BLKW` emits exactly `count` zero words |
| Encoder.EmitChars | src/encoder/mod.rs:127-130 | one word per character, each the character truncated to 16 bits |
| Encoder.EncodeLine | src/encoder/mod.rs:106-137 | a line appends exactly its words, leaving earlier words and the table untouched, and keeps the current address in step |
| Encoder.EncodeFillLabel | src/encoder/mod.rs:114-121 | a defined label emits its address; an undefined one emits 0 and an undefined-label error |
| Encoder.LineErrors | src/encoder/mod.rs:106-137 | a line adds at most one error, at its position, either an undefined label or an offset out of range |
| Encoder.DirectiveWords | src/encoder/mod.rs:108-132 | a directive line emits exactly its data image, and only an undefined `.FILL` label is an error |
| Encoder.LineWordsAgree | src/encoder/mod.rs:106-137 | the encoder emits the words the first pass counted exactly when the line is not a non-ASCII string |
| Encoder.EncodeAll | src/encoder/mod.rs:76-78 | the encoder after any lines keeps its current address in step with the words emitted |
| Encoder.Encode | src/encoder/mod.rs:73-85 | the machine code has the encoder's words for every line, and starts at the first pass's origin |
| Pipeline.WordsAgree | src/lib.rs:20-23 | with ASCII strings, the encoder emits as many words as the first pass counted |
| Pipeline.EncoderAt | src/lib.rs:20-23 | with ASCII strings, the encoder's current address is the origin plus the first pass's word count, wrapped |
| Pipeline.PassesAgree | src/lib.rs:20-23 | with no first-pass error and ASCII strings, every bound label holds the encoder's address at its line |
| Pipeline.LabelsAtEncoder | src/lib.rs:20-23 | labels bound at the first pass's addresses are bound at the encoder's addresses |
| Pipeline.CodeSize | src/lib.rs:20-23 | with ASCII strings, the machine code starts at the first pass's origin and its length is `word_count` summed over all lines, including lines after `.END` |
| Pipeline.TargetsAgree | src/lib.rs:20-23 | after an error-free first pass, every label operand the encoder resolves without error reaches the first pass's address for that label |
| Pipeline.EncodeAllReaches | src/encoder/mod.rs:76-78 | for any table and origin, the encoder keeps the table, and a label operand it resolves without error reaches the table's address for that label |
| Pipeline.EncodesAfterEnd | src/encoder/mod.rs:76-78 | a `.FILL` after `.END` is still emitted, although the first pass stopped counting |
| Pipeline.NonAsciiStringShifts | src/parser/ast.rs:66 | `"é"` takes three words for the first pass but two for the encoder |
| Pipeline.Imm5Truncated | src/parser/macros.rs:41-43 | `ADD R1, R1, #100` parses, and the encoded immediate SEXT-reads as 4 |

## Left out

- Input and output are not modelled: reading files, printing errors, writing the object file (`src/main.rs`), and `SymbolTable::print_table`.
- Spans are reduced to the (line, column) of their first byte. Byte offsets, the end of a span, and `line_span` merging are not modelled.
- Error messages are not modelled. An error keeps its kind, its position and the values it names (label, first address, offset), but not its text.
- `Display` for `TokenKind` and the lexemes of tokens are not modelled, except `Display` for `BrFlags`.
- `Cursor::current_pos` and `make_span` are modelled only as the (line, column) pair. The lexer calls `make_span` with a byte offset as well, which the cursor's two-argument signature does not take; the model keeps the line and column.
- Parser.ProcessLine: a line's position is the first token's position or column 1. The full span that `line_span` builds is left out.
- Lexer.LexWord: states the run it consumes and that it does not produce the end marker. The token it yields is stated by Lexer.ClassifyWord and the round-trip lemmas, not in the contract of LexWord.
- Lexer.LexString: states progress and the token kind. The decoded text is stated by Lexer.StringLiteralRoundTrip for escaped input, not for every byte sequence.
- Lexer.LexToken: does not restate the dispatch table of `lex_token`. The tokens of each branch are stated by the per-branch functions.
- The cursor reads one byte per character (`b as char`), as the source does. A multi-byte UTF-8 character in a string literal therefore becomes several characters in both.
- `word_count`'s `as u32` truncation is not modelled. A line has at most 65535 words or one string, so it cannot bite below 2^32 bytes.
- Characters above 0xFFFF in `.STRINGZ` are truncated to 16 bits (`Encoder.EmitChars`), as in the source.
- The label theorem Pipeline.PassesAgree needs an error-free first pass and ASCII strings; Pipeline.CodeSize needs only ASCII strings. Neither needs "nothing after `.END`": labels after `.END` are never bound, and the length is `word_count` summed over the same lines the encoder emits.
- Octal and other literal forms the lexer does not accept are out of scope, as in the source.
