/**
 * The lexer (lexer/mod.rs): turns source bytes into tokens, collecting one error
 * per malformed token and carrying on. Hex and binary literals are read as 16-bit
 * patterns and delivered as signed values (two's complement); decimal literals are
 * any i32.
 */
module Lexer {
  import opened Common
  import opened Errors
  import opened Tokens
  import opened Cursors

  // ---------------------------------------------------------------------------
  // Character classes (ASCII only, as in the Rust `is_ascii_*` methods)

  predicate IsAsciiDigit(c: char) { '0' <= c <= '9' }
  predicate IsAsciiAlpha(c: char) { 'A' <= c <= 'Z' || 'a' <= c <= 'z' }
  predicate IsAsciiAlnum(c: char) { IsAsciiDigit(c) || IsAsciiAlpha(c) }
  predicate IsHexDigit(c: char) { IsAsciiDigit(c) || 'A' <= c <= 'F' || 'a' <= c <= 'f' }
  predicate IsBinDigit(c: char) { c == '0' || c == '1' }
  predicate IsWordChar(c: char) { IsAsciiAlnum(c) || c == '_' }
  predicate IsBlank(c: char) { c == ' ' || c == '\t' }
  predicate IsLineBreak(c: char) { c == '\n' || c == '\r' }

  /** The value of one hexadecimal (or smaller radix) digit. */
  function DigitValue(c: char): (r: nat)
    requires IsHexDigit(c)
    ensures r < 16
    ensures IsAsciiDigit(c) ==> r == c as int - '0' as int
  {
    if IsAsciiDigit(c) then c as int - '0' as int
    else if 'A' <= c <= 'F' then c as int - 'A' as int + 10
    else c as int - 'a' as int + 10
  }

  /** The value of a digit string in the given radix, most significant digit first. */
  function DigitsValue(s: string, radix: nat): nat
    requires forall i :: 0 <= i < |s| ==> IsHexDigit(s[i])
  {
    if |s| == 0 then 0 else DigitsValue(s[..|s| - 1], radix) * radix + DigitValue(s[|s| - 1])
  }

  // ---------------------------------------------------------------------------
  // Pure helpers

  /** `u16_to_twos_complement`: read a 16-bit pattern as a signed value. */
  function TwosComplement(v: nat): (r: i32)
    requires v <= 0xFFFF
    ensures -0x8000 <= r <= 0x7FFF
    ensures Congruent16(r, v)
    ensures v <= 0x7FFF ==> r == v
    ensures v > 0x7FFF ==> r < 0
  {
    if v > 0x7FFF then v - 0x10000 else v
  }

  /** `process_escape_char`: the character an escape letter stands for. */
  function EscapeChar(esc: char): (r: Option<char>)
    ensures r.Some? <==> esc in "nrt\\\"0"
    ensures r.Some? ==> EscapeLetter(r.value) == Some(esc)
  {
    match esc
    case 'n' => Some('\n')
    case 'r' => Some('\r')
    case 't' => Some('\t')
    case '\\' => Some('\\')
    case '"' => Some('"')
    case '0' => Some('\0')
    case _ => None
  }

  /** The escape letter a string literal uses for a character, if it has one. */
  function EscapeLetter(c: char): Option<char> {
    match c
    case '\n' => Some('n')
    case '\r' => Some('r')
    case '\t' => Some('t')
    case '\\' => Some('\\')
    case '"' => Some('"')
    case '\0' => Some('0')
    case _ => None
  }

  /** Every character that has an escape letter is recovered from it. */
  lemma EscapeRoundTrip(c: char)
    requires EscapeLetter(c).Some?
    ensures EscapeChar(EscapeLetter(c).value) == Some(c)
  {
  }

  /** The keyword table of `lex_word`, on an upper-cased word. */
  function Keyword(u: string): (r: Option<TokenKind>)
    ensures r.Some? ==> IsInstructionOrDirective(r.value) && !r.value.OpBr?
    ensures r.Some? ==> 2 <= |u| <= 5 && forall i :: 0 <= i < |u| ==> 'A' <= u[i] <= 'Z'
  {
    if u == "ADD" then Some(OpAdd)
    else if u == "AND" then Some(OpAnd)
    else if u == "NOT" then Some(OpNot)
    else if u == "LD" then Some(OpLd)
    else if u == "LDI" then Some(OpLdi)
    else if u == "LDR" then Some(OpLdr)
    else if u == "LEA" then Some(OpLea)
    else if u == "ST" then Some(OpSt)
    else if u == "STI" then Some(OpSti)
    else if u == "STR" then Some(OpStr)
    else if u == "JMP" then Some(OpJmp)
    else if u == "JSR" then Some(OpJsr)
    else if u == "JSRR" then Some(OpJsrr)
    else if u == "TRAP" then Some(OpTrap)
    else if u == "RTI" then Some(OpRti)
    else if u == "RET" then Some(PseudoRet)
    else if u == "GETC" then Some(PseudoGetc)
    else if u == "OUT" then Some(PseudoOut)
    else if u == "PUTS" then Some(PseudoPuts)
    else if u == "IN" then Some(PseudoIn)
    else if u == "PUTSP" then Some(PseudoPutsp)
    else if u == "HALT" then Some(PseudoHalt)
    else None
  }

  /** The directive table of `lex_directive`, on the upper-cased name after the dot. */
  function Directive(u: string): (r: Option<TokenKind>)
    ensures r.Some? ==> IsInstructionOrDirective(r.value)
  {
    if u == "ORIG" then Some(DirOrig)
    else if u == "END" then Some(DirEnd)
    else if u == "FILL" then Some(DirFill)
    else if u == "BLKW" then Some(DirBlkw)
    else if u == "STRINGZ" then Some(DirStringz)
    else None
  }

  predicate AllHex(s: string) { forall i :: 0 <= i < |s| ==> IsHexDigit(s[i]) }
  predicate AllBin(s: string) { forall i :: 0 <= i < |s| ==> IsBinDigit(s[i]) }

  /** A hex word: an X followed by at least one hexadecimal digit. */
  predicate IsHexWord(u: string) { |u| > 1 && u[0] == 'X' && AllHex(u[1..]) }

  /** A binary word: a B followed by at least one binary digit. */
  predicate IsBinaryWord(u: string) { |u| > 1 && u[0] == 'B' && AllBin(u[1..]) }

  /** A register-shaped word: R and one decimal digit. */
  predicate IsRegisterWord(u: string) { |u| == 2 && u[0] == 'R' && IsAsciiDigit(u[1]) }

  /**
   * The shared literal branch of `lex_word` (hex for radix 16, binary for radix 2):
   * the digits after the prefix are accepted exactly when their value fits in 16 bits,
   * and then read as a two's-complement value.
   */
  function NumberLiteral(u: string, at: Position, radix: nat): (r: Result<TokenKind>)
    requires (radix == 16 && IsHexWord(u)) || (radix == 2 && IsBinaryWord(u))
    ensures r.Ok? <==> DigitsValue(u[1..], radix) <= 0xFFFF
    ensures r.Ok? && radix == 16 ==> r.value == NumHex(TwosComplement(DigitsValue(u[1..], radix)))
    ensures r.Ok? && radix == 2 ==> r.value == NumBinary(TwosComplement(DigitsValue(u[1..], radix)))
    ensures r.Err? ==> r.error == NewError(if radix == 16 then InvalidHexLiteral else InvalidBinaryLiteral, at)
  {
    assert AllHex(u[1..]) by {
      if radix == 2 {
        forall i | 0 <= i < |u[1..]| ensures IsHexDigit(u[1..][i]) { assert IsBinDigit(u[1..][i]); }
      }
    }
    var v := DigitsValue(u[1..], radix);
    if v > 0xFFFF then Err(NewError(if radix == 16 then InvalidHexLiteral else InvalidBinaryLiteral, at))
    else if radix == 16 then Ok(NumHex(TwosComplement(v)))
    else Ok(NumBinary(TwosComplement(v)))
  }

  /** A hex or binary word is no register, keyword or branch, and no word is both. */
  lemma LiteralShapes(u: string)
    ensures IsHexWord(u) || IsBinaryWord(u) ==> !IsRegisterWord(u) && Keyword(u).None? && ParseBrFlags(u).None?
    ensures !(IsHexWord(u) && IsBinaryWord(u))
  {
    if IsBinaryWord(u) {
      NoKeywordStartsWithB(u);
      assert IsBinDigit(u[1..][0]);
    }
  }

  /**
   * The classification part of `lex_word`, on the upper-cased word: register,
   * keyword, branch, hex literal, binary literal, and otherwise a label.
   */
  function ClassifyWord(u: string, at: Position): (r: Result<TokenKind>)
    ensures r.Err? ==> r.error.at == at && r.error.detail == NoDetail
    ensures r.Err? ==> r.error.kind in {InvalidRegister, InvalidHexLiteral, InvalidBinaryLiteral}
    ensures r.Ok? ==> r.value != Eof
    // R0 to R7 are registers, R8 and R9 are rejected
    ensures IsRegisterWord(u) ==>
      r == (if u[1] <= '7' then Ok(Register(u[1] as int - '0' as int)) else Err(NewError(InvalidRegister, at)))
    ensures Keyword(u).Some? ==> r == Ok(Keyword(u).value)
    // an X-literal is accepted exactly when its value fits in 16 bits, likewise a B-literal
    ensures IsHexWord(u) ==> r == NumberLiteral(u, at, 16)
    ensures IsBinaryWord(u) ==> r == NumberLiteral(u, at, 2)
    // a word of no other shape is a label named by the word itself
    ensures r.Ok? && r.value.Label? <==>
      !IsRegisterWord(u) && Keyword(u).None? && ParseBrFlags(u).None? && !IsHexWord(u) && !IsBinaryWord(u)
    ensures r.Ok? && r.value.Label? ==> r.value.name == u
  {
    LiteralShapes(u);
    if IsRegisterWord(u) then
      var d := u[1] as int - '0' as int;
      if d <= 7 then Ok(Register(d)) else Err(NewError(InvalidRegister, at))
    else if Keyword(u).Some? then Ok(Keyword(u).value)
    else if ParseBrFlags(u).Some? then Ok(OpBr(ParseBrFlags(u).value))
    else if IsHexWord(u) then NumberLiteral(u, at, 16)
    else if IsBinaryWord(u) then NumberLiteral(u, at, 2)
    else Ok(Label(u))
  }

  // ---------------------------------------------------------------------------
  // Cursor-level scanning

  /** One lexing step: the token (or nothing, or an error) and the cursor after it. */
  type Step = (Result<Option<Token>>, Cursor)

  /**
   * What every token-level step guarantees: the cursor stays valid over the same
   * bytes, it moved forward, and no end-of-input token was produced.
   */
  ghost predicate Progress(c: Cursor, r: Step) {
    && Valid(r.1)
    && r.1.bytes == c.bytes
    && r.1.pos > c.pos
    && (r.0.Ok? && r.0.value.Some? ==> r.0.value.value.kind != Eof)
  }

  /** The characters of `bytes[lo..hi]`. */
  function Chars(bytes: seq<u8>, lo: nat, hi: nat): (r: string)
    requires lo <= hi <= |bytes|
    ensures |r| == hi - lo
    ensures forall i :: 0 <= i < |r| ==> r[i] == bytes[lo + i] as char
    decreases hi - lo
  {
    if lo == hi then [] else [bytes[lo] as char] + Chars(bytes, lo + 1, hi)
  }

  /** Consume characters while `p` holds; returns them and the cursor at the first one that fails. */
  function TakeWhile(c: Cursor, p: char -> bool): (r: (string, Cursor))
    requires Valid(c)
    ensures Valid(r.1) && r.1.bytes == c.bytes && c.pos <= r.1.pos
    ensures r.0 == Chars(c.bytes, c.pos, r.1.pos)
    ensures forall i :: 0 <= i < |r.0| ==> p(r.0[i])
    ensures !AtEnd(r.1) ==> !p(c.bytes[r.1.pos] as char)
    decreases |c.bytes| - c.pos
  {
    if !AtEnd(c) && p(c.bytes[c.pos] as char) then
      var next := Advance(c).1;
      var rest := TakeWhile(next, p);
      ([c.bytes[c.pos] as char] + rest.0, rest.1)
    else
      ("", c)
  }

  /** `lex_newline`: "\n", "\r" or "\r\n" becomes one Newline token. */
  function LexNewline(c: Cursor): (r: Step)
    requires Valid(c) && !AtEnd(c) && IsLineBreak(c.bytes[c.pos] as char)
    ensures Progress(c, r)
    ensures r.0 == Ok(Some(Token(Newline, CurrentPos(c))))
    ensures r.1.pos == if c.bytes[c.pos] as char == '\r' && c.pos + 1 < |c.bytes|
                          && c.bytes[c.pos + 1] as char == '\n'
                       then c.pos + 2 else c.pos + 1
  {
    var tok := Token(Newline, CurrentPos(c));
    var c1 := Advance(c).1;
    if c.bytes[c.pos] as char == '\r' && Peek(c1) == Some('\n') then
      (Ok(Some(tok)), Advance(c1).1)
    else
      (Ok(Some(tok)), c1)
  }

  /** `lex_comment`: the text after ';' up to, not including, the line break. */
  function LexComment(c: Cursor): (r: Step)
    requires Valid(c) && !AtEnd(c) && c.bytes[c.pos] as char == ';'
    ensures Progress(c, r)
    ensures r.0.Ok? && r.0.value.Some? && r.0.value.value.kind.Comment?
    ensures r.0.value.value.kind.text == Chars(c.bytes, c.pos + 1, r.1.pos)
    ensures forall i :: 0 <= i < |r.0.value.value.kind.text| ==> !IsLineBreak(r.0.value.value.kind.text[i])
    ensures AtEnd(r.1) || IsLineBreak(c.bytes[r.1.pos] as char)
  {
    var c1 := Advance(c).1;
    var (text, c2) := TakeWhile(c1, ch => !IsLineBreak(ch));
    (Ok(Some(Token(Comment(text), CurrentPos(c)))), c2)
  }

  /** What one turn of the body loop of `lex_string` does. */
  datatype BodyMove =
    | Closed(next: Cursor)                      // the closing quote, consumed
    | Read(ch: char, next: Cursor)              // one character, possibly escaped
    | Stop(kind: ErrorKind, next: Cursor)       // the literal cannot be completed

  /**
   * One turn of the body loop: end of input and line breaks leave the literal
   * unterminated, a quote closes it, a backslash takes the next character as an
   * escape letter, and any other character stands for itself.
   */
  function BodyStep(c: Cursor): (r: BodyMove)
    requires Valid(c)
    ensures Valid(r.next) && r.next.bytes == c.bytes && c.pos <= r.next.pos
    ensures !r.Stop? ==> r.next.pos > c.pos && !IsLineBreak(c.bytes[c.pos] as char)
    ensures r.Closed? <==> !AtEnd(c) && c.bytes[c.pos] as char == '"'
    ensures r.Closed? ==> r.next.pos == c.pos + 1
    ensures r.Stop? ==> r.kind in {UnterminatedString, InvalidEscapeSequence}
    ensures r.Stop? && r.kind == UnterminatedString ==> AtEnd(r.next) || IsLineBreak(c.bytes[r.next.pos] as char)
  {
    if AtEnd(c) then Stop(UnterminatedString, c)
    else
      var ch := c.bytes[c.pos] as char;
      if IsLineBreak(ch) then Stop(UnterminatedString, c)
      else if ch == '"' then Closed(Advance(c).1)
      else if ch == '\\' then
        var c1 := Advance(c).1;
        if AtEnd(c1) then Stop(UnterminatedString, c1)
        else
          match EscapeChar(c1.bytes[c1.pos] as char)
          case Some(e) => Read(e, Advance(c1).1)
          case None => Stop(InvalidEscapeSequence, c1)
      else Read(ch, Advance(c).1)
  }

  /**
   * The body loop of `lex_string`, after the opening quote: collects the decoded
   * characters until the closing quote. Ends with UnterminatedString at the end of
   * input or at a line break, and with InvalidEscapeSequence at an unknown escape.
   */
  function StringBody(c: Cursor, acc: string, start: Position): (r: (Result<string>, Cursor))
    requires Valid(c)
    ensures Valid(r.1) && r.1.bytes == c.bytes && c.pos <= r.1.pos
    ensures r.0.Ok? ==> r.1.pos > c.pos && c.bytes[r.1.pos - 1] as char == '"'
    ensures r.0.Err? ==> r.0.error.at == start && r.0.error.detail == NoDetail
    ensures r.0.Err? ==> r.0.error.kind in {UnterminatedString, InvalidEscapeSequence}
    decreases |c.bytes| - c.pos
  {
    match BodyStep(c)
    case Closed(c1) => (Ok(acc), c1)
    case Read(ch, c1) => StringBody(c1, acc + [ch], start)
    case Stop(k, c1) => (Err(NewError(k, start)), c1)
  }

  /** `lex_string`: a double-quoted literal with escapes. */
  function LexString(c: Cursor): (r: Step)
    requires Valid(c) && !AtEnd(c) && c.bytes[c.pos] as char == '"'
    ensures Progress(c, r)
    ensures r.0.Ok? ==> r.0.value.Some? && r.0.value.value.kind.StringLiteral?
  {
    var body := StringBody(Advance(c).1, "", CurrentPos(c));
    match body.0
    case Ok(s) => (Ok(Some(Token(StringLiteral(s), CurrentPos(c)))), body.1)
    case Err(e) => (Err(e), body.1)
  }

  /**
   * The decimal value of `#`, an optional sign and digits, as Rust's `parse::<i32>`
   * reads it: no digits, or a value outside i32, is an error.
   */
  function DecimalValue(sign: string, digits: string): (r: Option<i32>)
    requires sign in {"", "-", "+"}
    requires forall i :: 0 <= i < |digits| ==> IsAsciiDigit(digits[i])
    ensures |digits| == 0 ==> r.None?
    ensures r.Some? ==> r.value == (if sign == "-" then -1 else 1) * DigitsValue(digits, 10)
    ensures |digits| > 0 && -0x8000_0000 <= (if sign == "-" then -1 else 1) * DigitsValue(digits, 10) < 0x8000_0000
            ==> r.Some?
  {
    if |digits| == 0 then None
    else
      var v := (if sign == "-" then -1 else 1) * DigitsValue(digits, 10);
      if -0x8000_0000 <= v < 0x8000_0000 then Some(v) else None
  }

  /** `lex_decimal`. */
  function LexDecimal(c: Cursor): (r: Step)
    requires Valid(c) && !AtEnd(c) && c.bytes[c.pos] as char == '#'
    ensures Progress(c, r)
    ensures r.0.Ok? ==> r.0.value.Some? && r.0.value.value.kind.NumDecimal?
    ensures r.0.Err? ==> r.0.error == NewError(InvalidDecimalLiteral, CurrentPos(c))
  {
    var c1 := Advance(c).1;
    var (sign, c2) :=
      if Peek(c1) == Some('-') || Peek(c1) == Some('+') then ([Peek(c1).value], Advance(c1).1)
      else ("", c1);
    var (digits, c3) := TakeWhile(c2, IsAsciiDigit);
    match DecimalValue(sign, digits)
    case Some(v) => (Ok(Some(Token(NumDecimal(v), CurrentPos(c)))), c3)
    case None => (Err(NewError(InvalidDecimalLiteral, CurrentPos(c))), c3)
  }

  /** `lex_directive`: '.' followed by letters naming one of the five directives. */
  function LexDirective(c: Cursor): (r: Step)
    requires Valid(c) && !AtEnd(c) && c.bytes[c.pos] as char == '.'
    ensures Progress(c, r)
    ensures r.0.Ok? ==> r.0.value.Some? && IsInstructionOrDirective(r.0.value.value.kind)
    ensures r.0.Err? ==> r.0.error == NewError(UnknownDirective, CurrentPos(c))
  {
    var c1 := Advance(c).1;
    var (name, c2) := TakeWhile(c1, IsAsciiAlpha);
    match Directive(Upper(name))
    case Some(k) => (Ok(Some(Token(k, CurrentPos(c)))), c2)
    case None => (Err(NewError(UnknownDirective, CurrentPos(c))), c2)
  }

  /** `lex_word`: a maximal run of letters, digits and underscores, classified case-insensitively. */
  function LexWord(c: Cursor): (r: Step)
    requires Valid(c) && !AtEnd(c) && IsWordChar(c.bytes[c.pos] as char)
    ensures Progress(c, r)
    ensures AtEnd(r.1) || !IsWordChar(c.bytes[r.1.pos] as char)
  {
    var run := TakeWhile(c, IsWordChar);
    (AsToken(ClassifyWord(Upper(run.0), CurrentPos(c)), CurrentPos(c)), run.1)
  }

  /** A classified word becomes a token at the word's position; an error passes through. */
  function AsToken(k: Result<TokenKind>, at: Position): Result<Option<Token>> {
    match k
    case Ok(kind) => Ok(Some(Token(kind, at)))
    case Err(e) => Err(e)
  }

  /** `lex_token`: skip blanks, then dispatch on the first character. */
  function LexToken(c: Cursor): (r: Step)
    requires Valid(c)
    ensures Valid(r.1) && r.1.bytes == c.bytes && r.1.pos >= c.pos
    ensures !AtEnd(c) ==> Progress(c, r)
    ensures r.0 == Ok(None) ==> AtEnd(r.1)
  {
    var c1 := TakeWhile(c, IsBlank).1;
    if AtEnd(c1) then (Ok(None), c1)
    else
      var ch := c1.bytes[c1.pos] as char;
      if IsLineBreak(ch) then LexNewline(c1)
      else if ch == ';' then LexComment(c1)
      else if ch == ',' then (Ok(Some(Token(Comma, CurrentPos(c1)))), Advance(c1).1)
      else if ch == '"' then LexString(c1)
      else if ch == '#' then LexDecimal(c1)
      else if ch == '.' then LexDirective(c1)
      else if IsAsciiAlpha(ch) || ch == '_' then LexWord(c1)
      else (Err(NewError(UnexpectedCharacter, CurrentPos(c1))), Advance(c1).1)
  }

  datatype LexResult = LexResult(tokens: seq<Token>, errors: seq<AsmError>)

  /** The main loop of `tokenize`: lex tokens until the input is used up. */
  function LexAll(c: Cursor, tokens: seq<Token>, errors: seq<AsmError>): (r: (LexResult, Cursor))
    requires Valid(c)
    requires forall i :: 0 <= i < |tokens| ==> tokens[i].kind != Eof
    ensures Valid(r.1) && AtEnd(r.1) && r.1.bytes == c.bytes
    ensures forall i :: 0 <= i < |r.0.tokens| ==> r.0.tokens[i].kind != Eof
    decreases |c.bytes| - c.pos
  {
    if AtEnd(c) then (LexResult(tokens, errors), c)
    else
      var (res, c1) := LexToken(c);
      match res
      case Ok(Some(t)) => LexAll(c1, tokens + [t], errors)
      case Ok(None) => LexAll(c1, tokens, errors)
      case Err(e) => LexAll(c1, tokens, errors + [e])
  }

  /** `tokenize`: all tokens of the input followed by exactly one Eof at the final position. */
  function Tokenize(source: seq<u8>): (r: LexResult)
    ensures |r.tokens| >= 1 && r.tokens[|r.tokens| - 1].kind == Eof
    ensures forall i :: 0 <= i < |r.tokens| - 1 ==> r.tokens[i].kind != Eof
  {
    var (res, c) := LexAll(New(source), [], []);
    LexResult(res.tokens + [Token(Eof, CurrentPos(c))], res.errors)
  }

  // ---------------------------------------------------------------------------
  // Round trips: printing a value in the assembly syntax and lexing it back

  /** The bytes of a string whose characters all fit in a byte. */
  function BytesOf(s: string): (r: seq<u8>)
    requires ByteChars(s)
    ensures |r| == |s|
    ensures forall i :: 0 <= i < |s| ==> r[i] as char == s[i]
  {
    seq(|s|, i requires 0 <= i < |s| => s[i] as int)
  }

  /** One character as written inside a string literal. */
  function EscapedChar(c: char): (r: string)
    ensures 1 <= |r| <= 2
  {
    match EscapeLetter(c)
    case Some(e) => ['\\', e]
    case None => [c]
  }

  /** Every character fits in a byte. */
  predicate ByteChars(s: string) {
    forall i :: 0 <= i < |s| ==> s[i] as int < 256
  }

  /** A string literal's body as written: characters with an escape letter are escaped. */
  function Escaped(s: string): (r: string)
    ensures |r| >= |s|
  {
    if |s| == 0 then "" else EscapedChar(s[0]) + Escaped(s[1..])
  }

  /** Escaping adds only backslashes and ASCII letters, so it keeps every character within a byte. */
  lemma {:induction false} EscapedByteChars(s: string)
    ensures ByteChars(s) ==> ByteChars(Escaped(s))
  {
    if |s| > 0 && ByteChars(s) {
      assert ByteChars(s[1..]);
      EscapedByteChars(s[1..]);
      var h := EscapedChar(s[0]);
      var t := Escaped(s[1..]);
      assert Escaped(s) == h + t;
      forall j | 0 <= j < |h + t|
        ensures (h + t)[j] as int < 256
      {
        if j >= |h| {
          assert (h + t)[j] == t[j - |h|];
        }
      }
    }
  }

  /** The source text of a string literal: quotes around the escaped body. */
  function Quote(s: string): (r: string)
    ensures ByteChars(s) ==> ByteChars(r)
  {
    EscapedByteChars(s);
    "\"" + Escaped(s) + "\""
  }

  /** The bytes begin with the characters of `t`, one byte per character. */
  predicate Spells(b: seq<u8>, t: string)
    decreases |t|
  {
    |t| <= |b| && (|t| == 0 || (b[0] as char == t[0] && Spells(b[1..], t[1..])))
  }

  /** Spelling a concatenation is spelling its first part, then its second part after it. */
  lemma {:induction false} SpellsAppend(b: seq<u8>, x: string, y: string)
    requires Spells(b, x + y)
    ensures Spells(b, x) && Spells(b[|x|..], y)
    decreases |x|
  {
    if |x| > 0 {
      assert (x + y)[0] == x[0] && (x + y)[1..] == x[1..] + y;
      SpellsAppend(b[1..], x[1..], y);
      assert b[1..][|x| - 1..] == b[|x|..];
    } else {
      assert x + y == y && b[0..] == b;
    }
  }

  /** A character sequence that fits in bytes is spelled by its own bytes. */
  lemma {:induction false} SpellsBytesOf(t: string)
    requires ByteChars(t)
    ensures Spells(BytesOf(t), t)
    decreases |t|
  {
    if |t| > 0 {
      assert ByteChars(t[1..]);
      assert BytesOf(t)[1..] == BytesOf(t[1..]);
      SpellsBytesOf(t[1..]);
    }
  }

  /**
   * Reading an escaped body followed by a closing quote yields the original
   * characters and stops right after the quote.
   */
  lemma {:induction false} StringBodyReadsEscaped(c: Cursor, s: string, acc: string, start: Position)
    requires Valid(c)
    requires Spells(c.bytes[c.pos..], Escaped(s) + "\"")
    ensures StringBody(c, acc, start).0 == Ok(acc + s)
    ensures StringBody(c, acc, start).1.pos == c.pos + |Escaped(s)| + 1
    decreases |s|
  {
    var rest := c.bytes[c.pos..];
    if |s| == 0 {
      assert Escaped(s) + "\"" == "\"";
      assert rest[0] == c.bytes[c.pos];
      assert acc + s == acc;
    } else {
      var head := EscapedChar(s[0]);
      var tail := Escaped(s[1..]) + "\"";
      assert Escaped(s) + "\"" == head + tail;
      SpellsAppend(rest, head, tail);
      assert rest[0] == c.bytes[c.pos];
      if |head| == 2 {
        assert Spells(rest[1..], head[1..]);
        assert rest[1] == c.bytes[c.pos + 1];
      }
      BodyStepReads(c, s[0]);
      var next := BodyStep(c).next;
      assert rest[|head|..] == next.bytes[next.pos..];
      StringBodyReadsEscaped(next, s[1..], acc + [s[0]], start);
      AppendHeadTail(acc, s);
    }
  }

  lemma AppendHeadTail(acc: string, s: string)
    requires |s| > 0
    ensures acc + [s[0]] + s[1..] == acc + s
  {
  }

  /** One escaped character of a literal's body is read back as that character. */
  lemma BodyStepReads(c: Cursor, ch: char)
    requires Valid(c)
    requires c.pos + |EscapedChar(ch)| <= |c.bytes|
    requires c.bytes[c.pos] as char == EscapedChar(ch)[0]
    requires |EscapedChar(ch)| == 2 ==> c.bytes[c.pos + 1] as char == EscapedChar(ch)[1]
    ensures BodyStep(c).Read? && BodyStep(c).ch == ch
    ensures BodyStep(c).next.pos == c.pos + |EscapedChar(ch)|
  {
    match EscapeLetter(ch)
    case Some(e) =>
      assert EscapedChar(ch) == ['\\', e];
      assert EscapeChar(e) == Some(ch);
    case None =>
      assert EscapedChar(ch) == [ch];
      assert ch != '\\' && ch != '"' && !IsLineBreak(ch);
  }

  /**
   * Lexing a quoted, escaped string gives back exactly that string as one
   * StringLiteral token at line 1, column 1, followed by Eof, with no errors.
   */
  lemma StringLiteralRoundTrip(s: string)
    requires ByteChars(s)
    ensures var r := Tokenize(BytesOf(Quote(s)));
            && r.errors == []
            && |r.tokens| == 2
            && r.tokens[0] == Token(StringLiteral(s), Position(1, 1))
            && r.tokens[1].kind == Eof
  {
    var q := Quote(s);
    var bytes := BytesOf(q);
    var c := New(bytes);
    var step := LexString(c);
    LexQuoted(c, s);
    assert LexToken(c) == step by {
      assert bytes[0] as char == q[0] == '"';
      assert TakeWhile(c, IsBlank) == ("", c);
    }
    var tok := Token(StringLiteral(s), Position(1, 1));
    assert [] + [tok] == [tok];
    assert LexAll(c, [], []) == LexAll(step.1, [tok], []);
    assert LexAll(step.1, [tok], []) == (LexResult([tok], []), step.1);
  }

  /** `lex_string` on a cursor holding exactly a quoted, escaped string reads it to the end. */
  lemma LexQuoted(c: Cursor, s: string)
    requires ByteChars(s)
    requires c == New(BytesOf(Quote(s)))
    ensures LexString(c) == (Ok(Some(Token(StringLiteral(s), Position(1, 1)))), LexString(c).1)
    ensures AtEnd(LexString(c).1)
  {
    var q := Quote(s);
    assert c.bytes[0] as char == q[0] == '"';
    var c1 := Advance(c).1;
    SpellsBytesOf(q);
    assert q == "\"" + (Escaped(s) + "\"");
    SpellsAppend(c.bytes, "\"", Escaped(s) + "\"");
    assert c1.bytes[c1.pos..] == c.bytes[1..];
    StringBodyReadsEscaped(c1, s, "", CurrentPos(c));
    assert "" + s == s;
  }

  /** One hexadecimal digit, upper case. */
  function HexDigitChar(d: nat): (r: char)
    requires d < 16
    ensures IsHexDigit(r) && DigitValue(r) == d
  {
    if d < 10 then ('0' as int + d) as char else ('A' as int + d - 10) as char
  }

  /** A 16-bit value written as four hexadecimal digits. */
  function HexText(v: u16): (r: string)
    ensures |r| == 4 && AllHex(r)
  {
    [HexDigitChar(v / 0x1000), HexDigitChar((v / 0x100) % 16), HexDigitChar((v / 16) % 16), HexDigitChar(v % 16)]
  }

  /** Every 16-bit value written as an X-literal is read back as its two's-complement value. */
  lemma HexLiteralRoundTrip(v: u16, at: Position)
    ensures ClassifyWord("X" + HexText(v), at) == Ok(NumHex(TwosComplement(v)))
  {
    var t := HexText(v);
    var u := "X" + t;
    assert u[1..] == t;
    HexTextValue(v);
    assert u[0] == 'X' && |u| == 5;
    assert Keyword(u).None?;
  }

  /** The four digits of `HexText` have the value they were made from. */
  lemma HexTextValue(v: u16)
    ensures DigitsValue(HexText(v), 16) == v
  {
    var t := HexText(v);
    var x3, x2, x1 := v / 0x1000, v / 0x100, v / 16;
    assert x2 / 16 == x3 && x1 / 16 == x2;
    assert t[..1][..0] == t[..0] && t[..2][..1] == t[..1] && t[..3][..2] == t[..2] && t[..4] == t;
    assert DigitsValue(t[..1], 16) == x3;
    assert DigitsValue(t[..2], 16) == x3 * 16 + x2 % 16 == x2;
    assert DigitsValue(t[..3], 16) == x2 * 16 + x1 % 16 == x1;
    assert DigitsValue(t, 16) == x1 * 16 + v % 16 == v;
  }

  /** The decimal digits of a natural number, most significant first, without leading zeros. */
  function DecimalText(n: nat): (r: string)
    ensures |r| >= 1
    ensures forall i :: 0 <= i < |r| ==> IsAsciiDigit(r[i])
    decreases n
  {
    if n < 10 then [('0' as int + n) as char]
    else DecimalText(n / 10) + [('0' as int + n % 10) as char]
  }

  lemma {:induction false} DecimalTextValue(n: nat)
    ensures DigitsValue(DecimalText(n), 10) == n
    decreases n
  {
    if n >= 10 {
      var t := DecimalText(n);
      assert t[..|t| - 1] == DecimalText(n / 10);
      DecimalTextValue(n / 10);
    }
  }

  /** Every i32 written as `#`, a sign for negatives, and its digits is read back unchanged. */
  lemma DecimalLiteralRoundTrip(v: i32)
    ensures DecimalValue(if v < 0 then "-" else "", DecimalText(Magnitude(v))) == Some(v)
  {
    DecimalTextValue(Magnitude(v));
  }

  function Magnitude(v: int): nat {
    if v < 0 then -v else v
  }

  /** The canonical spelling of each opcode and pseudo-op other than BR. */
  function Mnemonic(k: TokenKind): (r: string)
    requires IsInstructionOrDirective(k) && !k.OpBr?
    requires !(k.DirOrig? || k.DirEnd? || k.DirFill? || k.DirBlkw? || k.DirStringz?)
  {
    match k
    case OpAdd => "ADD" case OpAnd => "AND" case OpNot => "NOT"
    case OpLd => "LD" case OpLdi => "LDI" case OpLdr => "LDR" case OpLea => "LEA"
    case OpSt => "ST" case OpSti => "STI" case OpStr => "STR"
    case OpJmp => "JMP" case OpJsr => "JSR" case OpJsrr => "JSRR"
    case OpTrap => "TRAP" case OpRti => "RTI"
    case PseudoRet => "RET" case PseudoGetc => "GETC" case PseudoOut => "OUT"
    case PseudoPuts => "PUTS" case PseudoIn => "IN" case PseudoPutsp => "PUTSP"
    case PseudoHalt => "HALT"
  }

  /** Every opcode and pseudo-op other than BR is reached from its spelling through the keyword table. */
  lemma MnemonicRoundTrip(k: TokenKind, at: Position)
    requires IsInstructionOrDirective(k) && !k.OpBr?
    requires !(k.DirOrig? || k.DirEnd? || k.DirFill? || k.DirBlkw? || k.DirStringz?)
    ensures ClassifyWord(Mnemonic(k), at) == Ok(k)
  {
    var u := Mnemonic(k);
    assert Keyword(u) == Some(k);
    assert !IsRegisterWord(u);
  }

  /** Every branch with at least one flag is reached from "BR" followed by its flags. */
  lemma BranchRoundTrip(f: BrFlags, at: Position)
    requires f.n || f.z || f.p
    ensures ClassifyWord("BR" + Upper(FlagsText(f)), at) == Ok(OpBr(f))
  {
    var u := "BR" + Upper(FlagsText(f));
    FlagsTextRoundTrip(f);
    assert u[0] == 'B' && u[1] == 'R';
    assert !IsRegisterWord(u);
    NoKeywordStartsWithB(u);
    ClassifyFlags(u, at);
  }

  /** A word that is neither a register nor a keyword but parses as branch flags is a BR. */
  lemma ClassifyFlags(u: string, at: Position)
    requires !IsRegisterWord(u) && Keyword(u).None? && ParseBrFlags(u).Some?
    ensures ClassifyWord(u, at) == Ok(OpBr(ParseBrFlags(u).value))
  {
  }

  /** Every register is reached from R and its number, and its number alone. */
  lemma RegisterRoundTrip(d: Reg, at: Position)
    ensures ClassifyWord(['R', ('0' as int + d) as char], at) == Ok(Register(d))
    ensures forall c :: '0' <= c <= '9' && ClassifyWord(['R', c], at) == Ok(Register(d)) ==> c == ('0' as int + d) as char
  {
    assert IsRegisterWord(['R', ('0' as int + d) as char]);
  }

  /** A word holding an underscore has no other shape, so it is a label named by the word. */
  lemma UnderscoreWordIsLabel(u: string, at: Position)
    requires '_' in u
    ensures ClassifyWord(u, at) == Ok(Label(u))
  {
    var k :| 0 <= k < |u| && u[k] == '_';
    assert Keyword(u).None?;
    assert !IsHexDigit(u[k]) && !IsBinDigit(u[k]) && !IsAsciiDigit(u[k]);
  }

  /** No opcode or pseudo-op spelling starts with B: BR is recognised by its flags instead. */
  lemma NoKeywordStartsWithB(u: string)
    requires |u| > 0 && u[0] == 'B'
    ensures Keyword(u).None?
  {
  }
}
