/**
 * The line parser (parser/mod.rs): splits the token stream into lines, strips
 * comments, peels off a leading label, and parses the rest into a `LineContent`.
 * A line that fails to parse still yields a `SourceLine` (with empty content) so
 * that later passes see every line; its error is collected alongside.
 */
module Parser {
  import opened Common
  import opened Errors
  import opened Tokens
  import opened Ast
  import opened ParseHelpers
  import opened Operands

  // ---------------------------------------------------------------------------
  // Signatures of the forms that are parsed by hand rather than by a pattern
  // ---------------------------------------------------------------------------

  const NotSig: Signature := Signature(4,
    Then(NeedComma(2), Then(NeedRegister(1), Then(NeedRegister(3), Then(NeedAtMost(4, UnexpectedToken), Done)))))

  /** A trap vector must fit in eight bits. */
  const TrapSig: Signature := Signature(2,
    Then(NeedNumber(1), Then(NeedInRange(1, 0, 0xFF, InvalidOperandType), Then(NeedAtMost(2, UnexpectedToken), Done))))

  /** An origin is any value with a 16-bit representation, signed or unsigned. */
  const OrigSig: Signature := Signature(2,
    Then(NeedNumber(1), Then(NeedInRange(1, -0x8000, 0xFFFF, InvalidOrigAddress), Then(NeedAtMost(2, UnexpectedToken), Done))))

  const FillSig: Signature := Signature(2,
    Then(NeedNumberOrLabel(1), Then(NeedInRange(1, -0x8000, 0xFFFF, InvalidOperandType), Then(NeedAtMost(2, UnexpectedToken), Done))))

  /** A block holds 1 to 65535 words. */
  const BlkwSig: Signature := Signature(2,
    Then(NeedNumber(1), Then(NeedInRange(1, 1, 0xFFFF, InvalidBlkwCount), Then(NeedAtMost(2, UnexpectedToken), Done))))

  const StringzSig: Signature := Signature(2, Then(NeedString(1), Then(NeedAtMost(2, UnexpectedToken), Done)))

  /** The operand signature of every opcode and directive. */
  function SignatureOf(k: TokenKind): Signature
    requires IsInstructionOrDirective(k)
  {
    match k
    case OpAdd => RegRegOrImmSig
    case OpAnd => RegRegOrImmSig
    case OpNot => NotSig
    case OpBr(_) => SingleLabelSig
    case OpLd => RegLabelSig
    case OpLdi => RegLabelSig
    case OpLea => RegLabelSig
    case OpSt => RegLabelSig
    case OpSti => RegLabelSig
    case OpLdr => RegRegImmSig
    case OpStr => RegRegImmSig
    case OpJmp => SingleRegSig
    case OpJsrr => SingleRegSig
    case OpJsr => SingleLabelSig
    case OpTrap => TrapSig
    case DirOrig => OrigSig
    case DirFill => FillSig
    case DirBlkw => BlkwSig
    case DirStringz => StringzSig
    // RTI, RET, the trap aliases and .END
    case _ => NoOperandsSig
  }

  /** The content constructor each opcode or directive yields. */
  predicate Produces(k: TokenKind, c: LineContent) {
    match c
    case Empty => false
    case Orig(_) => k.DirOrig?
    case End => k.DirEnd?
    case FillImmediate(_) => k.DirFill?
    case FillLabel(_) => k.DirFill?
    case Blkw(_) => k.DirBlkw?
    case Stringz(_) => k.DirStringz?
    case Instr(i) =>
      match i
      case AddReg(_, _, _) => k.OpAdd?
      case AddImm(_, _, _) => k.OpAdd?
      case AndReg(_, _, _) => k.OpAnd?
      case AndImm(_, _, _) => k.OpAnd?
      case Not(_, _) => k.OpNot?
      case Ld(_, _) => k.OpLd?
      case Ldi(_, _) => k.OpLdi?
      case Ldr(_, _, _) => k.OpLdr?
      case Lea(_, _) => k.OpLea?
      case St(_, _) => k.OpSt?
      case Sti(_, _) => k.OpSti?
      case Str(_, _, _) => k.OpStr?
      case Br(f, _) => k == OpBr(f)
      case Jmp(_) => k.OpJmp?
      case Jsr(_) => k.OpJsr?
      case Jsrr(_) => k.OpJsrr?
      case Ret => k.PseudoRet?
      case Rti => k.OpRti?
      case Trap(_) => k.OpTrap?
      case Getc => k.PseudoGetc?
      case Out => k.PseudoOut?
      case Puts => k.PseudoPuts?
      case In => k.PseudoIn?
      case Putsp => k.PseudoPutsp?
      case Halt => k.PseudoHalt?
  }

  // ---------------------------------------------------------------------------
  // Hand-written forms
  // ---------------------------------------------------------------------------

  /** `parse_not`. */
  function ParseNot(tokens: seq<Token>): (r: Result<LineContent>)
    requires |tokens| > 0
    ensures r.Ok? ==> |tokens| == 4 && tokens[1].kind.Register? && tokens[3].kind.Register?
    ensures r.Ok? ==> r.value == Instr(Not(tokens[1].kind.reg, tokens[3].kind.reg))
  {
    if |tokens| < 4 then Err(NewError(TooFewOperands, tokens[0].pos))
    else if ExpectComma(tokens, 2).Some? then Err(ExpectComma(tokens, 2).value)
    else match ExpectRegister(tokens, 1)
      case Err(e) => Err(e)
      case Ok(dr) =>
        match ExpectRegister(tokens, 3)
        case Err(e) => Err(e)
        case Ok(sr) =>
          if EnsureNoExtra(tokens, 4).Some? then Err(EnsureNoExtra(tokens, 4).value)
          else Ok(Instr(Not(dr, sr)))
  }

  /** `parse_br`: the flags come from the opcode token. */
  function ParseBr(tokens: seq<Token>, flags: BrFlags): (r: Result<LineContent>)
    requires |tokens| > 0
    ensures r.Ok? ==> |tokens| == 2 && tokens[1].kind.Label?
    ensures r.Ok? ==> r.value == Instr(Br(flags, tokens[1].kind.name))
  {
    if |tokens| < 2 then Err(NewError(TooFewOperands, tokens[0].pos))
    else match ExpectLabel(tokens, 1)
      case Err(e) => Err(e)
      case Ok(name) =>
        if EnsureNoExtra(tokens, 2).Some? then Err(EnsureNoExtra(tokens, 2).value)
        else Ok(Instr(Br(flags, name)))
  }

  /** `parse_trap`: a vector outside 0..255 is refused rather than truncated. */
  function ParseTrap(tokens: seq<Token>): (r: Result<LineContent>)
    requires |tokens| > 0
    ensures r.Ok? ==> |tokens| == 2 && IsNumber(tokens[1].kind) && 0 <= tokens[1].kind.value <= 0xFF
    ensures r.Ok? ==> r.value == Instr(Trap(tokens[1].kind.value))
  {
    if |tokens| < 2 then Err(NewError(TooFewOperands, tokens[0].pos))
    else match TokenToI32(tokens[1])
      case None => Err(NewError(InvalidOperandType, tokens[1].pos))
      case Some(v) =>
        if !(0 <= v <= 0xFF) then Err(NewError(InvalidOperandType, tokens[1].pos))
        else if EnsureNoExtra(tokens, 2).Some? then Err(EnsureNoExtra(tokens, 2).value)
        else Ok(Instr(Trap(v)))
  }

  /** `parse_orig`: a negative value is read as its 16-bit two's complement. */
  function ParseOrig(tokens: seq<Token>): (r: Result<LineContent>)
    requires |tokens| > 0
    ensures r.Ok? ==> |tokens| == 2 && IsNumber(tokens[1].kind) && -0x8000 <= tokens[1].kind.value <= 0xFFFF
    ensures r.Ok? ==> r.value.Orig? && Congruent16(r.value.addr, tokens[1].kind.value)
  {
    if |tokens| < 2 then Err(NewError(TooFewOperands, tokens[0].pos))
    else match TokenToI32(tokens[1])
      case None => Err(NewError(InvalidOperandType, tokens[1].pos))
      case Some(v) =>
        if !(-0x8000 <= v <= 0xFFFF) then Err(NewError(InvalidOrigAddress, tokens[1].pos))
        else if EnsureNoExtra(tokens, 2).Some? then Err(EnsureNoExtra(tokens, 2).value)
        else Ok(Orig(AsU16(v)))
  }

  /** `parse_end`. */
  function ParseEnd(tokens: seq<Token>): (r: Result<LineContent>)
    requires |tokens| > 0
    ensures r.Ok? ==> |tokens| == 1 && r.value == End
  {
    if |tokens| > 1 then Err(NewError(TooManyOperands, tokens[1].pos)) else Ok(End)
  }

  /** `parse_fill`: a number (kept as written, range-checked) or a label. */
  function ParseFill(tokens: seq<Token>): (r: Result<LineContent>)
    requires |tokens| > 0
    ensures r.Ok? ==> |tokens| == 2
    ensures r.Ok? && IsNumber(tokens[1].kind) ==>
      -0x8000 <= tokens[1].kind.value <= 0xFFFF && r.value == FillImmediate(tokens[1].kind.value)
    ensures r.Ok? && !IsNumber(tokens[1].kind) ==>
      tokens[1].kind.Label? && r.value == FillLabel(tokens[1].kind.name)
  {
    if |tokens| < 2 then Err(NewError(TooFewOperands, tokens[0].pos))
    else if TokenToI32(tokens[1]).Some? then
      var v := TokenToI32(tokens[1]).value;
      if !(-0x8000 <= v <= 0xFFFF) then Err(NewError(InvalidOperandType, tokens[1].pos))
      else if EnsureNoExtra(tokens, 2).Some? then Err(EnsureNoExtra(tokens, 2).value)
      else Ok(FillImmediate(v))
    else if TokenToLabel(tokens[1]).Some? then
      if EnsureNoExtra(tokens, 2).Some? then Err(EnsureNoExtra(tokens, 2).value)
      else Ok(FillLabel(TokenToLabel(tokens[1]).value))
    else Err(NewError(InvalidOperandType, tokens[1].pos))
  }

  /** `parse_blkw`: counts outside 1..65535 are refused. */
  function ParseBlkw(tokens: seq<Token>): (r: Result<LineContent>)
    requires |tokens| > 0
    ensures r.Ok? ==> |tokens| == 2 && IsNumber(tokens[1].kind) && 1 <= tokens[1].kind.value <= 0xFFFF
    ensures r.Ok? ==> r.value == Blkw(tokens[1].kind.value)
  {
    if |tokens| < 2 then Err(NewError(TooFewOperands, tokens[0].pos))
    else match TokenToI32(tokens[1])
      case None => Err(NewError(InvalidOperandType, tokens[1].pos))
      case Some(v) =>
        if v <= 0 || v > 0xFFFF then Err(NewError(InvalidBlkwCount, tokens[1].pos))
        else if EnsureNoExtra(tokens, 2).Some? then Err(EnsureNoExtra(tokens, 2).value)
        else Ok(Blkw(v))
  }

  /** `parse_stringz`. */
  function ParseStringz(tokens: seq<Token>): (r: Result<LineContent>)
    requires |tokens| > 0
    ensures r.Ok? ==> |tokens| == 2 && tokens[1].kind.StringLiteral?
    ensures r.Ok? ==> r.value == Stringz(tokens[1].kind.text)
  {
    if |tokens| < 2 then Err(NewError(TooFewOperands, tokens[0].pos))
    else match tokens[1].kind
      case StringLiteral(s) =>
        if EnsureNoExtra(tokens, 2).Some? then Err(EnsureNoExtra(tokens, 2).value)
        else Ok(Stringz(s))
      case _ => Err(NewError(InvalidOperandType, tokens[1].pos))
  }

  /** `parse_content`: dispatch on the first token. */
  function ParseContent(tokens: seq<Token>): (r: Result<LineContent>)
    requires |tokens| > 0
    ensures !IsInstructionOrDirective(tokens[0].kind) ==> r == Err(NewError(UnexpectedToken, tokens[0].pos))
    ensures r.Ok? ==> Produces(tokens[0].kind, r.value)
  {
    match tokens[0].kind
    case OpAdd => RegRegOrImm(tokens, AddOp)
    case OpAnd => RegRegOrImm(tokens, AndOp)
    case OpNot => ParseNot(tokens)
    case OpBr(flags) => ParseBr(tokens, flags)
    case OpLd => RegLabel(tokens, LdOp)
    case OpLdi => RegLabel(tokens, LdiOp)
    case OpLea => RegLabel(tokens, LeaOp)
    case OpSt => RegLabel(tokens, StOp)
    case OpSti => RegLabel(tokens, StiOp)
    case OpLdr => RegRegImm(tokens, LdrOp)
    case OpStr => RegRegImm(tokens, StrOp)
    case OpJmp => SingleReg(tokens, JmpOp)
    case OpJsr => SingleLabel(tokens)
    case OpJsrr => SingleReg(tokens, JsrrOp)
    case OpTrap => ParseTrap(tokens)
    case OpRti => NoOperands(tokens, Rti)
    case PseudoRet => NoOperands(tokens, Ret)
    case PseudoGetc => NoOperands(tokens, Getc)
    case PseudoOut => NoOperands(tokens, Out)
    case PseudoPuts => NoOperands(tokens, Puts)
    case PseudoIn => NoOperands(tokens, In)
    case PseudoPutsp => NoOperands(tokens, Putsp)
    case PseudoHalt => NoOperands(tokens, Halt)
    case DirOrig => ParseOrig(tokens)
    case DirEnd => ParseEnd(tokens)
    case DirFill => ParseFill(tokens)
    case DirBlkw => ParseBlkw(tokens)
    case DirStringz => ParseStringz(tokens)
    case _ => Err(NewError(UnexpectedToken, tokens[0].pos))
  }

  // ---------------------------------------------------------------------------
  // Every form agrees with its signature
  // ---------------------------------------------------------------------------

  lemma NotJudged(tokens: seq<Token>)
    requires |tokens| > 0
    ensures Judged(tokens, NotSig, ParseNot(tokens))
  {
    var cs := NotSig.checks;
    Step(tokens, cs);
    Step(tokens, cs.rest);
    Step(tokens, cs.rest.rest);
    Step(tokens, cs.rest.rest.rest);
    Step(tokens, cs.rest.rest.rest.rest);
  }

  /** The three-check directive signatures (number/label, range, nothing more) unfold alike. */
  lemma Steps3(tokens: seq<Token>, sig: Signature)
    requires |tokens| > 0
    requires sig.checks.Then? && sig.checks.rest.Then? && sig.checks.rest.rest.Then?
    requires sig.checks.rest.rest.rest == Done
    ensures FirstFailure(tokens, sig.checks) ==
      if CheckError(tokens, sig.checks.check).Some? then CheckError(tokens, sig.checks.check)
      else if CheckError(tokens, sig.checks.rest.check).Some? then CheckError(tokens, sig.checks.rest.check)
      else CheckError(tokens, sig.checks.rest.rest.check)
  {
    var cs := sig.checks;
    Step(tokens, cs);
    Step(tokens, cs.rest);
    Step(tokens, cs.rest.rest);
    Step(tokens, cs.rest.rest.rest);
  }

  lemma TrapJudged(tokens: seq<Token>)
    requires |tokens| > 0
    ensures Judged(tokens, TrapSig, ParseTrap(tokens))
  {
    Steps3(tokens, TrapSig);
  }

  lemma OrigJudged(tokens: seq<Token>)
    requires |tokens| > 0
    ensures Judged(tokens, OrigSig, ParseOrig(tokens))
  {
    Steps3(tokens, OrigSig);
  }

  lemma FillJudged(tokens: seq<Token>)
    requires |tokens| > 0
    ensures Judged(tokens, FillSig, ParseFill(tokens))
  {
    Steps3(tokens, FillSig);
  }

  lemma BlkwJudged(tokens: seq<Token>)
    requires |tokens| > 0
    ensures Judged(tokens, BlkwSig, ParseBlkw(tokens))
  {
    Steps3(tokens, BlkwSig);
  }

  lemma StringzJudged(tokens: seq<Token>)
    requires |tokens| > 0
    ensures Judged(tokens, StringzSig, ParseStringz(tokens))
  {
    var cs := StringzSig.checks;
    Step(tokens, cs);
    Step(tokens, cs.rest);
    Step(tokens, cs.rest.rest);
  }

  /**
   * A line starting with an opcode or directive is rejected exactly when that
   * opcode's operand signature rejects it, and with the signature's error.
   */
  lemma ParseContentJudged(tokens: seq<Token>)
    requires |tokens| > 0 && IsInstructionOrDirective(tokens[0].kind)
    ensures Judged(tokens, SignatureOf(tokens[0].kind), ParseContent(tokens))
  {
    match tokens[0].kind
    case OpAdd => RegRegOrImmJudged(tokens, AddOp);
    case OpAnd => RegRegOrImmJudged(tokens, AndOp);
    case OpNot => NotJudged(tokens);
    case OpBr(flags) =>
      var cs := SingleLabelSig.checks;
      Step(tokens, cs);
      Step(tokens, cs.rest);
      Step(tokens, cs.rest.rest);
    case OpLd => RegLabelJudged(tokens, LdOp);
    case OpLdi => RegLabelJudged(tokens, LdiOp);
    case OpLea => RegLabelJudged(tokens, LeaOp);
    case OpSt => RegLabelJudged(tokens, StOp);
    case OpSti => RegLabelJudged(tokens, StiOp);
    case OpLdr => RegRegImmJudged(tokens, LdrOp);
    case OpStr => RegRegImmJudged(tokens, StrOp);
    case OpJmp => SingleRegJudged(tokens, JmpOp);
    case OpJsr => SingleLabelJudged(tokens);
    case OpJsrr => SingleRegJudged(tokens, JsrrOp);
    case OpTrap => TrapJudged(tokens);
    case OpRti => NoOperandsJudged(tokens, Rti);
    case PseudoRet => NoOperandsJudged(tokens, Ret);
    case PseudoGetc => NoOperandsJudged(tokens, Getc);
    case PseudoOut => NoOperandsJudged(tokens, Out);
    case PseudoPuts => NoOperandsJudged(tokens, Puts);
    case PseudoIn => NoOperandsJudged(tokens, In);
    case PseudoPutsp => NoOperandsJudged(tokens, Putsp);
    case PseudoHalt => NoOperandsJudged(tokens, Halt);
    case DirOrig => OrigJudged(tokens);
    case DirEnd =>
      var cs := NoOperandsSig.checks;
      Step(tokens, cs);
      Step(tokens, cs.rest);
    case DirFill => FillJudged(tokens);
    case DirBlkw => BlkwJudged(tokens);
    case DirStringz => StringzJudged(tokens);
  }

  // ---------------------------------------------------------------------------
  // Rendering content back to tokens: the parser's inverse
  // ---------------------------------------------------------------------------

  /** Content the parser can yield: never `Empty`, and numeric operands within the parser's ranges. */
  predicate Parsable(c: LineContent) {
    match c
    case Empty => false
    case FillImmediate(v) => -0x8000 <= v <= 0xFFFF
    case Blkw(n) => n >= 1
    case _ => true
  }

  /** The canonical token kinds of an instruction; numbers are written in decimal. */
  function InstrKinds(i: Instruction): seq<TokenKind> {
    match i
    case AddReg(d, s1, s2) => [OpAdd, Register(d), Comma, Register(s1), Comma, Register(s2)]
    case AddImm(d, s1, imm) => [OpAdd, Register(d), Comma, Register(s1), Comma, NumDecimal(imm)]
    case AndReg(d, s1, s2) => [OpAnd, Register(d), Comma, Register(s1), Comma, Register(s2)]
    case AndImm(d, s1, imm) => [OpAnd, Register(d), Comma, Register(s1), Comma, NumDecimal(imm)]
    case Not(d, s) => [OpNot, Register(d), Comma, Register(s)]
    case Ld(d, l) => [OpLd, Register(d), Comma, Label(l)]
    case Ldi(d, l) => [OpLdi, Register(d), Comma, Label(l)]
    case Ldr(d, b, off) => [OpLdr, Register(d), Comma, Register(b), Comma, NumDecimal(off)]
    case Lea(d, l) => [OpLea, Register(d), Comma, Label(l)]
    case St(s, l) => [OpSt, Register(s), Comma, Label(l)]
    case Sti(s, l) => [OpSti, Register(s), Comma, Label(l)]
    case Str(s, b, off) => [OpStr, Register(s), Comma, Register(b), Comma, NumDecimal(off)]
    case Br(f, l) => [OpBr(f), Label(l)]
    case Jmp(b) => [OpJmp, Register(b)]
    case Jsr(l) => [OpJsr, Label(l)]
    case Jsrr(b) => [OpJsrr, Register(b)]
    case Ret => [PseudoRet]
    case Rti => [OpRti]
    case Trap(v) => [OpTrap, NumDecimal(v)]
    case Getc => [PseudoGetc]
    case Out => [PseudoOut]
    case Puts => [PseudoPuts]
    case In => [PseudoIn]
    case Putsp => [PseudoPutsp]
    case Halt => [PseudoHalt]
  }

  /** The canonical token kinds of a line's content; `Empty` has none. */
  function ContentKinds(c: LineContent): seq<TokenKind> {
    match c
    case Empty => []
    case Orig(a) => [DirOrig, NumDecimal(a)]
    case End => [DirEnd]
    case FillImmediate(v) => [DirFill, NumDecimal(v)]
    case FillLabel(l) => [DirFill, Label(l)]
    case Blkw(n) => [DirBlkw, NumDecimal(n)]
    case Stringz(s) => [DirStringz, StringLiteral(s)]
    case Instr(i) => InstrKinds(i)
  }

  /** Tokens of the given kinds, all placed at `at`. */
  function Place(ks: seq<TokenKind>, at: Position): (r: seq<Token>)
    ensures |r| == |ks|
    ensures forall i :: 0 <= i < |ks| ==> r[i] == Token(ks[i], at)
  {
    seq(|ks|, i requires 0 <= i < |ks| => Token(ks[i], at))
  }

  function Render(c: LineContent, at: Position): seq<Token> {
    Place(ContentKinds(c), at)
  }

  /** Parsing the rendering of an instruction gives the instruction back. */
  lemma InstrRoundTrip(i: Instruction, at: Position)
    ensures ParseContent(Render(Instr(i), at)) == Ok(Instr(i))
  {
    if i.AddReg? || i.AddImm? || i.AndReg? || i.AndImm? || i.Not? {
      OperateRoundTrip(i, at);
    } else if i.Ld? || i.Ldi? || i.Ldr? || i.Lea? || i.St? || i.Sti? || i.Str? {
      MemoryRoundTrip(i, at);
    } else if i.Br? || i.Jmp? || i.Jsr? || i.Jsrr? || i.Ret? || i.Rti? {
      ControlRoundTrip(i, at);
    } else {
      TrapRoundTrip(i, at);
    }
  }

  lemma OperateRoundTrip(i: Instruction, at: Position)
    requires i.AddReg? || i.AddImm? || i.AndReg? || i.AndImm? || i.Not?
    ensures ParseContent(Render(Instr(i), at)) == Ok(Instr(i))
  {
    var ts := Render(Instr(i), at);
    match i
    case AddImm(d, s1, imm) =>
      assert ts[5].kind.value == imm;
    case AndImm(d, s1, imm) =>
      assert ts[5].kind.value == imm;
    case _ =>
  }

  lemma MemoryRoundTrip(i: Instruction, at: Position)
    requires i.Ld? || i.Ldi? || i.Ldr? || i.Lea? || i.St? || i.Sti? || i.Str?
    ensures ParseContent(Render(Instr(i), at)) == Ok(Instr(i))
  {
    var ts := Render(Instr(i), at);
    match i
    case Ldr(d, b, off) =>
      assert ts[5].kind.value == off;
    case Str(s, b, off) =>
      assert ts[5].kind.value == off;
    case _ =>
  }

  lemma ControlRoundTrip(i: Instruction, at: Position)
    requires i.Br? || i.Jmp? || i.Jsr? || i.Jsrr? || i.Ret? || i.Rti?
    ensures ParseContent(Render(Instr(i), at)) == Ok(Instr(i))
  {
  }

  lemma TrapRoundTrip(i: Instruction, at: Position)
    requires i.Trap? || i.Getc? || i.Out? || i.Puts? || i.In? || i.Putsp? || i.Halt?
    ensures ParseContent(Render(Instr(i), at)) == Ok(Instr(i))
  {
  }

  /** Parsing the rendering of any parsable content gives that content back. */
  lemma ContentRoundTrip(c: LineContent, at: Position)
    requires Parsable(c)
    ensures ParseContent(Render(c, at)) == Ok(c)
  {
    if c.Instr? {
      InstrRoundTrip(c.instr, at);
    } else if c.Orig? {
      assert AsU16(c.addr) == c.addr;
    }
  }

  /** Two token kinds agree up to the radix and 16-bit representation of a number. */
  predicate Similar(a: TokenKind, b: TokenKind) {
    a == b || (IsNumber(a) && IsNumber(b) && Congruent16(a.value, b.value))
  }

  /**
   * The converse: whatever the parser accepts is parsable content whose rendering
   * matches the input token for token, numbers up to radix and 16-bit representation.
   */
  lemma ParsedMatchesRendering(tokens: seq<Token>)
    requires |tokens| > 0 && ParseContent(tokens).Ok?
    ensures Parsable(ParseContent(tokens).value)
    ensures |ContentKinds(ParseContent(tokens).value)| == |tokens|
    ensures forall j :: 0 <= j < |tokens| ==> Similar(tokens[j].kind, ContentKinds(ParseContent(tokens).value)[j])
  {
    var c := ParseContent(tokens).value;
    var ks := ContentKinds(c);
    match tokens[0].kind
    case OpTrap =>
      assert tokens[1].kind.value == ks[1].value;
    case DirOrig =>
      assert Congruent16(tokens[1].kind.value, ks[1].value);
    case DirFill =>
      if IsNumber(tokens[1].kind) {
        assert tokens[1].kind.value == ks[1].value;
      }
    case DirBlkw =>
      assert tokens[1].kind.value == ks[1].value;
    case _ =>
  }

  // ---------------------------------------------------------------------------
  // Lines
  // ---------------------------------------------------------------------------

  /** `line_span` reduced to its start: the first token's position, or column 1 of an empty line. */
  function LineStart(tokens: seq<Token>, lineNumber: nat): Position {
    if |tokens| > 0 then tokens[0].pos else Position(lineNumber, 1)
  }

  /** The index of the first comment token, or the length when there is none. */
  function CodeEnd(tokens: seq<Token>): (r: nat)
    ensures r <= |tokens|
    ensures forall i :: 0 <= i < r ==> !tokens[i].kind.Comment?
    ensures r < |tokens| ==> tokens[r].kind.Comment?
  {
    if |tokens| == 0 || tokens[0].kind.Comment? then 0 else 1 + CodeEnd(tokens[1..])
  }

  /** The tokens of a line before its comment. */
  function Code(tokens: seq<Token>): seq<Token> {
    tokens[..CodeEnd(tokens)]
  }

  /** Parse a line's content after its label; a failure leaves the content empty and reports the error. */
  function ContentLine(labelName: Option<string>, tokens: seq<Token>, lineNumber: nat, pos: Position): (r: (SourceLine, Option<AsmError>))
    requires |tokens| > 0
  {
    match ParseContent(tokens)
    case Ok(c) => (SourceLine(labelName, c, lineNumber, pos), None)
    case Err(e) => (SourceLine(labelName, Empty, lineNumber, pos), Some(e))
  }

  /**
   * `process_line`: one line's tokens (without its terminating newline) become a
   * source line and at most one error.
   */
  function ProcessLine(tokens: seq<Token>, lineNumber: nat): (r: (SourceLine, Option<AsmError>))
    ensures r.0.lineNumber == lineNumber && r.0.pos == LineStart(tokens, lineNumber)
    ensures r.1.Some? ==> r.0.content == Empty
    ensures r.0.labelName.Some? <==> |Code(tokens)| > 0 && Code(tokens)[0].kind.Label?
    ensures r.0.labelName.Some? ==> r.0.labelName.value == Code(tokens)[0].kind.name
    ensures r.0.content != Empty ==> Parsable(r.0.content)
    ensures |Code(tokens)| == 0 ==> r.0.content == Empty && r.1.None?
    // a line opening with anything but a label, an instruction or a directive is rejected
    ensures |Code(tokens)| > 0 && !Code(tokens)[0].kind.Label? && !IsInstructionOrDirective(Code(tokens)[0].kind) ==>
      r == (SourceLine(None, Empty, lineNumber, LineStart(tokens, lineNumber)), Some(NewError(UnexpectedToken, Code(tokens)[0].pos)))
    // a label not followed by an instruction or directive stands alone, whatever follows it
    ensures |Code(tokens)| > 0 && Code(tokens)[0].kind.Label? && !(|Code(tokens)| > 1 && IsInstructionOrDirective(Code(tokens)[1].kind)) ==>
      r.0.content == Empty && r.1.None?
    // otherwise the content is parsed from the tokens after the label
    ensures |Code(tokens)| > 1 && Code(tokens)[0].kind.Label? && IsInstructionOrDirective(Code(tokens)[1].kind) ==>
      ParsedFrom(r, Code(tokens)[1..])
    ensures |Code(tokens)| > 0 && IsInstructionOrDirective(Code(tokens)[0].kind) ==> ParsedFrom(r, Code(tokens))
  {
    var pos := LineStart(tokens, lineNumber);
    var code := Code(tokens);
    if |code| == 0 then (SourceLine(None, Empty, lineNumber, pos), None)
    else if code[0].kind.Label? then
      var name := Some(code[0].kind.name);
      if |code| > 1 && IsInstructionOrDirective(code[1].kind) then
        var r := ContentLine(name, code[1..], lineNumber, pos);
        ParsedContentParsable(code[1..]);
        r
      else (SourceLine(name, Empty, lineNumber, pos), None)
    else if IsInstructionOrDirective(code[0].kind) then
      var r := ContentLine(None, code, lineNumber, pos);
      ParsedContentParsable(code);
      r
    else (SourceLine(None, Empty, lineNumber, pos), Some(NewError(UnexpectedToken, code[0].pos)))
  }

  /** The line holds what the content parser makes of `tokens`, or is empty and carries its error. */
  predicate ParsedFrom(r: (SourceLine, Option<AsmError>), tokens: seq<Token>)
    requires |tokens| > 0
  {
    match ParseContent(tokens)
    case Ok(c) => r.0.content == c && r.1.None?
    case Err(e) => r.0.content == Empty && r.1 == Some(e)
  }

  lemma ParsedContentParsable(tokens: seq<Token>)
    requires |tokens| > 0
    ensures ParseContent(tokens).Ok? ==> Parsable(ParseContent(tokens).value)
  {
    if ParseContent(tokens).Ok? {
      ParsedMatchesRendering(tokens);
    }
  }

  /** A written line: optional label, content, optional trailing comment, all at one position. */
  datatype Written = Written(labelName: Option<string>, content: LineContent, comment: Option<string>, at: Position)

  function WriteLine(w: Written): seq<Token> {
    (if w.labelName.Some? then [Token(Label(w.labelName.value), w.at)] else [])
    + Render(w.content, w.at)
    + (if w.comment.Some? then [Token(Comment(w.comment.value), w.at)] else [])
  }

  /** What a line may hold for the parser to reproduce it. */
  predicate Writable(w: Written) {
    w.content == Empty || Parsable(w.content)
  }

  /** The code of a line is everything before a trailing comment. */
  lemma {:induction false} CodeEndAppend(code: seq<Token>, tail: seq<Token>)
    requires forall i :: 0 <= i < |code| ==> !code[i].kind.Comment?
    requires |tail| == 0 || tail[0].kind.Comment?
    ensures CodeEnd(code + tail) == |code|
    decreases |code|
  {
    if |code| > 0 {
      assert (code + tail)[1..] == code[1..] + tail;
      CodeEndAppend(code[1..], tail);
    } else {
      assert code + tail == tail;
    }
  }

  /** Rendered content holds no comment, newline or end marker. */
  lemma ContentKindsPlain(c: LineContent)
    ensures forall i :: 0 <= i < |ContentKinds(c)| ==>
      !ContentKinds(c)[i].Comment? && !IsBreak(ContentKinds(c)[i])
  {
    if c.Instr? {
      var ks := InstrKinds(c.instr);
      assert forall i :: 0 <= i < |ks| ==> !ks[i].Comment? && !IsBreak(ks[i]);
    }
  }

  /** The code of a written line is its label and content tokens. */
  lemma WrittenCode(w: Written)
    ensures Code(WriteLine(w)) ==
      (if w.labelName.Some? then [Token(Label(w.labelName.value), w.at)] else []) + Render(w.content, w.at)
  {
    var code := (if w.labelName.Some? then [Token(Label(w.labelName.value), w.at)] else []) + Render(w.content, w.at);
    var tail := if w.comment.Some? then [Token(Comment(w.comment.value), w.at)] else [];
    ContentKindsPlain(w.content);
    assert forall i :: 0 <= i < |code| ==> !code[i].kind.Comment?;
    CodeEndAppend(code, tail);
    assert WriteLine(w) == code + tail;
    assert (code + tail)[..|code|] == code;
  }

  /** A line whose code is an optional label and content that parses is recorded with both. */
  lemma ProcessParsedLine(tokens: seq<Token>, lineNumber: nat, labelName: Option<string>, body: seq<Token>, c: LineContent)
    requires |body| > 0 && ParseContent(body) == Ok(c)
    requires Code(tokens) == (if labelName.Some? then [Token(Label(labelName.value), body[0].pos)] else []) + body
    ensures ProcessLine(tokens, lineNumber) == (SourceLine(labelName, c, lineNumber, LineStart(tokens, lineNumber)), None)
  {
    assert IsInstructionOrDirective(body[0].kind);
    if labelName.Some? {
      assert Code(tokens)[1..] == body;
    } else {
      assert Code(tokens) == body;
    }
  }

  /** Processing a written line yields exactly its label and content, with no error. */
  lemma LineRoundTrip(w: Written, lineNumber: nat)
    requires Writable(w)
    ensures ProcessLine(WriteLine(w), lineNumber) ==
      (SourceLine(w.labelName, w.content, lineNumber, LineStart(WriteLine(w), lineNumber)), None)
  {
    WrittenCode(w);
    if w.content != Empty {
      ContentRoundTrip(w.content, w.at);
      ProcessParsedLine(WriteLine(w), lineNumber, w.labelName, Render(w.content, w.at), w.content);
    } else {
      assert Render(w.content, w.at) == [];
    }
  }

  // ---------------------------------------------------------------------------
  // The token stream
  // ---------------------------------------------------------------------------

  datatype ParseResult = ParseResult(lines: seq<SourceLine>, errors: seq<AsmError>)

  /** A newline or the end marker: the tokens that close a line. */
  predicate IsBreak(k: TokenKind) {
    k.Newline? || k.Eof?
  }

  /** The lines a token stream splits into: one per newline before the end marker, and the one the marker closes. */
  function LineCount(tokens: seq<Token>): nat {
    if |tokens| == 0 then 0
    else if tokens[0].kind.Eof? then 1
    else (if tokens[0].kind.Newline? then 1 else 0) + LineCount(tokens[1..])
  }

  function ErrorList(e: Option<AsmError>): (r: seq<AsmError>)
    ensures |r| <= 1
  {
    if e.Some? then [e.value] else []
  }

  /** Lines are numbered from 1 in order. */
  ghost predicate Numbered(lines: seq<SourceLine>) {
    forall k :: 0 <= k < |lines| ==> lines[k].lineNumber == k + 1
  }

  /**
   * The loop of `parse_lines` from token `i`, the current line having started at
   * `start`; `lines` and `errors` are what earlier lines produced. Tokens after the
   * end marker are never looked at.
   */
  function ParseFrom(tokens: seq<Token>, i: nat, start: nat, lineNumber: nat,
                     lines: seq<SourceLine>, errors: seq<AsmError>): (r: ParseResult)
    requires start <= i <= |tokens|
    requires lineNumber == |lines| + 1 && Numbered(lines) && |errors| <= |lines|
    ensures |r.lines| >= |lines|
    ensures Numbered(r.lines) && |r.errors| <= |r.lines|
    ensures r.lines[..|lines|] == lines && |r.errors| >= |errors| && r.errors[..|errors|] == errors
    decreases |tokens| - i
  {
    if i == |tokens| then ParseResult(lines, errors)
    else
      var k := tokens[i].kind;
      if k.Newline? || k.Eof? then
        var (line, err) := ProcessLine(tokens[start..i], lineNumber);
        var lines' := lines + [line];
        var errors' := errors + ErrorList(err);
        assert lines'[..|lines|] == lines && errors'[..|errors|] == errors;
        if k.Eof? then ParseResult(lines', errors')
        else
          var r := ParseFrom(tokens, i + 1, i + 1, lineNumber + 1, lines', errors');
          assert r.lines[..|lines|] == r.lines[..|lines'|][..|lines|];
          assert r.errors[..|errors|] == r.errors[..|errors'|][..|errors|];
          r
      else ParseFrom(tokens, i + 1, start, lineNumber, lines, errors)
  }

  /** `parse_lines`: one source line per newline, and one more for the line the end marker closes. */
  function ParseLines(tokens: seq<Token>): (r: ParseResult)
    ensures |r.lines| == LineCount(tokens)
    ensures Numbered(r.lines)
    ensures |r.errors| <= |r.lines|
  {
    assert tokens[0..] == tokens;
    ParseFromCount(tokens, 0, 0, 1, [], []);
    ParseFrom(tokens, 0, 0, 1, [], [])
  }

  /** The loop adds one line per newline and one for the end marker. */
  lemma {:induction false} ParseFromCount(tokens: seq<Token>, i: nat, start: nat, lineNumber: nat,
                                          lines: seq<SourceLine>, errors: seq<AsmError>)
    requires start <= i <= |tokens|
    requires lineNumber == |lines| + 1 && Numbered(lines) && |errors| <= |lines|
    ensures |ParseFrom(tokens, i, start, lineNumber, lines, errors).lines| == |lines| + LineCount(tokens[i..])
    decreases |tokens| - i
  {
    if i < |tokens| {
      assert tokens[i..][1..] == tokens[i + 1..];
      var k := tokens[i].kind;
      if k.Newline? {
        var (line, err) := ProcessLine(tokens[start..i], lineNumber);
        ParseFromCount(tokens, i + 1, i + 1, lineNumber + 1, lines + [line], errors + ErrorList(err));
      } else if !k.Eof? {
        ParseFromCount(tokens, i + 1, start, lineNumber, lines, errors);
      }
    }
  }

  /** A whole program: written lines separated by newlines and closed by the end marker. */
  function WriteProgram(ws: seq<Written>, endAt: Position): seq<Token>
    requires |ws| > 0
    decreases |ws|
  {
    if |ws| == 1 then WriteLine(ws[0]) + [Token(Eof, endAt)]
    else WriteLine(ws[0]) + [Token(Newline, ws[0].at)] + WriteProgram(ws[1..], endAt)
  }

  /** The source lines a program's written lines stand for, numbered from `first`. */
  function Expected(ws: seq<Written>, first: nat): (r: seq<SourceLine>)
    ensures |r| == |ws|
  {
    if |ws| == 0 then []
    else [SourceLine(ws[0].labelName, ws[0].content, first, LineStart(WriteLine(ws[0]), first))]
         + Expected(ws[1..], first + 1)
  }

  /** A written line never contains a newline or the end marker. */
  lemma WrittenNoBreaks(w: Written)
    ensures forall i :: 0 <= i < |WriteLine(w)| ==> !IsBreak(WriteLine(w)[i].kind)
  {
    ContentKindsPlain(w.content);
  }

  /** Tokens that do not close a line are passed over. */
  lemma {:induction false} SkipLine(tokens: seq<Token>, i: nat, j: nat, start: nat, lineNumber: nat,
                                    lines: seq<SourceLine>, errors: seq<AsmError>)
    requires start <= i <= j <= |tokens|
    requires lineNumber == |lines| + 1 && Numbered(lines) && |errors| <= |lines|
    requires forall k :: i <= k < j ==> !IsBreak(tokens[k].kind)
    ensures ParseFrom(tokens, i, start, lineNumber, lines, errors) == ParseFrom(tokens, j, start, lineNumber, lines, errors)
    decreases j - i
  {
    if i < j {
      SkipLine(tokens, i + 1, j, start, lineNumber, lines, errors);
    }
  }

  /** How a written program starts: its first line, then the token closing it. */
  lemma ProgramHead(tokens: seq<Token>, o: nat, ws: seq<Written>, endAt: Position)
    requires |ws| > 0
    requires o <= |tokens| && tokens[o..] == WriteProgram(ws, endAt)
    ensures o + |WriteLine(ws[0])| < |tokens|
    ensures tokens[o..o + |WriteLine(ws[0])|] == WriteLine(ws[0])
    ensures |ws| == 1 ==> tokens[o + |WriteLine(ws[0])|].kind.Eof?
    ensures |ws| > 1 ==> tokens[o + |WriteLine(ws[0])|].kind.Newline?
    ensures |ws| > 1 ==> tokens[o + |WriteLine(ws[0])| + 1..] == WriteProgram(ws[1..], endAt)
  {
    var wl := WriteLine(ws[0]);
    var p := WriteProgram(ws, endAt);
    assert p[..|wl|] == wl;
    assert tokens[o..o + |wl|] == p[..|wl|];
    if |ws| > 1 {
      assert p[|wl| + 1..] == WriteProgram(ws[1..], endAt);
      assert tokens[o + |wl| + 1..] == p[|wl| + 1..];
    }
  }

  /** The token closing a line whose tokens process cleanly into `line` records it and moves on. */
  lemma BreakStep(tokens: seq<Token>, start: nat, e: nat, n: nat, lines: seq<SourceLine>, errors: seq<AsmError>, line: SourceLine)
    requires start <= e < |tokens| && IsBreak(tokens[e].kind)
    requires n == |lines| + 1 && Numbered(lines) && |errors| <= |lines|
    requires ProcessLine(tokens[start..e], n) == (line, None)
    ensures tokens[e].kind.Eof? ==> ParseFrom(tokens, e, start, n, lines, errors) == ParseResult(lines + [line], errors)
    ensures tokens[e].kind.Newline? ==> ParseFrom(tokens, e, start, n, lines, errors) == ParseFrom(tokens, e + 1, e + 1, n + 1, lines + [line], errors)
  {
    assert errors + ErrorList(None) == errors;
  }

  /** Reaching the token that closes a written line records that line, without error. */
  lemma CloseLine(tokens: seq<Token>, o: nat, w: Written, e: nat, n: nat, lines: seq<SourceLine>, errors: seq<AsmError>, line: SourceLine)
    requires Writable(w)
    requires e == o + |WriteLine(w)| && e < |tokens| && tokens[o..e] == WriteLine(w)
    requires IsBreak(tokens[e].kind)
    requires n == |lines| + 1 && Numbered(lines) && |errors| <= |lines|
    requires line == SourceLine(w.labelName, w.content, n, LineStart(WriteLine(w), n))
    ensures tokens[e].kind.Eof? ==> ParseFrom(tokens, o, o, n, lines, errors) == ParseResult(lines + [line], errors)
    ensures tokens[e].kind.Newline? ==> ParseFrom(tokens, o, o, n, lines, errors) == ParseFrom(tokens, e + 1, e + 1, n + 1, lines + [line], errors)
  {
    WrittenNoBreaks(w);
    forall k | o <= k < e
      ensures !IsBreak(tokens[k].kind)
    {
      assert tokens[k] == tokens[o..e][k - o] == WriteLine(w)[k - o];
    }
    SkipLine(tokens, o, e, o, n, lines, errors);
    LineRoundTrip(w, n);
    BreakStep(tokens, o, e, n, lines, errors, line);
  }

  /** Parsing a written program from its first token gives back its lines, after those already parsed. */
  lemma {:induction false} ProgramFrom(tokens: seq<Token>, o: nat, ws: seq<Written>, endAt: Position,
                                       n: nat, lines: seq<SourceLine>, errors: seq<AsmError>)
    requires |ws| > 0 && forall k :: 0 <= k < |ws| ==> Writable(ws[k])
    requires o <= |tokens| && tokens[o..] == WriteProgram(ws, endAt)
    requires n == |lines| + 1 && Numbered(lines) && |errors| <= |lines|
    ensures ParseFrom(tokens, o, o, n, lines, errors) == ParseResult(lines + Expected(ws, n), errors)
    decreases |ws|, 1
  {
    if |ws| == 1 {
      var w := ws[0];
      var line := SourceLine(w.labelName, w.content, n, LineStart(WriteLine(w), n));
      ProgramHead(tokens, o, ws, endAt);
      CloseLine(tokens, o, w, o + |WriteLine(w)|, n, lines, errors, line);
      assert Expected(ws, n) == [line] + Expected(ws[1..], n + 1);
      assert Expected(ws[1..], n + 1) == [];
    } else {
      ProgramMore(tokens, o, ws, endAt, n, lines, errors);
    }
  }

  /** A program of several lines: the first is closed by a newline, and the rest parse the same way. */
  lemma {:induction false} ProgramMore(tokens: seq<Token>, o: nat, ws: seq<Written>, endAt: Position,
                                       n: nat, lines: seq<SourceLine>, errors: seq<AsmError>)
    requires |ws| > 1 && forall k :: 0 <= k < |ws| ==> Writable(ws[k])
    requires o <= |tokens| && tokens[o..] == WriteProgram(ws, endAt)
    requires n == |lines| + 1 && Numbered(lines) && |errors| <= |lines|
    ensures ParseFrom(tokens, o, o, n, lines, errors) == ParseResult(lines + Expected(ws, n), errors)
    decreases |ws|, 0
  {
    var w := ws[0];
    var e := o + |WriteLine(w)|;
    var line := SourceLine(w.labelName, w.content, n, LineStart(WriteLine(w), n));
    NextLine(tokens, o, ws, endAt, n, lines, errors, e, line);
    CloseLine(tokens, o, w, e, n, lines, errors, line);
    ProgramFrom(tokens, e + 1, ws[1..], endAt, n + 1, lines + [line], errors);
  }

  /** Where the rest of a program of several lines starts, and what its first line stands for. */
  lemma NextLine(tokens: seq<Token>, o: nat, ws: seq<Written>, endAt: Position, n: nat,
                 lines: seq<SourceLine>, errors: seq<AsmError>, e: nat, line: SourceLine)
    requires |ws| > 1 && forall k :: 0 <= k < |ws| ==> Writable(ws[k])
    requires o <= |tokens| && tokens[o..] == WriteProgram(ws, endAt)
    requires n == |lines| + 1 && Numbered(lines) && |errors| <= |lines|
    requires e == o + |WriteLine(ws[0])|
    requires line == SourceLine(ws[0].labelName, ws[0].content, n, LineStart(WriteLine(ws[0]), n))
    ensures e < |tokens| && tokens[o..e] == WriteLine(ws[0]) && tokens[e].kind.Newline?
    ensures tokens[e + 1..] == WriteProgram(ws[1..], endAt)
    ensures forall k :: 0 <= k < |ws[1..]| ==> Writable(ws[1..][k])
    ensures Numbered(lines + [line]) && |errors| <= |lines + [line]|
    ensures lines + Expected(ws, n) == lines + [line] + Expected(ws[1..], n + 1)
  {
    ProgramHead(tokens, o, ws, endAt);
    ExpectedNext(ws, n, lines, errors, line);
  }

  /** The lines a program of several lines stands for: its first line, then those of the rest. */
  lemma ExpectedNext(ws: seq<Written>, n: nat, lines: seq<SourceLine>, errors: seq<AsmError>, line: SourceLine)
    requires |ws| > 1 && forall k :: 0 <= k < |ws| ==> Writable(ws[k])
    requires n == |lines| + 1 && Numbered(lines) && |errors| <= |lines|
    requires line == SourceLine(ws[0].labelName, ws[0].content, n, LineStart(WriteLine(ws[0]), n))
    ensures forall k :: 0 <= k < |ws[1..]| ==> Writable(ws[1..][k])
    ensures Numbered(lines + [line]) && |errors| <= |lines + [line]|
    ensures lines + Expected(ws, n) == lines + [line] + Expected(ws[1..], n + 1)
  {
    assert Expected(ws, n) == [line] + Expected(ws[1..], n + 1);
  }

  /**
   * Parsing a whole written program gives back its lines, numbered from 1, with
   * their labels and contents, and no errors.
   */
  lemma ProgramRoundTrip(ws: seq<Written>, endAt: Position)
    requires |ws| > 0 && forall k :: 0 <= k < |ws| ==> Writable(ws[k])
    ensures ParseLines(WriteProgram(ws, endAt)) == ParseResult(Expected(ws, 1), [])
  {
    var ts := WriteProgram(ws, endAt);
    assert ts[0..] == ts;
    ProgramFrom(ts, 0, ws, endAt, 1, [], []);
  }
}
