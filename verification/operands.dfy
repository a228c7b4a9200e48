/**
 * The operand-pattern parsers shared by groups of instructions (parser/macros.rs),
 * together with a declarative description of what each pattern demands.
 *
 * A `Signature` lists, in order, the checks a form performs on its tokens (token 0
 * is the opcode). `Rejection` interprets a signature: the error of the first check
 * that fails. Every form parser is proved to fail exactly when its signature
 * rejects the tokens, with exactly that error.
 */
module Operands {
  import opened Common
  import opened Errors
  import opened Tokens
  import opened Ast
  import opened ParseHelpers

  /** One operand check, applied to the token at `idx` (or to the token count). */
  datatype Check =
    | NeedComma(idx: nat)
    | NeedRegister(idx: nat)
    | NeedLabel(idx: nat)
    | NeedNumber(idx: nat)
    | NeedRegisterOrNumber(idx: nat)
    | NeedNumberOrLabel(idx: nat)
    | NeedString(idx: nat)
    /** a numeric operand must lie in lo..hi; non-numeric operands pass */
    | NeedInRange(idx: nat, lo: int, hi: int, kind: ErrorKind)
    /** at most `count` tokens; the first surplus token is reported with `kind` */
    | NeedAtMost(count: nat, kind: ErrorKind)

  datatype Checks = Done | Then(check: Check, rest: Checks)

  /** A form needs at least `minTokens` tokens, then passes `checks` in order. */
  datatype Signature = Signature(minTokens: nat, checks: Checks)

  /** The error one check reports on `tokens`, if it fails. */
  function CheckError(tokens: seq<Token>, c: Check): (r: Option<AsmError>)
    requires |tokens| > 0
  {
    match c
    case NeedComma(i) =>
      if i < |tokens| && tokens[i].kind.Comma? then None
      else Some(NewError(ExpectedComma, OperandPos(tokens, i)))
    case NeedRegister(i) =>
      if i < |tokens| && tokens[i].kind.Register? then None
      else Some(NewError(ExpectedRegister, OperandPos(tokens, i)))
    case NeedLabel(i) =>
      if i < |tokens| && tokens[i].kind.Label? then None
      else Some(NewError(ExpectedOperand, OperandPos(tokens, i)))
    case NeedNumber(i) =>
      if i < |tokens| && IsNumber(tokens[i].kind) then None
      else Some(NewError(InvalidOperandType, OperandPos(tokens, i)))
    case NeedRegisterOrNumber(i) =>
      if i < |tokens| && (tokens[i].kind.Register? || IsNumber(tokens[i].kind)) then None
      else Some(NewError(InvalidOperandType, OperandPos(tokens, i)))
    case NeedNumberOrLabel(i) =>
      if i < |tokens| && (IsNumber(tokens[i].kind) || tokens[i].kind.Label?) then None
      else Some(NewError(InvalidOperandType, OperandPos(tokens, i)))
    case NeedString(i) =>
      if i < |tokens| && tokens[i].kind.StringLiteral? then None
      else Some(NewError(InvalidOperandType, OperandPos(tokens, i)))
    case NeedInRange(i, lo, hi, kind) =>
      if i < |tokens| && IsNumber(tokens[i].kind) && !(lo <= tokens[i].kind.value <= hi)
      then Some(NewError(kind, tokens[i].pos))
      else None
    case NeedAtMost(n, kind) =>
      if |tokens| > n then Some(NewError(kind, tokens[n].pos)) else None
  }

  /** The error of the first failing check, if any. */
  function FirstFailure(tokens: seq<Token>, cs: Checks): Option<AsmError>
    requires |tokens| > 0
  {
    match cs
    case Done => None
    case Then(c, rest) =>
      if CheckError(tokens, c).Some? then CheckError(tokens, c) else FirstFailure(tokens, rest)
  }

  /** How a signature judges a token list: too few tokens first, then the checks in order. */
  function Rejection(tokens: seq<Token>, sig: Signature): Option<AsmError>
    requires |tokens| > 0
  {
    if |tokens| < sig.minTokens then Some(NewError(TooFewOperands, tokens[0].pos))
    else FirstFailure(tokens, sig.checks)
  }

  /** A form parser agrees with its signature: it fails exactly on the signature's first failure. */
  predicate Judged(tokens: seq<Token>, sig: Signature, r: Result<LineContent>)
    requires |tokens| > 0
  {
    && (r.Err? <==> Rejection(tokens, sig).Some?)
    && (r.Err? ==> r.error == Rejection(tokens, sig).value)
  }

  /** ADD, AND: `DR, SR1, SR2` or `DR, SR1, #imm`. */
  const RegRegOrImmSig: Signature := Signature(6,
    Then(NeedComma(2), Then(NeedComma(4), Then(NeedRegister(1), Then(NeedRegister(3),
    Then(NeedRegisterOrNumber(5), Then(NeedAtMost(6, UnexpectedToken), Done)))))))

  /** LD, LDI, LEA, ST, STI: `R, LABEL`. */
  const RegLabelSig: Signature := Signature(4,
    Then(NeedComma(2), Then(NeedRegister(1), Then(NeedLabel(3), Then(NeedAtMost(4, UnexpectedToken), Done)))))

  /** LDR, STR: `R, BaseR, #offset`. */
  const RegRegImmSig: Signature := Signature(6,
    Then(NeedComma(2), Then(NeedComma(4), Then(NeedRegister(1), Then(NeedRegister(3),
    Then(NeedNumber(5), Then(NeedAtMost(6, UnexpectedToken), Done)))))))

  /** JMP, JSRR: `BaseR`. */
  const SingleRegSig: Signature := Signature(2, Then(NeedRegister(1), Then(NeedAtMost(2, UnexpectedToken), Done)))

  /** JSR and BR: `LABEL`. */
  const SingleLabelSig: Signature := Signature(2, Then(NeedLabel(1), Then(NeedAtMost(2, UnexpectedToken), Done)))

  /** RET, RTI, the trap aliases and .END: nothing after the opcode. */
  const NoOperandsSig: Signature := Signature(0, Then(NeedAtMost(1, TooManyOperands), Done))

  /** The instruction groups that share an operand pattern; each member names the instruction it builds. */
  datatype OperateOp = AddOp | AndOp
  datatype RegLabelOp = LdOp | LdiOp | LeaOp | StOp | StiOp
  datatype RegRegImmOp = LdrOp | StrOp
  datatype SingleRegOp = JmpOp | JsrrOp

  function OperateReg(op: OperateOp, d: Reg, s1: Reg, s2: Reg): Instruction {
    match op
    case AddOp => AddReg(d, s1, s2)
    case AndOp => AndReg(d, s1, s2)
  }

  function OperateImm(op: OperateOp, d: Reg, s1: Reg, imm: i16): Instruction {
    match op
    case AddOp => AddImm(d, s1, imm)
    case AndOp => AndImm(d, s1, imm)
  }

  function RegLabelInstr(op: RegLabelOp, r: Reg, l: string): Instruction {
    match op
    case LdOp => Ld(r, l)
    case LdiOp => Ldi(r, l)
    case LeaOp => Lea(r, l)
    case StOp => St(r, l)
    case StiOp => Sti(r, l)
  }

  function RegRegImmInstr(op: RegRegImmOp, r: Reg, b: Reg, off: i16): Instruction {
    match op
    case LdrOp => Ldr(r, b, off)
    case StrOp => Str(r, b, off)
  }

  function SingleRegInstr(op: SingleRegOp, b: Reg): Instruction {
    match op
    case JmpOp => Jmp(b)
    case JsrrOp => Jsrr(b)
  }

  /** `parse_reg_reg_or_imm!`: a register third operand selects the register form, a number the immediate form (cast to i16). */
  function RegRegOrImm(tokens: seq<Token>, op: OperateOp): (r: Result<LineContent>)
    requires |tokens| > 0
    ensures r.Ok? ==> |tokens| == 6 && tokens[1].kind.Register? && tokens[3].kind.Register?
    ensures r.Ok? && tokens[5].kind.Register? ==>
      r.value == Instr(OperateReg(op, tokens[1].kind.reg, tokens[3].kind.reg, tokens[5].kind.reg))
    ensures r.Ok? && !tokens[5].kind.Register? ==>
      IsNumber(tokens[5].kind) &&
      r.value == Instr(OperateImm(op, tokens[1].kind.reg, tokens[3].kind.reg, AsI16(tokens[5].kind.value)))
  {
    if |tokens| < 6 then Err(NewError(TooFewOperands, tokens[0].pos))
    else if ExpectComma(tokens, 2).Some? then Err(ExpectComma(tokens, 2).value)
    else if ExpectComma(tokens, 4).Some? then Err(ExpectComma(tokens, 4).value)
    else match ExpectRegister(tokens, 1)
      case Err(e) => Err(e)
      case Ok(dr) =>
        match ExpectRegister(tokens, 3)
        case Err(e) => Err(e)
        case Ok(sr1) =>
          if TokenToRegister(tokens[5]).Some? then
            if EnsureNoExtra(tokens, 6).Some? then Err(EnsureNoExtra(tokens, 6).value)
            else Ok(Instr(OperateReg(op, dr, sr1, TokenToRegister(tokens[5]).value)))
          else if TokenToI32(tokens[5]).Some? then
            if EnsureNoExtra(tokens, 6).Some? then Err(EnsureNoExtra(tokens, 6).value)
            else Ok(Instr(OperateImm(op, dr, sr1, AsI16(TokenToI32(tokens[5]).value))))
          else Err(NewError(InvalidOperandType, tokens[5].pos))
  }

  /** `parse_reg_label!`. */
  function RegLabel(tokens: seq<Token>, op: RegLabelOp): (r: Result<LineContent>)
    requires |tokens| > 0
    ensures r.Ok? ==> |tokens| == 4 && tokens[1].kind.Register? && tokens[3].kind.Label?
    ensures r.Ok? ==> r.value == Instr(RegLabelInstr(op, tokens[1].kind.reg, tokens[3].kind.name))
  {
    if |tokens| < 4 then Err(NewError(TooFewOperands, tokens[0].pos))
    else if ExpectComma(tokens, 2).Some? then Err(ExpectComma(tokens, 2).value)
    else match ExpectRegister(tokens, 1)
      case Err(e) => Err(e)
      case Ok(reg) =>
        match ExpectLabel(tokens, 3)
        case Err(e) => Err(e)
        case Ok(name) =>
          if EnsureNoExtra(tokens, 4).Some? then Err(EnsureNoExtra(tokens, 4).value)
          else Ok(Instr(RegLabelInstr(op, reg, name)))
  }

  /** `parse_reg_reg_imm!`: the offset is cast to i16. */
  function RegRegImm(tokens: seq<Token>, op: RegRegImmOp): (r: Result<LineContent>)
    requires |tokens| > 0
    ensures r.Ok? ==> |tokens| == 6 && tokens[1].kind.Register? && tokens[3].kind.Register?
    ensures r.Ok? ==>
      IsNumber(tokens[5].kind) &&
      r.value == Instr(RegRegImmInstr(op, tokens[1].kind.reg, tokens[3].kind.reg, AsI16(tokens[5].kind.value)))
  {
    if |tokens| < 6 then Err(NewError(TooFewOperands, tokens[0].pos))
    else if ExpectComma(tokens, 2).Some? then Err(ExpectComma(tokens, 2).value)
    else if ExpectComma(tokens, 4).Some? then Err(ExpectComma(tokens, 4).value)
    else match ExpectRegister(tokens, 1)
      case Err(e) => Err(e)
      case Ok(r1) =>
        match ExpectRegister(tokens, 3)
        case Err(e) => Err(e)
        case Ok(r2) =>
          match TokenToI32(tokens[5])
          case None => Err(NewError(InvalidOperandType, tokens[5].pos))
          case Some(v) =>
            if EnsureNoExtra(tokens, 6).Some? then Err(EnsureNoExtra(tokens, 6).value)
            else Ok(Instr(RegRegImmInstr(op, r1, r2, AsI16(v))))
  }

  /** `parse_single_reg!`. */
  function SingleReg(tokens: seq<Token>, op: SingleRegOp): (r: Result<LineContent>)
    requires |tokens| > 0
    ensures r.Ok? ==> |tokens| == 2 && tokens[1].kind.Register?
    ensures r.Ok? ==> r.value == Instr(SingleRegInstr(op, tokens[1].kind.reg))
  {
    if |tokens| < 2 then Err(NewError(TooFewOperands, tokens[0].pos))
    else match ExpectRegister(tokens, 1)
      case Err(e) => Err(e)
      case Ok(reg) =>
        if EnsureNoExtra(tokens, 2).Some? then Err(EnsureNoExtra(tokens, 2).value)
        else Ok(Instr(SingleRegInstr(op, reg)))
  }

  /** `parse_single_label!`, used by JSR alone. */
  function SingleLabel(tokens: seq<Token>): (r: Result<LineContent>)
    requires |tokens| > 0
    ensures r.Ok? ==> |tokens| == 2 && tokens[1].kind.Label?
    ensures r.Ok? ==> r.value == Instr(Jsr(tokens[1].kind.name))
  {
    if |tokens| < 2 then Err(NewError(TooFewOperands, tokens[0].pos))
    else match ExpectLabel(tokens, 1)
      case Err(e) => Err(e)
      case Ok(name) =>
        if EnsureNoExtra(tokens, 2).Some? then Err(EnsureNoExtra(tokens, 2).value)
        else Ok(Instr(Jsr(name)))
  }

  /** `parse_no_operands!`. */
  function NoOperands(tokens: seq<Token>, i: Instruction): (r: Result<LineContent>)
    requires |tokens| > 0
    ensures r.Ok? ==> |tokens| == 1 && r.value == Instr(i)
  {
    if |tokens| > 1 then Err(NewError(TooManyOperands, tokens[1].pos)) else Ok(Instr(i))
  }

  /** One step of `FirstFailure`: the head check decides, or the rest does. */
  lemma Step(tokens: seq<Token>, cs: Checks)
    requires |tokens| > 0
    ensures FirstFailure(tokens, cs) ==
      if cs.Done? then None
      else if CheckError(tokens, cs.check).Some? then CheckError(tokens, cs.check)
      else FirstFailure(tokens, cs.rest)
  {
  }

  /** ADD and AND reject exactly what their signature rejects, with the same error. */
  lemma RegRegOrImmJudged(tokens: seq<Token>, op: OperateOp)
    requires |tokens| > 0
    ensures Judged(tokens, RegRegOrImmSig, RegRegOrImm(tokens, op))
  {
    var cs := RegRegOrImmSig.checks;
    Step(tokens, cs);
    Step(tokens, cs.rest);
    Step(tokens, cs.rest.rest);
    Step(tokens, cs.rest.rest.rest);
    Step(tokens, cs.rest.rest.rest.rest);
    Step(tokens, cs.rest.rest.rest.rest.rest);
    Step(tokens, cs.rest.rest.rest.rest.rest.rest);
  }

  /** LD, LDI, LEA, ST and STI reject exactly what their signature rejects. */
  lemma RegLabelJudged(tokens: seq<Token>, op: RegLabelOp)
    requires |tokens| > 0
    ensures Judged(tokens, RegLabelSig, RegLabel(tokens, op))
  {
    var cs := RegLabelSig.checks;
    Step(tokens, cs);
    Step(tokens, cs.rest);
    Step(tokens, cs.rest.rest);
    Step(tokens, cs.rest.rest.rest);
    Step(tokens, cs.rest.rest.rest.rest);
  }

  /** LDR and STR reject exactly what their signature rejects. */
  lemma RegRegImmJudged(tokens: seq<Token>, op: RegRegImmOp)
    requires |tokens| > 0
    ensures Judged(tokens, RegRegImmSig, RegRegImm(tokens, op))
  {
    var cs := RegRegImmSig.checks;
    Step(tokens, cs);
    Step(tokens, cs.rest);
    Step(tokens, cs.rest.rest);
    Step(tokens, cs.rest.rest.rest);
    Step(tokens, cs.rest.rest.rest.rest);
    Step(tokens, cs.rest.rest.rest.rest.rest);
    Step(tokens, cs.rest.rest.rest.rest.rest.rest);
  }

  /** JMP and JSRR reject exactly what their signature rejects. */
  lemma SingleRegJudged(tokens: seq<Token>, op: SingleRegOp)
    requires |tokens| > 0
    ensures Judged(tokens, SingleRegSig, SingleReg(tokens, op))
  {
    var cs := SingleRegSig.checks;
    Step(tokens, cs);
    Step(tokens, cs.rest);
    Step(tokens, cs.rest.rest);
  }

  /** JSR rejects exactly what its signature rejects. */
  lemma SingleLabelJudged(tokens: seq<Token>)
    requires |tokens| > 0
    ensures Judged(tokens, SingleLabelSig, SingleLabel(tokens))
  {
    var cs := SingleLabelSig.checks;
    Step(tokens, cs);
    Step(tokens, cs.rest);
    Step(tokens, cs.rest.rest);
  }

  /** The operand-less instructions reject exactly a second token. */
  lemma NoOperandsJudged(tokens: seq<Token>, i: Instruction)
    requires |tokens| > 0
    ensures Judged(tokens, NoOperandsSig, NoOperands(tokens, i))
  {
    var cs := NoOperandsSig.checks;
    Step(tokens, cs);
    Step(tokens, cs.rest);
  }
}
