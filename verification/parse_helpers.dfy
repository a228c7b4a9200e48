/**
 * The operand helpers shared by every form parser (parser/mod.rs, the helper
 * functions at its end). Each check reports its error at the offending token, or
 * at the line's first token when the operand is missing altogether.
 */
module ParseHelpers {
  import opened Common
  import opened Errors
  import opened Tokens

  /** The three numeric literal kinds. */
  predicate IsNumber(k: TokenKind) {
    k.NumDecimal? || k.NumHex? || k.NumBinary?
  }

  /** `token_to_i32`: the value of a numeric literal, of any radix. */
  function TokenToI32(t: Token): (r: Option<i32>)
    ensures r.Some? <==> IsNumber(t.kind)
    ensures r.Some? ==> r.value == t.kind.value
  {
    match t.kind
    case NumDecimal(v) => Some(v)
    case NumHex(v) => Some(v)
    case NumBinary(v) => Some(v)
    case _ => None
  }

  /** `token_to_register`. */
  function TokenToRegister(t: Token): (r: Option<Reg>)
    ensures r.Some? <==> t.kind.Register?
    ensures r.Some? ==> r.value == t.kind.reg
  {
    if t.kind.Register? then Some(t.kind.reg) else None
  }

  /** `token_to_label`. */
  function TokenToLabel(t: Token): (r: Option<string>)
    ensures r.Some? <==> t.kind.Label?
    ensures r.Some? ==> r.value == t.kind.name
  {
    if t.kind.Label? then Some(t.kind.name) else None
  }

  /** Where a check on operand `idx` reports: at that token, or at the first token if it is missing. */
  function OperandPos(tokens: seq<Token>, idx: nat): Position
    requires |tokens| > 0
  {
    if idx < |tokens| then tokens[idx].pos else tokens[0].pos
  }

  /** `ensure_no_extra`: nothing may follow the form's `expectedLen` tokens. */
  function EnsureNoExtra(tokens: seq<Token>, expectedLen: nat): (r: Option<AsmError>)
    ensures r.None? <==> |tokens| <= expectedLen
    ensures r.Some? ==> r.value == NewError(UnexpectedToken, tokens[expectedLen].pos)
  {
    if |tokens| > expectedLen then Some(NewError(UnexpectedToken, tokens[expectedLen].pos)) else None
  }

  /** `expect_comma`. */
  function ExpectComma(tokens: seq<Token>, idx: nat): (r: Option<AsmError>)
    requires |tokens| > 0
    ensures r.None? <==> idx < |tokens| && tokens[idx].kind.Comma?
    ensures r.Some? ==> r.value == NewError(ExpectedComma, OperandPos(tokens, idx))
  {
    if |tokens| <= idx then Some(NewError(ExpectedComma, tokens[0].pos))
    else if tokens[idx].kind.Comma? then None
    else Some(NewError(ExpectedComma, tokens[idx].pos))
  }

  /** `expect_register`. */
  function ExpectRegister(tokens: seq<Token>, idx: nat): (r: Result<Reg>)
    requires |tokens| > 0
    ensures r.Ok? <==> idx < |tokens| && tokens[idx].kind.Register?
    ensures r.Ok? ==> r.value == tokens[idx].kind.reg
    ensures r.Err? ==> r.error == NewError(ExpectedRegister, OperandPos(tokens, idx))
  {
    if |tokens| <= idx then Err(NewError(ExpectedRegister, tokens[0].pos))
    else match TokenToRegister(tokens[idx])
      case Some(reg) => Ok(reg)
      case None => Err(NewError(ExpectedRegister, tokens[idx].pos))
  }

  /** `expect_label`: a missing or non-label operand is reported as ExpectedOperand. */
  function ExpectLabel(tokens: seq<Token>, idx: nat): (r: Result<string>)
    requires |tokens| > 0
    ensures r.Ok? <==> idx < |tokens| && tokens[idx].kind.Label?
    ensures r.Ok? ==> r.value == tokens[idx].kind.name
    ensures r.Err? ==> r.error == NewError(ExpectedOperand, OperandPos(tokens, idx))
  {
    if |tokens| <= idx then Err(NewError(ExpectedOperand, tokens[0].pos))
    else match TokenToLabel(tokens[idx])
      case Some(name) => Ok(name)
      case None => Err(NewError(ExpectedOperand, tokens[idx].pos))
  }
}
