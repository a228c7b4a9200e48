/**
 * Assembler diagnostics. Message strings are not modelled; the values a message
 * would carry (a label, the address of its first definition, an offending offset)
 * are kept in `Detail`.
 */
module Errors {
  import opened Common

  /** A 1-based source position (line, column). */
  datatype Position = Position(line: nat, col: nat)

  datatype ErrorKind =
    | UnterminatedString
    | InvalidEscapeSequence
    | InvalidDecimalLiteral
    | InvalidHexLiteral
    | InvalidBinaryLiteral
    | InvalidRegister
    | UnknownDirective
    | UnexpectedCharacter
    | ExpectedOperand
    | ExpectedRegister
    | ExpectedComma
    | UnexpectedToken
    | TooManyOperands
    | TooFewOperands
    | InvalidOperandType
    | DuplicateLabel
    | MissingOrig
    | MultipleOrig
    | OrigNotFirst
    | MissingEnd
    | InvalidOrigAddress
    | InvalidBlkwCount
    | AddressOverflow
    | LabelIsReservedWord
    // used by the encoder although the error module does not declare them
    | UndefinedLabel
    | OffsetOutOfRange

  datatype Detail =
    | NoDetail
    | OfLabel(name: string)
    | FirstDefinedAt(name: string, firstAddress: u16)
    | Offset(name: string, offset: int, bits: nat)

  datatype AsmError = AsmError(kind: ErrorKind, at: Position, detail: Detail)

  /** `AsmError::new`: an error whose message carries no extra value. */
  function NewError(kind: ErrorKind, at: Position): (r: AsmError)
    ensures r.kind == kind && r.at == at && r.detail == NoDetail
  {
    AsmError(kind, at, NoDetail)
  }

  /** `AsmError::undefined_label`: the error names the label that has no address. */
  function UndefinedLabelError(name: string, at: Position): (r: AsmError)
    ensures r.kind == UndefinedLabel && r.at == at && r.detail == OfLabel(name)
  {
    AsmError(UndefinedLabel, at, OfLabel(name))
  }

  /** `AsmError::duplicate_label`: the error names the label and where it was first defined. */
  function DuplicateLabelError(name: string, firstAddress: u16, at: Position): (r: AsmError)
    ensures r.kind == DuplicateLabel && r.at == at && r.detail == FirstDefinedAt(name, firstAddress)
  {
    AsmError(DuplicateLabel, at, FirstDefinedAt(name, firstAddress))
  }

  /** The outcome of a step that either yields a value or stops with one error. */
  datatype Result<+T> = Ok(value: T) | Err(error: AsmError)
}
