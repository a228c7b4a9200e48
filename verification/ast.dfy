/**
 * The abstract syntax of one assembly line (parser/ast.rs): an optional label,
 * the line's content, and where it came from.
 */
module Ast {
  import opened Common
  import opened Errors
  import opened Tokens

  /** An LC-3 instruction with its operands; labels are kept by name. */
  datatype Instruction =
    // operate
    | AddReg(dr: Reg, sr1: Reg, sr2: Reg)
    | AddImm(dr: Reg, sr1: Reg, imm5: i16)
    | AndReg(dr: Reg, sr1: Reg, sr2: Reg)
    | AndImm(dr: Reg, sr1: Reg, imm5: i16)
    | Not(dr: Reg, sr: Reg)
    // data movement
    | Ld(dr: Reg, target: string)
    | Ldi(dr: Reg, target: string)
    | Ldr(dr: Reg, baseR: Reg, offset6: i16)
    | Lea(dr: Reg, target: string)
    | St(sr: Reg, target: string)
    | Sti(sr: Reg, target: string)
    | Str(sr: Reg, baseR: Reg, offset6: i16)
    // control flow
    | Br(flags: BrFlags, target: string)
    | Jmp(baseR: Reg)
    | Jsr(target: string)
    | Jsrr(baseR: Reg)
    | Ret
    | Rti
    // traps
    | Trap(trapvect8: u8)
    | Getc | Out | Puts | In | Putsp | Halt

  datatype LineContent =
    | Empty
    | Orig(addr: u16)
    | End
    | FillImmediate(value: i32)
    | FillLabel(name: string)
    | Blkw(count: u16)
    | Stringz(text: string)
    | Instr(instr: Instruction)

  /**
   * One source line. `pos` is the position of the line's first token, or column 1
   * of the line when it has none.
   */
  datatype SourceLine = SourceLine(labelName: Option<string>, content: LineContent, lineNumber: nat, pos: Position)

  /** The number of bytes UTF-8 uses for one character. */
  function Utf8Width(c: char): (r: nat)
    ensures 1 <= r <= 4
    ensures r == 1 <==> c as int < 0x80
  {
    if c as int < 0x80 then 1
    else if c as int < 0x800 then 2
    else if c as int < 0x1_0000 then 3
    else 4
  }

  /** Rust's `str::len`: the length of the UTF-8 encoding. */
  function Utf8Len(s: string): (r: nat)
    ensures r >= |s|
  {
    if |s| == 0 then 0 else Utf8Len(s[..|s| - 1]) + Utf8Width(s[|s| - 1])
  }

  predicate IsAscii(s: string) {
    forall i :: 0 <= i < |s| ==> s[i] as int < 0x80
  }

  /**
   * `LineContent::word_count`: the words a line occupies. A string takes its UTF-8
   * length plus the terminating zero.
   */
  function WordCount(c: LineContent): (r: nat)
    ensures c.Empty? || c.Orig? || c.End? ==> r == 0
    ensures c.FillImmediate? || c.FillLabel? || c.Instr? ==> r == 1
    ensures c.Blkw? ==> r == c.count && r <= 0xFFFF
    ensures c.Stringz? ==> r == Utf8Len(c.text) + 1 && r >= |c.text| + 1
  {
    match c
    case Empty => 0
    case Orig(_) => 0
    case End => 0
    case FillImmediate(_) => 1
    case FillLabel(_) => 1
    case Blkw(n) => n
    case Stringz(s) => Utf8Len(s) + 1
    case Instr(_) => 1
  }

  /** The UTF-8 length equals the character count exactly when every character is ASCII. */
  lemma {:induction false} Utf8LenAscii(s: string)
    ensures Utf8Len(s) == |s| <==> IsAscii(s)
    decreases |s|
  {
    if |s| > 0 {
      var p := s[..|s| - 1];
      Utf8LenAscii(p);
      assert forall i :: 0 <= i < |p| ==> p[i] == s[i];
      if IsAscii(s) {
        assert IsAscii(p);
      } else if IsAscii(p) {
        assert s[|s| - 1] as int >= 0x80;
      }
    }
  }

  /** For an ASCII string, a STRINGZ line takes one word per character plus the terminator. */
  lemma StringzWordsAscii(s: string)
    requires IsAscii(s)
    ensures WordCount(Stringz(s)) == |s| + 1
  {
    Utf8LenAscii(s);
  }
}
