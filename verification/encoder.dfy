/**
 * The second pass (encoder/mod.rs): every line is turned into machine words,
 * instructions packed by the LC-3 instruction set, labels resolved through the
 * first pass's symbol table, and PC-relative offsets range-checked.
 *
 * Instruction fields never overlap, so the source's bitwise `|` of shifted fields
 * is written here as a sum of multiples of powers of two.
 */
module Encoder {
  import opened Common
  import opened Errors
  import opened Tokens
  import opened Ast
  import opened Symbols
  import opened FirstPass

  // ---------------------------------------------------------------------------
  // Opcodes (bits 15:12) and the fixed trap words
  // ---------------------------------------------------------------------------

  const OP_ADD: u16 := 0x1
  const OP_AND: u16 := 0x5
  const OP_NOT: u16 := 0x9
  const OP_LD: u16 := 0x2
  const OP_LDI: u16 := 0xA
  const OP_LEA: u16 := 0xE
  const OP_ST: u16 := 0x3
  const OP_STI: u16 := 0xB
  const OP_LDR: u16 := 0x6
  const OP_STR: u16 := 0x7
  const OP_BR: u16 := 0x0
  const OP_JMP: u16 := 0xC
  const OP_JSR: u16 := 0x4
  const OP_TRAP: u16 := 0xF
  const OP_RTI: u16 := 0x8

  const TRAP_GETC: u16 := OP_TRAP * 0x1000 + 0x20
  const TRAP_OUT: u16 := OP_TRAP * 0x1000 + 0x21
  const TRAP_PUTS: u16 := OP_TRAP * 0x1000 + 0x22
  const TRAP_IN: u16 := OP_TRAP * 0x1000 + 0x23
  const TRAP_PUTSP: u16 := OP_TRAP * 0x1000 + 0x24
  const TRAP_HALT: u16 := OP_TRAP * 0x1000 + 0x25

  // ---------------------------------------------------------------------------
  // Encoder state
  // ---------------------------------------------------------------------------

  datatype EncodeResult = EncodeResult(machineCode: seq<u16>, origAddress: u16, errors: seq<AsmError>)

  /** The fields of `Encoder`: the table it reads, the words so far, the origin, the address of the next word. */
  datatype EncoderState = EncoderState(table: SymbolTable, code: seq<u16>, orig: u16, cur: u16, errors: seq<AsmError>)

  /** The current address is the origin advanced by one per word emitted, wrapping at 2^16. */
  predicate Tracking(e: EncoderState) {
    e.cur == AsU16(e.orig + |e.code|)
  }

  /** `Encoder::new`: nothing emitted, and the current address at the origin. */
  function NewEncoder(table: SymbolTable, orig: u16): (e: EncoderState)
    ensures e.code == [] && e.errors == [] && e.table == table && e.orig == orig
    ensures Tracking(e)
  {
    EncoderState(table, [], orig, orig, [])
  }

  /** `emit`: one more word, and the address moves on by one with wrap-around. */
  function Emit(e: EncoderState, w: u16): (r: EncoderState)
    ensures r.code == e.code + [w]
    ensures r.table == e.table && r.orig == e.orig && r.errors == e.errors
    ensures r.cur == AsU16(e.cur + 1)
    ensures Tracking(e) ==> Tracking(r)
  {
    WrapNext(e.orig + |e.code|, e.cur);
    e.(code := e.code + [w], cur := WrappingAdd(e.cur, 1))
  }

  // ---------------------------------------------------------------------------
  // Fields
  // ---------------------------------------------------------------------------

  /** The offsets the encoder forms fit in `bits` bits of two's complement. */
  predicate InRange(offset: int, bits: nat)
    requires bits >= 1
  {
    -(Pow2(bits - 1) as int) <= offset <= Pow2(bits - 1) - 1
  }

  /** The instruction set's SEXT: a `bits`-wide field read as a two's-complement number. */
  function SignedField(f: nat, bits: nat): (r: int)
    requires bits >= 1
  {
    if f >= Pow2(bits - 1) then f - Pow2(bits) else f
  }

  /**
   * `sign_extend`: the low `bits` bits of the value's 16-bit two's complement. A
   * value that fits is recovered by SEXT; one that does not is truncated.
   */
  function SignExtend(value: i16, bits: nat): (r: u16)
    requires bits < 16
    ensures r < Pow2(bits)
    ensures (r - value) % Pow2(bits) == 0
    ensures bits >= 1 && InRange(value, bits) ==> SignedField(r, bits) == value
  {
    LowBits(value, bits);
    AsU16(value) % Pow2(bits)
  }

  /** Taking the low bits of the 16-bit pattern keeps the value modulo 2^bits, and inverts SEXT within range. */
  lemma LowBits(v: int, bits: nat)
    requires bits < 16
    ensures AsU16(v) % Pow2(bits) < Pow2(bits) <= 0x1_0000
    ensures (AsU16(v) % Pow2(bits) - v) % Pow2(bits) == 0
    ensures bits >= 1 && InRange(v, bits) ==> SignedField(AsU16(v) % Pow2(bits), bits) == v
  {
    Pow2Split(bits);
    assert (AsU16(v) % Pow2(bits) - v) % Pow2(bits) == 0 by {
      LowPartCongruent(v, Pow2(bits), Pow2(16 - bits));
    }
    if bits >= 1 && InRange(v, bits) {
      assert SignedField(AsU16(v) % Pow2(bits), bits) == v by {
        assert Pow2(bits) == 2 * Pow2(bits - 1);
        LowPartSmall(v, Pow2(bits), Pow2(16 - bits));
      }
    }
  }

  /** The example values of `sign_extend`'s own test. */
  lemma SignExtendExamples()
    ensures SignExtend(5, 5) == 0x05
    ensures SignExtend(-1, 5) == 0x1F
    ensures SignExtend(-16, 5) == 0x10
  {
  }

  // ---------------------------------------------------------------------------
  // PC-relative offsets
  // ---------------------------------------------------------------------------

  /** The instructions that name a label, and the width of their offset field. */
  predicate HasTarget(i: Instruction) {
    i.Ld? || i.Ldi? || i.Lea? || i.St? || i.Sti? || i.Br? || i.Jsr?
  }

  function OffsetBits(i: Instruction): (r: nat)
    ensures HasTarget(i) ==> r == 9 || r == 11
    ensures !HasTarget(i) ==> r == 0
  {
    if i.Jsr? then 11 else if HasTarget(i) then 9 else 0
  }

  /**
   * `calc_pc_offset`: the offset from the incremented PC to the label, masked to
   * `bits` bits, with the error the encoder records. An undefined label and an
   * offset out of range both yield field 0.
   */
  function PcOffset(table: SymbolTable, cur: u16, name: string, bits: nat, at: Position): (r: (u16, Option<AsmError>))
    requires 1 <= bits < 16
    ensures r.0 < Pow2(bits)
    ensures Get(table, name).None? ==> r == (0, Some(UndefinedLabelError(name, at)))
    ensures Get(table, name).Some? ==>
      var offset := Get(table, name).value - WrappingAdd(cur, 1);
      && (r.1.None? <==> InRange(offset, bits))
      && (r.1.Some? ==> r == (0, Some(AsmError(OffsetOutOfRange, at, Offset(name, offset, bits)))))
  {
    match Get(table, name)
    case None => (0, Some(UndefinedLabelError(name, at)))
    case Some(target) =>
      var pc := WrappingAdd(cur, 1);
      var offset := target - pc;
      var maxOffset := Pow2(bits - 1) - 1;
      var minOffset := -(Pow2(bits - 1) as int);
      if offset < minOffset || offset > maxOffset then
        (0, Some(AsmError(OffsetOutOfRange, at, Offset(name, offset, bits))))
      else
        LowBits(offset, bits);
        (AsU16(offset) % Pow2(bits), None)
  }

  /**
   * A field `calc_pc_offset` accepts takes the processor back to the label: the
   * incremented PC plus the sign-extended field is the label's address.
   */
  lemma PcOffsetRoundTrip(table: SymbolTable, cur: u16, name: string, bits: nat, at: Position)
    requires 1 <= bits < 16
    requires PcOffset(table, cur, name, bits, at).1.None?
    ensures Get(table, name).Some?
    ensures AsU16(WrappingAdd(cur, 1) + SignedField(PcOffset(table, cur, name, bits, at).0, bits)) == Get(table, name).value
  {
    var offset := Get(table, name).value - WrappingAdd(cur, 1);
    LowBits(offset, bits);
  }

  // ---------------------------------------------------------------------------
  // Instruction words
  // ---------------------------------------------------------------------------

  /** One more than the largest offset field an instruction takes: 2^11 for JSR, 2^9 for the other label operands. */
  function OffsetLimit(i: Instruction): (r: nat)
    ensures r == Pow2(OffsetBits(i))
  {
    Pow2Values();
    if i.Jsr? then 0x800 else if HasTarget(i) then 0x200 else 1
  }

  /** `encode_instruction`'s word for `i`, given the offset field of a label operand (0 for the others). */
  function InstrWord(i: Instruction, offset: nat): (w: u16)
    requires offset < OffsetLimit(i)
  {
    match i
    case AddReg(dr, sr1, sr2) => OP_ADD * 0x1000 + dr * 0x200 + sr1 * 0x40 + sr2
    case AddImm(dr, sr1, imm) => OP_ADD * 0x1000 + dr * 0x200 + sr1 * 0x40 + 0x20 + SignExtend(imm, 5) % 0x20
    case AndReg(dr, sr1, sr2) => OP_AND * 0x1000 + dr * 0x200 + sr1 * 0x40 + sr2
    case AndImm(dr, sr1, imm) => OP_AND * 0x1000 + dr * 0x200 + sr1 * 0x40 + 0x20 + SignExtend(imm, 5) % 0x20
    case Not(dr, sr) => OP_NOT * 0x1000 + dr * 0x200 + sr * 0x40 + 0x3F
    case Ld(dr, _) => OP_LD * 0x1000 + dr * 0x200 + offset
    case Ldi(dr, _) => OP_LDI * 0x1000 + dr * 0x200 + offset
    case Lea(dr, _) => OP_LEA * 0x1000 + dr * 0x200 + offset
    case St(sr, _) => OP_ST * 0x1000 + sr * 0x200 + offset
    case Sti(sr, _) => OP_STI * 0x1000 + sr * 0x200 + offset
    case Ldr(dr, baseR, off6) => OP_LDR * 0x1000 + dr * 0x200 + baseR * 0x40 + SignExtend(off6, 6) % 0x40
    case Str(sr, baseR, off6) => OP_STR * 0x1000 + sr * 0x200 + baseR * 0x40 + SignExtend(off6, 6) % 0x40
    case Br(flags, _) => OP_BR * 0x1000 + FlagBits(flags) * 0x200 + offset
    case Jmp(baseR) => OP_JMP * 0x1000 + baseR * 0x40
    case Ret => OP_JMP * 0x1000 + 7 * 0x40
    case Jsr(_) => OP_JSR * 0x1000 + 0x800 + offset
    case Jsrr(baseR) => OP_JSR * 0x1000 + baseR * 0x40
    case Trap(v) => OP_TRAP * 0x1000 + v
    case Getc => TRAP_GETC
    case Out => TRAP_OUT
    case Puts => TRAP_PUTS
    case In => TRAP_IN
    case Putsp => TRAP_PUTSP
    case Halt => TRAP_HALT
    case Rti => OP_RTI * 0x1000
  }

  /** The offset field `calc_pc_offset` yields for an instruction's label operand (0 for the others), and its error. */
  function TargetField(e: EncoderState, i: Instruction, at: Position): (r: (nat, Option<AsmError>))
    ensures r.0 < OffsetLimit(i)
    ensures !HasTarget(i) ==> r == (0, None)
  {
    if HasTarget(i) then PcOffset(e.table, e.cur, i.target, OffsetBits(i), at) else (0, None)
  }

  /** `encode_instruction`: resolve the label operand, if any, then emit exactly one word. */
  function EncodeInstruction(e: EncoderState, i: Instruction, at: Position): (r: EncoderState)
    ensures |r.code| == |e.code| + 1 && r.code[..|e.code|] == e.code
    ensures r.table == e.table && r.orig == e.orig && r.cur == AsU16(e.cur + 1)
    ensures Tracking(e) ==> Tracking(r)
    ensures r.code[|e.code|] == InstrWord(i, TargetField(e, i, at).0)
    ensures r.errors == e.errors + OptionList(TargetField(e, i, at).1)
  {
    var (field, err) := TargetField(e, i, at);
    Emit(e.(errors := e.errors + OptionList(err)), InstrWord(i, field))
  }

  function OptionList<T>(o: Option<T>): (r: seq<T>)
    ensures |r| <= 1
    ensures o.Some? ==> r == [o.value]
    ensures o.None? ==> r == []
  {
    if o.Some? then [o.value] else []
  }

  // ---------------------------------------------------------------------------
  // Decoding the fields back (LC-3 instruction formats)
  // ---------------------------------------------------------------------------

  /** Bits 15:12, the opcode. */
  function OpField(w: u16): nat { w / 0x1000 }
  /** Bits 11:9: DR, the SR of a store, or the N, Z, P condition codes. */
  function DrField(w: u16): nat { (w / 0x200) % 8 }
  /** Bits 8:6: SR1, SR or BaseR. */
  function SrField(w: u16): nat { (w / 0x40) % 8 }
  /** Bit 5: immediate mode of ADD and AND. */
  function ModeBit(w: u16): nat { (w / 0x20) % 2 }
  /** Bit 11: JSR (1) against JSRR (0). */
  function JsrBit(w: u16): nat { (w / 0x800) % 2 }
  /** Bits 4:0: imm5, or SR2 in register mode. */
  function Imm5Field(w: u16): nat { w % 0x20 }
  /** Bits 5:0: offset6. */
  function Offset6Field(w: u16): nat { w % 0x40 }
  /** Bits 7:0: trapvect8. */
  function Trapvect8Field(w: u16): nat { w % 0x100 }
  /** Bits 8:0: PCoffset9. */
  function PcOffset9Field(w: u16): nat { w % 0x200 }
  /** Bits 10:0: PCoffset11. */
  function PcOffset11Field(w: u16): nat { w % 0x800 }

  /** The opcode the instruction set assigns to each instruction. */
  function Opcode(i: Instruction): nat {
    match i
    case AddReg(_, _, _) => 1
    case AddImm(_, _, _) => 1
    case AndReg(_, _, _) => 5
    case AndImm(_, _, _) => 5
    case Not(_, _) => 9
    case Ld(_, _) => 2
    case Ldi(_, _) => 10
    case Lea(_, _) => 14
    case St(_, _) => 3
    case Sti(_, _) => 11
    case Ldr(_, _, _) => 6
    case Str(_, _, _) => 7
    case Br(_, _) => 0
    case Jmp(_) => 12
    case Ret => 12
    case Jsr(_) => 4
    case Jsrr(_) => 4
    case Rti => 8
    case _ => 15
  }

  /** A word made of an opcode, two 3-bit fields and a 6-bit low part reads those fields back. */
  lemma PackRegs(w: int, op: nat, a: nat, b: nat, low: nat)
    requires op < 16 && a < 8 && b < 8 && low < 0x40
    requires w == op * 0x1000 + a * 0x200 + b * 0x40 + low
    ensures 0 <= w < 0x1_0000
    ensures OpField(w) == op && DrField(w) == a && SrField(w) == b
    ensures Offset6Field(w) == low && ModeBit(w) == low / 0x20 && Imm5Field(w) == low % 0x20
  {
    ModUnique(w, 0x1000, op, a * 0x200 + b * 0x40 + low);
    ModUnique(w, 0x200, op * 8 + a, b * 0x40 + low);
    ModUnique(op * 8 + a, 8, op, a);
    ModUnique(w, 0x40, op * 0x40 + a * 8 + b, low);
    ModUnique(op * 0x40 + a * 8 + b, 8, op * 8 + a, b);
    ModUnique(w, 0x20, op * 0x80 + a * 0x10 + b * 2 + low / 0x20, low % 0x20);
    ModUnique(op * 0x80 + a * 0x10 + b * 2 + low / 0x20, 2, op * 0x40 + a * 8 + b, low / 0x20);
  }

  /** A word made of an opcode, a 3-bit field and a 9-bit offset reads those fields back. */
  lemma PackOffset9(w: int, op: nat, a: nat, off: nat)
    requires op < 16 && a < 8 && off < 0x200
    requires w == op * 0x1000 + a * 0x200 + off
    ensures 0 <= w < 0x1_0000
    ensures OpField(w) == op && DrField(w) == a && PcOffset9Field(w) == off
  {
    ModUnique(w, 0x1000, op, a * 0x200 + off);
    ModUnique(w, 0x200, op * 8 + a, off);
    ModUnique(op * 8 + a, 8, op, a);
  }

  /** A word made of an opcode, bit 11 set and an 11-bit offset reads those fields back. */
  lemma PackOffset11(w: int, op: nat, off: nat)
    requires op < 16 && off < 0x800
    requires w == op * 0x1000 + 0x800 + off
    ensures 0 <= w < 0x1_0000
    ensures OpField(w) == op && JsrBit(w) == 1 && PcOffset11Field(w) == off
  {
    ModUnique(w, 0x1000, op, 0x800 + off);
    ModUnique(w, 0x800, op * 2 + 1, off);
    ModUnique(op * 2 + 1, 2, op, 1);
  }

  /** A word made of an opcode and an 8-bit vector reads those fields back. */
  lemma PackTrap(w: int, op: nat, v: nat)
    requires op < 16 && v < 0x100
    requires w == op * 0x1000 + v
    ensures 0 <= w < 0x1_0000
    ensures OpField(w) == op && Trapvect8Field(w) == v
  {
    ModUnique(w, 0x1000, op, v);
    ModUnique(w, 0x100, op * 0x10, v);
  }

  /** Register-mode ADD and AND: opcode, DR, SR1, bit 5 clear, SR2 in bits 2:0. */
  lemma OperateRegFields(i: Instruction)
    requires i.AddReg? || i.AndReg?
    ensures OpField(InstrWord(i, 0)) == Opcode(i)
    ensures DrField(InstrWord(i, 0)) == i.dr && SrField(InstrWord(i, 0)) == i.sr1
    ensures ModeBit(InstrWord(i, 0)) == 0 && Imm5Field(InstrWord(i, 0)) == i.sr2
  {
    PackRegs(InstrWord(i, 0), Opcode(i), i.dr, i.sr1, i.sr2);
  }

  /**
   * Immediate-mode ADD and AND: opcode, DR, SR1, bit 5 set, and the low five bits
   * of imm5, which SEXT reads back as imm5 whenever it fits.
   */
  lemma OperateImmFields(i: Instruction)
    requires i.AddImm? || i.AndImm?
    ensures OpField(InstrWord(i, 0)) == Opcode(i)
    ensures DrField(InstrWord(i, 0)) == i.dr && SrField(InstrWord(i, 0)) == i.sr1
    ensures ModeBit(InstrWord(i, 0)) == 1 && Imm5Field(InstrWord(i, 0)) == SignExtend(i.imm5, 5)
    ensures InRange(i.imm5, 5) ==> SignedField(Imm5Field(InstrWord(i, 0)), 5) == i.imm5
  {
    Pow2Values();
    PackRegs(InstrWord(i, 0), Opcode(i), i.dr, i.sr1, 0x20 + SignExtend(i.imm5, 5));
  }

  /** NOT: opcode, DR, SR, and bits 5:0 all set. */
  lemma NotFields(i: Instruction)
    requires i.Not?
    ensures OpField(InstrWord(i, 0)) == Opcode(i)
    ensures DrField(InstrWord(i, 0)) == i.dr && SrField(InstrWord(i, 0)) == i.sr
    ensures Offset6Field(InstrWord(i, 0)) == 0x3F
  {
    PackRegs(InstrWord(i, 0), Opcode(i), i.dr, i.sr, 0x3F);
  }

  /** LD, LDI, LEA, ST, STI and BR: opcode, the register (or condition codes) in bits 11:9, the offset in bits 8:0. */
  lemma PcRelativeFields(i: Instruction, offset: nat)
    requires HasTarget(i) && !i.Jsr?
    requires offset < OffsetLimit(i)
    ensures OpField(InstrWord(i, offset)) == Opcode(i)
    ensures DrField(InstrWord(i, offset)) == (if i.Br? then FlagBits(i.flags) else if i.St? || i.Sti? then i.sr else i.dr)
    ensures PcOffset9Field(InstrWord(i, offset)) == offset
  {
    var a := if i.Br? then FlagBits(i.flags) else if i.St? || i.Sti? then i.sr else i.dr;
    PackOffset9(InstrWord(i, offset), Opcode(i), a, offset);
  }

  /** LDR and STR: opcode, DR or SR, BaseR, and the low six bits of offset6, which SEXT reads back whenever it fits. */
  lemma BaseOffsetFields(i: Instruction)
    requires i.Ldr? || i.Str?
    ensures OpField(InstrWord(i, 0)) == Opcode(i)
    ensures DrField(InstrWord(i, 0)) == (if i.Str? then i.sr else i.dr) && SrField(InstrWord(i, 0)) == i.baseR
    ensures Offset6Field(InstrWord(i, 0)) == SignExtend(i.offset6, 6)
    ensures InRange(i.offset6, 6) ==> SignedField(Offset6Field(InstrWord(i, 0)), 6) == i.offset6
  {
    Pow2Values();
    PackRegs(InstrWord(i, 0), Opcode(i), if i.Str? then i.sr else i.dr, i.baseR, SignExtend(i.offset6, 6));
  }

  /** JMP, RET and JSRR: opcode, BaseR in bits 8:6 (R7 for RET), and bit 11 clear. */
  lemma JumpFields(i: Instruction)
    requires i.Jmp? || i.Ret? || i.Jsrr?
    ensures OpField(InstrWord(i, 0)) == Opcode(i)
    ensures SrField(InstrWord(i, 0)) == (if i.Ret? then 7 else i.baseR) && JsrBit(InstrWord(i, 0)) == 0
    ensures i.Ret? ==> InstrWord(i, 0) == 0xC1C0
  {
    PackRegs(InstrWord(i, 0), Opcode(i), 0, if i.Ret? then 7 else i.baseR, 0);
  }

  /** JSR: opcode 4, bit 11 set, the offset in bits 10:0. */
  lemma JsrFields(i: Instruction, offset: nat)
    requires i.Jsr? && offset < OffsetLimit(i)
    ensures OpField(InstrWord(i, offset)) == Opcode(i)
    ensures JsrBit(InstrWord(i, offset)) == 1 && PcOffset11Field(InstrWord(i, offset)) == offset
  {
    PackOffset11(InstrWord(i, offset), Opcode(i), offset);
  }

  /** The trap vector each TRAP alias stands for. */
  function TrapVector(i: Instruction): (r: nat)
    requires i.Trap? || i.Getc? || i.Out? || i.Puts? || i.In? || i.Putsp? || i.Halt?
  {
    match i
    case Trap(v) => v
    case Getc => 0x20
    case Out => 0x21
    case Puts => 0x22
    case In => 0x23
    case Putsp => 0x24
    case _ => 0x25
  }

  /** TRAP and its aliases: opcode 15 and the vector in bits 7:0. */
  lemma TrapFields(i: Instruction)
    requires i.Trap? || i.Getc? || i.Out? || i.Puts? || i.In? || i.Putsp? || i.Halt?
    ensures OpField(InstrWord(i, 0)) == Opcode(i) == 15
    ensures Trapvect8Field(InstrWord(i, 0)) == TrapVector(i)
    ensures InstrWord(i, 0) == 0xF000 + TrapVector(i)
  {
    PackTrap(InstrWord(i, 0), 15, TrapVector(i));
  }

  /** RTI: opcode 8 and nothing else. */
  lemma RtiWord()
    ensures InstrWord(Rti, 0) == 0x8000 && OpField(InstrWord(Rti, 0)) == Opcode(Rti)
  {
  }

  /** Every encoded word carries its instruction's opcode in bits 15:12. */
  lemma InstrWordOpcode(i: Instruction, offset: nat)
    requires offset < OffsetLimit(i)
    ensures OpField(InstrWord(i, offset)) == Opcode(i)
  {
    if i.AddReg? || i.AndReg? { OperateRegFields(i); }
    else if i.AddImm? || i.AndImm? { OperateImmFields(i); }
    else if i.Not? { NotFields(i); }
    else if i.Ldr? || i.Str? { BaseOffsetFields(i); }
    else if i.Jmp? || i.Ret? || i.Jsrr? { JumpFields(i); }
    else if i.Jsr? { JsrFields(i, offset); }
    else if HasTarget(i) { PcRelativeFields(i, offset); }
    else if i.Rti? { RtiWord(); }
    else { TrapFields(i); }
  }

  /**
   * The word emitted for `i` takes the processor to the label's address: its
   * offset field, sign-extended and added to the incremented PC, is that address.
   */
  predicate Reaches(e: EncoderState, i: Instruction, at: Position)
    requires HasTarget(i)
  {
    var w := EncodeInstruction(e, i, at).code[|e.code|];
    var field := if i.Jsr? then PcOffset11Field(w) else PcOffset9Field(w);
    Get(e.table, i.target).Some? && AsU16(WrappingAdd(e.cur, 1) + SignedField(field, OffsetBits(i))) == Get(e.table, i.target).value
  }

  /**
   * An instruction whose label resolved in range sends the processor to the label:
   * the incremented PC plus the sign-extended offset field of the emitted word is
   * the label's address.
   */
  lemma EncodedTargetReached(e: EncoderState, i: Instruction, at: Position)
    requires HasTarget(i)
    requires EncodeInstruction(e, i, at).errors == e.errors
    ensures Get(e.table, i.target).Some?
    ensures var w := EncodeInstruction(e, i, at).code[|e.code|];
      var field := if i.Jsr? then PcOffset11Field(w) else PcOffset9Field(w);
      AsU16(WrappingAdd(e.cur, 1) + SignedField(field, OffsetBits(i))) == Get(e.table, i.target).value
  {
    var (field, err) := TargetField(e, i, at);
    assert err.None?;
    PcOffsetRoundTrip(e.table, e.cur, i.target, OffsetBits(i), at);
    if i.Jsr? {
      JsrFields(i, field);
    } else {
      PcRelativeFields(i, field);
    }
  }

  // ---------------------------------------------------------------------------
  // Lines
  // ---------------------------------------------------------------------------

  /** The `for _ in 0..count` loop of `.BLKW`: `count` zero words. */
  function EmitZeros(e: EncoderState, count: nat): (r: EncoderState)
    ensures |r.code| == |e.code| + count && r.code[..|e.code|] == e.code
    ensures forall k :: |e.code| <= k < |r.code| ==> r.code[k] == 0
    ensures r.table == e.table && r.orig == e.orig && r.errors == e.errors
    ensures Tracking(e) ==> Tracking(r)
  {
    if count == 0 then e else Emit(EmitZeros(e, count - 1), 0)
  }

  /** The `for ch in s.chars()` loop of `.STRINGZ`: each character truncated to 16 bits. */
  function EmitChars(e: EncoderState, s: string): (r: EncoderState)
    ensures |r.code| == |e.code| + |s| && r.code[..|e.code|] == e.code
    ensures forall k :: 0 <= k < |s| ==> r.code[|e.code| + k] == AsU16(s[k] as int)
    ensures r.table == e.table && r.orig == e.orig && r.errors == e.errors
    ensures Tracking(e) ==> Tracking(r)
  {
    if |s| == 0 then e else Emit(EmitChars(e, s[..|s| - 1]), AsU16(s[|s| - 1] as int))
  }

  /** `encode_line`. */
  function EncodeLine(e: EncoderState, line: SourceLine): (r: EncoderState)
    ensures r.table == e.table && r.orig == e.orig
    ensures |r.code| == |e.code| + LineWords(line.content) && r.code[..|e.code|] == e.code
    ensures Tracking(e) ==> Tracking(r)
  {
    match line.content
    case Empty => e
    case Orig(_) => e
    case End => e
    case FillImmediate(value) => Emit(e, AsU16(value))
    case FillLabel(name) => EncodeFillLabel(e, name, line.pos)
    case Blkw(count) => EmitZeros(e, count)
    case Stringz(s) => Emit(EmitChars(e, s), 0)
    case Instr(i) => EncodeInstruction(e, i, line.pos)
  }

  /** `.FILL` with a label: its address, or 0 and an undefined-label error. */
  function EncodeFillLabel(e: EncoderState, name: string, at: Position): (r: EncoderState)
    ensures Get(e.table, name).Some? ==> r == Emit(e, Get(e.table, name).value)
    ensures Get(e.table, name).None? ==> r == Emit(e.(errors := e.errors + [UndefinedLabelError(name, at)]), 0)
  {
    match Get(e.table, name)
    case Some(addr) => Emit(e, addr)
    case None => Emit(e.(errors := e.errors + [UndefinedLabelError(name, at)]), 0)
  }

  /**
   * A line adds at most one error, at the line's position, and only of the two
   * kinds the encoder reports: an undefined label or an offset out of range.
   */
  lemma LineErrors(e: EncoderState, line: SourceLine)
    ensures var r := EncodeLine(e, line);
      && |e.errors| <= |r.errors| <= |e.errors| + 1
      && r.errors[..|e.errors|] == e.errors
      && forall k :: |e.errors| <= k < |r.errors| ==>
           r.errors[k].at == line.pos && r.errors[k].kind in {UndefinedLabel, OffsetOutOfRange}
  {
    var r := EncodeLine(e, line);
    if line.content.Instr? {
      var i := line.content.instr;
      var (field, err) := TargetField(e, i, line.pos);
      assert r.errors == e.errors + OptionList(err);
      if err.Some? {
        assert err.value.at == line.pos && err.value.kind in {UndefinedLabel, OffsetOutOfRange};
      }
    }
  }

  /**
   * The words the encoder emits for a line: none for Empty, .ORIG and .END; one
   * for .FILL and for every instruction; the block for .BLKW; one per character
   * and the terminator for .STRINGZ.
   */
  function LineWords(c: LineContent): nat {
    match c
    case Empty => 0
    case Orig(_) => 0
    case End => 0
    case FillImmediate(_) => 1
    case FillLabel(_) => 1
    case Blkw(n) => n
    case Stringz(s) => |s| + 1
    case Instr(_) => 1
  }

  /** The data words of a directive line, as the instruction set lays them out. */
  function DataImage(table: SymbolTable, c: LineContent): (r: seq<u16>)
    requires !c.Instr?
  {
    match c
    case FillImmediate(v) => [AsU16(v)]
    case FillLabel(l) => [if Get(table, l).Some? then Get(table, l).value else 0]
    case Blkw(n) => seq(n, k => 0)
    case Stringz(s) => seq(|s|, k requires 0 <= k < |s| => AsU16(s[k] as int)) + [0]
    case _ => []
  }

  /**
   * A directive line emits exactly its data image: the value of .FILL modulo
   * 2^16, the label's address (or 0), the zeros of .BLKW, the characters and
   * terminator of .STRINGZ. Only an undefined .FILL label is an error.
   */
  lemma DirectiveWords(e: EncoderState, line: SourceLine)
    requires !line.content.Instr?
    ensures EncodeLine(e, line).code == e.code + DataImage(e.table, line.content)
    ensures EncodeLine(e, line).errors ==
      if line.content.FillLabel? && Get(e.table, line.content.name).None?
      then e.errors + [UndefinedLabelError(line.content.name, line.pos)]
      else e.errors
  {
    var r := EncodeLine(e, line);
    var img := DataImage(e.table, line.content);
    assert |r.code| == |e.code| + |img|;
    forall k | 0 <= k < |img|
      ensures r.code[|e.code| + k] == img[k]
    {
      if line.content.Stringz? && k == |line.content.text| {
        assert r.code == EmitChars(e, line.content.text).code + [0];
      }
    }
    assert r.code == e.code + img;
  }

  /** Encoder and first pass count the same words for a line exactly when it is not a string with a non-ASCII character. */
  lemma LineWordsAgree(c: LineContent)
    ensures LineWords(c) == WordCount(c) <==> !c.Stringz? || IsAscii(c.text)
  {
    if c.Stringz? {
      Utf8LenAscii(c.text);
    }
  }

  // ---------------------------------------------------------------------------
  // The whole program
  // ---------------------------------------------------------------------------

  /** The encoder after the given lines. */
  function EncodeAll(table: SymbolTable, orig: u16, lines: seq<SourceLine>): (e: EncoderState)
    ensures e.table == table && e.orig == orig
    ensures Tracking(e)
    ensures |e.code| == SumLineWords(lines)
  {
    if |lines| == 0 then NewEncoder(table, orig)
    else EncodeLine(EncodeAll(table, orig, lines[..|lines| - 1]), lines[|lines| - 1])
  }

  /** The words the encoder emits for the lines. */
  function SumLineWords(lines: seq<SourceLine>): nat {
    if |lines| == 0 then 0 else SumLineWords(lines[..|lines| - 1]) + LineWords(lines[|lines| - 1].content)
  }

  /** `encode`: every line, `.END` or not, in order, starting at the first pass's origin. */
  function Encode(fp: FirstPassResult): (r: EncodeResult)
    ensures |r.machineCode| == SumLineWords(fp.lines)
    ensures r.origAddress == fp.orig
  {
    var e := EncodeAll(fp.table, fp.orig, fp.lines);
    EncodeResult(e.code, e.orig, e.errors)
  }
}
