/**
 * The two passes together (lib.rs runs `first_pass` and then `encode` on its
 * result): under an error-free first pass and ASCII-only strings, the address the
 * first pass binds to every label is the address at which the encoder emits that
 * line; under ASCII-only strings alone, the machine code has `word_count`
 * summed over all lines.
 */
module Pipeline {
  import opened Common
  import opened Errors
  import opened Ast
  import opened Symbols
  import opened FirstPass
  import opened Encoder
  import opened Tokens
  import opened Parser

  /** Every `.STRINGZ` operand is ASCII, so its UTF-8 length is its character count. */
  predicate AsciiStrings(lines: seq<SourceLine>) {
    forall k :: 0 <= k < |lines| && lines[k].content.Stringz? ==> IsAscii(lines[k].content.text)
  }

  /** With ASCII strings the encoder emits, line by line, exactly the words the first pass counted. */
  lemma {:induction false} WordsAgree(lines: seq<SourceLine>)
    requires AsciiStrings(lines)
    ensures SumLineWords(lines) == SumWords(lines)
  {
    if |lines| > 0 {
      var ls := lines[..|lines| - 1];
      assert AsciiStrings(ls) by {
        assert forall k :: 0 <= k < |ls| ==> ls[k] == lines[k];
      }
      WordsAgree(ls);
      LineWordsAgree(lines[|lines| - 1].content);
    }
  }

  /** A prefix of lines with ASCII strings has ASCII strings. */
  lemma AsciiPrefix(lines: seq<SourceLine>, k: nat)
    requires AsciiStrings(lines) && k <= |lines|
    ensures AsciiStrings(lines[..k])
  {
    assert forall j :: 0 <= j < k ==> lines[..k][j] == lines[j];
  }

  /** With ASCII strings, the encoder's current address is the origin plus the first pass's word count, wrapped. */
  lemma EncoderAt(t: SymbolTable, orig: u16, ls: seq<SourceLine>)
    requires AsciiStrings(ls)
    ensures EncodeAll(t, orig, ls).cur == AsU16(orig + SumWords(ls))
  {
    WordsAgree(ls);
  }

  /**
   * The cross-pass theorem. When the first pass reports no error and every string
   * is ASCII, each label bound by the first pass holds the encoder's current
   * address on reaching the labelled line.
   */
  lemma PassesAgree(lines: seq<SourceLine>)
    requires Assemble(lines).errors == []
    requires AsciiStrings(lines)
    ensures var fp := Assemble(lines);
      forall k :: 0 <= k < |lines| && Bound(lines, k) && lines[k].labelName.Some? ==>
        Get(fp.table, lines[k].labelName.value) == Some(EncodeAll(fp.table, fp.orig, lines[..k]).cur)
  {
    LabelAddresses(lines);
    LabelsAtEncoder(lines, Assemble(lines).table, Assemble(lines).orig);
  }

  /** Labels bound at the first pass's addresses are bound at the encoder's addresses. */
  lemma LabelsAtEncoder(lines: seq<SourceLine>, t: SymbolTable, orig: u16)
    requires AsciiStrings(lines)
    requires forall k :: 0 <= k < |lines| && Bound(lines, k) && lines[k].labelName.Some? ==>
      Get(t, lines[k].labelName.value) == Some(AddressOf(lines, orig, k))
    ensures forall k :: 0 <= k < |lines| && Bound(lines, k) && lines[k].labelName.Some? ==>
      Get(t, lines[k].labelName.value) == Some(EncodeAll(t, orig, lines[..k]).cur)
  {
    forall k | 0 <= k < |lines| && Bound(lines, k) && lines[k].labelName.Some?
      ensures Get(t, lines[k].labelName.value) == Some(EncodeAll(t, orig, lines[..k]).cur)
    {
      AsciiPrefix(lines, k);
      EncoderAt(t, orig, lines[..k]);
    }
  }

  /**
   * The machine code of an ASCII-only program, with or without errors, has
   * `word_count` summed over all its lines, and starts at the first pass's origin.
   */
  lemma CodeSize(lines: seq<SourceLine>)
    requires AsciiStrings(lines)
    ensures |Encode(Assemble(lines)).machineCode| == SumWords(lines)
    ensures Encode(Assemble(lines)).origAddress == Assemble(lines).orig
  {
    WordsAgree(lines);
  }

  /**
   * Every instruction the encoder emits after an error-free first pass, and whose
   * label it resolves without error, reaches its label: the word's offset field,
   * sign-extended and added to the incremented PC, is the address the first pass
   * bound to the label. The proof holds for any table (`EncodeAllReaches`); the
   * error-free requirement only frames the theorem around the table the first
   * pass hands to the encoder on a successful assembly.
   */
  lemma TargetsAgree(lines: seq<SourceLine>, k: nat)
    requires Assemble(lines).errors == []
    requires k < |lines| && lines[k].content.Instr? && HasTarget(lines[k].content.instr)
    ensures var fp := Assemble(lines); var e := EncodeAll(fp.table, fp.orig, lines[..k]);
      && e.table == fp.table
      && (EncodeInstruction(e, lines[k].content.instr, lines[k].pos).errors == e.errors ==>
            Reaches(e, lines[k].content.instr, lines[k].pos))
  {
    EncodeAllReaches(Assemble(lines).table, Assemble(lines).orig, lines, k);
  }

  /** `TargetsAgree` for any table and origin the encoder is given. */
  lemma EncodeAllReaches(table: SymbolTable, orig: u16, lines: seq<SourceLine>, k: nat)
    requires k < |lines| && lines[k].content.Instr? && HasTarget(lines[k].content.instr)
    ensures var e := EncodeAll(table, orig, lines[..k]);
      && e.table == table
      && (EncodeInstruction(e, lines[k].content.instr, lines[k].pos).errors == e.errors ==>
            Reaches(e, lines[k].content.instr, lines[k].pos))
  {
    var e := EncodeAll(table, orig, lines[..k]);
    if EncodeInstruction(e, lines[k].content.instr, lines[k].pos).errors == e.errors {
      EncodedTargetReached(e, lines[k].content.instr, lines[k].pos);
    }
  }

  /**
   * The encoder walks every line, `.END` or not: a `.FILL` after `.END` is still
   * emitted, although the first pass stopped counting there.
   */
  lemma EncodesAfterEnd(at: Position)
    ensures var lines := [SourceLine(None, Orig(0x3000), 1, at),
                          SourceLine(None, End, 2, at),
                          SourceLine(None, FillImmediate(7), 3, at)];
      && Assemble(lines).errors == []
      && Run(lines).lc == Some(0x3000)
      && Encode(Assemble(lines)).machineCode == [7]
  {
    var lines := [SourceLine(None, Orig(0x3000), 1, at),
                  SourceLine(None, End, 2, at),
                  SourceLine(None, FillImmediate(7), 3, at)];
    assert lines[..1][..0] == [] && lines[..1][0] == lines[0];
    assert Run(lines[..1][..0]) == Start();
    var p1 := Run(lines[..1]);
    assert p1 == Step(Start(), lines[0]);
    assert p1.lc == Some(0x3000) && p1.errors == [] && p1.state.Processing?;
    assert lines[..2][..1] == lines[..1];
    var p2 := Run(lines[..2]);
    assert p2 == Process(p1, lines[1]);
    assert p2.lc == Some(0x3000) && p2.errors == [] && p2.state.AfterEnd?;
    assert lines[..2] == lines[..|lines| - 1];
    assert Run(lines) == p2;
    assert HasEnd(lines) by { assert lines[1].content.End?; }
    assert !AllEmpty(lines) by { assert !lines[0].content.Empty?; }
    assert SumLineWords(lines[..2]) == 0 by {
      assert SumLineWords(lines[..1]) == 0;
    }
    var fp := Assemble(lines);
    var e2 := EncodeAll(fp.table, fp.orig, lines[..2]);
    assert EncodeAll(fp.table, fp.orig, lines) == EncodeLine(e2, lines[2]);
  }

  /**
   * A non-ASCII string breaks the agreement: `"é"` occupies three words for the
   * first pass (two UTF-8 bytes and the terminator) but the encoder emits two, so
   * a label after it is one address past the word the encoder places there.
   */
  lemma NonAsciiStringShifts()
    ensures var c := Stringz("é");
      WordCount(c) == 3 && LineWords(c) == 2
  {
    var s := "é";
    assert !IsAscii(s) by {
      assert s[0] as int == 0xE9;
    }
    LineWordsAgree(Stringz(s));
    assert Utf8Len(s) == 2;
  }
  /**
   * An immediate that does not fit in five bits is neither refused by the parser
   * nor by the encoder: `ADD R1, R1, #100` is accepted and encoded with the low five
   * bits of 100, so the processor adds 4.
   */
  lemma Imm5Truncated(at: Position)
    ensures var tokens := [Token(OpAdd, at), Token(Register(1), at), Token(Comma, at),
                           Token(Register(1), at), Token(Comma, at), Token(NumDecimal(100), at)];
      && ParseContent(tokens) == Ok(Instr(AddImm(1, 1, 100)))
      && SignedField(Imm5Field(InstrWord(AddImm(1, 1, 100), 0)), 5) == 4
  {
    OperateImmFields(AddImm(1, 1, 100));
    assert SignExtend(100, 5) == 4 by {
      Pow2Values();
    }
  }
}
