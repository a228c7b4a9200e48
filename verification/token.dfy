/**
 * Token kinds of the LC-3 assembly language and the branch condition flags
 * (lexer/token.rs).
 */
module Tokens {
  import opened Common
  import opened Errors

  /** Condition flags of a BR instruction: negative, zero, positive. */
  datatype BrFlags = BrFlags(n: bool, z: bool, p: bool)

  datatype TokenKind =
    // opcodes
    | OpAdd | OpAnd | OpNot | OpBr(flags: BrFlags) | OpJmp | OpJsr | OpJsrr
    | OpLd | OpLdi | OpLdr | OpLea | OpSt | OpSti | OpStr | OpTrap | OpRti
    // pseudo-ops
    | PseudoRet | PseudoGetc | PseudoOut | PseudoPuts | PseudoIn | PseudoPutsp | PseudoHalt
    // directives
    | DirOrig | DirEnd | DirFill | DirBlkw | DirStringz
    // operands
    | Register(reg: Reg)
    | NumDecimal(value: i32)
    | NumHex(value: i32)
    | NumBinary(value: i32)
    | StringLiteral(text: string)
    | Label(name: string)
    // punctuation and structure
    | Comma
    | Newline
    | Comment(text: string)
    | Eof

  /** A token with the position of its first character; the lexeme is not modelled. */
  datatype Token = Token(kind: TokenKind, pos: Position)

  /** `BrFlags::parse` on an already upper-cased word. */
  function ParseBrFlags(s: string): (r: Option<BrFlags>)
    ensures r.Some? <==> |s| >= 2 && s[..2] == "BR" && forall i :: 2 <= i < |s| ==> s[i] in "NZP"
    ensures r.Some? && |s| == 2 ==> r.value == BrFlags(true, true, true)
    ensures r.Some? && |s| > 2 ==> r.value == BrFlags('N' in s[2..], 'Z' in s[2..], 'P' in s[2..])
    ensures r.Some? ==> r.value.n || r.value.z || r.value.p
  {
    if |s| < 2 || s[..2] != "BR" then None
    else if |s| == 2 then Some(BrFlags(true, true, true))
    else
      var r := ScanFlags(s[2..], BrFlags(false, false, false));
      assert r.Some? ==> s[2] in s[2..];
      r
  }

  /** The character loop of `BrFlags::parse`: each of N, Z, P sets its flag, anything else fails. */
  function ScanFlags(rest: string, acc: BrFlags): (r: Option<BrFlags>)
    ensures r.Some? <==> forall i :: 0 <= i < |rest| ==> rest[i] in "NZP"
    ensures r.Some? ==> r.value == BrFlags(acc.n || 'N' in rest, acc.z || 'Z' in rest, acc.p || 'P' in rest)
    decreases |rest|
  {
    if |rest| == 0 then Some(acc)
    else
      var next :=
        if rest[0] == 'N' then Some(acc.(n := true))
        else if rest[0] == 'Z' then Some(acc.(z := true))
        else if rest[0] == 'P' then Some(acc.(p := true))
        else None;
      if next.None? then None
      else
        var r := ScanFlags(rest[1..], next.value);
        assert forall c :: c in rest <==> c == rest[0] || c in rest[1..];
        r
  }

  /** `BrFlags::as_u16`: the 3-bit field [N][Z][P]. */
  function FlagBits(f: BrFlags): (r: nat)
    ensures r < 8
    ensures f.n <==> r / 4 == 1
    ensures f.z <==> (r / 2) % 2 == 1
    ensures f.p <==> r % 2 == 1
  {
    (if f.n then 4 else 0) + (if f.z then 2 else 0) + (if f.p then 1 else 0)
  }

  /** `Display for BrFlags`: the set flags as lower-case letters in the order n, z, p. */
  function FlagsText(f: BrFlags): (r: string)
    ensures |r| <= 3
    ensures 'n' in r <==> f.n
    ensures 'z' in r <==> f.z
    ensures 'p' in r <==> f.p
    ensures forall i, j :: 0 <= i < j < |r| ==> FlagRank(r[i]) < FlagRank(r[j])
  {
    (if f.n then "n" else "") + (if f.z then "z" else "") + (if f.p then "p" else "")
  }

  /** Position of a flag letter in the fixed n, z, p order. */
  function FlagRank(c: char): nat {
    if c == 'n' then 0 else if c == 'z' then 1 else 2
  }

  /** `TokenKind::is_instruction_or_directive`. */
  predicate IsInstructionOrDirective(k: TokenKind)
    // exactly the kinds that are not operands, punctuation or the end marker
    ensures IsInstructionOrDirective(k) <==> !IsOperandOrPunctuation(k)
  {
    || k.OpAdd? || k.OpAnd? || k.OpNot? || k.OpBr?
    || k.OpJmp? || k.OpJsr? || k.OpJsrr? || k.OpRti?
    || k.OpLd? || k.OpLdi? || k.OpLdr? || k.OpLea? || k.OpSt? || k.OpSti? || k.OpStr?
    || k.OpTrap? || k.PseudoRet? || k.PseudoGetc? || k.PseudoOut? || k.PseudoPuts?
    || k.PseudoIn? || k.PseudoPutsp? || k.PseudoHalt?
    || k.DirOrig? || k.DirEnd? || k.DirFill? || k.DirBlkw? || k.DirStringz?
  }

  /** The operand and punctuation kinds: everything that does not start an instruction or directive. */
  predicate IsOperandOrPunctuation(k: TokenKind) {
    || k.Register? || k.NumDecimal? || k.NumHex? || k.NumBinary? || k.StringLiteral?
    || k.Label? || k.Comma? || k.Newline? || k.Comment? || k.Eof?
  }

  /** The flag field is injective: different flag sets encode to different bits. */
  lemma FlagBitsInjective(a: BrFlags, b: BrFlags)
    requires FlagBits(a) == FlagBits(b)
    ensures a == b
  {
  }

  /**
   * Printing flags and reading them back (after the lexer's upper-casing) gives the
   * same flags, provided at least one flag is set: bare "BR" means all three.
   */
  lemma FlagsTextRoundTrip(f: BrFlags)
    ensures ParseBrFlags("BR" + Upper(FlagsText(f))) ==
            if f.n || f.z || f.p then Some(f) else Some(BrFlags(true, true, true))
  {
    UpperFlagsText(f);
    var w := (if f.n then "N" else "") + (if f.z then "Z" else "") + (if f.p then "P" else "");
    ScanFlagsText(f);
    if f.n || f.z || f.p {
      assert ("BR" + w)[2..] == w && |"BR" + w| > 2;
    } else {
      assert "BR" + w == "BR";
    }
  }

  /** Scanning the capital letters of a set of flags yields exactly those flags. */
  lemma ScanFlagsText(f: BrFlags)
    ensures ScanFlags((if f.n then "N" else "") + (if f.z then "Z" else "") + (if f.p then "P" else ""),
                      BrFlags(false, false, false)) == Some(f)
  {
    var w := (if f.n then "N" else "") + (if f.z then "Z" else "") + (if f.p then "P" else "");
    assert forall i :: 0 <= i < |w| ==> w[i] in "NZP";
    assert 'N' in w <==> f.n;
    assert 'Z' in w <==> f.z;
    assert 'P' in w <==> f.p;
  }

  /** Upper-casing the printed flags gives the capital letters of the set flags, in order. */
  lemma UpperFlagsText(f: BrFlags)
    ensures Upper(FlagsText(f)) ==
            (if f.n then "N" else "") + (if f.z then "Z" else "") + (if f.p then "P" else "")
  {
    var a, b, c := if f.n then "n" else "", if f.z then "z" else "", if f.p then "p" else "";
    assert FlagsText(f) == a + b + c;
    UpperAppend(a + b, c);
    UpperAppend(a, b);
    UpperLetter('n');
    UpperLetter('z');
    UpperLetter('p');
  }

  /** Upper-casing a concatenation upper-cases each part. */
  lemma UpperAppend(a: string, b: string)
    ensures Upper(a + b) == Upper(a) + Upper(b)
  {
    assert forall i :: 0 <= i < |a + b| ==> Upper(a + b)[i] == (Upper(a) + Upper(b))[i];
  }

  /** Upper-casing one flag letter. */
  lemma UpperLetter(c: char)
    requires c in "nzp"
    ensures Upper([c]) == [UpperChar(c)] && UpperChar(c) == (if c == 'n' then 'N' else if c == 'z' then 'Z' else 'P')
  {
  }
}
