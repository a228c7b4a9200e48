/**
 * The first pass (first_pass/mod.rs): a three-state walk over the parsed lines
 * that binds every label to the location counter, tracks the origin, and
 * reports structural errors. The loop is modelled as a left fold of `Step`.
 */
module FirstPass {
  import opened Common
  import opened Errors
  import opened Ast
  import opened Symbols

  datatype State = WaitingForOrig | Processing | AfterEnd

  /** The loop's variables between two lines. */
  datatype Pass = Pass(table: SymbolTable, errors: seq<AsmError>, lc: Option<u16>, orig: u16, state: State)

  datatype FirstPassResult = FirstPassResult(table: SymbolTable, lines: seq<SourceLine>, orig: u16, errors: seq<AsmError>)

  /** The origin assumed when code appears before any `.ORIG`. */
  const DEFAULT_ORIG: u16 := 0x3000

  /** Where the end-of-input checks report. */
  const START: Position := Position(1, 1)

  /** The location counter is set exactly when an origin has been seen or assumed. */
  predicate Consistent(p: Pass) {
    (p.lc.None? <==> p.state.WaitingForOrig?) && (p.state.WaitingForOrig? ==> p == Start())
  }

  function Start(): (p: Pass)
    ensures p.errors == [] && forall n :: Get(p.table, n).None?
  {
    Pass(New(), [], None, 0, WaitingForOrig)
  }

  /** The table's bindings are all still present, unchanged, in `after`. */
  ghost predicate Keeps(before: SymbolTable, after: SymbolTable) {
    forall n :: Get(before, n).Some? ==> Get(after, n) == Get(before, n)
  }

  /** `errors` grows to `after`, and every added error is reported at `at`. */
  predicate Extends(before: seq<AsmError>, after: seq<AsmError>, at: Position) {
    |before| <= |after| && after[..|before|] == before
    && forall i :: |before| <= i < |after| ==> after[i].at == at
  }

  /**
   * `record_label`: a new label is bound to `address`; a label already bound keeps
   * its first address and a DuplicateLabel error names that address.
   */
  function RecordLabel(table: SymbolTable, errors: seq<AsmError>, name: string, address: u16, at: Position)
    : (r: (SymbolTable, seq<AsmError>))
    ensures Keeps(table, r.0) && Get(r.0, name).Some?
    ensures forall n :: n != name ==> Get(r.0, n) == Get(table, n)
    ensures Get(table, name).None? ==> Get(r.0, name) == Some(address) && r.1 == errors
    ensures Get(table, name).Some? ==>
      r.0 == table && r.1 == errors + [DuplicateLabelError(name, Get(table, name).value, at)]
  {
    match Get(table, name)
    case Some(first) => (table, errors + [DuplicateLabelError(name, first, at)])
    case None => (Insert(table, name, address), errors)
  }

  /** The line's label, if any, recorded at `address`. */
  function LabelLine(table: SymbolTable, errors: seq<AsmError>, line: SourceLine, address: u16)
    : (r: (SymbolTable, seq<AsmError>))
    ensures Keeps(table, r.0) && Extends(errors, r.1, line.pos)
    ensures forall n :: Some(n) != line.labelName ==> Get(r.0, n) == Get(table, n)
    ensures r.1 == errors <==> Fresh(table, line)
    ensures line.labelName.Some? ==>
      Get(r.0, line.labelName.value) == (if Fresh(table, line) then Some(address) else Get(table, line.labelName.value))
  {
    match line.labelName
    case None => (table, errors)
    case Some(name) => RecordLabel(table, errors, name, address, line.pos)
  }

  /** The line has no label, or a label not bound yet. */
  predicate Fresh(table: SymbolTable, line: SourceLine) {
    line.labelName.None? || Get(table, line.labelName.value).None?
  }

  /**
   * The location-counter update: an overflow is reported exactly when the words
   * run past the end of the address space, and the counter then sticks at 0xFFFF.
   * A block ending exactly at the top is accepted, and the counter wraps to 0.
   */
  function Advance(lc: u16, words: nat): (r: (u16, bool))
    ensures r.1 <==> lc + words > 0x1_0000
    ensures r.1 ==> r.0 == 0xFFFF
    ensures !r.1 && lc + words < 0x1_0000 ==> r.0 == lc + words
    ensures lc + words == 0x1_0000 ==> r.0 == 0
  {
    var next := lc + words;
    if next > 0x1_0000 then (0xFFFF, true)
    else if next == 0x1_0000 then (0, false)
    else (next, false)
  }

  /** A line the Processing state accepts without an error. */
  predicate Clean(p: Pass, line: SourceLine)
    requires p.lc.Some?
  {
    Fresh(p.table, line) && !line.content.Orig? && line.content != Blkw(0)
    && p.lc.value + WordCount(line.content) <= 0x1_0000
  }

  /** The body of the loop in the Processing state (first_pass/mod.rs, lines 88-132). */
  function Process(p: Pass, line: SourceLine): (q: Pass)
    requires p.lc.Some?
    ensures q.lc == Some(Advance(p.lc.value, WordCount(line.content)).0)
    ensures q.orig == p.orig
    ensures q.state == if line.content.End? then AfterEnd else p.state
    ensures Keeps(p.table, q.table) && Extends(p.errors, q.errors, line.pos)
    ensures forall n :: Some(n) != line.labelName ==> Get(q.table, n) == Get(p.table, n)
    ensures line.labelName.Some? ==> Get(q.table, line.labelName.value).Some?
    ensures line.labelName.Some? && Fresh(p.table, line) ==> Get(q.table, line.labelName.value) == p.lc
    ensures q.errors == p.errors <==> Clean(p, line)
  {
    var lc := p.lc.value;
    var (table, errors) := LabelLine(p.table, p.errors, line, lc);
    var (errors, next) := LineChecks(errors, line, lc);
    Pass(table, errors, Some(next), p.orig, if line.content.End? then AfterEnd else p.state)
  }

  /**
   * The checks after the label (first_pass/mod.rs, lines 95-132): a second
   * `.ORIG` and an empty `.BLKW` are reported, then the counter is advanced
   * and an overflow reported.
   */
  function LineChecks(errors: seq<AsmError>, line: SourceLine, lc: u16): (r: (seq<AsmError>, u16))
    ensures r.1 == Advance(lc, WordCount(line.content)).0
    ensures Extends(errors, r.0, line.pos)
    ensures r.0 == errors <==> !line.content.Orig? && line.content != Blkw(0) && lc + WordCount(line.content) <= 0x1_0000
  {
    var errors' := match line.content
      case Orig(_) => errors + [NewError(MultipleOrig, line.pos)]
      case Blkw(0) => errors + [NewError(InvalidBlkwCount, line.pos)]
      case _ => errors;
    var (next, overflow) := Advance(lc, WordCount(line.content));
    (if overflow then errors' + [NewError(AddressOverflow, line.pos)] else errors', next)
  }

  /** One iteration of the loop over the lines (first_pass/mod.rs, lines 60-133). */
  function Step(p: Pass, line: SourceLine): (q: Pass)
    requires Consistent(p)
    ensures Consistent(q)
    ensures Keeps(p.table, q.table) && Extends(p.errors, q.errors, line.pos)
    ensures forall n :: Some(n) != line.labelName ==> Get(q.table, n) == Get(p.table, n)
    ensures line.labelName.Some? && (p.state.Processing? || (p.state.WaitingForOrig? && !line.content.Empty?)) ==>
      Get(q.table, line.labelName.value).Some?
    ensures p.state.AfterEnd? ==> q == p
    ensures p.state.WaitingForOrig? && line.content.Empty? ==> q == p
    ensures p.state.WaitingForOrig? && line.content.Orig? ==>
      q.state.Processing? && q.orig == line.content.addr && q.lc == Some(line.content.addr)
      && q.errors == p.errors
      && (line.labelName.Some? ==> Get(q.table, line.labelName.value) == q.lc)
    ensures p.state.WaitingForOrig? && !line.content.Empty? && !line.content.Orig? ==>
      q.orig == DEFAULT_ORIG && |q.errors| > |p.errors| && q.errors[|p.errors|] == NewError(MissingOrig, line.pos)
  {
    match p.state
    case WaitingForOrig =>
      (match line.content
       case Orig(addr) =>
         var (table, errors) := LabelLine(p.table, p.errors, line, addr);
         Pass(table, errors, Some(addr), addr, Processing)
       case Empty => p
       case _ =>
         Process(Pass(p.table, p.errors + [NewError(MissingOrig, line.pos)], Some(DEFAULT_ORIG), DEFAULT_ORIG, Processing), line))
    case AfterEnd => p
    case Processing => Process(p, line)
  }

  /** The loop state after the given lines. */
  function Run(lines: seq<SourceLine>): (p: Pass)
    ensures Consistent(p)
  {
    if |lines| == 0 then Start() else Step(Run(lines[..|lines| - 1]), lines[|lines| - 1])
  }

  /** `first_pass`: the loop, then the end-of-input checks for a missing origin and end. */
  function Assemble(lines: seq<SourceLine>): (r: FirstPassResult)
    ensures r.lines == lines
    ensures AllEmpty(lines) ==> r.errors == [NewError(MissingOrig, START), NewError(MissingEnd, START)]
    ensures !AllEmpty(lines) && HasEnd(lines) ==> r.errors == Run(lines).errors
    ensures !HasEnd(lines) ==> |r.errors| > 0 && r.errors[|r.errors| - 1] == NewError(MissingEnd, START)
    ensures r.errors == [] ==> !AllEmpty(lines) && HasEnd(lines)
  {
    RunState(lines);
    var p := Run(lines);
    var missingOrig := if p.state.WaitingForOrig? then [NewError(MissingOrig, START)] else [];
    var missingEnd := if !p.state.AfterEnd? then [NewError(MissingEnd, START)] else [];
    FirstPassResult(p.table, lines, p.orig, p.errors + missingOrig + missingEnd)
  }

  // ---------------------------------------------------------------------------
  // Reference notions over the line list

  /** No line has content. */
  predicate AllEmpty(lines: seq<SourceLine>) {
    forall i :: 0 <= i < |lines| ==> lines[i].content.Empty?
  }

  /** Some line is `.END`. */
  predicate HasEnd(lines: seq<SourceLine>) {
    exists i :: 0 <= i < |lines| && lines[i].content.End?
  }

  /** The content of the first line that has any. */
  function Leading(lines: seq<SourceLine>): (r: Option<LineContent>)
    ensures r.None? <==> AllEmpty(lines)
    ensures r.Some? ==> !r.value.Empty?
  {
    if |lines| == 0 then None
    else if Leading(lines[..|lines| - 1]).Some? then Leading(lines[..|lines| - 1])
    else if lines[|lines| - 1].content.Empty? then None
    else Some(lines[|lines| - 1].content)
  }

  /** The words the lines occupy, by `word_count`. */
  function SumWords(lines: seq<SourceLine>): nat {
    if |lines| == 0 then 0 else SumWords(lines[..|lines| - 1]) + WordCount(lines[|lines| - 1].content)
  }

  /** How many errors have the given kind. */
  function CountKind(errors: seq<AsmError>, k: ErrorKind): (r: nat)
    ensures r <= |errors|
  {
    if |errors| == 0 then 0
    else CountKind(errors[..|errors| - 1], k) + (if errors[|errors| - 1].kind == k then 1 else 0)
  }

  /**
   * Line `k` is reached in the Processing state: some line up to it has content
   * and no `.END` comes before it.
   */
  predicate Bound(lines: seq<SourceLine>, k: nat) {
    k < |lines| && Leading(lines[..k + 1]).Some? && !HasEnd(lines[..k])
  }

  /** The address of line `k` counted from `orig`, wrapping as the counter does. */
  function AddressOf(lines: seq<SourceLine>, orig: u16, k: nat): u16
    requires k <= |lines|
  {
    AsU16(orig + SumWords(lines[..k]))
  }

  // ---------------------------------------------------------------------------
  // Properties of the walk

  /** How each notion over a non-empty line list extends the one over all but its last line. */
  lemma Snoc(lines: seq<SourceLine>)
    requires |lines| > 0
    ensures var ls := lines[..|lines| - 1]; var x := lines[|lines| - 1];
      (AllEmpty(lines) <==> AllEmpty(ls) && x.content.Empty?)
      && (HasEnd(lines) <==> HasEnd(ls) || x.content.End?)
      && lines[..|lines|] == lines
  {
    var ls := lines[..|lines| - 1];
    if HasEnd(lines) && !lines[|lines| - 1].content.End? {
      var i :| 0 <= i < |lines| && lines[i].content.End?;
      assert ls[i].content.End?;
    }
    if HasEnd(ls) {
      var i :| 0 <= i < |ls| && ls[i].content.End?;
      assert lines[i].content.End?;
    }
  }

  /** An earlier line seen through the longer list: same line, same reach, same address. */
  lemma Earlier(lines: seq<SourceLine>, k: nat, o: u16)
    requires k < |lines| - 1
    ensures var ls := lines[..|lines| - 1];
      lines[k] == ls[k] && (Bound(lines, k) <==> Bound(ls, k)) && AddressOf(lines, o, k) == AddressOf(ls, o, k)
  {
    var ls := lines[..|lines| - 1];
    assert lines[..k + 1] == ls[..k + 1];
    assert lines[..k] == ls[..k];
  }

  /**
   * The state after a prefix is determined by the lines alone: Waiting until a line
   * has content (and then nothing has happened at all), AfterEnd once a line is
   * `.END`, and the origin is the leading `.ORIG` operand or the default.
   */
  lemma {:induction false} RunState(lines: seq<SourceLine>)
    ensures Run(lines).state.WaitingForOrig? <==> AllEmpty(lines)
    ensures Run(lines).state.WaitingForOrig? ==> Run(lines) == Start()
    ensures Run(lines).state.AfterEnd? <==> HasEnd(lines)
    ensures Leading(lines).Some? && Leading(lines).value.Orig? ==> Run(lines).orig == Leading(lines).value.addr
    ensures Leading(lines).Some? && !Leading(lines).value.Orig? ==> Run(lines).orig == DEFAULT_ORIG
  {
    if |lines| > 0 {
      RunState(lines[..|lines| - 1]);
      Snoc(lines);
    }
  }

  /**
   * MissingOrig is reported once, unless the first line with content is `.ORIG`,
   * in which case it is not reported at all.
   */
  lemma {:induction false} MissingOrigCount(lines: seq<SourceLine>)
    ensures CountKind(Assemble(lines).errors, MissingOrig) ==
      if Leading(lines).Some? && Leading(lines).value.Orig? then 0 else 1
  {
    RunMissingOrig(lines);
    RunState(lines);
    AssembleErrors(lines);
    EndChecksCount(Run(lines), Assemble(lines).errors);
  }

  /** The end-of-input checks add one MissingOrig exactly when the loop is still waiting. */
  lemma EndChecksCount(p: Pass, errors: seq<AsmError>)
    requires errors == p.errors
      + (if p.state.WaitingForOrig? then [NewError(MissingOrig, START)] else [])
      + (if !p.state.AfterEnd? then [NewError(MissingEnd, START)] else [])
    ensures CountKind(errors, MissingOrig) == CountKind(p.errors, MissingOrig) + (if p.state.WaitingForOrig? then 1 else 0)
  {
    var missingOrig := if p.state.WaitingForOrig? then [NewError(MissingOrig, START)] else [];
    var missingEnd := if !p.state.AfterEnd? then [NewError(MissingEnd, START)] else [];
    assert errors == p.errors + missingOrig + missingEnd + [];
    CountParts(p.errors, missingOrig, missingEnd, [], MissingOrig);
  }

  /** The errors of `first_pass`: those of the loop, then the end-of-input checks. */
  lemma AssembleErrors(lines: seq<SourceLine>)
    ensures Assemble(lines).errors == Run(lines).errors
      + (if Run(lines).state.WaitingForOrig? then [NewError(MissingOrig, START)] else [])
      + (if !Run(lines).state.AfterEnd? then [NewError(MissingEnd, START)] else [])
  {
  }

  /** The kinds of error a line in the Processing state can add. */
  predicate LineKind(k: ErrorKind) {
    k.DuplicateLabel? || k.MultipleOrig? || k.InvalidBlkwCount? || k.AddressOverflow?
  }

  /** Counting a kind over appended errors none of which has that kind. */
  lemma {:induction false} CountUnchanged(before: seq<AsmError>, after: seq<AsmError>, k: ErrorKind)
    requires |before| <= |after| && after[..|before|] == before
    requires forall i :: |before| <= i < |after| ==> after[i].kind != k
    ensures CountKind(after, k) == CountKind(before, k)
    decreases |after|
  {
    if |after| > |before| {
      var a := after[..|after| - 1];
      assert a[..|before|] == before;
      CountUnchanged(before, a, k);
    } else {
      assert after == before;
    }
  }

  /** Counting a kind over two lists is counting over each. */
  lemma {:induction false} CountAppend(a: seq<AsmError>, b: seq<AsmError>, k: ErrorKind)
    ensures CountKind(a + b, k) == CountKind(a, k) + CountKind(b, k)
    decreases |b|
  {
    if |b| > 0 {
      var b' := b[..|b| - 1];
      assert (a + b)[..|a + b| - 1] == a + b';
      CountAppend(a, b', k);
    } else {
      assert a + b == a;
    }
  }

  /**
   * The errors a line in the Processing state adds, in the order the loop reports
   * them: a duplicate label, then MultipleOrig or InvalidBlkwCount, then an overflow.
   */
  lemma ProcessErrors(p: Pass, line: SourceLine)
    requires p.lc.Some?
    ensures Process(p, line).errors == p.errors
      + (if Fresh(p.table, line) then []
         else [DuplicateLabelError(line.labelName.value, Get(p.table, line.labelName.value).value, line.pos)])
      + (if line.content.Orig? then [NewError(MultipleOrig, line.pos)]
         else if line.content == Blkw(0) then [NewError(InvalidBlkwCount, line.pos)] else [])
      + (if p.lc.value + WordCount(line.content) > 0x1_0000 then [NewError(AddressOverflow, line.pos)] else [])
  {
  }

  /**
   * How many errors of each kind a line in the Processing state adds: one
   * DuplicateLabel for a label already bound, one MultipleOrig for `.ORIG`, one
   * InvalidBlkwCount for `.BLKW 0`, one AddressOverflow when the words run past
   * the top of memory, and nothing of any other kind.
   */
  lemma ProcessCounts(p: Pass, line: SourceLine, k: ErrorKind)
    requires p.lc.Some?
    ensures CountKind(Process(p, line).errors, k) == CountKind(p.errors, k)
      + (if k == DuplicateLabel && !Fresh(p.table, line) then 1 else 0)
      + (if k == MultipleOrig && line.content.Orig? then 1 else 0)
      + (if k == InvalidBlkwCount && line.content == Blkw(0) then 1 else 0)
      + (if k == AddressOverflow && p.lc.value + WordCount(line.content) > 0x1_0000 then 1 else 0)
  {
    ProcessErrors(p, line);
    LineCounts(p, line, Process(p, line).errors, k);
  }

  /** The counts of `ProcessCounts`, for the error list `ProcessErrors` describes. */
  lemma LineCounts(p: Pass, line: SourceLine, errors: seq<AsmError>, k: ErrorKind)
    requires p.lc.Some?
    requires errors == p.errors
      + (if Fresh(p.table, line) then []
         else [DuplicateLabelError(line.labelName.value, Get(p.table, line.labelName.value).value, line.pos)])
      + (if line.content.Orig? then [NewError(MultipleOrig, line.pos)]
         else if line.content == Blkw(0) then [NewError(InvalidBlkwCount, line.pos)] else [])
      + (if p.lc.value + WordCount(line.content) > 0x1_0000 then [NewError(AddressOverflow, line.pos)] else [])
    ensures CountKind(errors, k) == CountKind(p.errors, k)
      + (if k == DuplicateLabel && !Fresh(p.table, line) then 1 else 0)
      + (if k == MultipleOrig && line.content.Orig? then 1 else 0)
      + (if k == InvalidBlkwCount && line.content == Blkw(0) then 1 else 0)
      + (if k == AddressOverflow && p.lc.value + WordCount(line.content) > 0x1_0000 then 1 else 0)
  {
    var dup := if Fresh(p.table, line) then []
      else [DuplicateLabelError(line.labelName.value, Get(p.table, line.labelName.value).value, line.pos)];
    var dir := if line.content.Orig? then [NewError(MultipleOrig, line.pos)]
      else if line.content == Blkw(0) then [NewError(InvalidBlkwCount, line.pos)] else [];
    var ovf := if p.lc.value + WordCount(line.content) > 0x1_0000 then [NewError(AddressOverflow, line.pos)] else [];
    CountParts(p.errors, dup, dir, ovf, k);
  }

  /** Counting over a list followed by three parts of at most one error each. */
  lemma CountParts(base: seq<AsmError>, dup: seq<AsmError>, dir: seq<AsmError>, ovf: seq<AsmError>, k: ErrorKind)
    requires |dup| <= 1 && |dir| <= 1 && |ovf| <= 1
    ensures CountKind(base + dup + dir + ovf, k) == CountKind(base, k)
      + (if |dup| == 1 && dup[0].kind == k then 1 else 0)
      + (if |dir| == 1 && dir[0].kind == k then 1 else 0)
      + (if |ovf| == 1 && ovf[0].kind == k then 1 else 0)
  {
    CountAppend(base + dup + dir, ovf, k);
    CountAppend(base + dup, dir, k);
    CountAppend(base, dup, k);
    assert CountKind(dup, k) == (if |dup| == 1 && dup[0].kind == k then 1 else 0) by { CountAtMostOne(dup, k); }
    assert CountKind(dir, k) == (if |dir| == 1 && dir[0].kind == k then 1 else 0) by { CountAtMostOne(dir, k); }
    assert CountKind(ovf, k) == (if |ovf| == 1 && ovf[0].kind == k then 1 else 0) by { CountAtMostOne(ovf, k); }
  }

  lemma CountAtMostOne(es: seq<AsmError>, k: ErrorKind)
    requires |es| <= 1
    ensures CountKind(es, k) == if |es| == 1 && es[0].kind == k then 1 else 0
  {
    if |es| == 1 {
      assert es[..0] == [];
    }
  }

  /** Every error a line in the Processing state adds has one of the line kinds. */
  lemma ProcessKinds(p: Pass, line: SourceLine)
    requires p.lc.Some?
    ensures forall i :: |p.errors| <= i < |Process(p, line).errors| ==> LineKind(Process(p, line).errors[i].kind)
  {
  }

  /** The loop itself reports MissingOrig at most once, at the first line with content. */
  lemma {:induction false} RunMissingOrig(lines: seq<SourceLine>)
    ensures CountKind(Run(lines).errors, MissingOrig) ==
      if Leading(lines).None? || Leading(lines).value.Orig? then 0 else 1
  {
    if |lines| > 0 {
      var ls := lines[..|lines| - 1];
      var x := lines[|lines| - 1];
      RunMissingOrig(ls);
      RunState(ls);
      var p := Run(ls);
      assert Run(lines) == Step(p, x);
      if p.state.WaitingForOrig? {
        WaitingMissingOrig(p, x);
      } else {
        assert Leading(ls).Some?;
        LaterMissingOrig(p, x);
      }
    }
  }

  /** Leaving the waiting state reports MissingOrig once, unless the line is `.ORIG`. */
  lemma WaitingMissingOrig(p: Pass, x: SourceLine)
    requires Consistent(p) && p.state.WaitingForOrig?
    ensures CountKind(Step(p, x).errors, MissingOrig) ==
      CountKind(p.errors, MissingOrig) + if x.content.Empty? || x.content.Orig? then 0 else 1
  {
    if !x.content.Empty? && !x.content.Orig? {
      var p1 := Pass(p.table, p.errors + [NewError(MissingOrig, x.pos)], Some(DEFAULT_ORIG), DEFAULT_ORIG, Processing);
      ProcessKinds(p1, x);
      CountUnchanged(p1.errors, Step(p, x).errors, MissingOrig);
      assert p1.errors[..|p1.errors| - 1] == p.errors;
    }
  }

  /** Once an origin is set, no line reports MissingOrig. */
  lemma LaterMissingOrig(p: Pass, x: SourceLine)
    requires Consistent(p) && !p.state.WaitingForOrig?
    ensures CountKind(Step(p, x).errors, MissingOrig) == CountKind(p.errors, MissingOrig)
  {
    if p.state.Processing? {
      ProcessKinds(p, x);
      CountUnchanged(p.errors, Step(p, x).errors, MissingOrig);
    }
  }

  /** Every label in the table belongs to some line reached in the Processing state. */
  ghost predicate Sound(lines: seq<SourceLine>, t: SymbolTable) {
    forall n :: Get(t, n).Some? ==> exists k :: 0 <= k < |lines| && Bound(lines, k) && lines[k].labelName == Some(n)
  }

  /** Every line reached in the Processing state has its label in the table. */
  predicate Complete(lines: seq<SourceLine>, t: SymbolTable) {
    forall k :: 0 <= k < |lines| && Bound(lines, k) && lines[k].labelName.Some? ==> Get(t, lines[k].labelName.value).Some?
  }

  /**
   * With no errors so far, the location counter is the origin plus the words of
   * every line, wrapped to 16 bits, and each label reached is bound to its line's
   * address.
   */
  predicate Addressed(lines: seq<SourceLine>, p: Pass) {
    (p.state.Processing? ==> p.lc == Some(AsU16(p.orig + SumWords(lines))))
    && LabelsAt(lines, p.table, p.orig, |lines|)
  }

  /** Each label reached among the first `upto` lines is bound to its line's address. */
  predicate LabelsAt(lines: seq<SourceLine>, t: SymbolTable, orig: u16, upto: nat) {
    forall k :: 0 <= k < upto && k < |lines| && Bound(lines, k) && lines[k].labelName.Some? ==>
      Get(t, lines[k].labelName.value) == Some(AddressOf(lines, orig, k))
  }

  /** The words of lines that all lack content add up to nothing. */
  lemma {:induction false} SumWordsEmpty(lines: seq<SourceLine>)
    requires AllEmpty(lines)
    ensures SumWords(lines) == 0
  {
    if |lines| > 0 {
      Snoc(lines);
      SumWordsEmpty(lines[..|lines| - 1]);
    }
  }

  /** The state after a prefix, as the walk leaves it. */
  predicate Reached(ls: seq<SourceLine>, p: Pass) {
    Consistent(p) && (p.state.WaitingForOrig? <==> AllEmpty(ls)) && (p.state.AfterEnd? <==> HasEnd(ls))
  }

  /** Bindings that survive a step keep the addresses of the earlier lines. */
  lemma EarlierLabels(lines: seq<SourceLine>, p: Pass, t: SymbolTable, orig: u16)
    requires |lines| > 0
    requires LabelsAt(lines[..|lines| - 1], p.table, p.orig, |lines| - 1)
    requires Keeps(p.table, t)
    requires orig == p.orig || forall n :: Get(p.table, n).None?
    ensures LabelsAt(lines, t, orig, |lines| - 1)
  {
    var ls := lines[..|lines| - 1];
    forall k | 0 <= k < |lines| - 1 && Bound(lines, k) && lines[k].labelName.Some?
      ensures Get(t, lines[k].labelName.value) == Some(AddressOf(lines, orig, k))
    {
      Earlier(lines, k, orig);
      Earlier(lines, k, p.orig);
      assert Bound(ls, k) && ls[k] == lines[k];
    }
  }

  /** The last line's binding completes the invariant. */
  lemma LastLabel(lines: seq<SourceLine>, t: SymbolTable, orig: u16)
    requires |lines| > 0
    requires LabelsAt(lines, t, orig, |lines| - 1)
    requires Bound(lines, |lines| - 1) && lines[|lines| - 1].labelName.Some? ==>
      Get(t, lines[|lines| - 1].labelName.value) == Some(AsU16(orig + SumWords(lines[..|lines| - 1])))
    ensures LabelsAt(lines, t, orig, |lines|)
  {
  }

  /** Advancing a counter that is the wrapped sum `o + s` by `w` words gives the wrapped `o + s + w`. */
  lemma AdvanceFrom(o: u16, s: nat, w: nat, t: nat, lc: u16)
    requires lc == AsU16(o + s) && lc + w <= 0x1_0000 && t == s + w
    ensures Advance(lc, w) == (AsU16(o + t), false)
  {
    AdvanceWrapped(o + s, w, lc);
  }

  /** The words of a line list are those of all but its last line plus the last line's. */
  lemma SumWordsSnoc(lines: seq<SourceLine>)
    requires |lines| > 0
    ensures SumWords(lines) == SumWords(lines[..|lines| - 1]) + WordCount(lines[|lines| - 1].content)
  {
  }

  /** Before any content, every address is the origin. */
  lemma OrigAddress(lines: seq<SourceLine>, o: u16)
    requires |lines| > 0 && AllEmpty(lines[..|lines| - 1]) && lines[|lines| - 1].content.Orig?
    ensures AsU16(o + SumWords(lines)) == o && AsU16(o + SumWords(lines[..|lines| - 1])) == o
  {
    SumWordsEmpty(lines[..|lines| - 1]);
    assert SumWords(lines) == 0;
  }

  /**
   * An error-free line in the Processing state keeps the addressing invariant: the
   * earlier bindings survive, the line's label gets the counter, and the counter
   * advances over the line's words.
   */
  lemma ProcessingAddressed(lines: seq<SourceLine>, p: Pass, q: Pass)
    requires |lines| > 0 && p.state.Processing? && p.lc.Some? && !HasEnd(lines[..|lines| - 1])
    requires Addressed(lines[..|lines| - 1], p)
    requires p.lc.value + WordCount(lines[|lines| - 1].content) <= 0x1_0000
    requires q.orig == p.orig && q.lc == Some(Advance(p.lc.value, WordCount(lines[|lines| - 1].content)).0)
    requires Keeps(p.table, q.table)
    requires lines[|lines| - 1].labelName.Some? ==> Get(q.table, lines[|lines| - 1].labelName.value) == p.lc
    ensures Addressed(lines, q)
  {
    EarlierLabels(lines, p, q.table, q.orig);
    LastLabel(lines, q.table, q.orig);
    SumWordsSnoc(lines);
    AdvanceFrom(p.orig, SumWords(lines[..|lines| - 1]), WordCount(lines[|lines| - 1].content), SumWords(lines), p.lc.value);
  }

  /** The `.ORIG` line that ends the wait starts the addressing invariant. */
  lemma OrigAddressed(lines: seq<SourceLine>, p: Pass, q: Pass)
    requires |lines| > 0 && AllEmpty(lines[..|lines| - 1]) && lines[|lines| - 1].content.Orig?
    requires p == Start()
    requires q.orig == lines[|lines| - 1].content.addr && q.lc == Some(q.orig) && Keeps(p.table, q.table)
    requires lines[|lines| - 1].labelName.Some? ==> Get(q.table, lines[|lines| - 1].labelName.value) == q.lc
    ensures Addressed(lines, q)
  {
    EarlierLabels(lines, p, q.table, q.orig);
    OrigAddress(lines, q.orig);
    LastLabel(lines, q.table, q.orig);
  }

  /** A line that leaves the pass as it was keeps the invariant, since the line is not reached. */
  lemma IdleAddressed(lines: seq<SourceLine>, p: Pass)
    requires |lines| > 0 && !Bound(lines, |lines| - 1) && !p.state.Processing?
    requires Addressed(lines[..|lines| - 1], p)
    ensures Addressed(lines, p)
  {
    EarlierLabels(lines, p, p.table, p.orig);
    LastLabel(lines, p.table, p.orig);
  }

  /** One error-free step keeps the addressing invariant. */
  lemma StepAddressed(lines: seq<SourceLine>)
    requires |lines| > 0
    requires var ls := lines[..|lines| - 1];
      Reached(ls, Run(ls)) && Addressed(ls, Run(ls)) && Run(lines).errors == []
    ensures Addressed(lines, Run(lines))
  {
    var ls := lines[..|lines| - 1];
    var x := lines[|lines| - 1];
    var p := Run(ls);
    var q := Run(lines);
    assert q == Step(p, x);
    Snoc(lines);
    match p.state
    case AfterEnd =>
      IdleAddressed(lines, p);
    case WaitingForOrig =>
      if x.content.Orig? {
        OrigAddressed(lines, p, q);
      } else if x.content.Empty? {
        IdleAddressed(lines, p);
      } else {
        assert false;
      }
    case Processing =>
      assert q == Process(p, x);
      ProcessingAddressed(lines, p, q);
  }

  /** The addressing invariant holds after every error-free prefix. */
  lemma {:induction false} RunAddressed(lines: seq<SourceLine>)
    requires Run(lines).errors == []
    ensures Addressed(lines, Run(lines))
  {
    if |lines| > 0 {
      var ls := lines[..|lines| - 1];
      assert Run(ls).errors == [];
      RunAddressed(ls);
      RunState(ls);
      StepAddressed(lines);
    }
  }

  /** The last line is reached exactly when the walk is processing, or is waiting and the line has content. */
  lemma LastBound(lines: seq<SourceLine>, p: Pass)
    requires |lines| > 0 && Reached(lines[..|lines| - 1], p)
    ensures Bound(lines, |lines| - 1) <==>
      p.state.Processing? || (p.state.WaitingForOrig? && !lines[|lines| - 1].content.Empty?)
  {
    Snoc(lines);
  }

  /**
   * The table stays equal to the labels of the lines reached when a step binds only
   * the last line's label, and binds it whenever that line is reached.
   */
  lemma LabelsStep(lines: seq<SourceLine>, p: SymbolTable, q: SymbolTable)
    requires |lines| > 0
    requires Sound(lines[..|lines| - 1], p) && Complete(lines[..|lines| - 1], p) && Keeps(p, q)
    requires forall n :: Get(q, n).Some? && Get(p, n).None? ==>
      lines[|lines| - 1].labelName == Some(n) && Bound(lines, |lines| - 1)
    requires Bound(lines, |lines| - 1) && lines[|lines| - 1].labelName.Some? ==>
      Get(q, lines[|lines| - 1].labelName.value).Some?
    ensures Sound(lines, q) && Complete(lines, q)
  {
    SoundStep(lines, p, q);
    CompleteStep(lines, p, q);
  }

  /** A label new to the table belongs to the last line; the others to earlier lines. */
  lemma SoundStep(lines: seq<SourceLine>, p: SymbolTable, q: SymbolTable)
    requires |lines| > 0
    requires Sound(lines[..|lines| - 1], p) && Keeps(p, q)
    requires forall n :: Get(q, n).Some? && Get(p, n).None? ==>
      lines[|lines| - 1].labelName == Some(n) && Bound(lines, |lines| - 1)
    ensures Sound(lines, q)
  {
    var ls := lines[..|lines| - 1];
    forall n | Get(q, n).Some?
      ensures exists k :: 0 <= k < |lines| && Bound(lines, k) && lines[k].labelName == Some(n)
    {
      if Get(p, n).Some? {
        var k :| 0 <= k < |ls| && Bound(ls, k) && ls[k].labelName == Some(n);
        Earlier(lines, k, 0);
        assert Bound(lines, k) && lines[k].labelName == Some(n);
      } else {
        assert lines[|ls|].labelName == Some(n) && Bound(lines, |ls|);
      }
    }
  }

  /** Labels of earlier lines stay in the table, and the last line's is added. */
  lemma CompleteStep(lines: seq<SourceLine>, p: SymbolTable, q: SymbolTable)
    requires |lines| > 0
    requires Complete(lines[..|lines| - 1], p) && Keeps(p, q)
    requires Bound(lines, |lines| - 1) && lines[|lines| - 1].labelName.Some? ==>
      Get(q, lines[|lines| - 1].labelName.value).Some?
    ensures Complete(lines, q)
  {
    var ls := lines[..|lines| - 1];
    forall k | 0 <= k < |ls| && Bound(lines, k) && lines[k].labelName.Some?
      ensures Get(q, lines[k].labelName.value).Some?
    {
      Earlier(lines, k, 0);
      assert Get(p, ls[k].labelName.value).Some?;
    }
  }

  /** One step keeps the table equal to the labels of the lines reached. */
  lemma StepLabels(lines: seq<SourceLine>)
    requires |lines| > 0
    requires var ls := lines[..|lines| - 1];
      Reached(ls, Run(ls)) && Sound(ls, Run(ls).table) && Complete(ls, Run(ls).table)
    ensures Sound(lines, Run(lines).table) && Complete(lines, Run(lines).table)
  {
    var ls := lines[..|lines| - 1];
    var p := Run(ls);
    var q := Run(lines);
    assert q == Step(p, lines[|lines| - 1]);
    LastBound(lines, p);
    LabelsStep(lines, p.table, q.table);
  }

  /** The labels in the table are exactly those of the lines reached in the Processing state. */
  lemma {:induction false} RunLabels(lines: seq<SourceLine>)
    ensures Sound(lines, Run(lines).table) && Complete(lines, Run(lines).table)
  {
    if |lines| > 0 {
      var ls := lines[..|lines| - 1];
      RunLabels(ls);
      RunState(ls);
      StepLabels(lines);
    }
  }

  /**
   * An error-free pass walked from a leading `.ORIG` to a `.END`, and its result is
   * the loop's final table and origin.
   */
  lemma ErrorFree(lines: seq<SourceLine>)
    requires Assemble(lines).errors == []
    ensures Run(lines).errors == [] && Run(lines).state.AfterEnd?
    ensures Assemble(lines).table == Run(lines).table && Assemble(lines).orig == Run(lines).orig
    ensures Leading(lines) == Some(Orig(Run(lines).orig))
  {
    RunState(lines);
    MissingOrigCount(lines);
  }

  /**
   * The headline property of the pass: when it reports no error, the table binds
   * exactly the labels of the lines from the origin up to `.END`, each to the
   * origin plus the words of all lines before it, wrapped to 16 bits.
   */
  lemma LabelAddresses(lines: seq<SourceLine>)
    requires Assemble(lines).errors == []
    ensures Leading(lines) == Some(Orig(Assemble(lines).orig))
    ensures forall k :: 0 <= k < |lines| && Bound(lines, k) && lines[k].labelName.Some? ==>
      Get(Assemble(lines).table, lines[k].labelName.value) == Some(AddressOf(lines, Assemble(lines).orig, k))
    ensures Sound(lines, Assemble(lines).table)
  {
    ErrorFree(lines);
    RunAddressed(lines);
    RunLabels(lines);
  }

  /**
   * A program may fill the address space exactly and then continue: the counter
   * wraps to 0 and the second word of `.ORIG xFFFF` is placed at address 0 with
   * no AddressOverflow.
   */
  lemma WrapsWithoutOverflow(at: Position)
    ensures var lines := [SourceLine(None, Orig(0xFFFF), 1, at),
                          SourceLine(None, FillImmediate(1), 2, at),
                          SourceLine(None, FillImmediate(2), 3, at),
                          SourceLine(None, End, 4, at)];
      Assemble(lines).errors == []
      && Run(lines[..2]).lc == Some(0) && Run(lines[..3]).lc == Some(1)
  {
    var lines := [SourceLine(None, Orig(0xFFFF), 1, at),
                  SourceLine(None, FillImmediate(1), 2, at),
                  SourceLine(None, FillImmediate(2), 3, at),
                  SourceLine(None, End, 4, at)];
    assert lines[..1][..0] == [] && lines[..1][0] == lines[0];
    assert Run(lines[..1][..0]) == Start();
    var p1 := Run(lines[..1]);
    assert p1 == Step(Start(), lines[0]);
    assert p1.lc == Some(0xFFFF) && p1.errors == [] && p1.state.Processing? && p1.orig == 0xFFFF;
    assert lines[..2][..1] == lines[..1];
    var p2 := Run(lines[..2]);
    assert p2 == Process(p1, lines[1]);
    assert p2.lc == Some(0) && p2.errors == [] && p2.state.Processing?;
    assert lines[..3][..2] == lines[..2];
    var p3 := Run(lines[..3]);
    assert p3 == Process(p2, lines[2]);
    assert p3.lc == Some(1) && p3.errors == [] && p3.state.Processing?;
    assert lines[..3] == lines[..|lines| - 1];
    var p4 := Run(lines);
    assert p4 == Process(p3, lines[3]);
    assert p4.errors == [] && p4.state.AfterEnd?;
  }

  /** One word too many past the top is an overflow, and the counter sticks at 0xFFFF. */
  lemma OverflowSticks(at: Position)
    ensures var lines := [SourceLine(None, Orig(0xFFFF), 1, at), SourceLine(None, Blkw(2), 2, at)];
      Run(lines).errors == [NewError(AddressOverflow, at)] && Run(lines).lc == Some(0xFFFF)
  {
    var lines := [SourceLine(None, Orig(0xFFFF), 1, at), SourceLine(None, Blkw(2), 2, at)];
    assert lines[..1][..0] == [] && lines[..1][0] == lines[0];
    assert Run(lines[..1][..0]) == Start();
    var p1 := Run(lines[..1]);
    assert p1 == Step(Start(), lines[0]);
    assert p1.lc == Some(0xFFFF) && p1.errors == [] && p1.state.Processing?;
    assert lines[..1] == lines[..|lines| - 1];
    assert Run(lines) == Process(p1, lines[1]);
  }

  /** A label on a blank line before `.ORIG` is dropped without an error. */
  lemma EarlyBlankLabelDropped(name: string, at: Position)
    ensures var lines := [SourceLine(Some(name), Empty, 1, at), SourceLine(None, Orig(0x3000), 2, at),
                          SourceLine(None, End, 3, at)];
      Assemble(lines).errors == [] && Get(Assemble(lines).table, name).None?
  {
    var lines := [SourceLine(Some(name), Empty, 1, at), SourceLine(None, Orig(0x3000), 2, at),
                  SourceLine(None, End, 3, at)];
    assert lines[..1][..0] == [] && lines[..1][0] == lines[0];
    assert Run(lines[..1][..0]) == Start();
    var p1 := Run(lines[..1]);
    assert p1 == Step(Start(), lines[0]);
    assert p1 == Start();
    assert lines[..2][..1] == lines[..1];
    var p2 := Run(lines[..2]);
    assert p2 == Step(p1, lines[1]);
    assert p2.errors == [] && p2.state.Processing? && p2.table == Start().table;
    assert lines[..2] == lines[..|lines| - 1];
    var p3 := Run(lines);
    assert p3 == Process(p2, lines[2]);
    assert p3.errors == [] && p3.state.AfterEnd? && p3.table == Start().table;
    assert HasEnd(lines) by { assert lines[2].content.End?; }
    assert !AllEmpty(lines) by { assert !lines[1].content.Empty?; }
  }
}
