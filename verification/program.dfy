/**
 XSVF programs as lists of decoded instructions, their byte encoding, and
 a reference meaning for them that never looks at bytes. The main
 theorem: playing the encoding of a well-formed program does exactly what
 the reference meaning says, instruction by instruction.
 */
module Program {
  import opened Jtag
  import opened Reader
  import P = Player

  /** One XSVF instruction with its fields decoded. */
  datatype Instr =
    | Complete
    | TdoMask(mask: Bits)
    | Sir(tdi: Bits)
    | RunTest(cycles: u32)
    | Repeat(times: byte)
    | SdrSize(size: u32)
    | SdrTdo(tdi: Bits, tdoExpected: Bits)
    | GoTo(target: State)
    | EndIr(code: byte)
    | EndDr(code: byte)
    | WaitFor(waitState: State, endState: State, time: u32)
    | Unsupported(op: byte)

  /** The bytes of one instruction: its opcode, then its fields as the
      player reads them. */
  function Encode(i: Instr): (bytes: seq<byte>)
    ensures 1 <= |bytes|
  {
    match i
    case Complete => [P.XCOMPLETE]
    case TdoMask(mask) => [P.XTDOMASK] + mask.data
    case Sir(tdi) => [P.XSIR, tdi.count % 0x100] + tdi.data
    case RunTest(cycles) => [P.XRUNTEST] + EncodeU32(cycles)
    case Repeat(times) => [P.XREPEAT, times]
    case SdrSize(size) => [P.XSDRSIZE] + EncodeU32(size)
    case SdrTdo(tdi, tdo) => [P.XSDRTDO] + tdi.data + tdo.data
    case GoTo(target) => [P.XSTATE, target.code]
    case EndIr(code) => [P.XENDIR, code]
    case EndDr(code) => [P.XENDDR, code]
    case WaitFor(waitState, endState, time) => [P.XWAIT, waitState.code, endState.code] + EncodeU32(time)
    case Unsupported(op) => [op]
  }

  /** The bytes of a whole program, instruction after instruction. */
  function EncodeAll(prog: seq<Instr>): (bytes: seq<byte>)
    ensures |bytes| >= |prog|
  {
    if prog == [] then [] else Encode(prog[0]) + EncodeAll(prog[1..])
  }

  /** An instruction the player can decode back given the current
      data-register size: bit vectors are well sized, the DR vectors
      are `drSize` bits long, an IR vector has a count that fits its
      length byte, and an unsupported opcode really is one. */
  predicate ValidInstr(i: Instr, drSize: nat) {
    match i
    case TdoMask(mask) => mask.count == drSize && WellSized(mask)
    case Sir(tdi) => tdi.count < 0x100 && WellSized(tdi)
    case SdrTdo(tdi, tdo) =>
      tdi.count == drSize && tdo.count == drSize && WellSized(tdi) && WellSized(tdo)
    case Unsupported(op) => op >= 0x18 || P.IsUnimplemented(op)
    case _ => true
  }

  /** The data-register size in force after an instruction. */
  function SizeAfter(i: Instr, drSize: nat): nat {
    if i.SdrSize? then i.size else drSize
  }

  /** A program every instruction of which is valid for the size the
      instructions before it leave in force. */
  predicate ValidProgram(prog: seq<Instr>, drSize: nat)
    decreases |prog|
  {
    prog == [] || (ValidInstr(prog[0], drSize) && ValidProgram(prog[1..], SizeAfter(prog[0], drSize)))
  }

  /** Instructions that abort whatever the driver answers. */
  predicate Aborts(i: Instr) {
    i.Unsupported? || (i.EndIr? && i.code > 1) || (i.EndDr? && i.code > 1)
  }

  /** Instructions whose driver call can report a mismatch. */
  predicate IsShift(i: Instr) {
    i.Sir? || i.SdrTdo?
  }

  /** The reference meaning of one instruction, as the XSVF instruction
      set describes it, on a player whose cursor stands on its opcode. */
  function ExecInstr(i: Instr, p: P.Player, tap: Driver): (q: P.Player)
    ensures q.pos == p.pos + |Encode(i)|
    ensures q.drSize == SizeAfter(i, p.drSize)
    ensures q.error == (p.error || Aborts(i) || (IsShift(i) && tap(q.trace)))
    ensures q.done == (p.done || i.Complete? || Aborts(i) || (IsShift(i) && tap(q.trace)))
  {
    var p' := p.(pos := p.pos + |Encode(i)|);
    EffectFacts(i, p', tap);
    Effect(i, p', tap)
  }

  /** What an instruction does to the session and the driver, apart from
      moving the cursor past it. */
  function Effect(i: Instr, p: P.Player, tap: Driver): (q: P.Player)
    ensures q.pos == p.pos
  {
    match i
    case Complete => p.(done := true)
    case TdoMask(mask) => p.(tdoMask := mask)
    case Sir(tdi) => P.Shift(p, ShiftIR(tdi), tap)
    case RunTest(cycles) => P.Issue(p, SetRunTest(cycles))
    case Repeat(times) => P.Issue(p, SetRepeat(times))
    case SdrSize(size) => p.(drSize := size, tdoMask := NoBits)
    case SdrTdo(tdi, tdo) => P.Shift(p, ShiftDR(tdi, tdo, p.tdoMask), tap)
    case GoTo(target) => P.Issue(p, EnterState(target))
    case EndIr(code) =>
      var end := if code == 0 then RunTestIdle else if code == 1 then PauseIr else RunTestIdle;
      var q := P.Issue(p, SetEndIR(end));
      if code > 1 then P.Abort(q) else q
    case EndDr(code) =>
      var end := if code == 0 then RunTestIdle else if code == 1 then PauseDr else RunTestIdle;
      var q := P.Issue(p, SetEndDR(end));
      if code > 1 then P.Abort(q) else q
    case WaitFor(waitState, endState, time) => P.Issue(p, Wait(waitState, endState, time))
    case Unsupported(_) => P.Abort(p)
  }

  /** The reference meaning sets the data-register size only on
      XSDRSIZE, only appends to the driver trace, and fails exactly on an
      unsupported opcode, a bad end-state byte or a reported mismatch. */
  lemma EffectFacts(i: Instr, p: P.Player, tap: Driver)
    ensures Effect(i, p, tap).drSize == SizeAfter(i, p.drSize)
    ensures p.trace <= Effect(i, p, tap).trace
    ensures var q := Effect(i, p, tap);
            q.error == (p.error || Aborts(i) || (IsShift(i) && tap(q.trace)))
    ensures var q := Effect(i, p, tap);
            q.done == (p.done || i.Complete? || Aborts(i) || (IsShift(i) && tap(q.trace)))
  {
  }

  /** The reference meaning of a program: instructions in order until one
      leaves the player done. */
  function Exec(prog: seq<Instr>, p: P.Player, tap: Driver): (q: P.Player)
    ensures p.done ==> q == p
    ensures q.pos <= p.pos + |EncodeAll(prog)|
    ensures !q.done ==> q.pos == p.pos + |EncodeAll(prog)|
    ensures p.error ==> q.error
    decreases |prog|
  {
    if prog == [] || p.done then p else Exec(prog[1..], ExecInstr(prog[0], p, tap), tap)
  }

  /** The bytes `e` sit in `s` at `pos`. */
  predicate EncodedAt(s: seq<byte>, pos: nat, e: seq<byte>) {
    pos + |e| <= |s| && s[pos .. pos + |e|] == e
  }

  /** A part of an encoding sits in the stream where the part starts. */
  lemma EncodedPart(s: seq<byte>, pos: nat, e: seq<byte>, i: nat, j: nat)
    requires EncodedAt(s, pos, e) && i <= j <= |e|
    ensures EncodedAt(s, pos + i, e[i .. j])
  {
    forall k | 0 <= k < j - i
      ensures s[pos + i .. pos + j][k] == e[i .. j][k]
    {
      assert s[pos .. pos + |e|][i + k] == e[i + k];
    }
  }

  /** A well-sized vector whose bytes sit at an offset inside an
      encoding is read back from the stream at that offset. */
  lemma ReadBitsInside(s: seq<byte>, pos: nat, e: seq<byte>, off: nat, b: Bits)
    requires EncodedAt(s, pos, e) && WellSized(b)
    requires off + |b.data| <= |e| && e[off .. off + |b.data|] == b.data
    ensures ReadBits(s, pos + off, b.count) == Got(b, pos + off + |b.data|)
  {
    EncodedPart(s, pos, e, off, off + |b.data|);
    ReadBitsEncoded(s, pos + off, b);
  }

  /** A step on an opcode inside the table is the call through the table
      from just after the opcode, with an overrun reported against the
      player as it stood before the opcode. */
  lemma StepThroughTable(p: P.Player, s: seq<byte>, tap: Driver, h: P.Handler)
    requires p.pos < |s| && s[p.pos] < 0x18 && P.HandlerTable[s[p.pos]] == h
    ensures var d := P.Dispatch(h, p.(pos := p.pos + 1), s, tap);
            P.Step(p, s, tap) == if d.Ran? then d else P.Overrun(p)
  {
    P.HandlerTableLayout();
  }

  // One step over the encoding of each kind of instruction.

  lemma StepComplete(p: P.Player, s: seq<byte>, tap: Driver)
    requires EncodedAt(s, p.pos, Encode(Complete))
    ensures P.Step(p, s, tap) == P.Ran(ExecInstr(Complete, p, tap))
  {
    var e := Encode(Complete);
    assert s[p.pos] == e[0];
    StepThroughTable(p, s, tap, P.XComplete);
  }

  lemma StepTdoMask(mask: Bits, p: P.Player, s: seq<byte>, tap: Driver)
    requires WellSized(mask) && mask.count == p.drSize
    requires EncodedAt(s, p.pos, Encode(TdoMask(mask)))
    ensures P.Step(p, s, tap) == P.Ran(ExecInstr(TdoMask(mask), p, tap))
  {
    var e := Encode(TdoMask(mask));
    assert s[p.pos] == e[0];
    assert e[1 .. 1 + |mask.data|] == mask.data;
    ReadBitsInside(s, p.pos, e, 1, mask);
    StepThroughTable(p, s, tap, P.XTdoMask);
  }

  /** x_s_ir over an encoded SHIFT-IR decodes the vector that was encoded. */
  lemma SirFields(tdi: Bits, p: P.Player, s: seq<byte>, tap: Driver)
    requires WellSized(tdi) && tdi.count < 0x100
    requires EncodedAt(s, p.pos, Encode(Sir(tdi)))
    ensures P.HandleSIr(p.(pos := p.pos + 1), s, tap)
            == P.Ran(P.Shift(p.(pos := p.pos + 2 + |tdi.data|), ShiftIR(tdi), tap))
  {
    var e := Encode(Sir(tdi));
    var count := s[p.pos + 1];
    assert count == tdi.count by {
      assert count == e[1];
    }
    assert ReadBits(s, p.pos + 2, tdi.count) == Got(tdi, p.pos + 2 + |tdi.data|) by {
      assert e[2 .. 2 + |tdi.data|] == tdi.data;
      ReadBitsInside(s, p.pos, e, 2, tdi);
    }
    assert ReadU8(s, p.pos + 1) == Got(count, p.pos + 2);
  }

  lemma StepSir(tdi: Bits, p: P.Player, s: seq<byte>, tap: Driver)
    requires WellSized(tdi) && tdi.count < 0x100
    requires EncodedAt(s, p.pos, Encode(Sir(tdi)))
    ensures P.Step(p, s, tap) == P.Ran(ExecInstr(Sir(tdi), p, tap))
  {
    var e := Encode(Sir(tdi));
    SirFields(tdi, p, s, tap);
    assert |e| == 2 + |tdi.data|;
    assert s[p.pos] == e[0];
    StepThroughTable(p, s, tap, P.XSIr);
  }

  lemma StepRunTest(cycles: u32, p: P.Player, s: seq<byte>, tap: Driver)
    requires EncodedAt(s, p.pos, Encode(RunTest(cycles)))
    ensures P.Step(p, s, tap) == P.Ran(ExecInstr(RunTest(cycles), p, tap))
  {
    var e := Encode(RunTest(cycles));
    assert s[p.pos] == e[0];
    EncodedPart(s, p.pos, e, 1, 5);
    assert e[1..5] == EncodeU32(cycles);
    ReadU32Encoded(s, p.pos + 1, cycles);
    StepThroughTable(p, s, tap, P.XRunTest);
  }

  lemma StepRepeat(times: byte, p: P.Player, s: seq<byte>, tap: Driver)
    requires EncodedAt(s, p.pos, Encode(Repeat(times)))
    ensures P.Step(p, s, tap) == P.Ran(ExecInstr(Repeat(times), p, tap))
  {
    var e := Encode(Repeat(times));
    assert s[p.pos] == e[0];
    assert s[p.pos + 1] == e[1];
    StepThroughTable(p, s, tap, P.XRepeat);
  }

  lemma StepSdrSize(size: u32, p: P.Player, s: seq<byte>, tap: Driver)
    requires EncodedAt(s, p.pos, Encode(SdrSize(size)))
    ensures P.Step(p, s, tap) == P.Ran(ExecInstr(SdrSize(size), p, tap))
  {
    var e := Encode(SdrSize(size));
    assert s[p.pos] == e[0];
    EncodedPart(s, p.pos, e, 1, 5);
    assert e[1..5] == EncodeU32(size);
    ReadU32Encoded(s, p.pos + 1, size);
    StepThroughTable(p, s, tap, P.XSDrSize);
  }

  /** x_s_dr_tdo over an encoded SHIFT-DR-COMPARE decodes the two vectors
      that were encoded. */
  lemma SdrTdoFields(tdi: Bits, tdo: Bits, p: P.Player, s: seq<byte>, tap: Driver)
    requires WellSized(tdi) && WellSized(tdo) && tdi.count == p.drSize && tdo.count == p.drSize
    requires EncodedAt(s, p.pos, Encode(SdrTdo(tdi, tdo)))
    ensures P.HandleSDrTdo(p.(pos := p.pos + 1), s, tap)
            == P.Ran(P.Shift(p.(pos := p.pos + 1 + 2 * |tdi.data|), ShiftDR(tdi, tdo, p.tdoMask), tap))
  {
    var e := Encode(SdrTdo(tdi, tdo));
    var n := |tdi.data|;
    assert |e| == 1 + 2 * n && ByteCount(p.drSize) == n;
    assert e[1 .. 1 + n] == tdi.data && e[1 + n .. 1 + 2 * n] == tdo.data;
    ReadBitsInside(s, p.pos, e, 1, tdi);
    ReadBitsInside(s, p.pos, e, 1 + n, tdo);
  }

  lemma StepSdrTdo(tdi: Bits, tdo: Bits, p: P.Player, s: seq<byte>, tap: Driver)
    requires WellSized(tdi) && WellSized(tdo) && tdi.count == p.drSize && tdo.count == p.drSize
    requires EncodedAt(s, p.pos, Encode(SdrTdo(tdi, tdo)))
    ensures P.Step(p, s, tap) == P.Ran(ExecInstr(SdrTdo(tdi, tdo), p, tap))
  {
    var e := Encode(SdrTdo(tdi, tdo));
    SdrTdoFields(tdi, tdo, p, s, tap);
    assert |e| == 1 + 2 * |tdi.data|;
    assert s[p.pos] == e[0];
    StepThroughTable(p, s, tap, P.XSDrTdo);
  }

  lemma StepGoTo(target: State, p: P.Player, s: seq<byte>, tap: Driver)
    requires EncodedAt(s, p.pos, Encode(GoTo(target)))
    ensures P.Step(p, s, tap) == P.Ran(ExecInstr(GoTo(target), p, tap))
  {
    var e := Encode(GoTo(target));
    assert s[p.pos] == e[0];
    assert s[p.pos + 1] == e[1];
    StepThroughTable(p, s, tap, P.XState);
  }

  lemma StepEndIr(code: byte, p: P.Player, s: seq<byte>, tap: Driver)
    requires EncodedAt(s, p.pos, Encode(EndIr(code)))
    ensures P.Step(p, s, tap) == P.Ran(ExecInstr(EndIr(code), p, tap))
  {
    var e := Encode(EndIr(code));
    assert s[p.pos] == e[0];
    assert s[p.pos + 1] == e[1];
    StepThroughTable(p, s, tap, P.XEndIr);
  }

  lemma StepEndDr(code: byte, p: P.Player, s: seq<byte>, tap: Driver)
    requires EncodedAt(s, p.pos, Encode(EndDr(code)))
    ensures P.Step(p, s, tap) == P.Ran(ExecInstr(EndDr(code), p, tap))
  {
    var e := Encode(EndDr(code));
    assert s[p.pos] == e[0];
    assert s[p.pos + 1] == e[1];
    StepThroughTable(p, s, tap, P.XEndDr);
  }

  lemma StepWaitFor(waitState: State, endState: State, time: u32, p: P.Player, s: seq<byte>, tap: Driver)
    requires EncodedAt(s, p.pos, Encode(WaitFor(waitState, endState, time)))
    ensures P.Step(p, s, tap) == P.Ran(ExecInstr(WaitFor(waitState, endState, time), p, tap))
  {
    var e := Encode(WaitFor(waitState, endState, time));
    assert s[p.pos] == e[0];
    assert s[p.pos + 1] == e[1] && s[p.pos + 2] == e[2];
    EncodedPart(s, p.pos, e, 3, 7);
    assert e[3..7] == EncodeU32(time);
    ReadU32Encoded(s, p.pos + 3, time);
    StepThroughTable(p, s, tap, P.XWait);
  }

  /** One step of the player over the encoding of a valid instruction is
      the instruction's reference meaning. */
  lemma StepMatchesReference(i: Instr, p: P.Player, s: seq<byte>, tap: Driver)
    requires ValidInstr(i, p.drSize)
    requires EncodedAt(s, p.pos, Encode(i))
    ensures P.Step(p, s, tap) == P.Ran(ExecInstr(i, p, tap))
  {
    match i
    case Complete => StepComplete(p, s, tap);
    case TdoMask(mask) => StepTdoMask(mask, p, s, tap);
    case Sir(tdi) => StepSir(tdi, p, s, tap);
    case RunTest(cycles) => StepRunTest(cycles, p, s, tap);
    case Repeat(times) => StepRepeat(times, p, s, tap);
    case SdrSize(size) => StepSdrSize(size, p, s, tap);
    case SdrTdo(tdi, tdo) => StepSdrTdo(tdi, tdo, p, s, tap);
    case GoTo(target) => StepGoTo(target, p, s, tap);
    case EndIr(code) => StepEndIr(code, p, s, tap);
    case EndDr(code) => StepEndDr(code, p, s, tap);
    case WaitFor(waitState, endState, time) => StepWaitFor(waitState, endState, time, p, s, tap);
    case Unsupported(op) =>
      assert s[p.pos] == Encode(i)[0];
  }

  /** Playing over the encoding of a valid program is playing on from
      where the reference meaning of the program leaves the player. */
  lemma {:induction false} RunThrough(prog: seq<Instr>, p: P.Player, s: seq<byte>, tap: Driver)
    requires ValidProgram(prog, p.drSize)
    requires EncodedAt(s, p.pos, EncodeAll(prog))
    ensures Exec(prog, p, tap).pos <= |s|
    ensures P.Run(p, s, tap) == P.Run(Exec(prog, p, tap), s, tap)
    decreases |prog|
  {
    if prog != [] && !p.done {
      var e := EncodeAll(prog);
      var i := prog[0];
      var n := |Encode(i)|;
      assert EncodedAt(s, p.pos, Encode(i)) by {
        EncodedPart(s, p.pos, e, 0, n);
        assert e[0 .. n] == Encode(i);
      }
      StepMatchesReference(i, p, s, tap);
      var q := ExecInstr(i, p, tap);
      assert EncodedAt(s, q.pos, EncodeAll(prog[1..])) by {
        EncodedPart(s, p.pos, e, n, |e|);
        assert e[n ..] == EncodeAll(prog[1..]);
      }
      RunThrough(prog[1..], q, s, tap);
    }
  }

  /** A program that ends with XCOMPLETE leaves the player done. */
  lemma {:induction false} ExecEndsDone(prog: seq<Instr>, p: P.Player, tap: Driver)
    requires prog != [] && prog[|prog| - 1] == Complete
    ensures Exec(prog, p, tap).done
    decreases |prog|
  {
    if !p.done && |prog| > 1 {
      ExecEndsDone(prog[1..], ExecInstr(prog[0], p, tap), tap);
    }
  }

  /** Playing the encoding of a valid program that ends with XCOMPLETE
      ends exactly where its reference meaning does, whatever follows it
      in the stream and whatever the driver answers. */
  lemma RunMatchesReference(prog: seq<Instr>, p: P.Player, s: seq<byte>, tap: Driver)
    requires ValidProgram(prog, p.drSize)
    requires prog != [] && prog[|prog| - 1] == Complete
    requires EncodedAt(s, p.pos, EncodeAll(prog))
    ensures P.Run(p, s, tap) == P.Ran(Exec(prog, p, tap))
  {
    RunThrough(prog, p, s, tap);
    ExecEndsDone(prog, p, tap);
  }

  /** With a driver that never reports a mismatch, only an unsupported
      opcode or a bad end-state byte can make the reference fail. */
  lemma {:induction false} ExecCleanKeepsError(prog: seq<Instr>, p: P.Player)
    requires forall k :: 0 <= k < |prog| ==> !Aborts(prog[k])
    ensures Exec(prog, p, NeverMismatch).error == p.error
    decreases |prog|
  {
    if prog != [] && !p.done {
      ExecCleanKeepsError(prog[1..], ExecInstr(prog[0], p, NeverMismatch));
    }
  }

  /** A valid program ending in XCOMPLETE, with no unsupported opcode and
      no bad end-state byte, played against a driver that never reports
      a mismatch, finishes without failing. */
  lemma CleanProgramSucceeds(prog: seq<Instr>, rest: seq<byte>)
    requires ValidProgram(prog, 0)
    requires prog != [] && prog[|prog| - 1] == Complete
    requires forall k :: 0 <= k < |prog| ==> !Aborts(prog[k])
    ensures P.Play(EncodeAll(prog) + rest, NeverMismatch).Ran?
    ensures !P.Failed(P.Play(EncodeAll(prog) + rest, NeverMismatch).player)
  {
    var s := EncodeAll(prog) + rest;
    assert s[0 .. |EncodeAll(prog)|] == EncodeAll(prog);
    RunMatchesReference(prog, P.Init(), s, NeverMismatch);
    ExecCleanKeepsError(prog, P.Init());
  }

  /** Without XCOMPLETE, the reference never finishes a clean program. */
  lemma {:induction false} ExecCleanNotDone(prog: seq<Instr>, p: P.Player)
    requires !p.done
    requires forall k :: 0 <= k < |prog| ==> !Aborts(prog[k]) && prog[k] != Complete
    ensures !Exec(prog, p, NeverMismatch).done
    decreases |prog|
  {
    if prog != [] {
      ExecCleanNotDone(prog[1..], ExecInstr(prog[0], p, NeverMismatch));
    }
  }

  /** A stream that ends before any XCOMPLETE does not report success:
      once the clean instructions are used up the player runs out of
      stream and the run ends in Overrun. */
  lemma UnterminatedOverruns(prog: seq<Instr>)
    requires ValidProgram(prog, 0)
    requires forall k :: 0 <= k < |prog| ==> !Aborts(prog[k]) && prog[k] != Complete
    ensures P.Play(EncodeAll(prog), NeverMismatch) == P.Overrun(Exec(prog, P.Init(), NeverMismatch))
  {
    var s := EncodeAll(prog);
    assert s[0 .. |s|] == s;
    RunThrough(prog, P.Init(), s, NeverMismatch);
    ExecCleanNotDone(prog, P.Init());
  }

  /** The SET-DR-SIZE 8, SHIFT-DR-COMPARE, COMPLETE program, valid from
      a fresh player, and its encoding. */
  lemma ShiftDrScenarioProgram(tdi: byte, tdo: byte)
    ensures var prog := [SdrSize(8), SdrTdo(Bits(8, [tdi]), Bits(8, [tdo])), Complete];
            && ValidProgram(prog, 0)
            && EncodeAll(prog) == [P.XSDRSIZE, 0, 0, 0, 8, P.XSDRTDO, tdi, tdo, P.XCOMPLETE]
  {
    var prog := [SdrSize(8), SdrTdo(Bits(8, [tdi]), Bits(8, [tdo])), Complete];
    assert prog[1..] == [SdrTdo(Bits(8, [tdi]), Bits(8, [tdo])), Complete];
    assert prog[1..][1..] == [Complete];
    assert ValidProgram([Complete], 8) by {
      assert [Complete][1..] == [];
    }
    assert ValidInstr(prog[1], 8) by {
      assert ByteCount(8) == 1;
    }
    assert EncodeU32(8) == [0, 0, 0, 8];
    assert EncodeAll([Complete]) == [P.XCOMPLETE] by {
      assert [Complete][1..] == [];
    }
  }

  /** The SET-DR-SIZE 8, SHIFT-DR-COMPARE, COMPLETE stream against a
      driver that matches: success, and one DR shift with the two bytes
      of the stream and an empty mask. */
  lemma ShiftDrScenarioMatches(tdi: byte, tdo: byte)
    ensures var r := P.Play([P.XSDRSIZE, 0, 0, 0, 8, P.XSDRTDO, tdi, tdo, P.XCOMPLETE], NeverMismatch);
            && r.Ran? && !P.Failed(r.player)
            && r.player.trace == [ShiftDR(Bits(8, [tdi]), Bits(8, [tdo]), NoBits)]
  {
    var prog := [SdrSize(8), SdrTdo(Bits(8, [tdi]), Bits(8, [tdo])), Complete];
    var s := [P.XSDRSIZE, 0, 0, 0, 8, P.XSDRTDO, tdi, tdo, P.XCOMPLETE];
    ShiftDrScenarioProgram(tdi, tdo);
    assert s[0 .. |s|] == s;
    RunMatchesReference(prog, P.Init(), s, NeverMismatch);
    var q1 := ExecInstr(prog[0], P.Init(), NeverMismatch);
    assert q1 == P.Player(5, 8, NoBits, false, false, []);
    var shift := ShiftDR(Bits(8, [tdi]), Bits(8, [tdo]), NoBits);
    var q2 := ExecInstr(prog[1], q1, NeverMismatch);
    assert q2 == P.Player(8, 8, NoBits, false, false, [shift]) by {
      assert |Encode(prog[1])| == 3;
      assert q2 == P.Shift(q1.(pos := 8), shift, NeverMismatch);
    }
    assert prog[1..][1..] == [Complete] && [Complete][1..] == [];
    assert Exec(prog, P.Init(), NeverMismatch) == Exec([Complete], q2, NeverMismatch);
  }

  /** The same stream against a driver that reports a mismatch: failure,
      the same single DR shift, and the run stops before XCOMPLETE. */
  lemma ShiftDrScenarioMismatches(tdi: byte, tdo: byte)
    ensures var r := P.Play([P.XSDRSIZE, 0, 0, 0, 8, P.XSDRTDO, tdi, tdo, P.XCOMPLETE], AlwaysMismatch);
            && r.Ran? && P.Failed(r.player) && r.player.pos == 8
            && r.player.trace == [ShiftDR(Bits(8, [tdi]), Bits(8, [tdo]), NoBits)]
  {
    var prog := [SdrSize(8), SdrTdo(Bits(8, [tdi]), Bits(8, [tdo])), Complete];
    var s := [P.XSDRSIZE, 0, 0, 0, 8, P.XSDRTDO, tdi, tdo, P.XCOMPLETE];
    ShiftDrScenarioProgram(tdi, tdo);
    assert s[0 .. |s|] == s;
    RunMatchesReference(prog, P.Init(), s, AlwaysMismatch);
    var q1 := ExecInstr(prog[0], P.Init(), AlwaysMismatch);
    assert q1 == P.Player(5, 8, NoBits, false, false, []);
    var shift := ShiftDR(Bits(8, [tdi]), Bits(8, [tdo]), NoBits);
    var q2 := ExecInstr(prog[1], q1, AlwaysMismatch);
    assert q2 == P.Player(8, 8, NoBits, true, true, [shift]) by {
      assert |Encode(prog[1])| == 3;
      assert q2 == P.Shift(q1.(pos := 8), shift, AlwaysMismatch);
    }
    assert Exec(prog, P.Init(), AlwaysMismatch) == q2;
  }
}
