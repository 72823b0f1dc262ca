/**
 The XSVF instruction interpreter (XSVFPlayer): a fetch-decode-execute
 loop over a byte stream that turns each instruction into calls on a TAP
 driver, keeping the data-register size and the TDO mask from one
 instruction to the next.

 The player is an immutable record: the cursor into the stream, the
 session fields `drSize`, `tdoMask`, `error` and `done`, and the trace of
 driver calls issued so far. Each step reads all of an instruction's
 fields before it acts, so an instruction whose fields run past the end
 of the stream has no effect at all and the run ends in `Overrun`.
 */
module Player {
  import opened Jtag
  import opened Reader

  /** The opcodes of instruction_t, XSVF's instruction numbering. */
  const XCOMPLETE: byte := 0x00
  const XTDOMASK: byte := 0x01
  const XSIR: byte := 0x02
  const XSDR: byte := 0x03
  const XRUNTEST: byte := 0x04
  const XREPEAT: byte := 0x07
  const XSDRSIZE: byte := 0x08
  const XSDRTDO: byte := 0x09
  const XSETSDRMASKS: byte := 0x0a
  const XSDRINC: byte := 0x0b
  const XSDRB: byte := 0x0c
  const XSDRC: byte := 0x0d
  const XSDRE: byte := 0x0e
  const XSDRTDOB: byte := 0x0f
  const XSDRTDOC: byte := 0x10
  const XSDRTDOE: byte := 0x11
  const XSTATE: byte := 0x12
  const XENDIR: byte := 0x13
  const XENDDR: byte := 0x14
  const XSIR2: byte := 0x15
  const XCOMMENT: byte := 0x16
  const XWAIT: byte := 0x17

  /** The entries of the dispatch table: one per x_* handler, and
      `Unimplemented` for every opcode the player does not support. */
  datatype Handler =
    | XComplete | XTdoMask | XSIr | XRunTest | XRepeat | XSDrSize
    | XSDrTdo | XState | XEndIr | XEndDr | XWait | Unimplemented

  /** The dispatch table, indexed by opcode. */
  const HandlerTable: seq<Handler> := [
    /* 0x00 */ XComplete,
    /* 0x01 */ XTdoMask,
    /* 0x02 */ XSIr,
    /* 0x03 */ Unimplemented,
    /* 0x04 */ XRunTest,
    /* 0x05 */ Unimplemented,
    /* 0x06 */ Unimplemented,
    /* 0x07 */ XRepeat,
    /* 0x08 */ XSDrSize,
    /* 0x09 */ XSDrTdo,
    /* 0x0a */ Unimplemented,
    /* 0x0b */ Unimplemented,
    /* 0x0c */ Unimplemented,
    /* 0x0d */ Unimplemented,
    /* 0x0e */ Unimplemented,
    /* 0x0f */ Unimplemented,
    /* 0x10 */ Unimplemented,
    /* 0x11 */ Unimplemented,
    /* 0x12 */ XState,
    /* 0x13 */ XEndIr,
    /* 0x14 */ XEndDr,
    /* 0x15 */ Unimplemented,
    /* 0x16 */ Unimplemented,
    /* 0x17 */ XWait
  ]

  /** Opcodes that are in the table's range but have no handler. */
  predicate IsUnimplemented(op: byte) {
    op == XSDR || op == 0x05 || op == 0x06 || (XSETSDRMASKS <= op <= XSDRTDOE)
    || op == XSIR2 || op == XCOMMENT
  }

  /** The table has one entry per opcode 0x00..0x17; the opcode of every
      supported instruction is the position of its handler, and the
      empty slots are exactly the unsupported opcodes. */
  lemma HandlerTableLayout()
    ensures |HandlerTable| == 0x18
    ensures HandlerTable[XCOMPLETE] == XComplete && HandlerTable[XTDOMASK] == XTdoMask
    ensures HandlerTable[XSIR] == XSIr && HandlerTable[XRUNTEST] == XRunTest
    ensures HandlerTable[XREPEAT] == XRepeat && HandlerTable[XSDRSIZE] == XSDrSize
    ensures HandlerTable[XSDRTDO] == XSDrTdo && HandlerTable[XSTATE] == XState
    ensures HandlerTable[XENDIR] == XEndIr && HandlerTable[XENDDR] == XEndDr
    ensures HandlerTable[XWAIT] == XWait
    ensures forall op: byte :: op < 0x18 ==> (HandlerTable[op] == Unimplemented <==> IsUnimplemented(op))
  {
  }

  /** What the table holds at one opcode inside it, as far as the loop
      needs to know: which entry finishes the run, which entries write
      the session fields, and which are empty. */
  lemma TableEntry(op: byte)
    requires op < 0x18
    ensures |HandlerTable| == 0x18
    ensures HandlerTable[op] == XComplete <==> op == XCOMPLETE
    ensures HandlerTable[op] == XTdoMask <==> op == XTDOMASK
    ensures HandlerTable[op] == XSDrSize <==> op == XSDRSIZE
    ensures HandlerTable[op] == Unimplemented <==> IsUnimplemented(op)
  {
  }

  /** The player's session: the cursor, the fields carried across
      instructions, and the driver calls issued so far. */
  datatype Player = Player(
    pos: nat,
    drSize: u32,
    tdoMask: Bits,
    error: bool,
    done: bool,
    trace: seq<Call>)

  /** The end of one step or of a whole run: the player it reached, or
      the report that an instruction's fields ran past the end of the
      stream, with the player as it stood before that instruction. */
  datatype Outcome = Ran(player: Player) | Overrun(player: Player)

  /** A freshly constructed player, at the start of the stream. */
  function Init(): (p: Player)
    ensures p.pos == 0 && p.drSize == 0 && p.tdoMask == NoBits
    ensures !p.error && !p.done && p.trace == []
  {
    Player(0, 0, NoBits, false, false, [])
  }

  /** failed(): whether the run aborted. */
  function Failed(p: Player): bool {
    p.error
  }

  /** abort(): the run fails and stops; nothing else changes. */
  function Abort(p: Player): (q: Player)
    ensures q.error && q.done
    ensures q.(error := p.error, done := p.done) == p
  {
    p.(error := true, done := true)
  }

  /** Aborting an aborted player changes nothing, so the doubled abort of
      an unsupported opcode is one abort. */
  lemma AbortIdempotent(p: Player)
    ensures Abort(Abort(p)) == Abort(p)
  {
  }

  /** A driver call that cannot fail. */
  function Issue(p: Player, c: Call): (q: Player)
    ensures q.trace == p.trace + [c]
    ensures q.(trace := p.trace) == p
  {
    p.(trace := p.trace + [c])
  }

  /** A shift call: it is issued first, and a mismatch reported by the
      driver then aborts. */
  function Shift(p: Player, c: Call, tap: Driver): (q: Player)
    ensures q.trace == p.trace + [c]
    ensures q.error == (p.error || tap(q.trace)) && q.done == (p.done || tap(q.trace))
    ensures q.(trace := p.trace, error := p.error, done := p.done) == p
  {
    var q := Issue(p, c);
    if tap(q.trace) then Abort(q) else q
  }

  /** x_complete: the run stops with the error flag as it was. */
  function HandleComplete(p: Player): (r: Outcome)
    ensures r.Ran? && r.player.done
    ensures r.player.(done := p.done) == p
  {
    Ran(p.(done := true))
  }

  /** x_tdo_mask: the next `drSize` bits become the TDO mask. */
  function HandleTdoMask(p: Player, s: seq<byte>): (r: Outcome)
    ensures r.Ran? <==> p.pos + ByteCount(p.drSize) <= |s|
    ensures r.Overrun? ==> r.player == p
    ensures r.Ran? ==> r.player == p.(pos := p.pos + ByteCount(p.drSize),
                                      tdoMask := Bits(p.drSize, s[p.pos .. p.pos + ByteCount(p.drSize)]))
  {
    match ReadBits(s, p.pos, p.drSize)
    case OutOfData => Overrun(p)
    case Got(mask, next) => Ran(p.(pos := next, tdoMask := mask))
  }

  /** x_s_ir: a one-byte bit count, then that many bits shifted into the
      instruction register; a mismatch aborts after the shift. */
  function HandleSIr(p: Player, s: seq<byte>, tap: Driver): (r: Outcome)
    ensures r.Ran? <==> p.pos < |s| && p.pos + 1 + ByteCount(s[p.pos]) <= |s|
    ensures r.Overrun? ==> r.player == p
    ensures r.Ran? ==>
      var tdi := Bits(s[p.pos], s[p.pos + 1 .. p.pos + 1 + ByteCount(s[p.pos])]);
      r.player == Shift(p.(pos := p.pos + 1 + ByteCount(s[p.pos])), ShiftIR(tdi), tap)
  {
    match ReadU8(s, p.pos)
    case OutOfData => Overrun(p)
    case Got(count, next) =>
      match ReadBits(s, next, count)
      case OutOfData => Overrun(p)
      case Got(tdi, after) => Ran(Shift(p.(pos := after), ShiftIR(tdi), tap))
  }

  /** x_run_test: a 32-bit run-test count handed to the driver. */
  function HandleRunTest(p: Player, s: seq<byte>): (r: Outcome)
    ensures r.Ran? <==> p.pos + 4 <= |s|
    ensures r.Overrun? ==> r.player == p
    ensures r.Ran? ==> r.player == Issue(p.(pos := p.pos + 4), SetRunTest(ReadU32(s, p.pos).value))
  {
    match ReadU32(s, p.pos)
    case OutOfData => Overrun(p)
    case Got(cycles, next) => Ran(Issue(p.(pos := next), SetRunTest(cycles)))
  }

  /** x_repeat: a one-byte repeat count handed to the driver. */
  function HandleRepeat(p: Player, s: seq<byte>): (r: Outcome)
    ensures r.Ran? <==> p.pos < |s|
    ensures r.Overrun? ==> r.player == p
    ensures r.Ran? ==> r.player == Issue(p.(pos := p.pos + 1), SetRepeat(s[p.pos]))
  {
    match ReadU8(s, p.pos)
    case OutOfData => Overrun(p)
    case Got(times, next) => Ran(Issue(p.(pos := next), SetRepeat(times)))
  }

  /** x_s_dr_size: a 32-bit data-register size is stored and the TDO
      mask is emptied; the driver is not called. */
  function HandleSDrSize(p: Player, s: seq<byte>): (r: Outcome)
    ensures r.Ran? <==> p.pos + 4 <= |s|
    ensures r.Overrun? ==> r.player == p
    ensures r.Ran? ==> r.player == p.(pos := p.pos + 4, drSize := ReadU32(s, p.pos).value, tdoMask := NoBits)
  {
    match ReadU32(s, p.pos)
    case OutOfData => Overrun(p)
    case Got(size, next) => Ran(p.(pos := next, drSize := size, tdoMask := NoBits))
  }

  /** x_s_dr_tdo: `drSize` bits to shift in, then `drSize` bits of
      expected output, shifted against the current TDO mask; a mismatch
      aborts after the shift. */
  function HandleSDrTdo(p: Player, s: seq<byte>, tap: Driver): (r: Outcome)
    ensures r.Ran? <==> p.pos + 2 * ByteCount(p.drSize) <= |s|
    ensures r.Overrun? ==> r.player == p
    ensures r.Ran? ==>
      var n := ByteCount(p.drSize);
      var tdi := ReadBits(s, p.pos, p.drSize).value;
      var tdo := ReadBits(s, p.pos + n, p.drSize).value;
      r.player == Shift(p.(pos := p.pos + 2 * n), ShiftDR(tdi, tdo, p.tdoMask), tap)
  {
    var size := p.drSize;
    match ReadBits(s, p.pos, size)
    case OutOfData => Overrun(p)
    case Got(tdi, next) =>
      match ReadBits(s, next, size)
      case OutOfData => Overrun(p)
      case Got(tdo, after) => Ran(Shift(p.(pos := after), ShiftDR(tdi, tdo, p.tdoMask), tap))
  }

  /** x_state: one state byte, passed to the driver unchecked. */
  function HandleState(p: Player, s: seq<byte>): (r: Outcome)
    ensures r.Ran? <==> p.pos < |s|
    ensures r.Overrun? ==> r.player == p
    ensures r.Ran? ==> r.player == Issue(p.(pos := p.pos + 1), EnterState(State(s[p.pos])))
  {
    match ReadState(s, p.pos)
    case OutOfData => Overrun(p)
    case Got(target, next) => Ran(Issue(p.(pos := next), EnterState(target)))
  }

  /** The end state an XENDIR/XENDDR byte selects: 1 picks the pause
      state, anything else Run-Test/Idle. */
  function EndState(value: byte, pause: State): State {
    if value == 1 then pause else RunTestIdle
  }

  /** x_end_ir: 0 selects Run-Test/Idle and 1 Pause-IR; a larger value
      aborts, yet the driver is still told Run-Test/Idle. */
  function HandleEndIr(p: Player, s: seq<byte>): (r: Outcome)
    ensures r.Ran? <==> p.pos < |s|
    ensures r.Overrun? ==> r.player == p
    ensures r.Ran? ==> r.player.trace == p.trace + [SetEndIR(if s[p.pos] == 1 then PauseIr else RunTestIdle)]
    ensures r.Ran? ==> r.player.error == (p.error || s[p.pos] > 1) && r.player.done == (p.done || s[p.pos] > 1)
    ensures r.Ran? ==> r.player.(trace := p.trace, error := p.error, done := p.done) == p.(pos := p.pos + 1)
  {
    match ReadU8(s, p.pos)
    case OutOfData => Overrun(p)
    case Got(value, next) =>
      var q := p.(pos := next);
      var q' := if value > 1 then Abort(q) else q;
      Ran(Issue(q', SetEndIR(EndState(value, PauseIr))))
  }

  /** x_end_dr: as x_end_ir, with Pause-DR for 1. */
  function HandleEndDr(p: Player, s: seq<byte>): (r: Outcome)
    ensures r.Ran? <==> p.pos < |s|
    ensures r.Overrun? ==> r.player == p
    ensures r.Ran? ==> r.player.trace == p.trace + [SetEndDR(if s[p.pos] == 1 then PauseDr else RunTestIdle)]
    ensures r.Ran? ==> r.player.error == (p.error || s[p.pos] > 1) && r.player.done == (p.done || s[p.pos] > 1)
    ensures r.Ran? ==> r.player.(trace := p.trace, error := p.error, done := p.done) == p.(pos := p.pos + 1)
  {
    match ReadU8(s, p.pos)
    case OutOfData => Overrun(p)
    case Got(value, next) =>
      var q := p.(pos := next);
      var q' := if value > 1 then Abort(q) else q;
      Ran(Issue(q', SetEndDR(EndState(value, PauseDr))))
  }

  /** x_wait: a state to wait in, a state to end in and a 32-bit time,
      handed to the driver. */
  function HandleWait(p: Player, s: seq<byte>): (r: Outcome)
    ensures r.Ran? <==> p.pos + 6 <= |s|
    ensures r.Overrun? ==> r.player == p
    ensures r.Ran? ==>
      r.player == Issue(p.(pos := p.pos + 6), Wait(State(s[p.pos]), State(s[p.pos + 1]), ReadU32(s, p.pos + 2).value))
  {
    match ReadState(s, p.pos)
    case OutOfData => Overrun(p)
    case Got(waitState, p1) =>
      match ReadState(s, p1)
      case OutOfData => Overrun(p)
      case Got(endState, p2) =>
        match ReadU32(s, p2)
        case OutOfData => Overrun(p)
        case Got(time, next) => Ran(Issue(p.(pos := next), Wait(waitState, endState, time)))
  }

  /** The call through the table: `p` stands just after the opcode. */
  function Dispatch(h: Handler, p: Player, s: seq<byte>, tap: Driver): (r: Outcome)
    requires p.pos <= |s|
    ensures r.Overrun? ==> r.player == p
    ensures r.Ran? ==> p.pos <= r.player.pos <= |s|
    ensures r.Ran? ==> p.trace <= r.player.trace && |r.player.trace| <= |p.trace| + 1
    ensures r.Ran? && p.error ==> r.player.error
    ensures r.Ran? && r.player.error && !p.error ==> r.player.done
    ensures r.Ran? && r.player.done && !p.done && !r.player.error ==> h == XComplete && r.player == p.(done := true)
    ensures r.Ran? && h != XSDrSize ==> r.player.drSize == p.drSize
    ensures r.Ran? && h != XSDrSize && h != XTdoMask ==> r.player.tdoMask == p.tdoMask
  {
    match h
    case XComplete => HandleComplete(p)
    case XTdoMask => HandleTdoMask(p, s)
    case XSIr => HandleSIr(p, s, tap)
    case XRunTest => HandleRunTest(p, s)
    case XRepeat => HandleRepeat(p, s)
    case XSDrSize => HandleSDrSize(p, s)
    case XSDrTdo => HandleSDrTdo(p, s, tap)
    case XState => HandleState(p, s)
    case XEndIr => HandleEndIr(p, s)
    case XEndDr => HandleEndDr(p, s)
    case XWait => HandleWait(p, s)
    case Unimplemented => Ran(Abort(p))
  }

  /** One turn of the loop: get_instruction, then handle. An opcode past
      the table aborts and the player stops there; an unsupported opcode
      aborts having consumed only itself. */
  function Step(p: Player, s: seq<byte>, tap: Driver): (r: Outcome)
    ensures r.Overrun? ==> r.player == p
    ensures r.Ran? ==> p.pos < r.player.pos <= |s|
    ensures r.Ran? ==> p.trace <= r.player.trace && |r.player.trace| <= |p.trace| + 1
    ensures r.Ran? && p.error ==> r.player.error
    ensures r.Ran? && r.player.error && !p.error ==> r.player.done
    ensures r.Ran? && r.player.done && !p.done && !r.player.error ==>
              s[p.pos] == XCOMPLETE && r.player == p.(pos := p.pos + 1, done := true)
    ensures r.Ran? && s[p.pos] != XSDRSIZE ==> r.player.drSize == p.drSize
    ensures r.Ran? && s[p.pos] != XSDRSIZE && s[p.pos] != XTDOMASK ==> r.player.tdoMask == p.tdoMask
    ensures p.pos < |s| && (s[p.pos] >= 0x18 || IsUnimplemented(s[p.pos])) ==>
              r == Ran(Abort(p.(pos := p.pos + 1)))
  {
    match ReadU8(s, p.pos)
    case OutOfData => Overrun(p)
    case Got(op, next) =>
      var q := p.(pos := next);
      if op >= |HandlerTable| then Ran(Abort(q))
      else
        TableEntry(op);
        match Dispatch(HandlerTable[op], q, s, tap)
        case Overrun(_) => Overrun(p)
        case Ran(q') => Ran(q')
  }

  /** The constructor's loop: steps until the player is done, or until an
      instruction runs past the end of the stream. Every step consumes at
      least its opcode, so the bytes left bound the number of steps. */
  function Run(p: Player, s: seq<byte>, tap: Driver): (r: Outcome)
    requires p.pos <= |s|
    ensures p.done ==> r == Ran(p)
    ensures r.Ran? ==> r.player.done
    ensures r.player.pos <= |s|
    ensures r.Overrun? ==> !r.player.done
    ensures p.error ==> r.player.error
    ensures !p.error && r.player.error ==> r.player.done
    ensures p.trace <= r.player.trace
    ensures r.Ran? && !p.done && !r.player.error ==> 1 <= r.player.pos && s[r.player.pos - 1] == XCOMPLETE
    ensures r.Ran? && !p.done && !r.player.error ==>
              Step(r.player.(pos := r.player.pos - 1, done := false), s, tap) == Ran(r.player)
    decreases |s| - p.pos
  {
    if p.done then Ran(p)
    else
      match Step(p, s, tap)
      case Overrun(q) => Overrun(q)
      case Ran(q) => Run(q, s, tap)
  }

  /** XSVFPlayer(data, tap): a fresh player run over the whole stream. */
  function Play(s: seq<byte>, tap: Driver): (r: Outcome)
    ensures r.player.pos <= |s|
    ensures r.Ran? ==> r.player.done
    ensures r.Ran? && !Failed(r.player) ==> 1 <= r.player.pos && s[r.player.pos - 1] == XCOMPLETE
    ensures r.Ran? && !Failed(r.player) ==>
              Step(r.player.(pos := r.player.pos - 1, done := false), s, tap) == Ran(r.player)
    ensures r.player.error ==> r.player.done
  {
    Run(Init(), s, tap)
  }

  /** A stream whose first opcode is past the table or has no handler
      fails at once: only the opcode is consumed and the driver is never
      called. */
  lemma UnsupportedFirstOpcodeFails(s: seq<byte>, tap: Driver)
    requires 1 <= |s| && (s[0] >= 0x18 || IsUnimplemented(s[0]))
    ensures Play(s, tap) == Ran(Abort(Init().(pos := 1)))
    ensures Failed(Play(s, tap).player) && Play(s, tap).player.trace == []
  {
    assert Step(Init(), s, tap) == Ran(Abort(Init().(pos := 1)));
  }

  /** The stream holding just XCOMPLETE finishes without failing and
      without a single driver call, whatever follows it. */
  lemma CompleteAloneSucceeds(rest: seq<byte>, tap: Driver)
    ensures Play([XCOMPLETE] + rest, tap) == Ran(Init().(pos := 1, done := true))
    ensures !Failed(Play([XCOMPLETE] + rest, tap).player) && Play([XCOMPLETE] + rest, tap).player.trace == []
  {
    var s := [XCOMPLETE] + rest;
    HandlerTableLayout();
    assert Step(Init(), s, tap) == Ran(Init().(pos := 1, done := true));
  }

  /** A fresh player's data-register size is 0, so an XTDOMASK before any
      XSDRSIZE consumes no payload and leaves the mask empty. */
  lemma FreshTdoMaskReadsNothing(s: seq<byte>, tap: Driver)
    requires 1 <= |s| && s[0] == XTDOMASK
    ensures Step(Init(), s, tap) == Ran(Init().(pos := 1))
  {
    HandlerTableLayout();
  }

  /** Likewise an XSDRTDO before any XSDRSIZE consumes no payload: it
      shifts two empty vectors against the empty mask. */
  lemma FreshShiftDrReadsNothing(s: seq<byte>, tap: Driver)
    requires 1 <= |s| && s[0] == XSDRTDO
    ensures Step(Init(), s, tap) == Ran(Shift(Init().(pos := 1), ShiftDR(NoBits, NoBits, NoBits), tap))
  {
    HandlerTableLayout();
  }
}
