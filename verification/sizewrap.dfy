/**
 The cursor advance of read_bits as the firmware computes it. The bit
 count arrives as a size_t, 32 bits wide on the firmware's ARM target,
 and `(count + 7) >> 3` is evaluated in that width, so for the seven
 largest counts the sum wraps and the cursor does not move at all.

 The rest of the model reads with the intended advance, `ByteCount`,
 the least number of whole bytes that hold the bits.
 */
module SizeWrap {
  import opened Jtag
  import opened Reader
  import P = Player

  /** `(count + 7) >> 3` in 32-bit unsigned arithmetic. */
  function AdvanceAsWritten(count: u32): (n: nat)
    ensures count + 7 < 0x1_0000_0000 ==> n == ByteCount(count)
    ensures count + 7 >= 0x1_0000_0000 ==> n == 0
  {
    ((count + 7) % 0x1_0000_0000) / 8
  }

  /** For the largest data-register size the written advance is no
      bytes at all, where 2^29 bytes are needed. */
  lemma AdvanceWrapsAtTop()
    ensures AdvanceAsWritten(0xFFFF_FFFF) == 0
    ensures ByteCount(0xFFFF_FFFF) == 0x2000_0000
  {
  }

  /** The stream XSDRSIZE 0xFFFFFFFF, XTDOMASK, XCOMPLETE. */
  const WrapStream: seq<byte> := [P.XSDRSIZE, 0xFF, 0xFF, 0xFF, 0xFF, P.XTDOMASK, P.XCOMPLETE]

  /** read_bits as written: the cursor advances by the 32-bit sum, so a
      count in the top seven values yields a vector that claims its bits
      while holding no bytes. */
  function ReadBitsAsWritten(s: seq<byte>, pos: nat, count: u32): (r: Read<Bits>)
    ensures r.Got? <==> pos + AdvanceAsWritten(count) <= |s|
    ensures r.Got? ==> r.value.count == count && r.next == pos + AdvanceAsWritten(count)
                       && r.value.data == s[pos .. r.next]
    ensures count + 7 < 0x1_0000_0000 ==> r == ReadBits(s, pos, count)
  {
    var n := AdvanceAsWritten(count);
    if pos + n <= |s| then Got(Bits(count, s[pos .. pos + n]), pos + n) else OutOfData
  }

  /** x_tdo_mask over the read_bits as written. Below the wrap it is the
      handler of the rest of the model. */
  function HandleTdoMaskAsWritten(p: P.Player, s: seq<byte>): (r: P.Outcome)
    ensures r.Ran? <==> p.pos + AdvanceAsWritten(p.drSize) <= |s|
    ensures r.Overrun? ==> r.player == p
    ensures r.Ran? ==> r.player == p.(pos := p.pos + AdvanceAsWritten(p.drSize),
                                      tdoMask := Bits(p.drSize, s[p.pos .. p.pos + AdvanceAsWritten(p.drSize)]))
    ensures p.drSize + 7 < 0x1_0000_0000 ==> r == P.HandleTdoMask(p, s)
  {
    match ReadBitsAsWritten(s, p.pos, p.drSize)
    case OutOfData => P.Overrun(p)
    case Got(mask, next) => P.Ran(p.(pos := next, tdoMask := mask))
  }

  /** As written, the stream runs to success: XSDRSIZE stores 0xFFFFFFFF,
      XTDOMASK then moves the cursor by nothing and keeps a mask that
      claims 2^32 - 1 bits while holding no bytes, and the next byte,
      fetched as an opcode, is XCOMPLETE. */
  lemma WrappedMaskSkipsNothing(tap: Driver)
    ensures var q := P.Init().(pos := 5, drSize := 0xFFFF_FFFF);
            P.Step(P.Init(), WrapStream, tap) == P.Ran(q) && WrapStream[5] == P.XTDOMASK
    ensures var q := P.Init().(pos := 5, drSize := 0xFFFF_FFFF);
            var masked := q.(pos := 6, tdoMask := Bits(0xFFFF_FFFF, []));
            HandleTdoMaskAsWritten(q.(pos := 6), WrapStream) == P.Ran(masked) && !WellSized(masked.tdoMask)
    ensures var masked := P.Init().(pos := 6, drSize := 0xFFFF_FFFF, tdoMask := Bits(0xFFFF_FFFF, []));
            var r := P.Step(masked, WrapStream, tap);
            r == P.Ran(masked.(pos := 7, done := true)) && r.player.done && !P.Failed(r.player)
  {
    P.HandlerTableLayout();
    assert WrapStream[6 .. 6] == [];
  }

  /** With the intended advance, the same stream cannot supply the mask
      its XSDRSIZE announces, and the run ends in Overrun at XTDOMASK. */
  lemma CorrectedMaskOverruns(tap: Driver)
    ensures P.Play(WrapStream, tap) == P.Overrun(P.Init().(pos := 5, drSize := 0xFFFF_FFFF))
  {
    var s := WrapStream;
    P.HandlerTableLayout();
    var q := P.Init().(pos := 5, drSize := 0xFFFF_FFFF);
    assert P.Step(P.Init(), s, tap) == P.Ran(q);
    assert P.Step(q, s, tap) == P.Overrun(q);
    assert P.Run(q, s, tap) == P.Overrun(q);
  }
}
