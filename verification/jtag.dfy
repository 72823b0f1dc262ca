/**
 The TAP-side vocabulary the XSVF player talks in: bit vectors handed to a
 shift, TAP states, and the calls the player makes on its TAP driver.

 The driver itself (clocking TCK/TMS/TDI, sampling TDO, walking the TAP
 state graph) is not modelled: its only observable effect here is the
 trace of calls it receives, and its only answer is the mismatch flag of
 the two shift calls.
 */
module Jtag {

  /** One byte of the stream, as uint8_t holds it. */
  type byte = x: int | 0 <= x < 0x100

  /** An unsigned 32-bit value, as uint32_t holds it. */
  type u32 = x: int | 0 <= x < 0x1_0000_0000

  /** A run of `count` bits together with the bytes that carry them, in
      stream order. The player never looks inside the bytes; comparing
      them is the driver's business. */
  datatype Bits = Bits(count: nat, data: seq<byte>)

  /** The empty vector a default-constructed bit vector holds. */
  const NoBits: Bits := Bits(0, [])

  /** Number of whole bytes needed to carry `count` bits. */
  function ByteCount(count: nat): (n: nat)
    ensures n * 8 >= count
    ensures n * 8 < count + 8
  {
    (count + 7) / 8
  }

  /** The vector carries exactly as many bytes as its bit count needs. */
  predicate WellSized(b: Bits) {
    |b.data| == ByteCount(b.count)
  }

  /** A TAP controller state, carried as the raw byte of the stream. The
      player never checks that the byte names one of the sixteen states. */
  datatype State = State(code: byte)

  /** The three states the player names itself, with their codes in the
      XSTATE encoding of Xilinx application note XAPP503. */
  const RunTestIdle: State := State(0x01)
  const PauseDr: State := State(0x06)
  const PauseIr: State := State(0x0D)

  /** One call the player makes on its TAP driver. */
  datatype Call =
    | ShiftIR(tdi: Bits)
    | ShiftDR(tdi: Bits, tdoExpected: Bits, mask: Bits)
    | SetRunTest(cycles: u32)
    | SetRepeat(times: byte)
    | EnterState(target: State)
    | SetEndIR(target: State)
    | SetEndDR(target: State)
    | Wait(waitState: State, endState: State, time: u32)

  /** The driver's mismatch answer to a shift call. It is given the whole
      trace of calls so far, ending with the shift being answered, so any
      deterministic driver, however it remembers what it was told, is one
      of these. */
  type Driver = seq<Call> -> bool

  /** A driver whose every shift matches what the stream expected. */
  const NeverMismatch: Driver := (trace: seq<Call>) => false

  /** A driver whose every shift reports a mismatch. */
  const AlwaysMismatch: Driver := (trace: seq<Call>) => true
}
