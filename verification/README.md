# XSVF player, modelled in Dafny

This project models the XSVF instruction interpreter of the PortaPack
firmware (`jtag::tap::XSVFPlayer`). XSVF is the binary JTAG command set of
Xilinx application note XAPP503. The player walks a flat byte stream one
opcode at a time. It decodes each instruction's fields with a byte cursor
and turns the instruction into calls on a TAP driver. Across instructions
it keeps the data-register size (`dr_size`), the TDO compare mask
(`tdo_mask`) and the `error` and `done` flags.

The project has five modules:

- `Jtag` (`jtag.dfy`) holds the TAP-side vocabulary. `Bits` is a bit
  vector: a bit count plus the bytes that carry it. `State` is a raw
  TAP-state byte. `Call` records one driver call. A `Driver` is the
  driver's mismatch answer, given as a function of the call trace so far.
- `Reader` (`reader.dfy`) is the byte cursor: `read_u8`, `read_state`,
  `read_u32` and `read_bits`. Every read is bounds-checked. It also has
  the big-endian encoder that `read_u32` inverts.
- `Player` (`player.dfy`) is the interpreter itself. It has the session
  record, `abort`, the eleven `x_*` handlers, the 24-entry dispatch table,
  one fetch–decode–execute `Step`, the `Run` loop and `Play` (the
  constructor). Everything is a pure function. The player record carries
  the cursor and the trace of driver calls.
- `Program` (`program.dfy`) gives XSVF programs as lists of decoded
  instructions, their byte encoding, and a reference meaning that never
  looks at bytes. Its theorem says that playing the encoding of a valid
  program does exactly what the reference meaning says.
- `SizeWrap` (`sizewrap.dfy`) covers the cursor advance of `read_bits` as
  the firmware computes it in 32-bit arithmetic. See Findings.

Stream bytes are integers in 0..255 (`byte`). The firmware's `uint32_t`
values, `dr_size` among them, are integers in 0..2^32−1 (`u32`).
`read_u32`'s shift-and-OR is written with its 32-bit wrap, and four bytes
never reach it. The cursor advance of `read_bits` is different. The
player modules advance by the intended ceil(count/8), with no wrap. The
firmware's 32-bit `(count + 7) >> 3` is modelled only in `SizeWrap`.
There it wraps to 0 for counts of 0xFFFFFFF9 and above; see Findings.

There is one deliberate deviation. The firmware reads through a raw
pointer with no bounds check, so a stream that ends too early is
undefined behaviour. The model checks every read instead. Every handler
reads all of its fields before it acts. So an instruction whose fields run
past the end of the stream has no effect, and the run ends in
`Overrun(player)`, where the player is as it stood before that
instruction. Every step consumes at least its opcode byte, so the number
of bytes left is the termination measure of `Run`.

The TAP states Run-Test/Idle, Pause-DR and Pause-IR carry the codes 0x01,
0x06 and 0x0D of the XSTATE encoding in XAPP503. The header that defines
them in the firmware (`jtag_tap.hpp`) is not part of this model. Nothing
in the proofs depends on those codes beyond their being distinct.

XSDRSIZE empties `tdo_mask` (`xsvf_player.cpp:83`). So right after it
the mask is zero bits long, whatever `dr_size` is, until an XTDOMASK
sets it. XENDIR and XENDDR do not return early after an abort on a value
above 1.
The driver still receives `set_end_ir`/`set_end_dr(run_test_idle)`, and
the model keeps that call.

## Model

| member | source | states |
|---|---|---|
| Jtag.ByteCount | firmware/application/xsvf_player.cpp:155 | the advance of `read_bits` is the ceiling of count/8: enough bytes for the bits, and fewer than one byte more than they need |
| Reader.ByteCountIsLeast | firmware/application/xsvf_player.cpp:155 | no smaller number of whole bytes holds the bits |
| Reader.ReadU8 | firmware/application/xsvf_player.cpp:134-136 | one byte is read, the byte at the cursor, and the cursor moves by exactly one; it fails exactly when the stream is exhausted |
| Reader.ReadState | firmware/application/xsvf_player.cpp:138-140 | a state is the same read as `read_u8`, with the byte reinterpreted as a state without any range check |
| Reader.ShiftIn | firmware/application/xsvf_player.cpp:144-145 | one accumulation step on a 32-bit word (shift left by 8, dropping the bits past bit 31, then OR in the byte) appends the byte in base 256 whenever the word is below 2^24 |
| Reader.Pack | firmware/application/xsvf_player.cpp:142-151 | the shift-and-OR accumulation of four bytes never loses a bit, and it gives `b0·2^24 + b1·2^16 + b2·2^8 + b3` |
| Reader.BigEndianOfEncoding | firmware/application/xsvf_player.cpp:142-151 | splitting any 32-bit word into four big-endian bytes and weighing them back gives the word |
| Reader.EncodingOfBigEndian | firmware/application/xsvf_player.cpp:142-151 | any four bytes whose big-endian value is a 32-bit word split back into the same four bytes |
| Reader.ReadU32 | firmware/application/xsvf_player.cpp:142-151 | four bytes are consumed and the result is their big-endian value; it fails exactly when fewer than four bytes remain |
| Reader.ReadU32Encoded | firmware/application/xsvf_player.cpp:142-151 | round trip: reading the big-endian encoding of any 32-bit word gives back that word and advances by four |
| Reader.ReadU32Consumed | firmware/application/xsvf_player.cpp:142-151 | reverse round trip: the word read re-encodes to exactly the four bytes consumed |
| Reader.ReadBits | firmware/application/xsvf_player.cpp:153-157 | the vector has the requested bit count and holds the ceil(count/8) bytes at the cursor; the cursor moves by exactly that many bytes; a zero-width read consumes nothing and gives the empty vector |
| Reader.ReadBitsEncoded | firmware/application/xsvf_player.cpp:153-157 | round trip: any well-sized vector whose bytes sit at the cursor is read back unchanged |
| Player.HandlerTableLayout | firmware/application/xsvf_player.cpp:181-206 | the table has 0x18 entries; each supported opcode of `instruction_t` (XCOMPLETE 0x00 … XWAIT 0x17) sits at the position of its handler; the `unimplemented` slots are exactly 0x03, 0x05, 0x06, 0x0a–0x11, 0x15 and 0x16 |
| Player.TableEntry | firmware/application/xsvf_player.cpp:181-206 | for an opcode inside the table: its entry is `x_complete` exactly for 0x00, `x_tdo_mask` exactly for 0x01, `x_s_dr_size` exactly for 0x08, and `unimplemented` exactly for the unsupported opcodes |
| Player.Init | firmware/application/xsvf_player.hpp:69-74 | a fresh player stands at the start of the stream with `dr_size` 0, an empty `tdo_mask`, `error` and `done` false, and no driver calls |
| Player.Abort | firmware/application/xsvf_player.cpp:175-179 | abort sets both `error` and `done` and changes nothing else |
| Player.AbortIdempotent | firmware/application/xsvf_player.cpp:167-173 | the double abort of an unimplemented opcode (once in `handle`, once in `unimplemented`) is the same as one abort |
| Player.HandleComplete | firmware/application/xsvf_player.cpp:50-53 | XCOMPLETE sets `done` and leaves `error`, the cursor and everything else as they were |
| Player.HandleTdoMask | firmware/application/xsvf_player.cpp:55-58 | XTDOMASK reads exactly `dr_size` bits, and they become the mask; nothing else changes |
| Player.HandleSIr | firmware/application/xsvf_player.cpp:60-67 | XSIR reads a length byte, then that many bits; the `shift_ir` call is issued first, and a mismatch answer then sets `error` and `done` |
| Player.HandleRunTest | firmware/application/xsvf_player.cpp:69-73 | XRUNTEST reads a u32 and makes one `set_run_test` call with it |
| Player.HandleRepeat | firmware/application/xsvf_player.cpp:75-79 | XREPEAT reads one byte and makes one `set_repeat` call with it |
| Player.HandleSDrSize | firmware/application/xsvf_player.cpp:81-85 | XSDRSIZE stores the u32 read in `dr_size` and empties `tdo_mask`, with no driver call |
| Player.HandleSDrTdo | firmware/application/xsvf_player.cpp:87-94 | XSDRTDO reads two `dr_size`-bit vectors, 2·ceil(dr_size/8) bytes in all; it calls `shift_dr` with them and the current mask, and a mismatch then aborts |
| Player.HandleState | firmware/application/xsvf_player.cpp:96-100 | XSTATE reads one byte and passes it unchecked to `state` |
| Player.HandleEndIr | firmware/application/xsvf_player.cpp:102-110 | XENDIR: 0 gives Run-Test/Idle and 1 gives Pause-IR; a value above 1 aborts, and the driver still gets `set_end_ir(run_test_idle)` |
| Player.HandleEndDr | firmware/application/xsvf_player.cpp:112-120 | XENDDR: 0 gives Run-Test/Idle and 1 gives Pause-DR; a value above 1 aborts, and the driver still gets `set_end_dr(run_test_idle)` |
| Player.HandleWait | firmware/application/xsvf_player.cpp:122-128 | XWAIT reads two state bytes and a u32, and makes one `wait` call with them |
| Player.Dispatch | firmware/application/xsvf_player.cpp:167-173 | a handler adds at most one driver call; it only sets `error` together with `done`; it never clears `error`; it finishes without error only as XCOMPLETE, which changes nothing but `done`; only XSDRSIZE writes `dr_size`; only XSDRSIZE and XTDOMASK write `tdo_mask` |
| Player.Step | firmware/application/xsvf_player.cpp:159-173 | one instruction consumes at least its opcode byte; it adds at most one driver call and never clears `error`; only XSDRSIZE changes `dr_size`; a clean `done` comes only from XCOMPLETE, which moves past its opcode and sets `done` and nothing else; an opcode of 0x18 or more, or one in an `unimplemented` slot, aborts having consumed only itself and made no driver call |
| Player.Run | firmware/application/xsvf_player.cpp:44-47 | the loop stops once `done` is set and leaves a done player as it is; `error` is sticky; the trace only grows; a run that ends without error ended with an XCOMPLETE step: the player just before the final cursor, not yet done, steps to exactly the final player through an XCOMPLETE opcode |
| Player.Play | firmware/application/xsvf_player.cpp:38-48 | a finished run is `done`; `failed()` reports false only if the last step was an XCOMPLETE, which took the player one byte back and not yet done to exactly the final player; an error always comes with `done` |
| Player.UnsupportedFirstOpcodeFails | firmware/application/xsvf_player.cpp:159-173 | a stream whose first opcode is out of range or unimplemented fails, with no driver call and only the opcode consumed |
| Player.CompleteAloneSucceeds | firmware/application/xsvf_player.hpp:38 | the stream `[0x00]`, whatever follows it, ends with `failed()` false and no driver call |
| Player.FreshTdoMaskReadsNothing | firmware/application/xsvf_player.hpp:71-72 | because `dr_size` starts at 0, an XTDOMASK before any XSDRSIZE consumes no payload and the mask stays empty |
| Player.FreshShiftDrReadsNothing | firmware/application/xsvf_player.hpp:71-72 | because `dr_size` starts at 0, an XSDRTDO before any XSDRSIZE consumes no payload and shifts empty vectors against the empty mask |
| Program.ExecInstr | firmware/application/xsvf_player.cpp:50-128 | the reference meaning of one instruction moves the cursor past exactly its encoding, changes `dr_size` only for XSDRSIZE, and fails exactly on an unsupported opcode, an end-state byte above 1, or a shift the driver reports as mismatched; it is done also after XCOMPLETE |
| Program.Exec | firmware/application/xsvf_player.cpp:44-47 | the reference meaning of a program stops at the first instruction that leaves the player done, and otherwise consumes the whole encoding; `error` is sticky |
| Program.SirFields | firmware/application/xsvf_player.cpp:60-67 | `x_s_ir` over an encoded XSIR reads back the length byte and the vector that were written, and moves past both |
| Program.SdrTdoFields | firmware/application/xsvf_player.cpp:87-94 | `x_s_dr_tdo` over an encoded XSDRTDO reads back both vectors that were written and shifts them against the current mask |
| Program.StepMatchesReference | firmware/application/xsvf_player.cpp:50-128 | over the encoding of any valid instruction, one step of the player equals that instruction's reference meaning, which is written on decoded fields |
| Program.RunThrough | firmware/application/xsvf_player.cpp:44-47 | playing over the encoding of a valid program is the same as playing on from where the program's reference meaning leaves the player |
| Program.ExecEndsDone | firmware/application/xsvf_player.cpp:50-53 | the reference meaning of any program whose last instruction is XCOMPLETE ends done |
| Program.RunMatchesReference | firmware/application/xsvf_player.cpp:38-48 | a valid program ending in XCOMPLETE plays to exactly the reference result, whatever follows it in the stream and whatever the driver answers |
| Program.CleanProgramSucceeds | firmware/application/xsvf_player.cpp:44-53 | a valid program ending in XCOMPLETE, with no unsupported opcode or bad end-state byte, succeeds when the driver never reports a mismatch |
| Program.ExecCleanKeepsError | firmware/application/xsvf_player.cpp:102-132 | with a driver that never reports a mismatch, only an unsupported opcode or an end-state byte above 1 sets `error` |
| Program.ExecCleanNotDone | firmware/application/xsvf_player.cpp:44-53 | without XCOMPLETE and without an aborting instruction, the reference meaning never finishes |
| Program.UnterminatedOverruns | firmware/application/xsvf_player.cpp:134-136 | a clean stream with no XCOMPLETE never reports success: the player runs out of stream and the run ends in Overrun |
| Program.ShiftDrScenarioMatches | firmware/application/xsvf_player.cpp:87-94 | XSDRSIZE 8, XSDRTDO, XCOMPLETE against a matching driver: success, with exactly one `shift_dr` of the two stream bytes and an empty mask |
| Program.ShiftDrScenarioMismatches | firmware/application/xsvf_player.cpp:87-94 | the same stream against a mismatching driver: failure, with the same single `shift_dr`, stopping before XCOMPLETE is fetched |
| SizeWrap.AdvanceAsWritten | firmware/application/xsvf_player.cpp:153-157 | the advance as written agrees with ceil(count/8) except for the seven largest counts, where `count + 7` wraps and the advance is 0 |
| SizeWrap.AdvanceWrapsAtTop | firmware/application/xsvf_player.cpp:155 | for a count of 0xFFFFFFFF the written advance is 0 bytes, while 2^29 bytes are needed |
| SizeWrap.ReadBitsAsWritten | firmware/application/xsvf_player.cpp:153-157 | `read_bits` with the 32-bit advance: the vector keeps its count but spans only the bytes advanced over; below the wrap it is the read of the rest of the model |
| SizeWrap.HandleTdoMaskAsWritten | firmware/application/xsvf_player.cpp:55-58 | `x_tdo_mask` over that read: the cursor moves by the 32-bit advance and the mask claims `dr_size` bits; below the wrap it is `Player.HandleTdoMask` |
| SizeWrap.WrappedMaskSkipsNothing | firmware/application/xsvf_player.cpp:55-58 | as written, the stream XSDRSIZE 0xFFFFFFFF, XTDOMASK, XCOMPLETE succeeds. XSDRSIZE stores 0xFFFFFFFF. XTDOMASK leaves the cursor on the next byte with a mask of 2^32 − 1 bits and no bytes. The next step fetches XCOMPLETE and ends done without failure |
| SizeWrap.CorrectedMaskOverruns | firmware/application/xsvf_player.cpp:153-157 | with the intended advance, the same stream ends in Overrun at XTDOMASK |

## Left out

- The TAP driver (`TAPMachine`), `bits_t` and `state_t` come from `jtag_tap.hpp`, which is not part of this model. The driver is abstract: its calls are recorded in a trace. Its only answer is the shift-mismatch flag, which a `Driver` function of the trace supplies.
- Electrical behaviour (TCK/TMS/TDI/TDO), the TAP state graph, and what run-test cycles and wait times mean are left out. The player only hands these to the driver.
- `tap_print` and `to_str` (debug output) are left out. They only log.
- Opcodes of 0x18 and above are handled differently. The firmware aborts in `get_instruction` and then indexes the handler table past its end, which is undefined behaviour. The model stops right after the abort.
- Unimplemented opcodes are aborted twice by the firmware, once in `handle` and again in `unimplemented`. The model aborts once; `Player.AbortIdempotent` shows that this is the same.
- Reading past the end of the buffer is undefined behaviour in the firmware. In the model every read is bounds-checked and ends the run in `Overrun`. This is an added outcome. On streams whose fields fit and whose bit counts stay below 0xFFFFFFF9, it changes nothing. The one other difference is the wrap of the next four lines.
- Jtag.ByteCount: the intended ceil(count/8) with no 32-bit wrap. The firmware's `(count + 7) >> 3` in `size_t` gives 0 for counts of 0xFFFFFFF9 and above. That behaviour is modelled only by `SizeWrap.AdvanceAsWritten`; see Findings.
- Reader.ReadBits: advances by the intended `ByteCount`, so for counts of 0xFFFFFFF9 and above it asks for ceil(count/8) bytes where the firmware advances by 0. The as-written read is `SizeWrap.ReadBitsAsWritten`; see Findings.
- Player.HandleTdoMask: reads the mask with the intended advance, so for `dr_size` of 0xFFFFFFF9 and above it ends in Overrun where the firmware moves on by 0 bytes. The as-written handler is `SizeWrap.HandleTdoMaskAsWritten`; see Findings.
- Player.HandleSDrTdo: reads both vectors with the intended advance, so for `dr_size` of 0xFFFFFFF9 and above it ends in Overrun where the firmware shifts two byteless vectors and moves on by 0 bytes. Only the XTDOMASK half of this wrap has an as-written member; see Findings.
- `Player.Failed` carries no contract of its own. It is `failed()`, the `error` field itself, and the rows for `Player.Play` and `Player.CompleteAloneSucceeds` state what it reports.

## Findings

| source | as written | input that shows it | evidently intended | confidence | as-written member | corrected member |
|---|---|---|---|---|---|---|
| firmware/application/xsvf_player.cpp:155 | `p += (count + 7) >> 3` computed in `size_t`. On the firmware's 32-bit target, `count + 7` wraps for counts of 0xFFFFFFF9 and above, so the cursor does not move | XSDRSIZE 0xFFFFFFFF, XTDOMASK, XCOMPLETE: XTDOMASK consumes no bytes, the next byte is fetched as XCOMPLETE, and the run reports success with a mask claiming 2^32 − 1 bits | advance by ceil(count/8) bytes, which here is more than the stream holds | medium: not executed; it holds where `size_t` is 32 bits wide | SizeWrap.WrappedMaskSkipsNothing | SizeWrap.CorrectedMaskOverruns |
