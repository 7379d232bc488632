# JTAG over MPSSE: a model and its proofs

This project models the part of the repository that turns JTAG operations into USB traffic, from the
Quartus back ends and the JTAG queue executor down to single bits in buffers, and proves what it does.

The code is a small compiler with bounded buffers. `mpsse.c` compiles "clock these bits" into MPSSE
commands, splits them at command limits and at full buffers, flushes in between, and puts the TDO bits of
the replies, which arrive later, where the caller wants them. The proofs give the command stream a meaning:
`MpsseDevice` runs it on a model of the chip (command set of FTDI AN2232C-01, LSB-first commands), and
everything above is stated in terms of the clocks the chip makes and the TDO bits it samples.

| file | content |
|---|---|
| Bits, BitCopy, Words, Numbers | bits in bytes and buffers, the unaligned bit copy, 32-bit words, buffers as numbers |
| MpsseDevice | the chip: what a command stream makes the pins do, and what it sends back |
| ReadBack | the queue of deferred bit copies as a sequence of single-bit writes to caller memory |
| Usb | the two asynchronous transfers of a flush, with libusb free to complete them in any pieces and any order |
| Plans | which flushes a sequence of operations takes, from buffer sizes, fill levels and requests alone |
| ShiftCommands, Mpsse, MpsseClient | `mpsse_ctx` and its operations, and an operation together with its flush |
| Tap | the TAP simulator |
| JtagQueue, JtagHw | the two Quartus back ends over the simulator and over the MPSSE driver |
| Interface, Routes | the state graph and the TMS tables, and what is the shortest about them |
| JtagCommands, Effects, ScanData, Ftdi | the JTAG queue commands, what each does in clocks and states, and their executor |
| Target, Instructions, FtdiClient | what scans of the queue read from a target that is a TAP, and which instruction they leave selected; the whole stack from a call of the executor to the target's register and back |
| List | the intrusive circular lists and the bit copy queue kept in one |
| Floats, Powers, Estimates | products in single precision, bounds on powers, and the room made for a number in another radix |
| Radix, BufferShr | numbers between text and buffers, shifting a buffer |

## How to read the claims

- **Flushes that fail.** An operation flushes when a buffer is too full for its next command. `Plans` computes
  from the buffer sizes, the fill levels and the request which flushes that takes and what each has to move
  (`DataPlan`, `TmsPlan`, `CommandPlan`; `AllAsked` for operations one after another). `Usb.Succeeds` says, from
  what libusb does alone, whether a flush succeeds. Every operation states that it makes exactly the planned
  flushes up to the first that fails and that an error is pending afterwards exactly if one failed
  (`Plans.Followed`, `Plans.Settles`), and what it clocks if no error is pending. Statements over whole runs have
  the hypothesis that libusb serves the planned flushes, which depends on the calls and on libusb only;
  `Usb.Obliging` is a bus that serves every plan, so that they also hold without that hypothesis there. What
  holds of caller memory holds in every case: each destination is its old content with a suffix of the ghost
  write log applied.
- **The assertion at openocd/src/jtag/drivers/mpsse.c:872 is wrong.** A flush that fails inside an
  operation leaves its error pending, and the operation goes on filling the buffers. The next `mpsse_flush`
  asserts that they are empty. The model keeps the code as it is and records the failed assertion in
  `aborted`. The write buffer is never empty while an error is pending, so the assertion fails whenever it is
  reached: `Mpsse.Context.Flush` states this for one call; `MpsseClient.FlushAfterClockData`,
  `FlushAfterClockTms` and `FlushAfterSetting` state for every operation when it happens, both ways, in terms of
  the plan; and `MpsseClient.SendSixteenKilobytes` is an input that fails. The other assertions of the file
  (479, 487, 497, 879) are preconditions or facts that are proved.
- **Overlapping buffers.** A flush in the middle of a request stores TDO bits, and these may change bits of `out`
  that are still to be sent. `Mpsse.Context.ClockData` and `ClockTmsCs` return the bits that were sent: they are
  the requested ones if the request takes no flush or no outstanding read points at bits to be sent
  (`Mpsse.Untroubled`), and otherwise each is what `out` held at some moment on the way (`ReadBack.HeldOnTheWay`). For the queue `JtagCommands.FieldIsSent` says which it is from the commands alone.
- **Number conversions lose digits when they are long.** `str_to_buf` and `buf_to_str` estimate their room in
  single precision, which `Floats` models. `Radix.EnoughBytes` and `EnoughDigits` say exactly when the room is
  enough for every number: for octal digits always; for hexadecimal digits and texts as long as rounding the size
  to 24 bits does not make it smaller, so up to 16777216 and not for 16777217; for octal texts up to 5592410
  digits and not for 5592411; for decimal texts up to 1810 digits and not for 1811, because the factor 0.41524 is
  below log 10 / log 256; for decimal digits up to 14368 bytes and not for 14369.
- **TMS tables.** An entry of the short table is the one shortest sequence of TMS bits that leads where it says, among
  all sequences (`Routes.ShortTableIsShortest`); `ShortTableComesBack` and `FromReset` have the entries that wait or
  come back. The old table takes seven clocks for the same stops, except exactly: its paths between shift states
  enter the goal early and shift there, and its paths from a pause state to itself and from Pause-IR to Shift-IR
  update and capture first, so that an IR scan taken up again from Pause-IR with the old table is not a
  continuation (`Routes.OldTableStops`).
- **JTAG_TMS** leaves the state follower alone; `JtagCommands.TmsIsNotTracked` says when that is right.
- **Request below 92 Hz.** The divisor is at its limit; `Mpsse.RequestIsMet` says the programmed rate is
  within the request exactly from 92 Hz on.
- ftdi.c from line 276 and 339 on is compiled out in this build, and interface.c is not built; they are
  modelled as written.
- BYPASS captures 1 in the simulator (inc/jtag_tap_controller.hpp:63), where clause 10 of IEEE Std
  1149.1-2001 has 0. The model follows the code.

## Model

| member | source | states |
|---|---|---|
| BitCopy.BufSetBuf | openocd/src/helper/binarybuffer.c:147-190 | every destination bit in the range becomes its source bit and every other bit stays, for the byte loop and for the bit loop with its two moving cursors |
| BitCopy.CopiedIsUnique | openocd/src/helper/binarybuffer.c:147-190 | that statement leaves only one possible result |
| BitCopy.CopyBytes | openocd/src/helper/binarybuffer.c:167-171 | on aligned ranges of whole bytes the byte loop copies the same bits as the bit loop |
| Words.BufSetU32 | openocd/src/helper/binarybuffer.h:40-59 | the low bits of the value land at the given place and all other bits stay; the 32-bit fast path does the same as the loop |
| MpsseDevice.RunAppend | openocd/src/jtag/drivers/mpsse.c:516-642 | running a command stream in two pieces gives the clocks and the reply of running it at once |
| ReadBack.CopyIsEntryWrites | openocd/src/helper/binarybuffer.h:211-215 | a queued bit copy has the effect of single-bit writes, one for each bit |
| ReadBack.TilesInRange | openocd/src/jtag/drivers/mpsse.c:493-502 | queued reads that lie one after another stay within the bytes they account for |
| ReadBack.CaptureTargets | openocd/src/jtag/drivers/mpsse.c:493-502 | TDO bits only ever go to buffers that queued copies point at |
| ReadBack.SendImmediate | openocd/src/jtag/drivers/mpsse.c:886-891 | appending 0x87 changes neither what the chip does nor its reply |
| ShiftCommands.ByteShift | openocd/src/jtag/drivers/mpsse.c:550-582 | one byte-mode command makes 8n clocks with TMS held, TDI from its payload or held, and replies with all samples packed |
| ShiftCommands.BitShift | openocd/src/jtag/drivers/mpsse.c:539-549 | one bit-mode command makes n clocks and replies with the samples in the top n bits of one byte |
| ShiftCommands.TmsShift | openocd/src/jtag/drivers/mpsse.c:625-640 | one TMS command clocks n bits of its data byte on TMS with bit 7 on TDI |
| ShiftCommands.Opcodes | openocd/src/jtag/drivers/mpsse.c:539-640 | the opcodes of AN2232C-01 that these commands have in the two modes in use |
| ShiftCommands.OtherOpcodes | openocd/src/jtag/drivers/mpsse.c:644-767 | those of the pins and the configuration, with their operands |
| ShiftCommands.TopBitsAt | openocd/src/jtag/drivers/mpsse.c:539-549 | in the reply to a bit-mode command the first bit is the lowest of those at the top |
| ShiftCommands.PinsOfLow | openocd/src/jtag/drivers/mpsse.c:644-659 | setting the low byte puts its bits 1 and 3 on TDI and TMS if these are outputs |
| ShiftCommands.ShiftRead | openocd/src/jtag/drivers/mpsse.c:493-502 | after a command that reads, running the queued copies on the reply still stores exactly what TDO showed, each bit in its place |
| Usb.StripPackets | openocd/src/jtag/drivers/mpsse.c:816-835 | stripping the status bytes from the packets of a payload gives the payload back (full packets but the last, section 5.8.3 of USB 2.0) |
| Usb.StripAt | openocd/src/jtag/drivers/mpsse.c:816-835 | byte k of the payload is the one behind the two status bytes of its packet |
| Usb.ReadTransfer.Callback | openocd/src/jtag/drivers/mpsse.c:807-843 | after any number of partial reads of any length the read buffer holds the stripped stream, never more than was expected, and the transfer is done when that is complete or a resubmission is refused |
| Usb.ReadTransfer.CopyPayload | openocd/src/jtag/drivers/mpsse.c:816-835 | the packet loop appends exactly the stripped payload of the chunk, cut off at the expected count |
| Usb.WriteTransfer.Callback | openocd/src/jtag/drivers/mpsse.c:845-864 | what the device has accepted is the write buffer up to `transferred`, in order, after any partial writes |
| Usb.Exchange | openocd/src/jtag/drivers/mpsse.c:893-934 | for every order and size of completions, bytes sent and received, what is done and pending, and the final status are those of the abstract bus |
| Usb.Converse | openocd/src/jtag/drivers/mpsse.c:893-949 | a flush's transfers succeed exactly if `Succeeds` holds, and then the device took every byte and the whole reply is in the read buffer |
| Usb.SteadyBusSucceeds | openocd/src/jtag/drivers/mpsse.c:912-949 | they do succeed whenever all bytes are taken and the whole reply comes without an error, in whatever pieces and order |
| Usb.LostMeansFailed | openocd/src/jtag/drivers/mpsse.c:912-922 | losing the device, or an interruption, before the transfers are done ends the flush with that error, whatever would still have come |
| Usb.RefusedMeansFailed | openocd/src/jtag/drivers/mpsse.c:893-911 | so does a submission that is refused, and a bus that falls silent |
| Usb.RefusedAgainMeansFailed | openocd/src/jtag/drivers/mpsse.c:840-864 | once a callback with bytes still missing cannot resubmit its transfer, whatever comes before and after, bytes are missing at the end |
| Usb.OtherErrorMayRecover | openocd/src/jtag/drivers/mpsse.c:924-934 | after any other error the flush still succeeds if the cancelled transfers complete in a poll without one |
| Usb.ObligingServes | openocd/src/jtag/drivers/mpsse.c:893-949 | a bus that takes all bytes at once and answers byte by byte serves every flush of at most the given size, without knowing it |
| Usb.MadeOfPlanned | openocd/src/jtag/drivers/mpsse.c:516-642 | stopping with the first failure, the flushes made are the planned ones up to there, and all of them exactly if none fails |
| Plans.FittingData | openocd/src/jtag/drivers/mpsse.c:533-584 | a data request is flushed exactly if it does not fit into the space left; otherwise it takes three bytes for every 65536 whole bytes, its data, two or three for the bits left over, and a reply byte for every eight bits |
| Plans.FittingTms | openocd/src/jtag/drivers/mpsse.c:609-640 | so are TMS bits, which take three bytes and one reply byte for every seven |
| Plans.FittingCommand | openocd/src/jtag/drivers/mpsse.c:644-767 | and pin and configuration commands; the one flush that is made sends what is buffered, with 0x87 if a reply is due |
| Plans.TmsPlanSplit | openocd/src/jtag/drivers/mpsse.c:609-640 | TMS bits clocked in pieces of seven take the flushes that they take all at once |
| Plans.AskedConcat | openocd/src/jtag/drivers/mpsse.c:516-642 | the flushes of operations one after another are those of the first and then of the others, from the fill levels the first leave |
| Plans.AskedBounded | openocd/src/jtag/drivers/mpsse.c:465-474 | whatever is asked, each flush moves between one byte and a full write buffer and reads back no more than the read buffer holds, and the fill levels stay within the buffers |
| Plans.FollowedSettles | openocd/src/jtag/drivers/mpsse.c:516-642 | an error is pending after an operation exactly if one was before or one of its planned flushes fails; if not, the fill levels are as planned |
| Mpsse.Context.constructor | openocd/src/jtag/drivers/mpsse.c:346-418 | the invariant holds of a new context |
| Mpsse.Context.BufferInvariant | openocd/src/jtag/drivers/mpsse.c:465-502 | at every operation boundary the write buffer is whole commands with a reply of `read_count` bytes, one byte is free, and the queued reads tile the read buffer in order and are none exactly if no reply is due |
| Mpsse.Context.BufferWrite | openocd/src/jtag/drivers/mpsse.c:483-491 | the bits of the source end up at the end of the write buffer, what was there before stays |
| Mpsse.Context.BitCopyExecute | openocd/src/helper/binarybuffer.c:372-381 | all queued copies are made once, first in first out, and nothing else in caller memory changes |
| Mpsse.Context.Purge | openocd/src/jtag/drivers/mpsse.c:442-449 | everything buffered is forgotten and the invariant holds again |
| Mpsse.Context.Flush | openocd/src/jtag/drivers/mpsse.c:866-969 | without a pending error: OK exactly if there was nothing to do or libusb moved everything; then all bytes were accepted, the reply is complete and all owed bits are stored, otherwise none is; exactly one flush of the bytes buffered is made, and counters are zero and the queue empty either way. With one: the assertion at 872 fails and nothing changes |
| Mpsse.Context.ClockData | openocd/src/jtag/drivers/mpsse.c:516-585 | for all lengths, offsets and buffers, overlapping or not: the flushes made are those of the plan up to the first that fails; if none does, exactly `length` clocks are added with TMS held, and the TDO bits are owed to consecutive bits of `in`, whatever the splitting; TDI is what was requested if the request takes no flush or no outstanding read points at bits still to be sent, and otherwise each bit is what `out` held at some moment; without `out` and `in` it is zero; if a flush fails, its error is pending; with an error pending beforehand nothing happens |
| Mpsse.Context.ClockTmsCs | openocd/src/jtag/drivers/mpsse.c:593-642 | likewise with TMS following `out` and TDI constant, independent of the chunks of seven and of the flushes |
| Mpsse.RequestedJoin | openocd/src/jtag/drivers/mpsse.c:533-584 | two requests one after another are one request for the concatenated bits |
| Mpsse.Context.SetDataBitsLowByte | openocd/src/jtag/drivers/mpsse.c:644-659 | the pins are set after all earlier clocks and nothing owed is lost, unless the one flush that a full buffer takes fails; then that error is pending |
| Mpsse.Context.SetDataBitsHighByte | openocd/src/jtag/drivers/mpsse.c:661-676 | likewise for the high byte |
| Mpsse.Context.ReadDataBits | openocd/src/jtag/drivers/mpsse.c:678-708 | the eight pin levels after all earlier clocks are owed to the caller's byte |
| Mpsse.Context.LoopbackConfig | openocd/src/jtag/drivers/mpsse.c:724-728 | exactly one configuration command takes effect, after all earlier clocks |
| Mpsse.Context.DivideBy5Config | openocd/src/jtag/drivers/mpsse.c:747-756 | refused without effect on the chip without the option, otherwise one configuration command with its planned flush |
| Mpsse.Context.RtckConfig | openocd/src/jtag/drivers/mpsse.c:758-767 | likewise for adaptive clocking |
| Mpsse.Context.SetDivisor | openocd/src/jtag/drivers/mpsse.c:730-745 | the chip receives the 16-bit divisor, after all earlier clocks |
| Mpsse.Context.SetFrequency | openocd/src/jtag/drivers/mpsse.c:769-798 | adaptive clocking is switched off, the fast clock chosen exactly on a high-speed chip from 458 Hz on, and the divisor sent; the rate returned is the one these commands program, and no master clock of the chip with any 16-bit divisor makes a higher rate within the request; an error is pending exactly if a flush on the way fails |
| Mpsse.IsFastest | openocd/src/jtag/drivers/mpsse.c:780-794 | for every chip, request, clock of that chip and divisor: a rate within the request is not above the one returned |
| Mpsse.DivisorFor | openocd/src/jtag/drivers/mpsse.c:787-789 | the rounded-up quotient is that smallest divisor |
| Mpsse.RequestIsMet | openocd/src/jtag/drivers/mpsse.c:787-794 | the rate stays within the request exactly from 92 Hz on; below, the divisor is 65535 |
| MpsseClient.ClockDataNow | openocd/src/jtag/drivers/mpsse.c:516-585 | clocking and a flush, whatever reads are still outstanding and whatever overlaps: OK exactly if libusb serves all the flushes that takes; then bit `in_offset + k` of `in` is what TDO showed at clock k, all other bits are as the outstanding reads leave them, and the device has done the clocks, with the requested TDI unless a flush on the way changes it |
| MpsseClient.ClockTmsNow | openocd/src/jtag/drivers/mpsse.c:593-642 | the same for clocking TMS |
| MpsseClient.FlushAfterClockData | openocd/src/jtag/drivers/mpsse.c:866-875 | the assertion at 872 fails in the flush that follows exactly if libusb does not serve one of the flushes planned for the request |
| MpsseClient.FlushAfterClockTms | openocd/src/jtag/drivers/mpsse.c:866-875 | the same after clocking TMS |
| MpsseClient.FlushAfterSetting | openocd/src/jtag/drivers/mpsse.c:866-875 | and after each of the pin and configuration commands |
| MpsseClient.SendSixteenKilobytes | openocd/src/jtag/drivers/mpsse.c:866-875 | a failing input: after sending 16384 bytes on a new device the assertion fails exactly if libusb does not serve the one flush in between, of 16383 bytes |
| MpsseClient.DeviceGone | openocd/src/jtag/drivers/mpsse.c:893-905 | which is so if the device has gone away |
| Tap.ShiftReg.Shift | inc/shift_reg.hpp:32-40 | the first bit leaves, the others move up and the new one comes last |
| Tap.ShiftReg.Load | inc/shift_reg.hpp:43-52 | the register holds the low bits of the value, least significant first |
| Tap.ShiftReg.Val | inc/shift_reg.hpp:54-62 | the number whose bits the register holds |
| Tap.LoadThenVal | inc/shift_reg.hpp:43-62 | loading a value and reading it back keeps its low bits, and the whole value if it fits |
| Tap.TapController.Step | inc/jtag_tap_controller.hpp:45-128 | one clock changes all registers and TDO as the pure step function says |
| Tap.IrDelayLine | inc/jtag_tap_controller.hpp:94-100 | between captures, over any path, what came out of the instruction register followed by what is inside is what was inside followed by what went in |
| Tap.DrDelayLine | inc/jtag_tap_controller.hpp:56-93 | the same for IDCODE and BYPASS; with any other instruction TDO stays 1; and the instruction stays |
| Tap.IrScan | inc/jtag_tap_controller.hpp:94-100 | from Capture-IR on, with any pauses, the bits out are ones and zeros in turn, ten of them, and then TDI ten clocks late |
| Tap.DrScan | inc/jtag_tap_controller.hpp:56-93 | from Capture-DR on likewise: 0x029070DD and TDI 32 clocks late for IDCODE, a one and TDI one clock late for BYPASS |
| Tap.UpdateDecodesLastTen | inc/jtag_tap_controller.hpp:110-115 | after at least ten shifts Update-IR selects what the last ten TDI bits spell: each instruction exactly for its code, written out, and BYPASS for every other |
| Tap.InstructionCodes | inc/jtag_tap_controller.hpp:170-219 | each of the sixteen codes selects its instruction and nothing else does; BYPASS is all the rest |
| Tap.IrThenDr | inc/jtag_tap_controller.hpp:56-115 | over any detours, an IR scan of 0x006 and a DR scan read 0x029070DD and then TDI, one of 0x3ff reads a one and then TDI one clock late |
| Tap.BitsAreCounted | inc/jtag_tap_controller.hpp:77-83 | the counter counts the bits shifted in with 0x002 selected, modulo 2 to the 32, and nothing else |
| Tap.TdoElsewhere | inc/jtag_tap_controller.hpp:51-122 | in all but the shift states TDO is one |
| JtagQueue.BitQueue.ClockRaw | src/jtag_hw_dummy.cpp:132-147 | whatever the integers given for TMS and TDI, exactly the bits of their shifted copies are set; if they are 0 or 1, the queue of (TMS, TDI) pairs grows by `len` equal ones and every buffer bit beyond it stays zero |
| JtagQueue.BitQueue.ClockMultiple | src/jtag_hw_dummy.cpp:149-171 | likewise for TMS, and exactly the caller's bits are set for TDI; if TMS is 0 or 1, the queue grows by these bits with TMS constant |
| JtagQueue.OrsOne | src/jtag_hw_dummy.cpp:142-143 | ORing a shifted value into a byte sets exactly the bits of the value that the byte has room for; for 0 and 1 in the first free place that appends the bit |
| JtagQueue.OrAppends | src/jtag_hw_dummy.cpp:111 | OR-ing a TDO bit into the first free place appends it, because that place is zero |
| JtagHw.DummyDriver.DoFlush | src/jtag_hw_dummy.cpp:99-130 | exactly the queued clocks are run on the TAP, as many TDO bits are handed over, and the queue is empty and zero again |
| JtagHw.OtmaDriver.SendAll | src/jtag_hw_otma.cpp:116-127 | the single-bit TMS commands take the flushes planned for them, and unless one of those fails they request exactly the queued clocks, TDO to consecutive bits |
| JtagHw.OtmaDriver.DoFlush | src/jtag_hw_otma.cpp:113-147 | if libusb serves the flushes that the queued clocks take, exactly what the dummy's flush does to queue, TAP and reports |
| JtagHw.SamplesAreTapSamples | src/jtag_hw_otma.cpp:113-147 | what the chip samples from a TAP behind the cable is what that TAP shows from the registers it has by then |
| JtagHw.HwJobsFit | src/jtag_hw_otma.cpp:113-188 | the flushes over USB that a sequence of calls takes, computed from the calls, each move at most a full buffer |
| JtagHw.UseOtma | src/jtag_hw_otma.cpp:113-188 | if libusb serves those, they are the flushes made, and TDO data and TAP are what the calls say |
| JtagHw.SameBehaviour | src/jtag_hw_otma.cpp:113-188 | for every sequence of calls, both back ends hand over the same TDO data and leave their TAPs in the same state, that of the hardware being what the actions its device has done lead to, if libusb serves the flushes these calls take; on a bus that always serves, without condition |
| JtagHw.FlushesDoNotMatter | src/jtag_hw_otma.cpp:113-188 | put together, the TDO data handed over are what the TAP shows at the clocks of all calls in turn, as far as the last flush, wherever the flushes come |
| Interface.SameGraph | openocd/src/jtag/interface.c:234-325 | the queue's state graph is the simulator's |
| Interface.PathReaches | openocd/src/jtag/interface.c:136-209 | each of the 72 table entries leads from its start to its goal in one to seven clocks |
| Routes.ShortTableIsShortest | openocd/src/jtag/interface.c:189-197 | between different states other than Test-Logic-Reset the entry leads to its goal, and no other TMS sequence of its length or shorter does |
| Routes.ShortTableComesBack | openocd/src/jtag/interface.c:189-197 | from a state to itself: one clock in a pause state, seven in Run-Test/Idle; from a shift state over its update state and the one shortest way back |
| Routes.FromReset | openocd/src/jtag/interface.c:144-193 | both tables leave Test-Logic-Reset by the one shortest way, made up to seven clocks by waiting before it for a shift state and after it otherwise |
| Routes.NeverResets | openocd/src/jtag/interface.c:136-197 | no path of either table between other states enters Test-Logic-Reset |
| Routes.OldTableStops | openocd/src/jtag/interface.c:136-149 | every path of the old table has seven clocks and stops where the short one does (captures, shifts, updates, waits in Run-Test/Idle), with the exceptions named, both ways |
| Interface.ShiftReachedLast | openocd/src/jtag/interface.c:136-197 | an entry to a shift state arrives there only with its last clock, except exactly those of the old table that start in a shift state |
| Interface.PauseLeftWithoutShifting | openocd/src/jtag/interface.c:136-197 | an entry that leaves a pause state for anything but shifting does not shift on the way |
| Interface.ResetFromAnywhere | openocd/src/jtag/interface.c:136-197 | an entry to Test-Logic-Reset gets there from whatever state the TAP is really in |
| Interface.WalkEntry | openocd/src/jtag/interface.c:211-325 | a walk that ends in a stable state leaves TMS at the level that stays there |
| Interface.StateOfTap | inc/jtag_tap_controller.hpp:262-281 | the state the graph predicts is the simulator's |
| Interface.InsAreShiftedBits | inc/jtag_tap_controller.hpp:94-100 | the bits the graph says are shifted are those the simulator takes in |
| JtagCommands.TrimmedLosesNothing | openocd/src/jtag/drivers/ftdi.c:468-478 | dropping trailing empty fields drops no bits, and leaves nothing exactly if there were none |
| JtagCommands.FieldGetsItsBits | openocd/src/jtag/drivers/ftdi.c:487-540 | once stored, each in_value holds the TDO bits of its own field's clocks and is otherwise unchanged |
| JtagCommands.PathLeads | openocd/src/jtag/drivers/ftdi.c:412-461 | the TMS bits found for a legal path visit its states one by one |
| JtagCommands.FollowerFollows | openocd/src/jtag/drivers/ftdi.c:352-625 | the clocks of a command lead the graph from the follower's state to the follower's next state |
| JtagCommands.DataAndTail | openocd/src/jtag/drivers/ftdi.c:487-544 | once in the shift state, every data bit is shifted once and in order, nothing else is, and the last one is clocked on the exiting edge |
| JtagCommands.ScanIsExact | openocd/src/jtag/drivers/ftdi.c:463-548 | what the TAP takes in during a scan after arriving in the shift state is exactly the concatenated field bits; the move there shifts nothing with the short table |
| JtagCommands.ScanInRun | openocd/src/jtag/drivers/ftdi.c:463-548 | in every run of the queue, for every scan that starts with the follower in agreement with the TAP, and whatever the TAP's registers were at the start: what it takes in after the move is exactly the data of the fields, on the move it takes in nothing, and the fields are owed the TDO bits of their own clocks |
| JtagCommands.FieldInRun | openocd/src/jtag/drivers/ftdi.c:487-540 | the buffer of a field, used for that field only, ends up holding what TDO showed at the clocks that sent it, whatever else the queue does |
| JtagCommands.FieldIsSent | openocd/src/jtag/drivers/ftdi.c:496-540 | in every run, what a field sends is, bit by bit, what its out_value held at some moment while TDO bits were being stored; if no earlier field or command is read into that buffer, even if the field itself is, it is what the buffer held before the queue |
| JtagCommands.EmptyFieldSendsZeros | openocd/src/jtag/drivers/ftdi.c:496-540 | in every run, a field without out_value and in_value sends zeros |
| JtagCommands.StepKeepsSync | openocd/src/jtag/drivers/ftdi.c:352-625 | a follower that agrees with the TAP, whatever state that started in, still agrees after any command but JTAG_TMS |
| JtagCommands.StepGainsSync | openocd/src/jtag/drivers/ftdi.c:383-393 | JTAG_TLR_RESET makes it agree, whatever state the TAP was in |
| JtagCommands.AlwaysInSync | openocd/src/jtag/drivers/ftdi.c:352-650 | in every run of the queue the follower equals the TAP's state, and TMS is at the level that stays there, after every JTAG_TLR_RESET for as long as no JTAG_TMS has come since |
| JtagCommands.TmsIsNotTracked | openocd/src/jtag/drivers/ftdi.c:399-410 | after JTAG_TMS the follower is right exactly if its bits lead back to the same state |
| Effects.RuntestWaits | openocd/src/jtag/drivers/ftdi.c:352-381 | JTAG_RUNTEST on a TAP in agreement: the way to Run-Test/Idle, exactly n clocks made there (none for n below one), the way to the end state, and the TAP is in it |
| Effects.StableClocksWait | openocd/src/jtag/drivers/ftdi.c:603-625 | JTAG_STABLECLOCKS: exactly n clocks, each made in the state the TAP is in; none for n below one |
| Effects.StatemoveMoves | openocd/src/jtag/drivers/ftdi.c:383-393 | JTAG_TLR_RESET: the clocks of the way and no others, also from Test-Logic-Reset to itself, and the TAP is in the end state |
| Effects.PathmoveVisits | openocd/src/jtag/drivers/ftdi.c:412-461 | JTAG_PATHMOVE: one clock for each state, and the TAP is in it after that clock |
| Effects.ScanMoves | openocd/src/jtag/drivers/ftdi.c:463-548 | JTAG_SCAN: the way, a clock for each bit, one to the pause state and the way from there, and the TAP is in the end state |
| Effects.TdiOtherwiseLow | openocd/src/jtag/drivers/ftdi.c:352-625 | TDI is low at every clock but those of data bits and the clock after the last of them, which repeats it |
| Effects.OthersMove | openocd/src/jtag/drivers/ftdi.c:399-410 | JTAG_TMS makes the clocks of its bits, JTAG_SLEEP and empty scans make none |
| Effects.RefusedExactly | openocd/src/jtag/drivers/ftdi.c:277-461 | the process exits exactly if a way is needed from or to a state that no level of TMS stays in, or no TMS bits visit the states of a path |
| Target.ShiftRun | inc/jtag_tap_controller.hpp:56-100 | shifting any bits moves the selected register along the stream that starts with its content and goes on with the bits |
| Target.ScanReads | openocd/src/jtag/drivers/ftdi.c:463-548 | in every run of the queue, on a target that is a TAP with any registers at the start: what a scan that starts in agreement reads is, bit by bit, the selected register as it is on arrival in the shift state and then the data sent; a one where there is no register |
| Target.ScanReadsCaptured | openocd/src/jtag/drivers/ftdi.c:463-548 | if the scan does not go on with an interrupted one, that register holds what it has just captured: the pattern with ten clocks of delay for instructions, the identification with 32, the one of BYPASS with one |
| Target.CommandKeepsInstruction | openocd/src/jtag/drivers/ftdi.c:352-625 | a command without an IR scan, an end state on the instruction side or JTAG_TMS never passes Update-IR, with either table |
| Target.IdentifiedAfterReset | openocd/src/jtag/drivers/ftdi.c:352-650 | after a JTAG_TLR_RESET to Test-Logic-Reset, from whatever state and registers, IDCODE is selected for as long as only such commands follow |
| Target.IdcodeIsRead | openocd/src/jtag/drivers/ftdi.c:463-548 | a DR scan then reads the identification of the device and after 32 bits what was sent |
| Target.FieldReadsCaptured | openocd/src/jtag/drivers/ftdi.c:487-540 | the buffer of a field, used for that field only, ends up with its part of the stream of captured and sent bits, whatever else the queue does |
| Instructions.ScanSelects | openocd/src/jtag/drivers/ftdi.c:463-548 | in every run, with either table: after an IR scan of ten bits or more that starts in agreement and ends on the data side, the instruction of the TAP is what the last ten bits spell, IDCODE exactly for 0x006; if it ends in Test-Logic-Reset, IDCODE |
| Instructions.SelectedUntil | openocd/src/jtag/drivers/ftdi.c:352-650 | it stays through any commands that neither scan an instruction nor lead over Update-IR or Test-Logic-Reset |
| Instructions.ReadsAsSelected | openocd/src/jtag/drivers/ftdi.c:463-548 | a DR scan after that reads 0x029070DD and what is sent for 0x006, a one and what is sent for 0x3ff, ones for 0x002 and 0x004 |
| Instructions.FieldReadsAsSelected | openocd/src/jtag/drivers/ftdi.c:487-540 | and so does the buffer of a field of it that is used for that field only |
| Ftdi.FtdiDriver.MoveToState | openocd/src/jtag/drivers/ftdi.c:277-303 | exactly the table's bits are clocked and the follower ends at the goal; from an unstable state the process exits |
| Ftdi.FtdiDriver.ExecuteRuntest | openocd/src/jtag/drivers/ftdi.c:352-381 | the move to idle, the cycles in chunks of seven and the move to the end state amount to the specified clocks |
| Ftdi.FtdiDriver.ExecuteStatemove | openocd/src/jtag/drivers/ftdi.c:383-393 | the move is made exactly if the end state is another one or Test-Logic-Reset |
| Ftdi.FtdiDriver.ExecutePathmove | openocd/src/jtag/drivers/ftdi.c:412-461 | all steps are clocked whatever the chunking, and the process exits exactly if a step is illegal |
| Ftdi.FtdiDriver.ExecuteScan | openocd/src/jtag/drivers/ftdi.c:463-548 | for all fields, with buffers shared in whatever way: move, fields, last bit on the exiting edge and final move amount to the specified clocks, each field sends what its out_value holds on the way, and each field that is read is owed the TDO bits of its own clocks |
| Ftdi.FtdiDriver.ExecuteStableclocks | openocd/src/jtag/drivers/ftdi.c:603-625 | as many clocks with the TMS level that stays in the state, in chunks of seven |
| Ftdi.FtdiDriver.ExecuteTms | openocd/src/jtag/drivers/ftdi.c:399-410 | exactly the given bits are clocked and the follower is left alone |
| Ftdi.FtdiDriver.ExecuteSleep | openocd/src/jtag/drivers/ftdi.c:592-601 | a flush in between changes neither the clocks nor what is owed; served, it has the device do all clocks so far and stores all bits owed |
| JtagCommands.SleepFlushes | openocd/src/jtag/drivers/ftdi.c:592-601 | a sleep takes exactly the flush of what is in the buffer, if anything is, and leaves none of it |
| Ftdi.FtdiDriver.ExecuteCommand | openocd/src/jtag/drivers/ftdi.c:627-658 | the process exits exactly if the command is refused in the follower's state; otherwise the follower ends where the command says, and the command does its specified step if libusb serves the flushes it takes |
| Ftdi.FtdiDriver.ExecuteQueue | openocd/src/jtag/drivers/ftdi.c:660-680 | the process exits exactly if some command is refused in the state that those before it lead to; otherwise, if libusb serves the flushes that the queue takes, these are the flushes made, every command does its step in order, and every TDO bit owed has been stored |
| Ftdi.QueueJobsFit | openocd/src/jtag/drivers/ftdi.c:352-680 | the flushes over USB that a queue takes, computed from its commands, each move at most a full buffer |
| Ftdi.UseFtdi | openocd/src/jtag/drivers/ftdi.c:352-680 | on a new device with a target in any state, if no command is refused and libusb serves the flushes the commands take, and on a bus that always serves without the latter: the clocks made are those of the commands, each scan shifts exactly its data, which is what its out buffers hold, every destination holds exactly what the run owes it and that of a single field its TDO bits, and the follower agrees with the TAP after each JTAG_TLR_RESET until a JTAG_TMS |
| FtdiClient.ReadIdcode | openocd/src/jtag/drivers/ftdi.c:352-680 | from a new device and a TAP in any state, reset and a DR scan of 32 bits leave the bytes dd 70 90 02 in the caller's buffer, if libusb serves the flushes that these two commands take |
| FtdiClient.SelectAndRead | openocd/src/jtag/drivers/ftdi.c:352-680 | reset, an IR scan from a buffer and a DR scan of any length, out of and into buffers that may be the same: with 0x006 the caller gets the identification and then what was sent, with 0x3ff what was sent one clock late |
| List.LinksAreInverse | openocd/src/helper/list.h:37-41 | on a ring `next` and `prev` undo each other |
| List.ListAddTail | openocd/src/helper/list.h:87-90 | the list gets the new element at its end |
| List.ListDel | openocd/src/helper/list.h:117-122 | the list without the element, whose links are poisoned |
| List.ListEmpty | openocd/src/helper/list.h:199-202 | true exactly for the list without elements |
| List.ListSpliceTailInit | openocd/src/helper/list.h:348-355 | one list gets the elements of the other behind its own, the other is left empty |
| List.ListCutPosition | openocd/src/helper/list.h:272-284 | the list is split after the entry; with nothing to split both lists are left alone |
| List.BitCopyQueue.Queued | openocd/src/helper/binarybuffer.c:355-370 | the queue of copies gets one more at its end |
| List.BitCopyQueue.Execute | openocd/src/helper/binarybuffer.c:372-381 | over the linked list with its safe iteration: each copy once, in order, and the ring is empty afterwards |
| List.BitCopyQueue.Discard | openocd/src/helper/binarybuffer.c:383-391 | the ring is empty afterwards |
| List.ExecuteOnRing | openocd/src/helper/binarybuffer.c:372-381 | the read queue of a context, kept in a ring, is run with the contract of `Mpsse.Context.BitCopyExecute`, so ring and sequence are interchangeable there |
| Floats.RoundError | openocd/src/helper/binarybuffer.c:235 | a size or product loses no more than one part in 2 to the 24 by becoming a float |
| Floats.NoneIsNearer | openocd/src/helper/binarybuffer.c:235 | no number of 24 bits times a power of two is nearer to the size than what it becomes |
| Floats.TieIsEven | openocd/src/helper/binarybuffer.c:235 | between two such numbers the even one is taken |
| Floats.ScaledBound | openocd/src/helper/binarybuffer.c:205-216 | an estimate falls short of the exact product by no more than two such roundings |
| Estimates.HexFits | openocd/src/helper/binarybuffer.c:289-303 | bytes for hexadecimal digits, digits for bytes, and bytes for those digits are enough exactly if rounding the size to 24 bits does not make it smaller, so for all sizes up to 16777216 |
| Estimates.HexFails | openocd/src/helper/binarybuffer.c:303 | 16777217 bytes or digits are one too many |
| Estimates.OctalBytesFit | openocd/src/helper/binarybuffer.c:235 | the octal digits are enough for any number of bytes, and can always be read back |
| Estimates.OctalTextFits | openocd/src/helper/binarybuffer.c:303 | the bytes for octal digits are enough for up to 5592410 digits |
| Estimates.OctalTextFails | openocd/src/helper/binarybuffer.c:303 | and not for 5592411 |
| Estimates.DecimalTextFits | openocd/src/helper/binarybuffer.c:303 | the bytes for decimal digits are enough for up to 1810 digits, although the factor is too small |
| Estimates.DecimalTextFails | openocd/src/helper/binarybuffer.c:303 | and not for 1811 |
| Estimates.DecimalBytesFit | openocd/src/helper/binarybuffer.c:235 | the decimal digits are enough for up to 14368 bytes, and can be read back |
| Estimates.DecimalBytesFail | openocd/src/helper/binarybuffer.c:235 | and not for 14369 |
| Radix.TakeDigit | openocd/src/helper/binarybuffer.c:323-328 | the carry loop multiplies the buffer's number by the radix and adds the digit, modulo its size |
| Radix.BytesForBits | openocd/src/helper/binarybuffer.c:332 | the bytes of a buffer hold its bits, and no fewer bytes would |
| Radix.DigitsAre | openocd/src/helper/binarybuffer.c:311-321 | a character is a digit of value d exactly if it is the d-th of 0 to 9 and a to f, or of 0 to 9 and A to F |
| Radix.PrefixDecides | openocd/src/helper/binarybuffer.c:261-281 | without a radix given, 0x and 0X mean 16, another 0 in front means 8, everything else and a single 0 mean 10 |
| Radix.EnoughBytes | openocd/src/helper/binarybuffer.c:289-303 | the estimated bytes hold the value of every text of that length exactly if the powers say so, in each radix; the largest length up to which they do, and that the next one has a text that does not fit |
| Radix.EnoughDigits | openocd/src/helper/binarybuffer.c:221-235 | likewise the estimated digits for every buffer of that size; in radix 8 always |
| Radix.StrToBuf | openocd/src/helper/binarybuffer.c:284-348 | the buffer holds the value of the accepted digits modulo 256 to the bytes estimated and modulo 2 to the buffer length; nothing beyond it changes; a radix other than 8, 10 and 16 changes nothing |
| Radix.StrToBufEitherCase | openocd/src/helper/binarybuffer.c:284-348 | a text and the same text with letters in the other case leave the same buffer |
| Radix.TakeByte | openocd/src/helper/binarybuffer.c:245-250 | the carry loop multiplies the digits' number by 256 and adds the byte, modulo its size, with a carry below 256 |
| Radix.BufToStr | openocd/src/helper/binarybuffer.c:218-258 | the text has the estimated number of digits, the letters in upper case, and spells the masked value of the buffer, modulo the radix to that number; no text exactly if the radix is none of 8, 10 and 16 |
| Radix.NumeralUnique | openocd/src/helper/binarybuffer.c:253-255 | texts of the same length and value are the same |
| Radix.BufThereAndBack | openocd/src/helper/binarybuffer.c:218-348 | a buffer written out and read back, in upper or in lower case, is what it was exactly if its number fits the digits and the bytes estimated; so always in radix 8, in radix 16 if rounding the size does not make it smaller, and in radix 10 up to 14368 bytes |
| Radix.StrThereAndBack | openocd/src/helper/binarybuffer.c:218-348 | so is a text of the right length for a number that fits the buffer, exactly if it fits the bytes estimated, and always for these sizes |
| BufferShr.Shr | openocd/src/helper/binarybuffer.c:461-480 | the buffer as a little-endian number is divided by 2 to the count, rounding down |
| BufferShr.ShiftedRightValue | openocd/src/helper/binarybuffer.c:471-474 | so it is by the byte loop alone, for fewer than eight bits |
| BufferShr.SumIsOr | openocd/src/helper/binarybuffer.c:471-474 | the two shifted bytes have no bit in common, and each bit of their sum is a bit of one of them |

## Left out

- MSB-first modes and sampling edges: the source marks the former as unfinished (mpsse.c:519, 629), and the chip model makes no difference between edges.
- USB discovery, opening, closing and the control transfers of `mpsse_purge`: foreign calls. libusb is a parameter (`Usb.UsbRun`), arbitrary at every flush.
- A polling loop that goes on for ever: `Usb.UsbRun` has finitely many events, after which polling is interrupted.
- The chip's own data path between commands and reply: the reply to a flush is what the commands sent produce; a chip that breaks the protocol is not modelled.
- TCK pulses made by writing the GPIO pins: only shift commands clock the TAP.
- Mpsse.Context.ClockData: lengths and offsets are natural numbers, without the wrap of a 32-bit unsigned; buffers of the context itself are excluded as `out` and `in`.
- Mpsse.Context.ClockTmsCs: likewise.
- Mpsse.Context.BitCopyExecute: keeps the read queue as a sequence. The linked list that the source has there is `List.BitCopyQueue`; `List.ExecuteOnRing` shows that it makes no difference. The pointer to the source bytes is an index into the read buffer in both.
- Mpsse.Context.SetFrequency: frequencies for which the C sum would overflow an int are excluded.
- Memory allocation that fails, and `free`: not modelled; `buffer_add_read` ignores the result of `bit_copy_queued`.
- Tap.TapController.Step: the debug output and what the controller prints are left out; TMS and TDI are booleans, not ints.
- JtagQueue.BitQueue.ClockRaw: the capacity of the buffers is a precondition, which the source does not check; the buffers start out zeroed, where the source gets them from `malloc`; TMS and TDI are unsigned of any width. `JtagHw` makes its calls with 0 and 1.
- JtagHw.SameBehaviour: says nothing about the TDO data after a flush over USB has failed, because what the device has done then is unknown.
- Ftdi.FtdiDriver.ExecuteQueue: likewise says nothing about clocks and data if a flush fails; a failure in the flush of JTAG_SLEEP is ignored by the source.
- JTAG_RESET, signals, configuration commands and SWD in ftdi.c: they depend on wiring and on headers that are not part of this model. The LED of `ftdi_execute_queue` is left out with them.
- Ftdi.FtdiDriver.ExecuteScan: the count of fields is a local, where the source also writes it back to the command. TDI during a field that is only read is whatever the pin holds. The driver's own buffers are excluded as out_value and in_value.
- Ftdi.FtdiDriver.ExecuteTms: holds the TMS bits of the command as a value, so memory shared with an in_value is not captured there.
- Ftdi.FtdiDriver.ExecuteStableclocks: keeps the follower right only in stable states, which is what the source demands of its callers.
- `exit` inside the executor: ends the model's run in the same place; what had been clocked by then is not stated.
- List.ListCutPosition: an entry that is not on a list of two or more elements is excluded, as the source's comment does.
- `list_for_each_entry_safe` over a list that other code changes meanwhile: not modelled.
- Radix.StrToBuf: conversion and product round to single precision, to nearest with ties to even; a compiler that keeps more bits of a `float` is not modelled. Sizes do not wrap at 32 bits. The text is taken to have as many characters as its length says.
- Radix.BufToStr: likewise.
- `buf_cmp`, `flip_u32`, hexify and unhexify, the other list operations, state names, time and endian helpers: easy, or without an arguable specification.
