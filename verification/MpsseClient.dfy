/** What a caller of the MPSSE driver gets: one clocking operation followed by a flush. */
module MpsseClient {
  import opened Bits
  import opened MpsseDevice
  import opened ReadBack
  import opened ShiftCommands
  import opened Mpsse
  import opened Usb
  import opened Plans

  /** `into` once everything owed to it has been stored: bit `offset + k` is what TDO showed at clock
      `k`, the other bits are as before. */
  ghost predicate Delivered(env: Env, total0: seq<Action>, total: seq<Action>, before: seq<byte>, offset: nat,
                            after: seq<byte>)
    requires total0 <= total && offset + (|total| - |total0|) <= 8 * |before|
  {
    && |after| == |before|
    && forall i :: 0 <= i < 8 * |after| ==>
         BufBit(after, i)
           == if offset <= i < offset + (|total| - |total0|) then env.tdo(total[..|total0| + (i - offset) + 1])
              else BufBit(before, i)
  }

  lemma StoredIsDelivered(env: Env, total0: seq<Action>, total: seq<Action>, into: array<byte>, before: seq<byte>,
                          offset: nat, after: seq<byte>)
    requires total0 <= total && offset + (|total| - |total0|) <= 8 * |before|
    requires after == Stored(into, before, WriteRun(into, offset, Samples(env, total, |total0|)))
    ensures Delivered(env, total0, total, before, offset, after)
  {
    hide BufBit, Stored;
    forall i | 0 <= i < 8 * |after|
      ensures BufBit(after, i)
           == if offset <= i < offset + (|total| - |total0|) then env.tdo(total[..|total0| + (i - offset) + 1])
              else BufBit(before, i)
    {
      StoredRun(into, before, offset, Samples(env, total, |total0|), i);
    }
  }

  /** Once `mpsse_flush` has settled what one operation and those before it owed. */
  lemma AllOwedIsDelivered(env: Env, before: Trace, mid: Trace, log: seq<Write>, into: array<byte>, s0: seq<byte>,
                           s1: seq<byte>, s2: seq<byte>,
                           offset: nat)
    requires before.total <= mid.total && offset + (|mid.total| - |before.total|) <= 8 * |s0|
    requires before.log <= mid.log <= log == mid.Owed(env)
    requires mid.Owed(env) == before.Owed(env) + WriteRun(into, offset, Samples(env, mid.total, |before.total|))
    requires s1 == Stored(into, s0, mid.log[|before.log|..]) && s2 == Stored(into, s1, log[|mid.log|..])
    ensures Delivered(env, before.total, mid.total, Later(into, s0, {into}, before.Unstored(env)), offset, s2)
  {
    hide Samples, CaptureWrites, Stored, Delivered;
    StoredSplit(into, s0, s1, s2, before.log, mid.log, log);
    var run := WriteRun(into, offset, Samples(env, mid.total, |before.total|));
    assert log[|before.log|..] == before.Unstored(env) + run;
    StoredConcat(into, s0, before.Unstored(env), run);
    StoredIsDelivered(env, before.total, mid.total, into, Stored(into, s0, before.Unstored(env)), offset, s2);
  }

  /** Where the context is after a flush that has nothing left to report. */
  ghost predicate Settled(ctx: Context, b: Point, asks: seq<Ask>, rc: int)
    requires ctx.SizesOf().Ok()
    reads ctx
  {
    && rc == ERROR_OK && ctx.retval == ERROR_OK && !ctx.aborted && ctx.trace.caps == []
    && ctx.At() == Reached(ctx.SizesOf(), b, asks) && ctx.device == ctx.trace.total
  }

  /** `mpsse_clock_data` and `mpsse_flush`. The flush reports success exactly if libusb serves every flush that
      the request takes. Then `into` holds what TDO showed; its other bits are as the reads that were waiting
      before have left them. */
  method ClockDataNow(ctx: Context, out: array?<byte>, outOffset: nat, into: array<byte>, intoOffset: nat, length: nat,
                      mode: byte)
    returns (rc: int, ghost sent: seq<bool>)
    requires ctx.Valid() && LsbMode(mode)
    requires out != null ==> outOffset + length <= 8 * out.Length && ctx.Foreign(out)
    requires intoOffset + length <= 8 * into.Length && ctx.Foreign(into)
    modifies ctx, ctx.writeBuffer, ctx.readBuffer, ctx.readChunk, ctx.trace.memory, into
    ensures ctx.Valid() && ctx.SizesOf().Ok()
    ensures rc == ERROR_OK <==> Met(ctx.usb, ctx.SizesOf(), old(ctx.At()),
                                    [AskData(length, out != null, true), AskFlush])
    ensures rc == ERROR_OK ==>
      && Settled(ctx, old(ctx.At()), [AskData(length, out != null, true), AskFlush], rc)
      && |sent| == length
      && ctx.trace.total == old(ctx.trace.total) + Clocks(Repeat(TmsPin(ctx.env, old(ctx.trace.total)), length), sent)
      && Delivered(ctx.env, old(ctx.trace.total), ctx.trace.total,
                   old(Later(into, into[..], {into}, ctx.trace.Unstored(ctx.env))),
                   intoOffset, into[..])
    ensures rc == ERROR_OK && Untroubled(old(ctx.trace.caps), out, outOffset, into, intoOffset, length,
        AskPlan(ctx.SizesOf(), old(ctx.writeCount), old(ctx.readCount), AskData(length, out != null, true))) ==>
      sent == old(RequestedTdi(out, outOffset, length, true, TdiPin(ctx.env, ctx.trace.total)))
    ensures old(ctx.trace.log) <= ctx.trace.log
    ensures rc == ERROR_OK && out != null ==>
      HeldOnTheWay(out, old(out[..]), outOffset, ctx.trace.memory, ctx.trace.log[|old(ctx.trace.log)|..], sent)
  {
    hide Clocks, Samples, CaptureWrites, Stored, TmsPin, TdiPin, BufBits, RequestedTdi, Delivered, ctx.Consistent;
    hide Untroubled;
    hide Followed, Settles, Met, Reached, AllServed, FlushPlan, HeldOnTheWay;
    ghost var before, bytes, b := ctx.trace, into[..], ctx.At();
    ghost var was := if out == null then [] else out[..];
    sent := ctx.ClockData(out, outOffset, into, intoOffset, length, mode);
    ctx.AbortedMeansError();
    ghost var mid, midBytes, m := ctx.trace, into[..], ctx.At();
    FollowedSettles(ctx.usb, ctx.SizesOf(), b, AskData(length, out != null, true), m, ctx.aborted);
    rc := ctx.Flush();
    FlushSettles(ctx.usb, ctx.SizesOf(), b, [AskData(length, out != null, true)], m, ctx.trace.jobs, rc == ERROR_OK);
    assert [AskData(length, out != null, true)] + [AskFlush] == [AskData(length, out != null, true), AskFlush];
    if rc == ERROR_OK {
      StillHeld(out, outOffset, ctx.trace.memory, before.log, mid.log, ctx.trace.log, was, sent);
      AllOwedIsDelivered(ctx.env, before, mid, ctx.trace.log, into, bytes, midBytes, into[..], intoOffset);
    }
  }

  /** `mpsse_clock_tms_cs` and `mpsse_flush`, likewise. */
  method ClockTmsNow(ctx: Context, out: array<byte>, outOffset: nat, into: array<byte>, intoOffset: nat, length: nat,
                     tdi: bool, mode: byte)
    returns (rc: int, ghost sent: seq<bool>)
    requires ctx.Valid() && LsbMode(mode)
    requires outOffset + length <= 8 * out.Length && ctx.Foreign(out)
    requires intoOffset + length <= 8 * into.Length && ctx.Foreign(into)
    modifies ctx, ctx.writeBuffer, ctx.readBuffer, ctx.readChunk, ctx.trace.memory, into
    ensures ctx.Valid() && ctx.SizesOf().Ok()
    ensures rc == ERROR_OK <==> Met(ctx.usb, ctx.SizesOf(), old(ctx.At()), [AskTms(length, true), AskFlush])
    ensures rc == ERROR_OK ==>
      && Settled(ctx, old(ctx.At()), [AskTms(length, true), AskFlush], rc)
      && |sent| == length && ctx.trace.total == old(ctx.trace.total) + Clocks(sent, Repeat(tdi, length))
      && Delivered(ctx.env, old(ctx.trace.total), ctx.trace.total,
                   old(Later(into, into[..], {into}, ctx.trace.Unstored(ctx.env))),
                   intoOffset, into[..])
    ensures rc == ERROR_OK && Untroubled(old(ctx.trace.caps), out, outOffset, into, intoOffset, length,
        AskPlan(ctx.SizesOf(), old(ctx.writeCount), old(ctx.readCount), AskTms(length, true))) ==>
      sent == old(BufBits(out[..], outOffset, length))
    ensures old(ctx.trace.log) <= ctx.trace.log
    ensures rc == ERROR_OK ==>
      HeldOnTheWay(out, old(out[..]), outOffset, ctx.trace.memory, ctx.trace.log[|old(ctx.trace.log)|..], sent)
  {
    hide Clocks, Samples, CaptureWrites, Stored, TmsPin, TdiPin, BufBits, RequestedTdi, Delivered, ctx.Consistent;
    hide Untroubled;
    hide Followed, Settles, Met, Reached, AllServed, FlushPlan, HeldOnTheWay;
    ghost var before, bytes, b := ctx.trace, into[..], ctx.At();
    ghost var was := out[..];
    sent := ctx.ClockTmsCs(out, outOffset, into, intoOffset, length, tdi, mode);
    ctx.AbortedMeansError();
    ghost var mid, midBytes, m := ctx.trace, into[..], ctx.At();
    FollowedSettles(ctx.usb, ctx.SizesOf(), b, AskTms(length, true), m, ctx.aborted);
    rc := ctx.Flush();
    FlushSettles(ctx.usb, ctx.SizesOf(), b, [AskTms(length, true)], m, ctx.trace.jobs, rc == ERROR_OK);
    assert [AskTms(length, true)] + [AskFlush] == [AskTms(length, true), AskFlush];
    if rc == ERROR_OK {
      StillHeld(out, outOffset, ctx.trace.memory, before.log, mid.log, ctx.trace.log, was, sent);
      AllOwedIsDelivered(ctx.env, before, mid, ctx.trace.log, into, bytes, midBytes, into[..], intoOffset);
    }
  }

  lemma StillHeld(out: array?<byte>, offset: nat, memory: set<array<byte>>, log0: seq<Write>, log1: seq<Write>,
                  log2: seq<Write>,
                  was: seq<byte>, sent: seq<bool>)
    requires log0 <= log1 <= log2 && (out != null ==> HeldOnTheWay(out, was, offset, memory, log1[|log0|..], sent))
    ensures out != null ==> HeldOnTheWay(out, was, offset, memory, log2[|log0|..], sent)
  {
    hide HeldOnTheWay;
    if out != null {
      HeldStill(out, was, offset, memory, log1[|log0|..], log2[|log0|..], sent);
    }
  }

  /** When a flush fails in the middle of an operation, its error stays pending for the next `mpsse_flush`
      to report. But that one first asserts that the buffers are empty, which they never are by then; so the
      assertion fails exactly if libusb does not serve one of the flushes inside the operation. Which
      flushes those are follows from the request and the fill levels. */
  method FlushAfterClockData(ctx: Context, out: array?<byte>, outOffset: nat, into: array?<byte>, intoOffset: nat,
                             length: nat, mode: byte)
    returns (rc: int)
    requires ctx.Valid() && LsbMode(mode) && ctx.retval == ERROR_OK
    requires out != null ==> outOffset + length <= 8 * out.Length && ctx.Foreign(out)
    requires into != null ==> intoOffset + length <= 8 * into.Length && ctx.Foreign(into)
    modifies ctx, ctx.writeBuffer, ctx.readBuffer, ctx.readChunk, ctx.trace.memory, Opt(into)
    ensures ctx.Valid() && ctx.SizesOf().Ok()
    ensures ctx.aborted <==>
      !AllServed(ctx.usb, |old(ctx.trace.jobs)|, DataPlan(ctx.SizesOf(), old(ctx.writeCount), old(ctx.readCount),
                                                          length, out != null || into == null, into != null).jobs)
  {
    hide Clocks, Samples, CaptureWrites, Stored, TmsPin, TdiPin, BufBits, RequestedTdi, Requested, Waiting;
    hide ctx.Consistent, Followed, AllServed, DataPlan;
    ctx.AbortedMeansError();
    ghost var jobs, plan := ctx.trace.jobs, DataPlan(ctx.SizesOf(), ctx.writeCount, ctx.readCount, length,
                                                     out != null || into == null, into != null);
    ghost var sent := ctx.ClockData(out, outOffset, into, intoOffset, length, mode);
    ctx.AbortedMeansError();
    FollowedOk(ctx.usb, jobs, plan, ctx.trace.jobs, ctx.retval == ERROR_OK, ctx.aborted, ctx.writeCount, ctx.readCount);
    rc := ctx.Flush();
  }

  /** The same for clocking TMS. */
  method FlushAfterClockTms(ctx: Context, out: array<byte>, outOffset: nat, into: array?<byte>, intoOffset: nat,
                            length: nat, tdi: bool, mode: byte)
    returns (rc: int)
    requires ctx.Valid() && LsbMode(mode) && ctx.retval == ERROR_OK
    requires outOffset + length <= 8 * out.Length && ctx.Foreign(out)
    requires into != null ==> intoOffset + length <= 8 * into.Length && ctx.Foreign(into)
    modifies ctx, ctx.writeBuffer, ctx.readBuffer, ctx.readChunk, ctx.trace.memory, Opt(into)
    ensures ctx.Valid() && ctx.SizesOf().Ok()
    ensures ctx.aborted <==>
      !AllServed(ctx.usb, |old(ctx.trace.jobs)|, TmsPlan(ctx.SizesOf(), old(ctx.writeCount), old(ctx.readCount), length,
                                                         into != null).jobs)
  {
    hide Clocks, Samples, CaptureWrites, Stored, TmsPin, TdiPin, BufBits, Requested, Waiting, ctx.Consistent, Followed;
    hide AllServed, TmsPlan;
    ctx.AbortedMeansError();
    ghost var jobs, plan := ctx.trace.jobs, TmsPlan(ctx.SizesOf(), ctx.writeCount, ctx.readCount, length, into != null);
    ghost var sent := ctx.ClockTmsCs(out, outOffset, into, intoOffset, length, tdi, mode);
    ctx.AbortedMeansError();
    FollowedOk(ctx.usb, jobs, plan, ctx.trace.jobs, ctx.retval == ERROR_OK, ctx.aborted, ctx.writeCount, ctx.readCount);
    rc := ctx.Flush();
  }

  lemma FollowedOk(usb: nat -> UsbRun, jobs0: seq<Job>, plan: Plan, jobs: seq<Job>, ok: bool, aborted: bool, w: nat,
                   r: nat)
    requires Followed(usb, jobs0, plan, jobs, ok, aborted, w, r)
    ensures ok <==> AllServed(usb, |jobs0|, plan.jobs)
  {
    hide AllServed, UpToFailure;
  }

  /** The pin and configuration commands. */
  datatype Setting =
    | LowByte(data: byte, dir: byte)
    | HighByte(data: byte, dir: byte)
    | ReadPins(high: bool, into: array<byte>)
    | Loopback(enable: bool)
    | ClockDivisor(divisor: nat)
    | DivideBy5(enable: bool)
    | Rtck(enable: bool)
    | Frequency(frequency: nat)
  {
    ghost predicate Fits(ctx: Context) {
      match this
      case ReadPins(_, into) => into.Length >= 1 && ctx.Foreign(into)
      case ClockDivisor(divisor) => divisor < 65536
      case Frequency(frequency) => BaseClock(ctx.chip, frequency) / 2 + frequency - 1 <= 0x7fff_ffff
      case _ => true
    }

    ghost function Target(): set<array<byte>> {
      if ReadPins? then {into} else {}
    }

    function Asks(chip: ChipType): seq<Ask> {
      match this
      case LowByte(_, _) => [AskCommand(3, false)]
      case HighByte(_, _) => [AskCommand(3, false)]
      case ReadPins(_, _) => [AskCommand(1, true)]
      case Loopback(_) => [AskCommand(1, false)]
      case ClockDivisor(_) => [AskCommand(3, false)]
      case DivideBy5(_) => OptionAsks(chip)
      case Rtck(_) => OptionAsks(chip)
      case Frequency(frequency) => FrequencyAsks(chip, frequency)
    }
  }

  method Apply(ctx: Context, setting: Setting)
    requires ctx.Valid() && setting.Fits(ctx)
    modifies ctx, ctx.writeBuffer, ctx.readBuffer, ctx.readChunk, ctx.trace.memory, setting.Target()
    ensures ctx.Valid() && ctx.SizesOf().Ok() && ctx.trace.memory == old(ctx.trace.memory) + setting.Target()
    ensures Settles(ctx.usb, ctx.SizesOf(), old(ctx.At()), setting.Asks(ctx.chip), ctx.At())
  {
    hide CaptureWrites, Stored, ctx.Consistent, Followed, Settles, OptionAsks, FrequencyAsks, BaseClock, CommandPlan;
    ghost var b := ctx.At();
    match setting {
      case LowByte(data, dir) => ctx.SetDataBitsLowByte(data, dir);
      case HighByte(data, dir) => ctx.SetDataBitsHighByte(data, dir);
      case ReadPins(high, into) => ctx.ReadDataBits(high, into);
      case Loopback(enable) => ctx.LoopbackConfig(enable);
      case ClockDivisor(divisor) => ctx.SetDivisor(divisor);
      case DivideBy5(enable) => var rc := ctx.DivideBy5Config(enable);
      case Rtck(enable) => var rc := ctx.RtckConfig(enable);
      case Frequency(frequency) => var rate := ctx.SetFrequency(frequency);
    }
    ctx.AbortedMeansError();
    if !setting.DivideBy5? && !setting.Rtck? && !setting.Frequency? {
      FollowedSettles(ctx.usb, ctx.SizesOf(), b, setting.Asks(ctx.chip)[0], ctx.At(), ctx.aborted);
      assert setting.Asks(ctx.chip) == [setting.Asks(ctx.chip)[0]];
    }
  }

  /** And for each of the pin and configuration commands. */
  method FlushAfterSetting(ctx: Context, setting: Setting) returns (rc: int)
    requires ctx.Valid() && setting.Fits(ctx) && ctx.retval == ERROR_OK
    modifies ctx, ctx.writeBuffer, ctx.readBuffer, ctx.readChunk, ctx.trace.memory, setting.Target()
    ensures ctx.Valid() && ctx.SizesOf().Ok()
    ensures ctx.aborted <==>
      !AllServed(ctx.usb, |old(ctx.trace.jobs)|, AllAsked(ctx.SizesOf(), old(ctx.writeCount), old(ctx.readCount),
                                                          setting.Asks(ctx.chip)).jobs)
  {
    hide CaptureWrites, Stored, ctx.Consistent, AllServed, AllAsked;
    Apply(ctx, setting);
    ctx.AbortedMeansError();
    rc := ctx.Flush();
  }

  /** A failing input: on a device just opened, 16384 bytes go out, which is more than the write buffer
      holds. The assertion in the `mpsse_flush` after that fails exactly if libusb does not serve the one
      flush in between, of 16383 bytes. */
  method SendSixteenKilobytes(env: Env, usb: nat -> UsbRun, chip: ChipType, packetSize: nat, mode: byte)
    returns (ctx: Context, rc: int)
    requires packetSize > 2 && LsbMode(mode)
    ensures fresh(ctx) && ctx.Valid() && ctx.usb == usb
    ensures ctx.aborted <==> !Succeeds(Job(16383, 0, packetSize, 16384), usb(0))
  {
    hide Succeeds, DataPlan, AllServed;
    ctx := new Context(env, usb, chip, packetSize);
    var out := new byte[16384](_ => 0xff);
    SixteenKilobytes(packetSize);
    OneServed(usb, 0, Job(16383, 0, packetSize, 16384));
    rc := FlushAfterClockData(ctx, out, 0, null, 0, 8 * 16384, mode);
  }

  lemma SixteenKilobytes(packetSize: nat)
    requires packetSize > 2
    ensures DataPlan(OpenSizes(packetSize), 0, 0, 8 * 16384, true, false).jobs == [Job(16383, 0, packetSize, 16384)]
  {
    hide DataPlan;
    var s := OpenSizes(packetSize);
    var t := DataTurn(s, 0, 0, 8 * 16384, true, false);
    assert t == Turn(8 * 16380, 16383, 0);
    OneDataTurn(s, 0, 0, 8 * 16384, true, false);
    OneDataTurn(s, 16383, 0, 32, true, false);
    OneDataTurn(s, 7, 0, 0, true, false);
  }

  lemma OneDataTurn(s: Sizes, w: nat, r: nat, length: nat, sending: bool, reading: bool)
    requires s.Ok() && (sending || reading)
    ensures length == 0 ==> DataPlan(s, w, r, length, sending, reading) == Plan([], w, r)
    ensures length > 0 ==>
      var room := RoomPlan(s, w, r, DataNeed(length, sending), reading);
      && HasRoom(s, room.w, room.r, DataNeed(length, sending), reading)
      && var t := DataTurn(s, room.w, room.r, length, sending, reading);
        DataPlan(s, w, r, length, sending, reading) == Then(room, DataPlan(s, t.w, t.r, length - t.n, sending, reading))
  {
    if length > 0 {
      RoomIsMade(s, w, r, DataNeed(length, sending), reading);
    }
  }

  /** So a device that has gone away makes the process abort instead of reporting an error. */
  method DeviceGone(env: Env, usb: nat -> UsbRun, chip: ChipType, packetSize: nat, mode: byte)
    returns (ctx: Context, rc: int)
    requires packetSize > 2 && LsbMode(mode) && usb(0).submitWrite == NoDevice
    ensures ctx.aborted
  {
    ctx, rc := SendSixteenKilobytes(env, usb, chip, packetSize, mode);
  }
}
