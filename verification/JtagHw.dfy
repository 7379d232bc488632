/** The two Quartus back ends, src/jtag_hw_dummy.cpp over the TAP simulator and src/jtag_hw_otma.cpp
    over the MPSSE driver, and the theorem that they are the same device. */
module JtagHw {
  import opened Bits
  import opened MpsseDevice
  import opened ReadBack
  import opened ShiftCommands
  import opened Mpsse
  import opened JtagQueue
  import Tap
  import opened Usb
  import opened Plans

  /** LSB_FIRST | POS_EDGE_IN | NEG_EDGE_OUT */
  const JTAG_MODE: byte := 0x09

  /** LSB first, bits put out on the falling edge and taken in on the rising one. */
  lemma JtagModeIsLsb()
    ensures LsbMode(JTAG_MODE) && JTAG_MODE == 0x08 + 0x01
  {
    assert !Bit(0x09, 1) && Bit(0x09, 3) && !Bit(0x09, 4) && !Bit(0x09, 5) && !Bit(0x09, 6);
  }

  /** What TDO shows at each of the clocks `acts`, run on a TAP with registers `t`. */
  function TapSamples(t: Tap.Registers, acts: seq<Action>): (r: seq<bool>)
    requires t.Sized()
    ensures |r| == |acts|
  {
    seq(|acts|, k requires 0 <= k < |acts| => Tap.TdoAt(t, acts[..k + 1]))
  }

  /** A back end as the caller sees it: the clocks queued, the TAP, and the TDO data handed over at
      each flush (`p_op_store_tdo`). */
  datatype Device = Device(tms: seq<bool>, tdi: seq<bool>, tap: Tap.Registers, reports: seq<seq<bool>>)
  {
    ghost predicate Sane() { |tms| == |tdi| && tap.Sized() }
  }

  datatype Call =
    | ClockRaw(tms: bool, tdi: bool, len: nat)
    | ClockMultiple(tmsLevel: bool, bits: seq<byte>, count: nat)
    | DoFlush

  /** The capacity of the buffers and of the caller's bit array is respected. */
  ghost predicate Allowed(d: Device, c: Call) {
    match c
    case ClockRaw(_, _, len) => |d.tms| + len <= 8 * DATA_SIZE_BYTES
    case ClockMultiple(_, bits, count) => |d.tms| + count <= 8 * DATA_SIZE_BYTES && count <= 8 * |bits|
    case DoFlush => true
  }

  /** What a call does. */
  ghost function Do(d: Device, c: Call): (r: Device)
    requires d.Sane() && Allowed(d, c)
    ensures r.Sane()
  {
    match c
    case ClockRaw(tms, tdi, len) => d.(tms := d.tms + Repeat(tms, len), tdi := d.tdi + Repeat(tdi, len))
    case ClockMultiple(tms, bits, count) => d.(tms := d.tms + Repeat(tms, count),
                                               tdi := d.tdi + BufBits(bits, 0, count))
    case DoFlush =>
      var acts := Clocks(d.tms, d.tdi);
      Device([], [], Tap.After(d.tap, acts), d.reports + [TapSamples(d.tap, acts)])
  }

  ghost predicate AllAllowed(d: Device, calls: seq<Call>)
    requires d.Sane()
    decreases |calls|
  {
    calls == [] || (Allowed(d, calls[0]) && AllAllowed(Do(d, calls[0]), calls[1..]))
  }

  ghost function DoAll(d: Device, calls: seq<Call>): (r: Device)
    requires d.Sane() && AllAllowed(d, calls)
    ensures r.Sane()
    decreases |calls|
  {
    if calls == [] then d else DoAll(Do(d, calls[0]), calls[1..])
  }

  /** The clocks that a call queues, as TMS and TDI. */
  ghost function Asked(c: Call): (r: (seq<bool>, seq<bool>))
    ensures |r.0| == |r.1|
  {
    match c
    case ClockRaw(tms, tdi, len) => (Repeat(tms, len), Repeat(tdi, len))
    case ClockMultiple(tms, bits, count) =>
      if count <= 8 * |bits| then (Repeat(tms, count), BufBits(bits, 0, count)) else ([], [])
    case DoFlush => ([], [])
  }

  /** Those of a sequence of calls, one after another, whatever flushes there are in between. */
  ghost function AllClocks(calls: seq<Call>): seq<Action>
    decreases |calls|
  {
    if calls == [] then [] else Clocks(Asked(calls[0]).0, Asked(calls[0]).1) + AllClocks(calls[1..])
  }

  function Joined(reports: seq<seq<bool>>): seq<bool> {
    if reports == [] then [] else Joined(reports[..|reports| - 1]) + reports[|reports| - 1]
  }

  lemma SamplesJoin(t: Tap.Registers, acts: seq<Action>, more: seq<Action>)
    requires t.Sized()
    ensures TapSamples(t, acts + more) == TapSamples(t, acts) + TapSamples(Tap.After(t, acts), more)
  {
    hide Tap.After, Tap.TdoAt, TapSamples;
    var whole, front, back := TapSamples(t, acts + more), TapSamples(t, acts), TapSamples(Tap.After(t, acts), more);
    forall k | 0 <= k < |acts + more| ensures whole[k] == (front + back)[k] {
      TapSampleIs(t, acts + more, k);
      if k < |acts| {
        TapSampleIs(t, acts, k);
        assert (acts + more)[..k + 1] == acts[..k + 1];
      } else {
        TapSampleIs(Tap.After(t, acts), more, k - |acts|);
        assert (acts + more)[..k + 1] == acts + more[..k - |acts| + 1];
        Tap.TdoLater(t, acts, more[..k - |acts| + 1]);
      }
    }
  }

  /** Between `d` and `e` the clocks `acts` have been queued: all of them but those still waiting have been run, and
      what the TAP showed at them is what has been reported. */
  ghost predicate Shown(d: Device, e: Device, acts: seq<Action>)
    requires d.Sane() && e.Sane()
  {
    var all := Clocks(d.tms, d.tdi) + acts;
    && |e.tms| <= |all|
    && var done := all[..|all| - |e.tms|];
    && Joined(e.reports) == Joined(d.reports) + TapSamples(d.tap, done)
    && e.tap == Tap.After(d.tap, done) && Clocks(e.tms, e.tdi) == all[|done|..]
  }

  lemma NothingShown(d: Device)
    requires d.Sane()
    ensures Shown(d, d, [])
  {
    hide Tap.After, TapSamples, Clocks;
    NoneShown(d.tap);
    var all := Clocks(d.tms, d.tdi) + [];
    assert all == Clocks(d.tms, d.tdi) && all[..0] == [];
    assert Joined(d.reports) + [] == Joined(d.reports);
  }

  lemma QueuedFirst(d: Device, c: Call, e: Device, acts: seq<Action>)
    requires d.Sane() && e.Sane() && Allowed(d, c) && !c.DoFlush? && Shown(Do(d, c), e, acts)
    ensures Shown(d, e, Clocks(Asked(c).0, Asked(c).1) + acts)
  {
    hide Tap.After, TapSamples, Clocks;
    var next, more := Do(d, c), Clocks(Asked(c).0, Asked(c).1);
    ClocksConcat(d.tms, d.tdi, Asked(c).0, Asked(c).1);
    assert Clocks(next.tms, next.tdi) + acts == Clocks(d.tms, d.tdi) + (more + acts);
  }

  lemma FlushedFirst(d: Device, e: Device, acts: seq<Action>)
    requires d.Sane() && e.Sane() && Shown(Do(d, DoFlush), e, acts)
    ensures Shown(d, e, acts)
  {
    hide Tap.After, TapSamples, Clocks, Do;
    var next, first := Do(d, DoFlush), Clocks(d.tms, d.tdi);
    AfterFlush(d);
    NoClocks();
    assert [] + acts == acts;
    var part := acts[..|acts| - |e.tms|];
    var all := first + acts;
    assert all[..|all| - |e.tms|] == first + part && all[|first + part|..] == acts[|part|..];
    SamplesJoin(d.tap, first, part);
    Tap.AfterConcat(d.tap, first, part);
  }

  lemma AfterFlush(d: Device)
    requires d.Sane()
    ensures var next, first := Do(d, DoFlush), Clocks(d.tms, d.tdi);
      && next.tms == next.tdi == [] && next.tap == Tap.After(d.tap, first)
      && Joined(next.reports) == Joined(d.reports) + TapSamples(d.tap, first)
  {
    hide Tap.After, TapSamples, Clocks;
    var next := Do(d, DoFlush);
    assert next.reports[..|d.reports|] == d.reports;
  }

  /** Where the flushes come makes no difference: put together, the TDO data handed over are what the TAP shows at the
      clocks of all calls in turn, as far as the last flush, and the TAP is where these lead. */
  lemma {:induction false} FlushesDoNotMatter(d: Device, calls: seq<Call>)
    requires d.Sane() && AllAllowed(d, calls)
    ensures Shown(d, DoAll(d, calls), AllClocks(calls))
    ensures calls != [] && calls[|calls| - 1].DoFlush? ==> DoAll(d, calls).tms == []
    decreases |calls|
  {
    hide Shown, Clocks, TapSamples, Tap.After;
    if calls == [] {
      NothingShown(d);
    } else {
      var c := calls[0];
      FlushesDoNotMatter(Do(d, c), calls[1..]);
      if c.DoFlush? {
        FlushedFirst(d, DoAll(d, calls), AllClocks(calls[1..]));
        NoClocks();
        assert [] + AllClocks(calls[1..]) == AllClocks(calls[1..]);
      } else {
        QueuedFirst(d, c, DoAll(d, calls), AllClocks(calls[1..]));
      }
    }
  }

  lemma NoneShown(t: Tap.Registers)
    requires t.Sized()
    ensures TapSamples(t, []) == [] && Tap.After(t, []) == t
  {
  }

  lemma NoClocks()
    ensures Clocks([], []) == []
  {
  }

  lemma SamplesSnoc(t: Tap.Registers, acts: seq<Action>, a: Action)
    requires t.Sized()
    ensures TapSamples(t, acts + [a]) == TapSamples(t, acts) + [Tap.TdoAt(t, acts + [a])]
  {
    hide Tap.TdoAt;
    var longer, shorter := TapSamples(t, acts + [a]), TapSamples(t, acts);
    forall k | 0 <= k < |acts| ensures longer[k] == shorter[k] {
      assert (acts + [a])[..k + 1] == acts[..k + 1];
    }
    assert (acts + [a])[..|acts| + 1] == acts + [a];
  }

  lemma OneMoreSample(t: Tap.Registers, tms: seq<bool>, tdi: seq<bool>, i: nat)
    requires t.Sized() && i < |tms| == |tdi|
    ensures var acts := Clocks(tms, tdi);
      var next := Tap.Clocked(Tap.After(t, acts[..i]), tms[i], tdi[i]);
      && Tap.After(t, acts[..i + 1]) == next.0
      && TapSamples(t, acts[..i + 1]) == TapSamples(t, acts[..i]) + [next.1]
  {
    hide Tap.Clocked, Tap.After, Tap.TdoAt, TapSamples;
    var acts, a := Clocks(tms, tdi), Clock(tms[i], tdi[i]);
    assert acts[..i + 1] == acts[..i] + [a];
    Tap.Snoc(t, acts[..i], a);
    SamplesSnoc(t, acts[..i], a);
  }

  class DummyDriver {
    const queue: BitQueue
    const tdoData: array<byte>
    const controller: Tap.TapController
    var tdoDataCount: nat
    var reports: seq<seq<bool>>

    ghost predicate Valid()
      reads this, queue, queue.tdiData, queue.tmsData, tdoData, controller
    {
      && queue.Valid() && controller.Valid()
      && tdoData.Length == DATA_SIZE_BYTES && tdoData != queue.tdiData && tdoData != queue.tmsData
      && tdoDataCount == 0 && ZeroFrom(tdoData[..], 0)
    }

    ghost function Value(): (d: Device)
      requires Valid()
      reads this, queue, queue.tdiData, queue.tmsData, tdoData, controller, controller.ir.arr, controller.dr.arr
      reads controller.bypass.arr
      ensures d.Sane()
    {
      Device(queue.Tms(), queue.Tdi(), controller.Value(), reports)
    }

    constructor ()
      ensures Valid() && Value() == Device([], [], Tap.PowerOn(), [])
      ensures fresh(queue) && fresh(queue.tdiData) && fresh(queue.tmsData) && fresh(tdoData)
      ensures fresh(controller) && fresh(controller.ir.arr) && fresh(controller.dr.arr) && fresh(controller.bypass.arr)
    {
      queue := new BitQueue();
      tdoData := new byte[DATA_SIZE_BYTES](_ => 0);
      controller := new Tap.TapController();
      tdoDataCount, reports := 0, [];
      new;
      ZeroBytes(tdoData[..]);
    }

    method DoFlush()
      requires Valid()
      modifies this, queue, queue.tdiData, queue.tmsData, tdoData, controller, controller.ir.arr, controller.dr.arr
      modifies controller.bypass.arr
      ensures Valid() && Value() == Do(old(Value()), Call.DoFlush)
    {
      hide Tap.Clocked, Tap.After, BufBits, BufBit, ZeroFrom, Or, Clocks, TapSamples;
      ghost var tms, tdi, t := queue.Tms(), queue.Tdi(), controller.Value();
      ghost var acts := Clocks(tms, tdi);
      assert acts[..0] == [];
      NothingDone(t);
      NoBits(tdoData[..]);
      for i := 0 to queue.tdiDataCount
        invariant queue.Valid() && controller.Valid() && queue.Tms() == tms && queue.Tdi() == tdi
        invariant tdoDataCount == i && reports == old(reports)
        invariant ZeroFrom(tdoData[..], i)
        invariant controller.Value() == Tap.After(t, acts[..i])
        invariant BufBits(tdoData[..], 0, i) == TapSamples(t, acts[..i])
      {
        var byteSel, bitSel := i / 8, i % 8;
        BitOfBits(queue.tmsData[..], i, queue.tdiDataCount);
        BitOfBits(queue.tdiData[..], i, queue.tdiDataCount);
        var tdo := controller.Step(Bit(queue.tmsData[byteSel], bitSel), Bit(queue.tdiData[byteSel], bitSel));
        OneMoreSample(t, tms, tdi, i);
        OrAppends(tdoData[..], i, tdo);
        ghost var newTdo := tdoData[..][byteSel := Or(tdoData[byteSel], bitSel, tdo)];
        tdoData[byteSel] := Or(tdoData[byteSel], bitSel, tdo);
        assert tdoData[..] == newTdo;
        tdoDataCount := tdoDataCount + 1;
      }
      assert acts[..|acts|] == acts;
      reports := reports + [BufBits(tdoData[..], 0, tdoDataCount)];
      queue.Reset();
      tdoDataCount := 0;
      Clear(tdoData);
    }

    method Perform(c: Call)
      requires Valid() && Allowed(Value(), c)
      modifies this, queue, queue.tdiData, queue.tmsData, tdoData, controller, controller.ir.arr, controller.dr.arr
      modifies controller.bypass.arr
      ensures Valid() && Value() == Do(old(Value()), c)
    {
      hide Tap.Clocked, Tap.After, TapSamples, Clocks, ZeroFrom, BufBits;
      match c
      case ClockRaw(tms, tdi, len) => queue.ClockRaw(Val(tms), Val(tdi), len);
      case ClockMultiple(tms, bits, count) =>
        var a := new byte[|bits|](i requires 0 <= i < |bits| => bits[i]);
        assert a[..] == bits;
        queue.ClockMultiple(Val(tms), a, count);
      case DoFlush => DoFlush();
    }
  }

  lemma NothingDone(t: Tap.Registers)
    requires t.Sized()
    ensures Tap.After(t, []) == t && TapSamples(t, []) == []
  {
  }

  lemma NoBits(s: seq<byte>)
    ensures BufBits(s, 0, 0) == []
  {
  }

  lemma BitOfBits(s: seq<byte>, i: nat, n: nat)
    requires i < n <= 8 * |s|
    ensures BufBits(s, 0, n)[i] == Bit(s[i / 8], i % 8)
  {
    assert BufBits(s, 0, n)[i] == BufBit(s, i);
  }

  /** Sample `k` of the later actions. */
  lemma SampleIs(env: Env, acts: seq<Action>, from: nat, k: nat)
    requires from + k < |acts|
    ensures Samples(env, acts, from)[k] == env.tdo(acts[..from + k + 1])
  {
  }

  lemma TapSampleIs(t: Tap.Registers, acts: seq<Action>, k: nat)
    requires t.Sized() && k < |acts|
    ensures TapSamples(t, acts)[k] == Tap.TdoAt(t, acts[..k + 1])
  {
    hide Tap.TdoAt;
  }

  lemma SampleLater(env: Env, t0: Tap.Registers, done: seq<Action>, acts: seq<Action>, k: nat)
    requires t0.Sized() && Tap.Drives(env, t0) && k < |acts|
    ensures env.tdo((done + acts)[..|done| + k + 1]) == Tap.TdoAt(Tap.After(t0, done), acts[..k + 1])
  {
    hide Tap.Clocked, Tap.After, Tap.TdoAt;
    assert (done + acts)[..|done| + k + 1] == done + acts[..k + 1];
    Tap.TdoLater(t0, done, acts[..k + 1]);
  }

  /** Seen from later on it is the same TAP with the registers it has by then. */
  lemma SamplesAreTapSamples(env: Env, t0: Tap.Registers, done: seq<Action>, acts: seq<Action>)
    requires t0.Sized() && Tap.Drives(env, t0)
    ensures Samples(env, done + acts, |done|) == TapSamples(Tap.After(t0, done), acts)
  {
    hide Tap.Clocked, Tap.After, Tap.TdoAt, Tap.Drives, Samples, TapSamples;
    forall k | 0 <= k < |acts|
      ensures Samples(env, done + acts, |done|)[k] == TapSamples(Tap.After(t0, done), acts)[k]
    {
      SampleLater(env, t0, done, acts, k);
      SampleIs(env, done + acts, |done|, k);
      TapSampleIs(Tap.After(t0, done), acts, k);
    }
  }

  /** What one call asks of the MPSSE driver when so many clocks are queued: `do_flush` makes a TMS command of
      every single clock, reads it, and flushes. */
  function CallAsks(queued: nat, c: Call): seq<Ask> {
    if c.DoFlush? then Singles(queued) + [AskFlush] else []
  }

  function Singles(n: nat): seq<Ask> { seq(n, _ => AskTms(1, true)) }

  function Queued(queued: nat, c: Call): nat {
    match c
    case ClockRaw(_, _, len) => queued + len
    case ClockMultiple(_, _, count) => queued + count
    case DoFlush => 0
  }

  function CallsAsks(queued: nat, calls: seq<Call>): seq<Ask>
    decreases |calls|
  {
    if calls == [] then [] else CallAsks(queued, calls[0]) + CallsAsks(Queued(queued, calls[0]), calls[1..])
  }

  /** The flushes over USB that the calls make on a device just opened, if all of them succeed. */
  function HwJobs(packetSize: nat, calls: seq<Call>): seq<Job>
    requires packetSize > 2
  {
    AllAsked(OpenSizes(packetSize), 0, 0, CallsAsks(0, calls)).jobs
  }

  lemma {:induction false} CallsAreShort(queued: nat, calls: seq<Call>)
    ensures Short(CallsAsks(queued, calls))
    decreases |calls|
  {
    if calls != [] {
      CallsAreShort(Queued(queued, calls[0]), calls[1..]);
    }
  }

  /** Each of them moves between one byte and a full buffer of 16 KiB. */
  lemma HwJobsFit(packetSize: nat, calls: seq<Call>)
    requires packetSize > 2
    ensures forall j :: j in HwJobs(packetSize, calls) ==> Within(j, 16384, 16384)
  {
    hide Within, AllAsked;
    CallsAreShort(0, calls);
    AskedBounded(OpenSizes(packetSize), 0, 0, CallsAsks(0, calls));
  }

  class OtmaDriver {
    const queue: BitQueue
    const tdoData: array<byte>
    const ctx: Context
    const t0: Tap.Registers      // the target at power-on
    var tdoDataCount: nat
    var reports: seq<seq<bool>>

    ghost predicate Valid()
      reads this, queue, queue.tdiData, queue.tmsData, tdoData, ctx, ctx.writeBuffer
    {
      && queue.Valid() && ctx.Valid() && t0.Sized() && Tap.Drives(ctx.env, t0)
      && tdoData.Length == DATA_SIZE_BYTES && tdoData != queue.tdiData && tdoData != queue.tmsData
      && ctx.Foreign(queue.tdiData) && ctx.Foreign(queue.tmsData) && ctx.Foreign(tdoData)
      && ctx.trace.memory <= {tdoData}
      && (ctx.retval == ERROR_OK ==>
            ctx.trace.caps == [] && ctx.device == ctx.trace.total && ctx.writeCount == 0 && ctx.readCount == 0)
      && ctx.SizesOf().Ok()
      && tdoDataCount == 0 && ZeroFrom(tdoData[..], 0)
      && (forall k :: 0 <= k < tdoData.Length ==> tdoData[k] == 0)
    }

    /** Meaningful as long as no flush has failed. */
    ghost function Value(): (d: Device)
      requires Valid()
      reads this, queue, queue.tdiData, queue.tmsData, tdoData, ctx, ctx.writeBuffer
      ensures d.Sane()
    {
      Device(queue.Tms(), queue.Tdi(), Tap.After(t0, ctx.trace.total), reports)
    }

    constructor (env: Env, usb: nat -> UsbRun, chip: ChipType, maxPacketSize: nat, t0: Tap.Registers)
      requires maxPacketSize > 2 && t0.Sized() && Tap.Drives(env, t0)
      ensures Valid() && Value() == Device([], [], t0, [])
      ensures ctx.SizesOf() == OpenSizes(maxPacketSize) && ctx.At() == Point([], true, 0, 0)
      ensures ctx.env == env && ctx.usb == usb && this.t0 == t0
      ensures fresh(queue) && fresh(queue.tdiData) && fresh(queue.tmsData) && fresh(tdoData)
      ensures fresh(ctx) && fresh(ctx.writeBuffer) && fresh(ctx.readBuffer) && fresh(ctx.readChunk)
    {
      queue := new BitQueue();
      tdoData := new byte[DATA_SIZE_BYTES](_ => 0);
      ctx := new Context(env, usb, chip, maxPacketSize);
      this.t0 := t0;
      tdoDataCount, reports := 0, [];
      new;
      ZeroBytes(tdoData[..]);
    }

    /** What the driver still has to hear of is safe to send from. */
    lemma QueueIsUndisturbed(i: nat)
      requires ctx.Valid() && ctx.trace.memory == {tdoData} && tdoData != queue.tmsData
      ensures Undisturbed(ctx.trace.caps, queue.tmsData, i, tdoData, i, 1)
    {
      hide Program, CaptureWrites;
      ctx.CapturesAreKnown();
    }

    /** The loop of `do_flush`: one single-bit TMS command per queued clock. */
    method SendAll(ghost before: Trace, ghost zeros: seq<byte>)
      requires Valid() && ctx.trace == before && before.memory == {tdoData} && tdoData[..] == zeros
      modifies this`tdoDataCount, tdoData, ctx, ctx.writeBuffer, ctx.readBuffer, ctx.readChunk
      ensures ctx.Valid() && ctx.trace.memory == {tdoData} && tdoDataCount == queue.tdiDataCount
      ensures before.log <= ctx.trace.log
      ensures tdoData[..] == Stored(tdoData, zeros, ctx.trace.log[|before.log|..])
      ensures Settles(ctx.usb, ctx.SizesOf(), old(ctx.At()), Singles(queue.tdiDataCount), ctx.At())
      ensures ctx.At().ok ==> Requested(ctx.env, before, ctx.trace, queue.Tms(), queue.Tdi(), tdoData, 0)
    {
      hide BufBits, BufBit, ZeroFrom, Clocks, CaptureWrites, Requested, Stored, Tap.Drives, LsbMode, ctx.Consistent;
      hide Settles, Followed, Singles;
      hide Undisturbed, TmsPlan, HeldOnTheWay;
      JtagModeIsLsb();
      ghost var tms, tdi, b, s := queue.Tms(), queue.Tdi(), ctx.At(), ctx.SizesOf();
      RequestedNothing(ctx.env, before, tdoData, 0);
      StoredNone(tdoData, zeros);
      SettlesNothing(ctx.usb, s, b);
      NoSingles();
      assert before.log[|before.log|..] == [] && tms[..0] == tdi[..0] == [];
      for i := 0 to queue.tdiDataCount
        invariant ctx.Valid() && ctx.trace.memory == {tdoData} && tdoDataCount == i
        invariant before.log <= ctx.trace.log
        invariant tdoData[..] == Stored(tdoData, zeros, ctx.trace.log[|before.log|..])
        invariant Settles(ctx.usb, s, b, Singles(i), ctx.At())
        invariant ctx.At().ok ==> Requested(ctx.env, before, ctx.trace, tms[..i], tdi[..i], tdoData, 0)
      {
        var byteSel, bitSel := i / 8, i % 8;
        var tdiBit := Bit(queue.tdiData[byteSel], bitSel);
        BitOfBits(queue.tmsData[..], i, queue.tdiDataCount);
        BitOfBits(queue.tdiData[..], i, queue.tdiDataCount);
        OneBit(queue.tmsData[..], i);
        ghost var was, bytes, m := ctx.trace, tdoData[..], ctx.At();
        QueueIsUndisturbed(i);
        ghost var sent := ctx.ClockTmsCs(queue.tmsData, i, tdoData, i, 1, tdiBit, JTAG_MODE);
        StoredSplit(tdoData, zeros, bytes, tdoData[..], before.log, was.log, ctx.trace.log);
        ctx.AbortedMeansError();
        FollowedSettles(ctx.usb, s, m, AskTms(1, true), ctx.At(), ctx.aborted);
        SettlesThen(ctx.usb, s, b, Singles(i), m, [AskTms(1, true)], ctx.At());
        OneSingleMore(i);
        if ctx.At().ok {
          RequestedJoin(ctx.env, before, was, ctx.trace, tms[..i], tdi[..i], [tms[i]], Repeat(tdiBit, 1), tdoData, 0,
                        i);
          assert tms[..i + 1] == tms[..i] + [tms[i]] && tdi[..i + 1] == tdi[..i] + Repeat(tdiBit, 1);
        }
        tdoDataCount := tdoDataCount + 1;
      }
      assert tms[..|tms|] == tms && tdi[..|tdi|] == tdi;
    }

    /** The flush at the end of `do_flush` and the hand-over of the TDO data. */
    method SettleAndReport(ghost before: Trace, ghost b: Point, ghost zeros: seq<byte>, ghost tms: seq<bool>,
                           ghost tdi: seq<bool>)
      requires ctx.Valid() && t0.Sized() && Tap.Drives(ctx.env, t0) && |zeros| == tdoData.Length
      requires |tms| == |tdi| == tdoDataCount <= 8 * |zeros|
      requires b.ok ==> before.caps == []
      requires ctx.trace.memory == {tdoData} && ctx.SizesOf().Ok()
      requires before.log <= ctx.trace.log
      requires tdoData[..] == Stored(tdoData, zeros, ctx.trace.log[|before.log|..])
      requires Settles(ctx.usb, ctx.SizesOf(), b, Singles(tdoDataCount), ctx.At())
      requires ctx.At().ok ==> Requested(ctx.env, before, ctx.trace, tms, tdi, tdoData, 0)
      modifies this`reports, tdoData, ctx, ctx.writeBuffer, ctx.readBuffer, ctx.readChunk
      ensures ctx.Valid() && ctx.trace.memory == {tdoData}
      ensures ctx.retval == ERROR_OK ==>
        ctx.trace.caps == [] && ctx.device == ctx.trace.total && ctx.writeCount == 0 && ctx.readCount == 0
      ensures Met(ctx.usb, ctx.SizesOf(), b, Singles(tdoDataCount) + [AskFlush]) ==>
        && ctx.At() == Reached(ctx.SizesOf(), b, Singles(tdoDataCount) + [AskFlush])
        && ctx.trace.total == before.total + Clocks(tms, tdi)
        && reports == old(reports) + [TapSamples(Tap.After(t0, before.total), Clocks(tms, tdi))]
    {
      hide Tap.Clocked, Tap.After, BufBits, BufBit, ZeroFrom, Clocks, TapSamples, CaptureWrites, Requested, Stored;
      hide Tap.Drives, ctx.Consistent;
      hide Settles, Met, Reached, FlushPlan, AllServed, Singles;
      ghost var mid, bytes, m := ctx.trace, tdoData[..], ctx.At();
      SettledOnlyIfBegun(ctx.usb, ctx.SizesOf(), b, Singles(tdoDataCount), m);
      var rc := ctx.Flush();
      StoredSplit(tdoData, zeros, bytes, tdoData[..], before.log, mid.log, ctx.trace.log);
      FlushSettles(ctx.usb, ctx.SizesOf(), b, Singles(tdoDataCount), m, ctx.trace.jobs, rc == ERROR_OK);
      if rc == ERROR_OK {
        AllStored(ctx.env, before, mid, tms, tdi, tdoData, zeros, tdoData[..], ctx.trace.log);
        SamplesAreTapSamples(ctx.env, t0, before.total, Clocks(tms, tdi));
      }
      reports := reports + [BufBits(tdoData[..], 0, tdoDataCount)];
    }

    method DoFlush()
      requires Valid()
      modifies this, queue, queue.tdiData, queue.tmsData, tdoData, ctx, ctx.writeBuffer, ctx.readBuffer, ctx.readChunk
      ensures Valid() && queue.Tms() == [] && queue.Tdi() == []
      ensures Met(ctx.usb, ctx.SizesOf(), old(ctx.At()), Singles(|old(queue.Tms())|) + [AskFlush]) ==>
        && ctx.At() == Reached(ctx.SizesOf(), old(ctx.At()), Singles(|old(queue.Tms())|) + [AskFlush])
        && Value() == Do(old(Value()), Call.DoFlush)
    {
      hide Tap.Clocked, Tap.After, BufBits, BufBit, ZeroFrom, Clocks, TapSamples, CaptureWrites, Requested, Stored;
      hide Tap.Drives, ctx.Consistent;
      hide Settles, Met, Reached, Singles;
      ghost var b := ctx.At();
      ghost var mem := ctx.Adopt({tdoData});
      ghost var tms, tdi, before, zeros := queue.Tms(), queue.Tdi(), ctx.trace, tdoData[..];
      SendAll(before, zeros);
      SettleAndReport(before, b, zeros, tms, tdi);
      Tap.AfterConcat(t0, before.total, Clocks(tms, tdi));
      queue.Reset();
      tdoDataCount := 0;
      Clear(tdoData);
    }

    /** If libusb serves the flushes of a call, exactly what the dummy does; and the queues agree in any
        case. */
    method Perform(c: Call)
      requires Valid() && Allowed(Value(), c)
      modifies this, queue, queue.tdiData, queue.tmsData, tdoData, ctx, ctx.writeBuffer, ctx.readBuffer, ctx.readChunk
      ensures Valid()
      ensures Met(ctx.usb, ctx.SizesOf(), old(ctx.At()), CallAsks(|old(queue.Tms())|, c)) ==>
        && ctx.At() == Reached(ctx.SizesOf(), old(ctx.At()), CallAsks(|old(queue.Tms())|, c))
        && Value() == Do(old(Value()), c)
      ensures queue.Tms() == Do(old(Value()), c).tms && queue.Tdi() == Do(old(Value()), c).tdi
    {
      hide Tap.Clocked, Tap.After, TapSamples, Clocks, ZeroFrom, BufBits, Tap.Drives, ctx.Consistent, Met, Reached;
      hide Singles;
      MetNothing(ctx.usb, ctx.SizesOf(), ctx.At());
      match c
      case ClockRaw(tms, tdi, len) => queue.ClockRaw(Val(tms), Val(tdi), len);
      case ClockMultiple(tms, bits, count) =>
        var a := new byte[|bits|](i requires 0 <= i < |bits| => bits[i]);
        assert a[..] == bits;
        queue.ClockMultiple(Val(tms), a, count);
      case DoFlush => DoFlush();
    }
  }

  lemma NoSingles()
    ensures Singles(0) == []
  {
  }

  lemma OneSingleMore(i: nat)
    ensures Singles(i) + [AskTms(1, true)] == Singles(i + 1)
  {
  }

  lemma SettledOnlyIfBegun(usb: nat -> UsbRun, s: Sizes, b: Point, asks: seq<Ask>, a: Point)
    requires s.Ok() && Settles(usb, s, b, asks, a)
    ensures a.ok ==> b.ok
  {
  }

  /** After a flush that succeeded, the destination holds the sampled bits. */
  lemma AllStored(env: Env, before: Trace, mid: Trace, tms: seq<bool>, tdi: seq<bool>, into: array<byte>,
                  zeros: seq<byte>, after: seq<byte>, log: seq<Write>)
    requires |tms| == |tdi| <= 8 * |zeros| && before.caps == []
    requires Requested(env, before, mid, tms, tdi, into, 0)
    requires before.log <= log == mid.Owed(env) && after == Stored(into, zeros, log[|before.log|..])
    ensures mid.total == before.total + Clocks(tms, tdi)
    ensures BufBits(after, 0, |tms|) == Samples(env, mid.total, |before.total|)
  {
    hide BufBit, Stored, CaptureWrites;
    NoCaptures(env, before.total);
    assert before.log + [] == before.log;
    var vals := Samples(env, mid.total, |before.total|);
    assert log[|before.log|..] == WriteRun(into, 0, vals);
    forall k | 0 <= k < |tms| ensures BufBits(after, 0, |tms|)[k] == vals[k] {
      StoredRun(into, zeros, 0, vals, k);
    }
  }

  lemma OneBit(s: seq<byte>, i: nat)
    requires i < 8 * |s|
    ensures BufBits(s, i, 1) == [Bit(s[i / 8], i % 8)]
  {
    assert BufBits(s, i, 1)[0] == BufBit(s, i);
  }

  method RunDummy(dummy: DummyDriver, calls: seq<Call>)
    requires dummy.Valid() && AllAllowed(dummy.Value(), calls)
    modifies dummy, dummy.queue, dummy.queue.tdiData, dummy.queue.tmsData, dummy.tdoData
    modifies dummy.controller, dummy.controller.ir.arr, dummy.controller.dr.arr, dummy.controller.bypass.arr
    ensures dummy.Valid() && dummy.Value() == DoAll(old(dummy.Value()), calls)
  {
    hide Do;
    assert calls[0..] == calls;
    for i := 0 to |calls|
      invariant dummy.Valid() && AllAllowed(dummy.Value(), calls[i..])
      invariant DoAll(dummy.Value(), calls[i..]) == DoAll(old(dummy.Value()), calls)
    {
      assert calls[i..][1..] == calls[i + 1..];
      dummy.Perform(calls[i]);
    }
  }

  /** Call after call: the flushes are those of the calls, and if libusb serves them the device is what the
      calls make of it. */
  method RunOtma(otma: OtmaDriver, calls: seq<Call>)
    requires otma.Valid() && AllAllowed(otma.Value(), calls)
    modifies otma, otma.queue, otma.queue.tdiData, otma.queue.tmsData, otma.tdoData
    modifies otma.ctx, otma.ctx.writeBuffer, otma.ctx.readBuffer, otma.ctx.readChunk
    ensures otma.Valid()
    ensures Met(otma.ctx.usb, otma.ctx.SizesOf(), old(otma.ctx.At()), CallsAsks(|old(otma.queue.Tms())|, calls)) ==>
      && otma.ctx.At() == Reached(otma.ctx.SizesOf(), old(otma.ctx.At()), CallsAsks(|old(otma.queue.Tms())|, calls))
      && otma.Value() == DoAll(old(otma.Value()), calls)
  {
    hide Do, Met, Reached, CallAsks, Queued;
    ghost var usb, s, b, n0, d0 := otma.ctx.usb, otma.ctx.SizesOf(), otma.ctx.At(), |otma.queue.Tms()|, otma.Value();
    ghost var d, done := d0, [];
    assert calls[0..] == calls;
    assert [] + CallsAsks(n0, calls) == CallsAsks(n0, calls);
    MetNothing(usb, s, b);
    for i := 0 to |calls|
      invariant otma.Valid() && d.Sane() && AllAllowed(d, calls[i..])
      invariant otma.queue.Tms() == d.tms && otma.queue.Tdi() == d.tdi
      invariant done + CallsAsks(|d.tms|, calls[i..]) == CallsAsks(n0, calls)
      invariant Met(usb, s, b, done) ==> otma.ctx.At() == Reached(s, b, done) && otma.Value() == d
      invariant DoAll(d, calls[i..]) == DoAll(d0, calls)
    {
      assert calls[i..][1..] == calls[i + 1..];
      ghost var asks := CallAsks(|d.tms|, calls[i]);
      assert done + asks + CallsAsks(Queued(|d.tms|, calls[i]), calls[i + 1..]) == CallsAsks(n0, calls);
      SameQueues(otma.Value(), d, calls[i]);
      MetConcat(usb, s, b, done, asks);
      otma.Perform(calls[i]);
      d := Do(d, calls[i]);
      done := done + asks;
    }
    assert done + [] == done;
  }

  lemma SameQueues(d1: Device, d2: Device, c: Call)
    requires d1.Sane() && d2.Sane() && d1.tms == d2.tms && d1.tdi == d2.tdi && Allowed(d2, c)
    ensures Allowed(d1, c) && Do(d1, c).tms == Do(d2, c).tms && Do(d1, c).tdi == Do(d2, c).tdi
    ensures |Do(d2, c).tms| == Queued(|d2.tms|, c)
  {
  }

  /** A dummy device from power-on. */
  method UseDummy(calls: seq<Call>) returns (dummy: DummyDriver)
    requires AllAllowed(Device([], [], Tap.PowerOn(), []), calls)
    ensures fresh(dummy) && dummy.Valid() && dummy.Value() == DoAll(Device([], [], Tap.PowerOn(), []), calls)
  {
    hide Do, DoAll, AllAllowed;
    dummy := new DummyDriver();
    RunDummy(dummy, calls);
  }

  /** A hardware device whose target has just been powered on. If libusb serves the flushes of
      the calls, those are the flushes made, and the device ends up where the calls say. */
  method UseOtma(env: Env, usb: nat -> UsbRun, chip: ChipType, packetSize: nat, calls: seq<Call>)
    returns (otma: OtmaDriver)
    requires packetSize > 2 && Tap.Drives(env, Tap.PowerOn())
    requires AllAllowed(Device([], [], Tap.PowerOn(), []), calls)
    ensures fresh(otma) && otma.Valid() && otma.ctx.env == env && otma.ctx.usb == usb && otma.t0 == Tap.PowerOn()
    ensures AllServed(usb, 0, HwJobs(packetSize, calls)) ==>
      && otma.Value() == DoAll(Device([], [], Tap.PowerOn(), []), calls)
      && otma.ctx.trace.jobs == HwJobs(packetSize, calls) && otma.ctx.device == otma.ctx.trace.total
  {
    hide Do, DoAll, AllAllowed, Tap.Drives, Succeeds, AllServed, AllAsked;
    otma := new OtmaDriver(env, usb, chip, packetSize, Tap.PowerOn());
    RunOtma(otma, calls);
    assert [] + HwJobs(packetSize, calls) == HwJobs(packetSize, calls);
  }

  /** The two back ends, given the same calls, hand over the same TDO data at every flush and leave their
      TAPs in the same state, if libusb serves the flushes that these calls take; what each of those has to
      move depends on the calls alone. A bus that always serves is enough in any case. */
  method SameBehaviour(env: Env, usb: nat -> UsbRun, chip: ChipType, packetSize: nat, calls: seq<Call>)
    returns (dummy: DummyDriver, otma: OtmaDriver)
    requires packetSize > 2 && Tap.Drives(env, Tap.PowerOn())
    requires AllAllowed(Device([], [], Tap.PowerOn(), []), calls)
    ensures dummy.Valid() && dummy.Value() == DoAll(Device([], [], Tap.PowerOn(), []), calls)
    ensures otma.Valid() && otma.ctx.usb == usb && otma.ctx.env == env && otma.t0 == Tap.PowerOn()
    ensures AllServed(usb, 0, HwJobs(packetSize, calls)) ==> SameDevice(dummy, otma)
    ensures (forall i :: usb(i) == Obliging(16384, 16384)) ==> SameDevice(dummy, otma)
  {
    hide Do, DoAll, AllAllowed, Tap.Drives, Succeeds, AllServed, Tap.After, Within, HwJobs;
    dummy := UseDummy(calls);
    otma := UseOtma(env, usb, chip, packetSize, calls);
    if forall i :: usb(i) == Obliging(16384, 16384) {
      HwJobsServed(usb, packetSize, calls);
    }
  }

  /** The same TDO data, and the TAP behind the cable, after all that the device has done, like the simulated. */
  ghost predicate SameDevice(dummy: DummyDriver, otma: OtmaDriver)
    requires otma.t0.Sized()
    reads dummy, dummy.controller, dummy.controller.ir.arr, dummy.controller.dr.arr, dummy.controller.bypass.arr, otma
    reads otma.ctx
  {
    otma.reports == dummy.reports && Tap.After(otma.t0, otma.ctx.device) == dummy.controller.Value()
  }

  lemma HwJobsServed(usb: nat -> UsbRun, packetSize: nat, calls: seq<Call>)
    requires packetSize > 2 && forall i :: usb(i) == Obliging(16384, 16384)
    ensures AllServed(usb, 0, HwJobs(packetSize, calls))
  {
    hide Within, AllAsked, AllServed;
    CallsAreShort(0, calls);
    var s := OpenSizes(packetSize);
    AskedBounded(s, 0, 0, CallsAsks(0, calls));
    ObligingServesAll(usb, s, 0, AllAsked(s, 0, 0, CallsAsks(0, calls)));
  }
}
