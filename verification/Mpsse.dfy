/** mpsse.c: the command buffer, the flush, and the clocking operations that compile a request of any
    length into MPSSE commands. */
module Mpsse {
  import opened Bits
  import opened BitCopy
  import opened MpsseDevice
  import opened ReadBack
  import opened ShiftCommands
  import opened Usb
  import opened Plans
  import Numbers

  const ERROR_OK := 0
  const ERROR_FAIL := -4

  datatype ChipType = FT2232C | FT2232H | FT4232H | FT232H

  ghost function Opt(a: array?<byte>): set<array<byte>> {
    if a == null then {} else {a}
  }

  /** What the specification tracks beside the driver's own fields. */
  datatype Trace = Trace(
    total: seq<Action>,          // all the device has done, plus the effect of the write buffer
    reply: seq<byte>,            // what the write buffer's commands will send back
    caps: seq<Capture>,          // which of their output bits go where
    log: seq<Write>,             // all bits stored in caller memory so far
    jobs: seq<Job>,              // what each flush so far had to move
    pending: bool,               // a flush has failed and its error has not been returned yet
    memory: set<array<byte>>,    // caller buffers handed over as destinations
    accepted: seq<byte>,         // what the device took in the last flush
    received: seq<byte>)         // what it sent back, status bytes stripped
  {
    /** Every bit that is or will be stored, in order. */
    function Owed(env: Env): seq<Write> { log + Unstored(env) }

    /** Those that are still to be stored. */
    function Unstored(env: Env): seq<Write> { CaptureWrites(env, total, caps) }
  }

  /** The TDI bits of a data request: those of `out` from `outOffset` on, zero when nothing is read
      either, and otherwise whatever the pin holds. */
  ghost function RequestedTdi(out: array?<byte>, outOffset: nat, n: nat, reading: bool, held: bool): (r: seq<bool>)
    requires out != null ==> outOffset + n <= 8 * out.Length
    reads out
    ensures |r| == n
  {
    if out != null then BufBits(out[..], outOffset, n) else if !reading then Repeat(false, n) else Repeat(held, n)
  }

  /** The effect of clocking `tdi` with TMS held: so many clocks with those TDI bits and, when reading,
      what TDO shows at each of them owed to consecutive bits of `into`. */
  ghost predicate Clocked(env: Env, before: Trace, after: Trace, tdi: seq<bool>, into: array?<byte>, intoOffset: nat) {
    && after.total == before.total + Clocks(Repeat(TmsPin(env, before.total), |tdi|), tdi)
    && Captured(env, before, after, into, intoOffset)
    && Untouched(before, after)
  }

  /** The same over any number of commands, with flushes in between. */
  ghost predicate Requested(env: Env, before: Trace, after: Trace, tms: seq<bool>, tdi: seq<bool>, into: array?<byte>,
                            intoOffset: nat)
    requires |tms| == |tdi|
  {
    && after.total == before.total + Clocks(tms, tdi)
    && after.Owed(env) == before.Owed(env)
         + (if into == null then [] else WriteRun(into, intoOffset, Samples(env, after.total, |before.total|)))
  }

  /** Captures still waiting for a flush: none but those that waited before and those of this request. */
  ghost predicate Waiting(before: Trace, after: Trace, into: array?<byte>, intoOffset: nat, n: nat) {
    forall c :: c in after.caps ==>
      c in before.caps || (into != null && c.cell.buf == into && intoOffset <= c.cell.bit < intoOffset + n)
  }

  /** Two requests in a row are one. */
  lemma RequestedJoin(env: Env, before: Trace, mid: Trace, after: Trace, tms: seq<bool>, tdi: seq<bool>,
                      tms2: seq<bool>, tdi2: seq<bool>, into: array?<byte>, intoOffset: nat, at: nat)
    requires |tms| == |tdi| && |tms2| == |tdi2| && (into != null ==> at == intoOffset + |tdi|)
    requires Requested(env, before, mid, tms, tdi, into, intoOffset)
    requires Requested(env, mid, after, tms2, tdi2, into, at)
    ensures Requested(env, before, after, tms + tms2, tdi + tdi2, into, intoOffset)
  {
    hide Clocks, Samples, WriteRun, CaptureWrites;
    ClocksConcat(tms, tdi, tms2, tdi2);
    assert after.total == before.total + Clocks(tms + tms2, tdi + tdi2);
    if into != null {
      SamplesConcat(env, mid.total, Clocks(tms2, tdi2), |before.total|);
      var s1, s2 := Samples(env, mid.total, |before.total|), Samples(env, after.total, |mid.total|);
      assert |s1| == |tdi|;
      WriteRunConcat(into, intoOffset, s1, s2);
    }
  }

  lemma RequestedNothing(env: Env, t: Trace, into: array?<byte>, intoOffset: nat)
    ensures Requested(env, t, t, [], [], into, intoOffset)
  {
    hide CaptureWrites;
    assert t.total + Clocks([], []) == t.total;
    assert Samples(env, t.total, |t.total|) == [];
    if into != null {
      assert WriteRun(into, intoOffset, Samples(env, t.total, |t.total|)) == [];
    }
    assert t.Owed(env) + [] == t.Owed(env);
  }

  lemma RequestedSame(env: Env, before: Trace, t1: Trace, t2: Trace, tms: seq<bool>, tdi: seq<bool>, into: array?<byte>,
                      intoOffset: nat)
    requires |tms| == |tdi| && t1.total == t2.total && t1.Owed(env) == t2.Owed(env)
    requires Requested(env, before, t1, tms, tdi, into, intoOffset)
    ensures Requested(env, before, t2, tms, tdi, into, intoOffset)
  {
  }

  /** Replaying a longer log on a buffer. */
  lemma StoredSplit(a: array<byte>, s0: seq<byte>, s1: seq<byte>, s2: seq<byte>, log0: seq<Write>, log1: seq<Write>,
                    log2: seq<Write>)
    requires log0 <= log1 <= log2
    requires s1 == Stored(a, s0, log1[|log0|..]) && s2 == Stored(a, s1, log2[|log1|..])
    ensures s2 == Stored(a, s0, log2[|log0|..])
  {
    hide Stored;
    StoredConcat(a, s0, log1[|log0|..], log2[|log1|..]);
    assert log1[|log0|..] + log2[|log1|..] == log2[|log0|..];
  }

  /** A clocking operation under way. The bits of `out` go to one of the lines TMS and TDI, the other keeps its
      `level`. `was` is what `out` held at the start, when the trace was `before` and the known destinations held
      `mem`; `asked` are the bits to be clocked if no flush changes them first; `whole` is the plan. */
  datatype Request = Request(
    before: Trace, mem: map<array<byte>, seq<byte>>,
    onTms: bool, level: bool,
    out: array?<byte>, outOffset: nat, was: seq<byte>,
    into: array?<byte>, intoOffset: nat,
    asked: seq<bool>, whole: Plan)
  {
    function Tms(sent: seq<bool>): (r: seq<bool>)
      ensures |r| == |sent|
    {
      if onTms then sent else Repeat(level, |sent|)
    }

    function Tdi(sent: seq<bool>): (r: seq<bool>)
      ensures |r| == |sent|
    {
      if onTms then Repeat(level, |sent|) else sent
    }

    /** `out` and `into` are long enough, and `into` is a known destination. */
    ghost predicate Fits() {
      && (out != null ==>
        && out.Length == |was| && outOffset + |asked| <= 8 * |was| && asked == BufBits(was, outOffset, |asked|)
        && (out in mem ==> mem[out] == was))
      && (into != null ==> into in mem && intoOffset + |asked| <= 8 * into.Length)
    }

    /** No flush of the operation changes bits that are still to be sent. */
    ghost predicate Calm() {
      Untroubled(before.caps, out, outOffset, into, intoOffset, |asked|, whole)
    }

    /** What `out` holds when `ws` have been stored since. */
    ghost function Source(ws: seq<Write>): (r: seq<byte>)
      requires out != null
      ensures |r| == |was|
    {
      Later(out, was, mem.Keys, ws)
    }

    ghost predicate SentFrom(ws: seq<Write>, sent: seq<bool>) {
      out != null ==> HeldOnTheWay(out, was, outOffset, mem.Keys, ws, sent)
    }
  }

  /** A flush in the middle of a request does not change bits of `out` that are still to be sent: none of
      them is the destination of an outstanding read, of this request or an earlier one. */
  ghost predicate Undisturbed(caps: seq<Capture>, out: array?<byte>, outOffset: nat, into: array?<byte>,
                              intoOffset: nat, n: nat) {
    out != null ==>
      && (forall c :: c in caps && c.cell.buf == out ==> !(outOffset <= c.cell.bit < outOffset + n))
      && (out == into ==> intoOffset <= outOffset || outOffset + n <= intoOffset)
  }

  /** Nor does a request that does not flush. */
  ghost predicate Untroubled(caps: seq<Capture>, out: array?<byte>, outOffset: nat, into: array?<byte>, intoOffset: nat,
                             n: nat, plan: Plan)
  {
    plan.jobs == [] || Undisturbed(caps, out, outOffset, into, intoOffset, n)
  }

  /** Nothing has been flushed. */
  ghost predicate Untouched(before: Trace, after: Trace) {
    && after.pending == before.pending
    && after.log == before.log
    && after.memory == before.memory
    && after.jobs == before.jobs
    && after.accepted == before.accepted && after.received == before.received
  }

  ghost predicate Captured(env: Env, before: Trace, after: Trace, into: array?<byte>, intoOffset: nat) {
    && before.total <= after.total
    && after.Owed(env) == before.Owed(env)
         + (if into == null then [] else WriteRun(into, intoOffset, Samples(env, after.total, |before.total|)))
    && after.caps == before.caps
         + (if into == null then [] else ClockCaps(into, intoOffset, |after.total| - |before.total|, |before.total|))
  }

  lemma ZeroBits(s: seq<byte>, n: nat)
    requires n <= 8 * |s|
    requires forall k :: 0 <= k < |s| ==> s[k] == 0
    ensures BufBits(s, 0, n) == Repeat(false, n)
  {
    forall i | 0 <= i < 8 * |s| ensures !BufBit(s, i) {
      ZeroBit(i % 8);
    }
  }

  class Context {
    const writeBuffer: array<byte>
    const readBuffer: array<byte>
    const readChunk: array<byte>
    const chip: ChipType
    const maxPacketSize: nat
    var writeCount: nat
    var readCount: nat
    var readQueue: seq<Entry>
    var retval: int
    var aborted: bool            // a C assertion has failed

    // The environment: the target and pins, what libusb does at each flush, and everything the device
    // has done up to the last one.
    const env: Env
    const usb: nat -> UsbRun
    var flushes: nat
    var device: seq<Action>

    ghost var trace: Trace

    ghost predicate Buffers()
      reads this
    {
      && writeBuffer != readBuffer && writeBuffer != readChunk && readBuffer != readChunk
      && writeBuffer !in trace.memory && readBuffer !in trace.memory && readChunk !in trace.memory
      && writeBuffer.Length >= 5 && readBuffer.Length >= 1 && readChunk.Length >= 3 && maxPacketSize > 2
    }

    /** What holds between any two steps of an operation ... */
    ghost predicate Consistent()
      reads this, writeBuffer
    {
      && Buffers()
      && writeCount < writeBuffer.Length && readCount <= readBuffer.Length
      && (forall e :: e in readQueue ==> e.dst in trace.memory && e.dstOffset + e.bitCount <= 8 * e.dst.Length)
      && Program(env, device, writeBuffer[..writeCount], readQueue, trace.total, trace.reply, trace.caps)
      && |trace.reply| == readCount
      && flushes == |trace.jobs|
      && trace.pending == (retval != ERROR_OK)
      && (aborted ==> retval != ERROR_OK)
    }

    /** ... and between any two operations: a pending error always comes with a non-empty buffer. */
    ghost predicate Valid()
      reads this, writeBuffer
    {
      Consistent() && (retval != ERROR_OK ==> writeCount > 0)
    }

    /** What that says: the write buffer is a sequence of whole commands, one byte below capacity at least;
        their reply is as long as `readCount` says; the queued reads tile the read buffer in order, none
        when no reply is due; and applied to that reply they make the writes owed. */
    lemma BufferInvariant()
      requires Valid()
      ensures writeCount < writeBuffer.Length && |trace.reply| == readCount <= readBuffer.Length
      ensures Run(env, device, writeBuffer[..writeCount]) == Some(Outcome(trace.total, trace.reply))
      ensures Tiles(readQueue, readCount) && (readQueue == [] <==> readCount == 0)
      ensures InRange(readQueue, |trace.reply|)
      ensures QueueWrites(readQueue, trace.reply) == CaptureWrites(env, trace.total, trace.caps)
    {
      hide Run, QueueWrites, CaptureWrites;
      QueueReady(env, device, writeBuffer[..writeCount], readQueue, trace.total, trace.reply, trace.caps,
                 readBuffer.Length);
    }

    function SizesOf(): Sizes {
      Sizes(writeBuffer.Length, readBuffer.Length, maxPacketSize, readChunk.Length)
    }

    function WriteSpace(): int
      reads this
    {
      writeBuffer.Length - writeCount - 1
    }

    function ReadSpace(): int
      reads this
    {
      readBuffer.Length - readCount
    }

    /** `mpsse_open`, with the device already there: 16 KiB buffers, nothing queued. */
    constructor (env: Env, usb: nat -> UsbRun, chip: ChipType, maxPacketSize: nat)
      requires maxPacketSize > 2
      ensures Valid() && fresh(writeBuffer) && fresh(readBuffer) && fresh(readChunk)
      ensures this.env == env && this.usb == usb && this.chip == chip && this.maxPacketSize == maxPacketSize
      ensures trace == Trace([], [], [], [], [], false, {}, [], []) && device == []
      ensures retval == ERROR_OK && !aborted && writeCount == readCount == 0 && SizesOf() == OpenSizes(maxPacketSize)
    {
      hide Program, CaptureWrites;
      this.env, this.usb, this.chip, this.maxPacketSize := env, usb, chip, maxPacketSize;
      writeBuffer := new byte[16384](_ => 0);
      readBuffer := new byte[16384](_ => 0);
      readChunk := new byte[16384](_ => 0);
      writeCount, readCount, readQueue, retval, aborted := 0, 0, [], ERROR_OK, false;
      flushes, device := 0, [];
      trace := Trace([], [], [], [], [], false, {}, [], []);
      new;
      EmptyProgram(env, []);
      assert writeBuffer[..0] == [];
    }

    method BufferWriteByte(data: byte)
      requires writeCount < writeBuffer.Length
      modifies writeBuffer, this`writeCount
      ensures writeCount == old(writeCount) + 1
      ensures writeBuffer[..writeCount] == old(writeBuffer[..writeCount]) + [data]
    {
      writeBuffer[writeCount] := data;
      writeCount := writeCount + 1;
    }

    method BufferWriteBytes(data: seq<byte>)
      requires writeCount + |data| <= writeBuffer.Length
      modifies writeBuffer, this`writeCount
      ensures writeCount == old(writeCount) + |data|
      ensures writeBuffer[..writeCount] == old(writeBuffer[..writeCount]) + data
    {
      ghost var before := writeBuffer[..writeCount];
      for i := 0 to |data|
        invariant writeCount == |before| + i
        invariant writeBuffer[..writeCount] == before + data[..i]
      {
        BufferWriteByte(data[i]);
      }
    }

    method BufferWrite(out: array<byte>, outOffset: nat, bitCount: nat)
      requires out != writeBuffer && outOffset + bitCount <= 8 * out.Length
      requires writeCount + (bitCount + 7) / 8 <= writeBuffer.Length
      modifies writeBuffer, this`writeCount
      ensures writeCount == old(writeCount) + (bitCount + 7) / 8
      ensures writeBuffer[..old(writeCount)] == old(writeBuffer[..writeCount])
      ensures BufBits(writeBuffer[old(writeCount)..writeCount], 0, bitCount) == BufBits(out[..], outOffset, bitCount)
    {
      hide BufBit;
      ghost var from, before := out[..], writeBuffer[..];
      var n := (bitCount + 7) / 8;
      BufSetBuf(out, outOffset, writeBuffer, 8 * writeCount, bitCount);
      CopiedFront(from, outOffset, before, writeCount, bitCount, writeBuffer[..]);
      writeCount := writeCount + n;
      assert writeBuffer[..][..old(writeCount)] == writeBuffer[..old(writeCount)];
      assert writeBuffer[..][old(writeCount)..writeCount] == writeBuffer[old(writeCount)..writeCount];
    }

    method BufferAddRead(into: array<byte>, intoOffset: nat, bitCount: nat, offset: nat)
      requires readCount + (bitCount + 7) / 8 <= readBuffer.Length
      modifies this`readQueue, this`readCount
      ensures readQueue == old(readQueue) + [Entry(into, intoOffset, old(readCount), offset, bitCount)]
      ensures readCount == old(readCount) + (bitCount + 7) / 8
    {
      readQueue := readQueue + [Entry(into, intoOffset, readCount, offset, bitCount)];
      readCount := readCount + (bitCount + 7) / 8;
    }

    /** `bit_copy_execute`: run and drop the queued copies, front to back. */
    method BitCopyExecute()
      requires writeBuffer !in trace.memory && readBuffer !in trace.memory && readChunk !in trace.memory
      requires forall e :: e in readQueue ==> e.dst in trace.memory && e.dstOffset + e.bitCount <= 8 * e.dst.Length
      requires InRange(readQueue, readBuffer.Length)
      modifies this`readQueue, trace.memory
      ensures readQueue == []
      ensures forall a :: a in trace.memory ==>
        a[..] == Stored(a, old(a[..]), QueueWrites(old(readQueue), readBuffer[..]))
    {
      hide Stored, QueueWrites, EntryWrites;
      ghost var all, buf := readQueue, readBuffer[..];
      ghost var i := 0;
      QueueWritesFront(all, buf, 0);
      while readQueue != []
        invariant 0 <= i <= |all| && readQueue == all[i..]
        invariant InRange(all[..i], |buf|)
        invariant forall a :: a in trace.memory ==> a[..] == Stored(a, old(a[..]), QueueWrites(all[..i], buf))
        decreases |readQueue|
      {
        var e := readQueue[0];
        assert e == all[i] && e in all;
        label L:
        BufSetBuf(readBuffer, 8 * e.src + e.srcOffset, e.dst, e.dstOffset, e.bitCount);
        QueueWritesFront(all, buf, i);
        forall a | a in trace.memory
          ensures a[..] == Stored(a, old(a[..]), QueueWrites(all[..i + 1], buf))
        {
          OneCopyMore(all, buf, i, a, old(a[..]), old@L(a[..]), a[..]);
        }
        readQueue := readQueue[1..];
        i := i + 1;
      }
      assert all[..i] == all;
    }

    /** `mpsse_purge`: forget everything buffered. */
    method Purge()
      requires Buffers() && !aborted && flushes == |trace.jobs|
      modifies this
      ensures Valid() && !aborted
      ensures trace == old(trace).(total := device, reply := [], caps := [], pending := false) && device == old(device)
      ensures writeCount == 0 && readCount == 0 && readQueue == [] && retval == ERROR_OK && trace.caps == []
    {
      hide Program, CaptureWrites;
      writeCount, readCount, retval, readQueue := 0, 0, ERROR_OK, [];
      trace := trace.(total := device, reply := [], caps := [], pending := false);
      EmptyProgram(env, device);
      assert writeBuffer[..0] == [];
    }

    /** The transfers of `mpsse_flush`, up to the check of their results. */
    method Transfer() returns (ok: bool)
      requires Valid() && writeCount > 0
      modifies this`flushes, this`device, this`writeCount, this`trace, writeBuffer, readBuffer, readChunk
      ensures ok ==>
        && device == trace.total && readBuffer[..readCount] == trace.reply
        && trace.accepted == old(writeBuffer[..writeCount]) + (if readCount > 0 then [0x87] else [])
        && trace.received == trace.reply
      ensures ok <==> AllServed(usb, |old(trace.jobs)|, FlushPlan(SizesOf(), old(writeCount), readCount).jobs)
      ensures trace == old(trace).(accepted := trace.accepted, received := trace.received,
                                   jobs := old(trace.jobs) + FlushPlan(SizesOf(), old(writeCount), readCount).jobs)
      ensures flushes == |trace.jobs|
    {
      hide Program, Run, Succeeds, AllServed;
      SendImmediate(env, device, writeBuffer[..writeCount], readQueue, trace.total, trace.reply, trace.caps);
      ghost var program := writeBuffer[..writeCount];
      if readCount > 0 {
        BufferWriteByte(0x87);
      }
      ghost var sent := program + (if readCount > 0 then [0x87] else []);
      assert writeBuffer[..writeCount] == sent;
      var outcome := Run(env, device, writeBuffer[..writeCount]);
      var run := usb(flushes);
      ghost var taken, got;
      ok, taken, got := Converse(writeBuffer, writeCount, readBuffer, readCount, readChunk, maxPacketSize, run,
                                 outcome.value.reply);
      ghost var job := Job(|sent|, readCount, maxPacketSize, readChunk.Length);
      OneServed(usb, |trace.jobs|, job);
      trace := trace.(accepted := taken, received := got, jobs := trace.jobs + [job]);
      flushes := flushes + 1;
      if ok {
        device := outcome.value.acts;
      } else {
        device := run.residue;
      }
    }

    /** `mpsse_flush`. */
    method Flush() returns (rc: int)
      requires Valid()
      modifies this, writeBuffer, readBuffer, readChunk, trace.memory
      ensures Valid() && trace.memory == old(trace.memory)
      // With an error pending, the C assertion that the buffers are empty is reached, and is false.
      ensures old(retval) != ERROR_OK ==>
        && aborted
        && rc == old(retval) == retval
        && trace == old(trace)
        && writeCount == old(writeCount)
        && readCount == old(readCount)
      ensures old(retval) == ERROR_OK ==>
        && !aborted && (rc == 0 || rc == -4)
        && writeCount == 0 && readCount == 0 && readQueue == [] && trace.caps == [] && retval == ERROR_OK
      ensures old(retval) == ERROR_OK ==>
        && (rc == ERROR_OK <==> AllServed(usb, |old(trace.jobs)|,
                                          FlushPlan(SizesOf(), old(writeCount), old(readCount)).jobs))
        && trace.jobs == old(trace.jobs) + FlushPlan(SizesOf(), old(writeCount), old(readCount)).jobs
        && device == trace.total
      // All or nothing.
      ensures rc == ERROR_OK ==> trace.total == old(trace.total) && trace.log == old(trace.Owed(env))
      ensures rc == ERROR_OK && old(writeCount) > 0 ==>
        && trace.accepted == old(writeBuffer[..writeCount]) + (if old(readCount) > 0 then [0x87] else [])
        && trace.received == old(trace.reply)
      ensures rc != ERROR_OK ==> trace.log == old(trace.log)
      ensures old(trace.log) <= trace.log && old(trace.jobs) <= trace.jobs
      ensures forall a :: a in trace.memory ==> a[..] == Stored(a, old(a[..]), trace.log[|old(trace.log)|..])
    {
      hide Program, CaptureWrites, Stored, Run, QueueWrites, Succeeds, AllServed;
      forall a: array<byte> | a in trace.memory ensures Stored(a, a[..], []) == a[..] { StoredNone(a, a[..]); }
      assert trace.log[|trace.log|..] == [];
      rc := retval;
      if rc != ERROR_OK {
        aborted := writeCount != 0 || readCount != 0;
        retval := if aborted then retval else ERROR_OK;
        return;
      }
      ghost var program := writeBuffer[..writeCount];
      if writeCount == 0 {
        assert program == [];
        NothingQueued(env, device, readQueue, trace.total, trace.reply, trace.caps);
        NothingRead(env, device, program, readQueue, trace.total, trace.caps);
        assert trace.log + [] == trace.log && trace.jobs + [] == trace.jobs;
        NoneServed(usb, |trace.jobs|);
        return;
      }
      ghost var owed := trace.Owed(env);
      QueueReady(env, device, program, readQueue, trace.total, trace.reply, trace.caps, readBuffer.Length);
      var ok := Transfer();
      if !ok {
        rc := ERROR_FAIL;
        Purge();
      } else {
        if readCount > 0 {
          writeCount, readCount := 0, 0;
          assert readBuffer[..] == trace.reply + readBuffer[|trace.reply|..];
          QueueWritesExtend(readQueue, trace.reply, readBuffer[|trace.reply|..]);
          BitCopyExecute();
        } else {
          writeCount := 0;
          NothingRead(env, old(device), program, readQueue, trace.total, trace.caps);
          assert trace.log + [] == trace.log;
          readQueue := [];
        }
        trace := trace.(reply := [], caps := [], log := owed);
        EmptyProgram(env, device);
        assert writeBuffer[..0] == [];
      }
    }

    /** The command bytes `cmd` have just been added behind `program`, and the read of their reply, if
        any, behind `queue`: take them into the specification's account. */
    ghost method Commit(program: seq<byte>, queue: seq<Entry>, cmd: seq<byte>, tms: seq<bool>, tdi: seq<bool>,
                        r: seq<byte>, noise: byte, into: array?<byte>, intoOffset: nat, offset: nat)
      requires Buffers() && writeCount < writeBuffer.Length && readCount <= readBuffer.Length
      requires forall e :: e in readQueue ==> e.dst in trace.memory && e.dstOffset + e.bitCount <= 8 * e.dst.Length
      requires trace.pending == (retval != ERROR_OK) && (aborted ==> retval != ERROR_OK) && flushes == |trace.jobs|
      requires Program(env, device, program, queue, trace.total, trace.reply, trace.caps)
      requires |cmd| > 0 && CommandLength(cmd) == |cmd| && writeBuffer[..writeCount] == program + cmd
      requires |tms| == |tdi| > 0 && Exec(env, trace.total, cmd) == Outcome(trace.total + Clocks(tms, tdi), r)
      requires into == null ==> r == [] && readQueue == queue && readCount == |trace.reply|
      requires into != null ==>
        var tdo := Samples(env, trace.total + Clocks(tms, tdi), |trace.total|);
        && readQueue == queue + [Entry(into, intoOffset, |trace.reply|, offset, |tdi|)]
        && readCount == |trace.reply| + (|tdi| + 7) / 8
        && (|| (|tdi| % 8 == 0 && offset == 0 && r == PackBytes(tdo))
            || (|tdi| < 8 && offset == 8 - |tdi| && r == [TopBits(tdo, noise)]))
      modifies this`trace
      ensures Valid() && writeCount > 0
      ensures trace.total == old(trace.total) + Clocks(tms, tdi)
      ensures Captured(env, old(trace), trace, into, intoOffset)
      ensures Untouched(old(trace), trace)
    {
      hide Program, CaptureWrites, Exec, CommandLength, Clocks, PackBytes, TopBits, Samples;
      var total := trace.total + Clocks(tms, tdi);
      if into == null {
        ProgramGrows(env, device, program, queue, trace.total, trace.reply, trace.caps, cmd, total);
        assert trace.caps + [] == trace.caps;
        trace := trace.(total := total);
        assert trace.Owed(env) + [] == trace.Owed(env);
      } else {
        var e := Entry(into, intoOffset, |trace.reply|, offset, |tdi|);
        ShiftRead(env, device, program, queue, trace.total, trace.reply, trace.caps, cmd, tms, tdi, r, e, noise);
        trace := trace.(total := total, reply := trace.reply + r,
                        caps := trace.caps + ClockCaps(into, intoOffset, |tdi|, |trace.total|));
      }
    }

    /** The data of a shift command: from `out`, or zeros when nothing is read either. */
    method EmitPayload(out: array?<byte>, outOffset: nat, reading: bool, n: nat) returns (ghost payload: seq<byte>)
      requires writeCount + (if out != null || !reading then (n + 7) / 8 else 0) <= writeBuffer.Length
      requires out != null ==> out != writeBuffer && outOffset + n <= 8 * out.Length
      modifies this`writeCount, writeBuffer
      ensures writeCount == old(writeCount) + |payload| <= writeBuffer.Length
      ensures writeBuffer[..writeCount] == old(writeBuffer[..writeCount]) + payload
      ensures |payload| == if out != null || !reading then (n + 7) / 8 else 0
      ensures out != null ==> BufBits(payload, 0, n) == old(BufBits(out[..], outOffset, n))
      ensures out == null && !reading ==> BufBits(payload, 0, n) == Repeat(false, n)
    {
      hide BufBits;
      ghost var program, at := writeBuffer[..writeCount], writeCount;
      if out != null {
        BufferWrite(out, outOffset, n);
      }
      if out == null && !reading {
        BufferWriteZeros((n + 7) / 8);
        ZeroBits(writeBuffer[at..writeCount], n);
      }
      payload := writeBuffer[at..writeCount];
      assert writeBuffer[..writeCount] == writeBuffer[..at] + payload;
    }

    /** The bytes of one byte-mode command. */
    method EmitBytes(mode: byte, out: array?<byte>, outOffset: nat, into: array?<byte>, intoOffset: nat, n: nat)
      returns (ghost payload: seq<byte>)
      requires 1 <= n <= 65536
      requires writeCount + 3 + (if out != null || into == null then n else 0) <= writeBuffer.Length
      requires into != null ==> n <= ReadSpace()
      requires out != null ==> out != writeBuffer && outOffset + 8 * n <= 8 * out.Length
      modifies this`writeCount, this`readCount, this`readQueue, writeBuffer
      ensures writeCount == old(writeCount) + 3 + |payload| <= writeBuffer.Length
      ensures writeBuffer[..writeCount]
           == old(writeBuffer[..writeCount]) + ([mode, (n - 1) % 256, (n - 1) / 256] + payload)
      ensures |payload| == if out != null || into == null then n else 0
      ensures out != null ==> BufBits(payload, 0, 8 * n) == old(BufBits(out[..], outOffset, 8 * n))
      ensures out == null && into == null ==> BufBits(payload, 0, 8 * n) == Repeat(false, 8 * n)
      ensures into == null ==> readQueue == old(readQueue) && readCount == old(readCount)
      ensures into != null ==>
        && readQueue == old(readQueue) + [Entry(into, intoOffset, old(readCount), 0, 8 * n)]
        && readCount == old(readCount) + n
    {
      hide BufBits;
      ghost var program, head := writeBuffer[..writeCount], [mode, (n - 1) % 256, (n - 1) / 256];
      BufferWriteByte(mode);
      assert writeBuffer[..writeCount] == program + head[..1];
      BufferWriteByte((n - 1) % 256);
      assert writeBuffer[..writeCount] == program + head[..2];
      BufferWriteByte((n - 1) / 256);
      assert writeBuffer[..writeCount] == program + head;
      payload := EmitPayload(out, outOffset, into != null, 8 * n);
      if into != null {
        BufferAddRead(into, intoOffset, 8 * n, 0);
      }
      assert program + head + payload == program + (head + payload);
    }

    /** One byte-mode command: `n` whole bytes. */
    method ClockBytes(mode: byte, out: array?<byte>, outOffset: nat, into: array?<byte>, intoOffset: nat, n: nat)
      requires Consistent() && 1 <= n <= 65536
      requires HasFlags(mode, false, out != null || into == null, into != null, false)
      requires WriteSpace() >= 3 + (if out != null || into == null then n else 0)
      requires into != null ==> n <= ReadSpace() && into in trace.memory && intoOffset + 8 * n <= 8 * into.Length
      requires out != null ==> out != writeBuffer && outOffset + 8 * n <= 8 * out.Length
      modifies this`writeCount, this`readCount, this`readQueue, this`trace, writeBuffer
      ensures Valid() && writeCount == old(writeCount) + 3 + (if out != null || into == null then n else 0)
      ensures readCount == old(readCount) + (if into != null then n else 0)
      ensures Clocked(env, old(trace), trace,
                      old(RequestedTdi(out, outOffset, 8 * n, into != null,
                                       TdiPin(env, trace.total))), into, intoOffset)
    {
      hide Program, CaptureWrites, ExecShift, Exec, CommandLength, Clocks, BufBits, TmsPin, TdiPin, PackBytes, TopBits;
      hide Samples, Captured, HasFlags;
      ghost var program, acts, queue := writeBuffer[..writeCount], trace.total, readQueue;
      ghost var tdi := RequestedTdi(out, outOffset, 8 * n, into != null, TdiPin(env, acts));
      ghost var tms := Repeat(TmsPin(env, acts), 8 * n);
      ghost var payload := EmitBytes(mode, out, outOffset, into, intoOffset, n);
      ghost var cmd := [mode, (n - 1) % 256, (n - 1) / 256] + payload;
      ByteShift(env, acts, mode, out != null || into == null, into != null, n, payload);
      ghost var r := Exec(env, acts, cmd).reply;
      Commit(program, queue, cmd, tms, tdi, r, 0, into, intoOffset, 0);
    }

    /** The bytes of one bit-mode command. */
    method EmitBits(mode: byte, out: array?<byte>, outOffset: nat, into: array?<byte>, intoOffset: nat, n: nat)
      returns (ghost payload: seq<byte>)
      requires 1 <= n < 8
      requires writeCount + 2 + (if out != null || into == null then 1 else 0) <= writeBuffer.Length
      requires into != null ==> ReadSpace() >= 1
      requires out != null ==> out != writeBuffer && outOffset + n <= 8 * out.Length
      modifies this`writeCount, this`readCount, this`readQueue, writeBuffer
      ensures writeCount == old(writeCount) + 2 + |payload| <= writeBuffer.Length
      ensures writeBuffer[..writeCount] == old(writeBuffer[..writeCount]) + ([Or(mode, 1, true), n - 1] + payload)
      ensures |payload| == if out != null || into == null then 1 else 0
      ensures out != null ==> BufBits(payload, 0, n) == old(BufBits(out[..], outOffset, n))
      ensures out == null && into == null ==> BufBits(payload, 0, n) == Repeat(false, n)
      ensures into == null ==> readQueue == old(readQueue) && readCount == old(readCount)
      ensures into != null ==>
        && readQueue == old(readQueue) + [Entry(into, intoOffset, old(readCount), 8 - n, n)]
        && readCount == old(readCount) + 1
    {
      hide BufBits, SetBit;
      ghost var program, head := writeBuffer[..writeCount], [Or(mode, 1, true), n - 1];
      BufferWriteByte(Or(mode, 1, true));
      BufferWriteByte(n - 1);
      assert writeBuffer[..writeCount] == program + head;
      payload := EmitPayload(out, outOffset, into != null, n);
      if into != null {
        BufferAddRead(into, intoOffset, n, 8 - n);
      }
      assert program + head + payload == program + (head + payload);
    }

    /** One bit-mode command: fewer than eight bits. */
    method ClockBits(mode: byte, out: array?<byte>, outOffset: nat, into: array?<byte>, intoOffset: nat, n: nat)
      requires Consistent() && 1 <= n < 8
      requires HasFlags(Or(mode, 1, true), true, out != null || into == null, into != null, false)
      requires WriteSpace() >= 2 + (if out != null || into == null then 1 else 0)
      requires into != null ==> ReadSpace() >= 1 && into in trace.memory && intoOffset + n <= 8 * into.Length
      requires out != null ==> out != writeBuffer && outOffset + n <= 8 * out.Length
      modifies this`writeCount, this`readCount, this`readQueue, this`trace, writeBuffer
      ensures Valid() && writeCount == old(writeCount) + (if out != null || into == null then 3 else 2)
      ensures readCount == old(readCount) + (if into != null then 1 else 0)
      ensures Clocked(env, old(trace), trace,
                      old(RequestedTdi(out, outOffset, n, into != null, TdiPin(env, trace.total))), into, intoOffset)
    {
      hide Program, CaptureWrites, ExecShift, Exec, CommandLength, Clocks, BufBits, TmsPin, TdiPin, PackBytes, TopBits;
      hide Samples, Captured, Or;
      ghost var program, acts, queue := writeBuffer[..writeCount], trace.total, readQueue;
      ghost var tdi := RequestedTdi(out, outOffset, n, into != null, TdiPin(env, acts));
      ghost var tms := Repeat(TmsPin(env, acts), n);
      ghost var payload := EmitBits(mode, out, outOffset, into, intoOffset, n);
      ghost var cmd := [Or(mode, 1, true), n - 1] + payload;
      BitShift(env, acts, Or(mode, 1, true), out != null || into == null, into != null, n, payload);
      ghost var r := Exec(env, acts, cmd).reply;
      Commit(program, queue, cmd, tms, tdi, r, env.noise(acts), into, intoOffset, 8 - n);
    }

    method BufferWriteZeros(n: nat)
      requires writeCount + n <= writeBuffer.Length
      modifies writeBuffer, this`writeCount
      ensures writeCount == old(writeCount) + n
      ensures writeBuffer[..old(writeCount)] == old(writeBuffer[..writeCount])
      ensures forall k :: old(writeCount) <= k < writeCount ==> writeBuffer[k] == 0
    {
      ghost var at := writeCount;
      for i := 0 to n
        invariant writeCount == at + i
        invariant writeBuffer[..at] == old(writeBuffer[..writeCount])
        invariant forall k :: at <= k < writeCount ==> writeBuffer[k] == 0
      {
        ghost var before := writeBuffer[..writeCount];
        BufferWriteByte(0x00);
        assert forall k :: 0 <= k < at + i ==> writeBuffer[..writeCount][k] == before[k];
        assert writeBuffer[..writeCount][at + i] == 0;
        assert writeBuffer[..at] == before[..at];
      }
    }

    /** `ctx->retval = mpsse_flush(ctx)` in the middle of an operation that has still to send bits `lo`
        to `hi` of `out`. */
    method FlushForSpace(ghost mem: map<array<byte>, seq<byte>>, ghost log0: seq<Write>, ghost out: array?<byte>,
                         ghost lo: nat, ghost hi: nat)
      requires Valid() && mem.Keys == trace.memory
      requires log0 <= trace.log && Holds(mem, trace.log[|log0|..])
      requires out != null ==> hi <= 8 * out.Length && out != writeBuffer && out != readBuffer && out != readChunk
      modifies this, writeBuffer, readBuffer, readChunk, trace.memory
      ensures Consistent() && trace.memory == old(trace.memory)
      ensures old(retval) != ERROR_OK ==> aborted && Valid() && retval == old(retval) && trace == old(trace)
      ensures old(retval) == ERROR_OK ==>
        && !aborted && writeCount == 0 && readCount == 0 && trace.caps == []
        && trace.jobs == old(trace.jobs) + FlushPlan(SizesOf(), old(writeCount), old(readCount)).jobs
        && (retval == ERROR_OK <==> AllServed(usb, |old(trace.jobs)|,
                                              FlushPlan(SizesOf(), old(writeCount), old(readCount)).jobs))
      ensures !trace.pending ==>
        && !old(trace.pending)
        && trace.total == old(trace.total)
        && trace.Owed(env) == old(trace.Owed(env))
      ensures log0 <= old(trace.log) <= trace.log && Holds(mem, trace.log[|log0|..]) && old(trace.jobs) <= trace.jobs
      ensures !trace.pending && out != null && Spared(old(trace.caps), out, lo, hi) ==>
        forall i :: lo <= i < hi ==> BufBit(out[..], i) == old(BufBit(out[..], i))
    {
      hide Program, CaptureWrites, Stored, BufBit, AllServed;
      ghost var before, bits := trace, if out == null then [] else out[..];
      retval := Flush();
      trace := trace.(pending := retval != ERROR_OK);
      NoCaptures(env, trace.total);
      assert trace.log + [] == trace.log;
      ghost var ws := trace.log[|before.log|..];
      forall a | a in mem ensures a[..] == Stored(a, mem[a], trace.log[|log0|..]) {
        StoredSplit(a, mem[a], old(a[..]), a[..], log0, before.log, trace.log);
      }
      if !trace.pending && out != null && Spared(before.caps, out, lo, hi) {
        assert trace.log == before.Owed(env);
        assert ws == CaptureWrites(env, before.total, before.caps);
        forall i | lo <= i < hi ensures BufBit(out[..], i) == BufBit(bits, i) {
          CapturesMiss(env, before.total, before.caps, out, i);
          StoredUntouched(out, bits, ws, i);
        }
      }
    }

    lemma PendingMeansError()
      requires Valid()
      ensures trace.pending == (retval != ERROR_OK)
    {
    }

    /** Reads are only ever owed to buffers that have been handed over. */
    lemma CapturesAreKnown()
      requires Valid()
      ensures forall c :: c in trace.caps ==> c.cell.buf in trace.memory
    {
      hide Program, CaptureWrites;
      CaptureTargets(env, device, writeBuffer[..writeCount], readQueue, trace.total, trace.reply, trace.caps,
                     trace.memory);
    }

    lemma AbortedMeansError()
      requires Valid()
      ensures (aborted ==> retval != ERROR_OK) && SizesOf().Ok()
    {
    }

    /** No reply is due before there is a command. */
    lemma NoReplyWithoutCommand()
      requires Consistent()
      ensures writeCount == 0 ==> readCount == 0
    {
      hide Program;
      if writeCount == 0 {
        assert writeBuffer[..0] == [];
        NothingQueued(env, device, readQueue, trace.total, trace.reply, trace.caps);
      }
    }

    /** None of those bits of `out` is the destination of an outstanding read. */
    ghost predicate Spared(caps: seq<Capture>, out: array<byte>, lo: nat, hi: nat) {
      forall c :: c in caps && c.cell.buf == out ==> !(lo <= c.cell.bit < hi)
    }

    /** Not one of the driver's own buffers. */
    ghost predicate Foreign(a: array?<byte>) {
      a != writeBuffer && a != readBuffer && a != readChunk
    }

    /** What the request `q` has done when the bits `sent` of it are in the command buffer or gone. */
    ghost predicate SoFar(q: Request, sent: seq<bool>)
      requires q.Fits() && |sent| <= |q.asked|
      reads this, writeBuffer, q.mem.Keys, q.out
    {
      && Consistent() && !aborted && trace.memory == q.mem.Keys
      && q.before.log <= trace.log && Holds(q.mem, trace.log[|q.before.log|..])
      && (q.out != null ==> q.out[..] == q.Source(trace.log[|q.before.log|..]))
      && (!trace.pending ==> !q.before.pending && Progress(q, trace, sent))
      && (!trace.pending && q.Calm() && q.out != null ==> ToBeSent(q, q.out[..], |sent|))
    }

    /** The clocks, what is owed for them, and where their bits come from. */
    ghost predicate Progress(q: Request, now: Trace, sent: seq<bool>)
      requires q.Fits() && |sent| <= |q.asked| && q.before.log <= now.log
    {
      && Requested(env, q.before, now, q.Tms(sent), q.Tdi(sent), q.into, q.intoOffset)
      && Waiting(q.before, now, q.into, q.intoOffset, |sent|)
      && q.SentFrom(now.log[|q.before.log|..], sent)
      && (q.Calm() ==> sent == q.asked[..|sent|])
    }

    /** From bit `p` of the request on, `out` holds what it held at the start. */
    ghost predicate ToBeSent(q: Request, held: seq<byte>, p: nat)
      requires q.Fits() && q.out != null && |held| == |q.was|
    {
      forall i :: q.outOffset + p <= i < q.outOffset + |q.asked| ==> BufBit(held, i) == BufBit(q.was, i)
    }

    /** The space check at the head of both clocking loops: room for `need` bytes and one reply byte. */
    method MakeSpace(ghost q: Request, ghost sent: seq<bool>, reading: bool, need: nat)
      requires Valid() && q.Fits() && Foreign(q.out) && |sent| <= |q.asked| && SoFar(q, sent)
      requires need <= 4 && reading == (q.into != null)
      requires q.whole.jobs == [] ==> RoomPlan(SizesOf(), writeCount, readCount, need, reading).jobs == []
      modifies this, writeBuffer, readBuffer, readChunk, trace.memory
      ensures aborted <==>
        old(retval) != ERROR_OK && RoomPlan(SizesOf(), old(writeCount), old(readCount), need, reading).jobs != []
      ensures aborted ==>
        && Valid() && trace.pending && retval != ERROR_OK && trace.jobs == old(trace.jobs)
        && q.before.log <= trace.log && Holds(q.mem, trace.log[|q.before.log|..])
      ensures !aborted ==>
        && SoFar(q, sent)
        && Plan(trace.jobs, writeCount, readCount)
           == Then(Plan(old(trace.jobs), 0, 0), RoomPlan(SizesOf(), old(writeCount), old(readCount), need, reading))
      ensures trace.memory == q.mem.Keys
      ensures if old(retval) == ERROR_OK then
        var room := RoomPlan(SizesOf(), old(writeCount), old(readCount), need, reading);
          retval == ERROR_OK <==> AllServed(usb, |old(trace.jobs)|, room.jobs)
        else retval != ERROR_OK
    {
      hide Program, CaptureWrites, Stored, Clocks, BufBits, BufBit, TmsPin, TdiPin, Requested, AllServed;
      NoReplyWithoutCommand();
      NoneServed(usb, |trace.jobs|);
      if WriteSpace() < need || (reading && ReadSpace() < 1) {
        ghost var was, p := trace, |sent|;
        FlushForSpace(q.mem, q.before.log, q.out, q.outOffset + p, q.outOffset + |q.asked|);
        SourceAfter(q);
        if !aborted && !trace.pending {
          RequestedSame(env, q.before, was, trace, q.Tms(sent), q.Tdi(sent), q.into, q.intoOffset);
          if q.out != null {
            HeldStill(q.out, q.was, q.outOffset, q.mem.Keys, was.log[|q.before.log|..], trace.log[|q.before.log|..],
                      sent);
          }
          SparedIfCalm(q, was, p);
        }
      }
    }

    lemma SourceAfter(q: Request)
      requires q.Fits() && q.before.log <= trace.log && Holds(q.mem, trace.log[|q.before.log|..])
      requires q.out != null && q.out !in q.mem ==> q.out[..] == q.was
      ensures q.out != null ==> q.out[..] == q.Source(trace.log[|q.before.log|..])
    {
      hide Stored;
    }

    lemma SparedIfCalm(q: Request, was: Trace, p: nat)
      requires q.Fits() && p <= |q.asked| && Waiting(q.before, was, q.into, q.intoOffset, p)
      ensures q.out != null && Undisturbed(q.before.caps, q.out, q.outOffset, q.into, q.intoOffset, |q.asked|) ==>
        Spared(was.caps, q.out, q.outOffset + p, q.outOffset + |q.asked|)
    {
    }

    /** One command of the loop of `mpsse_clock_data`, of `n` bits. */
    method DataEmit(out: array?<byte>, outOffset: nat, into: array?<byte>, intoOffset: nat, length: nat, mode: byte)
      returns (n: nat)
      requires length > 0 && Consistent()
      requires HasFlags(mode, false, out != null || into == null, into != null, false)
      requires HasFlags(Or(mode, 1, true), true, out != null || into == null, into != null, false)
      requires out != null ==> out != writeBuffer && outOffset + length <= 8 * out.Length
      requires into != null ==> into in trace.memory && intoOffset + length <= 8 * into.Length
      requires HasRoom(SizesOf(), writeCount, readCount, DataNeed(length, out != null || into == null), into != null)
      modifies this`writeCount, this`readCount, this`readQueue, this`trace, writeBuffer
      ensures Valid() && 0 < n <= length
      ensures Turn(n, writeCount, readCount)
           == DataTurn(SizesOf(), old(writeCount), old(readCount), length, out != null || into == null, into != null)
      ensures Clocked(env, old(trace), trace,
                      old(RequestedTdi(out, outOffset, n, into != null, TdiPin(env, trace.total))), into, intoOffset)
    {
      hide Program, CaptureWrites, Stored, Clocks, BufBits, BufBit, TmsPin, TdiPin, HasFlags, Or, RequestedTdi, Clocked;
      hide Consistent;
      if length < 8 {
        n := length;
        ClockBits(mode, out, outOffset, into, intoOffset, length);
      } else {
        var thisBytes := length / 8;
        if thisBytes > 65536 {
          thisBytes := 65536;
        }
        if (out != null || into == null) && thisBytes + 3 > WriteSpace() {
          thisBytes := WriteSpace() - 3;
        }
        if into != null && thisBytes > ReadSpace() {
          thisBytes := ReadSpace();
        }
        n := 8 * thisBytes;
        if thisBytes > 0 {
          ClockBytes(mode, out, outOffset, into, intoOffset, thisBytes);
        }
      }
    }

    /** The lines during a data request: TMS is held, and so is TDI when there is nothing to send but TDO is read. */
    ghost predicate ForData(q: Request) {
      && !q.onTms && q.level == TmsPin(env, q.before.total)
      && (q.out == null ==> q.asked == Repeat(if q.into == null then false else TdiPin(env, q.before.total), |q.asked|))
    }

    /** And its place in the request: after the bits `sent`, `part` of it is sent. */
    method DataCommand(ghost q: Request, ghost sent: seq<bool>, out: array?<byte>, outOffset: nat, into: array?<byte>,
                       intoOffset: nat, length: nat, mode: byte)
      returns (n: nat, ghost part: seq<bool>)
      requires HasFlags(mode, false, out != null || into == null, into != null, false)
      requires HasFlags(Or(mode, 1, true), true, out != null || into == null, into != null, false)
      requires q.Fits() && q.out == out && q.into == into && Foreign(out) && ForData(q)
      requires |sent| + length == |q.asked| && length > 0 && SoFar(q, sent)
      requires out != null ==> outOffset == q.outOffset + |sent|
      requires into != null ==> intoOffset == q.intoOffset + |sent|
      requires HasRoom(SizesOf(), writeCount, readCount, DataNeed(length, out != null || into == null), into != null)
      modifies this`writeCount, this`readCount, this`readQueue, this`trace, writeBuffer
      ensures Valid() && n == |part| && 0 < n <= length && trace.jobs == old(trace.jobs)
      ensures trace.memory == old(trace.memory)
      ensures Turn(n, writeCount, readCount)
           == DataTurn(SizesOf(), old(writeCount), old(readCount), length, out != null || into == null, into != null)
      ensures SoFar(q, sent + part)
    {
      hide Program, CaptureWrites, Stored, Clocks, BufBits, BufBit, TmsPin, TdiPin, HasFlags, Or, Requested, Waiting;
      hide Samples, Captured, DataTurn, q.Source;
      ghost var mid, held := trace, TdiPin(env, trace.total);
      n := DataEmit(out, outOffset, into, intoOffset, length, mode);
      part := old(RequestedTdi(out, outOffset, n, into != null, held));
      if !trace.pending {
        DataPart(q, mid, sent, part, if out == null then [] else old(out[..]));
        Extended(q, mid, trace, sent, part, intoOffset);
      }
    }

    /** The bits that a data command takes. */
    lemma DataPart(q: Request, mid: Trace, sent: seq<bool>, part: seq<bool>, held: seq<byte>)
      requires q.Fits() && ForData(q) && |sent| + |part| <= |q.asked| && q.before.log <= mid.log
      requires Progress(q, mid, sent)
      requires q.out != null ==>
        && |held| == |q.was|
        && held == q.Source(mid.log[|q.before.log|..])
        && part == BufBits(held, q.outOffset + |sent|, |part|)
        && (q.Calm() ==> ToBeSent(q, held, |sent|))
      requires q.out == null ==> part == Repeat(if q.into == null then false else TdiPin(env, mid.total), |part|)
      ensures TmsPin(env, mid.total) == q.level
      ensures q.SentFrom(mid.log[|q.before.log|..], sent + part)
      ensures q.Calm() ==> sent + part == q.asked[..|sent + part|]
    {
      hide CaptureWrites, Clocks, Samples, TmsPin, TdiPin, BufBit, Later, HeldOnTheWay;
      PinsAfterClocks(env, q.before.total, q.Tms(sent), q.Tdi(sent));
      if q.out != null {
        HeldNow(q.out, q.was, q.outOffset, q.mem.Keys, mid.log[|q.before.log|..], sent, part);
        if q.Calm() {
          AskedPart(q, sent, part, held);
        }
      }
    }

    lemma AskedPart(q: Request, sent: seq<bool>, part: seq<bool>, held: seq<byte>)
      requires q.Fits() && q.out != null && |held| == |q.was| && |sent| + |part| <= |q.asked|
      requires part == BufBits(held, q.outOffset + |sent|, |part|)
      requires ToBeSent(q, held, |sent|) && sent == q.asked[..|sent|]
      ensures sent + part == q.asked[..|sent + part|]
    {
      hide BufBit;
      forall k | 0 <= k < |part| ensures part[k] == q.asked[|sent| + k] {
        assert part[k] == BufBit(held, q.outOffset + (|sent| + k));
      }
    }

    /** The clocks of a command join those before it. */
    lemma Extended(q: Request, mid: Trace, after: Trace, sent: seq<bool>, part: seq<bool>, at: nat)
      requires q.Fits() && |sent| + |part| <= |q.asked| && (q.into != null ==> at == q.intoOffset + |sent|)
      requires q.before.log <= mid.log == after.log && Progress(q, mid, sent)
      requires after.total == mid.total + Clocks(q.Tms(part), q.Tdi(part)) && Captured(env, mid, after, q.into, at)
      requires q.SentFrom(mid.log[|q.before.log|..], sent + part)
      requires q.Calm() ==> sent + part == q.asked[..|sent + part|]
      ensures Progress(q, after, sent + part)
    {
      hide CaptureWrites, Clocks, Samples, q.SentFrom, q.Calm, q.Fits;
      RequestedJoin(env, q.before, mid, after, q.Tms(sent), q.Tdi(sent), q.Tms(part), q.Tdi(part), q.into, q.intoOffset,
                    at);
      assert q.Tms(sent) + q.Tms(part) == q.Tms(sent + part) && q.Tdi(sent) + q.Tdi(part) == q.Tdi(sent + part);
    }

    /** One turn of the loop of `mpsse_clock_data`. */
    method DataStep(ghost q: Request, ghost sent: seq<bool>, out: array?<byte>, outOffset: nat, into: array?<byte>,
                    intoOffset: nat, length: nat, mode: byte)
      returns (n: nat, ghost part: seq<bool>)
      requires Valid() && !aborted && SizesOf().Ok()
      requires HasFlags(mode, false, out != null || into == null, into != null, false)
      requires HasFlags(Or(mode, 1, true), true, out != null || into == null, into != null, false)
      requires q.Fits() && q.out == out && q.into == into && Foreign(out) && ForData(q)
      requires |sent| + length == |q.asked| && length > 0 && SoFar(q, sent)
      requires out != null ==> outOffset == q.outOffset + |sent|
      requires into != null ==> intoOffset == q.intoOffset + |sent|
      requires Underway(usb, q.before.jobs, trace.jobs, retval == ERROR_OK, q.whole,
                        DataPlan(SizesOf(), writeCount, readCount, length, out != null || into == null, into != null))
      modifies this, writeBuffer, readBuffer, readChunk, trace.memory
      ensures Valid() && trace.memory == q.mem.Keys
      ensures aborted ==>
        && trace.pending && q.before.log <= trace.log && Holds(q.mem, trace.log[|q.before.log|..])
        && Followed(usb, q.before.jobs, q.whole, trace.jobs, false, true, writeCount, readCount)
      ensures !aborted ==>
        && n == |part| && 0 < n <= length && SoFar(q, sent + part)
        && Underway(usb, q.before.jobs, trace.jobs, retval == ERROR_OK, q.whole,
                    DataPlan(SizesOf(), writeCount, readCount, length - n, out != null || into == null, into != null))
    {
      hide Program, CaptureWrites, Stored, BufBits, BufBit, TmsPin, TdiPin, HasFlags, Or, Requested, Waiting;
      hide AllServed, Underway, Followed, DataTurn, DataPlan, RoomPlan, SoFar, Consistent, ForData, q.Fits;
      n, part := 0, [];
      var need := (if out != null || into == null then 4 else 3) - (if length < 8 then 1 else 0);
      ghost var jobs1, ok1, w1, r1 := trace.jobs, retval == ERROR_OK, writeCount, readCount;
      ghost var s, sending, reading := SizesOf(), out != null || into == null, into != null;
      DataStepTaken(usb, s, q.before.jobs, jobs1, ok1, q.whole, w1, r1, length, sending, reading, jobs1, ok1);
      MakeSpace(q, sent, into != null, need);
      if aborted {
        Stopped(usb, q.before.jobs, jobs1, q.whole, DataPlan(s, w1, r1, length, sending, reading), writeCount,
                readCount);
      } else {
        DataStepTaken(usb, s, q.before.jobs, jobs1, ok1, q.whole, w1, r1, length, sending, reading, trace.jobs,
                      retval == ERROR_OK);
        n, part := DataCommand(q, sent, out, outOffset, into, intoOffset, length, mode);
      }
    }

    /** `targets` become known as destinations. */
    ghost method Adopt(targets: set<array<byte>>) returns (mem: map<array<byte>, seq<byte>>)
      requires Valid()
      requires writeBuffer !in targets && readBuffer !in targets && readChunk !in targets
      modifies this`trace
      ensures Valid() && trace == old(trace).(memory := old(trace.memory) + targets)
      ensures trace.Owed(env) == old(trace.Owed(env))
      ensures mem.Keys == trace.memory && (forall a :: a in mem ==> mem[a] == a[..])
      ensures trace.log[|trace.log|..] == [] && Holds(mem, [])
      ensures trace.pending == (retval != ERROR_OK) && (aborted ==> retval != ERROR_OK) && SizesOf().Ok()
    {
      hide Program, CaptureWrites;
      trace := trace.(memory := trace.memory + targets);
      mem := map a | a in trace.memory :: a[..];
    }

    /** What a clocking operation promises about its request when it is done, or has been stopped by the
        assertion in `mpsse_flush`. */
    ghost predicate Ended(q: Request, sent: seq<bool>)
      requires q.Fits()
      reads this, writeBuffer, q.mem.Keys
    {
      && Valid() && trace.memory == q.mem.Keys
      && Followed(usb, q.before.jobs, q.whole, trace.jobs, retval == ERROR_OK, aborted, writeCount, readCount)
      && q.before.log <= trace.log && Holds(q.mem, trace.log[|q.before.log|..])
      && (!trace.pending ==> |sent| == |q.asked| && !q.before.pending && Progress(q, trace, sent))
    }

    /** The loop of `mpsse_clock_data`. */
    method DataLoop(ghost q: Request, out: array?<byte>, outOffset0: nat, into: array?<byte>, intoOffset0: nat,
                    length0: nat, mode: byte)
      returns (ghost sent: seq<bool>)
      requires Valid() && !aborted && retval == ERROR_OK && SizesOf().Ok()
      requires HasFlags(mode, false, out != null || into == null, into != null, false)
      requires HasFlags(Or(mode, 1, true), true, out != null || into == null, into != null, false)
      requires q.Fits() && q.out == out && q.into == into && Foreign(out) && ForData(q)
      requires q.outOffset == outOffset0 && q.intoOffset == intoOffset0 && |q.asked| == length0
      requires SoFar(q, []) && q.before.jobs == trace.jobs
      requires q.whole == DataPlan(SizesOf(), writeCount, readCount, length0, out != null || into == null, into != null)
      modifies this, writeBuffer, readBuffer, readChunk, trace.memory
      ensures Ended(q, sent)
    {
      hide Program, CaptureWrites, Stored, Clocks, BufBits, BufBit, TmsPin, TdiPin, Or, HasFlags, Requested, Waiting;
      hide Consistent, AllServed, Underway, UpToFailure, DataPlan, ForData, Followed, q.Fits;
      ghost var sending, reading := out != null || into == null, into != null;
      Begin(usb, q.before.jobs, q.whole);
      var outOffset, intoOffset, length := outOffset0, intoOffset0, length0;
      sent := [];
      while length > 0
        invariant 0 <= length && |sent| + length == length0 && 0 <= outOffset && 0 <= intoOffset
        invariant out != null ==> outOffset == outOffset0 + |sent|
        invariant into != null ==> intoOffset == intoOffset0 + |sent|
        invariant Valid() && SoFar(q, sent)
        invariant Underway(usb, q.before.jobs, trace.jobs, retval == ERROR_OK, q.whole,
                           DataPlan(SizesOf(), writeCount, readCount, length, sending, reading))
      {
        var n: nat;
        ghost var part;
        n, part := DataStep(q, sent, out, outOffset, into, intoOffset, length, mode);
        PendingMeansError();
        if aborted {
          return;
        }
        length := length - n;
        outOffset := outOffset + n;
        intoOffset := intoOffset + n;
        sent := sent + part;
      }
      DataPlanEnds(SizesOf(), writeCount, readCount, sending, reading);
      Done(usb, q.before.jobs, trace.jobs, retval == ERROR_OK, q.whole, writeCount, readCount);
    }

    /** At the start nothing of the request is done. */
    lemma NothingSoFar(q: Request)
      requires Valid() && !aborted && q.Fits() && trace == q.before.(memory := q.mem.Keys) && !trace.pending
      requires forall a :: a in q.mem ==> q.mem[a] == a[..]
      requires q.out != null ==> q.out[..] == q.was
      ensures SoFar(q, [])
    {
      hide Program, CaptureWrites, Stored;
      RequestedNothing(env, q.before, q.into, q.intoOffset);
      RequestedSame(env, q.before, q.before, trace, [], [], q.into, q.intoOffset);
      assert trace.log[|q.before.log|..] == [] && q.asked[..0] == [];
      assert q.Tms([]) == [] && q.Tdi([]) == [];
      forall a | a in q.mem ensures a[..] == Stored(a, q.mem[a], []) { StoredNone(a, a[..]); }
      if q.out != null {
        StoredNone(q.out, q.was);
      }
    }

    /** An operation begun with an error pending does nothing but learn of its destination. */
    twostate predicate Ignored(targets: set<array<byte>>)
      reads this
    {
      && trace == old(trace).(memory := old(trace.memory) + targets)
      && retval == old(retval)
      && aborted == old(aborted)
      && writeCount == old(writeCount)
      && readCount == old(readCount)
    }

    /** `mpsse_clock_data`: clock `length` bits of data with TMS held. */
    method ClockData(out: array?<byte>, outOffset0: nat, into: array?<byte>, intoOffset0: nat, length0: nat,
                     mode0: byte)
      returns (ghost sent: seq<bool>)
      requires Valid() && LsbMode(mode0)
      requires out != null ==> outOffset0 + length0 <= 8 * out.Length && Foreign(out)
      requires into != null ==> intoOffset0 + length0 <= 8 * into.Length && Foreign(into)
      modifies this, writeBuffer, readBuffer, readChunk, trace.memory, Opt(into)
      ensures Valid() && trace.memory == old(trace.memory) + Opt(into) && trace.pending == (retval != ERROR_OK)
      ensures old(retval) != ERROR_OK ==> Ignored(Opt(into))
      ensures old(retval) == ERROR_OK ==>
        Followed(usb, old(trace.jobs),
          DataPlan(SizesOf(), old(writeCount), old(readCount), length0, out != null || into == null, into != null),
          trace.jobs, retval == ERROR_OK, aborted, writeCount, readCount)
      ensures !trace.pending ==>
        && !old(trace.pending) && |sent| == length0
        && Requested(env, old(trace), trace, Repeat(TmsPin(env, old(trace.total)), length0), sent, into, intoOffset0)
        && Waiting(old(trace), trace, into, intoOffset0, length0)
      // The bits sent are those given, unless a flush of this request changes them first; in that case each is
      // what `out` held at some moment.
      ensures !trace.pending && Untroubled(old(trace.caps), out, outOffset0, into, intoOffset0, length0,
          DataPlan(SizesOf(), old(writeCount), old(readCount), length0, out != null || into == null, into != null)) ==>
        sent == old(RequestedTdi(out, outOffset0, length0, into != null, TdiPin(env, trace.total)))
      ensures !trace.pending && out == null && into == null ==> forall k :: 0 <= k < length0 ==> !sent[k]
      ensures old(trace.log) <= trace.log && old(trace.jobs) <= trace.jobs
      ensures !trace.pending && out != null ==>
        HeldOnTheWay(out, old(out[..]), outOffset0, trace.memory, trace.log[|old(trace.log)|..], sent)
      ensures forall a :: a in trace.memory ==> a[..] == Stored(a, old(a[..]), trace.log[|old(trace.log)|..])
    {
      hide Program, CaptureWrites, Stored, Clocks, BufBits, BufBit, TmsPin, TdiPin, Or, HasFlags, LsbMode, Requested;
      hide Samples;
      hide Captured, Consistent, AllServed, UpToFailure, DataPlan, Waiting;
      ghost var before, was := trace, if out == null then [] else out[..];
      ghost var asked := RequestedTdi(out, outOffset0, length0, into != null, TdiPin(env, before.total));
      ghost var mem := Adopt(Opt(into));
      sent := [];
      if retval != ERROR_OK {
        return;
      }
      ghost var whole := DataPlan(SizesOf(), writeCount, readCount, length0, out != null || into == null, into != null);
      ghost var q := Request(before, mem, false, TmsPin(env, before.total), out, outOffset0, was, into, intoOffset0,
                             asked, whole);
      var mode := Or(Or(mode0, 4, out != null || into == null), 5, into != null);
      DataFlags(mode0, out != null || into == null, into != null);
      NothingSoFar(q);
      sent := DataLoop(q, out, outOffset0, into, intoOffset0, length0, mode);
      PendingMeansError();
    }

    /** One TMS command: at most seven bits of `out`, with TDI constant. */
    method TmsCommand(mode: byte, out: array<byte>, outOffset: nat, into: array?<byte>, intoOffset: nat, n: nat,
                      tdi: bool)
      requires Consistent() && 1 <= n <= 7
      requires HasFlags(mode, true, false, into != null, true)
      requires WriteSpace() >= 3 && outOffset + n <= 8 * out.Length && out != writeBuffer
      requires into != null ==> ReadSpace() >= 1 && into in trace.memory && intoOffset + n <= 8 * into.Length
      modifies this`writeCount, this`readCount, this`readQueue, this`trace, writeBuffer
      ensures Valid() && writeCount == old(writeCount) + 3
      ensures readCount == old(readCount) + (if into != null then 1 else 0)
      ensures trace.total == old(trace.total) + Clocks(old(BufBits(out[..], outOffset, n)), Repeat(tdi, n))
      ensures Captured(env, old(trace), trace, into, intoOffset)
      ensures Untouched(old(trace), trace)
    {
      hide Program, CaptureWrites, ExecShift, Exec, CommandLength, Clocks, BufBits, BufBit, Bit, TopBits, PackBytes;
      hide Samples, Captured, Or, Copied, HasFlags;
      ghost var program, acts, queue, tms := writeBuffer[..writeCount], trace.total, readQueue,
                                             BufBits(out[..], outOffset, n);
      ghost var from := out[..];
      var data := new byte[1][0];
      assert data[..] == [0];
      BufSetBuf(out, outOffset, data, 0, n);
      TmsByte(from, outOffset, n, data[..], tdi);
      assert data[..] == [data[0]];
      var last := Or(data[0], 7, tdi);
      ghost var cmd := [mode, n - 1, last];
      BufferWriteByte(mode);
      assert writeBuffer[..writeCount] == program + cmd[..1];
      BufferWriteByte(n - 1);
      assert writeBuffer[..writeCount] == program + cmd[..2];
      BufferWriteByte(last);
      assert writeBuffer[..writeCount] == program + cmd;
      if into != null {
        BufferAddRead(into, intoOffset, n, 8 - n);
      }
      TmsShift(env, acts, mode, into != null, n, last);
      ghost var r := Exec(env, acts, cmd).reply;
      Commit(program, queue, cmd, tms, Repeat(tdi, n), r, env.noise(acts), into, intoOffset, 8 - n);
    }

    /** One turn of the loop of `mpsse_clock_tms_cs`. */
    method TmsStep(ghost q: Request, ghost sent: seq<bool>, out: array<byte>, outOffset: nat, into: array?<byte>,
                   intoOffset: nat,
                   length: nat, tdi: bool, mode: byte)
      returns (n: nat, ghost part: seq<bool>)
      requires Valid() && !aborted && SizesOf().Ok()
      requires HasFlags(mode, true, false, into != null, true)
      requires q.Fits() && q.onTms && q.level == tdi && q.out == out && q.into == into && Foreign(out)
      requires |sent| + length == |q.asked| && length > 0 && SoFar(q, sent)
      requires outOffset == q.outOffset + |sent| && (into != null ==> intoOffset == q.intoOffset + |sent|)
      requires Underway(usb, q.before.jobs, trace.jobs, retval == ERROR_OK, q.whole,
                        TmsPlan(SizesOf(), writeCount, readCount, length, into != null))
      modifies this, writeBuffer, readBuffer, readChunk, trace.memory
      ensures Valid() && trace.memory == q.mem.Keys
      ensures aborted ==>
        && trace.pending && q.before.log <= trace.log && Holds(q.mem, trace.log[|q.before.log|..])
        && Followed(usb, q.before.jobs, q.whole, trace.jobs, false, true, writeCount, readCount)
      ensures !aborted ==>
        && n == |part| && 0 < n <= length && SoFar(q, sent + part)
        && Underway(usb, q.before.jobs, trace.jobs, retval == ERROR_OK, q.whole,
                    TmsPlan(SizesOf(), writeCount, readCount, length - n, into != null))
    {
      hide Program, CaptureWrites, Stored, BufBits, BufBit, HasFlags, Or, Requested, Waiting, Samples, Captured, Clocks;
      hide AllServed, Underway, Followed, TmsPlan, RoomPlan, SoFar, Consistent, q.Fits;
      n, part := 0, [];
      ghost var jobs1, ok1, w1, r1 := trace.jobs, retval == ERROR_OK, writeCount, readCount;
      TmsStepTaken(usb, SizesOf(), q.before.jobs, jobs1, ok1, q.whole, w1, r1, length, into != null, jobs1, ok1);
      MakeSpace(q, sent, into != null, 3);
      if aborted {
        Stopped(usb, q.before.jobs, jobs1, q.whole, TmsPlan(SizesOf(), w1, r1, length, into != null), writeCount,
                readCount);
        return;
      }
      TmsStepTaken(usb, SizesOf(), q.before.jobs, jobs1, ok1, q.whole, w1, r1, length, into != null, trace.jobs,
                   retval == ERROR_OK);
      n, part := SomeTms(q, sent, out, outOffset, into, intoOffset, length, tdi, mode);
    }

    /** The command of such a turn. */
    method SomeTms(ghost q: Request, ghost sent: seq<bool>, out: array<byte>, outOffset: nat, into: array?<byte>,
                   intoOffset: nat,
                   length: nat, tdi: bool, mode: byte)
      returns (n: nat, ghost part: seq<bool>)
      requires HasFlags(mode, true, false, into != null, true)
      requires q.Fits() && q.onTms && q.level == tdi && q.out == out && q.into == into && Foreign(out)
      requires |sent| + length == |q.asked| && length > 0 && SoFar(q, sent)
      requires outOffset == q.outOffset + |sent| && (into != null ==> intoOffset == q.intoOffset + |sent|)
      requires HasRoom(SizesOf(), writeCount, readCount, 3, into != null)
      modifies this`writeCount, this`readCount, this`readQueue, this`trace, writeBuffer
      ensures Valid() && n == |part| && 0 < n <= length && trace.jobs == old(trace.jobs)
      ensures trace.memory == old(trace.memory)
      ensures Turn(n, writeCount, readCount) == TmsTurn(old(writeCount), old(readCount), length, into != null)
      ensures SoFar(q, sent + part)
    {
      hide Program, CaptureWrites, Stored, BufBits, BufBit, HasFlags, Or, Requested, Waiting, Samples, Captured, Clocks;
      hide q.Source;
      ghost var mid, held := trace, out[..];
      n := if length > 7 then 7 else length;
      part := BufBits(held, outOffset, n);
      TmsCommand(mode, out, outOffset, into, intoOffset, n, tdi);
      if !trace.pending {
        TmsPart(q, mid, sent, part, held);
        Extended(q, mid, trace, sent, part, intoOffset);
      }
    }

    /** The bits that a TMS command takes. */
    lemma TmsPart(q: Request, mid: Trace, sent: seq<bool>, part: seq<bool>, held: seq<byte>)
      requires q.Fits() && q.out != null && |sent| + |part| <= |q.asked| && q.before.log <= mid.log
      requires Progress(q, mid, sent)
      requires |held| == |q.was| && held == q.Source(mid.log[|q.before.log|..])
      requires part == BufBits(held, q.outOffset + |sent|, |part|) && (q.Calm() ==> ToBeSent(q, held, |sent|))
      ensures q.SentFrom(mid.log[|q.before.log|..], sent + part)
      ensures q.Calm() ==> sent + part == q.asked[..|sent + part|]
    {
      hide CaptureWrites, Clocks, Samples, BufBit, Later, HeldOnTheWay, Requested, Waiting;
      HeldNow(q.out, q.was, q.outOffset, q.mem.Keys, mid.log[|q.before.log|..], sent, part);
      if q.Calm() {
        AskedPart(q, sent, part, held);
      }
    }

    /** `mpsse_clock_tms_cs`: clock the bits of `out` on TMS with TDI constant. */
    method ClockTmsCs(out: array<byte>, outOffset0: nat, into: array?<byte>, intoOffset0: nat, length0: nat, tdi: bool,
                      mode0: byte)
      returns (ghost sent: seq<bool>)
      requires Valid() && LsbMode(mode0)
      requires outOffset0 + length0 <= 8 * out.Length && Foreign(out)
      requires into != null ==> intoOffset0 + length0 <= 8 * into.Length && Foreign(into)
      modifies this, writeBuffer, readBuffer, readChunk, trace.memory, Opt(into)
      ensures Valid() && trace.memory == old(trace.memory) + Opt(into) && trace.pending == (retval != ERROR_OK)
      ensures old(retval) != ERROR_OK ==> Ignored(Opt(into))
      ensures old(retval) == ERROR_OK ==>
        Followed(usb, old(trace.jobs), TmsPlan(SizesOf(), old(writeCount), old(readCount), length0, into != null),
          trace.jobs, retval == ERROR_OK, aborted, writeCount, readCount)
      ensures !trace.pending ==>
        && !old(trace.pending) && |sent| == length0
        && Requested(env, old(trace), trace, sent, Repeat(tdi, length0), into, intoOffset0)
        && Waiting(old(trace), trace, into, intoOffset0, length0)
      ensures !trace.pending && Untroubled(old(trace.caps), out, outOffset0, into, intoOffset0, length0,
          TmsPlan(SizesOf(), old(writeCount), old(readCount), length0, into != null)) ==>
        sent == old(BufBits(out[..], outOffset0, length0))
      ensures old(trace.log) <= trace.log && old(trace.jobs) <= trace.jobs
      ensures !trace.pending ==>
        HeldOnTheWay(out, old(out[..]), outOffset0, trace.memory, trace.log[|old(trace.log)|..], sent)
      ensures forall a :: a in trace.memory ==> a[..] == Stored(a, old(a[..]), trace.log[|old(trace.log)|..])
    {
      hide Program, CaptureWrites, Stored, Clocks, BufBits, BufBit, Or, HasFlags, LsbMode, Requested, Samples, Captured;
      hide Consistent, AllServed, UpToFailure, TmsPlan, Waiting;
      ghost var before, was := trace, out[..];
      ghost var mem := Adopt(Opt(into));
      sent := [];
      if retval != ERROR_OK {
        return;
      }
      ghost var whole := TmsPlan(SizesOf(), writeCount, readCount, length0, into != null);
      ghost var q := Request(before, mem, true, tdi, out, outOffset0, was, into, intoOffset0,
                             BufBits(was, outOffset0, length0), whole);
      var mode := Or(Or(Or(mode0, 6, true), 1, true), 5, into != null);
      TmsFlags(mode0, into != null);
      NothingSoFar(q);
      sent := TmsLoop(q, out, outOffset0, into, intoOffset0, length0, tdi, mode);
      PendingMeansError();
    }

    /** The loop of `mpsse_clock_tms_cs`. */
    method TmsLoop(ghost q: Request, out: array<byte>, outOffset0: nat, into: array?<byte>, intoOffset0: nat,
                   length0: nat, tdi: bool,
                   mode: byte)
      returns (ghost sent: seq<bool>)
      requires Valid() && !aborted && retval == ERROR_OK && SizesOf().Ok()
      requires HasFlags(mode, true, false, into != null, true)
      requires q.Fits() && q.onTms && q.level == tdi && q.out == out && q.into == into && Foreign(out)
      requires q.outOffset == outOffset0 && q.intoOffset == intoOffset0 && |q.asked| == length0
      requires SoFar(q, []) && q.before.jobs == trace.jobs
      requires q.whole == TmsPlan(SizesOf(), writeCount, readCount, length0, into != null)
      modifies this, writeBuffer, readBuffer, readChunk, trace.memory
      ensures Ended(q, sent)
    {
      hide Program, CaptureWrites, Stored, Clocks, BufBits, BufBit, Or, HasFlags, Requested, Waiting;
      hide Consistent, AllServed, Underway, UpToFailure, Followed, q.Fits;
      Begin(usb, q.before.jobs, q.whole);
      var outOffset, intoOffset, length := outOffset0, intoOffset0, length0;
      sent := [];
      while length > 0
        invariant 0 <= length && |sent| + length == length0 && 0 <= intoOffset && outOffset == outOffset0 + |sent|
        invariant into != null ==> intoOffset == intoOffset0 + |sent|
        invariant Valid() && SoFar(q, sent)
        invariant Underway(usb, q.before.jobs, trace.jobs, retval == ERROR_OK, q.whole,
                           TmsPlan(SizesOf(), writeCount, readCount, length, into != null))
      {
        var n: nat;
        ghost var part;
        n, part := TmsStep(q, sent, out, outOffset, into, intoOffset, length, tdi, mode);
        PendingMeansError();
        if aborted {
          return;
        }
        length := length - n;
        outOffset := outOffset + n;
        intoOffset := intoOffset + n;
        sent := sent + part;
      }
      Done(usb, q.before.jobs, trace.jobs, retval == ERROR_OK, q.whole, writeCount, readCount);
    }

    /** The check for space before such a command. */
    method RoomFor(need: nat, reading: bool, ghost mem: map<array<byte>, seq<byte>>)
      requires Valid() && retval == ERROR_OK && need <= 4
      requires mem.Keys == trace.memory && forall a :: a in mem ==> mem[a] == a[..]
      modifies this, writeBuffer, readBuffer, readChunk, trace.memory
      ensures Consistent() && trace.memory == old(trace.memory) && !aborted
      ensures HasRoom(SizesOf(), writeCount, readCount, need, reading)
      ensures var room := RoomPlan(SizesOf(), old(writeCount), old(readCount), need, reading);
        && trace.jobs == old(trace.jobs) + room.jobs
        && (retval == ERROR_OK <==> AllServed(usb, |old(trace.jobs)|, room.jobs))
        && writeCount == room.w && readCount == room.r
      ensures !trace.pending ==> trace.total == old(trace.total) && trace.Owed(env) == old(trace.Owed(env))
      ensures old(trace.log) <= trace.log && Holds(mem, trace.log[|old(trace.log)|..])
    {
      hide Program, CaptureWrites, Stored, AllServed;
      NoneServed(usb, |trace.jobs|);
      assert trace.log[|trace.log|..] == [];
      forall a: array<byte> | a in trace.memory ensures Stored(a, a[..], []) == a[..] { StoredNone(a, a[..]); }
      if WriteSpace() < need || (reading && ReadSpace() < 1) {
        FlushForSpace(mem, trace.log, null, 0, 0);
      }
    }

    /** The common shape of the pin and configuration commands: ignored with an error pending, otherwise
        flush when short of space and add the bytes. */
    method SendCommand(cmd: seq<byte>, ghost act: Action)
      requires Valid() && Plain(cmd, act)
      modifies this, writeBuffer, readBuffer, readChunk, trace.memory
      ensures Valid() && trace.memory == old(trace.memory) && trace.pending == (retval != ERROR_OK)
      ensures old(retval) != ERROR_OK ==> Ignored({})
      ensures old(retval) == ERROR_OK ==>
        Followed(usb, old(trace.jobs), CommandPlan(SizesOf(), old(writeCount), old(readCount), |cmd|, false),
          trace.jobs, retval == ERROR_OK, aborted, writeCount, readCount)
      ensures !trace.pending ==>
        && !old(trace.pending)
        && trace.total == old(trace.total) + [act] && trace.Owed(env) == old(trace.Owed(env))
      ensures old(trace.log) <= trace.log && old(trace.jobs) <= trace.jobs
      ensures forall a :: a in trace.memory ==> a[..] == Stored(a, old(a[..]), trace.log[|old(trace.log)|..])
    {
      hide Program, CaptureWrites, Stored, Exec, CommandLength, Followed, RoomPlan, CommandPlan, AllServed, Plain;
      ghost var jobs0, w0, r0 := trace.jobs, writeCount, readCount;
      PlainExec(env, trace.total, cmd, act);
      ghost var mem := Adopt({});
      if retval != ERROR_OK {
        return;
      }
      RoomFor(|cmd|, false, mem);
      AddPlain(cmd, act);
      CommandFollowed(usb, SizesOf(), jobs0, w0, r0, |cmd|, false, trace.jobs, retval == ERROR_OK, writeCount,
                      readCount);
    }

    method AddPlain(cmd: seq<byte>, ghost act: Action)
      requires Consistent() && Plain(cmd, act) && WriteSpace() >= |cmd|
      modifies this`writeCount, this`trace, writeBuffer
      ensures Valid() && writeCount == old(writeCount) + |cmd|
      ensures Untouched(old(trace), trace)
      ensures trace.total == old(trace.total) + [act] && trace.Owed(env) == old(trace.Owed(env))
    {
      hide Program, CaptureWrites, Stored, Exec, CommandLength, Plain;
      PlainExec(env, trace.total, cmd, act);
      ghost var program := writeBuffer[..writeCount];
      BufferWriteBytes(cmd);
      ProgramGrows(env, device, program, readQueue, trace.total, trace.reply, trace.caps, cmd, trace.total + [act]);
      trace := trace.(total := trace.total + [act]);
    }

    method SetDataBitsLowByte(data: byte, dir: byte)
      requires Valid()
      modifies this, writeBuffer, readBuffer, readChunk, trace.memory
      ensures Valid() && trace.memory == old(trace.memory) && trace.pending == (retval != ERROR_OK)
      ensures old(retval) != ERROR_OK ==> Ignored({})
      ensures old(retval) == ERROR_OK ==>
        Followed(usb, old(trace.jobs), CommandPlan(SizesOf(), old(writeCount), old(readCount), 3, false),
          trace.jobs, retval == ERROR_OK, aborted, writeCount, readCount)
      ensures !trace.pending ==>
        && !old(trace.pending)
        && trace.total == old(trace.total) + [SetLow(data, dir)] && trace.Owed(env) == old(trace.Owed(env))
      ensures old(trace.log) <= trace.log && old(trace.jobs) <= trace.jobs
      ensures forall a :: a in trace.memory ==> a[..] == Stored(a, old(a[..]), trace.log[|old(trace.log)|..])
    {
      hide Stored, CaptureWrites, Followed, CommandPlan, Consistent;
      SendCommand([0x80, data, dir], SetLow(data, dir));
    }

    method SetDataBitsHighByte(data: byte, dir: byte)
      requires Valid()
      modifies this, writeBuffer, readBuffer, readChunk, trace.memory
      ensures Valid() && trace.memory == old(trace.memory) && trace.pending == (retval != ERROR_OK)
      ensures old(retval) != ERROR_OK ==> Ignored({})
      ensures old(retval) == ERROR_OK ==>
        Followed(usb, old(trace.jobs), CommandPlan(SizesOf(), old(writeCount), old(readCount), 3, false),
          trace.jobs, retval == ERROR_OK, aborted, writeCount, readCount)
      ensures !trace.pending ==>
        && !old(trace.pending)
        && trace.total == old(trace.total) + [SetHigh(data, dir)] && trace.Owed(env) == old(trace.Owed(env))
      ensures old(trace.log) <= trace.log && old(trace.jobs) <= trace.jobs
      ensures forall a :: a in trace.memory ==> a[..] == Stored(a, old(a[..]), trace.log[|old(trace.log)|..])
    {
      hide Stored, CaptureWrites, Followed, CommandPlan, Consistent;
      SendCommand([0x82, data, dir], SetHigh(data, dir));
    }

    /** `mpsse_read_data_bits_low_byte` and, with `high`, `mpsse_read_data_bits_high_byte`. */
    method ReadDataBits(high: bool, data: array<byte>)
      requires Valid() && data.Length >= 1 && data != writeBuffer && data != readBuffer && data != readChunk
      modifies this, writeBuffer, readBuffer, readChunk, trace.memory, data
      ensures Valid() && trace.memory == old(trace.memory) + {data} && trace.pending == (retval != ERROR_OK)
      ensures old(retval) != ERROR_OK ==> Ignored({data})
      ensures old(retval) == ERROR_OK ==>
        Followed(usb, old(trace.jobs), CommandPlan(SizesOf(), old(writeCount), old(readCount), 1, true),
          trace.jobs, retval == ERROR_OK, aborted, writeCount, readCount)
      ensures !trace.pending ==>
        && !old(trace.pending)
        && trace.total == old(trace.total) + [if high then ReadHigh else ReadLow]
        && trace.Owed(env) == old(trace.Owed(env))
             + WriteRun(data, 0, BufBits([if high then env.high(old(trace.total)) else env.low(old(trace.total))], 0,
                                         8))
      ensures old(trace.log) <= trace.log && old(trace.jobs) <= trace.jobs
      ensures forall a :: a in trace.memory ==> a[..] == Stored(a, old(a[..]), trace.log[|old(trace.log)|..])
    {
      hide Program, CaptureWrites, Stored, Exec, CommandLength, BufBits, WriteRun, Followed, RoomPlan, CommandPlan;
      hide AllServed;
      ghost var jobs0, w0, r0 := trace.jobs, writeCount, readCount;
      ghost var mem := Adopt({data});
      if retval != ERROR_OK {
        return;
      }
      RoomFor(1, true, mem);
      ReadCommand(high, data);
      CommandFollowed(usb, SizesOf(), jobs0, w0, r0, 1, true, trace.jobs, retval == ERROR_OK, writeCount, readCount);
    }

    method ReadCommand(high: bool, data: array<byte>)
      requires Consistent() && WriteSpace() >= 1 && ReadSpace() >= 1 && data in trace.memory && data.Length >= 1
      modifies this`writeCount, this`readCount, this`readQueue, this`trace, writeBuffer
      ensures Valid() && writeCount == old(writeCount) + 1 && readCount == old(readCount) + 1
      ensures Untouched(old(trace), trace)
      ensures trace.total == old(trace.total) + [if high then ReadHigh else ReadLow]
      ensures trace.Owed(env) == old(trace.Owed(env))
        + WriteRun(data, 0, BufBits([if high then env.high(old(trace.total)) else env.low(old(trace.total))], 0, 8))
    {
      hide Program, CaptureWrites, Stored, Exec, CommandLength, BufBits, WriteRun, PinCaps;
      ghost var e := Entry(data, 0, readCount, 0, 8);
      ReadExec(env, device, writeBuffer[..writeCount], readQueue, trace.total, trace.reply, trace.caps, high, data, e);
      BufferWriteByte(if high then 0x83 else 0x81);
      BufferAddRead(data, 0, 8, 0);
      trace := trace.(total := trace.total + [if high then ReadHigh else ReadLow],
                      reply := trace.reply + [if high then env.high(trace.total) else env.low(trace.total)],
                      caps := trace.caps + PinCaps(data, |trace.total|));
    }

    method LoopbackConfig(enable: bool)
      requires Valid()
      modifies this, writeBuffer, readBuffer, readChunk, trace.memory
      ensures Valid() && trace.memory == old(trace.memory) && trace.pending == (retval != ERROR_OK)
      ensures old(retval) != ERROR_OK ==> Ignored({})
      ensures old(retval) == ERROR_OK ==>
        Followed(usb, old(trace.jobs), CommandPlan(SizesOf(), old(writeCount), old(readCount), 1, false),
          trace.jobs, retval == ERROR_OK, aborted, writeCount, readCount)
      ensures !trace.pending ==>
        && !old(trace.pending)
        && trace.total == old(trace.total) + [Config(if enable then 0x84 else 0x85)]
        && trace.Owed(env) == old(trace.Owed(env))
      ensures old(trace.log) <= trace.log && old(trace.jobs) <= trace.jobs
      ensures forall a :: a in trace.memory ==> a[..] == Stored(a, old(a[..]), trace.log[|old(trace.log)|..])
    {
      hide Stored, CaptureWrites, Followed, CommandPlan, Consistent;
      SendCommand([if enable then 0x84 else 0x85], Config(if enable then 0x84 else 0x85));
    }

    method SetDivisor(divisor: nat)
      requires Valid() && divisor < 65536
      modifies this, writeBuffer, readBuffer, readChunk, trace.memory
      ensures Valid() && trace.memory == old(trace.memory) && trace.pending == (retval != ERROR_OK)
      ensures old(retval) != ERROR_OK ==> Ignored({})
      ensures old(retval) == ERROR_OK ==>
        Followed(usb, old(trace.jobs), CommandPlan(SizesOf(), old(writeCount), old(readCount), 3, false),
          trace.jobs, retval == ERROR_OK, aborted, writeCount, readCount)
      ensures !trace.pending ==>
        && !old(trace.pending)
        && trace.total == old(trace.total) + [Divisor(divisor)] && trace.Owed(env) == old(trace.Owed(env))
      ensures old(trace.log) <= trace.log && old(trace.jobs) <= trace.jobs
      ensures forall a :: a in trace.memory ==> a[..] == Stored(a, old(a[..]), trace.log[|old(trace.log)|..])
    {
      hide Stored, CaptureWrites, Followed, CommandPlan, Consistent;
      SendCommand([0x86, divisor % 256, divisor / 256], Divisor(divisor));
    }

    lemma NothingStored()
      ensures forall a :: a in trace.memory ==> a[..] == Stored(a, a[..], trace.log[|trace.log|..])
    {
      assert trace.log[|trace.log|..] == [];
    }

    /** How the flushes and the error state stand. */
    ghost function At(): Point
      reads this
    {
      Point(trace.jobs, retval == ERROR_OK, writeCount, readCount)
    }

    method DivideBy5Config(enable: bool) returns (rc: int)
      requires Valid()
      modifies this, writeBuffer, readBuffer, readChunk, trace.memory
      ensures Valid() && trace.memory == old(trace.memory) && trace.pending == (retval != ERROR_OK)
      ensures rc == if chip == FT2232C then -4 else 0
      ensures chip == FT2232C || old(retval) != ERROR_OK ==> Ignored({})
      ensures Settles(usb, SizesOf(), old(At()), OptionAsks(chip), At())
      ensures !trace.pending ==>
        && !old(trace.pending) && trace.Owed(env) == old(trace.Owed(env))
        && trace.total == old(trace.total) + (if chip == FT2232C then [] else [Config(if enable then 0x8b else 0x8a)])
      ensures old(trace.log) <= trace.log && old(trace.jobs) <= trace.jobs
      ensures forall a :: a in trace.memory ==> a[..] == Stored(a, old(a[..]), trace.log[|old(trace.log)|..])
    {
      hide Stored, CaptureWrites, Followed, Settles, CommandPlan;
      assert SizesOf().Ok();
      hide Consistent;
      if chip == FT2232C {
        NothingStored();
        SettlesNothing(usb, SizesOf(), At());
        return ERROR_FAIL;
      }
      SendCommand([if enable then 0x8b else 0x8a], Config(if enable then 0x8b else 0x8a));
      FollowedSettles(usb, SizesOf(), old(At()), AskCommand(1, false), At(), aborted);
      return ERROR_OK;
    }

    method RtckConfig(enable: bool) returns (rc: int)
      requires Valid()
      modifies this, writeBuffer, readBuffer, readChunk, trace.memory
      ensures Valid() && trace.memory == old(trace.memory) && trace.pending == (retval != ERROR_OK)
      ensures rc == if chip == FT2232C then -4 else 0
      ensures chip == FT2232C || old(retval) != ERROR_OK ==> Ignored({})
      ensures Settles(usb, SizesOf(), old(At()), OptionAsks(chip), At())
      ensures !trace.pending ==>
        && !old(trace.pending) && trace.Owed(env) == old(trace.Owed(env))
        && trace.total == old(trace.total) + (if chip == FT2232C then [] else [Config(if enable then 0x96 else 0x97)])
      ensures old(trace.log) <= trace.log && old(trace.jobs) <= trace.jobs
      ensures forall a :: a in trace.memory ==> a[..] == Stored(a, old(a[..]), trace.log[|old(trace.log)|..])
    {
      hide Stored, CaptureWrites, Followed, Settles, CommandPlan;
      assert SizesOf().Ok();
      hide Consistent;
      if chip == FT2232C {
        NothingStored();
        SettlesNothing(usb, SizesOf(), At());
        return ERROR_FAIL;
      }
      SendCommand([if enable then 0x96 else 0x97], Config(if enable then 0x96 else 0x97));
      FollowedSettles(usb, SizesOf(), old(At()), AskCommand(1, false), At(), aborted);
      return ERROR_OK;
    }

    /** Its choice of the master clock: without the division by five where that exists and is wanted. */
    method SelectBaseClock(frequency: nat) returns (baseClock: nat)
      requires Valid()
      modifies this, writeBuffer, readBuffer, readChunk, trace.memory
      ensures Valid() && trace.memory == old(trace.memory) && baseClock == BaseClock(chip, frequency)
      ensures trace.pending == (retval != ERROR_OK) && Settles(usb, SizesOf(), old(At()), OptionAsks(chip), At())
      ensures !trace.pending ==>
        && !old(trace.pending) && trace.Owed(env) == old(trace.Owed(env))
        && trace.total == old(trace.total)
             + (if chip == FT2232C then [] else [Config(if baseClock == 60_000_000 then 0x8a else 0x8b)])
      ensures old(trace.log) <= trace.log && old(trace.jobs) <= trace.jobs
      ensures forall a :: a in trace.memory ==> a[..] == Stored(a, old(a[..]), trace.log[|old(trace.log)|..])
    {
      hide CaptureWrites, Consistent, Stored, Settles, OptionAsks;
      var rc := ERROR_FAIL;
      NothingStored();
      if frequency > 60_000_000 / 2 / 65536 {
        rc := DivideBy5Config(false);
      }
      if rc == ERROR_OK {
        baseClock := 60_000_000;
      } else {
        rc := DivideBy5Config(true);
        baseClock := 12_000_000;
      }
    }

    /** `mpsse_set_frequency`. */
    method SetFrequency(frequency: nat) returns (rate: int)
      requires Valid()
      requires BaseClock(chip, frequency) / 2 + frequency - 1 <= 0x7fff_ffff  // the C sum fits an int
      modifies this, writeBuffer, readBuffer, readChunk, trace.memory
      ensures Valid() && trace.memory == old(trace.memory) && trace.pending == (retval != ERROR_OK)
      ensures Settles(usb, SizesOf(), old(At()), FrequencyAsks(chip, frequency), At())
      ensures frequency == 0 ==> rate == if chip == FT2232C then ERROR_FAIL else ERROR_OK
      ensures frequency == 0 && !trace.pending ==>
        trace.total == old(trace.total) + (if chip == FT2232C then [] else [Config(0x96)])
      ensures frequency > 0 ==> rate == RateFor(chip, frequency)
      ensures frequency > 0 ==> Fastest(chip, frequency, rate)
      ensures frequency > 0 && !trace.pending ==>
        && FrequencySet(chip, frequency, old(trace.total), trace.total, rate)
        && (ProgrammedClock(chip, trace.total) == 60_000_000 <==> chip != FT2232C && frequency > 457)
        && trace.total == old(trace.total)
             + (if chip == FT2232C then [] else [Config(0x97), Config(if frequency > 457 then 0x8a else 0x8b)])
             + [Divisor(ProgrammedDivisor(trace.total))]
      ensures !trace.pending ==> !old(trace.pending) && trace.Owed(env) == old(trace.Owed(env))
      ensures old(trace.log) <= trace.log && old(trace.jobs) <= trace.jobs
      ensures forall a :: a in trace.memory ==> a[..] == Stored(a, old(a[..]), trace.log[|old(trace.log)|..])
    {
      hide CaptureWrites, Consistent, Stored, ProgrammedDivisor, ProgrammedClock, Best, DivisorFor, Settles, Followed;
      hide BaseClock, FrequencySet, Fastest;
      ghost var at0 := At();
      if frequency == 0 {
        rate := RtckConfig(true);
        return;
      }
      var rc := RtckConfig(false);
      ghost var at1 := At();
      label L1:
      var baseClock := SelectBaseClock(frequency);
      ghost var at2 := At();
      label L2:
      var half := baseClock / 2;
      ClockChoice(chip, frequency);
      var divisor := DivisorFor(half, frequency);
      SetDivisor(divisor);
      rate := half / (1 + divisor);
      IsFastest(chip, frequency);
      if !trace.pending {
        IsProgrammed(chip, frequency, old(trace.total), divisor, trace.total);
      }
      AbortedMeansError();
      FollowedSettles(usb, SizesOf(), at2, AskCommand(3, false), At(), aborted);
      SettlesThen(usb, SizesOf(), at0, OptionAsks(chip), at1, OptionAsks(chip), at2);
      SettlesThen(usb, SizesOf(), at0, OptionAsks(chip) + OptionAsks(chip), at2, [AskCommand(3, false)], At());
      forall a | a in trace.memory ensures a[..] == Stored(a, old(a[..]), trace.log[|old(trace.log)|..]) {
        StoredSplit(a, old(a[..]), old@L1(a[..]), old@L2(a[..]), old(trace.log), old@L1(trace.log), old@L2(trace.log));
        StoredSplit(a, old(a[..]), old@L2(a[..]), a[..], old(trace.log), old@L2(trace.log), trace.log);
      }
    }
  }

  /** The commands of a clock option: none on the chip without it. */
  function OptionAsks(chip: ChipType): seq<Ask> {
    if chip == FT2232C then [] else [AskCommand(1, false)]
  }

  function FrequencyAsks(chip: ChipType, frequency: nat): seq<Ask> {
    if frequency == 0 then OptionAsks(chip) else OptionAsks(chip) + OptionAsks(chip) + [AskCommand(3, false)]
  }

  /** The data byte of a TMS command. */
  lemma TmsByte(src: seq<byte>, srcStart: nat, n: nat, data: seq<byte>, tdi: bool)
    requires srcStart + n <= 8 * |src| && n <= 7
    requires Copied(src, srcStart, [0], 0, n, data)
    ensures |data| == 1
    ensures var last := Or(data[0], 7, tdi);
      BufBits([last], 0, n) == BufBits(src, srcStart, n) && Bit(last, 7) == tdi
  {
    hide Or, Bit;
    var last := Or(data[0], 7, tdi);
    forall k | 0 <= k < 8 ensures Bit(last, k) == if k < n then BufBit(src, srcStart + k) else k == 7 && tdi {
      OrBit(data[0], 7, tdi, k);
      assert BufBit(data, k) == Bit(data[0], k);
      assert BufBit([0], k) == Bit(0, k);
      ZeroBit(k);
    }
    forall k | 0 <= k < n ensures BufBits([last], 0, n)[k] == BufBits(src, srcStart, n)[k] {
      assert BufBit([last], k) == Bit(last, k);
    }
  }

  /** The pin and configuration commands without a reply, and what they do. */
  ghost predicate Plain(cmd: seq<byte>, act: Action) {
    || (|cmd| == 3 && cmd[0] == 0x80 && act == SetLow(cmd[1], cmd[2]))
    || (|cmd| == 3 && cmd[0] == 0x82 && act == SetHigh(cmd[1], cmd[2]))
    || (|cmd| == 3 && cmd[0] == 0x86 && act == Divisor(cmd[1] as int + 256 * cmd[2] as int))
    || (|cmd| == 1 && cmd[0] in [0x84, 0x85, 0x8a, 0x8b, 0x96, 0x97] && act == Config(cmd[0]))
  }

  lemma PlainExec(env: Env, acts: seq<Action>, cmd: seq<byte>, act: Action)
    requires Plain(cmd, act)
    ensures 1 <= |cmd| <= 3 && CommandLength(cmd) == |cmd| && Exec(env, acts, cmd) == Outcome(acts + [act], [])
  {
  }

  /** The eight bits of a pin reading. */
  function PinCaps(data: array<byte>, at: nat): seq<Capture> {
    seq(8, k requires 0 <= k < 8 => Capture(Cell(data, k), at, k))
  }

  lemma ReadExec(env: Env, device: seq<Action>, program: seq<byte>, queue: seq<Entry>, acts: seq<Action>,
                 reply: seq<byte>,
                 caps: seq<Capture>, high: bool, data: array<byte>, e: Entry)
    requires Program(env, device, program, queue, acts, reply, caps)
    requires e == Entry(data, 0, |reply|, 0, 8)
    ensures var level := if high then env.high(acts) else env.low(acts);
      var acts' := acts + [if high then ReadHigh else ReadLow];
      && Program(env, device, program + [if high then 0x83 else 0x81], queue + [e], acts', reply + [level],
                 caps + PinCaps(data, |acts|))
      && CaptureWrites(env, acts', caps + PinCaps(data, |acts|))
         == CaptureWrites(env, acts, caps) + WriteRun(data, 0, BufBits([level], 0, 8))
  {
    hide Program, BufBit;
    var level := if high then env.high(acts) else env.low(acts);
    var acts' := acts + [if high then ReadHigh else ReadLow];
    var cmd: seq<byte> := [if high then 0x83 else 0x81];
    assert CommandLength(cmd) == 1 && Exec(env, acts, cmd) == Outcome(acts', [level]);
    var writes, run := CaptureWrites(env, acts', PinCaps(data, |acts|)), WriteRun(data, 0, BufBits([level], 0, 8));
    assert acts'[..|acts|] == acts;
    forall k | 0 <= k < 8 ensures writes[k] == run[k] {
      BitOfByte(level, k);
    }
    assert writes == run;
    assert EntryWrites(e, reply + [level]) == run by {
      var a, b := BufBits(reply + [level], 8 * |reply|, 8), BufBits([level], 0, 8);
      forall k | 0 <= k < 8 ensures a[k] == b[k] {
        BitAfter(reply, [level], k);
      }
      assert a == b;
    }
    ProgramGrowsRead(env, device, program, queue, acts, reply, caps, cmd, acts', [level], e, PinCaps(data, |acts|));
  }

  lemma BitOfByte(b: byte, k: nat)
    requires k < 8
    ensures BufBit([b], k) == Bit(b, k)
  {
  }

  /** The master clock `mpsse_set_frequency` settles on. */
  function BaseClock(chip: ChipType, frequency: nat): nat {
    if frequency > 60_000_000 / 2 / 65536 && chip != FT2232C then 60_000_000 else 12_000_000
  }

  /** What setting a frequency sends: adaptive clocking off and the master clock, where there is a choice,
      and the divisor. */
  function FrequencyActions(chip: ChipType, frequency: nat, divisor: nat): seq<Action> {
    (if chip == FT2232C then []
     else [Config(0x97), Config(if BaseClock(chip, frequency) == 60_000_000 then 0x8a else 0x8b)]) + [Divisor(divisor)]
  }

  lemma ClockChoice(chip: ChipType, frequency: nat)
    ensures var clock := BaseClock(chip, frequency); clock == 12_000_000 || (clock == 60_000_000 && chip != FT2232C)
  {
  }

  /** The rate the divisor makes, rounded down. */
  function RateFor(chip: ChipType, frequency: nat): nat
    requires frequency > 0
  {
    var half := BaseClock(chip, frequency) / 2;
    var divisor := DivisorFor(half, frequency);
    Numbers.QuotientIsNat(half, 1 + divisor);
    half / (1 + divisor)
  }

  /** The chip has been programmed with the best divisor for the frequency, and makes that rate of it. */
  ghost predicate FrequencySet(chip: ChipType, frequency: nat, before: seq<Action>, after: seq<Action>, rate: int) {
    && after == before + FrequencyActions(chip, frequency, ProgrammedDivisor(after))
    && Best(BaseClock(chip, frequency) / 2, frequency, ProgrammedDivisor(after))
    && rate == ProgrammedRate(chip, after)
  }

  lemma IsProgrammed(chip: ChipType, frequency: nat, before: seq<Action>, divisor: nat, after: seq<Action>)
    requires frequency > 0 && divisor == DivisorFor(BaseClock(chip, frequency) / 2, frequency)
    requires var clock := BaseClock(chip, frequency);
      after == before + (if chip == FT2232C then [] else [Config(0x97)])
                 + (if chip == FT2232C then [] else [Config(if clock == 60_000_000 then 0x8a else 0x8b)])
                 + [Divisor(divisor)]
    ensures FrequencySet(chip, frequency, before, after, BaseClock(chip, frequency) / 2 / (1 + divisor))
    ensures ProgrammedClock(chip, after) == 60_000_000 <==> chip != FT2232C && frequency > 457
    ensures after == before
                + (if chip == FT2232C then [] else [Config(0x97), Config(if frequency > 457 then 0x8a else 0x8b)])
                + [Divisor(ProgrammedDivisor(after))]
  {
    hide Best, ProgrammedDivisor, ProgrammedClock;
    Programmed(chip, before + (if chip == FT2232C then [] else [Config(0x97)]), BaseClock(chip, frequency), divisor);
    assert after == before + FrequencyActions(chip, frequency, divisor);
  }

  /** The TCK rate that a divisor makes of a master clock, rounded down. */
  function TckRate(clock: nat, divisor: nat): nat {
    Numbers.QuotientIsNat(clock / 2, 1 + divisor);
    clock / 2 / (1 + divisor)
  }

  /** The chip has this master clock, and the divisor, a 16-bit number, keeps the rate made of it within the
      request. */
  predicate WithinRequest(chip: ChipType, frequency: nat, clock: nat, divisor: nat) {
    && (clock == 12_000_000 || (clock == 60_000_000 && chip != FT2232C))
    && divisor <= 65535 && clock / 2 <= frequency * (1 + divisor)
  }

  /** No other choice of master clock and divisor comes nearer to the request from below. */
  ghost predicate Fastest(chip: ChipType, frequency: nat, rate: int) {
    forall clock: nat, divisor: nat ::
      WithinRequest(chip, frequency, clock, divisor) ==> TckRate(clock, divisor) <= rate
  }

  lemma LargerDivisor(half: nat, a: nat, b: nat)
    requires 0 < a <= b
    ensures half / b <= half / a
  {
    var x, y := half / a, half / b;
    assert half == a * x + half % a && half == b * y + half % b;
    if y > x {
      Numbers.MulMono(a, x + 1, y);
      Numbers.MulMono(y, a, b);
    }
  }

  /** A fifth of the clock with a fifth of the division. */
  lemma FifthClock(n: nat)
    requires n > 0
    ensures 30_000_000 / (5 * n) == 6_000_000 / n
  {
    var q, r := 6_000_000 / n, 6_000_000 % n;
    assert 30_000_000 == 5 * n * q + 5 * r;
    Numbers.QuotientIs(30_000_000, 5 * n, q, 5 * r);
  }

  lemma IsFastest(chip: ChipType, frequency: nat)
    requires frequency > 0
    ensures Fastest(chip, frequency, RateFor(chip, frequency))
  {
    hide DivisorFor;
    forall clock: nat, divisor: nat | WithinRequest(chip, frequency, clock, divisor)
      ensures TckRate(clock, divisor) <= RateFor(chip, frequency)
    {
      NotSlower(chip, frequency, clock, divisor);
    }
  }

  lemma NotSlower(chip: ChipType, frequency: nat, clock: nat, divisor: nat)
    requires frequency > 0 && WithinRequest(chip, frequency, clock, divisor)
    ensures TckRate(clock, divisor) <= RateFor(chip, frequency)
  {
    hide DivisorFor, BaseClock;
    var base := BaseClock(chip, frequency);
    ClockChoice(chip, frequency);
    var best := DivisorFor(base / 2, frequency);
    if clock == base {
      NoSmaller(base / 2, frequency, best, 1 + divisor);
      LargerDivisor(base / 2, 1 + best, 1 + divisor);
    } else {
      FastClockChosen(chip, frequency, clock, divisor);
      FiveTimes(frequency, 1 + divisor);
      NoSmaller(base / 2, frequency, best, 5 * (1 + divisor));
      LargerDivisor(base / 2, 1 + best, 5 * (1 + divisor));
      FifthClock(1 + divisor);
    }
  }

  /** The fast clock is the one not chosen only if no divisor would do. */
  lemma FastClockChosen(chip: ChipType, frequency: nat, clock: nat, divisor: nat)
    requires WithinRequest(chip, frequency, clock, divisor) && clock != BaseClock(chip, frequency)
    ensures BaseClock(chip, frequency) == 60_000_000 && clock == 12_000_000
  {
    if frequency <= 457 {
      Numbers.MulMono(frequency, 1 + divisor, 65536);
    }
  }

  lemma FiveTimes(f: nat, n: nat)
    requires 6_000_000 <= f * n
    ensures 30_000_000 <= f * (5 * n)
  {
    assert f * (5 * n) == 5 * (f * n);
  }

  lemma NoSmaller(half: nat, frequency: nat, best: nat, n: nat)
    requires Best(half, frequency, best) && 0 < half <= frequency * n
    ensures 1 + best <= n
  {
    if n <= best {
      Numbers.MulMono(frequency, n, best);
    }
  }

  /** `divisor` is the smallest with half / (1 + divisor) at most the frequency, or the largest there is. */
  predicate Best(half: nat, frequency: nat, divisor: nat) {
    && divisor <= 65535
    && (half <= frequency * (1 + divisor) || divisor == 65535)
    && (divisor == 0 || frequency * divisor < half)
  }

  /** Division rounded up. */
  lemma CeilDiv(half: nat, f: nat, q: nat)
    requires half > 0 && f > 0 && q == (half + f - 1) / f
    ensures q >= 1 && half <= f * q && f * (q - 1) < half
  {
    var x := half + f - 1;
    assert x == f * q + x % f;
    assert x % f < f;
    assert f * (q - 1) == f * q - f;
  }

  function DivisorFor(half: nat, frequency: nat): (d: nat)
    requires half > 0 && frequency > 0
    ensures d <= 65535 && Best(half, frequency, d)
  {
    var q := (half + frequency - 1) / frequency;
    CeilDiv(half, frequency, q);
    if q - 1 > 65535 then
      Numbers.MulMono(frequency, 65535, q - 1);
      65535
    else
      assert 1 + (q - 1) == q;
      q - 1
  }

  /** What the commands sent so far have programmed: the last divisor ... */
  function ProgrammedDivisor(acts: seq<Action>): nat {
    if acts == [] then 0
    else if acts[|acts| - 1].Divisor? then acts[|acts| - 1].value
    else ProgrammedDivisor(acts[..|acts| - 1])
  }

  /** ... the master clock, divided by five on the high-speed chips unless that is switched off ... */
  function ProgrammedClock(chip: ChipType, acts: seq<Action>): nat {
    if chip == FT2232C || acts == [] then 12_000_000
    else if acts[|acts| - 1] == Config(0x8a) then 60_000_000
    else if acts[|acts| - 1] == Config(0x8b) then 12_000_000
    else ProgrammedClock(chip, acts[..|acts| - 1])
  }

  /** ... and so the TCK rate in hertz, rounded down. */
  function ProgrammedRate(chip: ChipType, acts: seq<Action>): nat {
    ProgrammedClock(chip, acts) / 2 / (1 + ProgrammedDivisor(acts))
  }

  lemma Programmed(chip: ChipType, acts: seq<Action>, baseClock: nat, divisor: nat)
    requires baseClock == 12_000_000 || (baseClock == 60_000_000 && chip != FT2232C)
    ensures var clock := if chip == FT2232C then [] else [Config(if baseClock == 60_000_000 then 0x8a else 0x8b)];
      var acts' := acts + clock + [Divisor(divisor)];
      ProgrammedClock(chip, acts') == baseClock && ProgrammedDivisor(acts') == divisor
  {
    var mid := acts + (if chip == FT2232C then [] else [Config(if baseClock == 60_000_000 then 0x8a else 0x8b)]);
    assert (mid + [Divisor(divisor)])[..|mid|] == mid;
  }

  /** The rate stays within the request exactly from 92 Hz on; below, the divisor is at its limit. */
  lemma RequestIsMet(chip: ChipType, frequency: nat, divisor: nat)
    requires frequency > 0 && Best(BaseClock(chip, frequency) / 2, frequency, divisor)
    ensures BaseClock(chip, frequency) / 2 <= frequency * (1 + divisor) <==> frequency >= 92
    ensures frequency < 92 ==> divisor == 65535
  {
    var half := BaseClock(chip, frequency) / 2;
    if frequency < 92 {
      assert frequency * (1 + divisor) <= 91 * 65536;
    }
  }

  lemma CopiedFront(src: seq<byte>, srcStart: nat, before: seq<byte>, at: nat, len: nat, after: seq<byte>)
    requires srcStart + len <= 8 * |src| && at + (len + 7) / 8 <= |before|
    requires Copied(src, srcStart, before, 8 * at, len, after)
    ensures after[..at] == before[..at]
    ensures BufBits(after[at..at + (len + 7) / 8], 0, len) == BufBits(src, srcStart, len)
  {
    forall i | 0 <= i < 8 * at ensures BufBit(after[..at], i) == BufBit(before[..at], i) {
      assert BufBit(after, i) == BufBit(before, i);
    }
    SameBitsSameBuffer(after[..at], before[..at]);
    var part := after[at..at + (len + 7) / 8];
    forall k | 0 <= k < len ensures BufBits(part, 0, len)[k] == BufBits(src, srcStart, len)[k] {
      assert part[k / 8] == after[(8 * at + k) / 8];
      assert BufBit(part, k) == BufBit(after, 8 * at + k);
    }
  }
}
