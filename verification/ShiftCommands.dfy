/** The shift commands the driver emits, and what the device does with each. */
module ShiftCommands {
  import opened Bits
  import opened MpsseDevice
  import opened ReadBack

  /** A mode argument made of the flags in mpsse.h, LSB first. */
  predicate LsbMode(mode: byte) {
    mode < 0x80 && Bit(mode, 3) && !Bit(mode, 1) && !Bit(mode, 4) && !Bit(mode, 5) && !Bit(mode, 6)
  }

  /** `b |= 1 << k` */
  function Or(b: byte, k: nat, v: bool): byte
    requires k < 8
  {
    if v then SetBit(b, k, true) else b
  }

  predicate HasFlags(op: byte, bits: bool, write: bool, read: bool, tms: bool) {
    op < 0x80 && Bit(op, 3) && Bit(op, 1) == bits && Bit(op, 4) == write && Bit(op, 5) == read && Bit(op, 6) == tms
  }

  /** The opcodes of AN2232C-01 for the two modes in use, 0x09 and 0x0d: clocking bytes, bits and TMS, and what each of
      them writes and reads. */
  lemma Opcodes()
    ensures LsbMode(0x09) && LsbMode(0x0d)
    ensures HasFlags(0x19, false, true, false, false) && HasFlags(0x1d, false, true, false, false)
    ensures HasFlags(0x39, false, true, true, false) && HasFlags(0x3d, false, true, true, false)
    ensures HasFlags(0x29, false, false, true, false) && HasFlags(0x2d, false, false, true, false)
    ensures HasFlags(0x1b, true, true, false, false) && HasFlags(0x1f, true, true, false, false)
    ensures HasFlags(0x3b, true, true, true, false) && HasFlags(0x3f, true, true, true, false)
    ensures HasFlags(0x2b, true, false, true, false) && HasFlags(0x2f, true, false, true, false)
    ensures HasFlags(0x4b, true, false, false, true) && HasFlags(0x4f, true, false, false, true)
    ensures HasFlags(0x6b, true, false, true, true) && HasFlags(0x6f, true, false, true, true)
  {
    assert Bit(0x09, 3) && Bit(0x0d, 3);
  }

  /** And those of the pins and the configuration, with their operands. */
  lemma OtherOpcodes(env: Env, acts: seq<Action>, x: byte, y: byte)
    ensures CommandLength([0x80, x, y]) == 3 && Exec(env, acts, [0x80, x, y]) == Outcome(acts + [SetLow(x, y)], [])
    ensures CommandLength([0x82, x, y]) == 3 && Exec(env, acts, [0x82, x, y]) == Outcome(acts + [SetHigh(x, y)], [])
    ensures CommandLength([0x81]) == 1 && Exec(env, acts, [0x81]) == Outcome(acts + [ReadLow], [env.low(acts)])
    ensures CommandLength([0x83]) == 1 && Exec(env, acts, [0x83]) == Outcome(acts + [ReadHigh], [env.high(acts)])
    ensures CommandLength([0x86, x, y]) == 3
    ensures Exec(env, acts, [0x86, x, y]) == Outcome(acts + [Divisor(x as int + 256 * y as int)], [])
    ensures CommandLength([0x87]) == 1 && Exec(env, acts, [0x87]) == Outcome(acts, [])
    ensures forall op: byte :: op in {0x84, 0x85, 0x8a, 0x8b, 0x96, 0x97} ==>
      CommandLength([op]) == 1 && Exec(env, acts, [op]) == Outcome(acts + [Config(op)], [])
    ensures CommandLength([0x88]) == 0
  {
    assert forall op: byte :: op >= 0x80 ==> !IsShift(op);
  }

  /** The reply of a bit-mode command has the first bit lowest and the last bit at the top. */
  lemma TopBitsAt(bits: seq<bool>, noise: byte, k: nat)
    requires k < |bits| <= 8
    ensures Bit(TopBits(bits, noise), 8 - |bits| + k) == bits[k]
  {
    FromBitsBit(BufBits([noise], 0, 8 - |bits|) + bits, 8 - |bits| + k);
  }

  /** The pins TDI and TMS are bits 1 and 3 of the low byte: with 0x0b as directions they take their levels from the
      data, with 0xf5 they keep what they had. */
  lemma PinsOfLow(env: Env, acts: seq<Action>, data: byte)
    ensures !TdiPin(env, acts + [SetLow(0x08, 0x0b)]) && TmsPin(env, acts + [SetLow(0x08, 0x0b)])
    ensures TdiPin(env, acts + [SetLow(0x02, 0x0b)]) && !TmsPin(env, acts + [SetLow(0x02, 0x0b)])
    ensures TdiPin(env, acts + [SetLow(data, 0xf5)]) == TdiPin(env, acts)
    ensures TmsPin(env, acts + [SetLow(data, 0xf5)]) == TmsPin(env, acts)
  {
    assert forall a :: (acts + [a])[..|acts|] == acts;
    assert Bit(0x0b, 1) && Bit(0x0b, 3) && !Bit(0xf5, 1) && !Bit(0xf5, 3);
    assert !Bit(0x08, 1) && Bit(0x08, 3) && Bit(0x02, 1) && !Bit(0x02, 3);
  }

  lemma OrFlag(b: byte, k: nat, v: bool)
    requires b < 0x80 && k < 7
    ensures Or(b, k, v) < 0x80
    ensures forall j :: 0 <= j < 8 ==> Bit(Or(b, k, v), j) == if j == k && v then true else Bit(b, j)
  {
    WithBitBound(b, k, true, 7);
    forall j | 0 <= j < 8 ensures Bit(Or(b, k, v), j) == if j == k && v then true else Bit(b, j) {
      WithBitBit(b, k, true, j);
    }
  }

  lemma OrBit(b: byte, k: nat, v: bool, j: nat)
    requires k < 8 && j < 8
    ensures Bit(Or(b, k, v), j) == if j == k && v then true else Bit(b, j)
  {
    WithBitBit(b, k, true, j);
  }

  lemma DataFlags(mode: byte, write: bool, read: bool)
    requires LsbMode(mode)
    ensures HasFlags(Or(Or(mode, 4, write), 5, read), false, write, read, false)
    ensures HasFlags(Or(Or(Or(mode, 4, write), 5, read), 1, true), true, write, read, false)
  {
    OrFlag(mode, 4, write);
    OrFlag(Or(mode, 4, write), 5, read);
    OrFlag(Or(Or(mode, 4, write), 5, read), 1, true);
  }

  lemma TmsFlags(mode: byte, read: bool)
    requires LsbMode(mode)
    ensures HasFlags(Or(Or(Or(mode, 6, true), 1, true), 5, read), true, false, read, true)
  {
    OrFlag(mode, 6, true);
    OrFlag(Or(mode, 6, true), 1, true);
    OrFlag(Or(Or(mode, 6, true), 1, true), 5, read);
  }

  /** `n` whole bytes in byte mode. */
  lemma ByteShift(env: Env, acts: seq<Action>, op: byte, write: bool, read: bool, n: nat, payload: seq<byte>)
    requires HasFlags(op, false, write, read, false) && (write || read)
    requires 1 <= n <= 65536 && |payload| == if write then n else 0
    ensures var cmd := [op, (n - 1) % 256, (n - 1) / 256] + payload;
      var tdi := if write then BufBits(payload, 0, 8 * n) else Repeat(TdiPin(env, acts), 8 * n);
      var acts' := acts + Clocks(Repeat(TmsPin(env, acts), 8 * n), tdi);
      && CommandLength(cmd) == |cmd|
      && Exec(env, acts, cmd) == Outcome(acts', if read then PackBytes(Samples(env, acts', |acts|)) else [])
  {
    hide PackBytes, Samples, Clocks, TmsPin, TdiPin, Bit, BufBit;
    var cmd := [op, (n - 1) % 256, (n - 1) / 256] + payload;
    assert cmd[3..] == payload;
    assert ShiftCount(cmd) == 8 * n;
  }

  /** `n` bits in bit mode; only the low `n` bits of a written byte count. */
  lemma BitShift(env: Env, acts: seq<Action>, op: byte, write: bool, read: bool, n: nat, payload: seq<byte>)
    requires HasFlags(op, true, write, read, false) && (write || read)
    requires 1 <= n < 8 && |payload| == if write then 1 else 0
    ensures var cmd := [op, n - 1] + payload;
      var tdi := if write then BufBits(payload, 0, n) else Repeat(TdiPin(env, acts), n);
      var acts' := acts + Clocks(Repeat(TmsPin(env, acts), n), tdi);
      && CommandLength(cmd) == |cmd|
      && Exec(env, acts, cmd) == Outcome(acts',
                                         if read then [TopBits(Samples(env, acts', |acts|), env.noise(acts))] else [])
  {
    hide TopBits, Samples, Clocks, TmsPin, TdiPin, Bit, BufBit;
    var cmd := [op, n - 1] + payload;
    assert cmd[2..] == payload;
    assert ShiftCount(cmd) == n;
  }

  /** Up to seven TMS bits; bit 7 of the data byte is TDI throughout. */
  lemma TmsShift(env: Env, acts: seq<Action>, op: byte, read: bool, n: nat, data: byte)
    requires HasFlags(op, true, false, read, true)
    requires 1 <= n <= 7
    ensures var cmd := [op, n - 1, data];
      var acts' := acts + Clocks(BufBits([data], 0, n), Repeat(Bit(data, 7), n));
      && CommandLength(cmd) == |cmd|
      && Exec(env, acts, cmd) == Outcome(acts',
                                         if read then [TopBits(Samples(env, acts', |acts|), env.noise(acts))] else [])
  {
    hide TopBits, Samples, Clocks, TmsPin, TdiPin, Bit, BufBit;
    var cmd := [op, n - 1, data];
    assert cmd[2..] == [data];
    assert ShiftCount(cmd) == n;
  }

  /** The pins hold what the last clock put on them. */
  lemma PinsAfterClocks(env: Env, acts: seq<Action>, tms: seq<bool>, tdi: seq<bool>)
    requires |tms| == |tdi|
    ensures var acts' := acts + Clocks(tms, tdi);
      && TmsPin(env, acts') == (if tms == [] then TmsPin(env, acts) else tms[|tms| - 1])
      && TdiPin(env, acts') == (if tms == [] then TdiPin(env, acts) else tdi[|tdi| - 1])
  {
    var acts' := acts + Clocks(tms, tdi);
    if tms == [] {
      assert acts' == acts;
    } else {
      assert acts'[|acts'| - 1] == Clock(tms[|tms| - 1], tdi[|tdi| - 1]);
    }
  }

  lemma ClocksConcat(tms1: seq<bool>, tdi1: seq<bool>, tms2: seq<bool>, tdi2: seq<bool>)
    requires |tms1| == |tdi1| && |tms2| == |tdi2|
    ensures Clocks(tms1 + tms2, tdi1 + tdi2) == Clocks(tms1, tdi1) + Clocks(tms2, tdi2)
  {
  }

  /** What was sampled earlier stays sampled. */
  lemma SamplesConcat(env: Env, acts: seq<Action>, more: seq<Action>, from: nat)
    requires from <= |acts|
    ensures Samples(env, acts + more, from) == Samples(env, acts, from) + Samples(env, acts + more, |acts|)
  {
    var all, left, right := Samples(env, acts + more, from), Samples(env, acts, from),
                            Samples(env, acts + more, |acts|);
    forall k | 0 <= k < |all| ensures all[k] == (left + right)[k] {
      if from + k < |acts| {
        assert (acts + more)[..from + k + 1] == acts[..from + k + 1];
      } else {
        assert from + k + 1 == |acts| + (from + k - |acts|) + 1;
      }
    }
  }

  lemma WriteRunConcat(buf: array<byte>, off: nat, vals: seq<bool>, more: seq<bool>)
    ensures WriteRun(buf, off, vals + more) == WriteRun(buf, off, vals) + WriteRun(buf, off + |vals|, more)
  {
  }

  /** The captures of `n` clocks, number `at` on, to bits `off` on. */
  function ClockCaps(buf: array<byte>, off: nat, n: nat, at: nat): (r: seq<Capture>)
    ensures |r| == n
  {
    seq(n, k requires 0 <= k < n => Capture(Cell(buf, off + k), at + k, 0))
  }

  lemma ClockCapsWrites(env: Env, acts: seq<Action>, tms: seq<bool>, tdi: seq<bool>, buf: array<byte>, off: nat)
    requires |tms| == |tdi|
    ensures var acts' := acts + Clocks(tms, tdi);
      && CapturesBefore(ClockCaps(buf, off, |tms|, |acts|), |acts'|)
      && CaptureWrites(env, acts', ClockCaps(buf, off, |tms|, |acts|))
         == WriteRun(buf, off, Samples(env, acts', |acts|))
  {
    var acts' := acts + Clocks(tms, tdi);
    var ws := CaptureWrites(env, acts', ClockCaps(buf, off, |tms|, |acts|));
    var rs := WriteRun(buf, off, Samples(env, acts', |acts|));
    forall k | 0 <= k < |tms| ensures ws[k] == rs[k] {
      assert acts'[|acts| + k] == Clock(tms[k], tdi[k]);
    }
  }

  /** Where the sampled bits sit in the reply of a byte-mode command ... */
  lemma ByteReply(reply: seq<byte>, tdo: seq<bool>)
    requires |tdo| % 8 == 0
    ensures BufBits(reply + PackBytes(tdo), 8 * |reply|, |tdo|) == tdo
  {
    hide BufBit, PackBytes;
    var r := PackBytes(tdo);
    forall k | 0 <= k < |tdo| ensures BufBits(reply + r, 8 * |reply|, |tdo|)[k] == tdo[k] {
      PackBytesBit(tdo, k);
      BitAfter(reply, r, k);
    }
  }

  /** ... and of a bit-mode command. */
  lemma BitReply(reply: seq<byte>, tdo: seq<bool>, noise: byte)
    requires |tdo| < 8
    ensures BufBits(reply + [TopBits(tdo, noise)], 8 * |reply| + 8 - |tdo|, |tdo|) == tdo
  {
    hide BufBit, TopBits;
    var r := [TopBits(tdo, noise)];
    forall k | 0 <= k < |tdo| ensures BufBits(reply + r, 8 * |reply| + 8 - |tdo|, |tdo|)[k] == tdo[k] {
      BitAfter(reply, r, 8 - |tdo| + k);
      TopBit(tdo, noise, k);
    }
  }

  lemma TopBit(tdo: seq<bool>, noise: byte, k: nat)
    requires |tdo| < 8 && k < |tdo|
    ensures BufBit([TopBits(tdo, noise)], 8 - |tdo| + k) == tdo[k]
  {
    FromBitsBit(BufBits([noise], 0, 8 - |tdo|) + tdo, 8 - |tdo| + k);
  }

  lemma BitAfter(s: seq<byte>, t: seq<byte>, i: nat)
    requires i < 8 * |t|
    ensures BufBit(s + t, 8 * |s| + i) == BufBit(t, i)
  {
    assert (s + t)[(8 * |s| + i) / 8] == t[i / 8];
  }

  /** A shift command that reads keeps the command buffer and the read queue in step. */
  lemma ShiftRead(env: Env, device: seq<Action>, program: seq<byte>, queue: seq<Entry>, acts: seq<Action>,
                  reply: seq<byte>,
                  caps: seq<Capture>, cmd: seq<byte>, tms: seq<bool>, tdi: seq<bool>, r: seq<byte>, e: Entry,
                  noise: byte)
    requires Program(env, device, program, queue, acts, reply, caps)
    requires |cmd| > 0 && CommandLength(cmd) == |cmd|
    requires |tms| == |tdi| == e.bitCount && e.bitCount > 0 && e.src == |reply|
    requires Exec(env, acts, cmd) == Outcome(acts + Clocks(tms, tdi), r)
    requires var tdo := Samples(env, acts + Clocks(tms, tdi), |acts|);
      || (e.bitCount % 8 == 0 && e.srcOffset == 0 && r == PackBytes(tdo))
      || (e.bitCount < 8 && e.srcOffset == 8 - e.bitCount && r == [TopBits(tdo, noise)])
    ensures var acts' := acts + Clocks(tms, tdi);
      var more := ClockCaps(e.dst, e.dstOffset, e.bitCount, |acts|);
      && Program(env, device, program + cmd, queue + [e], acts', reply + r, caps + more)
      && CaptureWrites(env, acts', caps + more)
         == CaptureWrites(env, acts, caps) + WriteRun(e.dst, e.dstOffset, Samples(env, acts', |acts|))
  {
    hide Program, Exec, CommandLength, CaptureWrites, Samples, TopBits, PackBytes, BufBits, Clocks;
    var acts' := acts + Clocks(tms, tdi);
    var tdo := Samples(env, acts', |acts|);
    if e.bitCount % 8 == 0 && e.srcOffset == 0 && r == PackBytes(tdo) {
      ByteReply(reply, tdo);
    } else {
      BitReply(reply, tdo, noise);
    }
    ClockCapsWrites(env, acts, tms, tdi, e.dst, e.dstOffset);
    ProgramGrowsRead(env, device, program, queue, acts, reply, caps, cmd, acts', r, e,
                     ClockCaps(e.dst, e.dstOffset, e.bitCount, |acts|));
  }
}
