/** Where captured TDO bits go. The driver does not copy a reply when it queues the command: it
    queues a bit copy from the read buffer, and runs all queued copies after the flush. This module
    gives that queue its meaning: a sequence of single-bit writes to caller memory. */
module ReadBack {
  import opened Bits
  import opened BitCopy
  import opened MpsseDevice

  /** One bit of caller memory. */
  datatype Cell = Cell(buf: array<byte>, bit: nat)

  datatype Write = Write(cell: Cell, val: bool)

  /** `struct bit_copy_queue_entry`; `src` is the byte index into the read buffer. */
  datatype Entry = Entry(dst: array<byte>, dstOffset: nat, src: nat, srcOffset: nat, bitCount: nat)
  {
    predicate Reads(n: nat) { 8 * src + srcOffset + bitCount <= 8 * n }
  }

  /** What buffer `a`, holding `s`, holds after the writes `ws`, the last one winning. */
  ghost function Stored(a: array<byte>, s: seq<byte>, ws: seq<Write>): (r: seq<byte>)
    ensures |r| == |s|
  {
    if ws == [] then s
    else
      var r, w := Stored(a, s, ws[..|ws| - 1]), ws[|ws| - 1];
      if w.cell.buf == a && w.cell.bit < 8 * |s| then SetBufBit(r, w.cell.bit, w.val) else r
  }

  lemma {:induction false} StoredConcat(a: array<byte>, s: seq<byte>, ws: seq<Write>, more: seq<Write>)
    ensures Stored(a, s, ws + more) == Stored(a, Stored(a, s, ws), more)
    decreases |more|
  {
    if more == [] {
      assert ws + more == ws;
    } else {
      var k := |more| - 1;
      assert (ws + more)[..|ws| + k] == ws + more[..k];
      StoredConcat(a, s, ws, more[..k]);
    }
  }

  /** A bit that no write goes to keeps its value. */
  lemma {:induction false} StoredUntouched(a: array<byte>, s: seq<byte>, ws: seq<Write>, i: nat)
    requires i < 8 * |s|
    requires forall w :: w in ws ==> w.cell != Cell(a, i)
    ensures BufBit(Stored(a, s, ws), i) == BufBit(s, i)
    decreases |ws|
  {
    if ws != [] {
      var k := |ws| - 1;
      StoredUntouched(a, s, ws[..k], i);
      var w := ws[k];
      assert w in ws;
      if w.cell.buf == a && w.cell.bit < 8 * |s| {
        SetBufBitBit(Stored(a, s, ws[..k]), w.cell.bit, w.val, i);
      }
    }
  }

  /** What a buffer that held `was` holds when `ws` have been stored in the destinations `memory`. */
  ghost function Later(out: array<byte>, was: seq<byte>, memory: set<array<byte>>, ws: seq<Write>): (r: seq<byte>)
    ensures |r| == |was|
  {
    if out in memory then Stored(out, was, ws) else was
  }

  /** Each of the bits `sent` is what `out` held when some part of `ws` had been stored. */
  ghost predicate HeldOnTheWay(out: array<byte>, was: seq<byte>, offset: nat, memory: set<array<byte>>, ws: seq<Write>,
                               sent: seq<bool>)
  {
    && offset + |sent| <= 8 * |was|
    && forall k :: 0 <= k < |sent| ==> HeldOnce(out, was, memory, ws, offset + k, sent[k])
  }

  ghost predicate HeldOnce(out: array<byte>, was: seq<byte>, memory: set<array<byte>>, ws: seq<Write>, i: nat, v: bool)
    requires i < 8 * |was|
  {
    exists n :: 0 <= n <= |ws| && v == BufBit(Later(out, was, memory, ws[..n]), i)
  }

  lemma HeldStill(out: array<byte>, was: seq<byte>, offset: nat, memory: set<array<byte>>, ws: seq<Write>,
                  ws2: seq<Write>, sent: seq<bool>)
    requires ws <= ws2 && HeldOnTheWay(out, was, offset, memory, ws, sent)
    ensures HeldOnTheWay(out, was, offset, memory, ws2, sent)
  {
    hide BufBit, Later;
    forall k | 0 <= k < |sent| ensures HeldOnce(out, was, memory, ws2, offset + k, sent[k]) {
      assert HeldOnce(out, was, memory, ws, offset + k, sent[k]);
      var n :| 0 <= n <= |ws| && sent[k] == BufBit(Later(out, was, memory, ws[..n]), offset + k);
      assert ws2[..n] == ws[..n];
    }
  }

  lemma HeldNow(out: array<byte>, was: seq<byte>, offset: nat, memory: set<array<byte>>, ws: seq<Write>,
                sent: seq<bool>, part: seq<bool>)
    requires HeldOnTheWay(out, was, offset, memory, ws, sent) && offset + |sent| + |part| <= 8 * |was|
    requires part == BufBits(Later(out, was, memory, ws), offset + |sent|, |part|)
    ensures HeldOnTheWay(out, was, offset, memory, ws, sent + part)
  {
    hide BufBit, Later;
    assert ws[..|ws|] == ws;
    forall k | 0 <= k < |sent + part| ensures HeldOnce(out, was, memory, ws, offset + k, (sent + part)[k]) {
      if k < |sent| {
        assert HeldOnce(out, was, memory, ws, offset + k, sent[k]);
      } else {
        assert part[k - |sent|] == BufBit(Later(out, was, memory, ws[..|ws|]), offset + k);
      }
    }
  }

  /** Seen from earlier on. */
  lemma HeldSince(out: array<byte>, was: seq<byte>, offset: nat, memory: set<array<byte>>, pre: seq<Write>,
                  ws: seq<Write>, sent: seq<bool>)
    requires HeldOnTheWay(out, Later(out, was, memory, pre), offset, memory, ws, sent)
    ensures HeldOnTheWay(out, was, offset, memory, pre + ws, sent)
  {
    hide BufBit, Stored;
    var mid := Later(out, was, memory, pre);
    forall k | 0 <= k < |sent| ensures HeldOnce(out, was, memory, pre + ws, offset + k, sent[k]) {
      assert HeldOnce(out, mid, memory, ws, offset + k, sent[k]);
      var n :| 0 <= n <= |ws| && sent[k] == BufBit(Later(out, mid, memory, ws[..n]), offset + k);
      StoredConcat(out, was, pre, ws[..n]);
      assert (pre + ws)[..|pre| + n] == pre + ws[..n];
    }
  }

  /** One bit more, from a moment on the way. */
  lemma HeldOneMore(out: array<byte>, was: seq<byte>, offset: nat, memory: set<array<byte>>, some: seq<Write>,
                    ws: seq<Write>, sent: seq<bool>, v: bool)
    requires HeldOnTheWay(out, was, offset, memory, ws, sent) && offset + |sent| < 8 * |was| && some <= ws
    requires v == BufBit(Later(out, was, memory, some), offset + |sent|)
    ensures HeldOnTheWay(out, was, offset, memory, ws, sent + [v])
  {
    hide BufBit, Later;
    assert ws[..|some|] == some;
    forall k | 0 <= k < |sent + [v]| ensures HeldOnce(out, was, memory, ws, offset + k, (sent + [v])[k]) {
      if k < |sent| {
        assert HeldOnce(out, was, memory, ws, offset + k, sent[k]);
      }
    }
  }

  /** Caller memory is what it was at `mem`, with the writes `ws` done. */
  ghost predicate Holds(mem: map<array<byte>, seq<byte>>, ws: seq<Write>)
    reads mem.Keys
  {
    forall a :: a in mem ==> a[..] == Stored(a, mem[a], ws)
  }

  lemma StoredNone(a: array<byte>, s: seq<byte>)
    ensures Stored(a, s, []) == s
  {
  }

  /** Writes of `vals` to consecutive bits of `buf` from bit `off` on. */
  function WriteRun(buf: array<byte>, off: nat, vals: seq<bool>): (r: seq<Write>)
    ensures |r| == |vals|
  {
    seq(|vals|, k requires 0 <= k < |vals| => Write(Cell(buf, off + k), vals[k]))
  }

  /** Such a run puts bit `k` at `off + k` and leaves every other bit alone. */
  lemma {:induction false} StoredRun(a: array<byte>, s: seq<byte>, off: nat, vals: seq<bool>, i: nat)
    requires i < 8 * |s| && off + |vals| <= 8 * |s|
    ensures BufBit(Stored(a, s, WriteRun(a, off, vals)),
                   i) == if off <= i < off + |vals| then vals[i - off] else BufBit(s, i)
    decreases |vals|
  {
    hide BufBit, SetBufBit;
    if vals != [] {
      var k := |vals| - 1;
      assert WriteRun(a, off, vals)[..k] == WriteRun(a, off, vals[..k]);
      StoredRun(a, s, off, vals[..k], i);
      SetBufBitBit(Stored(a, s, WriteRun(a, off, vals[..k])), off + k, vals[k], i);
    }
  }

  lemma {:induction false} StoredElsewhere(a: array<byte>, s: seq<byte>, ws: seq<Write>)
    requires forall w :: w in ws ==> w.cell.buf != a
    ensures Stored(a, s, ws) == s
    decreases |ws|
  {
    if ws != [] {
      assert ws[|ws| - 1] in ws;
      StoredElsewhere(a, s, ws[..|ws| - 1]);
    }
  }

  function EntryWrites(e: Entry, buf: seq<byte>): seq<Write>
    requires e.Reads(|buf|)
  {
    WriteRun(e.dst, e.dstOffset, BufBits(buf, 8 * e.src + e.srcOffset, e.bitCount))
  }

  /** One `bit_copy` out of the read buffer has the effect of its entry's writes. */
  lemma CopyIsEntryWrites(e: Entry, buf: seq<byte>, before: seq<byte>, after: seq<byte>)
    requires e.Reads(|buf|) && e.dstOffset + e.bitCount <= 8 * |before|
    requires Copied(buf, 8 * e.src + e.srcOffset, before, e.dstOffset, e.bitCount, after)
    ensures after == Stored(e.dst, before, EntryWrites(e, buf))
  {
    hide Stored, BufBit;
    var vals := BufBits(buf, 8 * e.src + e.srcOffset, e.bitCount);
    var stored := Stored(e.dst, before, EntryWrites(e, buf));
    forall i | 0 <= i < 8 * |after| ensures BufBit(after, i) == BufBit(stored, i) {
      StoredRun(e.dst, before, e.dstOffset, vals, i);
      if e.dstOffset <= i < e.dstOffset + e.bitCount {
        assert vals[i - e.dstOffset] == BufBit(buf, 8 * e.src + e.srcOffset + (i - e.dstOffset));
      }
    }
    SameBitsSameBuffer(after, stored);
  }

  ghost predicate InRange(queue: seq<Entry>, n: nat) {
    forall e :: e in queue ==> e.Reads(n)
  }

  /** The effect of running the queue front to back. */
  function QueueWrites(queue: seq<Entry>, buf: seq<byte>): seq<Write>
    requires InRange(queue, |buf|)
  {
    if queue == [] then []
    else
      var k := |queue| - 1;
      assert queue[k] in queue;
      QueueWrites(queue[..k], buf) + EntryWrites(queue[k], buf)
  }

  lemma BufBitsExtend(buf: seq<byte>, more: seq<byte>, off: nat, n: nat)
    requires off + n <= 8 * |buf|
    ensures BufBits(buf + more, off, n) == BufBits(buf, off, n)
  {
    var a, b := BufBits(buf + more, off, n), BufBits(buf, off, n);
    forall j | 0 <= j < n ensures a[j] == b[j] {
      var i := off + j;
      assert (buf + more)[i / 8] == buf[i / 8];
      assert BufBit(buf + more, i) == BufBit(buf, i);
    }
  }

  /** Only the bytes the entries point at matter. */
  lemma {:induction false} QueueWritesExtend(queue: seq<Entry>, buf: seq<byte>, more: seq<byte>)
    requires InRange(queue, |buf|)
    ensures QueueWrites(queue, buf + more) == QueueWrites(queue, buf)
    decreases |queue|
  {
    hide BufBits, WriteRun;
    if queue != [] {
      var k := |queue| - 1;
      var e := queue[k];
      assert e in queue;
      QueueWritesExtend(queue[..k], buf, more);
      var at := 8 * e.src + e.srcOffset;
      BufBitsExtend(buf, more, at, e.bitCount);
    }
  }

  /** The queued reads sit one after another in the read buffer, each starting on the byte after the
      last one's reply, and together they fill its first `n` bytes. */
  predicate Tiles(queue: seq<Entry>, n: nat)
    decreases |queue|
  {
    if queue == [] then n == 0
    else
      var k := |queue| - 1;
      var e := queue[k];
      && e.bitCount > 0
      && e.srcOffset == (if e.bitCount % 8 == 0 then 0 else 8 - e.bitCount % 8)
      && (e.bitCount % 8 == 0 || e.bitCount < 8)
      && n == e.src + (e.bitCount + 7) / 8
      && Tiles(queue[..k], e.src)
  }

  lemma {:induction false} TilesInRange(queue: seq<Entry>, n: nat)
    requires Tiles(queue, n)
    ensures InRange(queue, n)
    decreases |queue|
  {
    if queue != [] {
      var k := |queue| - 1;
      TilesInRange(queue[..k], queue[k].src);
      assert queue == queue[..k] + [queue[k]];
    }
  }

  /** A captured output bit: bit `bit` of what action number `at` produced goes to `cell`. */
  datatype Capture = Capture(cell: Cell, at: nat, bit: nat)

  function OutputBit(env: Env, acts: seq<Action>, c: Capture): bool {
    if c.at >= |acts| then false else
    match acts[c.at]
    case Clock(_, _) => env.tdo(acts[..c.at + 1])
    case ReadLow => Bit(env.low(acts[..c.at]), c.bit)
    case ReadHigh => Bit(env.high(acts[..c.at]), c.bit)
    case _ => false
  }

  ghost predicate CapturesBefore(caps: seq<Capture>, n: nat) {
    forall c :: c in caps ==> c.at < n
  }

  function CaptureWrites(env: Env, acts: seq<Action>, caps: seq<Capture>): (r: seq<Write>)
    ensures |r| == |caps|
  {
    seq(|caps|, i requires 0 <= i < |caps| => Write(caps[i].cell, OutputBit(env, acts, caps[i])))
  }

  lemma NoCaptures(env: Env, acts: seq<Action>)
    ensures CaptureWrites(env, acts, []) == []
  {
  }

  lemma CapturesMiss(env: Env, acts: seq<Action>, caps: seq<Capture>, a: array<byte>, i: nat)
    requires forall c :: c in caps ==> c.cell != Cell(a, i)
    ensures forall w :: w in CaptureWrites(env, acts, caps) ==> w.cell != Cell(a, i)
  {
    var ws := CaptureWrites(env, acts, caps);
    forall w | w in ws ensures w.cell != Cell(a, i) {
      var k :| 0 <= k < |ws| && ws[k] == w;
      assert caps[k] in caps;
    }
  }

  /** Later actions do not change what earlier ones produced. */
  lemma CaptureWritesExtend(env: Env, acts: seq<Action>, more: seq<Action>, caps: seq<Capture>)
    requires CapturesBefore(caps, |acts|)
    ensures CaptureWrites(env, acts + more, caps) == CaptureWrites(env, acts, caps)
  {
    forall c | c in caps ensures OutputBit(env, acts + more, c) == OutputBit(env, acts, c) {
      assert (acts + more)[..c.at + 1] == acts[..c.at + 1];
      assert (acts + more)[..c.at] == acts[..c.at];
    }
    var a, b := CaptureWrites(env, acts + more, caps), CaptureWrites(env, acts, caps);
    forall i | 0 <= i < |caps| ensures a[i] == b[i] {
      assert caps[i] in caps;
    }
  }

  lemma CaptureWritesConcat(env: Env, acts: seq<Action>, caps: seq<Capture>, more: seq<Capture>)
    ensures CaptureWrites(env, acts, caps + more) == CaptureWrites(env, acts, caps) + CaptureWrites(env, acts, more)
  {
  }

  /** The invariant that ties the command buffer to the read queue: `program` is a sequence of whole
      commands; run by the device from `device` it takes it to `acts` and sends back `reply`; the
      queue tiles that reply; and running the queue over the reply stores exactly the captured bits. */
  ghost predicate Program(env: Env, device: seq<Action>, program: seq<byte>, queue: seq<Entry>,
                          acts: seq<Action>, reply: seq<byte>, caps: seq<Capture>)
  {
    && Run(env, device, program) == Some(Outcome(acts, reply))
    && Tiles(queue, |reply|) && InRange(queue, |reply|)
    && CapturesBefore(caps, |acts|)
    && QueueWrites(queue, reply) == CaptureWrites(env, acts, caps)
  }

  /** The empty buffer is a program that does nothing. */
  lemma EmptyProgram(env: Env, acts: seq<Action>)
    ensures Program(env, acts, [], [], acts, [], [])
    ensures CaptureWrites(env, acts, []) == []
  {
  }

  /** Nothing to send, nothing to do. */
  lemma NothingQueued(env: Env, device: seq<Action>, queue: seq<Entry>, acts: seq<Action>, reply: seq<byte>,
                      caps: seq<Capture>)
    requires Program(env, device, [], queue, acts, reply, caps)
    ensures acts == device && reply == []
  {
  }

  /** No reply expected, nothing to read. */
  lemma NothingRead(env: Env, device: seq<Action>, program: seq<byte>, queue: seq<Entry>,
                    acts: seq<Action>, caps: seq<Capture>)
    requires Program(env, device, program, queue, acts, [], caps)
    ensures queue == [] && caps == [] && CaptureWrites(env, acts, caps) == []
  {
    hide Run;
    assert |CaptureWrites(env, acts, caps)| == |caps|;
    assert queue == [];
    assert QueueWrites(queue, []) == [];
  }

  lemma QueueReady(env: Env, device: seq<Action>, program: seq<byte>, queue: seq<Entry>,
                   acts: seq<Action>, reply: seq<byte>, caps: seq<Capture>, n: nat)
    requires Program(env, device, program, queue, acts, reply, caps) && |reply| <= n
    ensures InRange(queue, |reply|) && InRange(queue, n)
    ensures QueueWrites(queue, reply) == CaptureWrites(env, acts, caps)
  {
  }

  lemma QueueWritesFront(queue: seq<Entry>, buf: seq<byte>, i: nat)
    requires InRange(queue, |buf|) && i <= |queue|
    ensures InRange(queue[..i], |buf|)
    ensures i == 0 ==>
      QueueWrites(queue[..i], buf) == [] && forall a: array<byte>, s :: Stored(a, s, QueueWrites(queue[..i], buf)) == s
    ensures i < |queue| ==> InRange(queue[..i + 1], |buf|) && queue[i].Reads(|buf|)
    ensures i < |queue| ==>
      QueueWrites(queue[..i + 1], buf) == QueueWrites(queue[..i], buf) + EntryWrites(queue[i], buf)
  {
    if i < |queue| {
      assert queue[i] in queue;
      assert queue[..i + 1][..i] == queue[..i];
    }
  }

  lemma EntryElsewhere(e: Entry, buf: seq<byte>, a: array<byte>, s: seq<byte>)
    requires e.Reads(|buf|) && a != e.dst
    ensures Stored(a, s, EntryWrites(e, buf)) == s
  {
    StoredElsewhere(a, s, EntryWrites(e, buf));
  }

  /** The effect of one more copy. */
  lemma OneCopyMore(all: seq<Entry>, buf: seq<byte>, i: nat, a: array<byte>, s0: seq<byte>, s1: seq<byte>,
                    s2: seq<byte>)
    requires InRange(all, |buf|) && i < |all| && InRange(all[..i], |buf|) && InRange(all[..i + 1], |buf|)
    requires all[i].Reads(|buf|) && s1 == Stored(a, s0, QueueWrites(all[..i], buf))
    requires a == all[i].dst ==>
      all[i].dstOffset + all[i].bitCount <= 8 * |s1|
      && Copied(buf, 8 * all[i].src + all[i].srcOffset, s1, all[i].dstOffset, all[i].bitCount, s2)
    requires a != all[i].dst ==> s2 == s1
    ensures s2 == Stored(a, s0, QueueWrites(all[..i + 1], buf))
  {
    hide Stored, QueueWrites, EntryWrites;
    var e := all[i];
    QueueWritesFront(all, buf, i);
    StoredConcat(a, s0, QueueWrites(all[..i], buf), EntryWrites(e, buf));
    if a == e.dst {
      CopyIsEntryWrites(e, buf, s1, s2);
    } else {
      EntryElsewhere(e, buf, a, s1);
    }
  }

  lemma {:induction false} QueueTargets(queue: seq<Entry>, buf: seq<byte>, memory: set<array<byte>>)
    requires InRange(queue, |buf|) && forall e :: e in queue ==> e.dst in memory
    ensures forall w :: w in QueueWrites(queue, buf) ==> w.cell.buf in memory
    decreases |queue|
  {
    if queue != [] {
      var k := |queue| - 1;
      QueueTargets(queue[..k], buf, memory);
      assert queue[k] in queue;
      forall w | w in EntryWrites(queue[k], buf) ensures w.cell.buf in memory {
        var i :| 0 <= i < |EntryWrites(queue[k], buf)| && EntryWrites(queue[k], buf)[i] == w;
      }
    }
  }

  /** Output bits go only where the queued copies go. */
  lemma CaptureTargets(env: Env, device: seq<Action>, program: seq<byte>, queue: seq<Entry>,
                       acts: seq<Action>, reply: seq<byte>, caps: seq<Capture>, memory: set<array<byte>>)
    requires Program(env, device, program, queue, acts, reply, caps)
    requires forall e :: e in queue ==> e.dst in memory
    ensures forall c :: c in caps ==> c.cell.buf in memory
  {
    hide Run, QueueWrites;
    QueueTargets(queue, reply, memory);
    forall c | c in caps ensures c.cell.buf in memory {
      var i :| 0 <= i < |caps| && caps[i] == c;
      assert CaptureWrites(env, acts, caps)[i] in QueueWrites(queue, reply);
    }
  }

  /** SEND_IMMEDIATE changes nothing. */
  lemma SendImmediate(env: Env, device: seq<Action>, program: seq<byte>, queue: seq<Entry>,
                      acts: seq<Action>, reply: seq<byte>, caps: seq<Capture>)
    requires Program(env, device, program, queue, acts, reply, caps)
    ensures Run(env, device, program) == Run(env, device, program + [0x87]) == Some(Outcome(acts, reply))
  {
    hide Run, QueueWrites, CaptureWrites;
    RunOneMore(env, device, program, [0x87], Outcome(acts, reply));
    assert reply + [] == reply;
  }

  /** Adding one whole command that is not read back. */
  lemma ProgramGrows(env: Env, device: seq<Action>, program: seq<byte>, queue: seq<Entry>,
                     acts: seq<Action>, reply: seq<byte>, caps: seq<Capture>, cmd: seq<byte>, acts': seq<Action>)
    requires Program(env, device, program, queue, acts, reply, caps)
    requires |cmd| > 0 && CommandLength(cmd) == |cmd| && acts <= acts'
    requires Exec(env, acts, cmd) == Outcome(acts', [])
    ensures Program(env, device, program + cmd, queue, acts', reply, caps)
    ensures CaptureWrites(env, acts', caps) == CaptureWrites(env, acts, caps)
  {
    hide CaptureWrites, QueueWrites, Exec, CommandLength;
    RunOneMore(env, device, program, cmd, Outcome(acts, reply));
    assert reply + [] == reply;
    assert acts' == acts + acts'[|acts|..];
    CaptureWritesExtend(env, acts, acts'[|acts|..], caps);
  }

  /** Adding one whole command with reply `r`, and queueing the copy of that reply. */
  lemma ProgramGrowsRead(env: Env, device: seq<Action>, program: seq<byte>, queue: seq<Entry>,
                         acts: seq<Action>, reply: seq<byte>, caps: seq<Capture>, cmd: seq<byte>, acts': seq<Action>,
                         r: seq<byte>, e: Entry, more: seq<Capture>)
    requires Program(env, device, program, queue, acts, reply, caps)
    requires |cmd| > 0 && CommandLength(cmd) == |cmd| && acts <= acts'
    requires Exec(env, acts, cmd) == Outcome(acts', r)
    requires CapturesBefore(more, |acts'|)
    requires e.bitCount > 0 && e.src == |reply| && |r| == (e.bitCount + 7) / 8
    requires e.srcOffset == (if e.bitCount % 8 == 0 then 0 else 8 - e.bitCount % 8)
    requires e.bitCount % 8 == 0 || e.bitCount < 8
    requires e.Reads(|reply + r|)
    requires EntryWrites(e, reply + r) == CaptureWrites(env, acts', more)
    ensures Program(env, device, program + cmd, queue + [e], acts', reply + r, caps + more)
    ensures CaptureWrites(env, acts', caps + more) == CaptureWrites(env, acts, caps) + CaptureWrites(env, acts', more)
  {
    hide EntryWrites, CaptureWrites, Exec, CommandLength, Run;
    RunOneMore(env, device, program, cmd, Outcome(acts, reply));
    assert (queue + [e])[..|queue|] == queue;
    TilesInRange(queue + [e], |reply + r|);
    QueueWritesExtend(queue, reply, r);
    assert acts' == acts + acts'[|acts|..];
    CaptureWritesExtend(env, acts, acts'[|acts|..], caps);
    CaptureWritesConcat(env, acts', caps, more);
  }

  lemma RunOneMore(env: Env, device: seq<Action>, program: seq<byte>, cmd: seq<byte>, before: Outcome)
    requires Run(env, device, program) == Some(before)
    requires |cmd| > 0 && CommandLength(cmd) == |cmd|
    ensures var one := Exec(env, before.acts, cmd);
      Run(env, device, program + cmd) == Some(Outcome(one.acts, before.reply + one.reply))
  {
    hide Exec, CommandLength;
    RunAppend(env, device, program, cmd);
    var one := Exec(env, before.acts, cmd);
    assert cmd[..|cmd|] == cmd && cmd[|cmd|..] == [];
    assert Run(env, one.acts, []) == Some(Outcome(one.acts, []));
    assert Run(env, before.acts, cmd) == Prepend(one.reply, Run(env, one.acts, []));
    assert one.reply + [] == one.reply;
  }
}
