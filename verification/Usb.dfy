/** The asynchronous bulk transfers inside `mpsse_flush`. libusb is an environment: it decides when
    each transfer completes, how much it carried, whether a resubmission is taken and what the event
    loop returns. Nothing is assumed about the order of those events. */
module Usb {
  import opened Bits
  import opened MpsseDevice
  import Numbers

  datatype Status = Success | NoDevice | Interrupted | OtherError

  /** One transfer completion. `WriteDone`: the device took up to `actual` bytes. `ReadDone`: it sent
      up to `count` further reply bytes, `status` giving the status bytes of each packet.
      `ReadNothing`: the read came back with no data, as a timed-out or cancelled one does. */
  datatype Event =
    | WriteDone(actual: nat, resubmit: bool)
    | ReadDone(count: nat, status: nat -> byte, resubmit: bool)
    | ReadNothing(resubmit: bool)

  /** One call of `libusb_handle_events_timeout_completed`. */
  datatype Poll = Poll(events: seq<Event>, status: Status)

  /** All that libusb does during one flush. When `polls` runs out, further calls are interrupted.
      `residue` is what the device has done by the end, should the flush fail. */
  datatype UsbRun = UsbRun(submitWrite: Status, submitRead: Status, polls: seq<Poll>, residue: seq<Action>)

  /** `DIV_ROUND_UP` */
  function DivRoundUp(n: nat, d: nat): nat
    requires d > 0
  {
    (n + d - 1) / d
  }

  function Min(a: nat, b: nat): nat { if a < b then a else b }

  /** The payload of a chunk: every packet of `packetSize` bytes (the last may be shorter) starts
      with two status bytes. */
  function Strip(chunk: seq<byte>, packetSize: nat): seq<byte>
    requires packetSize > 2
    decreases |chunk|
  {
    if |chunk| <= 2 then []
    else
      var n := Min(packetSize, |chunk|);
      chunk[2..n] + Strip(chunk[n..], packetSize)
  }

  /** Byte `k` of the payload, found by its packet and its place behind the two status bytes there. */
  lemma {:induction false} StripAt(chunk: seq<byte>, packetSize: nat, k: nat)
    requires packetSize > 2 && k < |Strip(chunk, packetSize)|
    ensures var p, i := k / (packetSize - 2), k % (packetSize - 2);
      0 <= p * packetSize + 2 + i < |chunk| && Strip(chunk, packetSize)[k] == chunk[p * packetSize + 2 + i]
    decreases |chunk|
  {
    var m := packetSize - 2;
    if k < m {
      SmallIndex(k, m);
    } else {
      StripAt(chunk[packetSize..], packetSize, k - m);
      NextIndex(k, m, packetSize);
    }
  }

  lemma SmallIndex(k: nat, m: nat)
    requires k < m
    ensures k / m == 0 && k % m == k
  {
  }

  lemma NextIndex(k: nat, m: nat, packetSize: nat)
    requires k >= m > 0
    ensures k / m == (k - m) / m + 1 && k % m == (k - m) % m
    ensures k / m * packetSize == (k - m) / m * packetSize + packetSize
  {
    var q, r := (k - m) / m, (k - m) % m;
    assert k == (q + 1) * m + r;
    assert (q + 1) * packetSize == q * packetSize + packetSize;
    QuotientOf(k, m, q + 1, r);
  }

  lemma QuotientOf(a: nat, d: nat, q: nat, r: nat)
    requires d > 0 && a == q * d + r && r < d
    ensures a / d == q && a % d == r
  {
    Numbers.QuotientIs(a, d, q, r);
  }

  function PacketsLength(n: nat, packetSize: nat): nat
    requires packetSize > 2
  {
    if n <= packetSize - 2 then 2 + n else packetSize + PacketsLength(n - (packetSize - 2), packetSize)
  }

  /** The chunk that carries `payload`: full packets, except the last (USB 2.0, section 5.8.3). */
  function Packets(payload: seq<byte>, packetSize: nat, status: nat -> byte): (r: seq<byte>)
    requires packetSize > 2
    ensures |r| == PacketsLength(|payload|, packetSize) >= 2
    decreases |payload|
  {
    var head := [status(2 * |payload|), status(2 * |payload| + 1)];
    if |payload| <= packetSize - 2 then head + payload
    else head + payload[..packetSize - 2] + Packets(payload[packetSize - 2..], packetSize, status)
  }

  lemma {:induction false} StripPackets(payload: seq<byte>, packetSize: nat, status: nat -> byte)
    requires packetSize > 2
    ensures Strip(Packets(payload, packetSize, status), packetSize) == payload
    decreases |payload|
  {
    var chunk := Packets(payload, packetSize, status);
    var n := Min(packetSize, |chunk|);
    if |payload| <= packetSize - 2 {
      assert chunk[2..] == payload;
      if |payload| > 0 {
        assert chunk[n..] == [];
        assert Strip(chunk[n..], packetSize) == [];
        assert chunk[2..n] == payload;
        assert payload + [] == payload;
      }
    } else {
      var rest := Packets(payload[packetSize - 2..], packetSize, status);
      StripPackets(payload[packetSize - 2..], packetSize, status);
      assert chunk[n..] == rest;
      assert chunk[2..n] == payload[..packetSize - 2];
    }
  }

  /** `memcpy` of `n` bytes to index `at` of `dst`. */
  method Memcpy(dst: array<byte>, at: nat, src: array<byte>, from: nat, n: nat)
    requires dst != src && at + n <= dst.Length && from + n <= src.Length
    modifies dst
    ensures forall k :: 0 <= k < dst.Length ==>
      dst[k] == if at <= k < at + n then src[from + (k - at)] else old(dst[k])
  {
    forall k | 0 <= k < n {
      dst[at + k] := src[from + k];
    }
  }

  /** A bulk OUT transfer with its `transfer_result`. */
  class WriteTransfer {
    const buffer: array<byte>
    const count: nat
    var offset: nat       // transfer->buffer, as an index
    var length: nat       // transfer->length
    var transferred: nat
    var done: bool
    var pending: bool
    ghost var accepted: seq<byte>  // what the device has taken

    ghost predicate Valid()
      reads this, buffer
    {
      && transferred <= count <= buffer.Length
      && accepted == buffer[..transferred]
      && (pending ==> !done && offset == transferred && length == count - transferred)
    }

    constructor (buffer: array<byte>, count: nat)
      requires count <= buffer.Length
      ensures Valid() && this.buffer == buffer && this.count == count
      ensures !pending && !done && transferred == 0
    {
      this.buffer, this.count := buffer, count;
      offset, length, transferred, done, pending, accepted := 0, count, 0, false, false, [];
    }

    method Submit(status: Status)
      requires Valid() && !done && transferred == 0 && !pending
      modifies this`offset, this`length, this`pending
      ensures Valid() && pending == (status == Success)
    {
      offset, length, pending := 0, count, status == Success;
    }

    /** `write_cb`: the device has taken the next `actual` bytes of the transfer's buffer. */
    method Callback(actual: nat, resubmit: bool)
      requires Valid() && pending && actual <= length
      modifies this
      ensures Valid()
      ensures accepted == old(accepted) + buffer[old(transferred)..old(transferred) + actual]
      ensures transferred == old(transferred) + actual
      ensures done <==> (transferred == count || !resubmit)
      ensures pending <==> !done
    {
      pending := false;
      accepted := accepted + buffer[offset..offset + actual];
      transferred := transferred + actual;
      if transferred == count {
        done := true;
      } else {
        length := count - transferred;
        offset := transferred;
        if resubmit {
          pending := true;
        } else {
          done := true;
        }
      }
    }
  }

  /** A bulk IN transfer with its `transfer_result`. */
  class ReadTransfer {
    const buffer: array<byte>
    const count: nat
    const chunk: array<byte>
    const packetSize: nat
    var transferred: nat
    var done: bool
    var pending: bool
    ghost var payload: seq<byte>   // what the device has sent, status bytes stripped

    ghost predicate Valid()
      reads this, buffer
    {
      && buffer != chunk && packetSize > 2 && count <= buffer.Length
      && transferred == Min(|payload|, count)
      && (forall k :: 0 <= k < transferred ==> buffer[k] == payload[k])
      && (pending ==> !done && transferred < count)
    }

    constructor (buffer: array<byte>, count: nat, chunk: array<byte>, packetSize: nat)
      requires buffer != chunk && packetSize > 2 && count <= buffer.Length
      ensures Valid()
      ensures this.buffer == buffer && this.count == count && this.chunk == chunk && this.packetSize == packetSize
      ensures !pending && done == (count == 0) && payload == []
    {
      this.buffer, this.count, this.chunk, this.packetSize := buffer, count, chunk, packetSize;
      transferred, done, pending, payload := 0, count == 0, false, [];
    }

    method Submit(status: Status)
      requires Valid() && !done && transferred < count
      modifies this`pending
      ensures Valid() && pending == (status == Success)
    {
      pending := status == Success;
    }

    /** The loop of `read_cb`: strip the status bytes of each packet and append the rest to the read
        buffer, up to the expected count, whatever the chunk holds. */
    method CopyPayload(actual: nat, ghost total: seq<byte>)
      requires Valid() && transferred < count && !done && actual <= chunk.Length
      requires total == payload + Strip(chunk[..actual], packetSize)
      modifies this`transferred, this`done, buffer
      ensures transferred == Min(|total|, count)
      ensures forall k :: 0 <= k < transferred ==> buffer[k] == total[k]
      ensures done == (transferred == count)
    {
      hide Strip, DivRoundUp;
      ghost var all := chunk[..actual];
      var numPackets := DivRoundUp(actual, packetSize);
      var chunkRemains := actual;
      var i := 0;
      ghost var pos := 0;
      assert all[0..] == all;
      while i < numPackets && chunkRemains > 2
        invariant pos == packetSize * i
        invariant chunkRemains == if pos <= actual then actual - pos else 0
        invariant transferred < count && transferred <= |total|
        invariant total[transferred..] == Strip(all[Min(pos, actual)..], packetSize)
        invariant forall k :: 0 <= k < transferred ==> buffer[k] == total[k]
        invariant !done
      {
        var thisSize := packetSize - 2;
        if thisSize > chunkRemains - 2 {
          thisSize := chunkRemains - 2;
        }
        StripOne(all, pos, thisSize, packetSize, total, transferred);
        if thisSize > count - transferred {
          thisSize := count - transferred;
        }
        Memcpy(buffer, transferred, chunk, packetSize * i + 2, thisSize);
        transferred := transferred + thisSize;
        if transferred == count {
          done := true;
          return;
        }
        chunkRemains := chunkRemains - (thisSize + 2);
        NextPacket(packetSize, i);
        pos := pos + packetSize;
        i := i + 1;
      }
      if i >= numPackets {
        EnoughPackets(i, packetSize, actual);
      }
      StripNothing(all[Min(pos, actual)..], packetSize);
    }

    /** `read_cb`. */
    method Callback(actual: nat, resubmit: bool)
      requires Valid() && pending && actual <= chunk.Length
      modifies this, buffer
      ensures Valid()
      ensures payload == old(payload) + Strip(chunk[..actual], packetSize)
      ensures done <==> (|payload| >= count || !resubmit)
      ensures pending <==> !done
    {
      ghost var total := payload + Strip(chunk[..actual], packetSize);
      pending := false;
      CopyPayload(actual, total);
      payload := total;
      if !done {
        if resubmit {
          pending := true;
        } else {
          done := true;
        }
      }
    }
  }

  /** What one turn of the loop takes off the front of the payload still to come. */
  lemma NextPacket(packetSize: nat, i: nat)
    ensures packetSize * (i + 1) == packetSize * i + packetSize
  {
  }

  lemma StripOne(all: seq<byte>, pos: nat, size: nat, packetSize: nat, total: seq<byte>, at: nat)
    requires packetSize > 2 && pos + 2 < |all| && size == Min(packetSize - 2, |all| - pos - 2)
    requires at <= |total| && total[at..] == Strip(all[pos..], packetSize)
    ensures at + size <= |total|
    ensures forall j :: at <= j < at + size ==> total[j] == all[pos + 2 + (j - at)]
    ensures total[at + size..] == Strip(all[Min(pos + packetSize, |all|)..], packetSize)
  {
    var rest := all[pos..];
    assert rest[size + 2..] == all[Min(pos + packetSize, |all|)..];
    var tail := Strip(rest[size + 2..], packetSize);
    assert total[at..] == rest[2..2 + size] + tail;
    forall j | at <= j < at + size ensures total[j] == all[pos + 2 + (j - at)] {
      assert total[j] == total[at..][j - at];
    }
    assert total[at + size..] == total[at..][size..];
  }

  lemma StripNothing(rest: seq<byte>, packetSize: nat)
    requires packetSize > 2 && |rest| <= 2
    ensures Strip(rest, packetSize) == []
  {
  }

  /** The packet count of the loop never cuts a chunk short. */
  lemma EnoughPackets(i: nat, packetSize: nat, length: nat)
    requires packetSize > 0 && i >= DivRoundUp(length, packetSize)
    ensures packetSize * i >= length
  {
    var n := DivRoundUp(length, packetSize);
    assert packetSize * n + packetSize > length + packetSize - 1;
    assert packetSize * i >= packetSize * n;
  }

  /** What matters of the two transfers for how a flush ends: byte counts and flags. */
  datatype Bus = Bus(sent: nat, writeDone: bool, writePending: bool, got: nat, readDone: bool, readPending: bool)

  /** What is to be transferred, and in what packets and chunks. */
  datatype Job = Job(writeCount: nat, readCount: nat, packetSize: nat, chunkSize: nat)

  function OnEvent(job: Job, b: Bus, e: Event): Bus
    requires job.packetSize > 2
  {
    match e
    case WriteDone(actual, resubmit) =>
      if !b.writePending || b.sent > job.writeCount then b
      else
        var sent := b.sent + Min(actual, job.writeCount - b.sent);
        var done := sent == job.writeCount || !resubmit;
        b.(sent := sent, writeDone := done, writePending := !done)
    case ReadNothing(resubmit) =>
      if !b.readPending then b else b.(readDone := !resubmit, readPending := resubmit)
    case ReadDone(count, _, resubmit) =>
      if !b.readPending then b
      else
        var n := if b.got + count <= job.readCount && PacketsLength(count,
                                                                    job.packetSize) <= job.chunkSize then count else 0;
        var done := b.got + n >= job.readCount || !resubmit;
        b.(got := b.got + n, readDone := done, readPending := !done)
  }

  function OnEvents(job: Job, b: Bus, events: seq<Event>): Bus
    requires job.packetSize > 2
  {
    if events == [] then b else OnEvent(job, OnEvents(job, b, events[..|events| - 1]), events[|events| - 1])
  }

  /** The inner polling loop, after a cancellation: final state, status and the polls not used. */
  function Drain(job: Job, b: Bus, polls: seq<Poll>, status: Status): (r: (Bus, Status, seq<Poll>))
    requires job.packetSize > 2
    ensures |r.2| <= |polls|
    decreases |polls|
  {
    if b.writeDone && b.readDone then (b, status, polls)
    else if polls == [] then (b, Interrupted, [])
    else
      var next := OnEvents(job, b, polls[0].events);
      if polls[0].status != Success then (next, polls[0].status, polls[1..])
      else Drain(job, next, polls[1..], Success)
  }

  /** The polling loop. */
  function Converge(job: Job, b: Bus, polls: seq<Poll>, status: Status): (Bus, Status)
    requires job.packetSize > 2
    decreases |polls|
  {
    if b.writeDone && b.readDone then (b, status)
    else if polls == [] then (b, Interrupted)
    else
      var next, s := OnEvents(job, b, polls[0].events), polls[0].status;
      if s == NoDevice || s == Interrupted then (next, s)
      else if s == Success then Converge(job, next, polls[1..], s)
      else
        var d := Drain(job, next, polls[1..], s);
        Converge(job, d.0, d.2, d.1)
  }

  function Started(job: Job): Bus {
    Bus(0, false, true, 0, job.readCount == 0, job.readCount > 0)
  }

  /** How the transfers of a flush end when libusb behaves as in `run`: a submission may be refused,
      otherwise it is up to the polling loop. */
  function Ending(job: Job, run: UsbRun): (Bus, Status)
    requires job.packetSize > 2
  {
    if run.submitWrite != Success then (Bus(0, false, false, 0, job.readCount == 0, false), run.submitWrite)
    else if job.readCount > 0 && run.submitRead != Success then (Bus(0, false, true, 0, false, false), run.submitRead)
    else Converge(job, Started(job), run.polls, Success)
  }

  /** Whether a flush that has to move `job` succeeds. */
  predicate Succeeds(job: Job, run: UsbRun) {
    && job.packetSize > 2
    && var end := Ending(job, run);
       end.1 == Success && end.0.sent >= job.writeCount && end.0.got >= job.readCount
  }

  /** All the flushes `jobs` succeed, the first of them being flush number `k`. */
  ghost predicate AllServed(usb: nat -> UsbRun, k: nat, jobs: seq<Job>) {
    forall i :: 0 <= i < |jobs| ==> Succeeds(jobs[i], usb(k + i))
  }

  lemma ServedConcat(usb: nat -> UsbRun, k: nat, jobs: seq<Job>, more: seq<Job>)
    ensures AllServed(usb, k, jobs + more) <==> AllServed(usb, k, jobs) && AllServed(usb, k + |jobs|, more)
  {
    hide Succeeds;
    var all := jobs + more;
    if AllServed(usb, k, all) {
      forall i | 0 <= i < |jobs| ensures Succeeds(jobs[i], usb(k + i)) {
        assert all[i] == jobs[i];
      }
      forall i | 0 <= i < |more| ensures Succeeds(more[i], usb(k + |jobs| + i)) {
        assert all[|jobs| + i] == more[i];
      }
    }
    if AllServed(usb, k, jobs) && AllServed(usb, k + |jobs|, more) {
      forall i | 0 <= i < |all| ensures Succeeds(all[i], usb(k + i)) {
        assert i >= |jobs| ==> all[i] == more[i - |jobs|];
      }
    }
  }

  /** Of the flushes `jobs`, those made if the first that fails is the last. */
  function UpToFailure(usb: nat -> UsbRun, k: nat, jobs: seq<Job>): (r: seq<Job>)
    ensures r <= jobs
    decreases |jobs|
  {
    if jobs == [] then []
    else if !Succeeds(jobs[0], usb(k)) then [jobs[0]]
    else [jobs[0]] + UpToFailure(usb, k + 1, jobs[1..])
  }

  lemma {:induction false} FirstFailure(usb: nat -> UsbRun, k: nat, jobs: seq<Job>, n: nat)
    requires n <= |jobs| && forall i :: 0 <= i < n ==> Succeeds(jobs[i], usb(k + i))
    ensures n == |jobs| ==> UpToFailure(usb, k, jobs) == jobs
    ensures n < |jobs| && !Succeeds(jobs[n], usb(k + n)) ==> UpToFailure(usb, k, jobs) == jobs[..n + 1]
    decreases n
  {
    hide Succeeds;
    if n > 0 {
      var rest := jobs[1..];
      assert Succeeds(jobs[0], usb(k + 0));
      forall i | 0 <= i < n - 1 ensures Succeeds(rest[i], usb(k + 1 + i)) {
        assert rest[i] == jobs[i + 1];
      }
      FirstFailure(usb, k + 1, rest, n - 1);
      assert n < |jobs| ==> rest[n - 1] == jobs[n] && [jobs[0]] + rest[..n] == jobs[..n + 1];
      assert jobs == [jobs[0]] + rest;
    }
  }

  /** The flushes `made`, with or without the last one failing, are an initial part of those planned. */
  lemma MadeOfPlanned(usb: nat -> UsbRun, k: nat, planned: seq<Job>, made: seq<Job>, failed: bool)
    requires made <= planned && (!failed ==> made == planned)
    requires failed ==> made != [] && !Succeeds(made[|made| - 1], usb(k + |made| - 1))
    requires AllServed(usb, k, if failed then made[..|made| - 1] else made)
    ensures UpToFailure(usb, k, planned) == made
    ensures AllServed(usb, k, planned) <==> !failed
  {
    hide Succeeds, UpToFailure;
    var n := if failed then |made| - 1 else |made|;
    forall i | 0 <= i < n ensures Succeeds(planned[i], usb(k + i)) {
      assert planned[i] == (if failed then made[..|made| - 1] else made)[i];
    }
    FirstFailure(usb, k, planned, n);
    if failed {
      assert planned[n] == made[n];
      assert made == planned[..n + 1];
    }
  }

  function Written(events: seq<Event>): nat {
    if events == [] then 0
    else Written(events[..|events| - 1]) + (if events[|events| - 1].WriteDone? then events[|events| - 1].actual else 0)
  }

  function ReadBack(events: seq<Event>): nat {
    if events == [] then 0
    else ReadBack(events[..|events| - 1]) + (if events[|events| - 1].ReadDone? then events[|events| - 1].count else 0)
  }

  function AllWritten(polls: seq<Poll>): nat {
    if polls == [] then 0 else Written(polls[0].events) + AllWritten(polls[1..])
  }

  function AllRead(polls: seq<Poll>): nat {
    if polls == [] then 0 else ReadBack(polls[0].events) + AllRead(polls[1..])
  }

  /** No error, every resubmission taken, every chunk small enough; pieces and order are left open. */
  ghost predicate Steady(job: Job, polls: seq<Poll>)
    requires job.packetSize > 2
  {
    forall p :: p in polls ==> p.status == Success && forall e :: e in p.events ==>
      e.resubmit && (e.ReadDone? ==> PacketsLength(e.count, job.packetSize) <= job.chunkSize)
  }

  ghost predicate Running(job: Job, b: Bus) {
    && b.sent <= job.writeCount && b.writeDone == (b.sent == job.writeCount) && b.writePending == !b.writeDone
    && b.got <= job.readCount && b.readDone == (b.got == job.readCount) && b.readPending == !b.readDone
  }

  lemma {:induction false} EventsAddUp(job: Job, b: Bus, events: seq<Event>)
    requires job.packetSize > 2 && Running(job, b)
    requires forall e :: e in events ==>
      e.resubmit && (e.ReadDone? ==> PacketsLength(e.count, job.packetSize) <= job.chunkSize)
    requires b.got + ReadBack(events) <= job.readCount
    ensures var end := OnEvents(job, b, events);
      Running(job, end) && end.sent == Min(b.sent + Written(events),
                                           job.writeCount) && end.got == b.got + ReadBack(events)
    decreases |events|
  {
    hide PacketsLength;
    if events != [] {
      assert events[|events| - 1] in events;
      EventsAddUp(job, b, events[..|events| - 1]);
    }
  }

  lemma {:induction false} PollsAddUp(job: Job, b: Bus, polls: seq<Poll>)
    requires job.packetSize > 2 && Running(job, b) && Steady(job, polls)
    requires b.sent + AllWritten(polls) >= job.writeCount && b.got + AllRead(polls) == job.readCount
    ensures var end := Converge(job, b, polls, Success);
      end.1 == Success && end.0.sent == job.writeCount && end.0.got == job.readCount
    decreases |polls|
  {
    hide OnEvents, Drain, Written, ReadBack;
    if !(b.writeDone && b.readDone) && polls != [] {
      assert polls[0] in polls;
      EventsAddUp(job, b, polls[0].events);
      PollsAddUp(job, OnEvents(job, b, polls[0].events), polls[1..]);
    }
  }

  /** A flush succeeds on every bus that takes all bytes and returns the whole reply without an error,
      in whatever pieces and whatever order. */
  lemma SteadyBusSucceeds(job: Job, run: UsbRun)
    requires job.packetSize > 2 && job.writeCount > 0
    requires run.submitWrite == Success && run.submitRead == Success && Steady(job, run.polls)
    requires AllWritten(run.polls) >= job.writeCount && AllRead(run.polls) == job.readCount
    ensures Succeeds(job, run)
  {
    PollsAddUp(job, Started(job), run.polls);
  }

  /** So long as the transfers are not done, losing the device or an interruption is the end of the flush, whatever
      would still have come. */
  lemma {:induction false} LostMeansFailed(job: Job, b: Bus, polls: seq<Poll>, k: nat)
    requires job.packetSize > 2 && k < |polls| && (polls[k].status == NoDevice || polls[k].status == Interrupted)
    requires forall i :: 0 <= i < k ==> polls[i].status == Success
    requires forall i :: 0 <= i <= k ==> var u := AfterPolls(job, b, polls[..i]); !(u.writeDone && u.readDone)
    ensures Converge(job, b, polls, Success).1 == polls[k].status
    decreases k
  {
    hide OnEvents, Drain;
    assert AfterPolls(job, b, polls[..0]) == b;
    if k > 0 {
      var next := OnEvents(job, b, polls[0].events);
      forall i | 0 <= i <= k - 1
        ensures var u := AfterPolls(job, next, polls[1..][..i]); !(u.writeDone && u.readDone)
      {
        var part := polls[..i + 1];
        assert part[1..] == polls[1..][..i] && part[0] == polls[0];
        assert AfterPolls(job, b, part) == AfterPolls(job, next, part[1..]);
      }
      LostMeansFailed(job, next, polls[1..], k - 1);
    }
  }

  function AfterPolls(job: Job, b: Bus, polls: seq<Poll>): Bus
    requires job.packetSize > 2
    decreases |polls|
  {
    if polls == [] then b else AfterPolls(job, OnEvents(job, b, polls[0].events), polls[1..])
  }

  /** A submission that is refused is, too; and so is a bus that falls silent. */
  lemma RefusedMeansFailed(job: Job, run: UsbRun)
    requires job.packetSize > 2 && job.writeCount > 0
    ensures run.submitWrite != Success ==> !Succeeds(job, run)
    ensures job.readCount > 0 && run.submitRead != Success ==> !Succeeds(job, run)
    ensures run.polls == [] ==> !Succeeds(job, run)
  {
  }

  /** A transfer that has ended before all of its bytes were moved. */
  predicate CutShort(job: Job, b: Bus) {
    (b.sent < job.writeCount && !b.writePending) || (b.got < job.readCount && !b.readPending)
  }

  lemma {:induction false} StaysCutShort(job: Job, b: Bus, events: seq<Event>)
    requires job.packetSize > 2 && CutShort(job, b)
    ensures CutShort(job, OnEvents(job, b, events))
    decreases |events|
  {
    if events != [] {
      StaysCutShort(job, b, events[..|events| - 1]);
    }
  }

  lemma {:induction false} EndsCutShort(job: Job, b: Bus, polls: seq<Poll>, status: Status)
    requires job.packetSize > 2 && CutShort(job, b)
    ensures CutShort(job, Drain(job, b, polls, status).0) && CutShort(job, Converge(job, b, polls, status).0)
    decreases |polls|
  {
    hide CutShort, OnEvents;
    if polls != [] {
      var next := OnEvents(job, b, polls[0].events);
      StaysCutShort(job, b, polls[0].events);
      EndsCutShort(job, next, polls[1..], polls[0].status);
      var d := Drain(job, next, polls[1..], polls[0].status);
      EndsCutShort(job, next, polls[1..], Success);
      EndsCutShort(job, d.0, d.2, d.1);
    }
  }

  /** A transfer that libusb refuses to take up again with bytes missing is the end of it: whatever else happens, the
      loop ends with bytes missing. */
  lemma RefusedAgainMeansFailed(job: Job, b: Bus, front: seq<Event>, e: Event, back: seq<Event>, polls: seq<Poll>,
                                status: Status)
    requires job.packetSize > 2 && !(b.writeDone && b.readDone) && !e.resubmit
    requires var u := OnEvents(job, b, front);
      match e
      case WriteDone(actual, _) => u.writePending && u.sent + actual < job.writeCount
      case ReadNothing(_) => u.readPending && u.got < job.readCount
      case ReadDone(count, _, _) => u.readPending && u.got + count < job.readCount
    ensures var end := Converge(job, b, [Poll(front + [e] + back, status)] + polls, Success).0;
      end.sent < job.writeCount || end.got < job.readCount
  {
    hide Drain, PacketsLength;
    var u := OnEvents(job, b, front + [e]);
    assert (front + [e])[..|front|] == front;
    assert CutShort(job, u);
    EventsInTurn(job, b, front + [e], back);
    StaysCutShort(job, u, back);
    var next := OnEvents(job, b, front + [e] + back);
    EndsCutShort(job, next, polls, status);
    var all := [Poll(front + [e] + back, status)] + polls;
    assert all[1..] == polls;
    var d := Drain(job, next, polls, status);
    EndsCutShort(job, d.0, d.2, d.1);
  }

  lemma {:induction false} EventsInTurn(job: Job, b: Bus, events: seq<Event>, more: seq<Event>)
    requires job.packetSize > 2
    ensures OnEvents(job, b, events + more) == OnEvents(job, OnEvents(job, b, events), more)
    decreases |more|
  {
    if more == [] {
      assert events + more == events;
    } else {
      var k := |more| - 1;
      assert (events + more)[..|events| + k] == events + more[..k];
      EventsInTurn(job, b, events, more[..k]);
    }
  }

  /** Any other error cancels the transfers; if they still complete, with a poll that succeeds, that counts. */
  lemma OtherErrorMayRecover(job: Job, written: seq<Event>, read: seq<Event>)
    requires job.packetSize > 2 && job.writeCount > 0
    requires var b := OnEvents(job, OnEvents(job, Started(job), written), read);
      b.writeDone && b.readDone && b.sent >= job.writeCount && b.got >= job.readCount
    requires var b := OnEvents(job, Started(job), written); !(b.writeDone && b.readDone)
    ensures Succeeds(job, UsbRun(Success, Success, [Poll(written, OtherError), Poll(read, Success)], []))
    ensures !Succeeds(job, UsbRun(Success, Success, [Poll(written, OtherError), Poll(read, OtherError)], []))
  {
    hide OnEvents;
    var first, second := Poll(written, OtherError), Poll(read, Success);
    var b := OnEvents(job, Started(job), written);
    assert [first, second][1..] == [second] && [second][1..] == [];
    var third := Poll(read, OtherError);
    assert [first, third][1..] == [third] && [third][1..] == [];
    var c := OnEvents(job, b, read);
    assert Drain(job, b, [third], OtherError) == (c, OtherError, []);
    assert Drain(job, b, [second], OtherError) == Drain(job, c, [], Success) == (c, Success, []);
    assert Converge(job, c, [], Success) == (c, Success) && Converge(job, c, [], OtherError) == (c, OtherError);
    assert Converge(job, Started(job), [first, second], Success) == (c, Success);
    assert Converge(job, Started(job), [first, third], Success) == (c, OtherError);
  }

  /** No more than so many bytes each way. */
  predicate Within(job: Job, write: nat, read: nat) {
    job.packetSize > 2 && job.chunkSize >= 3 && 0 < job.writeCount <= write && job.readCount <= read
  }

  /** A bus that serves whatever comes: it takes all bytes at once and answers reads byte by byte, for as
      long as there are any. */
  function Obliging(write: nat, read: nat): UsbRun {
    UsbRun(Success, Success, [Poll([WriteDone(write, true)] + seq(read, _ => ReadDone(1, _ => 0, true)), Success)], [])
  }

  lemma {:induction false} ObligingEvents(job: Job, write: nat, read: nat, n: nat)
    requires Within(job, write, read) && n <= read
    ensures var b := OnEvents(job, Started(job), Obliging(write, read).polls[0].events[..1 + n]);
      b.sent == job.writeCount && b.writeDone && b.got == Min(n, job.readCount)
      && b.readDone == (b.got == job.readCount) && b.readPending == !b.readDone
    decreases n
  {
    var events := Obliging(write, read).polls[0].events;
    if n == 0 {
      assert events[..1] == [events[0]];
      assert events[..1][..0] == [];
    } else {
      ObligingEvents(job, write, read, n - 1);
      assert events[..1 + n][..n] == events[..n];
      assert events[n].ReadDone? && events[n].count == 1 && events[n].resubmit;
      assert PacketsLength(1, job.packetSize) == 3;
    }
  }

  /** It serves every job of the size it is made for, without knowing it. */
  lemma ObligingServes(job: Job, write: nat, read: nat)
    requires Within(job, write, read)
    ensures Succeeds(job, Obliging(write, read))
  {
    hide OnEvents;
    var polls := Obliging(write, read).polls;
    ObligingEvents(job, write, read, read);
    assert polls[0].events[..1 + read] == polls[0].events;
    var end := OnEvents(job, Started(job), polls[0].events);
    assert Converge(job, end, polls[1..], Success) == (end, Success);
    assert Converge(job, Started(job), polls, Success) == (end, Success);
  }

  ghost function BusOf(w: WriteTransfer, r: ReadTransfer): Bus
    reads w, r
  {
    Bus(w.transferred, w.done, w.pending, |r.payload|, r.done, r.pending)
  }

  ghost function JobOf(w: WriteTransfer, r: ReadTransfer): Job {
    Job(w.count, r.count, r.packetSize, r.chunk.Length)
  }

  /** The callbacks that run inside one call of the event loop. The device is `reply` long and sends
      it in order, `sent` bytes of it so far, cut into chunks as the events say. */
  method Deliver(w: WriteTransfer, r: ReadTransfer, events: seq<Event>, reply: seq<byte>, sent0: nat)
    returns (sent: nat)
    requires w.Valid() && r.Valid() && r.chunk.Length >= 2
    requires w.buffer != r.buffer && w.buffer != r.chunk && |reply| == r.count
    requires sent0 <= |reply| && r.payload == reply[..sent0]
    modifies w, r, r.buffer, r.chunk
    ensures w.Valid() && r.Valid()
    ensures sent <= |reply| && r.payload == reply[..sent]
    ensures BusOf(w, r) == OnEvents(JobOf(w, r), old(BusOf(w, r)), events)
  {
    hide Strip, PacketsLength;
    sent := sent0;
    for i := 0 to |events|
      invariant w.Valid() && r.Valid()
      invariant sent <= |reply| && r.payload == reply[..sent]
      invariant BusOf(w, r) == OnEvents(JobOf(w, r), old(BusOf(w, r)), events[..i])
    {
      assert events[..i + 1][..i] == events[..i];
      match events[i]
      case WriteDone(actual, resubmit) =>
        if w.pending {
          w.Callback(Min(actual, w.length), resubmit);
        }
      case ReadNothing(resubmit) =>
        if r.pending {
          StripNothing(r.chunk[..0], r.packetSize);
          r.Callback(0, resubmit);
        }
      case ReadDone(count, status, resubmit) =>
        if r.pending {
          sent := SendChunk(r, count, status, resubmit, reply, sent);
        }
    }
    assert events[..|events|] == events;
  }

  /** libusb stores what has arrived. */
  method Fill(chunk: array<byte>, data: seq<byte>)
    requires |data| <= chunk.Length
    modifies chunk
    ensures chunk[..|data|] == data
  {
    forall k | 0 <= k < |data| {
      chunk[k] := data[k];
    }
  }

  /** The device answers a read with up to `count` more bytes of `reply`, in packets. */
  method SendChunk(r: ReadTransfer, count: nat, packetStatus: nat -> byte, resubmit: bool, reply: seq<byte>, sent0: nat)
    returns (sent: nat)
    requires r.Valid() && r.pending && r.chunk.Length >= 2 && |reply| == r.count
    requires sent0 <= |reply| && r.payload == reply[..sent0]
    modifies r, r.buffer, r.chunk
    ensures r.Valid()
    ensures sent <= |reply| && r.payload == reply[..sent]
    ensures var fits := sent0 + count <= |reply| && PacketsLength(count, r.packetSize) <= r.chunk.Length;
      sent == sent0 + (if fits then count else 0)
    ensures r.done <==> (sent >= r.count || !resubmit)
    ensures r.pending <==> !r.done
  {
    hide Strip, PacketsLength, Packets, Min;
    var n := if sent0 + count <= |reply| then count else 0;
    if |Packets(reply[sent0..sent0 + n], r.packetSize, packetStatus)| > r.chunk.Length {
      n := 0;
    }
    var data := Packets(reply[sent0..sent0 + n], r.packetSize, packetStatus);
    EmptyPackets(r.packetSize, packetStatus);
    StripPackets(reply[sent0..sent0 + n], r.packetSize, packetStatus);
    Fill(r.chunk, data);
    r.Callback(|data|, resubmit);
    sent := sent0 + n;
    assert reply[..sent] == reply[..sent0] + reply[sent0..sent];
  }

  lemma EmptyPackets(packetSize: nat, status: nat -> byte)
    requires packetSize > 2
    ensures |Packets([], packetSize, status)| == 2
  {
  }

  /** The inner polling loop: both transfers are cancelled, but their callbacks still arrive. */
  method DrainPolls(w: WriteTransfer, r: ReadTransfer, polls: seq<Poll>, k0: nat, status0: Status, reply: seq<byte>,
                    sent0: nat)
    returns (k: nat, status: Status, sent: nat)
    requires w.Valid() && r.Valid() && r.chunk.Length >= 2 && k0 <= |polls|
    requires w.buffer != r.buffer && w.buffer != r.chunk && |reply| == r.count
    requires sent0 <= |reply| && r.payload == reply[..sent0]
    modifies w, r, r.buffer, r.chunk
    ensures w.Valid() && r.Valid() && k0 <= k <= |polls|
    ensures sent <= |reply| && r.payload == reply[..sent]
    ensures (BusOf(w, r), status, polls[k..]) == Drain(JobOf(w, r), old(BusOf(w, r)), polls[k0..], status0)
  {
    hide OnEvents;
    ghost var job, end := JobOf(w, r), Drain(JobOf(w, r), BusOf(w, r), polls[k0..], status0);
    k, status, sent := k0, status0, sent0;
    while !w.done || !r.done
      invariant w.Valid() && r.Valid() && k0 <= k <= |polls|
      invariant sent <= |reply| && r.payload == reply[..sent]
      invariant Drain(job, BusOf(w, r), polls[k..], status) == end
      decreases |polls| - k
    {
      if k == |polls| {
        status := Interrupted;
        return;
      }
      assert polls[k..][1..] == polls[k + 1..];
      sent := Deliver(w, r, polls[k].events, reply, sent);
      status := polls[k].status;
      k := k + 1;
      if status != Success {
        return;
      }
    }
  }

  /** From the submission of the write to the end of the polling loop in `mpsse_flush`. */
  method Exchange(w: WriteTransfer, r: ReadTransfer, run: UsbRun, reply: seq<byte>) returns (status: Status)
    requires w.Valid() && r.Valid() && r.chunk.Length >= 2
    requires w.buffer != r.buffer && w.buffer != r.chunk
    requires !w.done && !w.pending && w.transferred == 0
    requires !r.pending && r.payload == [] && r.done == (r.count == 0) && |reply| == r.count
    modifies w, r, r.buffer, r.chunk
    ensures w.Valid() && r.Valid()
    ensures r.payload <= reply
    ensures (BusOf(w, r), status) == Ending(JobOf(w, r), run)
  {
    hide OnEvents, Drain, Converge;
    ghost var job := JobOf(w, r);
    w.Submit(run.submitWrite);
    status := run.submitWrite;
    if status != Success {
      return;
    }
    if r.count != 0 {
      r.Submit(run.submitRead);
      status := run.submitRead;
      if status != Success {
        return;
      }
    }
    assert BusOf(w, r) == Started(job);
    status := PollEvents(w, r, run.polls, reply);
  }

  /** The polling loop. */
  method PollEvents(w: WriteTransfer, r: ReadTransfer, polls: seq<Poll>, reply: seq<byte>) returns (status: Status)
    requires w.Valid() && r.Valid() && r.chunk.Length >= 2
    requires w.buffer != r.buffer && w.buffer != r.chunk && |reply| == r.count && r.payload == []
    modifies w, r, r.buffer, r.chunk
    ensures w.Valid() && r.Valid()
    ensures r.payload <= reply
    ensures (BusOf(w, r), status) == Converge(JobOf(w, r), old(BusOf(w, r)), polls, Success)
  {
    hide OnEvents, Drain;
    ghost var job, end := JobOf(w, r), Converge(JobOf(w, r), BusOf(w, r), polls, Success);
    var sent: nat, k: nat := 0, 0;
    status := Success;
    assert polls[0..] == polls;
    while !w.done || !r.done
      invariant w.Valid() && r.Valid() && k <= |polls|
      invariant sent <= |reply| && r.payload == reply[..sent]
      invariant Converge(job, BusOf(w, r), polls[k..], status) == end
      decreases |polls| - k
    {
      if k == |polls| {
        status := Interrupted;
        return;
      }
      assert polls[k..][1..] == polls[k + 1..];
      sent := Deliver(w, r, polls[k].events, reply, sent);
      status := polls[k].status;
      k := k + 1;
      if status == NoDevice || status == Interrupted {
        return;
      }
      if status != Success {
        k, status, sent := DrainPolls(w, r, polls, k, status, reply, sent);
      }
    }
  }

  /** One write and, when a reply is due, one read; `ok` as the checks at the end of `mpsse_flush` have it. */
  method Converse(writeBuffer: array<byte>, writeCount: nat, readBuffer: array<byte>, readCount: nat,
                  readChunk: array<byte>,
                  packetSize: nat, run: UsbRun, reply: seq<byte>)
    returns (ok: bool, ghost accepted: seq<byte>, ghost received: seq<byte>)
    requires writeBuffer != readBuffer && writeBuffer != readChunk && readBuffer != readChunk
    requires writeCount <= writeBuffer.Length && readCount <= readBuffer.Length && readChunk.Length >= 2
    requires packetSize > 2 && |reply| == readCount
    modifies readBuffer, readChunk
    ensures ok <==> Succeeds(Job(writeCount, readCount, packetSize, readChunk.Length), run)
    ensures accepted <= writeBuffer[..writeCount] && received <= reply
    ensures ok ==> accepted == writeBuffer[..writeCount] && received == reply == readBuffer[..readCount]
  {
    var w := new WriteTransfer(writeBuffer, writeCount);
    var r := new ReadTransfer(readBuffer, readCount, readChunk, packetSize);
    var status := Exchange(w, r, run, reply);
    ok := status == Success && w.transferred >= writeCount && r.transferred >= readCount;
    accepted, received := w.accepted, r.payload;
  }
}
