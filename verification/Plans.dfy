/** When the driver flushes. Every operation of mpsse.c flushes when the space left in one of its buffers
    is too small for the next command; so the flushes of a request, and what each has to move, follow from
    the buffer sizes, the fill levels and the request alone. */
module Plans {
  import opened Usb

  /** The sizes of the buffers, USB packets and read chunks. */
  datatype Sizes = Sizes(write: nat, read: nat, packet: nat, chunk: nat)
  {
    predicate Ok() { write >= 5 && read >= 1 && packet > 2 && chunk >= 3 }
  }

  /** `mpsse_open` */
  function OpenSizes(packet: nat): Sizes { Sizes(16384, 16384, packet, 16384) }

  /** The flushes an operation makes if all of them succeed, and the fill levels it leaves. */
  datatype Plan = Plan(jobs: seq<Job>, w: nat, r: nat)

  function Then(p: Plan, q: Plan): Plan { Plan(p.jobs + q.jobs, q.w, q.r) }

  /** `mpsse_flush`: with nothing to write nothing is moved; with a reply due, SEND_IMMEDIATE goes along. */
  function FlushPlan(s: Sizes, w: nat, r: nat): Plan {
    Plan(if w == 0 then [] else [Job(w + (if r > 0 then 1 else 0), r, s.packet, s.chunk)], 0, 0)
  }

  /** The check before a command: flush unless there is room for `need` bytes and one reply byte. */
  function RoomPlan(s: Sizes, w: nat, r: nat, need: nat, reading: bool): Plan {
    if s.write - w - 1 < need || (reading && s.read - r < 1) then FlushPlan(s, w, r) else Plan([], w, r)
  }

  /** A command of so many clocks, and the fill levels after it. */
  datatype Turn = Turn(n: nat, w: nat, r: nat)

  function DataNeed(length: nat, sending: bool): nat {
    (if sending then 4 else 3) - (if length < 8 then 1 else 0)
  }

  predicate HasRoom(s: Sizes, w: nat, r: nat, need: nat, reading: bool) {
    s.write - w - 1 >= need && (reading ==> s.read - r >= 1)
  }

  lemma RoomIsMade(s: Sizes, w: nat, r: nat, need: nat, reading: bool)
    requires s.Ok() && need <= 4
    ensures var room := RoomPlan(s, w, r, need, reading); HasRoom(s, room.w, room.r, need, reading)
  {
  }

  /** One turn of the loop of `mpsse_clock_data`. */
  function DataTurn(s: Sizes, w: nat, r: nat, length: nat, sending: bool, reading: bool): (t: Turn)
    requires (sending || reading) && length > 0 && HasRoom(s, w, r, DataNeed(length, sending), reading)
    ensures 0 < t.n <= length
  {
    if length < 8 then Turn(length, w + (if sending then 3 else 2), r + (if reading then 1 else 0))
    else
      var n0 := length / 8;
      var n1 := if n0 > 65536 then 65536 else n0;
      var n2: nat := if sending && n1 + 3 > s.write - w - 1 then s.write - w - 4 else n1;
      var n: nat := if reading && n2 > s.read - r then s.read - r else n2;
      Turn(8 * n, w + 3 + (if sending then n else 0), r + (if reading then n else 0))
  }

  /** `mpsse_clock_data`: `sending` when data goes out with it, `reading` when TDO is read. */
  function DataPlan(s: Sizes, w: nat, r: nat, length: nat, sending: bool, reading: bool): Plan
    requires s.Ok() && (sending || reading)
    decreases length
  {
    if length == 0 then Plan([], w, r)
    else
      RoomIsMade(s, w, r, DataNeed(length, sending), reading);
      var room := RoomPlan(s, w, r, DataNeed(length, sending), reading);
      var t := DataTurn(s, room.w, room.r, length, sending, reading);
      Then(room, DataPlan(s, t.w, t.r, length - t.n, sending, reading))
  }

  function TmsTurn(w: nat, r: nat, length: nat, reading: bool): (t: Turn)
    requires length > 0
    ensures 0 < t.n <= length
  {
    Turn(if length > 7 then 7 else length, w + 3, r + (if reading then 1 else 0))
  }

  /** `mpsse_clock_tms_cs` */
  function TmsPlan(s: Sizes, w: nat, r: nat, length: nat, reading: bool): Plan
    requires s.Ok()
    decreases length
  {
    if length == 0 then Plan([], w, r)
    else
      var room := RoomPlan(s, w, r, 3, reading);
      var t := TmsTurn(room.w, room.r, length, reading);
      Then(room, TmsPlan(s, t.w, t.r, length - t.n, reading))
  }

  /** A pin or configuration command of so many bytes. */
  function CommandPlan(s: Sizes, w: nat, r: nat, bytes: nat, reading: bool): Plan {
    var room := RoomPlan(s, w, r, bytes, reading);
    Plan(room.jobs, room.w + bytes, room.r + (if reading then 1 else 0))
  }

  lemma DataPlanEnds(s: Sizes, w: nat, r: nat, sending: bool, reading: bool)
    requires s.Ok() && (sending || reading)
    ensures DataPlan(s, w, r, 0, sending, reading) == Plan([], w, r)
  {
  }

  lemma ThenAssoc(p: Plan, q: Plan, t: Plan)
    ensures Then(Then(p, q), t) == Then(p, Then(q, t))
  {
  }

  lemma ThenNothing(p: Plan)
    ensures Then(p, Plan([], p.w, p.r)) == p
  {
  }

  /** TMS bits clocked in pieces of seven are planned like all at once. */
  lemma {:induction false} TmsPlanSplit(s: Sizes, w: nat, r: nat, first: nat, rest: nat, reading: bool)
    requires s.Ok() && (first % 7 == 0 || rest == 0)
    ensures var p := TmsPlan(s, w, r, first, reading);
      TmsPlan(s, w, r, first + rest, reading) == Then(p, TmsPlan(s, p.w, p.r, rest, reading))
    decreases first
  {
    hide RoomPlan;
    if rest == 0 {
      ThenNothing(TmsPlan(s, w, r, first, reading));
    } else if first == 0 {
      assert Then(Plan([], w, r), TmsPlan(s, w, r, rest, reading)) == TmsPlan(s, w, r, rest, reading);
    } else {
      var room := RoomPlan(s, w, r, 3, reading);
      var t := TmsTurn(room.w, room.r, first, reading);
      TmsPlanSplit(s, t.w, t.r, first - 7, rest, reading);
      var p := TmsPlan(s, t.w, t.r, first - 7, reading);
      ThenAssoc(room, p, TmsPlan(s, p.w, p.r, rest, reading));
    }
  }

  /** Levels within the buffers, with the byte for SEND_IMMEDIATE. */
  predicate Levels(s: Sizes, w: nat, r: nat) {
    w < s.write && r <= s.read
  }

  /** The levels stay there, and every flush moves between one byte and a full buffer. */
  ghost predicate Bounded(s: Sizes, p: Plan) {
    Levels(s, p.w, p.r) && forall j :: j in p.jobs ==> Within(j, s.write, s.read)
  }

  lemma ThenBounded(s: Sizes, p: Plan, q: Plan)
    requires (forall j :: j in p.jobs ==> Within(j, s.write, s.read)) && Bounded(s, q)
    ensures Bounded(s, Then(p, q))
  {
  }

  lemma FlushBounded(s: Sizes, w: nat, r: nat)
    requires s.Ok() && Levels(s, w, r)
    ensures Bounded(s, FlushPlan(s, w, r))
  {
  }

  lemma {:induction false} DataBounded(s: Sizes, w: nat, r: nat, length: nat, sending: bool, reading: bool)
    requires s.Ok() && (sending || reading) && Levels(s, w, r)
    ensures Bounded(s, DataPlan(s, w, r, length, sending, reading))
    decreases length
  {
    hide Within;
    if length > 0 {
      RoomIsMade(s, w, r, DataNeed(length, sending), reading);
      FlushBounded(s, w, r);
      var room := RoomPlan(s, w, r, DataNeed(length, sending), reading);
      var t := DataTurn(s, room.w, room.r, length, sending, reading);
      DataBounded(s, t.w, t.r, length - t.n, sending, reading);
      ThenBounded(s, room, DataPlan(s, t.w, t.r, length - t.n, sending, reading));
    }
  }

  lemma {:induction false} TmsBounded(s: Sizes, w: nat, r: nat, length: nat, reading: bool)
    requires s.Ok() && Levels(s, w, r)
    ensures Bounded(s, TmsPlan(s, w, r, length, reading))
    decreases length
  {
    hide Within;
    if length > 0 {
      RoomIsMade(s, w, r, 3, reading);
      FlushBounded(s, w, r);
      var room := RoomPlan(s, w, r, 3, reading);
      var t := TmsTurn(room.w, room.r, length, reading);
      TmsBounded(s, t.w, t.r, length - t.n, reading);
      ThenBounded(s, room, TmsPlan(s, t.w, t.r, length - t.n, reading));
    }
  }

  /** An obliging bus serves every plan. */
  lemma ObligingServesAll(usb: nat -> UsbRun, s: Sizes, k: nat, p: Plan)
    requires Bounded(s, p) && forall i :: usb(i) == Obliging(s.write, s.read)
    ensures AllServed(usb, k, p.jobs)
  {
    hide Succeeds, Within;
    forall i | 0 <= i < |p.jobs| ensures Succeeds(p.jobs[i], usb(k + i)) {
      ObligingServes(p.jobs[i], s.write, s.read);
    }
  }

  /** The command bytes of a data request: three for every 65536 whole bytes, and these, if they are sent; two for bits
      left over, and one more for what is sent. */
  function DataBytes(length: nat, sending: bool): nat {
    3 * ((length / 8 + 65535) / 65536) + (if sending then length / 8 else 0)
      + (if length % 8 == 0 then 0 else if sending then 3 else 2)
  }

  /** Without the room that it needs, a request that is under way is flushed. */
  lemma FullIsFlushed(s: Sizes, w: nat, r: nat, length: nat, sending: bool, reading: bool)
    requires s.Ok() && (sending || reading) && length > 0 && w > 0
    requires !HasRoom(s, w, r, DataNeed(length, sending), reading)
    ensures DataPlan(s, w, r, length, sending, reading).jobs != []
  {
  }

  /** Bits less than a byte. */
  lemma FittingBits(s: Sizes, w: nat, r: nat, length: nat, sending: bool, reading: bool)
    requires s.Ok() && (sending || reading) && length < 8 && r <= s.read && (w == 0 ==> r == 0)
    ensures var fits := w + DataBytes(length, sending) < s.write && (reading && length > 0 ==> r < s.read);
      var plan := DataPlan(s, w, r, length, sending, reading);
      && (fits ==> plan == Plan([], w + DataBytes(length, sending), r + (if reading && length > 0 then 1 else 0)))
      && (!fits && w < s.write ==> plan.jobs != [])
  {
    if 0 < length {
      var plan := DataPlan(s, w, r, length, sending, reading);
      if HasRoom(s, w, r, DataNeed(length, sending), reading) {
        var t := DataTurn(s, w, r, length, sending, reading);
        assert DataPlan(s, t.w, t.r, length - t.n, sending, reading) == Plan([], t.w, t.r);
        assert plan == Then(Plan([], w, r), Plan([], t.w, t.r));
      } else {
        FullIsFlushed(s, w, r, length, sending, reading);
      }
    }
  }

  /** A data request is flushed exactly if it does not fit into the space left. If it does, it takes so many bytes of
      it, and one byte of the read buffer for every eight bits read, rounded up. */
  lemma {:induction false} FittingData(s: Sizes, w: nat, r: nat, length: nat, sending: bool, reading: bool)
    requires s.Ok() && (sending || reading)
    requires w < s.write && r <= s.read && (w == 0 ==> r == 0)
    ensures var need, due := DataBytes(length, sending), if reading then (length + 7) / 8 else 0;
      var plan := DataPlan(s, w, r, length, sending, reading);
      && (w + need < s.write && r + due <= s.read ==> plan == Plan([], w + need, r + due))
      && (plan.jobs == [] ==> w + need < s.write && r + due <= s.read)
    decreases length
  {
    hide DataPlan, DataBytes;
    if length < 8 {
      FittingBits(s, w, r, length, sending, reading);
    } else if !HasRoom(s, w, r, DataNeed(length, sending), reading) {
      FullIsFlushed(s, w, r, length, sending, reading);
      NeedsRoom(length, sending);
    } else {
      FirstTurn(s, w, r, length, sending, reading);
      var t := DataTurn(s, w, r, length, sending, reading);
      TurnTakes(s, w, r, length, sending, reading);
      if length >= 8 * 65536 + 8 && t.n == 8 * 65536 {
        FittingData(s, t.w, t.r, length - t.n, sending, reading);
      } else if length < 8 * 65536 + 8 {
        FittingBytes(s, w, r, length, sending, reading);
      } else {
        FullIsFlushed(s, t.w, t.r, length - t.n, sending, reading);
      }
    }
  }

  lemma NeedsRoom(length: nat, sending: bool)
    requires length >= 8
    ensures DataBytes(length, sending) >= DataNeed(length, sending)
  {
  }

  /** A turn that is not cut off by a full buffer, on more bytes than a command takes. */
  lemma TurnTakes(s: Sizes, w: nat, r: nat, length: nat, sending: bool, reading: bool)
    requires s.Ok() && (sending || reading) && length >= 8 && w < s.write && r <= s.read
    requires HasRoom(s, w, r, DataNeed(length, sending), reading)
    ensures var t := DataTurn(s, w, r, length, sending, reading);
      && t.w < s.write && t.r <= s.read && t.w > 0
      && (length >= 8 * 65536 + 8 ==>
            && DataBytes(length, sending) == 3 + (if sending then 65536 else 0) + DataBytes(length - 8 * 65536, sending)
            && (t.n == 8 * 65536 ==>
                  t.w == w + 3 + (if sending then 65536 else 0) && t.r == r + if reading then 65536 else 0)
            && (t.n != 8 * 65536 ==>
                  && !HasRoom(s, t.w, t.r, DataNeed(length - t.n, sending), reading)
                  && !(w + DataBytes(length, sending) < s.write
                       && r + (if reading then (length + 7) / 8 else 0) <= s.read)))
  {
    if length >= 8 * 65536 + 8 {
      BytesOfRest(length, sending);
    }
  }

  lemma BytesOfRest(length: nat, sending: bool)
    requires length >= 8 * 65536
    ensures DataBytes(length, sending) == 3 + (if sending then 65536 else 0) + DataBytes(length - 8 * 65536, sending)
  {
  }

  /** What is left after the whole bytes. */
  lemma FittingBytes(s: Sizes, w: nat, r: nat, length: nat, sending: bool, reading: bool)
    requires s.Ok() && (sending || reading) && 8 <= length < 8 * 65536 + 8 && r <= s.read
    requires HasRoom(s, w, r, DataNeed(length, sending), reading)
    ensures var need, due := DataBytes(length, sending), if reading then (length + 7) / 8 else 0;
      var t := DataTurn(s, w, r, length, sending, reading);
      var rest := DataPlan(s, t.w, t.r, length - t.n, sending, reading);
      && (w + need < s.write && r + due <= s.read ==> rest == Plan([], w + need, r + due))
      && (rest.jobs == [] ==> w + need < s.write && r + due <= s.read)
  {
    hide DataPlan;
    var t := DataTurn(s, w, r, length, sending, reading);
    if t.n == 8 * (length / 8) {
      FittingBits(s, t.w, t.r, length - t.n, sending, reading);
    } else {
      FullIsFlushed(s, t.w, t.r, length - t.n, sending, reading);
    }
  }

  lemma FirstTurn(s: Sizes, w: nat, r: nat, length: nat, sending: bool, reading: bool)
    requires s.Ok() && (sending || reading) && length > 0 && HasRoom(s, w, r, DataNeed(length, sending), reading)
    ensures var t := DataTurn(s, w, r, length, sending, reading);
      var rest := DataPlan(s, t.w, t.r, length - t.n, sending, reading);
      DataPlan(s, w, r, length, sending, reading) == Plan(rest.jobs, rest.w, rest.r)
  {
    var t := DataTurn(s, w, r, length, sending, reading);
    var rest := DataPlan(s, t.w, t.r, length - t.n, sending, reading);
    assert DataPlan(s, w, r, length, sending, reading) == Then(Plan([], w, r), rest);
    assert [] + rest.jobs == rest.jobs;
  }

  /** So it is with TMS bits: three bytes, and one byte of the read buffer, for every seven of them, rounded up. */
  lemma {:induction false} FittingTms(s: Sizes, w: nat, r: nat, length: nat, reading: bool)
    requires s.Ok() && w < s.write && r <= s.read && (w == 0 ==> r == 0)
    ensures var n := (length + 6) / 7;
      var due, plan := if reading then n else 0, TmsPlan(s, w, r, length, reading);
      && (w + 3 * n < s.write && r + due <= s.read ==> plan == Plan([], w + 3 * n, r + due))
      && (plan.jobs == [] ==> w + 3 * n < s.write && r + due <= s.read)
    decreases length
  {
    if length > 0 && HasRoom(s, w, r, 3, reading) {
      var t := TmsTurn(w, r, length, reading);
      FittingTms(s, t.w, t.r, length - t.n, reading);
      var rest := TmsPlan(s, t.w, t.r, length - t.n, reading);
      assert TmsPlan(s, w, r, length, reading) == Then(Plan([], w, r), rest);
      assert [] + rest.jobs == rest.jobs;
    }
  }

  /** And with a pin or configuration command. */
  lemma FittingCommand(s: Sizes, w: nat, r: nat, bytes: nat, reading: bool)
    requires s.Ok() && 0 < bytes <= 3 && w < s.write && r <= s.read && (w == 0 ==> r == 0)
    ensures var due, plan := if reading then 1 else 0, CommandPlan(s, w, r, bytes, reading);
      if w + bytes < s.write && r + due <= s.read then plan == Plan([], w + bytes, r + due)
      else
        && |plan.jobs| == 1 && plan.w == bytes && plan.r == due
        && plan.jobs[0] == Job(if r > 0 then w + 1 else w, r, s.packet, s.chunk)
  {
  }

  /** Part of an operation is done: its flushes so far and the rest of the plan make up the whole, and
      none of them has failed but perhaps the last. */
  ghost predicate Underway(usb: nat -> UsbRun, jobs0: seq<Job>, jobs: seq<Job>, ok: bool, whole: Plan, rest: Plan) {
    && jobs0 <= jobs
    && var made := jobs[|jobs0|..];
    && whole == Then(Plan(made, 0, 0), rest)
    && (!ok ==> made != [] && !Succeeds(made[|made| - 1], usb(|jobs| - 1)))
    && AllServed(usb, |jobs0|, if ok then made else made[..|made| - 1])
  }

  /** What an operation, begun without a pending error, has done to flushes, error and fill levels: it
      stops flushing with the first flush that fails, leaves that error pending, and runs into the driver's
      assertion exactly if the plan had another flush after it. */
  ghost predicate Followed(usb: nat -> UsbRun, jobs0: seq<Job>, plan: Plan, jobs: seq<Job>, ok: bool, aborted: bool,
                           w: nat, r: nat) {
    var made := UpToFailure(usb, |jobs0|, plan.jobs);
    && jobs == jobs0 + made
    && (ok <==> AllServed(usb, |jobs0|, plan.jobs))
    && (aborted <==> |made| < |plan.jobs|)
    && (!aborted ==> w == plan.w && r == plan.r)
  }

  lemma Begin(usb: nat -> UsbRun, jobs0: seq<Job>, whole: Plan)
    ensures Underway(usb, jobs0, jobs0, true, whole, whole)
  {
    assert Then(Plan([], 0, 0), whole).jobs == whole.jobs;
  }

  /** A space check has been passed. */
  lemma RoomPassed(usb: nat -> UsbRun, jobs0: seq<Job>, jobs: seq<Job>, ok: bool, whole: Plan, room: Plan, rest: Plan,
                   jobs': seq<Job>, ok': bool)
    requires Underway(usb, jobs0, jobs, ok, whole, Then(room, rest))
    requires |room.jobs| <= 1 && jobs' == jobs + room.jobs && (ok || room.jobs == [])
    requires if ok then ok' <==> AllServed(usb, |jobs|, room.jobs) else !ok'
    ensures Underway(usb, jobs0, jobs', ok', whole, rest)
  {
    hide Succeeds, AllServed;
    var made, made' := jobs[|jobs0|..], jobs'[|jobs0|..];
    assert made' == made + room.jobs;
    assert whole.jobs == made + (room.jobs + rest.jobs) == made' + rest.jobs;
    if room.jobs != [] {
      var job := room.jobs[0];
      assert room.jobs == [job];
      assert made'[..|made'| - 1] == made;
      ServedConcat(usb, |jobs0|, made, [job]);
      OneServed(usb, |jobs|, job);
    } else {
      assert made' == made && jobs' == jobs;
      NoneServed(usb, |jobs|);
    }
  }

  lemma OneServed(usb: nat -> UsbRun, k: nat, job: Job)
    ensures AllServed(usb, k, [job]) <==> Succeeds(job, usb(k))
  {
    hide Succeeds;
    assert AllServed(usb, k, [job]) ==> Succeeds([job][0], usb(k + 0));
  }

  lemma NoneServed(usb: nat -> UsbRun, k: nat)
    ensures AllServed(usb, k, [])
  {
  }

  lemma Done(usb: nat -> UsbRun, jobs0: seq<Job>, jobs: seq<Job>, ok: bool, whole: Plan, w: nat, r: nat)
    requires Underway(usb, jobs0, jobs, ok, whole, Plan([], w, r))
    ensures Followed(usb, jobs0, whole, jobs, ok, false, w, r)
  {
    hide Succeeds, UpToFailure;
    var made := jobs[|jobs0|..];
    assert whole.jobs == made + [] == made;
    MadeOfPlanned(usb, |jobs0|, whole.jobs, made, !ok);
  }

  /** The driver's assertion has failed: an error was pending when the next flush was due. */
  lemma Stopped(usb: nat -> UsbRun, jobs0: seq<Job>, jobs: seq<Job>, whole: Plan, rest: Plan, w: nat, r: nat)
    requires Underway(usb, jobs0, jobs, false, whole, rest) && rest.jobs != []
    ensures Followed(usb, jobs0, whole, jobs, false, true, w, r)
  {
    hide Succeeds, UpToFailure;
    var made := jobs[|jobs0|..];
    MadeOfPlanned(usb, |jobs0|, whole.jobs, made, true);
  }

  /** A space check has been made. */
  ghost predicate Passed(usb: nat -> UsbRun, jobs: seq<Job>, ok: bool, room: Plan, jobs': seq<Job>, ok': bool) {
    && (ok || room.jobs == []) && jobs' == jobs + room.jobs
    && (if ok then ok' <==> AllServed(usb, |jobs|, room.jobs) else !ok')
  }

  /** The plan of a data request after one more turn of its loop. */
  lemma DataStepTaken(usb: nat -> UsbRun, s: Sizes, jobs0: seq<Job>, jobs: seq<Job>, ok: bool, whole: Plan, w: nat,
                      r: nat, length: nat,
                      sending: bool, reading: bool, jobs': seq<Job>, ok': bool)
    requires s.Ok() && (sending || reading) && length > 0
    requires Underway(usb, jobs0, jobs, ok, whole, DataPlan(s, w, r, length, sending, reading))
    ensures var room := RoomPlan(s, w, r, DataNeed(length, sending), reading);
      && HasRoom(s, room.w, room.r, DataNeed(length, sending), reading)
      && (whole.jobs == [] ==> room.jobs == [])
      && (room.jobs != [] ==> DataPlan(s, w, r, length, sending, reading).jobs != [])
      && var t := DataTurn(s, room.w, room.r, length, sending, reading);
        Passed(usb, jobs, ok, room, jobs', ok') ==>
          Underway(usb, jobs0, jobs', ok', whole, DataPlan(s, t.w, t.r, length - t.n, sending, reading))
  {
    hide Succeeds, AllServed, Underway, DataTurn;
    RoomIsMade(s, w, r, DataNeed(length, sending), reading);
    var room := RoomPlan(s, w, r, DataNeed(length, sending), reading);
    var t := DataTurn(s, room.w, room.r, length, sending, reading);
    RestOfQuiet(usb, jobs0, jobs, ok, whole, DataPlan(s, w, r, length, sending, reading));
    if Passed(usb, jobs, ok, room, jobs', ok') {
      RoomPassed(usb, jobs0, jobs, ok, whole, room, DataPlan(s, t.w, t.r, length - t.n, sending, reading), jobs', ok');
    }
  }

  lemma RestOfQuiet(usb: nat -> UsbRun, jobs0: seq<Job>, jobs: seq<Job>, ok: bool, whole: Plan, rest: Plan)
    requires Underway(usb, jobs0, jobs, ok, whole, rest)
    ensures whole.jobs == [] ==> rest.jobs == []
  {
    hide Succeeds, AllServed;
    assert |whole.jobs| >= |rest.jobs|;
  }

  /** Likewise of a TMS request. */
  lemma TmsStepTaken(usb: nat -> UsbRun, s: Sizes, jobs0: seq<Job>, jobs: seq<Job>, ok: bool, whole: Plan, w: nat,
                     r: nat, length: nat,
                     reading: bool, jobs': seq<Job>, ok': bool)
    requires s.Ok() && length > 0
    requires Underway(usb, jobs0, jobs, ok, whole, TmsPlan(s, w, r, length, reading))
    ensures var room := RoomPlan(s, w, r, 3, reading);
      && HasRoom(s, room.w, room.r, 3, reading)
      && (whole.jobs == [] ==> room.jobs == [])
      && (room.jobs != [] ==> TmsPlan(s, w, r, length, reading).jobs != [])
      && var t := TmsTurn(room.w, room.r, length, reading);
        Passed(usb, jobs, ok, room, jobs', ok') ==>
          Underway(usb, jobs0, jobs', ok', whole, TmsPlan(s, t.w, t.r, length - t.n, reading))
  {
    hide Succeeds, AllServed, Underway, TmsTurn;
    RoomIsMade(s, w, r, 3, reading);
    var room := RoomPlan(s, w, r, 3, reading);
    var t := TmsTurn(room.w, room.r, length, reading);
    RestOfQuiet(usb, jobs0, jobs, ok, whole, TmsPlan(s, w, r, length, reading));
    if Passed(usb, jobs, ok, room, jobs', ok') {
      RoomPassed(usb, jobs0, jobs, ok, whole, room, TmsPlan(s, t.w, t.r, length - t.n, reading), jobs', ok');
    }
  }

  /** A pin or configuration command has been added after its space check. */
  lemma CommandFollowed(usb: nat -> UsbRun, s: Sizes, jobs0: seq<Job>, w0: nat, r0: nat, bytes: nat, reading: bool,
                        jobs: seq<Job>, ok: bool, w: nat, r: nat)
    requires var room := RoomPlan(s, w0, r0, bytes, reading);
      && jobs == jobs0 + room.jobs && (ok <==> AllServed(usb, |jobs0|, room.jobs))
      && w == room.w + bytes && r == room.r + (if reading then 1 else 0)
    ensures Followed(usb, jobs0, CommandPlan(s, w0, r0, bytes, reading), jobs, ok, false, w, r)
  {
    hide Succeeds, AllServed, Underway, Followed;
    var room, rest := RoomPlan(s, w0, r0, bytes, reading), Plan([], w, r);
    var whole := CommandPlan(s, w0, r0, bytes, reading);
    assert whole == Then(room, rest);
    Begin(usb, jobs0, whole);
    RoomPassed(usb, jobs0, jobs0, true, whole, room, rest, jobs, ok);
    Done(usb, jobs0, jobs, ok, whole, w, r);
  }

  /** One call of the driver, as far as flushes go: whether data is given and whether a reply is read. */
  datatype Ask =
    | AskData(length: nat, out: bool, into: bool)
    | AskTms(length: nat, into: bool)
    | AskCommand(bytes: nat, into: bool)
    | AskFlush

  function AskPlan(s: Sizes, w: nat, r: nat, a: Ask): Plan
    requires s.Ok()
  {
    match a
    case AskData(length, out, into) => DataPlan(s, w, r, length, out || !into, into)
    case AskTms(length, into) => TmsPlan(s, w, r, length, into)
    case AskCommand(bytes, into) => CommandPlan(s, w, r, bytes, into)
    case AskFlush => FlushPlan(s, w, r)
  }

  /** Calls one after another. */
  function AllAsked(s: Sizes, w: nat, r: nat, asks: seq<Ask>): Plan
    requires s.Ok()
  {
    if asks == [] then Plan([], w, r)
    else
      var k := |asks| - 1;
      var p := AllAsked(s, w, r, asks[..k]);
      Then(p, AskPlan(s, p.w, p.r, asks[k]))
  }

  lemma {:induction false} AskedConcat(s: Sizes, w: nat, r: nat, asks: seq<Ask>, more: seq<Ask>)
    requires s.Ok()
    ensures var p := AllAsked(s, w, r, asks);
      AllAsked(s, w, r, asks + more) == Then(p, AllAsked(s, p.w, p.r, more))
    decreases |more|
  {
    hide AskPlan;
    var p := AllAsked(s, w, r, asks);
    if more == [] {
      assert asks + more == asks;
      ThenNothing(p);
    } else {
      var k := |more| - 1;
      AskedConcat(s, w, r, asks, more[..k]);
      assert (asks + more)[..|asks| + k] == asks + more[..k];
      var q := AllAsked(s, p.w, p.r, more[..k]);
      ThenAssoc(p, q, AskPlan(s, q.w, q.r, more[k]));
    }
  }

  lemma OneAsked(s: Sizes, w: nat, r: nat, a: Ask)
    requires s.Ok()
    ensures AllAsked(s, w, r, [a]) == AskPlan(s, w, r, a)
  {
    hide AskPlan;
    assert [a][..0] == [];
    assert AllAsked(s, w, r, []) == Plan([], w, r);
    assert [] + AskPlan(s, w, r, a).jobs == AskPlan(s, w, r, a).jobs;
  }

  /** The commands are short. */
  ghost predicate Short(asks: seq<Ask>) {
    forall a :: a in asks ==> a.AskCommand? ==> a.bytes <= 4
  }

  /** Whatever is asked, every flush moves between one byte and a full buffer. */
  lemma {:induction false} AskedBounded(s: Sizes, w: nat, r: nat, asks: seq<Ask>)
    requires s.Ok() && Levels(s, w, r) && Short(asks)
    ensures Bounded(s, AllAsked(s, w, r, asks))
    decreases |asks|
  {
    hide Within, DataPlan, TmsPlan;
    if asks != [] {
      var k := |asks| - 1;
      AskedBounded(s, w, r, asks[..k]);
      var p := AllAsked(s, w, r, asks[..k]);
      assert asks[k] in asks;
      match asks[k] {
        case AskData(length, out, into) => DataBounded(s, p.w, p.r, length, out || !into, into);
        case AskTms(length, into) => TmsBounded(s, p.w, p.r, length, into);
        case AskCommand(bytes, into) =>
          FlushBounded(s, p.w, p.r);
          RoomIsMade(s, p.w, p.r, bytes, into);
        case AskFlush => FlushBounded(s, p.w, p.r);
      }
      ThenBounded(s, p, AskPlan(s, p.w, p.r, asks[k]));
    }
  }

  /** Where a caller finds the driver: the flushes so far, whether no error is pending, and the fill levels. */
  datatype Point = Point(jobs: seq<Job>, ok: bool, w: nat, r: nat)

  /** No error is pending, and libusb serves all the flushes that the calls will make. */
  ghost predicate Met(usb: nat -> UsbRun, s: Sizes, b: Point, asks: seq<Ask>)
    requires s.Ok()
  {
    b.ok && AllServed(usb, |b.jobs|, AllAsked(s, b.w, b.r, asks).jobs)
  }

  /** Where the driver is then. */
  function Reached(s: Sizes, b: Point, asks: seq<Ask>): Point
    requires s.Ok()
  {
    var p := AllAsked(s, b.w, b.r, asks);
    Point(b.jobs + p.jobs, true, p.w, p.r)
  }

  /** An error is pending afterwards exactly if there was one or one of the flushes failed. */
  ghost predicate Settles(usb: nat -> UsbRun, s: Sizes, b: Point, asks: seq<Ask>, a: Point)
    requires s.Ok()
  {
    (a.ok <==> Met(usb, s, b, asks)) && (a.ok ==> a == Reached(s, b, asks))
  }

  lemma MetNothing(usb: nat -> UsbRun, s: Sizes, b: Point)
    requires s.Ok()
    ensures Met(usb, s, b, []) <==> b.ok
    ensures b.ok ==> Reached(s, b, []) == b
  {
    NoneServed(usb, |b.jobs|);
    assert AllAsked(s, b.w, b.r, []) == Plan([], b.w, b.r);
    assert b.jobs + [] == b.jobs;
  }

  /** Calls can be met if the first of them can, and then the others. */
  lemma MetConcat(usb: nat -> UsbRun, s: Sizes, b: Point, asks: seq<Ask>, more: seq<Ask>)
    requires s.Ok()
    ensures Met(usb, s, b, asks + more) <==> Met(usb, s, b, asks) && Met(usb, s, Reached(s, b, asks), more)
    ensures Reached(s, b, asks + more) == Reached(s, Reached(s, b, asks), more)
  {
    hide AllServed, AllAsked;
    AskedConcat(s, b.w, b.r, asks, more);
    var p := AllAsked(s, b.w, b.r, asks);
    var q := AllAsked(s, p.w, p.r, more);
    ServedConcat(usb, |b.jobs|, p.jobs, q.jobs);
    assert b.jobs + (p.jobs + q.jobs) == b.jobs + p.jobs + q.jobs;
  }

  lemma SettlesNothing(usb: nat -> UsbRun, s: Sizes, b: Point)
    requires s.Ok()
    ensures Settles(usb, s, b, [], b)
  {
    hide Met, Reached;
    MetNothing(usb, s, b);
  }

  lemma SettlesThen(usb: nat -> UsbRun, s: Sizes, b: Point, asks: seq<Ask>, m: Point, more: seq<Ask>, a: Point)
    requires s.Ok() && Settles(usb, s, b, asks, m) && Settles(usb, s, m, more, a)
    ensures Settles(usb, s, b, asks + more, a)
  {
    hide Met, Reached;
    MetConcat(usb, s, b, asks, more);
    assert Met(usb, s, m, more) ==> m.ok by { MetNeedsOk(usb, s, m, more); }
  }

  lemma MetNeedsOk(usb: nat -> UsbRun, s: Sizes, b: Point, asks: seq<Ask>)
    requires s.Ok()
    ensures Met(usb, s, b, asks) ==> b.ok
  {
  }

  /** One call that has been followed to its end. */
  lemma FollowedSettles(usb: nat -> UsbRun, s: Sizes, b: Point, ask: Ask, a: Point, aborted: bool)
    requires s.Ok() && (aborted ==> !a.ok)
    requires !b.ok ==> !a.ok
    requires b.ok ==> Followed(usb, b.jobs, AskPlan(s, b.w, b.r, ask), a.jobs, a.ok, aborted, a.w, a.r)
    ensures Settles(usb, s, b, [ask], a)
  {
    hide Succeeds, UpToFailure, AllServed, AskPlan, AllAsked;
    OneAsked(s, b.w, b.r, ask);
    AllMade(usb, |b.jobs|, AskPlan(s, b.w, b.r, ask).jobs);
  }

  lemma AllMade(usb: nat -> UsbRun, k: nat, jobs: seq<Job>)
    ensures AllServed(usb, k, jobs) ==> UpToFailure(usb, k, jobs) == jobs
  {
    hide Succeeds, UpToFailure;
    if AllServed(usb, k, jobs) {
      FirstFailure(usb, k, jobs, |jobs|);
    }
  }

  /** The flush after an operation that may have left an error pending. */
  lemma FlushSettles(usb: nat -> UsbRun, s: Sizes, b: Point, asks: seq<Ask>, m: Point, jobs: seq<Job>, ok: bool)
    requires s.Ok() && Settles(usb, s, b, asks, m)
    requires m.ok ==>
      && jobs == m.jobs + FlushPlan(s, m.w, m.r).jobs
      && (ok <==> AllServed(usb, |m.jobs|, FlushPlan(s, m.w, m.r).jobs))
    requires !m.ok ==> !ok
    ensures ok <==> Met(usb, s, b, asks + [AskFlush])
    ensures ok ==> Point(jobs, true, 0, 0) == Reached(s, b, asks + [AskFlush])
  {
    hide Succeeds, AllServed, AllAsked;
    MetConcat(usb, s, b, asks, [AskFlush]);
    OneAsked(s, m.w, m.r, AskFlush);
  }

  lemma TmsInPieces(usb: nat -> UsbRun, s: Sizes, b: Point, first: nat, rest: nat, into: bool)
    requires s.Ok() && (first % 7 == 0 || rest == 0)
    ensures var m := Reached(s, b, [AskTms(first, into)]);
      var met := Met(usb, s, b, [AskTms(first, into)]) && Met(usb, s, m, [AskTms(rest, into)]);
      && Met(usb, s, b, [AskTms(first + rest, into)]) == met
      && Reached(s, b, [AskTms(first + rest, into)]) == Reached(s, m, [AskTms(rest, into)])
  {
    hide AllServed, AllAsked, TmsPlan;
    TmsPlanSplit(s, b.w, b.r, first, rest, into);
    var p := TmsPlan(s, b.w, b.r, first, into);
    OneAsked(s, b.w, b.r, AskTms(first, into));
    OneAsked(s, b.w, b.r, AskTms(first + rest, into));
    OneAsked(s, p.w, p.r, AskTms(rest, into));
    var q := TmsPlan(s, p.w, p.r, rest, into);
    ServedConcat(usb, |b.jobs|, p.jobs, q.jobs);
    assert b.jobs + (p.jobs + q.jobs) == b.jobs + p.jobs + q.jobs;
  }

  lemma NoTms(usb: nat -> UsbRun, s: Sizes, b: Point, into: bool)
    requires s.Ok()
    ensures Met(usb, s, b, [AskTms(0, into)]) <==> b.ok
    ensures b.ok ==> Reached(s, b, [AskTms(0, into)]) == b
  {
    OneAsked(s, b.w, b.r, AskTms(0, into));
    NoneServed(usb, |b.jobs|);
    assert b.jobs + [] == b.jobs;
  }

  lemma LevelAfterFlush(s: Sizes, w: nat, r: nat)
    ensures FlushPlan(s, w, r).w == 0 && FlushPlan(s, w, r).r == 0
  {
  }
}
