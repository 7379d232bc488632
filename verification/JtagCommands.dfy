/** The commands of the JTAG queue, and for each of them the clocks it stands for, where the TAP is
    afterwards, and which TDO bits go where. */
module JtagCommands {
  import opened Bits
  import opened MpsseDevice
  import opened ReadBack
  import opened ShiftCommands
  import opened Tap
  import opened Interface
  import opened Plans
  import Usb

  /** `struct scan_field`, with its pointers `out_value` and `in_value`, which may be the same. */
  datatype Field = Field(numBits: nat, out: array?<byte>, into: array?<byte>)
  {
    ghost predicate Fits() {
      && (out != null ==> numBits <= 8 * out.Length)
      && (into != null ==> numBits <= 8 * into.Length)
    }

    ghost predicate Within(m: Memory) {
      (into != null ==> into in m.targets) && (out != null ==> out in m.held)
    }
  }

  /** `struct jtag_command`, without JTAG_RESET. */
  datatype Command =
    | Runtest(numCycles: int, endState: State)
    | TlrReset(endState: State)
    | Pathmove(path: seq<State>)
    | Scan(irScan: bool, fields: seq<Field>, endState: State)
    | Sleep(us: nat)
    | StableClocks(numCycles: int)
    | Tms(bits: seq<byte>, numBits: nat)

  /** The buffers a command stores TDO bits in. */
  ghost function Targets(cmd: Command): set<array<byte>> {
    if cmd.Scan? then set f | f in cmd.fields && f.into != null :: f.into as array<byte> else {}
  }

  ghost function AllTargets(cmds: seq<Command>): set<array<byte>> {
    set c, a | c in cmds && a in Targets(c) :: a
  }

  /** The buffers it sends from. */
  ghost function Sources(cmd: Command): set<array<byte>> {
    if cmd.Scan? then set f | f in cmd.fields && f.out != null :: f.out as array<byte> else {}
  }

  ghost function AllSources(cmds: seq<Command>): set<array<byte>> {
    set c, a | c in cmds && a in Sources(c) :: a
  }

  /** What the caller's buffers `held` when `log` was all that had been stored. Nothing is stored in any of them but
      `targets`. */
  datatype Memory = Memory(held: map<array<byte>, seq<byte>>, targets: set<array<byte>>, log: seq<Write>)

  /** So that is what they hold when the writes are `ws`. */
  ghost predicate Kept(m: Memory, ws: seq<Write>)
    reads m.held.Keys
  {
    m.log <= ws && forall a :: a in m.held ==> a[..] == Later(a, m.held[a], m.targets, ws[|m.log|..])
  }

  /** None of the writes since is to `a`. */
  ghost predicate Clean(m: Memory, ws: seq<Write>, a: array?<byte>) {
    m.log <= ws && forall w :: w in ws[|m.log|..] ==> w.cell.buf != a
  }

  /** The caller's buffers are long enough. */
  ghost predicate CommandFits(cmd: Command) {
    match cmd
    case Scan(_, fields, _) => forall f :: f in fields ==> f.Fits()
    case Tms(bits, numBits) => numBits <= 8 * |bits|
    case _ => true
  }

  /** `m` knows them all. */
  ghost predicate CommandWithin(m: Memory, cmd: Command) {
    cmd.Scan? ==> forall f :: f in cmd.fields ==> f.Within(m)
  }

  /** A scan without its trailing empty fields. */
  function Trimmed(fields: seq<Field>): (r: seq<Field>)
    ensures r <= fields && (r == [] || r[|r| - 1].numBits > 0)
  {
    if fields != [] && fields[|fields| - 1].numBits == 0 then Trimmed(fields[..|fields| - 1]) else fields
  }

  /** A scan that is not empty. */
  predicate RealScan(cmd: Command) {
    cmd.Scan? && Trimmed(cmd.fields) != []
  }

  function TotalBits(fields: seq<Field>): nat {
    if fields == [] then 0 else TotalBits(fields[..|fields| - 1]) + fields[|fields| - 1].numBits
  }

  /** Nothing is lost by that. */
  lemma {:induction false} TrimmedLosesNothing(fields: seq<Field>)
    ensures TotalBits(Trimmed(fields)) == TotalBits(fields)
    ensures TotalBits(fields) == 0 <==> Trimmed(fields) == []
    decreases |fields|
  {
    if fields != [] && fields[|fields| - 1].numBits == 0 {
      TrimmedLosesNothing(fields[..|fields| - 1]);
    }
  }

  /** `bits` is what a field may put on TDI: zeros when it has no buffer at all; when it is only read TDI does not
      matter; otherwise each bit is what `out` held at some moment while the writes `ws` were being stored, and that
      is what it held in the beginning if none of the writes can have come in between. */
  ghost predicate FieldCarried(m: Memory, clean: bool, ws: seq<Write>, f: Field, bits: seq<bool>) {
    && |bits| == f.numBits
    && (f.out == null && f.into == null ==> bits == Repeat(false, f.numBits))
    && (f.out != null ==>
          && m.log <= ws && f.out in m.held && f.numBits <= 8 * |m.held[f.out]|
          && HeldOnTheWay(f.out, m.held[f.out], 0, m.targets, ws[|m.log|..], bits)
          && (clean ==> bits == BufBits(m.held[f.out], 0, f.numBits)))
  }

  /** Before field `k`, `out` is not written: not by the writes `ws` owed at the start of the scan, and no field
      so far is read into it. */
  ghost predicate Unread(m: Memory, ws: seq<Write>, fields: seq<Field>, k: nat)
    requires k < |fields|
  {
    Clean(m, ws, fields[k].out) && forall j :: 0 <= j < k ==> fields[j].into != fields[k].out
  }

  /** The same for all fields, one after another; `owed` are the writes owed before and `ws` those after. */
  ghost predicate Carries(m: Memory, owed: seq<Write>, ws: seq<Write>, fields: seq<Field>, bits: seq<bool>) {
    if fields == [] then bits == []
    else
      var k := |fields| - 1;
      var n := TotalBits(fields[..k]);
      && n <= |bits| && Carries(m, owed, ws, fields[..k], bits[..n])
      && FieldCarried(m, Unread(m, owed, fields, k), ws, fields[k], bits[n..])
  }

  lemma {:induction false} CarriesLength(m: Memory, owed: seq<Write>, ws: seq<Write>, fields: seq<Field>,
                                         bits: seq<bool>)
    requires Carries(m, owed, ws, fields, bits)
    ensures |bits| == TotalBits(fields)
  {
  }

  lemma CarriedStill(m: Memory, clean: bool, ws: seq<Write>, ws2: seq<Write>, f: Field, bits: seq<bool>)
    requires FieldCarried(m, clean, ws, f, bits) && ws <= ws2
    ensures FieldCarried(m, clean, ws2, f, bits)
  {
    hide HeldOnTheWay;
    if f.out != null {
      HeldStill(f.out, m.held[f.out], 0, m.targets, ws[|m.log|..], ws2[|m.log|..], bits);
    }
  }

  lemma {:induction false} CarriesStill(m: Memory, owed: seq<Write>, ws: seq<Write>, ws2: seq<Write>,
                                        fields: seq<Field>, bits: seq<bool>)
    requires Carries(m, owed, ws, fields, bits) && ws <= ws2
    ensures Carries(m, owed, ws2, fields, bits)
    decreases |fields|
  {
    hide FieldCarried, Unread;
    if fields != [] {
      var k := |fields| - 1;
      var n := TotalBits(fields[..k]);
      CarriesStill(m, owed, ws, ws2, fields[..k], bits[..n]);
      CarriedStill(m, Unread(m, owed, fields, k), ws, ws2, fields[k], bits[n..]);
    }
  }

  lemma CarriesOneMore(m: Memory, owed: seq<Write>, mid: seq<Write>, ws: seq<Write>, fields: seq<Field>, i: nat,
                       bits: seq<bool>, more: seq<bool>)
    requires i < |fields| && Carries(m, owed, mid, fields[..i], bits) && mid <= ws
    requires FieldCarried(m, Unread(m, owed, fields, i), ws, fields[i], more)
    ensures Carries(m, owed, ws, fields[..i + 1], bits + more)
    ensures TotalBits(fields[..i + 1]) == |bits| + |more|
  {
    hide FieldCarried, Clean;
    CarriesLength(m, owed, mid, fields[..i], bits);
    CarriesStill(m, owed, mid, ws, fields[..i], bits);
    CarriedLength(m, Unread(m, owed, fields, i), ws, fields[i], more);
    assert fields[..i + 1][..i] == fields[..i];
    assert (bits + more)[..|bits|] == bits && (bits + more)[|bits|..] == more;
    assert Unread(m, owed, fields[..i + 1], i) == Unread(m, owed, fields, i);
  }

  lemma CarriedLength(m: Memory, clean: bool, ws: seq<Write>, f: Field, bits: seq<bool>)
    requires FieldCarried(m, clean, ws, f, bits)
    ensures |bits| == f.numBits
  {
  }

  /** What field `j` has sent. */
  lemma {:induction false} CarriedField(m: Memory, owed: seq<Write>, ws: seq<Write>, fields: seq<Field>,
                                        bits: seq<bool>, j: nat)
    requires Carries(m, owed, ws, fields, bits) && j < |fields|
    ensures var n := TotalBits(fields[..j]);
      && n + fields[j].numBits <= |bits|
      && FieldCarried(m, Unread(m, owed, fields, j), ws, fields[j], bits[n..n + fields[j].numBits])
    decreases |fields|
  {
    hide FieldCarried, Clean;
    var k := |fields| - 1;
    var n := TotalBits(fields[..k]);
    CarriedLength(m, Unread(m, owed, fields, k), ws, fields[k], bits[n..]);
    if j == k {
      assert bits[n..n + fields[k].numBits] == bits[n..];
    } else {
      CarriedField(m, owed, ws, fields[..k], bits[..n], j);
      assert fields[..k][..j] == fields[..j];
      assert Unread(m, owed, fields[..k], j) == Unread(m, owed, fields, j);
      var from, to := TotalBits(fields[..j]), TotalBits(fields[..j]) + fields[j].numBits;
      assert bits[..n][from..to] == bits[from..to];
    }
  }

  /** The TDO bits of a field whose first clock is action number `from`. */
  function FieldRun(env: Env, acts: seq<Action>, f: Field, from: nat): seq<Write>
    requires from + f.numBits <= |acts|
  {
    if f.into == null then [] else WriteRun(f.into, 0, Samples(env, acts[..from + f.numBits], from))
  }

  /** Those of a scan: each field that is read gets those of its own clocks. */
  function FieldWrites(env: Env, acts: seq<Action>, fields: seq<Field>, from: nat): seq<Write>
    requires from + TotalBits(fields) <= |acts|
  {
    if fields == [] then []
    else
      var k := |fields| - 1;
      FieldWrites(env, acts, fields[..k], from) + FieldRun(env, acts, fields[k], from + TotalBits(fields[..k]))
  }

  lemma FieldWritesSnoc(env: Env, acts: seq<Action>, fields: seq<Field>, f: Field, from: nat)
    requires from + TotalBits(fields) + f.numBits <= |acts|
    ensures TotalBits(fields + [f]) == TotalBits(fields) + f.numBits
    ensures FieldWrites(env, acts, fields + [f], from)
         == FieldWrites(env, acts, fields, from) + FieldRun(env, acts, f, from + TotalBits(fields))
  {
    hide FieldRun;
    assert (fields + [f])[..|fields|] == fields;
  }

  lemma {:induction false} FieldWritesExtend(env: Env, acts: seq<Action>, more: seq<Action>, fields: seq<Field>,
                                             from: nat)
    requires from + TotalBits(fields) <= |acts|
    ensures FieldWrites(env, acts + more, fields, from) == FieldWrites(env, acts, fields, from)
    decreases |fields|
  {
    if fields != [] {
      var k := |fields| - 1;
      FieldWritesExtend(env, acts, more, fields[..k], from);
      var to := from + TotalBits(fields[..k]) + fields[k].numBits;
      assert (acts + more)[..to] == acts[..to];
    }
  }

  lemma {:induction false} NoFieldWrites(env: Env, acts: seq<Action>, fields: seq<Field>, from: nat, a: array<byte>,
                                         s: seq<byte>)
    requires from + TotalBits(fields) <= |acts|
    requires forall f :: f in fields ==> f.into != a
    ensures Stored(a, s, FieldWrites(env, acts, fields, from)) == s
    decreases |fields|
  {
    hide Stored, Samples;
    if fields == [] {
      StoredNone(a, s);
    } else {
      var k := |fields| - 1;
      NoFieldWrites(env, acts, fields[..k], from, a, s);
      assert fields[k] in fields;
      var run := FieldRun(env, acts, fields[k], from + TotalBits(fields[..k]));
      StoredConcat(a, s, FieldWrites(env, acts, fields[..k], from), run);
      StoredElsewhere(a, s, run);
    }
  }

  /** Storing what a scan owes gives a buffer that belongs to field `j` alone the TDO bits of that field's
      clocks, from bit 0 on, and leaves its other bits alone. */
  lemma {:induction false} FieldGetsItsBits(env: Env, acts: seq<Action>, fields: seq<Field>, from: nat, j: nat,
                                            a: array<byte>, s: seq<byte>, i: nat)
    requires from + TotalBits(fields) <= |acts| && j < |fields|
    requires fields[j].into == a && fields[j].numBits <= 8 * |s| && i < 8 * |s|
    requires forall k :: 0 <= k < |fields| && k != j ==> fields[k].into != a
    ensures from + TotalBits(fields[..j]) + fields[j].numBits <= |acts|
    ensures BufBit(Stored(a, s, FieldWrites(env, acts, fields, from)), i)
         == if i < fields[j].numBits then env.tdo(acts[..from + TotalBits(fields[..j]) + i + 1]) else BufBit(s, i)
    decreases |fields|
  {
    hide Stored, Samples, BufBit;
    var k := |fields| - 1;
    var at := from + TotalBits(fields[..k]);
    var front, run := FieldWrites(env, acts, fields[..k], from), FieldRun(env, acts, fields[k], at);
    StoredConcat(a, s, front, run);
    if j == k {
      NoFieldWrites(env, acts, fields[..k], from, a, s);
      var vals := Samples(env, acts[..at + fields[k].numBits], at);
      StoredRun(a, s, 0, vals, i);
      if i < fields[k].numBits {
        SampleAt(env, acts, at, fields[k].numBits, i);
      }
    } else {
      FieldGetsItsBits(env, acts, fields[..k], from, j, a, s, i);
      assert fields[..k][..j] == fields[..j];
      StoredElsewhere(a, Stored(a, s, front), run);
    }
  }

  lemma SampleAt(env: Env, acts: seq<Action>, at: nat, n: nat, i: nat)
    requires at + n <= |acts| && i < n
    ensures Samples(env, acts[..at + n], at)[i] == env.tdo(acts[..at + i + 1])
  {
    assert acts[..at + n][..at + i + 1] == acts[..at + i + 1];
  }

  /** The TMS bits that lead from `from` to `to`; none if that is where the TAP is. */
  function MoveTms(short: bool, from: State, to: State): seq<bool>
    requires IsStable(from) && IsStable(to)
  {
    if from == to then [] else Path(short, from, to)
  }

  lemma MoveReaches(short: bool, from: State, to: State)
    requires IsStable(from) && IsStable(to)
    ensures Walk(from, MoveTms(short, from, to)) == to
  {
    hide Path;
    if from != to {
      PathReaches(short, from, to);
    }
  }

  function Cycles(n: int): nat { if n > 0 then n else 0 }

  /** The state before step `i` of a path. */
  function PathState(s: State, path: seq<State>, i: nat): State
    requires i <= |path|
  {
    if i == 0 then s else path[i - 1]
  }

  /** Each state of the path is one clock away from the one before. */
  predicate LegalPath(s: State, path: seq<State>) {
    forall i :: 0 <= i < |path| ==> LegalStep(PathState(s, path, i), path[i])
  }

  predicate LegalStep(s: State, to: State) {
    Next(s, false) == to || Next(s, true) == to
  }

  function PathTms(s: State, path: seq<State>): (r: seq<bool>)
    ensures |r| == |path|
  {
    seq(|path|, i requires 0 <= i < |path| => Next(PathState(s, path, i), false) != path[i])
  }

  function PathEnd(s: State, path: seq<State>): State {
    PathState(s, path, |path|)
  }

  lemma {:induction false} PathLeads(s: State, path: seq<State>, k: nat)
    requires LegalPath(s, path) && k <= |path|
    ensures Walk(s, PathTms(s, path)[..k]) == PathState(s, path, k)
    decreases k
  {
    hide Walk, Next, LegalPath, PathTms, PathState;
    var tms := PathTms(s, path);
    if k == 0 {
      WalkNowhere(s);
      assert tms[..0] == [];
      assert PathState(s, path, 0) == s by { PathStartsThere(s, path); }
    } else {
      PathLeads(s, path, k - 1);
      WalkOneMore(s, tms, k - 1);
      PathBitLeads(s, path, k - 1);
    }
  }

  lemma PathStartsThere(s: State, path: seq<State>)
    ensures PathState(s, path, 0) == s
  {
  }

  lemma PathBitLeads(s: State, path: seq<State>, i: nat)
    requires LegalPath(s, path) && i < |path|
    ensures Next(PathState(s, path, i), PathTms(s, path)[i]) == PathState(s, path, i + 1)
  {
    hide Next;
    assert LegalStep(PathState(s, path, i), path[i]);
  }

  /** TMS during the data bits, and TMS and TDI of what follows them. */
  function DataTms(held: bool, n: nat, leave: bool): (r: seq<bool>)
    ensures |r| == n
  {
    if leave && n > 0 then Repeat(held, n - 1) + [true] else Repeat(held, n)
  }

  function TailTms(short: bool, ir: bool, end: State): seq<bool>
    requires IsStable(end)
  {
    if end == ShiftState(ir) then [] else [false] + MoveTms(short, PauseState(ir), end)
  }

  function TailTdi(short: bool, ir: bool, end: State, last: bool): (r: seq<bool>)
    requires IsStable(end)
    ensures |r| == |TailTms(short, ir, end)|
  {
    if end == ShiftState(ir) then [] else [last] + Repeat(false, |MoveTms(short, PauseState(ir), end)|)
  }

  function Last(bits: seq<bool>): bool { bits != [] && bits[|bits| - 1] }

  /** `exit` is not called. */
  predicate Survives(s: State, cmd: Command) {
    match cmd
    case Runtest(_, end) => IsStable(s) && IsStable(end)
    case TlrReset(end) => IsStable(s) && IsStable(end)
    case Pathmove(path) => LegalPath(s, path)
    case Scan(_, fields, end) => Trimmed(fields) == [] || (IsStable(s) && IsStable(end))
    case _ => true
  }

  function RuntestTms(short: bool, s: State, numCycles: int, end: State): seq<bool>
    requires IsStable(s) && IsStable(end)
  {
    MoveTms(short, s, RunTestIdle) + Repeat(false, Cycles(numCycles)) + MoveTms(short, RunTestIdle, end)
  }

  function StatemoveTms(short: bool, s: State, end: State): seq<bool>
    requires IsStable(s) && IsStable(end)
  {
    if s != end || end == TestLogicReset then Path(short, s, end) else []
  }

  function ScanTms(short: bool, s: State, held: bool, ir: bool, n: nat, end: State): seq<bool>
    requires IsStable(s) && IsStable(end)
  {
    MoveTms(short, s, ShiftState(ir))
      + (DataTms(held && s == ShiftState(ir), n, end != ShiftState(ir)) + TailTms(short, ir, end))
  }

  function ScanTdi(short: bool, s: State, ir: bool, bits: seq<bool>, end: State): seq<bool>
    requires IsStable(s) && IsStable(end)
  {
    Repeat(false, |MoveTms(short, s, ShiftState(ir))|) + (bits + TailTdi(short, ir, end, Last(bits)))
  }

  /** The clocks a command stands for, as TMS and TDI. `held` is the level of the TMS pin beforehand and
      `bits` the data of a scan. */
  function CommandClocks(short: bool, s: State, held: bool, cmd: Command, bits: seq<bool>): (r: (seq<bool>, seq<bool>))
    requires Survives(s, cmd)
    ensures |r.0| == |r.1|
  {
    match cmd
    case Runtest(n, end) => Plain(RuntestTms(short, s, n, end))
    case TlrReset(end) => Plain(StatemoveTms(short, s, end))
    case Pathmove(path) => Plain(PathTms(s, path))
    case Scan(ir, fields, end) =>
      if Trimmed(fields) == [] then ([], []) else (ScanTms(short, s, held, ir, |bits|, end),
                                                   ScanTdi(short, s, ir, bits, end))
    case Sleep(_) => ([], [])
    case StableClocks(n) => Plain(Repeat(s == TestLogicReset, Cycles(n)))
    case Tms(b, n) => Plain(if n <= 8 * |b| then BufBits(b, 0, n) else [])
  }

  function Plain(tms: seq<bool>): (r: (seq<bool>, seq<bool>))
    ensures |r.0| == |r.1|
  {
    (tms, Repeat(false, |tms|))
  }

  /** The state followers afterwards. */
  function CommandState(s: State, cmd: Command): State {
    match cmd
    case Runtest(_, end) => end
    case TlrReset(end) => end
    case Pathmove(path) => PathEnd(s, path)
    case Scan(_, fields, end) => if Trimmed(fields) == [] then s else end
    case _ => s
  }

  function CommandEnd(s: State, end0: State, cmd: Command): State {
    match cmd
    case Runtest(_, end) => end
    case TlrReset(end) => end
    case Pathmove(path) => PathEnd(s, path)
    case Scan(_, fields, end) => if Trimmed(fields) == [] then end0 else end
    case _ => end0
  }

  datatype Moment = Moment(total: seq<Action>, owed: seq<Write>, state: State, endState: State, memory: Memory)

  /** What one command does. */
  ghost predicate Step(env: Env, short: bool, before: Moment, cmd: Command, bits: seq<bool>, after: Moment)
    requires Survives(before.state, cmd)
  {
    && after.state == CommandState(before.state, cmd)
    && after.endState == CommandEnd(before.state, before.endState, cmd)
    && after.memory == before.memory
    && after.total == before.total + CommandActions(env, short, before, cmd, bits)
    && (if cmd.Scan? && Trimmed(cmd.fields) != [] then
          var fields := Trimmed(cmd.fields);
          var from := |before.total| + |MoveTms(short, before.state, ShiftState(cmd.irScan))|;
          && Carries(before.memory, before.owed, after.owed, fields, bits) && from + TotalBits(fields) <= |after.total|
          && after.owed == before.owed + FieldWrites(env, after.total, fields, from)
        else after.owed == before.owed)
  }

  function CommandActions(env: Env, short: bool, before: Moment, cmd: Command, bits: seq<bool>): seq<Action>
    requires Survives(before.state, cmd)
  {
    var clocks := CommandClocks(short, before.state, TmsPin(env, before.total), cmd, bits);
    Clocks(clocks.0, clocks.1)
  }

  /** Whatever state the TAP was in at the start, it is in `s` now, and TMS is at the level that stays
      there. */
  ghost predicate Synced(env: Env, acts: seq<Action>, s: State) {
    && (forall s0 :: StateAfter(s0, acts) == s)
    && (IsStable(s) ==> TmsPin(env, acts) == (s == TestLogicReset))
  }

  lemma SyncKept(env: Env, acts: seq<Action>, s: State, tms: seq<bool>, tdi: seq<bool>)
    requires |tms| == |tdi| && Synced(env, acts, s)
    ensures Synced(env, acts + Clocks(tms, tdi), Walk(s, tms))
  {
    hide StateAfter, Walk, TmsPin;
    forall s0 ensures StateAfter(s0, acts + Clocks(tms, tdi)) == Walk(s, tms) {
      StateAfterClocks(s0, acts, tms, tdi);
    }
    PinsAfterClocks(env, acts, tms, tdi);
    if tms == [] {
      WalkNowhere(s);
    } else if IsStable(Walk(s, tms)) {
      WalkEntry(s, tms);
    }
  }

  /** The follower is told where the command leads, except by JTAG_TMS; JTAG_STABLECLOCKS is for stable
      states only. */
  predicate Tracked(s: State, cmd: Command) {
    !cmd.Tms? && (cmd.StableClocks? ==> IsStable(s))
  }

  /** The clocks of a command lead from the follower's state to the follower's next state. */
  lemma FollowerFollows(short: bool, s: State, cmd: Command, bits: seq<bool>)
    requires Survives(s, cmd) && Tracked(s, cmd) && (cmd.Scan? ==> bits != [] || Trimmed(cmd.fields) == [])
    ensures var held := s == TestLogicReset; Walk(s, CommandClocks(short, s, held, cmd, bits).0) == CommandState(s, cmd)
  {
    hide Walk, Path, Trimmed, LegalPath, PathTms;
    WalkNowhere(s);
    match cmd
    case Runtest(n, end) => RuntestLeads(short, s, n, end);
    case TlrReset(end) =>
      if s != end || end == TestLogicReset {
        PathReaches(short, s, end);
      }
    case Pathmove(path) =>
      PathLeads(s, path, |path|);
      assert PathTms(s, path)[..|path|] == PathTms(s, path);
    case Scan(ir, fields, end) =>
      if Trimmed(fields) != [] {
        ScanLeads(short, s, ir, bits, end);
      }
    case Sleep(_) =>
    case StableClocks(n) => WalkStays(s, Cycles(n));
  }

  lemma RuntestLeads(short: bool, s: State, numCycles: int, end: State)
    requires IsStable(s) && IsStable(end)
    ensures Walk(s, RuntestTms(short, s, numCycles, end)) == end
  {
    hide Walk, Path;
    MoveReaches(short, s, RunTestIdle);
    WalkStays(RunTestIdle, Cycles(numCycles));
    MoveReaches(short, RunTestIdle, end);
    WalkConcat(s, MoveTms(short, s, RunTestIdle), Repeat(false, Cycles(numCycles)));
    WalkConcat(s, MoveTms(short, s, RunTestIdle) + Repeat(false, Cycles(numCycles)), MoveTms(short, RunTestIdle, end));
  }

  /** From the data of a scan on: every data bit is shifted, once and in order, nothing else is, and the
      last one is clocked on the way out of the shift state. */
  lemma DataAndTail(short: bool, ir: bool, bits: seq<bool>, end: State)
    requires IsStable(end) && bits != []
    ensures var shift, leave := ShiftState(ir), end != ShiftState(ir);
      var tms, tdi := DataTms(false, |bits|, leave) + TailTms(short, ir, end),
                      bits + TailTdi(short, ir, end, Last(bits));
      && Walk(shift, tms) == end
      && ShiftedBits(shift, tms, tdi, shift) == bits
      && (forall k :: 0 <= k < |bits| ==> tms[k] == (leave && k == |bits| - 1))
  {
    hide Walk, ShiftedBits, Path, Visits, TailTms, TailTdi;
    var shift, n := ShiftState(ir), |bits|;
    if end == shift {
      DataStays(short, ir, bits);
    } else {
      var front, last := bits[..n - 1], bits[n - 1];
      var tms2, tdi2 := TailTms(short, ir, end), TailTdi(short, ir, end, last);
      assert bits == front + [last];
      ShiftsAll(shift, front);
      Exit(short, ir, last, end);
      WalkConcat(shift, Repeat(false, n - 1), [true] + tms2);
      ShiftedConcat(shift, Repeat(false, n - 1), front, [true] + tms2, [last] + tdi2, shift);
      assert DataTms(false, n, true) + tms2 == Repeat(false, n - 1) + ([true] + tms2);
      assert bits + tdi2 == front + ([last] + tdi2);
    }
  }

  lemma DataStays(short: bool, ir: bool, bits: seq<bool>)
    ensures var shift := ShiftState(ir);
      var tms, tdi := DataTms(false, |bits|, false) + TailTms(short, ir, shift),
                      bits + TailTdi(short, ir, shift, Last(bits));
      && tms == DataTms(false, |bits|, false)
      && Walk(shift, tms) == shift
      && ShiftedBits(shift, tms, tdi, shift) == bits
  {
    hide Walk, ShiftedBits;
    ShiftsAll(ShiftState(ir), bits);
    assert DataTms(false, |bits|, false) + [] == Repeat(false, |bits|) && bits + [] == bits;
  }

  /** The last data bit and the way from there to the end state. */
  lemma Exit(short: bool, ir: bool, last: bool, end: State)
    requires IsStable(end) && end != ShiftState(ir)
    ensures var shift := ShiftState(ir);
      var tms, tdi := [true] + TailTms(short, ir, end), [last] + TailTdi(short, ir, end, last);
      Walk(shift, tms) == end && ShiftedBits(shift, tms, tdi, shift) == [last]
  {
    hide Walk, ShiftedBits, Path, Visits, Repeat;
    var shift, pause := ShiftState(ir), PauseState(ir);
    var move := MoveTms(short, pause, end);
    var zeros := Repeat(false, |move|);
    OutOfShift(ir, last);
    MoveReaches(short, pause, end);
    WalkConcat(shift, [true, false], move);
    ShiftedConcat(shift, [true, false], [last, last], move, zeros, shift);
    assert [true] + TailTms(short, ir, end) == [true, false] + move;
    assert [last] + TailTdi(short, ir, end, last) == [last, last] + zeros;
    if pause == end {
      NothingShifted(pause, shift);
      assert move == [] && zeros == [];
    } else {
      PauseLeftWithoutShifting(short, ir, end);
      UnvisitedShiftsNothing(pause, move, zeros, shift);
    }
    assert [last] + [] == [last];
  }

  lemma OutOfShift(ir: bool, last: bool)
    ensures var shift := ShiftState(ir);
      Walk(shift, [true, false]) == PauseState(ir) && ShiftedBits(shift, [true, false], [last, last], shift) == [last]
  {
    var shift := ShiftState(ir);
    var exit1 := Next(shift, true);
    OneStep(exit1, false);
    OneShift(exit1, false, last, shift);
    assert [true, false][1..] == [false] && [last, last][1..] == [last];
  }

  lemma ScanLeads(short: bool, s: State, ir: bool, bits: seq<bool>, end: State)
    requires IsStable(s) && IsStable(end) && bits != []
    ensures Walk(s, ScanTms(short, s, s == TestLogicReset, ir, |bits|, end)) == end
  {
    hide Walk, ShiftedBits, Path;
    var shift := ShiftState(ir);
    MoveReaches(short, s, shift);
    DataAndTail(short, ir, bits, end);
    WalkConcat(s, MoveTms(short, s, shift), DataTms(false, |bits|, end != shift) + TailTms(short, ir, end));
  }

  /** No command but JTAG_TMS takes the follower away from the TAP. */
  lemma StepKeepsSync(env: Env, short: bool, before: Moment, cmd: Command, bits: seq<bool>, after: Moment)
    requires Survives(before.state, cmd) && Tracked(before.state, cmd)
    requires Step(env, short, before, cmd, bits, after)
    requires Synced(env, before.total, before.state)
    ensures Synced(env, after.total, after.state)
  {
    hide Walk, StateAfter, TmsPin, CommandState, CommandClocks, Carries, FieldWrites, LegalPath, Path;
    var s, held := before.state, TmsPin(env, before.total);
    if cmd.Scan? && Trimmed(cmd.fields) != [] {
      CarriesLength(before.memory, before.owed, after.owed, Trimmed(cmd.fields), bits);
      assert bits != [];
    }
    FollowerFollows(short, s, cmd, bits);
    HeldMatters(env, short, before, cmd, bits);
    var clocks := CommandClocks(short, s, held, cmd, bits);
    SyncKept(env, before.total, s, clocks.0, clocks.1);
  }

  /** The level of the TMS pin matters to a scan that is in its shift state already, and there it is low. */
  lemma HeldMatters(env: Env, short: bool, before: Moment, cmd: Command, bits: seq<bool>)
    requires Survives(before.state, cmd) && Synced(env, before.total, before.state)
    ensures var s := before.state;
      CommandClocks(short, s, TmsPin(env, before.total), cmd, bits)
        == CommandClocks(short, s, s == TestLogicReset, cmd, bits)
  {
    hide Walk, StateAfter, TmsPin, LegalPath, Path, Trimmed, MoveTms, TailTms, TailTdi, PathTms;
  }

  /** JTAG_TMS leaves the follower where it was, which is right exactly if its bits lead back there. */
  lemma TmsIsNotTracked(env: Env, short: bool, before: Moment, b: seq<byte>, n: nat, bits: seq<bool>, after: Moment)
    requires n <= 8 * |b| && Step(env, short, before, Command.Tms(b, n), bits, after)
    requires Synced(env, before.total, before.state)
    ensures (forall s0 :: StateAfter(s0, after.total) == after.state)
      <==> Walk(before.state, BufBits(b, 0, n)) == before.state
  {
    hide Walk, StateAfter, TmsPin, BufBits;
    var tms := BufBits(b, 0, n);
    forall s0 ensures StateAfter(s0, after.total) == Walk(before.state, tms) {
      StateAfterClocks(s0, before.total, tms, Repeat(false, n));
    }
    if Walk(before.state, tms) != before.state {
      assert StateAfter(TestLogicReset, after.total) != after.state;
    }
  }

  /** JTAG_TLR_RESET brings it there from anywhere. */
  lemma StepGainsSync(env: Env, short: bool, before: Moment, bits: seq<bool>, after: Moment)
    requires Survives(before.state, TlrReset(TestLogicReset))
    requires Step(env, short, before, TlrReset(TestLogicReset), bits, after)
    ensures Synced(env, after.total, after.state) && after.state == TestLogicReset
  {
    hide Walk, StateAfter, TmsPin, Path;
    var tms := Path(short, before.state, TestLogicReset);
    ResetFromAnywhere(TestLogicReset, short, before.state);
    forall s0 ensures StateAfter(s0, after.total) == TestLogicReset {
      StateAfterClocks(s0, before.total, tms, Repeat(false, |tms|));
      ResetFromAnywhere(StateAfter(s0, before.total), short, before.state);
    }
    PinsAfterClocks(env, before.total, tms, Repeat(false, |tms|));
  }

  /** A run of the queue: the moments before and after each command, and the data of each scan. */
  ghost predicate Runs(env: Env, short: bool, cmds: seq<Command>, moments: seq<Moment>, data: seq<seq<bool>>) {
    && |moments| == |cmds| + 1 && |data| == |cmds|
    && forall i :: 0 <= i < |cmds| ==>
         Survives(moments[i].state, cmds[i]) && Step(env, short, moments[i], cmds[i], data[i], moments[i + 1])
  }

  /** After a JTAG_TLR_RESET, and as long as every command since is tracked, the follower agrees with the TAP,
      wherever the TAP started. */
  lemma {:induction false} AlwaysInSync(env: Env, short: bool, cmds: seq<Command>, moments: seq<Moment>,
                                        data: seq<seq<bool>>, r: nat, i: nat)
    requires Runs(env, short, cmds, moments, data)
    requires r < i <= |cmds| && cmds[r] == TlrReset(TestLogicReset)
    requires forall j :: r < j < i ==> Tracked(moments[j].state, cmds[j])
    ensures Synced(env, moments[i].total, moments[i].state)
    decreases i
  {
    hide Step, Synced, Survives, Tracked;
    if i == r + 1 {
      StepGainsSync(env, short, moments[r], data[r], moments[i]);
    } else {
      AlwaysInSync(env, short, cmds, moments, data, r, i - 1);
      StepKeepsSync(env, short, moments[i - 1], cmds[i - 1], data[i - 1], moments[i]);
    }
  }

  /** A scan of a TAP that is where the follower says: after the move to the shift state, what the TAP
      takes in there is the data of the fields, all of it once and in order, and nothing else; the move
      itself shifts nothing in there, unless it comes from the other register's shift state by the old
      table. */
  lemma ScanIsExact(short: bool, t: Registers, ir: bool, bits: seq<bool>, end: State)
    requires t.Sized() && IsStable(t.state) && IsStable(end) && bits != []
    ensures var shift := ShiftState(ir);
      var move := MoveTms(short, t.state, shift);
      var m := |move|;
      var tms, tdi := ScanTms(short, t.state, t.state == TestLogicReset, ir, |bits|, end),
                      ScanTdi(short, t.state, ir, bits, end);
      && |tms| == |tdi| && m + |bits| <= |tms|
      && After(t, Clocks(tms[..m], tdi[..m])).state == shift
      && Ins(After(t, Clocks(tms[..m], tdi[..m])), Clocks(tms[m..], tdi[m..]), shift) == bits
      && (forall k :: m <= k < m + |bits| ==> tms[k] == (end != shift && k == m + |bits| - 1))
      && (t.state != shift ==> (Visits(t.state, move, shift) <==> !short && IsShiftState(t.state)))
  {
    hide Walk, ShiftedBits, Path, Visits, After, Ins, StateAfter, TailTms, TailTdi, DataTms, Clocked;
    var shift := ShiftState(ir);
    var move := MoveTms(short, t.state, shift);
    var m := |move|;
    var zeros := Repeat(false, m);
    var tms2, tdi2 := DataTms(false, |bits|, end != shift) + TailTms(short, ir, end),
                      bits + TailTdi(short, ir, end, Last(bits));
    var tms, tdi := ScanTms(short, t.state, t.state == TestLogicReset, ir, |bits|, end),
                    ScanTdi(short, t.state, ir, bits, end);
    assert tms == move + tms2 && tdi == zeros + tdi2;
    assert tms[..m] == move && tms[m..] == tms2 && tdi[..m] == zeros && tdi[m..] == tdi2;
    MoveReaches(short, t.state, shift);
    StateOfTap(t, Clocks(move, zeros));
    StateAfterClocks(t.state, [], move, zeros);
    assert [] + Clocks(move, zeros) == Clocks(move, zeros);
    assert StateAfter(t.state, []) == t.state by { NothingTaken(t, shift); }
    DataAndTail(short, ir, bits, end);
    InsAreShiftedBits(After(t, Clocks(move, zeros)), tms2, tdi2, shift);
    if t.state != shift {
      ShiftReachedLast(short, t.state, shift);
    }
  }

  /** What is promised of a scan in a run: on every TAP, whatever registers it had at the start, the move
      ends in the shift state, what is taken in there from then on is `bits`, and these are the data of the
      fields; the move itself takes nothing in there, except by the old table from the other register's
      shift state; and the fields that are read are owed the TDO bits of their own clocks. */
  ghost predicate ScanDone(env: Env, short: bool, before: Moment, ir: bool, fields: seq<Field>, bits: seq<bool>,
                           after: Moment)
    requires IsStable(before.state)
  {
    var shift := ShiftState(ir);
    var move := MoveTms(short, before.state, shift);
    && before.total + Clocks(move, Repeat(false, |move|)) <= after.total
    && Carries(before.memory, before.owed, after.owed, fields, bits)
    && (forall t0: Registers :: t0.Sized() ==> TakenIn(t0, before.total, after.total, |move|, shift, bits))
    && (short || !IsShiftState(before.state) || before.state == shift ==>
         forall t0: Registers :: t0.Sized() ==> PassedBy(t0, before.total, move, shift))
    && DataStart(short, before, ir) + TotalBits(fields) <= |after.total|
    && after.owed == before.owed + FieldWrites(env, after.total, fields, DataStart(short, before, ir))
  }

  /** After `m` of the clocks from `acts` to `acts'` a TAP that started as `t0` is in state `shift`, and `bits`
      is all it takes in there from then on. */
  ghost predicate TakenIn(t0: Registers, acts: seq<Action>, acts': seq<Action>, m: nat, shift: State, bits: seq<bool>)
    requires t0.Sized() && |acts| + m <= |acts'|
  {
    var arrived := After(t0, acts'[..|acts| + m]);
    arrived.state == shift && Ins(arrived, acts'[|acts| + m..], shift) == bits
  }

  /** On the way nothing is taken in. */
  ghost predicate PassedBy(t0: Registers, acts: seq<Action>, move: seq<bool>, shift: State)
    requires t0.Sized()
  {
    Ins(After(t0, acts), Clocks(move, Repeat(false, |move|)), shift) == []
  }

  lemma MovePassesBy(env: Env, short: bool, t0: Registers, acts: seq<Action>, s: State, ir: bool)
    requires t0.Sized() && IsStable(s) && Synced(env, acts, s) && (short || !IsShiftState(s) || s == ShiftState(ir))
    ensures PassedBy(t0, acts, MoveTms(short, s, ShiftState(ir)), ShiftState(ir))
  {
    hide After, Ins, StateAfter, Visits, Path, Clocked, TmsPin, ShiftedBits;
    var shift := ShiftState(ir);
    var move := MoveTms(short, s, shift);
    var zeros := Repeat(false, |move|);
    StateOfTap(t0, acts);
    assert StateAfter(t0.state, acts) == s;
    InsAreShiftedBits(After(t0, acts), move, zeros, shift);
    if s == shift {
      assert move == [] && zeros == [];
      NothingShifted(s, shift);
    } else {
      ShiftReachedLast(short, s, shift);
      UnvisitedShiftsNothing(s, move, zeros, shift);
    }
  }

  lemma ScanTakenIn(env: Env, short: bool, t0: Registers, acts: seq<Action>, s: State, ir: bool, bits: seq<bool>,
                    end: State)
    requires t0.Sized() && IsStable(s) && IsStable(end) && bits != [] && Synced(env, acts, s)
    ensures var tms, tdi := ScanTms(short, s, s == TestLogicReset, ir, |bits|, end), ScanTdi(short, s, ir, bits, end);
      var m := |MoveTms(short, s, ShiftState(ir))|;
      |tms| == |tdi| && m <= |tms| && TakenIn(t0, acts, acts + Clocks(tms, tdi), m, ShiftState(ir), bits)
  {
    hide After, Ins, StateAfter, Visits, Path, Clocked, DataTms, TailTms, TailTdi, TmsPin;
    var t := After(t0, acts);
    StateOfTap(t0, acts);
    assert StateAfter(t0.state, acts) == s;
    ScanIsExact(short, t, ir, bits, end);
    var tms, tdi := ScanTms(short, s, s == TestLogicReset, ir, |bits|, end), ScanTdi(short, s, ir, bits, end);
    var m := |MoveTms(short, s, ShiftState(ir))|;
    var clocks := Clocks(tms, tdi);
    assert (acts + clocks)[..|acts| + m] == acts + Clocks(tms[..m], tdi[..m]);
    assert (acts + clocks)[|acts| + m..] == Clocks(tms[m..], tdi[m..]);
    AfterConcat(t0, acts, Clocks(tms[..m], tdi[..m]));
  }

  /** In every run of the queue: a scan that starts with the follower in agreement with the TAP. */
  lemma ScanInRun(env: Env, short: bool, cmds: seq<Command>, moments: seq<Moment>, data: seq<seq<bool>>, i: nat)
    requires Runs(env, short, cmds, moments, data) && i < |cmds|
    requires cmds[i].Scan? && Trimmed(cmds[i].fields) != []
    requires Synced(env, moments[i].total, moments[i].state)
    ensures IsStable(moments[i].state)
    ensures ScanDone(env, short, moments[i], cmds[i].irScan, Trimmed(cmds[i].fields), data[i], moments[i + 1])
  {
    hide TakenIn, PassedBy, Visits, Path, Clocks, TailTms, TailTdi, DataTms, Carries, FieldWrites, Trimmed, TmsPin;
    hide Synced, TotalBits, Walk, ShiftedBits, IsStable;
    hide Ins, After;
    var before, after, bits := moments[i], moments[i + 1], data[i];
    var ir, fields, end := cmds[i].irScan, Trimmed(cmds[i].fields), cmds[i].endState;
    var shift := ShiftState(ir);
    ShiftIsStable(ir);
    var move := MoveTms(short, before.state, shift);
    CarriesLength(before.memory, before.owed, after.owed, fields, bits);
    TrimmedLosesNothing(cmds[i].fields);
    TrimmedHasBits(cmds[i].fields);
    HeldMatters(env, short, before, cmds[i], bits);
    var tms, tdi := ScanTms(short, before.state, before.state == TestLogicReset, ir, |bits|, end),
                    ScanTdi(short, before.state, ir, bits, end);
    assert after.total == before.total + Clocks(tms, tdi);
    forall t0: Registers | t0.Sized() ensures TakenIn(t0, before.total, after.total, |move|, shift, bits) {
      ScanTakenIn(env, short, t0, before.total, before.state, ir, bits, end);
    }
    if short || !IsShiftState(before.state) || before.state == shift {
      forall t0: Registers | t0.Sized() ensures PassedBy(t0, before.total, move, shift) {
        MovePassesBy(env, short, t0, before.total, before.state, ir);
      }
    }
    MoveComesFirst(before.total, tms, tdi, move, Repeat(false, |move|));
  }

  lemma ShiftIsStable(ir: bool)
    ensures IsStable(ShiftState(ir)) && IsStable(PauseState(ir)) && IsShiftState(ShiftState(ir))
  {
  }

  lemma MoveComesFirst(acts: seq<Action>, tms: seq<bool>, tdi: seq<bool>, move: seq<bool>, zeros: seq<bool>)
    requires |tms| == |tdi| && move <= tms && zeros <= tdi && |move| == |zeros|
    ensures acts + Clocks(move, zeros) <= acts + Clocks(tms, tdi)
  {
  }

  lemma TrimmedHasBits(fields: seq<Field>)
    ensures Trimmed(fields) != [] ==> TotalBits(Trimmed(fields)) > 0
  {
  }

  /** The first action of the data of a scan. */
  function DataStart(short: bool, before: Moment, ir: bool): nat
    requires IsStable(before.state)
  {
    |before.total| + |MoveTms(short, before.state, ShiftState(ir))|
  }

  /** `a` is the buffer of field `j` of command `i` and of no other. */
  ghost predicate OnlyField(cmds: seq<Command>, i: nat, j: nat, a: array<byte>) {
    && i < |cmds| && cmds[i].Scan? && j < |Trimmed(cmds[i].fields)|
    && var fields := Trimmed(cmds[i].fields);
    && fields[j].into == a
    && (forall k :: 0 <= k < |fields| && k != j ==> fields[k].into != a)
    && (forall k :: 0 <= k < |cmds| && k != i ==> a !in Targets(cmds[k]))
  }

  /** What commands that do not use a buffer owe does not touch it. */
  lemma {:induction false} OthersLeaveAlone(env: Env, short: bool, cmds: seq<Command>, moments: seq<Moment>,
                                            data: seq<seq<bool>>,
                                            lo: nat, hi: nat, a: array<byte>, s: seq<byte>)
    requires Runs(env, short, cmds, moments, data) && lo <= hi <= |cmds|
    requires forall k :: lo <= k < hi ==> a !in Targets(cmds[k])
    ensures moments[lo].owed <= moments[hi].owed
    ensures Stored(a, s, moments[hi].owed[|moments[lo].owed|..]) == s
    decreases hi
  {
    hide Survives, CommandActions, CommandState, CommandEnd, Carries, FieldWrites, Stored, Targets, Trimmed;
    if lo == hi {
      StoredNone(a, s);
      assert moments[hi].owed[|moments[lo].owed|..] == [];
    } else {
      OthersLeaveAlone(env, short, cmds, moments, data, lo, hi - 1, a, s);
      var part := OneLeavesAlone(env, short, moments[hi - 1], cmds[hi - 1], data[hi - 1], moments[hi], a, s);
      var front := moments[hi - 1].owed[|moments[lo].owed|..];
      StoredConcat(a, s, front, part);
      assert moments[hi].owed[|moments[lo].owed|..] == front + part;
    }
  }

  lemma OneLeavesAlone(env: Env, short: bool, before: Moment, cmd: Command, bits: seq<bool>, after: Moment,
                       a: array<byte>, s: seq<byte>)
    returns (part: seq<Write>)
    requires Survives(before.state, cmd) && Step(env, short, before, cmd, bits, after) && a !in Targets(cmd)
    ensures after.owed == before.owed + part && Stored(a, s, part) == s
  {
    hide CommandActions, CommandState, CommandEnd, Carries, FieldWrites, Stored, Trimmed, MoveTms, IsStable, LegalPath;
    part := after.owed[|before.owed|..];
    if cmd.Scan? && Trimmed(cmd.fields) != [] {
      var fields, from := Trimmed(cmd.fields), DataStart(short, before, cmd.irScan);
      forall f | f in fields ensures f.into != a {
        assert f in cmd.fields;
      }
      NoFieldWrites(env, after.total, fields, from, a, s);
      assert part == FieldWrites(env, after.total, fields, from);
    } else {
      StoredNone(a, s);
      assert part == [];
    }
  }

  lemma {:induction false} FieldsAddUp(fields: seq<Field>, j: nat)
    requires j < |fields|
    ensures TotalBits(fields[..j]) + fields[j].numBits <= TotalBits(fields)
    decreases |fields|
  {
    var k := |fields| - 1;
    if j < k {
      FieldsAddUp(fields[..k], j);
      assert fields[..k][..j] == fields[..j];
    }
  }

  lemma FieldHasRoom(env: Env, short: bool, cmds: seq<Command>, moments: seq<Moment>, data: seq<seq<bool>>, i: nat,
                     j: nat)
    requires Runs(env, short, cmds, moments, data) && i < |cmds| && cmds[i].Scan? && j < |Trimmed(cmds[i].fields)|
    ensures IsStable(moments[i].state)
    ensures var fields := Trimmed(cmds[i].fields);
      DataStart(short, moments[i],
                cmds[i].irScan) + TotalBits(fields[..j]) + fields[j].numBits <= |moments[i + 1].total|
  {
    hide CommandActions, CommandState, CommandEnd, Carries, FieldWrites, Trimmed, MoveTms, IsStable;
    FieldsAddUp(Trimmed(cmds[i].fields), j);
  }

  /** What the run owes after a scan and did not owe before. */
  lemma ScanOwes(env: Env, short: bool, cmds: seq<Command>, moments: seq<Moment>, data: seq<seq<bool>>, i: nat)
    requires Runs(env, short, cmds, moments, data) && i < |cmds| && RealScan(cmds[i])
    ensures IsStable(moments[i].state)
    ensures var fields, from := Trimmed(cmds[i].fields), DataStart(short, moments[i], cmds[i].irScan);
      && from + TotalBits(fields) <= |moments[i + 1].total|
      && moments[i + 1].owed == moments[i].owed + FieldWrites(env, moments[i + 1].total, fields, from)
  {
    hide CommandActions, CommandState, CommandEnd, Carries, FieldWrites, Trimmed, MoveTms, TotalBits, IsStable;
    assert Step(env, short, moments[i], cmds[i], data[i], moments[i + 1]);
  }

  /** A buffer that is used for one field only, once the writes owed by the whole run have been stored: its
      bit `b` is what TDO showed at the clock that sent bit `b` of the field; beyond the field it is as
      before. */
  lemma FieldInRun(env: Env, short: bool, cmds: seq<Command>, moments: seq<Moment>, data: seq<seq<bool>>,
                   i: nat, j: nat, a: array<byte>, s: seq<byte>, b: nat)
    requires Runs(env, short, cmds, moments, data) && moments[0].owed == []
    requires OnlyField(cmds, i, j, a) && Trimmed(cmds[i].fields)[j].numBits <= 8 * |s| && b < 8 * |s|
    ensures var fields := Trimmed(cmds[i].fields);
      && IsStable(moments[i].state)
      && var from := DataStart(short, moments[i], cmds[i].irScan) + TotalBits(fields[..j]);
      && from + fields[j].numBits <= |moments[i + 1].total|
      && BufBit(Stored(a, s, moments[|cmds|].owed), b)
         == if b < fields[j].numBits then env.tdo(moments[i + 1].total[..from + b + 1]) else BufBit(s, b)
  {
    hide Survives, Step, FieldWrites, Stored, Targets, Trimmed, BufBit, TotalBits, IsStable, DataStart;
    ScanOwes(env, short, cmds, moments, data, i);
    FieldsAddUp(Trimmed(cmds[i].fields), j);
    var n, fields, from := |cmds|, Trimmed(cmds[i].fields), DataStart(short, moments[i], cmds[i].irScan);
    var owed0, owed1, owed := moments[i].owed, moments[i + 1].owed, moments[n].owed;
    OthersLeaveAlone(env, short, cmds, moments, data, 0, i, a, s);
    var part := FieldWrites(env, moments[i + 1].total, fields, from);
    assert owed0[|moments[0].owed|..] == owed0;
    StoredConcat(a, s, owed0, part);
    FieldGetsItsBits(env, moments[i + 1].total, fields, from, j, a, s, b);
    var mid := Stored(a, s, part);
    OthersLeaveAlone(env, short, cmds, moments, data, i + 1, n, a, mid);
    StoredConcat(a, s, owed1, owed[|owed1|..]);
    assert owed1 + owed[|owed1|..] == owed;
  }

  /** Nothing before field `j` of command `i` is read into `a`. */
  ghost predicate NotReadBefore(cmds: seq<Command>, i: nat, j: nat, a: array<byte>) {
    && i < |cmds| && cmds[i].Scan? && j < |Trimmed(cmds[i].fields)|
    && (forall k :: 0 <= k < i ==> a !in Targets(cmds[k]))
    && (forall k :: 0 <= k < j ==> Trimmed(cmds[i].fields)[k].into != a)
  }

  lemma {:induction false} OwedIsClean(env: Env, short: bool, cmds: seq<Command>, moments: seq<Moment>,
                                       data: seq<seq<bool>>, i: nat, a: array<byte>)
    requires Runs(env, short, cmds, moments, data) && i <= |cmds| && Clean(moments[0].memory, moments[0].owed, a)
    requires forall k :: 0 <= k < i ==> a !in Targets(cmds[k])
    ensures moments[i].memory == moments[0].memory && moments[0].owed <= moments[i].owed
    ensures Clean(moments[0].memory, moments[i].owed, a)
    decreases i
  {
    hide Survives, CommandActions, CommandState, CommandEnd, Carries, FieldWrites, Targets, Trimmed;
    if i > 0 {
      OwedIsClean(env, short, cmds, moments, data, i - 1, a);
      StepIsClean(env, short, moments[i - 1], cmds[i - 1], data[i - 1], moments[i], a);
    }
  }

  lemma StepIsClean(env: Env, short: bool, before: Moment, cmd: Command, bits: seq<bool>, after: Moment,
                    a: array<byte>)
    requires Survives(before.state, cmd) && Step(env, short, before, cmd, bits, after) && a !in Targets(cmd)
    requires Clean(before.memory, before.owed, a)
    ensures before.owed <= after.owed && Clean(before.memory, after.owed, a)
  {
    hide CommandActions, CommandState, CommandEnd, Carries, FieldWrites, Trimmed, MoveTms, IsStable, LegalPath;
    if cmd.Scan? && Trimmed(cmd.fields) != [] {
      var fields, from := Trimmed(cmd.fields), DataStart(short, before, cmd.irScan);
      forall f | f in fields ensures f.into != a {
        assert f in cmd.fields;
      }
      WritesAreClean(env, after.total, fields, from, a);
      StaysClean(before.memory, before.owed, FieldWrites(env, after.total, fields, from), a);
    }
  }

  lemma StaysClean(m: Memory, ws: seq<Write>, more: seq<Write>, a: array?<byte>)
    requires Clean(m, ws, a) && forall w :: w in more ==> w.cell.buf != a
    ensures Clean(m, ws + more, a)
  {
    assert (ws + more)[|m.log|..] == ws[|m.log|..] + more;
  }

  lemma {:induction false} WritesAreClean(env: Env, acts: seq<Action>, fields: seq<Field>, from: nat, a: array?<byte>)
    requires from + TotalBits(fields) <= |acts| && forall f :: f in fields ==> f.into == null || f.into != a
    ensures forall w :: w in FieldWrites(env, acts, fields, from) ==> w.cell.buf != a
    decreases |fields|
  {
    if fields != [] {
      var k := |fields| - 1;
      WritesAreClean(env, acts, fields[..k], from, a);
      assert fields[k] in fields;
    }
  }

  /** What a field that is sent from a buffer has sent: each bit is what the buffer held at some moment of the run;
      and if nothing before is read into the buffer, even if the field itself is, the bits are what it held at the
      start. The writes of the run are `ws`, the data of its scans `data`. */
  ghost predicate SentAsHeld(cmds: seq<Command>, m: Memory, ws: seq<Write>, data: seq<seq<bool>>, i: nat, j: nat)
    requires i < |cmds| == |data| && cmds[i].Scan? && j < |Trimmed(cmds[i].fields)|
    requires Trimmed(cmds[i].fields)[j].out != null
  {
    var n, f := TotalBits(Trimmed(cmds[i].fields)[..j]), Trimmed(cmds[i].fields)[j];
    && n + f.numBits <= |data[i]| && m.log <= ws && f.out in m.held && f.numBits <= 8 * |m.held[f.out]|
    && var bits := data[i][n..n + f.numBits];
    && HeldOnTheWay(f.out, m.held[f.out], 0, m.targets, ws[|m.log|..], bits)
    && (NotReadBefore(cmds, i, j, f.out) ==> bits == BufBits(m.held[f.out], 0, f.numBits))
  }

  /** So it is in every run. */
  lemma FieldIsSent(env: Env, short: bool, cmds: seq<Command>, moments: seq<Moment>, data: seq<seq<bool>>, i: nat,
                    j: nat)
    requires Runs(env, short, cmds, moments, data) && i < |cmds| && cmds[i].Scan? && j < |Trimmed(cmds[i].fields)|
    requires Trimmed(cmds[i].fields)[j].out != null
    requires Clean(moments[0].memory, moments[0].owed, Trimmed(cmds[i].fields)[j].out)
    ensures SentAsHeld(cmds, moments[0].memory, moments[|cmds|].owed, data, i, j)
  {
    hide Survives, CommandActions, CommandState, CommandEnd, Carries, FieldWrites, Targets, Trimmed, HeldOnTheWay;
    hide TotalBits, MoveTms, IsStable, Clean, BufBits;
    var m, fields, n := moments[0].memory, Trimmed(cmds[i].fields), TotalBits(Trimmed(cmds[i].fields)[..j]);
    var a: array<byte> := fields[j].out;
    MemoryStays(env, short, cmds, moments, data, i);
    assert Step(env, short, moments[i], cmds[i], data[i], moments[i + 1]);
    CarriedField(m, moments[i].owed, moments[i + 1].owed, fields, data[i], j);
    OwedGrows(env, short, cmds, moments, data, i + 1, |cmds|);
    var bits := data[i][n..n + fields[j].numBits];
    HeldStill(a, m.held[a], 0, m.targets, moments[i + 1].owed[|m.log|..], moments[|cmds|].owed[|m.log|..], bits);
    if NotReadBefore(cmds, i, j, a) {
      OwedIsClean(env, short, cmds, moments, data, i, a);
    }
  }

  /** And a field that has no buffer at all sends zeros. */
  lemma EmptyFieldSendsZeros(env: Env, short: bool, cmds: seq<Command>, moments: seq<Moment>, data: seq<seq<bool>>,
                             i: nat, j: nat)
    requires Runs(env, short, cmds, moments, data) && i < |cmds| && cmds[i].Scan? && j < |Trimmed(cmds[i].fields)|
    requires Trimmed(cmds[i].fields)[j].out == null && Trimmed(cmds[i].fields)[j].into == null
    ensures var n := TotalBits(Trimmed(cmds[i].fields)[..j]);
      forall k :: n <= k < n + Trimmed(cmds[i].fields)[j].numBits ==> k < |data[i]| && !data[i][k]
  {
    hide Survives, CommandActions, CommandState, CommandEnd, Carries, FieldWrites, Trimmed, TotalBits, MoveTms;
    var fields := Trimmed(cmds[i].fields);
    var n, f := TotalBits(fields[..j]), fields[j];
    assert Step(env, short, moments[i], cmds[i], data[i], moments[i + 1]);
    CarriedField(moments[i].memory, moments[i].owed, moments[i + 1].owed, fields, data[i], j);
    forall k | n <= k < n + f.numBits ensures !data[i][k] {
      assert data[i][n..n + f.numBits][k - n] == data[i][k];
    }
  }

  lemma {:induction false} MemoryStays(env: Env, short: bool, cmds: seq<Command>, moments: seq<Moment>,
                                       data: seq<seq<bool>>, i: nat)
    requires Runs(env, short, cmds, moments, data) && i <= |cmds|
    ensures moments[i].memory == moments[0].memory
    decreases i
  {
    hide Survives, CommandActions, CommandState, CommandEnd, Carries, FieldWrites, Trimmed, MoveTms, IsStable;
    if i > 0 {
      MemoryStays(env, short, cmds, moments, data, i - 1);
      assert Step(env, short, moments[i - 1], cmds[i - 1], data[i - 1], moments[i]);
    }
  }

  lemma {:induction false} OwedGrows(env: Env, short: bool, cmds: seq<Command>, moments: seq<Moment>,
                                     data: seq<seq<bool>>, i: nat, k: nat)
    requires Runs(env, short, cmds, moments, data) && i <= k <= |cmds|
    ensures moments[i].owed <= moments[k].owed
    decreases k
  {
    hide Survives, CommandActions, CommandState, CommandEnd, Carries, FieldWrites, Trimmed, MoveTms, IsStable;
    if i < k {
      OwedGrows(env, short, cmds, moments, data, i, k - 1);
      assert Step(env, short, moments[k - 1], cmds[k - 1], data[k - 1], moments[k]);
    }
  }

  /** The commands' states in turn, from the commands alone. */
  function FoldState(s: State, cmds: seq<Command>): State {
    if cmds == [] then s else CommandState(FoldState(s, cmds[..|cmds| - 1]), cmds[|cmds| - 1])
  }

  /** No command makes the process exit. */
  ghost predicate SurvivesAll(s: State, cmds: seq<Command>) {
    forall k :: 0 <= k < |cmds| ==> Survives(FoldState(s, cmds[..k]), cmds[k])
  }

  lemma FoldOneMore(s: State, cmds: seq<Command>, i: nat)
    requires i < |cmds|
    ensures FoldState(s, cmds[..0]) == s
    ensures FoldState(s, cmds[..i + 1]) == CommandState(FoldState(s, cmds[..i]), cmds[i])
  {
    hide CommandState;
    assert cmds[..i + 1][..i] == cmds[..i];
  }

  /** What a field asks of the MPSSE driver; the last bit of the last field, `left`, goes with the first of two
      TMS clocks. */
  function FieldAsks(f: Field, left: bool): seq<Ask> {
    if left && f.numBits > 0 then
      [AskData(f.numBits - 1, f.out != null, f.into != null), AskTms(1, f.into != null), AskTms(1, false)]
    else [AskData(f.numBits, f.out != null, f.into != null)]
  }

  function PhaseAsks(fields: seq<Field>, left: bool): seq<Ask> {
    if fields == [] then []
    else PhaseAsks(fields[..|fields| - 1], false) + FieldAsks(fields[|fields| - 1], left)
  }

  lemma PhaseOneMore(fields: seq<Field>, i: nat, left: bool)
    requires i < |fields|
    ensures PhaseAsks(fields[..0], false) == []
    ensures PhaseAsks(fields[..i + 1], left) == PhaseAsks(fields[..i], false) + FieldAsks(fields[i], left)
  {
    hide FieldAsks;
    assert fields[..i + 1][..i] == fields[..i];
  }

  /** Where a scan is after its data. */
  function AfterData(ir: bool, end: State): State {
    if end == ShiftState(ir) then ShiftState(ir) else PauseState(ir)
  }

  function ScanAsks(short: bool, s: State, ir: bool, fields: seq<Field>, end: State): seq<Ask>
    requires IsStable(s) && IsStable(end)
  {
    [AskTms(|MoveTms(short, s, ShiftState(ir))|, false)] + PhaseAsks(fields, end != ShiftState(ir))
      + [AskTms(|MoveTms(short, AfterData(ir, end), end)|, false)]
  }

  /** What a command asks of the MPSSE driver. */
  function CommandAsks(short: bool, s: State, cmd: Command): seq<Ask>
    requires Survives(s, cmd)
  {
    match cmd
    case Runtest(n, end) =>
      [AskTms(|MoveTms(short, s, RunTestIdle)|, false), AskTms(Cycles(n), false),
       AskTms(|MoveTms(short, RunTestIdle, end)|, false)]
    case TlrReset(end) => [AskTms(|StatemoveTms(short, s, end)|, false)]
    case Pathmove(path) => [AskTms(|path|, false)]
    case Scan(ir, fields, end) => if Trimmed(fields) == [] then [] else ScanAsks(short, s, ir, Trimmed(fields), end)
    case Sleep(_) => [AskFlush]
    case StableClocks(n) => [AskTms(Cycles(n), false)]
    case Tms(_, n) => [AskTms(n, false)]
  }

  /** A sleep begins with a flush of all that is in the buffer: afterwards no command and no reply is waiting. */
  lemma SleepFlushes(sizes: Sizes, b: Point, short: bool, s: State, us: nat)
    requires sizes.Ok()
    ensures var job := Usb.Job(b.w + (if b.r > 0 then 1 else 0), b.r, sizes.packet, sizes.chunk);
      Reached(sizes, b, CommandAsks(short, s, Sleep(us)))
        == Point(b.jobs + (if b.w > 0 then [job] else []), true, 0, 0)
  {
    hide AllAsked;
    OneAsked(sizes, b.w, b.r, AskFlush);
  }

  /** And a queue of them, leaving out any that makes the process exit. */
  function QueueAsks(short: bool, s: State, cmds: seq<Command>): seq<Ask> {
    if cmds == [] then []
    else
      var k := |cmds| - 1;
      var front, at := QueueAsks(short, s, cmds[..k]), FoldState(s, cmds[..k]);
      if Survives(at, cmds[k]) then front + CommandAsks(short, at, cmds[k]) else front
  }

  lemma QueueOneMore(short: bool, s: State, cmds: seq<Command>, i: nat)
    requires i < |cmds| && Survives(FoldState(s, cmds[..i]), cmds[i])
    ensures QueueAsks(short, s, cmds[..0]) == []
    ensures QueueAsks(short, s, cmds[..i + 1])
         == QueueAsks(short, s, cmds[..i]) + CommandAsks(short, FoldState(s, cmds[..i]), cmds[i])
  {
    hide CommandAsks, CommandState, Survives;
    assert cmds[..i + 1][..i] == cmds[..i];
  }

  lemma {:induction false} PhaseIsShort(fields: seq<Field>, left: bool)
    ensures Short(PhaseAsks(fields, left))
    decreases |fields|
  {
    if fields != [] {
      PhaseIsShort(fields[..|fields| - 1], false);
    }
  }

  lemma CommandIsShort(short: bool, s: State, cmd: Command)
    requires Survives(s, cmd)
    ensures Short(CommandAsks(short, s, cmd))
  {
    hide MoveTms, StatemoveTms, Trimmed, PhaseAsks;
    if cmd.Scan? {
      PhaseIsShort(Trimmed(cmd.fields), cmd.endState != ShiftState(cmd.irScan));
    }
  }

  lemma {:induction false} QueueIsShort(short: bool, s: State, cmds: seq<Command>)
    ensures Short(QueueAsks(short, s, cmds))
    decreases |cmds|
  {
    hide Survives, CommandState, CommandAsks;
    if cmds != [] {
      var k := |cmds| - 1;
      QueueIsShort(short, s, cmds[..k]);
      if Survives(FoldState(s, cmds[..k]), cmds[k]) {
        CommandIsShort(short, FoldState(s, cmds[..k]), cmds[k]);
      }
    }
  }
}
