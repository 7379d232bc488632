/** What a scan reads from a target that is a TAP: the registers of the simulator seen through the cable, the
    MPSSE driver and the JTAG queue. */
module Target {
  import opened Bits
  import opened MpsseDevice
  import opened ReadBack
  import opened ShiftCommands
  import opened Tap
  import opened Interface
  import opened JtagCommands

  /** With IDCODE or BYPASS selected, and always for instructions, a register lies between TDI and TDO. */
  predicate HasRegister(t: Registers, ir: bool) {
    ir || t.instr == IdCode || t.instr == Bypass
  }

  function Selected(t: Registers, ir: bool): seq<bool> {
    if ir then t.ir else if t.instr == IdCode then t.dr else t.bypass
  }

  lemma ShiftOnce(u: Registers, ir: bool, tms: bool, tdi: bool)
    requires u.Sized() && u.state == ShiftState(ir)
    ensures var v := Clocked(u, tms, tdi);
      && v.0.instr == u.instr && |Selected(v.0, ir)| == |Selected(u, ir)| > 0
      && (HasRegister(u, ir) ==> Selected(v.0, ir) == Selected(u, ir)[1..] + [tdi])
      && v.1 == if HasRegister(u, ir) then Selected(u, ir)[0] else true
  {
  }

  lemma NextWindow(stream: seq<bool>, k: nat, n: nat)
    requires 0 < n && k + n < |stream|
    ensures stream[k..k + n][1..] + [stream[k + n]] == stream[k + 1..k + 1 + n]
  {
  }

  /** Shifting `k` bits moves the register along the stream of its content and the bits. */
  lemma {:induction false} ShiftRun(t: Registers, ir: bool, bits: seq<bool>, k: nat)
    requires t.Sized() && t.state == ShiftState(ir) && k <= |bits|
    ensures var u, n := After(t, Clocks(Repeat(false, k), bits[..k])), |Selected(t, ir)|;
      && u.state == t.state && u.instr == t.instr && |Selected(u, ir)| == n
      && (HasRegister(t, ir) ==> Selected(u, ir) == (Selected(t, ir) + bits)[k..k + n])
    decreases k
  {
    hide Clocked, Selected, After;
    var acts := Clocks(Repeat(false, k), bits[..k]);
    var n, stream := |Selected(t, ir)|, Selected(t, ir) + bits;
    if k == 0 {
      assert acts == [] && After(t, []) == t by { NothingAfter(t); }
      assert stream[0..n] == Selected(t, ir);
    } else {
      ShiftRun(t, ir, bits, k - 1);
      var before := Clocks(Repeat(false, k - 1), bits[..k - 1]);
      assert acts == before + [Clock(false, bits[k - 1])];
      Snoc(t, before, Clock(false, bits[k - 1]));
      StaysShifting(ir);
      ShiftOnce(After(t, before), ir, false, bits[k - 1]);
      NextWindow(stream, k - 1, n);
    }
  }

  lemma NothingAfter(t: Registers)
    requires t.Sized()
    ensures After(t, []) == t
  {
  }

  lemma StaysShifting(ir: bool)
    ensures Next(ShiftState(ir), false) == ShiftState(ir)
  {
  }

  /** TDO at bit `k` of the data phase. */
  lemma ShiftOut(t: Registers, ir: bool, tms: seq<bool>, tdi: seq<bool>, bits: seq<bool>, k: nat)
    requires t.Sized() && t.state == ShiftState(ir) && k < |bits| <= |tms| == |tdi| && bits <= tdi
    requires forall j :: 0 <= j < k ==> !tms[j]
    ensures TdoAt(t, Clocks(tms, tdi)[..k + 1]) == if HasRegister(t, ir) then (Selected(t, ir) + bits)[k] else true
  {
    hide After, Clocked, Selected;
    var acts := Clocks(tms, tdi);
    assert acts[..k] == Clocks(Repeat(false, k), bits[..k]);
    assert acts[..k + 1] == acts[..k] + [Clock(tms[k], bits[k])];
    assert acts[..k + 1][..k] == acts[..k];
    ShiftRun(t, ir, bits, k);
    ShiftOnce(After(t, acts[..k]), ir, tms[k], bits[k]);
  }

  /** Every scan of a run that starts with the follower in agreement with the TAP: bit `k` that it reads is bit
      `k` of the stream that begins with the selected register, as it is on arrival in the shift state, and goes
      on with the bits sent; without a register TDO stays high. */
  lemma ScanReads(env: Env, t0: Registers, short: bool, cmds: seq<Command>, moments: seq<Moment>, data: seq<seq<bool>>,
                  i: nat, k: nat)
    requires t0.Sized() && Drives(env, t0) && Runs(env, short, cmds, moments, data) && i < |cmds|
    requires cmds[i].Scan? && Trimmed(cmds[i].fields) != [] && Synced(env, moments[i].total, moments[i].state)
    requires k < |data[i]|
    ensures IsStable(moments[i].state)
    ensures var ir, from, total := cmds[i].irScan, DataStart(short, moments[i], cmds[i].irScan), moments[i + 1].total;
      && from + k + 1 <= |total|
      && var t := After(t0, total[..from]);
      && t.state == ShiftState(ir)
      && env.tdo(total[..from + k + 1]) == if HasRegister(t, ir) then (Selected(t, ir) + data[i])[k] else true
  {
    hide After, StateAfter, TmsPin, Path, Trimmed, Clocked, Selected, HasRegister, Carries, FieldWrites, TotalBits;
    hide TailTms, TailTdi, Synced, TdoAt, ScanTms, ScanTdi, DataTms, LegalPath, IsStable, MoveTms;
    var before, bits, ir, end := moments[i], data[i], cmds[i].irScan, cmds[i].endState;
    HeldMatters(env, short, before, cmds[i], bits);
    ScanParts(short, before.state, ir, bits, end, before.total, moments[i + 1].total, k);
    var from, total := DataStart(short, before, ir), moments[i + 1].total;
    ArrivesShifting(env, t0, short, before.total, before.state, ir);
    var tms, tdi := DataTms(false, |bits|, end != ShiftState(ir)) + TailTms(short, ir, end),
                    bits + TailTdi(short, ir, end, Last(bits));
    TdoLater(t0, total[..from], Clocks(tms, tdi)[..k + 1]);
    ShiftOut(After(t0, total[..from]), ir, tms, tdi, bits, k);
  }

  lemma ArrivesShifting(env: Env, t0: Registers, short: bool, acts: seq<Action>, s: State, ir: bool)
    requires t0.Sized() && IsStable(s) && IsStable(ShiftState(ir)) && Synced(env, acts, s)
    ensures var move := MoveTms(short, s, ShiftState(ir));
      After(t0, acts + Clocks(move, Repeat(false, |move|))).state == ShiftState(ir)
  {
    hide After, StateAfter, TmsPin, Path;
    var move := MoveTms(short, s, ShiftState(ir));
    MoveReaches(short, s, ShiftState(ir));
    StateOfTap(t0, acts + Clocks(move, Repeat(false, |move|)));
    StateAfterClocks(t0.state, acts, move, Repeat(false, |move|));
    assert StateAfter(t0.state, acts) == s;
  }

  /** The actions of a scan: the move, and the data phase. */
  lemma ScanParts(short: bool, s: State, ir: bool, bits: seq<bool>, end: State, acts: seq<Action>, acts': seq<Action>,
                  k: nat)
    requires IsStable(s) && IsStable(end) && k < |bits|
    requires var tms, tdi := ScanTms(short, s, s == TestLogicReset, ir, |bits|, end), ScanTdi(short, s, ir, bits, end);
      |tms| == |tdi| && acts' == acts + Clocks(tms, tdi)
    ensures IsStable(ShiftState(ir))
    ensures var move := MoveTms(short, s, ShiftState(ir));
      var tms, tdi := DataTms(false, |bits|, end != ShiftState(ir)) + TailTms(short, ir, end),
                      bits + TailTdi(short, ir, end, Last(bits));
      var from := |acts| + |move|;
      && |tms| == |tdi| >= |bits| && from + k + 1 <= |acts'|
      && acts'[..from] == acts + Clocks(move, Repeat(false, |move|))
      && acts'[..from + k + 1] == acts'[..from] + Clocks(tms, tdi)[..k + 1]
      && (forall j :: 0 <= j < k ==> !tms[j])
  {
    hide Path, TailTms, TailTdi, Last;
    ShiftIsStable(ir);
    var move := MoveTms(short, s, ShiftState(ir));
    var zeros := Repeat(false, |move|);
    var tms, tdi := DataTms(false, |bits|, end != ShiftState(ir)) + TailTms(short, ir, end),
                    bits + TailTdi(short, ir, end, Last(bits));
    ClocksConcat(move, zeros, tms, tdi);
    assert ScanTms(short, s, s == TestLogicReset, ir, |bits|, end) == move + tms;
    assert ScanTdi(short, s, ir, bits, end) == zeros + tdi;
  }

  /** What a register captures: a pattern, the device's identification, or a one. */
  function Captured(ir: bool, instr: Instr): seq<bool> {
    if ir then LowBits(IR_CAPTURE, 10) else if instr == IdCode then LowBits(IDCODE_VALUE, 32) else LowBits(1, 1)
  }

  /** The way from `s` to the capture state on the short path to the shift state. */
  function CaptureFront(s: State, ir: bool): seq<bool> {
    match s
    case TestLogicReset => if ir then [I, I, O, I, I, O] else [I, I, I, O, I, O]
    case RunTestIdle => if ir then [I, I, O] else [I, O]
    case _ => if ir then [I, I, I, I, O] else [I, I, I, O]
  }

  /** The scan does not just go on with one that was interrupted. */
  predicate Fresh(s: State, ir: bool) {
    IsStable(s) && s != ShiftState(ir) && s != PauseState(ir)
  }

  lemma CapturesLast(s: State, ir: bool)
    requires Fresh(s, ir)
    ensures IsStable(ShiftState(ir)) && MoveTms(true, s, ShiftState(ir)) == CaptureFront(s, ir) + [false]
    ensures Walk(s, CaptureFront(s, ir)) == CaptureState(ir)
  {
    hide Walk;
    Unrolled(s, CaptureFront(s, ir), CaptureState(ir));
  }

  lemma CaptureClock(u: Registers, ir: bool)
    requires u.Sized() && u.state == CaptureState(ir)
    ensures var t := Clocked(u, false, false).0;
      HasRegister(t, ir) ==> Selected(t, ir) == Captured(ir, t.instr)
  {
  }

  /** On arrival in the shift state the selected register holds what it has just captured. */
  lemma ArrivesCaptured(env: Env, t0: Registers, acts: seq<Action>, s: State, ir: bool)
    requires t0.Sized() && Fresh(s, ir) && Synced(env, acts, s)
    ensures IsStable(ShiftState(ir))
    ensures var move := MoveTms(true, s, ShiftState(ir));
      var t := After(t0, acts + Clocks(move, Repeat(false, |move|)));
      HasRegister(t, ir) ==> Selected(t, ir) == Captured(ir, t.instr)
  {
    hide After, StateAfter, TmsPin, Path, Clocked, Selected, HasRegister, Captured, Walk, CaptureFront, MoveTms;
    CapturesLast(s, ir);
    var front := CaptureFront(s, ir);
    var move, n := MoveTms(true, s, ShiftState(ir)), |front|;
    var before := acts + Clocks(front, Repeat(false, n));
    StateOfTap(t0, before);
    StateAfterClocks(t0.state, acts, front, Repeat(false, n));
    assert StateAfter(t0.state, acts) == s;
    assert acts + Clocks(move, Repeat(false, |move|)) == before + [Clock(false, false)];
    Snoc(t0, before, Clock(false, false));
    CaptureClock(After(t0, before), ir);
  }

  /** A scan with the short table that does not go on with an interrupted one: what it reads is the captured
      pattern and then the bits sent, ten clocks late for instructions, 32 for IDCODE and one for BYPASS. */
  lemma ScanReadsCaptured(env: Env, t0: Registers, cmds: seq<Command>, moments: seq<Moment>, data: seq<seq<bool>>,
                          i: nat, k: nat)
    requires t0.Sized() && Drives(env, t0) && Runs(env, true, cmds, moments, data) && i < |cmds|
    requires cmds[i].Scan? && Trimmed(cmds[i].fields) != [] && Synced(env, moments[i].total, moments[i].state)
    requires Fresh(moments[i].state, cmds[i].irScan) && k < |data[i]|
    ensures var ir, from, total := cmds[i].irScan, DataStart(true, moments[i], cmds[i].irScan), moments[i + 1].total;
      && from + k + 1 <= |total|
      && var t := After(t0, total[..from]);
        env.tdo(total[..from + k + 1]) == if HasRegister(t, ir) then (Captured(ir, t.instr) + data[i])[k] else true
  {
    hide After, StateAfter, TmsPin, Path, Trimmed, Clocked, Selected, HasRegister, Carries, FieldWrites, TotalBits;
    hide Captured;
    hide TailTms, TailTdi, Synced, TdoAt, ScanTms, ScanTdi, DataTms, LegalPath, IsStable, MoveTms;
    var before, bits, ir, end := moments[i], data[i], cmds[i].irScan, cmds[i].endState;
    ScanReads(env, t0, true, cmds, moments, data, i, k);
    HeldMatters(env, true, before, cmds[i], bits);
    ScanParts(true, before.state, ir, bits, end, before.total, moments[i + 1].total, k);
    ArrivesCaptured(env, t0, before.total, before.state, ir);
    CapturedSize(ir);
  }

  lemma CapturedSize(ir: bool)
    ensures forall instr :: |Captured(ir, instr)| > 0
  {
  }

  /** Whether a clock of `tms` is made in state `goal`. */
  predicate Passes(s: State, tms: seq<bool>, goal: State)
    decreases |tms|
  {
    tms != [] && (s == goal || Passes(Next(s, tms[0]), tms[1..], goal))
  }

  lemma FirstStep(s: State, tms: seq<bool>, goal: State)
    requires tms != []
    ensures Passes(s, tms, goal) <==> s == goal || Passes(Next(s, tms[0]), tms[1..], goal)
    ensures Walk(s, tms) == Walk(Next(s, tms[0]), tms[1..])
  {
  }

  lemma {:induction false} PassesConcat(s: State, tms: seq<bool>, more: seq<bool>, goal: State)
    ensures Passes(s, tms + more, goal) <==> Passes(s, tms, goal) || Passes(Walk(s, tms), more, goal)
    decreases |tms|
  {
    hide Next, Passes, Walk;
    if tms == [] {
      assert tms + more == more;
      PassesNothing(s, goal);
    } else {
      PassesConcat(Next(s, tms[0]), tms[1..], more, goal);
      assert (tms + more)[1..] == tms[1..] + more;
      FirstStep(s, tms, goal);
      FirstStep(s, tms + more, goal);
    }
  }

  lemma PassesNothing(s: State, goal: State)
    ensures !Passes(s, [], goal) && Walk(s, []) == s
  {
  }

  lemma {:induction false} PassesIsVisits(s: State, tms: seq<bool>, goal: State)
    ensures Passes(s, tms, goal) <==> tms != [] && (s == goal || Visits(s, tms, goal))
    decreases |tms|
  {
    hide Next;
    if tms != [] {
      PassesIsVisits(Next(s, tms[0]), tms[1..], goal);
    }
  }

  /** IDCODE stays selected as long as no instruction is. */
  lemma {:induction false} KeepsIdCode(t: Registers, tms: seq<bool>, tdi: seq<bool>)
    requires t.Sized() && |tms| == |tdi| && t.instr == IdCode && !Passes(t.state, tms, UpdateIr)
    ensures After(t, Clocks(tms, tdi)).instr == IdCode
    decreases |tms|
  {
    hide After, Next;
    var acts := Clocks(tms, tdi);
    if tms == [] {
      assert acts == [];
      NothingAfter(t);
    } else {
      var u := Clocked(t, tms[0], tdi[0]).0;
      KeepsIdCode(u, tms[1..], tdi[1..]);
      assert acts == [acts[0]] + Clocks(tms[1..], tdi[1..]);
      AfterConcat(t, [acts[0]], Clocks(tms[1..], tdi[1..]));
      assert After(t, [acts[0]]) == u by { OneAfter(t, tms[0], tdi[0]); }
    }
  }

  lemma OneAfter(t: Registers, tms: bool, tdi: bool)
    requires t.Sized()
    ensures After(t, [Clock(tms, tdi)]) == Clocked(t, tms, tdi).0
  {
    NothingAfter(t);
    Snoc(t, [], Clock(tms, tdi));
    assert [] + [Clock(tms, tdi)] == [Clock(tms, tdi)];
  }

  /** Not among the instruction states. */
  predicate DrSide(s: State) {
    s in {TestLogicReset, RunTestIdle, ShiftDr, PauseDr}
  }

  /** `x` is a state in which a clock selects an instruction, and not the one the TAP is in. */
  predicate Selects(x: State, s: State) {
    x == UpdateIr || (x == TestLogicReset && s != TestLogicReset)
  }

  lemma FromResetOrIdle(short: bool, from: State, to: State, x: State)
    requires (from == TestLogicReset || from == RunTestIdle) && DrSide(to) && Selects(x, from) && Selects(x, to)
    ensures var p := Path(short, from, to); 1 <= |p| <= 7 && !Early(from, p, x)
  {
  }

  lemma FromDr(short: bool, from: State, to: State, x: State)
    requires (from == ShiftDr || from == PauseDr) && DrSide(to) && Selects(x, from) && Selects(x, to)
    ensures var p := Path(short, from, to); 1 <= |p| <= 7 && !Early(from, p, x)
  {
  }

  /** The paths between these states do not select another instruction. */
  lemma PathKeepsInstruction(short: bool, from: State, to: State, x: State)
    requires DrSide(from) && DrSide(to) && Selects(x, from) && Selects(x, to)
    ensures !Passes(from, Path(short, from, to), x)
  {
    hide Path, Early, Visits, Passes;
    if from == TestLogicReset || from == RunTestIdle {
      FromResetOrIdle(short, from, to, x);
    } else {
      FromDr(short, from, to, x);
    }
    UnrolledVisits(from, Path(short, from, to), x);
    PassesIsVisits(from, Path(short, from, to), x);
  }

  lemma MoveKeepsInstruction(short: bool, from: State, to: State, x: State)
    requires DrSide(from) && DrSide(to) && Selects(x, from) && Selects(x, to)
    ensures !Passes(from, MoveTms(short, from, to), x)
  {
    hide Path;
    PathKeepsInstruction(short, from, to, x);
  }

  lemma {:induction false} WaitingKeepsInstruction(s: State, n: nat, x: State)
    requires DrSide(s) && Selects(x, s)
    ensures !Passes(s, Repeat(s == TestLogicReset, n), x)
    decreases n
  {
    if n > 0 {
      WaitingKeepsInstruction(s, n - 1, x);
      assert Repeat(s == TestLogicReset, n)[1..] == Repeat(s == TestLogicReset, n - 1);
    }
  }

  /** A command that leaves the instruction alone: no IR scan, no end state on its side, no path over it or over
      Test-Logic-Reset, no TMS bits of the caller's own. */
  predicate DrOnly(cmd: Command) {
    match cmd
    case Runtest(_, end) => DrSide(end)
    case TlrReset(end) => DrSide(end)
    case Pathmove(path) =>
      UpdateIr !in path && TestLogicReset !in path && (path != [] ==> DrSide(path[|path| - 1]))
    case Scan(ir, _, end) => !ir && DrSide(end)
    case Sleep(_) => true
    case StableClocks(_) => true
    case _ => false
  }

  /** Its clocks do not update the instruction, nor reset it unless they lead to Test-Logic-Reset. */
  lemma CommandKeepsInstruction(short: bool, s: State, cmd: Command, bits: seq<bool>, x: State)
    requires DrSide(s) && DrOnly(cmd) && Survives(s, cmd) && (cmd.Scan? ==> bits != [] || Trimmed(cmd.fields) == [])
    requires Selects(x, s) && Selects(x, CommandState(s, cmd))
    ensures DrSide(CommandState(s, cmd))
    ensures !Passes(s, CommandClocks(short, s, s == TestLogicReset, cmd, bits).0, x)
  {
    hide Path, Passes, MoveTms, Trimmed, Walk, LegalPath, PathTms;
    PassesNothing(s, x);
    match cmd
    case Runtest(n, end) => RuntestKeepsInstruction(short, s, n, end, x);
    case TlrReset(end) => PathKeepsInstruction(short, s, end, x);
    case Pathmove(path) => PathmovePasses(s, path, x);
    case Scan(_, fields, end) =>
      if Trimmed(fields) != [] {
        ScanKeepsInstruction(short, s, bits, end, x);
      }
    case Sleep(_) =>
    case StableClocks(n) => WaitingKeepsInstruction(s, Cycles(n), x);
  }

  lemma {:induction false} PathmovePasses(s: State, path: seq<State>, x: State)
    requires LegalPath(s, path) && s != x && x !in path
    ensures !Passes(s, PathTms(s, path), x)
    decreases |path|
  {
    hide Next;
    if path != [] {
      assert forall i :: 0 <= i < |path| - 1 ==> PathState(path[0], path[1..], i) == PathState(s, path, i + 1);
      assert LegalPath(path[0], path[1..]) by { RestIsLegal(s, path); }
      PathmovePasses(path[0], path[1..], x);
      assert PathTms(s, path)[1..] == PathTms(path[0], path[1..]);
      PathBitLeads(s, path, 0);
    }
  }

  lemma RestIsLegal(s: State, path: seq<State>)
    requires LegalPath(s, path) && path != []
    ensures LegalPath(path[0], path[1..])
  {
    hide Next, LegalStep;
    forall i | 0 <= i < |path| - 1 ensures LegalStep(PathState(path[0], path[1..], i), path[1..][i]) {
      assert LegalStep(PathState(s, path, i + 1), path[i + 1]);
    }
  }

  lemma RuntestKeepsInstruction(short: bool, s: State, numCycles: int, end: State, x: State)
    requires DrSide(s) && DrSide(end) && Selects(x, s) && Selects(x, end)
    ensures !Passes(s, RuntestTms(short, s, numCycles, end), x)
  {
    hide Path, Passes, MoveTms, Walk;
    var n := Cycles(numCycles);
    var move1, zeros, move2 := MoveTms(short, s, RunTestIdle), Repeat(false, n), MoveTms(short, RunTestIdle, end);
    MoveKeepsInstruction(short, s, RunTestIdle, x);
    MoveReaches(short, s, RunTestIdle);
    WaitingKeepsInstruction(RunTestIdle, n, x);
    WalkStays(RunTestIdle, n);
    MoveKeepsInstruction(short, RunTestIdle, end, x);
    PassesConcat(s, move1, zeros, x);
    WalkConcat(s, move1, zeros);
    PassesConcat(s, move1 + zeros, move2, x);
  }

  lemma ScanKeepsInstruction(short: bool, s: State, bits: seq<bool>, end: State, x: State)
    requires DrSide(s) && DrSide(end) && bits != [] && Selects(x, s) && Selects(x, end)
    ensures !Passes(s, ScanTms(short, s, s == TestLogicReset, false, |bits|, end), x)
  {
    hide Path, Passes, MoveTms, Walk, TailTms;
    var n, leave := |bits|, end != ShiftDr;
    var move, front := MoveTms(short, s, ShiftDr), if leave then n - 1 else n;
    var rest := if leave then [true] + TailTms(short, false, end) else [];
    MoveKeepsInstruction(short, s, ShiftDr, x);
    MoveReaches(short, s, ShiftDr);
    WaitingKeepsInstruction(ShiftDr, front, x);
    WalkStays(ShiftDr, front);
    if leave {
      LeavingKeepsInstruction(short, end, x);
    }
    PassesNothing(ShiftDr, x);
    PassesConcat(ShiftDr, Repeat(false, front), rest, x);
    PassesConcat(s, move, Repeat(false, front) + rest, x);
    assert TailTms(short, false, ShiftDr) == [] by { NoTail(short); }
    assert ScanTms(short, s, s == TestLogicReset, false, n, end) == move + (Repeat(false, front) + rest);
  }

  lemma NoTail(short: bool)
    ensures TailTms(short, false, ShiftDr) == []
  {
  }

  /** From Shift-DR over Exit1-DR to Pause-DR and on. */
  lemma LeavingKeepsInstruction(short: bool, end: State, x: State)
    requires DrSide(end) && end != ShiftDr && Selects(x, ShiftDr) && Selects(x, end)
    ensures !Passes(ShiftDr, [true] + TailTms(short, false, end), x)
  {
    hide Path, MoveTms, Walk;
    var move := MoveTms(short, PauseDr, end);
    MoveKeepsInstruction(short, PauseDr, end, x);
    ToPause(x);
    PassesConcat(ShiftDr, [true, false], move, x);
    assert [true] + TailTms(short, false, end) == [true, false] + move;
  }

  lemma ToPause(x: State)
    requires Selects(x, ShiftDr)
    ensures Walk(ShiftDr, [true, false]) == PauseDr && !Passes(ShiftDr, [true, false], x)
  {
    OutOfShift(false, false);
    assert [true, false][1..] == [false];
  }

  /** IDCODE is selected, and the TAP is not among the instruction states; so says the follower, too. */
  ghost predicate Identified(env: Env, t0: Registers, m: Moment)
    requires t0.Sized()
  {
    Synced(env, m.total, m.state) && DrSide(m.state) && After(t0, m.total).instr == IdCode
  }

  lemma ResetIdentifies(env: Env, t0: Registers, short: bool, before: Moment, bits: seq<bool>, after: Moment)
    requires t0.Sized() && Survives(before.state, TlrReset(TestLogicReset))
    requires Step(env, short, before, TlrReset(TestLogicReset), bits, after)
    ensures Identified(env, t0, after)
  {
    hide After, StateAfter, TmsPin, Path, Walk, Clocked;
    StepGainsSync(env, short, before, bits, after);
    ResetFromAnywhere(TestLogicReset, short, before.state);
    var six := before.total + Clocks(Repeat(true, 6), Repeat(false, 6));
    assert after.total == six + [Clock(true, false)];
    StateOfTap(t0, six);
    StateAfterClocks(t0.state, before.total, Repeat(true, 6), Repeat(false, 6));
    SixOnes(StateAfter(t0.state, before.total));
    Snoc(t0, six, Clock(true, false));
    ResetClock(After(t0, six));
  }

  lemma SixOnes(s: State)
    ensures Walk(s, Repeat(true, 6)) == TestLogicReset
  {
    hide Walk;
    FiveOnes(s);
    WalkConcat(s, Repeat(true, 5), Repeat(true, 1));
    assert Repeat(true, 6) == Repeat(true, 5) + Repeat(true, 1);
    WalkStays(TestLogicReset, 1);
  }

  lemma ResetClock(u: Registers)
    requires u.Sized() && u.state == TestLogicReset
    ensures Clocked(u, true, false).0.instr == IdCode
  {
  }

  lemma StepKeepsIdentified(env: Env, t0: Registers, short: bool, before: Moment, cmd: Command, bits: seq<bool>,
                            after: Moment)
    requires t0.Sized() && Identified(env, t0, before) && DrOnly(cmd)
    requires Survives(before.state, cmd) && Step(env, short, before, cmd, bits, after)
    ensures Identified(env, t0, after)
  {
    hide After, StateAfter, TmsPin, Path, Walk, Clocked, CommandClocks, CommandState, Carries, FieldWrites, Passes;
    hide LegalPath, Synced;
    hide Trimmed, MoveTms;
    var s := before.state;
    DrSideIsStable(s);
    if cmd.Scan? && Trimmed(cmd.fields) != [] {
      CarriesLength(before.memory, before.owed, after.owed, Trimmed(cmd.fields), bits);
      TrimmedHasBits(cmd.fields);
    }
    StepKeepsSync(env, short, before, cmd, bits, after);
    CommandKeepsInstruction(short, s, cmd, bits, UpdateIr);
    HeldMatters(env, short, before, cmd, bits);
    var clocks := CommandClocks(short, s, s == TestLogicReset, cmd, bits);
    AfterConcat(t0, before.total, Clocks(clocks.0, clocks.1));
    StateIsFollowed(env, t0, before.total, s);
    KeepsIdCode(After(t0, before.total), clocks.0, clocks.1);
  }

  lemma DrSideIsStable(s: State)
    requires DrSide(s)
    ensures IsStable(s)
  {
  }

  lemma StateIsFollowed(env: Env, t0: Registers, acts: seq<Action>, s: State)
    requires t0.Sized() && Synced(env, acts, s)
    ensures After(t0, acts).state == s
  {
    hide After, StateAfter, TmsPin;
    StateOfTap(t0, acts);
  }

  /** After a JTAG_TLR_RESET, for as long as the instruction register is left alone, IDCODE is selected. */
  lemma {:induction false} IdentifiedAfterReset(env: Env, t0: Registers, short: bool, cmds: seq<Command>,
                                                moments: seq<Moment>,
                                                data: seq<seq<bool>>, r: nat, i: nat)
    requires t0.Sized() && Runs(env, short, cmds, moments, data)
    requires r < i <= |cmds| && cmds[r] == TlrReset(TestLogicReset) && forall j :: r < j < i ==> DrOnly(cmds[j])
    ensures Identified(env, t0, moments[i])
    decreases i
  {
    hide Step, Identified, Survives, DrOnly;
    if i == r + 1 {
      ResetIdentifies(env, t0, short, moments[r], data[r], moments[i]);
    } else {
      IdentifiedAfterReset(env, t0, short, cmds, moments, data, r, i - 1);
      StepKeepsIdentified(env, t0, short, moments[i - 1], cmds[i - 1], data[i - 1], moments[i]);
    }
  }

  /** So a DR scan then reads the device's identification, and after 32 bits what was sent. */
  lemma IdcodeIsRead(env: Env, t0: Registers, cmds: seq<Command>, moments: seq<Moment>, data: seq<seq<bool>>, r: nat,
                     i: nat, k: nat)
    requires t0.Sized() && Drives(env, t0) && Runs(env, true, cmds, moments, data)
    requires r < i < |cmds| && cmds[r] == TlrReset(TestLogicReset) && forall j :: r < j < i ==> DrOnly(cmds[j])
    requires cmds[i].Scan? && !cmds[i].irScan && Trimmed(cmds[i].fields) != [] && k < |data[i]|
    requires moments[i].state == TestLogicReset || moments[i].state == RunTestIdle
    ensures var from, total := DataStart(true, moments[i], false), moments[i + 1].total;
      && from + k + 1 <= |total|
      && env.tdo(total[..from + k + 1]) == (LowBits(0x029070DD, 32) + data[i])[k]
  {
    hide After, StateAfter, TmsPin, Path, Trimmed, Clocked, Carries, FieldWrites, TotalBits, LowBits, Passes;
    hide TailTms, TailTdi, Synced, TdoAt, ScanTms, ScanTdi, DataTms, LegalPath, MoveTms;
    var before, bits, end := moments[i], data[i], cmds[i].endState;
    IdentifiedAfterReset(env, t0, true, cmds, moments, data, r, i);
    ScanReadsCaptured(env, t0, cmds, moments, data, i, k);
    HeldMatters(env, true, before, cmds[i], bits);
    ScanParts(true, before.state, false, bits, end, before.total, moments[i + 1].total, k);
    ArrivesIdentified(env, t0, before.total, before.state);
  }

  lemma ArrivesIdentified(env: Env, t0: Registers, acts: seq<Action>, s: State)
    requires t0.Sized() && DrSide(s) && Synced(env, acts, s) && After(t0, acts).instr == IdCode
    ensures var move := MoveTms(true, s, ShiftDr); After(t0, acts + Clocks(move, Repeat(false, |move|))).instr == IdCode
  {
    hide After, StateAfter, TmsPin, Path, MoveTms, Passes, Synced;
    var move := MoveTms(true, s, ShiftDr);
    MoveKeepsInstruction(true, s, ShiftDr, UpdateIr);
    StateIsFollowed(env, t0, acts, s);
    AfterConcat(t0, acts, Clocks(move, Repeat(false, |move|)));
    KeepsIdCode(After(t0, acts), move, Repeat(false, |move|));
  }

  /** The bits of field `j` of a scan are these of the scan's. */
  lemma BitOfField(env: Env, short: bool, cmds: seq<Command>, moments: seq<Moment>, data: seq<seq<bool>>, i: nat,
                   j: nat, b: nat)
    requires Runs(env, short, cmds, moments, data) && i < |cmds| && cmds[i].Scan? && j < |Trimmed(cmds[i].fields)|
    requires b < Trimmed(cmds[i].fields)[j].numBits
    ensures TotalBits(Trimmed(cmds[i].fields)[..j]) + b < |data[i]|
  {
    hide CommandActions, CommandState, CommandEnd, FieldWrites, Trimmed, MoveTms, IsStable, TotalBits, Carries;
    var fields := Trimmed(cmds[i].fields);
    FieldsAddUp(fields, j);
    assert Step(env, short, moments[i], cmds[i], data[i], moments[i + 1]);
    CarriesLength(moments[i].memory, moments[i].owed, moments[i + 1].owed, fields, data[i]);
  }

  /** What the buffer of a field ends up with, if it is used for that field only: its part of the stream of
      captured and sent bits. */
  lemma FieldReadsCaptured(env: Env, t0: Registers, cmds: seq<Command>, moments: seq<Moment>, data: seq<seq<bool>>,
                           i: nat, j: nat,
                           a: array<byte>, s: seq<byte>, b: nat)
    requires t0.Sized() && Drives(env, t0) && Runs(env, true, cmds, moments, data) && moments[0].owed == []
    requires OnlyField(cmds, i, j, a) && Trimmed(cmds[i].fields)[j].numBits <= 8 * |s|
    requires b < Trimmed(cmds[i].fields)[j].numBits
    requires Synced(env, moments[i].total, moments[i].state) && Fresh(moments[i].state, cmds[i].irScan)
    ensures var ir, k := cmds[i].irScan, TotalBits(Trimmed(cmds[i].fields)[..j]) + b;
      && k < |data[i]| && DataStart(true, moments[i], ir) <= |moments[i + 1].total|
      && var t := After(t0, moments[i + 1].total[..DataStart(true, moments[i], ir)]);
        BufBit(Stored(a, s, moments[|cmds|].owed), b)
          == if HasRegister(t, ir) then (Captured(ir, t.instr) + data[i])[k] else true
  {
    hide After, Trimmed, Captured, TotalBits, Synced, Stored, BufBit, DataStart, Step, Survives, HasRegister, TdoAt;
    hide Fresh;
    FieldInRun(env, true, cmds, moments, data, i, j, a, s, b);
    BitOfField(env, true, cmds, moments, data, i, j, b);
    ScanReadsCaptured(env, t0, cmds, moments, data, i, TotalBits(Trimmed(cmds[i].fields)[..j]) + b);
    CapturedSize(cmds[i].irScan);
  }

  /** In particular the identification. */
  lemma FieldReadsIdcode(env: Env, t0: Registers, cmds: seq<Command>, moments: seq<Moment>, data: seq<seq<bool>>,
                         r: nat, i: nat, j: nat,
                         a: array<byte>, s: seq<byte>, b: nat)
    requires t0.Sized() && Drives(env, t0) && Runs(env, true, cmds, moments, data) && moments[0].owed == []
    requires r < i < |cmds| && cmds[r] == TlrReset(TestLogicReset) && forall j :: r < j < i ==> DrOnly(cmds[j])
    requires moments[i].state == TestLogicReset || moments[i].state == RunTestIdle
    requires OnlyField(cmds, i, j, a) && !cmds[i].irScan
    requires Trimmed(cmds[i].fields)[j].numBits <= 8 * |s| && b < Trimmed(cmds[i].fields)[j].numBits
    ensures var k := TotalBits(Trimmed(cmds[i].fields)[..j]) + b;
      && k < |data[i]|
      && BufBit(Stored(a, s, moments[|cmds|].owed), b) == (LowBits(0x029070DD, 32) + data[i])[k]
  {
    hide Trimmed, TotalBits, Stored, BufBit, DataStart, Step, Survives, TdoAt, LowBits, DrOnly;
    FieldInRun(env, true, cmds, moments, data, i, j, a, s, b);
    BitOfField(env, true, cmds, moments, data, i, j, b);
    IdcodeIsRead(env, t0, cmds, moments, data, r, i, TotalBits(Trimmed(cmds[i].fields)[..j]) + b);
  }
}
