/** Which instruction the scans of a queue leave selected in a target that is a TAP, and what is read with it. */
module Instructions {
  import opened Bits
  import opened MpsseDevice
  import opened ReadBack
  import opened ShiftCommands
  import opened Tap
  import opened Interface
  import opened JtagCommands
  import opened Target

  /** Clocks that are made neither in Update-IR nor in Test-Logic-Reset do not select an instruction. */
  lemma {:induction false} KeepsInstruction(t: Registers, tms: seq<bool>, tdi: seq<bool>)
    requires t.Sized() && |tms| == |tdi|
    requires !Passes(t.state, tms, UpdateIr) && !Passes(t.state, tms, TestLogicReset)
    ensures After(t, Clocks(tms, tdi)).instr == t.instr
    decreases |tms|
  {
    hide After, Next, LowBits, InstrFromBits, FromBits;
    if tms == [] {
      assert Clocks(tms, tdi) == [];
      NothingAfter(t);
    } else {
      KeepsInstruction(Clocked(t, tms[0], tdi[0]).0, tms[1..], tdi[1..]);
      FirstAfter(t, tms, tdi);
    }
  }

  lemma FirstAfter(t: Registers, tms: seq<bool>, tdi: seq<bool>)
    requires t.Sized() && |tms| == |tdi| > 0
    ensures After(t, Clocks(tms, tdi)) == After(Clocked(t, tms[0], tdi[0]).0, Clocks(tms[1..], tdi[1..]))
  {
    hide After, Clocked;
    var acts := Clocks(tms, tdi);
    assert acts == [acts[0]] + Clocks(tms[1..], tdi[1..]);
    AfterConcat(t, [acts[0]], Clocks(tms[1..], tdi[1..]));
    OneAfter(t, tms[0], tdi[0]);
  }

  /** Nor do clocks made neither in Capture-IR nor in Shift-IR change the instruction register. */
  lemma {:induction false} KeepsRegister(t: Registers, tms: seq<bool>, tdi: seq<bool>)
    requires t.Sized() && |tms| == |tdi|
    requires !Passes(t.state, tms, CaptureIr) && !Passes(t.state, tms, ShiftIr)
    ensures After(t, Clocks(tms, tdi)).ir == t.ir
    decreases |tms|
  {
    hide After, Next, LowBits, InstrFromBits, FromBits;
    if tms == [] {
      assert Clocks(tms, tdi) == [];
      NothingAfter(t);
    } else {
      KeepsRegister(Clocked(t, tms[0], tdi[0]).0, tms[1..], tdi[1..]);
      FirstAfter(t, tms, tdi);
    }
  }

  lemma StateOfClocks(t: Registers, tms: seq<bool>, tdi: seq<bool>)
    requires t.Sized() && |tms| == |tdi|
    ensures After(t, Clocks(tms, tdi)).state == Walk(t.state, tms)
  {
    hide After, StateAfter, Walk;
    StateOfTap(t, Clocks(tms, tdi));
    StateAfterClocks(t.state, [], tms, tdi);
    assert [] + Clocks(tms, tdi) == Clocks(tms, tdi);
    assert StateAfter(t.state, []) == t.state by { NothingTaken(t, ShiftIr); }
  }

  /** The way from Pause-IR to these states, as far as Update-IR. */
  function UpdateFront(short: bool, end: State): seq<bool>
    requires DrSide(end)
  {
    if short || end == TestLogicReset || end == PauseDr then [I, I]
    else if end == RunTestIdle then [O, O, O, O, I, I]
    else [O, O, I, I]
  }

  lemma FrontUpdates(short: bool, end: State)
    requires DrSide(end)
    ensures var p, f := Path(short, PauseIr, end), UpdateFront(short, end);
      && f <= p && |f| < |p| <= 7 && Arrives(PauseIr, f, UpdateIr)
      && !Early(PauseIr, f, CaptureIr) && !Early(PauseIr, f, ShiftIr)
  {
  }

  lemma RestKeeps(short: bool, end: State, x: State)
    requires DrSide(end) && end != TestLogicReset && (x == UpdateIr || x == TestLogicReset)
    ensures var p, n := Path(short, PauseIr, end), |UpdateFront(short, end)|;
      n < |p| <= 7 && Next(UpdateIr, p[n]) != x && !Early(Next(UpdateIr, p[n]), p[n + 1..], x)
  {
  }

  /** It leads there without another capture or shift, and from there on without selecting anything else. */
  lemma UpdatesOnce(short: bool, end: State)
    requires DrSide(end) && end != TestLogicReset
    ensures var p, f := Path(short, PauseIr, end), UpdateFront(short, end);
      && f <= p && |f| < |p| && Walk(PauseIr, f) == UpdateIr
      && !Passes(PauseIr, f, CaptureIr) && !Passes(PauseIr, f, ShiftIr)
      && var s := Next(UpdateIr, p[|f|]);
      && !Passes(s, p[|f| + 1..], UpdateIr) && !Passes(s, p[|f| + 1..], TestLogicReset)
  {
    hide Path, UpdateFront, Walk, Passes, Visits, Early, Arrives, Next;
    var p, f := Path(short, PauseIr, end), UpdateFront(short, end);
    FrontUpdates(short, end);
    RestKeeps(short, end, UpdateIr);
    RestKeeps(short, end, TestLogicReset);
    Unrolled(PauseIr, f, UpdateIr);
    NotPassed(PauseIr, f, CaptureIr);
    NotPassed(PauseIr, f, ShiftIr);
    NotPassed(Next(UpdateIr, p[|f|]), p[|f| + 1..], UpdateIr);
    NotPassed(Next(UpdateIr, p[|f|]), p[|f| + 1..], TestLogicReset);
  }

  lemma NotPassed(s: State, tms: seq<bool>, x: State)
    requires |tms| <= 7 && s != x && !Early(s, tms, x)
    ensures !Passes(s, tms, x)
  {
    hide Passes, Visits, Early;
    UnrolledVisits(s, tms, x);
    PassesIsVisits(s, tms, x);
  }

  /** Leaving Pause-IR for the data side selects what the register spells. */
  lemma UpdateSelects(t: Registers, short: bool, end: State, tdi: seq<bool>)
    requires t.Sized() && t.state == PauseIr && DrSide(end) && end != TestLogicReset
    requires |tdi| == |Path(short, PauseIr, end)|
    ensures After(t, Clocks(Path(short, PauseIr, end), tdi)).instr == InstrFromBits(FromBits(t.ir))
  {
    hide Path, UpdateFront, After, Passes, InstrFromBits, FromBits, Next, Walk;
    var p, f := Path(short, PauseIr, end), UpdateFront(short, end);
    UpdatesOnce(short, end);
    var n := |f|;
    assert p[..n] == f;
    KeepsRegister(t, p[..n], tdi[..n]);
    StateOfClocks(t, p[..n], tdi[..n]);
    var u := After(t, Clocks(p[..n], tdi[..n]));
    FirstAfter(u, p[n..], tdi[n..]);
    assert p[n..][1..] == p[n + 1..] && tdi[n..][1..] == tdi[n + 1..];
    UpdateClock(u, p[n], tdi[n]);
    KeepsInstruction(Clocked(u, p[n], tdi[n]).0, p[n + 1..], tdi[n + 1..]);
    ClocksConcat(p[..n], tdi[..n], p[n..], tdi[n..]);
    assert p[..n] + p[n..] == p && tdi[..n] + tdi[n..] == tdi;
    AfterConcat(t, Clocks(p[..n], tdi[..n]), Clocks(p[n..], tdi[n..]));
  }

  /** Leaving it for Test-Logic-Reset selects IDCODE. */
  lemma ResetSelects(t: Registers, short: bool, from: State, tdi: seq<bool>)
    requires t.Sized() && IsStable(from) && |tdi| == |Path(short, from, TestLogicReset)|
    ensures After(t, Clocks(Path(short, from, TestLogicReset), tdi)).instr == IdCode
  {
    hide Path, After, Walk;
    var p := Path(short, from, TestLogicReset);
    ResetFromAnywhere(t.state, short, from);
    assert p[..6] == Repeat(true, 6) && p[..6] + p[6..] == p && tdi[..6] + tdi[6..] == tdi;
    ClocksConcat(p[..6], tdi[..6], p[6..], tdi[6..]);
    StateOfClocks(t, p[..6], tdi[..6]);
    SixOnes(t.state);
    var u := After(t, Clocks(p[..6], tdi[..6]));
    AfterConcat(t, Clocks(p[..6], tdi[..6]), Clocks(p[6..], tdi[6..]));
    assert Clocks(p[6..], tdi[6..]) == [Clock(true, tdi[6])];
    OneAfter(u, true, tdi[6]);
  }

  /** The data of an IR scan, from Shift-IR to Exit1-IR: the register holds the last ten bits. */
  lemma DataShifted(t: Registers, bits: seq<bool>)
    requires t.Sized() && t.state == ShiftIr && |bits| >= 10
    ensures var u, n := After(t, Clocks(DataTms(false, |bits|, true), bits)), |bits|;
      u.state == Exit1Ir && u.ir == bits[n - 10..]
  {
    hide After, Clocked, DataTms;
    var n := |bits|;
    var front := Clocks(Repeat(false, n - 1), bits[..n - 1]);
    LeavingData(bits);
    ShiftRun(t, true, bits, n - 1);
    Snoc(t, front, Clock(true, bits[n - 1]));
    var u := After(t, front);
    ShiftOnce(u, true, true, bits[n - 1]);
    LastTen(t.ir, bits);
    LeavesShift(u, bits[n - 1]);
  }

  lemma LeavingData(bits: seq<bool>)
    requires bits != []
    ensures var n := |bits|;
      Clocks(DataTms(false, n, true), bits) == Clocks(Repeat(false, n - 1), bits[..n - 1]) + [Clock(true, bits[n - 1])]
  {
  }

  lemma LastTen(ir: seq<bool>, bits: seq<bool>)
    requires |ir| == 10 && |bits| >= 10
    ensures (ir + bits)[|bits| - 1..|bits| + 9][1..] + [bits[|bits| - 1]] == bits[|bits| - 10..]
  {
  }

  lemma LeavesShift(u: Registers, tdi: bool)
    requires u.Sized() && u.state == ShiftIr
    ensures Clocked(u, true, tdi).0.state == Exit1Ir
  {
  }

  lemma ToPauseIr(t: Registers, tdi: bool)
    requires t.Sized() && t.state == Exit1Ir
    ensures var u := After(t, [Clock(false, tdi)]); u.state == PauseIr && u.ir == t.ir
  {
    OneAfter(t, false, tdi);
  }

  /** What an IR scan of ten bits or more leaves selected when it ends on the data side. */
  lemma ScanSelectsAfter(t: Registers, short: bool, bits: seq<bool>, end: State)
    requires t.Sized() && t.state == ShiftIr && |bits| >= 10 && DrSide(end)
    ensures var tms, tdi := DataTms(false, |bits|, true) + TailTms(short, true, end),
                            bits + TailTdi(short, true, end, Last(bits));
      After(t, Clocks(tms, tdi)).instr
        == if end == TestLogicReset then IdCode else InstrFromBits(FromBits(bits[|bits| - 10..]))
  {
    hide After, Path, InstrFromBits, FromBits, Last, DataTms, Clocks;
    var n, last := |bits|, Last(bits);
    var p := Path(short, PauseIr, end);
    var zeros := Repeat(false, |p|);
    var data := Clocks(DataTms(false, n, true), bits);
    DataShifted(t, bits);
    var u := After(t, data);
    ToPauseIr(u, last);
    var v := After(u, [Clock(false, last)]);
    if end == TestLogicReset {
      ResetSelects(v, short, PauseIr, zeros);
    } else {
      UpdateSelects(v, short, end, zeros);
    }
    AfterConcat(u, [Clock(false, last)], Clocks(p, zeros));
    AfterConcat(t, data, [Clock(false, last)] + Clocks(p, zeros));
    LeavingClocks(short, bits, end);
  }

  lemma LeavingClocks(short: bool, bits: seq<bool>, end: State)
    requires DrSide(end)
    ensures var tms, tdi := DataTms(false, |bits|, true) + TailTms(short, true, end),
                            bits + TailTdi(short, true, end, Last(bits));
      var p := Path(short, PauseIr, end);
      && |tms| == |tdi|
      && Clocks(tms, tdi)
           == Clocks(DataTms(false, |bits|, true), bits) + ([Clock(false, Last(bits))] + Clocks(p, Repeat(false, |p|)))
  {
    hide Path, Last, DataTms;
    var p := Path(short, PauseIr, end);
    var zeros := Repeat(false, |p|);
    assert Clocks([false], [Last(bits)]) == [Clock(false, Last(bits))];
    ClocksConcat([false], [Last(bits)], p, zeros);
    ClocksConcat(DataTms(false, |bits|, true), bits, [false] + p, [Last(bits)] + zeros);
  }

  /** In every run: an IR scan of ten bits or more that ends on the data side. */
  lemma ScanSelects(env: Env, t0: Registers, short: bool, cmds: seq<Command>, moments: seq<Moment>,
                    data: seq<seq<bool>>, i: nat)
    requires t0.Sized() && Runs(env, short, cmds, moments, data) && i < |cmds|
    requires cmds[i].Scan? && cmds[i].irScan && Synced(env, moments[i].total, moments[i].state)
    requires |data[i]| >= 10 && Trimmed(cmds[i].fields) != [] && DrSide(cmds[i].endState)
    ensures var code := FromBits(data[i][|data[i]| - 10..]);
      var instr := After(t0, moments[i + 1].total).instr;
      && (cmds[i].endState == TestLogicReset ==> instr == IdCode)
      && (cmds[i].endState != TestLogicReset ==>
            && instr == InstrFromBits(code)
            && (instr == IdCode <==> code == 0x006) && (instr == Unknown1 <==> code == 0x002)
            && (code == 0x3ff ==> instr == Bypass))
    ensures Synced(env, moments[i + 1].total, moments[i + 1].state) && moments[i + 1].state == cmds[i].endState
  {
    hide After, StateAfter, TmsPin, Path, Trimmed, Carries, FieldWrites, TotalBits, FromBits, InstrFromBits;
    hide TailTms, TailTdi, Synced, ScanTms, ScanTdi, DataTms, LegalPath, MoveTms;
    var before, bits, end := moments[i], data[i], cmds[i].endState;
    assert Step(env, short, before, cmds[i], bits, moments[i + 1]);
    StepKeepsSync(env, short, before, cmds[i], bits, moments[i + 1]);
    HeldMatters(env, short, before, cmds[i], bits);
    ScanParts(short, before.state, true, bits, end, before.total, moments[i + 1].total, |bits| - 1);
    var from, total := DataStart(short, before, true), moments[i + 1].total;
    ArrivesShifting(env, t0, short, before.total, before.state, true);
    var tms, tdi := DataTms(false, |bits|, true) + TailTms(short, true, end),
                    bits + TailTdi(short, true, end, Last(bits));
    var t := After(t0, total[..from]);
    ScanSelectsAfter(t, short, bits, end);
    ScanWhole(short, before.state, bits, end, before.total, total);
    AfterConcat(t0, total[..from], Clocks(tms, tdi));
    InstructionCodes(FromBits(bits[|bits| - 10..]));
  }

  /** The actions of an IR scan that leaves the shift state. */
  lemma ScanWhole(short: bool, s: State, bits: seq<bool>, end: State, acts: seq<Action>, acts': seq<Action>)
    requires IsStable(s) && IsStable(end) && end != ShiftIr
    requires var tms, tdi := ScanTms(short, s, s == TestLogicReset, true, |bits|, end),
                             ScanTdi(short, s, true, bits, end);
      |tms| == |tdi| && acts' == acts + Clocks(tms, tdi)
    ensures var tms, tdi := DataTms(false, |bits|, true) + TailTms(short, true, end),
                            bits + TailTdi(short, true, end, Last(bits));
      var from := |acts| + |MoveTms(short, s, ShiftIr)|;
      |tms| == |tdi| && from <= |acts'| && acts' == acts'[..from] + Clocks(tms, tdi)
  {
    hide Path, TailTms, TailTdi, Last;
    var move := MoveTms(short, s, ShiftIr);
    var zeros := Repeat(false, |move|);
    var tms, tdi := DataTms(false, |bits|, true) + TailTms(short, true, end),
                    bits + TailTdi(short, true, end, Last(bits));
    ClocksConcat(move, zeros, tms, tdi);
    assert ScanTms(short, s, s == TestLogicReset, true, |bits|, end) == move + tms;
    assert ScanTdi(short, s, true, bits, end) == zeros + tdi;
  }

  /** The follower agrees with the TAP, which is on the data side and not in Test-Logic-Reset, and `x` is selected. */
  ghost predicate HasSelected(env: Env, t0: Registers, m: Moment, x: Instr)
    requires t0.Sized()
  {
    && Synced(env, m.total, m.state) && DrSide(m.state) && m.state != TestLogicReset
    && After(t0, m.total).instr == x
  }

  /** The instruction stays: the command neither scans one nor leads to Test-Logic-Reset. */
  predicate Leaves(cmd: Command) {
    DrOnly(cmd) && (cmd.Runtest? || cmd.TlrReset? || cmd.Scan? ==> cmd.endState != TestLogicReset)
  }

  lemma LeavesReset(s: State, cmd: Command)
    requires DrSide(s) && s != TestLogicReset && Leaves(cmd)
    ensures CommandState(s, cmd) != TestLogicReset
  {
    hide Trimmed;
  }

  lemma StepKeepsSelected(env: Env, t0: Registers, short: bool, before: Moment, cmd: Command, bits: seq<bool>,
                          after: Moment, x: Instr)
    requires t0.Sized() && HasSelected(env, t0, before, x) && Leaves(cmd)
    requires Survives(before.state, cmd) && Step(env, short, before, cmd, bits, after)
    ensures HasSelected(env, t0, after, x)
  {
    hide After, StateAfter, TmsPin, Path, Walk, Clocked, CommandClocks, CommandState, Carries, FieldWrites, Passes;
    hide LegalPath, Synced;
    hide Trimmed, MoveTms;
    var s := before.state;
    DrSideIsStable(s);
    if cmd.Scan? && Trimmed(cmd.fields) != [] {
      CarriesLength(before.memory, before.owed, after.owed, Trimmed(cmd.fields), bits);
      TrimmedHasBits(cmd.fields);
    }
    StepKeepsSync(env, short, before, cmd, bits, after);
    LeavesReset(s, cmd);
    CommandKeepsInstruction(short, s, cmd, bits, UpdateIr);
    CommandKeepsInstruction(short, s, cmd, bits, TestLogicReset);
    HeldMatters(env, short, before, cmd, bits);
    var clocks := CommandClocks(short, s, s == TestLogicReset, cmd, bits);
    AfterConcat(t0, before.total, Clocks(clocks.0, clocks.1));
    StateIsFollowed(env, t0, before.total, s);
    KeepsInstruction(After(t0, before.total), clocks.0, clocks.1);
  }

  /** In every run, it stays until the next command that may change it. */
  lemma {:induction false} SelectedUntil(env: Env, t0: Registers, short: bool, cmds: seq<Command>,
                                         moments: seq<Moment>, data: seq<seq<bool>>, i: nat, k: nat, x: Instr)
    requires t0.Sized() && Runs(env, short, cmds, moments, data) && i <= k <= |cmds|
    requires HasSelected(env, t0, moments[i], x) && forall j :: i <= j < k ==> Leaves(cmds[j])
    ensures HasSelected(env, t0, moments[k], x)
    decreases k
  {
    hide Step, HasSelected, Survives, Leaves;
    if i < k {
      SelectedUntil(env, t0, short, cmds, moments, data, i, k - 1, x);
      StepKeepsSelected(env, t0, short, moments[k - 1], cmds[k - 1], data[k - 1], moments[k], x);
    }
  }

  /** On arrival in the shift state it is still selected. */
  lemma ArrivesSelected(env: Env, t0: Registers, m: Moment, x: Instr)
    requires t0.Sized() && HasSelected(env, t0, m, x) && IsStable(ShiftDr)
    ensures var move := MoveTms(true, m.state, ShiftDr);
      After(t0, m.total + Clocks(move, Repeat(false, |move|))).instr == x
  {
    hide After, StateAfter, TmsPin, Path, MoveTms, Passes, Synced;
    var move := MoveTms(true, m.state, ShiftDr);
    MoveKeepsInstruction(true, m.state, ShiftDr, UpdateIr);
    MoveKeepsInstruction(true, m.state, ShiftDr, TestLogicReset);
    StateIsFollowed(env, t0, m.total, m.state);
    AfterConcat(t0, m.total, Clocks(move, Repeat(false, |move|)));
    KeepsInstruction(After(t0, m.total), move, Repeat(false, |move|));
  }

  /** An IR scan of ten bits or more that ends on the data side, and a DR scan from Run-Test/Idle later on, with nothing
      in between that selects an instruction. With 0x006 as the last ten bits it reads the identification and
      then what was sent; with 0x3ff what was sent one clock late, after a one; with the other codes that select neither
      of the two, ones. */
  lemma ReadsAsSelected(env: Env, t0: Registers, cmds: seq<Command>, moments: seq<Moment>, data: seq<seq<bool>>,
                        i: nat, k: nat, b: nat)
    requires t0.Sized() && Drives(env, t0) && Runs(env, true, cmds, moments, data) && i < k < |cmds|
    requires cmds[i].Scan? && cmds[i].irScan && Synced(env, moments[i].total, moments[i].state)
    requires |data[i]| >= 10 && Trimmed(cmds[i].fields) != []
    requires DrSide(cmds[i].endState) && cmds[i].endState != TestLogicReset
    requires forall j :: i < j < k ==> Leaves(cmds[j])
    requires cmds[k].Scan? && !cmds[k].irScan && Trimmed(cmds[k].fields) != [] && b < |data[k]|
    requires moments[k].state == RunTestIdle
    ensures var code := FromBits(data[i][|data[i]| - 10..]);
      var from, total := DataStart(true, moments[k], false), moments[k + 1].total;
      && from + b + 1 <= |total|
      && var tdo := env.tdo(total[..from + b + 1]);
      && (code == 0x006 ==> tdo == (LowBits(0x029070DD, 32) + data[k])[b])
      && (code == 0x3ff ==> tdo == ([true] + data[k])[b])
      && (code == 0x002 || code == 0x004 ==> tdo)
  {
    hide After, StateAfter, TmsPin, Path, Trimmed, Clocked, Carries, FieldWrites, TotalBits, LowBits, Passes;
    hide TailTms, TailTdi, Synced, TdoAt, ScanTms, ScanTdi, DataTms, LegalPath, MoveTms, Step, Leaves, FromBits;
    hide InstrFromBits;
    ScanSelects(env, t0, true, cmds, moments, data, i);
    var code := FromBits(data[i][|data[i]| - 10..]);
    InstructionCodes(code);
    var x := InstrFromBits(code);
    assert HasSelected(env, t0, moments[i + 1], x);
    SelectedUntil(env, t0, true, cmds, moments, data, i + 1, k, x);
    ScanReadsCaptured(env, t0, cmds, moments, data, k, b);
    ScanFrom(env, cmds, moments, data, k, b);
    ArrivesSelected(env, t0, moments[k], x);
    assert Bit(1, 0) && LowBits(1, 1) == [true] by { OneBit(); }
  }

  /** So the buffer of field `j` of the DR scan ends up with that, if it is used for this field only. */
  lemma FieldReadsAsSelected(env: Env, t0: Registers, cmds: seq<Command>, moments: seq<Moment>, data: seq<seq<bool>>,
                             i: nat, k: nat, j: nat, a: array<byte>, s: seq<byte>, b: nat)
    requires t0.Sized() && Drives(env, t0) && Runs(env, true, cmds, moments, data) && i < k < |cmds|
    requires cmds[i].Scan? && cmds[i].irScan && Synced(env, moments[i].total, moments[i].state)
    requires |data[i]| >= 10 && Trimmed(cmds[i].fields) != []
    requires DrSide(cmds[i].endState) && cmds[i].endState != TestLogicReset
    requires forall l :: i < l < k ==> Leaves(cmds[l])
    requires OnlyField(cmds, k, j, a) && !cmds[k].irScan && moments[0].owed == [] && moments[k].state == RunTestIdle
    requires Trimmed(cmds[k].fields)[j].numBits <= 8 * |s| && b < Trimmed(cmds[k].fields)[j].numBits
    ensures var code := FromBits(data[i][|data[i]| - 10..]);
      var n := TotalBits(Trimmed(cmds[k].fields)[..j]) + b;
      && n < |data[k]|
      && var v := BufBit(Stored(a, s, moments[|cmds|].owed), b);
      && (code == 0x006 ==> v == (LowBits(0x029070DD, 32) + data[k])[n])
      && (code == 0x3ff ==> v == ([true] + data[k])[n])
      && (code == 0x002 || code == 0x004 ==> v)
  {
    hide Trimmed, TotalBits, Stored, BufBit, DataStart, Step, Survives, TdoAt, LowBits, Leaves, FromBits, Synced;
    FieldInRun(env, true, cmds, moments, data, k, j, a, s, b);
    BitOfField(env, true, cmds, moments, data, k, j, b);
    ReadsAsSelected(env, t0, cmds, moments, data, i, k, TotalBits(Trimmed(cmds[k].fields)[..j]) + b);
  }

  lemma OneBit()
    ensures Bit(1, 0) && LowBits(1, 1) == [true]
  {
  }

  /** The actions up to the data of a DR scan. */
  lemma ScanFrom(env: Env, cmds: seq<Command>, moments: seq<Moment>, data: seq<seq<bool>>, k: nat, b: nat)
    requires Runs(env, true, cmds, moments, data) && k < |cmds| && b < |data[k]|
    requires cmds[k].Scan? && !cmds[k].irScan && Trimmed(cmds[k].fields) != []
    requires Synced(env, moments[k].total, moments[k].state) && IsStable(moments[k].state)
    ensures IsStable(ShiftDr)
    ensures var move := MoveTms(true, moments[k].state, ShiftDr);
      var from := DataStart(true, moments[k], false);
      && from <= |moments[k + 1].total|
      && moments[k + 1].total[..from] == moments[k].total + Clocks(move, Repeat(false, |move|))
  {
    hide StateAfter, TmsPin, Path, Trimmed, Carries, FieldWrites, TotalBits, TailTms, TailTdi, Synced;
    hide ScanTms, ScanTdi, DataTms, LegalPath, MoveTms;
    var before, bits, end := moments[k], data[k], cmds[k].endState;
    assert Step(env, true, before, cmds[k], bits, moments[k + 1]);
    HeldMatters(env, true, before, cmds[k], bits);
    ScanParts(true, before.state, false, bits, end, before.total, moments[k + 1].total, b);
  }
}
