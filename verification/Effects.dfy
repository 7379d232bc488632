/** What each command of the queue does to a TAP that the follower agrees with, in clocks and states. */
module Effects {
  import opened Bits
  import opened MpsseDevice
  import opened Tap
  import opened Interface
  import opened JtagCommands

  /** Wherever it was at the start, after `acts` the TAP is in `s`. */
  ghost predicate TapIn(acts: seq<Action>, s: State) {
    forall s0 :: StateAfter(s0, acts) == s
  }

  /** Actions `from` to `to` are clocks, each of them made in `s`, and the TAP stays there. */
  ghost predicate ClockedIn(acts: seq<Action>, from: nat, to: nat, s: State) {
    && from <= to <= |acts|
    && (forall k :: from <= k < to ==> acts[k].Clock?)
    && (forall k :: from <= k <= to ==> TapIn(acts[..k], s))
  }

  lemma WaitedAt(s0: State, acts: seq<Action>, s: State, n: nat, more: seq<Action>, k: nat)
    requires IsStable(s) && k <= n && StateAfter(s0, acts) == s
    ensures var total := acts + Clocks(Repeat(s == TestLogicReset, n), Repeat(false, n)) + more;
      StateAfter(s0, total[..|acts| + k]) == s
  {
    hide Walk, StateAfter, IsStable;
    var hold := s == TestLogicReset;
    var total := acts + Clocks(Repeat(hold, n), Repeat(false, n)) + more;
    assert total[..|acts| + k] == acts + Clocks(Repeat(hold, k), Repeat(false, k));
    StateAfterClocks(s0, acts, Repeat(hold, k), Repeat(false, k));
    WalkStays(s, k);
  }

  lemma Waited(acts: seq<Action>, s: State, n: nat, more: seq<Action>)
    requires IsStable(s) && TapIn(acts, s)
    ensures ClockedIn(acts + Clocks(Repeat(s == TestLogicReset, n), Repeat(false, n)) + more, |acts|, |acts| + n, s)
  {
    hide Walk, StateAfter, IsStable;
    var total := acts + Clocks(Repeat(s == TestLogicReset, n), Repeat(false, n)) + more;
    forall k | |acts| <= k <= |acts| + n ensures TapIn(total[..k], s) {
      forall s0 ensures StateAfter(s0, total[..k]) == s {
        WaitedAt(s0, acts, s, n, more, k - |acts|);
      }
    }
  }

  /** After more clocks. */
  lemma TapMoves(acts: seq<Action>, s: State, tms: seq<bool>, tdi: seq<bool>)
    requires TapIn(acts, s) && |tms| == |tdi|
    ensures TapIn(acts + Clocks(tms, tdi), Walk(s, tms))
  {
    hide Walk, StateAfter;
    forall s0 ensures StateAfter(s0, acts + Clocks(tms, tdi)) == Walk(s, tms) {
      StateAfterClocks(s0, acts, tms, tdi);
    }
  }

  /** JTAG_STABLECLOCKS: as many clocks as it says, all in the state the TAP is in; none for a count below one. */
  lemma StableClocksWait(env: Env, short: bool, before: Moment, n: int, bits: seq<bool>, after: Moment)
    requires Survives(before.state, StableClocks(n)) && Step(env, short, before, StableClocks(n), bits, after)
    requires Synced(env, before.total, before.state) && IsStable(before.state)
    ensures before.total <= after.total
    ensures n >= 0 ==> |after.total| == |before.total| + n
    ensures n <= 0 ==> after.total == before.total
    ensures ClockedIn(after.total, |before.total|, |after.total|, before.state)
  {
    hide StateAfter, TmsPin, ClockedIn, IsStable;
    Waited(before.total, before.state, Cycles(n), []);
    assert after.total + [] == after.total;
  }

  /** How many clocks the way from `s` to `goal` takes; none if that is where the TAP is. */
  function WayLength(short: bool, s: State, goal: State): nat
    requires IsStable(s) && IsStable(goal)
  {
    if s == goal then 0 else |Path(short, s, goal)|
  }

  /** JTAG_RUNTEST: the way to Run-Test/Idle, as many clocks there as it says and none for a count below one, and the
      way to the end state. */
  lemma RuntestWaits(env: Env, short: bool, before: Moment, n: int, end: State, bits: seq<bool>, after: Moment)
    requires Survives(before.state, Runtest(n, end)) && Step(env, short, before, Runtest(n, end), bits, after)
    requires Synced(env, before.total, before.state)
    ensures before.total <= after.total && TapIn(after.total, end) && after.state == after.endState == end
    ensures var from, way := |before.total| + WayLength(short, before.state, RunTestIdle),
                             WayLength(short, RunTestIdle, end);
      && (n >= 0 ==> |after.total| == from + n + way && ClockedIn(after.total, from, from + n, RunTestIdle))
      && (n <= 0 ==> |after.total| == from + way && ClockedIn(after.total, from, from, RunTestIdle))
  {
    hide StateAfter, TmsPin, ClockedIn, TapIn, Path, Walk;
    var cycles := Cycles(n);
    var move1, move2 := MoveTms(short, before.state, RunTestIdle), MoveTms(short, RunTestIdle, end);
    var zeros1, zeros2, zeros := Repeat(false, |move1|), Repeat(false, |move2|), Repeat(false, cycles);
    var arrived := before.total + Clocks(move1, zeros1);
    assert TapIn(before.total, before.state) by { SyncedIn(env, before.total, before.state); }
    TapMoves(before.total, before.state, move1, zeros1);
    MoveReaches(short, before.state, RunTestIdle);
    Waited(arrived, RunTestIdle, cycles, Clocks(move2, zeros2));
    TapMoves(arrived, RunTestIdle, zeros, zeros);
    WalkStays(RunTestIdle, cycles);
    TapMoves(arrived + Clocks(zeros, zeros), RunTestIdle, move2, zeros2);
    MoveReaches(short, RunTestIdle, end);
    RuntestActions(short, before.state, n, end, before.total);
  }

  lemma SyncedIn(env: Env, acts: seq<Action>, s: State)
    requires Synced(env, acts, s)
    ensures TapIn(acts, s)
  {
    hide StateAfter, TmsPin;
  }

  lemma RuntestActions(short: bool, s: State, n: int, end: State, acts: seq<Action>)
    requires IsStable(s) && IsStable(end)
    ensures var move1, move2, zeros := MoveTms(short, s, RunTestIdle), MoveTms(short, RunTestIdle, end),
                                       Repeat(false, Cycles(n));
      var tms := RuntestTms(short, s, n, end);
      acts + Clocks(tms, Repeat(false, |tms|))
        == acts + Clocks(move1, Repeat(false, |move1|)) + Clocks(zeros, zeros) + Clocks(move2, Repeat(false, |move2|))
  {
    hide Path;
  }

  /** What is promised of a command that waits: for JTAG_RUNTEST in Run-Test/Idle, on the way to its end state, for
      JTAG_STABLECLOCKS where the TAP is. */
  ghost predicate WaitDone(short: bool, before: Moment, cmd: Command, after: Moment) {
    before.total <= after.total &&
    match cmd
    case Runtest(n, end) =>
      && IsStable(before.state) && IsStable(end)
      && var from := |before.total| + WayLength(short, before.state, RunTestIdle);
      && (n >= 0 ==>
            && |after.total| == from + n + WayLength(short, RunTestIdle, end)
            && ClockedIn(after.total, from, from + n, RunTestIdle))
      && TapIn(after.total, end)
    case StableClocks(n) =>
      IsStable(before.state) && n >= 0 ==>
        |after.total| == |before.total| + n && ClockedIn(after.total, |before.total|, |after.total|, before.state)
    case _ => true
  }

  lemma WaitIsDone(env: Env, short: bool, before: Moment, cmd: Command, bits: seq<bool>, after: Moment)
    requires Survives(before.state, cmd) && Step(env, short, before, cmd, bits, after)
    requires Synced(env, before.total, before.state)
    ensures WaitDone(short, before, cmd, after)
  {
    hide Step, Synced, ClockedIn, TapIn, CommandClocks, StateAfter, TmsPin, Path;
    assert before.total <= after.total by { OnlyMore(env, short, before, cmd, bits, after); }
    match cmd
    case Runtest(n, end) => RuntestWaits(env, short, before, n, end, bits, after);
    case StableClocks(n) =>
      if IsStable(before.state) {
        StableClocksWait(env, short, before, n, bits, after);
      }
    case _ =>
  }

  lemma OnlyMore(env: Env, short: bool, before: Moment, cmd: Command, bits: seq<bool>, after: Moment)
    requires Survives(before.state, cmd) && Step(env, short, before, cmd, bits, after)
    ensures before.total <= after.total
  {
    hide CommandClocks, Carries, FieldWrites, TmsPin;
  }

  /** JTAG_TLR_RESET: the way to the end state, and from Test-Logic-Reset to itself, too. */
  lemma StatemoveMoves(env: Env, short: bool, before: Moment, end: State, bits: seq<bool>, after: Moment)
    requires Survives(before.state, TlrReset(end)) && Step(env, short, before, TlrReset(end), bits, after)
    requires Synced(env, before.total, before.state)
    ensures before.total <= after.total && TapIn(after.total, end) && after.state == after.endState == end
    ensures |after.total|
         == |before.total| + (if before.state == end && end != TestLogicReset then 0
                             else |Path(short, before.state, end)|)
  {
    hide StateAfter, TmsPin, Path, Walk, CommandClocks;
    StepKeepsSync(env, short, before, TlrReset(end), bits, after);
    StatemoveActions(env, short, before, end, bits);
  }

  lemma StatemoveActions(env: Env, short: bool, before: Moment, end: State, bits: seq<bool>)
    requires IsStable(before.state) && IsStable(end)
    ensures |CommandActions(env, short, before, TlrReset(end), bits)|
         == if before.state == end && end != TestLogicReset then 0 else |Path(short, before.state, end)|
  {
    hide Path, TmsPin;
  }

  /** JTAG_PATHMOVE: one clock for each state of the path, which the TAP then is in. */
  lemma PathmoveVisits(env: Env, short: bool, before: Moment, path: seq<State>, bits: seq<bool>, after: Moment, k: nat)
    requires Survives(before.state, Pathmove(path)) && Step(env, short, before, Pathmove(path), bits, after)
    requires Synced(env, before.total, before.state) && k < |path|
    ensures before.total <= after.total && |after.total| == |before.total| + |path|
    ensures TapIn(after.total[..|before.total| + k + 1], path[k])
    ensures k == |path| - 1 ==> after.state == after.endState == path[k]
  {
    hide StateAfter, TmsPin, Walk, PathTms, LegalPath;
    var tms := PathTms(before.state, path);
    SyncedIn(env, before.total, before.state);
    TapMoves(before.total, before.state, tms[..k + 1], Repeat(false, k + 1));
    PathLeads(before.state, path, k + 1);
    assert after.total[..|before.total| + k + 1] == before.total + Clocks(tms[..k + 1], Repeat(false, k + 1));
  }

  /** JTAG_SCAN, if it is not empty: the way to the shift state, a clock for each bit, and unless it stays there one
      clock to the pause state and the way from there. */
  lemma ScanMoves(env: Env, short: bool, before: Moment, ir: bool, fields: seq<Field>, end: State, bits: seq<bool>,
                  after: Moment)
    requires Survives(before.state, Scan(ir, fields, end)) && Trimmed(fields) != []
    requires Step(env, short, before, Scan(ir, fields, end), bits, after)
    requires Synced(env, before.total, before.state)
    ensures before.total <= after.total && TapIn(after.total, end) && after.state == after.endState == end
    ensures IsStable(ShiftState(ir)) && IsStable(PauseState(ir))
    ensures |after.total| == |before.total| + WayLength(short, before.state, ShiftState(ir)) + TotalBits(fields)
                             + if end == ShiftState(ir) then 0 else 1 + WayLength(short, PauseState(ir), end)
  {
    hide StateAfter, TmsPin, Path, Walk, CommandClocks, Carries, FieldWrites, TotalBits, Trimmed;
    ShiftIsStable(ir);
    StepKeepsSync(env, short, before, Scan(ir, fields, end), bits, after);
    SyncedIn(env, after.total, end);
    CarriesLength(before.memory, before.owed, after.owed, Trimmed(fields), bits);
    TrimmedLosesNothing(fields);
    ScanActions(env, short, before, ir, fields, end, bits);
  }

  lemma ScanActions(env: Env, short: bool, before: Moment, ir: bool, fields: seq<Field>, end: State, bits: seq<bool>)
    requires IsStable(before.state) && IsStable(end) && Trimmed(fields) != []
    ensures IsStable(ShiftState(ir)) && IsStable(PauseState(ir))
    ensures |CommandActions(env, short, before, Scan(ir, fields, end), bits)|
         == WayLength(short, before.state, ShiftState(ir)) + |bits|
              + if end == ShiftState(ir) then 0 else 1 + WayLength(short, PauseState(ir), end)
  {
    hide Path, TmsPin, Trimmed, Last;
  }

  /** TDI is low but for the data: in a scan, at the clocks of its bits and, at the last of them once more, the clock to
      the pause state. */
  lemma TdiOtherwiseLow(env: Env, short: bool, before: Moment, cmd: Command, bits: seq<bool>, after: Moment, k: nat)
    requires Survives(before.state, cmd) && Step(env, short, before, cmd, bits, after)
    requires |before.total| <= k < |after.total|
    ensures after.total[k].Clock?
    ensures !cmd.Scan? ==> !after.total[k].tdi
    ensures cmd.Scan? && TotalBits(cmd.fields) > 0 ==>
      && IsStable(before.state) && IsStable(ShiftState(cmd.irScan)) && |bits| == TotalBits(cmd.fields)
      && var at := k - |before.total| - WayLength(short, before.state, ShiftState(cmd.irScan));
        after.total[k].tdi == if 0 <= at < |bits| then bits[at] else at == |bits| && bits[|bits| - 1]
  {
    hide CommandClocks, TmsPin, Carries, FieldWrites, Trimmed, TotalBits, LegalPath, ScanTdi, ScanTms;
    var held, at := TmsPin(env, before.total), k - |before.total|;
    var clocks := CommandClocks(short, before.state, held, cmd, bits);
    assert after.total[k] == Clock(clocks.0[at], clocks.1[at]);
    if cmd.Scan? {
      TrimmedLosesNothing(cmd.fields);
      ScanClocks(short, before.state, held, cmd, bits);
      if TotalBits(cmd.fields) > 0 {
        CarriesLength(before.memory, before.owed, after.owed, Trimmed(cmd.fields), bits);
        ShiftIsStable(cmd.irScan);
        ScanTdiAt(short, before.state, cmd.irScan, bits, cmd.endState, at);
      }
    } else {
      PlainClocks(short, before.state, held, cmd, bits, at);
    }
  }

  lemma PlainClocks(short: bool, s: State, held: bool, cmd: Command, bits: seq<bool>, k: nat)
    requires Survives(s, cmd) && !cmd.Scan? && k < |CommandClocks(short, s, held, cmd, bits).0|
    ensures !CommandClocks(short, s, held, cmd, bits).1[k]
  {
    hide Path, BufBits, LegalPath, RuntestTms, StatemoveTms, PathTms;
  }

  lemma ScanClocks(short: bool, s: State, held: bool, cmd: Command, bits: seq<bool>)
    requires Survives(s, cmd) && cmd.Scan?
    ensures CommandClocks(short, s, held, cmd, bits).1
         == if Trimmed(cmd.fields) == [] then [] else ScanTdi(short, s, cmd.irScan, bits, cmd.endState)
  {
    hide Trimmed, ScanTdi, ScanTms;
  }

  lemma ScanTdiAt(short: bool, s: State, ir: bool, bits: seq<bool>, end: State, k: nat)
    requires IsStable(s) && IsStable(end) && bits != [] && k < |ScanTdi(short, s, ir, bits, end)|
    ensures IsStable(ShiftState(ir))
    ensures var at := k - WayLength(short, s, ShiftState(ir));
      ScanTdi(short, s, ir, bits, end)[k] == if 0 <= at < |bits| then bits[at] else at == |bits| && bits[|bits| - 1]
  {
    hide Path;
  }

  /** JTAG_SLEEP and a scan without bits make no clock, and JTAG_TMS makes those of its bits, with TDI low. */
  lemma OthersMove(env: Env, short: bool, before: Moment, cmd: Command, bits: seq<bool>, after: Moment)
    requires Survives(before.state, cmd) && Step(env, short, before, cmd, bits, after)
    ensures cmd.Sleep? || (cmd.Scan? && TotalBits(cmd.fields) == 0) ==>
      after.total == before.total && after.state == before.state && after.endState == before.endState
    ensures cmd.Tms? && cmd.numBits <= 8 * |cmd.bits| ==>
      && |after.total| == |before.total| + cmd.numBits && after.state == before.state
      && forall k :: 0 <= k < cmd.numBits ==> after.total[|before.total| + k] == Clock(BufBit(cmd.bits, k), false)
  {
    hide Path, TmsPin, Carries, FieldWrites, Trimmed, TotalBits, BufBit;
    if cmd.Scan? {
      TrimmedLosesNothing(cmd.fields);
    }
    assert before.total + [] == before.total;
  }

  /** The process exits exactly in these cases: a way has to be found from or to a state in which the TAP cannot be
      held, or no TMS bits visit the states of a path one by one. */
  lemma RefusedExactly(s: State, cmd: Command)
    ensures (cmd.Runtest? || cmd.TlrReset? || (cmd.Scan? && TotalBits(cmd.fields) > 0)) ==>
      (Survives(s, cmd) <==> (exists tms :: Next(s, tms) == s) && exists tms :: Next(cmd.endState, tms) == cmd.endState)
    ensures cmd.Pathmove? ==> (Survives(s, cmd) <==> exists tms :: Visiting(s, tms, cmd.path))
    ensures cmd.Sleep? || cmd.StableClocks? || cmd.Tms? || (cmd.Scan? && TotalBits(cmd.fields) == 0) ==>
      Survives(s, cmd)
  {
    hide Trimmed, TotalBits, LegalPath, Next;
    if cmd.Runtest? || cmd.TlrReset? || cmd.Scan? {
      StableIsHeld(s);
      StableIsHeld(cmd.endState);
      if cmd.Scan? {
        TrimmedLosesNothing(cmd.fields);
      }
    }
    if cmd.Pathmove? {
      LegalIsVisiting(s, cmd.path);
    }
  }

  /** The queue's stable states are those that one level of TMS stays in. */
  lemma StableIsHeld(s: State)
    ensures IsStable(s) <==> exists tms :: Next(s, tms) == s
  {
    assert IsStable(s) ==> Next(s, s == TestLogicReset) == s;
  }

  /** The TMS bits lead from `s` through the states of `path`. */
  ghost predicate Visiting(s: State, tms: seq<bool>, path: seq<State>) {
    |tms| == |path| && forall k :: 0 <= k < |path| ==> Walk(s, tms[..k + 1]) == path[k]
  }

  lemma LegalIsVisiting(s: State, path: seq<State>)
    ensures LegalPath(s, path) <==> exists tms :: Visiting(s, tms, path)
  {
    hide Walk, Next;
    if LegalPath(s, path) {
      var tms := PathTms(s, path);
      forall k | 0 <= k < |path| ensures Walk(s, tms[..k + 1]) == path[k] {
        PathLeads(s, path, k + 1);
      }
      assert Visiting(s, tms, path);
    }
    if tms :| Visiting(s, tms, path) {
      forall i | 0 <= i < |path| ensures LegalStep(PathState(s, path, i), path[i]) {
        WalkOneMore(s, tms, i);
        WalkNowhere(s);
        assert tms[..0] == [];
        if i > 0 {
          assert Walk(s, tms[..i - 1 + 1]) == path[i - 1];
        }
      }
    }
  }
}
