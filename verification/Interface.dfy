/** interface.c: the TAP state graph as the JTAG queue sees it, and the tables of TMS sequences that
    lead from one stable state to another. */
module Interface {
  import opened MpsseDevice
  import opened Tap

  /** `tap_state_transition` */
  function StateTransition(cur: State, tms: bool): State {
    if tms then
      match cur
      case TestLogicReset => cur
      case RunTestIdle | UpdateDr | UpdateIr => SelectDrScan
      case SelectDrScan => SelectIrScan
      case CaptureDr | ShiftDr => Exit1Dr
      case Exit1Dr | Exit2Dr => UpdateDr
      case PauseDr => Exit2Dr
      case SelectIrScan => TestLogicReset
      case CaptureIr | ShiftIr => Exit1Ir
      case Exit1Ir | Exit2Ir => UpdateIr
      case PauseIr => Exit2Ir
    else
      match cur
      case TestLogicReset | RunTestIdle | UpdateDr | UpdateIr => RunTestIdle
      case SelectDrScan => CaptureDr
      case CaptureDr | ShiftDr | Exit2Dr => ShiftDr
      case Exit1Dr | PauseDr => PauseDr
      case SelectIrScan => CaptureIr
      case CaptureIr | ShiftIr | Exit2Ir => ShiftIr
      case Exit1Ir | PauseIr => PauseIr
  }

  /** The queue's graph is the simulator's. */
  lemma SameGraph(s: State, tms: bool)
    ensures StateTransition(s, tms) == Next(s, tms)
  {
  }

  /** `tap_is_state_stable` */
  predicate IsStable(s: State) {
    s in {TestLogicReset, RunTestIdle, ShiftDr, PauseDr, ShiftIr, PauseIr}
  }

  const I := true
  const O := false

  /** A row of a table, with its columns in the order of `tap_move_ndx`. The source writes an entry as
      binary digits to be read from right to left; here it is the TMS bits in the order they are clocked. */
  function Row(to: State, reset: seq<bool>, idle: seq<bool>, drShift: seq<bool>, drPause: seq<bool>,
               irShift: seq<bool>, irPause: seq<bool>): seq<bool>
    requires IsStable(to)
  {
    match to
    case TestLogicReset => reset
    case RunTestIdle => idle
    case ShiftDr => drShift
    case PauseDr => drPause
    case ShiftIr => irShift
    case PauseIr => irPause
  }

  /** `old_tms_seqs` */
  function OldTms(from: State, to: State): seq<bool>
    requires IsStable(from) && IsStable(to)
  {
    match from
    case TestLogicReset =>
      Row(to, [I, I, I, I, I, I, I], [O, O, O, O, O, O, O], [I, I, I, O, I, O, O], [O, I, O, I, O, O, O],
          [I, I, O, I, I, O, O], [O, I, I, O, I, O, O])
    case RunTestIdle =>
      Row(to, [I, I, I, I, I, I, I], [O, O, O, O, O, O, O], [I, O, I, O, O, I, O], [I, O, I, O, O, O, O],
          [I, I, O, I, O, I, O], [I, I, O, I, O, O, O])
    case ShiftDr =>
      Row(to, [I, I, I, I, I, I, I], [I, O, O, O, I, I, O], [O, O, O, O, O, O, O], [I, O, O, O, O, O, O],
          [I, I, I, I, O, O, O], [I, I, I, I, O, I, O])
    case PauseDr =>
      Row(to, [I, I, I, I, I, I, I], [O, O, O, O, I, I, O], [O, O, O, O, O, I, O], [I, I, I, O, I, O, O],
          [O, I, I, I, I, O, O], [I, I, I, I, O, I, O])
    case ShiftIr =>
      Row(to, [I, I, I, I, I, I, I], [I, O, O, O, I, I, O], [I, I, I, O, O, O, O], [I, I, I, O, I, O, O],
          [O, O, O, O, O, O, O], [I, O, O, O, O, O, O])
    case PauseIr =>
      Row(to, [I, I, I, I, I, I, I], [O, O, O, O, I, I, O], [O, O, I, I, I, O, O], [I, I, I, O, I, O, O],
          [O, I, I, I, I, O, O], [I, I, I, I, O, I, O])
  }

  /** `short_tms_seqs` */
  function ShortTms(from: State, to: State): seq<bool>
    requires IsStable(from) && IsStable(to)
  {
    match from
    case TestLogicReset =>
      Row(to, [I, I, I, I, I, I, I], [O, O, O, O, O, O, O], [I, I, I, O, I, O, O], [O, I, O, I, O, O, O],
          [I, I, O, I, I, O, O], [O, I, I, O, I, O, O])
    case RunTestIdle =>
      Row(to, [I, I, I, I, I, I, I], [O, O, O, O, O, O, O], [I, O, O], [I, O, I, O], [I, I, O, O], [I, I, O, I, O])
    case ShiftDr =>
      Row(to, [I, I, I, I, I, I, I], [I, I, O], [I, I, I, O, O], [I, O], [I, I, I, I, O, O], [I, I, I, I, O, I, O])
    case PauseDr =>
      Row(to, [I, I, I, I, I, I, I], [I, I, O], [I, O], [O], [I, I, I, I, O, O], [I, I, I, I, O, I, O])
    case ShiftIr =>
      Row(to, [I, I, I, I, I, I, I], [I, I, O], [I, I, I, O, O], [I, I, I, O, I, O], [I, I, I, I, O, O], [I, O])
    case PauseIr =>
      Row(to, [I, I, I, I, I, I, I], [I, I, O], [I, I, I, O, O], [I, I, I, O, I, O], [I, O], [O])
  }

  /** `tap_get_tms_path` and `tap_get_tms_path_len`; `short` says which table is in use. */
  function Path(short: bool, from: State, to: State): seq<bool>
    requires IsStable(from) && IsStable(to)
  {
    if short then ShortTms(from, to) else OldTms(from, to)
  }

  /** The state after clocking `tms`. */
  function Walk(s: State, tms: seq<bool>): State
    decreases |tms|
  {
    if tms == [] then s else Walk(Next(s, tms[0]), tms[1..])
  }

  /** Whether `goal` is entered before the last clock. */
  predicate Visits(s: State, tms: seq<bool>, goal: State)
    decreases |tms|
  {
    |tms| > 1 && (Next(s, tms[0]) == goal || Visits(Next(s, tms[0]), tms[1..], goal))
  }

  /** The same over at most seven bits, unrolled. */
  predicate Arrives(s: State, tms: seq<bool>, goal: State)
    requires |tms| <= 7
  {
    if |tms| == 0 then s == goal
    else var s1 := Next(s, tms[0]); if |tms| == 1 then s1 == goal
    else var s2 := Next(s1, tms[1]); if |tms| == 2 then s2 == goal
    else var s3 := Next(s2, tms[2]); if |tms| == 3 then s3 == goal
    else var s4 := Next(s3, tms[3]); if |tms| == 4 then s4 == goal
    else var s5 := Next(s4, tms[4]); if |tms| == 5 then s5 == goal
    else var s6 := Next(s5, tms[5]); if |tms| == 6 then s6 == goal
    else Next(s6, tms[6]) == goal
  }

  predicate Early(s: State, tms: seq<bool>, goal: State)
    requires |tms| <= 7
  {
    if |tms| <= 1 then false
    else var s1 := Next(s, tms[0]); if s1 == goal || |tms| == 2 then s1 == goal
    else var s2 := Next(s1, tms[1]); if s2 == goal || |tms| == 3 then s2 == goal
    else var s3 := Next(s2, tms[2]); if s3 == goal || |tms| == 4 then s3 == goal
    else var s4 := Next(s3, tms[3]); if s4 == goal || |tms| == 5 then s4 == goal
    else var s5 := Next(s4, tms[4]); if s5 == goal || |tms| == 6 then s5 == goal
    else Next(s5, tms[5]) == goal
  }

  lemma {:induction false} Unrolled(s: State, tms: seq<bool>, goal: State)
    requires |tms| <= 7
    ensures (Walk(s, tms) == goal) == Arrives(s, tms, goal)
    decreases |tms|
  {
    hide Next;
    if tms != [] {
      Unrolled(Next(s, tms[0]), tms[1..], goal);
    }
  }

  lemma {:induction false} UnrolledVisits(s: State, tms: seq<bool>, goal: State)
    requires |tms| <= 7
    ensures Visits(s, tms, goal) == Early(s, tms, goal)
    decreases |tms|
  {
    hide Next;
    if |tms| > 1 {
      UnrolledVisits(Next(s, tms[0]), tms[1..], goal);
    }
  }

  function CaptureState(ir: bool): State { if ir then CaptureIr else CaptureDr }

  function ShiftState(ir: bool): State { if ir then ShiftIr else ShiftDr }

  function PauseState(ir: bool): State { if ir then PauseIr else PauseDr }

  function UpdateState(ir: bool): State { if ir then UpdateIr else UpdateDr }

  predicate IsShiftState(s: State) { s == ShiftDr || s == ShiftIr }

  /** What the proofs below use of a table entry. `early`: a shift state that is the goal is entered too
      soon. */
  predicate Leads(path: seq<bool>, from: State, to: State, early: bool) {
    1 <= |path| <= 7 && Arrives(from, path, to) && (IsShiftState(to) ==> Early(from, path, to) == early)
  }

  lemma FromTestLogicReset(short: bool, to: State)
    requires IsStable(to)
    ensures Leads(Path(short, TestLogicReset, to), TestLogicReset, to, !short && IsShiftState(TestLogicReset))
  {
  }

  lemma FromRunTestIdle(short: bool, to: State)
    requires IsStable(to)
    ensures Leads(Path(short, RunTestIdle, to), RunTestIdle, to, !short && IsShiftState(RunTestIdle))
  {
  }

  lemma FromShiftDr(short: bool, to: State)
    requires IsStable(to)
    ensures Leads(Path(short, ShiftDr, to), ShiftDr, to, !short && IsShiftState(ShiftDr))
  {
  }

  lemma FromPauseDr(short: bool, to: State)
    requires IsStable(to)
    ensures Leads(Path(short, PauseDr, to), PauseDr, to, !short && IsShiftState(PauseDr))
  {
  }

  lemma FromShiftIr(short: bool, to: State)
    requires IsStable(to)
    ensures Leads(Path(short, ShiftIr, to), ShiftIr, to, !short && IsShiftState(ShiftIr))
  {
  }

  lemma FromPauseIr(short: bool, to: State)
    requires IsStable(to)
    ensures Leads(Path(short, PauseIr, to), PauseIr, to, !short && IsShiftState(PauseIr))
  {
  }

  lemma FromStable(short: bool, from: State, to: State)
    requires IsStable(from) && IsStable(to)
    ensures Leads(Path(short, from, to), from, to, !short && IsShiftState(from))
  {
    hide Path, Leads;
    match from
    case TestLogicReset => FromTestLogicReset(short, to);
    case RunTestIdle => FromRunTestIdle(short, to);
    case ShiftDr => FromShiftDr(short, to);
    case PauseDr => FromPauseDr(short, to);
    case ShiftIr => FromShiftIr(short, to);
    case PauseIr => FromPauseIr(short, to);
  }

  lemma NotThroughShiftDr(short: bool, to: State)
    requires IsStable(to) && to != ShiftDr
    ensures var p := Path(short, PauseDr, to); |p| <= 7 && !Early(PauseDr, p, ShiftDr)
  {
  }

  lemma NotThroughShiftIr(short: bool, to: State)
    requires IsStable(to) && to != ShiftIr
    ensures var p := Path(short, PauseIr, to); |p| <= 7 && !Early(PauseIr, p, ShiftIr)
  {
  }

  /** Every path of either table leads where it says. */
  lemma PathReaches(short: bool, from: State, to: State)
    requires IsStable(from) && IsStable(to)
    ensures 1 <= |Path(short, from, to)| <= 7 && Walk(from, Path(short, from, to)) == to
  {
    hide Walk, Visits, Arrives, Early, Path;
    FromStable(short, from, to);
    Unrolled(from, Path(short, from, to), to);
  }

  /** A path to a shift state arrives there with its last clock, and so shifts nothing once there;
      except that the old table's paths between shift states arrive early. */
  lemma ShiftReachedLast(short: bool, from: State, to: State)
    requires IsStable(from) && IsShiftState(to)
    ensures Visits(from, Path(short, from, to), to) <==> !short && IsShiftState(from)
  {
    hide Walk, Visits, Arrives, Early, Path;
    FromStable(short, from, to);
    UnrolledVisits(from, Path(short, from, to), to);
  }

  /** A path that leaves a pause state for anything but shifting does not shift on the way. */
  lemma PauseLeftWithoutShifting(short: bool, ir: bool, to: State)
    requires IsStable(to) && to != if ir then ShiftIr else ShiftDr
    ensures var from, shift := if ir then PauseIr else PauseDr, if ir then ShiftIr else ShiftDr;
      !Visits(from, Path(short, from, to), shift)
  {
    hide Walk, Visits, Arrives, Early, Path;
    var from, shift := if ir then PauseIr else PauseDr, if ir then ShiftIr else ShiftDr;
    if ir {
      NotThroughShiftIr(short, to);
    } else {
      NotThroughShiftDr(short, to);
    }
    UnrolledVisits(from, Path(short, from, to), shift);
  }

  /** Every path to Test-Logic-Reset is seven clocks with TMS high and leads there from any state at all. */
  lemma ResetFromAnywhere(s: State, short: bool, from: State)
    requires IsStable(from)
    ensures Path(short, from, TestLogicReset) == Repeat(true, 7)
    ensures Walk(s, Path(short, from, TestLogicReset)) == TestLogicReset
  {
    hide Walk, Visits;
    assert Path(short, from, TestLogicReset) == [I, I, I, I, I, I, I] == Repeat(true, 7);
    SevenOnes(s);
  }

  lemma SevenOnes(s: State)
    ensures Walk(s, Repeat(true, 7)) == TestLogicReset
  {
    hide Next;
    WalkConcat(s, Repeat(true, 5), Repeat(true, 2));
    assert Repeat(true, 7) == Repeat(true, 5) + Repeat(true, 2);
    FiveOnes(s);
    WalkStays(TestLogicReset, 2);
  }

  lemma FiveOnes(s: State)
    ensures Walk(s, Repeat(true, 5)) == TestLogicReset
  {
    hide Next;
    var s1 := Next(s, true);
    var s2 := Next(s1, true);
    var s3 := Next(s2, true);
    var s4 := Next(s3, true);
    OnesUp(s, s1, s2, s3, s4);
    OneMore(s, 4);
    OneMore(s1, 3);
    OneMore(s2, 2);
    OneMore(s3, 1);
    OneMore(s4, 0);
  }

  lemma OneMore(s: State, n: nat)
    ensures Walk(s, Repeat(true, n + 1)) == Walk(Next(s, true), Repeat(true, n))
  {
    assert Repeat(true, n + 1)[1..] == Repeat(true, n);
  }

  lemma OnesUp(s: State, s1: State, s2: State, s3: State, s4: State)
    requires s1 == Next(s, true) && s2 == Next(s1, true) && s3 == Next(s2, true) && s4 == Next(s3, true)
    ensures Next(s4, true) == TestLogicReset
  {
    assert s2 in {TestLogicReset, SelectDrScan, SelectIrScan, UpdateDr, UpdateIr};
    assert s4 in {TestLogicReset, SelectIrScan};
  }

  /** Test-Logic-Reset is entered with TMS high, the other stable states with TMS low. */
  lemma StableEntry(s: State, tms: bool)
    ensures IsStable(Next(s, tms)) ==> tms == (Next(s, tms) == TestLogicReset)
  {
  }

  /** In a stable state that level of TMS stays there. */
  lemma StableStays(s: State)
    requires IsStable(s)
    ensures Next(s, s == TestLogicReset) == s
  {
  }

  lemma {:induction false} WalkConcat(s: State, a: seq<bool>, b: seq<bool>)
    ensures Walk(s, a + b) == Walk(Walk(s, a), b)
    decreases |a|
  {
    hide Next;
    if a == [] {
      assert a + b == b;
    } else {
      WalkConcat(Next(s, a[0]), a[1..], b);
      assert (a + b)[1..] == a[1..] + b;
    }
  }

  lemma WalkNowhere(s: State)
    ensures Walk(s, []) == s
  {
  }

  lemma WalkOneMore(s: State, tms: seq<bool>, i: nat)
    requires i < |tms|
    ensures Walk(s, tms[..i + 1]) == Next(Walk(s, tms[..i]), tms[i])
  {
    hide Walk, Next;
    assert tms[..i + 1] == tms[..i] + [tms[i]];
    WalkConcat(s, tms[..i], [tms[i]]);
    OneStep(Walk(s, tms[..i]), tms[i]);
  }

  lemma {:induction false} WalkStays(s: State, n: nat)
    requires IsStable(s)
    ensures Walk(s, Repeat(s == TestLogicReset, n)) == s
    decreases n
  {
    if n > 0 {
      StableStays(s);
      WalkStays(s, n - 1);
      assert Repeat(s == TestLogicReset, n)[1..] == Repeat(s == TestLogicReset, n - 1);
    }
  }

  /** Clocking at least once and ending in a stable state leaves TMS at the level that stays there. */
  lemma {:induction false} WalkEntry(s: State, tms: seq<bool>)
    requires tms != [] && IsStable(Walk(s, tms))
    ensures tms[|tms| - 1] == (Walk(s, tms) == TestLogicReset)
    decreases |tms|
  {
    hide Next;
    if |tms| == 1 {
      StableEntry(s, tms[0]);
      assert Walk(s, tms) == Next(s, tms[0]);
    } else {
      WalkEntry(Next(s, tms[0]), tms[1..]);
    }
  }

  /** The state of a TAP that was in `s` when the device had done nothing. */
  function StateAfter(s: State, acts: seq<Action>): State {
    if acts == [] then s
    else
      var before := StateAfter(s, acts[..|acts| - 1]);
      match acts[|acts| - 1]
      case Clock(tms, _) => Next(before, tms)
      case _ => before
  }

  /** It is the simulator's. */
  lemma {:induction false} StateOfTap(t: Registers, acts: seq<Action>)
    requires t.Sized()
    ensures After(t, acts).state == StateAfter(t.state, acts)
    decreases |acts|
  {
    hide Next;
    if acts != [] {
      StateOfTap(t, acts[..|acts| - 1]);
    }
  }

  lemma {:induction false} StateAfterClocks(s: State, acts: seq<Action>, tms: seq<bool>, tdi: seq<bool>)
    requires |tms| == |tdi|
    ensures StateAfter(s, acts + Clocks(tms, tdi)) == Walk(StateAfter(s, acts), tms)
    decreases |tms|
  {
    hide Next;
    if tms == [] {
      assert acts + Clocks(tms, tdi) == acts;
    } else {
      var k := |tms| - 1;
      StateAfterClocks(s, acts, tms[..k], tdi[..k]);
      assert (acts + Clocks(tms, tdi))[..|acts| + k] == acts + Clocks(tms[..k], tdi[..k]);
      assert (acts + Clocks(tms, tdi))[|acts| + k] == Clock(tms[k], tdi[k]);
      WalkConcat(StateAfter(s, acts), tms[..k], [tms[k]]);
      assert tms[..k] + [tms[k]] == tms;
      OneStep(Walk(StateAfter(s, acts), tms[..k]), tms[k]);
    }
  }

  lemma OneStep(s: State, tms: bool)
    ensures Walk(s, [tms]) == Next(s, tms)
  {
    assert Walk(Next(s, tms), []) == Next(s, tms);
  }

  /** The TDI bits of those clocks that are made in state `shift`, for a TAP that starts out in `s`. */
  function ShiftedBits(s: State, tms: seq<bool>, tdi: seq<bool>, shift: State): seq<bool>
    requires |tms| == |tdi|
    decreases |tms|
  {
    if tms == [] then []
    else (if s == shift then [tdi[0]] else []) + ShiftedBits(Next(s, tms[0]), tms[1..], tdi[1..], shift)
  }

  lemma {:induction false} ShiftedConcat(s: State, tms: seq<bool>, tdi: seq<bool>, tms2: seq<bool>, tdi2: seq<bool>,
                                         shift: State)
    requires |tms| == |tdi| && |tms2| == |tdi2|
    ensures ShiftedBits(s, tms + tms2, tdi + tdi2, shift)
         == ShiftedBits(s, tms, tdi, shift) + ShiftedBits(Walk(s, tms), tms2, tdi2, shift)
    decreases |tms|
  {
    hide Next;
    if tms == [] {
      assert tms + tms2 == tms2 && tdi + tdi2 == tdi2;
    } else {
      var next := Next(s, tms[0]);
      ShiftedConcat(next, tms[1..], tdi[1..], tms2, tdi2, shift);
      assert (tms + tms2)[1..] == tms[1..] + tms2 && (tdi + tdi2)[1..] == tdi[1..] + tdi2;
      var here := if s == shift then [tdi[0]] else [];
      var front, back := ShiftedBits(next, tms[1..], tdi[1..], shift), ShiftedBits(Walk(s, tms), tms2, tdi2, shift);
      assert here + (front + back) == here + front + back;
    }
  }

  lemma InsStep(t: Registers, acts: seq<Action>, tms: bool, tdi: bool, shift: State)
    requires t.Sized()
    ensures Ins(t, acts + [Clock(tms, tdi)], shift)
         == Ins(t, acts, shift) + (if StateAfter(t.state, acts) == shift then [tdi] else [])
  {
    hide Next, After, StateAfter;
    assert (acts + [Clock(tms, tdi)])[..|acts|] == acts;
    StateOfTap(t, acts);
  }

  /** Which is what the simulator takes in there. */
  lemma {:induction false} InsAreShiftedBits(t: Registers, tms: seq<bool>, tdi: seq<bool>, shift: State)
    requires t.Sized() && |tms| == |tdi|
    ensures Ins(t, Clocks(tms, tdi), shift) == ShiftedBits(t.state, tms, tdi, shift)
    decreases |tms|
  {
    hide Next, After, ShiftedBits, Ins, StateAfter, Walk;
    NothingShifted(t.state, shift);
    if tms == [] {
      assert Clocks(tms, tdi) == [];
      assert Ins(t, [], shift) == [] by { NothingTaken(t, shift); }
    } else {
      var k := |tms| - 1;
      InsAreShiftedBits(t, tms[..k], tdi[..k], shift);
      var front := Clocks(tms[..k], tdi[..k]);
      assert Clocks(tms, tdi) == front + [Clock(tms[k], tdi[k])];
      InsStep(t, front, tms[k], tdi[k], shift);
      StateAfterClocks(t.state, [], tms[..k], tdi[..k]);
      assert [] + front == front;
      assert StateAfter(t.state, []) == t.state by { NothingTaken(t, shift); }
      assert tms[..k] + [tms[k]] == tms && tdi[..k] + [tdi[k]] == tdi;
      ShiftedConcat(t.state, tms[..k], tdi[..k], [tms[k]], [tdi[k]], shift);
      OneShift(Walk(t.state, tms[..k]), tms[k], tdi[k], shift);
    }
  }

  lemma NothingTaken(t: Registers, shift: State)
    requires t.Sized()
    ensures Ins(t, [], shift) == [] && StateAfter(t.state, []) == t.state
  {
  }

  lemma NothingShifted(s: State, shift: State)
    ensures ShiftedBits(s, [], [], shift) == []
  {
  }

  lemma OneShift(s: State, tms: bool, tdi: bool, shift: State)
    ensures ShiftedBits(s, [tms], [tdi], shift) == if s == shift then [tdi] else []
  {
    NothingShifted(Next(s, tms), shift);
  }

  /** A path that starts elsewhere and does not enter `shift` before its last clock shifts nothing. */
  lemma {:induction false} UnvisitedShiftsNothing(s: State, tms: seq<bool>, tdi: seq<bool>, shift: State)
    requires |tms| == |tdi| && s != shift && !Visits(s, tms, shift)
    ensures ShiftedBits(s, tms, tdi, shift) == []
    decreases |tms|
  {
    hide Next;
    if |tms| > 1 {
      UnvisitedShiftsNothing(Next(s, tms[0]), tms[1..], tdi[1..], shift);
    }
  }

  /** Clocks with TMS low in a shift state stay there and are all shifts. */
  lemma {:induction false} ShiftsAll(shift: State, tdi: seq<bool>)
    requires IsShiftState(shift)
    ensures ShiftedBits(shift, Repeat(false, |tdi|), tdi, shift) == tdi
    ensures Walk(shift, Repeat(false, |tdi|)) == shift
    decreases |tdi|
  {
    WalkStays(shift, |tdi|);
    if tdi != [] {
      ShiftsAll(shift, tdi[1..]);
      assert Repeat(false, |tdi|)[1..] == Repeat(false, |tdi| - 1);
    }
  }
}
