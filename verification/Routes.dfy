/** What the two tables of interface.c have in common with the state graph: the short one holds the shortest routes,
    the old one takes seven clocks for the same stops, with the exceptions named here. */
module Routes {
  import opened MpsseDevice
  import opened Tap
  import opened Interface

  /** `p` leads from `s` to `goal`, and nothing else of its length or shorter does. */
  ghost predicate Shortest(s: State, p: seq<bool>, goal: State) {
    Walk(s, p) == goal && forall tms :: Walk(s, tms) == goal && |tms| <= |p| ==> tms == p
  }

  /** How many clocks it takes from `s` to each goal; that it does take so many is what the lemmas say. */
  function ToIdle(s: State): nat {
    match s
    case RunTestIdle => 0
    case TestLogicReset | UpdateDr | UpdateIr => 1
    case SelectIrScan | Exit1Dr | Exit2Dr | Exit1Ir | Exit2Ir => 2
    case SelectDrScan | CaptureDr | ShiftDr | PauseDr | CaptureIr | ShiftIr | PauseIr => 3
  }

  function ToShiftDr(s: State): nat {
    match s
    case ShiftDr => 0
    case CaptureDr | Exit2Dr => 1
    case SelectDrScan | PauseDr => 2
    case RunTestIdle | Exit1Dr | UpdateDr | UpdateIr => 3
    case TestLogicReset | Exit1Ir | Exit2Ir => 4
    case SelectIrScan | CaptureIr | ShiftIr | PauseIr => 5
  }

  function ToPauseDr(s: State): nat {
    match s
    case PauseDr => 0
    case Exit1Dr => 1
    case CaptureDr | ShiftDr => 2
    case SelectDrScan | Exit2Dr => 3
    case RunTestIdle | UpdateDr | UpdateIr => 4
    case TestLogicReset | Exit1Ir | Exit2Ir => 5
    case SelectIrScan | CaptureIr | ShiftIr | PauseIr => 6
  }

  function ToShiftIr(s: State): nat {
    match s
    case ShiftIr => 0
    case CaptureIr | Exit2Ir => 1
    case SelectIrScan | PauseIr => 2
    case SelectDrScan | Exit1Ir => 3
    case RunTestIdle | UpdateDr | UpdateIr => 4
    case TestLogicReset | Exit1Dr | Exit2Dr => 5
    case CaptureDr | ShiftDr | PauseDr => 6
  }

  function ToPauseIr(s: State): nat {
    match s
    case PauseIr => 0
    case Exit1Ir => 1
    case CaptureIr | ShiftIr => 2
    case SelectIrScan | Exit2Ir => 3
    case SelectDrScan => 4
    case RunTestIdle | UpdateDr | UpdateIr => 5
    case TestLogicReset | Exit1Dr | Exit2Dr => 6
    case CaptureDr | ShiftDr | PauseDr => 7
  }

  function Distance(s: State, goal: State): nat
    requires IsStable(goal) && goal != TestLogicReset
  {
    match goal
    case RunTestIdle => ToIdle(s)
    case ShiftDr => ToShiftDr(s)
    case PauseDr => ToPauseDr(s)
    case ShiftIr => ToShiftIr(s)
    case PauseIr => ToPauseIr(s)
  }

  /** One clock comes nearer by one at the most, and only one of the two does. */
  predicate OneNearer(s: State, goal: State)
    requires IsStable(goal) && goal != TestLogicReset
  {
    && (Distance(s, goal) == 0 <==> s == goal)
    && (s != goal ==>
          var d0, d1 := Distance(Next(s, false), goal), Distance(Next(s, true), goal);
          Distance(s, goal) <= 1 + d0 && Distance(s, goal) <= 1 + d1 && !(d0 == d1 == Distance(s, goal) - 1))
  }

  lemma NearerToIdle(s: State)
    ensures OneNearer(s, RunTestIdle)
  {
  }

  lemma NearerToShiftDr(s: State)
    ensures OneNearer(s, ShiftDr)
  {
  }

  lemma NearerToPauseDr(s: State)
    ensures OneNearer(s, PauseDr)
  {
  }

  lemma NearerToShiftIr(s: State)
    ensures OneNearer(s, ShiftIr)
  {
  }

  lemma NearerToPauseIr(s: State)
    ensures OneNearer(s, PauseIr)
  {
  }

  lemma Nearer(s: State, goal: State)
    requires IsStable(goal) && goal != TestLogicReset
    ensures OneNearer(s, goal)
  {
    hide OneNearer;
    match goal
    case RunTestIdle => NearerToIdle(s);
    case ShiftDr => NearerToShiftDr(s);
    case PauseDr => NearerToPauseDr(s);
    case ShiftIr => NearerToShiftIr(s);
    case PauseIr => NearerToPauseIr(s);
  }

  lemma {:induction false} NoShorterRoute(s: State, tms: seq<bool>, goal: State)
    requires IsStable(goal) && goal != TestLogicReset && Walk(s, tms) == goal
    ensures |tms| >= Distance(s, goal)
    decreases |tms|
  {
    hide Next, Distance;
    Nearer(s, goal);
    if s != goal {
      NoShorterRoute(Next(s, tms[0]), tms[1..], goal);
    }
  }

  lemma {:induction false} NoOtherRoute(s: State, p: seq<bool>, tms: seq<bool>, goal: State)
    requires IsStable(goal) && goal != TestLogicReset && Walk(s, p) == goal == Walk(s, tms)
    requires |p| == |tms| == Distance(s, goal)
    ensures p == tms
    decreases |p|
  {
    hide Next, Distance;
    Nearer(s, goal);
    if s != goal {
      NoShorterRoute(Next(s, p[0]), p[1..], goal);
      NoShorterRoute(Next(s, tms[0]), tms[1..], goal);
      assert p[0] == tms[0];
      NoOtherRoute(Next(s, p[0]), p[1..], tms[1..], goal);
      assert p == [p[0]] + p[1..] && tms == [tms[0]] + tms[1..];
    }
  }

  lemma IsShortest(s: State, p: seq<bool>, goal: State)
    requires IsStable(goal) && goal != TestLogicReset && Walk(s, p) == goal && |p| == Distance(s, goal)
    ensures Shortest(s, p, goal)
  {
    hide Next, Distance, Walk;
    forall tms | Walk(s, tms) == goal && |tms| <= |p| ensures tms == p {
      NoShorterRoute(s, tms, goal);
      NoOtherRoute(s, p, tms, goal);
    }
  }

  lemma LengthIsDistance(from: State, to: State)
    requires IsStable(from) && IsStable(to) && from != TestLogicReset && to != TestLogicReset && from != to
    ensures |ShortTms(from, to)| == Distance(from, to)
  {
  }

  /** Between two states other than Test-Logic-Reset the short table has the one shortest route. */
  lemma ShortTableIsShortest(from: State, to: State)
    requires IsStable(from) && IsStable(to) && from != TestLogicReset && to != TestLogicReset && from != to
    ensures Shortest(from, ShortTms(from, to), to)
  {
    hide Walk, Distance, ShortTms, Shortest;
    assert Path(true, from, to) == ShortTms(from, to);
    PathReaches(true, from, to);
    LengthIsDistance(from, to);
    IsShortest(from, ShortTms(from, to), to);
  }

  /** From a state to itself it waits: one clock in a pause state, seven in Run-Test/Idle. A shift state it leaves, to
      come back the shortest way from its update state. */
  lemma ShortTableComesBack(ir: bool)
    ensures ShortTms(RunTestIdle, RunTestIdle) == Repeat(false, 7)
    ensures ShortTms(PauseState(ir), PauseState(ir)) == Repeat(false, 1)
    ensures var s := ShiftState(ir); var p := ShortTms(s, s);
      |p| > 2 && Walk(s, p[..2]) == UpdateState(ir) && Shortest(UpdateState(ir), p[2..], s)
  {
    hide Shortest;
    var s := ShiftState(ir);
    var p := ShortTms(s, s);
    var q := p[2..];
    assert p[..2] == [I, I];
    Unrolled(s, p[..2], UpdateState(ir));
    Unrolled(UpdateState(ir), q, s);
    IsShortest(UpdateState(ir), q, s);
  }

  /** `core` and waiting before or after it make up seven clocks. */
  ghost predicate MadeUp(p: seq<bool>, core: seq<bool>, to: State) {
    && Shortest(TestLogicReset, core, to) && |core| <= 7
    && p == if IsShiftState(to) then Repeat(true, 7 - |core|) + core else core + Repeat(false, 7 - |core|)
  }

  lemma ResetEntry(to: State) returns (core: seq<bool>)
    requires IsStable(to) && to != TestLogicReset
    ensures |core| == Distance(TestLogicReset, to) <= 7 && Arrives(TestLogicReset, core, to)
    ensures var p := ShortTms(TestLogicReset, to);
      && |p| == 7 && p == OldTms(TestLogicReset, to)
      && p == if IsShiftState(to) then [I, I, I][..7 - |core|] + core else core + [O, O, O, O, O, O][..7 - |core|]
  {
    match to
    case RunTestIdle => core := [O];
    case ShiftDr => core := [O, I, O, O];
    case PauseDr => core := [O, I, O, I, O];
    case ShiftIr => core := [O, I, I, O, O];
    case PauseIr => core := [O, I, I, O, I, O];
  }

  /** The way from Test-Logic-Reset, which both tables share, is the shortest one made up to seven clocks by waiting
      before it if it leads to a shift state and after it otherwise. */
  lemma FromReset(to: State)
    requires IsStable(to) && to != TestLogicReset
    ensures OldTms(TestLogicReset, to) == ShortTms(TestLogicReset, to)
    ensures exists core :: MadeUp(ShortTms(TestLogicReset, to), core, to)
  {
    hide Shortest, ShortTms, OldTms, Arrives, Walk, Distance;
    var core := ResetEntry(to);
    Unrolled(TestLogicReset, core, to);
    IsShortest(TestLogicReset, core, to);
    var n := 7 - |core|;
    if IsShiftState(to) {
      assert |core| >= 4 by { FarFromReset(to); }
      assert [I, I, I][..n] == Repeat(true, n);
    } else {
      assert |core| >= 1 by { FarFromReset(to); }
      assert [O, O, O, O, O, O][..n] == Repeat(false, n);
    }
    assert MadeUp(ShortTms(TestLogicReset, to), core, to);
  }

  lemma FarFromReset(to: State)
    requires IsStable(to) && to != TestLogicReset
    ensures Distance(TestLogicReset, to) >= if IsShiftState(to) then 4 else 1
  {
  }

  lemma NotFromIdle(short: bool, to: State)
    requires IsStable(to) && to != TestLogicReset
    ensures var p := Path(short, RunTestIdle, to); |p| <= 7 && !Early(RunTestIdle, p, TestLogicReset)
  {
  }

  lemma NotFromScan(short: bool, ir: bool, from: State, to: State)
    requires (from == ShiftState(ir) || from == PauseState(ir)) && IsStable(to) && to != TestLogicReset
    ensures var p := Path(short, from, to); |p| <= 7 && !Early(from, p, TestLogicReset)
  {
  }

  /** No path of either table resets the TAP on the way. */
  lemma NeverResets(short: bool, from: State, to: State)
    requires IsStable(from) && IsStable(to) && from != TestLogicReset && to != TestLogicReset
    ensures !Visits(from, Path(short, from, to), TestLogicReset)
  {
    hide Path, Early, Visits;
    if from == RunTestIdle {
      NotFromIdle(short, to);
    } else {
      NotFromScan(short, from == ShiftIr || from == PauseIr, from, to);
    }
    UnrolledVisits(from, Path(short, from, to), TestLogicReset);
  }

  /** States in which a clock has an effect, waiting in Run-Test/Idle included. */
  predicate Matters(s: State) {
    s in {TestLogicReset, RunTestIdle, CaptureDr, ShiftDr, UpdateDr, CaptureIr, ShiftIr, UpdateIr}
  }

  /** Where the old table goes over Update and Capture again and the short one does not: from a pause state to itself,
      and from Pause-IR to Shift-IR. */
  predicate Recaptures(from: State, to: State) {
    (from == to && (from == PauseDr || from == PauseIr)) || (from == PauseIr && to == ShiftIr)
  }

  lemma OldFromIdle(to: State, x: State)
    requires IsStable(to) && Matters(x)
    ensures var p, q := OldTms(RunTestIdle, to), ShortTms(RunTestIdle, to);
      |p| == 7 && |q| <= 7 && (Early(RunTestIdle, p, x) <==> Early(RunTestIdle, q, x))
  {
  }

  lemma OldFromShiftDr(to: State, x: State)
    requires IsStable(to) && to != ShiftDr && Matters(x)
    ensures var p, q := OldTms(ShiftDr, to), ShortTms(ShiftDr, to);
      |p| == 7 && |q| <= 7 && (Early(ShiftDr, p, x) <==> Early(ShiftDr, q, x) || (x == to && IsShiftState(to)))
  {
    match to
    case TestLogicReset =>
    case RunTestIdle =>
    case ShiftDr =>
    case PauseDr =>
    case ShiftIr =>
    case PauseIr =>
  }

  lemma OldFromShiftIr(to: State, x: State)
    requires IsStable(to) && to != ShiftIr && Matters(x)
    ensures var p, q := OldTms(ShiftIr, to), ShortTms(ShiftIr, to);
      |p| == 7 && |q| <= 7 && (Early(ShiftIr, p, x) <==> Early(ShiftIr, q, x) || (x == to && IsShiftState(to)))
  {
    match to
    case TestLogicReset =>
    case RunTestIdle =>
    case ShiftDr =>
    case PauseDr =>
    case ShiftIr =>
    case PauseIr =>
  }

  lemma OldFromPauseDr(to: State, x: State)
    requires IsStable(to) && Matters(x)
    ensures var p, q := OldTms(PauseDr, to), ShortTms(PauseDr, to);
      && |p| == 7 && |q| <= 7
      && (Early(PauseDr, p, x) <==>
            Early(PauseDr, q, x) || (Recaptures(PauseDr, to) && (x == UpdateDr || x == CaptureDr)))
  {
    match to
    case TestLogicReset =>
    case RunTestIdle =>
    case ShiftDr =>
    case PauseDr =>
    case ShiftIr =>
    case PauseIr =>
  }

  lemma OldFromPauseIr(to: State, x: State)
    requires IsStable(to) && Matters(x)
    ensures var p, q := OldTms(PauseIr, to), ShortTms(PauseIr, to);
      && |p| == 7 && |q| <= 7
      && (Early(PauseIr, p, x) <==>
            Early(PauseIr, q, x) || (Recaptures(PauseIr, to) && (x == UpdateIr || x == CaptureIr)))
  {
    match to
    case TestLogicReset =>
    case RunTestIdle =>
    case ShiftDr =>
    case PauseDr =>
    case ShiftIr =>
    case PauseIr =>
  }

  /** Apart from the way from a shift state to itself, which only shifts, the old table makes its stops where the short
      one does; between different shift states it shifts in the second one, too, and some of its ways from a
      pause state update and capture first. */
  lemma OldTableStops(from: State, to: State, x: State)
    requires IsStable(from) && IsStable(to) && from != TestLogicReset && Matters(x)
    ensures |OldTms(from, to)| == 7
    ensures if IsShiftState(from) && from == to then OldTms(from, to) == Repeat(false, 7)
      else
        var more := (x == to && IsShiftState(from) && IsShiftState(to))
                    || (Recaptures(from, to) && exists ir :: from == PauseState(ir) && (x == UpdateState(ir)
                                                                                     || x == CaptureState(ir)));
        Visits(from, OldTms(from, to), x) == (Visits(from, ShortTms(from, to), x) || more)
  {
    hide Early, Visits, OldTms, ShortTms;
    if IsShiftState(from) && from == to {
      assert OldTms(from, to) == Repeat(false, 7) by { StaysShifting(from); }
    } else {
      match from {
        case RunTestIdle => OldFromIdle(to, x);
        case ShiftDr => OldFromShiftDr(to, x);
        case ShiftIr => OldFromShiftIr(to, x);
        case PauseDr => OldFromPauseDr(to, x);
        case PauseIr => OldFromPauseIr(to, x);
      }
      assert PauseState(true) == PauseIr && PauseState(false) == PauseDr;
      UnrolledVisits(from, OldTms(from, to), x);
      UnrolledVisits(from, ShortTms(from, to), x);
    }
  }

  lemma StaysShifting(s: State)
    requires IsShiftState(s)
    ensures OldTms(s, s) == Repeat(false, 7)
  {
  }
}
