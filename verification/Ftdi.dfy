/** ftdi.c: the executor of the JTAG queue over the MPSSE driver. */
module Ftdi {
  import opened Bits
  import opened MpsseDevice
  import opened ReadBack
  import opened ShiftCommands
  import opened Mpsse
  import opened Usb
  import opened Plans
  import opened Tap
  import opened Interface
  import opened JtagCommands
  import opened Effects
  import opened ScanData
  import opened Words

  /** From `before` to `after` the clocks given were added and the writes `ws` owed. */
  ghost predicate Ran(env: Env, before: Trace, after: Trace, tms: seq<bool>, tdi: seq<bool>, ws: seq<Write>)
    requires |tms| == |tdi|
  {
    && after.total == before.total + Clocks(tms, tdi)
    && after.Owed(env) == before.Owed(env) + ws
  }

  lemma RanNothing(env: Env, t: Trace)
    ensures Ran(env, t, t, [], [], [])
  {
    hide CaptureWrites;
    assert t.total + Clocks([], []) == t.total;
    assert t.Owed(env) + [] == t.Owed(env);
  }

  lemma RanJoin(env: Env, t0: Trace, t1: Trace, t2: Trace, tms: seq<bool>, tdi: seq<bool>, ws: seq<Write>,
                tms2: seq<bool>, tdi2: seq<bool>, ws2: seq<Write>)
    requires |tms| == |tdi| && |tms2| == |tdi2|
    requires Ran(env, t0, t1, tms, tdi, ws) && Ran(env, t1, t2, tms2, tdi2, ws2)
    ensures Ran(env, t0, t2, tms + tms2, tdi + tdi2, ws + ws2)
  {
    hide CaptureWrites, Clocks;
    ClocksConcat(tms, tdi, tms2, tdi2);
  }

  /** Two runs without data. */
  lemma RanPlainJoin(env: Env, t0: Trace, t1: Trace, t2: Trace, tms: seq<bool>, tms2: seq<bool>)
    requires Ran(env, t0, t1, tms, Repeat(false, |tms|), []) && Ran(env, t1, t2, tms2, Repeat(false, |tms2|), [])
    ensures Ran(env, t0, t2, tms + tms2, Repeat(false, |tms + tms2|), [])
  {
    hide Ran;
    RanJoin(env, t0, t1, t2, tms, Repeat(false, |tms|), [], tms2, Repeat(false, |tms2|), []);
    assert Repeat(false, |tms|) + Repeat(false, |tms2|) == Repeat(false, |tms + tms2|);
    var none: seq<Write> := [];
    assert none + none == none;
  }

  class FtdiDriver {
    const ctx: Context
    const jtagMode: byte
    // The globals of interface.c.
    var state: State
    var endState: State
    var shortTable: bool
    var exited: bool             // the process has called exit

    /** The caller's buffers hold what `m` says. */
    ghost predicate Ready(m: Memory)
      reads this, ctx, ctx.writeBuffer, m.held.Keys
    {
      && ctx.Valid() && LsbMode(jtagMode) && Known(m) && Kept(m, ctx.trace.log)
    }

    ghost predicate Known(m: Memory)
      reads ctx
    {
      && m.targets == ctx.trace.memory && m.targets <= m.held.Keys
      && forall a :: a in m.held ==> ctx.Foreign(a)
    }

    ghost function Now(m: Memory): Moment
      reads this, ctx
    {
      Moment(ctx.trace.total, ctx.trace.Owed(ctx.env), state, endState, m)
    }

    constructor (ctx: Context, jtagMode: byte)
      requires ctx.Valid() && LsbMode(jtagMode)
      ensures this.ctx == ctx && this.jtagMode == jtagMode && shortTable && !exited
      ensures state == endState == TestLogicReset
    {
      this.ctx, this.jtagMode := ctx, jtagMode;
      state, endState, shortTable, exited := TestLogicReset, TestLogicReset, true, false;
    }

    /** No error is pending, and libusb serves all flushes that the calls `asks` take, made from `b` on. */
    ghost predicate Served(b: Point, asks: seq<Ask>) {
      ctx.SizesOf().Ok() && Met(ctx.usb, ctx.SizesOf(), b, asks)
    }

    /** Those calls have been made, with those flushes. */
    ghost predicate Arrived(b: Point, asks: seq<Ask>)
      reads ctx
    {
      ctx.SizesOf().Ok() && ctx.At() == Reached(ctx.SizesOf(), b, asks)
    }

    lemma InTurn(b: Point, asks: seq<Ask>, more: seq<Ask>)
      requires ctx.SizesOf().Ok()
      ensures Served(b, asks + more) <==> Served(b, asks) && Served(Reached(ctx.SizesOf(), b, asks), more)
      ensures Reached(ctx.SizesOf(), b, asks + more) == Reached(ctx.SizesOf(), Reached(ctx.SizesOf(), b, asks), more)
    {
      hide Met, Reached;
      MetConcat(ctx.usb, ctx.SizesOf(), b, asks, more);
    }

    lemma InThree(b: Point, x: seq<Ask>, y: seq<Ask>, z: seq<Ask>)
      requires ctx.SizesOf().Ok()
      ensures var s := ctx.SizesOf();
        var b1 := Reached(s, b, x);
        var b2 := Reached(s, b1, y);
        && (Served(b, x + y + z) ==> Served(b, x) && Served(b1, y) && Served(b2, z))
        && Reached(s, b, x + y + z) == Reached(s, b2, z)
    {
      hide Served, Reached;
      InTurn(b, x, y);
      InTurn(b, x + y, z);
    }

    /** Nothing asked, nothing to flush. */
    lemma NothingAsked()
      requires ctx.Valid()
      ensures ctx.SizesOf().Ok()
      ensures Served(ctx.At(), []) ==> Arrived(ctx.At(), [])
      ensures Served(ctx.At(), [AskTms(0, false)]) ==> Arrived(ctx.At(), [AskTms(0, false)])
    {
      hide Met, Reached;
      MetNothing(ctx.usb, ctx.SizesOf(), ctx.At());
      NoTms(ctx.usb, ctx.SizesOf(), ctx.At(), false);
    }

    /** An array of the caller's that is not a destination is safe to send from. */
    lemma NoHazard(a: array<byte>, offset: nat, into: array?<byte>, intoOffset: nat, n: nat)
      requires ctx.Valid() && a !in ctx.trace.memory && (into == null || into in ctx.trace.memory)
      ensures Undisturbed(ctx.trace.caps, a, offset, into, intoOffset, n)
    {
      hide ctx.Consistent;
      ctx.CapturesAreKnown();
    }

    /** What has been stored meanwhile comes on top. */
    twostate lemma StillKept(m: Memory)
      requires old(Kept(m, ctx.trace.log)) && old(ctx.trace.log) <= ctx.trace.log
      requires forall a :: a in m.held ==>
        a[..] == if a in m.targets then Stored(a, old(a[..]), ctx.trace.log[|old(ctx.trace.log)|..]) else old(a[..])
      ensures Kept(m, ctx.trace.log)
    {
      hide Stored;
      forall a | a in m.held ensures a[..] == Later(a, m.held[a], m.targets, ctx.trace.log[|m.log|..]) {
        if a in m.targets {
          StoredSplit(a, m.held[a], old(a[..]), a[..], m.log, old(ctx.trace.log), ctx.trace.log);
        }
      }
    }

    /** `mpsse_clock_tms_cs` and, without `into`, `mpsse_clock_tms_cs_out`, on a byte of its own. */
    method ClockTms(bits: byte, from: nat, into: array?<byte>, intoOffset: nat, n: nat, tdi: bool,
                    ghost m: Memory)
      requires Ready(m) && from + n <= 8
      requires into != null ==> into in m.targets && intoOffset + n <= 8 * into.Length
      modifies ctx, ctx.writeBuffer, ctx.readBuffer, ctx.readChunk, ctx.trace.memory
      ensures Ready(m)
      ensures Served(old(ctx.At()), [AskTms(n, into != null)]) ==>
        && Arrived(old(ctx.At()), [AskTms(n, into != null)])
        && Requested(ctx.env, old(ctx.trace), ctx.trace, BufBits([bits], from, n), Repeat(tdi, n), into, intoOffset)
    {
      hide LsbMode, CaptureWrites, Stored, Clocks, BufBits, LowBits, Requested, Waiting, Program, Followed, Met;
      hide Reached, TmsPlan, Undisturbed, HeldOnTheWay;
      ghost var b := ctx.At();
      var tmsBits := new byte[1][bits];
      assert tmsBits[..] == [bits];
      NoHazard(tmsBits, from, into, intoOffset, n);
      ghost var sent := ctx.ClockTmsCs(tmsBits, from, into, intoOffset, n, tdi, jtagMode);
      FollowedSettles(ctx.usb, ctx.SizesOf(), b, AskTms(n, into != null), ctx.At(), ctx.aborted);
      StillKept(m);
    }

    /** `mpsse_clock_data` on bit 0 onwards of what a field points at. */
    method ClockField(out: array?<byte>, into: array?<byte>, n: nat, ghost m: Memory) returns (ghost sent: seq<bool>)
      requires Ready(m) && Field(n, out, into).Fits() && Field(n, out, into).Within(m)
      modifies ctx, ctx.writeBuffer, ctx.readBuffer, ctx.readChunk, ctx.trace.memory
      ensures Ready(m) && old(ctx.trace.log) <= ctx.trace.log
      ensures Served(old(ctx.At()), [AskData(n, out != null, into != null)]) ==>
        && Arrived(old(ctx.At()), [AskData(n, out != null, into != null)])
        && |sent| == n
        && Requested(ctx.env, old(ctx.trace), ctx.trace, Repeat(TmsPin(ctx.env, old(ctx.trace.total)), n), sent, into,
                     0)
        && FieldCarried(m, Clean(m, old(ctx.trace.Owed(ctx.env)), out), ctx.trace.Owed(ctx.env), Field(n, out, into),
                        sent)
    {
      hide LsbMode, CaptureWrites, Stored, Clocks, BufBits, TmsPin, TdiPin, Requested, Waiting, Program, Followed, Met;
      hide Reached, DataPlan, Undisturbed, HeldOnTheWay, FieldCarried, Clean;
      ghost var b, t, held := ctx.At(), ctx.trace, if out != null then out[..] else [];
      sent := ctx.ClockData(out, 0, into, 0, n, jtagMode);
      FollowedSettles(ctx.usb, ctx.SizesOf(), b, AskData(n, out != null, into != null), ctx.At(), ctx.aborted);
      StillKept(m);
      assert ctx.trace.memory == m.targets;
      if Served(b, [AskData(n, out != null, into != null)]) {
        SentIsCarried(ctx.env, m, t, ctx.trace, Field(n, out, into), held, TdiPin(ctx.env, t.total), sent);
      }
    }

    /** `move_to_state`; the follower takes every step of the way. */
    method MoveToState(goal: State, ghost m: Memory)
      requires Ready(m) && !exited && IsStable(goal)
      modifies this`state, this`exited, ctx, ctx.writeBuffer, ctx.readBuffer, ctx.readChunk, ctx.trace.memory
      ensures Ready(m)
      ensures exited <==> !IsStable(old(state))
      ensures !exited ==> state == goal
      ensures !exited ==> var tms := Path(shortTable, old(state), goal);
        Served(old(ctx.At()), [AskTms(|tms|, false)]) ==>
          && Arrived(old(ctx.At()), [AskTms(|tms|, false)])
          && Ran(ctx.env, old(ctx.trace), ctx.trace, tms, Repeat(false, |tms|), [])
    {
      hide LsbMode, CaptureWrites, Clocks, BufBits, LowBits, Requested, Path, Walk, ctx.Valid, Bit, Met, Reached;
      var startState := state;
      if !IsStable(startState) {  // `tap_move_ndx`
        exited := true;
        return;
      }
      var tms := Path(shortTable, startState, goal);
      PathReaches(shortTable, startState, goal);
      BitsOfByte(tms);
      var tmsBits: byte, tmsCount := FromBits(tms), |tms|;
      assert tms[..0] == [];
      WalkNowhere(startState);
      for i := 0 to tmsCount
        invariant state == Walk(startState, tms[..i])
        invariant Ready(m) && ctx.trace == old(ctx.trace) && ctx.At() == old(ctx.At()) && !exited
      {
        FromBitsBit(tms, i);
        SameGraph(state, Bit(tmsBits, i));
        WalkOneMore(startState, tms, i);
        state := StateTransition(state, Bit(tmsBits, i));
      }
      assert tms[..tmsCount] == tms;
      OneByte(tmsBits, tmsCount);
      ClockTms(tmsBits, 0, null, 0, tmsCount, false, m);
      if Served(old(ctx.At()), [AskTms(|tms|, false)]) {
        PlainRun(ctx.env, old(ctx.trace), ctx.trace, tms);
      }
    }

    /** `if (tap_get_state() != goal) move_to_state(goal)` */
    method GoTo(goal: State, ghost m: Memory)
      requires Ready(m) && !exited && IsStable(goal)
      modifies this`state, this`exited, ctx, ctx.writeBuffer, ctx.readBuffer, ctx.readChunk, ctx.trace.memory
      ensures Ready(m)
      ensures exited <==> !IsStable(old(state))
      ensures !exited ==> state == goal
      ensures !exited ==> var tms := MoveTms(shortTable, old(state), goal);
        Served(old(ctx.At()), [AskTms(|tms|, false)]) ==>
          && Arrived(old(ctx.At()), [AskTms(|tms|, false)])
          && Ran(ctx.env, old(ctx.trace), ctx.trace, tms, Repeat(false, |tms|), [])
    {
      hide LsbMode, CaptureWrites, Clocks, Path, ctx.Valid, Ran, Served, Arrived;
      RanNothing(ctx.env, ctx.trace);
      NothingAsked();
      if state != goal {
        MoveToState(goal, m);
      } else {
        assert Repeat(false, 0) == [];
      }
    }

    /** `ftdi_end_state` */
    method SetEndState(s: State)
      modifies this`endState, this`exited
      ensures exited <==> old(exited) || !IsStable(s)
      ensures endState == if IsStable(s) then s else old(endState)
    {
      if IsStable(s) {
        endState := s;
      } else {
        exited := true;
      }
    }

    /** The loop of `ftdi_execute_runtest` and `ftdi_execute_stableclocks`: `bits` is seven times `level`. */
    method ClockCycles(bits: byte, ghost level: bool, num: int, ghost m: Memory)
      requires Ready(m) && bits == if level then 0x7f else 0x00
      modifies ctx, ctx.writeBuffer, ctx.readBuffer, ctx.readChunk, ctx.trace.memory
      ensures Ready(m)
      ensures Served(old(ctx.At()), [AskTms(Cycles(num), false)]) ==>
        && Arrived(old(ctx.At()), [AskTms(Cycles(num), false)])
        && Ran(ctx.env, old(ctx.trace), ctx.trace, Repeat(level, Cycles(num)), Repeat(false, Cycles(num)), [])
    {
      hide LsbMode, CaptureWrites, Clocks, LowBits, Requested, ctx.Valid, Ran, Met, Reached;
      ghost var env, before, b, done := ctx.env, ctx.trace, ctx.At(), 0;
      RanNothing(env, before);
      NothingAsked();
      assert Repeat(level, 0) == Repeat(false, 0) == [];
      var i := num;
      while i > 0
        invariant i <= num || num <= 0
        invariant done == Cycles(num) - Cycles(i) && (i > 0 ==> done % 7 == 0)
        invariant Ready(m)
        invariant Served(b, [AskTms(done, false)]) ==>
          Arrived(b, [AskTms(done, false)]) && Ran(env, before, ctx.trace, Repeat(level, done), Repeat(false, done), [])
      {
        var thisLen := if i > 7 then 7 else i;
        ghost var mid := ctx.trace;
        SameLevel(bits, level, thisLen);
        OneByte(bits, thisLen);
        TmsInPieces(ctx.usb, ctx.SizesOf(), b, done, thisLen, false);
        ClockTms(bits, 0, null, 0, thisLen, false, m);
        if Served(b, [AskTms(done + thisLen, false)]) {
          PlainRun(env, mid, ctx.trace, Repeat(level, thisLen));
          RanPlainJoin(env, before, mid, ctx.trace, Repeat(level, done), Repeat(level, thisLen));
          assert Repeat(level, done) + Repeat(level, thisLen) == Repeat(level, done + thisLen);
        }
        i := i - thisLen;
        done := done + thisLen;
      }
    }

    /** What every executor promises about its command: the step is done, with the flushes that it takes, if
        libusb serves those. */
    ghost predicate Did(b: Point, moment: Moment, cmd: Command, bits: seq<bool>)
      requires Survives(moment.state, cmd)
      reads this, ctx
    {
      Served(b, CommandAsks(shortTable, moment.state, cmd)) ==>
        && Arrived(b, CommandAsks(shortTable, moment.state, cmd))
        && Step(ctx.env, shortTable, moment, cmd, bits, Now(moment.memory))
    }

    method ExecuteRuntest(numCycles: int, end: State, ghost m: Memory)
      requires Ready(m) && !exited
      modifies this`state, this`endState, this`exited, ctx, ctx.writeBuffer, ctx.readBuffer, ctx.readChunk
      modifies ctx.trace.memory
      ensures Ready(m)
      ensures exited <==> !Survives(old(state), Runtest(numCycles, end))
      ensures !exited ==>
        && state == CommandState(old(state), Runtest(numCycles, end))
        && endState == CommandEnd(old(state), old(endState), Runtest(numCycles, end))
      ensures !exited ==> Did(old(ctx.At()), old(Now(m)), Runtest(numCycles, end), [])
    {
      hide LsbMode, CaptureWrites, Clocks, ctx.Valid, Ran, MoveTms, Served, Reached, Step;
      ghost var env, before, from, at0 := ctx.env, ctx.trace, state, ctx.At();
      NothingAsked();
      GoTo(RunTestIdle, m);
      if exited {
        return;
      }
      ghost var arrived := ctx.trace;
      ClockCycles(0x00, false, numCycles, m);
      ghost var clocked := ctx.trace;
      SetEndState(end);
      if exited {
        return;
      }
      GoTo(endState, m);
      ghost var tms1, tms2, tms3 := MoveTms(shortTable, from, RunTestIdle), Repeat(false, Cycles(numCycles)),
                                    MoveTms(shortTable, RunTestIdle, end);
      ghost var x, y, z := AskTms(|tms1|, false), AskTms(Cycles(numCycles), false), AskTms(|tms3|, false);
      InThree(at0, [x], [y], [z]);
      assert [x] + [y] + [z] == CommandAsks(shortTable, from, Runtest(numCycles, end));
      if Served(at0, [x] + [y] + [z]) {
        RanPlainJoin(env, before, arrived, clocked, tms1, tms2);
        RanPlainJoin(env, before, clocked, ctx.trace, tms1 + tms2, tms3);
        StepOfRun(env, shortTable, before, ctx.trace, old(Now(m)), Runtest(numCycles, end), Now(m));
      }
    }

    /** The move of `ftdi_execute_statemove`, made even if the follower is in Test-Logic-Reset already. */
    method MoveToEndState(ghost m: Memory)
      requires Ready(m) && !exited && IsStable(endState)
      modifies this`state, this`exited, ctx, ctx.writeBuffer, ctx.readBuffer, ctx.readChunk, ctx.trace.memory
      ensures Ready(m)
      ensures exited <==> !IsStable(old(state))
      ensures !exited ==> state == endState
      ensures !exited ==> var tms := StatemoveTms(shortTable, old(state), endState);
        Served(old(ctx.At()), [AskTms(|tms|, false)]) ==>
          && Arrived(old(ctx.At()), [AskTms(|tms|, false)])
          && Ran(ctx.env, old(ctx.trace), ctx.trace, tms, Repeat(false, |tms|), [])
    {
      hide LsbMode, CaptureWrites, Clocks, Path, ctx.Valid, Ran, IsStable, Served, Arrived;
      RanNothing(ctx.env, ctx.trace);
      NothingAsked();
      if state != endState || endState == TestLogicReset {
        MoveToState(endState, m);
      } else {
        assert Repeat(false, 0) == [];
      }
    }

    /** JTAG_TLR_RESET: `ftdi_execute_statemove` */
    method ExecuteStatemove(end: State, ghost m: Memory)
      requires Ready(m) && !exited
      modifies this`state, this`endState, this`exited, ctx, ctx.writeBuffer, ctx.readBuffer, ctx.readChunk
      modifies ctx.trace.memory
      ensures Ready(m)
      ensures exited <==> !Survives(old(state), TlrReset(end))
      ensures !exited ==>
        && state == CommandState(old(state), TlrReset(end))
        && endState == CommandEnd(old(state), old(endState), TlrReset(end))
      ensures !exited ==> Did(old(ctx.At()), old(Now(m)), TlrReset(end), [])
    {
      hide LsbMode, CaptureWrites, Clocks, ctx.Valid, Ran, Path, Step, IsStable, StatemoveTms, Served, Arrived;
      SetEndState(end);
      if exited {
        return;
      }
      MoveToEndState(m);
      if !exited && Served(old(ctx.At()), CommandAsks(shortTable, old(state), TlrReset(end))) {
        StepOfRun(ctx.env, shortTable, old(ctx.trace), ctx.trace, old(Now(m)), TlrReset(end), Now(m));
      }
    }

    /** `ftdi_execute_sleep`, the sleeping left out. */
    method ExecuteSleep(us: nat, ghost m: Memory)
      requires Ready(m) && !exited
      modifies ctx, ctx.writeBuffer, ctx.readBuffer, ctx.readChunk, ctx.trace.memory
      ensures Ready(m)
      ensures Did(old(ctx.At()), old(Now(m)), Sleep(us), [])
      ensures Served(old(ctx.At()), [AskFlush]) ==>
        ctx.device == old(ctx.trace.total) && ctx.trace.log == old(ctx.trace.Owed(ctx.env))
    {
      hide LsbMode, Stored, Clocks, ctx.Consistent, Served, Arrived;
      var rc := Flush(m);
      assert Clocks([], []) == [];
      assert ctx.trace.total + [] == ctx.trace.total;
    }

    /** `mpsse_flush`: what is owed stays owed or is stored. */
    method Flush(ghost m: Memory) returns (rc: int)
      requires Ready(m)
      modifies ctx, ctx.writeBuffer, ctx.readBuffer, ctx.readChunk, ctx.trace.memory
      ensures Ready(m)
      ensures Served(old(ctx.At()), [AskFlush]) ==>
        && Arrived(old(ctx.At()), [AskFlush])
        && rc == ERROR_OK && ctx.device == ctx.trace.total == old(ctx.trace.total)
        && ctx.trace.Owed(ctx.env) == old(ctx.trace.Owed(ctx.env)) == ctx.trace.log
    {
      hide LsbMode, CaptureWrites, Stored, Program, AllServed, AllAsked, FlushPlan;
      OneAsked(ctx.SizesOf(), ctx.writeCount, ctx.readCount, AskFlush);
      LevelAfterFlush(ctx.SizesOf(), ctx.writeCount, ctx.readCount);
      rc := ctx.Flush();
      NoCaptures(ctx.env, ctx.trace.total);
      assert ctx.trace.log + [] == ctx.trace.log;
      StillKept(m);
    }

    method ExecuteStableclocks(numCycles: int, ghost m: Memory)
      requires Ready(m) && !exited
      modifies ctx, ctx.writeBuffer, ctx.readBuffer, ctx.readChunk, ctx.trace.memory
      ensures Ready(m)
      ensures Did(old(ctx.At()), old(Now(m)), StableClocks(numCycles), [])
    {
      hide LsbMode, CaptureWrites, Clocks, ctx.Valid, Ran, Served, Arrived;
      var tms: byte := if state == TestLogicReset then 0x7f else 0x00;
      ClockCycles(tms, state == TestLogicReset, numCycles, m);
      if Served(old(ctx.At()), [AskTms(Cycles(numCycles), false)]) {
        StepOfRun(ctx.env, shortTable, old(ctx.trace), ctx.trace, old(Now(m)), StableClocks(numCycles), Now(m));
      }
    }

    method ExecuteTms(bits: seq<byte>, numBits: nat, ghost m: Memory)
      requires Ready(m) && !exited && numBits <= 8 * |bits|
      modifies ctx, ctx.writeBuffer, ctx.readBuffer, ctx.readChunk, ctx.trace.memory
      ensures Ready(m)
      ensures Did(old(ctx.At()), old(Now(m)), Command.Tms(bits, numBits), [])
    {
      hide LsbMode, CaptureWrites, Stored, Clocks, BufBits, Requested, Waiting, Program, Ran, Followed, Met, Reached;
      hide TmsPlan, Undisturbed, HeldOnTheWay;
      var data := new byte[|bits|](i requires 0 <= i < |bits| => bits[i]);
      assert data[..] == bits;
      NoHazard(data, 0, null, 0, numBits);
      ghost var sent := ctx.ClockTmsCs(data, 0, null, 0, numBits, false, jtagMode);
      FollowedSettles(ctx.usb, ctx.SizesOf(), old(ctx.At()), AskTms(numBits, false), ctx.At(), ctx.aborted);
      StillKept(m);
      if Served(old(ctx.At()), [AskTms(numBits, false)]) {
        PlainRun(ctx.env, old(ctx.trace), ctx.trace, BufBits(bits, 0, numBits));
        StepOfRun(ctx.env, shortTable, old(ctx.trace), ctx.trace, old(Now(m)), Command.Tms(bits, numBits), Now(m));
      }
    }

    method ExecutePathmove(path: seq<State>, ghost m: Memory)
      requires Ready(m) && !exited
      modifies this`state, this`endState, this`exited, ctx, ctx.writeBuffer, ctx.readBuffer, ctx.readChunk
      modifies ctx.trace.memory
      ensures Ready(m)
      ensures exited <==> !Survives(old(state), Pathmove(path))
      ensures !exited ==>
        && state == CommandState(old(state), Pathmove(path))
        && endState == CommandEnd(old(state), old(endState), Pathmove(path))
      ensures !exited ==> Did(old(ctx.At()), old(Now(m)), Pathmove(path), [])
    {
      hide LsbMode, CaptureWrites, Clocks, ctx.Valid, Ran, PathTms, Step, LegalPath, PathEnd, Served, Arrived;
      ClockPath(path, m);
      if exited {
        return;
      }
      endState := state;
      if Served(old(ctx.At()), [AskTms(|path|, false)]) {
        StepOfRun(ctx.env, shortTable, old(ctx.trace), ctx.trace, old(Now(m)), Pathmove(path), Now(m));
      }
    }

    /** The loop of `ftdi_execute_pathmove`: seven steps at a time. */
    method ClockPath(path: seq<State>, ghost m: Memory)
      requires Ready(m) && !exited
      modifies this`state, this`exited, ctx, ctx.writeBuffer, ctx.readBuffer, ctx.readChunk, ctx.trace.memory
      ensures Ready(m)
      ensures exited <==> !LegalPath(old(state), path)
      ensures !exited ==> state == PathEnd(old(state), path)
      ensures !exited && Served(old(ctx.At()), [AskTms(|path|, false)]) ==>
        && Arrived(old(ctx.At()), [AskTms(|path|, false)])
        && Ran(ctx.env, old(ctx.trace), ctx.trace, PathTms(old(state), path), Repeat(false, |path|), [])
    {
      hide Served, Arrived;
      hide LsbMode, CaptureWrites, Clocks, ctx.Valid, Ran, PathTms, LegalStep, LegalPath, LegalSoFar, PathState;
      hide BufBits, Next, PathEnd, Kept;
      ghost var env, before, start, b := ctx.env, ctx.trace, state, ctx.At();
      NothingAsked();
      ghost var tms := PathTms(start, path);
      var stateCount, bitCount := 0, 0;
      var tmsByte := new byte[1][0];
      RanNothing(env, before);
      PathBegins(start, path, tmsByte[..]);
      while stateCount < |path|
        invariant 0 <= bitCount <= stateCount <= |path| && bitCount < 7 && (stateCount == |path| ==> bitCount == 0)
        invariant Ready(m) && !exited
        invariant state == PathState(start, path, stateCount) && LegalSoFar(start, path, stateCount)
        invariant BufBits(tmsByte[..], 0, bitCount) == tms[stateCount - bitCount..stateCount]
        invariant stateCount < |path| ==> (stateCount - bitCount) % 7 == 0
        invariant Served(b, [AskTms(stateCount - bitCount, false)]) ==>
          && Arrived(b, [AskTms(stateCount - bitCount, false)])
          && Ran(env, before, ctx.trace, tms[..stateCount - bitCount], Repeat(false, stateCount - bitCount), [])
      {
        PathStepBit(start, path, stateCount);
        var bit := TakeStep(path[stateCount]);
        if exited {
          return;
        }
        PutStep(tmsByte, bitCount, bit);
        SliceSnoc(tms, stateCount - bitCount, stateCount);
        bitCount := bitCount + 1;
        stateCount := stateCount + 1;
        if bitCount == 7 || stateCount == |path| {
          SendSteps(tmsByte[0], tmsByte[..], bitCount, before, b, tms, stateCount, m);
          bitCount := 0;
        }
      }
      PathWhole(start, path);
    }

    /** Which level of TMS leads to `next`, if any. */
    method TakeStep(next: State) returns (tms: bool)
      requires !exited
      modifies this`state, this`exited
      ensures exited <==> !LegalStep(old(state), next)
      ensures !exited ==> state == next && tms == (Next(old(state), false) != next)
    {
      hide Next, StateTransition;
      SameGraph(state, false);
      SameGraph(state, true);
      if StateTransition(state, false) == next {
        tms := false;
      } else if StateTransition(state, true) == next {
        tms := true;
      } else {
        exited := true;
        return false;
      }
      state := next;
    }

    method SendSteps(tmsByte: byte, ghost bits: seq<byte>, bitCount: nat, ghost before: Trace, ghost b: Point,
                     ghost tms: seq<bool>, ghost to: nat,
                     ghost m: Memory)
      requires Ready(m) && bits == [tmsByte] && bitCount <= 7 && bitCount <= to <= |tms|
      requires BufBits(bits, 0, bitCount) == tms[to - bitCount..to] && (to - bitCount) % 7 == 0
      requires Served(b, [AskTms(to - bitCount, false)]) ==>
        && Arrived(b, [AskTms(to - bitCount, false)])
        && Ran(ctx.env, before, ctx.trace, tms[..to - bitCount], Repeat(false, to - bitCount), [])
      modifies ctx, ctx.writeBuffer, ctx.readBuffer, ctx.readChunk, ctx.trace.memory
      ensures Ready(m)
      ensures Served(b, [AskTms(to, false)]) ==>
        Arrived(b, [AskTms(to, false)]) && Ran(ctx.env, before, ctx.trace, tms[..to], Repeat(false, to), [])
    {
      hide LsbMode, CaptureWrites, Clocks, ctx.Valid, Ran, BufBits, Requested, Met, Reached;
      ghost var mid := ctx.trace;
      NothingAsked();
      TmsInPieces(ctx.usb, ctx.SizesOf(), b, to - bitCount, bitCount, false);
      ClockTms(tmsByte, 0, null, 0, bitCount, false, m);
      if Served(b, [AskTms(to, false)]) {
        PathChunk(ctx.env, before, mid, ctx.trace, tms, to - bitCount, to, bits);
      }
    }

    /** `buf_set_u32(&tms_byte, bit_count, 1, v)` */
    method PutStep(tmsByte: array<byte>, bitCount: nat, v: bool)
      requires tmsByte.Length == 1 && bitCount < 8
      modifies tmsByte
      ensures BufBits(tmsByte[..], 0, bitCount + 1) == old(BufBits(tmsByte[..], 0, bitCount)) + [v]
    {
      hide BufBit;
      ghost var before := tmsByte[..];
      BufSetU32(tmsByte, bitCount, 1, if v then 1 else 0);
      assert Bit(1, 0) && !Bit(0, 0);
    }

    /** The two TMS clocks from a shift state to its pause state; the first carries the last bit. */
    method LeaveShift(lastBit: bool, into: array?<byte>, at: nat, ghost m: Memory) returns (ghost mid: Trace)
      requires Ready(m) && (into != null ==> into in m.targets && at + 1 <= 8 * into.Length)
      modifies this`state, ctx, ctx.writeBuffer, ctx.readBuffer, ctx.readChunk, ctx.trace.memory
      ensures Ready(m)
      ensures state == Next(Next(old(state), true), false)
      ensures Served(old(ctx.At()), [AskTms(1, into != null)] + [AskTms(1, false)]) ==>
        && Arrived(old(ctx.At()), [AskTms(1, into != null)] + [AskTms(1, false)])
        && Requested(ctx.env, old(ctx.trace), mid, [true], [lastBit], into, at)
        && Requested(ctx.env, mid, ctx.trace, [false], [lastBit], null, 0)
    {
      hide LsbMode, BufBits, Requested, ctx.Valid, Kept, Next, StateTransition, Served, Reached;
      ghost var at0 := ctx.At();
      NothingAsked();
      var tmsBits := 0x01;
      TmsOne();
      ClockTms(tmsBits, 0, into, at, 1, lastBit, m);
      SameGraph(state, true);
      state := StateTransition(state, true);
      mid := ctx.trace;
      ClockTms(tmsBits, 1, null, 0, 1, lastBit, m);
      SameGraph(state, false);
      state := StateTransition(state, false);
      assert Repeat(lastBit, 1) == [lastBit];
      InTurn(at0, [AskTms(1, into != null)], [AskTms(1, false)]);
    }

    /** The last field of a scan that leaves the shift state: its last bit is clocked by the TMS command
        that leaves it. */
    method LeaveWithField(field: Field, ghost m: Memory)
      returns (ghost bits: seq<bool>)
      requires Ready(m) && field.Fits() && field.numBits > 0 && field.Within(m)
      modifies this`state, ctx, ctx.writeBuffer, ctx.readBuffer, ctx.readChunk, ctx.trace.memory
      ensures Ready(m)
      ensures state == Next(Next(old(state), true), false)
      ensures Served(old(ctx.At()), FieldAsks(field, true)) ==>
        && Arrived(old(ctx.At()), FieldAsks(field, true))
        && bits != [] && FieldDone(ctx.env, m, old(ctx.trace), ctx.trace, field, bits, true)
    {
      hide LsbMode, CaptureWrites, Clocks, BufBits, BufBit, Requested, FieldDone, FieldCarried, ctx.Valid, Next;
      hide Served, Reached, Clean, Later, TmsPin, FieldAsks;
      ghost var t0, at0 := ctx.trace, ctx.At();
      NothingAsked();
      ghost var front := ClockField(field.out, field.into, field.numBits - 1, m);
      ghost var t1 := ctx.trace;
      ghost var held := if field.out != null then field.out[..] else [];
      var lastBit := field.out != null && BufBit(field.out[..], field.numBits - 1);
      ghost var t2 := LeaveShift(lastBit, field.into, field.numBits - 1, m);
      bits := front + [lastBit];
      InTurn(at0, [AskData(field.numBits - 1, field.out != null, field.into != null)],
             [AskTms(1, field.into != null)] + [AskTms(1, false)]);
      AsksOfLast(field);
      if Served(at0, FieldAsks(field, true)) {
        LastBit(ctx.env, m, t0, t1, field, front, Repeat(TmsPin(ctx.env, t0.total), |front|), lastBit, held);
        FieldInThree(ctx.env, m, t0, t1, t2, ctx.trace, field, front, lastBit);
      }
    }

    /** Any other field. */
    method ClockWhole(field: Field, ghost m: Memory)
      returns (ghost bits: seq<bool>)
      requires Ready(m) && field.Fits() && field.Within(m)
      modifies ctx, ctx.writeBuffer, ctx.readBuffer, ctx.readChunk, ctx.trace.memory
      ensures Ready(m)
      ensures Served(old(ctx.At()), FieldAsks(field, false)) ==>
        && Arrived(old(ctx.At()), FieldAsks(field, false))
        && FieldDone(ctx.env, m, old(ctx.trace), ctx.trace, field, bits, false)
    {
      hide LsbMode, CaptureWrites, Clocks, FieldDone, FieldCarried, ctx.Valid, Kept, Requested, TmsPin, Served;
      hide Arrived;
      bits := ClockField(field.out, field.into, field.numBits, m);
      assert Field(field.numBits, field.out, field.into) == field;
      if Served(old(ctx.At()), FieldAsks(field, false)) {
        FieldAtOnce(ctx.env, m, old(ctx.trace), ctx.trace, field, bits);
      }
    }

    /** The loop of `ftdi_execute_scan`. */
    method ShiftFields(ghost ir: bool, fields: seq<Field>, ghost m: Memory)
      returns (ghost bits: seq<bool>)
      requires Ready(m) && state == ShiftState(ir) && fields != [] && fields[|fields| - 1].numBits > 0
      requires forall f :: f in fields ==> f.Fits() && f.Within(m)
      modifies this`state, ctx, ctx.writeBuffer, ctx.readBuffer, ctx.readChunk, ctx.trace.memory
      ensures Ready(m)
      ensures state == if endState == ShiftState(ir) then ShiftState(ir) else PauseState(ir)
      ensures Served(old(ctx.At()), PhaseAsks(fields, endState != ShiftState(ir))) ==>
        && Arrived(old(ctx.At()), PhaseAsks(fields, endState != ShiftState(ir)))
        && Shifted(ctx.env, m, old(ctx.trace), ctx.trace, fields, bits, endState != ShiftState(ir))
    {
      hide LsbMode, CaptureWrites, Clocks, Shifted, FieldDone, FieldCarried, ctx.Valid, Kept, Requested, TmsPin;
      hide Served, Reached, PhaseAsks;
      ghost var env, before, left, at0 := ctx.env, ctx.trace, false, ctx.At();
      NothingAsked();
      PhaseOneMore(fields, 0, false);
      bits := [];
      ShiftedNothing(env, m, before);
      assert fields[..0] == [];
      for i := 0 to |fields|
        invariant Ready(m)
        invariant left == (i == |fields| && endState != ShiftState(ir))
        invariant state == if left then PauseState(ir) else ShiftState(ir)
        invariant Served(at0, PhaseAsks(fields[..i], left)) ==>
          Arrived(at0, PhaseAsks(fields[..i], left)) && Shifted(env, m, before, ctx.trace, fields[..i], bits, left)
      {
        ghost var mid, more := ctx.trace, [];
        assert fields[i] in fields;
        if i == |fields| - 1 && state != endState {
          more := LeaveWithField(fields[i], m);
          left := true;
        } else {
          more := ClockWhole(fields[i], m);
        }
        PhaseOneMore(fields, i, left);
        InTurn(at0, PhaseAsks(fields[..i], false), FieldAsks(fields[i], left));
        if Served(at0, PhaseAsks(fields[..i + 1], left)) {
          ShiftedMore(env, m, before, mid, ctx.trace, fields, i, bits, more, left);
        }
        bits := bits + more;
      }
      assert fields[..|fields|] == fields;
    }

    /** The loop that drops trailing empty fields. */
    method Trim(fields: seq<Field>) returns (numFields: nat)
      ensures numFields <= |fields| && fields[..numFields] == Trimmed(fields)
    {
      numFields := |fields|;
      assert fields[..numFields] == fields;
      while numFields > 0 && fields[numFields - 1].numBits == 0
        invariant numFields <= |fields| && Trimmed(fields[..numFields]) == Trimmed(fields)
      {
        assert fields[..numFields][..numFields - 1] == fields[..numFields - 1];
        numFields := numFields - 1;
      }
    }

    /** `ftdi_execute_scan` */
    method ExecuteScan(irScan: bool, fields: seq<Field>, end: State, ghost m: Memory)
      returns (ghost bits: seq<bool>)
      requires Ready(m) && !exited
      requires forall f :: f in fields ==> f.Fits() && f.Within(m)
      modifies this`state, this`endState, this`exited, ctx, ctx.writeBuffer, ctx.readBuffer, ctx.readChunk
      modifies ctx.trace.memory
      ensures Ready(m)
      ensures exited <==> !Survives(old(state), Scan(irScan, fields, end))
      ensures !exited ==>
        && state == CommandState(old(state), Scan(irScan, fields, end))
        && endState == CommandEnd(old(state), old(endState), Scan(irScan, fields, end))
      ensures !exited ==> Did(old(ctx.At()), old(Now(m)), Scan(irScan, fields, end), bits)
    {
      hide LsbMode, CaptureWrites, Clocks, ctx.Valid, Kept, Ran, Shifted, Step, MoveTms, Served, Arrived;
      ghost var env, m0 := ctx.env, Now(m);
      bits := [];
      NothingAsked();
      var numFields := Trim(fields);
      if numFields == 0 {
        EmptyScan(env, shortTable, m0, irScan, fields, end);
        return;
      }
      bits := ScanUsed(irScan, fields, numFields, end, m);
    }

    lemma ScanInThree(b: Point, s: State, ir: bool, fields: seq<Field>, end: State)
      requires ctx.SizesOf().Ok() && IsStable(s) && IsStable(end) && Trimmed(fields) != []
      ensures IsStable(ShiftState(ir)) && IsStable(AfterData(ir, end))
      ensures var z := ctx.SizesOf();
        var move1, move2 := [AskTms(|MoveTms(shortTable, s, ShiftState(ir))|, false)],
                            [AskTms(|MoveTms(shortTable, AfterData(ir, end), end)|, false)];
        var phase, all := PhaseAsks(Trimmed(fields), end != ShiftState(ir)),
                          CommandAsks(shortTable, s, Scan(ir, fields, end));
        var b1 := Reached(z, b, move1);
        var b2 := Reached(z, b1, phase);
        && (Served(b, all) ==> Served(b, move1) && Served(b1, phase) && Served(b2, move2))
        && Reached(z, b, all) == Reached(z, b2, move2)
    {
      hide Served, Reached, PhaseAsks, MoveTms, Trimmed;
      InThree(b, [AskTms(|MoveTms(shortTable, s, ShiftState(ir))|, false)],
              PhaseAsks(Trimmed(fields), end != ShiftState(ir)),
              [AskTms(|MoveTms(shortTable, AfterData(ir, end), end)|, false)]);
    }

    /** The rest of `ftdi_execute_scan`. */
    method ScanUsed(irScan: bool, fields: seq<Field>, numFields: nat, end: State,
                    ghost m: Memory)
      returns (ghost bits: seq<bool>)
      requires Ready(m) && !exited && 0 < numFields <= |fields| && fields[..numFields] == Trimmed(fields)
      requires forall f :: f in fields ==> f.Fits() && f.Within(m)
      modifies this`state, this`endState, this`exited, ctx, ctx.writeBuffer, ctx.readBuffer, ctx.readChunk
      modifies ctx.trace.memory
      ensures Ready(m)
      ensures exited <==> !(IsStable(old(state)) && IsStable(end))
      ensures !exited ==> state == endState == end
      ensures !exited ==> Did(old(ctx.At()), old(Now(m)), Scan(irScan, fields, end), bits)
    {
      hide LsbMode, CaptureWrites, Clocks, ctx.Valid, Kept, Ran, Shifted, Step, MoveTms, CommandState, CommandEnd;
      hide Served, Reached, PhaseAsks, CommandAsks, Trimmed;
      ghost var env, before, m0, at0 := ctx.env, ctx.trace, Now(m), ctx.At();
      NothingAsked();
      bits := [];
      ShiftIsStable(irScan);
      GoTo(ShiftState(irScan), m);
      if exited {
        return;
      }
      ghost var arrived := ctx.trace;
      SetEndState(end);
      if exited {
        return;
      }
      bits := ShiftFields(irScan, fields[..numFields], m);
      ghost var shifted := ctx.trace;
      GoTo(endState, m);
      ScanInThree(at0, m0.state, irScan, fields, end);
      if Served(at0, CommandAsks(shortTable, m0.state, Scan(irScan, fields, end))) {
        StepOfScan(env, shortTable, before, arrived, shifted, ctx.trace, m0, irScan, fields, end, bits, Now(m));
      }
    }

    /** `ftdi_execute_command` */
    method ExecuteCommand(cmd: Command, ghost m: Memory)
      returns (ghost bits: seq<bool>)
      requires Ready(m) && !exited && CommandFits(cmd) && CommandWithin(m, cmd)
      modifies this`state, this`endState, this`exited, ctx, ctx.writeBuffer, ctx.readBuffer, ctx.readChunk
      modifies ctx.trace.memory
      ensures Ready(m)
      ensures exited <==> !Survives(old(state), cmd)
      ensures !exited ==>
        && state == CommandState(old(state), cmd)
        && endState == CommandEnd(old(state), old(endState), cmd)
      ensures !exited ==> Did(old(ctx.At()), old(Now(m)), cmd, bits)
    {
      hide LsbMode, CaptureWrites, Clocks, ctx.Valid, Kept, Step, IsStable, LegalPath, Trimmed, Served, Arrived;
      hide CommandAsks;
      bits := [];
      match cmd
      case Runtest(numCycles, end) => ExecuteRuntest(numCycles, end, m);
      case TlrReset(end) => ExecuteStatemove(end, m);
      case Pathmove(path) => ExecutePathmove(path, m);
      case Scan(irScan, fields, end) =>
        assert forall f :: f in fields && f.into != null ==> f.into in Targets(cmd);
        bits := ExecuteScan(irScan, fields, end, m);
      case Sleep(us) => ExecuteSleep(us, m);
      case StableClocks(numCycles) => ExecuteStableclocks(numCycles, m);
      case Tms(tms, numBits) => ExecuteTms(tms, numBits, m);
    }

    /** The loop of `ftdi_execute_queue`. */
    method ExecuteAll(cmds: seq<Command>, ghost m: Memory)
      returns (ghost moments: seq<Moment>, ghost data: seq<seq<bool>>)
      requires Ready(m) && !exited && forall c :: c in cmds ==> CommandFits(c) && CommandWithin(m, c)
      modifies this`state, this`endState, this`exited, ctx, ctx.writeBuffer, ctx.readBuffer, ctx.readChunk
      modifies ctx.trace.memory
      ensures Ready(m)
      ensures exited <==> !SurvivesAll(old(state), cmds)
      ensures !exited && Served(old(ctx.At()), QueueAsks(shortTable, old(state), cmds)) ==>
        && Arrived(old(ctx.At()), QueueAsks(shortTable, old(state), cmds))
        && Runs(ctx.env, shortTable, cmds, moments, data) && moments[0] == old(Now(m)) && moments[|cmds|] == Now(m)
    {
      hide LsbMode, CaptureWrites, Clocks, ctx.Valid, Kept, Step, Survives, Served, Reached, FoldState, CommandState;
      hide CommandAsks, QueueAsks;
      ghost var b, s0 := ctx.At(), state;
      moments, data := [Now(m)], [];
      NothingAsked();
      QueueBegins(shortTable, s0, cmds);
      for i := 0 to |cmds|
        invariant Ready(m) && !exited && |moments| == i + 1 && |data| == i
        invariant state == FoldState(s0, cmds[..i])
        invariant forall k :: 0 <= k < i ==> Survives(FoldState(s0, cmds[..k]), cmds[k])
        invariant Served(b, QueueAsks(shortTable, s0, cmds[..i])) ==>
          && Arrived(b, QueueAsks(shortTable, s0, cmds[..i]))
          && moments[0] == old(Now(m)) && moments[i] == Now(m) && Runs(ctx.env, shortTable, cmds[..i], moments, data)
      {
        assert cmds[i] in cmds;
        FoldOneMore(s0, cmds, i);
        ghost var bits := ExecuteCommand(cmds[i], m);
        if exited {
          return;
        }
        QueueOneMore(shortTable, s0, cmds, i);
        InTurn(b, QueueAsks(shortTable, s0, cmds[..i]), CommandAsks(shortTable, FoldState(s0, cmds[..i]), cmds[i]));
        if Served(b, QueueAsks(shortTable, s0, cmds[..i + 1])) {
          RunsMore(ctx.env, shortTable, cmds, i, moments, data, bits, Now(m));
        }
        moments, data := moments + [Now(m)], data + [bits];
      }
      assert cmds[..|cmds|] == cmds;
    }

    /** Every command has done its part, in order, every TDO bit owed has been stored, and the device has
        done all of it. */
    ghost predicate Finished(start: Moment, cmds: seq<Command>, rc: int, moments: seq<Moment>, data: seq<seq<bool>>)
      reads this, ctx
    {
      && rc == ERROR_OK
      && Runs(ctx.env, shortTable, cmds, moments, data) && moments[0] == start && moments[|cmds|] == Now(start.memory)
      && ctx.device == ctx.trace.total && ctx.trace.log == moments[|cmds|].owed
    }

    /** `ftdi_execute_queue`, without the LED. `m` is what the caller's buffers hold before. */
    method ExecuteQueue(cmds: seq<Command>, ghost m: Memory)
      returns (rc: int, ghost moments: seq<Moment>, ghost data: seq<seq<bool>>)
      requires ctx.Valid() && LsbMode(jtagMode) && !exited
      requires forall c :: c in cmds ==> CommandFits(c)
      requires m.targets == ctx.trace.memory + AllTargets(cmds) && m.targets + AllSources(cmds) <= m.held.Keys
      requires m.log == ctx.trace.log && Kept(m, m.log) && forall a :: a in m.held ==> ctx.Foreign(a)
      modifies this`state, this`endState, this`exited, ctx, ctx.writeBuffer, ctx.readBuffer, ctx.readChunk
      modifies ctx.trace.memory
      modifies AllTargets(cmds)
      ensures ctx.Valid()
      ensures ctx.trace.memory == m.targets && Kept(m, ctx.trace.log)
      ensures exited <==> !SurvivesAll(old(state), cmds)
      ensures !exited && Served(old(ctx.At()), QueueAsks(shortTable, old(state), cmds) + [AskFlush]) ==>
        && Arrived(old(ctx.At()), QueueAsks(shortTable, old(state), cmds) + [AskFlush])
        && Finished(old(Now(m)), cmds, rc, moments, data)
    {
      hide LsbMode, CaptureWrites, Clocks, ctx.Consistent, Step, SurvivesAll, Runs, Stored, Served, Reached, QueueAsks;
      hide AllTargets, AllSources, CommandFits, CommandWithin, Kept;
      ghost var b := ctx.At();
      ghost var mem := ctx.Adopt(AllTargets(cmds));
      QueueWithin(m, cmds);
      rc := ERROR_FAIL;
      moments, data := ExecuteAll(cmds, m);
      if !exited {
        NothingAsked();
        InTurn(b, QueueAsks(shortTable, old(state), cmds), [AskFlush]);
        rc := Flush(m);
      }
    }
  }

  lemma QueueWithin(m: Memory, cmds: seq<Command>)
    requires AllTargets(cmds) <= m.targets && AllSources(cmds) <= m.held.Keys
    ensures forall c :: c in cmds ==> CommandWithin(m, c)
  {
    forall c | c in cmds ensures CommandWithin(m, c) {
      assert Targets(c) <= AllTargets(cmds) && Sources(c) <= AllSources(cmds);
      if c.Scan? {
        forall f | f in c.fields ensures f.Within(m) {
          assert f.into != null ==> f.into in Targets(c);
          assert f.out != null ==> f.out in Sources(c);
        }
      }
    }
  }

  lemma AsksOfLast(f: Field)
    requires f.numBits > 0
    ensures FieldAsks(f, true) == [AskData(f.numBits - 1, f.out != null, f.into != null)]
                                    + ([AskTms(1, f.into != null)] + [AskTms(1, false)])
  {
  }

  lemma QueueBegins(short: bool, s: State, cmds: seq<Command>)
    ensures cmds[..0] == [] && FoldState(s, cmds[..0]) == s && QueueAsks(short, s, cmds[..0]) == []
  {
    hide CommandAsks, CommandState;
  }

  lemma OneByte(b: byte, n: nat)
    requires n <= 8
    ensures BufBits([b], 0, n) == LowBits(b, n)
  {
    forall k | 0 <= k < n ensures BufBits([b], 0, n)[k] == LowBits(b, n)[k] {
      assert BufBit([b], k) == Bit(b, k);
    }
  }

  lemma BitsOfByte(bits: seq<bool>)
    requires |bits| <= 8
    ensures FromBits(bits) < 256 && LowBits(FromBits(bits), |bits|) == bits
  {
    PowMono(|bits|, 8);
    assert Pow2(8) == 256;
    forall k | 0 <= k < |bits| ensures Bit(FromBits(bits), k) == bits[k] {
      FromBitsBit(bits, k);
    }
  }

  /** A request without reading is a run without data. */
  lemma PlainRun(env: Env, before: Trace, after: Trace, tms: seq<bool>)
    requires Requested(env, before, after, tms, Repeat(false, |tms|), null, 0)
    ensures Ran(env, before, after, tms, Repeat(false, |tms|), [])
  {
    hide Clocks, CaptureWrites;
  }

  lemma SameLevel(bits: byte, level: bool, n: nat)
    requires bits == (if level then 0x7f else 0x00) && n <= 7
    ensures LowBits(bits, n) == Repeat(level, n)
  {
    if level {
      assert Bit(0x7f, 0) && Bit(0x7f, 1) && Bit(0x7f, 2) && Bit(0x7f, 3);
      assert Bit(0x7f, 4) && Bit(0x7f, 5) && Bit(0x7f, 6);
    } else {
      forall k: nat ensures !Bit(0, k) {
        ZeroBit(k);
      }
    }
  }

  /** A command without data. */
  lemma StepOfRun(env: Env, short: bool, before: Trace, after: Trace, m0: Moment, cmd: Command, m1: Moment)
    requires Survives(m0.state, cmd) && !cmd.Scan?
    requires m0.total == before.total && m0.owed == before.Owed(env) && m1.total == after.total
    requires m1.owed == after.Owed(env)
    requires m1.state == CommandState(m0.state, cmd) && m1.endState == CommandEnd(m0.state, m0.endState, cmd)
    requires m1.memory == m0.memory
    requires var clocks := CommandClocks(short, m0.state, TmsPin(env, m0.total), cmd, []);
      Ran(env, before, after, clocks.0, clocks.1, [])
    ensures Step(env, short, m0, cmd, [], m1)
  {
    hide CommandClocks, CaptureWrites, TmsPin, Clocks, CommandState, CommandEnd, Survives;
    assert m0.owed + [] == m0.owed;
  }

  ghost predicate LegalSoFar(s: State, path: seq<State>, k: nat)
    requires k <= |path|
  {
    forall i :: 0 <= i < k ==> LegalStep(PathState(s, path, i), path[i])
  }

  lemma PathBegins(s: State, path: seq<State>, zero: seq<byte>)
    ensures PathState(s, path, 0) == s && LegalSoFar(s, path, 0)
    ensures |zero| == 1 ==> BufBits(zero, 0, 0) == PathTms(s, path)[0..0]
    ensures PathTms(s, path)[..0] == Repeat(false, 0) == []
  {
  }

  lemma PathStepBit(s: State, path: seq<State>, k: nat)
    requires k < |path| && LegalSoFar(s, path, k)
    ensures var cur := PathState(s, path, k);
      && (LegalSoFar(s, path, k + 1) <==> LegalStep(cur, path[k]))
      && (!LegalSoFar(s, path, k + 1) ==> !LegalPath(s, path))
      && PathState(s, path, k + 1) == path[k]
      && PathTms(s, path)[k] == (Next(cur, false) != path[k])
  {
    hide Next, LegalStep;
  }

  lemma PathWhole(s: State, path: seq<State>)
    requires LegalSoFar(s, path, |path|)
    ensures LegalPath(s, path) && PathEnd(s, path) == PathState(s, path, |path|)
    ensures PathTms(s, path)[..|path|] == PathTms(s, path)
  {
    hide LegalStep, PathState;
  }

  /** The pending steps have been clocked. */
  lemma PathChunk(env: Env, before: Trace, mid: Trace, after: Trace, tms: seq<bool>, from: nat, to: nat,
                  bits: seq<byte>)
    requires from <= to <= |tms| && |bits| == 1 && to - from <= 8
    requires Ran(env, before, mid, tms[..from], Repeat(false, from), [])
    requires BufBits(bits, 0, to - from) == tms[from..to]
    requires Requested(env, mid, after, BufBits([bits[0]], 0, to - from), Repeat(false, to - from), null, 0)
    ensures Ran(env, before, after, tms[..to], Repeat(false, to), [])
  {
    hide Ran, Requested, BufBits;
    assert bits == [bits[0]];
    PlainRun(env, mid, after, tms[from..to]);
    RanPlainJoin(env, before, mid, after, tms[..from], tms[from..to]);
    assert tms[..from] + tms[from..to] == tms[..to];
  }

  /** The two levels of TMS on the way from a shift state to its pause state. */
  lemma TmsOne()
    ensures BufBits([0x01], 0, 1) == [true] && BufBits([0x01], 1, 1) == [false]
  {
    assert Bit(0x01, 0) && !Bit(0x01, 1);
  }

  lemma SliceSnoc(s: seq<bool>, lo: nat, hi: nat)
    requires lo <= hi < |s|
    ensures s[lo..hi + 1] == s[lo..hi] + [s[hi]]
  {
  }

  lemma EmptyScan(env: Env, short: bool, m: Moment, ir: bool, fields: seq<Field>, end: State)
    requires Trimmed(fields) == []
    ensures Survives(m.state, Scan(ir, fields, end)) && Step(env, short, m, Scan(ir, fields, end), [], m)
  {
    hide Trimmed;
    assert Clocks([], []) == [] && m.total + [] == m.total;
  }

  /** A move to a shift state leaves TMS low. */
  lemma HeldAfterMove(env: Env, acts: seq<Action>, short: bool, s: State, ir: bool)
    requires IsStable(s)
    ensures var move := MoveTms(short, s, ShiftState(ir));
      TmsPin(env, acts + Clocks(move, Repeat(false, |move|))) == (TmsPin(env, acts) && s == ShiftState(ir))
  {
    hide TmsPin, TdiPin, Clocks, Path, Walk;
    var move := MoveTms(short, s, ShiftState(ir));
    PinsAfterClocks(env, acts, move, Repeat(false, |move|));
    if s != ShiftState(ir) {
      PathReaches(short, s, ShiftState(ir));
      WalkEntry(s, move);
    }
  }

  lemma ScanPieces(short: bool, s: State, held: bool, ir: bool, bits: seq<bool>, end: State)
    requires IsStable(s) && IsStable(end)
    ensures var leave := end != ShiftState(ir);
      var move1, move2 := MoveTms(short, s, ShiftState(ir)), MoveTms(short, AfterData(ir, end), end);
      && ScanTms(short, s, held, ir, |bits|, end) == move1 + (PhaseTms(held && s == ShiftState(ir), |bits|,
                                                                       leave) + move2)
      && ScanTdi(short, s, ir, bits, end) == Repeat(false, |move1|) + (PhaseTdi(bits, leave) + Repeat(false, |move2|))
  {
    hide Path, Last, DataTms, Repeat;
    var leave, n := end != ShiftState(ir), |bits|;
    if leave {
      var move := MoveTms(short, PauseState(ir), end);
      ghost var data := DataTms(held && s == ShiftState(ir), n, leave);
      assert data + ([false] + move) == data + [false] + move;
      assert bits + ([Last(bits)] + Repeat(false, |move|)) == bits + [Last(bits)] + Repeat(false, |move|);
    } else {
      assert MoveTms(short, AfterData(ir, end), end) == [] && Repeat(false, 0) == [];
    }
  }

  lemma ScanTotal(env: Env, short: bool, acts0: seq<Action>, acts1: seq<Action>, acts2: seq<Action>, acts3: seq<Action>,
                  s: State, ir: bool,
                  bits: seq<bool>, end: State)
    requires IsStable(s) && IsStable(end)
    requires var move := MoveTms(short, s, ShiftState(ir)); acts1 == acts0 + Clocks(move, Repeat(false, |move|))
    requires var leave := end != ShiftState(ir);
      acts2 == acts1 + Clocks(PhaseTms(TmsPin(env, acts1), |bits|, leave), PhaseTdi(bits, leave))
    requires var move := MoveTms(short, AfterData(ir, end), end); acts3 == acts2 + Clocks(move, Repeat(false, |move|))
    ensures var tms, tdi := ScanTms(short, s, TmsPin(env, acts0), ir, |bits|, end), ScanTdi(short, s, ir, bits, end);
      |tms| == |tdi| && acts3 == acts0 + Clocks(tms, tdi)
  {
    hide TmsPin, Clocks, MoveTms, PhaseTms, PhaseTdi, ScanTms, ScanTdi;
    var held, leave := TmsPin(env, acts1), end != ShiftState(ir);
    HeldAfterMove(env, acts0, short, s, ir);
    ScanPieces(short, s, TmsPin(env, acts0), ir, bits, end);
    var move1, move2 := MoveTms(short, s, ShiftState(ir)), MoveTms(short, AfterData(ir, end), end);
    var zeros1, zeros2 := Repeat(false, |move1|), Repeat(false, |move2|);
    ClocksConcat(PhaseTms(held, |bits|, leave), PhaseTdi(bits, leave), move2, zeros2);
    ClocksConcat(move1, zeros1, PhaseTms(held, |bits|, leave) + move2, PhaseTdi(bits, leave) + zeros2);
  }

  /** The pieces of a scan make the scan. */
  lemma StepOfScan(env: Env, short: bool, t0: Trace, t1: Trace, t2: Trace, t3: Trace, m0: Moment, ir: bool,
                   fields: seq<Field>, end: State,
                   bits: seq<bool>, m1: Moment)
    requires IsStable(m0.state) && IsStable(end) && Trimmed(fields) != []
    requires m0.total == t0.total && m0.owed == t0.Owed(env) && m1.total == t3.total && m1.owed == t3.Owed(env)
    requires m1.state == m1.endState == end && m1.memory == m0.memory
    requires var move := MoveTms(short, m0.state, ShiftState(ir)); Ran(env, t0, t1, move, Repeat(false, |move|), [])
    requires Shifted(env, m0.memory, t1, t2, Trimmed(fields), bits, end != ShiftState(ir))
    requires var move := MoveTms(short, AfterData(ir, end), end); Ran(env, t2, t3, move, Repeat(false, |move|), [])
    ensures Step(env, short, m0, Scan(ir, fields, end), bits, m1)
  {
    hide TmsPin, Clocks, MoveTms, PhaseTms, PhaseTdi, ScanTms, ScanTdi, Carries, FieldWrites, Trimmed, TotalBits;
    hide CaptureWrites;
    var used := Trimmed(fields);
    ScanTotal(env, short, t0.total, t1.total, t2.total, t3.total, m0.state, ir, bits, end);
    var move := MoveTms(short, AfterData(ir, end), end);
    FieldWritesExtend(env, t2.total, Clocks(move, Repeat(false, |move|)), used, |t1.total|);
    var none: seq<Write> := [];
    assert t1.Owed(env) == t0.Owed(env) + none == t0.Owed(env);
    assert t3.Owed(env) == t2.Owed(env) + none == t2.Owed(env);
  }

  lemma RunsMore(env: Env, short: bool, cmds: seq<Command>, i: nat, moments: seq<Moment>, data: seq<seq<bool>>,
                 bits: seq<bool>, now: Moment)
    requires i < |cmds| && |moments| == i + 1 && |data| == i
    requires Runs(env, short, cmds[..i], moments, data)
    requires Survives(moments[i].state, cmds[i]) && Step(env, short, moments[i], cmds[i], bits, now)
    ensures Runs(env, short, cmds[..i + 1], moments + [now], data + [bits])
  {
    hide Step, Survives;
  }

  /** The flushes over USB that a queue takes on a device just opened, if all of them succeed. */
  function QueueJobs(packetSize: nat, cmds: seq<Command>): seq<Job>
    requires packetSize > 2
  {
    AllAsked(OpenSizes(packetSize), 0, 0, QueueAsks(true, TestLogicReset, cmds) + [AskFlush]).jobs
  }

  /** Each of them moves between one byte and a full buffer of 16 KiB; so an obliging bus serves them. */
  lemma QueueJobsFit(packetSize: nat, cmds: seq<Command>)
    requires packetSize > 2
    ensures forall j :: j in QueueJobs(packetSize, cmds) ==> Within(j, 16384, 16384)
  {
    hide Within, AllAsked, QueueAsks;
    QueueIsShort(true, TestLogicReset, cmds);
    AskedBounded(OpenSizes(packetSize), 0, 0, QueueAsks(true, TestLogicReset, cmds) + [AskFlush]);
  }

  lemma QueueJobsServed(usb: nat -> UsbRun, packetSize: nat, cmds: seq<Command>)
    requires packetSize > 2 && forall i :: usb(i) == Obliging(16384, 16384)
    ensures AllServed(usb, 0, QueueJobs(packetSize, cmds))
  {
    hide Within, AllAsked, AllServed, QueueAsks;
    QueueIsShort(true, TestLogicReset, cmds);
    var s, asks := OpenSizes(packetSize), QueueAsks(true, TestLogicReset, cmds) + [AskFlush];
    AskedBounded(s, 0, 0, asks);
    ObligingServesAll(usb, s, 0, AllAsked(s, 0, 0, asks));
  }

  /** What a queue leaves behind: the device has done what the commands say, each scan has shifted exactly its
      data, these are what the buffers hold, the TAP waits as many clocks as it is told to, and after each
      JTAG_TLR_RESET the follower agrees with it. */
  ghost predicate WellRun(env: Env, cmds: seq<Command>, m: Memory, moments: seq<Moment>, data: seq<seq<bool>>, rc: int,
                          device: seq<Action>) {
    && rc == ERROR_OK && Runs(env, true, cmds, moments, data)
    && moments[0] == Moment([], [], TestLogicReset, TestLogicReset, m) && moments[|cmds|].total == device
    && InSyncAfterReset(env, cmds, moments) && ScansAreExact(env, cmds, moments, data)
    && FieldsAreSent(cmds, m, moments[|cmds|].owed, data) && WaitsAreExact(env, cmds, moments)
  }

  /** A queue of commands on a device just opened, with a target behind it in any state. The process exits
      exactly if a command is refused, which the commands decide. Otherwise, if libusb serves the flushes
      that they take, the run is what the commands say and the caller's buffers hold what that run owes
      them. A bus that always serves is enough in any case. */
  method UseFtdi(env: Env, usb: nat -> UsbRun, chip: ChipType, packetSize: nat, jtagMode: byte, cmds: seq<Command>,
                 ghost m: Memory)
    returns (rc: int, ftdi: FtdiDriver, ghost moments: seq<Moment>, ghost data: seq<seq<bool>>)
    requires packetSize > 2 && LsbMode(jtagMode)
    requires m.log == [] && Kept(m, []) && m.targets == AllTargets(cmds) && m.targets + AllSources(cmds) <= m.held.Keys
    requires forall c :: c in cmds ==> CommandFits(c)
    modifies m.targets
    ensures fresh(ftdi) && fresh(ftdi.ctx) && ftdi.ctx.Valid() && ftdi.ctx.env == env && ftdi.ctx.usb == usb
    ensures ftdi.exited <==> !SurvivesAll(TestLogicReset, cmds)
    ensures SurvivesAll(TestLogicReset, cmds) && AllServed(usb, 0, QueueJobs(packetSize, cmds)) ==>
      && ftdi.ctx.trace.jobs == QueueJobs(packetSize, cmds)
      && WellRun(env, cmds, m, moments, data, rc, ftdi.ctx.device)
      && (forall a :: a in m.targets ==> a[..] == Stored(a, m.held[a], moments[|cmds|].owed))
      && FieldsHold(env, cmds, moments)
    ensures SurvivesAll(TestLogicReset, cmds) && (forall i :: usb(i) == Obliging(16384, 16384)) ==>
      && WellRun(env, cmds, m, moments, data, rc, ftdi.ctx.device)
      && (forall a :: a in m.targets ==> a[..] == Stored(a, m.held[a], moments[|cmds|].owed))
      && FieldsHold(env, cmds, moments)
  {
    hide LsbMode, Clocks, CaptureWrites, Stored, Runs, Succeeds, InSyncAfterReset, ScansAreExact, CommandFits;
    hide AllTargets, AllSources, SurvivesAll, QueueAsks;
    hide AllAsked, AllServed, Within, QueueJobs, WellRun, FieldsHold;
    var ctx := new Context(env, usb, chip, packetSize);
    ftdi := new FtdiDriver(ctx, jtagMode);
    NoCaptures(env, []);
    ghost var none: seq<Write> := [];
    assert none + none == none;
    FreshlyOpened(usb, packetSize, cmds);
    rc, moments, data := ftdi.ExecuteQueue(cmds, m);
    if forall i :: usb(i) == Obliging(16384, 16384) {
      QueueJobsServed(usb, packetSize, cmds);
    }
    if !ftdi.exited && AllServed(usb, 0, QueueJobs(packetSize, cmds)) {
      RunIsWell(env, cmds, m, moments, data, rc, ctx.device);
      assert ctx.trace.log[0..] == ctx.trace.log;
      FieldsAreHeld(env, cmds, moments, data, m);
    }
  }

  /** Field `j` of command `i` is read. */
  ghost predicate HasBuffer(cmds: seq<Command>, i: int, j: int) {
    0 <= i < |cmds| && cmds[i].Scan? && 0 <= j < |Trimmed(cmds[i].fields)| && Trimmed(cmds[i].fields)[j].into != null
  }

  ghost function Buffer(cmds: seq<Command>, i: int, j: int): array<byte>
    requires HasBuffer(cmds, i, j)
  {
    Trimmed(cmds[i].fields)[j].into
  }

  /** Its buffer holds what TDO showed at the clocks that sent the field. */
  ghost predicate FieldHolds(env: Env, cmds: seq<Command>, moments: seq<Moment>, i: int, j: int)
    requires |moments| == |cmds| + 1 && HasBuffer(cmds, i, j)
    reads Buffer(cmds, i, j)
  {
    var fields, held, total := Trimmed(cmds[i].fields), Buffer(cmds, i, j)[..], moments[i + 1].total;
    && IsStable(moments[i].state)
    && var from := DataStart(true, moments[i], cmds[i].irScan) + TotalBits(fields[..j]);
    && from + fields[j].numBits <= |total| && fields[j].numBits <= 8 * |held|
    && forall b :: 0 <= b < fields[j].numBits ==> BufBit(held, b) == env.tdo(total[..from + b + 1])
  }

  /** So does every buffer that is used for one field only. */
  ghost predicate FieldsHold(env: Env, cmds: seq<Command>, moments: seq<Moment>)
    requires |moments| == |cmds| + 1
    reads set i, j | 0 <= i < |cmds| && cmds[i].Scan? && 0 <= j < |cmds[i].fields| && HasBuffer(cmds, i, j) ::
      Buffer(cmds, i, j)
  {
    forall i, j :: HasBuffer(cmds, i, j) && OnlyField(cmds, i, j, Buffer(cmds, i, j)) ==>
      FieldHolds(env, cmds, moments, i, j)
  }

  lemma BufferIsTarget(cmds: seq<Command>, i: int, j: int)
    requires HasBuffer(cmds, i, j) && forall c :: c in cmds ==> CommandFits(c)
    ensures Buffer(cmds, i, j) in AllTargets(cmds)
    ensures Trimmed(cmds[i].fields)[j].numBits <= 8 * Buffer(cmds, i, j).Length
  {
    hide Trimmed;
    var f := Trimmed(cmds[i].fields)[j];
    assert f in cmds[i].fields && f.into in Targets(cmds[i]) && cmds[i] in cmds;
  }

  lemma FieldIsHeld(env: Env, cmds: seq<Command>, moments: seq<Moment>, data: seq<seq<bool>>, i: int, j: int,
                    s: seq<byte>)
    requires Runs(env, true, cmds, moments, data) && moments[0].owed == []
    requires HasBuffer(cmds, i, j) && OnlyField(cmds, i, j, Buffer(cmds, i, j))
    requires |s| == Buffer(cmds, i, j).Length && Trimmed(cmds[i].fields)[j].numBits <= 8 * |s|
    requires Buffer(cmds, i, j)[..] == Stored(Buffer(cmds, i, j), s, moments[|cmds|].owed)
    ensures FieldHolds(env, cmds, moments, i, j)
  {
    hide Step, Survives, Trimmed, Stored, DataStart, TotalBits, BufBit, IsStable, OnlyField;
    var fields, a := Trimmed(cmds[i].fields), Buffer(cmds, i, j);
    FieldHasRoom(env, true, cmds, moments, data, i, j);
    var from := DataStart(true, moments[i], cmds[i].irScan) + TotalBits(fields[..j]);
    forall b | 0 <= b < fields[j].numBits ensures BufBit(a[..], b) == env.tdo(moments[i + 1].total[..from + b + 1]) {
      FieldInRun(env, true, cmds, moments, data, i, j, a, s, b);
    }
  }

  lemma FieldsAreHeld(env: Env, cmds: seq<Command>, moments: seq<Moment>, data: seq<seq<bool>>,
                      m: Memory)
    requires Runs(env, true, cmds, moments, data) && moments[0].owed == [] && forall c :: c in cmds ==> CommandFits(c)
    requires m.targets == AllTargets(cmds) <= m.held.Keys
    requires forall a :: a in m.targets ==> a[..] == Stored(a, m.held[a], moments[|cmds|].owed)
    ensures FieldsHold(env, cmds, moments)
  {
    hide Step, Survives, OnlyField, Stored, FieldHolds, CommandFits, AllTargets, Trimmed;
    forall i, j | HasBuffer(cmds, i, j) && OnlyField(cmds, i, j, Buffer(cmds, i, j))
      ensures FieldHolds(env, cmds, moments, i, j)
    {
      BufferIsTarget(cmds, i, j);
      FieldIsHeld(env, cmds, moments, data, i, j, m.held[Buffer(cmds, i, j)]);
    }
  }

  lemma FreshlyOpened(usb: nat -> UsbRun, packetSize: nat, cmds: seq<Command>)
    requires packetSize > 2
    ensures var s, b, asks := OpenSizes(packetSize), Point([], true, 0, 0),
                              QueueAsks(true, TestLogicReset, cmds) + [AskFlush];
      && (Met(usb, s, b, asks) <==> AllServed(usb, 0, QueueJobs(packetSize, cmds)))
      && Reached(s, b, asks).jobs == QueueJobs(packetSize, cmds)
  {
    hide AllServed, AllAsked, QueueAsks;
    assert [] + QueueJobs(packetSize, cmds) == QueueJobs(packetSize, cmds);
  }

  lemma RunIsWell(env: Env, cmds: seq<Command>, m: Memory, moments: seq<Moment>, data: seq<seq<bool>>, rc: int,
                  device: seq<Action>)
    requires rc == ERROR_OK && Runs(env, true, cmds, moments, data) && m.log == []
    requires moments[0] == Moment([], [], TestLogicReset, TestLogicReset, m) && moments[|cmds|].total == device
    ensures WellRun(env, cmds, m, moments, data, rc, device)
  {
    hide Runs, InSyncAfterReset, ScansAreExact, FieldsAreSent, WaitsAreExact;
    AllInSync(env, cmds, moments, data);
    AllExact(env, cmds, moments, data);
    AllSent(env, cmds, moments, data);
    AllWait(env, cmds, moments, data);
  }

  ghost predicate WaitsAreExact(env: Env, cmds: seq<Command>, moments: seq<Moment>)
    requires |moments| == |cmds| + 1
  {
    forall i :: 0 <= i < |cmds| && Synced(env, moments[i].total, moments[i].state) ==>
      WaitDone(true, moments[i], cmds[i], moments[i + 1])
  }

  lemma AllWait(env: Env, cmds: seq<Command>, moments: seq<Moment>, data: seq<seq<bool>>)
    requires Runs(env, true, cmds, moments, data)
    ensures WaitsAreExact(env, cmds, moments)
  {
    hide Step, Synced, Survives, WaitDone;
    forall i | 0 <= i < |cmds| && Synced(env, moments[i].total, moments[i].state)
      ensures WaitDone(true, moments[i], cmds[i], moments[i + 1])
    {
      WaitIsDone(env, true, moments[i], cmds[i], data[i], moments[i + 1]);
    }
  }

  /** Field `j` of command `i` is sent from a buffer. */
  ghost predicate HasSource(cmds: seq<Command>, i: int, j: int) {
    0 <= i < |cmds| && cmds[i].Scan? && 0 <= j < |Trimmed(cmds[i].fields)| && Trimmed(cmds[i].fields)[j].out != null
  }

  ghost predicate FieldsAreSent(cmds: seq<Command>, m: Memory, ws: seq<Write>, data: seq<seq<bool>>)
    requires |cmds| == |data|
  {
    forall i, j :: HasSource(cmds, i, j) ==> SentAsHeld(cmds, m, ws, data, i, j)
  }

  lemma AllSent(env: Env, cmds: seq<Command>, moments: seq<Moment>, data: seq<seq<bool>>)
    requires Runs(env, true, cmds, moments, data) && moments[0].memory.log == moments[0].owed == []
    ensures |data| == |cmds| && |moments| == |cmds| + 1
    ensures FieldsAreSent(cmds, moments[0].memory, moments[|cmds|].owed, data)
  {
    hide Runs, SentAsHeld, Trimmed;
    RunLengths(env, cmds, moments, data);
    forall i, j | HasSource(cmds, i, j)
      ensures SentAsHeld(cmds, moments[0].memory, moments[|cmds|].owed, data, i, j)
    {
      FieldIsSent(env, true, cmds, moments, data, i, j);
    }
  }

  lemma RunLengths(env: Env, cmds: seq<Command>, moments: seq<Moment>, data: seq<seq<bool>>)
    requires Runs(env, true, cmds, moments, data)
    ensures |data| == |cmds| && |moments| == |cmds| + 1
  {
  }

  /** Between the commands number `r` and `i` there is none the follower is not told about. */
  ghost predicate TrackedBetween(cmds: seq<Command>, moments: seq<Moment>, r: nat, i: nat)
    requires |moments| == |cmds| + 1 && i <= |cmds|
  {
    forall j :: r < j < i ==> Tracked(moments[j].state, cmds[j])
  }

  ghost predicate InSyncAfterReset(env: Env, cmds: seq<Command>, moments: seq<Moment>)
    requires |moments| == |cmds| + 1
  {
    forall r, i ::
      0 <= r < i <= |cmds| && cmds[r] == TlrReset(TestLogicReset) && TrackedBetween(cmds, moments, r, i) ==>
      Synced(env, moments[i].total, moments[i].state)
  }

  lemma AllInSync(env: Env, cmds: seq<Command>, moments: seq<Moment>, data: seq<seq<bool>>)
    requires Runs(env, true, cmds, moments, data)
    ensures InSyncAfterReset(env, cmds, moments)
  {
    hide Step, Synced, Survives, Tracked;
    forall r, i | 0 <= r < i <= |cmds| && cmds[r] == TlrReset(TestLogicReset) && TrackedBetween(cmds, moments, r, i)
      ensures Synced(env, moments[i].total, moments[i].state)
    {
      AlwaysInSync(env, true, cmds, moments, data, r, i);
    }
  }

  /** Every scan that starts with the follower in agreement with the TAP does what is promised of it. */
  ghost predicate ScansAreExact(env: Env, cmds: seq<Command>, moments: seq<Moment>, data: seq<seq<bool>>)
    requires |moments| == |cmds| + 1 && |data| == |cmds|
  {
    forall i :: 0 <= i < |cmds| && RealScan(cmds[i]) && Synced(env, moments[i].total, moments[i].state) ==>
      && IsStable(moments[i].state)
      && ScanDone(env, true, moments[i], cmds[i].irScan, Trimmed(cmds[i].fields), data[i], moments[i + 1])
  }

  lemma AllExact(env: Env, cmds: seq<Command>, moments: seq<Moment>, data: seq<seq<bool>>)
    requires Runs(env, true, cmds, moments, data)
    ensures ScansAreExact(env, cmds, moments, data)
  {
    hide Step, Synced, Survives, ScanDone, Trimmed, IsStable;
    forall i | 0 <= i < |cmds| && RealScan(cmds[i]) && Synced(env, moments[i].total, moments[i].state)
      ensures IsStable(moments[i].state)
      ensures ScanDone(env, true, moments[i], cmds[i].irScan, Trimmed(cmds[i].fields), data[i], moments[i + 1])
    {
      ScanInRun(env, true, cmds, moments, data, i);
    }
  }
}
