/** inc/shift_reg.hpp and inc/jtag_tap_controller.hpp: the JTAG TAP simulator. */
module Tap {
  import opened Bits
  import opened MpsseDevice

  /** The `n` low bits of `data`. */
  function LowBits(data: nat, n: nat): (r: seq<bool>)
    ensures |r| == n
  {
    seq(n, i requires 0 <= i < n => Bit(data, i))
  }

  /** Loading a value and reading it back keeps its `n` low bits. */
  lemma LoadThenVal(data: nat, n: nat)
    ensures forall k :: 0 <= k < n ==> Bit(FromBits(LowBits(data, n)), k) == Bit(data, k)
    ensures data < Pow2(n) ==> FromBits(LowBits(data, n)) == data
  {
    forall k | 0 <= k < n ensures Bit(FromBits(LowBits(data, n)), k) == Bit(data, k) {
      FromBitsBit(LowBits(data, n), k);
    }
    if data < Pow2(n) {
      SameBits(FromBits(LowBits(data, n)), data, n);
    }
  }

  class ShiftReg {
    const arr: array<bool>

    constructor (n: nat)
      requires n > 0
      ensures fresh(arr) && arr.Length == n && arr[..] == LowBits(0, n)
    {
      var a := new bool[n](_ => false);
      arr := a;
      new;
      forall i | 0 <= i < n ensures arr[i] == Bit(0, i) {
        ZeroBit(i);
      }
      assert arr[..] == LowBits(0, n);
    }

    method Shift(bit: bool) returns (out: bool)
      requires arr.Length > 0
      modifies arr
      ensures out == old(arr[0])
      ensures arr[..] == old(arr[1..]) + [bit]
    {
      ghost var before := arr[..];
      out := arr[0];
      // std::rotate by one; the first bit, which that moves to the end, is overwritten there.
      for i := 0 to arr.Length - 1
        invariant forall k :: 0 <= k < i ==> arr[k] == before[k + 1]
        invariant forall k :: i <= k < arr.Length ==> arr[k] == before[k]
      {
        arr[i] := arr[i + 1];
      }
      arr[arr.Length - 1] := bit;
    }

    method Load(data: nat)
      modifies arr
      ensures arr[..] == LowBits(data, arr.Length)
    {
      for i := 0 to arr.Length
        invariant forall k :: 0 <= k < i ==> arr[k] == Bit(data, k)
      {
        arr[i] := Bit(data, i);
      }
    }

    method Val() returns (v: nat)
      ensures v == FromBits(arr[..])
    {
      v := 0;
      assert arr[arr.Length..] == [];
      for i := 0 to arr.Length
        invariant v == FromBits(arr[arr.Length - i..])
      {
        v := 2 * v + Bits.Val(arr[arr.Length - 1 - i]);
        assert arr[arr.Length - 1 - i..][1..] == arr[arr.Length - i..];
      }
    }
  }

  datatype State =
    | TestLogicReset | RunTestIdle | SelectDrScan | SelectIrScan
    | CaptureDr | ShiftDr | Exit1Dr | PauseDr | Exit2Dr | UpdateDr
    | CaptureIr | ShiftIr | Exit1Ir | PauseIr | Exit2Ir | UpdateIr

  /** `jtag_tap_next_state` */
  function Next(s: State, tms: bool): State {
    match s
    case TestLogicReset => if tms then TestLogicReset else RunTestIdle
    case RunTestIdle => if tms then SelectDrScan else RunTestIdle
    case SelectDrScan => if tms then SelectIrScan else CaptureDr
    case CaptureDr => if tms then Exit1Dr else ShiftDr
    case ShiftDr => if tms then Exit1Dr else ShiftDr
    case Exit1Dr => if tms then UpdateDr else PauseDr
    case PauseDr => if tms then Exit2Dr else PauseDr
    case Exit2Dr => if tms then UpdateDr else ShiftDr
    case UpdateDr => if tms then SelectDrScan else RunTestIdle
    case SelectIrScan => if tms then TestLogicReset else CaptureIr
    case CaptureIr => if tms then Exit1Ir else ShiftIr
    case ShiftIr => if tms then Exit1Ir else ShiftIr
    case Exit1Ir => if tms then UpdateIr else PauseIr
    case PauseIr => if tms then Exit2Ir else PauseIr
    case Exit2Ir => if tms then UpdateIr else ShiftIr
    case UpdateIr => if tms then SelectDrScan else RunTestIdle
  }

  datatype Instr =
    | SamplePreload | Extest | Bypass | UserCode | IdCode | HighZ | Clamp | PulseNConfig | ConfigIo
    | Lock | Unlock | KeyClrVreg | KeyVerify | ExtestPulse | ExtestTrain | Unknown1 | Unknown2

  /** `instr_from_bits` */
  function InstrFromBits(val: nat): Instr {
    if val == 0x005 then SamplePreload
    else if val == 0x00f then Extest
    else if val == 0x3ff then Bypass
    else if val == 0x007 then UserCode
    else if val == 0x006 then IdCode
    else if val == 0x00b then HighZ
    else if val == 0x00a then Clamp
    else if val == 0x001 then PulseNConfig
    else if val == 0x00d then ConfigIo
    else if val == 0x1f0 then Lock
    else if val == 0x331 then Unlock
    else if val == 0x029 then KeyClrVreg
    else if val == 0x013 then KeyVerify
    else if val == 0x08f then ExtestPulse
    else if val == 0x04f then ExtestTrain
    else if val == 0x002 then Unknown1
    else if val == 0x004 then Unknown2
    else Bypass
  }

  const IDCODE_VALUE: nat := 0x029070DD
  const IR_CAPTURE: nat := 0x155

  /** The controller's registers as values; index 0 of a register is shifted out first. */
  datatype Registers = Registers(state: State, instr: Instr, ir: seq<bool>, dr: seq<bool>, bypass: seq<bool>,
                                 bitCounter: nat)
  {
    predicate Sized() { |ir| == 10 && |dr| == 32 && |bypass| == 1 }
  }

  /** One clock: the new registers and TDO. */
  function Clocked(t: Registers, tms: bool, tdi: bool): (r: (Registers, bool))
    requires t.Sized()
    ensures r.0.Sized() && r.0.state == Next(t.state, tms)
  {
    var next := t.(state := Next(t.state, tms));
    match t.state
    case TestLogicReset => (next.(instr := IdCode), true)
    case CaptureDr =>
      if t.instr == IdCode then (next.(dr := LowBits(IDCODE_VALUE, 32)), true)
      else if t.instr == Bypass then (next.(bypass := LowBits(1, 1)), true)
      else (next, true)
    case ShiftDr =>
      if t.instr == IdCode then (next.(dr := t.dr[1..] + [tdi]), t.dr[0])
      else if t.instr == Bypass then (next.(bypass := t.bypass[1..] + [tdi]), t.bypass[0])
      else if t.instr == Unknown1 then (next.(bitCounter := (t.bitCounter + 1) % 0x1_0000_0000), true)
      else (next, true)
    case CaptureIr => (next.(ir := LowBits(IR_CAPTURE, 10)), true)
    case ShiftIr => (next.(ir := t.ir[1..] + [tdi]), t.ir[0])
    case UpdateIr => (next.(instr := InstrFromBits(FromBits(t.ir))), true)
    case _ => (next, true)
  }

  class TapController {
    var state: State
    var instr: Instr
    const ir: ShiftReg
    const dr: ShiftReg
    const bypass: ShiftReg
    var bitCounter: nat

    ghost predicate Valid()
      reads this
    {
      ir.arr.Length == 10 && dr.arr.Length == 32 && bypass.arr.Length == 1
      && ir.arr != dr.arr && ir.arr != bypass.arr && dr.arr != bypass.arr
    }

    ghost function Value(): Registers
      reads this, ir.arr, dr.arr, bypass.arr
    {
      Registers(state, instr, ir.arr[..], dr.arr[..], bypass.arr[..], bitCounter)
    }

    constructor ()
      ensures Valid() && fresh(ir.arr) && fresh(dr.arr) && fresh(bypass.arr)
      ensures Value() == PowerOn() && state == TestLogicReset && instr == IdCode && bitCounter == 0
    {
      state, instr, bitCounter := TestLogicReset, IdCode, 0;
      ir := new ShiftReg(10);
      dr := new ShiftReg(32);
      bypass := new ShiftReg(1);
    }

    method Step(tms: bool, tdi: bool) returns (tdo: bool)
      requires Valid()
      modifies this, ir.arr, dr.arr, bypass.arr
      ensures Valid()
      ensures (Value(), tdo) == Clocked(old(Value()), tms, tdi)
    {
      hide FromBits, LowBits;
      var nxtState := Next(state, tms);
      tdo := true;
      match state {
        case TestLogicReset =>
          instr := IdCode;
        case CaptureDr =>
          if instr == IdCode {
            dr.Load(IDCODE_VALUE);
          } else if instr == Bypass {
            bypass.Load(1);
          }
        case ShiftDr =>
          if instr == IdCode {
            tdo := dr.Shift(tdi);
          } else if instr == Bypass {
            tdo := bypass.Shift(tdi);
          } else if instr == Unknown1 {
            bitCounter := (bitCounter + 1) % 0x1_0000_0000;
          }
        case CaptureIr =>
          ir.Load(IR_CAPTURE);
        case ShiftIr =>
          tdo := ir.Shift(tdi);
        case UpdateIr =>
          var v := ir.Val();
          instr := InstrFromBits(v);
        case _ =>
      }
      state := nxtState;
    }
  }

  function PowerOn(): (t: Registers)
    ensures t.Sized()
  {
    Registers(TestLogicReset, IdCode, LowBits(0, 10), LowBits(0, 32), LowBits(0, 1), 0)
  }

  /** The registers after the clocks among `acts`. */
  function After(t: Registers, acts: seq<Action>): (r: Registers)
    requires t.Sized()
    ensures r.Sized()
  {
    if acts == [] then t
    else
      var before := After(t, acts[..|acts| - 1]);
      match acts[|acts| - 1]
      case Clock(tms, tdi) => Clocked(before, tms, tdi).0
      case _ => before
  }

  /** TDO at the last of `acts`. */
  function TdoAt(t: Registers, acts: seq<Action>): bool
    requires t.Sized()
  {
    if acts == [] then true
    else
      match acts[|acts| - 1]
      case Clock(tms, tdi) => Clocked(After(t, acts[..|acts| - 1]), tms, tdi).1
      case _ => true
  }

  /** One more action. */
  lemma Snoc(t: Registers, acts: seq<Action>, a: Action)
    requires t.Sized()
    ensures a.Clock? ==> (After(t, acts + [a]), TdoAt(t, acts + [a])) == Clocked(After(t, acts), a.tms, a.tdi)
    ensures !a.Clock? ==> After(t, acts + [a]) == After(t, acts) && TdoAt(t, acts + [a])
  {
    hide Clocked;
    assert (acts + [a])[..|acts|] == acts;
  }

  lemma {:induction false} AfterConcat(t: Registers, acts: seq<Action>, more: seq<Action>)
    requires t.Sized()
    ensures After(t, acts + more) == After(After(t, acts), more)
    decreases |more|
  {
    if more == [] {
      assert acts + more == acts;
    } else {
      var k := |more| - 1;
      assert (acts + more)[..|acts| + k] == acts + more[..k];
      AfterConcat(t, acts, more[..k]);
    }
  }

  /** The TDI bits sampled in state `s`, in order. */
  function Ins(t: Registers, acts: seq<Action>, s: State): seq<bool>
    requires t.Sized()
  {
    if acts == [] then []
    else
      var before := acts[..|acts| - 1];
      match acts[|acts| - 1]
      case Clock(_, tdi) => if After(t, before).state == s then Ins(t, before, s) + [tdi] else Ins(t, before, s)
      case _ => Ins(t, before, s)
  }

  /** The TDO bits shown in state `s`, in order. */
  function Outs(t: Registers, acts: seq<Action>, s: State): seq<bool>
    requires t.Sized()
  {
    if acts == [] then []
    else
      var before := acts[..|acts| - 1];
      match acts[|acts| - 1]
      case Clock(_, _) =>
        if After(t, before).state == s then Outs(t, before, s) + [TdoAt(t, acts)] else Outs(t, before, s)
      case _ => Outs(t, before, s)
  }

  /** No clock falls in any of the states `ss`. */
  predicate Avoids(t: Registers, acts: seq<Action>, ss: set<State>)
    requires t.Sized()
  {
    acts == []
    || (var before := acts[..|acts| - 1];
        Avoids(t, before, ss) && !(acts[|acts| - 1].Clock? && After(t, before).state in ss))
  }

  lemma DelayStep(outs: seq<bool>, reg: seq<bool>, reg0: seq<bool>, ins: seq<bool>, tdi: bool)
    requires |reg| > 0 && outs + reg == reg0 + ins
    ensures (outs + [reg[0]]) + (reg[1..] + [tdi]) == reg0 + (ins + [tdi])
  {
    assert (outs + [reg[0]]) + (reg[1..] + [tdi]) == (outs + reg) + [tdi];
  }

  /** Between captures the instruction register is a delay line: what came out followed by what is
      inside is what was inside followed by what went in, over any path through the state graph. */
  lemma {:induction false} IrDelayLine(t: Registers, acts: seq<Action>)
    requires t.Sized() && Avoids(t, acts, {CaptureIr})
    ensures Outs(t, acts, ShiftIr) + After(t, acts).ir == t.ir + Ins(t, acts, ShiftIr)
    decreases |acts|
  {
    if acts == [] {
      assert t.ir + [] == t.ir && [] + t.ir == t.ir;
    } else {
      var before := acts[..|acts| - 1];
      IrDelayLine(t, before);
      var mid := After(t, before);
      if acts[|acts| - 1].Clock? && mid.state == ShiftIr {
        DelayStep(Outs(t, before, ShiftIr), mid.ir, t.ir, Ins(t, before, ShiftIr), acts[|acts| - 1].tdi);
      }
    }
  }

  /** So is the data register the instruction selects; with any other instruction TDO stays 1. */
  lemma {:induction false} DrDelayLine(t: Registers, acts: seq<Action>)
    requires t.Sized() && Avoids(t, acts, {CaptureDr, UpdateIr, TestLogicReset})
    ensures After(t, acts).instr == t.instr
    ensures t.instr == IdCode ==> Outs(t, acts, ShiftDr) + After(t, acts).dr == t.dr + Ins(t, acts, ShiftDr)
    ensures t.instr == Bypass ==> Outs(t, acts, ShiftDr) + After(t, acts).bypass == t.bypass + Ins(t, acts, ShiftDr)
    ensures t.instr != IdCode && t.instr != Bypass ==> forall o :: o in Outs(t, acts, ShiftDr) ==> o
    decreases |acts|
  {
    hide Next, LowBits, InstrFromBits, FromBits;
    if acts == [] {
      assert t.dr + [] == t.dr && [] + t.dr == t.dr && t.bypass + [] == t.bypass && [] + t.bypass == t.bypass;
    } else {
      var before := acts[..|acts| - 1];
      DrDelayLine(t, before);
      var mid := After(t, before);
      if acts[|acts| - 1].Clock? && mid.state == ShiftDr {
        var outs, ins, tdi := Outs(t, before, ShiftDr), Ins(t, before, ShiftDr), acts[|acts| - 1].tdi;
        if t.instr == IdCode {
          DelayStep(outs, mid.dr, t.dr, ins, tdi);
        } else if t.instr == Bypass {
          DelayStep(outs, mid.bypass, t.bypass, ins, tdi);
        }
      }
    }
  }

  lemma {:induction false} FirstClock(t: Registers, acts: seq<Action>, s: State)
    requires t.Sized() && |acts| > 0 && acts[0].Clock? && t.state != s
    ensures var t1 := Clocked(t, acts[0].tms, acts[0].tdi).0;
      && Ins(t, acts, s) == Ins(t1, acts[1..], s) && Outs(t, acts, s) == Outs(t1, acts[1..], s)
      && After(t, acts) == After(t1, acts[1..])
    decreases |acts|
  {
    hide Clocked;
    var t1 := Clocked(t, acts[0].tms, acts[0].tdi).0;
    var n := |acts| - 1;
    if n == 0 {
      assert acts[..0] == [] && acts[1..] == [];
    } else {
      FirstClock(t, acts[..n], s);
      assert acts[..n][1..] == acts[1..][..n - 1];
    }
  }

  /** What Capture-IR loads: ones and zeros in turn, a one first. */
  lemma CapturePattern()
    ensures LowBits(IR_CAPTURE, 10) == [true, false, true, false, true, false, true, false, true, false]
  {
    hide FromBits, Bit;
    var bits := [true, false, true, false, true, false, true, false, true, false];
    TenBits(bits);
    forall k | 0 <= k < 10 ensures LowBits(IR_CAPTURE, 10)[k] == bits[k] {
      FromBitsBit(bits, k);
    }
  }

  /** The number that ten bits spell, the first one being the least. */
  lemma TenBits(b: seq<bool>)
    requires |b| == 10
    ensures FromBits(b) == Bits.Val(b[0]) + 2 * Bits.Val(b[1]) + 4 * Bits.Val(b[2]) + 8 * Bits.Val(b[3])
                         + 16 * Bits.Val(b[4]) + 32 * Bits.Val(b[5]) + 64 * Bits.Val(b[6]) + 128 * Bits.Val(b[7])
                         + 256 * Bits.Val(b[8]) + 512 * Bits.Val(b[9])
  {
    FiveBits(b);
    FiveBits(b[5..]);
    assert b[5..][5..] == [] && FromBits([]) == 0;
  }

  lemma FiveBits(b: seq<bool>)
    requires |b| >= 5
    ensures FromBits(b) == Bits.Val(b[0]) + 2 * Bits.Val(b[1]) + 4 * Bits.Val(b[2]) + 8 * Bits.Val(b[3])
                         + 16 * Bits.Val(b[4]) + 32 * FromBits(b[5..])
  {
    assert b[1..][1..] == b[2..] && b[2..][1..] == b[3..] && b[3..][1..] == b[4..] && b[4..][1..] == b[5..];
    assert FromBits(b) == Bits.Val(b[0]) + 2 * FromBits(b[1..]);
    assert FromBits(b[1..]) == Bits.Val(b[1]) + 2 * FromBits(b[2..]);
    assert FromBits(b[2..]) == Bits.Val(b[2]) + 2 * FromBits(b[3..]);
    assert FromBits(b[3..]) == Bits.Val(b[3]) + 2 * FromBits(b[4..]);
    assert FromBits(b[4..]) == Bits.Val(b[4]) + 2 * FromBits(b[5..]);
  }

  /** An IR scan: from Capture-IR on, with any detours, the bits shifted out are the capture pattern
      and then the TDI bits ten clocks late, and the register holds the last ten of that stream. */
  lemma IrScan(t: Registers, acts: seq<Action>)
    requires t.Sized() && t.state == CaptureIr && |acts| > 0 && acts[0].Clock?
    requires Avoids(Clocked(t, acts[0].tms, acts[0].tdi).0, acts[1..], {CaptureIr})
    ensures var outs, ins := Outs(t, acts, ShiftIr), Ins(t, acts, ShiftIr);
      var stream := [true, false, true, false, true, false, true, false, true, false] + ins;
      && |outs| == |ins| && outs == stream[..|ins|] && After(t, acts).ir == stream[|ins|..]
      && (|ins| >= 10 ==> After(t, acts).ir == ins[|ins| - 10..])
  {
    var t1 := Clocked(t, acts[0].tms, acts[0].tdi).0;
    CapturePattern();
    FirstClock(t, acts, ShiftIr);
    IrDelayLine(t1, acts[1..]);
    var outs, ins, ir := Outs(t, acts, ShiftIr), Ins(t, acts, ShiftIr), After(t, acts).ir;
    SplitStream(outs, ir, LowBits(IR_CAPTURE, 10), ins);
  }

  lemma SplitStream(outs: seq<bool>, reg: seq<bool>, captured: seq<bool>, ins: seq<bool>)
    requires |reg| == |captured| && outs + reg == captured + ins
    ensures |outs| == |ins| && outs == (captured + ins)[..|ins|] && reg == (captured + ins)[|ins|..]
    ensures |ins| >= |reg| ==> reg == ins[|ins| - |reg|..]
  {
    assert |outs + reg| == |captured + ins|;
    assert (outs + reg)[..|outs|] == outs && (outs + reg)[|outs|..] == reg;
  }

  /** The codes of the instructions, each of them for this instruction only; everything else is BYPASS. */
  lemma InstructionCodes(code: nat)
    ensures var instr := InstrFromBits(code);
      && (instr == SamplePreload <==> code == 0x005) && (instr == Extest <==> code == 0x00f)
      && (instr == UserCode <==> code == 0x007) && (instr == IdCode <==> code == 0x006)
      && (instr == HighZ <==> code == 0x00b) && (instr == Clamp <==> code == 0x00a)
      && (instr == PulseNConfig <==> code == 0x001) && (instr == ConfigIo <==> code == 0x00d)
      && (instr == Lock <==> code == 0x1f0) && (instr == Unlock <==> code == 0x331)
      && (instr == KeyClrVreg <==> code == 0x029) && (instr == KeyVerify <==> code == 0x013)
      && (instr == ExtestPulse <==> code == 0x08f) && (instr == ExtestTrain <==> code == 0x04f)
      && (instr == Unknown1 <==> code == 0x002) && (instr == Unknown2 <==> code == 0x004)
      && (instr == Bypass <==> code !in {0x005, 0x00f, 0x007, 0x006, 0x00b, 0x00a, 0x001, 0x00d,
                                            0x1f0, 0x331, 0x029, 0x013, 0x08f, 0x04f, 0x002, 0x004})
  {
  }

  /** After at least ten shifts, Update-IR selects what the last ten TDI bits spell. */
  lemma UpdateDecodesLastTen(t: Registers, acts: seq<Action>, tms: bool, tdi: bool)
    requires t.Sized() && t.state == CaptureIr && |acts| > 0 && acts[0].Clock?
    requires Avoids(Clocked(t, acts[0].tms, acts[0].tdi).0, acts[1..], {CaptureIr})
    requires After(t, acts).state == UpdateIr && |Ins(t, acts, ShiftIr)| >= 10
    ensures var code := FromBits(Ins(t, acts, ShiftIr)[|Ins(t, acts, ShiftIr)| - 10..]);
      var instr := After(t, acts + [Clock(tms, tdi)]).instr;
      && (instr == SamplePreload <==> code == 0x005) && (instr == Extest <==> code == 0x00f)
      && (instr == UserCode <==> code == 0x007) && (instr == IdCode <==> code == 0x006)
      && (instr == HighZ <==> code == 0x00b) && (instr == Clamp <==> code == 0x00a)
      && (instr == PulseNConfig <==> code == 0x001) && (instr == ConfigIo <==> code == 0x00d)
      && (instr == Lock <==> code == 0x1f0) && (instr == Unlock <==> code == 0x331)
      && (instr == KeyClrVreg <==> code == 0x029) && (instr == KeyVerify <==> code == 0x013)
      && (instr == ExtestPulse <==> code == 0x08f) && (instr == ExtestTrain <==> code == 0x04f)
      && (instr == Unknown1 <==> code == 0x002) && (instr == Unknown2 <==> code == 0x004)
      && (instr == Bypass <==> code !in {0x005, 0x00f, 0x007, 0x006, 0x00b, 0x00a, 0x001, 0x00d,
                                            0x1f0, 0x331, 0x029, 0x013, 0x08f, 0x04f, 0x002, 0x004})
  {
    hide InstrFromBits, FromBits, After, Clocked, Ins, Outs, Avoids;
    IrScan(t, acts);
    Snoc(t, acts, Clock(tms, tdi));
    UpdateClock(After(t, acts), tms, tdi);
    InstructionCodes(FromBits(After(t, acts).ir));
  }

  lemma UpdateClock(u: Registers, tms: bool, tdi: bool)
    requires u.Sized() && u.state == UpdateIr
    ensures Clocked(u, tms, tdi).0.instr == InstrFromBits(FromBits(u.ir))
  {
    hide InstrFromBits, FromBits;
  }

  /** A DR scan with IDCODE or BYPASS selected, likewise: 32 or 1 clocks late. */
  lemma DrScan(t: Registers, acts: seq<Action>)
    requires t.Sized() && t.state == CaptureDr && |acts| > 0 && acts[0].Clock?
    requires Avoids(Clocked(t, acts[0].tms, acts[0].tdi).0, acts[1..], {CaptureDr, UpdateIr, TestLogicReset})
    ensures var outs, ins := Outs(t, acts, ShiftDr), Ins(t, acts, ShiftDr);
      && (t.instr == IdCode ==> outs == (LowBits(0x029070DD, 32) + ins)[..|ins|])
      && (t.instr == Bypass ==> outs == ([true] + ins)[..|ins|])
  {
    var t1 := Clocked(t, acts[0].tms, acts[0].tdi).0;
    FirstClock(t, acts, ShiftDr);
    DrDelayLine(t1, acts[1..]);
    var outs, ins := Outs(t, acts, ShiftDr), Ins(t, acts, ShiftDr);
    if t.instr == IdCode {
      SplitStream(outs, After(t, acts).dr, LowBits(IDCODE_VALUE, 32), ins);
    } else if t.instr == Bypass {
      SplitStream(outs, After(t, acts).bypass, LowBits(1, 1), ins);
      assert Bit(1, 0) && LowBits(1, 1) == [true];
    }
  }

  /** Nothing but shifting shows anything but a one. */
  lemma TdoElsewhere(t: Registers, acts: seq<Action>, tms: bool, tdi: bool)
    requires t.Sized() && After(t, acts).state != ShiftDr && After(t, acts).state != ShiftIr
    ensures TdoAt(t, acts + [Clock(tms, tdi)])
  {
    hide After, InstrFromBits, LowBits, FromBits;
    Snoc(t, acts, Clock(tms, tdi));
  }

  /** The bits shifted in with the instruction for downloading are counted, modulo 2 to the 32; no others are. */
  lemma {:induction false} BitsAreCounted(t: Registers, acts: seq<Action>)
    requires t.Sized() && t.bitCounter < 0x1_0000_0000 && Avoids(t, acts, {UpdateIr, TestLogicReset})
    ensures After(t, acts).instr == t.instr
    ensures After(t, acts).bitCounter
         == if t.instr == Unknown1 then (t.bitCounter + |Ins(t, acts, ShiftDr)|) % 0x1_0000_0000 else t.bitCounter
    decreases |acts|
  {
    hide Clocked;
    if acts != [] {
      var before := acts[..|acts| - 1];
      BitsAreCounted(t, before);
      match acts[|acts| - 1]
      case Clock(tms, tdi) => CountedOnce(After(t, before), tms, tdi);
      case _ =>
    }
  }

  lemma CountedOnce(u: Registers, tms: bool, tdi: bool)
    requires u.Sized() && u.state != UpdateIr && u.state != TestLogicReset
    ensures var v := Clocked(u, tms, tdi).0;
      && v.instr == u.instr
      && v.bitCounter == if u.instr == Unknown1 && u.state == ShiftDr then (u.bitCounter + 1) % 0x1_0000_0000
                         else u.bitCounter
  {
    hide Next, LowBits, InstrFromBits, FromBits;
  }

  /** An IR scan and a DR scan: from Capture-IR over Update-IR to Capture-DR and on, whatever the detours. With 0x006
      as the last ten bits of the first, the second reads the identification and then what goes in; with 0x3ff
      it reads what goes in one clock late. */
  lemma IrThenDr(t: Registers, scan: seq<Action>, tms: bool, tdi: bool, way: seq<Action>, acts: seq<Action>)
    requires t.Sized() && t.state == CaptureIr && |scan| > 0 && scan[0].Clock?
    requires Avoids(Clocked(t, scan[0].tms, scan[0].tdi).0, scan[1..], {CaptureIr})
    requires After(t, scan).state == UpdateIr && |Ins(t, scan, ShiftIr)| >= 10
    requires var u := After(t, scan + [Clock(tms, tdi)]);
      && Avoids(u, way, {UpdateIr, TestLogicReset})
      && var v := After(u, way);
      && v.state == CaptureDr && |acts| > 0 && acts[0].Clock?
      && Avoids(Clocked(v, acts[0].tms, acts[0].tdi).0, acts[1..], {CaptureDr, UpdateIr, TestLogicReset})
    ensures var v := After(After(t, scan + [Clock(tms, tdi)]), way);
      var code := FromBits(Ins(t, scan, ShiftIr)[|Ins(t, scan, ShiftIr)| - 10..]);
      var outs, ins := Outs(v, acts, ShiftDr), Ins(v, acts, ShiftDr);
      && (code == 0x006 ==> outs == (LowBits(0x029070DD, 32) + ins)[..|ins|])
      && (code == 0x3ff ==> outs == ([true] + ins)[..|ins|])
  {
    hide Clocked, After, Ins, Outs, Avoids, LowBits, FromBits;
    UpdateDecodesLastTen(t, scan, tms, tdi);
    var u := After(t, scan + [Clock(tms, tdi)]);
    InstructionStays(u, way);
    DrScan(After(u, way), acts);
  }

  lemma {:induction false} InstructionStays(t: Registers, acts: seq<Action>)
    requires t.Sized() && Avoids(t, acts, {UpdateIr, TestLogicReset})
    ensures After(t, acts).instr == t.instr
    decreases |acts|
  {
    hide Next, LowBits, InstrFromBits, FromBits;
    if acts != [] {
      InstructionStays(t, acts[..|acts| - 1]);
    }
  }

  /** The target behind the cable is a TAP that had registers `t0` at power-on. */
  ghost predicate Drives(env: Env, t0: Registers)
    requires t0.Sized()
  {
    forall acts :: env.tdo(acts) == TdoAt(t0, acts)
  }

  lemma TdoLater(t0: Registers, done: seq<Action>, part: seq<Action>)
    requires t0.Sized() && part != []
    ensures TdoAt(t0, done + part) == TdoAt(After(t0, done), part)
  {
    hide Clocked, After, TdoAt;
    var p, x := part[..|part| - 1], part[|part| - 1];
    assert part == p + [x];
    assert done + part == (done + p) + [x];
    Snoc(t0, done + p, x);
    Snoc(After(t0, done), p, x);
    AfterConcat(t0, done, p);
  }
}
