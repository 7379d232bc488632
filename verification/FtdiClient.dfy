/** The whole stack at once: from a call of the queue executor to the register of the TAP and back. */
module FtdiClient {
  import opened Bits
  import opened MpsseDevice
  import opened ReadBack
  import opened ShiftCommands
  import opened Mpsse
  import opened Usb
  import opened Tap
  import opened Interface
  import opened JtagCommands
  import opened Ftdi
  import opened Target
  import opened Instructions

  /** Reset the TAP and scan 32 bits of the data register. */
  function IdcodeQueue(into: array<byte>): seq<Command> {
    [TlrReset(TestLogicReset), Scan(false, [Field(32, null, into)], RunTestIdle)]
  }

  lemma IdcodeQueueRuns(into: array<byte>)
    requires into.Length >= 4
    ensures forall c :: c in IdcodeQueue(into) ==> CommandFits(c)
    ensures AllTargets(IdcodeQueue(into)) == {into} && AllSources(IdcodeQueue(into)) == {}
    ensures Trimmed(IdcodeQueue(into)[1].fields) == [Field(32, null, into)]
    ensures SurvivesAll(TestLogicReset, IdcodeQueue(into)) && OnlyField(IdcodeQueue(into), 1, 0, into)
  {
    var cmds := IdcodeQueue(into);
    assert cmds[..0] == [] && cmds[..1] == [TlrReset(TestLogicReset)];
    assert cmds[..1][..0] == [];
    assert FoldState(TestLogicReset, cmds[..1]) == TestLogicReset;
    assert Field(32, null, into) in cmds[1].fields;
    assert Targets(cmds[0]) == {} && Targets(cmds[1]) == {into};
    assert Sources(cmds[0]) == {} && Sources(cmds[1]) == {};
    assert into in AllTargets(cmds);
  }

  /** On a new device, with a TAP in any state behind it, that reads the TAP's identification, if libusb serves the
      flushes. */
  method ReadIdcode(env: Env, ghost t0: Registers, usb: nat -> UsbRun, chip: ChipType, packetSize: nat, jtagMode: byte,
                    into: array<byte>)
    returns (rc: int)
    requires t0.Sized() && Drives(env, t0) && packetSize > 2 && LsbMode(jtagMode) && into.Length >= 4
    requires AllServed(usb, 0, QueueJobs(packetSize, IdcodeQueue(into)))
    modifies into
    ensures rc == ERROR_OK
    ensures into[..4] == [0xdd, 0x70, 0x90, 0x02]
  {
    hide LsbMode, Drives, AllServed, QueueJobs, Runs, BufBit, LowBits, Stored, OnlyField, FieldsHold, Survives;
    hide SurvivesAll;
    hide AllTargets, AllSources, CommandFits, Trimmed, InSyncAfterReset, ScansAreExact, FieldsAreSent, WaitsAreExact;
    var cmds := IdcodeQueue(into);
    IdcodeQueueRuns(into);
    ghost var m := Memory(map[into := into[..]], {into}, []);
    StoredNone(into, into[..]);
    var ftdi;
    ghost var moments, data;
    rc, ftdi, moments, data := UseFtdi(env, usb, chip, packetSize, jtagMode, cmds, m);
    IdcodeArrives(env, t0, cmds, moments, data, into, m.held[into], into[..]);
    IdcodeBytes(into[..]);
  }

  lemma IdcodeBytes(s: seq<byte>)
    requires |s| >= 4 && BufBits(s, 0, 32) == LowBits(0x029070DD, 32)
    ensures s[..4] == [0xdd, 0x70, 0x90, 0x02]
  {
    hide BufBits, LowBits;
    LoadThenVal(0x029070DD, 32);
    assert 0x029070DD < Pow2(32) by {
      PowMono(26, 32);
      assert Pow2(8) == 256 && Pow2(16) == 0x1_0000 && Pow2(24) == 0x100_0000 && Pow2(26) == 0x400_0000;
    }
    FourBytes(s);
    FourDigits(s[0], s[1], s[2], s[3]);
  }

  lemma FourDigits(a: byte, b: byte, c: byte, d: byte)
    requires a as int + 256 * b as int + 0x1_0000 * c as int + 0x100_0000 * d as int == 0x029070DD
    ensures a == 0xdd && b == 0x70 && c == 0x90 && d == 0x02
  {
  }

  lemma IdcodeArrives(env: Env, t0: Registers, cmds: seq<Command>, moments: seq<Moment>, data: seq<seq<bool>>,
                      into: array<byte>,
                      was: seq<byte>, held: seq<byte>)
    requires t0.Sized() && Drives(env, t0) && cmds == IdcodeQueue(into) && |was| == into.Length >= 4
    requires Runs(env, true, cmds, moments, data) && moments[0].owed == []
    requires held == Stored(into, was, moments[2].owed)
    ensures BufBits(held, 0, 32) == LowBits(0x029070DD, 32)
  {
    hide Drives, BufBit, LowBits, Stored, OnlyField, Survives, CommandActions, CommandEnd, Carries, FieldWrites;
    hide MoveTms, Trimmed;
    IdcodeQueueRuns(into);
    var fields := Trimmed(cmds[1].fields);
    assert fields[..0] == [];
    assert moments[1].state == TestLogicReset;
    forall b | 0 <= b < 32 ensures BufBits(held, 0, 32)[b] == LowBits(0x029070DD, 32)[b] {
      FieldReadsIdcode(env, t0, cmds, moments, data, 0, 1, 0, into, was, b);
    }
  }

  /** Reset the TAP, scan an instruction of ten bits, and scan `n` bits of the data register. */
  function SelectQueue(code: array<byte>, out: array<byte>, into: array<byte>, n: nat): (r: seq<Command>)
    ensures |r| == 3
  {
    [TlrReset(TestLogicReset), Scan(true, [Field(10, code, null)], RunTestIdle),
     Scan(false, [Field(n, out, into)], RunTestIdle)]
  }

  lemma SelectQueueBuffers(code: array<byte>, out: array<byte>, into: array<byte>, n: nat)
    ensures var cmds := SelectQueue(code, out, into, n);
      AllTargets(cmds) == {into} && AllSources(cmds) == {code, out}
  {
    var cmds := SelectQueue(code, out, into, n);
    assert Field(10, code, null) in cmds[1].fields && Field(n, out, into) in cmds[2].fields;
    assert Targets(cmds[0]) == {} && Targets(cmds[1]) == {} && Targets(cmds[2]) == {into};
    assert Sources(cmds[0]) == {} && Sources(cmds[1]) == {code} && Sources(cmds[2]) == {out};
    assert into in AllTargets(cmds) && code in AllSources(cmds) && out in AllSources(cmds);
  }

  lemma SelectQueueSurvives(code: array<byte>, out: array<byte>, into: array<byte>, n: nat)
    ensures SurvivesAll(TestLogicReset, SelectQueue(code, out, into, n))
  {
    hide Trimmed;
    var cmds := SelectQueue(code, out, into, n);
    assert cmds[..0] == [] && cmds[..1] == [cmds[0]] && cmds[..2] == [cmds[0], cmds[1]];
    assert cmds[..1][..0] == [] && cmds[..2][..1] == [cmds[0]];
    assert FoldState(TestLogicReset, cmds[..0]) == TestLogicReset;
    assert FoldState(TestLogicReset, cmds[..1]) == TestLogicReset;
    assert FoldState(TestLogicReset, cmds[..2])
        == if Trimmed(cmds[1].fields) == [] then TestLogicReset else RunTestIdle;
  }

  lemma SelectQueueRuns(code: array<byte>, out: array<byte>, into: array<byte>, n: nat)
    requires code.Length >= 2 && 0 < n <= 8 * out.Length && n <= 8 * into.Length
    ensures var cmds := SelectQueue(code, out, into, n);
      && (forall c :: c in cmds ==> CommandFits(c))
      && Trimmed(cmds[1].fields) == [Field(10, code, null)] && Trimmed(cmds[2].fields) == [Field(n, out, into)]
      && OnlyField(cmds, 2, 0, into) && NotReadBefore(cmds, 1, 0, code) && NotReadBefore(cmds, 2, 0, out)
  {
    hide Trimmed;
    var cmds := SelectQueue(code, out, into, n);
    UsedWhole(Field(10, code, null));
    UsedWhole(Field(n, out, into));
    assert Targets(cmds[0]) == {} && Targets(cmds[1]) == {};
  }

  lemma UsedWhole(f: Field)
    requires f.numBits > 0
    ensures Trimmed([f]) == [f] && TotalBits([f]) == f.numBits && TotalBits([]) == 0
  {
    assert [f][..0] == [];
  }

  /** What a DR scan of a new target reads after an instruction: with IDCODE its identification and then what is sent,
      with BYPASS what is sent one clock late. `out` and `into` may be the same. */
  method SelectAndRead(env: Env, ghost t0: Registers, usb: nat -> UsbRun, chip: ChipType, packetSize: nat,
                       jtagMode: byte, code: array<byte>, out: array<byte>, into: array<byte>, n: nat)
    returns (rc: int)
    requires t0.Sized() && Drives(env, t0) && packetSize > 2 && LsbMode(jtagMode)
    requires code.Length >= 2 && 0 < n <= 8 * out.Length && n <= 8 * into.Length
    requires AllServed(usb, 0, QueueJobs(packetSize, SelectQueue(code, out, into, n)))
    modifies into
    ensures rc == ERROR_OK
    ensures old(FromBits(BufBits(code[..], 0, 10))) == 0x006 ==>
      BufBits(into[..], 0, n) == (LowBits(0x029070DD, 32) + old(BufBits(out[..], 0, n)))[..n]
    ensures old(FromBits(BufBits(code[..], 0, 10))) == 0x3ff ==>
      BufBits(into[..], 0, n) == ([true] + old(BufBits(out[..], 0, n)))[..n]
  {
    hide LsbMode, Drives, AllServed, QueueJobs, Runs, BufBit, LowBits, Stored, OnlyField, FieldsHold, Survives;
    hide SurvivesAll, SelectQueue, FromBits, BufBits, NotReadBefore, Obliging;
    hide AllTargets, AllSources, CommandFits, Trimmed, InSyncAfterReset, ScansAreExact, FieldsAreSent, WaitsAreExact;
    hide Kept;
    var cmds := SelectQueue(code, out, into, n);
    SelectQueueRuns(code, out, into, n);
    SelectQueueBuffers(code, out, into, n);
    SelectQueueSurvives(code, out, into, n);
    ghost var m := Memory(map a: array<byte> | a in {code, out, into} :: a[..], {into}, []);
    assert Kept(m, []) by { NothingStored(m); }
    var ftdi;
    ghost var moments, data;
    rc, ftdi, moments, data := UseFtdi(env, usb, chip, packetSize, jtagMode, cmds, m);
    SelectedArrives(env, t0, m, moments, data, code, out, into, n, into[..]);
  }

  lemma NothingStored(m: Memory)
    requires m.log == [] && forall a :: a in m.held ==> m.held[a] == a[..]
    ensures Kept(m, [])
  {
    hide Stored;
    forall a | a in m.held ensures a[..] == Later(a, m.held[a], m.targets, []) {
      StoredNone(a, m.held[a]);
    }
  }

  lemma SelectedArrives(env: Env, t0: Registers, m: Memory, moments: seq<Moment>, data: seq<seq<bool>>,
                        code: array<byte>, out: array<byte>, into: array<byte>, n: nat, held: seq<byte>)
    requires t0.Sized() && Drives(env, t0) && code.Length >= 2 && 0 < n <= 8 * out.Length && n <= 8 * into.Length
    requires code in m.held && out in m.held && into in m.held
    requires |m.held[code]| == code.Length && |m.held[out]| == out.Length && |m.held[into]| == into.Length
    requires var cmds := SelectQueue(code, out, into, n);
      && Runs(env, true, cmds, moments, data) && moments[0] == Moment([], [], TestLogicReset, TestLogicReset, m)
      && FieldsAreSent(cmds, m, moments[3].owed, data) && held == Stored(into, m.held[into], moments[3].owed)
    ensures FromBits(BufBits(m.held[code], 0, 10)) == 0x006 ==>
      BufBits(held, 0, n) == (LowBits(0x029070DD, 32) + BufBits(m.held[out], 0, n))[..n]
    ensures FromBits(BufBits(m.held[code], 0, 10)) == 0x3ff ==>
      BufBits(held, 0, n) == ([true] + BufBits(m.held[out], 0, n))[..n]
  {
    hide Drives, BufBit, LowBits, Stored, OnlyField, Survives, CommandActions, CommandEnd, Carries, FieldWrites;
    hide MoveTms, Trimmed, FromBits, TotalBits, NotReadBefore, HeldOnTheWay, SurvivesAll, Path, StateAfter, TmsPin;
    var cmds := SelectQueue(code, out, into, n);
    SelectQueueRuns(code, out, into, n);
    UsedWhole(Field(10, code, null));
    UsedWhole(Field(n, out, into));
    assert Trimmed(cmds[1].fields)[..0] == [] && Trimmed(cmds[2].fields)[..0] == [];
    assert HasSource(cmds, 1, 0) && HasSource(cmds, 2, 0);
    DataOfOne(env, cmds, moments, data, 1);
    DataOfOne(env, cmds, moments, data, 2);
    assert SentAsHeld(cmds, m, moments[3].owed, data, 1, 0) && SentAsHeld(cmds, m, moments[3].owed, data, 2, 0);
    assert data[1] == BufBits(m.held[code], 0, 10) && data[2] == BufBits(m.held[out], 0, n);
    assert data[1][|data[1]| - 10..] == data[1];
    StepGainsSync(env, true, moments[0], data[0], moments[1]);
    forall b | 0 <= b < n
      ensures FromBits(data[1]) == 0x006 ==> BufBits(held, 0, n)[b] == (LowBits(0x029070DD, 32) + data[2])[..n][b]
      ensures FromBits(data[1]) == 0x3ff ==> BufBits(held, 0, n)[b] == ([true] + data[2])[..n][b]
    {
      FieldReadsAsSelected(env, t0, cmds, moments, data, 1, 2, 0, into, m.held[into], b);
    }
  }

  /** A scan of one field sends as many bits as that has. */
  lemma DataOfOne(env: Env, cmds: seq<Command>, moments: seq<Moment>, data: seq<seq<bool>>, i: nat)
    requires Runs(env, true, cmds, moments, data) && i < |cmds| && cmds[i].Scan? && |Trimmed(cmds[i].fields)| == 1
    ensures |data[i]| == Trimmed(cmds[i].fields)[0].numBits
  {
    hide CommandActions, CommandState, CommandEnd, FieldWrites, Trimmed, MoveTms, IsStable, Carries;
    var fields := Trimmed(cmds[i].fields);
    assert Step(env, true, moments[i], cmds[i], data[i], moments[i + 1]);
    CarriesLength(moments[i].memory, moments[i].owed, moments[i + 1].owed, fields, data[i]);
    assert fields[..0] == [];
  }
}
