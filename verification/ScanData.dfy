/** The data phase of a scan, field by field: what has been clocked and which TDO bits are owed. */
module ScanData {
  import opened Bits
  import opened MpsseDevice
  import opened ReadBack
  import opened ShiftCommands
  import opened Mpsse
  import opened JtagCommands

  /** TMS and TDI of `bits` and, when they are the last and the shift state is left with them, of the
      clock to the pause state. */
  function PhaseTms(held: bool, n: nat, left: bool): (r: seq<bool>)
    ensures |r| == n + if left then 1 else 0
  {
    DataTms(held, n, left) + (if left then [false] else [])
  }

  function PhaseTdi(bits: seq<bool>, left: bool): (r: seq<bool>)
    ensures |r| == |bits| + if left then 1 else 0
  {
    bits + (if left then [Last(bits)] else [])
  }

  /** One field has been clocked. */
  ghost predicate FieldDone(env: Env, m: Memory, before: Trace, after: Trace, f: Field, bits: seq<bool>, left: bool) {
    && FieldCarried(m, Clean(m, before.Owed(env), f.out), after.Owed(env), f, bits)
    && after.total == before.total + Clocks(PhaseTms(TmsPin(env, before.total), |bits|, left), PhaseTdi(bits, left))
    && after.Owed(env) == before.Owed(env) + FieldRun(env, after.total, f, |before.total|)
  }

  /** So have the fields `fields`. */
  ghost predicate Shifted(env: Env, m: Memory, before: Trace, after: Trace, fields: seq<Field>, bits: seq<bool>,
                          left: bool) {
    && Carries(m, before.Owed(env), after.Owed(env), fields, bits)
    && after.total == before.total + Clocks(PhaseTms(TmsPin(env, before.total), |bits|, left), PhaseTdi(bits, left))
    && |before.total| + TotalBits(fields) <= |after.total|
    && after.Owed(env) == before.Owed(env) + FieldWrites(env, after.total, fields, |before.total|)
  }

  lemma ShiftedNothing(env: Env, m: Memory, t: Trace)
    ensures Shifted(env, m, t, t, [], [], false)
  {
    hide CaptureWrites;
    assert t.total + Clocks([], []) == t.total;
    assert t.Owed(env) + [] == t.Owed(env);
    assert PhaseTms(TmsPin(env, t.total), 0, false) == [] && PhaseTdi([], false) == [];
  }

  lemma PhaseConcat(held: bool, n: nat, bits: seq<bool>, more: seq<bool>, left: bool)
    requires n == |bits| && (left ==> more != [])
    ensures PhaseTms(held, n, false) + PhaseTms(held, |more|, left) == PhaseTms(held, n + |more|, left)
    ensures PhaseTdi(bits, false) + PhaseTdi(more, left) == PhaseTdi(bits + more, left)
  {
    if left {
      assert Last(bits + more) == Last(more);
      assert Repeat(held, n) + Repeat(held, |more| - 1) == Repeat(held, n + |more| - 1);
    }
  }

  /** The clocks of the field after those. */
  lemma TotalGrows(env: Env, acts0: seq<Action>, acts1: seq<Action>, acts2: seq<Action>, bits: seq<bool>,
                   more: seq<bool>, left: bool)
    requires left ==> more != []
    requires acts1 == acts0 + Clocks(PhaseTms(TmsPin(env, acts0), |bits|, false), PhaseTdi(bits, false))
    requires acts2 == acts1 + Clocks(PhaseTms(TmsPin(env, acts1), |more|, left), PhaseTdi(more, left))
    ensures acts2 == acts0 + Clocks(PhaseTms(TmsPin(env, acts0), |bits + more|, left), PhaseTdi(bits + more, left))
  {
    hide Clocks, TmsPin, PhaseTms, PhaseTdi;
    var held := TmsPin(env, acts0);
    StillHeld(env, acts0, bits);
    ClocksConcat(PhaseTms(held, |bits|, false), PhaseTdi(bits, false), PhaseTms(held, |more|, left),
                 PhaseTdi(more, left));
    PhaseConcat(held, |bits|, bits, more, left);
  }

  /** The writes of the field after those. */
  lemma WritesGrow(env: Env, acts1: seq<Action>, acts2: seq<Action>, fields: seq<Field>, i: nat, from: nat)
    requires i < |fields| && acts1 <= acts2
    requires from + TotalBits(fields[..i]) == |acts1| && |acts1| + fields[i].numBits <= |acts2|
    ensures from + TotalBits(fields[..i + 1]) <= |acts2|
    ensures FieldWrites(env, acts2, fields[..i + 1], from)
         == FieldWrites(env, acts1, fields[..i], from) + FieldRun(env, acts2, fields[i], |acts1|)
  {
    hide FieldRun, TotalBits, FieldWrites;
    assert acts2 == acts1 + acts2[|acts1|..];
    FieldWritesExtend(env, acts1, acts2[|acts1|..], fields[..i], from);
    assert fields[..i + 1] == fields[..i] + [fields[i]];
    FieldWritesSnoc(env, acts2, fields[..i], fields[i], from);
  }

  /** The field after those. */
  lemma ShiftedMore(env: Env, m: Memory, before: Trace, mid: Trace, after: Trace, fields: seq<Field>, i: nat,
                    bits: seq<bool>, more: seq<bool>, left: bool)
    requires i < |fields| && (left ==> more != [])
    requires Shifted(env, m, before, mid, fields[..i], bits, false)
    requires FieldDone(env, m, mid, after, fields[i], more, left)
    ensures Shifted(env, m, before, after, fields[..i + 1], bits + more, left)
  {
    hide CaptureWrites, Clocks, TmsPin, PhaseTms, PhaseTdi, Carries, FieldCarried, FieldWrites, FieldRun, TotalBits;
    hide Clean, Unread;
    var owed, mids := before.Owed(env), mid.Owed(env);
    CarriesLength(m, owed, mids, fields[..i], bits);
    CarriedLength(m, Clean(m, mids, fields[i].out), after.Owed(env), fields[i], more);
    StillClean(env, m, owed, mid.total, fields, i, |before.total|);
    CarriedIfUnread(m, Clean(m, mids, fields[i].out), Unread(m, owed, fields, i), after.Owed(env), fields[i], more);
    CarriesOneMore(m, owed, mids, after.Owed(env), fields, i, bits, more);
    TotalGrows(env, before.total, mid.total, after.total, bits, more, left);
    WritesGrow(env, mid.total, after.total, fields, i, |before.total|);
  }

  lemma CarriedIfUnread(m: Memory, clean: bool, unread: bool, ws: seq<Write>, f: Field, bits: seq<bool>)
    requires FieldCarried(m, clean, ws, f, bits) && (unread ==> clean)
    ensures FieldCarried(m, unread, ws, f, bits)
  {
    hide HeldOnTheWay;
  }

  /** The fields before do not write to a buffer that they are not read into. */
  lemma StillClean(env: Env, m: Memory, owed: seq<Write>, acts: seq<Action>, fields: seq<Field>, i: nat, from: nat)
    requires i < |fields| && from + TotalBits(fields[..i]) <= |acts|
    ensures Unread(m, owed, fields, i) ==>
      Clean(m, owed + FieldWrites(env, acts, fields[..i], from), fields[i].out)
  {
    hide FieldWrites, Clean, TotalBits;
    if Unread(m, owed, fields, i) {
      WritesAreClean(env, acts, fields[..i], from, fields[i].out);
      StaysClean(m, owed, FieldWrites(env, acts, fields[..i], from), fields[i].out);
    }
  }

  lemma StillHeld(env: Env, acts: seq<Action>, bits: seq<bool>)
    ensures var held := TmsPin(env, acts);
      TmsPin(env, acts + Clocks(PhaseTms(held, |bits|, false), PhaseTdi(bits, false))) == held
  {
    hide TmsPin, TdiPin, Clocks;
    var held := TmsPin(env, acts);
    PinsAfterClocks(env, acts, PhaseTms(held, |bits|, false), PhaseTdi(bits, false));
  }

  /** A field clocked by one `mpsse_clock_data`. */
  lemma FieldAtOnce(env: Env, m: Memory, before: Trace, after: Trace, f: Field, bits: seq<bool>)
    requires FieldCarried(m, Clean(m, before.Owed(env), f.out), after.Owed(env), f, bits)
    requires Requested(env, before, after, Repeat(TmsPin(env, before.total), |bits|), bits, f.into, 0)
    ensures FieldDone(env, m, before, after, f, bits, false)
  {
    hide CaptureWrites, Clocks, TmsPin, Samples, WriteRun, FieldCarried, Clean;
    CarriedLength(m, Clean(m, before.Owed(env), f.out), after.Owed(env), f, bits);
    var held := TmsPin(env, before.total);
    assert PhaseTms(held, |bits|, false) == Repeat(held, |bits|) && PhaseTdi(bits, false) == bits;
    assert after.total[..|before.total| + f.numBits] == after.total;
  }

  /** The last bit of a field goes with the first of two TMS clocks. */
  lemma FieldInThree(env: Env, m: Memory, t0: Trace, t1: Trace, t2: Trace, t3: Trace, f: Field, front: seq<bool>,
                     last: bool)
    requires FieldCarried(m, Clean(m, t0.Owed(env), f.out), t1.Owed(env), f, front + [last])
    requires Requested(env, t0, t1, Repeat(TmsPin(env, t0.total), |front|), front, f.into, 0)
    requires Requested(env, t1, t2, [true], [last], f.into, |front|)
    requires Requested(env, t2, t3, [false], [last], null, 0)
    ensures FieldDone(env, m, t0, t3, f, front + [last], true)
  {
    hide CaptureWrites, Clocks, TmsPin, Samples, WriteRun, FieldCarried, Clean, PhaseTms, PhaseTdi;
    var clean := Clean(m, t0.Owed(env), f.out);
    CarriedLength(m, clean, t1.Owed(env), f, front + [last]);
    CarriedStill(m, clean, t1.Owed(env), t3.Owed(env), f, front + [last]);
    var held, bits := TmsPin(env, t0.total), front + [last];
    RequestedJoin(env, t0, t1, t2, Repeat(held, |front|), front, [true], [last], f.into, 0, |front|);
    PhaseInThree(held, front, last);
    assert t3.total == t0.total + (Clocks(Repeat(held, |front|) + [true], bits) + Clocks([false], [last]));
    assert t3.total[..|t0.total| + f.numBits] == t2.total;
  }

  lemma PhaseInThree(held: bool, front: seq<bool>, last: bool)
    ensures var bits := front + [last];
      Clocks(Repeat(held, |front|) + [true], bits) + Clocks([false], [last])
        == Clocks(PhaseTms(held, |bits|, true), PhaseTdi(bits, true))
  {
    hide Clocks;
    var bits := front + [last];
    ClocksConcat(Repeat(held, |front|) + [true], bits, [false], [last]);
    assert PhaseTms(held, |bits|, true) == Repeat(held, |front|) + [true] + [false];
    assert PhaseTdi(bits, true) == bits + [last];
  }

  /** What one `mpsse_clock_data` sends for a field. `held` is what its `out` holds before. */
  lemma SentIsCarried(env: Env, m: Memory, before: Trace, after: Trace, f: Field, held: seq<byte>, pin: bool,
                      sent: seq<bool>)
    requires m.log <= before.log <= after.log && |sent| == f.numBits
    requires f.out != null ==>
      && f.out in m.held && held == Later(f.out, m.held[f.out], m.targets, before.log[|m.log|..])
      && HeldOnTheWay(f.out, held, 0, m.targets, after.log[|before.log|..], sent)
    requires Undisturbed(before.caps, f.out, 0, f.into, 0, f.numBits) ==>
      sent == if f.out != null && f.numBits <= 8 * |held| then BufBits(held, 0, f.numBits)
              else Repeat(f.into != null && pin, f.numBits)
    ensures FieldCarried(m, Clean(m, before.Owed(env), f.out), after.Owed(env), f, sent)
  {
    hide BufBits, CaptureWrites;
    if f.out != null {
      var was, since := m.held[f.out], after.log[|before.log|..];
      HeldSince(f.out, was, 0, m.targets, before.log[|m.log|..], since, sent);
      assert before.log[|m.log|..] + since == after.log[|m.log|..];
      HeldStill(f.out, was, 0, m.targets, after.log[|m.log|..], after.Owed(env)[|m.log|..], sent);
      if Clean(m, before.Owed(env), f.out) {
        CleanIsUndisturbed(env, m, before, f.out, f.into, f.numBits);
      }
    }
  }

  /** Nothing has been or will be stored in a buffer that none of the writes owed is to. */
  lemma CleanIsUndisturbed(env: Env, m: Memory, t: Trace, a: array<byte>, into: array?<byte>, n: nat)
    requires m.log <= t.log && a in m.held && Clean(m, t.Owed(env), a)
    ensures Later(a, m.held[a], m.targets, t.log[|m.log|..]) == m.held[a]
    ensures Undisturbed(t.caps, a, 0, into, 0, n)
  {
    hide OutputBit;
    var since := t.Owed(env)[|m.log|..];
    assert since == t.log[|m.log|..] + t.Unstored(env);
    StoredElsewhere(a, m.held[a], t.log[|m.log|..]);
    forall c | c in t.caps ensures c.cell.buf != a {
      var k :| 0 <= k < |t.caps| && t.caps[k] == c;
      assert t.Unstored(env)[k] in since;
    }
  }

  /** Its bits: those before the last, and the last picked out by a bit copy, zero without `out`. */
  lemma LastBit(env: Env, m: Memory, t0: Trace, t1: Trace, f: Field, front: seq<bool>, tms: seq<bool>, last: bool,
                held: seq<byte>)
    requires f.numBits > 0 && m.log <= t0.log <= t1.log
    requires FieldCarried(m, Clean(m, t0.Owed(env), f.out), t1.Owed(env), Field(f.numBits - 1, f.out, f.into), front)
    requires |tms| == |front| && Requested(env, t0, t1, tms, front, f.into, 0)
    requires f.out != null ==>
      && held == Later(f.out, m.held[f.out], m.targets, t1.log[|m.log|..]) && f.numBits <= 8 * |held|
    requires last == (f.out != null && BufBit(held, f.numBits - 1))
    ensures FieldCarried(m, Clean(m, t0.Owed(env), f.out), t1.Owed(env), f, front + [last])
  {
    hide CaptureWrites, BufBit, Samples, Clocks, HeldOnTheWay;
    if f.out != null {
      var was, n := m.held[f.out], f.numBits - 1;
      assert t1.log[|m.log|..] <= t1.Owed(env)[|m.log|..];
      HeldOneMore(f.out, was, 0, m.targets, t1.log[|m.log|..], t1.Owed(env)[|m.log|..], front, last);
      if Clean(m, t0.Owed(env), f.out) {
        LastIsUntouched(env, m, t0, t1, f, front, tms);
        assert BufBits(was, 0, f.numBits) == BufBits(was, 0, n) + [BufBit(was, n)];
      }
    }
  }

  /** The bits before it may have been read back by then, into the same buffer, but not the last. */
  lemma LastIsUntouched(env: Env, m: Memory, t0: Trace, t1: Trace, f: Field, front: seq<bool>, tms: seq<bool>)
    requires f.out != null && f.out in m.held && m.log <= t0.log <= t1.log && Clean(m, t0.Owed(env), f.out)
    requires |tms| == |front| && |front| + 1 == f.numBits <= 8 * |m.held[f.out]|
    requires Requested(env, t0, t1, tms, front, f.into, 0)
    ensures var n, was := f.numBits - 1, m.held[f.out];
      BufBit(Later(f.out, was, m.targets, t1.log[|m.log|..]), n) == BufBit(was, n)
  {
    hide CaptureWrites, BufBit, Samples, Clocks;
    var n, since := f.numBits - 1, t1.log[|m.log|..];
    forall w | w in since ensures w.cell != Cell(f.out, n) {
      var k :| 0 <= k < |since| && since[k] == w;
      var owed0, owed1 := t0.Owed(env), t1.Owed(env);
      assert owed1[|m.log| + k] == w;
      if |m.log| + k < |owed0| {
        assert owed0[|m.log|..][k] == w;
      }
    }
    StoredUntouched(f.out, m.held[f.out], since, n);
  }
}
