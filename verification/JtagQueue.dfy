/** What src/jtag_hw_dummy.cpp and src/jtag_hw_otma.cpp have in common: two bit buffers filled by
    `clock_raw` and `clock_multiple`. */
module JtagQueue {
  import opened Bits
  import opened MpsseDevice
  import opened ShiftCommands
  import Numbers

  const DATA_SIZE_BYTES: nat := 32 * 1024 * 1024

  class BitQueue {
    const tdiData: array<byte>
    const tmsData: array<byte>
    var tdiDataCount: nat

    ghost predicate Shape()
      reads this
    {
      && tdiData != tmsData && tdiData.Length == tmsData.Length == DATA_SIZE_BYTES
      && tdiDataCount <= 8 * DATA_SIZE_BYTES
    }

    /** Nothing but zeros behind the queued bits. */
    ghost predicate Valid()
      reads this, tdiData, tmsData
    {
      Shape() && ZeroFrom(tdiData[..], tdiDataCount) && ZeroFrom(tmsData[..], tdiDataCount)
    }

    /** The queued TMS bits, oldest first. */
    ghost function Tms(): seq<bool>
      requires Shape()
      reads this, tdiData, tmsData
    {
      BufBits(tmsData[..], 0, tdiDataCount)
    }

    ghost function Tdi(): seq<bool>
      requires Shape()
      reads this, tdiData, tmsData
    {
      BufBits(tdiData[..], 0, tdiDataCount)
    }

    constructor ()
      ensures Valid() && fresh(tdiData) && fresh(tmsData) && Tms() == [] && Tdi() == []
      ensures tdiData.Length == tmsData.Length == 0x200_0000
    {
      tdiData := new byte[DATA_SIZE_BYTES](_ => 0);
      tmsData := new byte[DATA_SIZE_BYTES](_ => 0);
      tdiDataCount := 0;
      new;
      ZeroBytes(tdiData[..]);
      ZeroBytes(tmsData[..]);
    }

    /** The body of both loops: the whole of `tms` and `tdi`, shifted, is ORed into the current bytes. */
    method Append(tms: nat, tdi: nat)
      requires Shape() && tdiDataCount < 8 * DATA_SIZE_BYTES
      modifies this, tdiData, tmsData
      ensures Shape() && tdiDataCount == old(tdiDataCount) + 1
      ensures Ored(old(tmsData[..]), tmsData[..], old(tdiDataCount), 1, tms)
      ensures Ored(old(tdiData[..]), tdiData[..], old(tdiDataCount), 1, tdi)
      ensures old(Valid()) && tms <= 1 && tdi <= 1 ==>
        && Valid() && Tms() == old(Tms()) + [tms == 1] && Tdi() == old(Tdi()) + [tdi == 1]
    {
      hide BufBit, ZeroFrom, BufBits, OrShifted, Ored;
      var byteSel, bitSel := tdiDataCount / 8, tdiDataCount % 8;
      OrsOne(tdiData[..], tdiDataCount, tdi);
      OrsOne(tmsData[..], tdiDataCount, tms);
      ghost var newTdi := tdiData[..][byteSel := OrShifted(tdiData[byteSel], bitSel, tdi)];
      ghost var newTms := tmsData[..][byteSel := OrShifted(tmsData[byteSel], bitSel, tms)];
      tdiData[byteSel] := OrShifted(tdiData[byteSel], bitSel, tdi);
      tmsData[byteSel] := OrShifted(tmsData[byteSel], bitSel, tms);
      assert tdiData[..] == newTdi && tmsData[..] == newTms;
      tdiDataCount := tdiDataCount + 1;
    }

    /** `clock_raw`: the same clock `len` times. */
    method ClockRaw(tms: nat, tdi: nat, len: nat)
      requires Shape() && tdiDataCount + len <= 8 * DATA_SIZE_BYTES
      modifies this, tdiData, tmsData
      ensures Shape() && tdiDataCount == old(tdiDataCount) + len
      // Whatever the values, each is ORed in `len` times; ...
      ensures Ored(old(tmsData[..]), tmsData[..], old(tdiDataCount), len, tms)
      ensures Ored(old(tdiData[..]), tdiData[..], old(tdiDataCount), len, tdi)
      // ... and if they are bits, as they should, the queue grows by them.
      ensures old(Valid()) && tms <= 1 && tdi <= 1 ==>
        && Valid() && Tms() == old(Tms()) + Repeat(tms == 1, len) && Tdi() == old(Tdi()) + Repeat(tdi == 1, len)
    {
      hide BufBits, ZeroFrom, Ored;
      OrsNothing(tmsData[..], tdiDataCount, tms);
      OrsNothing(tdiData[..], tdiDataCount, tdi);
      for i := 0 to len
        invariant Shape() && tdiDataCount == old(tdiDataCount) + i
        invariant Ored(old(tmsData[..]), tmsData[..], old(tdiDataCount), i, tms)
        invariant Ored(old(tdiData[..]), tdiData[..], old(tdiDataCount), i, tdi)
        invariant old(Valid()) && tms <= 1 && tdi <= 1 ==>
          && Valid() && Tms() == old(Tms()) + Repeat(tms == 1, i) && Tdi() == old(Tdi()) + Repeat(tdi == 1, i)
      {
        ghost var midTms, midTdi := tmsData[..], tdiData[..];
        Append(tms, tdi);
        OrsMore(old(tmsData[..]), midTms, tmsData[..], old(tdiDataCount), i, tms);
        OrsMore(old(tdiData[..]), midTdi, tdiData[..], old(tdiDataCount), i, tdi);
        OneRepeatMore(tms == 1, i);
        OneRepeatMore(tdi == 1, i);
      }
    }

    /** `clock_multiple`: `len` clocks with TMS constant and TDI from `bits`. */
    method ClockMultiple(tms: nat, bits: array<byte>, len: nat)
      requires Shape() && tdiDataCount + len <= 8 * DATA_SIZE_BYTES
      requires len <= 8 * bits.Length && bits != tdiData && bits != tmsData
      modifies this, tdiData, tmsData
      ensures Shape() && tdiDataCount == old(tdiDataCount) + len
      ensures Ored(old(tmsData[..]), tmsData[..], old(tdiDataCount), len, tms)
      ensures OredBits(old(tdiData[..]), tdiData[..], old(tdiDataCount), bits[..], len)
      ensures old(Valid()) && tms <= 1 ==>
        && Valid() && Tms() == old(Tms()) + Repeat(tms == 1, len) && Tdi() == old(Tdi()) + BufBits(bits[..], 0, len)
    {
      hide ZeroFrom, BufBits, Ored, OredBits;
      OrsNothing(tmsData[..], tdiDataCount, tms);
      NoBitsOred(tdiData[..], tdiDataCount, bits[..]);
      for i := 0 to len
        invariant Shape() && tdiDataCount == old(tdiDataCount) + i
        invariant Ored(old(tmsData[..]), tmsData[..], old(tdiDataCount), i, tms)
        invariant OredBits(old(tdiData[..]), tdiData[..], old(tdiDataCount), bits[..], i)
        invariant old(Valid()) && tms <= 1 ==>
          && Valid() && Tms() == old(Tms()) + Repeat(tms == 1, i) && Tdi() == old(Tdi()) + BufBits(bits[..], 0, i)
      {
        var inBit := Bit(bits[i / 8], i % 8);
        ghost var midTms, midTdi := tmsData[..], tdiData[..];
        Append(tms, Val(inBit));
        OrsMore(old(tmsData[..]), midTms, tmsData[..], old(tdiDataCount), i, tms);
        OneMoreOred(old(tdiData[..]), midTdi, tdiData[..], old(tdiDataCount), bits[..], i);
        OneRepeatMore(tms == 1, i);
        OneMoreBit(bits[..], i);
      }
    }

    /** Back to the empty queue, both buffers cleared. */
    method Reset()
      requires Shape()
      modifies this, tdiData, tmsData
      ensures Valid() && tdiDataCount == 0 && Tms() == [] && Tdi() == []
    {
      tdiDataCount := 0;
      Clear(tdiData);
      Clear(tmsData);
    }
  }

  /** Every bit from `n` on is zero. */
  ghost predicate ZeroFrom(s: seq<byte>, n: nat) {
    forall i :: n <= i < 8 * |s| ==> !BufBit(s, i)
  }

  lemma ZeroBytes(s: seq<byte>)
    requires forall k :: 0 <= k < |s| ==> s[k] == 0
    ensures ZeroFrom(s, 0)
  {
    forall i | 0 <= i < 8 * |s| ensures !BufBit(s, i) {
      ZeroBit(i % 8);
    }
  }

  /** `memset` to zero */
  method Clear(a: array<byte>)
    modifies a
    ensures ZeroFrom(a[..], 0) && forall k :: 0 <= k < a.Length ==> a[k] == 0
  {
    forall k | 0 <= k < a.Length {
      a[k] := 0;
    }
    ZeroBytes(a[..]);
  }

  /** `b | (v << k)`, as far as it fits the byte. */
  function OrShifted(b: byte, k: nat, v: nat): byte
    requires k < 8
  {
    var bits := seq(8, i requires 0 <= i < 8 => Bit(b, i) || (i >= k && Bit(v, i - k)));
    assert Pow2(8) == 256 by { Numbers.EightBits(); }
    FromBits(bits)
  }

  lemma OrShiftedBit(b: byte, k: nat, v: nat, j: nat)
    requires k < 8 && j < 8
    ensures Bit(OrShifted(b, k, v), j) <==> Bit(b, j) || (j >= k && Bit(v, j - k))
  {
    FromBitsBit(seq(8, i requires 0 <= i < 8 => Bit(b, i) || (i >= k && Bit(v, i - k))), j);
  }

  /** One of the values ORed in at the places from `n` on sets bit `p`. */
  ghost predicate Sets(n: nat, len: nat, v: nat, p: nat) {
    exists k :: n <= k < n + len && k / 8 == p / 8 && k <= p && Bit(v, p - k)
  }

  /** `v` has been ORed in `len` times, from bit `n` on, each time into one byte. */
  ghost predicate Ored(s: seq<byte>, s': seq<byte>, n: nat, len: nat, v: nat) {
    |s'| == |s| && forall p :: 0 <= p < 8 * |s| ==> (BufBit(s', p) <==> BufBit(s, p) || Sets(n, len, v, p))
  }

  lemma OrsNothing(s: seq<byte>, n: nat, v: nat)
    ensures Ored(s, s, n, 0, v)
  {
  }

  lemma OrsMore(s0: seq<byte>, s1: seq<byte>, s2: seq<byte>, n: nat, len: nat, v: nat)
    requires Ored(s0, s1, n, len, v) && Ored(s1, s2, n + len, 1, v)
    ensures Ored(s0, s2, n, len + 1, v)
  {
    hide BufBit;
    forall p | 0 <= p < 8 * |s0| ensures Sets(n, len + 1, v, p) <==> Sets(n, len, v, p) || Sets(n + len, 1, v, p) {
    }
  }

  /** A single bit sets only itself. */
  lemma OrsBit(s: seq<byte>, s': seq<byte>, n: nat, v: bool)
    requires Ored(s, s', n, 1, Val(v))
    ensures |s'| == |s| && forall p :: 0 <= p < 8 * |s| ==> (BufBit(s', p) <==> BufBit(s, p) || (p == n && v))
  {
    hide BufBit;
    forall p | 0 <= p < 8 * |s| ensures Sets(n, 1, Val(v), p) <==> p == n && v {
      OneBitSets(n, v, p);
    }
  }

  lemma OneBitSets(n: nat, v: bool, p: nat)
    ensures Sets(n, 1, Val(v), p) <==> p == n && v
  {
    if p >= n {
      ValBit(v, p - n);
    }
    if p == n && v {
      assert n <= n < n + 1 && n / 8 == p / 8 && Bit(Val(v), p - n);
    }
  }

  lemma ValBit(v: bool, k: nat)
    ensures Bit(Val(v), k) == (k == 0 && v)
  {
    if k > 0 {
      ZeroBit(k - 1);
      assert Val(v) / 2 == 0;
    }
  }

  /** The first `len` of `bits` have been ORed in one by one, from bit `n` on. */
  ghost predicate OredBits(s: seq<byte>, s': seq<byte>, n: nat, bits: seq<byte>, len: nat) {
    && |s'| == |s| && len <= 8 * |bits|
    && forall p :: 0 <= p < 8 * |s| ==>
         (BufBit(s', p) <==> (BufBit(s, p) || (n <= p < n + len && BufBit(bits, p - n))))
  }

  lemma NoBitsOred(s: seq<byte>, n: nat, bits: seq<byte>)
    ensures OredBits(s, s, n, bits, 0)
  {
  }

  lemma OneMoreOred(s0: seq<byte>, s1: seq<byte>, s2: seq<byte>, n: nat, bits: seq<byte>, len: nat)
    requires len < 8 * |bits| && OredBits(s0, s1, n, bits, len) && Ored(s1, s2, n + len, 1, Val(BufBit(bits, len)))
    ensures OredBits(s0, s2, n, bits, len + 1)
  {
    hide BufBit, Ored;
    OrsBit(s1, s2, n + len, BufBit(bits, len));
  }

  /** The effect of one append on a buffer. */
  lemma OrsOne(s: seq<byte>, n: nat, v: nat)
    requires n < 8 * |s|
    ensures var s' := s[n / 8 := OrShifted(s[n / 8], n % 8, v)];
      && Ored(s, s', n, 1, v)
      && (ZeroFrom(s, n) && v <= 1 ==> ZeroFrom(s', n + 1) && BufBits(s', 0, n + 1) == BufBits(s, 0, n) + [v == 1])
  {
    hide OrShifted, Bit;
    var s' := s[n / 8 := OrShifted(s[n / 8], n % 8, v)];
    forall p | 0 <= p < 8 * |s| ensures BufBit(s', p) <==> BufBit(s, p) || Sets(n, 1, v, p) {
      OneSets(s, n, v, p);
    }
    if ZeroFrom(s, n) && v <= 1 {
      assert v == Val(v == 1);
      OrsBit(s, s', n, v == 1);
      BitAppended(s, s', n, v == 1);
    }
  }

  lemma OneSets(s: seq<byte>, n: nat, v: nat, p: nat)
    requires n < 8 * |s| && p < 8 * |s|
    ensures BufBit(s[n / 8 := OrShifted(s[n / 8], n % 8, v)], p) <==> BufBit(s, p) || Sets(n, 1, v, p)
  {
    hide OrShifted, Bit;
    if p / 8 == n / 8 {
      OrShiftedBit(s[n / 8], n % 8, v, p % 8);
      assert p % 8 - n % 8 == p - n;
      if p >= n && Bit(v, p - n) {
        assert n <= n < n + 1 && n / 8 == p / 8 && Bit(v, p - n);
      }
    }
  }

  /** ORing a bit into the first free place appends it: that place is zero. */
  lemma BitAppended(s: seq<byte>, s': seq<byte>, n: nat, v: bool)
    requires n < 8 * |s| == 8 * |s'| && ZeroFrom(s, n)
    requires forall p :: 0 <= p < 8 * |s| ==> (BufBit(s', p) <==> BufBit(s, p) || (p == n && v))
    ensures ZeroFrom(s', n + 1) && BufBits(s', 0, n + 1) == BufBits(s, 0, n) + [v]
  {
    hide BufBit;
    forall k | 0 <= k < n + 1 ensures BufBits(s', 0, n + 1)[k] == (BufBits(s, 0, n) + [v])[k] {
    }
  }

  lemma OneRepeatMore(v: bool, i: nat)
    ensures Repeat(v, i) + [v] == Repeat(v, i + 1)
  {
  }

  lemma OneMoreBit(s: seq<byte>, n: nat)
    requires n < 8 * |s|
    ensures BufBits(s, 0, n + 1) == BufBits(s, 0, n) + [BufBit(s, n)]
  {
  }

  /** OR-ing a bit into the first free place appends it: that place is zero. */
  lemma OrAppends(s: seq<byte>, n: nat, v: bool)
    requires n < 8 * |s| && ZeroFrom(s, n)
    ensures var s' := s[n / 8 := Or(s[n / 8], n % 8, v)];
      ZeroFrom(s', n + 1) && BufBits(s', 0, n + 1) == BufBits(s, 0, n) + [v]
  {
    hide Or;
    var s' := s[n / 8 := Or(s[n / 8], n % 8, v)];
    forall i | 0 <= i < 8 * |s| ensures BufBit(s', i) == if i == n then v else BufBit(s, i) {
      if i / 8 == n / 8 {
        OrBit(s[n / 8], n % 8, v, i % 8);
        assert BufBit(s, n) == Bit(s[n / 8], n % 8);
        assert BufBit(s, i) == Bit(s[i / 8], i % 8);
      }
    }
    forall k | 0 <= k < n + 1 ensures BufBits(s', 0, n + 1)[k] == (BufBits(s, 0, n) + [v])[k] {
    }
  }
}
