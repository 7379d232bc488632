/** binarybuffer.c: shifting a whole buffer. */
module BufferShr {
  import opened Bits
  import opened Numbers

  /** The bits that byte `b` keeps and the `shift < 8` ones it gets from the byte `next` above it. The two have no
      bit in common, so the C `|` is a sum: `SumIsOr`. */
  function ShiftedByte(b: byte, next: byte, shift: nat): (r: nat)
    requires shift < 8
    ensures r < 256
  {
    Factors(shift);
    ByteArithmetic(b, next, shift);
    b / Pow2(shift) + next * Pow2(8 - shift) % 256
  }

  lemma Factors(shift: nat)
    requires shift < 8
    ensures Pow2(shift) == [1, 2, 4, 8, 16, 32, 64, 128][shift]
    ensures Pow2(8 - shift) == [256, 128, 64, 32, 16, 8, 4, 2][shift]
  {
    assert Pow2(1) == 2 && Pow2(2) == 4 && Pow2(3) == 8 && Pow2(4) == 16;
    assert Pow2(5) == 32 && Pow2(6) == 64 && Pow2(7) == 128 && Pow2(8) == 256;
  }

  lemma ByteArithmetic(b: byte, next: byte, shift: nat)
    requires shift < 8
    ensures next * Pow2(8 - shift) >= 0 && b / Pow2(shift) + next * Pow2(8 - shift) % 256 < 256
  {
    hide Pow2;
    Factors(shift);
  }

  /** The bits of a number put together from two parts. */
  lemma {:induction false} PartsBits(low: nat, high: nat, e: nat, k: nat)
    requires low < Pow2(e)
    ensures Bit(low + high * Pow2(e), k) == if k < e then Bit(low, k) else Bit(high, k - e)
    ensures k >= e ==> !Bit(low, k)
    decreases e
  {
    if e == 0 {
      ZeroBit(k);
    } else {
      var p := Pow2(e - 1);
      HalfOfParts(low, high, p);
      if k > 0 {
        PartsBits(low / 2, high, e - 1, k - 1);
      }
    }
  }

  lemma HalfOfParts(low: nat, high: nat, p: nat)
    requires low < 2 * p
    ensures low / 2 < p && (low + high * (2 * p)) / 2 == low / 2 + high * p
    ensures (low + high * (2 * p)) % 2 == low % 2
  {
    MulAssoc(high, 2, p);
    MulAssoc(2, high, p);
    assert low + high * (2 * p) == low + 2 * (high * p);
  }

  /** What the two shifted bytes are. */
  lemma ShiftedParts(b: byte, next: byte, shift: nat) returns (low: nat, high: nat)
    requires shift < 8
    ensures low == b / Pow2(shift) && low < Pow2(8 - shift)
    ensures high * Pow2(8 - shift) == next * Pow2(8 - shift) % 256
    ensures ShiftedByte(b, next, shift) == low + high * Pow2(8 - shift)
  {
    hide Pow2;
    var d, e := Pow2(shift), Pow2(8 - shift);
    Pow2Add(shift, 8 - shift);
    EightBits();
    QuotientAndRest(b, d);
    QuotientAndRest(next, d);
    low, high := b / d, next % d;
    UpperBits(next, next, d, e, next / d, high);
    QuotientBelow(b, d, e);
  }

  /** The two shifted bytes share no bit, and each bit of the sum is a bit of one of them. */
  lemma SumIsOr(b: byte, next: byte, shift: nat, k: nat)
    requires shift < 8
    ensures b / Pow2(shift) >= 0 && next * Pow2(8 - shift) % 256 >= 0
    ensures var x, y := b / Pow2(shift), next * Pow2(8 - shift) % 256;
      && !(Bit(x, k) && Bit(y, k))
      && (Bit(ShiftedByte(b, next, shift), k) <==> Bit(x, k) || Bit(y, k))
  {
    hide Pow2, Bit, ShiftedByte;
    var low, high := ShiftedParts(b, next, shift);
    PartsBits(low, high, 8 - shift, k);
    PartsBits(0, high, 8 - shift, k);
    ZeroBit(k);
  }

  lemma QuotientBelow(b: nat, d: nat, e: nat)
    requires d > 0 && d * e == 256 && b < 256
    ensures b / d < e
  {
    QuotientAndRest(b, d);
    if b / d >= e {
      MulMono(d, e, b / d);
    }
  }

  lemma SameFactor(f: int, g: int, x: int)
    requires f == g
    ensures f * x == g * x
  {
  }

  lemma WholePart(b: nat, rest: nat, d: nat, e: nat)
    requires d > 0 && d * e == 256
    ensures (b + 256 * rest) / d == b / d + e * rest
  {
    var x, y := b / d, b % d;
    SameFactor(d * e, 256, rest);
    Distribute(d, x, e * rest);
    QuotientIs(b + 256 * rest, d, x + e * rest, y);
  }

  lemma UpperPart(rest: nat, d: nat, e: nat, q: nat, r: nat)
    requires d * e == 256 && rest == q * d + r
    ensures e * rest == 256 * q + e * r
  {
    SameFactor(d * e, 256, q);
    Distribute(e, q * d, r);
  }

  lemma LowPart(d: nat, e: nat, r: nat)
    requires d * e == 256 && r < d
    ensures e * r < 256
  {
    Gap(r, d, e);
    if e == 0 {
      SameFactor(e, 0, d);
    }
  }

  lemma Remainder256(a: int, k: int, r: int)
    requires a == 256 * k + r && 0 <= r < 256
    ensures a % 256 == r
  {
  }

  lemma UpperBits(next: nat, rest: nat, d: nat, e: nat, q: nat, r: nat)
    requires d * e == 256 && rest % 256 == next && rest == q * d + r && r < d
    ensures next * e % 256 == e * r
  {
    var m := rest / 256;
    UpperPart(rest, d, e, q, r);
    LowPart(d, e, r);
    Distribute(e, 256 * m, next);
    Remainder256(next * e, q - e * m, e * r);
  }

  lemma DivMod(a: nat, d: nat)
    requires d > 0
    ensures a == (a / d) * d + a % d && a % d < d
  {
  }

  lemma TwoParts(b: nat, next: nat, rest: nat, d: nat, e: nat)
    requires d > 0 && d * e == 256 && rest % 256 == next
    ensures b / d + next * e % 256 + 256 * (rest / d) == (b + 256 * rest) / d
  {
    DivMod(rest, d);
    UpperBits(next, rest, d, e, rest / d, rest % d);
    WholePart(b, rest, d, e);
    UpperPart(rest, d, e, rest / d, rest % d);
  }

  /** One byte more: the number `b + 256 * rest`, where `next` is the low byte of `rest`. */
  lemma ShiftArithmetic(b: byte, next: byte, rest: nat, shift: nat)
    requires shift < 8 && rest % 256 == next
    ensures ShiftedByte(b, next, shift) + 256 * (rest / Pow2(shift)) == (b + 256 * rest) / Pow2(shift)
  {
    hide Pow2;
    Pow2Add(shift, 8 - shift);
    EightBits();
    TwoParts(b, next, rest, Pow2(shift), Pow2(8 - shift));
  }

  /** A number shifted right by fewer than eight bits, byte by byte. */
  function ShiftedRight(s: seq<byte>, shift: nat): (r: seq<byte>)
    requires shift < 8
    ensures |r| == |s|
    decreases |s|
  {
    if s == [] then []
    else [ShiftedByte(s[0], if |s| > 1 then s[1] else 0, shift)] + ShiftedRight(s[1..], shift)
  }

  lemma {:induction false} ShiftedRightValue(s: seq<byte>, shift: nat)
    requires shift < 8
    ensures LeVal(ShiftedRight(s, shift)) == LeVal(s) / Pow2(shift)
    decreases |s|
  {
    hide ShiftedByte;
    if s == [] {
      QuotientIs(0, Pow2(shift), 0, 0);
    } else {
      ShiftedRightValue(s[1..], shift);
      var next: byte := if |s| > 1 then s[1] else 0;
      ShiftArithmetic(s[0], next, LeVal(s[1..]), shift);
      var r := ShiftedRight(s, shift);
      assert r[1..] == ShiftedRight(s[1..], shift);
    }
  }

  lemma {:induction false} ShiftedRightAt(s: seq<byte>, shift: nat, i: nat)
    requires shift < 8 && i < |s|
    ensures ShiftedRight(s, shift)[i] == ShiftedByte(s[i], if i + 1 < |s| then s[i + 1] else 0, shift)
    decreases i
  {
    hide ShiftedByte;
    if i > 0 {
      ShiftedRightAt(s[1..], shift, i - 1);
    }
  }

  /** `buffer_shr`: the buffer as a little-endian number is divided by 2 to the `count`, rounding down. */
  method Shr(buf: array<byte>, bufLen: nat, count: nat)
    requires 1 <= bufLen <= buf.Length && count / 8 <= bufLen
    modifies buf
    ensures LeVal(buf[..bufLen]) == old(LeVal(buf[..bufLen])) / Pow2(count)
    ensures buf[bufLen..] == old(buf[bufLen..])
  {
    hide LeVal, Pow2, ShiftedByte, ShiftedRight;
    ghost var s := buf[..bufLen];
    var bytesToRemove := count / 8;
    var shift := count - bytesToRemove * 8;
    for i := 0 to bufLen - 1
      invariant forall k :: 0 <= k < i ==> buf[k] == ShiftedByte(s[k], s[k + 1], shift)
      invariant forall k :: i <= k < buf.Length ==> buf[k] == old(buf[k])
    {
      buf[i] := ShiftedByte(buf[i], buf[i + 1], shift);
    }
    LastByte(buf[bufLen - 1], shift);
    buf[bufLen - 1] := buf[bufLen - 1] as nat / Pow2(shift);
    ghost var r := ShiftedRight(s, shift);
    forall k | 0 <= k < bufLen ensures buf[k] == r[k] {
      ShiftedRightAt(s, shift, k);
    }
    assert buf[..bufLen] == r;
    ShiftedRightValue(s, shift);
    if bytesToRemove > 0 {
      RemoveBytes(buf, bufLen, bytesToRemove);
    } else {
      LowPowers(LeVal(r));
    }
    ShiftInTwo(LeVal(s), shift, bytesToRemove);
  }

  lemma LastByte(b: byte, shift: nat)
    requires shift < 8
    ensures b / Pow2(shift) == ShiftedByte(b, 0, shift) && 0 <= b / Pow2(shift) < 256
  {
    hide Pow2;
    Factors(shift);
  }

  lemma LowPowers(v: nat)
    ensures v / Pow(256, 0) == v
  {
  }

  lemma ShiftInTwo(v: nat, shift: nat, bytes: nat)
    ensures v / Pow2(shift) / Pow(256, bytes) == v / Pow2(8 * bytes + shift)
  {
    hide Pow2, Pow;
    PowBytes(bytes);
    Pow2Add(shift, 8 * bytes);
    DivDiv(v, Pow2(shift), Pow2(8 * bytes));
  }

  /** `memmove` down by `m` bytes and `memset` of what is left over. */
  method RemoveBytes(buf: array<byte>, bufLen: nat, m: nat)
    requires bufLen <= buf.Length && m <= bufLen
    modifies buf
    ensures LeVal(buf[..bufLen]) == old(LeVal(buf[..bufLen])) / Pow(256, m)
    ensures buf[bufLen..] == old(buf[bufLen..])
  {
    hide LeVal, Pow;
    ghost var s := buf[..bufLen];
    for i := 0 to bufLen - m
      invariant forall k :: 0 <= k < i ==> buf[k] == s[k + m]
      invariant forall k :: i <= k < buf.Length ==> buf[k] == old(buf[k])
    {
      buf[i] := buf[i + m];
    }
    for i := bufLen - m to bufLen
      invariant forall k :: 0 <= k < bufLen - m ==> buf[k] == s[k + m]
      invariant forall k :: bufLen - m <= k < i ==> buf[k] == 0
      invariant forall k :: bufLen <= k < buf.Length ==> buf[k] == old(buf[k])
    {
      buf[i] := 0;
    }
    ghost var zeros: seq<byte> := seq(m, _ => 0);
    assert buf[..bufLen] == s[m..] + zeros;
    DroppedBytes(s, m);
  }

  lemma DroppedBytes(s: seq<byte>, m: nat)
    requires m <= |s|
    ensures LeVal(s[m..] + seq(m, _ => 0)) == LeVal(s) / Pow(256, m)
  {
    hide LeVal, Pow;
    LeValConcat(s[m..], seq(m, _ => 0));
    LeValZeros(m);
    assert s == s[..m] + s[m..];
    LeValConcat(s[..m], s[m..]);
    LeValBound(s[..m]);
    QuotientIs(LeVal(s), Pow(256, m), LeVal(s[m..]), LeVal(s[..m]));
  }
}
