/** Bytes and the bits in them, as binarybuffer.c and the MPSSE count them: bit `i` of a buffer is
    bit `i % 8` (least significant first) of byte `i / 8`. */
module Bits {
  type byte = x: int | 0 <= x < 256

  function Val(v: bool): nat { if v then 1 else 0 }

  function Pow2(n: nat): (p: nat)
    ensures p > 0
  {
    if n == 0 then 1 else 2 * Pow2(n - 1)
  }

  lemma {:induction false} PowMono(a: nat, b: nat)
    requires a <= b
    ensures Pow2(a) <= Pow2(b)
    decreases b
  {
    if a < b {
      PowMono(a, b - 1);
    }
  }

  /** The C test `(b >> k) & 1`: halve `k` times, look at the last bit. */
  predicate Bit(b: nat, k: nat)
    decreases k
  {
    if k == 0 then b % 2 == 1 else Bit(b / 2, k - 1)
  }

  lemma {:induction false} ZeroBit(k: nat)
    ensures !Bit(0, k)
  {
    if k > 0 { ZeroBit(k - 1); }
  }

  /** `b |= 1 << k` when `v` holds, `b &= ~(1 << k)` otherwise. */
  function WithBit(b: nat, k: nat, v: bool): nat
    decreases k
  {
    if k == 0 then b - b % 2 + Val(v) else b % 2 + 2 * WithBit(b / 2, k - 1, v)
  }

  lemma {:induction false} WithBitBit(b: nat, k: nat, v: bool, j: nat)
    ensures Bit(WithBit(b, k, v), j) == if j == k then v else Bit(b, j)
    decreases k
  {
    if k > 0 {
      assert WithBit(b, k, v) / 2 == WithBit(b / 2, k - 1, v);
      if j > 0 {
        WithBitBit(b / 2, k - 1, v, j - 1);
      }
    } else if j > 0 {
      assert WithBit(b, k, v) / 2 == b / 2;
    }
  }

  lemma {:induction false} WithBitBound(b: nat, k: nat, v: bool, n: nat)
    requires b < Pow2(n) && k < n
    ensures WithBit(b, k, v) < Pow2(n)
    decreases k
  {
    if k > 0 {
      WithBitBound(b / 2, k - 1, v, n - 1);
    }
  }

  function SetBit(b: byte, k: nat, v: bool): byte
    requires k < 8
  {
    WithBitBound(b, k, v, 8);
    WithBit(b, k, v)
  }

  /** The number whose bits are `bits`, least significant first. */
  function FromBits(bits: seq<bool>): (b: nat)
    ensures b < Pow2(|bits|)
  {
    if bits == [] then 0 else Val(bits[0]) + 2 * FromBits(bits[1..])
  }

  lemma {:induction false} FromBitsBit(bits: seq<bool>, k: nat)
    requires k < |bits|
    ensures Bit(FromBits(bits), k) == bits[k]
    decreases k
  {
    assert FromBits(bits) / 2 == FromBits(bits[1..]);
    if k > 0 {
      FromBitsBit(bits[1..], k - 1);
    }
  }

  lemma {:induction false} SameBits(a: nat, b: nat, n: nat)
    requires a < Pow2(n) && b < Pow2(n)
    requires forall k :: 0 <= k < n ==> Bit(a, k) == Bit(b, k)
    ensures a == b
  {
    if n > 0 {
      forall k | 0 <= k < n - 1 ensures Bit(a / 2, k) == Bit(b / 2, k) {
        assert Bit(a, k + 1) == Bit(b, k + 1);
      }
      SameBits(a / 2, b / 2, n - 1);
      assert Bit(a, 0) == Bit(b, 0);
    }
  }

  lemma {:induction false} FromBitsConcat(a: seq<bool>, b: seq<bool>)
    ensures FromBits(a + b) == FromBits(a) + Pow2(|a|) * FromBits(b)
    decreases |a|
  {
    if a == [] {
      assert a + b == b;
    } else {
      FromBitsConcat(a[1..], b);
      assert (a + b)[1..] == a[1..] + b;
      TwiceMore(Val(a[0]), FromBits(a[1..]), Pow2(|a| - 1), FromBits(b));
    }
  }

  lemma TwiceMore(v: nat, x: nat, p: nat, y: nat)
    ensures v + 2 * (x + p * y) == v + 2 * x + 2 * p * y
  {
  }

  /** Bit `i` of a buffer. */
  predicate BufBit(s: seq<byte>, i: nat)
    requires i < 8 * |s|
  {
    Bit(s[i / 8], i % 8)
  }

  function SetBufBit(s: seq<byte>, i: nat, v: bool): (r: seq<byte>)
    requires i < 8 * |s|
    ensures |r| == |s|
  {
    s[i / 8 := SetBit(s[i / 8], i % 8, v)]
  }

  lemma SetBufBitBit(s: seq<byte>, i: nat, v: bool, j: nat)
    requires i < 8 * |s| && j < 8 * |s|
    ensures BufBit(SetBufBit(s, i, v), j) == if j == i then v else BufBit(s, j)
  {
    if i / 8 == j / 8 {
      WithBitBit(s[i / 8], i % 8, v, j % 8);
    }
  }

  lemma SameBitsSameBuffer(s: seq<byte>, t: seq<byte>)
    requires |s| == |t|
    requires forall i :: 0 <= i < 8 * |s| ==> BufBit(s, i) == BufBit(t, i)
    ensures s == t
  {
    forall n | 0 <= n < |s| ensures s[n] == t[n] {
      forall k | 0 <= k < 8 ensures Bit(s[n], k) == Bit(t[n], k) {
        assert BufBit(s, 8 * n + k) == BufBit(t, 8 * n + k);
      }
      SameBits(s[n], t[n], 8);
    }
  }

  /** The `n` bits of `s` that start at bit `off`. */
  function BufBits(s: seq<byte>, off: nat, n: nat): (r: seq<bool>)
    requires off + n <= 8 * |s|
    ensures |r| == n
  {
    seq(n, k requires 0 <= k < n => BufBit(s, off + k))
  }

  /** The number that the bits of a byte spell. */
  lemma ByteOfBits(s: seq<byte>, i: nat)
    requires i < |s|
    ensures FromBits(BufBits(s, 8 * i, 8)) == s[i]
  {
    var bits := BufBits(s, 8 * i, 8);
    assert Pow2(8) == 256 by { assert Pow2(4) == 16; }
    forall k | 0 <= k < 8 ensures Bit(FromBits(bits), k) == Bit(s[i], k) {
      FromBitsBit(bits, k);
      assert bits[k] == BufBit(s, 8 * i + k);
    }
    SameBits(FromBits(bits), s[i], 8);
  }

  /** Four bytes spell a 32-bit number, the first one being the least. */
  lemma FourBytes(s: seq<byte>)
    requires |s| >= 4
    ensures FromBits(BufBits(s, 0, 32))
         == s[0] as int + 256 * s[1] as int + 0x1_0000 * s[2] as int + 0x100_0000 * s[3] as int
  {
    hide BufBit, FromBits;
    var b0, b1, b2, b3 := BufBits(s, 0, 8), BufBits(s, 8, 8), BufBits(s, 16, 8), BufBits(s, 24, 8);
    assert Pow2(8) == 256 by { assert Pow2(4) == 16; }
    ByteOfBits(s, 0);
    ByteOfBits(s, 1);
    ByteOfBits(s, 2);
    ByteOfBits(s, 3);
    FromBitsConcat(b2, b3);
    FromBitsConcat(b1, b2 + b3);
    FromBitsConcat(b0, b1 + (b2 + b3));
    assert BufBits(s, 0, 32) == b0 + (b1 + (b2 + b3));
  }

  /** Whole bytes from bits, least significant bit first. */
  function PackBytes(bits: seq<bool>): (r: seq<byte>)
    requires |bits| % 8 == 0
    ensures 8 * |r| == |bits|
  {
    seq(|bits| / 8, i requires 0 <= i < |bits| / 8 => FromBits(bits[8 * i..8 * i + 8]) as byte)
  }

  lemma PackBytesBit(bits: seq<bool>, i: nat)
    requires |bits| % 8 == 0 && i < |bits|
    ensures BufBit(PackBytes(bits), i) == bits[i]
  {
    FromBitsBit(bits[8 * (i / 8)..8 * (i / 8) + 8], i % 8);
  }
}
