/** binarybuffer.h: a 32-bit word into a bit buffer. */
module Words {
  import opened Bits
  import opened Numbers

  /** Bits `first` to `first + num` of `after` are the low bits of `value`, the others those of `before`. */
  ghost predicate WordPut(before: seq<byte>, first: nat, num: nat, value: nat, after: seq<byte>)
    requires first + num <= 8 * |before|
  {
    && |after| == |before|
    && forall j :: 0 <= j < 8 * |after| ==>
         BufBit(after, j) == if first <= j < first + num then Bit(value, j - first) else BufBit(before, j)
  }

  /** `buf_set_u32`: a byte-wise fast path for whole aligned words, otherwise bit by bit. */
  method BufSetU32(buffer: array<byte>, first: nat, num: nat, value: nat)
    requires num <= 32 && value < 0x1_0000_0000 && first + num <= 8 * buffer.Length
    modifies buffer
    ensures WordPut(old(buffer[..]), first, num, value, buffer[..])
  {
    hide Bit;
    ghost var before := buffer[..];
    if num == 32 && first == 0 {
      buffer[3] := value / 0x100_0000 % 0x100;
      buffer[2] := value / 0x1_0000 % 0x100;
      buffer[1] := value / 0x100 % 0x100;
      buffer[0] := value % 0x100;
      WholeWord(before, value, buffer[..]);
    } else {
      for i := first to first + num
        invariant WordPut(before, first, i - first, value, buffer[..])
      {
        var v := Bit(value, i - first);
        PutOneMore(before, first, i - first, value, buffer[..]);
        ghost var next := SetBufBit(buffer[..], i, v);
        buffer[i / 8] := SetBit(buffer[i / 8], i % 8, v);
        assert buffer[..] == next;
      }
    }
  }

  lemma PutOneMore(before: seq<byte>, first: nat, n: nat, value: nat, prev: seq<byte>)
    requires first + n < 8 * |before| && WordPut(before, first, n, value, prev)
    ensures WordPut(before, first, n + 1, value, SetBufBit(prev, first + n, Bit(value, n)))
  {
    hide Bit, BufBit, SetBufBit;
    var next := SetBufBit(prev, first + n, Bit(value, n));
    forall j | 0 <= j < 8 * |next|
      ensures BufBit(next, j) == if first <= j < first + n + 1 then Bit(value, j - first) else BufBit(before, j)
    {
      SetBufBitBit(prev, first + n, Bit(value, n), j);
    }
  }

  lemma {:induction false} ByteOf(value: nat, k: nat, j: nat)
    requires j < 8
    ensures Bit(value / Pow2(k) % 256, j) == Bit(value, k + j)
    decreases k
  {
    if k == 0 {
      LowByte(value, j, 8);
    } else {
      ByteOf(value / 2, k - 1, j);
      DivDiv(value, 2, Pow2(k - 1));
    }
  }

  lemma {:induction false} LowByte(value: nat, j: nat, n: nat)
    requires j < n
    ensures Bit(value % Pow2(n), j) == Bit(value, j)
    decreases j
  {
    var d := Pow2(n - 1);
    assert Pow2(n) == 2 * d;
    var q := value / (2 * d);
    var r := value % (2 * d);
    assert value == q * (2 * d) + r;
    assert value == 2 * (q * d) + r;
    if j > 0 {
      assert r / 2 < d;
      assert value / 2 == q * d + r / 2;
      QuotientIs(value / 2, d, q, r / 2);
      assert value / 2 % d == r / 2;
      LowByte(value / 2, j - 1, n - 1);
    }
  }

  lemma WholeWord(before: seq<byte>, value: nat, after: seq<byte>)
    requires |after| == |before| >= 4 && value < 0x1_0000_0000
    requires after[0] == value % 0x100 && after[1] == value / 0x100 % 0x100
    requires after[2] == value / 0x1_0000 % 0x100 && after[3] == value / 0x100_0000 % 0x100
    requires forall i :: 4 <= i < |after| ==> after[i] == before[i]
    ensures WordPut(before, 0, 32, value, after)
  {
    hide Bit;
    assert Pow2(8) == 0x100 && Pow2(16) == 0x1_0000 && Pow2(24) == 0x100_0000 by { Powers(); }
    forall j | 0 <= j < 8 * |after| ensures BufBit(after, j) == if j < 32 then Bit(value, j) else BufBit(before, j) {
      if j < 32 {
        ByteOf(value, 8 * (j / 8), j % 8);
        assert Pow2(0) == 1;
      }
    }
  }

  lemma Powers()
    ensures Pow2(8) == 0x100 && Pow2(16) == 0x1_0000 && Pow2(24) == 0x100_0000
  {
    assert Pow2(8) == 0x100;
    assert Pow2(12) == 0x1000;
    assert Pow2(16) == 0x1_0000;
    assert Pow2(20) == 0x10_0000;
  }
}
