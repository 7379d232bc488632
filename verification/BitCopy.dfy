/** binarybuffer.c: the unaligned bit copy. */
module BitCopy {
  import opened Bits

  /** What a copy of `len` bits leaves in `dst`, bit by bit. */
  ghost predicate Copied(src: seq<byte>, srcStart: nat, before: seq<byte>, dstStart: nat, len: nat, after: seq<byte>)
    requires srcStart + len <= 8 * |src| && dstStart + len <= 8 * |before|
  {
    && |after| == |before|
    && forall i :: 0 <= i < 8 * |after| ==>
         BufBit(after, i)
           == if dstStart <= i < dstStart + len then BufBit(src, srcStart + (i - dstStart)) else BufBit(before, i)
  }

  /** One turn of the bit loop. */
  lemma CopyOneMore(src: seq<byte>, srcStart: nat, before: seq<byte>, dstStart: nat, i: nat, prev: seq<byte>)
    requires srcStart + i < 8 * |src| && dstStart + i < 8 * |before|
    requires Copied(src, srcStart, before, dstStart, i, prev)
    ensures Copied(src, srcStart, before, dstStart, i + 1, SetBufBit(prev, dstStart + i, BufBit(src, srcStart + i)))
  {
    var v := BufBit(src, srcStart + i);
    var next := SetBufBit(prev, dstStart + i, v);
    forall j | 0 <= j < 8 * |next|
      ensures BufBit(next, j)
           == if dstStart <= j < dstStart + i + 1 then BufBit(src, srcStart + (j - dstStart)) else BufBit(before, j)
    {
      SetBufBitBit(prev, dstStart + i, v, j);
    }
  }

  /** The byte loop copies the same bits. */
  lemma CopyBytes(src: seq<byte>, srcStart: nat, before: seq<byte>, dstStart: nat, len: nat, after: seq<byte>)
    requires srcStart + len <= 8 * |src| && dstStart + len <= 8 * |before| && |after| == |before|
    requires srcStart % 8 == 0 && dstStart % 8 == 0 && len % 8 == 0
    requires forall n :: 0 <= n < |after| ==>
      after[n]
        == if dstStart / 8 <= n < dstStart / 8 + len / 8 then src[srcStart / 8 + (n - dstStart / 8)] else before[n]
    ensures Copied(src, srcStart, before, dstStart, len, after)
  {
    forall i | 0 <= i < 8 * |after|
      ensures BufBit(after, i)
           == if dstStart <= i < dstStart + len then BufBit(src, srcStart + (i - dstStart)) else BufBit(before, i)
    {
      var n := i / 8;
      if dstStart <= i < dstStart + len {
        assert (srcStart + (i - dstStart)) / 8 == srcStart / 8 + (n - dstStart / 8);
        assert (srcStart + (i - dstStart)) % 8 == i % 8;
      }
    }
  }

  /** `buf_set_buf`: a byte loop when both ends are byte aligned and `len` is whole bytes, otherwise a
      bit loop with a byte index and a bit cursor (`sq`, `dq`) moving over each buffer. */
  method BufSetBuf(src: array<byte>, srcStart: nat, dst: array<byte>, dstStart: nat, len: nat)
    requires src != dst
    requires srcStart + len <= 8 * src.Length && dstStart + len <= 8 * dst.Length
    modifies dst
    ensures Copied(src[..], srcStart, old(dst[..]), dstStart, len, dst[..])
  {
    var s, d := srcStart / 8, dstStart / 8;
    var sq, dq := srcStart % 8, dstStart % 8;
    var lb, lq := len / 8, len % 8;
    ghost var from, before := src[..], dst[..];

    if sq == 0 && dq == 0 && lq == 0 {
      for i := 0 to lb
        invariant s == srcStart / 8 + i && d == dstStart / 8 + i
        invariant forall n :: 0 <= n < dst.Length ==>
          dst[n] == if dstStart / 8 <= n < d then from[srcStart / 8 + (n - dstStart / 8)] else before[n]
      {
        dst[d] := src[s];
        d := d + 1;
        s := s + 1;
      }
      CopyBytes(from, srcStart, before, dstStart, len, dst[..]);
      return;
    }

    for i := 0 to len
      invariant 0 <= sq < 8 && 0 <= dq < 8
      invariant 8 * s + sq == srcStart + i && 8 * d + dq == dstStart + i
      invariant Copied(from, srcStart, before, dstStart, i, dst[..])
    {
      CopyOneMore(from, srcStart, before, dstStart, i, dst[..]);
      ghost var next := SetBufBit(dst[..], dstStart + i, BufBit(from, srcStart + i));
      assert (dstStart + i) / 8 == d && (dstStart + i) % 8 == dq;
      assert (srcStart + i) / 8 == s && (srcStart + i) % 8 == sq;
      if Bit(src[s], sq) {
        dst[d] := SetBit(dst[d], dq, true);
      } else {
        dst[d] := SetBit(dst[d], dq, false);
      }
      assert dst[..] == next;
      if sq == 7 {
        sq := 0;
        s := s + 1;
      } else {
        sq := sq + 1;
      }
      if dq == 7 {
        dq := 0;
        d := d + 1;
      } else {
        dq := dq + 1;
      }
    }
  }

  /** `Copied` leaves no choice: it is the whole meaning of the copy. */
  lemma CopiedIsUnique(src: seq<byte>, srcStart: nat, before: seq<byte>, dstStart: nat, len: nat, a: seq<byte>,
                       b: seq<byte>)
    requires srcStart + len <= 8 * |src| && dstStart + len <= 8 * |before|
    requires Copied(src, srcStart, before, dstStart, len, a)
    requires Copied(src, srcStart, before, dstStart, len, b)
    ensures a == b
  {
    SameBitsSameBuffer(a, b);
  }
}
