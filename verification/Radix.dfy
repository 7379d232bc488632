/** binarybuffer.c: numbers in text and in buffers. */
module Radix {
  import opened Bits
  import opened MpsseDevice
  import opened Numbers
  import opened Floats
  import opened Estimates

  predicate KnownRadix(radix: nat) { radix == 16 || radix == 10 || radix == 8 }

  /** The value of a character as a digit, if it is one in this radix. */
  function DigitOf(c: byte, radix: nat): (d: Option<nat>)
    ensures d.Some? ==> d.value < radix
  {
    var d: int :=
      if '0' as int <= c <= '9' as int then c - '0' as int
      else if 'a' as int <= c <= 'f' as int then c - 'a' as int + 10
      else if 'A' as int <= c <= 'F' as int then c - 'A' as int + 10
      else radix;
    if d >= radix then None else Some(d)
  }

  /** Exactly these characters are digits, each of its value, with letters in either case. */
  lemma DigitsAre(c: byte, radix: nat, d: nat)
    requires radix <= 16
    ensures DigitOf(c, radix) == Some(d) <==>
      d < radix && (c == "0123456789abcdef"[d] as int || c == "0123456789ABCDEF"[d] as int)
  {
  }

  /** The number a text spells, the characters that are not digits left out. */
  function Value(str: seq<byte>, radix: nat): nat {
    if str == [] then 0
    else
      var k := |str| - 1;
      match DigitOf(str[k], radix)
      case None => Value(str[..k], radix)
      case Some(d) => Value(str[..k], radix) * radix + d
  }

  /** `str_radix_guess`: the text without its prefix, and the radix. */
  function RadixGuess(str: seq<byte>, radix: nat): (seq<byte>, nat) {
    if radix != 0 then (str, radix)
    else if |str| >= 2 && str[0] == '0' as int && (str[1] == 'x' as int || str[1] == 'X' as int) then (str[2..], 16)
    else if |str| >= 1 && str[0] == '0' as int && |str| != 1 then (str[1..], 8)
    else (str, 10)
  }

  /** The prefixes 0x, 0X and 0 stand for the radices 16 and 8, if none is given; a text without them, or a single 0,
      is decimal. */
  lemma PrefixDecides(text: seq<byte>, c: byte, radix: nat)
    ensures RadixGuess([0x30, 0x78] + text, 0) == RadixGuess([0x30, 0x58] + text, 0) == (text, 16)
    ensures c != 0x78 && c != 0x58 ==> RadixGuess([0x30, c] + text, 0) == ([c] + text, 8)
    ensures c != 0x30 ==> RadixGuess([c] + text, 0) == ([c] + text, 10)
    ensures RadixGuess([0x30], 0) == ([0x30], 10) && RadixGuess([], 0) == ([], 10)
    ensures radix != 0 ==> RadixGuess(text, radix) == (text, radix)
  {
    assert ([0x30, 0x78] + text)[2..] == text && ([0x30, 0x58] + text)[2..] == text;
    assert ([0x30, c] + text)[1..] == [c] + text;
  }

  /** A letter between A and Z in lower case, any other character as it is. */
  function LowerCase(c: byte): byte { if 0x41 <= c <= 0x5a then c + 0x20 else c }

  function Lowered(str: seq<byte>): (r: seq<byte>)
    ensures |r| == |str|
  {
    seq(|str|, k requires 0 <= k < |str| => LowerCase(str[k]))
  }

  lemma LoweredSlice(str: seq<byte>, i: nat, j: nat)
    requires i <= j <= |str|
    ensures Lowered(str[i..j]) == Lowered(str)[i..j]
  {
  }

  /** Two texts that differ in the case of letters only spell the same. */
  lemma {:induction false} ValueIgnoresCase(s: seq<byte>, t: seq<byte>, radix: nat)
    requires Lowered(s) == Lowered(t)
    ensures Value(s, radix) == Value(t, radix)
    decreases |s|
  {
    assert |s| == |Lowered(s)| == |t|;
    if s != [] {
      var k := |s| - 1;
      LoweredSlice(s, 0, k);
      LoweredSlice(t, 0, k);
      ValueIgnoresCase(s[..k], t[..k], radix);
      assert LowerCase(s[k]) == Lowered(s)[k] == LowerCase(t[k]);
    }
  }

  /** They are in the same radix, too. */
  lemma GuessIgnoresCase(s: seq<byte>, t: seq<byte>, radix0: nat)
    requires Lowered(s) == Lowered(t)
    ensures RadixGuess(s, radix0).1 == RadixGuess(t, radix0).1
    ensures Lowered(RadixGuess(s, radix0).0) == Lowered(RadixGuess(t, radix0).0)
  {
    assert |s| == |Lowered(s)| == |t|;
    assert forall k :: 0 <= k < |s| ==> LowerCase(s[k]) == Lowered(s)[k] == LowerCase(t[k]);
    if |s| >= 1 {
      LoweredSlice(s, 1, |s|);
      LoweredSlice(t, 1, |t|);
    }
    if |s| >= 2 {
      LoweredSlice(s, 2, |s|);
      LoweredSlice(t, 2, |t|);
    }
  }

  /** So far: the `done` low bytes of the result and a carry, from the `taken` low bytes of the number. */
  ghost predicate Carried(done: seq<byte>, carry: nat, taken: seq<byte>, radix: nat, digit: nat) {
    carry < radix && LeVal(done) + carry * Pow(256, |done|) == LeVal(taken) * radix + digit
  }

  lemma CarryBound(carry: nat, x: byte, radix: nat)
    requires carry < radix
    ensures (carry + x * radix) / 256 < radix
  {
    Gap(x, 256, radix);
  }

  lemma CarryArithmetic(base: nat, lo: nat, carry: nat, x: nat, p: nat, m: nat, old0: nat, digit: nat, y: nat,
                        carry': nat)
    requires lo + carry * p == old0 * m + digit && carry + x * m == y + base * carry'
    ensures lo + p * y + carry' * (base * p) == (old0 + p * x) * m + digit
  {
    assert carry' * (base * p) == p * (base * carry') by { MulAssoc(carry', base, p); Swap(carry', base, p); }
    Distribute(p, y, base * carry');
    Distribute(p, carry, x * m);
    assert (p * x) * m == p * (x * m) by { MulAssoc(p, x, m); }
    Distribute(m, old0, p * x);
  }

  lemma CarryStep(done: seq<byte>, carry: nat, taken: seq<byte>, radix: nat, digit: nat, x: byte)
    requires |done| == |taken| && Carried(done, carry, taken, radix, digit)
    ensures var t := carry + x * radix; Carried(done + [t % 256], t / 256, taken + [x], radix, digit)
  {
    hide LeVal, Pow;
    var t := carry + x * radix;
    CarryBound(carry, x, radix);
    PowStep(256, |done|);
    QuotientAndRest(t, 256);
    LeValSnoc(done, t % 256);
    LeValSnoc(taken, x);
    CarryArithmetic(256, LeVal(done), carry, x, Pow(256, |done|), radix, LeVal(taken), digit, t % 256, t / 256);
  }

  lemma CarryEnd(done: seq<byte>, carry: nat, taken: seq<byte>, radix: nat, digit: nat)
    requires Carried(done, carry, taken, radix, digit)
    ensures LeVal(done) == (LeVal(taken) * radix + digit) % Pow(256, |done|)
  {
    hide LeVal, Pow;
    LeValBound(done);
    ModIs(LeVal(taken) * radix + digit, Pow(256, |done|), carry, LeVal(done));
  }

  /** The inner loop of `str_to_buf`: multiply the number in the buffer by the radix and add a digit.
      What does not fit is lost. */
  method TakeDigit(b256: array<byte>, radix: nat, digit: nat)
    requires digit < radix <= 16
    modifies b256
    ensures LeVal(b256[..]) == (old(LeVal(b256[..])) * radix + digit) % Pow(256, b256.Length)
  {
    hide LeVal, Pow, Carried;
    ghost var before := b256[..];
    var tmp: nat := digit;
    NothingCarried(b256[..0], before[..0], radix, digit);
    for j := 0 to b256.Length
      invariant forall k :: j <= k < b256.Length ==> b256[k] == before[k]
      invariant Carried(b256[..j], tmp, before[..j], radix, digit)
    {
      ghost var done := b256[..j];
      CarryStep(done, tmp, before[..j], radix, digit, before[j]);
      tmp := tmp + b256[j] * radix;
      b256[j] := tmp % 256;
      assert b256[..j + 1] == done + [b256[j]] && before[..j + 1] == before[..j] + [before[j]];
      tmp := tmp / 256;
    }
    assert b256[..b256.Length] == b256[..] && before[..b256.Length] == before;
    CarryEnd(b256[..], tmp, before, radix, digit);
  }

  lemma NothingCarried(done: seq<byte>, taken: seq<byte>, radix: nat, digit: nat)
    requires done == taken == [] && digit < radix
    ensures Carried(done, digit, taken, radix, digit)
  {
  }

  lemma LeValSnoc(s: seq<byte>, b: byte)
    ensures LeVal(s + [b]) == LeVal(s) + Pow(256, |s|) * b
  {
    LeValConcat(s, [b]);
    LeValOne(b);
  }

  /** Bytes needed for so many bits. */
  function BytesFor(bits: nat): nat { (bits + 7) / 8 }

  lemma BytesForBits(bits: nat)
    ensures bits <= 8 * BytesFor(bits) < bits + 8
  {
  }

  /** Only the low `bits` bits kept. */
  function Masked(s: seq<byte>, bits: nat): (r: seq<byte>)
    requires |s| == BytesFor(bits)
    ensures |r| == |s|
  {
    if bits % 8 == 0 then s
    else
      TopByte(s[bits / 8], bits % 8);
      s[bits / 8 := s[bits / 8] % Pow2(bits % 8)]
  }

  lemma MaskedAt(s: seq<byte>, bits: nat, i: nat)
    requires i < |s| == BytesFor(bits)
    ensures bits % 8 != 0 ==> s[i] % Pow2(bits % 8) < 256
    ensures Masked(s, bits)[i] == if i == bits / 8 && bits % 8 != 0 then s[i] % Pow2(bits % 8) else s[i]
  {
    TopByte(s[i], bits % 8);
  }

  lemma MaskedValue(s: seq<byte>, bits: nat)
    requires |s| == BytesFor(bits)
    ensures LeVal(Masked(s, bits)) == LeVal(s) % Pow2(bits)
  {
    hide LeVal, Pow, Pow2;
    LeValBound(s);
    var n, r := bits / 8, bits % 8;
    PowBytes(n);
    if r == 0 {
      ModIs(LeVal(s), Pow2(bits), 0, LeVal(s));
    } else {
      var low, top := s[..n], s[n];
      TopByte(top, r);
      assert s == low + [top];
      assert Masked(s, bits) == low + [top % Pow2(r)];
      LeValSnoc(low, top);
      LeValSnoc(low, top % Pow2(r));
      LeValBound(low);
      Pow2Add(8 * n, r);
      MaskArithmetic(LeVal(low), Pow(256, n), Pow2(r), top);
    }
  }

  lemma MaskArithmetic(low: nat, p: nat, q: nat, top: nat)
    requires low < p && q > 0
    ensures p * q > 0 && (low + p * top) % (p * q) == low + p * (top % q)
  {
    Positive(p, q);
    var k, r := top / q, top % q;
    Distribute(p, q * k, r);
    MulAssoc(p, q, k);
    Gap(r, q, p);
    Swap(p, q, 1);
    ModIs(low + p * top, p * q, k, low + p * r);
  }

  /** The low bytes of a number, padded with zeros. */
  function Resized(s: seq<byte>, n: nat): (r: seq<byte>)
    ensures |r| == n
  {
    if n <= |s| then s[..n] else s + seq(n - |s|, _ => 0)
  }

  lemma ResizedValue(s: seq<byte>, n: nat)
    ensures LeVal(Resized(s, n)) == LeVal(s) % Pow(256, n)
  {
    hide LeVal, Pow;
    LeValBound(Resized(s, n));
    if n <= |s| {
      assert s == s[..n] + s[n..];
      LeValConcat(s[..n], s[n..]);
      ModIs(LeVal(s), Pow(256, n), LeVal(s[n..]), LeVal(s[..n]));
    } else {
      var zeros: seq<byte> := seq(n - |s|, _ => 0);
      LeValConcat(s, zeros);
      LeValZeros(n - |s|);
      ModIs(LeVal(s), Pow(256, n), 0, LeVal(s));
    }
  }

  /** Reducing modulo a multiple first makes no difference. */
  lemma ModMod(v: nat, a: nat, b: nat)
    requires a > 0 && b > 0
    ensures a * b > 0 && v % (a * b) % a == v % a
  {
    Positive(a, b);
    var q, r := v / (a * b), v % (a * b);
    assert v == q * (a * b) + r;
    var k, x := r / a, r % a;
    assert r == k * a + x;
    assert q * (a * b) == (q * b) * a by { MulAssoc(q, b, a); }
    Distribute(a, q * b, k);
    ModIs(v, a, q * b + k, x);
  }

  lemma MaskAfterResize(v: nat, bits: nat)
    ensures v % Pow(256, BytesFor(bits)) % Pow2(bits) == v % Pow2(bits)
  {
    PowBytes(BytesFor(bits));
    Pow2Add(bits, 8 * BytesFor(bits) - bits);
    ModMod(v, Pow2(bits), Pow2(8 * BytesFor(bits) - bits));
  }

  lemma {:induction false} TextBound(text: seq<byte>, radix: nat)
    requires radix > 0
    ensures Value(text, radix) < Pow(radix, |text|)
    decreases |text|
  {
    hide DigitOf;
    if text != [] {
      var k := |text| - 1;
      TextBound(text[..k], radix);
      var v, p := Value(text[..k], radix), Pow(radix, k);
      match DigitOf(text[k], radix) {
        case None =>
          BoundArithmetic(v, p, 0, radix);
          MulMono(v, 1, radix);
        case Some(d) => BoundArithmetic(v, p, d, radix);
      }
      PowStep(radix, k);
    }
  }

  /** `n` equal characters, for the largest digit of the radix. */
  function Largest(n: nat, radix: nat): (text: seq<byte>)
    requires 8 <= radix <= 16
    ensures |text| == n
  {
    seq(n, _ => DigitChar(radix - 1))
  }

  lemma {:induction false} LargestValue(n: nat, radix: nat)
    requires 8 <= radix <= 16
    ensures Value(Largest(n, radix), radix) == Pow(radix, n) - 1
    decreases n
  {
    if n > 0 {
      LargestValue(n - 1, radix);
      assert Largest(n, radix)[..n - 1] == Largest(n - 1, radix);
      DigitCharIsDigit(radix - 1, radix);
      PowStep(radix, n - 1);
      LastDigit(Pow(radix, n - 1), radix);
    }
  }

  lemma LastDigit(p: nat, radix: nat)
    requires p > 0
    ensures (p - 1) * radix + (radix - 1) == radix * p - 1
  {
    Distribute(radix, p, -1);
  }

  lemma {:induction false} LargestBytes(n: nat)
    ensures LeVal(seq(n, _ => 255)) == Pow(256, n) - 1
    decreases n
  {
    if n > 0 {
      LargestBytes(n - 1);
      var s: seq<byte> := seq(n, _ => 255);
      assert s[1..] == seq(n - 1, _ => 255);
    }
  }

  /** `str_to_buf` has bytes enough for every text of `n` digits exactly if `TextFits` says so: for hexadecimal
      texts if rounding `n` to 24 bits does not make it smaller, for octal ones up to 5592410 digits and for
      decimal ones up to 1810. Each of the next lengths has a text that does not fit. */
  lemma EnoughBytes(n: nat, radix: nat)
    requires radix in {8, 10, 16}
    ensures TextFits(n, radix) <==>
      forall text: seq<byte> :: |text| == n ==> Value(text, radix) < Pow(256, BytesEstimate(n, radix))
    ensures radix == 16 ==> (TextFits(n, radix) <==> n <= Round24(n))
    ensures radix == 8 ==> (TextFits(n, radix) <==> 3 * n <= 8 * BytesEstimate(n, 8))
    ensures n <= (if radix == 16 then 16_777_216 else if radix == 8 then 5_592_410 else 1810) ==> TextFits(n, radix)
    ensures n == (if radix == 16 then 16_777_217 else if radix == 8 then 5_592_411 else 1811) ==> !TextFits(n, radix)
  {
    hide Pow, Value, BytesEstimate, Round24;
    if TextFits(n, radix) {
      forall text: seq<byte> | |text| == n ensures Value(text, radix) < Pow(256, BytesEstimate(n, radix)) {
        TextBound(text, radix);
      }
    } else {
      LargestValue(n, radix);
      assert Value(Largest(n, radix), radix) >= Pow(256, BytesEstimate(n, radix));
    }
    if radix == 16 {
      HexFits(n);
      HexFails();
    } else if radix == 8 {
      OctalTextFits(n);
      OctalTextFails();
    } else {
      if n <= 1810 {
        DecimalTextFits(n);
      }
      DecimalTextFails();
    }
  }

  /** `buf_to_str` has digits enough for all `n` bytes exactly if `BytesFit` says so: for octal digits always,
      for hexadecimal ones if rounding `n` does not make it smaller, for decimal ones up to 14368 bytes. */
  lemma EnoughDigits(n: nat, radix: nat)
    requires radix in {8, 10, 16}
    ensures BytesFit(n, radix) <==>
      forall s: seq<byte> :: |s| == n ==> LeVal(s) < Pow(radix, DigitsEstimate(n, radix))
    ensures radix == 8 ==> BytesFit(n, radix) && FitsBack(n, radix)
    ensures radix == 16 ==> (BytesFit(n, radix) <==> n <= Round24(n)) && (FitsBack(n, radix) <==> n <= Round24(n))
    ensures n <= (if radix == 16 then 16_777_216 else 14_368) ==> BytesFit(n, radix) && FitsBack(n, radix)
    ensures n == (if radix == 16 then 16_777_217 else 14_369) && radix != 8 ==> !BytesFit(n, radix)
  {
    hide Pow, LeVal, DigitsEstimate, FitsBack, Round24;
    if BytesFit(n, radix) {
      forall s: seq<byte> | |s| == n ensures LeVal(s) < Pow(radix, DigitsEstimate(n, radix)) {
        LeValBound(s);
      }
    } else {
      LargestBytes(n);
      var s: seq<byte> := seq(n, _ => 255);
      assert |s| == n && LeVal(s) >= Pow(radix, DigitsEstimate(n, radix));
    }
    if radix == 16 {
      HexFits(n);
      HexFails();
    } else if radix == 8 {
      OctalBytesFit(n);
    } else {
      if n <= 14_368 {
        DecimalBytesFit(n);
      }
      DecimalBytesFail();
    }
  }

  /** `str_to_buf`, on a text `str` of `str_len` characters with no NUL among them. What the estimated bytes have
      no room for is lost. */
  method StrToBuf(str: seq<byte>, buf: array<byte>, bufLen: nat, radix0: nat) returns (i: nat)
    requires 0 !in str && BytesFor(bufLen) <= buf.Length
    modifies buf
    ensures var (text, radix) := RadixGuess(str, radix0);
      if radix in {8, 10, 16} then
        && i == |text|
        && LeVal(buf[..BytesFor(bufLen)]) == Value(text, radix) % Pow(256, BytesEstimate(|text|, radix)) % Pow2(bufLen)
        && buf[BytesFor(bufLen)..] == old(buf[BytesFor(bufLen)..])
      else
        i == 0 && buf[..] == old(buf[..])
  {
    hide LeVal, Pow, Pow2, Value, DigitOf, BytesEstimate;
    var (text, radix) := RadixGuess(str, radix0);
    if !KnownRadix(radix) {
      return 0;
    }
    var b256Len := BytesEstimate(|text|, radix);
    var b256 := new byte[b256Len](_ => 0);
    ghost var p := Pow(256, b256Len);
    NoDigits(text, radix, b256[..], b256Len);
    i := 0;
    while i < |text|
      invariant buf[..] == old(buf[..])
      invariant i <= |text| && LeVal(b256[..]) == Value(text[..i], radix) % p
    {
      OneDigitMore(text, radix, i, p);
      var digit := DigitOf(text[i], radix);
      if digit.Some? {
        TakeDigit(b256, radix, digit.value);
      }
      i := i + 1;
    }
    assert text[..i] == text;
    FillBuf(b256, buf, bufLen);
    MaskAfterResize(LeVal(b256[..]), bufLen);
  }

  /** A text and the same text with letters in the other case leave the same buffer. */
  method StrToBufEitherCase(str: seq<byte>, other: seq<byte>, buf: array<byte>, copy: array<byte>, bufLen: nat,
                            radix0: nat)
    returns (i: nat, j: nat)
    requires 0 !in str && Lowered(str) == Lowered(other) && buf != copy
    requires BytesFor(bufLen) <= buf.Length && BytesFor(bufLen) <= copy.Length
    modifies buf, copy
    ensures i == j
    ensures if RadixGuess(str, radix0).1 in {8, 10, 16} then buf[..BytesFor(bufLen)] == copy[..BytesFor(bufLen)]
      else buf[..] == old(buf[..]) && copy[..] == old(copy[..])
  {
    hide LeVal, Pow, Pow2, Value, DigitOf, BytesEstimate, RadixGuess, Lowered;
    var n := BytesFor(bufLen);
    NoNulEither(str, other);
    GuessIgnoresCase(str, other, radix0);
    var (text, radix) := RadixGuess(str, radix0);
    var (text2, radix2) := RadixGuess(other, radix0);
    ValueIgnoresCase(text, text2, radix);
    assert |text| == |Lowered(text)| == |text2|;
    i := StrToBuf(str, buf, bufLen, radix0);
    j := StrToBuf(other, copy, bufLen, radix0);
    if KnownRadix(radix) {
      LeValUnique(buf[..n], copy[..n]);
    }
  }

  lemma NoNulEither(str: seq<byte>, other: seq<byte>)
    requires 0 !in str && Lowered(str) == Lowered(other)
    ensures 0 !in other
  {
    assert |str| == |Lowered(str)| == |other|;
    forall k | 0 <= k < |other| ensures other[k] != 0 {
      assert str[k] in str;
      assert LowerCase(str[k]) == Lowered(str)[k] && LowerCase(other[k]) == Lowered(other)[k];
    }
  }

  lemma NoDigits(text: seq<byte>, radix: nat, b: seq<byte>, n: nat)
    requires |b| == n && forall k :: 0 <= k < n ==> b[k] == 0
    ensures LeVal(b) == Value(text[..0], radix) % Pow(256, n)
  {
    assert b == seq(n, _ => 0);
    LeValZeros(n);
    ModIs(0, Pow(256, n), 0, 0);
  }

  lemma OneDigitMore(text: seq<byte>, radix: nat, i: nat, p: nat)
    requires i < |text| && p > 0
    ensures var d := DigitOf(text[i], radix);
      Value(text[..i + 1], radix) % p
        == (if d.Some? then (Value(text[..i], radix) % p * radix + d.value) % p else Value(text[..i], radix) % p)
  {
    assert text[..i + 1][..i] == text[..i];
    var d := DigitOf(text[i], radix);
    if d.Some? {
      ModMulAdd(Value(text[..i], radix), p, radix, d.value);
    }
  }

  /** The end of `str_to_buf`: copy, pad with zeros, mask. */
  method FillBuf(b256: array<byte>, buf: array<byte>, bufLen: nat)
    requires BytesFor(bufLen) <= buf.Length && b256 != buf
    modifies buf
    ensures LeVal(buf[..BytesFor(bufLen)]) == LeVal(b256[..]) % Pow(256, BytesFor(bufLen)) % Pow2(bufLen)
    ensures buf[BytesFor(bufLen)..] == old(buf[BytesFor(bufLen)..])
  {
    hide LeVal, Pow, Pow2;
    var n := BytesFor(bufLen);
    for j := 0 to n
      invariant forall k :: 0 <= k < j ==> buf[k] == if k < b256.Length then b256[k] else 0
      invariant forall k :: j <= k < buf.Length ==> buf[k] == old(buf[k])
    {
      if j < b256.Length {
        buf[j] := b256[j];
      } else {
        buf[j] := 0;
      }
    }
    ghost var s := buf[..n];
    assert s == Resized(b256[..], n);
    ResizedValue(b256[..], n);
    if bufLen % 8 != 0 {
      TopByte(buf[bufLen / 8], bufLen % 8);
      buf[bufLen / 8] := buf[bufLen / 8] % Pow2(bufLen % 8);
    }
    assert buf[..n] == Masked(s, bufLen);
    MaskedValue(s, bufLen);
  }

  lemma TopByte(b: byte, r: nat)
    ensures 0 <= b % Pow2(r) <= b
  {
    hide Pow2;
    SmallRemainder(b, Pow2(r));
  }

  lemma SmallRemainder(a: nat, p: nat)
    requires p > 0
    ensures a % p <= a
  {
    if a < p {
      QuotientIs(a, p, 0, a);
    }
  }

  ghost predicate Digits(s: seq<byte>, radix: nat) {
    forall k :: 0 <= k < |s| ==> s[k] < radix
  }

  /** The value of digits, most significant first. */
  function BeVal(digits: seq<byte>, radix: nat): nat {
    if digits == [] then 0 else BeVal(digits[..|digits| - 1], radix) * radix + digits[|digits| - 1]
  }

  lemma {:induction false} BeValConcat(a: seq<byte>, b: seq<byte>, radix: nat)
    requires radix > 0
    ensures BeVal(a + b, radix) == BeVal(a, radix) * Pow(radix, |b|) + BeVal(b, radix)
    decreases |b|
  {
    if b == [] {
      assert a + b == a;
    } else {
      var k := |b| - 1;
      assert (a + b)[..|a| + k] == a + b[..k];
      BeValConcat(a, b[..k], radix);
      ConcatArithmetic(BeVal(a, radix), Pow(radix, k), BeVal(b[..k], radix), radix);
    }
  }

  lemma ConcatArithmetic(x: nat, p: nat, y: nat, radix: nat)
    ensures (x * p + y) * radix == x * (radix * p) + y * radix
  {
    assert x * (radix * p) == x * p * radix by { MulAssoc(x, radix, p); Swap(x, radix, p); }
    Distribute(radix, x * p, y);
  }

  lemma PowStep(base: nat, n: nat)
    requires base > 0
    ensures Pow(base, n + 1) == base * Pow(base, n)
  {
  }

  lemma BeValOne(d: byte, radix: nat)
    ensures BeVal([d], radix) == d
  {
    assert [d][..0] == [];
  }

  lemma BeValCons(d: byte, s: seq<byte>, radix: nat)
    requires radix > 0
    ensures BeVal([d] + s, radix) == BeVal(s, radix) + Pow(radix, |s|) * d
  {
    hide BeVal, Pow;
    BeValConcat([d], s, radix);
    BeValOne(d, radix);
  }

  lemma {:induction false} BeValBound(s: seq<byte>, radix: nat)
    requires radix > 0 && Digits(s, radix)
    ensures BeVal(s, radix) < Pow(radix, |s|)
    decreases |s|
  {
    if s != [] {
      var k := |s| - 1;
      BeValBound(s[..k], radix);
      BoundArithmetic(BeVal(s[..k], radix), Pow(radix, k), s[k], radix);
    }
  }

  lemma BoundArithmetic(v: nat, p: nat, d: nat, radix: nat)
    requires v < p && d < radix
    ensures v * radix + d < radix * p
  {
    Gap(v, p, radix);
  }

  /** So far: the `done` low digits of the result and a carry, from the `taken` low digits. */
  ghost predicate CarriedUp(done: seq<byte>, carry: nat, taken: seq<byte>, radix: nat, x: nat)
    requires radix > 0
  {
    && carry < 256 && Digits(done, radix)
    && BeVal(done, radix) + carry * Pow(radix, |done|) == BeVal(taken, radix) * 256 + x
  }

  lemma CarryUpStep(done: seq<byte>, carry: nat, taken: seq<byte>, radix: nat, x: nat, d: byte)
    requires 0 < radix <= 16 && d < radix && |done| == |taken| && CarriedUp(done, carry, taken, radix, x)
    ensures var t := carry + d * 256;
      0 <= t % radix < 256 && 0 <= t / radix && CarriedUp([t % radix] + done, t / radix, [d] + taken, radix, x)
  {
    hide BeVal, Pow;
    var t := carry + d * 256;
    PowStep(radix, |done|);
    CarryUpBound(t, radix);
    BeValCons(t % radix, done, radix);
    BeValCons(d, taken, radix);
    CarryArithmetic(radix, BeVal(done, radix), carry, d, Pow(radix, |done|), 256, BeVal(taken, radix), x, t % radix,
                    t / radix);
  }

  lemma CarryUpBound(t: nat, radix: nat)
    requires 0 < radix <= 16 && t < 256 * radix
    ensures 0 <= t % radix < radix && 0 <= t / radix < 256
  {
    var q := t / radix;
    assert t == q * radix + t % radix;
    if q >= 256 {
      MulMono(radix, 256, q);
    }
  }

  lemma CarryUpEnd(done: seq<byte>, carry: nat, taken: seq<byte>, radix: nat, x: nat)
    requires radix > 0 && CarriedUp(done, carry, taken, radix, x)
    ensures Digits(done, radix) && BeVal(done, radix) == (BeVal(taken, radix) * 256 + x) % Pow(radix, |done|)
  {
    hide BeVal, Pow;
    BeValBound(done, radix);
    ModIs(BeVal(taken, radix) * 256 + x, Pow(radix, |done|), carry, BeVal(done, radix));
  }

  /** The inner loop of `buf_to_str`: multiply the number in the digits by 256 and add a byte. */
  method TakeByte(str: array<byte>, radix: nat, x: byte)
    requires 0 < radix <= 16 && Digits(str[..], radix)
    modifies str
    ensures Digits(str[..], radix)
    ensures BeVal(str[..], radix) == (old(BeVal(str[..], radix)) * 256 + x) % Pow(radix, str.Length)
  {
    hide BeVal, Pow, CarriedUp;
    ghost var before := str[..];
    var tmp: nat := x;
    var j := str.Length;
    NothingCarriedUp(str[j..], before[j..], radix, x);
    while j > 0
      invariant 0 <= j <= str.Length
      invariant forall k :: 0 <= k < j ==> str[k] == before[k]
      invariant CarriedUp(str[j..], tmp, before[j..], radix, x)
    {
      ghost var done := str[j..];
      CarryUpStep(done, tmp, before[j..], radix, x, before[j - 1]);
      tmp := tmp + str[j - 1] as nat * 256;
      str[j - 1] := tmp % radix;
      assert str[j - 1..] == [str[j - 1]] + done && before[j - 1..] == [before[j - 1]] + before[j..];
      tmp := tmp / radix;
      j := j - 1;
    }
    assert str[0..] == str[..] && before[0..] == before;
    CarryUpEnd(str[..], tmp, before, radix, x);
  }

  lemma NothingCarriedUp(done: seq<byte>, taken: seq<byte>, radix: nat, x: byte)
    requires done == taken == [] && radix > 0
    ensures CarriedUp(done, x, taken, radix, x)
  {
  }

  /** `DIGITS[d]` */
  function DigitChar(d: nat): byte
    requires d < 16
  {
    "0123456789ABCDEF"[d] as int
  }

  lemma DigitCharIsDigit(d: nat, radix: nat)
    requires d < radix <= 16
    ensures DigitOf(DigitChar(d), radix) == Some(d)
    ensures 0x30 <= DigitChar(d) <= 0x39 || 0x41 <= DigitChar(d) <= 0x46
  {
  }

  /** A text of so many digits, the letters among them in upper case. */
  ghost predicate IsNumeral(str: seq<byte>, radix: nat) {
    forall c :: c in str ==> DigitOf(c, radix).Some? && c == DigitChar(DigitOf(c, radix).value)
  }

  lemma InUpperCase(str: seq<byte>, radix: nat)
    requires radix <= 16 && IsNumeral(str, radix)
    ensures forall c :: c in str ==> 0x30 <= c <= 0x39 || 0x41 <= c <= 0x46
  {
    hide DigitOf, DigitChar;
    forall c | c in str ensures 0x30 <= c <= 0x39 || 0x41 <= c <= 0x46 {
      DigitCharIsDigit(DigitOf(c, radix).value, radix);
    }
  }

  lemma {:induction false} TextValue(digits: seq<byte>, str: seq<byte>, radix: nat)
    requires 0 < radix <= 16 && Digits(digits, radix) && |str| == |digits|
    requires forall k :: 0 <= k < |str| ==> str[k] == DigitChar(digits[k])
    ensures IsNumeral(str, radix) && Value(str, radix) == BeVal(digits, radix)
    decreases |str|
  {
    hide DigitOf, DigitChar;
    forall c | c in str ensures DigitOf(c, radix).Some? && c == DigitChar(DigitOf(c, radix).value) {
      var k :| 0 <= k < |str| && str[k] == c;
      DigitCharIsDigit(digits[k], radix);
    }
    if str != [] {
      var k := |str| - 1;
      TextValue(digits[..k], str[..k], radix);
      DigitCharIsDigit(digits[k], radix);
    }
  }

  /** `buf_to_str`: the text spells the buffer, as far as the estimated digits have room for it. None stands for
      NULL. */
  method BufToStr(buf: array<byte>, bufLen: nat, radix: nat) returns (r: Option<seq<byte>>)
    requires BytesFor(bufLen) <= buf.Length
    ensures r.Some? <==> radix in {8, 10, 16}
    ensures r.Some? ==>
      && |r.value| == DigitsEstimate(BytesFor(bufLen), radix) && IsNumeral(r.value, radix)
      && (forall c :: c in r.value ==> 0x30 <= c <= 0x39 || 0x41 <= c <= 0x46)
      && Value(r.value, radix) == LeVal(buf[..BytesFor(bufLen)]) % Pow2(bufLen) % Pow(radix, |r.value|)
  {
    hide LeVal, BeVal, Pow, Pow2, Value, DigitOf, IsNumeral, DigitsEstimate, Masked;
    if !KnownRadix(radix) {
      return None;
    }
    var strLen := DigitsEstimate(BytesFor(bufLen), radix);
    var str := new byte[strLen](_ => 0);
    var i := BytesFor(bufLen);
    ghost var s, p := buf[..i], Pow(radix, strLen);
    ghost var m := Masked(s, bufLen);
    MaskedValue(s, bufLen);
    NoBytes(str[..], m[i..], radix, strLen);
    while i > 0
      invariant 0 <= i <= |s| && Digits(str[..], radix)
      invariant BeVal(str[..], radix) == LeVal(m[i..]) % p
    {
      i := i - 1;
      var tmp := buf[i];
      MaskedAt(s, bufLen, i);
      if i == bufLen / 8 && bufLen % 8 != 0 {
        tmp := tmp % Pow2(bufLen % 8);
      }
      OneByteMore(m, i, p);
      TakeByte(str, radix, tmp);
    }
    assert m[0..] == m;
    Spell(str, radix);
    InUpperCase(str[..], radix);
    return Some(str[..]);
  }

  /** Its last loop: from digits to characters. */
  method Spell(str: array<byte>, radix: nat)
    requires 0 < radix <= 16 && Digits(str[..], radix)
    modifies str
    ensures IsNumeral(str[..], radix) && Value(str[..], radix) == old(BeVal(str[..], radix))
  {
    hide BeVal, Value, DigitOf, DigitChar;
    ghost var digits := str[..];
    for j := 0 to str.Length
      invariant forall k :: 0 <= k < j ==> digits[k] < 16 && str[k] == DigitChar(digits[k])
      invariant forall k :: j <= k < str.Length ==> str[k] == digits[k]
    {
      str[j] := DigitChar(str[j]);
    }
    TextValue(digits, str[..], radix);
  }

  lemma NoBytes(str: seq<byte>, none: seq<byte>, radix: nat, n: nat)
    requires none == [] && radix > 0 && |str| == n && forall k :: 0 <= k < n ==> str[k] == 0
    ensures Digits(str, radix) && BeVal(str, radix) == LeVal(none) % Pow(radix, n)
  {
    BeValZeros(str, radix);
    ModIs(0, Pow(radix, n), 0, 0);
  }

  lemma {:induction false} BeValZeros(s: seq<byte>, radix: nat)
    requires forall k :: 0 <= k < |s| ==> s[k] == 0
    ensures BeVal(s, radix) == 0
    decreases |s|
  {
    if s != [] {
      BeValZeros(s[..|s| - 1], radix);
    }
  }

  lemma OneByteMore(m: seq<byte>, i: nat, p: nat)
    requires i < |m| && p > 0
    ensures LeVal(m[i..]) % p == (LeVal(m[i + 1..]) % p * 256 + m[i]) % p
  {
    assert m[i..][1..] == m[i + 1..];
    ModMulAdd(LeVal(m[i + 1..]), p, 256, m[i]);
  }

  /** Texts of the same length and value are the same. */
  lemma {:induction false} NumeralUnique(a: seq<byte>, b: seq<byte>, radix: nat)
    requires |a| == |b| && 0 < radix <= 16 && IsNumeral(a, radix) && IsNumeral(b, radix)
    requires Value(a, radix) == Value(b, radix)
    ensures a == b
    decreases |a|
  {
    hide DigitOf, DigitChar;
    if a != [] {
      var k := |a| - 1;
      assert a[k] in a && b[k] in b;
      var da, db := DigitOf(a[k], radix).value, DigitOf(b[k], radix).value;
      QuotientIs(Value(a, radix), radix, Value(a[..k], radix), da);
      QuotientIs(Value(b, radix), radix, Value(b[..k], radix), db);
      NumeralUnique(a[..k], b[..k], radix);
      assert a == a[..k] + [a[k]] && b == b[..k] + [b[k]];
    }
  }

  /** There is room for every number of `n` bytes. */
  predicate Spacious(n: nat, radix: nat) {
    radix == 8 || (radix == 16 && n <= Round24(n)) || n <= 14_368
  }

  /** A buffer written out and read back is what it was, the bits beyond its length apart, exactly if its number
      fits the digits and the bytes there is room for. For buffers of the sizes named that is always so. It makes no
      difference whether the text is put in lower case on the way. */
  method BufThereAndBack(buf: array<byte>, bufLen: nat, copy: array<byte>, radix: nat, lower: bool)
    requires BytesFor(bufLen) <= buf.Length && BytesFor(bufLen) <= copy.Length && buf != copy && radix in {8, 10, 16}
    modifies copy
    ensures copy[..BytesFor(bufLen)] == Masked(buf[..BytesFor(bufLen)], bufLen) <==>
      var v, digits := LeVal(buf[..BytesFor(bufLen)]) % Pow2(bufLen), DigitsEstimate(BytesFor(bufLen), radix);
      v < Pow(radix, digits) && v < Pow(256, BytesEstimate(digits, radix))
    ensures Spacious(BytesFor(bufLen), radix) ==>
      copy[..BytesFor(bufLen)] == Masked(buf[..BytesFor(bufLen)], bufLen)
  {
    hide LeVal, Pow, Pow2, Value, DigitOf, Masked, DigitsEstimate, BytesEstimate, Round24, Lowered;
    var n := BytesFor(bufLen);
    ghost var s, digits := buf[..n], DigitsEstimate(n, radix);
    var r := BufToStr(buf, bufLen, radix);
    NoNul(r.value, radix);
    var text := if lower then Lowered(r.value) else r.value;
    LoweredTwice(r.value);
    NoNulEither(r.value, text);
    ValueIgnoresCase(r.value, text, radix);
    var i := StrToBuf(text, copy, bufLen, radix);
    MaskedValue(s, bufLen);
    ghost var v, q := LeVal(s) % Pow2(bufLen), Pow2(bufLen);
    Truncated(v, Pow(radix, digits), Pow(256, BytesEstimate(digits, radix)), q);
    if LeVal(copy[..n]) == v {
      LeValUnique(copy[..n], Masked(s, bufLen));
    }
    if Spacious(n, radix) {
      Survives(Masked(s, bufLen), radix);
    }
  }

  lemma LoweredTwice(str: seq<byte>)
    ensures Lowered(Lowered(str)) == Lowered(str)
  {
  }

  lemma Survives(s: seq<byte>, radix: nat)
    requires KnownRadix(radix) && Spacious(|s|, radix)
    ensures var digits := DigitsEstimate(|s|, radix);
      LeVal(s) < Pow(radix, digits) && LeVal(s) < Pow(256, BytesEstimate(digits, radix))
  {
    hide LeVal, Pow, DigitsEstimate, BytesEstimate, Round24;
    EnoughDigits(|s|, radix);
    LeValBound(s);
    PowExponentMono(256, |s|, BytesEstimate(DigitsEstimate(|s|, radix), radix));
  }

  /** Of a number below `q`. */
  lemma Truncated(v: nat, a: nat, b: nat, q: nat)
    requires a > 0 && b > 0 && v < q
    ensures v % a % b % q == v <==> v < a && v < b
  {
    ModBelow(v, a);
    ModBelow(v % a, b);
    ModBelow(v % a % b, q);
  }

  lemma ModBelow(v: nat, a: nat)
    requires a > 0
    ensures v % a <= v && (v % a == v <==> v < a)
  {
    if v < a {
      ModIs(v, a, 0, v);
    }
  }

  /** And so is a text of the length for a buffer, if its number fits there; exactly if it fits the bytes there is
      room for. */
  method StrThereAndBack(str: seq<byte>, bufLen: nat, radix: nat) returns (copy: seq<byte>)
    requires radix in {8, 10, 16} && |str| == DigitsEstimate(BytesFor(bufLen), radix)
    requires IsNumeral(str, radix) && Value(str, radix) < Pow2(bufLen)
    ensures copy == str <==> Value(str, radix) < Pow(256, BytesEstimate(|str|, radix))
    ensures Spacious(BytesFor(bufLen), radix) ==>
      copy == str
  {
    hide LeVal, Pow, Pow2, Value, DigitOf, DigitsEstimate, BytesEstimate, Round24;
    var n := BytesFor(bufLen);
    var buf := new byte[n](_ => 0);
    NoNul(str, radix);
    var i := StrToBuf(str, buf, bufLen, radix);
    var r := BufToStr(buf, bufLen, radix);
    assert buf[..n] == buf[..];
    ghost var v, q, room := Value(str, radix), Pow2(bufLen), Pow(256, BytesEstimate(|str|, radix));
    TextBound(str, radix);
    ghost var w := v % room;
    ModBelow(v, room);
    ModIs(w, q, 0, w);
    ModIs(w, Pow(radix, |str|), 0, w);
    if Value(r.value, radix) == v {
      NumeralUnique(r.value, str, radix);
    }
    if Spacious(n, radix) {
      FitsBuffer(v, bufLen, radix);
    }
    copy := r.value;
  }

  lemma FitsBuffer(v: nat, bufLen: nat, radix: nat)
    requires KnownRadix(radix) && v < Pow2(bufLen)
    requires Spacious(BytesFor(bufLen), radix)
    ensures v < Pow(256, BytesEstimate(DigitsEstimate(BytesFor(bufLen), radix), radix))
  {
    hide Pow, Pow2, DigitsEstimate, BytesEstimate, Round24;
    var n := BytesFor(bufLen);
    EnoughDigits(n, radix);
    PowBytes(n);
    PowMono(bufLen, 8 * n);
    PowExponentMono(256, n, BytesEstimate(DigitsEstimate(n, radix), radix));
  }

  lemma NoNul(str: seq<byte>, radix: nat)
    requires IsNumeral(str, radix)
    ensures 0 !in str
  {
  }
}
