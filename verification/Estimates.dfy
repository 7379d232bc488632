/** How much room binarybuffer.c makes for a number in another radix, and when that is enough. */
module Estimates {
  import opened Bits
  import opened Numbers
  import opened Floats
  import opened Powers

  /** Bytes for `n` digits. The factors are 0.5, 0.375 and, for radix 10, the float nearest to 0.41524. */
  function BytesEstimate(n: nat, radix: nat): nat {
    if radix == 16 then Scaled(n, 1, 2)
    else if radix == 8 then Scaled(n, 3, 8)
    else Scaled(n, 13_933_142, 0x200_0000)
  }

  /** Digits for `n` bytes. The factors are 2 and the floats nearest to 2.66667 and 2.40824. */
  function DigitsEstimate(n: nat, radix: nat): nat {
    if radix == 16 then Scaled(n, 2, 1)
    else if radix == 8 then Scaled(n, 11_184_825, 0x40_0000)
    else Scaled(n, 10_100_891, 0x40_0000)
  }

  /** All numbers of `n` digits fit into the bytes. */
  ghost predicate TextFits(n: nat, radix: nat)
    requires radix > 0
  {
    Pow(radix, n) <= Pow(256, BytesEstimate(n, radix))
  }

  /** All numbers of `n` bytes fit into the digits. */
  ghost predicate BytesFit(n: nat, radix: nat)
    requires radix > 0
  {
    Pow(256, n) <= Pow(radix, DigitsEstimate(n, radix))
  }

  /** So that they can be read back, those digits have room for `n` bytes in turn. */
  predicate FitsBack(n: nat, radix: nat) {
    n <= BytesEstimate(DigitsEstimate(n, radix), radix)
  }

  lemma {:induction false} PowOfTwo(bits: nat, radix: nat, n: nat)
    requires radix == Pow2(bits)
    ensures Pow(radix, n) == Pow2(bits * n)
    decreases n
  {
    if n > 0 {
      PowOfTwo(bits, radix, n - 1);
      Distribute(bits, 1, n - 1);
      Pow2Add(bits, bits * (n - 1));
    }
  }

  lemma RadixBits()
    ensures Pow2(4) == 16 && Pow2(3) == 8
  {
  }

  lemma {:induction false} PowStrict(a: nat, b: nat)
    requires a < b
    ensures Pow2(a) < Pow2(b)
    decreases b
  {
    if a < b - 1 {
      PowStrict(a, b - 1);
    }
  }

  /** Powers of 16 and 8 against powers of 256. */
  lemma BinaryPowers(radix: nat, digits: nat, bytes: nat)
    requires radix == 16 || radix == 8
    ensures var bits := if radix == 16 then 4 else 3;
      && (Pow(radix, digits) <= Pow(256, bytes) <==> bits * digits <= 8 * bytes)
      && (Pow(256, bytes) <= Pow(radix, digits) <==> 8 * bytes <= bits * digits)
  {
    hide Pow, Pow2;
    var bits := if radix == 16 then 4 else 3;
    RadixBits();
    PowOfTwo(bits, radix, digits);
    PowBytes(bytes);
    var x, y := bits * digits, 8 * bytes;
    if x < y {
      PowStrict(x, y);
    } else if y < x {
      PowStrict(y, x);
    }
  }

  /** Hexadecimal digits of `n` bytes, and bytes of `n` digits. */
  lemma HexEstimates(n: nat)
    ensures DigitsEstimate(n, 16) == 2 * Round24(n)
    ensures BytesEstimate(n, 16) == Ceil(Round24(n), 2)
    ensures BytesEstimate(DigitsEstimate(n, 16), 16) == Round24(n)
  {
    hide Round24;
    var r := Round24(n);
    RoundTwice(n);
    RoundDoubles(r);
    RoundTwice(2 * r);
    assert Round24(r * 2) == r * 2 && Round24(r * 1) == r;
    assert DigitsEstimate(n, 16) == Ceil(2 * r, 1) == 2 * r;
    assert Round24(Round24(2 * r) * 1) == 2 * r;
    assert Ceil(2 * r, 2) == r;
  }

  /** In radix 16 all is well exactly if rounding the size does not make it smaller: so up to 2 to the 24. */
  lemma HexFits(n: nat)
    ensures BytesFit(n, 16) <==> n <= Round24(n)
    ensures FitsBack(n, 16) <==> n <= Round24(n)
    ensures TextFits(n, 16) <==> n <= Round24(n)
    ensures n <= 0x100_0000 ==> n <= Round24(n)
  {
    hide Pow, Round24;
    HexEstimates(n);
    BinaryPowers(16, DigitsEstimate(n, 16), n);
    BinaryPowers(16, n, BytesEstimate(n, 16));
    if n <= 0x100_0000 {
      RoundExact(n);
    } else {
      LargeIsEven(n);
    }
  }

  lemma LargeIsEven(n: nat)
    requires n > 0x100_0000
    ensures Round24(n) % 2 == 0
  {
    hide Pow2, Excess;
    var e := Excess(n);
    assert e > 0 by { LargeHasExcess(n); }
    PowerDoubles(e - 1);
    QuotientAndRest(n, Pow2(e));
    EvenMultiple(n / Pow2(e), Pow2(e - 1));
  }

  lemma LargeHasExcess(n: nat)
    requires n >= 0x100_0000
    ensures Excess(n) > 0
  {
  }

  lemma EvenMultiple(q: nat, h: nat)
    ensures q * (2 * h) % 2 == 0 && (q * (2 * h) + 2 * h) % 2 == 0
  {
    MulAssoc(q, 2, h);
    MulAssoc(2, q, h);
    assert q * (2 * h) == 2 * (q * h);
  }

  /** One byte, or one digit, more is one too many. */
  lemma HexFails()
    ensures DigitsEstimate(16_777_217, 16) == 33_554_432 && !BytesFit(16_777_217, 16) && !FitsBack(16_777_217, 16)
    ensures !TextFits(16_777_217, 16)
  {
    hide Pow;
    assert Round24(16_777_217) == 16_777_216 by {
      assert Excess(16_777_217) == 1 && Pow2(1) == 2;
    }
    HexEstimates(16_777_217);
    HexFits(16_777_217);
  }

  /** In radix 8 the digits are always enough, and so are the bytes for them. */
  lemma OctalBytesFit(n: nat)
    ensures BytesFit(n, 8) && FitsBack(n, 8)
  {
    hide Pow, Scaled;
    var d := DigitsEstimate(n, 8);
    ScaledBound(n, 11_184_825, 0x40_0000);
    ScaledBound(d, 3, 8);
    BinaryPowers(8, d, n);
  }

  /** Not so the bytes for other texts: the product 3n is rounded, too. */
  lemma OctalTextFits(n: nat)
    ensures TextFits(n, 8) <==> 3 * n <= 8 * BytesEstimate(n, 8)
    ensures n <= 5_592_410 ==> TextFits(n, 8)
  {
    hide Pow, Round24;
    BinaryPowers(8, n, BytesEstimate(n, 8));
    if n <= 5_592_405 {
      RoundExact(n);
      RoundExact(3 * n);
    } else if n <= 5_592_410 {
      RoundExact(n);
      JustAbove(3 * n);
    }
  }

  /** The first product that is rounded is 2 to the 24 and one more; rounding takes away no more than one. */
  lemma JustAbove(x: nat)
    requires 0x100_0000 < x < 0x200_0000
    ensures x - 1 <= Round24(x) <= x + 1
    ensures x % 4 == 1 ==> Round24(x) == x - 1
  {
    assert Excess(x) == 1 && Pow2(1) == 2 by {
      assert Excess(x / 2) == 0;
      assert Pow2(1) == 2;
    }
  }

  lemma OctalTextFails()
    ensures BytesEstimate(5_592_411, 8) == 2_097_154 && !TextFits(5_592_411, 8)
  {
    hide Pow, Round24;
    RoundExact(5_592_411);
    JustAbove(16_777_233);
    OctalTextFits(5_592_411);
  }

  lemma {:induction false} PowPow(b: nat, m: nat, n: nat)
    requires b > 0
    ensures Pow(b, m) > 0 && Pow(Pow(b, m), n) == Pow(b, m * n)
    decreases n
  {
    if n > 0 {
      PowPow(b, m, n - 1);
      PowAdd(b, m, m * (n - 1));
      Distribute(m, 1, n - 1);
    }
  }

  lemma {:induction false} PowBaseMono(x: nat, y: nat, n: nat)
    requires 0 < x <= y
    ensures Pow(x, n) <= Pow(y, n)
    decreases n
  {
    if n > 0 {
      PowBaseMono(x, y, n - 1);
      MulMono(x, Pow(x, n - 1), Pow(y, n - 1));
      MonoLeft(x, y, Pow(y, n - 1));
    }
  }

  lemma {:induction false} PowBaseStrict(x: nat, y: nat, n: nat)
    requires 0 < x < y && n > 0
    ensures Pow(x, n) < Pow(y, n)
  {
    PowBaseMono(x, y, n - 1);
    MulMono(x, Pow(x, n - 1), Pow(y, n - 1));
    Gap(x, y, Pow(y, n - 1));
  }

  lemma RootMono(u: nat, v: nat, p: nat)
    requires u > 0 && v > 0 && p > 0 && Pow(u, p) <= Pow(v, p)
    ensures u <= v
  {
    hide Pow;
    if v < u {
      PowBaseStrict(v, u, p);
    }
  }

  lemma PowSwap(b: nat, m: nat, n: nat)
    requires b > 0
    ensures Pow(Pow(b, m), n) == Pow(Pow(b, n), m)
  {
    hide Pow;
    PowPow(b, m, n);
    PowPow(b, n, m);
    SameProduct(m, n);
  }

  lemma SameProduct(m: nat, n: nat)
    ensures m * n == n * m
  {
  }

  lemma {:induction false} PowExponentMono(b: nat, m: nat, n: nat)
    requires b > 0 && m <= n
    ensures Pow(b, m) <= Pow(b, n)
    decreases n
  {
    if m < n {
      PowExponentMono(b, m, n - 1);
      MonoLeft(1, b, Pow(b, n - 1));
    }
  }

  /** If x^p <= y^q, then x^n <= y^m for every ratio m / n that is no less than q / p. */
  lemma Ratio(x: nat, y: nat, p: nat, q: nat, n: nat, m: nat)
    requires x > 0 && y > 0 && p > 0 && Pow(x, p) <= Pow(y, q) && q * n <= m * p
    ensures Pow(x, n) <= Pow(y, m)
  {
    hide Pow;
    PowSwap(x, n, p);
    PowBaseMono(Pow(x, p), Pow(y, q), n);
    PowPow(y, q, n);
    PowExponentMono(y, q * n, m * p);
    PowPow(y, m, p);
    RootMono(Pow(x, n), Pow(y, m), p);
  }

  /** In radix 10 the factor is below log 10 / log 256, but no fraction with a denominator below 1811 lies
      between the two. */
  lemma DecimalTextFits(n: nat)
    requires n <= 1810
    ensures TextFits(n, 10)
  {
    hide Pow, Scaled;
    var b := BytesEstimate(n, 10);
    ScaledBound(n, 13_933_142, 0x200_0000);
    if n > 0 {
      assert 1168 * b > 485 * n;
      assert 643 * b >= 267 * n;
    }
    Ten643();
    Ratio(10, 256, 643, 267, n, b);
  }

  lemma DecimalTextFails()
    ensures BytesEstimate(1811, 10) == 752 && !TextFits(1811, 10)
  {
    hide Pow, Round24;
    RoundExact(1811);
    RoundBig();
    Ten1811();
  }

  lemma RoundBig()
    ensures Round24(25_232_920_162) == 25_232_920_576
  {
    assert Excess(25_232_920_162) == 11;
    assert Pow2(11) == 2048;
  }

  /** The digits for `n` bytes: the factor is above log 256 / log 10, but rounding the product can bring it
      below. */
  lemma DecimalBytesFit(n: nat)
    requires n <= 14_368
    ensures BytesFit(n, 10) && FitsBack(n, 10)
  {
    hide Pow, Scaled;
    var d := DigitsEstimate(n, 10);
    ScaledBound(n, 10_100_891, 0x40_0000);
    ScaledBound(d, 13_933_142, 0x200_0000);
    if n > 0 {
      assert 267 * d > 643 * n;
      assert 14_102 * d >= 33_961 * n;
    }
    Ten33961();
    Ratio(256, 10, 14_102, 33_961, n, d);
  }

  lemma DecimalBytesFail()
    ensures DigitsEstimate(14_369, 10) == 34_604 && !BytesFit(14_369, 10)
  {
    hide Pow, Round24;
    RoundExact(14_369);
    RoundBigger();
    Ten34604();
  }

  lemma RoundBigger()
    ensures Round24(145_139_702_779) == 145_139_695_616
  {
    assert Excess(145_139_702_779) == 14;
    assert Pow2(14) == 16384;
  }
}
