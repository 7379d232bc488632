/** What is left of a product of a whole number and a constant in single precision: 24 significant bits, and
    then the ceiling (`ceil_f_to_u32` in binarybuffer.c). Conversion and multiplication round to nearest, ties to
    even, as section 4.3.1 of IEEE Std 754-2008 has it. */
module Floats {
  import opened Bits
  import opened Numbers

  /** How many bits `x` has beyond 24. */
  function Excess(x: nat): nat {
    if x < 0x100_0000 then 0 else 1 + Excess(x / 2)
  }

  /** `q` and `r` are quotient and remainder by `p`: the multiple of `p` that is nearest, with an even quotient
      when there are two. */
  function Nearest(q: nat, r: nat, p: nat): nat {
    if 2 * r < p || (2 * r == p && q % 2 == 0) then q * p else q * p + p
  }

  /** The float nearest to `x`. */
  function Round24(x: nat): nat {
    var p := Pow2(Excess(x));
    QuotientAndRest(x, p);
    Nearest(x / p, x % p, p)
  }

  lemma {:induction false} ExcessBound(x: nat)
    ensures x < 0x100_0000 * Pow2(Excess(x))
    ensures x >= 0x100_0000 ==> 0x80_0000 * Pow2(Excess(x)) <= x
    decreases x
  {
    if x >= 0x100_0000 {
      ExcessBound(x / 2);
    }
  }

  lemma NearestError(q: nat, r: nat, p: nat)
    requires r < p
    ensures 2 * Nearest(q, r, p) + p >= 2 * (q * p + r)
  {
  }

  /** Rounding takes away no more than one part in 2 to the 24. */
  lemma RoundError(x: nat)
    ensures 0x100_0000 * Round24(x) >= 0xff_ffff * x
  {
    hide Nearest, Excess, Pow2;
    var p := Pow2(Excess(x));
    QuotientAndRest(x, p);
    ExcessBound(x);
    NearestError(x / p, x % p, p);
    if x < 0x100_0000 {
      RoundExact(x);
    }
  }

  lemma RoundExact(x: nat)
    requires x <= 0x100_0000
    ensures Round24(x) == x
  {
    if x == 0x100_0000 {
      assert Excess(x / 2) == 0;
      assert Pow2(1) == 2;
    } else {
      assert Pow2(0) == 1;
    }
  }

  lemma HalfOfDouble(x: nat)
    ensures 2 * x / 2 == x
  {
  }

  /** Twice as much, with quotient and remainder by twice as much. */
  lemma NearestDoubles(x: nat, p: nat)
    requires p > 0
    ensures Nearest(2 * x / (2 * p), 2 * x % (2 * p), 2 * p) == 2 * Nearest(x / p, x % p, p)
  {
    var q, r := x / p, x % p;
    QuotientAndRest(x, p);
    MulAssoc(2, q, p);
    MulAssoc(q, 2, p);
    QuotientIs(2 * x, 2 * p, q, 2 * r);
  }

  /** Twice a float is a float. */
  lemma RoundDoubles(x: nat)
    ensures Round24(2 * x) == 2 * Round24(x)
  {
    hide Nearest, Pow2;
    HalfOfDouble(x);
    if x < 0x80_0000 {
      RoundExact(x);
      RoundExact(2 * x);
    } else if x < 0x100_0000 {
      RoundExact(x);
      EvenIsExact(x);
    } else {
      assert Excess(2 * x) == 1 + Excess(x);
      PowerDoubles(Excess(x));
      NearestDoubles(x, Pow2(Excess(x)));
    }
  }

  lemma PowerDoubles(n: nat)
    ensures Pow2(1 + n) == 2 * Pow2(n)
  {
  }

  lemma EvenIsExact(x: nat)
    requires 0x80_0000 <= x < 0x100_0000
    ensures Round24(2 * x) == 2 * x
  {
    HalfOfDouble(x);
    assert Excess(2 * x) == 1;
    assert Pow2(1) == 2;
  }

  lemma {:induction false} ScaledIsExact(m: nat, e: nat)
    requires m <= 0x100_0000
    ensures Round24(m * Pow2(e)) == m * Pow2(e)
    decreases e
  {
    hide Round24;
    if e == 0 {
      RoundExact(m);
    } else {
      ScaledIsExact(m, e - 1);
      RoundDoubles(m * Pow2(e - 1));
    }
  }

  /** A float is its own nearest. */
  lemma RoundTwice(x: nat)
    ensures Round24(Round24(x)) == Round24(x)
  {
    hide Excess, Pow2;
    var e := Excess(x);
    var p := Pow2(e);
    QuotientAndRest(x, p);
    ExcessBound(x);
    var q := x / p;
    BoundedQuotient(q, x % p, p);
    var m := if Nearest(q, x % p, p) == q * p then q else q + 1;
    Distribute(p, q, 1);
    assert Round24(x) == m * p;
    ScaledIsExact(m, e);
  }

  function Apart(x: nat, y: nat): nat { if x < y then y - x else x - y }

  /** No number that is not between two neighbouring multiples of `p` is nearer than the one chosen of these. */
  lemma NearestOfTwo(q: nat, r: nat, p: nat, z: nat)
    requires r < p && (z <= q * p || z >= q * p + p)
    ensures Apart(q * p + r, Nearest(q, r, p)) <= Apart(q * p + r, z)
  {
    var qp := q * p;
  }

  lemma MultipleOutside(q: nat, k: nat, p: nat)
    ensures k * p <= q * p || k * p >= q * p + p
  {
    if k <= q {
      MulMono(p, k, q);
    } else {
      MulMono(p, q + 1, k);
      Distribute(p, q, 1);
    }
  }

  /** When two are at the same distance it is the one with an even quotient. */
  lemma TieIsEven(x: nat)
    requires 2 * (x % Pow2(Excess(x))) == Pow2(Excess(x))
    ensures Round24(x) % (2 * Pow2(Excess(x))) == 0
  {
    hide Excess, Pow2;
    var p := Pow2(Excess(x));
    QuotientAndRest(x, p);
    var q := x / p;
    Distribute(p, q, 1);
    EvenTimes(if q % 2 == 0 then q else q + 1, p);
  }

  lemma EvenTimes(k: nat, p: nat)
    requires k % 2 == 0 && p > 0
    ensures k * p % (2 * p) == 0
  {
    var h := k / 2;
    assert k * p == h * (2 * p) by { MulAssoc(h, 2, p); }
    QuotientIs(k * p, 2 * p, h, 0);
  }

  /** Rounding to nearest: no float, a number of at most 24 bits times a power of two, is nearer to `x`. */
  lemma NoneIsNearer(x: nat, m: nat, e: nat)
    requires m <= 0x100_0000
    ensures Apart(x, Round24(x)) <= Apart(x, m * Pow2(e))
  {
    hide Excess, Nearest, Pow2, Apart;
    var n := Excess(x);
    var p := Pow2(n);
    QuotientAndRest(x, p);
    if x < 0x100_0000 {
      RoundExact(x);
      assert Apart(x, x) == 0 <= Apart(x, m * Pow2(e)) by { ApartItself(x); }
    } else {
      FloatOutside(x, m, e);
      NearestOfTwo(x / p, x % p, p, m * Pow2(e));
    }
  }

  lemma ApartItself(x: nat)
    ensures Apart(x, x) == 0
  {
  }

  /** No float lies between two multiples of the power that `x` is rounded to. */
  lemma FloatOutside(x: nat, m: nat, e: nat)
    requires m <= 0x100_0000 && x >= 0x100_0000
    ensures var p := Pow2(Excess(x)); x / p >= 0 && (m * Pow2(e) <= x / p * p || m * Pow2(e) >= x / p * p + p)
  {
    hide Excess, Pow2;
    var n := Excess(x);
    QuotientAndRest(x, Pow2(n));
    ExcessBound(x);
    if e >= n {
      Pow2Add(e - n, n);
      LargeFloat(x / Pow2(n), m, Pow2(e - n), Pow2(n), Pow2(e));
    } else {
      PowMono(e, n - 1);
      PowerDoubles(n - 1);
      LowFloat(x / Pow2(n), x % Pow2(n), m, Pow2(e), Pow2(n - 1), Pow2(n));
    }
  }

  lemma LargeFloat(q: nat, m: nat, a: nat, p: nat, b: nat)
    requires b == a * p
    ensures m * b <= q * p || m * b >= q * p + p
  {
    MulAssoc(m, a, p);
    MultipleOutside(q, m * a, p);
  }

  lemma LowFloat(q: nat, r: nat, m: nat, a: nat, h: nat, p: nat)
    requires m <= 0x100_0000 && a <= h && p == 2 * h && r < p && 0x80_0000 * p <= q * p + r
    ensures m * a <= q * p
  {
    SmallFloat(m, a, h);
    HighBit(q, r, p);
  }

  lemma SmallFloat(m: nat, a: nat, b: nat)
    requires m <= 0x100_0000 && a <= b
    ensures m * a <= 0x80_0000 * (2 * b)
  {
    MulMono(a, m, 0x100_0000);
  }

  lemma HighBit(q: nat, r: nat, p: nat)
    requires r < p && 0x80_0000 * p <= q * p + r
    ensures 0x80_0000 * p <= q * p
  {
    if q < 0x80_0000 {
      assert false by { MultipleBelow(q, 0x80_0000, p); }
    } else {
      MulMono(p, 0x80_0000, q);
    }
  }

  lemma MultipleBelow(q: nat, k: nat, p: nat)
    requires q < k
    ensures q * p + p <= k * p
  {
    MultipleOutside(q, k, p);
    MulMono(p, q + 1, k);
    Distribute(p, q, 1);
  }

  lemma BoundedQuotient(q: nat, r: nat, p: nat)
    requires q * p + r < 0x100_0000 * p
    ensures q < 0x100_0000
  {
    if q >= 0x100_0000 {
      MulMono(p, 0x100_0000, q);
    }
  }

  /** The smallest whole number that is no less than `x / d`. */
  function Ceil(x: nat, d: nat): (c: nat)
    requires d > 0
    ensures c * d >= x && (c > 0 ==> (c - 1) * d < x)
  {
    QuotientAndRest(x + d - 1, d);
    Distribute(d, (x + d - 1) / d, -1);
    (x + d - 1) / d
  }

  /** `n * (m / d)` in single precision, rounded up. The constant `m / d` is a float, `d` a power of two. */
  function Scaled(n: nat, m: nat, d: nat): nat
    requires d > 0
  {
    Ceil(Round24(Round24(n) * m), d)
  }

  /** It falls short by no more than two roundings. */
  lemma ScaledBound(n: nat, m: nat, d: nat)
    requires d > 0
    ensures 0x1_0000_0000_0000 * (d * Scaled(n, m, d)) >= 0xff_ffff * 0xff_ffff * (n * m)
  {
    hide Round24, Ceil;
    var a, b := Round24(n), Round24(Round24(n) * m);
    RoundError(n);
    TimesBound(0x100_0000, a, 0xff_ffff, n, m);
    RoundError(a * m);
    CeilTimes(b, d);
    TwoRoundings(n * m, a * m, b, d * Scaled(n, m, d));
  }

  lemma TimesBound(u: nat, a: nat, k: nat, n: nat, m: nat)
    requires u * a >= k * n
    ensures u * (a * m) >= k * (n * m)
  {
    MulMono(m, k * n, u * a);
    MulAssoc(u, a, m);
    MulAssoc(k, n, m);
  }

  lemma CeilTimes(x: nat, d: nat)
    requires d > 0
    ensures d * Ceil(x, d) >= x
  {
    var c := Ceil(x, d);
    assert d * c == c * d;
  }

  lemma TwoRoundings(x: nat, y: nat, z: nat, c: nat)
    requires 0x100_0000 * y >= 0xff_ffff * x && 0x100_0000 * z >= 0xff_ffff * y && c >= z
    ensures 0x1_0000_0000_0000 * c >= 0xff_ffff * 0xff_ffff * x
  {
  }
}
