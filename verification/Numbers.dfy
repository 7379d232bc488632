/** Buffers as little-endian numbers. */
module Numbers {
  import opened Bits

  function Pow(b: nat, n: nat): (p: nat)
    requires b > 0
    ensures p > 0
  {
    if n == 0 then 1 else Positive(b, Pow(b, n - 1)); b * Pow(b, n - 1)
  }

  lemma QuotientIsNat(a: nat, b: nat)
    requires b > 0
    ensures a / b >= 0
  {
  }

  lemma Positive(a: nat, b: nat)
    requires a > 0 && b > 0
    ensures a * b > 0
  {
  }

  /** The value of a buffer, least significant byte first. */
  function LeVal(s: seq<byte>): nat {
    if s == [] then 0 else s[0] as nat + 256 * LeVal(s[1..])
  }

  lemma {:induction false} LeValBound(s: seq<byte>)
    ensures LeVal(s) < Pow(256, |s|)
    decreases |s|
  {
    if s != [] {
      LeValBound(s[1..]);
    }
  }

  lemma {:induction false} LeValConcat(s: seq<byte>, t: seq<byte>)
    ensures LeVal(s + t) == LeVal(s) + Pow(256, |s|) * LeVal(t)
    decreases |s|
  {
    if s == [] {
      assert s + t == t;
    } else {
      assert (s + t)[1..] == s[1..] + t;
      LeValConcat(s[1..], t);
      MulAssoc(256, Pow(256, |s| - 1), LeVal(t));
    }
  }

  lemma MulAssoc(a: nat, b: nat, c: nat)
    ensures a * b * c == a * (b * c)
  {
  }

  lemma Distribute(a: int, b: int, c: int)
    ensures a * (b + c) == a * b + a * c
  {
  }

  lemma LeValOne(b: byte)
    ensures LeVal([b]) == b
  {
    assert [b][1..] == [];
  }

  lemma {:induction false} LeValZeros(n: nat)
    ensures LeVal(seq(n, _ => 0)) == 0
    decreases n
  {
    if n > 0 {
      var z: seq<byte> := seq(n, _ => 0);
      assert z[1..] == seq(n - 1, _ => 0);
      LeValZeros(n - 1);
    }
  }

  /** A buffer of given length is determined by its value. */
  lemma {:induction false} LeValUnique(s: seq<byte>, t: seq<byte>)
    requires |s| == |t| && LeVal(s) == LeVal(t)
    ensures s == t
    decreases |s|
  {
    if s != [] {
      assert s[0] == t[0];
      LeValUnique(s[1..], t[1..]);
      assert s == [s[0]] + s[1..] && t == [t[0]] + t[1..];
    }
  }

  lemma MulMono(f: nat, a: nat, b: nat)
    requires a <= b
    ensures f * a <= f * b
  {
  }

  lemma Gap(lo: nat, hi: nat, d: nat)
    requires lo < hi
    ensures hi * d >= lo * d + d
  {
    Distribute(d, lo, hi - lo);
    assert (hi - lo) * d == d + (hi - lo - 1) * d;
  }

  lemma QuotientIs(a: nat, d: nat, q: nat, r: nat)
    requires d > 0 && a == q * d + r && r < d
    ensures a / d == q && a % d == r
  {
    var q2, r2 := a / d, a % d;
    assert a == q2 * d + r2;
    if q2 < q {
      Gap(q2, q, d);
    } else if q < q2 {
      Gap(q, q2, d);
    }
  }

  lemma DivDiv(a: nat, c: nat, d: nat)
    requires c > 0 && d > 0
    ensures c * d > 0 && a / (c * d) == a / c / d
  {
    Positive(c, d);
    var q, r := a / c / d, a / c % d;
    assert a / c == q * d + r;
    var x := a % c;
    assert a == (a / c) * c + x;
    assert a == (q * d + r) * c + x;
    assert (q * d + r) * c == q * (c * d) + r * c;
    Gap(r, d, c);
    assert r * c + x < c * d;
    QuotientIs(a, c * d, q, r * c + x);
  }

  lemma QuotientAndRest(x: nat, p: nat)
    requires p > 0
    ensures x / p >= 0 && x / p * p + x % p == x && 0 <= x % p < p
  {
  }

  /** Reducing early makes no difference. */
  lemma ModMulAdd(v: nat, p: nat, m: nat, d: nat)
    requires p > 0
    ensures (v % p * m + d) % p == (v * m + d) % p
  {
    QuotientAndRest(v, p);
    var q, r := v / p, v % p;
    var w := r * m + d;
    QuotientAndRest(w, p);
    Regrouped(v, p, m, d, q, r, w / p, w % p);
    QuotientIs(v * m + d, p, q * m + w / p, w % p);
  }

  lemma Regrouped(v: nat, p: nat, m: nat, d: nat, q: nat, r: nat, k: nat, x: nat)
    requires v == q * p + r && r * m + d == k * p + x
    ensures v * m + d == (q * m + k) * p + x
  {
    Distribute(m, q * p, r);
    Swap(q, p, m);
    Distribute(p, q * m, k);
  }

  lemma Swap(a: nat, b: nat, c: nat)
    ensures a * b * c == a * c * b
  {
  }

  lemma ModIs(a: nat, p: nat, k: nat, r: nat)
    requires p > 0 && a == k * p + r && r < p
    ensures a % p == r
  {
    QuotientIs(a, p, k, r);
  }

  /** 2 to the 8n is 256 to the n. */
  lemma {:induction false} PowBytes(n: nat)
    ensures Pow2(8 * n) == Pow(256, n)
    decreases n
  {
    if n > 0 {
      PowBytes(n - 1);
      Pow2Add(8, 8 * (n - 1));
      assert Pow2(8) == 256 by { EightBits(); }
    }
  }

  lemma EightBits()
    ensures Pow2(8) == 256
  {
    assert Pow2(4) == 16;
  }

  lemma {:induction false} Pow2Add(a: nat, b: nat)
    ensures Pow2(a + b) == Pow2(a) * Pow2(b)
    decreases a
  {
    if a > 0 {
      Pow2Add(a - 1, b);
      MulAssoc(2, Pow2(a - 1), Pow2(b));
    }
  }
}
