/** Powers of ten against powers of 256: exact comparisons of numbers with thousands of digits, by way of bounds
    with few of them. */
module Powers {
  import opened Bits
  import opened Numbers

  /** The number a * 2^e. */
  datatype Scientific = Scientific(a: nat, e: nat)
  {
    function Value(): nat { a * Pow2(e) }
  }

  /** `a / d`, rounded down or `up`. */
  function Quotient(a: nat, d: nat, up: bool): nat
    requires d > 0
  {
    if up then (a + d - 1) / d else a / d
  }

  /** So many bytes are dropped that 44 bits are left. */
  function Dropped(a: nat): nat {
    if a < 0x1000_0000_0000 then 0
    else if a < 0x10_0000_0000_0000 then 1
    else if a < 0x1000_0000_0000_0000 then 2
    else if a < 0x10_0000_0000_0000_0000 then 3
    else if a < 0x1000_0000_0000_0000_0000 then 4
    else if a < 0x10_0000_0000_0000_0000_0000 then 5
    else 6
  }

  function Unit(bytes: nat): nat {
    match bytes
    case 0 => 1
    case 1 => 0x100
    case 2 => 0x1_0000
    case 3 => 0x100_0000
    case 4 => 0x1_0000_0000
    case 5 => 0x100_0000_0000
    case _ => 0x1_0000_0000_0000
  }

  function Trim(a: nat, e: nat, up: bool): Scientific {
    var n := Dropped(a);
    Scientific(Quotient(a, Unit(n), up), e + 8 * n)
  }

  /** 5 to the `k`, squaring and trimming. */
  function Fives(k: nat, up: bool): Scientific {
    if k == 0 then Scientific(1, 0)
    else
      var h := Fives(k / 2, up);
      Trim(h.a * h.a * (if k % 2 == 1 then 5 else 1), 2 * h.e, up)
  }

  lemma UnitIsPower(n: nat)
    requires n <= 6
    ensures Pow2(8 * n) == Unit(n)
  {
    hide Unit, Pow, Pow2;
    PowBytes(n);
    OneUnit(n);
  }

  lemma OneUnit(n: nat)
    requires n <= 6
    ensures Pow(256, n) == Unit(n)
  {
    assert Pow(256, 0) == 1;
    assert Pow(256, 1) == 0x100;
    assert Pow(256, 2) == 0x1_0000;
    assert Pow(256, 3) == 0x100_0000;
    assert Pow(256, 4) == 0x1_0000_0000;
    assert Pow(256, 5) == 0x100_0000_0000;
    assert Pow(256, 6) == 0x1_0000_0000_0000;
  }

  lemma QuotientBound(a: nat, d: nat, up: bool)
    requires d > 0
    ensures Quotient(a, d, up) >= 0
    ensures if up then a <= Quotient(a, d, up) * d else Quotient(a, d, up) * d <= a
  {
    var b := if up then a + d - 1 else a;
    assert b == b / d * d + b % d;
  }

  lemma TrimBound(a: nat, e: nat, up: bool)
    ensures if up then a * Pow2(e) <= Trim(a, e, up).Value() else Trim(a, e, up).Value() <= a * Pow2(e)
  {
    hide Pow2, Unit, Dropped, Quotient;
    FewDropped(a);
    var n := Dropped(a);
    UnitIsPower(n);
    QuotientBound(a, Unit(n), up);
    Pow2Add(8 * n, e);
    QuotientTimes(a, Quotient(a, Unit(n), up), Unit(n), Pow2(e), up);
  }

  lemma QuotientTimes(a: nat, b: nat, u: nat, p: nat, up: bool)
    requires if up then a <= b * u else b * u <= a
    ensures if up then a * p <= b * (u * p) else b * (u * p) <= a * p
  {
    MulAssoc(b, u, p);
    if up {
      MonoLeft(a, b * u, p);
    } else {
      MonoLeft(b * u, a, p);
    }
  }

  lemma MonoLeft(a: nat, b: nat, f: nat)
    requires a <= b
    ensures a * f <= b * f
  {
    MulMono(f, a, b);
  }

  lemma FewDropped(a: nat)
    ensures Dropped(a) <= 6
  {
  }

  lemma {:induction false} PowAdd(b: nat, m: nat, n: nat)
    requires b > 0
    ensures Pow(b, m + n) == Pow(b, m) * Pow(b, n)
    decreases m
  {
    if m > 0 {
      PowAdd(b, m - 1, n);
      MulAssoc(b, Pow(b, m - 1), Pow(b, n));
    }
  }

  /** The square of a product. */
  lemma Squared(a: nat, p: nat)
    ensures (a * p) * (a * p) == a * a * (p * p)
  {
    MulAssoc(a * p, a, p);
    MulAssoc(a, p, a);
    Swap(a, p, a);
    MulAssoc(a * a, p, p);
  }

  lemma SquareMono(x: nat, y: nat)
    requires x <= y
    ensures x * x <= y * y
  {
    MulMono(x, x, y);
    MulMono(y, x, y);
  }

  /** The bounds hold. */
  lemma {:induction false} FivesBound(k: nat, up: bool)
    ensures if up then Pow(5, k) <= Fives(k, up).Value() else Fives(k, up).Value() <= Pow(5, k)
    decreases k
  {
    hide Pow, Pow2, Trim, Unit, Dropped;
    if k == 0 {
      assert Pow(5, 0) == 1 && Pow2(0) == 1 by { ZeroPowers(); }
    } else {
      var h, f := Fives(k / 2, up), if k % 2 == 1 then 5 else 1;
      FivesBound(k / 2, up);
      FiveSteps(k);
      Squared(h.a, Pow2(h.e));
      Pow2Add(h.e, h.e);
      var square, v := h.a * h.a, Pow(5, k / 2);
      assert h.Value() * h.Value() == square * Pow2(2 * h.e);
      if up {
        SquareMono(v, h.Value());
      } else {
        SquareMono(h.Value(), v);
      }
      MulAssoc(f, square, Pow2(2 * h.e));
      assert square * f == f * square;
      TrimBound(square * f, 2 * h.e, up);
    }
  }

  lemma ZeroPowers()
    ensures Pow(5, 0) == 1 && Pow2(0) == 1
  {
  }

  lemma FiveSteps(k: nat)
    requires k > 0
    ensures Pow(5, k) == (if k % 2 == 1 then 5 else 1) * (Pow(5, k / 2) * Pow(5, k / 2))
  {
    var m := k / 2;
    PowAdd(5, m, m);
    if k % 2 == 1 {
      assert k == 1 + (m + m);
      assert Pow(5, k) == 5 * Pow(5, k - 1);
    }
  }

  lemma Start(up: bool)
    ensures Fives(0, up) == Scientific(1, 0)
  {
  }

  lemma Doubled(k: nat, h: Scientific, r: Scientific, up: bool)
    requires Fives(k, up) == h && r == Trim(h.a * h.a, 2 * h.e, up)
    ensures Fives(2 * k, up) == r
  {
    hide Trim, Fives;
    if k == 0 {
      Start(up);
      TrimOne(up);
    } else {
      FivesStep(2 * k, up);
      Halves(k);
    }
  }

  lemma Halves(k: nat)
    ensures 2 * k / 2 == k && 2 * k % 2 == 0 && (2 * k + 1) / 2 == k && (2 * k + 1) % 2 == 1
  {
  }

  lemma FivesStep(k: nat, up: bool)
    requires k > 0
    ensures var h := Fives(k / 2, up); Fives(k, up) == Trim(if k % 2 == 1 then h.a * h.a * 5 else h.a * h.a, 2 * h.e,
                                                            up)
  {
    hide Trim;
  }

  lemma TrimOne(up: bool)
    ensures Trim(1, 0, up) == Scientific(1, 0)
  {
  }

  lemma DoubledAndOne(k: nat, h: Scientific, r: Scientific, up: bool)
    requires Fives(k, up) == h && r == Trim(h.a * h.a * 5, 2 * h.e, up)
    ensures Fives(2 * k + 1, up) == r
  {
    hide Trim, Fives;
    FivesStep(2 * k + 1, up);
    Halves(k);
  }

  /** Ten is twice five. */
  lemma {:induction false} TenIsTwiceFive(n: nat)
    ensures Pow(10, n) == Pow(5, n) * Pow2(n)
    decreases n
  {
    if n > 0 {
      TenIsTwiceFive(n - 1);
      TwiceFive(Pow(5, n - 1), Pow2(n - 1));
    }
  }

  lemma TwiceFive(a: nat, b: nat)
    ensures 5 * a * (2 * b) == 10 * (a * b)
  {
    MulAssoc(5 * a, 2, b);
    MulAssoc(5, a, 2);
    MulAssoc(10, a, b);
  }

  /** 10 to the `k` is below 256 to the `m`, as the bound `a` * 2^e of 5 to the `k` shows. */
  lemma TenBelow(k: nat, m: nat, r: Scientific, d: nat)
    requires Fives(k, true) == r && r.a < Pow2(d) && r.e + d + k <= 8 * m
    ensures Pow(10, k) < Pow(256, m)
  {
    hide Pow, Pow2, Fives;
    FivesBound(k, true);
    TenIsTwiceFive(k);
    PowBytes(m);
    Pow2Add(d, r.e);
    Pow2Add(d + r.e, k);
    Gap(r.a, Pow2(d), Pow2(r.e));
    Gap(Pow(5, k), Pow2(d + r.e), Pow2(k));
    PowMono(d + r.e + k, 8 * m);
  }

  /** Or above. */
  lemma TenAbove(k: nat, m: nat, r: Scientific, d: nat)
    requires Fives(k, false) == r && Pow2(d) < r.a && 8 * m <= r.e + d + k
    ensures Pow(256, m) < Pow(10, k)
  {
    hide Pow, Pow2, Fives;
    FivesBound(k, false);
    TenIsTwiceFive(k);
    PowBytes(m);
    Pow2Add(d, r.e);
    Pow2Add(d + r.e, k);
    Gap(Pow2(d), r.a, Pow2(r.e));
    Gap(Pow2(d + r.e), Pow(5, k), Pow2(k));
    PowMono(8 * m, d + r.e + k);
  }

  lemma SmallPowers()
    ensures Pow2(37) == 137_438_953_472 && Pow2(39) == 549_755_813_888 && Pow2(44) == 17_592_186_044_416
  {
    UnitIsPower(4);
    UnitIsPower(5);
    Pow2Add(32, 5);
    Pow2Add(32, 7);
    Pow2Add(40, 4);
    assert Pow2(4) == 16 && Pow2(5) == 32 && Pow2(7) == 128 by { Tiny(); }
  }

  lemma Tiny()
    ensures Pow2(4) == 16 && Pow2(5) == 32 && Pow2(7) == 128
  {
    assert Pow2(4) == 16;
    assert Pow2(6) == 64;
  }

  lemma Ten643()
    ensures Pow(10, 643) < Pow(256, 267)
  {
    hide Fives, Pow, Pow2;
    SmallPowers();
    Start(true);
    DoubledAndOne(0, Scientific(1, 0), Scientific(5, 0), true);
    Doubled(1, Scientific(5, 0), Scientific(25, 0), true);
    DoubledAndOne(2, Scientific(25, 0), Scientific(3125, 0), true);
    Doubled(5, Scientific(3125, 0), Scientific(9765625, 0), true);
    Doubled(10, Scientific(9765625, 0), Scientific(372529029847, 8), true);
    Doubled(20, Scientific(372529029847, 8), Scientific(126217744836, 56), true);
    Doubled(40, Scientific(126217744836, 56), Scientific(3709206150725, 144), true);
    Doubled(80, Scientific(3709206150725, 144), Scientific(12513019345148, 328), true);
    DoubledAndOne(160, Scientific(12513019345148, 328), Scientific(2781342323247, 704), true);
    DoubledAndOne(321, Scientific(2781342323247, 704), Scientific(137416569130, 1456), true);
    TenBelow(643, 267, Scientific(137416569130, 1456), 37);
  }

  lemma Ten1811()
    ensures Pow(256, 752) < Pow(10, 1811)
  {
    hide Fives, Pow, Pow2;
    SmallPowers();
    Start(false);
    DoubledAndOne(0, Scientific(1, 0), Scientific(5, 0), false);
    DoubledAndOne(1, Scientific(5, 0), Scientific(125, 0), false);
    DoubledAndOne(3, Scientific(125, 0), Scientific(78125, 0), false);
    Doubled(7, Scientific(78125, 0), Scientific(6103515625, 0), false);
    Doubled(14, Scientific(6103515625, 0), Scientific(2220446049250, 24), false);
    Doubled(28, Scientific(2220446049250, 24), Scientific(4484155085838, 88), false);
    DoubledAndOne(56, Scientific(4484155085838, 88), Scientific(357183559775, 224), false);
    Doubled(113, Scientific(357183559775, 224), Scientific(116033420793, 488), false);
    Doubled(226, Scientific(116033420793, 488), Scientific(3134774682327, 1008), false);
    DoubledAndOne(452, Scientific(3134774682327, 1008), Scientific(174559252545, 2064), false);
    DoubledAndOne(905, Scientific(174559252545, 2064), Scientific(138565759012, 4168), false);
    TenAbove(1811, 752, Scientific(138565759012, 4168), 37);
  }

  lemma Ten33961()
    ensures Pow(256, 14102) < Pow(10, 33961)
  {
    hide Fives, Pow, Pow2;
    SmallPowers();
    Start(false);
    DoubledAndOne(0, Scientific(1, 0), Scientific(5, 0), false);
    Doubled(1, Scientific(5, 0), Scientific(25, 0), false);
    Doubled(2, Scientific(25, 0), Scientific(625, 0), false);
    Doubled(4, Scientific(625, 0), Scientific(390625, 0), false);
    Doubled(8, Scientific(390625, 0), Scientific(152587890625, 0), false);
    DoubledAndOne(16, Scientific(152587890625, 0), Scientific(105879118406, 40), false);
    Doubled(33, Scientific(105879118406, 40), Scientific(2610121787160, 112), false);
    Doubled(66, Scientific(2610121787160, 112), Scientific(6196147063571, 264), false);
    DoubledAndOne(132, Scientific(6196147063571, 264), Scientific(681983153210, 576), false);
    Doubled(265, Scientific(681983153210, 576), Scientific(423006914627, 1192), false);
    DoubledAndOne(530, Scientific(423006914627, 1192), Scientific(813701489379, 2424), false);
    Doubled(1061, Scientific(813701489379, 2424), Scientific(602185640507, 4888), false);
    DoubledAndOne(2122, Scientific(602185640507, 4888), Scientific(1649039157349, 9816), false);
    Doubled(4245, Scientific(1649039157349, 9816), Scientific(2473216356948, 19672), false);
    Doubled(8490, Scientific(2473216356948, 19672), Scientific(5563196417165, 39384), false);
    DoubledAndOne(16980, Scientific(5563196417165, 39384), Scientific(549767420493, 78816), false);
    TenAbove(33961, 14102, Scientific(549767420493, 78816), 39);
  }

  lemma Ten34604()
    ensures Pow(10, 34604) < Pow(256, 14369)
  {
    hide Fives, Pow, Pow2;
    SmallPowers();
    Start(true);
    DoubledAndOne(0, Scientific(1, 0), Scientific(5, 0), true);
    Doubled(1, Scientific(5, 0), Scientific(25, 0), true);
    Doubled(2, Scientific(25, 0), Scientific(625, 0), true);
    Doubled(4, Scientific(625, 0), Scientific(390625, 0), true);
    Doubled(8, Scientific(390625, 0), Scientific(152587890625, 0), true);
    DoubledAndOne(16, Scientific(152587890625, 0), Scientific(105879118407, 40), true);
    DoubledAndOne(33, Scientific(105879118407, 40), Scientific(13050608936050, 112), true);
    DoubledAndOne(67, Scientific(13050608936050, 112), Scientific(3025462433501, 272), true);
    Doubled(135, Scientific(3025462433501, 272), Scientific(8324989663858, 584), true);
    Doubled(270, Scientific(8324989663858, 584), Scientific(246222430546, 1216), true);
    DoubledAndOne(540, Scientific(246222430546, 1216), Scientific(275692788382, 2472), true);
    Doubled(1081, Scientific(275692788382, 2472), Scientific(69127521389, 4984), true);
    DoubledAndOne(2162, Scientific(69127521389, 4984), Scientific(5563039115382, 10000), true);
    DoubledAndOne(4325, Scientific(5563039115382, 10000), Scientific(549736331111, 20048), true);
    Doubled(8651, Scientific(549736331111, 20048), Scientific(274858424513, 40136), true);
    Doubled(17302, Scientific(274858424513, 40136), Scientific(17589692381623, 80304), true);
    TenBelow(34604, 14369, Scientific(17589692381623, 80304), 44);
  }
}
