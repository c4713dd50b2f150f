/** The shortest mode as a whole: the rounding interval of f * 2^e, what the digits mean, and where they fall short. */
module ShortestFormat {
  import opened Common
  import opened Words
  import opened WordSteps
  import opened Bigints
  import opened Decimal
  import opened Rounding
  import opened DragonDigits
  import opened Dragon
  import opened Shortest
  import opened ShortestDragon

  // ----- The rounding interval of f * 2^e -----

  /** m * 10^unit lies in the rounding interval of f * 2^e: half a unit in the last place around it, or a quarter below
      when the predecessor is closer. The upper end belongs to it for even significands, the lower one if `low`. */
  ghost predicate Covers(f: nat, e: int, closer: bool, low: bool, unit: int, m: int)
    requires f > 0
  {
    var w := 4 * m * RatioDen(e, unit);
    var bottom, top := RatioNum(4 * f - (if closer then 1 else 2), e, unit), RatioNum(4 * f + 2, e, unit);
    (if low then bottom <= w else bottom < w) && (if f % 2 == 0 then w <= top else w < top)
  }

  /** By how much m * 10^unit exceeds f * 2^e. */
  ghost function Excess(f: nat, e: int, unit: int, m: int): int {
    m * RatioDen(e, unit) - RatioNum(f, e, unit)
  }

  /** m * 10^unit is a closest multiple of the unit in the rounding interval, the even one of two. */
  ghost predicate Nearest(f: nat, e: int, closer: bool, low: bool, unit: int, m: int)
    requires f > 0
  {
    forall o :: Covers(f, e, closer, low, unit, o) && o != m ==>
      || Abs(Excess(f, e, unit, m)) < Abs(Excess(f, e, unit, o))
      || (Abs(Excess(f, e, unit, m)) == Abs(Excess(f, e, unit, o)) && m % 2 == 0)
  }

  /** A gap in the digit loop and the same gap in quarters of a unit in the last place. */
  lemma QuarterGap(f: nat, g: nat, den: nat, d: nat, n: nat, u: nat, m: int)
    requires f > 0 && n * den == f * g * d && n == u * (2 * f)
    ensures 2 * (u * den) == g * d
    ensures (m * d - n) * den == (m * den - f * g) * d
  {
    MulAssoc(u, 2 * f, den);
    MulAssoc(u, den, 2 * f);
    MulAssoc(f, g, d);
    MulAssoc(2, f, u * den);
    CancelFactor(2 * (u * den), g * d, f) by {
      MulAssoc(2, u * den, f);
    }
    SubtractProduct(m * d, n, den);
    SubtractProduct(m * den, f * g, d);
    MulAssoc(m, d, den);
    MulAssoc(m, den, d);
  }

  lemma NearCovers(f: nat, g: nat, den: nat, d: nat, n: nat, u: nat, l: nat, m: int, closer: bool)
    requires f > 0 && d > 0 && den > 0 && n * den == f * g * d && n == u * (2 * f)
    requires if closer then u == 2 * l else u == l
    ensures Sign(m * d - n - u) == Sign(4 * m * den - (4 * f + 2) * g)
    ensures Sign(n - m * d - l) == Sign((4 * f - (if closer then 1 else 2)) * g - 4 * m * den)
  {
    QuarterGap(f, g, den, d, n, u, m);
    var x := m * den - f * g;
    UpperScale(m * d - n, u, x, g, den, d);
    LowerScale(m * d - n, u, l, x, g, den, d, closer);
    DistributeRight(4 * f, 2, g);
    SubtractProduct(4 * f, if closer then 1 else 2, g);
    MulAssoc(4, f, g);
    MulAssoc(4, m, den);
  }

  lemma UpperScale(gap: int, u: nat, x: int, g: nat, den: nat, d: nat)
    requires d > 0 && den > 0 && gap * den == x * d && 2 * (u * den) == g * d
    ensures Sign(gap - u) == Sign(4 * x - 2 * g)
  {
    SubtractProduct(gap, u, den);
    SubtractProduct(2 * x, g, d);
    MulAssoc(2, x, d);
    SignProduct(gap - u, den);
    SignProduct(2 * x - g, d);
    assert 2 * ((gap - u) * den) == (2 * x - g) * d;
  }

  lemma LowerScale(gap: int, u: nat, l: nat, x: int, g: nat, den: nat, d: nat, closer: bool)
    requires d > 0 && den > 0 && gap * den == x * d && 2 * (u * den) == g * d && (if closer then u == 2 * l else u == l)
    ensures Sign(-gap - l) == Sign(0 - 4 * x - (if closer then 1 else 2) * g)
  {
    var c := if closer then 1 else 2;
    SubtractProduct(0 - gap, l, den);
    SubtractProduct(0, gap, den);
    SubtractProduct(0 - 4 * x, c * g, d);
    SubtractProduct(0, 4 * x, d);
    MulAssoc(4, x, d);
    MulAssoc(c, g, d);
    MulAssoc(2, l, den);
    SignProduct(0 - gap - l, den);
    SignProduct(0 - 4 * x - c * g, d);
    assert 4 * ((0 - gap - l) * den) == (0 - 4 * x - c * g) * d;
  }

  // ----- From the digit loop to the interval -----

  /** The interval of the digit loop is that of f * 2^e, scaled by 10^-x. */
  ghost predicate Scales(v: Interval, f: nat, e: int, x: int, closer: bool) {
    && f > 0 && v.Valid() && v.n * RatioDen(e, x) == RatioNum(f, e, x) * v.d
    && v.n == v.u * (2 * f) && (if closer then v.u == 2 * v.l else v.u == v.l)
    && v.high == (f % 2 == 0)
  }

  lemma CrossShift(n: nat, d: nat, rn: nat, rd: nat, p: nat, rn': nat, rd': nat)
    requires rd > 0 && n * rd == rn * d && rn * p * rd' == rn' * rd
    ensures n * p * rd' == rn' * d
  {
    MulAssoc(n, rd, p * rd');
    MulAssoc(rn, d, p * rd');
    MulAssoc(rn, p, rd');
    MulAssoc(n, p, rd');
    MulAssoc(rn * p * rd', 1, d);
    MulAssoc(rn', rd, d);
    CrossEqual(n * p * rd', rn' * d, rd, n, rd, p * rd', rn, d, rn * p * rd', rn', rd);
  }

  lemma CrossEqual(a: nat, b: nat, rd0: nat, n: nat, rd: nat, pr: nat, rn: nat, d: nat, rnpr: nat, rn': nat, rd1: nat)
    requires rd0 == rd == rd1 && rd > 0 && a == n * pr && b == rn' * d && n * rd == rn * d && rnpr == rn * pr
             && rnpr == rn' * rd
    ensures a == b
  {
    MulAssoc(n, pr, rd);
    MulAssoc(n, rd, pr);
    MulAssoc(rn, d, pr);
    MulAssoc(rn, pr, d);
    MulAssoc(rn', rd, d);
    MulAssoc(rn', d, rd);
    CancelFactor(a, b, rd);
  }

  lemma WithinCovers(v: Interval, f: nat, e: int, x: int, closer: bool, k: nat, m: int)
    requires Scales(v, f, e, x, closer)
    ensures v.Within(k, m) <==> Covers(f, e, closer, v.low, x - k, m)
    ensures v.Gap(k, m) * RatioDen(e, x - k) == Excess(f, e, x - k, m) * v.d
  {
    var p, den, g := Pow(10, k), RatioDen(e, x - k), RatioNum(1, e, x - k);
    RatioShift(f, e, x, k);
    CrossShift(v.n, v.d, RatioNum(f, e, x), RatioDen(e, x), p, RatioNum(f, e, x - k), den);
    RatioFactor(f, e, x - k);
    RatioFactor(4 * f + 2, e, x - k);
    RatioFactor(4 * f - (if closer then 1 else 2), e, x - k);
    MulAssoc(v.u, 2 * f, p);
    MulAssoc(v.u, p, 2 * f);
    MulAssoc(2, v.l, p);
    QuarterGap(f, g, den, v.d, v.n * p, v.u * p, m);
    NearCovers(f, g, den, v.d, v.n * p, v.u * p, v.l * p, m, closer);
  }

  lemma AbsOrder(a: int, b: int, den: nat, a': int, b': int, d: nat)
    requires den > 0 && d > 0 && a * den == a' * d && b * den == b' * d
    ensures Abs(a) < Abs(b) <==> Abs(a') < Abs(b')
    ensures Abs(a) == Abs(b) <==> Abs(a') == Abs(b')
  {
    AbsScaled(a, den, a', d);
    AbsScaled(b, den, b', d);
    SubtractProduct(Abs(b), Abs(a), den);
    SubtractProduct(Abs(b'), Abs(a'), d);
    SignProduct(Abs(b) - Abs(a), den);
    SignProduct(Abs(b') - Abs(a'), d);
  }

  lemma AbsScaled(a: int, den: nat, a': int, d: nat)
    requires den > 0 && d > 0 && a * den == a' * d
    ensures Abs(a) * den == Abs(a') * d
  {
    SubtractProduct(0, a, den);
    SubtractProduct(0, a', d);
    SignProduct(a, den);
    SignProduct(a', d);
  }

  lemma ClosestNearest(v: Interval, f: nat, e: int, x: int, closer: bool, k: nat, m: int)
    requires Scales(v, f, e, x, closer) && v.Closest(k, m)
    ensures Nearest(f, e, closer, v.low, x - k, m)
  {
    var unit := x - k;
    forall o | Covers(f, e, closer, v.low, unit, o) && o != m
      ensures || Abs(Excess(f, e, unit, m)) < Abs(Excess(f, e, unit, o))
              || (Abs(Excess(f, e, unit, m)) == Abs(Excess(f, e, unit, o)) && m % 2 == 0)
    {
      WithinCovers(v, f, e, x, closer, k, m);
      WithinCovers(v, f, e, x, closer, k, o);
      AbsOrder(v.Gap(k, m), v.Gap(k, o), RatioDen(e, x - k), Excess(f, e, x - k, m), Excess(f, e, x - k, o), v.d);
    }
  }

  // ----- No decimal with fewer digits -----

  lemma {:induction false} TensTimes(v: Interval, k: nat, m: int)
    ensures v.Within(k, m * Pow(10, k)) <==> v.Within(0, m)
  {
    if k > 0 {
      TensTimes(v, k - 1, m);
      TenTimes(v, k - 1, m * Pow(10, k - 1));
      MulAssoc(10, m, Pow(10, k - 1));
      MulAssoc(m, 10, Pow(10, k - 1));
    } else {
      assert m * Pow(10, 0) == m;
    }
  }

  /** Zero is below every such interval. */
  lemma ZeroOutside(v: Interval, k: nat)
    requires v.Valid() && 2 * v.u <= v.n && v.l <= v.u
    ensures !v.Within(k, 0)
  {
    MulLess(v.l, v.n, Pow(10, k));
  }

  lemma NoneFewer(v: Interval, k: nat, j: nat, o: nat)
    requires v.Valid() && 2 * v.u <= v.n && v.l <= v.u && (v.d <= v.n || v.Within(0, 1))
    requires v.NoneBefore(k) && o < Pow(10, k)
    ensures !v.Within(j, o)
  {
    if j >= k && v.Within(j, o) {
      if k == 0 {
        assert Pow(10, 0) == 1;
        ZeroOutside(v, j);
      } else {
        BelowPower(v, k, j, o);
        TensTimes(v, j, 1);
      }
      assert false;
    }
  }

  /** What lies below the power of ten can only be in the interval if the power is. */
  lemma BelowPower(v: Interval, k: nat, j: nat, o: nat)
    requires v.Valid() && v.d <= v.n && j >= k && o < Pow(10, k) && v.Within(j, o)
    ensures v.Within(j, 1 * Pow(10, j))
  {
    PowMono(10, k, j);
    GapsBelow(o, Pow(10, j), v.d, v.n);
    PositiveProduct(v.u, Pow(10, j));
  }

  lemma GapsBelow(o: nat, p: nat, d: nat, n: nat)
    requires o <= p && d <= n
    ensures o * d - n * p <= 1 * p * d - n * p <= 0
  {
    MulLe(o, p, d);
    MulLe(d, n, p);
  }

  /** Counting in a larger unit. */
  lemma CoversUnit(f: nat, e: int, closer: bool, low: bool, u: int, v: int, t: nat, m: int)
    requires f > 0 && u == v + t
    ensures Covers(f, e, closer, low, u, m) <==> Covers(f, e, closer, low, v, m * Pow(10, t))
  {
    UnitSign(4 * f + 2, e, u, v, t, m);
    UnitSign(4 * f - (if closer then 1 else 2), e, u, v, t, m);
  }

  lemma UnitSign(n: nat, e: int, u: int, v: int, t: nat, m: int)
    requires u == v + t
    ensures Sign(4 * m * RatioDen(e, u) - RatioNum(n, e, u))
            == Sign(4 * (m * Pow(10, t)) * RatioDen(e, v) - RatioNum(n, e, v))
  {
    RatioMove(n, e, u, v, t);
    QuarterMoved(m, RatioNum(n, e, u), RatioDen(e, u), Pow(10, t), RatioNum(n, e, v), RatioDen(e, v));
  }

  lemma QuarterMoved(m: int, n: nat, d: nat, p: nat, n': nat, d': nat)
    requires d > 0 && p > 0 && d' > 0 && n * p * d' == n' * d
    ensures Sign(4 * m * d - n) == Sign(4 * (m * p) * d' - n')
  {
    SignMoved(4 * m, n, d, p, n', d');
    MulAssoc(4, m, p);
  }

  lemma SignMoved(m: int, n: nat, d: nat, p: nat, n': nat, d': nat)
    requires d > 0 && p > 0 && d' > 0 && n * p * d' == n' * d
    ensures Sign(m * d - n) == Sign(m * p * d' - n')
  {
    PositiveProduct(p, d');
    SubtractProduct(m * d, n, p * d');
    SubtractProduct(m * p * d', n', d);
    MulAssoc(n, p, d');
    MulSwap(m, d, p, d');
    MulAssoc(m * d, p, d');
    MulAssoc(m, d, p);
    MulAssoc(m, p, d);
    MulAssoc(m * p, d, d');
    MulAssoc(m * p, d', d);
    SignProduct(m * d - n, p * d');
    SignProduct(m * p * d' - n', d);
  }

  // ----- The word exponents of the set-ups -----

  /** Whether the digit loop counts the lower end as part of the interval: as it should, for even significands, when
      the compared numbers have one word exponent, and otherwise by the exponents alone. */
  ghost predicate LowEnd(f: nat, e: int, exp10: int, closer: bool) {
    if e < 0 then f % 2 == 0
    else Places((e + Shift(closer)) / 32, if exp10 >= 0 then exp10 / 32 else 0, e / 32, 0).Closed(f % 2 == 0)
  }

  /** A one-digit integer of at least 10^exp10 gets a zero when the decimal exponent reaches a word further than the
      binary one. */
  ghost predicate ExtraZero(f: nat, e: int, exp10: int, closer: bool, x: int) {
    && e >= 0 && exp10 / 32 > e / 32 && (e + Shift(closer)) / 32 > e / 32
    && x == exp10 && RatioNum(f, e, x) % RatioDen(e, x) == 0
  }

  /** A power of two in words. */
  lemma PowerWords(e: nat)
    ensures Pow(2, e) == Pow(BASE, e / 32) * Pow(2, e % 32)
    ensures Pow(BASE, e / 32) <= Pow(2, e) < Pow(BASE, e / 32 + 1)
    ensures e % 32 >= 30 ==> Pow(BASE, e / 32 + 1) <= 10 * Pow(2, e)
  {
    PowTwoBase(e / 32);
    PowAdd(2, 32 * (e / 32), e % 32);
    PowMono(2, e % 32, 31);
    PowTwo32();
    assert Pow(2, 32) == 2 * Pow(2, 31);
    var b, p := Pow(BASE, e / 32), Pow(2, e % 32);
    MulLe(1, p, b);
    MulLess(p, BASE, b);
    if e % 32 >= 30 {
      PowMono(2, 30, e % 32);
      assert Pow(2, 31) == 2 * Pow(2, 30);
      MulLe(BASE, 10 * p, b);
      MulAssoc(10, p, b);
    }
  }

  lemma WordBelow(b: Bigint)
    requires b.Normal()
    ensures Pow(BASE, b.exp) <= b.Value()
    ensures forall n: nat :: b.Value() < Pow(BASE, n) ==> b.NumBigits() <= n
    ensures forall n: nat :: Pow(BASE, n) <= b.Value() ==> b.NumBigits() > n
  {
    ScaledTop(b.bigits, b.exp);
    PowMono(BASE, b.exp, b.NumBigits() - 1);
    forall n: nat | b.Value() < Pow(BASE, n) ensures b.NumBigits() <= n {
      if b.NumBigits() > n {
        PowMono(BASE, n, b.NumBigits() - 1);
      }
    }
    forall n: nat | Pow(BASE, n) <= b.Value() ensures b.NumBigits() > n {
      PlacesAbove(b, n);
    }
  }

  /** Values below one are set up with equal exponents. */
  lemma SmallAligned(f: nat, e: int, exp10: int, shift: nat)
    requires f > 0 && e < 0 && exp10 < 0 && shift > 0 && RatioNum(f, e, exp10) < 10 * RatioDen(e, exp10)
    ensures -exp10 / 32 <= (shift - e) / 32
  {
    assert Pow(2, 0) == 1 && Pow(10, 0) == 1;
    MulLe(1, f, Pow(10, -exp10));
    assert Pow(10, -exp10) == 10 * Pow(10, -exp10 - 1);
    PowerOrder(-exp10 - 1, -e);
  }

  /** What the lower boundary's word exponent and places say about it. */
  ghost predicate PlacesOf(p: Places, l: nat) {
    && Pow(BASE, p.l) <= l
    && (forall n: nat :: l < Pow(BASE, n) ==> p.count <= n)
    && (forall n: nat :: Pow(BASE, n) <= l ==> p.count > n)
  }

  lemma ClosedIs(p: Places, f: nat, e: int, exp10: int, closer: bool)
    requires Input(f, e, exp10) && SetUpExponents(p.n, p.d, p.l, e, exp10, Shift(closer))
    requires RatioNum(f, e, exp10) < 10 * RatioDen(e, exp10)
    ensures p.Closed(f % 2 == 0) <==> LowEnd(f, e, exp10, closer)
    ensures e < 0 ==> p.Aligned() == p.l
  {
    if e < 0 && exp10 < 0 {
      SmallAligned(f, e, exp10, Shift(closer));
    }
  }

  /** The boundary as it enters the loop: `up` is 1 after a fix-up, else 0. */
  lemma DeepIs(p: Places, e: int, exp10: int, closer: bool, up: nat, l: nat)
    requires SetUpExponents(p.n, p.d, p.l, e, exp10, Shift(closer)) && PlacesOf(p, l) && up <= 1
    requires e >= 0 ==> exp10 >= 0 && l == Pow(2, e) * Pow(10, up)
    requires e < 0 ==> p.Aligned() == p.l
    ensures p.Deep() <==> e >= 0 && exp10 / 32 > e / 32 && (e + Shift(closer)) / 32 > e / 32 && up == 0
    ensures Pow(BASE, p.Aligned()) <= 10 * l
  {
    assert p.count > p.l;
    assert Pow(10, 0) == 1 && Pow(10, 1) == 10;
    if e < 0 || p.Aligned() <= p.l {
      PowMono(BASE, p.Aligned(), p.l);
    } else {
      PowerWords(e);
      assert p.Aligned() == e / 32 + 1 && e % 32 >= 30;
    }
  }

  lemma DeepSmall(p: Places, e: int, exp10: int, closer: bool, u: nat, d: nat)
    requires SetUpExponents(p.n, p.d, p.l, e, exp10, Shift(closer))
    requires e >= 0 && exp10 / 32 > e / 32 && u == Pow(2, e) * (if closer then 2 else 1)
    requires d == RatioDen(e, exp10) * Pow(2, Shift(closer))
    ensures p.n <= p.d && 10 * u < d
  {
    TwoPowers(closer);
    PowMono(10, e + 1, exp10);
    assert Pow(10, e + 1) == 10 * Pow(10, e);
    PowBases(2, 10, e);
    assert RatioDen(e, exp10) == Pow(10, exp10);
  }

  lemma ModScaled(a: nat, b: nat, c: nat)
    requires b > 0 && c > 0
    ensures b * c > 0 && ((a * c) % (b * c) == 0 <==> a % b == 0)
  {
    PositiveProduct(b, c);
    var q, r := a / b, a % b;
    assert a == q * b + r;
    DistributeRight(q * b, r, c);
    MulAssoc(q, b, c);
    MulLe(r + 1, b, c);
    DistributeRight(r, 1, c);
    ModUnique(a * c, b * c, q, r * c);
    if r > 0 {
      PositiveProduct(r, c);
    }
  }

  // ----- The formatter -----

  /** The loop's interval after set-up and fix-up. */
  lemma IntervalScales(v: Interval, f: nat, e: int, exp10: int, x: int, closer: bool, c: nat, u0: nat, l0: nat)
    requires f > 0 && c > 0 && exp10 - 1 <= x <= exp10 && v.Valid() && v.high == (f % 2 == 0)
    requires RatioNum(f, e, exp10) * c == u0 * (2 * f) && (if closer then u0 == 2 * l0 else u0 == l0)
    requires var p := Pow(10, exp10 - x);
             v.n == RatioNum(f, e, exp10) * c * p && v.d == RatioDen(e, exp10) * c && v.u == u0 * p && v.l == l0 * p
    ensures Scales(v, f, e, x, closer) && 2 * v.u <= v.n && v.l <= v.u
  {
    var p := Pow(10, exp10 - x);
    RatioShift(f, e, exp10, exp10 - x);
    UnitProduct(RatioNum(f, e, exp10), RatioDen(e, exp10), c, p, RatioNum(f, e, x), RatioDen(e, x));
    MulAssoc(u0, 2 * f, p);
    MulAssoc(u0, p, 2 * f);
    MulAssoc(2, l0, p);
    BoundarySmall(f, v.n, v.u);
  }

  /** The shortest decimal for f * 2^e: `m` units, with `k` digits behind the first. */
  ghost predicate ShortestFor(f: nat, e: int, closer: bool, low: bool, k: nat, unit: int, m: int)
    requires f > 0
  {
    && Covers(f, e, closer, low, unit, m)
    && (forall o: nat, u: int :: o < Pow(10, k) ==> !Covers(f, e, closer, low, u, o))
    && Nearest(f, e, closer, low, unit, m)
  }

  lemma IsShortestFor(v: Interval, f: nat, e: int, x: int, closer: bool, k: nat, m: int)
    requires Scales(v, f, e, x, closer) && 2 * v.u <= v.n && v.l <= v.u && (v.d <= v.n || v.Within(0, 1))
    requires v.IsShortest(k, m)
    ensures ShortestFor(f, e, closer, v.low, k, x - k, m)
  {
    WithinCovers(v, f, e, x, closer, k, m);
    ClosestNearest(v, f, e, x, closer, k, m);
    forall o: nat, u: int | o < Pow(10, k) ensures !Covers(f, e, closer, v.low, u, o) {
      FewerOutside(v, f, e, x, closer, k, u, o);
    }
  }

  lemma FewerOutside(v: Interval, f: nat, e: int, x: int, closer: bool, k: nat, u: int, o: nat)
    requires Scales(v, f, e, x, closer) && 2 * v.u <= v.n && v.l <= v.u && (v.d <= v.n || v.Within(0, 1))
    requires v.NoneBefore(k) && o < Pow(10, k)
    ensures !Covers(f, e, closer, v.low, u, o)
  {
    if u <= x {
      NoneFewer(v, k, x - u, o);
      WithinCovers(v, f, e, x, closer, x - u, o);
    } else {
      var t := u - x;
      CoversUnit(f, e, closer, v.low, u, x, t, o);
      WithinCovers(v, f, e, x, closer, 0, o * Pow(10, t));
      if k == 0 {
        assert Pow(10, 0) == 1 && o * Pow(10, t) == 0;
        ZeroOutside(v, 0);
      }
    }
  }

  /** The fix-up leaves a value that reaches the power of ten, or whose upper boundary does. */
  lemma ReachesFirst(f: nat, e: int, exp10: int, fixup: bool, n0: nat, d: nat, u0: nat, c: nat)
    requires f > 0 && c > 0 && n0 == RatioNum(f, e, exp10) * c && d == RatioDen(e, exp10) * c && n0 == u0 * (2 * f)
    requires d <= n0 || (fixup && d <= 10 * n0)
    ensures var p := Pow(10, exp10 - FixedExponent(f, e, exp10, fixup));
            d <= n0 * p || HighSeen(n0 * p, u0 * p, d, f % 2 == 0)
  {
    OverestimatedSign(f, e, exp10, n0, d, u0, c);
    assert Pow(10, 0) == 1 && Pow(10, 1) == 10;
  }

  /** What the digit loop needs, from the values and word exponents after the fix-up. */
  lemma LoopStarts(v: Interval, p: Places, f: nat, e: int, exp10: int, x: int, closer: bool, u0: nat, l0: nat)
    requires Input(f, e, exp10) && SetUpExponents(p.n, p.d, p.l, e, exp10, Shift(closer)) && PlacesOf(p, v.l)
    requires RatioNum(f, e, exp10) < 10 * RatioDen(e, exp10) && exp10 - 1 <= x <= exp10
    requires Scales(v, f, e, x, closer) && 2 * v.u <= v.n && v.l <= v.u && v.n < 10 * v.d
    requires v.d <= v.n || HighSeen(v.n, v.u, v.d, v.high)
    requires v.low == LowEnd(f, e, exp10, closer) && v.d == RatioDen(e, exp10) * Pow(2, Shift(closer))
    requires v.l == l0 * Pow(10, exp10 - x) && v.u == u0 * Pow(10, exp10 - x)
             && (if closer then u0 == 2 * l0 else u0 == l0)
    requires e >= 0 ==> l0 == Pow(2, e)
    ensures Starts(v, p, f % 2 == 0)
    ensures p.Deep() <==> e >= 0 && exp10 / 32 > e / 32 && (e + Shift(closer)) / 32 > e / 32 && x == exp10
  {
    ClosedIs(p, f, e, exp10, closer);
    DeepIs(p, e, exp10, closer, exp10 - x, v.l);
    if p.Deep() {
      assert Pow(10, 0) == 1;
      DeepSmall(p, e, exp10, closer, v.u, v.d);
    }
  }

  /** The loop's outcome in terms of f * 2^e. */
  lemma OutcomeMeans(v: Interval, p: Places, f: nat, e: int, exp10: int, x: int, closer: bool, k: nat, m: int)
    requires Input(f, e, exp10) && Scales(v, f, e, x, closer) && Starts(v, p, f % 2 == 0) && exp10 - 1 <= x <= exp10
    requires v.n == RatioNum(f, e, exp10) * Pow(2, Shift(closer)) * Pow(10, exp10 - x)
    requires v.d == RatioDen(e, exp10) * Pow(2, Shift(closer)) && Outcome(v, p, k, m)
    requires p.Deep() <==> e >= 0 && exp10 / 32 > e / 32 && (e + Shift(closer)) / 32 > e / 32 && x == exp10
    ensures if ExtraZero(f, e, exp10, closer, x) then k == 1 && m % 10 == 0 && Excess(f, e, x - 1, m) == 0
            else ShortestFor(f, e, closer, v.low, k, x - k, m)
  {
    if p.Deep() {
      assert Pow(10, 0) == 1;
      ModScaled(RatioNum(f, e, exp10), RatioDen(e, exp10), Pow(2, Shift(closer)));
    }
    if Trapped(v, p) {
      ExactTens(v, f, e, x, closer, m);
    } else {
      if v.d > v.n {
        FoundFirst(v, p, f % 2 == 0);
      }
      IsShortestFor(v, f, e, x, closer, k, m);
    }
  }

  lemma FoundFirst(v: Interval, p: Places, even: bool)
    requires Starts(v, p, even) && v.d > v.n
    ensures v.Within(0, 1)
  {
    assert Pow(10, 0) == 1;
    TestsDecide(v, 0, 0, v.n);
  }

  lemma ExactTens(v: Interval, f: nat, e: int, x: int, closer: bool, m: int)
    requires Scales(v, f, e, x, closer) && m * v.d == 10 * v.n
    ensures Excess(f, e, x - 1, m) == 0
  {
    WithinCovers(v, f, e, x, closer, 1, m);
    assert Pow(10, 1) == 10;
    NoExcess(v.Gap(1, m), RatioDen(e, x - 1), Excess(f, e, x - 1, m), v.d);
  }

  lemma NoExcess(gap: int, den: nat, excess: int, d: nat)
    requires gap == 0 && d > 0 && gap * den == excess * d
    ensures excess == 0
  {
    SignProduct(excess, d);
  }

  /** The set-up and fix-up leave what the digit loop starts from. */
  lemma ShortestStarts(numerator: Bigint, denominator: Bigint, lower: Bigint, upper: Bigint, v: Interval,
                       f: nat, e: int, exp10: int, x: int, closer: bool, fixup: bool, u0: nat, l0: nat)
    requires Input(f, e, exp10) && x == FixedExponent(f, e, exp10, fixup)
    requires RatioNum(f, e, exp10) < 10 * RatioDen(e, exp10)
    requires RatioDen(e, exp10) <= RatioNum(f, e, exp10) || (fixup && RatioDen(e, exp10) <= 10 * RatioNum(f, e, exp10))
    requires numerator.Normal() && denominator.Normal() && lower.Normal() && upper.Normal()
    requires SetUpExponents(numerator.exp, denominator.exp, lower.exp, e, exp10, Shift(closer))
    requires v == Interval(numerator.Value(), denominator.Value(), lower.Value(), upper.Value(),
                           LowEnd(f, e, exp10, closer), f % 2 == 0)
    requires v.n < 10 * v.d
    requires var c, k := Pow(2, Shift(closer)), Pow(10, exp10 - x);
             && RatioNum(f, e, exp10) * c == u0 * (2 * f) && (if closer then u0 == 2 * l0 else u0 == l0)
             && v.n == RatioNum(f, e, exp10) * c * k && v.d == RatioDen(e, exp10) * c && v.u == u0 * k && v.l == l0 * k
    requires e >= 0 ==> l0 == Pow(2, e)
    ensures var p := Places(numerator.exp, denominator.exp, lower.exp, lower.NumBigits());
            && Scales(v, f, e, x, closer) && Starts(v, p, f % 2 == 0)
            && (p.Deep() <==> e >= 0 && exp10 / 32 > e / 32 && (e + Shift(closer)) / 32 > e / 32 && x == exp10)
  {
    var p := Places(numerator.exp, denominator.exp, lower.exp, lower.NumBigits());
    var c := Pow(2, Shift(closer));
    ZeroOrTop(lower.bigits, lower.exp);
    ZeroOrTop(upper.bigits, upper.exp);
    WordBelow(lower);
    IntervalScales(v, f, e, exp10, x, closer, c, u0, l0);
    ScaleBounds(RatioNum(f, e, exp10), RatioDen(e, exp10), c);
    ReachesFirst(f, e, exp10, fixup, RatioNum(f, e, exp10) * c, v.d, u0, c);
    LoopStarts(v, p, f, e, exp10, x, closer, u0, l0);
  }

  /** The numbers the digit loop works on, and the exponent of the first digit. */
  method PrepareShortest(f: nat, e: int, closer: bool, fixup: bool, exp10: int)
    returns (numerator: Bigint, denominator: Bigint, lower: Bigint, upper: Bigint, x: int, ghost v: Interval)
    requires Input(f, e, exp10)
    requires RatioNum(f, e, exp10) < 10 * RatioDen(e, exp10)
    requires RatioDen(e, exp10) <= RatioNum(f, e, exp10) || (fixup && RatioDen(e, exp10) <= 10 * RatioNum(f, e, exp10))
    ensures fresh(numerator) && fresh(denominator) && fresh(lower) && fresh(upper)
            && Apart(numerator, denominator, lower, upper)
    ensures numerator.Normal() && denominator.Normal() && lower.Normal() && upper.Normal()
    ensures x == FixedExponent(f, e, exp10, fixup)
    ensures v == Interval(numerator.Value(), denominator.Value(), lower.Value(), upper.Value(),
                          LowEnd(f, e, exp10, closer), f % 2 == 0)
    ensures v.n == RatioNum(f, e, exp10) * Pow(2, Shift(closer)) * Pow(10, exp10 - x)
    ensures v.d == RatioDen(e, exp10) * Pow(2, Shift(closer))
    ensures var p := Places(numerator.exp, denominator.exp, lower.exp, lower.NumBigits());
            && Scales(v, f, e, x, closer) && Starts(v, p, f % 2 == 0)
            && (p.Deep() <==> e >= 0 && exp10 / 32 > e / 32 && (e + Shift(closer)) / 32 > e / 32 && x == exp10)
  {
    numerator, denominator, lower, upper := SetUp(f, e, exp10, closer);
    ghost var l0, u0 := lower.Value(), upper.Value();
    ScaleBounds(RatioNum(f, e, exp10), RatioDen(e, exp10), Pow(2, Shift(closer)));
    x := FixUp(numerator, denominator, lower, upper, f, e, exp10, Shift(closer), fixup, true);
    v := Interval(numerator.Value(), denominator.Value(), lower.Value(), upper.Value(), LowEnd(f, e, exp10, closer),
                  f % 2 == 0);
    ShortestStarts(numerator, denominator, lower, upper, v, f, e, exp10, x, closer, fixup, u0, l0);
  }

  // ----- A first digit of value ten -----

  /** The interval reaches the next power of ten, and the value is nearer to it than to 9 * 10^x or 9 * 10^x lies
      outside: the first digit 9 is then counted up to a ten. */
  ghost predicate TenFirst(f: nat, e: int, exp10: int, closer: bool, x: int)
    requires f > 0
  {
    var low := LowEnd(f, e, exp10, closer);
    && !ExtraZero(f, e, exp10, closer, x) && Covers(f, e, closer, low, x + 1, 1)
    && (2 * RatioNum(f, e, x) >= 19 * RatioDen(e, x) || !Covers(f, e, closer, low, x, 9))
  }

  /** The interval is convex. */
  lemma CoversBetween(f: nat, e: int, closer: bool, low: bool, unit: int, a: int, b: int, c: int)
    requires f > 0 && a <= b <= c && Covers(f, e, closer, low, unit, a) && Covers(f, e, closer, low, unit, c)
    ensures Covers(f, e, closer, low, unit, b)
  {
    var den := RatioDen(e, unit);
    GapOrder(b, a, den);
    GapOrder(b, c, den);
    Quarters(a, b, den);
    Quarters(b, c, den);
  }

  lemma Quarters(a: int, b: int, den: nat)
    requires a <= b
    ensures 4 * a * den <= 4 * b * den
  {
    GapOrder(b, a, den);
    SubtractProduct(a, b, den);
    MulAssoc(4, a, den);
    MulAssoc(4, b, den);
  }

  /** Ten against a smaller digit, by their distances from the value. */
  lemma TenAgainst(den: nat, num: nat, m: int)
    requires den > 0 && num < 10 * den && m <= 9
    ensures 2 * num >= 19 * den ==>
              Abs(10 * den - num) <= Abs(m * den - num) && (Abs(10 * den - num) == Abs(m * den - num) ==> m == 9)
    ensures m == 9 && 2 * num < 19 * den ==> Abs(10 * den - num) > Abs(m * den - num)
  {
    GapOrder(9, m, den);
    SubtractProduct(m, 9, den);
  }

  lemma BeyondTen(den: nat, num: nat, m: int)
    requires den > 0 && num < 10 * den && m > 10
    ensures Abs(m * den - num) > Abs(10 * den - num)
  {
    GapOrder(10, m, den);
    SubtractProduct(m, 10, den);
  }

  /** When the interval reaches the next power of ten, one character is all there is. */
  lemma OneDigit(f: nat, e: int, closer: bool, low: bool, x: int, k: nat, unit: int, m: int)
    requires f > 0 && ShortestFor(f, e, closer, low, k, unit, m) && Covers(f, e, closer, low, x + 1, 1)
    ensures k == 0
  {
    if k > 0 {
      assert false;
    }
  }

  /** Which digit is nearest when ten is in the interval. */
  lemma TenNearest(f: nat, e: int, closer: bool, low: bool, x: int, m: int)
    requires f > 0 && RatioNum(f, e, x) < 10 * RatioDen(e, x)
    requires Covers(f, e, closer, low, x, 10) && Covers(f, e, closer, low, x, m) && Nearest(f, e, closer, low, x, m)
    ensures m == 10 <==> 2 * RatioNum(f, e, x) >= 19 * RatioDen(e, x) || !Covers(f, e, closer, low, x, 9)
  {
    var num, den := RatioNum(f, e, x), RatioDen(e, x);
    if m > 10 {
      BeyondTen(den, num, m);
      assert false;
    } else if m == 10 {
      TenAgainst(den, num, 9);
    } else {
      CoversBetween(f, e, closer, low, x, m, 9, 10);
      TenAgainst(den, num, m);
    }
  }

  lemma TenUnits(f: nat, e: int, closer: bool, low: bool, x: int)
    requires f > 0
    ensures Covers(f, e, closer, low, x + 1, 1) <==> Covers(f, e, closer, low, x, 10)
  {
    CoversUnit(f, e, closer, low, x + 1, x, 1, 1);
    assert Pow(10, 1) == 10;
  }

  /** Exactly when the shortest decimal comes out as a first digit of value ten. */
  lemma TenExactly(f: nat, e: int, closer: bool, low: bool, x: int, k: nat, m: int)
    requires f > 0 && RatioNum(f, e, x) < 10 * RatioDen(e, x) && ShortestFor(f, e, closer, low, k, x - k, m)
    ensures k == 0 && m == 10
       <==> && Covers(f, e, closer, low, x + 1, 1)
            && (2 * RatioNum(f, e, x) >= 19 * RatioDen(e, x) || !Covers(f, e, closer, low, x, 9))
  {
    TenUnits(f, e, closer, low, x);
    if Covers(f, e, closer, low, x + 1, 1) {
      OneDigit(f, e, closer, low, x, k, x - k, m);
      TenNearest(f, e, closer, low, x, m);
    }
  }

  /** After the fix-up the value is still below ten units of the first digit. */
  lemma FixedBelowTen(f: nat, e: int, exp10: int, fixup: bool)
    requires f > 0 && RatioNum(f, e, exp10) < 10 * RatioDen(e, exp10)
    ensures var x := FixedExponent(f, e, exp10, fixup); RatioNum(f, e, x) < 10 * RatioDen(e, x)
  {
    if fixup && Overestimated(f, e, exp10) {
      PositiveUnit(e, exp10);
      RatioFactor(f, e, exp10);
      RatioFactor(2 * f + 1, e, exp10);
      DistributeRight(2 * f, 1, RatioNum(1, e, exp10));
      MulAssoc(2, f, RatioNum(1, e, exp10));
      RatioShift(f, e, exp10, 1);
      assert Pow(10, 1) == 10;
      BelowTens(RatioNum(f, e, exp10), RatioDen(e, exp10), RatioNum(f, e, exp10 - 1), RatioDen(e, exp10 - 1));
    }
  }

  lemma PositiveUnit(e: int, unit: int)
    ensures RatioNum(1, e, unit) > 0
  {
    PositiveProduct(Pow(2, if e >= 0 then e else 0), Pow(10, if unit >= 0 then 0 else -unit));
    assert 1 * Pow(2, if e >= 0 then e else 0) == Pow(2, if e >= 0 then e else 0);
  }

  lemma BelowTens(n0: nat, d0: nat, n1: nat, d1: nat)
    requires d0 > 0 && d1 > 0 && n0 < d0 && n0 * 10 * d1 == n1 * d0
    ensures n1 < 10 * d1
  {
    MulLess(n0, d0, 10 * d1);
    MulAssoc(n0, 10, d1);
    if n1 >= 10 * d1 {
      MulLe(10 * d1, n1, d0);
    }
  }

  /** The characters of a one-character text from its number. */
  lemma OneCharacter(buf: seq<char>)
    requires |buf| == 1
    ensures Number(buf) == DigitValue(buf[0]) && (AllDigits(buf) ==> Number(buf) < 10)
    ensures Number(buf) == 10 <==> buf == [OVERFLOW]
  {
    assert buf[..0] == [] && Number([]) == 0;
  }

  /** Formats f * 2^e with the fewest digits that identify it, `exp10` being the exponent of the first digit, or one
      more when `fixup` is asked for. `LowEnd` says which interval the digits are the shortest of. */
  method FormatShortest(f: nat, e: int, closer: bool, fixup: bool, exp10: int) returns (buf: seq<char>, out10: int)
    requires Input(f, e, exp10)
    requires RatioNum(f, e, exp10) < 10 * RatioDen(e, exp10)
    requires RatioDen(e, exp10) <= RatioNum(f, e, exp10) || (fixup && RatioDen(e, exp10) <= 10 * RatioNum(f, e, exp10))
    ensures buf != [] && (AllDigits(buf) || buf == [OVERFLOW])
    ensures buf == [OVERFLOW] <==> TenFirst(f, e, exp10, closer, FixedExponent(f, e, exp10, fixup))
    ensures out10 == FixedExponent(f, e, exp10, fixup) - (|buf| - 1)
    ensures if ExtraZero(f, e, exp10, closer, FixedExponent(f, e, exp10, fixup))
            then |buf| == 2 && Number(buf) % 10 == 0 && Excess(f, e, out10, Number(buf)) == 0
            else ShortestFor(f, e, closer, LowEnd(f, e, exp10, closer), |buf| - 1, out10, Number(buf))
  {
    var numerator, denominator, lower, upper, x;
    ghost var v;
    numerator, denominator, lower, upper, x, v := PrepareShortest(f, e, closer, fixup, exp10);
    ghost var p := Places(numerator.exp, denominator.exp, lower.exp, lower.NumBigits());
    buf := ShortestDigits(numerator, denominator, lower, upper, f % 2 == 0, v);
    out10 := x - (|buf| - 1);
    OutcomeMeans(v, p, f, e, exp10, x, closer, |buf| - 1, Number(buf));    FixedBelowTen(f, e, exp10, fixup);
    TenText(f, e, exp10, closer, x, buf);
  }

  lemma TenText(f: nat, e: int, exp10: int, closer: bool, x: int, buf: seq<char>)
    requires f > 0 && buf != [] && (AllDigits(buf) || (|buf| == 1 && Number(buf) == 10))
    requires RatioNum(f, e, x) < 10 * RatioDen(e, x)
    requires if ExtraZero(f, e, exp10, closer, x) then |buf| == 2
             else ShortestFor(f, e, closer, LowEnd(f, e, exp10, closer), |buf| - 1, x - (|buf| - 1), Number(buf))
    ensures (AllDigits(buf) || buf == [OVERFLOW]) && (buf == [OVERFLOW] <==> TenFirst(f, e, exp10, closer, x))
  {
    if |buf| == 1 {
      OneCharacter(buf);
    }
    if !ExtraZero(f, e, exp10, closer, x) {
      TenExactly(f, e, closer, LowEnd(f, e, exp10, closer), x, |buf| - 1, Number(buf));
    }
  }
}
