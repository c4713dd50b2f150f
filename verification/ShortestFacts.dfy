/** What the shortest digits are good for: they read back, for every format of at most 64 bits, and where they fail. */
module ShortestFacts {
  import opened Common
  import opened Words
  import opened WordSteps
  import opened Decimal
  import opened Rounding
  import opened Dragon
  import opened DragonFacts
  import opened Shortest
  import opened ShortestFormat

  // ----- Reading back -----

  /** The multiple of 2^e nearest to m * 10^unit, ties to even: what reading the decimal gives at this exponent. */
  ghost function ReadAs(e: int, unit: int, m: nat): nat {
    PositiveRatio(e, unit);
    RoundHalfEven(m * RatioDen(e, unit), RatioNum(1, e, unit))
  }

  lemma PositiveRatio(e: int, unit: int)
    ensures RatioNum(1, e, unit) > 0
  {
    PositiveProduct(Pow(2, if e >= 0 then e else 0), Pow(10, if unit >= 0 then 0 else -unit));
    assert 1 * Pow(2, if e >= 0 then e else 0) == Pow(2, if e >= 0 then e else 0);
  }

  /** A decimal in the rounding interval reads back as the value, except on the lower end of an odd significand. */
  lemma ReadsBack(f: nat, e: int, low: bool, unit: int, m: nat)
    requires f > 0 && Covers(f, e, false, low, unit, m)
    ensures ReadAs(e, unit, m) == f <==> f % 2 == 0 || 4 * m * RatioDen(e, unit) != RatioNum(4 * f - 2, e, unit)
  {
    PositiveRatio(e, unit);
    RatioFactor(4 * f + 2, e, unit);
    RatioFactor(4 * f - 2, e, unit);
    var num, g := m * RatioDen(e, unit), RatioNum(1, e, unit);
    MulAssoc(4, m, RatioDen(e, unit));
    NearestEven(num, g, f);
    DistributeRight(4 * f, 2, g);
    SubtractProduct(4 * f, 2, g);
    MulAssoc(4, f, g);
  }

  lemma NearAbove(f: nat, g: nat, num: nat)
    requires g > 0 && f % 2 == 0 && f * g <= num && 4 * num <= (4 * f + 2) * g
    ensures RoundHalfEven(num, g) == f
  {
    NearestEven(num, g, f);
    DistributeRight(4 * f, 2, g);
    MulAssoc(4, f, g);
  }

  lemma NearBelow(f: nat, g: nat, num: nat)
    requires f > 0 && g > 0 && num <= f * g && (4 * f - 1) * g <= 4 * num
    ensures RoundHalfEven(2 * num, g) == 2 * f
  {
    NearestEven(2 * num, g, 2 * f);
    SubtractProduct(4 * f, 1, g);
    MulAssoc(4, f, g);
    MulAssoc(2, f, g);
  }

  /** When the predecessor is closer, decimals above the value read back at its exponent, those below at the one
      under it. */
  lemma ReadsBackCloser(f: nat, e: int, low: bool, unit: int, m: nat)
    requires f > 0 && f % 2 == 0 && Covers(f, e, true, low, unit, m)
    ensures Excess(f, e, unit, m) >= 0 ==> ReadAs(e, unit, m) == f
    ensures Excess(f, e, unit, m) <= 0 ==> ReadAs(e - 1, unit, m) == 2 * f
  {
    var num, g := m * RatioDen(e, unit), RatioNum(1, e, unit);
    PositiveRatio(e, unit);
    RatioFactor(4 * f + 2, e, unit);
    RatioFactor(4 * f - 1, e, unit);
    RatioFactor(f, e, unit);
    MulAssoc(4, m, RatioDen(e, unit));
    if Excess(f, e, unit, m) >= 0 {
      NearAbove(f, g, num);
    }
    if Excess(f, e, unit, m) <= 0 {
      NearBelow(f, g, num);
      HalvedUnit(e, unit, m);
    }
  }

  /** Halving the binary unit doubles the ratio. */
  lemma HalvedUnit(e: int, unit: int, m: nat)
    ensures RatioNum(1, e - 1, unit) > 0 && RatioNum(1, e, unit) > 0
    ensures RoundHalfEven(m * RatioDen(e - 1, unit), RatioNum(1, e - 1, unit))
         == RoundHalfEven(2 * (m * RatioDen(e, unit)), RatioNum(1, e, unit))
  {
    PositiveRatio(e, unit);
    PositiveRatio(e - 1, unit);
    var a, b := Pow(10, if unit >= 0 then unit else 0), Pow(10, if unit >= 0 then 0 else -unit);
    assert Pow(2, 0) == 1;
    if e > 0 {
      assert Pow(2, e) == 2 * Pow(2, e - 1);
      HalvedCross(m, a, b, 1, Pow(2, e - 1), 1, Pow(2, e));
    } else {
      assert Pow(2, 1 - e) == 2 * Pow(2, -e);
      HalvedCross(m, a, b, Pow(2, 1 - e), 1, Pow(2, -e), 1);
    }
    RoundCross(m * RatioDen(e - 1, unit), RatioNum(1, e - 1, unit), 2 * (m * RatioDen(e, unit)), RatioNum(1, e, unit));
  }

  lemma HalvedCross(m: nat, a: nat, b: nat, d1: nat, n1: nat, d: nat, n: nat)
    requires d1 * n == 2 * (d * n1)
    ensures (m * (d1 * a)) * (1 * n * b) == (2 * (m * (d * a))) * (1 * n1 * b)
  {
    MulAssoc(m, d1 * a, n * b);
    MulSwap(d1, a, n, b);
    MulSwap(d, a, n1, b);
    MulAssoc(m, d * a, n1 * b);
    MulAssoc(2, m * (d * a), n1 * b);
    MulAssoc(2, d * n1, a * b);
    MulAssoc(2, m, (d * n1) * (a * b));
    MulAssoc(m, 2, (d * n1) * (a * b));
  }

  // ----- Decimal digits -----

  /** A first digit of value ten needs an interval that reaches the next power of ten. An exponent that the fix-up has
      lowered rules that out. */
  lemma TenOnlyBeyond(f: nat, e: int, exp10: int, fixup: bool, closer: bool, low: bool)
    requires f > 0
    ensures var x := FixedExponent(f, e, exp10, fixup);
            && (ShortestFor(f, e, closer, low, 0, x, 10) ==> Covers(f, e, closer, low, x + 1, 1))
            && (x < exp10 ==> !Covers(f, e, closer, low, x + 1, 1))
  {
    var x := FixedExponent(f, e, exp10, fixup);
    assert Pow(10, 1) == 10;
    CoversUnit(f, e, closer, low, x + 1, x, 1, 1);
    RatioFactor(4 * f + 2, e, exp10);
    RatioFactor(2 * f + 1, e, exp10);
    MulAssoc(2, 2 * f + 1, RatioNum(1, e, exp10));
  }

  /** So does an estimate that the value exceeds less than threefold. An estimate that is the logarithm of the value's
      top bit rounded up is exceeded less than twofold. */
  lemma EstimateRulesOutTen(f: nat, e: int, exp10: int, fixup: bool, closer: bool)
    requires f > 0 && RatioNum(f, e, exp10) < 3 * RatioDen(e, exp10)
    ensures !TenFirst(f, e, exp10, closer, FixedExponent(f, e, exp10, fixup))
  {
    var low := LowEnd(f, e, exp10, closer);
    TenOnlyBeyond(f, e, exp10, fixup, closer, low);
    if FixedExponent(f, e, exp10, fixup) == exp10 {
      assert Pow(10, 1) == 10;
      CoversUnit(f, e, closer, low, exp10 + 1, exp10, 1, 1);
      RatioFactor(4 * f + 2, e, exp10);
      RatioFactor(f, e, exp10);
      TopBelow(f, RatioNum(1, e, exp10), RatioDen(e, exp10));
    }
  }

  lemma TopBelow(f: nat, g: nat, den: nat)
    requires f > 0 && f * g < 3 * den
    ensures (4 * f + 2) * g < 40 * den
  {
    MulLe(4 * f + 2, 6 * f, g);
    MulAssoc(6, f, g);
  }

  // ----- Which interval it is -----

  /** A lower end that counts for the exponents alone takes a significand of more than 64 bits. */
  lemma WideOnly(f: nat, e: int, exp10: int, closer: bool)
    requires Input(f, e, exp10) && e >= 0 && exp10 / 32 > e / 32 && (e + Shift(closer)) / 32 > e / 32
    requires RatioDen(e, exp10) <= 10 * RatioNum(f, e, exp10)
    ensures f > Pow(2, 64)
  {
    assert Pow(2, 0) == 1 && Pow(10, 0) == 1;
    assert RatioNum(f, e, exp10) == f * Pow(2, e) && RatioDen(e, exp10) == Pow(10, exp10);
    assert e >= 30 && exp10 >= e + 1;
    PowMono(10, e + 1, exp10);
    assert Pow(10, e + 1) == 10 * Pow(10, e);
    PowMul(5, 2, e);
    AtLeastFives(f, Pow(5, e), Pow(2, e));
    PowMono(5, 30, e);
    Fives();
    Twos();
  }

  lemma AtLeastFives(f: nat, five: nat, two: nat)
    requires two > 0 && five * two <= f * two
    ensures five <= f
  {
    if f < five {
      MulLess(f, five, two);
    }
  }

  /** For significands of at most 64 bits no zero is added, and the lower end of an odd significand never counts: what
      is printed always reads back as the value. */
  lemma NarrowReadsBack(f: nat, e: int, exp10: int, closer: bool, x: int, k: nat, unit: int, m: nat)
    requires Input(f, e, exp10) && f <= Pow(2, 64) && RatioDen(e, exp10) <= 10 * RatioNum(f, e, exp10)
    requires closer ==> f % 2 == 0
    requires ShortestFor(f, e, closer, LowEnd(f, e, exp10, closer), k, unit, m)
    ensures !ExtraZero(f, e, exp10, closer, x) && (LowEnd(f, e, exp10, closer) ==> f % 2 == 0)
    ensures !closer || Excess(f, e, unit, m) >= 0 ==> ReadAs(e, unit, m) == f
    ensures closer && Excess(f, e, unit, m) <= 0 ==> ReadAs(e - 1, unit, m) == 2 * f
  {
    if e >= 0 && exp10 / 32 > e / 32 && (e + Shift(closer)) / 32 > e / 32 {
      WideOnly(f, e, exp10, closer);
    }
    if closer {
      ReadsBackCloser(f, e, LowEnd(f, e, exp10, closer), unit, m);
    } else {
      ReadsBack(f, e, LowEnd(f, e, exp10, closer), unit, m);
    }
  }

  /** o * 10^u is the lower end of the rounding interval. */
  ghost predicate IsLowerEnd(f: nat, e: int, closer: bool, u: int, o: int)
    requires f > 0
  {
    4 * o * RatioDen(e, u) == RatioNum(4 * f - (if closer then 1 else 2), e, u)
  }

  /** The closed interval has one decimal more than the open one: its lower end. */
  lemma EndOnly(f: nat, e: int, closer: bool, u: int, o: int)
    requires f > 0
    ensures Covers(f, e, closer, true, u, o) <==> Covers(f, e, closer, false, u, o) || IsLowerEnd(f, e, closer, u, o)
  {
    PositiveRatio(e, u);
    RatioFactor(4 * f + 2, e, u);
    RatioFactor(4 * f - (if closer then 1 else 2), e, u);
    MulLess(4 * f - (if closer then 1 else 2), 4 * f + 2, RatioNum(1, e, u));
  }

  /** Where the lower end is left out although the significand is even, the digits are the shortest of the whole
      interval exactly when the lower end is no shorter decimal itself. */
  lemma ShorterEnd(f: nat, e: int, closer: bool, k: nat, unit: int, m: int)
    requires f > 0 && f % 2 == 0 && ShortestFor(f, e, closer, false, k, unit, m)
    ensures (forall o: nat, u: int :: o < Pow(10, k) ==> !Covers(f, e, closer, true, u, o))
       <==> (forall o: nat, u: int :: o < Pow(10, k) ==> !IsLowerEnd(f, e, closer, u, o))
  {
    forall o: nat, u: int | o < Pow(10, k)
      ensures Covers(f, e, closer, true, u, o) <==> IsLowerEnd(f, e, closer, u, o)
    {
      EndOnly(f, e, closer, u, o);
    }
  }

  /** Whether a step of 10^u from the lower end stays inside the rounding interval, which is a unit in the last
      place wide, or three quarters of one. */
  ghost predicate UnitFits(f: nat, e: int, closer: bool, u: int) {
    var step, width := 4 * RatioDen(e, u), RatioNum(if closer then 3 else 4, e, u);
    if f % 2 == 0 then step <= width else step < width
  }

  lemma NextInside(f: nat, e: int, closer: bool, u: int, o: int)
    requires f > 0 && IsLowerEnd(f, e, closer, u, o)
    ensures Covers(f, e, closer, false, u, o + 1) <==> UnitFits(f, e, closer, u)
  {
    var g, den, c := RatioNum(1, e, u), RatioDen(e, u), if closer then 1 else 2;
    RatioFactor(4 * f + 2, e, u);
    RatioFactor(4 * f - c, e, u);
    RatioFactor(if closer then 3 else 4, e, u);
    StepWidth(f, g, den, c, o);
  }

  lemma StepWidth(f: nat, g: nat, den: nat, c: nat, o: int)
    requires f > 0 && c <= 2
    ensures 4 * (o + 1) * den == 4 * o * den + 4 * den
    ensures (4 * f + 2) * g == (4 * f - c) * g + (c + 2) * g
  {
    DistributeRight(4 * o, 4, den);
    DistributeRight(4 * f - c, c + 2, g);
  }

  /** The lower end in a smaller unit. */
  lemma EndUnit(f: nat, e: int, closer: bool, u: int, v: int, t: nat, o: int)
    requires f > 0 && u == v + t && IsLowerEnd(f, e, closer, u, o)
    ensures IsLowerEnd(f, e, closer, v, o * Pow(10, t))
  {
    UnitSign(4 * f - (if closer then 1 else 2), e, u, v, t, o);
  }

  /** What lies inside the open interval lies above its lower end. */
  lemma InsideAbove(f: nat, e: int, closer: bool, u: int, o: int, m: int)
    requires f > 0 && IsLowerEnd(f, e, closer, u, o) && Covers(f, e, closer, false, u, m)
    ensures m > o && Covers(f, e, closer, false, u, o + 1)
  {
    if m <= o {
      Quarters(m, o, RatioDen(e, u));
    } else {
      Quarters(o + 1, m, RatioDen(e, u));
      StepWidth(f, 0, RatioDen(e, u), 0, o);
    }
  }

  /** A lower end whose unit is too large for the interval has fewer digits than anything inside. */
  lemma EndIsShort(f: nat, e: int, closer: bool, k: nat, unit: int, m: nat, u: int, o: nat)
    requires f > 0 && ShortestFor(f, e, closer, false, k, unit, m) && m <= Pow(10, k + 1)
    requires IsLowerEnd(f, e, closer, u, o) && !Covers(f, e, closer, false, u, o + 1)
    ensures o < Pow(10, k)
  {
    if unit >= u {
      CoversUnit(f, e, closer, false, unit, u, unit - u, m);
      InsideAbove(f, e, closer, u, o, m * Pow(10, unit - u));
      assert false;
    } else {
      var t := u - unit;
      EndUnit(f, e, closer, u, unit, t, o);
      InsideAbove(f, e, closer, unit, o * Pow(10, t), m);
      if o >= Pow(10, k) {
        MulLe(Pow(10, k), o, Pow(10, t));
        PowAdd(10, k, t);
        PowMono(10, k + 1, k + t);
        assert false;
      }
    }
  }

  /** A lower end with fewer digits than everything inside has a unit too large for the interval. */
  lemma ShortEndJumps(f: nat, e: int, closer: bool, k: nat, unit: int, m: nat, u: int, o: nat)
    requires f > 0 && ShortestFor(f, e, closer, false, k, unit, m)
    requires IsLowerEnd(f, e, closer, u, o) && o < Pow(10, k)
    ensures !Covers(f, e, closer, false, u, o + 1)
  {
    if o + 1 == Pow(10, k) {
      EndPositive(f, e, closer, u, o);
      PowerOutside(f, e, closer, k, unit, m, u);
    }
  }

  lemma EndPositive(f: nat, e: int, closer: bool, u: int, o: nat)
    requires f > 0 && IsLowerEnd(f, e, closer, u, o)
    ensures o > 0
  {
    PositiveRatio(e, u);
    RatioFactor(4 * f - (if closer then 1 else 2), e, u);
    PositiveProduct(4 * f - (if closer then 1 else 2), RatioNum(1, e, u));
  }

  /** No power of ten is among the decimals of more than one digit. */
  lemma PowerOutside(f: nat, e: int, closer: bool, k: nat, unit: int, m: nat, u: int)
    requires f > 0 && ShortestFor(f, e, closer, false, k, unit, m) && Pow(10, k) > 1
    ensures !Covers(f, e, closer, false, u, Pow(10, k))
  {
    CoversUnit(f, e, closer, false, u + k, u, k, 1);
    assert 1 * Pow(10, k) == Pow(10, k);
  }

  /** Where the lower end is left out, the digits are the shortest of the whole interval if and only if the lower end is
      a multiple of no power of ten that is too large a step for the interval. */
  lemma EndDecides(f: nat, e: int, closer: bool, k: nat, unit: int, m: nat)
    requires f > 0 && ShortestFor(f, e, closer, false, k, unit, m) && m <= Pow(10, k + 1)
    ensures (forall o: nat, u: int :: o < Pow(10, k) ==> !Covers(f, e, closer, true, u, o))
       <==> (forall o: nat, u: int :: IsLowerEnd(f, e, closer, u, o) ==> UnitFits(f, e, closer, u))
  {
    forall o: nat, u: int
      ensures o < Pow(10, k) && Covers(f, e, closer, true, u, o)
         <==> IsLowerEnd(f, e, closer, u, o) && !UnitFits(f, e, closer, u)
    {
      EndOnly(f, e, closer, u, o);
      if IsLowerEnd(f, e, closer, u, o) {
        NextInside(f, e, closer, u, o);
        if UnitFits(f, e, closer, u) {
          if o < Pow(10, k) {
            ShortEndJumps(f, e, closer, k, unit, m, u, o);
          }
        } else {
          EndIsShort(f, e, closer, k, unit, m, u, o);
        }
      }
    }
  }

  // ----- Examples -----

  lemma LongPowers()
    ensures Pow(2, 31) == 0x8000_0000 && Pow(2, 32) == 0x1_0000_0000
    ensures Pow(10, 27) == 1_000000000_000000000_000000000 && Pow(10, 28) == 10 * Pow(10, 27)
    ensures Pow(10, 29) == 100 * Pow(10, 27) && Pow(10, 30) == 1000 * Pow(10, 27)
    ensures Pow(10, 14) == 100_000000_000000 && Pow(10, 43) == Pow(10, 30) * 10_000000_000000
            && Pow(10, 44) == 10 * Pow(10, 43)
  {
    assert Pow(2, 8) == 256 && Pow(10, 9) == 1_000000000 && Pow(10, 4) == 10000;
    PowTwo32();
    assert Pow(2, 32) == 2 * Pow(2, 31);
    PowAdd(10, 9, 9);
    PowAdd(10, 18, 9);
    assert Pow(10, 29) == 10 * Pow(10, 28) && Pow(10, 30) == 10 * Pow(10, 29);
    PowAdd(10, 9, 4);
    assert Pow(10, 14) == 10 * Pow(10, 13);
    PowAdd(10, 30, 13);
  }

  /** The double nearest 10^23, given the exact exponent 22, is written as a single ':'. */
  lemma TenExample()
    ensures var f := 5960464477539062;
            && Input(f, 24, 22) && RatioDen(24, 22) <= RatioNum(f, 24, 22) < 10 * RatioDen(24, 22)
            && FixedExponent(f, 24, 22, true) == 22 && TenFirst(f, 24, 22, false, 22)
  {
    Powers();
    assert Pow(2, 0) == 1 && Pow(10, 0) == 1;
    assert Pow(10, 23) == 10 * Pow(10, 22);
  }

  /** The long double that "4.8e28" stands for lies above that decimal by exactly half a unit in the last place. Its
      significand is even, so the decimal identifies it, but the digits printed for it are more. */
  lemma LongerExample(k: nat, m: int)
    requires ShortestFor(11175870895385742188, 32, false, LowEnd(11175870895385742188, 32, 29, false), k, 28 - k, m)
    ensures var f := 11175870895385742188;
            && Input(f, 32, 29) && RatioNum(f, 32, 29) < 10 * RatioDen(32, 29)
            && RatioDen(32, 29) <= 10 * RatioNum(f, 32, 29)
            && FixedExponent(f, 32, 29, true) == 28
            && Covers(f, 32, false, true, 27, 48) && ReadAs(32, 27, 48) == f
    ensures k > 1
  {
    var f := 11175870895385742188;
    LongPowers();
    Twos();
    assert Pow(2, 0) == 1 && Pow(10, 0) == 1 && Pow(10, 1) == 10;
    assert IsLowerEnd(f, 32, false, 27, 48);
    EndOnly(f, 32, false, 27, 48);
    ReadsBack(f, 32, true, 27, 48);
    assert !LowEnd(f, 32, 29, false);
    if k <= 1 {
      CoversUnit(f, 32, false, false, 28 - k, 27, 1 - k, m);
    }
  }

  lemma DoublePowers()
    ensures Pow(2, 0) == 1 && Pow(2, 32) == 0x1_0000_0000 && Pow(10, 0) == 1
    ensures Pow(10, 22) == 10_000000000_000000_000000 && Pow(10, 26) == 10000 * Pow(10, 22)
    ensures Pow(10, 25) == 1000 * Pow(10, 22)
  {
    LongPowers();
    assert Pow(10, 3) == 1000 && Pow(10, 4) == 10000 && Pow(10, 5) == 100000;
    PowAdd(10, 22, 3);
    PowAdd(10, 22, 4);
    PowAdd(10, 22, 5);
  }

  lemma DoubleSetUp()
    ensures var f := 8344650268554688;
            && Input(f, 32, 26) && RatioNum(f, 32, 26) < 10 * RatioDen(32, 26)
            && RatioDen(32, 26) <= 10 * RatioNum(f, 32, 26) && FixedExponent(f, 32, 26, true) == 25
            && !LowEnd(f, 32, 26, false) && IsLowerEnd(f, 32, false, 22, 3584)
  {
    DoublePowers();
    Twos();
  }

  lemma NoneInside(m: int)
    ensures !Covers(8344650268554688, 32, false, false, 22, m)
  {
    DoublePowers();
  }

  /** So for the double 3.584e25, which constant evaluation sends here. */
  lemma DoubleLongerExample(k: nat, m: int)
    requires ShortestFor(8344650268554688, 32, false, LowEnd(8344650268554688, 32, 26, false), k, 25 - k, m)
    ensures var f := 8344650268554688;
            && Input(f, 32, 26) && RatioNum(f, 32, 26) < 10 * RatioDen(32, 26)
            && RatioDen(32, 26) <= 10 * RatioNum(f, 32, 26) && FixedExponent(f, 32, 26, true) == 25
            && Covers(f, 32, false, true, 22, 3584) && ReadAs(32, 22, 3584) == f
    ensures k > 3
  {
    var f := 8344650268554688;
    DoubleSetUp();
    EndOnly(f, 32, false, 22, 3584);
    ReadsBack(f, 32, true, 22, 3584);
    if k <= 3 {
      CoversUnit(f, 32, false, false, 25 - k, 22, 3 - k, m);
      NoneInside(m * Pow(10, 3 - k));
    }
  }

  lemma MisreadSetUp()
    ensures var f := 5587935447693336755037307739257813;
            && Input(f, 31, 44) && RatioNum(f, 31, 44) < 10 * RatioDen(31, 44)
            && RatioDen(31, 44) <= 10 * RatioNum(f, 31, 44)
            && FixedExponent(f, 31, 44, true) == 43 && !ExtraZero(f, 31, 44, false, 43)
            && LowEnd(f, 31, 44, false) && IsLowerEnd(f, 31, false, 30, 12000000000001)
  {
    LongPowers();
    Twos();
    assert Pow(2, 0) == 1 && Pow(10, 0) == 1;
  }

  /** The lower end is the only decimal of its unit in the interval. */
  lemma OnlyEnd(m: int)
    requires Covers(5587935447693336755037307739257813, 31, false, true, 30, m)
    ensures m == 12000000000001
  {
    LongPowers();
    assert Pow(2, 0) == 1 && Pow(10, 0) == 1;
  }

  lemma EndReads()
    ensures ReadAs(31, 30, 12000000000001) == 5587935447693336755037307739257812
  {
    LongPowers();
    assert Pow(2, 0) == 1 && Pow(10, 0) == 1;
    PositiveRatio(31, 30);
    NearestEven(12000000000001 * RatioDen(31, 30), RatioNum(1, 31, 30), 5587935447693336755037307739257812);
  }

  /** A 113-bit long double with an odd significand whose lower end has fourteen digits: these are printed, and they
      read back as the number below. */
  lemma MisreadExample(k: nat, m: int)
    requires var f := 5587935447693336755037307739257813; ShortestFor(f, 31, false, LowEnd(f, 31, 44, false), k, 43 - k,
                                                                      m)
    ensures var f := 5587935447693336755037307739257813;
            && Input(f, 31, 44) && RatioNum(f, 31, 44) < 10 * RatioDen(31, 44)
            && RatioDen(31, 44) <= 10 * RatioNum(f, 31, 44)
            && FixedExponent(f, 31, 44, true) == 43 && !ExtraZero(f, 31, 44, false, 43)
            && k == 13 && m == 12000000000001 && ReadAs(31, 30, 12000000000001) == f - 1
  {
    var f, c := 5587935447693336755037307739257813, 12000000000001;
    MisreadSetUp();
    EndOnly(f, 31, false, 30, c);
    LongPowers();
    if k > 13 {
      PowMono(10, 14, k);
      assert false;
    }
    CoversUnit(f, 31, false, true, 43 - k, 30, 13 - k, m);
    OnlyEnd(m * Pow(10, 13 - k));
    LastNonZero(m, 13 - k, c);
    EndReads();
  }

  lemma LastNonZero(m: int, t: nat, c: nat)
    requires m * Pow(10, t) == c && c % 10 != 0
    ensures t == 0 && m == c
  {
    assert Pow(10, 0) == 1;
    if t > 0 {
      MulAssoc(m, 10, Pow(10, t - 1));
      MulAssoc(10, m, Pow(10, t - 1));
      ModUnique(c, 10, m * Pow(10, t - 1), 0);
    }
  }

  /** A one-digit integer of 113 bits whose exponent is given exactly gets a zero. */
  lemma ExtraZeroExample()
    ensures var f := 9313225746154785156250000000000000;
            && Input(f, 31, 43) && RatioNum(f, 31, 43) == 2 * RatioDen(31, 43) && ExtraZero(f, 31, 43, false, 43)
  {
    LongPowers();
    Twos();
    assert Pow(2, 0) == 1 && Pow(10, 0) == 1;
    ModUnique(2 * RatioDen(31, 43), RatioDen(31, 43), 2, 0);
  }
}
