/** What the formatter's contract means: unique texts, leading digits, and the few inputs it fails on. */
module DragonFacts {
  import opened Words
  import opened WordSteps
  import opened Decimal
  import opened Rounding
  import opened DragonDigits
  import opened Dragon

  /** The rounded number fixes the text and its exponent. */
  lemma DenotesUnique(s: seq<char>, x: int, t: seq<char>, y: int, unit: int, n: nat, fixed: bool, want: int)
    requires AllDigits(s) && AllDigits(t)
    requires Denotes(s, x, unit, n, fixed, want) && Denotes(t, y, unit, n, fixed, want)
    ensures s == t && x == y
  {
    CancelFactor(Number(s), Number(t), Pow(10, x - unit));
    NumberInjective(s, t);
  }

  /** A text of n digits starts with a zero exactly when the number it denotes has fewer of them. */
  lemma FirstDigit(buf: seq<char>, out10: int, unit: int, n: nat, fixed: bool, want: nat)
    requires n > 0 && AllDigits(buf) && Denotes(buf, out10, unit, n, fixed, want)
    ensures buf != [] && (buf[0] != '0' <==> want >= Pow(10, n - 1))
  {
    assert Pow(10, n) == 10 * Pow(10, n - 1) && Pow(10, 1) == 10 && Pow(10, 0) == 1;
    NumberBound(buf);
  }

  /** Rounding reaches an even number from half a unit below it, an odd one from strictly closer. */
  lemma RoundReaches(num: nat, d: nat, p: nat)
    requires d > 0 && p > 0
    ensures RoundHalfEven(num, d) >= p
            <==> 2 * (p * d - num) < d || (2 * (p * d - num) == d && p % 2 == 0)
  {
    var q, r := num / d, num % d;
    assert num == q * d + r;
    SubtractProduct(p, q, d);
    if q >= p {
      MulLe(1, q - p + 1, d);
      SubtractProduct(0, q - p, d);
    } else if q == p - 1 {
      assert (p - q) * d == d;
    } else {
      MulLe(2, p - q, d);
    }
  }

  /** An exponent left alone by the fix-up is that of a value above two thirds of the power of ten. */
  lemma NotOverestimated(f: nat, e: int, exp10: int)
    requires f > 0 && !Overestimated(f, e, exp10)
    ensures 3 * RatioNum(f, e, exp10) >= 2 * RatioDen(e, exp10)
  {
    var g := RatioNum(1, e, exp10);
    RatioFactor(f, e, exp10);
    RatioFactor(2 * f + 1, e, exp10);
    MulLe(2 * f + 1, 3 * f, g);
    MulAssoc(3, f, g);
  }

  /** An exponent lowered by the fix-up is that of the first digit. */
  lemma LoweredExact(f: nat, e: int, exp10: int)
    requires RatioDen(e, exp10) <= 10 * RatioNum(f, e, exp10)
    ensures RatioDen(e, exp10 - 1) <= RatioNum(f, e, exp10 - 1)
  {
    RatioShift(f, e, exp10, 1);
    assert Pow(10, 1) == 10;
    CrossOrder(10 * RatioNum(f, e, exp10), RatioDen(e, exp10), RatioNum(f, e, exp10 - 1), RatioDen(e, exp10 - 1));
  }

  lemma CrossOrder(a: nat, b: nat, c: nat, d: nat)
    requires b > 0 && d > 0 && a * d == c * b && b <= a
    ensures d <= c
  {
    MulLe(b, a, d);
    if c < d {
      MulLess(c, d, b);
    }
  }

  /** A ratio of at least two thirds times a power of ten rounds to at least that power when it misses it by no more
      than a half. */
  lemma RatioReaches(rn: nat, rd: nat, p: nat)
    requires rd > 0 && (p == 1 || (p > 0 && p % 2 == 0)) && (rd <= rn || 3 * rn >= 2 * rd)
    ensures RoundHalfEven(rn * p, rd) >= p <==> 2 * ((rd - rn) * p) <= rd
    ensures rd <= rn ==> RoundHalfEven(rn * p, rd) >= p
  {
    RoundReaches(rn * p, rd, p);
    SubtractProduct(rd, rn, p);
    if rd <= rn {
      MulLe(rd, rn, p);
    }
    if p == 1 {
      assert (rd - rn) * p == rd - rn && p * rd == rd && rn * p == rn;
    }
  }

  lemma {:induction false} TensEven(n: nat)
    ensures Pow(10, n) == 1 || Pow(10, n) % 2 == 0
  {
    if n > 0 {
      ModUnique(Pow(10, n), 2, 5 * Pow(10, n - 1), 0);
    }
  }

  /** Where the fix-up leaves the exponent, the value reaches the power of ten or at least two thirds of it. */
  lemma FixedRatio(f: nat, e: int, exp10: int, fixup: bool)
    requires f > 0
    requires RatioDen(e, exp10) <= RatioNum(f, e, exp10) || (fixup && RatioDen(e, exp10) <= 10 * RatioNum(f, e, exp10))
    ensures var x := FixedExponent(f, e, exp10, fixup);
            RatioDen(e, x) <= RatioNum(f, e, x) || 3 * RatioNum(f, e, x) >= 2 * RatioDen(e, x)
  {
    if fixup && Overestimated(f, e, exp10) {
      LoweredExact(f, e, exp10);
    } else if fixup {
      NotOverestimated(f, e, exp10);
    }
  }

  /** When the first of the digits asked for is a significant one. `x` is the exponent after the fix-up: the value
      has to reach 10^x, or to miss it by at most half a unit of the last digit. */
  lemma LeadingDigit(f: nat, e: int, exp10: int, fixup: bool, n: nat, fixed: bool, buf: seq<char>, out10: int)
    requires f > 0 && n > 0 && AllDigits(buf)
    requires RatioDen(e, exp10) <= RatioNum(f, e, exp10) || (fixup && RatioDen(e, exp10) <= 10 * RatioNum(f, e, exp10))
    requires var x := FixedExponent(f, e, exp10, fixup);
             Denotes(buf, out10, x - n + 1, n, fixed, Rounded(f, e, x - n + 1))
    ensures var x := FixedExponent(f, e, exp10, fixup);
            && buf != []
            && (buf[0] != '0' <==> RatioDen(e, x) <= RatioNum(f, e, x) || Rounded(f, e, x - n + 1) >= Pow(10, n - 1))
            && (buf[0] != '0' <==> 2 * ((RatioDen(e, x) - RatioNum(f, e, x)) * Pow(10, n - 1)) <= RatioDen(e, x))
  {
    var x := FixedExponent(f, e, exp10, fixup);
    FirstDigit(buf, out10, x - n + 1, n, fixed, Rounded(f, e, x - n + 1));
    FixedRatio(f, e, exp10, fixup);
    RoundedReaches(f, e, x, n);
  }

  lemma RoundedReaches(f: nat, e: int, x: int, n: nat)
    requires n > 0 && (RatioDen(e, x) <= RatioNum(f, e, x) || 3 * RatioNum(f, e, x) >= 2 * RatioDen(e, x))
    ensures Rounded(f, e, x - n + 1) >= Pow(10, n - 1)
            <==> 2 * ((RatioDen(e, x) - RatioNum(f, e, x)) * Pow(10, n - 1)) <= RatioDen(e, x)
    ensures RatioDen(e, x) <= RatioNum(f, e, x) ==> Rounded(f, e, x - n + 1) >= Pow(10, n - 1)
  {
    var p, rn, rd := Pow(10, n - 1), RatioNum(f, e, x), RatioDen(e, x);
    UnitRatio(f, e, x, n - 1, rn, rd, 1);
    TensEven(n - 1);
    RatioReaches(rn, rd, p);
  }

  /** So an exact estimate always gives a significant first digit. */
  lemma ExactEstimateLeads(f: nat, e: int, exp10: int, n: nat, fixed: bool, buf: seq<char>, out10: int)
    requires f > 0 && n > 0 && AllDigits(buf) && RatioDen(e, exp10) <= RatioNum(f, e, exp10)
    requires Denotes(buf, out10, exp10 - n + 1, n, fixed, Rounded(f, e, exp10 - n + 1))
    ensures buf != [] && buf[0] != '0'
  {
    LeadingDigit(f, e, exp10, false, n, fixed, buf, out10);
    SubtractProduct(RatioDen(e, exp10), RatioNum(f, e, exp10), Pow(10, n - 1));
    MulLe(RatioDen(e, exp10), RatioNum(f, e, exp10), Pow(10, n - 1));
  }

  /** Powers of five are odd. */
  lemma {:induction false} FiveOdd(n: nat)
    ensures Pow(5, n) % 2 == 1
  {
    if n > 0 {
      FiveOdd(n - 1);
      ModUnique(5 * Pow(5, n - 1), 2, 5 * (Pow(5, n - 1) / 2) + 2, 1);
    }
  }

  /** f * 2^e is a power of ten only when f carries all the fives and the missing twos. */
  lemma PowerOfTenFactors(f: nat, e: nat, x: nat)
    requires f * Pow(2, e) == Pow(10, x)
    ensures e <= x && f == Pow(5, x) * Pow(2, x - e)
  {
    PowMul(5, 2, x);
    if e > x {
      PowAdd(2, e - x, x);
      MulAssoc(f, Pow(2, e - x), Pow(2, x));
      CancelFactor(f * Pow(2, e - x), Pow(5, x), Pow(2, x));
      FiveOdd(x);
      MulAssoc(f, 2, Pow(2, e - x - 1));
      MulAssoc(2, f, Pow(2, e - x - 1));
      ModUnique(2 * (f * Pow(2, e - x - 1)), 2, f * Pow(2, e - x - 1), 0);
    } else {
      PowAdd(2, x - e, e);
      MulAssoc(Pow(5, x), Pow(2, x - e), Pow(2, e));
      CancelFactor(f, Pow(5, x) * Pow(2, x - e), Pow(2, e));
    }
  }

  lemma Fives()
    ensures Pow(5, 30) == 931322574615478515625
    ensures Pow(5, 31) == 4656612873077392578125
    ensures Pow(5, 56) > Limit(true)
  {
    assert Pow(5, 7) == 78125;
    PowAdd(5, 7, 7);
    PowAdd(5, 14, 14);
    PowAdd(5, 28, 2);
    assert Pow(5, 2) == 25;
    PowAdd(5, 28, 28);
  }

  lemma WideCases(e: nat, x: nat, exp10: nat, shift: nat)
    requires e <= x < 56 && x <= exp10 <= x + 1 && 1 <= shift <= 2
    requires (e + shift) / 32 > exp10 / 32
    ensures (x == 30 && e == 30) || (x == 31 && 30 <= e <= 31)
  {
  }

  lemma SmallExponent(f: nat, e: nat, x: nat)
    requires e <= x && f == Pow(5, x) * Pow(2, x - e) && f < Limit(true)
    ensures x < 56
  {
    MulLe(1, Pow(2, x - e), Pow(5, x));
    Fives();
    if x >= 56 {
      PowMono(5, 56, x);
    }
  }

  lemma StuckPower(f: nat, e: nat, x: nat, exp10: nat, shift: nat)
    requires f < Limit(true) && f * Pow(2, e) == Pow(10, x) && x <= exp10 <= x + 1 && 1 <= shift <= 2
    requires (e + shift) / 32 > exp10 / 32
    ensures f == 931322574615478515625 || f == 4656612873077392578125 || f == 2 * 4656612873077392578125
  {
    PowerOfTenFactors(f, e, x);
    SmallExponent(f, e, x);
    WideCases(e, x, exp10, shift);
    StuckValue(f, e, x);
  }

  lemma StuckValue(f: nat, e: nat, x: nat)
    requires (x == 30 && e == 30) || (x == 31 && 30 <= e <= 31)
    requires f == Pow(5, x) * Pow(2, x - e)
    ensures f == 931322574615478515625 || f == 4656612873077392578125 || f == 2 * 4656612873077392578125
  {
    Fives();
    if x == e {
      assert Pow(2, 0) == 1;
    } else {
      assert Pow(2, 1) == 2;
    }
  }

  /** The significands on which the first division gets stuck: 5^30, 5^31 and 2 * 5^31. */
  lemma StuckSignificands(f: nat, e: int, exp10: int, closer: bool, fixup: bool)
    requires Input(f, e, exp10) && StuckInput(f, e, exp10, closer, fixup)
    ensures f == 931322574615478515625 || f == 4656612873077392578125 || f == 2 * 4656612873077392578125
  {
    var x := FixedExponent(f, e, exp10, fixup);
    assert Pow(2, 0) == 1 && Pow(10, 0) == 1;
    if x < 0 {
      TinyOverestimate(f, e);
    } else {
      StuckPower(f, e, x, exp10, Shift(closer));
    }
  }

  /** An integer is never overestimated at the exponent 0. */
  lemma TinyOverestimate(f: nat, e: int)
    requires f > 0 && e >= 0
    ensures !Overestimated(f, e, 0)
  {
    assert Pow(2, 0) == 1 && Pow(10, 0) == 1;
    MulLe(3, 2 * f + 1, Pow(2, e));
  }

  lemma Twos()
    ensures Pow(2, 64) < 931322574615478515625
    ensures 2 * 4656612873077392578125 < Pow(2, 112)
  {
    PowTwo32();
    PowAdd(2, 32, 32);
    assert Pow(2, 16) == 65536 by {
      assert Pow(2, 8) == 256;
      PowAdd(2, 8, 8);
    }
    PowAdd(2, 32, 16);
    PowAdd(2, 64, 48);
  }

  /** Normalized significands of 24, 53, 64 and 113 bits are never stuck. */
  lemma FormatsNeverStuck(f: nat, e: int, exp10: int, closer: bool, fixup: bool, bits: nat)
    requires Input(f, e, exp10) && bits in {24, 53, 64, 113} && Pow(2, bits - 1) <= f < Pow(2, bits)
    ensures !StuckInput(f, e, exp10, closer, fixup)
  {
    Twos();
    if bits <= 64 {
      PowMono(2, bits, 64);
    }
    if StuckInput(f, e, exp10, closer, fixup) {
      StuckSignificands(f, e, exp10, closer, fixup);
    }
  }

  /** 5^31 * 2^31, asked for with its exact exponent 31, is such an input. */
  lemma StuckExample()
    ensures var f := 4656612873077392578125;
            && Input(f, 31, 31) && StuckInput(f, 31, 31, false, false)
            && RatioDen(31, 31) <= RatioNum(f, 31, 31) < 10 * RatioDen(31, 31)
  {
    Fives();
    PowMul(5, 2, 31);
    assert Pow(2, 0) == 1 && Pow(10, 0) == 1;
  }

  lemma Powers()
    ensures Pow(2, 24) == 16777216 && Pow(2, 30) == 1073741824
    ensures Pow(10, 7) == 10000000 && Pow(10, 16) == 10000000000000000
    ensures Pow(10, 23) == 100000000000000000000000 && Pow(10, 28) == 10000000000000000000000000000
  {
    assert Pow(2, 6) == 64 && Pow(10, 2) == 100 && Pow(10, 5) == 100000;
    PowAdd(2, 6, 6);
    PowAdd(2, 12, 12);
    PowAdd(2, 24, 6);
    PowAdd(10, 5, 2);
    PowAdd(10, 7, 7);
    PowAdd(10, 14, 2);
    PowAdd(10, 16, 7);
    PowAdd(10, 23, 5);
  }

  /** The double nearest 10^23 lies just below it. Formatted with the fix-up and the estimate 23, it keeps that
      exponent, and its seventeen digits start with a zero. */
  lemma LeadingZeroExample(fixed: bool, buf: seq<char>, out10: int)
    requires AllDigits(buf) && Denotes(buf, out10, 7, 17, fixed, Rounded(5960464477539062, 24, 7))
    ensures var f := 5960464477539062;
            && Input(f, 24, 23) && RatioNum(f, 24, 23) < RatioDen(24, 23) <= 10 * RatioNum(f, 24, 23)
            && FixedExponent(f, 24, 23, true) == 23 && !StuckInput(f, 24, 23, false, true)
    ensures buf[..1] == "0"
  {
    Powers();
    assert Pow(2, 0) == 1 && Pow(10, 0) == 1;
    LeadingDigit(5960464477539062, 24, 23, true, 17, fixed, buf, out10);
  }

  /** So does the 64-bit long double nearest 10^28 with twenty-one digits. */
  lemma LongLeadingZeroExample(fixed: bool, buf: seq<char>, out10: int)
    requires AllDigits(buf) && Denotes(buf, out10, 8, 21, fixed, Rounded(9313225746154785156, 30, 8))
    ensures var f := 9313225746154785156;
            && Input(f, 30, 28) && RatioNum(f, 30, 28) < RatioDen(30, 28) <= 10 * RatioNum(f, 30, 28)
            && FixedExponent(f, 30, 28, true) == 28 && !StuckInput(f, 30, 28, false, true)
    ensures buf[..1] == "0"
  {
    Powers();
    assert Pow(10, 4) == 10000;
    PowAdd(10, 16, 4);
    assert Pow(2, 0) == 1 && Pow(10, 0) == 1;
    LeadingDigit(9313225746154785156, 30, 28, true, 21, fixed, buf, out10);
  }
}
