/** The arbitrary-precision formatter: f * 2^e printed to a given number of digits. */
module Dragon {
  import opened Words
  import opened WordSteps
  import opened Bigints
  import opened Decimal
  import opened Rounding
  import opened DragonDigits

  const INT_LIMIT: int := 0x8000_0000

  datatype Printed = Printed(buf: seq<char>, exp10: int) | TooBig

  function Shift(closer: bool): nat {
    if closer then 2 else 1
  }

  /** An input the set-ups accept: a 128-bit significand, and a non-negative decimal exponent for integers. */
  ghost predicate Input(f: nat, e: int, exp10: int) {
    && 0 < f < Limit(true)
    && -INT_LIMIT < e < INT_LIMIT && -INT_LIMIT < exp10 < INT_LIMIT
    && (e >= 0 ==> exp10 >= 0)
  }

  /** The ratio of numerator and denominator, and a boundary half a unit in the last place away. */
  ghost predicate SetUpFor(numerator: Bigint, denominator: Bigint, upper: Bigint, f: nat, e: int, exp10: int,
                           shift: nat)
    reads numerator, denominator, upper
  {
    && numerator != denominator && numerator != upper && denominator != upper
    && numerator.Normal() && denominator.Normal() && upper.Normal()
    && numerator.Value() == RatioNum(f, e, exp10) * Pow(2, shift)
    && denominator.Value() == RatioDen(e, exp10) * Pow(2, shift)
    && numerator.Value() == upper.Value() * (2 * f)
  }

  /** The boundary below: the one above it, or half of that when the predecessor is closer. */
  ghost predicate LowerFor(numerator: Bigint, denominator: Bigint, lower: Bigint, upper: Bigint, closer: bool)
    reads lower, upper
  {
    && lower != numerator && lower != denominator && lower.Normal()
    && (if closer then lower != upper && upper.Value() == 2 * lower.Value() else lower == upper)
  }

  /** The numerator's exponent exceeds the denominator's: only integers whose shifted binary exponent
      reaches a word more than the decimal exponent does. */
  ghost predicate WideNumerator(e: int, exp10: int, shift: nat) {
    e >= 0 && (e + shift) / 32 > exp10 / 32
  }

  /** The word exponents of numerator, denominator and lower boundary. */
  ghost predicate SetUpExponents(numerator: nat, denominator: nat, lower: nat, e: int, exp10: int, shift: nat) {
    && (e >= 0 ==> numerator == (e + shift) / 32 && denominator == exp10 / 32 && lower == e / 32)
    && (e < 0 && exp10 < 0 ==> numerator == lower == -exp10 / 32 && denominator == (shift - e) / 32)
    && (e < 0 && exp10 >= 0 ==> numerator == lower == 0)
  }

  method SetUp(f: nat, e: int, exp10: int, closer: bool)
    returns (numerator: Bigint, denominator: Bigint, lower: Bigint, upper: Bigint)
    requires Input(f, e, exp10)
    ensures fresh(numerator) && fresh(denominator) && fresh(lower) && fresh(upper)
    ensures SetUpFor(numerator, denominator, upper, f, e, exp10, Shift(closer))
    ensures LowerFor(numerator, denominator, lower, upper, closer)
    ensures SetUpExponents(numerator.exp, denominator.exp, lower.exp, e, exp10, Shift(closer))
    ensures e >= 0 ==> lower.Value() == Pow(2, e)
  {
    if e >= 0 {
      numerator, denominator, lower, upper := SetUpInteger(f, e, exp10, closer);
    } else if exp10 < 0 {
      numerator, denominator, lower, upper := SetUpSmall(f, e, exp10, closer);
    } else {
      numerator, denominator, lower, upper := SetUpFraction(f, e, exp10, closer);
    }
  }

  method SetUpInteger(f: nat, e: int, exp10: int, closer: bool)
    returns (numerator: Bigint, denominator: Bigint, lower: Bigint, upper: Bigint)
    requires Input(f, e, exp10) && e >= 0
    ensures fresh(numerator) && fresh(denominator) && fresh(lower) && fresh(upper)
    ensures SetUpFor(numerator, denominator, upper, f, e, exp10, Shift(closer))
    ensures LowerFor(numerator, denominator, lower, upper, closer)
    ensures numerator.exp == (e + Shift(closer)) / 32 && denominator.exp == exp10 / 32 && lower.exp == e / 32
    ensures lower.Value() == Pow(2, e)
  {
    IntegerSetUp(f, e, exp10, closer);
    numerator := new Bigint();
    numerator.Assign(f);
    numerator.ShiftLeft(e + Shift(closer));
    lower := new Bigint();
    lower.Assign(1);
    lower.ShiftLeft(e);
    upper := lower;
    if closer {
      upper := new Bigint();
      upper.Assign(1);
      upper.ShiftLeft(e + 1);
    }
    denominator := new Bigint();
    denominator.AssignPow10(exp10);
    denominator.ShiftLeft(Shift(closer));
  }

  method SetUpSmall(f: nat, e: int, exp10: int, closer: bool)
    returns (numerator: Bigint, denominator: Bigint, lower: Bigint, upper: Bigint)
    requires Input(f, e, exp10) && e < 0 && exp10 < 0
    ensures fresh(numerator) && fresh(denominator) && fresh(lower) && fresh(upper)
    ensures SetUpFor(numerator, denominator, upper, f, e, exp10, Shift(closer))
    ensures LowerFor(numerator, denominator, lower, upper, closer)
    ensures numerator.exp == lower.exp == -exp10 / 32 && denominator.exp == (Shift(closer) - e) / 32
  {
    SmallSetUp(f, e, exp10, closer);
    numerator := new Bigint();
    numerator.AssignPow10(-exp10);
    lower := new Bigint();
    lower.AssignFrom(numerator);
    upper := lower;
    if closer {
      upper := new Bigint();
      upper.AssignFrom(numerator);
      upper.ShiftLeft(1);
    }
    numerator.MultiplyWide(f, true);
    numerator.ShiftLeft(Shift(closer));
    denominator := new Bigint();
    denominator.Assign(1);
    denominator.ShiftLeft(Shift(closer) - e);
  }

  method SetUpFraction(f: nat, e: int, exp10: int, closer: bool)
    returns (numerator: Bigint, denominator: Bigint, lower: Bigint, upper: Bigint)
    requires Input(f, e, exp10) && e < 0 && exp10 >= 0
    ensures fresh(numerator) && fresh(denominator) && fresh(lower) && fresh(upper)
    ensures SetUpFor(numerator, denominator, upper, f, e, exp10, Shift(closer))
    ensures LowerFor(numerator, denominator, lower, upper, closer)
    ensures numerator.exp == lower.exp == 0
  {
    FractionSetUp(f, e, exp10, closer);
    numerator := new Bigint();
    numerator.Assign(f);
    numerator.ShiftLeft(Shift(closer));
    denominator := new Bigint();
    denominator.AssignPow10(exp10);
    denominator.ShiftLeft(Shift(closer) - e);
    lower := new Bigint();
    lower.Assign(1);
    upper := lower;
    if closer {
      upper := new Bigint();
      upper.Assign(2);
    }
  }

  lemma TwoPowers(closer: bool)
    ensures Pow(2, Shift(closer)) == if closer then 4 else 2
    ensures Pow(2, 0) == 1 && Pow(2, 1) == 2 && Pow(10, 0) == 1
  {
    assert Pow(2, 2) == 2 * Pow(2, 1);
  }

  lemma IntegerSetUp(f: nat, e: int, exp10: int, closer: bool)
    requires e >= 0 && exp10 >= 0
    ensures f * Pow(2, e + Shift(closer)) == RatioNum(f, e, exp10) * Pow(2, Shift(closer))
    ensures Pow(10, exp10) == RatioDen(e, exp10)
    ensures f * Pow(2, e + Shift(closer)) == (if closer then 1 * Pow(2, e + 1) else 1 * Pow(2, e)) * (2 * f)
  {
    TwoPowers(closer);
    PowAdd(2, e, Shift(closer));
    PowAdd(2, e, 1);
    var p := Pow(2, e);
    MulAssoc(f, p, Pow(2, Shift(closer)));
    MulAssoc(f, p, 2);
    MulAssoc(p, 2, f);
    MulAssoc(p, 2, 2 * f);
  }

  lemma SmallSetUp(f: nat, e: int, exp10: int, closer: bool)
    requires e < 0 && exp10 < 0
    ensures Pow(10, -exp10) * f == RatioNum(f, e, exp10)
    ensures 1 * Pow(2, Shift(closer) - e) == RatioDen(e, exp10) * Pow(2, Shift(closer))
    ensures (Pow(10, -exp10) * f) * Pow(2, Shift(closer))
         == (if closer then Pow(10, -exp10) * Pow(2, 1) else Pow(10, -exp10)) * (2 * f)
  {
    TwoPowers(closer);
    PowAdd(2, -e, Shift(closer));
    var p := Pow(10, -exp10);
    MulAssoc(p, f, 2);
    MulAssoc(p, 2, 2 * f);
    MulAssoc(p, f, 4);
  }

  lemma FractionSetUp(f: nat, e: int, exp10: int, closer: bool)
    requires e < 0 && exp10 >= 0
    ensures f == RatioNum(f, e, exp10)
    ensures Pow(10, exp10) * Pow(2, Shift(closer) - e) == RatioDen(e, exp10) * Pow(2, Shift(closer))
    ensures f * Pow(2, Shift(closer)) == (if closer then 2 else 1) * (2 * f)
  {
    TwoPowers(closer);
    PowAdd(2, -e, Shift(closer));
    MulAssoc(Pow(10, exp10), Pow(2, -e), Pow(2, Shift(closer)));
  }

  /** Half a unit in the last place added to the value stays below 10^exp10, or on it for odd significands:
      the estimate of the decimal exponent was one too high. */
  ghost predicate Overestimated(f: nat, e: int, exp10: int) {
    var sum, two := RatioNum(2 * f + 1, e, exp10), 2 * RatioDen(e, exp10);
    sum < two || (sum == two && f % 2 == 1)
  }

  ghost function FixedExponent(f: nat, e: int, exp10: int, fixup: bool): int {
    if fixup && Overestimated(f, e, exp10) then exp10 - 1 else exp10
  }

  /** The inputs on which the first division goes wrong: integers that are exactly the power of ten
      of their exponent, and whose numerator ends up with the wider word exponent. */
  ghost predicate StuckInput(f: nat, e: int, exp10: int, closer: bool, fixup: bool) {
    && WideNumerator(e, exp10, Shift(closer))
    && RatioNum(f, e, FixedExponent(f, e, exp10, fixup)) == RatioDen(e, FixedExponent(f, e, exp10, fixup))
  }

  /** The comparison with the upper boundary decides the estimate. */
  lemma OverestimatedSign(f: nat, e: int, exp10: int, n: nat, d: nat, u: nat, c: nat)
    requires f > 0 && c > 0 && n == RatioNum(f, e, exp10) * c && d == RatioDen(e, exp10) * c && n == u * (2 * f)
    ensures Overestimated(f, e, exp10) <==> Sign(n + u - d) + (if f % 2 == 0 then 1 else 0) <= 0
  {
    var g := RatioNum(1, e, exp10);
    RatioFactor(f, e, exp10);
    RatioFactor(2 * f + 1, e, exp10);
    BoundarySign(f, g, RatioDen(e, exp10), c, n, u, d);
  }

  lemma BoundarySmall(f: nat, n: nat, u: nat)
    requires f > 0 && n == u * (2 * f)
    ensures 2 * u <= n
  {
    MulLe(2, 2 * f, u);
  }

  lemma RatioFactor(f: nat, e: int, exp10: int)
    ensures RatioNum(f, e, exp10) == f * RatioNum(1, e, exp10)
  {
    MulAssoc(f, Pow(2, if e >= 0 then e else 0), Pow(10, if exp10 >= 0 then 0 else -exp10));
  }

  lemma BoundarySign(f: nat, g: nat, den: nat, c: nat, n: nat, u: nat, d: nat)
    requires f > 0 && c > 0 && n == (f * g) * c && d == den * c && n == u * (2 * f)
    ensures Sign(n + u - d) == Sign((2 * f + 1) * g - 2 * den)
  {
    BoundaryScale(f, g, c, n, u);
    var w := (2 * f + 1) * g - 2 * den;
    SubtractProduct((2 * f + 1) * g, 2 * den, c);
    MulAssoc(2, den, c);
    MulAssoc(2 * f + 1, g, c);
    assert w * c == 2 * (n + u - d);
    SignProduct(w, c);
  }

  lemma BoundaryScale(f: nat, g: nat, c: nat, n: nat, u: nat)
    requires f > 0 && n == (f * g) * c && n == u * (2 * f)
    ensures 2 * (n + u) == (2 * f + 1) * (g * c)
  {
    MulAssoc(f, g, c);
    MulAssoc(u, 2, f);
    CancelFactor(g * c, u * 2, f);
    DistributeRight(2 * f, 1, g * c);
    MulAssoc(2, f, g * c);
  }

  /** What the fix-up leaves: the value over 10^(exp10 - k), k being 0 or 1, still below ten and above a tenth. The
      boundaries are scaled along when they will be needed. */
  method FixUp(numerator: Bigint, denominator: Bigint, lower: Bigint, upper: Bigint, f: nat, e: int, exp10: int,
               ghost shift: nat, fixup: bool, shortest: bool) returns (fixed10: int)
    requires f > 0 && SetUpFor(numerator, denominator, upper, f, e, exp10, shift)
    requires lower != numerator && lower != denominator && lower.Normal()
    requires numerator.Value() < 10 * denominator.Value()
    requires denominator.Value() <= numerator.Value() || (fixup && denominator.Value() <= 10 * numerator.Value())
    modifies numerator, lower, upper
    ensures fixed10 == FixedExponent(f, e, exp10, fixup)
    ensures numerator.Normal() && numerator.exp == old(numerator.exp)
    ensures numerator.Value() == old(numerator.Value()) * Pow(10, exp10 - fixed10)
    ensures numerator.Value() < 10 * denominator.Value() && denominator.Value() < 10 * numerator.Value()
    ensures lower.Normal() && lower.exp == old(lower.exp) && upper.Normal()
    ensures shortest ==> lower.Value() == old(lower.Value()) * Pow(10, exp10 - fixed10)
    ensures shortest ==> upper.Value() == old(upper.Value()) * Pow(10, exp10 - fixed10)
  {
    fixed10 := exp10;
    assert Pow(10, 0) == 1 && Pow(10, 1) == 10;
    OverestimatedSign(f, e, exp10, numerator.Value(), denominator.Value(), upper.Value(), Pow(2, shift));
    BoundarySmall(f, numerator.Value(), upper.Value());
    if fixup {
      var even := if f % 2 == 0 then 1 else 0;
      var c := Bigint.AddCompare(numerator, upper, denominator);
      if c + even <= 0 {
        fixed10 := exp10 - 1;
        numerator.MultiplyWord(10);
        if shortest {
          lower.MultiplyWord(10);
          if upper != lower {
            upper.MultiplyWord(10);
          }
        }
      }
    }
  }

  /** A ratio over a power of ten, moved to another power. */
  lemma UnitRatio(f: nat, e: int, exp10: int, k: nat, n: nat, d: nat, c: nat)
    requires c > 0 && n == RatioNum(f, e, exp10) * c && d == RatioDen(e, exp10) * c
    ensures d > 0 && RoundHalfEven(n * Pow(10, k), d)
            == RoundHalfEven(RatioNum(f, e, exp10 - k), RatioDen(e, exp10 - k))
  {
    PositiveProduct(RatioDen(e, exp10), c);
    RatioShift(f, e, exp10, k);
    UnitProduct(RatioNum(f, e, exp10), RatioDen(e, exp10), c, Pow(10, k), RatioNum(f, e, exp10 - k),
                RatioDen(e, exp10 - k));
    RoundCross(n * Pow(10, k), d, RatioNum(f, e, exp10 - k), RatioDen(e, exp10 - k));
  }

  lemma UnitProduct(rn: nat, rd: nat, c: nat, p: nat, rn': nat, rd': nat)
    requires rn * p * rd' == rn' * rd
    ensures ((rn * c) * p) * rd' == rn' * (rd * c)
  {
    MulAssoc(rn, c, p);
    MulAssoc(rn, p, c);
    MulAssoc(rn * p, c, rd');
    MulAssoc(rn * p, rd', c);
    MulAssoc(rn', rd, c);
  }

  lemma {:induction false} PowerOrder(a: nat, b: nat)
    requires Pow(10, a) <= Pow(2, b)
    ensures a <= b
  {
    PowBases(2, 10, a);
    if a > b {
      PowAdd(2, b, a - b);
      MulLe(2, Pow(2, a - b), Pow(2, b)) by {
        assert Pow(2, a - b) == 2 * Pow(2, a - b - 1);
      }
    }
  }

  lemma EqualScaled(a: nat, b: nat, c: nat)
    requires c > 0
    ensures a * c == b * c <==> a == b
  {
    if a * c == b * c {
      CancelFactor(a, b, c);
    }
  }

  lemma EqualCross(x: nat, rd: nat, rn': nat, rd': nat)
    requires rd > 0 && rd' > 0 && x * rd' == rn' * rd
    ensures x == rd <==> rn' == rd'
  {
    if x == rd {
      CancelFactor(rn', rd', rd);
    }
    if rn' == rd' {
      CancelFactor(x, rd, rd');
    }
  }

  /** Equality of numerator and denominator, read off the ratio. */
  lemma EqualRatio(f: nat, e: int, exp10: int, k: nat, n: nat, d: nat, c: nat)
    requires c > 0 && n == RatioNum(f, e, exp10) * c && d == RatioDen(e, exp10) * c
    ensures n * Pow(10, k) == d <==> RatioNum(f, e, exp10 - k) == RatioDen(e, exp10 - k)
    ensures n * Pow(10, k) == d <==> RatioNum(f, e, exp10) * Pow(10, k) == RatioDen(e, exp10)
  {
    RatioShift(f, e, exp10, k);
    var rn, rd, p := RatioNum(f, e, exp10), RatioDen(e, exp10), Pow(10, k);
    MulAssoc(rn, c, p);
    MulAssoc(rn, p, c);
    EqualScaled(rn * p, rd, c);
    EqualCross(rn * p, rd, RatioNum(f, e, exp10 - k), RatioDen(e, exp10 - k));
  }

  /** Values below one never get a numerator with the wider exponent when they are exact powers of ten. */
  lemma SmallNotWide(f: nat, e: int, exp10: int, k: nat, shift: nat)
    requires f > 0 && e < 0 && exp10 < 0
    requires RatioNum(f, e, exp10) * Pow(10, k) == RatioDen(e, exp10)
    ensures -exp10 / 32 <= (shift - e) / 32
  {
    var p := Pow(10, -exp10);
    assert Pow(2, 0) == 1 && Pow(10, 0) == 1;
    MulLe(1, f, p);
    MulLe(1, Pow(10, k), f * p);
    assert RatioNum(f, e, exp10) == f * p && RatioDen(e, exp10) == Pow(2, -e);
    PowerOrder(-exp10, -e);
  }

  /** The first division gets stuck exactly on the stuck inputs; `exps` are the two word exponents. */
  lemma StuckIff(f: nat, e: int, exp10: int, x: int, shift: nat, n: nat, d: nat, exps: (nat, nat))
    requires f > 0 && x <= exp10
    requires n == RatioNum(f, e, exp10) * Pow(2, shift) && d == RatioDen(e, exp10) * Pow(2, shift)
    requires exists lower :: SetUpExponents(exps.0, exps.1, lower, e, exp10, shift)
    ensures n * Pow(10, exp10 - x) == d && exps.0 > exps.1
       <==> WideNumerator(e, exp10, shift) && RatioNum(f, e, x) == RatioDen(e, x)
  {
    var k := exp10 - x;
    assert exp10 - k == x;
    EqualRatio(f, e, exp10, k, n, d, Pow(2, shift));
    if e < 0 && exp10 < 0 && n * Pow(10, k) == d {
      SmallNotWide(f, e, exp10, k, shift);
    }
  }

  /** The number of digits asked for, counted from the front. */
  ghost function DigitCount(f: nat, e: int, exp10: int, fixup: bool, fixed: bool, numDigits: nat): int {
    if fixup && fixed then numDigits + FixedExponent(f, e, exp10, fixup) + 1 else numDigits
  }

  /** `n` digits of value/10^exp10 and its decimal exponent. */
  method Generate(numerator: Bigint, denominator: Bigint, n: int, exp10: int, fixed: bool)
    returns (buf: seq<char>, out10: int)
    requires numerator != denominator && numerator.Normal() && denominator.Normal()
    requires numerator.Value() < 10 * denominator.Value() && denominator.Value() < 10 * numerator.Value()
    modifies numerator, denominator
    ensures old(denominator.Value()) > 0
    ensures n > 0 ==> Denotes(buf, out10, exp10 - n + 1, n, fixed,
                              RoundHalfEven(old(numerator.Value()) * Pow(10, n - 1), old(denominator.Value())))
    ensures n > 0 ==> (AllDigits(buf) <==> !(old(Stuck(numerator, denominator)) && n > 1))
    ensures n <= 0 ==> |buf| == 1 && AllDigits(buf) && out10 == exp10 - n + 1
    ensures n == 0 ==> Number(buf) == RoundHalfEven(old(numerator.Value()), 10 * old(denominator.Value()))
    ensures n < 0 ==> Number(buf) == 0
  {
    out10 := exp10 - (n - 1);
    if n <= 0 {
      var digit := '0';
      NumberSnoc([], '0');
      NumberSnoc([], '1');
      if n == 0 {
        denominator.MultiplyWord(10);
        RoundFrom(numerator.Value(), denominator.Value(), 0, numerator.Value());
        var c := Bigint.AddCompare(numerator, numerator, denominator);
        digit := if c > 0 then '1' else '0';
      }
      buf := [] + [digit];
      return;
    }
    ghost var n0, stuck := numerator.Value(), Stuck(numerator, denominator);
    buf := LeadingDigits(numerator, denominator, n);
    buf, out10 := LastDigit(numerator, denominator, n0, stuck, buf, fixed, out10);
  }

  /** Formats f * 2^e, `exp10` being the exponent of its first digit, or one more when `fixup` is asked for. */
  method FormatDragon(f: nat, e: int, closer: bool, fixup: bool, fixed: bool, numDigits: nat, exp10: int)
    returns (r: Printed)
    requires Input(f, e, exp10)
    requires RatioNum(f, e, exp10) < 10 * RatioDen(e, exp10)
    requires RatioDen(e, exp10) <= RatioNum(f, e, exp10) || (fixup && RatioDen(e, exp10) <= 10 * RatioNum(f, e, exp10))
    ensures var x := FixedExponent(f, e, exp10, fixup);
            r.TooBig? <==> fixup && fixed && x + 1 > 0 && numDigits > INT_LIMIT - 1 - (x + 1)
    ensures var x, n := FixedExponent(f, e, exp10, fixup), DigitCount(f, e, exp10, fixup, fixed, numDigits);
            r.Printed? ==>
              && (n > 0 ==> Denotes(r.buf, r.exp10, x - n + 1, n, fixed, Rounded(f, e, x - n + 1)))
              && (n <= 0 ==> |r.buf| == 1 && r.exp10 == x - n + 1 && Number(r.buf) == Rounded(f, e, x - n + 1))
              && (AllDigits(r.buf) <==> !(n > 1 && StuckInput(f, e, exp10, closer, fixup)))
  {
    var numerator, denominator, lower, upper := SetUp(f, e, exp10, closer);
    ghost var n0, d, c := numerator.Value(), denominator.Value(), Pow(2, Shift(closer));
    ScaleBounds(RatioNum(f, e, exp10), RatioDen(e, exp10), c);
    ghost var exps := (numerator.exp, denominator.exp);
    var x := FixUp(numerator, denominator, lower, upper, f, e, exp10, Shift(closer), fixup, false);
    StuckIff(f, e, exp10, x, Shift(closer), n0, d, exps);
    ghost var stuck := Stuck(numerator, denominator);
    assert stuck <==> StuckInput(f, e, exp10, closer, fixup);
    var n: int := numDigits;
    if fixup && fixed {
      if x + 1 > 0 && n > INT_LIMIT - 1 - (x + 1) {
        return TooBig;
      }
      n := n + x + 1;
    }
    GeneratedUnit(f, e, exp10, x, n, n0, d, c, numerator.Value());
    var buf, out10 := Generate(numerator, denominator, n, x, fixed);
    r := Printed(buf, out10);
  }

  lemma ScaleBounds(n: nat, d: nat, c: nat)
    requires c > 0 && n < 10 * d
    ensures n * c < 10 * (d * c)
    ensures d <= n ==> d * c <= n * c
    ensures d <= 10 * n ==> d * c <= 10 * (n * c)
  {
    MulLess(n, 10 * d, c);
    MulAssoc(10, d, c);
    MulAssoc(10, n, c);
    if d <= n { MulLe(d, n, c); }
    if d <= 10 * n { MulLe(d, 10 * n, c); }
  }

  /** The generated digits round the value in units of the last one. */
  lemma GeneratedUnit(f: nat, e: int, exp10: int, x: int, n: int, n0: nat, d: nat, c: nat, numerator: nat)
    requires c > 0 && n0 == RatioNum(f, e, exp10) * c && d == RatioDen(e, exp10) * c && d > 0
    requires exp10 - 1 <= x <= exp10 && numerator == n0 * Pow(10, exp10 - x) && numerator < 10 * d
    ensures n > 0 ==> RoundHalfEven(numerator * Pow(10, n - 1), d) == Rounded(f, e, x - n + 1)
    ensures n == 0 ==> RoundHalfEven(numerator, 10 * d) == Rounded(f, e, x - n + 1)
    ensures n < 0 ==> Rounded(f, e, x - n + 1) == 0
  {
    var unit := x - n + 1;
    if n > 0 {
      PowAdd(10, exp10 - x, n - 1);
      MulAssoc(n0, Pow(10, exp10 - x), Pow(10, n - 1));
      UnitRatio(f, e, exp10, exp10 - unit, n0, d, c);
    } else {
      ScaledUnit(f, e, exp10, x, unit, n0, d, c, numerator);
    }
  }

  /** Units above the first digit. */
  lemma ScaledUnit(f: nat, e: int, exp10: int, x: int, unit: int, n0: nat, d: nat, c: nat, numerator: nat)
    requires c > 0 && n0 == RatioNum(f, e, exp10) * c && d == RatioDen(e, exp10) * c && d > 0
    requires exp10 - 1 <= x <= exp10 && numerator == n0 * Pow(10, exp10 - x) && numerator < 10 * d && unit > x
    ensures RoundHalfEven(numerator, 10 * d) == Rounded(f, e, unit) || unit > x + 1
    ensures unit > x + 1 ==> Rounded(f, e, unit) == 0
  {
    var rn, rd := RatioNum(f, e, unit), RatioDen(e, unit);
    var p := Pow(10, unit - x);
    UnitCross(f, e, exp10, x, unit, n0, d, c, numerator);
    assert Pow(10, 1) == 10;
    if unit == x + 1 {
      RoundCross(numerator, 10 * d, rn, rd);
    } else {
      assert p == 10 * Pow(10, unit - x - 1) && Pow(10, unit - x - 1) == 10 * Pow(10, unit - x - 2);
      SmallRatio(rn, rd, p, d, numerator);
      RoundFrom(rn, rd, 0, rn);
    }
  }

  lemma SmallRatio(rn: nat, rd: nat, p: nat, d: nat, numerator: nat)
    requires rd > 0 && d > 0 && p >= 100 && numerator < 10 * d && numerator * rd == rn * (p * d)
    ensures 2 * rn < rd
  {
    if 2 * rn >= rd {
      MulLess(numerator, 10 * d, rd);
      MulLe(100, p, d);
      MulLe(100 * d, p * d, rn);
      MulAssoc(100, d, rn);
      MulAssoc(10, d, rd);
      MulLe(rd, 2 * rn, d);
    }
  }

  lemma UnitCross(f: nat, e: int, exp10: int, x: int, unit: int, n0: nat, d: nat, c: nat, numerator: nat)
    requires c > 0 && n0 == RatioNum(f, e, exp10) * c && d == RatioDen(e, exp10) * c
    requires exp10 - 1 <= x <= exp10 && numerator == n0 * Pow(10, exp10 - x) && unit > x
    ensures numerator * RatioDen(e, unit) == RatioNum(f, e, unit) * (Pow(10, unit - x) * d)
  {
    RatioShift(f, e, unit, unit - x);
    RatioShift(f, e, exp10, exp10 - x);
    var rn, rd, rnx, rdx := RatioNum(f, e, unit), RatioDen(e, unit), RatioNum(f, e, x), RatioDen(e, x);
    var rn0, rd0, k, p := RatioNum(f, e, exp10), RatioDen(e, exp10), Pow(10, exp10 - x), Pow(10, unit - x);
    CrossChain(rn0 * k, rd0, rnx, rdx, rn * p, rd);
    ScaleCross(rn0, k, c, rd, rn, p, rd0);
  }

  lemma CrossChain(a: nat, b: nat, x: nat, y: nat, u: nat, v: nat)
    requires y > 0 && a * y == x * b && u * y == x * v
    ensures a * v == u * b
  {
    MulAssoc(a, y, v);
    MulAssoc(x, b, v);
    MulAssoc(x, v, b);
    MulAssoc(u, y, b);
    MulAssoc(a, v, y);
    MulAssoc(u, b, y);
    CancelFactor(a * v, u * b, y);
  }

  lemma ScaleCross(rn0: nat, k: nat, c: nat, rd: nat, rn: nat, p: nat, rd0: nat)
    requires (rn0 * k) * rd == (rn * p) * rd0
    ensures ((rn0 * c) * k) * rd == rn * (p * (rd0 * c))
  {
    MulAssoc(rn0, c, k);
    MulAssoc(rn0, k, c);
    MulAssoc(rn0 * k, c, rd);
    MulAssoc(rn0 * k, rd, c);
    MulAssoc(rn * p, rd0, c);
    MulAssoc(rn, p, rd0 * c);
  }
}
