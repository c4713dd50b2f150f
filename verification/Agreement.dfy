/** The fast path and the arbitrary-precision path: where one hands over to the other, and that they agree. */
module Agreement {
  import opened Words
  import opened WordSteps
  import opened Decimal
  import opened Rounding
  import opened DragonDigits
  import opened Dragon
  import opened DragonFacts
  import opened FastPath

  /** The leading digits of the segment give the exact decimal exponent that the long division starts from. */
  lemma HandOver(f: nat, e: int, exp: int, segment: nat, more: bool, digits: nat)
    requires digits > 0 && SegmentOf(f, e, exp, segment, more)
    requires Pow(10, digits - 1) <= segment < Pow(10, digits)
    ensures RatioDen(e, exp + digits - 1) <= RatioNum(f, e, exp + digits - 1) < 10 * RatioDen(e, exp + digits - 1)
  {
    var k: nat := digits - 1;
    PowerMove(exp + digits - 1, exp, k);
    var x := exp + digits - 1;
    FactorBounds(f * Pow(2, if e >= 0 then e else 0), Pow(2, if e >= 0 then 0 else -e), Pow(10, k),
                 Pow(10, if x >= 0 then 0 else -x), Pow(10, if exp >= 0 then 0 else -exp),
                 Pow(10, if x >= 0 then x else 0), Pow(10, if exp >= 0 then exp else 0), segment);
  }

  lemma FactorBounds(g: nat, d: nat, p: nat, n1: nat, n2: nat, d1: nat, d2: nat, segment: nat)
    requires d > 0 && p > 0 && d1 > 0 && d2 > 0 && n1 * p * d2 == n2 * d1
    requires d * d2 > 0 && segment == (g * n2) / (d * d2) && p <= segment < 10 * p
    ensures d * d1 <= g * n1 < 10 * (d * d1)
  {
    PositiveProduct(d, d1);
    FactorShift(g, d, p, n1, n2, d1, d2);
    RatioBounds(g * n2, d * d2, g * n1, d * d1, p, segment);
  }

  lemma RatioBounds(rn: nat, rd: nat, rn': nat, rd': nat, p: nat, segment: nat)
    requires rd > 0 && rd' > 0 && p > 0 && rn' * p * rd == rn * rd'
    requires segment == rn / rd && p <= segment < 10 * p
    ensures rd' <= rn' < 10 * rd'
  {
    var rest := rn % rd;
    assert rn == segment * rd + rest;
    MulLe(p, segment, rd);
    MulLe(segment + 1, 10 * p, rd);
    DistributeRight(segment, 1, rd);
    var unit := p * rd;
    PositiveProduct(p, rd);
    MulAssoc(rn', p, rd);
    MulAssoc(10, p, rd);
    MulLe(unit, rn, rd');
    MulLess(rn, 10 * unit, rd');
    MulAssoc(10, unit, rd');
    if rn' < rd' {
      MulLess(rn', rd', unit);
    }
    if rn' >= 10 * rd' {
      MulLe(10 * rd', rn', unit);
      MulAssoc(10, rd', unit);
    }
  }

  /** Both paths on one input: the fast one on the first segment, the long division on the whole value. Asked for the
      same number of digits they give the same exponent, and the same text unless the long division is stuck. */
  method FormatBoth(segment: nat, more: bool, exp: int, precision: nat, fixed: bool, closer: bool, f: nat, e: int)
    returns (fast: seq<char>, fast10: int, slow: seq<char>, slow10: int)
    requires TEN18 / 10 <= segment < TEN19 && SegmentOf(f, e, exp, segment, more)
    requires precision < if segment >= TEN18 then 19 else 18
    requires Input(f, e, exp + SegmentLength(segment) - 1)
    ensures fast10 == slow10 && AllDigits(fast)
    ensures AllDigits(slow) ==> fast == slow
    ensures AllDigits(slow) <==> !(precision > 1 && StuckInput(f, e, exp + SegmentLength(segment) - 1, closer, false))
  {
    var digits := SegmentLength(segment);
    SegmentBounds(segment);
    HandOver(f, e, exp, segment, more, digits);
    fast, fast10 := FormatSegment(segment, more, exp, precision, fixed, f, e);
    var printed := FormatDragon(f, e, closer, false, fixed, precision, exp + digits - 1);
    slow, slow10 := printed.buf, printed.exp10;
    var unit := exp + digits - precision;
    if precision == 0 {
      if AllDigits(slow) {
        NumberInjective(fast, slow);
      }
    } else {
      SameExponent(fast10, slow10, unit, precision, fixed, Rounded(f, e, unit), fast, slow);
      if AllDigits(slow) {
        DenotesUnique(fast, fast10, slow, slow10, unit, precision, fixed, Rounded(f, e, unit));
      }
    }
  }

  function SegmentLength(segment: nat): nat {
    if segment >= TEN18 then 19 else 18
  }

  lemma SegmentBounds(segment: nat)
    requires TEN18 / 10 <= segment < TEN19
    ensures Pow(10, SegmentLength(segment) - 1) <= segment < Pow(10, SegmentLength(segment))
  {
    Tens();
    PowAdd(10, 9, 8);
    PowAdd(10, 9, 9);
    PowAdd(10, 10, 9);
  }

  lemma SameExponent(x: int, y: int, unit: int, n: nat, fixed: bool, want: int, s: seq<char>, t: seq<char>)
    requires Denotes(s, x, unit, n, fixed, want) && Denotes(t, y, unit, n, fixed, want)
    ensures x == y
  {
  }

  /** Below the first unit the two differ in form only: the fast path leaves the buffer empty, the long division
      asked for the same fixed position writes a zero, and the exponents say so. */
  method FormatBelow(segment: nat, more: bool, exp: int, precision: int, closer: bool, f: nat, e: int, places: nat)
    returns (fast: seq<char>, fast10: int, slow: Printed)
    requires TEN18 / 10 <= segment < TEN19 && SegmentOf(f, e, exp, segment, more) && precision < 0
    requires Input(f, e, exp + SegmentLength(segment) - 1) && precision == places + exp + SegmentLength(segment)
    ensures fast == "" && fast10 == exp + SegmentLength(segment)
    ensures slow.Printed? && slow.buf == "0" && slow.exp10 == fast10 - precision
    ensures Rounded(f, e, slow.exp10) == 0
  {
    var digits := SegmentLength(segment);
    var x := exp + digits - 1;
    SegmentBounds(segment);
    HandOver(f, e, exp, segment, more, digits);
    LargeEnough(f, e, x);
    fast, fast10 := FormatSegment(segment, more, exp, precision, true, f, e);
    slow := FormatDragon(f, e, closer, true, true, places, x);
    NumberZeros("0");
    NumberInjective(slow.buf, "0");
  }

  /** A value of at least 10^x is not overestimated. */
  lemma LargeEnough(f: nat, e: int, x: int)
    requires RatioDen(e, x) <= RatioNum(f, e, x)
    ensures !Overestimated(f, e, x)
  {
    var g := RatioNum(1, e, x);
    RatioFactor(f, e, x);
    RatioFactor(2 * f + 1, e, x);
    DistributeRight(2 * f, 1, g);
    MulAssoc(2, f, g);
  }
}
