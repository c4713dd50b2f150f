/** Rounding a ratio to the nearest integer, ties to even, and the decimal texts that carry the result. */
module Rounding {
  import opened Words
  import opened WordSteps

  function RoundHalfEven(num: nat, den: nat): nat
    requires den > 0
  {
    var q, r := num / den, num % den;
    if 2 * r > den || (2 * r == den && q % 2 == 1) then q + 1 else q
  }

  /** `k` is a nearest integer to num/den, and the even one of two. */
  ghost predicate IsNearestEven(num: int, den: int, k: int) {
    && -den <= 2 * (k * den - num) <= den
    && (2 * (k * den - num) == den || 2 * (k * den - num) == -den ==> k % 2 == 0)
  }

  /** The rounding computed from quotient and remainder is the nearest-even integer, and the only one. */
  lemma NearestEven(num: nat, den: nat, k: int)
    requires den > 0
    ensures IsNearestEven(num, den, k) <==> k == RoundHalfEven(num, den)
  {
    var q, r := num / den, num % den;
    assert num == q * den + r;
    SubtractProduct(k, q, den);
    var m := k - q;
    assert k * den - num == m * den - r;
    if m >= 2 {
      MulLe(2, m, den);
    } else if m <= -1 {
      MulLe(1, -m, den);
      SubtractProduct(0, -m, den);
    }
    Parity(q);
  }

  lemma Parity(q: int)
    ensures (q + 1) % 2 == 0 <==> q % 2 == 1
  {
  }

  /** Rounding depends on the ratio only. */
  lemma RoundCross(a: nat, b: nat, c: nat, d: nat)
    requires b > 0 && d > 0 && a * d == c * b
    ensures RoundHalfEven(a, b) == RoundHalfEven(c, d)
  {
    var k := RoundHalfEven(a, b);
    NearestEven(a, b, k);
    NearestEven(c, d, k);
    var x, y := k * b - a, k * d - c;
    assert x * d == y * b by {
      SubtractProduct(k * b, a, d);
      SubtractProduct(k * d, c, b);
      MulAssoc(k, b, d);
      MulAssoc(k, d, b);
    }
    ScaledSigns(x, b, y, d);
  }

  /** x/b == y/d: twice one lies against its unit as twice the other does. */
  lemma ScaledSigns(x: int, b: nat, y: int, d: nat)
    requires b > 0 && d > 0 && x * d == y * b
    ensures Sign(2 * x - b) == Sign(2 * y - d)
    ensures Sign(2 * x + b) == Sign(2 * y + d)
  {
    SubtractProduct(2 * x, b, d);
    SubtractProduct(2 * y, d, b);
    DistributeRight(2 * x, b, d);
    DistributeRight(2 * y, d, b);
    MulAssoc(2, x, d);
    MulAssoc(2, y, b);
    SignProduct(2 * x - b, d);
    SignProduct(2 * y - d, b);
    SignProduct(2 * x + b, d);
    SignProduct(2 * y + d, b);
  }

  lemma SignProduct(x: int, d: nat)
    requires d > 0
    ensures Sign(x * d) == Sign(x)
  {
    if x > 0 {
      MulLe(1, x, d);
    } else if x < 0 {
      MulLe(1, -x, d);
      SubtractProduct(0, -x, d);
    }
  }

  /** Rounding from a quotient and a remainder. */
  lemma RoundFrom(num: nat, den: nat, q: nat, r: nat)
    requires den > 0 && num == q * den + r && r < den
    ensures RoundHalfEven(num, den) == if 2 * r > den || (2 * r == den && q % 2 == 1) then q + 1 else q
  {
    ModUnique(num, den, q, r);
  }

  /** The numerator and denominator of f * 2^e / 10^u. */
  function RatioNum(f: nat, e: int, u: int): nat {
    f * Pow(2, if e >= 0 then e else 0) * Pow(10, if u >= 0 then 0 else -u)
  }

  function RatioDen(e: int, u: int): (d: nat)
    ensures d > 0
  {
    PositiveProduct(Pow(2, if e >= 0 then 0 else -e), Pow(10, if u >= 0 then u else 0));
    Pow(2, if e >= 0 then 0 else -e) * Pow(10, if u >= 0 then u else 0)
  }

  /** The correct rounding of f * 2^e to units of 10^unit. */
  ghost function Rounded(f: nat, e: int, unit: int): nat {
    RoundHalfEven(RatioNum(f, e, unit), RatioDen(e, unit))
  }

  lemma PositiveProduct(a: nat, b: nat)
    requires a > 0 && b > 0
    ensures a * b > 0
  {
  }

  /** Lowering the decimal unit by `k` multiplies the ratio by 10^k. */
  lemma RatioMove(f: nat, e: int, u: int, v: int, k: nat)
    requires u == v + k
    ensures RatioNum(f, e, u) * Pow(10, k) * RatioDen(e, v) == RatioNum(f, e, v) * RatioDen(e, u)
  {
    PowerMove(u, v, k);
    FactorShift(f * Pow(2, if e >= 0 then e else 0), Pow(2, if e >= 0 then 0 else -e), Pow(10, k),
                Pow(10, if u >= 0 then 0 else -u), Pow(10, if v >= 0 then 0 else -v),
                Pow(10, if u >= 0 then u else 0), Pow(10, if v >= 0 then v else 0));
  }

  lemma RatioShift(f: nat, e: int, u: int, k: nat)
    ensures RatioNum(f, e, u) * Pow(10, k) * RatioDen(e, u - k) == RatioNum(f, e, u - k) * RatioDen(e, u)
  {
    RatioMove(f, e, u, u - k, k);
  }

  lemma PowerMove(u: int, v: int, k: nat)
    requires u == v + k
    ensures Pow(10, if u >= 0 then 0 else -u) * Pow(10, k) * Pow(10, if v >= 0 then v else 0)
         == Pow(10, if v >= 0 then 0 else -v) * Pow(10, if u >= 0 then u else 0)
  {
    if v >= 0 {
      PowAdd(10, k, v);
    } else if u >= 0 {
      PowAdd(10, u, -v);
    } else {
      PowAdd(10, -u, k);
    }
  }

  lemma FactorShift(g: nat, d: nat, p: nat, n1: nat, n2: nat, d1: nat, d2: nat)
    requires n1 * p * d2 == n2 * d1
    ensures (g * n1) * p * (d * d2) == (g * n2) * (d * d1)
  {
    MulAssoc(g, n1, p);
    MulSwap(g, n1 * p, d, d2);
    MulSwap(g, n2, d, d1);
  }
}
