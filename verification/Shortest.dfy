/** Which decimals lie in a rounding interval, and how digit-by-digit long division finds the shortest of them. */
module Shortest {
  import opened Common
  import opened Words
  import opened WordSteps
  import opened Decimal
  import opened Rounding
  import opened DragonDigits

  /** A rounding interval around n/d from l/d below to u/d above; `low` and `high` say whether its ends belong to it. */
  datatype Interval = Interval(n: nat, d: nat, l: nat, u: nat, low: bool, high: bool) {
    /** A gap above the value, negative below it, that stays inside the interval scaled by `p`. */
    ghost predicate Near(gap: int, p: nat) {
      && (if high then gap <= u * p else gap < u * p)
      && (if low then -gap <= l * p else -gap < l * p)
    }

    /** How far m * 10^-k lies above the value, in units of 10^-k / d. */
    ghost function Gap(k: nat, m: int): int {
      m * d - n * Pow(10, k)
    }

    /** m * 10^-k lies in the interval. */
    ghost predicate Within(k: nat, m: int) {
      Near(Gap(k, m), Pow(10, k))
    }

    /** m * 10^-k is a closest decimal of its unit in the interval, and the even one of two. */
    ghost predicate Closest(k: nat, m: int) {
      forall o :: Within(k, o) && o != m ==>
        || Abs(Gap(k, m)) < Abs(Gap(k, o))
        || (Abs(Gap(k, m)) == Abs(Gap(k, o)) && m % 2 == 0)
    }

    /** No multiple of a larger unit lies in the interval. */
    ghost predicate NoneBefore(k: nat) {
      forall j: nat, m: int :: j < k ==> !Within(j, m)
    }

    ghost predicate IsShortest(k: nat, m: int) {
      Within(k, m) && NoneBefore(k) && Closest(k, m)
    }

    ghost predicate Valid() {
      d > 0 && l > 0 && u > 0
    }
  }

  // ----- One digit -----

  lemma GapFrom(v: Interval, k: nat, q: int, r: nat, m: int)
    requires v.n * Pow(10, k) == q * v.d + r
    ensures v.Gap(k, m) == (m - q) * v.d - r
  {
    SubtractProduct(m, q, v.d);
  }

  lemma GapOrder(q: int, m: int, d: nat)
    ensures m <= q ==> (m - q) * d <= 0
    ensures m > q ==> (m - q) * d >= d
    ensures m < q ==> (m - q) * d + d <= 0
  {
    if m < q {
      MulLe(1, q - m, d);
      SubtractProduct(m, q, d);
    } else if m > q {
      MulLe(1, m - q, d);
    }
  }

  lemma GapAt(v: Interval, k: nat, q: int, r: nat)
    requires v.n * Pow(10, k) == q * v.d + r
    ensures v.Gap(k, q) == 0 - r
  {
    GapFrom(v, k, q, r, q);
  }

  lemma GapAbove(v: Interval, k: nat, q: int, r: nat)
    requires v.n * Pow(10, k) == q * v.d + r
    ensures v.Gap(k, q + 1) == v.d - r
  {
    GapFrom(v, k, q, r, q + 1);
  }

  /** Bounds for the gaps of all decimals but the two neighbours of the value. */
  lemma GapBeyond(v: Interval, k: nat, q: int, r: nat, o: int)
    requires v.n * Pow(10, k) == q * v.d + r
    ensures o < q ==> v.Gap(k, o) <= 0 - r - v.d
    ensures o > q + 1 ==> v.Gap(k, o) >= 2 * v.d - r
  {
    GapFrom(v, k, q, r, o);
    GapOrder(q, o, v.d);
    GapOrder(q + 1, o, v.d);
    SubtractProduct(o - q, 1, v.d);
  }

  /** The gaps of the two neighbours of the value, and bounds for those of all others. */
  lemma Gaps(v: Interval, k: nat, q: int, r: nat, o: int)
    requires v.n * Pow(10, k) == q * v.d + r
    ensures v.Gap(k, q) == 0 - r && v.Gap(k, q + 1) == v.d - r
    ensures o < q ==> v.Gap(k, o) <= 0 - r - v.d
    ensures o > q + 1 ==> v.Gap(k, o) >= 2 * v.d - r
  {
    GapAt(v, k, q, r);
    GapAbove(v, k, q, r);
    GapBeyond(v, k, q, r, o);
  }

  lemma BoundsPositive(v: Interval, k: nat)
    requires v.Valid()
    ensures v.l * Pow(10, k) > 0 && v.u * Pow(10, k) > 0
  {
    PositiveProduct(v.l, Pow(10, k));
    PositiveProduct(v.u, Pow(10, k));
  }

  /** The tests for the two neighbours of the value. */
  lemma TestsNeighbours(v: Interval, k: nat, q: int, r: nat)
    requires v.Valid() && v.n * Pow(10, k) == q * v.d + r && r < v.d
    ensures v.Within(k, q) <==> if v.low then r <= v.l * Pow(10, k) else r < v.l * Pow(10, k)
    ensures v.Within(k, q + 1) <==> if v.high then r + v.u * Pow(10, k) >= v.d else r + v.u * Pow(10, k) > v.d
  {
    BoundsPositive(v, k);
    GapAt(v, k, q, r);
    GapAbove(v, k, q, r);
  }

  /** Of two decimals on one side of the value, the nearer one lies in the interval if the other does. */
  lemma NearerWithin(v: Interval, k: nat, m: int, o: int)
    requires v.Valid() && v.Within(k, o)
    requires v.Gap(k, o) <= v.Gap(k, m) <= 0 || 0 <= v.Gap(k, m) <= v.Gap(k, o)
    ensures v.Within(k, m)
  {
    BoundsPositive(v, k);
  }

  lemma NeighbourFirst(v: Interval, k: nat, q: int, r: nat, m: int)
    requires v.Valid() && v.n * Pow(10, k) == q * v.d + r && r < v.d && v.Within(k, m)
    ensures if m <= q then v.Within(k, q) else v.Within(k, q + 1)
  {
    Gaps(v, k, q, r, m);
    NearerWithin(v, k, if m <= q then q else q + 1, m);
  }

  /** The two tests after a division: whether the digits so far, or the next number above them, lie in the interval. */
  lemma TestsDecide(v: Interval, k: nat, q: int, r: nat)
    requires v.Valid() && v.n * Pow(10, k) == q * v.d + r && r < v.d
    ensures v.Within(k, q) <==> if v.low then r <= v.l * Pow(10, k) else r < v.l * Pow(10, k)
    ensures v.Within(k, q + 1) <==> if v.high then r + v.u * Pow(10, k) >= v.d else r + v.u * Pow(10, k) > v.d
    ensures forall m :: v.Within(k, m) ==> if m <= q then v.Within(k, q) else v.Within(k, q + 1)
  {
    TestsNeighbours(v, k, q, r);
    forall m | v.Within(k, m) ensures if m <= q then v.Within(k, q) else v.Within(k, q + 1) {
      NeighbourFirst(v, k, q, r, m);
    }
  }

  /** The number the last digit gives: the one in the interval, or the closer of the two. */
  ghost predicate Chosen(v: Interval, k: nat, q: int, r: nat, m: int) {
    && (m == q || m == q + 1) && v.Within(k, m)
    && (v.Within(k, q) && v.Within(k, q + 1) ==> (m == q + 1 <==> 2 * r > v.d || (2 * r == v.d && q % 2 != 0)))
  }

  lemma ChosenCloser(v: Interval, k: nat, q: int, r: nat, m: int, o: int)
    requires v.Valid() && v.n * Pow(10, k) == q * v.d + r && r < v.d && Chosen(v, k, q, r, m)
    requires v.Within(k, o) && o != m
    ensures Abs(v.Gap(k, m)) < Abs(v.Gap(k, o)) || (Abs(v.Gap(k, m)) == Abs(v.Gap(k, o)) && m % 2 == 0)
  {
    TestsDecide(v, k, q, r);
    Gaps(v, k, q, r, o);
    Parity(q);
  }

  lemma ChosenClosest(v: Interval, k: nat, q: int, r: nat, m: int)
    requires v.Valid() && v.n * Pow(10, k) == q * v.d + r && r < v.d && Chosen(v, k, q, r, m)
    ensures v.Closest(k, m)
  {
    forall o | v.Within(k, o) && o != m
      ensures Abs(v.Gap(k, m)) < Abs(v.Gap(k, o)) || (Abs(v.Gap(k, m)) == Abs(v.Gap(k, o)) && m % 2 == 0)
    {
      ChosenCloser(v, k, q, r, m, o);
    }
  }

  /** Ten times a number is the same decimal in a tenth of the unit. */
  lemma TenTimes(v: Interval, k: nat, m: int)
    ensures v.Within(k + 1, 10 * m) <==> v.Within(k, m)
  {
    var p := Pow(10, k);
    MulAssoc(10, m, v.d);
    MulAssoc(v.n, p, 10);
    MulAssoc(v.u, p, 10);
    MulAssoc(v.l, p, 10);
  }

  /** Without a hit nothing of this unit lies in the interval, and the digits go on. */
  lemma NoHit(v: Interval, k: nat, q: int, r: nat)
    requires v.Valid() && v.n * Pow(10, k) == q * v.d + r && r < v.d
    requires v.NoneBefore(k) && !v.Within(k, q) && !v.Within(k, q + 1)
    ensures v.NoneBefore(k + 1)
  {
    TestsDecide(v, k, q, r);
  }

  /** After the first digit, rounding up never carries: the shorter number would have been found before. */
  lemma NoCarry(v: Interval, k: nat, number: int)
    requires k > 0 && v.NoneBefore(k)
    ensures !v.Within(k, 10 * number + 10)
  {
    TenTimes(v, k - 1, number + 1);
  }

  // ----- The digit loop -----

  /** The digits so far and the running numerator account for the value. */
  ghost predicate Accounted(v: Interval, k: nat, number: int, n: nat) {
    v.n * Pow(10, k) == number * (10 * v.d) + n && n < 10 * v.d
  }

  lemma AccountStep(v: Interval, k: nat, number: int, n: nat, q: nat, r: nat)
    requires v.d > 0 && Accounted(v, k, number, n) && n == q * v.d + r && r < v.d
    ensures q < 10 && v.n * Pow(10, k) == (10 * number + q) * v.d + r
    ensures Accounted(v, k + 1, 10 * number + q, r * 10)
  {
    DigitInvariant(v.n, Pow(10, k), number, v.d, n, q, r);
    DigitRange(q, v.d, r, 10);
  }

  /** The last digit, as the two tests and the remainder decide it. */
  function LastShortest(q: nat, r: nat, d: nat, low: bool, high: bool): nat {
    if !low then q + 1
    else if high && (2 * r > d || (2 * r == d && q % 2 != 0)) then q + 1
    else q
  }

  /** The digit loop stops with a shortest decimal. */
  lemma StopsShortest(v: Interval, k: nat, number: int, q: nat, r: nat, low: bool, high: bool)
    requires v.Valid() && q < 10 && r < v.d && v.n * Pow(10, k) == (10 * number + q) * v.d + r && v.NoneBefore(k)
    requires low <==> v.Within(k, 10 * number + q)
    requires high <==> v.Within(k, 10 * number + q + 1)
    requires low || high
    ensures v.IsShortest(k, 10 * number + LastShortest(q, r, v.d, low, high))
    ensures LastShortest(q, r, v.d, low, high) <= 10 && (k > 0 ==> LastShortest(q, r, v.d, low, high) < 10)
  {
    var last := LastShortest(q, r, v.d, low, high);
    LastParity(number, q);
    ChosenClosest(v, k, 10 * number + q, r, 10 * number + last);
    if k > 0 {
      NoCarry(v, k, number);
    }
  }

  /** An exact power of ten is its own shortest decimal. */
  lemma PowerShortest(v: Interval)
    requires v.Valid() && v.n == v.d
    ensures v.IsShortest(0, 1)
  {
    assert Pow(10, 0) == 1;
    TestsDecide(v, 0, 1, 0);
    ChosenClosest(v, 0, 1, 0, 1);
  }
}
