/** The arbitrary-precision formatter when no digit count is given: the shortest digits that still identify the
    value. */
module ShortestDragon {
  import opened Words
  import opened WordSteps
  import opened Bigints
  import opened Decimal
  import opened Rounding
  import opened DragonDigits
  import opened Dragon
  import opened Shortest

  /** How the comparison with the lower boundary comes out, given word exponents and the boundary's places. */
  function LowSeen(n: nat, en: nat, l: nat, el: nat, places: nat, even: bool): bool {
    if n == 0 && en >= places then false
    else if n == l then en > el || (en == el && even)
    else n < l
  }

  function HighSeen(n: nat, u: nat, d: nat, even: bool): bool {
    if even then n + u >= d else n + u > d
  }

  /** The two tests after a division. */
  method TestBounds(numerator: Bigint, denominator: Bigint, lower: Bigint, upper: Bigint, even: bool)
    returns (low: bool, high: bool)
    requires numerator.Valid() && denominator.Normal() && lower.Normal() && upper.Normal()
    requires numerator.Normal() || numerator.exp < denominator.NumBigits()
    ensures low == LowSeen(numerator.Value(), numerator.exp, lower.Value(), lower.exp, lower.NumBigits(), even)
    ensures high == HighSeen(numerator.Value(), upper.Value(), denominator.Value(), even)
  {
    ZeroOrTop(numerator.bigits, numerator.exp);
    ZeroOrTop(lower.bigits, lower.exp);
    var one := if even then 1 else 0;
    var c := Bigint.Compare(numerator, lower);
    low := c - one < 0;
    var s := Bigint.AddCompare(numerator, upper, denominator);
    high := s + one > 0;
  }

  method ChooseLast(numerator: Bigint, denominator: Bigint, digit: nat, low: bool, high: bool) returns (last: nat)
    requires numerator.Valid() && denominator.Normal()
    requires numerator.Normal() || numerator.exp < denominator.NumBigits()
    ensures last == LastShortest(digit, numerator.Value(), denominator.Value(), low, high)
  {
    last := digit;
    if !low {
      last := last + 1;
    } else if high {
      var c := Bigint.AddCompare(numerator, numerator, denominator);
      if c > 0 || (c == 0 && digit % 2 != 0) {
        last := last + 1;
      }
    }
  }

  /** Four different numbers, save that the two boundaries may be one. */
  ghost predicate Apart(numerator: Bigint, denominator: Bigint, lower: Bigint, upper: Bigint) {
    && numerator != denominator && numerator != lower && numerator != upper && denominator != lower
    && denominator != upper
  }

  // ----- What the word exponents mean for the tests -----

  /** The word exponents of numerator, denominator and lower boundary before the first division, and the boundary's
      places. */
  datatype Places = Places(n: nat, d: nat, l: nat, count: nat) {
    /** The numerator's exponent after the first division. */
    function Aligned(): nat {
      if n <= d then n else d
    }

    /** Whether the lower boundary counts as part of the interval. */
    predicate Closed(even: bool) {
      Aligned() > l || (Aligned() == l && even)
    }

    /** A remainder of zero has more places than the boundary. */
    predicate Deep() {
      Aligned() >= count
    }
  }

  /** What the digit loop starts from. */
  ghost predicate Starts(v: Interval, e: Places, even: bool) {
    && v.Valid() && v.n < 10 * v.d && 2 * v.u <= v.n && v.l <= v.u
    && v.high == even && v.low == e.Closed(even)
    && (v.d <= v.n || HighSeen(v.n, v.u, v.d, even))
    && Pow(BASE, e.Aligned()) <= 10 * v.l
    && (e.Deep() ==> e.n <= e.d && 10 * v.u < v.d)
  }

  /** The value is one digit exactly, and the zero that remains is not recognized as small. */
  ghost predicate Trapped(v: Interval, e: Places)
    requires v.d > 0
  {
    e.Deep() && v.n % v.d == 0
  }

  /** The state before the division for digit `k`, `number` being the digits so far. */
  ghost predicate Going(v: Interval, e: Places, k: nat, number: int, n: nat, en: nat, l: nat, u: nat)
    requires v.d > 0
  {
    && Accounted(v, k, number, n) && l == v.l * Pow(10, k) && u == v.u * Pow(10, k)
    && (if k == 0 then n == v.n && number == 0 && en == e.n else en == e.Aligned() && Pow(BASE, e.Aligned()) <= l)
    && (if k > 0 && Trapped(v, e) then k == 1 && n == 0 && number * v.d == v.n else v.NoneBefore(k))
  }

  /** The state after it: digit `q`, remainder `r`, the numerator's exponent and the boundary's places. */
  ghost predicate Divided(v: Interval, e: Places, k: nat, n: nat, q: nat, r: nat, en: nat, places: nat) {
    && n == q * v.d + r && r < v.d
    && (if k == 0 then en == (if q == 0 then e.n else e.Aligned()) && places == e.count
        else en == e.Aligned() && en < places)
  }

  /** The comparison with the lower boundary is the one the interval asks for, unless the value is trapped. */
  lemma LowRight(v: Interval, e: Places, even: bool, k: nat, number: int, n: nat, q: nat, r: nat, en: nat, en': nat,
                 l: nat, u: nat, places: nat)
    requires Starts(v, e, even) && Going(v, e, k, number, n, en, l, u) && Divided(v, e, k, n, q, r, en', places)
    requires !(k == 0 && Trapped(v, e))
    ensures LowSeen(r, en', l, e.l, places, even) <==> if v.low then r <= l else r < l
  {
    assert Pow(10, 0) == 1;
    PositiveProduct(v.l, Pow(10, k));
    if k == 0 && q > 0 && r == 0 {
      ModUnique(v.n, v.d, q, 0);
    }
  }

  /** The tests find what lies in the interval, unless the value is trapped. */
  lemma TestsRight(v: Interval, e: Places, even: bool, k: nat, number: int, n: nat, q: nat, r: nat, en: nat, en': nat,
                   l: nat, u: nat, places: nat)
    requires Starts(v, e, even) && Going(v, e, k, number, n, en, l, u) && Divided(v, e, k, n, q, r, en', places)
    requires !(k == 0 && Trapped(v, e))
    ensures q < 10 && v.n * Pow(10, k) == (10 * number + q) * v.d + r
    ensures LowSeen(r, en', l, e.l, places, even) <==> v.Within(k, 10 * number + q)
    ensures HighSeen(r, u, v.d, even) <==> v.Within(k, 10 * number + q + 1)
  {
    AccountStep(v, k, number, n, q, r);
    TestsDecide(v, k, 10 * number + q, r);
    LowRight(v, e, even, k, number, n, q, r, en, en', l, u, places);
  }

  /** Without a hit the boundary is still below the denominator. */
  lemma StillSmall(v: Interval, e: Places, even: bool, k: nat, number: int, n: nat, q: nat, r: nat, en: nat, en': nat,
                   l: nat, u: nat, places: nat)
    requires Starts(v, e, even) && Going(v, e, k, number, n, en, l, u) && Divided(v, e, k, n, q, r, en', places)
    requires !LowSeen(r, en', l, e.l, places, even) && !HighSeen(r, u, v.d, even)
    ensures l < v.d
  {
    assert Pow(10, 0) == 1;
  }

  /** After any digit the numerator is aligned with the boundary below it. */
  lemma AlignedNext(v: Interval, e: Places, even: bool, k: nat, number: int, n: nat, q: nat, r: nat, en: nat, en': nat,
                    l: nat, u: nat, places: nat)
    requires Starts(v, e, even) && Going(v, e, k, number, n, en, l, u) && Divided(v, e, k, n, q, r, en', places)
    requires !LowSeen(r, en', l, e.l, places, even) && !HighSeen(r, u, v.d, even)
    ensures en' == e.Aligned() && Pow(BASE, e.Aligned()) <= l * 10
  {
    assert Pow(10, 0) == 1;
  }

  lemma GoesOn(v: Interval, e: Places, even: bool, k: nat, number: int, n: nat, q: nat, r: nat, en: nat, en': nat,
               l: nat, u: nat, places: nat)
    requires Starts(v, e, even) && Going(v, e, k, number, n, en, l, u) && Divided(v, e, k, n, q, r, en', places)
    requires !LowSeen(r, en', l, e.l, places, even) && !HighSeen(r, u, v.d, even)
    ensures q < 10 && Going(v, e, k + 1, 10 * number + q, r * 10, en', l * 10, u * 10)
  {
    AccountStep(v, k, number, n, q, r);
    BoundsGrow(v, k);
    AlignedNext(v, e, even, k, number, n, q, r, en, en', l, u, places);
    if Trapped(v, e) {
      TrappedGoesOn(v, e, even, k, number, n, q, r, en, en', l, u, places);
    } else {
      TestsRight(v, e, even, k, number, n, q, r, en, en', l, u, places);
      NoHit(v, k, 10 * number + q, r);
    }
  }

  lemma BoundsGrow(v: Interval, k: nat)
    requires v.Valid()
    ensures v.l * Pow(10, k) > 0
    ensures v.l * Pow(10, k) * 10 == v.l * Pow(10, k + 1) && v.u * Pow(10, k) * 10 == v.u * Pow(10, k + 1)
  {
    BoundsPositive(v, k);
    MulAssoc(v.l, Pow(10, k), 10);
    MulAssoc(v.u, Pow(10, k), 10);
  }

  /** A trapped value goes on after its one digit only. */
  lemma TrappedGoesOn(v: Interval, e: Places, even: bool, k: nat, number: int, n: nat, q: nat, r: nat, en: nat,
                      en': nat, l: nat, u: nat, places: nat)
    requires Starts(v, e, even) && Going(v, e, k, number, n, en, l, u) && Divided(v, e, k, n, q, r, en', places)
    requires !LowSeen(r, en', l, e.l, places, even) && !HighSeen(r, u, v.d, even) && Trapped(v, e)
    ensures k == 0 && r == 0 && q > 0 && (10 * number + q) * v.d == v.n
  {
    BoundsPositive(v, k);
    assert Pow(10, 0) == 1;
    if k == 0 {
      ModUnique(v.n, v.d, q, r);
    } else {
      DigitRange(q, v.d, r, 1);
    }
  }

  /** What the loop returns: `m` units of the digit after `k` others. */
  ghost predicate Outcome(v: Interval, e: Places, k: nat, m: int)
    requires v.d > 0
  {
    if Trapped(v, e) then k == 1 && m * v.d == 10 * v.n && m % 10 == 0 else v.IsShortest(k, m)
  }

  lemma Stops(v: Interval, e: Places, even: bool, k: nat, number: int, n: nat, q: nat, r: nat, en: nat, en': nat,
              l: nat, u: nat, places: nat)
    requires Starts(v, e, even) && Going(v, e, k, number, n, en, l, u) && Divided(v, e, k, n, q, r, en', places)
    requires LowSeen(r, en', l, e.l, places, even) || HighSeen(r, u, v.d, even)
    ensures var last := LastShortest(q, r, v.d, LowSeen(r, en', l, e.l, places, even), HighSeen(r, u, v.d, even));
            last <= 10 && (k > 0 ==> last < 10) && Outcome(v, e, k, 10 * number + last)
  {
    var low, high := LowSeen(r, en', l, e.l, places, even), HighSeen(r, u, v.d, even);
    assert Pow(10, 0) == 1 && Pow(10, 1) == 10;
    if !Trapped(v, e) {
      TestsRight(v, e, even, k, number, n, q, r, en, en', l, u, places);
      StopsShortest(v, k, number, q, r, low, high);
    } else if k == 0 {
      ModUnique(v.n, v.d, q, r);
      assert false;
    } else {
      DigitRange(q, v.d, r, 1);
      MulAssoc(10, number, v.d);
    }
  }

  /** A number of at least BASE^n has more than `n` places. */
  lemma PlacesAbove(b: Bigint, n: nat)
    requires Pow(BASE, n) <= b.Value()
    ensures n < b.NumBigits()
  {
    if b.NumBigits() <= n {
      CountBound(b.bigits, b.exp, n);
    }
  }

  /** The one input the first division mistakes: it is found by the upper boundary instead. */
  lemma StuckStops(v: Interval, e: Places, even: bool)
    requires Starts(v, e, even) && v.n == v.d && e.n > e.d
    ensures !LowSeen(v.n, e.n, v.l, e.l, e.count, even) && HighSeen(v.n, v.u, v.d, even)
    ensures Outcome(v, e, 0, 1)
  {
    PowerShortest(v);
  }

  /** One round up to the decision to stop. */
  method ShortestRound(numerator: Bigint, denominator: Bigint, lower: Bigint, upper: Bigint, even: bool,
                       ghost v: Interval, ghost e: Places, ghost k: nat, ghost number: int)
    returns (digit: nat, low: bool, high: bool)
    requires Apart(numerator, denominator, lower, upper)
    requires numerator.Valid() && denominator.Normal() && lower.Normal() && upper.Normal()
    requires v.d == denominator.Value() && e.d == denominator.exp && e.l == lower.exp && Starts(v, e, even)
    requires Going(v, e, k, number, numerator.Value(), numerator.exp, lower.Value(), upper.Value())
    requires k == 0 ==> numerator.Normal() && lower.NumBigits() == e.count
    modifies numerator
    ensures numerator.Valid() && (numerator.Normal() || numerator.exp <= denominator.exp) && v.d == denominator.Value()
    ensures low || high ==>
              var last := LastShortest(digit, numerator.Value(), v.d, low, high);
              last <= 10 && (k > 0 ==> last < 10) && Outcome(v, e, k, 10 * number + last)
    ensures !low && !high ==>
              && digit < 10 && lower.Value() < v.d
              && Going(v, e, k + 1, 10 * number + digit, numerator.Value() * 10, numerator.exp, lower.Value() * 10,
                       upper.Value() * 10)
  {
    ghost var n, en, places := numerator.Value(), numerator.exp, lower.NumBigits();
    digit := NextDigit(numerator, denominator);
    low, high := TestBounds(numerator, denominator, lower, upper, even);
    if k == 0 && n == v.d && en > e.d {
      assert Pow(10, 0) == 1;
      StuckStops(v, e, even);
    } else {
      if k > 0 {
        PlacesAbove(lower, e.Aligned());
      }
      RoundDecides(v, e, even, k, number, n, digit, numerator.Value(), en, numerator.exp, lower.Value(), upper.Value(),
                   places);
    }
  }

  /** What a round leads to: an outcome, or the state before the next division. */
  lemma RoundDecides(v: Interval, e: Places, even: bool, k: nat, number: int, n: nat, q: nat, r: nat, en: nat, en': nat,
                     l: nat, u: nat, places: nat)
    requires Starts(v, e, even) && Going(v, e, k, number, n, en, l, u) && Divided(v, e, k, n, q, r, en', places)
    ensures var low, high := LowSeen(r, en', l, e.l, places, even), HighSeen(r, u, v.d, even);
            if low || high then
              var last := LastShortest(q, r, v.d, low, high);
              last <= 10 && (k > 0 ==> last < 10) && Outcome(v, e, k, 10 * number + last)
            else
              q < 10 && l < v.d && Going(v, e, k + 1, 10 * number + q, r * 10, en', l * 10, u * 10)
  {
    if LowSeen(r, en', l, e.l, places, even) || HighSeen(r, u, v.d, even) {
      Stops(v, e, even, k, number, n, q, r, en, en', l, u, places);
    } else {
      StillSmall(v, e, even, k, number, n, q, r, en, en', l, u, places);
      GoesOn(v, e, even, k, number, n, q, r, en, en', l, u, places);
    }
  }

  /** Where the loop stands: digits so far, their number, and the values of the numerator and the boundaries. */
  datatype State = State(k: nat, number: int, n: nat, en: nat, l: nat, u: nat) {
    ghost predicate Good(v: Interval, e: Places)
      requires v.d > 0
    {
      Going(v, e, k, number, n, en, l, u)
    }
  }

  /** The numbers hold the state. */
  ghost predicate Held(g: State, e: Places, numerator: Bigint, denominator: Bigint, lower: Bigint, upper: Bigint)
    reads numerator, denominator, lower, upper
  {
    && numerator.Valid() && denominator.Normal() && lower.Normal() && upper.Normal()
    && e.d == denominator.exp && e.l == lower.exp
    && g.n == numerator.Value() && g.en == numerator.exp && g.l == lower.Value() && g.u == upper.Value()
    && (g.k == 0 ==> numerator.Normal() && lower.NumBigits() == e.count)
  }

  /** One round: the next digit, and whether it is the last one. */
  method ShortestStep(numerator: Bigint, denominator: Bigint, lower: Bigint, upper: Bigint, even: bool,
                      ghost v: Interval, ghost e: Places, ghost g: State)
    returns (digit: nat, stop: bool, ghost next: State)
    requires Apart(numerator, denominator, lower, upper) && Held(g, e, numerator, denominator, lower, upper)
    requires v.d == denominator.Value() && Starts(v, e, even) && g.Good(v, e)
    modifies numerator, lower, upper
    ensures digit <= 10 && (g.k > 0 || !stop ==> digit < 10)
    ensures next.k == g.k + 1 && next.number == 10 * g.number + digit
    ensures stop ==> Outcome(v, e, g.k, next.number)
    ensures !stop ==>
              Held(next, e, numerator, denominator, lower, upper) && next.Good(v, e) && g.l < v.d && g.l < next.l
  {
    var low, high;
    digit, low, high := ShortestRound(numerator, denominator, lower, upper, even, v, e, g.k, g.number);
    stop := low || high;
    if stop {
      digit := ChooseLast(numerator, denominator, digit, low, high);
    } else {
      ZeroOrTop(lower.bigits, lower.exp);
      NextPlace(numerator, lower, upper);
    }
    next := State(g.k + 1, 10 * g.number + digit, numerator.Value(), numerator.exp, lower.Value(), upper.Value());
  }

  lemma OneDigitMore(buf: seq<char>, digit: nat, longer: seq<char>)
    requires AllDigits(buf) && digit <= 10 && longer == buf + [DigitChar(digit)]
    ensures |longer| == |buf| + 1 && Number(longer) == 10 * Number(buf) + digit
    ensures digit < 10 ==> AllDigits(longer)
    ensures AllDigits(longer) || |longer| > 1 || Number(longer) == digit
  {
    NumberSnoc(buf, DigitChar(digit));
    if buf == [] {
      assert Number([]) == 0;
    }
  }

  /** Divides, tests and decides: the digit loop of the shortest mode. */
  method ShortestDigits(numerator: Bigint, denominator: Bigint, lower: Bigint, upper: Bigint, even: bool,
                        ghost v: Interval)
    returns (buf: seq<char>)
    requires Apart(numerator, denominator, lower, upper)
    requires numerator.Normal() && denominator.Normal() && lower.Normal() && upper.Normal()
    requires v.n == numerator.Value() && v.d == denominator.Value() && v.l == lower.Value() && v.u == upper.Value()
    requires Starts(v, Places(numerator.exp, denominator.exp, lower.exp, lower.NumBigits()), even)
    modifies numerator, lower, upper
    ensures buf != [] && (AllDigits(buf) || (|buf| == 1 && Number(buf) == 10))
    ensures Outcome(v, old(Places(numerator.exp, denominator.exp, lower.exp, lower.NumBigits())), |buf| - 1,
                    Number(buf))
  {
    ghost var e := Places(numerator.exp, denominator.exp, lower.exp, lower.NumBigits());
    ghost var g := State(0, 0, v.n, e.n, v.l, v.u);
    GoingFirst(v, e, even);
    buf := [];
    while true
      invariant Held(g, e, numerator, denominator, lower, upper) && g.Good(v, e)
      invariant AllDigits(buf) && g.k == |buf| && g.number == Number(buf)
      decreases if g.l < v.d then v.d - g.l else 0
    {
      var digit, stop;
      ghost var next;
      digit, stop, next := ShortestStep(numerator, denominator, lower, upper, even, v, e, g);
      OneDigitMore(buf, digit, buf + [DigitChar(digit)]);
      buf := buf + [DigitChar(digit)];
      if stop {
        SameOutcome(v, e, g.k, next.number, |buf| - 1, Number(buf));
        return;
      }
      g := next;
    }
  }

  lemma GoingFirst(v: Interval, e: Places, even: bool)
    requires Starts(v, e, even)
    ensures Going(v, e, 0, 0, v.n, e.n, v.l, v.u)
  {
    assert Pow(10, 0) == 1;
  }

  lemma SameOutcome(v: Interval, e: Places, k: nat, m: int, k': nat, m': int)
    requires v.d > 0 && k == k' && m == m' && Outcome(v, e, k, m)
    ensures Outcome(v, e, k', m')
  {
  }

  /** Moves on to the next digit; the boundaries may be one number. */
  method NextPlace(numerator: Bigint, lower: Bigint, upper: Bigint)
    requires numerator != lower && numerator != upper
    requires numerator.Valid() && lower.Normal() && upper.Normal()
    modifies numerator, lower, upper
    ensures numerator.Valid() && numerator.exp == old(numerator.exp) && numerator.Value() == old(numerator.Value()) * 10
    ensures lower.Normal() && lower.exp == old(lower.exp) && lower.Value() == old(lower.Value()) * 10
    ensures upper.Normal() && upper.Value() == old(upper.Value()) * 10
  {
    numerator.MultiplyWord(10);
    lower.MultiplyWord(10);
    if upper != lower {
      upper.MultiplyWord(10);
    }
  }
}
