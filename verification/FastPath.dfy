/** The fixed-precision fast path: digits of one 64-bit segment in fixed-point arithmetic, rounded half to even. */
module FastPath {
  import opened Words
  import opened WordSteps
  import opened WideMultiply
  import opened Magic
  import opened Decimal
  import opened Rounding
  import opened DragonDigits

  const TEN9: nat := 1000000000
  const TEN10: nat := 10000000000
  const TEN18: nat := 1000000000000000000
  const TEN19: nat := 10000000000000000000

  /** A running fixed-point number `t` over 2^32: the digits so far and a 32-bit fraction. Scaled to nine digits it
      stays within one unit above the segment. */
  ghost predicate Running(segment: nat, text: seq<char>, frac: nat, k: nat, t: nat) {
    && |text| == k <= 9 && AllDigits(text) && frac < BASE
    && t == Number(text) * BASE + frac
    && segment * BASE <= t * Pow(10, 9 - k) < (segment + 1) * BASE
  }

  function TwoDigits(d: nat): seq<char>
    requires d < 100
  {
    [DigitChar(d / 10), DigitChar(d % 10)]
  }

  lemma TwoDigitsNumber(text: seq<char>, d: nat)
    requires d < 100 && AllDigits(text)
    ensures AllDigits(text + TwoDigits(d)) && Number(text + TwoDigits(d)) == 100 * Number(text) + d
  {
    NumberSnoc(text, DigitChar(d / 10));
    NumberSnoc(text + [DigitChar(d / 10)], DigitChar(d % 10));
    assert text + TwoDigits(d) == (text + [DigitChar(d / 10)]) + [DigitChar(d % 10)];
  }

  /** Two more digits: the fraction times one hundred. */
  lemma RunningStep(segment: nat, text: seq<char>, frac: nat, k: nat, t: nat, d: nat, next: Word)
    requires Running(segment, text, frac, k, t) && k <= 7
    requires frac * 100 == d * BASE + next && d < 100
    ensures Running(segment, text + TwoDigits(d), next, k + 2, t * 100)
    ensures Number(text + TwoDigits(d)) % 2 == d % 2 && |text + TwoDigits(d)| == k + 2
  {
    TwoDigitsNumber(text, d);
    HundredParity(Number(text), d);
    assert Pow(10, 9 - k) == 10 * Pow(10, 8 - k) && Pow(10, 8 - k) == 10 * Pow(10, 7 - k);
    MulAssoc(t, 100, Pow(10, 7 - k));
  }

  /** The first one or two digits, from the multiplier that turns the segment into fixed point. */
  lemma FirstDigits(segment: nat, odd: bool)
    requires segment < TEN9
    ensures var prod := if odd then segment * 720575941 / 0x100_0000 + 1 else segment * 450359963 / 0x10_0000 + 1;
            && prod / BASE < (if odd then 10 else 100)
            && segment * BASE <= prod * (if odd then 100000000 else 10000000) < (segment + 1) * BASE
  {
  }

  /** `q` holds the leading digits of the segment, `r` the others, and the fraction encloses r / scale. */
  ghost predicate Leads(segment: nat, q: int, r: nat, frac: nat, scale: nat) {
    segment == q * scale + r && r < scale && r * BASE <= frac * scale < (r + 1) * BASE
  }

  lemma RunningDigits(segment: nat, text: seq<char>, frac: nat, k: nat, t: nat)
    requires Running(segment, text, frac, k, t)
    ensures |text| == k && AllDigits(text)
  {
  }

  lemma RunningDone(segment: nat, text: seq<char>, frac: nat, k: nat, t: nat) returns (r: nat)
    requires Running(segment, text, frac, k, t)
    ensures Leads(segment, Number(text), r, frac, Pow(10, 9 - k))
  {
    NumberBound(text);
    DoneValues(segment, Number(text), frac, Pow(10, 9 - k));
    r := segment - Number(text) * Pow(10, 9 - k);
  }

  lemma DoneValues(segment: nat, q: nat, frac: nat, scale: nat)
    requires scale > 0 && frac < BASE
    requires segment * BASE <= (q * BASE + frac) * scale < (segment + 1) * BASE
    ensures q * scale <= segment && Leads(segment, q, segment - q * scale, frac, scale)
  {
    DistributeRight(q * BASE, frac, scale);
    MulAssoc(q, BASE, scale);
    MulAssoc(BASE, q, scale);
    MulLess(frac, BASE, scale);
    Enclosed(segment, q * scale, frac * scale, scale);
  }

  lemma Enclosed(segment: int, whole: int, part: int, scale: int)
    requires segment * BASE <= BASE * whole + part < (segment + 1) * BASE && 0 <= part < BASE * scale
    ensures whole <= segment < whole + scale
    ensures (segment - whole) * BASE <= part < (segment - whole + 1) * BASE
  {
  }

  /** Turns the segment into fixed point with one or two integer digits, and prints those. */
  method StartSegment(segment: nat, odd: bool) returns (frac: Word, digits: nat, text: seq<char>)
    requires segment < TEN9
    ensures |text| == (if odd then 1 else 2) && Running(segment, text, frac, |text|, digits * BASE + frac)
    ensures digits % 2 == Number(text) % 2
  {
    FirstDigits(segment, odd);
    Tens();
    if odd {
      var prod := segment * 720575941 / 0x100_0000 + 1;
      digits, frac := prod / BASE, prod % BASE;
      text := [DigitChar(digits)];
      NumberSnoc([], DigitChar(digits));
      assert text == [] + [DigitChar(digits)];
    } else {
      var prod := segment * 450359963 / 0x10_0000 + 1;
      digits, frac := prod / BASE, prod % BASE;
      text := TwoDigits(digits);
      TwoDigitsNumber([], digits);
      assert text == [] + TwoDigits(digits);
    }
  }

  /** The next digit pair of a fraction. */
  method NextPair(frac: Word) returns (digits: nat, next: Word)
    ensures frac * 100 == digits * BASE + next && digits < 100
  {
    var prod := frac * 100;
    digits, next := prod / BASE, prod % BASE;
  }

  /** What is printed so far, the fraction left, the last piece printed and the fixed-point number. */
  datatype Progress = Progress(text: seq<char>, frac: nat, digits: nat, t: nat)

  ghost predicate Printing(segment: nat, p: Progress) {
    Running(segment, p.text, p.frac, |p.text|, p.t) && p.digits % 2 == Number(p.text) % 2
  }

  /** Prints two more digits. */
  method PrintPair(ghost segment: nat, text: seq<char>, frac: Word, ghost before: Progress)
    returns (longer: seq<char>, next: Word, digits: nat, ghost after: Progress)
    requires Printing(segment, before) && before.text == text && before.frac == frac && |text| <= 7
    ensures Printing(segment, after) && after.text == longer && after.frac == next && after.digits == digits
    ensures |longer| == |text| + 2
  {
    digits, next := NextPair(frac);
    RunningStep(segment, text, frac, |text|, before.t, digits, next);
    longer := text + TwoDigits(digits);
    after := Progress(longer, next, digits, before.t * 100);
  }

  /** Prints pairs of digits until there are `n`. */
  method PrintPairs(ghost segment: nat, start: seq<char>, frac0: Word, digits0: nat, n: nat, ghost begun: Progress)
    returns (text: seq<char>, frac: Word, digits: nat, ghost p: Progress)
    requires |start| <= n <= 9 && (n - |start|) % 2 == 0
    requires Printing(segment, begun) && begun.text == start && begun.frac == frac0 && begun.digits == digits0
    ensures Printing(segment, p) && p.text == text && p.frac == frac && p.digits == digits && |text| == n
  {
    text, frac, digits, p := start, frac0, digits0, begun;
    ghost var pairs: nat := (n - |start|) / 2;
    while |text| < n
      invariant n == |text| + 2 * pairs
      invariant Printing(segment, p) && p.text == text && p.frac == frac && p.digits == digits
      decreases n - |text|
    {
      text, frac, digits, p := PrintPair(segment, text, frac, p);
      pairs := pairs - 1;
    }
  }

  /** Prints the first `n` digits of a nine-digit segment. `digits` is the last piece printed. */
  method PrintSubsegment(segment: nat, n: nat) returns (text: seq<char>, frac: Word, digits: nat, ghost r: nat)
    requires segment < TEN9 && 1 <= n <= 9
    ensures |text| == n && AllDigits(text) && digits % 2 == Number(text) % 2
    ensures Leads(segment, Number(text), r, frac, Pow(10, 9 - n))
  {
    frac, digits, text := StartSegment(segment, n % 2 != 0);
    ghost var p := Progress(text, frac, digits, digits * BASE + frac);
    text, frac, digits, p := PrintPairs(segment, text, frac, digits, n, p);
    RunningDigits(segment, text, frac, n, p.t);
    r := RunningDone(segment, text, frac, n, p.t);
  }

  lemma HundredParity(number: int, d: nat)
    ensures (100 * number + d) % 2 == d % 2
  {
    ModUnique(100 * number + d, 2, 50 * number + d / 2, d % 2);
  }

  lemma Tens()
    ensures Pow(10, 0) == 1 && Pow(10, 1) == 10 && Pow(10, 2) == 100 && Pow(10, 3) == 1000 && Pow(10, 4) == 10000
    ensures Pow(10, 5) == 100000 && Pow(10, 6) == 1000000 && Pow(10, 7) == 10000000 && Pow(10, 8) == 100000000
    ensures Pow(10, 9) == TEN9 && Pow(10, 10) == TEN10
  {
  }

  /** The rounding thresholds of the fraction, by the number of digits left minus one. */
  function Threshold(index: nat): Word
    requires index < 8
  {
    [0x9999999a, 0x828f5c29, 0x80418938, 0x80068db9, 0x8000a7c6, 0x800010c7, 0x800001ae, 0x8000002b][index]
  }

  /** What the fraction's comparisons say about the remainder `r` out of an even `scale`. */
  lemma FractionHalves(frac: nat, r: nat, scale: nat, threshold: nat)
    requires scale > 0 && scale % 2 == 0 && threshold > 0
    requires r * BASE <= frac * scale < (r + 1) * BASE
    requires (threshold - 1) * scale < 0x8000_0000 * scale + BASE <= threshold * scale
    ensures frac >= threshold <==> 2 * r > scale
    ensures frac >= 0x8000_0000 <==> 2 * r >= scale
  {
    if frac >= threshold {
      MulLe(threshold, frac, scale);
    } else {
      MulLe(frac, threshold - 1, scale);
    }
    if frac >= 0x8000_0000 {
      MulLe(0x8000_0000, frac, scale);
    } else {
      MulLe(frac, 0x8000_0000 - 1, scale);
    }
  }

  lemma ThresholdHalves(frac: nat, r: nat, left: nat)
    requires 1 <= left <= 8 && r * BASE <= frac * Pow(10, left) < (r + 1) * BASE
    ensures frac >= Threshold(left - 1) <==> 2 * r > Pow(10, left)
    ensures frac >= 0x8000_0000 <==> 2 * r >= Pow(10, left)
  {
    ThresholdFits(left);
    FractionHalves(frac, r, Pow(10, left), Threshold(left - 1));
  }

  /** Each threshold is the smallest fraction above one half by more than the unit of its segment. */
  lemma ThresholdFits(left: nat)
    requires 1 <= left <= 8
    ensures var scale, threshold := Pow(10, left), Threshold(left - 1);
            && scale % 2 == 0 && threshold > 0
            && (threshold - 1) * scale < 0x8000_0000 * scale + BASE <= threshold * scale
  {
    Tens();
  }

  /** Round half to even with quotient `q`, remainder `rem` out of `unit`, and more non-zero digits below or not. */
  ghost predicate RoundsUp(q: int, rem: nat, unit: nat, more: bool) {
    2 * rem > unit || (2 * rem == unit && (more || q % 2 != 0))
  }

  /** The decision taken on the fraction and the tail is the one on the whole remainder. */
  lemma SegmentDecision(q: int, r: nat, scale: nat, tail: nat, width: nat, more: bool)
    requires scale % 2 == 0 && tail < width
    ensures RoundsUp(q, r * width + tail, scale * width, more)
       <==> 2 * r > scale || (2 * r == scale && (tail != 0 || more || q % 2 != 0))
  {
    var half := scale / 2;
    MulAssoc(2, half, width);
    if r > half {
      MulLe(half + 1, r, width);
      DistributeRight(half, 1, width);
    } else if r < half {
      MulLe(r + 1, half, width);
      DistributeRight(r, 1, width);
    }
  }

  /** The segment and the flag for further digits decide the rounding of the value they stand for. */
  lemma StickyRounding(num: nat, den: nat, a: nat, more: bool, unit: nat, q: nat, s: nat)
    requires den > 0 && a == num / den && (more <==> num % den != 0)
    requires unit > 0 && unit % 2 == 0 && a == q * unit + s && s < unit
    ensures unit * den > 0
    ensures RoundHalfEven(num, unit * den) == if RoundsUp(q, s, unit, more) then q + 1 else q
  {
    StickyFrom(num, den, num % den, unit, q, s);
  }

  lemma StickyFrom(num: nat, den: nat, rho: nat, unit: nat, q: nat, s: nat)
    requires rho < den && num == (q * unit + s) * den + rho
    requires unit > 0 && unit % 2 == 0 && s < unit
    ensures unit * den > 0
    ensures RoundHalfEven(num, unit * den) == if RoundsUp(q, s, unit, rho != 0) then q + 1 else q
  {
    PositiveProduct(unit, den);
    StickySplit(num, den, rho, unit, q, s);
    RoundFrom(num, unit * den, q, s * den + rho);
    SegmentDecision(q, s, unit, rho, den, false);
  }

  lemma StickySplit(num: nat, den: nat, rho: nat, unit: nat, q: nat, s: nat)
    requires num == (q * unit + s) * den + rho && rho < den && s < unit
    ensures num == q * (unit * den) + (s * den + rho)
    ensures s * den + rho < unit * den
  {
    DistributeRight(q * unit, s, den);
    MulAssoc(q, unit, den);
    MulLe(s + 1, unit, den);
    DistributeRight(s, 1, den);
  }

  /** Adds one to the last digit, carrying to the front. */
  method RoundUpLast(buf: seq<char>, fixed: bool, unit: int) returns (out: seq<char>, exp10: int)
    requires buf != [] && AllDigits(buf)
    ensures AllDigits(out) && Denotes(out, exp10, unit, |buf|, fixed, Number(buf) + 1)
  {
    var n := |buf| - 1;
    var c := DigitChar((DigitValue(buf[n]) + 1) as nat);
    assert buf[n := c][..n] == buf[..n];
    out := PropagateCarry(buf[n := c]);
    exp10 := unit;
    assert Pow(10, 0) == 1;
    if out[0] == OVERFLOW {
      FrontOverflow(out);
      FrontKept(out[0 := '1']);
      out := out[0 := '1'];
      if fixed {
        out := out + ['0'];
      } else {
        exp10 := exp10 + 1;
      }
    } else {
      AllDigitsFront(out);
      NumberBound(out);
    }
  }

  /** The printed digits, what is left of the 19-digit segment below them, and the rounding decision. */
  ghost predicate Decided(fs: nat, p: nat, buf: seq<char>, rem: nat, more: bool, up: bool) {
    && |buf| == p && AllDigits(buf) && p <= 18
    && fs == Number(buf) * Pow(10, 19 - p) + rem && rem < Pow(10, 19 - p)
    && (up <==> RoundsUp(Number(buf), rem, Pow(10, 19 - p), more))
  }

  /** One subsegment printed up to its last `left` digits, `tail` out of `width` following it. */
  lemma InsideSegment(segment: nat, q: int, r: nat, left: nat, frac: nat, digits: nat, tail: nat, width: nat,
                      more: bool)
    requires 1 <= left <= 8 && tail < width && digits % 2 == q % 2
    requires Leads(segment, q, r, frac, Pow(10, left))
    ensures segment * width + tail == q * (Pow(10, left) * width) + (r * width + tail)
    ensures r * width + tail < Pow(10, left) * width
    ensures frac >= Threshold(left - 1) || (frac >= 0x8000_0000 && (digits % 2 != 0 || tail != 0 || more))
       <==> RoundsUp(q, r * width + tail, Pow(10, left) * width, more)
  {
    ThresholdHalves(frac, r, left);
    EvenPower(left);
    SegmentDecision(q, r, Pow(10, left), tail, width, more);
    SplitTail(q, r, Pow(10, left), width, tail, segment);
  }

  lemma SplitTail(q: int, r: nat, scale: nat, width: nat, tail: nat, segment: nat)
    requires segment == q * scale + r && r < scale && tail < width
    ensures segment * width + tail == q * (scale * width) + (r * width + tail)
    ensures r * width + tail < scale * width
  {
    DistributeRight(q * scale, r, width);
    MulAssoc(q, scale, width);
    MulLe(r + 1, scale, width);
    DistributeRight(r, 1, width);
  }

  lemma EvenPower(n: nat)
    requires n > 0
    ensures Pow(10, n) % 2 == 0
  {
    ModUnique(10 * Pow(10, n - 1), 2, 5 * Pow(10, n - 1), 0);
  }

  /** Up to nine digits: the first subsegment alone. */
  method PrintFirst(first: nat, rest: nat, p: nat, more: bool) returns (buf: seq<char>, up: bool, ghost rem: nat)
    requires first < TEN9 && rest < TEN10 && 1 <= p <= 9
    ensures Decided(first * TEN10 + rest, p, buf, rem, more, up)
  {
    var frac, digits;
    ghost var r;
    buf, frac, digits, r := PrintSubsegment(first, p);
    Tens();
    PowAdd(10, 9 - p, 10);
    if p < 9 {
      InsideSegment(first, Number(buf), r, 9 - p, frac, digits, rest, TEN10, more);
      up := frac >= Threshold(8 - p) || (frac >= 0x8000_0000 && (digits % 2 != 0 || rest != 0 || more));
      rem := r * TEN10 + rest;
    } else {
      up := rest > 5000000000 || (rest == 5000000000 && (digits % 2 != 0 || more));
      rem := rest;
    }
  }

  /** The second subsegment and the digit after it: a part of the lower ten digits of the segment. */
  method PrintSecond(rest: nat, n: nat, more: bool) returns (text: seq<char>, up: bool, ghost rem: nat)
    requires rest < TEN10 && 1 <= n <= 9
    ensures |text| == n && AllDigits(text)
    ensures rest == Number(text) * Pow(10, 10 - n) + rem && rem < Pow(10, 10 - n)
    ensures up <==> RoundsUp(Number(text), rem, Pow(10, 10 - n), more)
  {
    SecondSplit(rest);
    var second: Word := UMul128Upper(rest, 1844674407370955162) % BASE;
    var third: Word := (rest % BASE - second * 10) % BASE;
    var frac, digits;
    ghost var r;
    text, frac, digits, r := PrintSubsegment(second, n);
    if n < 9 {
      up := frac >= Threshold(8 - n) || (frac >= 0x8000_0000 && (digits % 2 != 0 || third != 0 || more));
      rem := r * 10 + third;
      SecondInside(second, Number(text), r, n, frac, digits, third, more);
    } else {
      up := third > 5 || (third == 5 && (digits % 2 != 0 || more));
      rem := third;
      SecondEnds(second, Number(text), r);
    }
  }

  /** The second subsegment is left inside its nine digits. */
  lemma SecondInside(second: nat, q: int, r: nat, n: nat, frac: nat, digits: nat, third: nat, more: bool)
    requires 1 <= n < 9 && third < 10 && digits % 2 == q % 2 && Leads(second, q, r, frac, Pow(10, 9 - n))
    ensures second * 10 + third == q * Pow(10, 10 - n) + (r * 10 + third) && r * 10 + third < Pow(10, 10 - n)
    ensures frac >= Threshold(8 - n) || (frac >= 0x8000_0000 && (digits % 2 != 0 || third != 0 || more))
       <==> RoundsUp(q, r * 10 + third, Pow(10, 10 - n), more)
  {
    InsideSegment(second, q, r, 9 - n, frac, digits, third, 10, more);
    assert Pow(10, 10 - n) == Pow(10, 9 - n) * 10;
  }

  /** All nine digits of the second subsegment are printed. */
  lemma SecondEnds(second: nat, q: int, r: nat)
    requires second == q * Pow(10, 0) + r && r < Pow(10, 0)
    ensures second == q && Pow(10, 1) == 10
  {
    FirstNine(second, q, r);
    assert Pow(10, 1) == 10 * Pow(10, 0);
  }

  /** Ten to eighteen digits: the second subsegment as well. */
  method PrintBoth(first: nat, rest: nat, p: nat, more: bool) returns (buf: seq<char>, up: bool, ghost rem: nat)
    requires first < TEN9 && rest < TEN10 && 10 <= p <= 18
    ensures Decided(first * TEN10 + rest, p, buf, rem, more, up)
  {
    var head, _, _, r := PrintSubsegment(first, 9);
    var text;
    text, up, rem := PrintSecond(rest, p - 9, more);
    buf := head + text;
    NumberConcat(head, text);
    NumberBound(text);
    FirstNine(first, Number(head), r);
    JoinSegments(first, p - 9, Number(text), rem, rest);
    JoinParity(first, p - 9, Number(text));
  }

  lemma FirstNine(first: nat, q: int, r: nat)
    requires first == q * Pow(10, 0) + r && r < Pow(10, 0)
    ensures first == q
  {
    assert Pow(10, 0) == 1;
  }

  lemma SecondQuotient(rest: nat)
    requires rest < TEN10
    ensures UMul128Upper(rest, 1844674407370955162) == rest / 10
  {
    UMul128Exact(rest, 1844674407370955162);
    MagicQuotient(rest, 10, 1844674407370955162, TWO64, 4);
  }

  /** The magic quotient by ten of the lower digits, and what remains, in 32-bit arithmetic. */
  lemma SecondSplit(rest: nat)
    requires rest < TEN10
    ensures var second := UMul128Upper(rest, 1844674407370955162);
            && second < TEN9 && second % BASE == second
            && (rest % BASE - second * 10) % BASE < 10
            && rest == second * 10 + (rest % BASE - second * 10) % BASE
  {
    SecondQuotient(rest);
    var q, r := rest / 10, rest % 10;
    LowDigit(rest, q, r);
    ModSmall(q, BASE);
  }

  /** The magic quotient by 10^10 of the whole segment. */
  lemma FirstQuotient(fs: nat)
    requires fs < TEN19
    ensures UMul128Upper(fs, 7922816251426433760) / BASE == fs / TEN10 < TEN9
  {
    UMul128Exact(fs, 7922816251426433760);
    DivDiv(fs * 7922816251426433760, TWO64, BASE);
    MagicQuotient(fs, TEN10, 7922816251426433760, TWO64 * BASE, 6456049664);
  }

  lemma LowDigit(rest: nat, q: nat, r: nat)
    requires rest == q * 10 + r && r < 10
    ensures (rest % BASE - q * 10) % BASE == r
  {
    ModUnique(rest % BASE - q * 10, BASE, -(rest / BASE), r);
  }

  lemma JoinSegments(first: nat, n: nat, q: nat, rem: nat, rest: nat)
    requires 1 <= n <= 9 && rest == q * Pow(10, 10 - n) + rem
    ensures first * TEN10 + rest == (first * Pow(10, n) + q) * Pow(10, 10 - n) + rem
  {
    PowAdd(10, n, 10 - n);
    Tens();
    DistributeRight(first * Pow(10, n), q, Pow(10, 10 - n));
    MulAssoc(first, Pow(10, n), Pow(10, 10 - n));
  }

  lemma JoinParity(first: nat, n: nat, q: nat)
    requires n > 0
    ensures (first * Pow(10, n) + q) % 2 == q % 2
  {
    var h := Pow(10, n - 1);
    MulAssoc(first, 10, h);
    MulAssoc(10, first, h);
    ModUnique(10 * (first * h) + q, 2, 5 * (first * h) + q / 2, q % 2);
  }

  /** What the binary scaling hands over: the leading digits of f * 2^e / 10^exp, and whether any follow. */
  ghost predicate SegmentOf(f: nat, e: int, exp: int, segment: nat, more: bool) {
    && segment == RatioNum(f, e, exp) / RatioDen(e, exp)
    && (more <==> RatioNum(f, e, exp) % RatioDen(e, exp) != 0)
  }

  lemma CoarserUnit(f: nat, e: int, exp: int, k: nat)
    ensures Pow(10, k) * RatioDen(e, exp) > 0
    ensures RoundHalfEven(RatioNum(f, e, exp), Pow(10, k) * RatioDen(e, exp)) == Rounded(f, e, exp + k)
  {
    PowerMove(exp + k, exp, k);
    FactorCoarser(f * Pow(2, if e >= 0 then e else 0), Pow(2, if e >= 0 then 0 else -e), Pow(10, k),
                  Pow(10, if exp + k >= 0 then 0 else -(exp + k)), Pow(10, if exp >= 0 then 0 else -exp),
                  Pow(10, if exp + k >= 0 then exp + k else 0), Pow(10, if exp >= 0 then exp else 0));
  }

  lemma FactorCoarser(g: nat, d: nat, p: nat, n1: nat, n2: nat, d1: nat, d2: nat)
    requires d > 0 && p > 0 && d1 > 0 && d2 > 0 && n1 * p * d2 == n2 * d1
    ensures d * d1 > 0 && p * (d * d2) > 0
    ensures RoundHalfEven(g * n2, p * (d * d2)) == RoundHalfEven(g * n1, d * d1)
  {
    PositiveProduct(d, d1);
    PositiveProduct(d, d2);
    FactorShift(g, d, p, n1, n2, d1, d2);
    CoarserRatio(g * n2, d * d2, g * n1, d * d1, p);
  }

  lemma CoarserRatio(rn: nat, rd: nat, rn': nat, rd': nat, p: nat)
    requires rd > 0 && rd' > 0 && p > 0 && rn' * p * rd == rn * rd'
    ensures p * rd > 0 && RoundHalfEven(rn, p * rd) == RoundHalfEven(rn', rd')
  {
    PositiveProduct(p, rd);
    MulAssoc(rn', p, rd);
    RoundCross(rn, p * rd, rn', rd');
  }

  /** The decision on the 19-digit segment is the correct rounding of the value. */
  lemma DecidedRounding(f: nat, e: int, exp: int, segment: nat, more: bool, digits: nat, fs: nat, p: nat,
                        buf: seq<char>, rem: nat, up: bool)
    requires SegmentOf(f, e, exp, segment, more)
    requires 18 <= digits <= 19 && fs == (if digits == 19 then segment else segment * 10)
    requires p < digits && Decided(fs, p, buf, rem, more, up)
    ensures Rounded(f, e, exp + digits - p) == if up then Number(buf) + 1 else Number(buf)
  {
    NumberBound(buf);
    EvenPower(digits - p);
    if digits == 19 {
      StickyRounding(RatioNum(f, e, exp), RatioDen(e, exp), segment, more, Pow(10, digits - p), Number(buf), rem);
    } else {
      PaddedSplit(segment, Number(buf), Pow(10, digits - p), rem);
      StickyRounding(RatioNum(f, e, exp), RatioDen(e, exp), segment, more, Pow(10, digits - p), Number(buf), rem / 10);
    }
    CoarserUnit(f, e, exp, digits - p);
  }

  /** The padding digit of an 18-digit segment is no part of the remainder. */
  lemma PaddedSplit(segment: nat, q: nat, unit: nat, rem: nat)
    requires segment * 10 == q * (10 * unit) + rem && rem < 10 * unit
    ensures rem == rem / 10 * 10 && segment == q * unit + rem / 10 && rem / 10 < unit
  {
    MulAssoc(q, 10, unit);
    MulAssoc(10, q, unit);
    var x := segment - q * unit;
    assert rem == 10 * x;
  }

  /** The first nine digits of the segment and the ten after them. */
  method SplitSegment(fs: Word64) returns (first: nat, rest: nat)
    requires fs < TEN19
    ensures fs == first * TEN10 + rest && first < TEN9 && rest < TEN10
  {
    FirstQuotient(fs);
    ModSmall(fs / TEN10, BASE);
    ModSmall(fs % TEN10, TWO64);
    first := UMul128Upper(fs, 7922816251426433760) / BASE % BASE;
    var whole: int := fs;
    rest := (whole - first * TEN10) % TWO64;
  }

  /** Prints `precision` significant digits of f * 2^e from its leading 18 or 19 digits, `precision` being smaller. */
  method FormatSegment(segment: nat, more: bool, exp: int, precision: int, fixed: bool, ghost f: nat, ghost e: int)
    returns (buf: seq<char>, out10: int)
    requires TEN18 / 10 <= segment < TEN19 && SegmentOf(f, e, exp, segment, more)
    requires precision < if segment >= TEN18 then 19 else 18
    ensures var digits := if segment >= TEN18 then 19 else 18;
            var unit := exp + digits - precision;
            && AllDigits(buf)
            && (precision > 0 ==> Denotes(buf, out10, unit, precision, fixed, Rounded(f, e, unit)))
            && (precision == 0 ==> |buf| == 1 && out10 == unit && Number(buf) == Rounded(f, e, unit))
            && (precision < 0 ==> buf == [] && out10 == exp + digits && Rounded(f, e, unit) == 0)
  {
    var digits := if segment >= TEN18 then 19 else 18;
    var fs: Word64 := if digits == 19 then segment else segment * 10;
    if precision > 0 {
      buf, out10 := FormatDigits(segment, more, exp, precision, fixed, digits, fs, f, e);
      return;
    }
    out10 := exp + digits;
    if precision < 0 {
      NoDigits(f, e, exp, segment, more, digits, -precision);
      buf := [];
    } else {
      HalfDigit(f, e, exp, segment, more, digits, fs);
      var sticky := if more && fs % 2 == 0 then fs + 1 else fs;
      buf := if sticky > 5000000000000000000 then ['1'] else ['0'];
      assert Number(buf) == DigitValue(buf[0]) by {
        assert buf[..0] == [];
        assert Number([]) == 0;
      }
    }
  }

  method FormatDigits(ghost segment: nat, more: bool, exp: int, precision: nat, fixed: bool, digits: nat, fs: Word64,
                      ghost f: nat, ghost e: int)
    returns (buf: seq<char>, out10: int)
    requires fs < TEN19 && SegmentOf(f, e, exp, segment, more)
    requires 18 <= digits <= 19 && fs == (if digits == 19 then segment else segment * 10)
    requires 0 < precision < digits
    ensures AllDigits(buf)
    ensures Denotes(buf, out10, exp + digits - precision, precision, fixed, Rounded(f, e, exp + digits - precision))
  {
    var first, rest := SplitSegment(fs);
    var up;
    ghost var rem;
    if precision <= 9 {
      buf, up, rem := PrintFirst(first, rest, precision, more);
    } else {
      buf, up, rem := PrintBoth(first, rest, precision, more);
    }
    DecidedRounding(f, e, exp, segment, more, digits, fs, precision, buf, rem, up);
    out10 := exp + digits - precision;
    if up {
      buf, out10 := RoundUpLast(buf, fixed, out10);
    } else {
      PlainText(buf, out10, fixed);
    }
  }

  /** No digit asked for: the value is compared with half of the unit above it. */
  lemma HalfDigit(f: nat, e: int, exp: int, segment: nat, more: bool, digits: nat, fs: nat)
    requires SegmentOf(f, e, exp, segment, more)
    requires 18 <= digits <= 19 && fs == (if digits == 19 then segment else segment * 10) && fs < TEN19
    ensures Rounded(f, e, exp + digits)
         == if (if more && fs % 2 == 0 then fs + 1 else fs) > 5000000000000000000 then 1 else 0
  {
    Tens();
    PowAdd(10, 10, 8);
    assert Pow(10, 19) == 10 * Pow(10, 18);
    assert Number([]) == 0;
    if digits == 19 {
      StickyRounding(RatioNum(f, e, exp), RatioDen(e, exp), segment, more, TEN19, 0, segment);
    } else {
      StickyRounding(RatioNum(f, e, exp), RatioDen(e, exp), segment, more, TEN18, 0, segment);
    }
    CoarserUnit(f, e, exp, digits);
  }

  /** Units above the value's first digit by more than one place. */
  lemma NoDigits(f: nat, e: int, exp: int, segment: nat, more: bool, digits: nat, over: nat)
    requires SegmentOf(f, e, exp, segment, more) && over > 0
    requires 18 <= digits <= 19 && (if digits == 19 then segment else segment * 10) < TEN19
    ensures Rounded(f, e, exp + digits + over) == 0
  {
    Tens();
    PowAdd(10, 10, 8);
    assert Pow(10, 19) == 10 * Pow(10, 18);
    var unit := Pow(10, digits + over);
    PowAdd(10, digits, over);
    assert Pow(10, over) == 10 * Pow(10, over - 1);
    MulLe(10, Pow(10, over), Pow(10, digits));
    EvenPower(digits + over);
    StickyRounding(RatioNum(f, e, exp), RatioDen(e, exp), segment, more, unit, 0, segment);
    CoarserUnit(f, e, exp, digits + over);
  }
}
