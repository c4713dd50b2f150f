/** Digit generation of the arbitrary-precision path: long division one digit at a time, then round half to even. */
module DragonDigits {
  import opened Words
  import opened WordSteps
  import opened Bigints
  import opened Decimal
  import opened Rounding

  /** What one division by the denominator needs. */
  ghost predicate Ready(numerator: Bigint, denominator: Bigint)
    reads numerator, denominator
  {
    && numerator != denominator && numerator.Valid() && denominator.Normal()
    && (numerator.Normal() || numerator.exp <= denominator.exp)
    && numerator.Value() < BASE * denominator.Value()
  }

  /** The state in which the first division mistakes equal numbers for a smaller dividend. */
  ghost predicate Stuck(numerator: Bigint, denominator: Bigint)
    reads numerator, denominator
  {
    numerator.Value() == denominator.Value() && numerator.exp > denominator.exp
  }

  lemma CountClose(a: seq<Word>, ea: nat, b: seq<Word>, eb: nat)
    requires a != [] && a[|a| - 1] != 0 && b != [] && b[|b| - 1] != 0
    requires Scaled(a, ea) < BASE * Scaled(b, eb)
    ensures |a| + ea <= |b| + eb + 1
  {
    ScaledTop(a, ea);
    ScaledTop(b, eb);
    if |a| + ea > |b| + eb + 1 {
      PowMono(BASE, |b| + eb + 1, |a| + ea - 1);
    }
  }

  lemma ZeroOrTop(a: seq<Word>, e: nat)
    requires a == [0] || (a != [] && a[|a| - 1] != 0)
    ensures a == [0] <==> Scaled(a, e) == 0
  {
    if a == [0] {
      ValZeros(a);
    } else {
      ScaledTop(a, e);
    }
  }

  /** One division: the next digit, the remainder staying in the numerator. */
  method NextDigit(numerator: Bigint, denominator: Bigint) returns (digit: nat)
    requires Ready(numerator, denominator)
    modifies numerator
    ensures numerator != denominator && numerator.Valid() && denominator.Normal()
    ensures numerator.Normal() || numerator.exp <= denominator.exp
    ensures old(numerator.Value()) == digit * denominator.Value() + numerator.Value()
    ensures old(Stuck(numerator, denominator)) ==> digit == 0
    ensures !old(Stuck(numerator, denominator)) ==> numerator.Value() < denominator.Value()
    ensures digit == 0 ==> numerator.exp == old(numerator.exp)
    ensures digit > 0 ==>
              numerator.exp == if old(numerator.exp) <= denominator.exp then old(numerator.exp) else denominator.exp
  {
    if numerator.Normal() {
      CountClose(numerator.bigits, numerator.exp, denominator.bigits, denominator.exp);
    }
    ghost var total := numerator.Value();
    ZeroOrTop(numerator.bigits, numerator.exp);
    digit := numerator.DivmodAssign(denominator);
    ZeroOrTop(numerator.bigits, numerator.exp);
  }

  /** The generated digits and the running numerator account for the whole dividend. */
  lemma DigitInvariant(n0: nat, p: nat, number: int, d: nat, n: nat, q: nat, r: nat)
    requires n0 * p == number * (10 * d) + n && n == q * d + r
    ensures n0 * p == (10 * number + q) * d + r
    ensures n0 * (10 * p) == (10 * number + q) * (10 * d) + r * 10
  {
    MulAssoc(number, 10, d);
    DistributeRight(10 * number, q, d);
    MulAssoc(10, n0, p);
    MulAssoc(n0, 10, p);
    MulAssoc(10 * number + q, 10, d);
    MulAssoc(10, 10 * number + q, d);
  }

  lemma DigitRange(q: nat, d: nat, r: nat, bound: nat)
    requires d > 0 && q * d + r < bound * d
    ensures q < bound
  {
    if q >= bound {
      MulLe(bound, q, d);
    }
  }

  lemma DigitTen(q: nat, d: nat, r: nat)
    requires d > 0 && q * d + r == 10 * d && r < d
    ensures q == 10 && r == 0
  {
    ModUnique(10 * d, d, q, r);
    ModUnique(10 * d, d, 10, 0);
  }

  /** After `i` digits: they and the running numerator `n` account for the dividend. A stuck division
      shows up as a first digit 0 and a second digit of value ten. */
  ghost predicate Progress(n0: nat, d: nat, stuck: bool, i: nat, buf: seq<char>, n: nat) {
    && |buf| == i
    && n0 * Pow(10, i) == Number(buf) * (10 * d) + n
    && (i == 0 ==> n == n0)
    && (!stuck ==> AllDigits(buf) && n < 10 * d)
    && (stuck ==> n0 == d)
    && (stuck && i == 1 ==> AllDigits(buf) && n == 10 * d)
    && (stuck && i > 1 ==> buf[1] == OVERFLOW && n == 0)
  }

  lemma ProgressStep(n0: nat, d: nat, stuck: bool, i: nat, buf: seq<char>, n: nat, q: nat, r: nat)
    requires d > 0 && Progress(n0, d, stuck, i, buf, n) && n == q * d + r
    requires if stuck && i == 0 then q == 0 else r < d
    ensures q <= 10 && (q == 10 ==> stuck && i == 1)
    ensures Progress(n0, d, stuck, i + 1, buf + [DigitChar(q)], r * 10)
    ensures n0 * Pow(10, i) == Number(buf + [DigitChar(q)]) * d + r
  {
    DigitInvariant(n0, Pow(10, i), Number(buf), d, n, q, r);
    if stuck && i == 1 {
      DigitTen(q, d, r);
    } else if stuck && i > 1 {
      DigitRange(q, d, r, 1);
    } else if !stuck {
      DigitRange(q, d, r, 10);
    }
    NumberSnoc(buf, DigitChar(q));
  }

  /** A first digit 0 leaves ten times the numerator above the denominator; any other aligns the exponents. */
  lemma KeepsSmall(stuck: bool, first: bool, before: nat, d: nat, q: nat, r: nat, exp: nat, next: nat, limit: nat)
    requires d > 0 && before == q * d + r && if stuck then q == 0 && before == d else r < d
    requires if q == 0 then next == exp else next <= limit
    requires if first then d < 10 * before else exp <= limit || before > d
    ensures next <= limit || r * 10 > d
  {
  }

  /** The digits before the last. */
  method LeadingDigits(numerator: Bigint, denominator: Bigint, n: nat) returns (buf: seq<char>)
    requires n > 0 && Ready(numerator, denominator)
    requires denominator.Value() < 10 * numerator.Value() && numerator.Value() < 10 * denominator.Value()
    modifies numerator
    ensures Ready(numerator, denominator)
    ensures Progress(old(numerator.Value()), denominator.Value(), old(Stuck(numerator, denominator)), n - 1, buf,
                     numerator.Value())
    ensures Stuck(numerator, denominator) <==> n == 1 && old(Stuck(numerator, denominator))
  {
    ghost var stuck, n0, d := Stuck(numerator, denominator), numerator.Value(), denominator.Value();
    buf := [];
    var i: nat := 0;
    while i < n - 1
      invariant i <= n - 1 && Ready(numerator, denominator) && d == denominator.Value() > 0
      invariant Progress(n0, d, stuck, i, buf, numerator.Value())
      invariant i == 0 ==> stuck == Stuck(numerator, denominator)
      invariant i > 0 ==> numerator.exp <= denominator.exp || numerator.Value() > d
    {
      ghost var before, exp, held := numerator.Value(), numerator.exp, Stuck(numerator, denominator);
      var digit := NextDigit(numerator, denominator);
      KeepsSmall(held, i == 0, before, d, digit, numerator.Value(), exp, numerator.exp, denominator.exp);
      ProgressStep(n0, d, stuck, i, buf, before, digit, numerator.Value());
      buf := buf + [DigitChar(digit)];
      numerator.MultiplyWord(10);
      i := i + 1;
    }
  }

  /** A text with its decimal exponent, correctly rounded: `want` units of 10^unit.
      It has `n` digits, one more only when a carry out of the front is kept as a digit. */
  ghost predicate Denotes(out: seq<char>, exp10: int, unit: int, n: nat, fixed: bool, want: int) {
    && unit <= exp10
    && Number(out) * Pow(10, exp10 - unit) == want
    && |out| == (if fixed && want == Pow(10, n) then n + 1 else n)
    && exp10 == (if !fixed && want == Pow(10, n) then unit + 1 else unit)
  }

  /** Rounding a last digit 9 up: the carry runs to the front if it must. */
  method CarryOut(buf: seq<char>, fixed: bool, unit: int) returns (out: seq<char>, exp10: int)
    requires AllDigits(buf)
    ensures AllDigits(out) && Denotes(out, exp10, unit, |buf| + 1, fixed, 10 * Number(buf) + 10)
  {
    NumberSnoc(buf, OVERFLOW);
    assert (buf + [OVERFLOW])[..|buf|] == buf;
    out := PropagateCarry(buf + [OVERFLOW]);
    exp10 := unit;
    if out[0] == OVERFLOW {
      FrontOverflow(out);
      FrontKept(out[0 := '1']);
      out := out[0 := '1'];
      if fixed {
        out := out + ['0'];
      } else {
        exp10 := exp10 + 1;
      }
    } else {
      AllDigitsFront(out);
      NumberBound(out);
    }
  }

  lemma AllDigitsFront(s: seq<char>)
    requires s != [] && IsDigit(s[0]) && AllDigits(s[1..])
    ensures AllDigits(s)
  {
    forall i | 0 <= i < |s| ensures IsDigit(s[i]) {
      if i > 0 { assert s[i] == s[1..][i - 1]; }
    }
  }

  /** A power of ten can give its last zero to the exponent. */
  lemma FrontKept(s: seq<char>)
    requires s != [] && AllDigits(s) && Number(s) == Pow(10, |s| - 1)
    ensures Number(s + ['0']) == Pow(10, |s|) && AllDigits(s + ['0'])
    ensures Number(s) * Pow(10, 1) == Pow(10, |s|)
  {
    NumberSnoc(s, '0');
    assert Pow(10, 1) == 10;
  }

  /** What rounding makes of a last digit `q` with remainder `r`; `want` is the rounded number. */
  ghost predicate LastResult(d: nat, bad: bool, buf: seq<char>, q: nat, r: nat, unit: int, fixed: bool, want: int) {
    var up := Sign(r + r - d) > 0 || (Sign(r + r - d) == 0 && q % 2 != 0);
    && q <= 10
    && (!up ==> RoundedText(buf + [DigitChar(q)], bad, unit, |buf| + 1, fixed, want))
    && (up ==> !bad && q <= 9)
    && (up && q < 9 ==> RoundedText(buf + [DigitChar(q + 1)], false, unit, |buf| + 1, fixed, want))
    && (up && q == 9 ==> AllDigits(buf) && want == 10 * Number(buf) + 10)
  }

  ghost predicate RoundedText(out: seq<char>, bad: bool, unit: int, n: nat, fixed: bool, want: int) {
    Denotes(out, unit, unit, n, fixed, want) && (AllDigits(out) <==> !bad)
  }

  lemma PlainText(out: seq<char>, unit: int, fixed: bool)
    requires AllDigits(out)
    ensures RoundedText(out, false, unit, |out|, fixed, Number(out))
  {
    NumberBound(out);
    assert Pow(10, 0) == 1;
  }

  lemma LastRounded(n0: nat, d: nat, stuck: bool, buf: seq<char>, n: nat, q: nat, r: nat, unit: int, fixed: bool)
    requires d > 0 && Progress(n0, d, stuck, |buf|, buf, n) && n == q * d + r
    requires if stuck && |buf| == 0 then q == 0 else r < d
    ensures LastResult(d, stuck && |buf| > 0, buf, q, r, unit, fixed, RoundHalfEven(n0 * Pow(10, |buf|), d))
  {
    ProgressStep(n0, d, stuck, |buf|, buf, n, q, r);
    var num := n0 * Pow(10, |buf|);
    if !stuck {
      LastGood(num, d, buf, q, r, unit, fixed);
    } else if |buf| > 0 {
      LastBad(num, d, buf, q, unit, fixed);
    } else {
      LastStuck(num, d, r, unit, fixed);
    }
  }

  lemma LastStuck(num: nat, d: nat, r: nat, unit: int, fixed: bool)
    requires d > 0 && num == d && r == d
    ensures LastResult(d, false, [], 0, r, unit, fixed, RoundHalfEven(num, d))
  {
    RoundFrom(num, d, 1, 0);
    NumberSnoc([], DigitChar(1));
    PlainText([] + [DigitChar(1)], unit, fixed);
  }

  lemma LastBad(num: nat, d: nat, buf: seq<char>, q: nat, unit: int, fixed: bool)
    requires d > 0 && |buf| > 0 && q <= 10
    requires (buf + [DigitChar(q)])[1] == OVERFLOW
    requires num == d * Pow(10, |buf|) == Number(buf + [DigitChar(q)]) * d
    ensures LastResult(d, true, buf, q, 0, unit, fixed, RoundHalfEven(num, d))
  {
    ExactPower(d, Pow(10, |buf|), Number(buf + [DigitChar(q)]));
    assert Pow(10, 0) == 1;
  }

  lemma ExactPower(d: nat, p: nat, number: int)
    requires d > 0 && d * p == number * d
    ensures number == p && RoundHalfEven(d * p, d) == p
  {
    CancelFactor(number, p, d);
    RoundFrom(d * p, d, p, 0);
  }

  lemma LastGood(num: nat, d: nat, buf: seq<char>, q: nat, r: nat, unit: int, fixed: bool)
    requires d > 0 && r < d && AllDigits(buf) && q < 10
    requires num == Number(buf + [DigitChar(q)]) * d + r
    ensures LastResult(d, false, buf, q, r, unit, fixed, RoundHalfEven(num, d))
  {
    var c := buf + [DigitChar(q)];
    NumberSnoc(buf, DigitChar(q));
    LastParity(Number(buf), q);
    NumberBound(c);
    RoundFrom(num, d, Number(c), r);
    PlainText(c, unit, fixed);
    if q < 9 {
      NumberSnoc(buf, DigitChar(q + 1));
      PlainText(buf + [DigitChar(q + 1)], unit, fixed);
    }
  }

  lemma CancelFactor(a: int, b: int, d: nat)
    requires d > 0 && a * d == d * b
    ensures a == b
  {
    SubtractProduct(a, b, d);
    SignProduct(a - b, d);
  }

  lemma LastParity(number: int, q: nat)
    ensures (10 * number + q) % 2 == q % 2
  {
    ModUnique(10 * number + q, 2, 5 * number + q / 2, q % 2);
  }

  /** The last digit, rounded half to even against twice the remainder. */
  method LastDigit(numerator: Bigint, denominator: Bigint, ghost n0: nat, ghost stuck: bool,
                   buf: seq<char>, fixed: bool, unit: int)
    returns (out: seq<char>, exp10: int)
    requires Ready(numerator, denominator)
    requires Progress(n0, denominator.Value(), stuck, |buf|, buf, numerator.Value())
    requires Stuck(numerator, denominator) <==> |buf| == 0 && stuck
    modifies numerator
    ensures denominator.Value() > 0
    ensures Denotes(out, exp10, unit, |buf| + 1, fixed, RoundHalfEven(n0 * Pow(10, |buf|), denominator.Value()))
    ensures AllDigits(out) <==> !(stuck && |buf| > 0)
  {
    ghost var before, d := numerator.Value(), denominator.Value();
    ghost var want := RoundHalfEven(n0 * Pow(10, |buf|), d);
    var digit := NextDigit(numerator, denominator);
    LastRounded(n0, d, stuck, buf, before, digit, numerator.Value(), unit, fixed);
    assert LastResult(d, stuck && |buf| > 0, buf, digit, numerator.Value(), unit, fixed, want);
    var result := Bigint.AddCompare(numerator, numerator, denominator);
    exp10 := unit;
    if result > 0 || (result == 0 && digit % 2 != 0) {
      if digit == 9 {
        out, exp10 := CarryOut(buf, fixed, unit);
        return;
      }
      digit := digit + 1;
    }
    out := buf + [DigitChar(digit)];
  }
}
