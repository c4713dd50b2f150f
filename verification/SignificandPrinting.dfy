/** Writing an integer significand with a point in it, backwards and two digits at a time. */
module SignificandPrinting {
  import opened Common
  import opened Decimal
  import opened Digits

  lemma LongDecimals(v: nat)
    ensures |Decimals(v)| >= 3 <==> v >= 100
    ensures |Decimals(v)| >= 2 <==> v >= 10
    ensures v >= 10 ==> Decimals(v) == Decimals(v / 10) + [DigitChar(v % 10)]
  {
    TwoDigits(v);
  }

  lemma ManyDigits(v: nat)
    ensures |Decimals(v)| >= 3 ==> v >= 100
    ensures |Decimals(v)| >= 2 ==> v >= 10
  {
    LongDecimals(v);
  }

  /** The digits of `v` are still to be written before `at`; the others are in place up to `end`. */
  ghost predicate Pending(s: seq<char>, digits: string, v: nat, at: nat, end: nat) {
    at <= end <= |s| && |Decimals(v)| == at - 1 && Decimals(v) + s[at..end] == digits
  }

  lemma PairWritten(s: seq<char>, digits: string, v: nat, at: nat, end: nat)
    requires Pending(s, digits, v, at, end) && v >= 100
    ensures at >= 4 && Pending(s[at - 2 := DigitChar(v % 100 / 10)][at - 1 := DigitChar(v % 100 % 10)], digits, v / 100,
                               at - 2, end)
  {
    TwoDigits(v);
    LongDecimals(v);
    var pair := [DigitChar(v % 100 / 10), DigitChar(v % 100 % 10)];
    var t := s[at - 2 := pair[0]][at - 1 := pair[1]];
    assert t[at - 2..end] == pair + s[at..end];
    assert Decimals(v / 100) + (pair + s[at..end]) == (Decimals(v / 100) + pair) + s[at..end];
  }

  lemma DigitWritten(s: seq<char>, digits: string, v: nat, at: nat, end: nat)
    requires Pending(s, digits, v, at, end) && v >= 10
    ensures at >= 3 && Pending(s[at - 1 := DigitChar(v % 10)], digits, v / 10, at - 1, end)
  {
    LongDecimals(v);
    var digit := [DigitChar(v % 10)];
    var t := s[at - 1 := digit[0]];
    assert t[at - 1..end] == digit + s[at..end];
    assert Decimals(v / 10) + (digit + s[at..end]) == (Decimals(v / 10) + digit) + s[at..end];
  }

  method WritePairs(out: array<char>, significand: nat, end: nat, pairs: nat) returns (v: nat)
    requires end == |Decimals(significand)| + 1 <= out.Length && 2 * pairs + 1 < end
    modifies out
    ensures Pending(out[..], Decimals(significand), v, end - 2 * pairs, end) && out[end..] == old(out[end..])
  {
    var at: nat := end;
    v := significand;
    var i := pairs;
    assert Decimals(v) + [] == Decimals(significand);
    while i > 0
      invariant 0 <= i <= pairs && at == end - 2 * (pairs - i)
      invariant Pending(out[..], Decimals(significand), v, at, end) && out[end..] == old(out[end..])
    {
      ManyDigits(v);
      PairWritten(out[..], Decimals(significand), v, at, end);
      at := at - 2;
      Write2Digits(out, at, v % 100);
      v := v / 100;
      i := i - 1;
    }
  }

  /** Writes the digits behind the point, from the last one backwards; the others remain in `v`. */
  method WriteFraction(out: array<char>, significand: nat, size: nat, integral: nat) returns (v: nat)
    requires size == |Decimals(significand)| && 0 < integral <= size < out.Length
    modifies out
    ensures Pending(out[..], Decimals(significand), v, integral + 1, size + 1)
            && out[size + 1..] == old(out[size + 1..])
  {
    var floating := size - integral;
    v := WritePairs(out, significand, size + 1, floating / 2);
    if floating % 2 != 0 {
      var at := integral + 2;
      ManyDigits(v);
      DigitWritten(out[..], Decimals(significand), v, at, size + 1);
      out[at - 1] := DigitChar(v % 10);
      v := v / 10;
    }
  }

  /** Writes the significand with the point behind its first `integral` digits, and returns the end of the text. */
  method WriteSignificand(out: array<char>, significand: nat, size: nat, integral: nat, point: Option<char>)
    returns (end: nat)
    requires size == |Decimals(significand)| && 0 < integral <= size < out.Length
    modifies out
    ensures end == if point.None? then size else size + 1
    ensures out[..end] == if point.None? then Decimals(significand)
                          else Decimals(significand)[..integral] + [point.value] + Decimals(significand)[integral..]
    ensures out[end..] == old(out[end..])
  {
    if point.None? {
      var start := DoFormatDecimal(out, significand, size);
      return size;
    }
    end := size + 1;
    var v := WriteFraction(out, significand, size, integral);
    ghost var fraction := out[integral + 1..end];
    out[integral] := point.value;
    FinishWhole(out, v, integral, point.value, fraction, Decimals(significand));
  }

  /** Writes the digits before the point. */
  method FinishWhole(out: array<char>, v: nat, integral: nat, point: char, ghost fraction: string, ghost digits: string)
    requires integral + 1 + |fraction| <= out.Length && |Decimals(v)| == integral
    requires out[integral] == point && out[integral + 1..integral + 1 + |fraction|] == fraction
             && Decimals(v) + fraction == digits
    modifies out
    ensures out[..integral + 1 + |fraction|] == digits[..integral] + [point] + digits[integral..]
    ensures out[integral + 1 + |fraction|..] == old(out[integral + 1 + |fraction|..])
  {
    ghost var end := integral + 1 + |fraction|;
    ghost var was := out[..];
    var start := DoFormatDecimal(out, v, integral);
    WholeFinished(was, out[..], integral, point, fraction, Decimals(v), digits);
    assert out[..][..end] == out[..end] && out[..][end..] == out[end..] && was[end..] == old(out[end..]);
  }

  lemma SameTail(was: seq<char>, now: seq<char>, from: nat, to: nat)
    requires from <= to <= |was| == |now| && was[from..] == now[from..]
    ensures now[to..] == was[to..] && now[from..to] == was[from..to]
  {
    assert now[to..] == now[from..][to - from..] && was[to..] == was[from..][to - from..];
    assert now[from..to] == now[from..][..to - from] && was[from..to] == was[from..][..to - from];
  }

  /** The digits before the point, in front of what was there from the point on. */
  lemma WholeFinished(was: seq<char>, now: seq<char>, integral: nat, point: char, fraction: string, whole: string,
                      digits: string)
    requires integral + 1 + |fraction| <= |was| == |now| && was[integral..] == now[integral..]
    requires was[integral] == point && was[integral + 1..integral + 1 + |fraction|] == fraction
    requires now[..integral] == whole && whole + fraction == digits
    ensures now[..integral + 1 + |fraction|] == digits[..integral] + [point] + digits[integral..]
    ensures now[integral + 1 + |fraction|..] == was[integral + 1 + |fraction|..]
  {
    var end := integral + 1 + |fraction|;
    SameTail(was, now, integral, end);
    assert was[integral..end] == [point] + fraction;
    assert now[..end] == now[..integral] + now[integral..end];
    assert digits[..integral] == whole && digits[integral..] == fraction;
  }
}
