/** Laying out a decimal number as text, and reading the text back. */
module FloatLayout {
  import opened Common
  import opened Words
  import opened Decimal
  import opened DigitGrouping

  // ----- Reading a number back -----

  /** What has been read: all digits as one number, how many of them came after the point, and whether it was seen. */
  datatype Seen = Seen(number: int, fraction: nat, pointed: bool)

  function ReadChar(s: Seen, c: char, point: char, separator: Option<char>): Seen {
    if Some(c) == separator then s
    else if c == point then s.(pointed := true)
    else Seen(10 * s.number + DigitValue(c), if s.pointed then s.fraction + 1 else s.fraction, s.pointed)
  }

  /** Reads digits, separators and a point from left to right. */
  function Read(s: Seen, text: string, point: char, separator: Option<char>): Seen {
    if text == "" then s else ReadChar(Read(s, text[..|text| - 1], point, separator), text[|text| - 1], point,
                                       separator)
  }

  /** A point and separator that cannot be taken for digits or for each other. */
  predicate Readable(point: char, separator: Option<char>) {
    !IsDigit(point) && separator != Some(point) && (separator.Some? ==> !IsDigit(separator.value))
  }

  lemma {:induction false} ReadAppend(s: Seen, a: string, b: string, point: char, separator: Option<char>)
    ensures Read(s, a + b, point, separator) == Read(Read(s, a, point, separator), b, point, separator)
  {
    if b == "" {
      assert a + b == a;
    } else {
      var n := |b| - 1;
      assert (a + b)[..|a + b| - 1] == a + b[..n];
      ReadAppend(s, a, b[..n], point, separator);
    }
  }

  lemma {:induction false} ReadDigits(s: Seen, digits: string, point: char, separator: Option<char>)
    requires AllDigits(digits) && Readable(point, separator)
    ensures Read(s, digits, point, separator) ==
            Seen(s.number * Pow(10, |digits|) + Number(digits), if s.pointed then s.fraction + |digits| else s.fraction,
                 s.pointed)
  {
    if digits != "" {
      var n := |digits| - 1;
      ReadDigits(s, digits[..n], point, separator);
      ScaleNumber(s.number, Pow(10, n));
    }
  }

  lemma ReadOne(s: Seen, c: char, point: char, separator: Option<char>)
    ensures Read(s, [c], point, separator) == ReadChar(s, c, point, separator)
  {
    assert [c][..0] == "";
  }

  /** Separators do not show in what is read. */
  lemma {:induction false} ReadGrouped(s: Seen, digits: string, i: nat, ps: seq<int>, point: char, separator: char)
    requires i <= |digits|
    ensures Read(s, Grouped(digits, i, ps, separator), point, Some(separator))
            == Read(s, digits[..i], point, Some(separator))
  {
    if i > 0 {
      var before := Grouped(digits, i - 1, ps, separator);
      ReadGrouped(s, digits, i - 1, ps, point, separator);
      if |digits| - (i - 1) in ps {
        ReadAppend(s, before, [separator], point, Some(separator));
        ReadOne(Read(s, before, point, Some(separator)), separator, point, Some(separator));
        ReadAppend(s, before + [separator], [digits[i - 1]], point, Some(separator));
      } else {
        assert before + [] == before;
        ReadAppend(s, before, [digits[i - 1]], point, Some(separator));
      }
      assert digits[..i] == digits[..i - 1] + [digits[i - 1]];
      ReadAppend(s, digits[..i - 1], [digits[i - 1]], point, Some(separator));
    }
  }

  lemma ReadGroupedAll(s: Seen, g: Grouping, digits: string, point: char)
    requires g.Valid() && |digits| <= INT_MAX
    ensures Read(s, GroupedAll(g, digits), point, g.separator) == Read(s, digits, point, g.separator)
  {
    if g.separator.Some? {
      ReadGrouped(s, digits, |digits|, Positions(g, Cursor(0, 0), |digits|), point, g.separator.value);
      assert digits[..|digits|] == digits;
    }
  }

  /** a * 10^m and b * 10^n are the same number. */
  ghost predicate SameDecimal(a: int, m: int, b: int, n: int) {
    var low := if m < n then m else n;
    a * Pow(10, m - low) == b * Pow(10, n - low)
  }

  /** `text` reads as digits * 10^exponent. */
  ghost predicate Shows(text: string, point: char, separator: Option<char>, digits: string, exponent: int) {
    var seen := Read(Seen(0, 0, false), text, point, separator);
    SameDecimal(seen.number, 0 - seen.fraction, Number(digits), exponent)
  }

  function Zeros(n: nat): (z: string)
    ensures |z| == n && AllDigits(z) && forall i :: 0 <= i < n ==> z[i] == '0'
  {
    if n == 0 then "" else Zeros(n - 1) + "0"
  }

  lemma Framed(n: int, p: int, d: int, q: int, r: int)
    requires n == 0 && r == 0
    ensures (n * p + d) * q + r == d * q
  {
  }

  ghost predicate AllZeros(z: string) {
    forall i :: 0 <= i < |z| ==> z[i] == '0'
  }

  /** Zeros in front count nothing, zeros behind count powers of ten. */
  lemma NumberFramed(front: string, digits: string, back: string)
    requires AllZeros(front) && AllZeros(back)
    ensures Number(front + digits + back) == Number(digits) * Pow(10, |back|)
  {
    NumberConcat(front + digits, back);
    NumberConcat(front, digits);
    NumberZeros(front);
    NumberZeros(back);
    Framed(Number(front), Pow(10, |digits|), Number(digits), Pow(10, |back|), Number(back));
  }

  lemma ShiftDecimal(n: int, k: nat, m: int)
    ensures SameDecimal(n * Pow(10, k), m - k, n, m)
  {
    assert Pow(10, 0) == 1;
  }

  lemma ReadToPoint(whole: string, point: char, separator: Option<char>)
    requires AllDigits(whole) && Readable(point, separator)
    ensures Read(Seen(0, 0, false), whole + [point], point, separator) == Seen(Number(whole), 0, true)
  {
    ReadAppend(Seen(0, 0, false), whole, [point], point, separator);
    ReadDigits(Seen(0, 0, false), whole, point, separator);
    ReadOne(Seen(Number(whole), 0, false), point, point, separator);
  }

  /** Whole digits, a point and a fraction read as their digits put together. */
  lemma ReadPointed(whole: string, fraction: string, point: char, separator: Option<char>)
    requires AllDigits(whole) && AllDigits(fraction) && Readable(point, separator)
    ensures Read(Seen(0, 0, false), whole + [point] + fraction, point, separator)
            == Seen(Number(whole + fraction), |fraction|, true)
  {
    var front := whole + [point];
    ReadAppend(Seen(0, 0, false), front, fraction, point, separator);
    ReadToPoint(whole, point, separator);
    ReadDigits(Seen(Number(whole), 0, true), fraction, point, separator);
    NumberConcat(whole, fraction);
  }

  /** Fronts that read alike can stand for each other. */
  lemma ReadFront(s: Seen, front: string, whole: string, rest: string, point: char, separator: Option<char>)
    requires Read(s, front, point, separator) == Read(s, whole, point, separator)
    ensures Read(s, front + rest, point, separator) == Read(s, whole + rest, point, separator)
  {
    ReadAppend(s, front, rest, point, separator);
    ReadAppend(s, whole, rest, point, separator);
  }

  lemma JoinPoint(whole: string, point: char, fraction: string)
    ensures whole + ([point] + fraction) == whole + [point] + fraction
  {
  }

  /** Whole and fraction digits that hold the given digits, with zeros before and behind. */
  lemma ShowsPointed(front: string, whole: string, fraction: string, point: char, separator: Option<char>,
                     digits: string, exponent: int, z0: string, z1: string)
    requires Read(Seen(0, 0, false), front, point, separator) == Read(Seen(0, 0, false), whole, point, separator)
    requires AllDigits(whole) && AllDigits(fraction) && Readable(point, separator) && AllZeros(z0) && AllZeros(z1)
    requires whole + fraction == z0 + digits + z1 && exponent == |z1| - |fraction|
    ensures Shows(front + ([point] + fraction), point, separator, digits, exponent)
  {
    ReadFront(Seen(0, 0, false), front, whole, [point] + fraction, point, separator);
    JoinPoint(whole, point, fraction);
    ReadPointed(whole, fraction, point, separator);
    NumberFramed(z0, digits, z1);
    ShiftDecimal(Number(digits), |z1|, exponent);
  }

  /** Digits alone, with zeros before and behind. */
  lemma ShowsWhole(front: string, whole: string, point: char, separator: Option<char>, digits: string, z0: string,
                   z1: string)
    requires Read(Seen(0, 0, false), front, point, separator) == Read(Seen(0, 0, false), whole, point, separator)
    requires AllDigits(whole) && Readable(point, separator) && AllZeros(z0) && AllZeros(z1) && whole == z0 + digits + z1
    ensures Shows(front, point, separator, digits, |z1|)
  {
    ReadDigits(Seen(0, 0, false), whole, point, separator);
    NumberFramed(z0, digits, z1);
    ShiftDecimal(Number(digits), |z1|, |z1|);
  }

  // ----- Fixed notation -----

  datatype Sign = NoSign | Minus | Plus | Space

  function SignText(s: Sign): (t: string)
    ensures |t| <= 1
  {
    match s
    case NoSign => ""
    case Minus => "-"
    case Plus => "+"
    case Space => " "
  }

  datatype Specs = Specs(precision: int, alt: bool, fixedType: bool)

  method WriteSignificand(digits: string, exponent: nat, g: Grouping) returns (out: string)
    requires g.Valid() && |digits| + exponent <= INT_MAX
    ensures out == GroupedAll(g, digits + Zeros(exponent))
  {
    if g.separator.None? {
      return digits + Zeros(exponent);
    }
    out := Apply(g, digits + Zeros(exponent));
  }

  method WritePointed(digits: string, integral: nat, point: char, g: Grouping) returns (out: string)
    requires g.Valid() && integral <= |digits| <= INT_MAX
    ensures out == GroupedAll(g, digits[..integral]) + ([point] + digits[integral..])
  {
    if g.separator.None? {
      return digits[..integral] + ([point] + digits[integral..]);
    }
    var whole := Apply(g, digits[..integral]);
    out := whole + ([point] + digits[integral..]);
  }

  /** 1234e5 as 123400000[.0+]. */
  method WriteIntegral(digits: string, exponent: nat, point: char, specs: Specs, sign: Sign, g: Grouping)
    returns (text: string, body: string, size: int)
    requires g.Valid() && |digits| + exponent <= INT_MAX && AllDigits(digits) && Readable(point, g.separator)
    ensures text == SignText(sign) + body && |text| == size
    ensures Shows(body, point, g.separator, digits, exponent)
  {
    var exp := exponent + |digits|;
    size := |digits| + |SignText(sign)| + exponent;
    var zeros := specs.precision - exp;
    if specs.alt {
      size := size + 1;
      if zeros <= 0 && !specs.fixedType {
        zeros := 0;
      }
      if zeros > 0 {
        size := size + zeros;
      }
    }
    var separators := CountSeparators(g, exp);
    size := size + separators;
    body := WriteSignificand(digits, exponent, g);
    var tail := if zeros > 0 then Zeros(zeros) else "";
    IntegralShows(digits, exponent, point, g, tail);
    if specs.alt {
      body := body + ([point] + tail);
    }
    text := SignText(sign) + body;
  }

  lemma IntegralShows(digits: string, exponent: nat, point: char, g: Grouping, tail: string)
    requires g.Valid() && |digits| + exponent <= INT_MAX && AllDigits(digits) && Readable(point, g.separator)
             && AllZeros(tail)
    ensures var whole := GroupedAll(g, digits + Zeros(exponent));
            && |whole| == |digits| + exponent + |Positions(g, Cursor(0, 0), |digits| + exponent)|
            && Shows(whole, point, g.separator, digits, exponent)
            && Shows(whole + ([point] + tail), point, g.separator, digits, exponent)
  {
    var z := Zeros(exponent);
    var whole := digits + z;
    var front := GroupedAll(g, whole);
    GroupedSize(g, whole);
    ReadGroupedAll(Seen(0, 0, false), g, whole, point);
    assert whole == "" + digits + z;
    ShowsWhole(front, whole, point, g.separator, digits, "", z);
    assert whole + tail == "" + digits + (z + tail);
    ShowsPointed(front, whole, tail, point, g.separator, digits, exponent, "", z + tail);
  }

  /** 1234e-2 as 12.34[0+]. */
  method WriteMixed(digits: string, exponent: int, point: char, specs: Specs, sign: Sign, g: Grouping)
    returns (text: string, body: string, size: int)
    requires g.Valid() && |digits| <= INT_MAX && AllDigits(digits) && Readable(point, g.separator)
    requires exponent < 0 < exponent + |digits|
    ensures text == SignText(sign) + body && |text| == size
    ensures Shows(body, point, g.separator, digits, exponent)
  {
    var exp := exponent + |digits|;
    size := |digits| + |SignText(sign)|;
    var zeros := if specs.alt then specs.precision - |digits| else 0;
    size := size + 1 + Max(zeros, 0);
    var separators := CountSeparators(g, exp);
    size := size + separators;
    var front := WritePointed(digits, exp, point, g);
    var tail := if zeros > 0 then Zeros(zeros) else "";
    MixedShows(digits, exp, point, g, tail);
    body := front + tail;
    text := SignText(sign) + body;
  }

  lemma JoinDigits(digits: string, exp: nat, tail: string)
    requires exp <= |digits|
    ensures digits[..exp] + (digits[exp..] + tail) == "" + digits + tail
  {
    assert digits == digits[..exp] + digits[exp..];
  }

  lemma JoinTail(front: string, point: char, fraction: string, tail: string)
    ensures front + ([point] + fraction) + tail == front + ([point] + (fraction + tail))
  {
  }

  lemma MixedShows(digits: string, exp: nat, point: char, g: Grouping, tail: string)
    requires g.Valid() && exp <= |digits| <= INT_MAX && AllDigits(digits) && Readable(point, g.separator)
             && AllZeros(tail)
    ensures var front := GroupedAll(g, digits[..exp]) + ([point] + digits[exp..]);
            && |front| == |digits| + 1 + |Positions(g, Cursor(0, 0), exp)|
            && Shows(front + tail, point, g.separator, digits, exp - |digits|)
  {
    var whole, fraction := digits[..exp], digits[exp..] + tail;
    var front := GroupedAll(g, whole);
    GroupedSize(g, whole);
    ReadGroupedAll(Seen(0, 0, false), g, whole, point);
    JoinDigits(digits, exp, tail);
    ShowsPointed(front, whole, fraction, point, g.separator, digits, exp - |digits|, "", tail);
    JoinTail(front, point, digits[exp..], tail);
  }

  /** 1234e-6 as 0.001234. */
  method WriteSmall(digits: string, exponent: int, point: char, specs: Specs, sign: Sign, separator: Option<char>)
    returns (text: string, body: string, size: int)
    requires AllDigits(digits) && Readable(point, separator) && exponent < 0 && exponent + |digits| <= 0
    ensures text == SignText(sign) + body && |text| == size
    ensures Shows(body, point, separator, digits, exponent)
  {
    var zeros := -(exponent + |digits|);
    if |digits| == 0 && specs.precision >= 0 && specs.precision < zeros {
      zeros := specs.precision;
    }
    var pointy := zeros != 0 || |digits| != 0 || specs.alt;
    size := |digits| + |SignText(sign)| + 1 + (if pointy then 1 else 0) + zeros;
    SmallShows(digits, exponent, Zeros(zeros), point, separator);
    body := "0";
    if pointy {
      body := body + ([point] + (Zeros(zeros) + digits));
    }
    text := SignText(sign) + body;
  }

  lemma SmallShows(digits: string, exponent: int, zeros: string, point: char, separator: Option<char>)
    requires AllDigits(digits) && Readable(point, separator) && AllZeros(zeros)
    requires digits == "" || exponent == -|digits| - |zeros|
    ensures Shows("0" + ([point] + (zeros + digits)), point, separator, digits, exponent)
    ensures digits == "" ==> Shows("0", point, separator, digits, exponent)
  {
    if digits == "" {
      ZeroShows(exponent, zeros, point, separator);
      assert zeros + digits == zeros;
    } else {
      assert "0" + (zeros + digits) == ("0" + zeros) + digits + "";
      ShowsPointed("0", "0", zeros + digits, point, separator, digits, exponent, "0" + zeros, "");
    }
  }

  /** Without digits every exponent stands for zero. */
  lemma ZeroShows(exponent: int, zeros: string, point: char, separator: Option<char>)
    requires Readable(point, separator) && AllZeros(zeros)
    ensures Shows("0" + ([point] + zeros), point, separator, "", exponent)
    ensures Shows("0", point, separator, "", exponent)
  {
    ReadFront(Seen(0, 0, false), "0", "0", [point] + zeros, point, separator);
    assert "0" + ([point] + zeros) == "0" + [point] + zeros;
    ReadPointed("0", zeros, point, separator);
    NumberZeros("0" + zeros);
    ReadDigits(Seen(0, 0, false), "0", point, separator);
    NumberZeros("0");
    assert Number("") == 0;
  }

  /** Fixed notation of any decimal: the text reads back as the number, and its length is the size computed
      beforehand. */
  method WriteFixed(digits: string, exponent: int, point: char, specs: Specs, sign: Sign, g: Grouping)
    returns (text: string, body: string, size: int)
    requires g.Valid() && |digits| + Max(exponent, 0) <= INT_MAX && AllDigits(digits) && Readable(point, g.separator)
    ensures text == SignText(sign) + body && |text| == size
    ensures Shows(body, point, g.separator, digits, exponent)
  {
    if exponent >= 0 {
      text, body, size := WriteIntegral(digits, exponent, point, specs, sign, g);
    } else if exponent + |digits| > 0 {
      text, body, size := WriteMixed(digits, exponent, point, specs, sign, g);
    } else {
      text, body, size := WriteSmall(digits, exponent, point, specs, sign, g.separator);
    }
  }

  // ----- Exponential notation -----

  /** The size of an exponent with its letter and sign. */
  function ExponentSize(exp: int): nat {
    if Abs(exp) < 100 then 4 else if Abs(exp) >= 1000 then 6 else 5
  }

  lemma NumberTwo(a: char, b: char)
    ensures Number([a, b]) == 10 * DigitValue(a) + DigitValue(b)
  {
    assert [a, b][..1] == [a];
    assert [a][..0] == [];
    assert Number([]) == 0;
  }

  /** At least two digits behind the sign, which read back as the exponent. */
  method WriteExponent(exp: int) returns (text: string)
    requires -10000 < exp < 10000
    ensures |text| + 1 == ExponentSize(exp)
    ensures text[0] == (if exp < 0 then '-' else '+') && AllDigits(text[1..]) && Number(text[1..]) == Abs(exp)
  {
    var sign := if exp < 0 then '-' else '+';
    var u := Abs(exp);
    var top := "";
    if u >= 100 {
      var high := u / 100;
      top := if u >= 1000 then [DigitChar(high / 10), DigitChar(high % 10)] else [DigitChar(high % 10)];
      u := u % 100;
    }
    var low := [DigitChar(u / 10), DigitChar(u % 10)];
    ExponentDigits(Abs(exp), top, low);
    var digits := top + low;
    text := [sign] + digits;
    assert text[1..] == digits;
  }

  lemma ExponentDigits(n: nat, top: string, low: string)
    requires n < 10000
    requires top == if n < 100 then "" else if n < 1000 then [DigitChar(n / 100 % 10)]
             else [DigitChar(n / 100 / 10), DigitChar(n / 100 % 10)]
    requires low == [DigitChar(n % 100 / 10), DigitChar(n % 100 % 10)]
    ensures Number(top + low) == n
  {
    NumberConcat(top, low);
    NumberTwo(low[0], low[1]);
    assert Pow(10, 2) == 100;
    if n < 100 {
      assert Number("") == 0;
    } else if n < 1000 {
      assert top[..0] == [];
      assert Number([]) == 0;
    } else {
      NumberTwo(top[0], top[1]);
    }
  }

  /** One digit, a point unless that digit is all there is, the other digits, and an exponent. */
  method WriteExponential(digits: string, exponent: int, point: char, specs: Specs, sign: Sign, upper: bool)
    returns (text: string, mantissa: string, power: string, size: int)
    requires digits != "" && AllDigits(digits) && Readable(point, None) && -10000 < exponent + |digits| - 1 < 10000
    ensures text == SignText(sign) + mantissa + [if upper then 'E' else 'e'] + power && |text| == size
    ensures Shows(mantissa, point, None, digits, 1 - |digits|)
    ensures power != "" && power[0] == (if exponent + |digits| - 1 < 0 then '-' else '+')
    ensures AllDigits(power[1..]) && Number(power[1..]) == Abs(exponent + |digits| - 1)
  {
    var exp := exponent + |digits| - 1;
    size := |digits| + |SignText(sign)|;
    var zeros: nat := 0;
    var pointed := true;
    if specs.alt {
      zeros := Max(specs.precision - |digits|, 0);
      size := size + zeros;
    } else if |digits| == 1 {
      pointed := false;
    }
    size := size + (if pointed then 1 else 0) + ExponentSize(exp);
    mantissa := digits[..1];
    if pointed {
      mantissa := mantissa + ([point] + digits[1..]);
    }
    MantissaShows(digits, point, Zeros(zeros));
    mantissa := mantissa + Zeros(zeros);
    power := WriteExponent(exp);
    text := SignText(sign) + mantissa + [if upper then 'E' else 'e'] + power;
  }

  lemma MantissaShows(digits: string, point: char, zeros: string)
    requires digits != "" && AllDigits(digits) && Readable(point, None) && AllZeros(zeros)
    ensures Shows(digits[..1] + ([point] + digits[1..]) + zeros, point, None, digits, 1 - |digits|)
    ensures |digits| == 1 && zeros == "" ==> Shows(digits[..1] + zeros, point, None, digits, 1 - |digits|)
  {
    var whole, fraction := digits[..1], digits[1..] + zeros;
    assert whole + fraction == "" + digits + zeros;
    ShowsPointed(whole, whole, fraction, point, None, digits, 1 - |digits|, "", zeros);
    assert whole + ([point] + digits[1..]) + zeros == whole + ([point] + fraction);
    if |digits| == 1 && zeros == "" {
      assert whole + zeros == "" + digits + "";
      ShowsWhole(whole + zeros, whole + zeros, point, None, digits, "", "");
    }
  }
}
