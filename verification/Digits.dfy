/** Counting and printing decimal digits. */
module Digits {
  import opened Common
  import opened Words
  import opened Decimal

  // ----- Decimal texts -----

  /** The decimal text of a number. */
  function Decimals(n: nat): string {
    if n < 10 then [DigitChar(n)] else Decimals(n / 10) + [DigitChar(n % 10)]
  }

  lemma {:induction false} DecimalsDenote(n: nat)
    ensures Decimals(n) != "" && AllDigits(Decimals(n)) && Number(Decimals(n)) == n
    ensures n > 0 ==> Decimals(n)[0] != '0'
  {
    if n < 10 {
      NumberSnoc([], DigitChar(n));
      assert [] + [DigitChar(n)] == [DigitChar(n)];
    } else {
      DecimalsDenote(n / 10);
      NumberSnoc(Decimals(n / 10), DigitChar(n % 10));
    }
  }

  lemma DecimalsSnoc(n: nat, c: char)
    requires n > 0 && IsDigit(c)
    ensures 10 * n + DigitValue(c) >= 10 && Decimals(10 * n + DigitValue(c)) == Decimals(n) + [c]
  {
    var m := 10 * n + DigitValue(c);
    assert m / 10 == n && m % 10 == DigitValue(c);
  }

  /** Digits without a leading zero are the decimal text of their number. */
  lemma {:induction false} CanonicalDigits(s: string)
    requires s != "" && AllDigits(s) && s[0] != '0'
    ensures Number(s) > 0 && Decimals(Number(s)) == s
  {
    var n := |s| - 1;
    if n == 0 {
      assert s[..0] == [];
      assert Number([]) == 0;
    } else {
      CanonicalDigits(s[..n]);
      DecimalsSnoc(Number(s[..n]), s[n]);
      assert s == s[..n] + [s[n]];
    }
  }

  // ----- Counting digits -----

  /** The number of decimal digits, counting one for zero. */
  ghost predicate IsDigitCount(n: nat, count: nat) {
    count > 0 && n < Pow(10, count) && (count == 1 || n >= Pow(10, count - 1))
  }

  lemma DigitCountUnique(n: nat, a: nat, b: nat)
    requires IsDigitCount(n, a) && IsDigitCount(n, b)
    ensures a == b
  {
    if a < b {
      PowMono(10, a, b - 1);
    } else if b < a {
      PowMono(10, b, a - 1);
    }
  }

  /** The decimal text has as many characters as the number has digits. */
  lemma {:induction false} DecimalsLength(n: nat)
    ensures IsDigitCount(n, |Decimals(n)|)
  {
    if n >= 10 {
      DecimalsLength(n / 10);
      var count := |Decimals(n / 10)|;
      assert Pow(10, count + 1) == 10 * Pow(10, count);
      if count > 1 {
        assert Pow(10, count) == 10 * Pow(10, count - 1);
      } else {
        assert Pow(10, 1) == 10;
      }
    }
  }

  lemma DecimalsShort(n: nat)
    requires n < 10000
    ensures |Decimals(n)| == if n < 10 then 1 else if n < 100 then 2 else if n < 1000 then 3 else 4
  {
  }

  lemma FourMore(n: nat)
    requires n >= 10000
    ensures |Decimals(n)| == |Decimals(n / 10000)| + 4
  {
    assert n / 10 / 10 / 10 / 10 == n / 10000;
    assert |Decimals(n / 10)| == |Decimals(n / 10 / 10)| + 1;
    assert |Decimals(n / 10 / 10 / 10)| == |Decimals(n / 10 / 10 / 10 / 10)| + 1;
  }

  /** Four digits per round. */
  method CountDigitsFallback(n0: nat) returns (count: nat)
    ensures count == |Decimals(n0)| && IsDigitCount(n0, count)
  {
    var n := n0;
    count := 1;
    DecimalsLength(n0);
    while true
      invariant count > 0 && |Decimals(n0)| == |Decimals(n)| + count - 1
      decreases n
    {
      if n < 10000 {
        DecimalsShort(n);
      }
      if n < 10 {
        return;
      }
      if n < 100 {
        return count + 1;
      }
      if n < 1000 {
        return count + 2;
      }
      if n < 10000 {
        return count + 3;
      }
      FourMore(n);
      n := n / 10000;
      count := count + 4;
    }
  }

  /** The position of the highest set bit. */
  ghost predicate IsTopBit(n: nat, b: nat) {
    Pow(2, b) <= n < Pow(2, b + 1)
  }

  /** What makes a table entry right: every number with top bit `b` has `digits` digits or one fewer. */
  ghost predicate EntryOk(b: nat, digits: nat) {
    digits > 0 && Pow(2, b + 1) <= Pow(10, digits) && (digits >= 2 ==> Pow(10, digits - 2) <= Pow(2, b))
  }

  lemma EntryCounts(n: nat, b: nat, digits: nat)
    requires EntryOk(b, digits) && (IsTopBit(n, b) || (n == 0 && b == 0))
    ensures digits == 1 ==> IsDigitCount(n, 1)
    ensures digits >= 2 && (n > 0 || digits > 2)
            ==> IsDigitCount(n, if n >= Pow(10, digits - 1) then digits else digits - 1)
  {
  }

  // The 64-bit table: the digits of the largest number with top bit `b`.
  function BsrToLog10(b: nat): nat
    requires b < 64
  {
    if b <= 2 then 1 else if b <= 5 then 2 else if b <= 8 then 3 else if b <= 12 then 4
    else if b <= 15 then 5 else if b <= 18 then 6 else if b <= 22 then 7 else if b <= 25 then 8
    else if b <= 28 then 9 else if b <= 32 then 10 else if b <= 35 then 11 else if b <= 38 then 12
    else if b <= 42 then 13 else if b <= 45 then 14 else if b <= 48 then 15 else if b <= 52 then 16
    else if b <= 55 then 17 else if b <= 58 then 18 else if b <= 62 then 19 else 20
  }

  function ZeroOrPowerOf10(t: nat): nat {
    if t < 2 then 0 else Pow(10, t - 1)
  }

  // The 32-bit table packs digits * 2^32 - threshold, so that adding the number carries into the upper half exactly
  // when it reaches the threshold.
  function DigitsOfBsr(b: nat): nat
    requires b < 32
  {
    if b < 27 then b / 3 + 1 else 10
  }

  function PackedIncrement(b: nat): int
    requires b < 32
  {
    DigitsOfBsr(b) * BASE - ZeroOrPowerOf10(DigitsOfBsr(b))
  }

  lemma TwoPowers()
    ensures Pow(2, 0) == 1 && Pow(2, 3) == 8 && Pow(2, 6) == 64 && Pow(2, 9) == 512 && Pow(2, 13) == 8192
            && Pow(2, 16) == 65536 && Pow(2, 19) == 524288 && Pow(2, 23) == 8388608
    ensures Pow(2, 26) == 67108864 && Pow(2, 29) == 536870912 && Pow(2, 33) == 8589934592 && Pow(2, 36) == 68719476736
            && Pow(2, 39) == 549755813888
    ensures Pow(2, 43) == 8796093022208 && Pow(2, 46) == 70368744177664 && Pow(2, 49) == 562949953421312
            && Pow(2, 53) == 9007199254740992
    ensures Pow(2, 56) == 72057594037927936 && Pow(2, 59) == 576460752303423488 && Pow(2, 63) == 9223372036854775808
            && Pow(2, 64) == 18446744073709551616
  {
    assert Pow(2, 1) == 2 && Pow(2, 2) == 4 && Pow(2, 3) == 8 && Pow(2, 4) == 16;
    PowAdd(2, 3, 3);
    PowAdd(2, 6, 3);
    PowAdd(2, 9, 4);
    PowAdd(2, 13, 3);
    PowAdd(2, 16, 3);
    PowAdd(2, 19, 4);
    PowAdd(2, 23, 3);
    PowAdd(2, 26, 3);
    PowAdd(2, 29, 4);
    PowAdd(2, 33, 3);
    PowAdd(2, 36, 3);
    PowAdd(2, 39, 4);
    PowAdd(2, 43, 3);
    PowAdd(2, 46, 3);
    PowAdd(2, 49, 4);
    PowAdd(2, 53, 3);
    PowAdd(2, 56, 3);
    PowAdd(2, 59, 4);
    PowAdd(2, 63, 1);
  }

  lemma TenPowers()
    ensures Pow(10, 0) == 1 && Pow(10, 1) == 10 && Pow(10, 2) == 100 && Pow(10, 3) == 1000 && Pow(10, 4) == 10000
            && Pow(10, 5) == 100000 && Pow(10, 6) == 1000000 && Pow(10, 7) == 10000000
    ensures Pow(10, 8) == 100000000 && Pow(10, 9) == 1000000000 && Pow(10, 10) == 10000000000
            && Pow(10, 11) == 100000000000 && Pow(10, 12) == 1000000000000
    ensures Pow(10, 13) == 10000000000000 && Pow(10, 14) == 100000000000000 && Pow(10, 15) == 1000000000000000
            && Pow(10, 16) == 10000000000000000
    ensures Pow(10, 17) == 100000000000000000 && Pow(10, 18) == 1000000000000000000
            && Pow(10, 19) == 10000000000000000000 && Pow(10, 20) == 100000000000000000000
  {
    assert Pow(10, 1) == 10 * Pow(10, 0);
    assert Pow(10, 2) == 10 * Pow(10, 1);
    assert Pow(10, 3) == 10 * Pow(10, 2);
    assert Pow(10, 4) == 10 * Pow(10, 3);
    assert Pow(10, 5) == 10 * Pow(10, 4);
    assert Pow(10, 6) == 10 * Pow(10, 5);
    assert Pow(10, 7) == 10 * Pow(10, 6);
    assert Pow(10, 8) == 10 * Pow(10, 7);
    assert Pow(10, 9) == 10 * Pow(10, 8);
    assert Pow(10, 10) == 10 * Pow(10, 9);
    assert Pow(10, 11) == 10 * Pow(10, 10);
    assert Pow(10, 12) == 10 * Pow(10, 11);
    assert Pow(10, 13) == 10 * Pow(10, 12);
    assert Pow(10, 14) == 10 * Pow(10, 13);
    assert Pow(10, 15) == 10 * Pow(10, 14);
    assert Pow(10, 16) == 10 * Pow(10, 15);
    assert Pow(10, 17) == 10 * Pow(10, 16);
    assert Pow(10, 18) == 10 * Pow(10, 17);
    assert Pow(10, 19) == 10 * Pow(10, 18);
    assert Pow(10, 20) == 10 * Pow(10, 19);
  }

  lemma EntryGroup(b: nat, t: nat, lo: nat, hi: nat)
    requires lo <= b < hi && t > 0 && Pow(2, hi) <= Pow(10, t) && (t >= 2 ==> Pow(10, t - 2) <= Pow(2, lo))
    ensures EntryOk(b, t)
  {
    PowMono(2, b + 1, hi);
    PowMono(2, lo, b);
  }

  lemma Table64Ok(b: nat)
    requires b < 64
    ensures EntryOk(b, BsrToLog10(b))
  {
    TwoPowers();
    TenPowers();
    if b <= 2 {
      EntryGroup(b, 1, 0, 3);
    } else if b <= 5 {
      EntryGroup(b, 2, 3, 6);
    } else if b <= 8 {
      EntryGroup(b, 3, 6, 9);
    } else if b <= 12 {
      EntryGroup(b, 4, 9, 13);
    } else if b <= 15 {
      EntryGroup(b, 5, 13, 16);
    } else if b <= 18 {
      EntryGroup(b, 6, 16, 19);
    } else if b <= 22 {
      EntryGroup(b, 7, 19, 23);
    } else if b <= 25 {
      EntryGroup(b, 8, 23, 26);
    } else if b <= 28 {
      EntryGroup(b, 9, 26, 29);
    } else if b <= 32 {
      EntryGroup(b, 10, 29, 33);
    } else if b <= 35 {
      EntryGroup(b, 11, 33, 36);
    } else if b <= 38 {
      EntryGroup(b, 12, 36, 39);
    } else if b <= 42 {
      EntryGroup(b, 13, 39, 43);
    } else if b <= 45 {
      EntryGroup(b, 14, 43, 46);
    } else if b <= 48 {
      EntryGroup(b, 15, 46, 49);
    } else if b <= 52 {
      EntryGroup(b, 16, 49, 53);
    } else if b <= 55 {
      EntryGroup(b, 17, 53, 56);
    } else if b <= 58 {
      EntryGroup(b, 18, 56, 59);
    } else if b <= 62 {
      EntryGroup(b, 19, 59, 63);
    } else {
      EntryGroup(b, 20, 63, 64);
    }
  }

  lemma Table32Ok(b: nat)
    requires b < 32
    ensures EntryOk(b, DigitsOfBsr(b))
  {
    TwoPowers();
    TenPowers();
    PowAdd(2, 9, 3);
    PowAdd(2, 12, 3);
    PowAdd(2, 15, 3);
    PowAdd(2, 18, 3);
    PowAdd(2, 21, 3);
    PowAdd(2, 24, 3);
    PowAdd(2, 29, 3);
    assert Pow(2, 3) == 8;
    if b < 9 {
      EntryGroup(b, b / 3 + 1, b / 3 * 3, b / 3 * 3 + 3);
    } else if b < 12 {
      EntryGroup(b, 4, 9, 12);
    } else if b < 15 {
      EntryGroup(b, 5, 12, 15);
    } else if b < 18 {
      EntryGroup(b, 6, 15, 18);
    } else if b < 21 {
      EntryGroup(b, 7, 18, 21);
    } else if b < 24 {
      EntryGroup(b, 8, 21, 24);
    } else if b < 27 {
      EntryGroup(b, 9, 24, 27);
    } else {
      EntryGroup(b, 10, 27, 32);
    }
  }

  /** The position of the highest set bit. */
  function BitScanReverse(n: nat): nat
    requires n > 0
  {
    if n < 2 then 0 else 1 + BitScanReverse(n / 2)
  }

  lemma {:induction false} BitScanIs(n: nat)
    requires n > 0
    ensures IsTopBit(n, BitScanReverse(n))
  {
    if n >= 2 {
      BitScanIs(n / 2);
      var b := BitScanReverse(n / 2);
      assert Pow(2, b + 1) == 2 * Pow(2, b) && Pow(2, b + 2) == 2 * Pow(2, b + 1);
    } else {
      assert Pow(2, 0) == 1 && Pow(2, 1) == 2;
    }
  }

  lemma OrOneTop(n: nat)
    ensures var b := BitScanReverse(OrOne(n)); IsTopBit(n, b) || (n == 0 && b == 0)
  {
    var b := BitScanReverse(OrOne(n));
    BitScanIs(OrOne(n));
    if b > 0 {
      assert Pow(2, b) == 2 * Pow(2, b - 1);
    }
  }

  lemma TopBitBelow(n: nat, b: nat, width: nat)
    requires n < Pow(2, width) && width > 0 && (IsTopBit(n, b) || (n == 0 && b == 0))
    ensures b < width
  {
    if b >= width {
      PowMono(2, width, b);
    }
  }

  lemma CountFromEntry(n: nat, b: nat, digits: nat)
    requires EntryOk(b, digits) && (IsTopBit(n, b) || (n == 0 && b == 0)) && (digits == 2 ==> n > 0)
    ensures |Decimals(n)| == digits - if n < ZeroOrPowerOf10(digits) then 1 else 0
  {
    var count := digits - if n < ZeroOrPowerOf10(digits) then 1 else 0;
    EntryCounts(n, b, digits);
    DecimalsLength(n);
    DigitCountUnique(n, |Decimals(n)|, count);
  }

  /** The 64-bit count by bit scan and table equals the count by division. */
  method CountDigits64(n: nat) returns (count: nat)
    requires n < Pow(2, 64)
    ensures count == |Decimals(n)| && IsDigitCount(n, count)
  {
    var b := BitScanReverse(OrOne(n));
    OrOneTop(n);
    TopBitBelow(n, b, 64);
    Table64Ok(b);
    var t := BsrToLog10(b);
    DecimalsLength(n);
    CountFromEntry(n, b, t);
    count := t - if n < ZeroOrPowerOf10(t) then 1 else 0;
  }

  lemma PackedSum(n: nat, digits: nat, threshold: nat)
    requires n < BASE && threshold <= BASE && digits > 0
    ensures (n + (digits * BASE - threshold)) / BASE == if n < threshold then digits - 1 else digits
    ensures digits < BASE ==> 0 <= n + (digits * BASE - threshold) < BASE * BASE
  {
    var x := n + (digits * BASE - threshold);
    if n < threshold {
      assert x == (digits - 1) * BASE + (n + BASE - threshold);
    } else {
      assert x == digits * BASE + (n - threshold);
    }
  }

  lemma ThresholdFits(digits: nat)
    requires digits <= 10
    ensures ZeroOrPowerOf10(digits) <= BASE
  {
    TenPowers();
    if digits >= 2 {
      PowMono(10, digits - 1, 9);
    }
  }

  /** The 32-bit count by one addition and a shift equals the count by division. */
  method CountDigits32(n: Word) returns (count: nat)
    ensures count == |Decimals(n)| && IsDigitCount(n, count)
  {
    var b := BitScanReverse(OrOne(n));
    OrOneTop(n);
    PowTwo32();
    TopBitBelow(n, b, 32);
    Table32Ok(b);
    var digits := DigitsOfBsr(b);
    ThresholdFits(digits);
    DecimalsLength(n);
    CountFromEntry(n, b, digits);
    PackedSum(n, digits, ZeroOrPowerOf10(digits));
    count := (n + PackedIncrement(b)) / BASE;
  }

  // ----- Printing digits -----

  method Write2Digits(out: array<char>, at: nat, value: nat)
    requires at + 2 <= out.Length && value < 100
    modifies out
    ensures out[..] == old(out[..])[at := DigitChar(value / 10)][at + 1 := DigitChar(value % 10)]
  {
    out[at] := DigitChar(value / 10);
    out[at + 1] := DigitChar(value % 10);
  }

  lemma TwoDigits(value: nat)
    ensures value >= 100 ==>
              Decimals(value) == Decimals(value / 100) + [DigitChar(value % 100 / 10), DigitChar(value % 100 % 10)]
    ensures 10 <= value < 100 ==> Decimals(value) == [DigitChar(value / 10), DigitChar(value % 10)]
  {
    if value >= 100 {
      assert value / 10 / 10 == value / 100 && value / 10 % 10 == value % 100 / 10 && value % 10 == value % 100 % 10;
      assert Decimals(value) == (Decimals(value / 100) + [DigitChar(value / 10 % 10)]) + [DigitChar(value % 10)];
    }
  }

  /** The digits of `value` remain to be printed before `n`; those of `value0` below them are in place. */
  ghost predicate Remaining(s: seq<char>, was: seq<char>, value0: nat, value: nat, n: nat, size: nat) {
    n <= size <= |s| == |was| && |Decimals(value)| <= n
    && Decimals(value) + s[n..size] == Decimals(value0) && s[..n] == was[..n] && s[size..] == was[size..]
  }

  lemma PairPrinted(s: seq<char>, was: seq<char>, value0: nat, value: nat, n: nat, size: nat)
    requires Remaining(s, was, value0, value, n, size) && value >= 100
    ensures n >= 2
    ensures var v := value % 100;
            Remaining(s[n - 2 := DigitChar(v / 10)][n - 1 := DigitChar(v % 10)], was, value0, value / 100, n - 2, size)
  {
    TwoDigits(value);
    var v := value % 100;
    var pair := [DigitChar(v / 10), DigitChar(v % 10)];
    var t := s[n - 2 := pair[0]][n - 1 := pair[1]];
    assert t[n - 2..size] == pair + s[n..size];
    assert Decimals(value / 100) + (pair + s[n..size]) == (Decimals(value / 100) + pair) + s[n..size];
  }

  lemma LastPrinted(s: seq<char>, was: seq<char>, value0: nat, value: nat, n: nat, size: nat, t: seq<char>)
    requires Remaining(s, was, value0, value, n, size) && value < 100
    requires if value >= 10 then n >= 2 && t == s[n - 2 := DigitChar(value / 10)][n - 1 := DigitChar(value % 10)]
             else n >= 1 && t == s[n - 1 := DigitChar(value)]
    ensures var start := n - |Decimals(value)|;
            t[start..size] == Decimals(value0) && t[..start] == was[..start] && t[size..] == was[size..]
  {
    TwoDigits(value);
    assert t[n - |Decimals(value)|..size] == Decimals(value) + s[n..size];
  }

  /** Writes the digits right-aligned in the first `size` characters, two at a time, and returns where they start. */
  method DoFormatDecimal(out: array<char>, value0: nat, size: nat) returns (n: nat)
    requires |Decimals(value0)| <= size <= out.Length
    modifies out
    ensures n == size - |Decimals(value0)| && out[n..size] == Decimals(value0)
    ensures out[..n] == old(out[..n]) && out[size..] == old(out[size..])
  {
    var value := value0;
    n := size;
    assert Decimals(value0) + [] == Decimals(value0);
    while value >= 100
      invariant Remaining(out[..], old(out[..]), value0, value, n, size)
    {
      PairPrinted(out[..], old(out[..]), value0, value, n, size);
      n := n - 2;
      Write2Digits(out, n, value % 100);
      value := value / 100;
    }
    TwoDigits(value);
    ghost var before, end := out[..], n;
    if value >= 10 {
      n := n - 2;
      Write2Digits(out, n, value);
    } else {
      n := n - 1;
      out[n] := DigitChar(value);
    }
    LastPrinted(before, old(out[..]), value0, value, end, size, out[..]);
  }
}
