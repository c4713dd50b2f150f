/** The multi-word integer under the digit generator: words scaled by a power of the base, updated in place. */
module Bigints {
  import opened Words
  import opened WordSteps
  import opened Convolution

  /** What comparing numbers `a` and `b` yields, `ea` and `eb` being their exponents. */
  function CompareResult(a: nat, ea: nat, b: nat, eb: nat): int {
    if a == b then Sign(eb - ea) else Sign(a - b)
  }

  class Bigint {
    var bigits: seq<Word>
    var exp: nat

    ghost function Value(): nat
      reads this
    {
      Scaled(bigits, exp)
    }

    /** The top word is not zero. */
    predicate Normal()
      reads this
    {
      bigits != [] && bigits[|bigits| - 1] != 0
    }

    /** Normal, or a zero of one word. */
    predicate Valid()
      reads this
    {
      Normal() || bigits == [0]
    }

    function NumBigits(): nat
      reads this
    {
      |bigits| + exp
    }

    function GetBigit(i: int): (w: Word)
      reads this
      ensures w == At(bigits, i - exp)
    {
      if i >= exp && i < NumBigits() then bigits[i - exp] else 0
    }

    constructor ()
      ensures bigits == [] && exp == 0
    {
      bigits, exp := [], 0;
    }

    /** Assigns a 64- or 128-bit number. */
    method Assign(n: nat)
      modifies this
      ensures Value() == n && exp == 0 && Valid() && (n > 0 ==> Normal())
    {
      var rest := n % BASE;
      bigits := [n % BASE];
      var m: nat := n / BASE;
      assert [n % BASE][1..] == [];
      while m != 0
        invariant bigits != []
        invariant Val(bigits) + m * Pow(BASE, |bigits|) == n
        invariant m == 0 ==> Normal() || bigits == [0]
        decreases m
      {
        ValSnoc(bigits, m % BASE);
        SplitWord(m, Pow(BASE, |bigits|));
        bigits := bigits + [m % BASE];
        m := m / BASE;
      }
      exp := 0;
    }

    method AssignFrom(other: Bigint)
      modifies this
      ensures bigits == old(other.bigits) && exp == old(other.exp)
    {
      bigits := other.bigits;
      exp := other.exp;
    }

    /** Multiplies by 2^shift: whole words go to the exponent, the rest moves bits. */
    method ShiftLeft(shift: nat)
      requires Valid()
      modifies this
      ensures Value() == old(Value()) * Pow(2, shift)
      ensures exp == old(exp) + shift / 32
      ensures Valid() && (old(Normal()) ==> Normal())
    {
      ShiftSplit(Val(bigits), exp, shift);
      exp := exp + shift / 32;
      if shift % 32 != 0 {
        ShiftBits(shift % 32);
      }
    }

    method ShiftBits(s: nat)
      requires Valid() && 0 < s < 32
      modifies this`bigits
      ensures Val(bigits) == Pow(2, s) * old(Val(bigits))
      ensures Valid() && (old(Normal()) ==> Normal())
    {
      var m, k := Pow(2, s), Pow(2, 32 - s);
      PowAdd(2, s, 32 - s);
      PowTwo32();
      ghost var was := bigits;
      var carry: Word := 0;
      var i: nat := 0;
      while i < |bigits|
        invariant i <= |bigits| == |was|
        invariant carry < m
        invariant bigits[i..] == was[i..]
        invariant Val(bigits[..i]) + carry * Pow(BASE, i) == m * Val(was[..i])
        invariant i > 0 && was[i - 1] != 0 && carry == 0 ==> bigits[i - 1] != 0
      {
        assert bigits[i] == was[i];
        ShiftWord(bigits[i], m, k, carry);
        var c: Word := bigits[i] / k;
        var low: Word := (bigits[i] * m) % BASE + carry;
        PrefixStep(was, bigits, i, m, carry, low, c);
        bigits := bigits[i := low];
        carry := c;
        i := i + 1;
      }
      assert bigits[..i] == bigits && was[..i] == was;
      AppendCarry(carry);
    }

    /** Appends the carry that is left as the top word, unless it is zero. */
    method AppendCarry(carry: Word)
      requires carry == 0 ==> Valid()
      modifies this`bigits
      ensures bigits == if carry == 0 then old(bigits) else old(bigits) + [carry]
      ensures Val(bigits) == old(Val(bigits)) + carry * Pow(BASE, |old(bigits)|)
      ensures Valid() && (carry != 0 ==> Normal())
    {
      if carry != 0 {
        ValSnoc(bigits, carry);
        bigits := bigits + [carry];
      }
    }

    /** Multiplies by one word. */
    method MultiplyWord(value: Word)
      requires Valid() && value > 0
      modifies this`bigits
      ensures Value() == old(Value()) * value
      ensures Valid() && (old(Normal()) ==> Normal())
    {
      ghost var was := bigits;
      var carry;
      bigits, carry := MultiplyWords(bigits, value);
      AppendCarry(carry);
      ProductScale(value, Val(was), Pow(BASE, exp));
    }

    /** The words of the product and the carry out of its top. */
    static method MultiplyWords(was: seq<Word>, value: Word) returns (words: seq<Word>, carry: Word)
      requires value > 0
      ensures |words| == |was| && Val(words) + carry * Pow(BASE, |was|) == value * Val(was)
      ensures was != [] && was[|was| - 1] != 0 && carry == 0 ==> words[|was| - 1] != 0
      ensures was == [0] ==> words == [0] && carry == 0
    {
      words, carry := was, 0;
      var i: nat := 0;
      while i < |words|
        invariant i <= |words| == |was|
        invariant words[i..] == was[i..]
        invariant Val(words[..i]) + carry * Pow(BASE, i) == value * Val(was[..i])
        invariant i > 0 && was[i - 1] != 0 && carry == 0 ==> words[i - 1] != 0
        invariant was == [0] ==> words == [0] && carry == 0
      {
        assert words[i] == was[i];
        WordProduct(words[i], value, carry);
        var result: nat := words[i] * value + carry;
        var low: Word, high: Word := result % BASE, result / BASE;
        PrefixStep(was, words, i, value, carry, low, high);
        words := words[i := low];
        carry := high;
        i := i + 1;
      }
      assert words[..i] == words && was[..i] == was;
    }

    /** Multiplies by a 64-bit number, or by a 128-bit one when `wide`; sums are taken at that width. */
    method MultiplyWide(value: nat, wide: bool)
      requires Valid() && 0 < value < Limit(wide)
      modifies this`bigits
      ensures Value() == old(Value()) * value
      ensures Valid() && (old(Normal()) ==> Normal())
    {
      ghost var was := bigits;
      var carry: nat := 0;
      var i: nat := 0;
      while i < |bigits|
        invariant i <= |bigits| == |was|
        invariant carry < Limit(wide)
        invariant bigits[i..] == was[i..]
        invariant Val(bigits[..i]) + carry * Pow(BASE, i) == value * Val(was[..i])
        invariant i > 0 && was[i - 1] != 0 && carry == 0 ==> bigits[i - 1] != 0
      {
        assert bigits[i] == was[i];
        var low, next := WideStep(bigits[i], value, wide, carry);
        PrefixStep(was, bigits, i, value, carry, low, next);
        bigits := bigits[i := low];
        carry := next;
        i := i + 1;
      }
      assert bigits[..i] == bigits && was[..i] == was;
      PushCarry(carry);
      ProductScale(value, Val(was), Pow(BASE, exp));
    }

    method PushCarry(start: nat)
      requires bigits != [] && (start == 0 ==> Valid())
      modifies this`bigits
      ensures Val(bigits) == old(Val(bigits)) + start * Pow(BASE, old(|bigits|))
      ensures Valid() && (start > 0 ==> Normal()) && (start == 0 ==> bigits == old(bigits))
    {
      var carry: nat := start;
      while carry != 0
        invariant bigits != []
        invariant Val(bigits) + carry * Pow(BASE, |bigits|) == old(Val(bigits)) + start * Pow(BASE, old(|bigits|))
        invariant carry == 0 && start > 0 ==> Normal()
        invariant carry == start ==> bigits == old(bigits)
        decreases carry
      {
        ValSnoc(bigits, carry % BASE);
        SplitWord(carry, Pow(BASE, |bigits|));
        bigits := bigits + [carry % BASE];
        carry := carry / BASE;
      }
    }

    /** Drops zero top words, keeping at least one word. */
    method RemoveLeadingZeros()
      requires bigits != []
      modifies this`bigits
      ensures Val(bigits) == old(Val(bigits)) && Valid() && |bigits| <= old(|bigits|)
    {
      var n: nat := |bigits| - 1;
      assert bigits[..n + 1] == bigits;
      while n > 0 && bigits[n] == 0
        invariant n < |bigits| && bigits == old(bigits)
        invariant Val(bigits[..n + 1]) == old(Val(bigits))
      {
        ValDropTop(bigits, n);
        n := n - 1;
      }
      bigits := bigits[..n + 1];
    }

    /** Gives this number the smaller exponent of the two, keeping its value. */
    method Align(other: Bigint)
      requires Valid()
      modifies this
      ensures Value() == old(Value()) && NumBigits() == old(NumBigits())
      ensures exp == if old(exp) <= other.exp then old(exp) else other.exp
      ensures bigits != [] && (old(Normal()) ==> Normal())
    {
      if exp <= other.exp {
        return;
      }
      var d := exp - other.exp;
      ValZeroFill(bigits, exp, d);
      InsertZeros(d);
      exp := exp - d;
    }

    /** Moves the words up by `d` places, last word first, and fills the gap with zeros. */
    method InsertZeros(d: nat)
      modifies this`bigits
      ensures bigits == seq(d, _ => 0) + old(bigits)
    {
      var was, n := bigits, |bigits|;
      var words: seq<Word> := was + seq(d, _ => 0);
      var i := n - 1;
      while i >= 0
        invariant -1 <= i < n && |words| == n + d
        invariant words[..i + 1] == was[..i + 1]
        invariant words[i + 1 + d..] == was[i + 1..]
      {
        assert words[..i + 1][i] == was[i];
        words := words[i + d := words[i]];
        assert words[i + d..] == [was[i]] + words[i + 1 + d..];
        i := i - 1;
      }
      assert i + 1 == 0 && was[0..] == was;
      var k := 0;
      while k < d
        invariant 0 <= k <= d && |words| == n + d
        invariant forall m :: 0 <= m < k ==> words[m] == 0
        invariant words[d..] == was
      {
        words := words[k := 0];
        k := k + 1;
      }
      bigits := words;
    }

    method SubtractBigits(index: nat, other: Word, borrow: Word) returns (next: Word)
      requires index < |bigits| && borrow <= 1
      modifies this`bigits
      ensures next <= 1 && next == if old(bigits[index]) >= other + borrow then 0 else 1
      ensures |bigits| == old(|bigits|)
      ensures bigits == old(bigits)[index := bigits[index]]
      ensures bigits[index] - next * BASE == old(bigits[index]) - other - borrow
    {
      var result: nat := (bigits[index] - other - borrow) % (BASE * BASE);
      SubtractWord(bigits[index], other, borrow, result);
      bigits := bigits[index := result % BASE];
      next := result / (BASE * BASE / 2);
    }

    /** Subtracts an aligned number that is not larger and at most one digit shorter:
        the last borrow then needs only one further word. */
    method SubtractAligned(other: Bigint)
      requires this != other && bigits != [] && other.Normal()
      requires exp <= other.exp && NumBigits() <= other.NumBigits() + 1
      requires other.Value() <= Value()
      modifies this`bigits
      ensures Value() == old(Value()) - other.Value()
      ensures Valid() && |bigits| <= old(|bigits|)
    {
      ghost var was := bigits;
      var d := other.exp - exp;
      SubtractSpan(was, exp, other.bigits, other.exp);
      ghost var gone := Scaled(other.bigits, d);
      var n := d + |other.bigits|;
      var borrow := SubtractWords(other, d);
      TakeLastBorrow(was, gone, n, borrow);
      RemoveLeadingZeros();
      SubtractScaled(Val(bigits), Val(was), other.bigits, d, exp);
    }

    method TakeLastBorrow(ghost was: seq<Word>, ghost gone: nat, n: nat, borrow: Word)
      requires n <= |was| == |bigits| <= n + 1 && borrow <= 1
      requires Borrowed(was, bigits, gone, borrow, n) && bigits[n..] == was[n..] && gone <= Val(was)
      modifies this`bigits
      ensures |bigits| == old(|bigits|) && Val(bigits) == Val(was) - gone
    {
      BorrowFits(was, bigits, gone, borrow, n);
      if borrow != 0 {
        ghost var before := bigits;
        assert before[n] == was[n];
        var rest := SubtractBigits(n, 0, borrow);
        BorrowStep(was, before, gone, n, 0, 1, bigits[n], rest);
        BorrowFits(was, bigits, gone, rest, n + 1);
        BorrowDone(was, bigits, gone, n + 1);
      } else {
        BorrowDone(was, bigits, gone, n);
      }
    }

    method SubtractWords(other: Bigint, d: nat) returns (borrow: Word)
      requires this != other && d + |other.bigits| <= |bigits|
      modifies this`bigits
      ensures |bigits| == old(|bigits|) && borrow <= 1
      ensures bigits[d + |other.bigits|..] == old(bigits[d + |other.bigits|..])
      ensures Borrowed(old(bigits), bigits, Scaled(other.bigits, d), borrow, d + |other.bigits|)
    {
      ghost var was := bigits;
      borrow := 0;
      var j: nat := 0;
      while j != |other.bigits|
        invariant j <= |other.bigits| && |bigits| == |was| && borrow <= 1
        invariant bigits[d + j..] == was[d + j..]
        invariant Borrowed(was, bigits, Scaled(other.bigits[..j], d), borrow, d + j)
      {
        ghost var before := bigits;
        assert before[d + j] == was[d + j];
        var next := SubtractBigits(d + j, other.bigits[j], borrow);
        BorrowStep(was, before, Scaled(other.bigits[..j], d), d + j, other.bigits[j], borrow, bigits[d + j], next);
        ScaleTake(other.bigits, d, j);
        borrow := next;
        j := j + 1;
      }
      assert other.bigits[..j] == other.bigits;
    }

    /** Compares by digit count, then word by word from the top. It is the sign of the difference
        except for equal numbers with different exponents, where the smaller exponent counts as larger, and for a zero
        with more places than the other number has, which counts as larger too. */
    static method Compare(a: Bigint, b: Bigint) returns (r: int)
      requires a.Valid() && b.Normal()
      ensures a.Normal() || a.exp < b.NumBigits() ==> r == CompareResult(a.Value(), a.exp, b.Value(), b.exp)
      ensures !a.Normal() && a.exp >= b.NumBigits() ==> r == 1
    {
      var n := a.NumBigits();
      if n != b.NumBigits() {
        if a.Normal() || a.exp < b.NumBigits() {
          CompareCounts(a.bigits, a.exp, b.bigits, b.exp);
        }
        return if n > b.NumBigits() then 1 else -1;
      }
      r := CompareDigits(a, b);
    }

    static method CompareDigits(a: Bigint, b: Bigint) returns (r: int)
      requires a.NumBigits() == b.NumBigits() && a.bigits != [] && b.bigits != []
      ensures r == CompareResult(a.Value(), a.exp, b.Value(), b.exp)
    {
      var i: int, j: int := |a.bigits| - 1, |b.bigits| - 1;
      var end := if i - j < 0 then 0 else i - j;
      while i >= end
        invariant end - 1 <= i < |a.bigits| && i - j == |a.bigits| - |b.bigits|
        invariant High(a.bigits, a.exp, i + 1 + a.exp) == High(b.bigits, b.exp, i + 1 + a.exp)
        decreases i
      {
        if a.bigits[i] != b.bigits[j] {
          HighOrder(a.bigits, a.exp, b.bigits, b.exp, i + a.exp);
          return if a.bigits[i] > b.bigits[j] then 1 else -1;
        }
        i, j := i - 1, j - 1;
      }
      HighEqual(a.bigits, a.exp, b.bigits, b.exp, i + 1 + a.exp);
      if i != j {
        return if i > j then 1 else -1;
      }
      return 0;
    }

    /** The sign of `x + y - z`, from the digits down. */
    static method AddCompare(x: Bigint, y: Bigint, z: Bigint) returns (r: int)
      requires x.Valid() && y.Valid() && z.Normal()
      requires x.Normal() || x.exp < z.NumBigits()
      requires y.Normal() || y.exp < z.NumBigits()
      ensures r == Sign(x.Value() + y.Value() - z.Value())
    {
      var maxLhs := if x.NumBigits() > y.NumBigits() then x.NumBigits() else y.NumBigits();
      var n := z.NumBigits();
      SumCounts(x.bigits, x.exp, y.bigits, y.exp, z.bigits, z.exp, maxLhs);
      if maxLhs + 1 < n {
        return -1;
      }
      if maxLhs > n {
        return 1;
      }
      r := AddCompareDigits(x, y, z, n);
    }

    static method AddCompareDigits(x: Bigint, y: Bigint, z: Bigint, n: nat) returns (r: int)
      requires x.NumBigits() <= n && y.NumBigits() <= n && z.NumBigits() <= n
      requires x.exp <= n && y.exp <= n && z.exp <= n
      ensures r == Sign(x.Value() + y.Value() - z.Value())
    {
      var borrow: nat := 0;
      ghost var gap: nat := 0;
      var minExp := if x.exp <= y.exp then x.exp else y.exp;
      minExp := if minExp <= z.exp then minExp else z.exp;
      GapTop(x.bigits, x.exp, y.bigits, y.exp, z.bigits, z.exp, n);
      var i: nat := n;
      while i > minExp
        invariant minExp <= i <= n
        invariant gap == Gap(x.bigits, x.exp, y.bigits, y.exp, z.bigits, z.exp, i)
        invariant gap <= 1 && borrow == BASE * gap
      {
        i := i - 1;
        GapStep(x.bigits, x.exp, y.bigits, y.exp, z.bigits, z.exp, i);
        GapDecides(x.bigits, x.exp, y.bigits, y.exp, z.bigits, z.exp, i);
        var sum := x.GetBigit(i) + y.GetBigit(i);
        var word := z.GetBigit(i);
        ghost var now := Gap(x.bigits, x.exp, y.bigits, y.exp, z.bigits, z.exp, i);
        assert now == word - sum + borrow;
        if sum > word + borrow {
          return 1;
        }
        borrow := word + borrow - sum;
        if borrow > 1 {
          return -1;
        }
        gap := now;
        borrow := borrow * BASE;
      }
      GapDecides(x.bigits, x.exp, y.bigits, y.exp, z.bigits, z.exp, minExp);
      return if borrow != 0 then -1 else 0;
    }

    /** Divides by repeated subtraction, leaving the remainder. The quotient is the floor except when the
        first comparison goes wrong: an equal number with a larger exponent is taken for a smaller one. */
    method DivmodAssign(divisor: Bigint) returns (quotient: nat)
      requires this != divisor && Valid() && divisor.Normal()
      requires Normal() || exp < divisor.NumBigits()
      requires NumBigits() <= divisor.NumBigits() + 1
      modifies this
      ensures Valid()
      ensures old(Value()) == divisor.Value() && old(exp) > divisor.exp
          ==> quotient == 0 && bigits == old(bigits) && exp == old(exp)
      ensures !(old(Value()) == divisor.Value() && old(exp) > divisor.exp)
          ==> Value() < divisor.Value() && old(Value()) == quotient * divisor.Value() + Value()
      ensures if quotient == 0 then bigits == old(bigits) && exp == old(exp)
              else exp == (if old(exp) <= divisor.exp then old(exp) else divisor.exp)
    {
      ghost var total := Value();
      var c := Compare(this, divisor);
      if c < 0 {
        return 0;
      }
      Align(divisor);
      quotient := 0;
      while c >= 0
        invariant bigits != [] && exp <= divisor.exp && NumBigits() <= divisor.NumBigits() + 1
        invariant exp == if old(exp) <= divisor.exp then old(exp) else divisor.exp
        invariant total == quotient * divisor.Value() + Value()
        invariant c >= 0 <==> Value() >= divisor.Value()
        invariant c < 0 ==> Valid() && quotient > 0
        decreases Value()
      {
        ScaledTop(divisor.bigits, divisor.exp);
        SubtractAligned(divisor);
        DistributeRight(quotient, 1, divisor.Value());
        quotient := quotient + 1;
        c := Compare(this, divisor);
      }
    }

    /** Squares this number column by column; the running sum fits 128 bits. */
    method Square()
      requires bigits != [] && |bigits| < 0x8000_0000
      modifies this
      ensures Value() == old(Value()) * old(Value()) && exp == 2 * old(exp)
      ensures Valid() && (old(Normal()) ==> Normal())
    {
      ghost var was := bigits;
      bigits := SquareWords(bigits);
      RemoveLeadingZeros();
      SquareValue(was, exp);
      SquarePositive(was);
      exp := exp * 2;
    }

    static method SquareWords(n: seq<Word>) returns (words: seq<Word>)
      requires n != [] && |n| < 0x8000_0000
      ensures |words| == 2 * |n| && Val(words) == Val(n) * Val(n)
    {
      var m := |n|;
      words := [];
      var sum: nat := 0;
      var k: nat := 0;
      while k < 2 * m
        invariant k <= 2 * m && |words| == k && sum <= m * BASE
        invariant Val(words) + sum * Pow(BASE, k) == Columns(n, n, k)
      {
        var lo, hi := if k < m then 0 else k - m + 1, if k < m then k + 1 else m;
        if k >= m {
          ColumnRange(n, k);
        }
        ColumnStep(n, n, Val(words), k, m, lo, hi, sum);
        sum := SumColumn(n, k, lo, hi, sum);
        var low: Word := sum % BASE;
        ValSnoc(words, low);
        words := words + [low];
        sum := sum / BASE;
        k := k + 1;
      }
      ColumnsProduct(n, n, 2 * m);
      SquareFits(n, words, sum);
    }

    static method SumColumn(n: seq<Word>, k: nat, lo: nat, hi: nat, start: nat) returns (sum: nat)
      requires lo <= hi <= |n| && k < lo + |n| && hi <= k + 1
      ensures sum == start + Column(n, n, k, lo, hi)
    {
      sum := start;
      var i: nat, j: int := lo, k - lo;
      while i < hi
        invariant lo <= i <= hi && j == k - i
        invariant sum == start + Column(n, n, k, lo, i)
      {
        var x: int, y: int := n[i], n[j];
        sum := sum + x * y;
        i, j := i + 1, j - 1;
      }
    }

    /** Assigns 10^e: 5^e by squaring along the bits of `e`, then a shift by `e`. */
    method AssignPow10(e: nat)
      requires e < 0x8000_0000
      modifies this
      ensures Value() == Pow(10, e) && exp == e / 32 && Normal()
    {
      if e == 0 {
        Assign(1);
        return;
      }
      RaiseFive(e);
      ShiftLeft(e);
      PowMul(5, 2, e);
    }

    /** Computes the power of five from the bits of the exponent, highest first. */
    method RaiseFive(e: nat)
      requires 0 < e < 0x8000_0000
      modifies this
      ensures Value() == Pow(5, e) && exp == 0 && Normal()
    {
      var bitmask: nat := TopBit(e);
      ghost var done: nat, q: nat := bitmask, 1;
      BitQuotient(e, bitmask);
      Assign(5);
      bitmask := bitmask / 2;
      while bitmask != 0
        invariant 0 < done <= e && (if bitmask == 0 then done == 1 else done == 2 * bitmask && IsBit(bitmask))
        invariant q == e / done && Value() == Pow(5, q) && exp == 0 && Normal()
        decreases bitmask
      {
        BitStep(e, bitmask);
        QuotientBelow(e, done);
        SquareStep(q, (e / bitmask) % 2 != 0);
        done, q := bitmask, e / bitmask;
        bitmask := bitmask / 2;
      }
      ModUnique(e, done, e, 0);
    }

    method SquareStep(ghost q: nat, odd: bool)
      requires Normal() && exp == 0 && Value() == Pow(5, q) && q < 0x7fff_ffff
      modifies this
      ensures Normal() && exp == 0 && Value() == Pow(5, if odd then 2 * q + 1 else 2 * q)
    {
      FiveWords(bigits, q);
      Square();
      FiveStep(q);
      if odd {
        MultiplyWord(5);
      }
    }
  }

  /** The highest power of two not above `e`. */
  function TopBit(e: nat): (b: nat)
    requires e > 0
    ensures b <= e < 2 * b && IsBit(b)
  {
    if e == 1 then 1 else 2 * TopBit(e / 2)
  }

  predicate IsBit(b: nat) {
    b == 1 || (b > 1 && b % 2 == 0 && IsBit(b / 2))
  }

  lemma QuotientBelow(e: nat, done: nat)
    requires done >= 2
    ensures e / done <= e / 2
  {
    ModUnique(e, done, e / done, e % done);
    MulLe(2, done, e / done);
  }

  lemma BitQuotient(e: nat, b: nat)
    requires b <= e < 2 * b && b > 0
    ensures e / b == 1
  {
    ModUnique(e, b, 1, e - b);
  }
}
