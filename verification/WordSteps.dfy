/** Facts about word sequences that the loops of the multi-word integer step through. */
module WordSteps {
  import opened Words

  function Sign(x: int): int {
    if x > 0 then 1 else if x < 0 then -1 else 0
  }

  /** The number held by `s` with `e` implicit zero words below it. */
  function Scaled(s: seq<Word>, e: nat): nat {
    Val(s) * Pow(BASE, e)
  }

  lemma ValUpdate(s: seq<Word>, i: nat, w: Word)
    requires i < |s|
    ensures Val(s[i := w][..i + 1]) == Val(s[..i]) + w * Pow(BASE, i)
  {
    ValTake(s[i := w], i);
    assert s[i := w][..i] == s[..i];
  }

  /** One step of a multiply-with-carry loop. */
  lemma CarryStep(done: int, source: int, factor: int, word: int, carry: int, low: int, high: int, p: int)
    requires done + carry * p == factor * source
    requires low + high * BASE == word * factor + carry
    ensures done + low * p + high * (BASE * p) == factor * (source + word * p)
  {
    MulAssoc(high, BASE, p);
    assert (low + high * BASE) * p == low * p + (high * BASE) * p;
    assert (word * factor + carry) * p == (word * factor) * p + carry * p;
    MulAssoc(factor, word, p);
    Distribute(factor, source, word * p);
  }

  /** The step on sequences: word `i` is replaced, `high` is the new carry. */
  lemma PrefixStep(was: seq<Word>, now: seq<Word>, i: nat, factor: int, carry: int, low: Word, high: int)
    requires i < |was| == |now|
    requires Val(now[..i]) + carry * Pow(BASE, i) == factor * Val(was[..i])
    requires low + high * BASE == was[i] * factor + carry
    ensures Val(now[i := low][..i + 1]) + high * Pow(BASE, i + 1) == factor * Val(was[..i + 1])
  {
    CarryStep(Val(now[..i]), Val(was[..i]), factor, was[i], carry, low, high, Pow(BASE, i));
    ValUpdate(now, i, low);
    ValTake(was, i);
  }

  lemma SplitWord(m: nat, p: nat)
    ensures m * p == (m % BASE) * p + (m / BASE) * (BASE * p)
  {
    MulAssoc(m / BASE, BASE, p);
    assert m == m % BASE + (m / BASE) * BASE;
  }

  lemma ModSmall(x: nat, m: nat)
    requires x < m
    ensures x % m == x
  {
    ModUnique(x, m, 0, x);
  }

  lemma DivBound(w: nat, k: nat, m: nat)
    requires k > 0 && w < m * k
    ensures 0 <= w / k < m && w / k <= w
  {
    var c := w / k;
    assert c * k <= w;
    MulLe(1, k, c);
    if c >= m {
      MulLe(m, c, k);
      assert false;
    }
  }

  /** The low `shift` bits of a shifted word are free to take the carry. */
  lemma ShiftWord(w: Word, m: nat, k: nat, carry: nat)
    requires m > 0 && k > 0 && m * k == BASE && carry < m
    ensures 0 <= (w * m) % BASE + carry < BASE
    ensures (w * m) % BASE + (w / k) * BASE == w * m
    ensures w != 0 && w / k == 0 ==> (w * m) % BASE != 0
    ensures 0 <= w / k < m && w / k <= w
  {
    var c, r := w / k, w % k;
    assert w == c * k + r;
    assert w * m == c * BASE + r * m by {
      MulAssoc(c, k, m);
      assert (c * k + r) * m == (c * k) * m + r * m;
    }
    MulLe(r, k - 1, m);
    assert (k - 1) * m == BASE - m;
    ModUnique(w * m, BASE, c, r * m);
    DivBound(w, k, m);
    if w != 0 {
      MulLe(1, w, m);
    }
  }

  lemma ModUnique(x: int, d: nat, q: int, r: int)
    requires d > 0 && x == q * d + r && 0 <= r < d
    ensures x / d == q && x % d == r
  {
    var q', r' := x / d, x % d;
    assert q' * d + r' == q * d + r;
    assert (q' - q) * d == r - r';
    assert (q - q') * d == r' - r;
    if q' > q {
      MulLe(1, q' - q, d);
    } else if q' < q {
      MulLe(1, q - q', d);
    }
  }

  /** Splitting a shift into whole words and bits loses nothing. */
  lemma ShiftSplit(v: nat, e: nat, shift: nat)
    ensures (Pow(2, shift % 32) * v) * Pow(BASE, e + shift / 32) == (v * Pow(BASE, e)) * Pow(2, shift)
  {
    var s, q := shift % 32, shift / 32;
    PowAdd(2, s, 32 * q);
    PowTwoBase(q);
    PowAdd(BASE, e, q);
    MulSwap(Pow(2, s), v, Pow(BASE, e), Pow(BASE, q));
    MulSwap(v, Pow(BASE, e), Pow(2, s), Pow(BASE, q));
    MulSwap(v, Pow(2, s), Pow(BASE, e), Pow(BASE, q));
  }

  /** The digits of `Scaled(s, e)` from position `i` up, as a number. */
  ghost function High(s: seq<Word>, e: nat, i: nat): nat
    decreases |s| + e - i
  {
    if i >= |s| + e then 0 else At(s, i - e) + BASE * High(s, e, i + 1)
  }

  lemma {:induction false} HighValue(s: seq<Word>, e: nat, i: nat)
    ensures High(s, e, i) == if i <= e then Scaled(s, e - i) else if i - e <= |s| then Val(s[i - e..]) else 0
    decreases |s| + e - i
  {
    if i < |s| + e {
      HighValue(s, e, i + 1);
      if i < e {
        MulSwap(BASE, 1, Val(s), Pow(BASE, e - i - 1));
        MulAssoc(Val(s), BASE, Pow(BASE, e - i - 1));
        MulAssoc(BASE, Val(s), Pow(BASE, e - i - 1));
      } else {
        assert s[i - e..][1..] == s[i + 1 - e..];
        assert s[0..] == s;
      }
    } else if i <= e {
      assert s == [];
    }
  }

  /** `High` is the quotient by the power of its position. */
  lemma HighBounds(s: seq<Word>, e: nat, i: nat)
    ensures High(s, e, i) * Pow(BASE, i) <= Scaled(s, e) < (High(s, e, i) + 1) * Pow(BASE, i)
    ensures i <= e ==> High(s, e, i) * Pow(BASE, i) == Scaled(s, e)
  {
    var h, p := High(s, e, i), Pow(BASE, i);
    HighValue(s, e, i);
    DistributeRight(h, 1, p);
    if i <= e {
      HighExact(s, e, i);
    } else if i - e <= |s| {
      HighSplit(s, e, i - e);
    } else {
      HighSplit(s, e, |s|);
      PowMono(BASE, |s| + e, i);
      assert s[..|s|] == s;
    }
  }

  lemma HighExact(s: seq<Word>, e: nat, i: nat)
    requires i <= e
    ensures High(s, e, i) * Pow(BASE, i) == Scaled(s, e)
  {
    HighValue(s, e, i);
    PowAdd(BASE, e - i, i);
    MulAssoc(Val(s), Pow(BASE, e - i), Pow(BASE, i));
  }

  lemma HighSplit(s: seq<Word>, e: nat, k: nat)
    requires k <= |s|
    ensures Scaled(s, e) == Scaled(s[..k], e) + Val(s[k..]) * Pow(BASE, k + e)
    ensures 0 <= Scaled(s[..k], e) < Pow(BASE, k + e)
  {
    assert s == s[..k] + s[k..];
    ValConcat(s[..k], s[k..]);
    PowAdd(BASE, k, e);
    SplitScale(Val(s[..k]), Val(s[k..]), Pow(BASE, k), Pow(BASE, e));
    ValBound(s[..k]);
    MulLess(Val(s[..k]), Pow(BASE, k), Pow(BASE, e));
  }

  lemma SplitScale(low: nat, high: nat, p: nat, q: nat)
    ensures (low + p * high) * q == low * q + high * (p * q)
  {
    DistributeRight(low, p * high, q);
    MulAssoc(high, p, q);
  }

  /** Higher digits decide. */
  lemma HighLess(s: seq<Word>, e: nat, t: seq<Word>, f: nat, i: nat)
    requires High(s, e, i) < High(t, f, i)
    ensures Scaled(s, e) < Scaled(t, f)
  {
    HighBounds(s, e, i);
    HighBounds(t, f, i);
    MulLe(High(s, e, i) + 1, High(t, f, i), Pow(BASE, i));
  }

  /** A non-zero top word puts the number in the top interval of its digit count. */
  lemma ScaledTop(s: seq<Word>, e: nat)
    requires s != [] && s[|s| - 1] != 0
    ensures Pow(BASE, |s| + e - 1) <= Scaled(s, e) < Pow(BASE, |s| + e)
  {
    ValTop(s);
    PowAdd(BASE, |s| - 1, e);
    PowAdd(BASE, |s|, e);
    MulLe(Pow(BASE, |s| - 1), Val(s), Pow(BASE, e));
    MulLess(Val(s), Pow(BASE, |s|), Pow(BASE, e));
  }

  lemma ValZeroFill(s: seq<Word>, e: nat, d: nat)
    requires d <= e
    ensures Scaled(seq(d, _ => 0) + s, e - d) == Scaled(s, e)
  {
    var z: seq<Word> := seq(d, _ => 0);
    ValConcat(z, s);
    ValZeros(z);
    PowAdd(BASE, d, e - d);
    SplitScale(0, Val(s), Pow(BASE, d), Pow(BASE, e - d));
  }

  /** Dropping zero top words keeps the value. */
  lemma ValDropTop(s: seq<Word>, n: nat)
    requires n < |s| && s[n] == 0
    ensures Val(s[..n + 1]) == Val(s[..n])
  {
    ValTake(s, n);
  }

  /** Subtracting one word: the borrow is the sign bit of the 64-bit difference. */
  lemma SubtractWord(a: Word, b: Word, borrow: nat, result: nat)
    requires borrow <= 1
    requires result == (a - b - borrow) % (BASE * BASE)
    ensures result / (BASE * BASE / 2) == if a >= b + borrow then 0 else 1
    ensures result % BASE - (result / (BASE * BASE / 2)) * BASE == a - b - borrow
  {
    if a >= b + borrow {
      assert result == a - b - borrow;
    } else {
      assert result == (BASE - 1) * BASE + (BASE + a - b - borrow);
    }
  }

  /** The state of the borrow loop after `n` words: `gone` is what has been subtracted. */
  ghost predicate Borrowed(was: seq<Word>, now: seq<Word>, gone: nat, borrow: nat, n: nat)
    requires n <= |was| == |now|
  {
    Val(now[..n]) == Val(was[..n]) - gone + borrow * Pow(BASE, n)
  }

  /** One step of the borrow loop. */
  lemma BorrowStep(was: seq<Word>, now: seq<Word>, gone: nat, n: nat, word: Word, borrow: nat, low: Word, high: nat)
    requires n < |was| == |now|
    requires Borrowed(was, now, gone, borrow, n)
    requires low - high * BASE == was[n] - word - borrow
    ensures Borrowed(was, now[n := low], gone + word * Pow(BASE, n), high, n + 1)
  {
    ValUpdate(now, n, low);
    ValTake(was, n);
    BorrowProduct(was[n], word, borrow, low, high, Pow(BASE, n));
  }

  lemma BorrowProduct(w: int, word: int, borrow: int, low: int, high: int, p: int)
    requires low - high * BASE == w - word - borrow
    ensures low * p == w * p - word * p - borrow * p + high * (BASE * p)
  {
    MulAssoc(high, BASE, p);
    DistributeRight(w - word - borrow, high * BASE, p);
    DistributeRight(w - word, -borrow, p);
    DistributeRight(w, -word, p);
  }

  lemma ScaleTake(other: seq<Word>, d: nat, j: nat)
    requires j < |other|
    ensures Scaled(other[..j + 1], d) == Scaled(other[..j], d) + other[j] * Pow(BASE, d + j)
  {
    ValTake(other, j);
    PowAdd(BASE, d, j);
    ScaledSum(Val(other[..j + 1]), Val(other[..j]), other[j], Pow(BASE, d), Pow(BASE, j), Pow(BASE, d + j));
  }

  lemma ScaledSum(total: int, v: int, w: int, p: int, q: int, pq: int)
    requires total == v + w * q && pq == p * q
    ensures total * p == v * p + w * pq
  {
    DistributeRight(v, w * q, p);
    MulAssoc(w, q, p);
  }

  lemma HalfStep(w: Word, value: nat, half: nat, unit: nat, carry: nat, m: nat)
    requires unit > 0 && half == unit * BASE && m == half * half && value < m && carry < m
    ensures var result := ((value % half) * w + carry % BASE) % m;
            var next := (((value / half) * w * unit) % m + result / BASE + carry / BASE) % m;
            && 0 <= result && 0 <= next < m
            && result % BASE + next * BASE == w * value + carry
            && (w > 0 && value > 0 && next == 0 ==> result % BASE != 0)
  {
    DivBound(value, half, half);
    WideExact(w, value, half, unit, carry);
    HalfBounds(w, value % half, value / half, value, half, unit, carry, m);
    if w > 0 && value > 0 {
      MulLe(1, w, value);
    }
  }

  lemma HalfBounds(w: Word, lower: nat, upper: nat, value: nat, half: nat, unit: nat, carry: nat, m: nat)
    requires unit > 0 && half == unit * BASE && m == half * half && lower < half && value < m && carry < m
    requires (lower * w + carry % BASE) % BASE
           + (upper * w * unit + (lower * w + carry % BASE) / BASE + carry / BASE) * BASE == w * value + carry
    ensures (lower * w + carry % BASE) % m == lower * w + carry % BASE >= 0
    ensures (upper * w * unit) % m == upper * w * unit
    ensures var next := upper * w * unit + (lower * w + carry % BASE) / BASE + carry / BASE;
            0 <= next < m && next % m == next
  {
    var result, shifted := lower * w + carry % BASE, upper * w * unit;
    WideLower(lower, w, carry % BASE, half, unit);
    MulNat(upper, w);
    MulNat(upper * w, unit);
    NextBelow(w, result, shifted, value, carry, m);
    ModSmall(result, m);
    ModSmall(shifted, m);
    ModSmall(shifted + result / BASE + carry / BASE, m);
  }

  lemma NextBelow(w: Word, result: nat, shifted: nat, value: nat, carry: nat, m: nat)
    requires value < m && carry < m
    requires result % BASE + (shifted + result / BASE + carry / BASE) * BASE == w * value + carry
    ensures shifted + result / BASE + carry / BASE < m
  {
    WideUpper(shifted + result / BASE + carry / BASE, value * w, carry, m, w, value, result % BASE);
  }

  lemma ProductScale(c: nat, v: nat, p: nat)
    ensures (c * v) * p == (v * p) * c
  {
    MulAssoc(c, v, p);
  }

  lemma MulNat(a: nat, b: nat)
    ensures a * b >= 0
  {
  }

  lemma WideLower(lower: nat, w: Word, c: Word, half: nat, unit: nat)
    requires unit > 0 && half == unit * BASE && lower < half
    ensures 0 <= lower * w + c < half * half
  {
    MulNat(lower, w);
    MulLe(w, BASE - 1, lower);
    WideLess(lower * w, lower, c, half);
  }

  lemma WideLess(product: nat, lower: nat, c: Word, half: nat)
    requires product <= (BASE - 1) * lower && lower < half && half >= BASE
    ensures product + c < half * half
  {
    MulLess(BASE - 1, half, half);
  }

  lemma WideUpper(next: nat, product: nat, carry: nat, m: nat, w: Word, value: nat, low: nat)
    requires low + next * BASE == w * value + carry && product == value * w
    requires value < m && carry < m
    ensures next < m
  {
    MulLe(value, m - 1, w);
    MulLe(w, BASE - 1, m - 1);
    DistributeRight(BASE - 1, 1, m - 1);
    assert next * BASE <= (m - 1) * BASE;
  }

  lemma WideExact(w: Word, value: nat, half: nat, unit: nat, carry: nat)
    requires unit > 0 && half == unit * BASE
    ensures var result := (value % half) * w + carry % BASE;
            result % BASE + ((value / half) * w * unit + result / BASE + carry / BASE) * BASE == w * value + carry
  {
    var lower, upper := value % half, value / half;
    var result := lower * w + carry % BASE;
    assert value == upper * half + lower;
    assert w * value == upper * w * unit * BASE + lower * w by {
      Distribute(w, upper * half, lower);
      MulAssoc(upper * w, unit, BASE);
      MulAssoc(w, upper, half);
    }
    DistributeRight(upper * w * unit + result / BASE, carry / BASE, BASE);
    DistributeRight(upper * w * unit, result / BASE, BASE);
  }

  lemma WordProduct(w: Word, value: Word, carry: Word)
    ensures 0 <= (w * value + carry) / BASE < BASE
    ensures w != 0 && value != 0 && (w * value + carry) / BASE == 0 ==> (w * value + carry) % BASE != 0
  {
    MulLe(w, BASE - 1, value);
    if w != 0 && value != 0 {
      MulLe(1, w, value);
    }
  }

  /** One past the largest number of the wide multiply's accumulator, 128 or 64 bits. */
  function Limit(wide: bool): nat {
    if wide then 0x1_0000_0000_0000_0000_0000_0000_0000_0000 else 0x1_0000_0000_0000_0000
  }

  /** A wide multiply step. Both sums are taken at the accumulator's width; they do not overflow it. */
  method WideStep(w: Word, value: nat, wide: bool, carry: nat) returns (low: Word, next: nat)
    requires value < Limit(wide) && carry < Limit(wide)
    ensures low + next * BASE == w * value + carry
    ensures next < Limit(wide)
    ensures w > 0 && value > 0 && next == 0 ==> low != 0
  {
    var half: nat, unit: nat := if wide then BASE * BASE else BASE, if wide then BASE else 1;
    HalfStep(w, value, half, unit, carry, Limit(wide));
    var lower, upper := value % half, value / half;
    var result := (lower * w + carry % BASE) % Limit(wide);
    next := ((upper * w * unit) % Limit(wide) + result / BASE + carry / BASE) % Limit(wide);
    low := result % BASE;
  }

  /** What `a >= b` says about the words of two aligned numbers whose lengths differ by at most one digit. */
  lemma SubtractSpan(a: seq<Word>, ea: nat, b: seq<Word>, eb: nat)
    requires b != [] && b[|b| - 1] != 0
    requires ea <= eb && |a| + ea <= |b| + eb + 1 && Scaled(b, eb) <= Scaled(a, ea)
    ensures eb - ea + |b| <= |a| <= eb - ea + |b| + 1
    ensures Scaled(b, eb - ea) <= Val(a)
  {
    var d := eb - ea;
    PowAdd(BASE, d, ea);
    MulAssoc(Val(b), Pow(BASE, d), Pow(BASE, ea));
    if Val(a) < Scaled(b, d) {
      MulLess(Val(a), Scaled(b, d), Pow(BASE, ea));
    }
    ScaledTop(b, d);
    ValBound(a);
    if |a| < d + |b| {
      PowMono(BASE, |a|, |b| + d - 1);
    }
  }

  /** A borrow left over finds one more word. */
  lemma BorrowFits(was: seq<Word>, now: seq<Word>, gone: nat, borrow: nat, n: nat)
    requires n <= |was| == |now|
    requires Borrowed(was, now, gone, borrow, n) && gone <= Val(was)
    ensures n == |was| ==> borrow == 0
  {
    if n == |was| {
      assert now[..n] == now && was[..n] == was;
      ValBound(now);
      MulLe(if borrow > 0 then 1 else 0, borrow, Pow(BASE, n));
    }
  }

  /** Without a left-over borrow the words above are untouched. */
  lemma BorrowDone(was: seq<Word>, now: seq<Word>, gone: nat, n: nat)
    requires n <= |was| == |now|
    requires now[n..] == was[n..] && Borrowed(was, now, gone, 0, n)
    ensures Val(now) == Val(was) - gone
  {
    assert now == now[..n] + now[n..];
    assert was == was[..n] + was[n..];
    ValConcat(now[..n], now[n..]);
    ValConcat(was[..n], was[n..]);
  }

  lemma SubtractProduct(a: int, b: int, p: int)
    ensures (a - b) * p == a * p - b * p
  {
  }

  lemma SubtractScaled(now: nat, was: nat, other: seq<Word>, d: nat, e: nat)
    requires now == was - Scaled(other, d)
    ensures now * Pow(BASE, e) == was * Pow(BASE, e) - Scaled(other, d + e)
  {
    PowAdd(BASE, d, e);
    MulAssoc(Val(other), Pow(BASE, d), Pow(BASE, e));
    SubtractProduct(was, Scaled(other, d), Pow(BASE, e));
  }

  /** Different digit counts decide between a non-zero number and one that is not a wide zero. */
  lemma CompareCounts(a: seq<Word>, ea: nat, b: seq<Word>, eb: nat)
    requires b != [] && b[|b| - 1] != 0
    requires a != [] && (a[|a| - 1] != 0 || (a == [0] && ea < |b| + eb))
    requires |a| + ea != |b| + eb
    ensures if |a| + ea > |b| + eb then Scaled(a, ea) > Scaled(b, eb) else Scaled(a, ea) < Scaled(b, eb)
  {
    ScaledTop(b, eb);
    if a == [0] {
      ValZeros(a);
    } else {
      ScaledTop(a, ea);
      if |a| + ea > |b| + eb {
        PowMono(BASE, |b| + eb, |a| + ea - 1);
      } else {
        PowMono(BASE, |a| + ea, |b| + eb - 1);
      }
    }
  }

  lemma CountBound(s: seq<Word>, e: nat, n: nat)
    requires |s| + e <= n
    ensures Scaled(s, e) < Pow(BASE, n)
  {
    ValBound(s);
    MulLess(Val(s), Pow(BASE, |s|), Pow(BASE, e));
    PowAdd(BASE, |s|, e);
    PowMono(BASE, |s| + e, n);
  }

  /** Digit counts that settle the sign of `x + y - z`, `n` being the larger count of `x` and `y`. */
  lemma SumCounts(x: seq<Word>, ex: nat, y: seq<Word>, ey: nat, z: seq<Word>, ez: nat, n: nat)
    requires z != [] && z[|z| - 1] != 0
    requires x != [] && (x[|x| - 1] != 0 || (x == [0] && ex < |z| + ez))
    requires y != [] && (y[|y| - 1] != 0 || (y == [0] && ey < |z| + ez))
    requires n == if |x| + ex > |y| + ey then |x| + ex else |y| + ey
    ensures n + 1 < |z| + ez ==> Scaled(x, ex) + Scaled(y, ey) < Scaled(z, ez)
    ensures n > |z| + ez ==> Scaled(x, ex) + Scaled(y, ey) > Scaled(z, ez)
  {
    ScaledTop(z, ez);
    if n + 1 < |z| + ez {
      CountBound(x, ex, n);
      CountBound(y, ey, n);
      PowMono(BASE, n + 1, |z| + ez - 1);
    } else if n > |z| + ez {
      if |x| + ex == n { CompareCounts(x, ex, z, ez); } else { CompareCounts(y, ey, z, ez); }
    }
  }

  /** By how much the digits of `z` from position `i` up exceed those of `x` and `y`. */
  ghost function Gap(x: seq<Word>, ex: nat, y: seq<Word>, ey: nat, z: seq<Word>, ez: nat, i: nat): int {
    High(z, ez, i) - High(x, ex, i) - High(y, ey, i)
  }

  lemma GapTop(x: seq<Word>, ex: nat, y: seq<Word>, ey: nat, z: seq<Word>, ez: nat, n: nat)
    requires |x| + ex <= n && |y| + ey <= n && |z| + ez <= n
    ensures Gap(x, ex, y, ey, z, ez, n) == 0
  {
  }

  lemma GapStep(x: seq<Word>, ex: nat, y: seq<Word>, ey: nat, z: seq<Word>, ez: nat, i: nat)
    ensures Gap(x, ex, y, ey, z, ez, i)
         == At(z, i - ez) - At(x, i - ex) - At(y, i - ey) + BASE * Gap(x, ex, y, ey, z, ez, i + 1)
  {
  }

  /** A negative gap, or one above 1, decides the sign of `x + y - z`; at the lowest position any gap does. */
  lemma GapDecides(x: seq<Word>, ex: nat, y: seq<Word>, ey: nat, z: seq<Word>, ez: nat, i: nat)
    ensures var d := Gap(x, ex, y, ey, z, ez, i);
            d < 0 || d > 1 || (i <= ex && i <= ey && i <= ez)
            ==> Sign(Scaled(x, ex) + Scaled(y, ey) - Scaled(z, ez)) == -Sign(d)
  {
    HighBounds(x, ex, i);
    HighBounds(y, ey, i);
    HighBounds(z, ez, i);
    SumDecided(High(x, ex, i), High(y, ey, i), High(z, ez, i), Pow(BASE, i),
               Scaled(x, ex), Scaled(y, ey), Scaled(z, ez));
  }

  lemma SumDecided(hx: nat, hy: nat, hz: nat, p: nat, x: nat, y: nat, z: nat)
    requires p > 0
    requires hx * p <= x < (hx + 1) * p && hy * p <= y < (hy + 1) * p && hz * p <= z < (hz + 1) * p
    ensures hz < hx + hy ==> x + y > z
    ensures hz > hx + hy + 1 ==> x + y < z
    ensures x == hx * p && y == hy * p && z == hz * p ==>
              (hz == hx + hy ==> x + y == z) && (hz > hx + hy ==> x + y < z)
  {
    DistributeRight(hx, 1, p);
    DistributeRight(hy, 1, p);
    DistributeRight(hz, 1, p);
    DistributeRight(hx, hy, p);
    DistributeRight(hx + hy, 2, p);
    if hz < hx + hy {
      MulLe(hz + 1, hx + hy, p);
    } else if hz > hx + hy {
      MulLess(hx + hy, hz, p);
      if hz > hx + hy + 1 {
        MulLe(hx + hy + 2, hz, p);
      }
    }
  }

  /** The words of a square leave no carry. */
  lemma SquareFits(n: seq<Word>, words: seq<Word>, sum: nat)
    requires |words| == 2 * |n| && Val(words) + sum * Pow(BASE, 2 * |n|) == Val(n) * Val(n)
    ensures sum == 0
  {
    ValBound(n);
    PowAdd(BASE, |n|, |n|);
    var v, p := Val(n), Pow(BASE, |n|);
    MulLe(v, p, v);
    MulLess(v, p, p);
    if sum > 0 {
      MulLe(1, sum, Pow(BASE, 2 * |n|));
    }
  }

  /** A power of five takes no more words than its exponent. */
  lemma FiveWords(s: seq<Word>, k: nat)
    requires s != [] && s[|s| - 1] != 0 && Scaled(s, 0) == Pow(5, k)
    ensures |s| <= k + 1
  {
    ScaledTop(s, 0);
    PowBases(5, BASE, k);
    if |s| > k + 1 {
      PowMono(BASE, k + 1, |s| - 1);
    }
  }

  lemma {:induction false} PowBases(a: nat, b: nat, n: nat)
    requires a <= b
    ensures Pow(a, n) <= Pow(b, n)
  {
    if n > 0 {
      PowBases(a, b, n - 1);
      MulLe(a, b, Pow(a, n - 1));
      MulLe(Pow(a, n - 1), Pow(b, n - 1), b);
    }
  }

  /** The next lower bit of `e` doubles the quotient and adds that bit. */
  lemma BitStep(e: nat, bit: nat)
    requires bit > 0
    ensures e / bit == 2 * (e / (2 * bit)) + (e / bit) % 2
  {
    var q, r := e / bit, e % bit;
    assert e == q * bit + r;
    DistributeRight(2 * (q / 2), q % 2, bit);
    MulAssoc(2, q / 2, bit);
    MulAssoc(q / 2, 2, bit);
    MulLe(q % 2, 1, bit);
    ModUnique(e, 2 * bit, q / 2, (q % 2) * bit + r);
  }

  lemma SquareValue(n: seq<Word>, e: nat)
    ensures (Val(n) * Val(n)) * Pow(BASE, 2 * e) == Scaled(n, e) * Scaled(n, e)
  {
    PowAdd(BASE, e, e);
    MulSwap(Val(n), Pow(BASE, e), Val(n), Pow(BASE, e));
  }

  lemma SquarePositive(n: seq<Word>)
    ensures n != [] && n[|n| - 1] != 0 ==> Val(n) * Val(n) > 0
  {
    if n != [] && n[|n| - 1] != 0 {
      ValTop(n);
      MulLe(1, Val(n), Val(n));
    }
  }

  lemma FiveStep(q: nat)
    ensures Pow(5, 2 * q) == Pow(5, q) * Pow(5, q)
    ensures Pow(5, 2 * q + 1) == Pow(5, 2 * q) * 5
  {
    PowAdd(5, q, q);
  }

  lemma HighOrder(a: seq<Word>, ea: nat, b: seq<Word>, eb: nat, i: nat)
    ensures High(a, ea, i) > High(b, eb, i) ==> Scaled(a, ea) > Scaled(b, eb)
    ensures High(a, ea, i) < High(b, eb, i) ==> Scaled(a, ea) < Scaled(b, eb)
  {
    if High(a, ea, i) > High(b, eb, i) {
      HighLess(b, eb, a, ea, i);
    } else if High(a, ea, i) < High(b, eb, i) {
      HighLess(a, ea, b, eb, i);
    }
  }

  /** Equal digits down to the larger exponent: the number reaching further down is not smaller. */
  lemma HighEqual(a: seq<Word>, ea: nat, b: seq<Word>, eb: nat, i: nat)
    requires High(a, ea, i) == High(b, eb, i)
    requires i == if ea <= eb then eb else ea
    ensures ea <= eb ==> Scaled(a, ea) >= Scaled(b, eb)
    ensures ea >= eb ==> Scaled(a, ea) <= Scaled(b, eb)
  {
    HighBounds(a, ea, i);
    HighBounds(b, eb, i);
  }
}
