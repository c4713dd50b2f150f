/** Cross-product sums of word sequences: the columns of long multiplication. */
module Convolution {
  import opened Words
  import opened WordSteps

  /** The terms a[i] * b[k - i] with lo <= i < hi. */
  function Column(a: seq<Word>, b: seq<Word>, k: int, lo: int, hi: int): nat
    decreases if hi > lo then hi - lo else 0
  {
    if lo >= hi then 0 else Column(a, b, k, lo, hi - 1) + Term(a, b, k, hi - 1)
  }

  function Term(a: seq<Word>, b: seq<Word>, k: int, i: int): (t: nat)
    ensures t <= (BASE - 1) * (BASE - 1)
  {
    MulLe(At(a, i), BASE - 1, At(b, k - i));
    MulLe(At(b, k - i), BASE - 1, BASE - 1);
    At(a, i) * At(b, k - i)
  }

  /** The first `n` whole columns, as a number. */
  ghost function Columns(a: seq<Word>, b: seq<Word>, n: nat): nat {
    if n == 0 then 0 else Columns(a, b, n - 1) + Column(a, b, n - 1, 0, n) * Pow(BASE, n - 1)
  }

  /** The first `n` words, zeros past the end. */
  ghost function Low(b: seq<Word>, n: nat): nat {
    if n == 0 then 0 else Low(b, n - 1) + At(b, n - 1) * Pow(BASE, n - 1)
  }

  lemma {:induction false} LowVal(b: seq<Word>, n: nat)
    ensures Low(b, n) == Val(if n <= |b| then b[..n] else b)
  {
    if n > 0 {
      LowVal(b, n - 1);
      if n <= |b| {
        ValTake(b, n - 1);
      } else {
        assert b[..|b|] == b;
      }
    }
  }

  /** Terms off either end vanish. */
  lemma {:induction false} ColumnTrim(a: seq<Word>, b: seq<Word>, k: int, lo: int, hi: int)
    requires 0 <= lo <= hi
    requires forall i :: 0 <= i < lo ==> Term(a, b, k, i) == 0
    ensures Column(a, b, k, 0, hi) == Column(a, b, k, lo, hi)
  {
    if hi > lo {
      ColumnTrim(a, b, k, lo, hi - 1);
    } else if hi > 0 {
      ColumnTrim(a, b, k, lo - 1, hi - 1);
    }
  }

  lemma {:induction false} ColumnTail(a: seq<Word>, b: seq<Word>, k: int, lo: int, hi: int, top: int)
    requires lo <= hi <= top && |a| <= hi
    ensures Column(a, b, k, lo, top) == Column(a, b, k, lo, hi)
    decreases top - hi
  {
    if hi < top {
      ColumnTail(a, b, k, lo, hi, top - 1);
    }
  }

  lemma {:induction false} ColumnBound(a: seq<Word>, b: seq<Word>, k: int, lo: int, hi: int)
    requires lo <= hi
    ensures Column(a, b, k, lo, hi) <= (hi - lo) * ((BASE - 1) * (BASE - 1))
    decreases hi - lo
  {
    if lo < hi {
      ColumnBound(a, b, k, lo, hi - 1);
    }
  }

  /** Peeling the lowest word off the first factor. */
  lemma {:induction false} ColumnShift(a: seq<Word>, b: seq<Word>, k: int, hi: nat)
    requires a != [] && hi > 0
    ensures Column(a, b, k, 0, hi) == a[0] * At(b, k) + Column(a[1..], b, k - 1, 0, hi - 1)
  {
    if hi > 1 {
      ColumnShift(a, b, k, hi - 1);
    }
  }

  lemma {:induction false} ColumnsShift(a: seq<Word>, b: seq<Word>, n: nat)
    requires a != []
    ensures Columns(a, b, n) == a[0] * Low(b, n) + BASE * (if n == 0 then 0 else Columns(a[1..], b, n - 1))
  {
    if n > 0 {
      ColumnsShift(a, b, n - 1);
      ColumnShift(a, b, n - 1, n);
      var p := Pow(BASE, n - 1);
      var c := Column(a[1..], b, n - 2, 0, n - 1);
      DistributeRight(a[0] * At(b, n - 1), c, p);
      MulAssoc(a[0], At(b, n - 1), p);
      Distribute(a[0], Low(b, n - 1), At(b, n - 1) * p);
      if n == 1 {
        assert c == 0;
      } else {
        var q := Pow(BASE, n - 2);
        ScaleSum(BASE, Columns(a[1..], b, n - 2), c, q);
      }
    }
  }

  /** Long multiplication: enough columns make the product. */
  lemma {:induction false} ColumnsProduct(a: seq<Word>, b: seq<Word>, n: nat)
    requires |a| + |b| <= n
    ensures Columns(a, b, n) == Val(a) * Val(b)
  {
    if a == [] {
      ColumnsEmpty(b, n);
    } else {
      ColumnsShift(a, b, n);
      ColumnsProduct(a[1..], b, n - 1);
      LowVal(b, n);
      DistributeRight(a[0], BASE * Val(a[1..]), Val(b));
      MulAssoc(BASE, Val(a[1..]), Val(b));
    }
  }

  lemma {:induction false} ColumnsEmpty(b: seq<Word>, n: nat)
    ensures Columns([], b, n) == 0
  {
    if n > 0 {
      ColumnsEmpty(b, n - 1);
      ColumnTail([], b, n - 1, 0, 0, n);
    }
  }

  /** One result word: the carry stays below `m` words' worth, so the 128-bit sum never overflows. */
  lemma ColumnStep(a: seq<Word>, b: seq<Word>, done: nat, k: nat, m: nat, lo: nat, hi: nat, carry: nat)
    requires lo <= hi <= lo + m && carry <= m * BASE && m < 0x8000_0000
    requires Column(a, b, k, lo, hi) == Column(a, b, k, 0, k + 1)
    requires done + carry * Pow(BASE, k) == Columns(a, b, k)
    ensures var sum := carry + Column(a, b, k, lo, hi);
            && sum < Limit(true) && sum / BASE <= m * BASE
            && done + (sum % BASE) * Pow(BASE, k) + (sum / BASE) * Pow(BASE, k + 1) == Columns(a, b, k + 1)
  {
    var sum, p := carry + Column(a, b, k, lo, hi), Pow(BASE, k);
    ColumnBound(a, b, k, lo, hi);
    MulLe(hi - lo, m, (BASE - 1) * (BASE - 1));
    assert sum <= m * (BASE * BASE);
    SplitWord(sum, p);
    DistributeRight(carry, Column(a, b, k, lo, hi), p);
  }

  /** The terms left out of the upper columns are zero. */
  lemma ColumnRange(a: seq<Word>, k: nat)
    requires |a| <= k < 2 * |a|
    ensures Column(a, a, k, k - |a| + 1, |a|) == Column(a, a, k, 0, k + 1)
  {
    ColumnTail(a, a, k, 0, |a|, k + 1);
    ColumnTrim(a, a, k, k - |a| + 1, |a|);
  }
}
