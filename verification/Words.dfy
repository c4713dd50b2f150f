/** Natural numbers as little-endian sequences of 32-bit words. */
module Words {
  const BASE: nat := 0x1_0000_0000

  type Word = x: int | 0 <= x < 0x1_0000_0000

  function Pow(b: nat, n: nat): (p: nat)
    ensures b > 0 ==> p > 0
  {
    if n == 0 then 1 else b * Pow(b, n - 1)
  }

  /** The number a word sequence stands for, least significant word first. */
  function Val(s: seq<Word>): nat {
    if s == [] then 0 else s[0] + BASE * Val(s[1..])
  }

  /** The word at position `i`, zero outside the sequence. */
  function At(s: seq<Word>, i: int): Word {
    if 0 <= i < |s| then s[i] else 0
  }

  lemma MulLe(a: nat, b: nat, c: nat)
    requires a <= b
    ensures a * c <= b * c
  {
  }

  lemma MulLess(a: nat, b: nat, c: nat)
    requires a < b && c > 0
    ensures a * c < b * c
  {
  }

  lemma MulAssoc(a: int, b: int, c: int)
    ensures (a * b) * c == a * (b * c)
  {
  }

  lemma MulSwap(a: int, b: int, c: int, d: int)
    ensures (a * b) * (c * d) == (a * c) * (b * d)
  {
    MulAssoc(a, b, c * d);
    MulAssoc(b, c, d);
    MulAssoc(c, b, d);
    MulAssoc(a, c, b * d);
  }

  lemma DistributeRight(a: int, b: int, c: int)
    ensures (a + b) * c == a * c + b * c
  {
  }

  lemma Distribute(a: int, b: int, c: int)
    ensures a * (b + c) == a * b + a * c
  {
  }

  lemma {:induction false} PowAdd(b: nat, m: nat, n: nat)
    ensures Pow(b, m + n) == Pow(b, m) * Pow(b, n)
  {
    if m > 0 {
      PowAdd(b, m - 1, n);
      MulAssoc(b, Pow(b, m - 1), Pow(b, n));
    }
  }

  lemma {:induction false} PowMul(a: nat, b: nat, n: nat)
    ensures Pow(a * b, n) == Pow(a, n) * Pow(b, n)
  {
    if n > 0 {
      PowMul(a, b, n - 1);
      MulSwap(a, b, Pow(a, n - 1), Pow(b, n - 1));
    }
  }

  lemma {:induction false} PowPow(b: nat, m: nat, n: nat)
    ensures Pow(b, m * n) == Pow(Pow(b, m), n)
  {
    if n == 0 {
      assert m * n == 0;
    } else {
      assert m * n == m + m * (n - 1);
      PowAdd(b, m, m * (n - 1));
      PowPow(b, m, n - 1);
    }
  }

  lemma {:induction false} PowMono(b: nat, m: nat, n: nat)
    requires b > 0 && m <= n
    ensures Pow(b, m) <= Pow(b, n)
  {
    PowAdd(b, m, n - m);
    MulLe(1, Pow(b, n - m), Pow(b, m));
  }

  lemma PowTwo32()
    ensures Pow(2, 32) == BASE
  {
    assert Pow(2, 8) == 256;
    PowAdd(2, 8, 8);
    PowAdd(2, 16, 16);
  }

  lemma PowTwoBase(k: nat)
    ensures Pow(2, 32 * k) == Pow(BASE, k)
  {
    PowPow(2, 32, k);
    PowTwo32();
  }

  lemma {:induction false} ValSnoc(s: seq<Word>, w: Word)
    ensures Val(s + [w]) == Val(s) + w * Pow(BASE, |s|)
  {
    if s == [] {
      assert s + [w] == [w];
      assert [w][1..] == [];
    } else {
      assert (s + [w])[1..] == s[1..] + [w];
      ValSnoc(s[1..], w);
      var p := Pow(BASE, |s| - 1);
      assert BASE * (w * p) == w * (BASE * p);
    }
  }

  /** One more word of a prefix. */
  lemma ValTake(s: seq<Word>, i: nat)
    requires i < |s|
    ensures Val(s[..i + 1]) == Val(s[..i]) + s[i] * Pow(BASE, i)
  {
    assert s[..i + 1] == s[..i] + [s[i]];
    ValSnoc(s[..i], s[i]);
  }

  lemma ScaleSum(c: int, v: int, w: int, p: int)
    ensures c * (v + w * p) == c * v + w * (c * p)
  {
    Distribute(c, v, w * p);
    MulAssoc(c, w, p);
    MulAssoc(w, c, p);
  }

  lemma {:induction false} ValConcat(s: seq<Word>, t: seq<Word>)
    ensures Val(s + t) == Val(s) + Pow(BASE, |s|) * Val(t)
  {
    if t == [] {
      assert s + t == s;
    } else {
      var l := t[..|t| - 1];
      assert s + t == (s + l) + [t[|t| - 1]];
      assert t == l + [t[|t| - 1]];
      ValSnoc(s + l, t[|t| - 1]);
      ValConcat(s, l);
      ValSnoc(l, t[|t| - 1]);
      PowAdd(BASE, |s|, |l|);
      ScaleSum(Pow(BASE, |s|), Val(l), t[|t| - 1], Pow(BASE, |l|));
    }
  }

  lemma {:induction false} ValZeros(s: seq<Word>)
    requires forall k :: 0 <= k < |s| ==> s[k] == 0
    ensures Val(s) == 0
  {
    if s != [] {
      ValZeros(s[1..]);
    }
  }

  lemma {:induction false} ValBound(s: seq<Word>)
    ensures Val(s) < Pow(BASE, |s|)
  {
    if s != [] {
      ValBound(s[1..]);
      MulLe(Val(s[1..]) + 1, Pow(BASE, |s| - 1), BASE);
    }
  }

  /** A non-zero top word puts the value in the top interval of its length. */
  lemma ValTop(s: seq<Word>)
    requires s != [] && s[|s| - 1] != 0
    ensures Pow(BASE, |s| - 1) <= Val(s) < Pow(BASE, |s|)
  {
    var n := |s| - 1;
    ValTake(s, n);
    assert s[..n + 1] == s;
    ValBound(s);
    MulLe(1, s[n], Pow(BASE, n));
  }
}
