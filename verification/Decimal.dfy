/** Decimal texts and the numbers they denote. */
module Decimal {
  import opened Words
  import opened WordSteps

  const OVERFLOW: char := ':' // one past '9': a digit of value ten waiting to carry

  predicate IsDigit(c: char) {
    '0' <= c <= '9'
  }

  predicate AllDigits(s: seq<char>) {
    forall i :: 0 <= i < |s| ==> IsDigit(s[i])
  }

  function DigitValue(c: char): int {
    c as int - '0' as int
  }

  function DigitChar(d: nat): (c: char)
    requires d <= 10
    ensures DigitValue(c) == d && (d < 10 <==> IsDigit(c))
  {
    ('0' as int + d) as char
  }

  /** Reads a text as a decimal number; OVERFLOW counts ten. */
  function Number(s: seq<char>): int {
    if s == [] then 0 else 10 * Number(s[..|s| - 1]) + DigitValue(s[|s| - 1])
  }

  lemma NumberSnoc(s: seq<char>, c: char)
    ensures Number(s + [c]) == 10 * Number(s) + DigitValue(c)
  {
    assert (s + [c])[..|s|] == s;
  }

  lemma {:induction false} NumberConcat(s: seq<char>, t: seq<char>)
    ensures Number(s + t) == Number(s) * Pow(10, |t|) + Number(t)
  {
    if t == [] {
      assert s + t == s;
    } else {
      var l := t[..|t| - 1];
      assert (s + t)[..|s + t| - 1] == s + l;
      NumberConcat(s, l);
      ScaleNumber(Number(s), Pow(10, |l|));
    }
  }

  lemma ScaleNumber(a: int, p: int)
    ensures 10 * (a * p) == a * (10 * p)
  {
  }

  lemma {:induction false} NumberBound(s: seq<char>)
    requires AllDigits(s)
    ensures 0 <= Number(s) < Pow(10, |s|)
    ensures s != [] && s[0] != '0' ==> Number(s) >= Pow(10, |s| - 1)
    ensures s != [] && s[0] == '0' ==> Number(s) < Pow(10, |s| - 1)
  {
    if |s| == 1 {
      assert s[..0] == [];
      assert Number([]) == 0;
    } else if s != [] {
      NumberBound(s[..|s| - 1]);
    }
  }

  lemma {:induction false} NumberZeros(s: seq<char>)
    requires forall i :: 0 <= i < |s| ==> s[i] == '0'
    ensures Number(s) == 0
  {
    if s != [] {
      NumberZeros(s[..|s| - 1]);
    }
  }

  lemma TenUnique(x: int, a: int, y: int, b: int)
    requires 0 <= a < 10 && 0 <= b < 10 && 10 * x + a == 10 * y + b
    ensures x == y && a == b
  {
  }

  /** A text of given length is determined by its number. */
  lemma {:induction false} NumberInjective(s: seq<char>, t: seq<char>)
    requires |s| == |t| && AllDigits(s) && AllDigits(t) && Number(s) == Number(t)
    ensures s == t
  {
    if s != [] {
      var n := |s| - 1;
      TenUnique(Number(s[..n]), DigitValue(s[n]), Number(t[..n]), DigitValue(t[n]));
      NumberInjective(s[..n], t[..n]);
      assert s == s[..n] + [s[n]];
      assert t == t[..n] + [t[n]];
    }
  }

  /** Moving a ten one place up keeps the number. */
  lemma {:induction false} CarryMove(s: seq<char>, i: nat, c: char)
    requires 0 < i < |s| && s[i] == OVERFLOW && DigitValue(c) == DigitValue(s[i - 1]) + 1
    ensures Number(s[i := '0'][i - 1 := c]) == Number(s)
  {
    var n := |s| - 1;
    var t := s[i := '0'][i - 1 := c];
    if i < n {
      CarryMove(s[..n], i, c);
      assert t[..n] == s[..n][i := '0'][i - 1 := c];
    } else {
      assert t[..n][..n - 1] == s[..n][..n - 1];
      assert t[..n][n - 1] == c;
      assert s[..n][n - 1] == s[n - 1];
    }
  }

  /** The carry loop after rounding up the last digit. */
  method PropagateCarry(buf: seq<char>) returns (out: seq<char>)
    requires buf != [] && AllDigits(buf[..|buf| - 1]) && '0' <= buf[|buf| - 1] <= OVERFLOW
    ensures |out| == |buf| && Number(out) == Number(buf)
    ensures '0' <= out[0] <= OVERFLOW && AllDigits(out[1..])
    ensures out[0] == OVERFLOW ==> forall k :: 0 < k < |out| ==> out[k] == '0'
  {
    out := buf;
    var i := |out| - 1;
    while i > 0 && out[i] == OVERFLOW
      invariant 0 <= i < |out| == |buf| && Number(out) == Number(buf)
      invariant out[..i] == buf[..i] && AllDigits(out[..i])
      invariant '0' <= out[i] <= OVERFLOW
      invariant forall k :: i < k < |out| ==> out[k] == '0'
    {
      assert out[i - 1] == out[..i][i - 1];
      var c := DigitChar((DigitValue(out[i - 1]) + 1) as nat);
      CarryMove(out, i, c);
      out := out[i := '0'][i - 1 := c];
      i := i - 1;
    }
    forall k | 0 < k < |out| ensures IsDigit(out[k]) {
      if k < i {
        assert out[k] == out[..i][k];
      }
    }
  }

  /** An overflow that has reached the front stands for a power of ten. */
  lemma FrontOverflow(s: seq<char>)
    requires s != [] && s[0] == OVERFLOW && forall k :: 0 < k < |s| ==> s[k] == '0'
    ensures Number(s) == Pow(10, |s|)
    ensures Number(s[0 := '1']) == Pow(10, |s| - 1) && AllDigits(s[0 := '1'])
  {
    FrontNumber(s);
    FrontNumber(s[0 := '1']);
    NumberZeros(s[1..]);
    assert s[0 := '1'][1..] == s[1..];
  }

  lemma FrontNumber(s: seq<char>)
    requires s != []
    ensures Number(s) == DigitValue(s[0]) * Pow(10, |s| - 1) + Number(s[1..])
  {
    assert s == [s[0]] + s[1..];
    NumberConcat([s[0]], s[1..]);
    assert Number([s[0]]) == DigitValue(s[0]) by {
      assert [s[0]][..0] == [];
    }
  }
}
