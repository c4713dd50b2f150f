/** Division by constants through multiplication, and trailing-zero removal through modular inverses. */
module Magic {
  import opened Common
  import opened Words
  import opened WordSteps
  import opened WideMultiply

  /** Multiplying by m, a little over p/d, and dropping the fraction divides by d exactly when
      the accumulated excess stays below the distance to the next multiple. */
  lemma MagicQuotient(n: nat, d: nat, m: nat, p: nat, excess: nat)
    requires d > 0 && p > 0 && m * d == p + excess
    ensures n * m / p == n / d <==> n * excess < (d - n % d) * p
  {
    var q, r := n / d, n % d;
    assert n == q * d + r;
    MagicScale(n, d, m, p, excess, q, r);
    DistributeRight(d - r, r, p);
    if n * excess < (d - r) * p {
      assert (n * m) * d < (q * p) * d + p * d;
      DistributeRight(q * p, p, d);
      QuotientBounds(n * m, p, q, d);
    } else if n * m / p == q {
      MagicOver(n * m, p, q, d, r * p + n * excess);
    }
  }

  lemma MagicScale(n: nat, d: nat, m: nat, p: nat, excess: nat, q: nat, r: nat)
    requires m * d == p + excess && n == q * d + r
    ensures (n * m) * d == (q * p) * d + r * p + n * excess
  {
    MulAssoc(n, m, d);
    Distribute(n, p, excess);
    DistributeRight(q * d, r, p);
    MulAssoc(q, d, p);
    MulAssoc(q, p, d);
  }

  lemma QuotientBounds(x: nat, p: nat, q: nat, d: nat)
    requires d > 0 && p > 0 && (q * p) * d <= x * d < (q * p + p) * d
    ensures x / p == q
  {
    if x < q * p { MulLess(x, q * p, d); }
    if x >= q * p + p { MulLe(q * p + p, x, d); }
    ModUnique(x, p, q, x - q * p);
  }

  lemma DivAtLeast(x: nat, p: nat, q: nat)
    requires p > 0 && x >= q * p
    ensures x / p >= q
  {
    var t, r := x / p, x % p;
    assert x == t * p + r;
    if t < q {
      MulLe(t + 1, q, p);
      DistributeRight(t, 1, p);
    }
  }

  lemma MagicOver(x: nat, p: nat, q: nat, d: nat, over: nat)
    requires d > 0 && p > 0 && x * d == (q * p) * d + over && over >= d * p
    ensures x / p != q
  {
    DistributeRight(q * p, p, d);
    assert x >= q * p + p by {
      if x < q * p + p {
        MulLess(x, q * p + p, d);
      }
    }
    DivAtLeast(x, p, q + 1);
  }

  /** floor(n / 100) for 32-bit n. */
  function DivideBy100(n: Word): nat {
    n * 1374389535 / 0x20_0000_0000
  }

  lemma DivideBy100Exact(n: Word)
    ensures DivideBy100(n) == n / 100
  {
    MagicQuotient(n, 100, 1374389535, 0x20_0000_0000, 28);
  }

  /** floor(n / 1000) for 64-bit n: the upper product half shifted by seven bits. */
  function DivideBy1000(n: Word64): nat {
    UMul128Upper(n, 2361183241434822607) / 128
  }

  /** The 64-bit division is right exactly up to the excess of its multiplier; all n with 152 n < 2^71 qualify. */
  lemma DivideBy1000Exact(n: Word64)
    ensures DivideBy1000(n) == n / 1000 <==> 152 * n < (1000 - n % 1000) * 0x80_0000_0000_0000_0000
    ensures 152 * n < 0x80_0000_0000_0000_0000 ==> DivideBy1000(n) == n / 1000
  {
    UMul128Exact(n, 2361183241434822607);
    DivDiv(n * 2361183241434822607, TWO64, 128);
    MagicQuotient(n, 1000, 2361183241434822607, 0x80_0000_0000_0000_0000, 152);
  }

  /** One less than a multiple of 1000, past the bound: the quotient is wrong. */
  lemma DivideBy1000Example()
    ensures DivideBy1000(15534100272597517999) != 15534100272597517999 / 1000
  {
    DivideBy1000Exact(15534100272597517999);
  }

  lemma DivDiv(x: nat, a: nat, b: nat)
    requires a > 0 && b > 0
    ensures a * b > 0 && x / a / b == x / (a * b)
  {
    PositiveMul(a, b);
    var q, r := x / a, x % a;
    var q2, r2 := q / b, q % b;
    assert x == (q2 * b + r2) * a + r;
    DistributeRight(q2 * b, r2, a);
    MulAssoc(q2, b, a);
    MulLe(r2 + 1, b, a);
    DistributeRight(r2, 1, a);
    ModUnique(x, a * b, q2, r2 * a + r);
  }

  lemma PositiveMul(a: nat, b: nat)
    requires a > 0 && b > 0
    ensures a * b > 0
  {
  }

  /** Rotation right by `r` bits of a number below `m`: the low bits, worth less than `low`, move to the top. */
  function Rotr(n: nat, m: nat, low: nat): nat
    requires low > 0
  {
    n / low + (n % low) * (m / low)
  }

  /** Multiplication by the inverse of `odd` modulo `m`, then rotation by the factor `low`: the result is small
      exactly for multiples of odd * low, and it is then the quotient. */
  lemma RotatedQuotient(n: nat, m: nat, inverse: nat, odd: nat, low: nat, k: nat)
    requires 0 < n < m && odd > 1 && low > 1 && m % low == 0 && odd * inverse == k * m + 1
    ensures odd * low > 0
    ensures n % (odd * low) == 0
        ==> Rotr(n * inverse % m, m, low) == n / (odd * low) <= (m - 1) / (odd * low)
    ensures n % (odd * low) != 0 ==> Rotr(n * inverse % m, m, low) > (m - 1) / (odd * low)
  {
    PositiveMul(odd, low);
    var d := odd * low;
    var q := n / d;
    assert n == q * d + n % d;
    if n % d == 0 {
      MultipleRotated(n, m, inverse, odd, low, k, q);
      QuotientLimit(q, d, n, m);
    } else {
      InverseResidue(n, m, inverse, odd, k);
      var a := n * inverse % m;
      if Rotr(a, m, low) <= (m - 1) / d {
        SmallRotated(n, m, odd, low, a, Rotr(a, m, low));
        ModUnique(n, d, Rotr(a, m, low), 0);
      }
    }
  }

  lemma QuotientLimit(q: nat, d: nat, n: nat, m: nat)
    requires d > 0 && n == q * d && n < m
    ensures q <= (m - 1) / d
  {
    var l, r := (m - 1) / d, (m - 1) % d;
    assert m - 1 == l * d + r;
    if q > l {
      MulLe(l + 1, q, d);
      DistributeRight(l, 1, d);
    }
  }

  /** odd * (n * inverse mod m) is n modulo m. */
  lemma InverseResidue(n: nat, m: nat, inverse: nat, odd: nat, k: nat)
    requires n < m && odd * inverse == k * m + 1
    ensures (odd * (n * inverse % m)) % m == n
  {
    var x := n * inverse;
    var q, a := x / m, x % m;
    assert x == q * m + a;
    InverseScale(n, m, inverse, odd, k, q, a);
    ModUnique(odd * a, m, k * n - odd * q, n);
  }

  lemma InverseScale(n: nat, m: nat, inverse: nat, odd: nat, k: nat, q: nat, a: nat)
    requires odd * inverse == k * m + 1 && n * inverse == q * m + a
    ensures odd * a == (k * n - odd * q) * m + n
  {
    MulAssoc(odd, inverse, n);
    DistributeRight(k * m, 1, n);
    MulAssoc(k, m, n);
    MulAssoc(k, n, m);
    Distribute(odd, q * m, a);
    MulAssoc(odd, q, m);
    SubtractProduct(k * n, odd * q, m);
  }

  lemma MultipleRotated(n: nat, m: nat, inverse: nat, odd: nat, low: nat, k: nat, q: nat)
    requires 0 < n < m && odd > 1 && low > 1 && odd * inverse == k * m + 1 && n == q * (odd * low)
    ensures Rotr(n * inverse % m, m, low) == q
  {
    var a := q * low;
    assert n * inverse == (a * k) * m + a by {
      MulSwap(q, odd, low, inverse);
      MulAssoc(q, odd, low);
      MulAssoc(q, low, odd);
      MulAssoc(a, odd, inverse);
      Distribute(a, k * m, 1);
      MulAssoc(a, k, m);
    }
    assert a < m by {
      MulAssoc(q, odd, low);
      MulAssoc(odd, q, low);
      MulLe(1, odd, a);
      MulAssoc(odd, q, low);
    }
    ModUnique(n * inverse, m, a * k, a);
    ModUnique(a, low, q, 0);
  }

  /** A small rotated number had no low bits to move. */
  lemma SmallRotated(n: nat, m: nat, odd: nat, low: nat, a: nat, q: nat)
    requires n < m && odd > 1 && low > 1 && m % low == 0 && odd * low > 0
    requires (odd * a) % m == n && q == Rotr(a, m, low) && q <= (m - 1) / (odd * low)
    ensures n == q * (odd * low)
  {
    BelowLimit(q, odd * low, m);
    QuotientParts(a, low);
    QuotientParts(m, low);
    SmallParts(n, m, odd, low, a, q, a / low, a % low, m / low);
  }

  lemma QuotientParts(a: nat, b: nat)
    requires b > 0
    ensures a == a / b * b + a % b
  {
  }

  lemma SmallParts(n: nat, m: nat, odd: nat, low: nat, a: nat, q: nat, h: nat, l: nat, part: nat)
    requires n < m && odd > 1 && low > 0 && (odd * a) % m == n && q * (odd * low) < m
    requires a == h * low + l && m == part * low && q == h + l * part
    ensures n == q * (odd * low)
  {
    NoLowBits(m, part, odd, low, h, l, q);
    Unmoved(n, m, odd, low, a, q);
  }

  lemma NoLowBits(m: nat, part: nat, odd: nat, low: nat, h: nat, l: nat, q: nat)
    requires m == part * low && odd > 1 && q == h + l * part && q * (odd * low) < m
    ensures l == 0
  {
    if l > 0 {
      MulLe(1, l, part);
      TopBits(part, low, odd, m, q);
      assert false;
    }
  }

  /** Without low bits the rotated number is the quotient. */
  lemma Unmoved(n: nat, m: nat, odd: nat, low: nat, a: nat, q: nat)
    requires n < m && low > 0 && a == q * low && (odd * a) % m == n && q * (odd * low) < m
    ensures n == q * (odd * low)
  {
    OddProduct(q, odd, low);
    ModUnique(odd * a, m, 0, q * (odd * low));
  }

  lemma OddProduct(q: nat, odd: nat, low: nat)
    ensures odd * (q * low) == q * (odd * low)
  {
    MulAssoc(q, odd, low);
    MulAssoc(odd, q, low);
  }

  lemma BelowLimit(q: nat, d: nat, m: nat)
    requires d > 0 && m > 0 && q <= (m - 1) / d
    ensures q * d < m
  {
    var t, r := (m - 1) / d, (m - 1) % d;
    assert m - 1 == t * d + r;
    MulLe(q, t, d);
  }

  /** Any bit moved to the top makes the number large. */
  lemma TopBits(part: nat, low: nat, odd: nat, m: nat, q: nat)
    requires m == part * low && odd > 1 && q >= part
    ensures q * (odd * low) >= m
  {
    MulLe(part, q, odd * low);
    MulAssoc(part, low, odd);
    MulLe(1, odd, m);
  }

  /** 10 does not divide `n`. */
  predicate NoTrailingZero(n: nat) {
    n % 10 != 0
  }

  /** n * inverse mod 2^32, rotated: n / 100 when 100 divides n, otherwise above every such quotient. */
  method Hundredth32(n: Word) returns (q: Word)
    requires n > 0
    ensures if n % 100 == 0 then n == q * 100 && q <= (BASE - 1) / 100 else q > (BASE - 1) / 100
  {
    RotatedQuotient(n, BASE, 0xc28f5c29, 25, 4, 19);
    RotrBound(n * 0xc28f5c29 % BASE, BASE, 4);
    q := Rotr(n * 0xc28f5c29 % BASE, BASE, 4);
  }

  method Tenth32(n: Word) returns (q: Word)
    requires n > 0
    ensures if n % 10 == 0 then n == q * 10 && q <= (BASE - 1) / 10 else q > (BASE - 1) / 10
  {
    RotatedQuotient(n, BASE, 0xcccccccd, 5, 2, 4);
    RotrBound(n * 0xcccccccd % BASE, BASE, 2);
    q := Rotr(n * 0xcccccccd % BASE, BASE, 2);
  }

  method Hundredth64(n: Word64) returns (q: Word64)
    requires n > 0
    ensures if n % 100 == 0 then n == q * 100 && q <= (TWO64 - 1) / 100 else q > (TWO64 - 1) / 100
  {
    RotatedQuotient(n, TWO64, 0x8f5c28f5c28f5c29, 25, 4, 14);
    RotrBound(n * 0x8f5c28f5c28f5c29 % TWO64, TWO64, 4);
    q := Rotr(n * 0x8f5c28f5c28f5c29 % TWO64, TWO64, 4);
  }

  method Tenth64(n: Word64) returns (q: Word64)
    requires n > 0
    ensures if n % 10 == 0 then n == q * 10 && q <= (TWO64 - 1) / 10 else q > (TWO64 - 1) / 10
  {
    RotatedQuotient(n, TWO64, 0xcccccccccccccccd, 5, 2, 4);
    RotrBound(n * 0xcccccccccccccccd % TWO64, TWO64, 2);
    q := Rotr(n * 0xcccccccccccccccd % TWO64, TWO64, 2);
  }

  lemma RotrBound(n: nat, m: nat, low: nat)
    requires n < m && low > 0 && m % low == 0
    ensures 0 <= Rotr(n, m, low) < m
  {
    var part := m / low;
    assert m == part * low;
    DivBound(n, low, part);
    MulLe(n % low + 1, low, part);
    DistributeRight(n % low, 1, part);
  }

  /** Removes the trailing zeros of a 32-bit number, counting them on top of `s0`. */
  method RemoveTrailingZeros32(n0: Word, s0: nat) returns (n: Word, s: nat)
    requires n0 > 0 && s0 % 2 == 0
    ensures n > 0 && NoTrailingZero(n) && s >= s0 && n0 == n * Pow(10, s - s0)
  {
    ghost var rounds;
    n, s, rounds := RemoveHundreds32(n0, s0);
    var q := Tenth32(n);
    if q <= (BASE - 1) / 10 {
      ZerosStep(n, q, 1, s - s0);
      NotHundred(n, q);
      n := q;
      s := OrOne(s);
    }
  }

  /** Two zeros per round, as long as there are two. */
  method RemoveHundreds32(n0: Word, s0: nat) returns (n: Word, s: nat, ghost rounds: nat)
    requires n0 > 0
    ensures n > 0 && n % 100 != 0 && s == s0 + 2 * rounds && n0 == n * Pow(10, 2 * rounds)
  {
    n, s, rounds := n0, s0, 0;
    while true
      invariant n > 0 && s == s0 + 2 * rounds && n0 == n * Pow(10, 2 * rounds)
      decreases n
    {
      var q, more := RemoveHundred32(n0, n, 2 * rounds);
      if !more {
        return;
      }
      n, s, rounds := q, s + 2, rounds + 1;
    }
  }

  /** One round: two more zeros, if there are two. */
  method RemoveHundred32(ghost n0: nat, n: Word, ghost zeros: nat) returns (q: Word, more: bool)
    requires n > 0 && n0 == n * Pow(10, zeros)
    ensures if more then 0 < q < n && n0 == q * Pow(10, zeros + 2) else n % 100 != 0
  {
    q := Hundredth32(n);
    more := q <= (BASE - 1) / 100;
    if more {
      ZerosStep(n, q, 2, zeros);
    }
  }

  lemma ZerosStep(n: nat, q: nat, zeros: nat, s: nat)
    requires 1 <= zeros <= 2 && n == q * (if zeros == 2 then 100 else 10)
    ensures n * Pow(10, s) == q * Pow(10, s + zeros)
  {
    assert Pow(10, s + zeros) == (if zeros == 2 then 100 else 10) * Pow(10, s) by {
      if zeros == 2 { assert Pow(10, s + 2) == 10 * Pow(10, s + 1); }
    }
    MulAssoc(q, if zeros == 2 then 100 else 10, Pow(10, s));
  }

  lemma NotHundred(n: nat, q: nat)
    requires n == q * 10 && n % 100 != 0
    ensures q % 10 != 0
  {
    if q % 10 == 0 {
      ModUnique(n, 100, q / 10, 0);
    }
  }

  /** The 64-bit version; multiples of 10^8 go through the 32-bit one, which a quotient of 2^32 or more does not fit. */
  method RemoveTrailingZeros64(n0: Word64) returns (n: Word64, s: nat)
    requires n0 > 0 && (n0 % 100000000 == 0 ==> n0 / 100000000 % BASE != 0)
    ensures n > 0 && NoTrailingZero(n)
    ensures n0 == n * Pow(10, s) <==> n0 % 100000000 != 0 || n0 < BASE * 100000000
  {
    if n0 % 100000000 == 0 {
      var n32: Word := n0 / 100000000 % BASE;
      n, s := RemoveTrailingZeros32(n32, 8);
      EightZeros(n0, n, s);
    } else {
      n, s := RemoveSmall64(n0);
    }
  }

  /** A multiple of 10^8 whose quotient needs 33 bits: number and zeros found do not make it up. */
  method RemoveTrailingZeros64Example() returns (n: Word64, s: nat)
    ensures 429496729700000000 == (BASE + 1) * 100000000
    ensures 429496729700000000 != n * Pow(10, s)
  {
    n, s := RemoveTrailingZeros64(429496729700000000);
  }

  lemma EightZeros(n0: Word64, n: nat, s: nat)
    requires n0 % 100000000 == 0 && s >= 8 && n0 / 100000000 % BASE == n * Pow(10, s - 8)
    ensures n0 == n * Pow(10, s) <==> n0 < BASE * 100000000
  {
    assert Pow(10, 8) == 100000000;
    PowAdd(10, s - 8, 8);
    MulAssoc(n, Pow(10, s - 8), Pow(10, 8));
    WordQuotient(n0, n * Pow(10, s), n0 / 100000000);
  }

  lemma WordQuotient(n0: nat, x: nat, q: nat)
    requires n0 == q * 100000000 && x == (q % BASE) * 100000000
    ensures n0 == x <==> n0 < BASE * 100000000
  {
  }

  method RemoveSmall64(n0: Word64) returns (n: Word64, s: nat)
    requires n0 > 0
    ensures n > 0 && NoTrailingZero(n) && n0 == n * Pow(10, s)
  {
    n, s := n0, 0;
    while true
      invariant n > 0 && s % 2 == 0 && n0 == n * Pow(10, s)
      decreases n
    {
      var q := Hundredth64(n);
      if q > (TWO64 - 1) / 100 {
        break;
      }
      ZerosStep(n, q, 2, s);
      n := q;
      s := s + 2;
    }
    var q := Tenth64(n);
    if q <= (TWO64 - 1) / 10 {
      ZerosStep(n, q, 1, s);
      NotHundred(n, q);
      n := q;
      s := OrOne(s);
    }
  }
}
