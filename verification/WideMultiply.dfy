/** 64- and 128-bit products assembled from 32- and 64-bit halves. */
module WideMultiply {
  import opened Words
  import opened WordSteps

  const TWO64: nat := 0x1_0000_0000_0000_0000
  const TWO128: nat := 0x1_0000_0000_0000_0000_0000_0000_0000_0000

  type Word64 = x: int | 0 <= x < 0x1_0000_0000_0000_0000

  /** A 128-bit number as two 64-bit halves. */
  datatype Wide = Wide(high: Word64, low: Word64)

  function Total(w: Wide): nat {
    w.high * TWO64 + w.low
  }

  /** Unsigned 64-bit arithmetic wraps. */
  function Wrap(x: int): Word64 {
    x % TWO64
  }

  /** The portable 64 x 64 multiply: four 32-bit products, carries through an intermediate word. */
  function UMul128(x: Word64, y: Word64): Wide {
    var a: Word, b: Word := x / BASE, x % BASE;
    var c: Word, d: Word := y / BASE, y % BASE;
    Join(Wrap(a * c), Wrap(b * c), Wrap(a * d), Wrap(b * d))
  }

  function Join(ac: Word64, bc: Word64, ad: Word64, bd: Word64): Wide {
    var mid := Wrap(bd / BASE + ad % BASE + bc % BASE);
    Wide(Wrap(ac + mid / BASE + ad / BASE + bc / BASE), Wrap(Wrap(mid * BASE) + bd % BASE))
  }

  /** The upper half of a 64 x 64 product. */
  function UMul128Upper(x: Word64, y: Word64): Word64 {
    UMul128(x, y).high
  }

  /** Addition of a 64-bit number into 128 bits, with the carry into the upper half. */
  function AddWord(w: Wide, n: Word64): Wide {
    var low := Wrap(w.low + n);
    Wide(Wrap(w.high + if low < n then 1 else 0), low)
  }

  /** The upper 128 bits of a 64 x 128 product. */
  function UMul192Upper(x: Word64, y: Wide): Wide {
    AddWord(UMul128(x, y.high), UMul128Upper(x, y.low))
  }

  /** The lower 128 bits of a 64 x 128 product. */
  function UMul192Lower(x: Word64, y: Wide): Wide {
    LowerOf(x * y.high, UMul128(x, y.low))
  }

  /** The lower product in two words, plus the low word of the upper product one word up. */
  function LowerOf(upper: nat, p: Wide): Wide {
    Wide(Wrap(Wrap(upper) + p.high), p.low)
  }

  /** A 128-bit number below 2^64 times a 32-bit one, as the fallback type computes it. */
  function FallbackTimes(w: Word64, n: Word): Wide {
    FallbackJoin(Wrap((w / BASE) * n), Wrap((w % BASE) * n))
  }

  function FallbackJoin(hi: Word64, lo: Word64): Wide {
    var newLow := Wrap(Wrap(hi * BASE) + lo);
    Wide(Wrap(hi / BASE + if newLow < lo then 1 else 0), newLow)
  }

  lemma WordSquare(a: Word, b: Word)
    ensures 0 <= a * b <= (BASE - 1) * (BASE - 1)
  {
    MulLe(a, BASE - 1, b);
    MulLe(b, BASE - 1, BASE - 1);
  }

  /** The four products, weighted, are the whole product. */
  lemma CrossProducts(a: nat, b: nat, c: nat, d: nat)
    ensures (a * BASE + b) * (c * BASE + d) == (a * c) * TWO64 + (b * c + a * d) * BASE + b * d
  {
    DistributeRight(a * BASE, b, c * BASE + d);
    Distribute(a * BASE, c * BASE, d);
    Distribute(b, c * BASE, d);
    MulSwap(a, BASE, c, BASE);
    MulAssoc(a, BASE, d);
    MulAssoc(b, c, BASE);
  }

  /** Carrying through the intermediate word loses nothing and overflows nowhere. */
  lemma JoinExact(ac: Word64, bc: Word64, ad: Word64, bd: Word64)
    requires ac <= (BASE - 1) * (BASE - 1) && bc <= (BASE - 1) * (BASE - 1)
    requires ad <= (BASE - 1) * (BASE - 1) && bd <= (BASE - 1) * (BASE - 1)
    ensures Total(Join(ac, bc, ad, bd)) == ac * TWO64 + (bc + ad) * BASE + bd
  {
    var mid := bd / BASE + ad % BASE + bc % BASE;
    ModUnique(mid * BASE, TWO64, mid / BASE, (mid % BASE) * BASE);
    JoinParts(ac, bc / BASE, bc % BASE, ad / BASE, ad % BASE, bd / BASE, bd % BASE, mid / BASE, mid % BASE);
    ModSmall(mid, TWO64);
    ModSmall(ac + mid / BASE + ad / BASE + bc / BASE, TWO64);
    ModSmall((mid % BASE) * BASE + bd % BASE, TWO64);
  }

  lemma JoinParts(ac: nat, bc1: nat, bc0: Word, ad1: nat, ad0: Word, bd1: nat, bd0: Word, mid1: nat, mid0: Word)
    requires ac <= (BASE - 1) * (BASE - 1) && bc1 < BASE - 1 && ad1 < BASE - 1 && bd1 < BASE - 1
    requires mid1 * BASE + mid0 == bd1 + ad0 + bc0
    ensures mid1 * BASE + mid0 < TWO64 && ac + mid1 + ad1 + bc1 < TWO64 && mid0 * BASE + bd0 < TWO64
    ensures (ac + mid1 + ad1 + bc1) * TWO64 + mid0 * BASE + bd0
         == ac * TWO64 + (bc1 * BASE + bc0 + ad1 * BASE + ad0) * BASE + bd1 * BASE + bd0
  {
  }

  lemma HalfProduct(a: Word, b: Word)
    ensures Wrap(a * b) == a * b <= (BASE - 1) * (BASE - 1)
  {
    WordSquare(a, b);
    ModSmall(a * b, TWO64);
  }

  /** The portable multiply is the product. */
  lemma UMul128Exact(x: Word64, y: Word64)
    ensures Total(UMul128(x, y)) == x * y
    ensures UMul128Upper(x, y) == x * y / TWO64
  {
    var a: Word, b: Word := x / BASE, x % BASE;
    var c: Word, d: Word := y / BASE, y % BASE;
    HalfProduct(a, c);
    HalfProduct(b, c);
    HalfProduct(a, d);
    HalfProduct(b, d);
    CrossProducts(a, b, c, d);
    JoinExact(Wrap(a * c), Wrap(b * c), Wrap(a * d), Wrap(b * d));
    var w := UMul128(x, y);
    ModUnique(x * y, TWO64, w.high, w.low);
  }

  lemma WideProduct(x: Word64, y: Word64)
    ensures 0 <= x * y <= (TWO64 - 1) * (TWO64 - 1)
  {
    MulLe(x, TWO64 - 1, y);
    MulLe(y, TWO64 - 1, TWO64 - 1);
  }

  lemma AddWordExact(w: Wide, n: Word64)
    requires Total(w) + n < TWO128
    ensures Total(AddWord(w, n)) == Total(w) + n
  {
  }

  /** The upper half of a 64 x 128 product is its floor over 2^64; nothing overflows. */
  lemma UMul192UpperExact(x: Word64, y: Wide)
    ensures Total(UMul192Upper(x, y)) == x * Total(y) / TWO64
  {
    UMul128Exact(x, y.high);
    UMul128Exact(x, y.low);
    WideProduct(x, y.high);
    AddWordExact(UMul128(x, y.high), UMul128Upper(x, y.low));
    Distribute(x, y.high * TWO64, y.low);
    MulAssoc(x, y.high, TWO64);
    ModUnique(x * Total(y), TWO64, x * y.high + x * y.low / TWO64, x * y.low % TWO64);
  }

  /** The lower half is the product modulo 2^128. */
  lemma UMul192LowerExact(x: Word64, y: Wide)
    ensures Total(UMul192Lower(x, y)) == x * Total(y) % TWO128
  {
    UMul128Exact(x, y.low);
    LowerTotal(x, y, UMul128(x, y.low));
  }

  lemma LowerTotal(x: Word64, y: Wide, p: Wide)
    requires Total(p) == x * y.low
    ensures Total(LowerOf(x * y.high, p)) == x * Total(y) % TWO128
  {
    Distribute(x, y.high * TWO64, y.low);
    MulAssoc(x, y.high, TWO64);
    LowerWords(x * Total(y), x * y.high, p.high, p.low);
  }

  /** The lower two words of a sum of a shifted product and a two-word number. */
  lemma LowerWords(n: nat, q: nat, high: Word64, low: Word64)
    requires n == q * TWO64 + (high * TWO64 + low)
    ensures n % TWO128 == ((q % TWO64 + high) % TWO64) * TWO64 + low
  {
    var s := q % TWO64 + high;
    ModUnique(n, TWO128, q / TWO64 + s / TWO64, (s % TWO64) * TWO64 + low);
  }

  /** The fallback product is exact. */
  lemma FallbackTimesExact(w: Word64, n: Word)
    ensures Total(FallbackTimes(w, n)) == w * n
  {
    var h: Word, l: Word := w / BASE, w % BASE;
    HalfProduct(h, n);
    HalfProduct(l, n);
    DistributeRight(h * BASE, l, n);
    MulAssoc(h, BASE, n);
    MulAssoc(BASE, h, n);
    FallbackJoinExact(Wrap(h * n), Wrap(l * n));
  }

  lemma FallbackJoinExact(hi: Word64, lo: Word64)
    requires hi <= (BASE - 1) * (BASE - 1)
    ensures Total(FallbackJoin(hi, lo)) == hi * BASE + lo
  {
    ModUnique(hi * BASE, TWO64, hi / BASE, (hi % BASE) * BASE);
  }
}
