/** UTF-16 points (RFC 2781 section 2), their UTF-8 bytes, and the bit arithmetic between them. */
module Utf16 {
  import opened Common
  import opened Utf8

  type CodeUnit = bv16

  predicate IsHigh(u: CodeUnit) {
    0xd800 <= u <= 0xdbff
  }

  predicate IsLow(u: CodeUnit) {
    0xdc00 <= u <= 0xdfff
  }

  /** What a reader of UTF-16 takes off the front: a unit outside the surrogates, a surrogate pair,
      or a surrogate without its partner. */
  datatype Point = Basic(u: CodeUnit) | Pair(hi: CodeUnit, lo: CodeUnit) | Lone(u: CodeUnit)

  predicate Proper(p: Point) {
    match p
    case Basic(u) => !IsHigh(u) && !IsLow(u)
    case Pair(hi, lo) => IsHigh(hi) && IsLow(lo)
    case Lone(_) => false
  }

  function Points(s: seq<CodeUnit>): seq<Point> {
    if s == [] then []
    else if !IsHigh(s[0]) && !IsLow(s[0]) then [Basic(s[0])] + Points(s[1..])
    else if IsHigh(s[0]) && |s| >= 2 && IsLow(s[1]) then [Pair(s[0], s[1])] + Points(s[2..])
    else [Lone(s[0])] + Points(s[1..])
  }

  predicate WellFormed16(s: seq<CodeUnit>) {
    forall p :: p in Points(s) ==> !p.Lone?
  }

  /** The code point of a surrogate pair. */
  function PairPoint(hi: CodeUnit, lo: CodeUnit): bv32 {
    0x10000 + (((hi as bv32 & 0x3ff) << 10) | (lo as bv32 & 0x3ff))
  }

  /** The code point meant, U+FFFD for a lone surrogate. */
  function Value(p: Point): bv32 {
    match p
    case Basic(u) => u as bv32
    case Pair(hi, lo) => PairPoint(hi, lo)
    case Lone(_) => 0xFFFD
  }

  function Values(ps: seq<Point>): seq<bv32> {
    if ps == [] then [] else [Value(ps[0])] + Values(ps[1..])
  }

  function UnitsOf(p: Point): seq<CodeUnit> {
    match p
    case Basic(u) => [u]
    case Pair(hi, lo) => [hi, lo]
    case Lone(u) => [u]
  }

  /** The bytes of one code point. */
  function Encode(c: bv32): seq<Byte> {
    if c < 0x80 then [(c & 0xff) as bv8]
    else if c < 0x800 then [LeadByte(0xc0, c >> 6), TailByte(c & 0x3f)]
    else if c <= 0xffff then [LeadByte(0xe0, c >> 12), TailByte((c & 0xfff) >> 6), TailByte(c & 0x3f)]
    else [LeadByte(0xf0, c >> 18), TailByte((c & 0x3ffff) >> 12), TailByte((c & 0xfff) >> 6), TailByte(c & 0x3f)]
  }

  /** The lead byte of a sequence: the given mark bits above the top bits of the code point. */
  function LeadByte(mark: bv32, bits: bv32): Byte {
    ((mark | bits) & 0xff) as bv8
  }

  function TailByte(bits: bv32): Byte {
    ((0x80 | bits) & 0xff) as bv8
  }

  function EncodeAll(cs: seq<bv32>): seq<Byte> {
    if cs == [] then [] else Encode(cs[0]) + EncodeAll(cs[1..])
  }

  /** The points before the first lone surrogate. */
  function UpToLone(ps: seq<Point>): seq<Point> {
    if ps == [] || ps[0].Lone? then [] else [ps[0]] + UpToLone(ps[1..])
  }

  /** The units of one code point. */
  function Units(c: bv32): seq<CodeUnit> {
    if c <= 0xFFFF then [(c & 0xffff) as bv16]
    else [((0xD800 + ((c - 0x10000) >> 10)) & 0xffff) as bv16, ((0xDC00 + ((c - 0x10000) & 0x3FF)) & 0xffff) as bv16]
  }

  function UnitsAll(cs: seq<bv32>): seq<CodeUnit> {
    if cs == [] then [] else Units(cs[0]) + UnitsAll(cs[1..])
  }

  /** The code points of the views of a text. */
  function CodePoints(s: seq<Byte>): seq<bv32> {
    if s == [] then [] else [ViewAt(s, 0).cp] + CodePoints(s[ViewAt(s, 0).len..])
  }

  predicate WellFormed8(s: seq<Byte>) {
    INVALID !in CodePoints(s)
  }

  lemma TwoBytes(c: bv32, a: Byte, b: Byte)
    requires 0x80 <= c < 0x800
    requires a == ((0xc0 | (c >> 6)) & 0xff) as bv8 && b == ((0x80 | (c & 0x3f)) & 0xff) as bv8
    ensures 0xC2 <= a <= 0xDF && 0x80 <= b <= 0xBF
    ensures ((a as bv32 & 0x1f) << 6) | (b as bv32 & 0x3f) == c
  {
  }

  lemma ThreeBytes(c: bv32, a: Byte, b: Byte, d: Byte)
    requires 0x800 <= c <= 0xD7FF || 0xE000 <= c <= 0xFFFF
    requires a == ((0xe0 | (c >> 12)) & 0xff) as bv8 && b == ((0x80 | ((c & 0xfff) >> 6)) & 0xff) as bv8
    requires d == ((0x80 | (c & 0x3f)) & 0xff) as bv8
    ensures 0xE0 <= a <= 0xEF && 0x80 <= b <= 0xBF && 0x80 <= d <= 0xBF
    ensures (a == 0xE0 ==> b >= 0xA0) && (a == 0xED ==> b <= 0x9F)
    ensures ((a as bv32 & 0x0f) << 12) | ((b as bv32 & 0x3f) << 6) | (d as bv32 & 0x3f) == c
  {
  }

  lemma FourBytes(c: bv32, a: Byte, b: Byte, d: Byte, e: Byte)
    requires 0x10000 <= c <= 0x10FFFF
    requires a == ((0xf0 | (c >> 18)) & 0xff) as bv8 && b == ((0x80 | ((c & 0x3ffff) >> 12)) & 0xff) as bv8
    requires d == ((0x80 | ((c & 0xfff) >> 6)) & 0xff) as bv8 && e == ((0x80 | (c & 0x3f)) & 0xff) as bv8
    ensures ((a as bv32 & 0x07) << 18) | ((b as bv32 & 0x3f) << 12) | ((d as bv32 & 0x3f) << 6) | (e as bv32 & 0x3f)
            == c
  {
  }

  lemma FourBytesRange(c: bv32, a: Byte, b: Byte, d: Byte, e: Byte)
    requires 0x10000 <= c <= 0x10FFFF
    requires a == ((0xf0 | (c >> 18)) & 0xff) as bv8 && b == ((0x80 | ((c & 0x3ffff) >> 12)) & 0xff) as bv8
    requires d == ((0x80 | ((c & 0xfff) >> 6)) & 0xff) as bv8 && e == ((0x80 | (c & 0x3f)) & 0xff) as bv8
    ensures 0xF0 <= a <= 0xF4 && 0x80 <= b <= 0xBF && 0x80 <= d <= 0xBF && 0x80 <= e <= 0xBF
    ensures (a == 0xF0 ==> b >= 0x90) && (a == 0xF4 ==> b <= 0x8F)
  {
  }

  /** An encoded scalar value is one well-formed sequence, whatever follows. */
  lemma EncodedLength(c: bv32, rest: seq<Byte>)
    requires IsScalar(c)
    ensures Encode(c) != [] && WellFormedAt(Encode(c) + rest, 0) == |Encode(c)|
  {
    var v := Encode(c);
    var s := v + rest;
    assert s[0] == v[0];
    if c < 0x80 {
      OneByte(c, v[0]);
    } else {
      assert s[1] == v[1];
      if c < 0x800 {
        TwoBytes(c, v[0], v[1]);
      } else {
        assert s[2] == v[2];
        if c <= 0xffff {
          ThreeBytes(c, v[0], v[1], v[2]);
          ThreeRange(v[0], v[1]);
        } else {
          assert s[3] == v[3];
          FourBytesRange(c, v[0], v[1], v[2], v[3]);
          FourRange(v[0], v[1]);
        }
      }
    }
  }

  lemma ScalarTwo(c: bv32, a: Byte, b: Byte)
    requires ((a as bv32 & 0x1f) << 6) | (b as bv32 & 0x3f) == c
    ensures Scalar([a, b]) == c
  {
  }

  lemma ScalarThree(c: bv32, a: Byte, b: Byte, d: Byte)
    requires ((a as bv32 & 0x0f) << 12) | ((b as bv32 & 0x3f) << 6) | (d as bv32 & 0x3f) == c
    ensures Scalar([a, b, d]) == c
  {
  }

  lemma ScalarFour(c: bv32, a: Byte, b: Byte, d: Byte, e: Byte)
    requires ((a as bv32 & 0x07) << 18) | ((b as bv32 & 0x3f) << 12) | ((d as bv32 & 0x3f) << 6) | (e as bv32 & 0x3f)
             == c
    ensures Scalar([a, b, d, e]) == c
  {
    var v := [a, b, d, e];
    assert |v| == 4 && v[0] == a && v[1] == b && v[2] == d && v[3] == e;
  }

  lemma EncodedThree(c: bv32, a: Byte, b: Byte, d: Byte)
    requires 0x800 <= c <= 0xD7FF || 0xE000 <= c <= 0xFFFF
    requires a == LeadByte(0xe0, c >> 12) && b == TailByte((c & 0xfff) >> 6) && d == TailByte(c & 0x3f)
    ensures Scalar([a, b, d]) == c
  {
    ThreeBytes(c, a, b, d);
    ScalarThree(c, a, b, d);
  }

  lemma EncodedFour(c: bv32, a: Byte, b: Byte, d: Byte, e: Byte)
    requires 0x10000 <= c <= 0x10FFFF
    requires a == LeadByte(0xf0, c >> 18) && b == TailByte((c & 0x3ffff) >> 12)
    requires d == TailByte((c & 0xfff) >> 6) && e == TailByte(c & 0x3f)
    ensures Scalar([a, b, d, e]) == c
  {
    FourBytes(c, a, b, d, e);
    ScalarFour(c, a, b, d, e);
  }

  /** ... and it stands for that value. */
  lemma EncodedScalar(c: bv32)
    requires IsScalar(c)
    ensures 1 <= |Encode(c)| <= 4 && Scalar(Encode(c)) == c
  {
    if c < 0x80 {
      OneByte(c, Encode(c)[0]);
    } else if c < 0x800 {
      TwoBytes(c, LeadByte(0xc0, c >> 6), TailByte(c & 0x3f));
      ScalarTwo(c, LeadByte(0xc0, c >> 6), TailByte(c & 0x3f));
    } else if c <= 0xffff {
      EncodedThree(c, LeadByte(0xe0, c >> 12), TailByte((c & 0xfff) >> 6), TailByte(c & 0x3f));
    } else {
      EncodedFour(c, LeadByte(0xf0, c >> 18), TailByte((c & 0x3ffff) >> 12), TailByte((c & 0xfff) >> 6),
                  TailByte(c & 0x3f));
    }
  }

  lemma OneByte(c: bv32, a: Byte)
    requires c < 0x80 && a == (c & 0xff) as bv8
    ensures a <= 0x7F && a as bv32 == c
  {
  }

  lemma ThreeRange(a: Byte, b: Byte)
    requires 0xE0 <= a <= 0xEF && 0x80 <= b <= 0xBF
    ensures a == 0xE0 || 0xE1 <= a <= 0xEC || a == 0xED || 0xEE <= a <= 0xEF
    ensures !(0xC2 <= a <= 0xDF) && !(a <= 0x7F)
  {
  }

  lemma FourRange(a: Byte, b: Byte)
    requires 0xF0 <= a <= 0xF4 && 0x80 <= b <= 0xBF
    ensures a == 0xF0 || 0xF1 <= a <= 0xF3 || a == 0xF4
    ensures !(0xE0 <= a <= 0xEF) && !(0xC2 <= a <= 0xDF) && !(a <= 0x7F)
  {
  }

  /** Reading the bytes back and encoding again gives the bytes. */
  lemma TwoBack(c: bv32, a: Byte, b: Byte)
    requires 0xC2 <= a <= 0xDF && 0x80 <= b <= 0xBF && c == ((a as bv32 & 0x1f) << 6) | (b as bv32 & 0x3f)
    ensures 0x80 <= c < 0x800
    ensures ((0xc0 | (c >> 6)) & 0xff) as bv8 == a && ((0x80 | (c & 0x3f)) & 0xff) as bv8 == b
  {
  }

  lemma ThreeBack(c: bv32, a: Byte, b: Byte, d: Byte)
    requires 0xE0 <= a <= 0xEF && 0x80 <= b <= 0xBF && 0x80 <= d <= 0xBF && (a == 0xE0 ==> b >= 0xA0)
    requires c == ((a as bv32 & 0x0f) << 12) | ((b as bv32 & 0x3f) << 6) | (d as bv32 & 0x3f)
    ensures 0x800 <= c <= 0xffff
    ensures ((0xe0 | (c >> 12)) & 0xff) as bv8 == a && ((0x80 | ((c & 0xfff) >> 6)) & 0xff) as bv8 == b
    ensures ((0x80 | (c & 0x3f)) & 0xff) as bv8 == d
  {
  }

  lemma FourBack(c: bv32, a: Byte, b: Byte, d: Byte, e: Byte)
    requires 0xF0 <= a <= 0xF4 && 0x80 <= b <= 0xBF && 0x80 <= d <= 0xBF && 0x80 <= e <= 0xBF
             && (a == 0xF0 ==> b >= 0x90)
    requires c == ((a as bv32 & 0x07) << 18) | ((b as bv32 & 0x3f) << 12) | ((d as bv32 & 0x3f) << 6)
             | (e as bv32 & 0x3f)
    ensures c >= 0x10000
    ensures ((0xf0 | (c >> 18)) & 0xff) as bv8 == a && ((0x80 | ((c & 0x3ffff) >> 12)) & 0xff) as bv8 == b
    ensures ((0x80 | ((c & 0xfff) >> 6)) & 0xff) as bv8 == d && ((0x80 | (c & 0x3f)) & 0xff) as bv8 == e
  {
  }

  lemma EncodeTwoBack(c: bv32, a: Byte, b: Byte)
    requires 0xC2 <= a <= 0xDF && 0x80 <= b <= 0xBF && c == ((a as bv32 & 0x1f) << 6) | (b as bv32 & 0x3f)
    ensures Encode(c) == [a, b]
  {
    TwoBack(c, a, b);
  }

  lemma EncodeThreeBack(c: bv32, a: Byte, b: Byte, d: Byte)
    requires 0xE0 <= a <= 0xEF && 0x80 <= b <= 0xBF && 0x80 <= d <= 0xBF && (a == 0xE0 ==> b >= 0xA0)
    requires c == ((a as bv32 & 0x0f) << 12) | ((b as bv32 & 0x3f) << 6) | (d as bv32 & 0x3f)
    ensures Encode(c) == [a, b, d]
  {
    ThreeBack(c, a, b, d);
  }

  lemma EncodeFourBack(c: bv32, a: Byte, b: Byte, d: Byte, e: Byte)
    requires 0xF0 <= a <= 0xF4 && 0x80 <= b <= 0xBF && 0x80 <= d <= 0xBF && 0x80 <= e <= 0xBF
             && (a == 0xF0 ==> b >= 0x90)
    requires c == ((a as bv32 & 0x07) << 18) | ((b as bv32 & 0x3f) << 12) | ((d as bv32 & 0x3f) << 6)
             | (e as bv32 & 0x3f)
    ensures Encode(c) == [a, b, d, e]
  {
    FourBack(c, a, b, d, e);
  }

  lemma ScalarTwoBack(a: Byte, b: Byte)
    requires IsTwo(a, b)
    ensures Encode(Scalar([a, b])) == [a, b]
  {
    EncodeTwoBack(Scalar([a, b]), a, b);
  }

  lemma ScalarThreeBack(a: Byte, b: Byte, d: Byte)
    requires IsThree(a, b, d)
    ensures Encode(Scalar([a, b, d])) == [a, b, d]
  {
    ThreeKinds(a, b, d);
    EncodeThreeBack(Scalar([a, b, d]), a, b, d);
  }

  lemma ScalarFourBack(a: Byte, b: Byte, d: Byte, e: Byte)
    requires IsFour(a, b, d, e)
    ensures Encode(Scalar([a, b, d, e])) == [a, b, d, e]
  {
    FourKinds(a, b, d, e);
    EncodeFourBack(Scalar([a, b, d, e]), a, b, d, e);
  }

  lemma ThreeKinds(a: Byte, b: Byte, d: Byte)
    requires IsThree(a, b, d)
    ensures 0xE0 <= a <= 0xEF && 0x80 <= b <= 0xBF && 0x80 <= d <= 0xBF && (a == 0xE0 ==> b >= 0xA0)
  {
  }

  lemma FourKinds(a: Byte, b: Byte, d: Byte, e: Byte)
    requires IsFour(a, b, d, e)
    ensures 0xF0 <= a <= 0xF4 && 0x80 <= b <= 0xBF && 0x80 <= d <= 0xBF && 0x80 <= e <= 0xBF
            && (a == 0xF0 ==> b >= 0x90)
  {
  }

  lemma EncodeBack(s: seq<Byte>)
    requires s != [] && WellFormedAt(s, 0) != 0
    ensures Encode(Scalar(s[..WellFormedAt(s, 0)])) == s[..WellFormedAt(s, 0)]
  {
    var n := WellFormedAt(s, 0);
    if n == 1 {
      assert s[..n] == [s[0]];
      OneBack(s[0]);
    } else if n == 2 {
      assert s[..n] == [s[0], s[1]];
      ScalarTwoBack(s[0], s[1]);
    } else if n == 3 {
      assert s[..n] == [s[0], s[1], s[2]];
      ScalarThreeBack(s[0], s[1], s[2]);
    } else {
      assert s[..n] == [s[0], s[1], s[2], s[3]];
      ScalarFourBack(s[0], s[1], s[2], s[3]);
    }
  }

  lemma OneBack(a: Byte)
    requires a <= 0x7F
    ensures a as bv32 < 0x80 && (a as bv32 & 0xff) as bv8 == a
  {
  }

  lemma HighUnit(d: bv32, hi: CodeUnit)
    requires d <= 0xFFFFF && hi == ((0xD800 + (d >> 10)) & 0xffff) as bv16
    ensures 0xd800 <= hi <= 0xdbff && hi as bv32 & 0x3ff == d >> 10
  {
  }

  lemma LowUnit(d: bv32, lo: CodeUnit)
    requires d <= 0xFFFFF && lo == ((0xDC00 + (d & 0x3FF)) & 0xffff) as bv16
    ensures 0xdc00 <= lo <= 0xdfff && lo as bv32 & 0x3ff == d & 0x3FF
  {
  }

  /** The offset of a supplementary code point. */
  lemma Offset(c: bv32, d: bv32)
    requires 0x10000 <= c <= 0x10ffff && d == c - 0x10000
    ensures c == 0x10000 + d && d <= 0xFFFFF
  {
  }

  lemma JoinUnits(c: bv32, d: bv32, hi: CodeUnit, lo: CodeUnit)
    requires hi as bv32 & 0x3ff == d >> 10 && lo as bv32 & 0x3ff == d & 0x3FF && c == 0x10000 + d
    ensures c == 0x10000 + (((hi as bv32 & 0x3ff) << 10) | (lo as bv32 & 0x3ff))
  {
  }

  lemma PairValue(c: bv32, hi: CodeUnit, lo: CodeUnit)
    requires c == 0x10000 + (((hi as bv32 & 0x3ff) << 10) | (lo as bv32 & 0x3ff))
    ensures Value(Pair(hi, lo)) == c
  {
  }

  /** A supplementary code point as a pair. */
  lemma SupplementaryPoint(c: bv32, d: bv32) returns (p: Point)
    requires 0x10000 <= c <= 0x10ffff && d == c - 0x10000
    ensures Proper(p) && UnitsOf(p) == Units(c) && p.Pair?
    ensures p.hi as bv32 & 0x3ff == d >> 10 && p.lo as bv32 & 0x3ff == d & 0x3FF
  {
    Offset(c, d);
    var hi, lo := ((0xD800 + (d >> 10)) & 0xffff) as bv16, ((0xDC00 + (d & 0x3FF)) & 0xffff) as bv16;
    HighUnit(d, hi);
    LowUnit(d, lo);
    p := Pair(hi, lo);
    assert c > 0xFFFF;
  }

  lemma BasicPoint(c: bv32, u: CodeUnit)
    requires (c <= 0xD7FF || 0xE000 <= c <= 0xFFFF) && u == (c & 0xffff) as bv16
    ensures u as bv32 == c && !(0xd800 <= u <= 0xdbff) && !(0xdc00 <= u <= 0xdfff)
  {
  }

  lemma PairMeans(c: bv32, d: bv32, hi: CodeUnit, lo: CodeUnit)
    requires hi as bv32 & 0x3ff == d >> 10 && lo as bv32 & 0x3ff == d & 0x3FF && c == 0x10000 + d
    ensures Value(Pair(hi, lo)) == c
  {
    JoinUnits(c, d, hi, lo);
    PairValue(c, hi, lo);
  }

  lemma SupplementaryFor(c: bv32, d: bv32) returns (p: Point)
    requires 0x10000 <= c <= 0x10ffff && d == c - 0x10000
    ensures Proper(p) && UnitsOf(p) == Units(c) && Value(p) == c
  {
    p := SupplementaryPoint(c, d);
    Offset(c, d);
    PairMeans(c, d, p.hi, p.lo);
  }

  lemma BasicUnits(c: bv32, u: CodeUnit)
    requires c <= 0xFFFF && u == (c & 0xffff) as bv16
    ensures Units(c) == [u]
  {
  }

  lemma BasicValue(c: bv32, u: CodeUnit)
    requires u as bv32 == c
    ensures Value(Basic(u)) == c
  {
  }

  lemma BasicFor(c: bv32, u: CodeUnit)
    requires (c <= 0xD7FF || 0xE000 <= c <= 0xFFFF) && u == (c & 0xffff) as bv16
    ensures Proper(Basic(u)) && Units(c) == [u] && Value(Basic(u)) == c
  {
    BasicPoint(c, u);
    BasicUnits(c, u);
    BasicValue(c, u);
  }

  /** Every scalar value is the value of a proper point, made of its units. */
  lemma PointFor(c: bv32) returns (p: Point)
    requires IsScalar(c)
    ensures Proper(p) && UnitsOf(p) == Units(c) && Value(p) == c
  {
    if c <= 0xFFFF {
      BasicFor(c, (c & 0xffff) as bv16);
      p := Basic((c & 0xffff) as bv16);
    } else {
      p := SupplementaryFor(c, c - 0x10000);
    }
  }

  lemma PairOffset(hi: CodeUnit, lo: CodeUnit, d: bv32)
    requires 0xd800 <= hi <= 0xdbff && 0xdc00 <= lo <= 0xdfff
             && d == ((hi as bv32 & 0x3ff) << 10) | (lo as bv32 & 0x3ff)
    ensures d <= 0xFFFFF
    ensures ((0xD800 + (d >> 10)) & 0xffff) as bv16 == hi && ((0xDC00 + (d & 0x3FF)) & 0xffff) as bv16 == lo
  {
  }

  lemma OffsetBack(c: bv32, d: bv32)
    requires c == 0x10000 + d && d <= 0xFFFFF
    ensures c - 0x10000 == d && 0x10000 <= c <= 0x10ffff && c > 0xFFFF
  {
  }

  lemma PairUnits(c: bv32, d: bv32, hi: CodeUnit, lo: CodeUnit)
    requires c > 0xFFFF && c - 0x10000 == d
    requires ((0xD800 + (d >> 10)) & 0xffff) as bv16 == hi && ((0xDC00 + (d & 0x3FF)) & 0xffff) as bv16 == lo
    ensures Units(c) == [hi, lo]
  {
  }

  lemma PairBack(hi: CodeUnit, lo: CodeUnit, d: bv32, c: bv32)
    requires 0xd800 <= hi <= 0xdbff && 0xdc00 <= lo <= 0xdfff
    requires d == ((hi as bv32 & 0x3ff) << 10) | (lo as bv32 & 0x3ff) && c == 0x10000 + d
    ensures Units(c) == [hi, lo] && 0x10000 <= c <= 0x10ffff
  {
    PairOffset(hi, lo, d);
    OffsetBack(c, d);
    PairUnits(c, d, hi, lo);
  }

  lemma PairPointIs(hi: CodeUnit, lo: CodeUnit, d: bv32, c: bv32)
    requires d == ((hi as bv32 & 0x3ff) << 10) | (lo as bv32 & 0x3ff) && c == 0x10000 + d
    ensures Value(Pair(hi, lo)) == c
  {
  }

  lemma SupplementaryScalar(c: bv32)
    requires 0x10000 <= c <= 0x10ffff
    ensures IsScalar(c)
  {
  }

  lemma PairBackPoint(hi: CodeUnit, lo: CodeUnit)
    requires 0xd800 <= hi <= 0xdbff && 0xdc00 <= lo <= 0xdfff
    ensures Units(Value(Pair(hi, lo))) == [hi, lo] && IsScalar(Value(Pair(hi, lo)))
  {
    var d := ((hi as bv32 & 0x3ff) << 10) | (lo as bv32 & 0x3ff);
    var c := 0x10000 + d;
    PairBack(hi, lo, d, c);
    PairPointIs(hi, lo, d, c);
    SupplementaryScalar(c);
  }

  lemma BasicBack(u: CodeUnit, c: bv32)
    requires c == u as bv32 && !(0xd800 <= u <= 0xdbff) && !(0xdc00 <= u <= 0xdfff)
    ensures c <= 0xFFFF && (c & 0xffff) as bv16 == u && (c <= 0xD7FF || 0xE000 <= c)
  {
  }

  lemma BasicScalar(c: bv32)
    requires c <= 0xFFFF && (c <= 0xD7FF || 0xE000 <= c)
    ensures IsScalar(c)
  {
  }

  lemma BasicBackPoint(u: CodeUnit, c: bv32)
    requires c == u as bv32 && !(0xd800 <= u <= 0xdbff) && !(0xdc00 <= u <= 0xdfff)
    ensures Units(Value(Basic(u))) == [u] && IsScalar(Value(Basic(u)))
  {
    BasicBack(u, c);
    BasicUnits(c, u);
    BasicValue(c, u);
    BasicScalar(c);
  }

  lemma ProperBasic(u: CodeUnit)
    requires Proper(Basic(u))
    ensures !(0xd800 <= u <= 0xdbff) && !(0xdc00 <= u <= 0xdfff)
  {
  }

  lemma ProperPair(hi: CodeUnit, lo: CodeUnit)
    requires Proper(Pair(hi, lo))
    ensures 0xd800 <= hi <= 0xdbff && 0xdc00 <= lo <= 0xdfff
  {
  }

  /** A proper point means a scalar value, and its units are that value's. */
  lemma PointBack(p: Point)
    requires Proper(p)
    ensures Units(Value(p)) == UnitsOf(p) && IsScalar(Value(p))
  {
    match p
    case Basic(u) =>
      ProperBasic(u);
      BasicBackPoint(u, u as bv32);
    case Pair(hi, lo) =>
      ProperPair(hi, lo);
      PairBackPoint(hi, lo);
  }

  /** The code's arithmetic on a pair. */
  lemma PairArithmetic(hi: CodeUnit, lo: CodeUnit)
    requires 0xd800 <= hi <= 0xdbff && 0xdc00 <= lo <= 0xdfff
    ensures (hi as bv32 << 10) + (lo as bv32) - 0x35fdc00
            == 0x10000 + (((hi as bv32 & 0x3ff) << 10) | (lo as bv32 & 0x3ff))
  {
  }

  lemma SurrogateMasks(u: CodeUnit)
    ensures u as bv32 & 0xfc00 == 0xd800 <==> 0xd800 <= u <= 0xdbff
    ensures u as bv32 & 0xfc00 == 0xdc00 <==> 0xdc00 <= u <= 0xdfff
    ensures 0xd800 <= u as bv32 <= 0xdfff <==> 0xd800 <= u <= 0xdbff || 0xdc00 <= u <= 0xdfff
  {
  }
}
