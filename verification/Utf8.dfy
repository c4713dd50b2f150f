/** UTF-8 decoding: the branchless four-byte decoder against the byte grammar of RFC 3629 section 4. */
module Utf8 {
  type Byte = bv8

  const INVALID: bv32 := 0xffff_ffff

  /** Sequence length by the top five bits of the first byte, 0 when it cannot start one. */
  function Length(first: Byte): nat {
    var top := first >> 3;
    if top < 16 then 1 else if top < 24 then 0 else if top < 28 then 2 else if top < 30 then 3 else if top < 31 then 4
      else 0
  }

  function Mask(len: nat): bv32 {
    if len == 0 then 0x00 else if len == 1 then 0x7f else if len == 2 then 0x1f else if len == 3 then 0x0f else 0x07
  }

  function Minimum(len: nat): bv32 {
    if len == 0 then 4194304 else if len == 1 then 0 else if len == 2 then 128 else if len == 3 then 2048 else 65536
  }

  /** The code point the decoder assembles from four bytes; unused bits are shifted out. */
  function CodePoint(s0: Byte, s1: Byte, s2: Byte, s3: Byte): bv32 {
    var len := Length(s0);
    var c := ((s0 as bv32 & Mask(len)) << 18) | ((s1 as bv32 & 0x3f) << 12) | ((s2 as bv32 & 0x3f) << 6)
      | (s3 as bv32 & 0x3f);
    if len == 1 then c >> 18 else if len == 2 then c >> 12 else if len == 3 then c >> 6 else c
  }

  /** The accumulated error bits. */
  function ErrorBits(s0: Byte, s1: Byte, s2: Byte, s3: Byte): bv32 {
    var len, c := Length(s0), CodePoint(s0, s1, s2, s3);
    var e: bv32 := (if c < Minimum(len) then 1 << 6 else 0)
           | (if c >> 11 == 0x1b then 1 << 7 else 0)
           | (if c > 0x10FFFF then 1 << 8 else 0)
           | ((s1 as bv32 & 0xc0) >> 2) | ((s2 as bv32 & 0xc0) >> 4) | (s3 as bv32 >> 6);
    var x := e ^ 0x2a;
    if len == 1 then x >> 6 else if len == 2 then x >> 4 else if len == 3 then x >> 2 else x
  }

  predicate IsTail(b: Byte) {
    0x80 <= b <= 0xBF
  }

  predicate IsTwo(a: Byte, b: Byte) {
    0xC2 <= a <= 0xDF && IsTail(b)
  }

  predicate IsThree(a: Byte, b: Byte, c: Byte) {
    && IsTail(c)
    && ((a == 0xE0 && 0xA0 <= b <= 0xBF) || (0xE1 <= a <= 0xEC && IsTail(b))
        || (a == 0xED && 0x80 <= b <= 0x9F) || (0xEE <= a <= 0xEF && IsTail(b)))
  }

  predicate IsFour(a: Byte, b: Byte, c: Byte, d: Byte) {
    && IsTail(c) && IsTail(d)
    && ((a == 0xF0 && 0x90 <= b <= 0xBF) || (0xF1 <= a <= 0xF3 && IsTail(b)) || (a == 0xF4 && 0x80 <= b <= 0x8F))
  }

  /** The length of the well-formed sequence at `i`, 0 when there is none. */
  function WellFormedAt(s: seq<Byte>, i: nat): (n: nat)
    requires i < |s|
    ensures i + n <= |s| && n <= 4
  {
    if s[i] <= 0x7F then 1
    else if i + 2 <= |s| && IsTwo(s[i], s[i + 1]) then 2
    else if i + 3 <= |s| && IsThree(s[i], s[i + 1], s[i + 2]) then 3
    else if i + 4 <= |s| && IsFour(s[i], s[i + 1], s[i + 2], s[i + 3]) then 4
    else 0
  }

  /** The scalar value of a sequence: the payload bits of its bytes in order. */
  function Scalar(v: seq<Byte>): bv32
    requires 1 <= |v| <= 4
  {
    if |v| == 1 then v[0] as bv32
    else if |v| == 2 then ((v[0] as bv32 & 0x1f) << 6) | (v[1] as bv32 & 0x3f)
    else if |v| == 3 then ((v[0] as bv32 & 0x0f) << 12) | ((v[1] as bv32 & 0x3f) << 6) | (v[2] as bv32 & 0x3f)
    else
      ((v[0] as bv32 & 0x07) << 18) | ((v[1] as bv32 & 0x3f) << 12) | ((v[2] as bv32 & 0x3f) << 6)
      | (v[3] as bv32 & 0x3f)
  }

  /** A code point, or INVALID, with the stretch of bytes it stands for. */
  datatype View = View(cp: bv32, start: nat, len: nat)

  function ViewAt(s: seq<Byte>, i: nat): (v: View)
    requires i < |s|
    ensures v.start == i && 0 < v.len && i + v.len <= |s|
  {
    var n := WellFormedAt(s, i);
    if n == 0 then View(INVALID, i, 1) else View(Scalar(s[i..i + n]), i, n)
  }

  /** The whole text in views: well-formed sequences, and single bytes where none starts. */
  function Views(s: seq<Byte>, i: nat): seq<View>
    requires i <= |s|
    decreases |s| - i
  {
    if i == |s| then [] else [ViewAt(s, i)] + Views(s, i + ViewAt(s, i).len)
  }

  lemma ViewsFrom(s: seq<Byte>, i: nat, v: View)
    requires i < |s| && v == ViewAt(s, i)
    ensures Views(s, i) == [v] + Views(s, i + v.len)
  {
  }

  /** The views a visitor sees that stops at the first code point it rejects. */
  function Visited(vs: seq<View>, go: bv32 -> bool): seq<View> {
    if vs == [] then [] else if go(vs[0].cp) then [vs[0]] + Visited(vs[1..], go) else [vs[0]]
  }

  function ByteOrZero(s: seq<Byte>, i: nat): Byte {
    if i < |s| then s[i] else 0
  }

  lemma DecodeBytes(s0: Byte, s1: Byte, s2: Byte, s3: Byte)
    ensures var len, ok := Length(s0), ErrorBits(s0, s1, s2, s3) == 0;
            && (len == 0 ==> !ok && s0 > 0x7F)
            && (len == 1 ==> ok && s0 <= 0x7F)
            && (len == 2 ==> (ok <==> IsTwo(s0, s1)))
            && (len == 3 ==> (ok <==> IsThree(s0, s1, s2)))
            && (len == 4 ==> (ok <==> IsFour(s0, s1, s2, s3)))
  {
  }

  lemma AssembledBits(s0: Byte, s1: Byte, s2: Byte, s3: Byte)
    ensures var len, c := Length(s0), CodePoint(s0, s1, s2, s3);
            && (len == 1 ==> c == Scalar([s0]))
            && (len == 2 ==> c == Scalar([s0, s1]))
            && (len == 3 ==> c == Scalar([s0, s1, s2]))
            && (len == 4 ==> c == Scalar([s0, s1, s2, s3]))
  {
  }

  lemma FirstByte(b: Byte)
    ensures b <= 0x7F <==> Length(b) == 1
    ensures 0xC2 <= b <= 0xDF ==> Length(b) == 2
    ensures 0xE0 <= b <= 0xEF ==> Length(b) == 3
    ensures 0xF0 <= b <= 0xF4 ==> Length(b) == 4
    ensures Length(b) != 1 ==> b > 0x7F
  {
  }

  /** Errors and lengths, on a text continued with zeros. */
  lemma DecodeKinds(s: seq<Byte>, i: nat)
    requires i < |s|
    ensures var s0, s1, s2, s3 := s[i], ByteOrZero(s, i + 1), ByteOrZero(s, i + 2), ByteOrZero(s, i + 3);
            && (ErrorBits(s0, s1, s2, s3) == 0 <==> WellFormedAt(s, i) != 0)
            && (WellFormedAt(s, i) != 0 ==> Length(s0) == WellFormedAt(s, i))
  {
    DecodeBytes(s[i], ByteOrZero(s, i + 1), ByteOrZero(s, i + 2), ByteOrZero(s, i + 3));
    FirstByte(s[i]);
    assert !IsTail(0);
  }

  /** The assembled number is the scalar value of as many bytes as the first one announces. */
  lemma AssembledValue(s0: Byte, s1: Byte, s2: Byte, s3: Byte, v: seq<Byte>)
    requires 1 <= |v| <= 4 && Length(s0) == |v| && v == [s0, s1, s2, s3][..|v|]
    ensures CodePoint(s0, s1, s2, s3) == Scalar(v)
  {
    AssembledBits(s0, s1, s2, s3);
    if |v| == 1 {
      assert v == [s0];
    } else if |v| == 2 {
      assert v == [s0, s1];
    } else if |v| == 3 {
      assert v == [s0, s1, s2];
    } else {
      assert v == [s0, s1, s2, s3];
    }
  }

  /** On a text continued with zeros the decoder sees exactly the sequence that is there: padding completes none. */
  lemma DecodeExact(s: seq<Byte>, i: nat)
    requires i < |s|
    ensures var s0, s1, s2, s3 := s[i], ByteOrZero(s, i + 1), ByteOrZero(s, i + 2), ByteOrZero(s, i + 3);
            && (ErrorBits(s0, s1, s2, s3) == 0 <==> WellFormedAt(s, i) != 0)
            && (WellFormedAt(s, i) != 0 ==> Length(s0) == WellFormedAt(s, i))
            && (WellFormedAt(s, i) != 0 ==> CodePoint(s0, s1, s2, s3) == Scalar(s[i..i + WellFormedAt(s, i)]))
  {
    var n := WellFormedAt(s, i);
    DecodeKinds(s, i);
    if n != 0 {
      var s0, s1, s2, s3 := s[i], ByteOrZero(s, i + 1), ByteOrZero(s, i + 2), ByteOrZero(s, i + 3);
      SequenceBytes(s, i, n, s0, s1, s2, s3);
      AssembledValue(s0, s1, s2, s3, s[i..i + n]);
    }
  }

  lemma SequenceBytes(s: seq<Byte>, i: nat, n: nat, s0: Byte, s1: Byte, s2: Byte, s3: Byte)
    requires 0 < n <= 4 && i + n <= |s| && s0 == s[i] && s1 == ByteOrZero(s, i + 1)
    requires s2 == ByteOrZero(s, i + 2) && s3 == ByteOrZero(s, i + 3)
    ensures s[i..i + n] == [s0, s1, s2, s3][..n]
  {
  }

  /** One decoding step at `q` of a buffer that holds the text from `p` on, continued with zeros. */
  method Decode(buf: seq<Byte>, q: nat, p: nat, ghost s: seq<Byte>) returns (view: View, next: nat)
    requires q + 4 <= |buf| && p < |s|
    requires buf[q] == s[p] && buf[q + 1] == ByteOrZero(s, p + 1)
    requires buf[q + 2] == ByteOrZero(s, p + 2) && buf[q + 3] == ByteOrZero(s, p + 3)
    ensures view == ViewAt(s, p) && next == q + view.len
  {
    DecodeExact(s, p);
    var len := Length(buf[q]);
    var end := q + len + (if len == 0 then 1 else 0);
    var cp := CodePoint(buf[q], buf[q + 1], buf[q + 2], buf[q + 3]);
    var error := ErrorBits(buf[q], buf[q + 1], buf[q + 2], buf[q + 3]);
    view := View(if error != 0 then INVALID else cp, p, if error != 0 then 1 else end - q);
    next := if error != 0 then q + 1 else end;
  }

  lemma VisitStep(done: seq<View>, s: seq<Byte>, p: nat, go: bv32 -> bool)
    requires p < |s|
    ensures var v := ViewAt(s, p);
            done + Visited(Views(s, p), go)
            == if go(v.cp) then (done + [v]) + Visited(Views(s, p + v.len), go) else done + [v]
  {
    var v := ViewAt(s, p);
    ViewsFrom(s, p, v);
    VisitedFront(done, v, Views(s, p + v.len), go);
  }

  lemma VisitedFront(done: seq<View>, v: View, rest: seq<View>, go: bv32 -> bool)
    ensures done + Visited([v] + rest, go) == if go(v.cp) then (done + [v]) + Visited(rest, go) else done + [v]
  {
    assert ([v] + rest)[1..] == rest;
  }

  /** Decodes one code point and hands it to the visitor; `goal` is all it sees. */
  method VisitOne(buf: seq<Byte>, q: nat, p: nat, s: seq<Byte>, go: bv32 -> bool, views: seq<View>,
                  ghost goal: seq<View>)
    returns (longer: seq<View>, next: nat, more: bool)
    requires q + 4 <= |buf| && p < |s|
    requires buf[q] == s[p] && buf[q + 1] == ByteOrZero(s, p + 1)
    requires buf[q + 2] == ByteOrZero(s, p + 2) && buf[q + 3] == ByteOrZero(s, p + 3)
    requires views + Visited(Views(s, p), go) == goal
    ensures q < next && p + (next - q) <= |s|
    ensures goal == if more then longer + Visited(Views(s, p + (next - q)), go) else longer
  {
    VisitStep(views, s, p, go);
    var view;
    view, next := Decode(buf, q, p, s);
    longer := views + [view];
    more := go(view.cp);
  }

  /** The last bytes in a buffer of seven, as the decoder reads them from place `q`. */
  lemma PaddedBytes(s: seq<Byte>, start: nat, buf: seq<Byte>, q: nat)
    requires start < |s| < start + 4 && q < |s| - start && buf == s[start..] + seq(7 - (|s| - start), _ => 0)
    ensures q + 4 <= |buf| && buf[q] == s[start + q] && buf[q + 1] == ByteOrZero(s, start + q + 1)
    ensures buf[q + 2] == ByteOrZero(s, start + q + 2) && buf[q + 3] == ByteOrZero(s, start + q + 3)
  {
  }

  /** Hands every code point of `s` to a visitor: whole blocks first, then a tail copied before zeros. */
  method ForEachCodepoint(s: seq<Byte>, go: bv32 -> bool) returns (views: seq<View>)
    ensures views == Visited(Views(s, 0), go)
  {
    views := [];
    var p: nat := 0;
    ghost var goal := Visited(Views(s, 0), go);
    while p + 4 <= |s|
      invariant p <= |s|
      invariant views + Visited(Views(s, p), go) == goal
      decreases |s| - p
    {
      var next, more;
      views, next, more := VisitOne(s, p, p, s, go, views, goal);
      if !more {
        return;
      }
      p := next;
    }
    var left := |s| - p;
    if left == 0 {
      assert views + [] == views;
      return;
    }
    views := VisitTail(s, p, go, views);
  }

  method VisitTail(s: seq<Byte>, start: nat, go: bv32 -> bool, done: seq<View>) returns (views: seq<View>)
    requires start < |s| < start + 4
    ensures views == done + Visited(Views(s, start), go)
  {
    views := done;
    var p := start;
    var left := |s| - p;
    var buf: seq<Byte> := s[p..] + seq(7 - left, _ => 0);
    var q: nat := 0;
    ghost var goal := done + Visited(Views(s, start), go);
    while true
      invariant q < left && p == start + q
      invariant views + Visited(Views(s, p), go) == goal
      decreases left - q
    {
      PaddedBytes(s, start, buf, q);
      var next, more;
      views, next, more := VisitOne(buf, q, p, s, go, views, goal);
      if !more {
        return;
      }
      p := p + (next - q);
      q := next;
      if q >= left {
        break;
      }
    }
    assert views + [] == views;
  }

  predicate IsScalar(c: bv32) {
    c <= 0xD7FF || 0xE000 <= c <= 0x10FFFF
  }

  lemma ScalarRange(v: seq<Byte>)
    requires 1 <= |v| <= 4
    requires |v| == 1 ==> v[0] <= 0x7F
    requires |v| == 2 ==> IsTwo(v[0], v[1])
    requires |v| == 3 ==> IsThree(v[0], v[1], v[2])
    requires |v| == 4 ==> IsFour(v[0], v[1], v[2], v[3])
    ensures IsScalar(Scalar(v))
  {
  }

  /** A well-formed sequence paired with its scalar value, or one byte at which no sequence starts, reported invalid. */
  ghost predicate ViewOf(s: seq<Byte>, v: View) {
    && v.start < |s|
    && var n := WellFormedAt(s, v.start);
       if v.cp == INVALID then n == 0 && v.len == 1
       else n == v.len > 0 && IsScalar(v.cp) && v.cp == Scalar(s[v.start..v.start + n])
  }

  /** Adjacent stretches from `i` to `n`. */
  ghost predicate Tiles(vs: seq<View>, i: nat, n: nat) {
    if vs == [] then i == n else vs[0].start == i && Tiles(vs[1..], i + vs[0].len, n)
  }

  lemma ViewAtKind(s: seq<Byte>, i: nat)
    requires i < |s|
    ensures ViewOf(s, ViewAt(s, i))
  {
    var n := WellFormedAt(s, i);
    if n != 0 {
      ScalarRange(s[i..i + n]);
    }
  }

  lemma TilesFront(v: View, rest: seq<View>, i: nat, n: nat)
    requires v.start == i && Tiles(rest, i + v.len, n)
    ensures Tiles([v] + rest, i, n)
  {
    assert ([v] + rest)[1..] == rest;
  }

  /** The views cut the text into adjacent stretches, each of one of the two kinds. */
  lemma {:induction false} ViewsPartition(s: seq<Byte>, i: nat)
    requires i <= |s|
    ensures Tiles(Views(s, i), i, |s|)
    ensures forall v :: v in Views(s, i) ==> ViewOf(s, v)
    decreases |s| - i
  {
    if i < |s| {
      var v, rest := ViewAt(s, i), Views(s, i + ViewAt(s, i).len);
      ViewAtKind(s, i);
      ViewsPartition(s, i + v.len);
      ViewsFrom(s, i, v);
      TilesFront(v, rest, i, |s|);
    }
  }
}
