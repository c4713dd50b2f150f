/** Transcoding from UTF-16 to UTF-8 and back: the two conversions and the round trips between them. */
module Transcoding {
  import opened Common
  import opened Utf8
  import opened Utf16

  /** The code's arithmetic on a surrogate pair is the pair's code point. */
  lemma PairCode(hi: CodeUnit, lo: CodeUnit, c: bv32)
    requires 0xd800 <= hi <= 0xdbff && 0xdc00 <= lo <= 0xdfff && c == (hi as bv32 << 10) + (lo as bv32) - 0x35fdc00
    ensures Value(Pair(hi, lo)) == c
  {
    PairArithmetic(hi, lo);
    PairValue(c, hi, lo);
  }

  /** Every point but a lone surrogate is proper. */
  lemma {:induction false} PointsProper(s: seq<CodeUnit>)
    ensures forall p :: p in Points(s) ==> Proper(p) || p.Lone?
  {
    if s != [] {
      if IsHigh(s[0]) && |s| >= 2 && IsLow(s[1]) {
        PointsProper(s[2..]);
      } else {
        PointsProper(s[1..]);
      }
    }
  }

  lemma ReplacementScalar()
    ensures IsScalar(0xFFFD) && Encode(0xFFFD) == [0xEF, 0xBF, 0xBD]
  {
  }

  lemma ValueScalar(p: Point)
    requires Proper(p) || p.Lone?
    ensures IsScalar(Value(p))
  {
    if p.Lone? {
      ReplacementScalar();
    } else {
      PointBack(p);
    }
  }

  lemma {:induction false} ValuesScalar(ps: seq<Point>)
    requires forall p :: p in ps ==> Proper(p) || p.Lone?
    ensures forall c :: c in Values(ps) ==> IsScalar(c)
  {
    if ps != [] {
      ValueScalar(ps[0]);
      ValuesScalar(ps[1..]);
    }
  }

  /** Encoded scalar values read back as themselves. */
  lemma {:induction false} DecodeEncoded(cs: seq<bv32>)
    requires forall c :: c in cs ==> IsScalar(c)
    ensures CodePoints(EncodeAll(cs)) == cs
  {
    if cs != [] {
      var c, rest := cs[0], EncodeAll(cs[1..]);
      DecodeEncoded(cs[1..]);
      EncodedLength(c, rest);
      EncodedScalar(c);
      var s := Encode(c) + rest;
      assert s[0..|Encode(c)|] == Encode(c);
      assert s[|Encode(c)|..] == rest;
    }
  }

  /** The first point of a well-formed text and what follows it. */
  lemma WellFormedFront(s: seq<CodeUnit>) returns (p: Point, rest: seq<CodeUnit>)
    requires s != [] && WellFormed16(s)
    ensures Points(s) == [p] + Points(rest) && s == UnitsOf(p) + rest && |rest| < |s|
    ensures Proper(p) && WellFormed16(rest)
  {
    PointsProper(s);
    p := Points(s)[0];
    assert p in Points(s);
    rest := s[|UnitsOf(p)|..];
    assert Points(s) == [p] + Points(rest);
    assert forall q :: q in Points(rest) ==> q in Points(s);
  }

  /** The units of well-formed points are the text they were read from. */
  lemma {:induction false} UnitsOfPoints(s: seq<CodeUnit>)
    requires WellFormed16(s)
    ensures UnitsAll(Values(Points(s))) == s
    decreases |s|
  {
    if s != [] {
      var p, rest := WellFormedFront(s);
      PointBack(p);
      UnitsOfPoints(rest);
      assert Points(s)[1..] == Points(rest);
      assert Values(Points(s))[1..] == Values(Points(rest));
    }
  }

  lemma PointFirst(p: Point, rest: seq<CodeUnit>)
    requires Proper(p)
    ensures Points(UnitsOf(p) + rest) == [p] + Points(rest)
  {
    var s := UnitsOf(p) + rest;
    assert s[|UnitsOf(p)|..] == rest;
    if p.Pair? {
      assert s[0] == p.hi && s[1] == p.lo;
    }
  }

  /** Units of scalar values read back as those values, without lone surrogates. */
  lemma {:induction false} PointsOfUnits(cs: seq<bv32>)
    requires forall c :: c in cs ==> IsScalar(c)
    ensures WellFormed16(UnitsAll(cs)) && Values(Points(UnitsAll(cs))) == cs
  {
    if cs != [] {
      PointsOfUnits(cs[1..]);
      var p := PointFor(cs[0]);
      PointFirst(p, UnitsAll(cs[1..]));
      var ps := Points(UnitsAll(cs));
      assert ps[1..] == Points(UnitsAll(cs[1..]));
    }
  }

  /** The first sequence of well-formed bytes is the encoding of its code point. */
  lemma ReadStep(s: seq<Byte>)
    requires s != [] && WellFormed8(s)
    ensures var v := ViewAt(s, 0);
            && CodePoints(s) == [v.cp] + CodePoints(s[v.len..]) && WellFormed8(s[v.len..])
            && IsScalar(v.cp) && Encode(v.cp) + s[v.len..] == s
  {
    var v := ViewAt(s, 0);
    var rest := s[v.len..];
    ViewAtKind(s, 0);
    assert CodePoints(s) == [v.cp] + CodePoints(rest);
    assert v.cp in CodePoints(s) && forall c :: c in CodePoints(rest) ==> c in CodePoints(s);
    EncodeView(s);
  }

  lemma EncodeView(s: seq<Byte>)
    requires s != [] && ViewAt(s, 0).cp != INVALID
    ensures Encode(ViewAt(s, 0).cp) + s[ViewAt(s, 0).len..] == s
  {
    EncodeBack(s);
    var n := WellFormedAt(s, 0);
    assert s == s[..n] + s[n..];
  }

  /** Encoding what was read from well-formed bytes gives the bytes. */
  lemma {:induction false} EncodeRead(s: seq<Byte>)
    requires WellFormed8(s)
    ensures EncodeAll(CodePoints(s)) == s && forall c :: c in CodePoints(s) ==> IsScalar(c)
  {
    if s != [] {
      ReadStep(s);
      var rest := s[ViewAt(s, 0).len..];
      EncodeRead(rest);
      assert CodePoints(s)[1..] == CodePoints(rest);
    }
  }

  /** UTF-16 to UTF-8 and back is the identity on well-formed UTF-16. */
  lemma RoundTrip16(s: seq<CodeUnit>)
    requires WellFormed16(s)
    ensures var bytes := EncodeAll(Values(Points(s)));
            WellFormed8(bytes) && UnitsAll(CodePoints(bytes)) == s
  {
    ReplacementReads(s);
    UnitsOfPoints(s);
  }

  /** Every text encodes to well-formed bytes that read as its code points in order, U+FFFD for each lone surrogate. */
  lemma ReplacementReads(s: seq<CodeUnit>)
    ensures var bytes := EncodeAll(Values(Points(s)));
            WellFormed8(bytes) && CodePoints(bytes) == Values(Points(s))
  {
    PointsProper(s);
    ValuesScalar(Points(s));
    DecodeEncoded(Values(Points(s)));
    assert !IsScalar(INVALID);
  }

  /** UTF-8 to UTF-16 and back is the identity on well-formed UTF-8. */
  lemma RoundTrip8(s: seq<Byte>)
    requires WellFormed8(s)
    ensures var units := UnitsAll(CodePoints(s));
            WellFormed16(units) && EncodeAll(Values(Points(units))) == s
  {
    EncodeRead(s);
    PointsOfUnits(CodePoints(s));
  }

  lemma {:induction false} EncodeSnoc(ps: seq<Point>, p: Point)
    ensures EncodeAll(Values(ps + [p])) == EncodeAll(Values(ps)) + Encode(Value(p))
  {
    if ps == [] {
      assert ps + [p] == [p];
      assert Values([p]) == [Value(p)];
    } else {
      EncodeSnoc(ps[1..], p);
      ConcatAssoc(Encode(Value(ps[0])), EncodeAll(Values(ps[1..])), Encode(Value(p)));
      assert (ps + [p])[1..] == ps[1..] + [p];
      assert Values(ps + [p])[1..] == Values(ps[1..] + [p]);
      assert Values(ps)[1..] == Values(ps[1..]);
    }
  }

  lemma {:induction false} UpToLoneIs(ps: seq<Point>, p: Point, rest: seq<Point>)
    requires p.Lone? && forall q :: q in ps ==> !q.Lone?
    ensures UpToLone(ps + [p] + rest) == ps
  {
    if ps != [] {
      UpToLoneIs(ps[1..], p, rest);
      assert (ps + [p] + rest)[1..] == ps[1..] + [p] + rest;
    }
  }

  lemma {:induction false} UpToLoneAll(ps: seq<Point>)
    requires forall q :: q in ps ==> !q.Lone?
    ensures UpToLone(ps) == ps
  {
    if ps != [] {
      UpToLoneAll(ps[1..]);
    }
  }

  /** The bytes of one code point; false outside the scalar values. */
  method EncodeOne(c: bv32) returns (ok: bool, bytes: seq<Byte>)
    ensures ok <==> IsScalar(c)
    ensures ok ==> bytes == Encode(c)
  {
    ok, bytes := true, [];
    if c < 0x80 {
      bytes := [(c & 0xff) as bv8];
    } else if c < 0x800 {
      bytes := [LeadByte(0xc0, c >> 6), TailByte(c & 0x3f)];
    } else if (c >= 0x800 && c <= 0xd7ff) || (c >= 0xe000 && c <= 0xffff) {
      bytes := [LeadByte(0xe0, c >> 12), TailByte((c & 0xfff) >> 6), TailByte(c & 0x3f)];
    } else if c >= 0x10000 && c <= 0x10ffff {
      bytes := [LeadByte(0xf0, c >> 18), TailByte((c & 0x3ffff) >> 12), TailByte((c & 0xfff) >> 6), TailByte(c & 0x3f)];
    } else {
      ok := false;
    }
  }

  /** How the code tells the units apart: in the surrogate range, by mask a high or a low one. */
  method Classify(u: CodeUnit) returns (surrogate: bool, high: bool, low: bool)
    ensures high == IsHigh(u) && low == IsLow(u) && surrogate == (high || low)
  {
    SurrogateMasks(u);
    var c := u as bv32;
    surrogate := c >= 0xd800 && c <= 0xdfff;
    high := c & 0xfc00 == 0xd800;
    low := c & 0xfc00 == 0xdc00;
  }

  method UnitCode(u: CodeUnit) returns (c: bv32)
    ensures c == Value(Basic(u))
  {
    c := u as bv32;
  }

  method PairUp(hi: CodeUnit, lo: CodeUnit) returns (c: bv32)
    requires IsHigh(hi) && IsLow(lo)
    ensures c == Value(Pair(hi, lo))
  {
    c := (hi as bv32 << 10) + (lo as bv32) - 0x35fdc00;
    PairCode(hi, lo, c);
  }

  /** The front of a text by the kinds of its first units. */
  lemma FrontPoint(s: seq<CodeUnit>, i: nat)
    requires i < |s|
    ensures !IsHigh(s[i]) && !IsLow(s[i]) ==> Points(s[i..]) == [Basic(s[i])] + Points(s[i + 1..])
    ensures IsHigh(s[i]) && i + 1 < |s| && IsLow(s[i + 1])
        ==> Points(s[i..]) == [Pair(s[i], s[i + 1])] + Points(s[i + 2..])
    ensures (IsHigh(s[i]) || IsLow(s[i])) && !(IsHigh(s[i]) && i + 1 < |s| && IsLow(s[i + 1]))
        ==> Points(s[i..]) == [Lone(s[i])] + Points(s[i + 1..])
  {
    var t := s[i..];
    assert t[0] == s[i] && t[1..] == s[i + 1..];
    if i + 1 < |s| {
      assert t[1] == s[i + 1] && t[2..] == s[i + 2..];
    }
    HighNotLow(s[i]);
  }

  lemma HighNotLow(u: CodeUnit)
    ensures !(IsHigh(u) && IsLow(u))
  {
  }

  /** The point at `i` and its code: a unit, or a pair put together; a lone surrogate has no code. */
  method ReadPoint(s: seq<CodeUnit>, i: nat) returns (ghost p: Point, lone: bool, c: bv32, next: nat)
    requires i < |s|
    ensures i < next <= |s| && Points(s[i..]) == [p] + Points(s[next..])
    ensures lone == p.Lone? && (Proper(p) || p.Lone?)
    ensures !lone ==> c == Value(p)
  {
    var surrogate, high, _ := Classify(s[i]);
    next := i + 1;
    c := UnitCode(s[i]);
    lone := false;
    p := Basic(s[i]);
    FrontPoint(s, i);
    if surrogate {
      var low := false;
      if next < |s| {
        var _, _, l := Classify(s[next]);
        low := l;
      }
      if next == |s| || !high || !low {
        lone := true;
        p := Lone(s[i]);
      } else {
        c := PairUp(s[i], s[next]);
        p := Pair(s[i], s[next]);
        next := next + 1;
      }
    }
  }

  /** The conversion up to unit `i`. */
  ghost predicate Converted(s: seq<CodeUnit>, i: nat, done: seq<Point>, buf: seq<Byte>, replace: bool) {
    && i <= |s|
    && done + Points(s[i..]) == Points(s)
    && buf == EncodeAll(Values(done))
    && (!replace ==> forall q :: q in done ==> !q.Lone?)
  }

  lemma ConvertStep(s: seq<CodeUnit>, i: nat, done: seq<Point>, buf: seq<Byte>, replace: bool, p: Point, next: nat)
    requires Converted(s, i, done, buf, replace) && i < next <= |s| && Points(s[i..]) == [p] + Points(s[next..])
    requires p.Lone? ==> replace
    ensures Converted(s, next, done + [p], buf + Encode(Value(p)), replace)
  {
    EncodeSnoc(done, p);
    ConcatAssoc(done, [p], Points(s[next..]));
  }

  lemma ConvertStop(s: seq<CodeUnit>, i: nat, done: seq<Point>, buf: seq<Byte>, p: Point, next: nat)
    requires Converted(s, i, done, buf, false) && i < next <= |s| && Points(s[i..]) == [p] + Points(s[next..])
    requires p.Lone?
    ensures !WellFormed16(s) && buf == EncodeAll(Values(UpToLone(Points(s))))
  {
    UpToLoneIs(done, p, Points(s[next..]));
    ConcatAssoc(done, [p], Points(s[next..]));
    assert p in Points(s);
  }

  lemma ConvertEnd(s: seq<CodeUnit>, done: seq<Point>, buf: seq<Byte>, replace: bool)
    requires Converted(s, |s|, done, buf, replace)
    ensures done == Points(s) && (!replace ==> WellFormed16(s) && UpToLone(Points(s)) == Points(s))
  {
    assert s[|s|..] == [];
    assert done + [] == done;
    if !replace {
      UpToLoneAll(done);
    }
  }

  /** Converts UTF-16 to UTF-8. A lone surrogate ends the conversion, or becomes U+FFFD when `replace` is set. */
  method ToUtf8(s: seq<CodeUnit>, replace: bool) returns (ok: bool, buf: seq<Byte>)
    ensures ok <==> replace || WellFormed16(s)
    ensures buf == EncodeAll(Values(if replace then Points(s) else UpToLone(Points(s))))
    ensures ok ==> buf == EncodeAll(Values(Points(s)))
  {
    buf := [];
    ghost var done: seq<Point> := [];
    var i: nat := 0;
    assert s[0..] == s;
    while i != |s|
      invariant Converted(s, i, done, buf, replace)
      decreases |s| - i
    {
      var p, lone, c, next := ReadPoint(s, i);
      if lone {
        if !replace {
          ConvertStop(s, i, done, buf, p, next);
          return false, buf;
        }
        ConvertStep(s, i, done, buf, replace, p, next);
        ReplacementScalar();
        buf := buf + [0xEF, 0xBF, 0xBD];
      } else {
        ConvertStep(s, i, done, buf, replace, p, next);
        ValueScalar(p);
        var _, bytes := EncodeOne(c);
        buf := buf + bytes;
      }
      done := done + [p];
      i := next;
    }
    ConvertEnd(s, done, buf, replace);
    ok := true;
  }

  lemma ViewsAgree(s: seq<Byte>, i: nat)
    requires i < |s|
    ensures ViewAt(s, i).cp == ViewAt(s[i..], 0).cp && ViewAt(s, i).len == ViewAt(s[i..], 0).len
  {
    var n := WellFormedAt(s, i);
    assert WellFormedAt(s[i..], 0) == n;
    assert s[i..][0..n] == s[i..i + n];
  }

  /** Visiting one more view in front of others. */
  lemma VisitOne(v: View, rest: seq<View>, go: bv32 -> bool)
    requires forall c :: go(c) <==> c != INVALID
    ensures Visited([v] + rest, go) == if v.cp != INVALID then [v] + Visited(rest, go) else [v]
    ensures AllValid(Visited([v] + rest, go)) <==> v.cp != INVALID && AllValid(Visited(rest, go))
    ensures v.cp != INVALID ==> CpsOf(Visited([v] + rest, go)) == [v.cp] + CpsOf(Visited(rest, go))
  {
    var vs := Visited([v] + rest, go);
    assert ([v] + rest)[1..] == rest;
    assert vs[0] == v && v in vs;
    if v.cp != INVALID {
      assert vs[1..] == Visited(rest, go);
    }
  }

  ghost predicate AllValid(vs: seq<View>) {
    forall v :: v in vs ==> v.cp != INVALID
  }

  lemma CodePointsFrom(s: seq<Byte>, i: nat, v: View)
    requires i < |s| && v == ViewAt(s, i)
    ensures CodePoints(s[i..]) == [v.cp] + CodePoints(s[i + v.len..])
  {
    ViewsAgree(s, i);
    assert s[i..][v.len..] == s[i + v.len..];
  }

  /** One more view and code point in front of others. */
  lemma ValidStep(v: View, rest: seq<View>, cps: seq<bv32>, more: seq<bv32>, go: bv32 -> bool)
    requires (forall c :: go(c) <==> c != INVALID) && cps == [v.cp] + more
    requires INVALID !in more <==> AllValid(Visited(rest, go))
    requires INVALID !in more ==> CpsOf(Visited(rest, go)) == more
    ensures INVALID !in cps <==> AllValid(Visited([v] + rest, go))
    ensures INVALID !in cps ==> CpsOf(Visited([v] + rest, go)) == cps
  {
    VisitOne(v, rest, go);
  }

  /** The views a visitor sees that rejects invalid bytes: all of them, or up to the first invalid one. */
  lemma {:induction false} ValidViews(s: seq<Byte>, i: nat, go: bv32 -> bool)
    requires i <= |s| && forall c :: go(c) <==> c != INVALID
    ensures WellFormed8(s[i..]) <==> AllValid(Visited(Views(s, i), go))
    ensures WellFormed8(s[i..]) ==> CpsOf(Visited(Views(s, i), go)) == CodePoints(s[i..])
    decreases |s| - i
  {
    if i < |s| {
      var v := ViewAt(s, i);
      ValidViews(s, i + v.len, go);
      ViewsFrom(s, i, v);
      CodePointsFrom(s, i, v);
      ValidStep(v, Views(s, i + v.len), CodePoints(s[i..]), CodePoints(s[i + v.len..]), go);
    } else {
      assert s[i..] == [] && Visited(Views(s, i), go) == [];
    }
  }

  ghost function CpsOf(vs: seq<View>): seq<bv32> {
    if vs == [] then [] else [vs[0].cp] + CpsOf(vs[1..])
  }

  lemma {:induction false} CpsTake(vs: seq<View>, k: nat)
    requires k < |vs|
    ensures CpsOf(vs[..k + 1]) == CpsOf(vs[..k]) + [vs[k].cp]
  {
    if k > 0 {
      var front, rest := vs[..k + 1], vs[1..];
      CpsTake(rest, k - 1);
      assert front[1..] == rest[..k] && vs[..k][1..] == rest[..k - 1];
      assert CpsOf(front) == [vs[0].cp] + CpsOf(rest[..k]);
      assert CpsOf(vs[..k]) == [vs[0].cp] + CpsOf(rest[..k - 1]);
      assert rest[k - 1] == vs[k];
    } else {
      assert vs[..1][1..] == [] && vs[..0] == [];
      assert CpsOf(vs[..1]) == [vs[0].cp] + CpsOf([]);
    }
  }

  lemma ConcatAssoc<T>(a: seq<T>, b: seq<T>, c: seq<T>)
    ensures a + (b + c) == (a + b) + c
  {
  }

  lemma {:induction false} UnitsSnoc(cs: seq<bv32>, c: bv32)
    ensures UnitsAll(cs + [c]) == UnitsAll(cs) + Units(c)
  {
    if cs == [] {
      assert cs + [c] == [c];
    } else {
      UnitsSnoc(cs[1..], c);
      assert (cs + [c])[1..] == cs[1..] + [c];
      ConcatAssoc(Units(cs[0]), UnitsAll(cs[1..]), Units(c));
    }
  }

  method UnitsFor(c: bv32) returns (units: seq<CodeUnit>)
    ensures units == Units(c)
  {
    if c <= 0xFFFF {
      units := [(c & 0xffff) as bv16];
    } else {
      var d := c - 0x10000;
      units := [((0xD800 + (d >> 10)) & 0xffff) as bv16, ((0xDC00 + (d & 0x3FF)) & 0xffff) as bv16];
    }
  }

  /** The code units of the views, or None at the first invalid one. */
  method UnitsOfViews(views: seq<View>) returns (r: Option<seq<CodeUnit>>)
    ensures r.Some? <==> forall j :: 0 <= j < |views| ==> views[j].cp != INVALID
    ensures r.Some? ==> r.value == UnitsAll(CpsOf(views))
  {
    var buffer: seq<CodeUnit> := [];
    for k := 0 to |views|
      invariant buffer == UnitsAll(CpsOf(views[..k]))
      invariant forall j :: 0 <= j < k ==> views[j].cp != INVALID
    {
      var cp := views[k].cp;
      if cp == INVALID {
        return None;
      }
      CpsTake(views, k);
      UnitsSnoc(CpsOf(views[..k]), cp);
      var units := UnitsFor(cp);
      buffer := buffer + units;
    }
    assert views[..|views|] == views;
    r := Some(buffer);
  }

  /** Converts UTF-8 to UTF-16; None stands for the exception on invalid input. */
  method Utf8ToUtf16(s: seq<Byte>) returns (r: Option<seq<CodeUnit>>)
    ensures r.Some? <==> WellFormed8(s)
    ensures r.Some? ==> r.value == UnitsAll(CodePoints(s))
  {
    var go := (c: bv32) => c != INVALID;
    var views := ForEachCodepoint(s, go);
    ValidViews(s, 0, go);
    assert s[0..] == s;
    r := UnitsOfViews(views);
  }
}
