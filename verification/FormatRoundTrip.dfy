/** Writing parsed format strings back, and which argument references may stand together. */
module FormatRoundTrip {
  import opened Common
  import opened Words
  import opened Decimal
  import opened Digits
  import opened FormatParser

  // ----- Writing back -----

  function ArgText(arg: Arg): string {
    match arg
    case Auto(_) => ""
    case Index(n) => if n < 0 then "" else Decimals(n)
    case Named(name) => name
  }

  function SpecText(spec: Option<Spec>): string {
    if spec.None? then "}" else ":" + spec.value.text + "}"
  }

  function PieceText(piece: Piece): string {
    match piece
    case Literal(c) => if c == '{' || c == '}' then [c, c] else [c]
    case Field(arg, spec) => "{" + (ArgText(arg) + SpecText(spec))
  }

  function Unparse(pieces: seq<Piece>): string {
    if pieces == [] then "" else PieceText(pieces[0]) + Unparse(pieces[1..])
  }

  /** A reference that can be written: the next automatic one, an int, or a name. */
  ghost predicate ArgOk(arg: Arg, next: int) {
    match arg
    case Auto(id) => id == next
    case Index(n) => 0 <= n <= INT_MAX
    case Named(name) => name != "" && IsNameStart(name[0]) && forall i :: 0 <= i < |name| ==> IsNameChar(name[i])
  }

  /** The specifier parser consumes just this text and takes just these arguments, whatever follows the closing
      brace. */
  ghost predicate SpecOk(specs: SpecParser, arg: Arg, spec: Option<Spec>, next: int) {
    spec.Some? ==>
      var r := specs(arg, spec.value.text + "}", next);
      && r.Ok? && r.value.0 == |spec.value.text|
      && TakeRefs(next, r.value.1).Ok? && TakeRefs(next, r.value.1).value.0 == spec.value.args
      && forall tail :: specs(arg, spec.value.text + "}" + tail, next) == r
  }

  /** The indexing state after a specifier. */
  function SpecAfter(specs: SpecParser, arg: Arg, spec: Option<Spec>, next: int): int {
    if spec.None? then next
    else
      var r := specs(arg, spec.value.text + "}", next);
      if r.Ok? && TakeRefs(next, r.value.1).Ok? then TakeRefs(next, r.value.1).value.1 else next
  }

  /** A field that can be written in this indexing state. */
  ghost predicate FieldOk(specs: SpecParser, arg: Arg, spec: Option<Spec>, next: int) {
    ArgOk(arg, next) && TakeArg(next, arg).Ok? && SpecOk(specs, arg, spec, TakeArg(next, arg).value)
  }

  function FieldAfter(specs: SpecParser, arg: Arg, spec: Option<Spec>, next: int): int {
    var taken := TakeArg(next, arg);
    if taken.Err? then next else SpecAfter(specs, arg, spec, taken.value)
  }

  /** Pieces a format string can hold from this indexing state on. */
  ghost predicate Writable(specs: SpecParser, pieces: seq<Piece>, next: int) {
    pieces == [] ||
    match pieces[0]
    case Literal(_) => Writable(specs, pieces[1..], next)
    case Field(arg, spec) =>
      FieldOk(specs, arg, spec, next) && Writable(specs, pieces[1..], FieldAfter(specs, arg, spec, next))
  }

  function RefOf(arg: Arg): Ref {
    match arg
    case Auto(_) => Next
    case Index(n) => At(n)
    case Named(name) => By(name)
  }

  lemma IntFits(n: nat)
    requires n <= INT_MAX
    ensures AllDigits(Decimals(n)) && Decimals(n) != "" && IntValue(Decimals(n), INT_MAX) == n
    ensures Decimals(n)[0] == '0' <==> n == 0
  {
    DecimalsDenote(n);
    DecimalsLength(n);
    assert Pow(10, 10) == 10_000_000_000;
    if |Decimals(n)| > 10 {
      PowMono(10, 10, |Decimals(n)| - 1);
    }
  }

  lemma IndexParses(n: nat, rest: string)
    requires n <= INT_MAX && rest != "" && (rest[0] == '}' || rest[0] == ':')
    ensures ParseArg(Decimals(n) + rest) == Ok((At(n), |Decimals(n)|))
  {
    IntFits(n);
    var digits := Decimals(n);
    var s := digits + rest;
    DigitRunOf(digits, rest);
    assert s[0] == digits[0] && s[..|digits|] == digits && s[|digits|] == rest[0];
    if n == 0 {
      assert digits == "0";
    }
  }

  lemma NameParses(name: string, rest: string)
    requires ArgOk(Named(name), 0) && rest != "" && (rest[0] == '}' || rest[0] == ':')
    ensures ParseArg(name + rest) == Ok((By(name), |name|))
  {
    var s := name + rest;
    NameRunOf(name, rest);
    assert s[0] == name[0] && s[..|name|] == name;
  }

  /** A colon, a specifier and a closing brace at `k`. */
  lemma TextParses(specs: SpecParser, arg: Arg, s: string, k: nat, text: string, tail: string, next: int,
                   r: Result<(nat, seq<Ref>)>)
    requires k < |s| && s[k] == ':' && s[k + 1..] == text + "}" + tail
    requires specs(arg, text + "}" + tail, next) == r && r.Ok? && r.value.0 == |text| && TakeRefs(next, r.value.1).Ok?
    ensures var taken := TakeRefs(next, r.value.1).value;
            ParseSpec(specs, arg, s, k, next) == Ok((Some(Spec(text, taken.0)), k + |text| + 2, taken.1))
  {
    var rest := text + "}" + tail;
    assert rest[..|text|] == text && rest[|text|] == '}';
  }

  lemma SpecParses(specs: SpecParser, arg: Arg, s: string, front: string, spec: Option<Spec>, tail: string, next: int)
    requires SpecOk(specs, arg, spec, next) && s == front + SpecText(spec) + tail
    ensures ParseSpec(specs, arg, s, |front|, next)
            == Ok((spec, |front| + |SpecText(spec)|, SpecAfter(specs, arg, spec, next)))
  {
    var k := |front|;
    if spec.None? {
      assert s[k] == '}';
    } else {
      var text := spec.value.text;
      assert s[k] == ':' && s[k + 1..] == text + "}" + tail;
      TextParses(specs, arg, s, k, text, tail, next, specs(arg, text + "}", next));
    }
  }

  /** The reference at the start of a written field. */
  lemma ArgParses(arg: Arg, next: int, rest: string)
    requires ArgOk(arg, next) && !arg.Auto? && rest != "" && (rest[0] == '}' || rest[0] == ':')
    ensures ArgText(arg) != "" && ParseArg(ArgText(arg) + rest) == Ok((RefOf(arg), |ArgText(arg)|))
    ensures ArgText(arg)[0] != '{' && ArgText(arg)[0] != '}' && ArgText(arg)[0] != ':'
  {
    match arg
    case Index(n) =>
      IntFits(n);
      IndexParses(n, rest);
    case Named(name) => NameParses(name, rest);
  }

  lemma AutoFrom(specs: SpecParser, s: string, next: nat, spec: Option<Spec>, e: nat, after: int)
    requires s != "" && (s[0] == '}' || s[0] == ':')
    requires ParseSpec(specs, Auto(next), s, 0, next + 1) == Ok((spec, e, after))
    ensures ParseField(specs, s, next) == Ok((Field(Auto(next), spec), e, after))
  {
  }

  lemma AutoParses(specs: SpecParser, spec: Option<Spec>, next: nat, tail: string)
    requires SpecOk(specs, Auto(next), spec, next + 1)
    ensures ParseField(specs, SpecText(spec) + tail, next)
            == Ok((Field(Auto(next), spec), |SpecText(spec)|, SpecAfter(specs, Auto(next), spec, next + 1)))
  {
    var close := SpecText(spec);
    assert "" + close + tail == close + tail;
    SpecParses(specs, Auto(next), close + tail, "", spec, tail, next + 1);
    AutoFrom(specs, close + tail, next, spec, |close|, SpecAfter(specs, Auto(next), spec, next + 1));
  }

  lemma FieldFrom(specs: SpecParser, s: string, next: int, arg: Arg, k: nat, taken: int, spec: Option<Spec>, e: nat,
                  after: int)
    requires s != "" && s[0] != '{' && s[0] != '}' && s[0] != ':' && k <= |s|
    requires ParseArg(s) == Ok((RefOf(arg), k)) && !arg.Auto? && TakeArg(next, arg) == Ok(taken)
    requires ParseSpec(specs, arg, s, k, taken) == Ok((spec, e, after))
    ensures ParseField(specs, s, next) == Ok((Field(arg, spec), e, after))
  {
  }

  lemma GivenArg(arg: Arg, next: int, s: string, close: string, tail: string)
    requires ArgOk(arg, next) && !arg.Auto? && close != "" && (close[0] == '}' || close[0] == ':')
    requires s == ArgText(arg) + close + tail
    ensures s != "" && s[0] != '{' && s[0] != '}' && s[0] != ':' && ParseArg(s) == Ok((RefOf(arg), |ArgText(arg)|))
  {
    assert (close + tail)[0] == close[0];
    ArgParses(arg, next, close + tail);
    assert s == ArgText(arg) + (close + tail);
  }

  lemma GivenParses(specs: SpecParser, arg: Arg, spec: Option<Spec>, s: string, front: string, close: string,
                    tail: string,
                    next: int, taken: int)
    requires ArgOk(arg, next) && !arg.Auto? && TakeArg(next, arg) == Ok(taken) && SpecOk(specs, arg, spec, taken)
    requires front == ArgText(arg) && close == SpecText(spec) && s == front + close + tail
    ensures ParseField(specs, s, next) == Ok((Field(arg, spec), |front| + |close|, SpecAfter(specs, arg, spec, taken)))
  {
    var k, e, after := |front|, |front| + |close|, SpecAfter(specs, arg, spec, taken);
    SpecStarts(spec);
    GivenArg(arg, next, s, close, tail);
    SpecParses(specs, arg, s, front, spec, tail, taken);
    FieldFrom(specs, s, next, arg, k, taken, spec, e, after);
  }

  lemma SpecStarts(spec: Option<Spec>)
    ensures SpecText(spec) != "" && (SpecText(spec)[0] == '}' || SpecText(spec)[0] == ':')
  {
  }

  lemma FieldParses(specs: SpecParser, arg: Arg, spec: Option<Spec>, next: int, tail: string)
    requires FieldOk(specs, arg, spec, next)
    ensures ParseField(specs, ArgText(arg) + SpecText(spec) + tail, next)
            == Ok((Field(arg, spec), |ArgText(arg)| + |SpecText(spec)|, FieldAfter(specs, arg, spec, next)))
  {
    if arg.Auto? {
      AutoParses(specs, spec, next, tail);
      assert ArgText(arg) + SpecText(spec) == SpecText(spec);
    } else {
      var front, close := ArgText(arg), SpecText(spec);
      GivenParses(specs, arg, spec, front + close + tail, front, close, tail, next, TakeArg(next, arg).value);
    }
  }

  /** Parsing undoes writing. */
  lemma {:induction false} ParseUnparse(specs: SpecParser, pieces: seq<Piece>, next: int)
    requires Writable(specs, pieces, next)
    ensures Parse(specs, Unparse(pieces), next) == Ok(pieces)
    decreases |pieces|
  {
    if pieces != [] {
      var tail := Unparse(pieces[1..]);
      assert pieces == [pieces[0]] + pieces[1..];
      match pieces[0]
      case Literal(c) =>
        ParseUnparse(specs, pieces[1..], next);
        LiteralParses(specs, c, tail, next);
      case Field(arg, spec) =>
        ParseUnparse(specs, pieces[1..], FieldAfter(specs, arg, spec, next));
        var body := ArgText(arg) + SpecText(spec);
        FieldParses(specs, arg, spec, next, tail);
        WholeField(specs, body, tail, next);
    }
  }

  lemma LiteralParses(specs: SpecParser, c: char, tail: string, next: int)
    ensures Parse(specs, PieceText(Literal(c)) + tail, next) == Prepend([Literal(c)], Parse(specs, tail, next))
  {
    var s := PieceText(Literal(c)) + tail;
    if c == '{' {
      assert s[0] == '{' && s[1..] == ['{'] + tail && s[2..] == tail;
      assert ParseField(specs, s[1..], next) == Ok((Literal('{'), 1, next));
    } else if c == '}' {
      assert s[0] == '}' && s[1] == '}' && s[2..] == tail;
    } else {
      assert s[0] == c && s[1..] == tail;
    }
  }

  lemma WholeField(specs: SpecParser, body: string, tail: string, next: int)
    requires ParseField(specs, body + tail, next).Ok? && ParseField(specs, body + tail, next).value.1 == |body|
    ensures var field := ParseField(specs, body + tail, next);
            Parse(specs, "{" + body + tail, next) == Prepend([field.value.0], Parse(specs, tail, field.value.2))
  {
    var s := "{" + body + tail;
    assert s[0] == '{' && s[1..] == body + tail && s[1 + |body|..] == tail;
  }

  // ----- Writing undoes parsing -----

  /** No index was clamped to the largest int. */
  ghost predicate Unclamped(pieces: seq<Piece>) {
    forall i :: 0 <= i < |pieces| ==> pieces[i].Literal? || pieces[i].arg != Index(INT_MAX)
  }

  lemma {:induction false} NameRunIs(s: string)
    ensures forall i :: 0 <= i < NameRun(s) ==> IsNameChar(s[i])
  {
    if s != "" && IsNameChar(s[0]) {
      NameRunIs(s[1..]);
      forall i | 0 <= i < NameRun(s) ensures IsNameChar(s[i]) {
        if i > 0 {
          assert s[i] == s[1..][i - 1];
        }
      }
    }
  }

  /** A parsed reference is the text it was parsed from. */
  lemma ArgSound(s: string, next: int)
    requires s != "" && ParseArg(s).Ok?
    ensures var (ref, k) := ParseArg(s).value;
            && k <= |s| && !ref.Next? && ArgOk(Resolve(ref, next), next)
            && (ref != At(INT_MAX) ==> ArgText(Resolve(ref, next)) == s[..k])
  {
    if IsDigit(s[0]) {
      var k := if s[0] == '0' then 1 else DigitRun(s);
      DigitRunIs(s);
      if s[0] != '0' {
        CanonicalDigits(s[..k]);
        NumberBound(s[..k]);
      } else {
        assert s[..1] == "0";
      }
    } else {
      NameRunIs(s);
    }
  }

  lemma SpecSound(specs: SpecParser, arg: Arg, s: string, k: nat, next: int)
    requires k <= |s| && ParseSpec(specs, arg, s, k, next).Ok?
    ensures var (spec, e, after) := ParseSpec(specs, arg, s, k, next).value;
            && k < e <= |s| && s[k..e] == SpecText(spec)
            && Accepted(if spec.None? then [] else spec.value.args, next)
            && StateAfter(if spec.None? then [] else spec.value.args, next) == after
  {
    if s[k] != '}' {
      var rest := s[k + 1..];
      var r := specs(arg, rest, next).value;
      assert s[k..k + 1 + r.0 + 1] == [s[k]] + rest[..r.0] + [rest[r.0]];
      RefsAccepted(next, r.1);
    }
  }

  /** A reference with its specifier is the text it was parsed from. */
  lemma FieldTextSound(specs: SpecParser, s: string, k: nat, arg: Arg, next: int)
    requires k <= |s| && ParseSpec(specs, arg, s, k, next).Ok? && ArgText(arg) == s[..k]
    ensures var (spec, e, _) := ParseSpec(specs, arg, s, k, next).value;
            e <= |s| && "{" + s[..e] == PieceText(Field(arg, spec))
  {
    SpecSound(specs, arg, s, k, next);
    var (spec, e, _) := ParseSpec(specs, arg, s, k, next).value;
    assert s[..e] == s[..k] + s[k..e];
  }

  lemma FieldSound(specs: SpecParser, s: string, next: int)
    requires ParseField(specs, s, next).Ok?
    ensures var (piece, e, after) := ParseField(specs, s, next).value;
            piece.Literal? || piece.arg != Index(INT_MAX) ==> "{" + s[..e] == PieceText(piece)
  {
    var (piece, e, after) := ParseField(specs, s, next).value;
    if s[0] == '{' {
      assert s[..1] == "{";
    } else if s[0] == '}' || s[0] == ':' {
      FieldTextSound(specs, s, 0, Auto(next), TakeArg(next, Auto(next)).value);
    } else {
      ArgSound(s, next);
      if piece.arg != Index(INT_MAX) {
        FieldTextSound(specs, s, ParseArg(s).value.1, piece.arg, TakeArg(next, piece.arg).value);
      }
    }
  }

  /** The first piece of a parse, and where the rest of the text starts. */
  lemma FirstPiece(specs: SpecParser, s: string, next: int) returns (q: nat, after: int)
    requires s != "" && Parse(specs, s, next).Ok? && Unclamped(Parse(specs, s, next).value)
    ensures 0 < q <= |s| && Parse(specs, s[q..], after).Ok?
    ensures var pieces := Parse(specs, s, next).value;
            pieces != [] && pieces[1..] == Parse(specs, s[q..], after).value && PieceText(pieces[0]) == s[..q]
  {
    var pieces := Parse(specs, s, next).value;
    if s[0] == '{' {
      var field := ParseField(specs, s[1..], next).value;
      ParseBrace(specs, s, next);
      assert pieces[0] == field.0;
      FieldSound(specs, s[1..], next);
      q, after := 1 + field.1, field.2;
      assert s[..q] == "{" + s[1..][..field.1];
    } else if s[0] == '}' {
      q, after := 2, next;
      assert s[..q] == "}}";
    } else {
      q, after := 1, next;
      assert s[..q] == [s[0]];
    }
  }

  /** Writing undoes parsing, unless an index was too large for an int. */
  lemma {:induction false} UnparseParse(specs: SpecParser, s: string, next: int)
    requires Parse(specs, s, next).Ok? && Unclamped(Parse(specs, s, next).value)
    ensures Unparse(Parse(specs, s, next).value) == s
    decreases |s|
  {
    if s != "" {
      var q, after := FirstPiece(specs, s, next);
      UnparseParse(specs, s[q..], after);
      assert s == s[..q] + s[q..];
    }
  }

  // ----- Automatic and manual indexing -----

  /** The references of a piece, in the order in which they are taken. */
  function PieceArgs(piece: Piece): seq<Arg> {
    if piece.Literal? then [] else [piece.arg] + if piece.spec.None? then [] else piece.spec.value.args
  }

  function Args(pieces: seq<Piece>): seq<Arg> {
    if pieces == [] then [] else PieceArgs(pieces[0]) + Args(pieces[1..])
  }

  /** The references are taken one after the other without an error, automatic ones getting the next number. */
  ghost predicate Accepted(args: seq<Arg>, next: int) {
    args == [] ||
    ((args[0].Auto? ==> args[0].id == next) && TakeArg(next, args[0]).Ok?
     && Accepted(args[1..], TakeArg(next, args[0]).value))
  }

  ghost function StateAfter(args: seq<Arg>, next: int): int {
    if args == [] || TakeArg(next, args[0]).Err? then next else StateAfter(args[1..], TakeArg(next, args[0]).value)
  }

  lemma {:induction false} AcceptedJoin(a: seq<Arg>, b: seq<Arg>, next: int)
    requires Accepted(a, next)
    ensures Accepted(a + b, next) <==> Accepted(b, StateAfter(a, next))
    ensures StateAfter(a + b, next) == StateAfter(b, StateAfter(a, next))
  {
    if a == [] {
      assert a + b == b;
    } else {
      AcceptedJoin(a[1..], b, TakeArg(next, a[0]).value);
      assert (a + b)[1..] == a[1..] + b;
    }
  }

  lemma {:induction false} RefsAccepted(next: int, refs: seq<Ref>)
    requires TakeRefs(next, refs).Ok?
    ensures Accepted(TakeRefs(next, refs).value.0, next)
    ensures StateAfter(TakeRefs(next, refs).value.0, next) == TakeRefs(next, refs).value.1
    decreases |refs|
  {
    if refs != [] {
      var arg := Resolve(refs[0], next);
      RefsAccepted(TakeArg(next, arg).value, refs[1..]);
      var args := TakeRefs(next, refs).value.0;
      assert args[0] == arg && args[1..] == TakeRefs(TakeArg(next, arg).value, refs[1..]).value.0;
    }
  }

  lemma FieldAccepts(specs: SpecParser, s: string, next: int)
    requires ParseField(specs, s, next).Ok?
    ensures var (piece, _, after) := ParseField(specs, s, next).value;
            Accepted(PieceArgs(piece), next) && StateAfter(PieceArgs(piece), next) == after
  {
    var (piece, _, after) := ParseField(specs, s, next).value;
    if piece.Field? {
      var taken := TakeArg(next, piece.arg).value;
      var k := if s[0] == '}' || s[0] == ':' then 0 else ParseArg(s).value.1;
      SpecSound(specs, piece.arg, s, k, taken);
      assert PieceArgs(piece)[1..] == if piece.spec.None? then [] else piece.spec.value.args;
    }
  }

  /** Each step of a parse takes the references of its first piece. */
  lemma FirstAccepts(specs: SpecParser, s: string, next: int) returns (q: nat, after: int)
    requires s != "" && Parse(specs, s, next).Ok?
    ensures 0 < q <= |s| && Parse(specs, s[q..], after).Ok?
    ensures var pieces := Parse(specs, s, next).value;
            && pieces != [] && pieces[1..] == Parse(specs, s[q..], after).value
            && Accepted(PieceArgs(pieces[0]), next) && StateAfter(PieceArgs(pieces[0]), next) == after
  {
    if s[0] == '{' {
      var field := ParseField(specs, s[1..], next).value;
      FieldAccepts(specs, s[1..], next);
      q, after := 1 + field.1, field.2;
    } else {
      q, after := if s[0] == '}' then 2 else 1, next;
    }
  }

  /** The references of an accepted format string, those inside specifiers included, are taken without an error. */
  lemma {:induction false} ParseAccepts(specs: SpecParser, s: string, next: int)
    requires Parse(specs, s, next).Ok?
    ensures Accepted(Args(Parse(specs, s, next).value), next)
    decreases |s|
  {
    if s != "" {
      var pieces := Parse(specs, s, next).value;
      var q, after := FirstAccepts(specs, s, next);
      ParseAccepts(specs, s[q..], after);
      AcceptedJoin(PieceArgs(pieces[0]), Args(pieces[1..]), next);
    }
  }

  /** Numbered automatic references, then no automatic ones, the first of these a name if both parts are there. */
  ghost predicate Shaped(args: seq<Arg>, k: int, next: int) {
    && 0 <= k <= |args|
    && (forall i :: 0 <= i < k ==> args[i] == Auto(next + i))
    && (forall i :: k <= i < |args| ==> !args[i].Auto?)
    && (next + k > 0 && k < |args| ==> args[k].Named?)
  }

  lemma {:induction false} ManualShape(args: seq<Arg>)
    ensures Accepted(args, -1) <==> forall i :: 0 <= i < |args| ==> !args[i].Auto?
  {
    if args != [] {
      ManualShape(args[1..]);
      if forall i :: 0 <= i < |args| ==> !args[i].Auto? {
        forall i | 0 <= i < |args[1..]| ensures !args[1..][i].Auto? {
          assert args[1..][i] == args[i + 1];
        }
      } else {
        var i :| 0 <= i < |args| && args[i].Auto?;
        if i > 0 {
          assert args[1..][i - 1] == args[i];
        }
      }
    }
  }

  lemma {:induction false} ShapeAccepted(args: seq<Arg>, k: nat, next: nat)
    requires Shaped(args, k, next)
    ensures Accepted(args, next)
  {
    if args != [] {
      if k > 0 {
        assert args[0] == Auto(next + 0);
        assert Shaped(args[1..], k - 1, next + 1);
        ShapeAccepted(args[1..], k - 1, next + 1);
      } else {
        ManualShape(args[1..]);
      }
    }
  }

  lemma {:induction false} AcceptedShape(args: seq<Arg>, next: nat) returns (k: nat)
    requires Accepted(args, next)
    ensures Shaped(args, k, next)
  {
    k := 0;
    if args != [] {
      if args[0].Auto? {
        var j := AcceptedShape(args[1..], next + 1);
        k := j + 1;
        forall i | 0 <= i < k ensures args[i] == Auto(next + i) {
          if i > 0 {
            assert args[1..][i - 1] == Auto(next + 1 + (i - 1));
          }
        }
        forall i | k <= i < |args| ensures !args[i].Auto? {
          assert args[1..][i - 1] == args[i];
        }
      } else {
        ManualShape(args[1..]);
        forall i | 0 <= i < |args| ensures !args[i].Auto? {
          if i > 0 {
            assert args[1..][i - 1] == args[i];
          }
        }
      }
    }
  }

  lemma MixedShape(args: seq<Arg>, k: int, i: nat, j: nat)
    requires Shaped(args, k, 0) && i < |args| && j < |args| && args[i].Auto? && args[j].Index?
    ensures i < j && exists m :: i < m < j && args[m].Named?
  {
    assert i < k <= j;
    assert args[k].Named?;
  }

  /** Without names, automatic and manual indexing never mix; a name in between lets them. */
  lemma ModesMixOnlyAfterName(specs: SpecParser, s: string, i: nat, j: nat)
    requires Parse(specs, s, 0).Ok?
    ensures var args := Args(Parse(specs, s, 0).value);
            i < |args| && j < |args| && args[i].Auto? && args[j].Index?
            ==> i < j && exists m :: i < m < j && args[m].Named?
  {
    var args := Args(Parse(specs, s, 0).value);
    ParseAccepts(specs, s, 0);
    var k := AcceptedShape(args, 0);
    if i < |args| && j < |args| && args[i].Auto? && args[j].Index? {
      MixedShape(args, k, i, j);
    }
  }

  /** A field in front of the rest of a format string. */
  lemma FieldFront(specs: SpecParser, s: string, arg: Arg, spec: Option<Spec>, next: int, tail: string)
    requires FieldOk(specs, arg, spec, next) && s == "{" + (ArgText(arg) + SpecText(spec)) + tail
    ensures Parse(specs, s, next) == Prepend([Field(arg, spec)], Parse(specs, tail, FieldAfter(specs, arg, spec, next)))
  {
    FieldParses(specs, arg, spec, next, tail);
    WholeField(specs, ArgText(arg) + SpecText(spec), tail, next);
  }

  /** A field without a specifier in front of the rest of a format string. */
  lemma BareField(specs: SpecParser, arg: Arg, next: int, tail: string)
    requires ArgOk(arg, next) && TakeArg(next, arg).Ok?
    ensures Parse(specs, "{" + (ArgText(arg) + "}") + tail, next)
            == Prepend([Field(arg, None)], Parse(specs, tail, TakeArg(next, arg).value))
  {
    FieldFront(specs, "{" + (ArgText(arg) + "}") + tail, arg, None, next, tail);
  }

  lemma NothingLeft(specs: SpecParser, next: int)
    ensures Parse(specs, "", next) == Ok([])
  {
  }

  /** Three fields without specifiers, each taken where the one before left off. */
  lemma ThreeFields(specs: SpecParser, s: string, a: Arg, b: Arg, c: Arg, first: int, second: int)
    requires s == "{" + (ArgText(a) + "}") + ("{" + (ArgText(b) + "}") + ("{" + (ArgText(c) + "}") + ""))
    requires ArgOk(a, 0) && TakeArg(0, a) == Ok(first)
    requires ArgOk(b, first) && TakeArg(first, b) == Ok(second)
    requires ArgOk(c, second) && TakeArg(second, c).Ok?
    ensures Parse(specs, s, 0) == Ok([Field(a, None), Field(b, None), Field(c, None)])
  {
    var end := "{" + (ArgText(c) + "}") + "";
    BareField(specs, c, second, "");
    NothingLeft(specs, TakeArg(second, c).value);
    assert [Field(c, None)] + [] == [Field(c, None)];
    BareField(specs, b, first, end);
    BareField(specs, a, 0, "{" + (ArgText(b) + "}") + end);
    assert [Field(b, None)] + [Field(c, None)] == [Field(b, None), Field(c, None)];
    assert [Field(a, None)] + [Field(b, None), Field(c, None)] == [Field(a, None), Field(b, None), Field(c, None)];
  }

  /** The check for mixed indexing lets this one pass, and not without the name. */
  lemma MixedExample(specs: SpecParser)
    ensures Parse(specs, "{}" + ("{a}" + "{0}"), 0)
            == Ok([Field(Auto(0), None), Field(Named("a"), None), Field(Index(0), None)])
    ensures Parse(specs, "{}" + "{0}", 0) == Err(ToManual)
  {
    assert Decimals(0) == "0";
    assert "{}" == "{" + ("" + "}") && "{a}" == "{" + ("a" + "}") && "{0}" + "" == "{0}" == "{" + ("0" + "}");
    ThreeFields(specs, "{}" + ("{a}" + "{0}"), Auto(0), Named("a"), Index(0), 1, -1);
    ManualRefused(specs);
  }

  lemma ManualRefused(specs: SpecParser)
    ensures Parse(specs, "{}" + "{0}", 0) == Err(ToManual)
  {
    BareField(specs, Auto(0), 0, "{0}");
    assert "{" + ("" + "}") == "{}" && "{0}"[1..] == "0}";
    assert ParseField(specs, "0}", 1) == Err(ToManual);
  }
}
