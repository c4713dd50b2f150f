/** The compile-time check of literal format strings, and which of them the run-time parser accepts. */
module FormatChecker {
  import opened Common
  import opened Decimal
  import opened FormatParser
  import opened FormatRoundTrip
  import opened FormatSpecs

  // ----- The checker -----

  /** The checker looks a field's name up in its own table and leaves the indexing state alone. */
  function CheckArg(next: int, arg: Arg): Result<int> {
    if arg.Named? then Ok(next) else TakeArg(next, arg)
  }

  /** A replacement field after its opening brace, as the checker sees it. */
  function CheckField(specs: SpecParser, s: string, next: int): (r: Result<(Piece, nat, int)>)
    ensures r.Ok? ==> 0 < r.value.1 <= |s|
  {
    if s == "" then Err(InvalidFormat)
    else if s[0] == '{' then Ok((Literal('{'), 1, next))
    else
      var found := if s[0] == '}' || s[0] == ':' then Ok((Next, 0)) else ParseArg(s);
      if found.Err? then Err(found.error)
      else
        var arg := Resolve(found.value.0, next);
        var taken := CheckArg(next, arg);
        if taken.Err? then Err(taken.error)
        else
          var spec := ParseSpec(specs, arg, s, found.value.1, taken.value);
          if spec.Err? then Err(spec.error) else Ok((Field(arg, spec.value.0), spec.value.1, spec.value.2))
  }

  function Check(specs: SpecParser, s: string, next: int): Result<seq<Piece>>
    decreases |s|
  {
    if s == "" then Ok([])
    else if s[0] == '{' then
      var field := CheckField(specs, s[1..], next);
      if field.Err? then Err(field.error)
      else Prepend([field.value.0], Check(specs, s[1 + field.value.1..], field.value.2))
    else if s[0] == '}' then
      if |s| < 2 || s[1] != '}' then Err(Unmatched) else Prepend([Literal('}')], Check(specs, s[2..], next))
    else Prepend([Literal(s[0])], Check(specs, s[1..], next))
  }

  // ----- Specifier parsers and the indexing state -----

  /** The indexing state decides which references a specifier parser may take, and nothing else. */
  ghost predicate Steady(specs: SpecParser) {
    forall arg, s, c, d :: SpecTaken(specs, arg, s, c) ==>
      if TakeRefs(d, specs(arg, s, c).value.1).Ok? then specs(arg, s, d) == specs(arg, s, c)
        else !SpecTaken(specs, arg, s, d)
  }

  /** The specifier is read and its references can be taken. */
  predicate SpecTaken(specs: SpecParser, arg: Arg, s: string, next: int) {
    specs(arg, s, next).Ok? && TakeRefs(next, specs(arg, s, next).value.1).Ok?
  }

  /** References once more in manual mode: they can be taken exactly when none is automatic. */
  lemma {:induction false} RefsManual(c: int, refs: seq<Ref>)
    requires TakeRefs(c, refs).Ok?
    ensures TakeRefs(-1, refs).Ok? <==> forall a :: a in TakeRefs(c, refs).value.0 ==> !a.Auto?
    ensures TakeRefs(-1, refs).Ok? ==> TakeRefs(-1, refs).value == (TakeRefs(c, refs).value.0, -1)
    decreases |refs|
  {
    if refs != [] {
      var arg := Resolve(refs[0], c);
      var rest := TakeRefs(TakeArg(c, arg).value, refs[1..]).value.0;
      RefsManual(TakeArg(c, arg).value, refs[1..]);
      assert TakeRefs(c, refs).value.0 == [arg] + rest;
      assert arg in [arg] + rest;
    }
  }

  /** A specifier read in some state, read again in manual mode. */
  lemma SpecManual(specs: SpecParser, arg: Arg, s: string, k: nat, c: int)
    requires Steady(specs) && k <= |s| && ParseSpec(specs, arg, s, k, c).Ok?
    ensures var (spec, e, _) := ParseSpec(specs, arg, s, k, c).value;
            var manual := ParseSpec(specs, arg, s, k, -1);
            && (manual.Ok? <==> forall a :: a in SpecArgs(spec) ==> !a.Auto?)
            && (manual.Ok? ==> manual.value == (spec, e, -1))
  {
    if s[k] == ':' {
      var rest := s[k + 1..];
      var refs := specs(arg, rest, c).value.1;
      RefsManual(c, refs);
      assert SpecTaken(specs, arg, rest, c);
    }
  }

  function SpecArgs(spec: Option<Spec>): seq<Arg> {
    if spec.None? then [] else spec.value.args
  }

  // ----- Fields -----

  predicate HasName(piece: Piece) {
    piece.Field? && piece.arg.Named?
  }

  ghost predicate TakesAuto(piece: Piece) {
    exists a :: a in PieceArgs(piece) && a.Auto?
  }

  /** The field itself or a field before it is named. */
  predicate NamedBy(piece: Piece, named: bool) {
    named || HasName(piece)
  }

  lemma FieldTakes(arg: Arg, spec: Option<Spec>)
    ensures TakesAuto(Field(arg, spec)) <==> arg.Auto? || exists a :: a in SpecArgs(spec) && a.Auto?
  {
    var args := PieceArgs(Field(arg, spec));
    assert args == [arg] + SpecArgs(spec);
    assert args[0] == arg;
  }

  /** A checked field at run time: it is accepted unless a name has switched to manual mode before an automatic
      reference. */
  lemma FieldAtRunTime(specs: SpecParser, s: string, c: int, named: bool)
    requires Steady(specs) && CheckField(specs, s, c).Ok?
    ensures var (piece, e, after) := CheckField(specs, s, c).value;
            var run := ParseField(specs, s, if named then -1 else c);
            && (run.Ok? <==> !(NamedBy(piece, named) && TakesAuto(piece)))
            && (run.Ok? ==> run.value == (piece, e, if NamedBy(piece, named) then -1 else after))
  {
    var (piece, e, after) := CheckField(specs, s, c).value;
    if piece.Field? {
      FieldTakes(piece.arg, piece.spec);
      var k := if s[0] == '}' || s[0] == ':' then 0 else ParseArg(s).value.1;
      if NamedBy(piece, named) && !piece.arg.Auto? {
        SpecManual(specs, piece.arg, s, k, CheckArg(c, piece.arg).value);
      }
    } else {
      assert PieceArgs(piece) == [];
    }
  }

  // ----- Whole strings -----

  /** No automatic reference is taken by a named field or after one. */
  ghost predicate NamesLast(pieces: seq<Piece>, named: bool) {
    && (named ==> forall j :: 0 <= j < |pieces| ==> !TakesAuto(pieces[j]))
    && (forall i, j :: 0 <= i <= j < |pieces| && HasName(pieces[i]) ==> !TakesAuto(pieces[j]))
  }

  lemma NamesLastStep(piece: Piece, rest: seq<Piece>, named: bool)
    ensures NamesLast([piece] + rest, named)
       <==> !(NamedBy(piece, named) && TakesAuto(piece)) && NamesLast(rest, NamedBy(piece, named))
  {
    var pieces := [piece] + rest;
    assert pieces[0] == piece && pieces[1..] == rest;
    if NamesLast(pieces, named) {
      forall j | 0 <= j < |rest| ensures NamedBy(piece, named) ==> !TakesAuto(rest[j]) {
        assert pieces[j + 1] == rest[j];
      }
      forall i, j | 0 <= i <= j < |rest| && HasName(rest[i]) ensures !TakesAuto(rest[j]) {
        assert pieces[i + 1] == rest[i] && pieces[j + 1] == rest[j];
      }
    }
    if !(NamedBy(piece, named) && TakesAuto(piece)) && NamesLast(rest, NamedBy(piece, named)) {
      forall j | 0 <= j < |pieces| ensures named ==> !TakesAuto(pieces[j]) {
        assert j > 0 ==> pieces[j] == rest[j - 1];
      }
      forall i, j | 0 <= i <= j < |pieces| && HasName(pieces[i]) ensures !TakesAuto(pieces[j]) {
        assert j > 0 ==> pieces[j] == rest[j - 1];
        assert i > 0 ==> pieces[i] == rest[i - 1];
      }
    }
  }

  /** The first piece of a checked string, at run time. */
  lemma FirstAtRunTime(specs: SpecParser, s: string, c: int, named: bool) returns (piece: Piece, q: nat, after: int)
    requires Steady(specs) && s != "" && Check(specs, s, c).Ok?
    ensures 0 < q <= |s| && Check(specs, s[q..], after).Ok?
    ensures Check(specs, s, c).value == [piece] + Check(specs, s[q..], after).value
    ensures var r := if named then -1 else c;
            var r' := if NamedBy(piece, named) then -1 else after;
            if NamedBy(piece, named) && TakesAuto(piece) then Parse(specs, s, r).Err?
            else Parse(specs, s, r) == Prepend([piece], Parse(specs, s[q..], r'))
  {
    var r := if named then -1 else c;
    if s[0] == '{' {
      var field := CheckField(specs, s[1..], c).value;
      FieldAtRunTime(specs, s[1..], c, named);
      ParseBrace(specs, s, r);
      piece, q, after := field.0, 1 + field.1, field.2;
    } else {
      piece, q, after := Literal(s[0]), if s[0] == '}' then 2 else 1, c;
      assert PieceArgs(piece) == [];
      if s[0] == '}' {
        DoubledBrace(specs, s, r);
      } else {
        PlainChar(specs, s, r);
      }
    }
  }

  lemma {:induction false} CheckedFrom(specs: SpecParser, s: string, c: int, named: bool)
    requires Steady(specs) && Check(specs, s, c).Ok?
    ensures var pieces, run := Check(specs, s, c).value, Parse(specs, s, if named then -1 else c);
            && (run.Ok? <==> NamesLast(pieces, named))
            && (run.Ok? ==> run.value == pieces)
    decreases |s|
  {
    if s != "" {
      var piece, q, after := FirstAtRunTime(specs, s, c, named);
      CheckedFrom(specs, s[q..], after, NamedBy(piece, named));
      NamesLastStep(piece, Check(specs, s[q..], after).value, named);
    }
  }

  /** A string that passes the check is accepted at run time if and only if no automatic reference is taken by a named
      field or after one; its pieces are then the ones that were checked. */
  lemma CheckedAtRunTime(specs: SpecParser, s: string)
    requires Steady(specs) && Check(specs, s, 0).Ok?
    ensures var pieces, run := Check(specs, s, 0).value, Parse(specs, s, 0);
            && (run.Ok? <==> forall i, j ::
                               0 <= i <= j < |pieces| && HasName(pieces[i]) ==> !TakesAuto(pieces[j]))
            && (run.Ok? ==> run.value == pieces)
  {
    CheckedFrom(specs, s, 0, false);
  }

  /** Without a name, a field is the same to the checker and to the run-time parser. */
  lemma FieldAlike(specs: SpecParser, s: string, next: int)
    requires ParseField(specs, s, next).Ok? && !HasName(ParseField(specs, s, next).value.0)
    ensures CheckField(specs, s, next) == ParseField(specs, s, next)
  {
  }

  /** The first piece, to both. */
  lemma FirstAlike(specs: SpecParser, s: string, next: int) returns (piece: Piece, q: nat, after: int)
    requires s != "" && Parse(specs, s, next).Ok? && !HasName(Parse(specs, s, next).value[0])
    ensures 0 < q <= |s| && Parse(specs, s[q..], after).Ok?
    ensures Parse(specs, s, next).value == [piece] + Parse(specs, s[q..], after).value
    ensures Check(specs, s, next) == Prepend([piece], Check(specs, s[q..], after))
  {
    if s[0] == '{' {
      ParseBrace(specs, s, next);
      var field := ParseField(specs, s[1..], next).value;
      FieldAlike(specs, s[1..], next);
      piece, q, after := field.0, 1 + field.1, field.2;
    } else {
      piece, q, after := Literal(s[0]), if s[0] == '}' then 2 else 1, next;
    }
  }

  /** Without named fields the check and the run-time parser do the same. */
  lemma CheckedAlike(specs: SpecParser, s: string, next: int)
    requires Parse(specs, s, next).Ok?
    requires forall i :: 0 <= i < |Parse(specs, s, next).value| ==> !HasName(Parse(specs, s, next).value[i])
    ensures Check(specs, s, next) == Parse(specs, s, next)
  {
    AlikeFrom(specs, s, next, Parse(specs, s, next).value);
  }

  ghost predicate Nameless(pieces: seq<Piece>) {
    forall i :: 0 <= i < |pieces| ==> !HasName(pieces[i])
  }

  lemma NamelessRest(piece: Piece, rest: seq<Piece>, pieces: seq<Piece>)
    requires Nameless(pieces) && pieces == [piece] + rest
    ensures Nameless(rest)
  {
    forall i | 0 <= i < |rest| ensures !HasName(rest[i]) {
      assert rest[i] == pieces[i + 1];
    }
  }

  lemma {:induction false} AlikeFrom(specs: SpecParser, s: string, next: int, pieces: seq<Piece>)
    requires Parse(specs, s, next) == Ok(pieces) && Nameless(pieces)
    ensures Check(specs, s, next) == Ok(pieces)
    decreases |s|
  {
    if s != "" {
      var piece, q, after := FirstAlike(specs, s, next);
      var rest := Parse(specs, s[q..], after).value;
      NamelessRest(piece, rest, pieces);
      AlikeFrom(specs, s[q..], after, rest);
    }
  }

  // ----- Standard specifiers -----

  lemma NestedSteady(s: string, c: int, d: int)
    requires s != "" && ParseNested(s, c).Ok?
    ensures var (amount, k, _) := ParseNested(s, c).value;
            var taken := TakeRefs(d, AmountRefs(amount));
            if taken.Ok? then ParseNested(s, d) == Ok((amount, k, taken.value.1)) else ParseNested(s, d).Err?
  {
    var ref := ParseNested(s, c).value.0.ref;
    assert [ref][1..] == [];
    if TakeArg(d, Resolve(ref, d)).Ok? {
      TakeOne(d, ref, TakeArg(d, Resolve(ref, d)).value);
    }
  }

  lemma DynamicSteady(s: string, c: int, d: int)
    requires s != "" && ParseDynamic(s, c).Ok?
    ensures var (amount, k, _) := ParseDynamic(s, c).value;
            var taken := TakeRefs(d, AmountRefs(amount));
            if taken.Ok? then ParseDynamic(s, d) == Ok((amount, k, taken.value.1)) else ParseDynamic(s, d).Err?
  {
    if !IsDigit(s[0]) {
      BraceParses(s, c);
      BraceParses(s, d);
      NestedSteady(s[1..], c, d);
    }
  }

  /** A round of the loop, begun in another state. */
  ghost predicate StepAlike(step: Result<(Part, nat, int)>, other: Result<(Part, nat, int)>, d: int) {
    step.Ok? ==>
      var taken := TakeRefs(d, PartRefs(step.value.0));
      if taken.Ok? then other == Ok((step.value.0, step.value.1, taken.value.1)) else other.Err?
  }

  lemma WidthSteady(s: string, stage: nat, c: int, d: int)
    requires s != ""
    ensures StepAlike(ParseWidth(s, stage, c), ParseWidth(s, stage, d), d)
  {
    if ParseWidth(s, stage, c).Ok? {
      DynamicSteady(s, c, d);
    }
  }

  lemma PrecisionSteady(t: ArgType, s: string, stage: nat, c: int, d: int)
    requires s != ""
    ensures StepAlike(ParsePrecision(t, s, stage, c), ParsePrecision(t, s, stage, d), d)
  {
    if ParsePrecision(t, s, stage, c).Ok? {
      DynamicSteady(s[1..], c, d);
    }
  }

  lemma FillSteady(s: string, stage: nat, c: int, d: int)
    requires s != ""
    ensures StepAlike(ParseFill(s, stage, c), ParseFill(s, stage, d), d)
  {
  }

  lemma StepSteady(t: ArgType, s: string, stage: nat, c: int, d: int)
    requires s != ""
    ensures StepAlike(Step(t, s, stage, c), Step(t, s, stage, d), d)
  {
    WidthSteady(s, stage, c, d);
    PrecisionSteady(t, s, stage, c, d);
    FillSteady(s, stage, c, d);
  }

  ghost predicate SteadyLoop(step: LoopStep) {
    forall s, stage, c, d :: s != "" ==> StepAlike(step(s, stage, c), step(s, stage, d), d)
  }

  lemma StepsSteady(t: ArgType)
    ensures SteadyLoop(StepFor(t))
  {
    forall s, stage, c, d | s != "" ensures StepAlike(StepFor(t)(s, stage, c), StepFor(t)(s, stage, d), d) {
      StepSteady(t, s, stage, c, d);
    }
  }

  /** A specifier read in one state is read alike in any other in which its references can be taken. */
  lemma {:induction false} ScanSteady(step: LoopStep, s: string, stage: nat, c: int, d: int)
    requires SteadyLoop(step) && Scan(step, s, stage, c).Ok?
    ensures var refs := Refs(Scan(step, s, stage, c).value.1);
            if TakeRefs(d, refs).Ok? then Scan(step, s, stage, d) == Scan(step, s, stage, c)
              else Scan(step, s, stage, d).Err?
    decreases |s|
  {
    if s != "" && s[0] != '}' {
      var (part, k, after) := step(s, stage, c).value;
      assert StepAlike(step(s, stage, c), step(s, stage, d), d);
      var taken := TakeRefs(d, PartRefs(part));
      if part.Kind? {
        assert [part][1..] == [] && PartRefs(part) + [] == PartRefs(part);
      } else {
        var others := Scan(step, s[k..], Stage(part), after).value.1;
        assert ([part] + others)[1..] == others;
        JoinedRefs(d, part, Refs(others));
        if taken.Ok? {
          ScanSteady(step, s[k..], Stage(part), after, taken.value.1);
        }
      }
    }
  }

  lemma JoinedRefs(next: int, part: Part, refs: seq<Ref>)
    ensures TakeRefs(next, PartRefs(part) + refs).Ok?
       <==> TakeRefs(next, PartRefs(part)).Ok? && TakeRefs(TakeRefs(next, PartRefs(part)).value.1, refs).Ok?
  {
    if TakeRefs(next, PartRefs(part) + refs).Ok? {
      TakeOneThen(next, part, refs);
    }
    if TakeRefs(next, PartRefs(part)).Ok? && TakeRefs(TakeRefs(next, PartRefs(part)).value.1, refs).Ok? {
      TakeThen(next, part, refs);
    }
  }

  /** The standard specifiers look at the indexing state only to take their references. */
  lemma StandardSteady(types: Arg -> ArgType, custom: SpecParser)
    requires Steady(custom)
    ensures Steady(StandardSpecs(types, custom))
  {
    var specs := StandardSpecs(types, custom);
    forall arg, s, c, d | SpecTaken(specs, arg, s, c)
      ensures if TakeRefs(d, specs(arg, s, c).value.1).Ok? then specs(arg, s, d) == specs(arg, s, c)
              else !SpecTaken(specs, arg, s, d)
    {
      if types(arg).Custom? {
        assert SpecTaken(custom, arg, s, c);
        assert SpecTaken(custom, arg, s, d) <==> SpecTaken(specs, arg, s, d);
      } else {
        StepsSteady(types(arg));
        ScanSteady(StepFor(types(arg)), s, 0, c, d);
      }
    }
  }

  // ----- Examples -----

  lemma CheckBrace(specs: SpecParser, s: string, body: string, tail: string, next: int, piece: Piece, after: int)
    requires s == "{" + body + tail && CheckField(specs, body + tail, next) == Ok((piece, |body|, after))
    ensures Check(specs, s, next) == Prepend([piece], Check(specs, tail, after))
  {
    assert s[0] == '{' && s[1..] == body + tail && s[1 + |body|..] == tail;
  }

  lemma BareFieldChecked(specs: SpecParser, arg: Arg, next: int, s: string, tail: string)
    requires ArgOk(arg, next) && CheckArg(next, arg).Ok? && s == ArgText(arg) + "}" + tail
    ensures CheckField(specs, s, next) == Ok((Field(arg, None), |ArgText(arg)| + 1, CheckArg(next, arg).value))
  {
    assert s[|ArgText(arg)|] == '}';
    if !arg.Auto? {
      GivenArg(arg, next, s, "}", tail);
    }
  }

  /** A field without a specifier in front of the rest of a format string, as the checker sees it. */
  lemma BareChecked(specs: SpecParser, arg: Arg, next: int, tail: string)
    requires ArgOk(arg, next) && CheckArg(next, arg).Ok?
    ensures Check(specs, "{" + (ArgText(arg) + "}") + tail, next)
            == Prepend([Field(arg, None)], Check(specs, tail, CheckArg(next, arg).value))
  {
    var body := ArgText(arg) + "}";
    BareFieldChecked(specs, arg, next, body + tail, tail);
    CheckBrace(specs, "{" + body + tail, body, tail, next, Field(arg, None), CheckArg(next, arg).value);
  }

  /** A named field and then an automatic one: it passes the check and is refused at run time. */
  lemma CheckedRefused(specs: SpecParser)
    ensures Check(specs, "{a}" + "{}", 0) == Ok([Field(Named("a"), None), Field(Auto(0), None)])
    ensures Parse(specs, "{a}" + "{}", 0) == Err(ToAutomatic)
  {
    assert "{a}" == "{" + ("a" + "}") && "{}" + "" == "{}" == "{" + ("" + "}");
    BareChecked(specs, Named("a"), 0, "{}");
    BareChecked(specs, Auto(0), 0, "");
    assert [Field(Named("a"), None)] + ([Field(Auto(0), None)] + []) == [Field(Named("a"), None), Field(Auto(0), None)];
    BareField(specs, Named("a"), 0, "{}");
    AutomaticRefused(specs);
  }

  lemma AutomaticRefused(specs: SpecParser)
    ensures Parse(specs, "{}", -1) == Err(ToAutomatic)
  {
    assert ParseField(specs, "}", -1) == Err(ToAutomatic);
    assert "{}"[1..] == "}";
  }

  /** An automatic field, a name and an index: the run-time parser accepts it, but the check does not, so no literal
      reaches the parser with it. */
  lemma MixedUnchecked(specs: SpecParser)
    ensures Check(specs, "{}" + ("{a}" + "{0}"), 0) == Err(ToManual)
  {
    assert "{}" == "{" + ("" + "}") && "{a}" == "{" + ("a" + "}");
    BareChecked(specs, Auto(0), 0, "{a}" + "{0}");
    BareChecked(specs, Named("a"), 1, "{0}");
    IndexUnchecked(specs);
  }

  lemma IndexUnchecked(specs: SpecParser)
    ensures Check(specs, "{0}", 1) == Err(ToManual)
  {
    assert CheckField(specs, "0}", 1) == Err(ToManual);
    assert "{0}"[1..] == "0}";
  }

  /** With the name inside a specifier the check lets the modes mix, too. */
  lemma NestedChecked(types: Arg -> ArgType, custom: SpecParser)
    requires !types(Auto(0)).Custom?
    ensures Check(StandardSpecs(types, custom), "{:{a}}" + "{0}", 0)
            == Ok([Field(Auto(0), Some(Spec("{a}", [Named("a")]))), Field(Index(0), None)])
  {
    NestedNameExample(types, custom);
    CheckedAlike(StandardSpecs(types, custom), "{:{a}}" + "{0}", 0);
  }
}
