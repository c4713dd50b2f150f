/** The standard format specifiers: which texts they are, and which further arguments they take. */
module FormatSpecs {
  import opened Common
  import opened Words
  import opened Decimal
  import opened Digits
  import opened FormatParser
  import opened FormatRoundTrip

  /** What the parser asks about the type of an argument. */
  datatype ArgType = Signed | Unsigned | Bool | Char | Float | CString | String | Pointer | Custom

  predicate Arithmetic(t: ArgType) {
    t.Signed? || t.Unsigned? || t.Bool? || t.Char? || t.Float?
  }

  predicate Integral(t: ArgType) {
    t.Signed? || t.Unsigned? || t.Bool? || t.Char?
  }

  // ----- Parts of a specifier -----

  /** A width or precision: written out, or taken from an argument. */
  datatype Amount = Given(text: string) | Taken(ref: Ref)

  datatype Part =
    | Align(fill: string, c: char)
    | Sign(c: char)
    | Alternate
    | Zero
    | Width(amount: Amount)
    | Precision(amount: Amount)
    | Locale
    | Kind(c: char)

  /** The place of a part in the order in which the parts have to come. */
  function Stage(part: Part): nat {
    match part
    case Align(_, _) => 1
    case Sign(_) => 2
    case Alternate => 3
    case Zero => 4
    case Width(_) => 5
    case Precision(_) => 6
    case Locale => 7
    case Kind(_) => 8
  }

  predicate IsAlign(c: char) {
    c == '<' || c == '>' || c == '^'
  }

  /** How many bytes the first byte of a fill character announces, whether or not they follow. */
  function CodePointLength(c: char): nat {
    var b := c as int;
    if 0xc0 <= b < 0xe0 then 2 else if 0xe0 <= b < 0xf0 then 3 else if 0xf0 <= b < 0xf8 then 4 else 1
  }

  /** The presentation types an argument type has. */
  predicate Presents(t: ArgType, c: char) {
    match c
    case 'd' | 'x' | 'X' | 'o' | 'b' | 'B' => Integral(t)
    case 'e' | 'E' | 'f' | 'F' | 'g' | 'G' | 'a' | 'A' => t.Float?
    case 'c' => Integral(t) && !t.Bool?
    case 's' => t.Bool? || t.String? || t.CString?
    case 'p' => t.Pointer? || t.CString?
    case '?' => t.Char? || t.String? || t.CString?
    case _ => false
  }

  predicate IsKind(c: char) {
    match c
    case 'd' | 'x' | 'X' | 'o' | 'b' | 'B' | 'e' | 'E' | 'f' | 'F' | 'g' | 'G' | 'a' | 'A' | 'c' | 's' | 'p' | '?' =>
      true
    case _ => false
  }

  // ----- Parsing -----

  /** `integer | "{" [arg_id] "}"`: the amount, its length, and the new indexing state. */
  function ParseDynamic(s: string, next: int): (r: Result<(Amount, nat, int)>)
    requires s != ""
    ensures r.Ok? ==> 0 < r.value.1 <= |s|
  {
    if IsDigit(s[0]) then
      var k := DigitRun(s);
      if IntValue(s[..k], -1) == -1 then Err(TooBig) else Ok((Given(s[..k]), k, next))
    else if s[0] != '{' || |s| == 1 then Err(InvalidFormat)
    else ParseNested(s[1..], next)
  }

  /** A reference after the opening brace, checked against the indexing mode before its closing brace is. */
  function ParseNested(s: string, next: int): (r: Result<(Amount, nat, int)>)
    requires s != ""
    ensures r.Ok? ==> 1 < r.value.1 <= |s| + 1
  {
    var found := if s[0] == '}' || s[0] == ':' then Ok((Next, 0)) else ParseArg(s);
    if found.Err? then Err(found.error)
    else
      var taken := TakeArg(next, Resolve(found.value.0, next));
      var k := found.value.1;
      if taken.Err? then Err(taken.error)
      else if k >= |s| || s[k] != '}' then Err(InvalidFormat)
      else Ok((Taken(found.value.0), k + 2, taken.value))
  }

  /** The stages may only go forward, and the type has to allow the part. */
  function Enter(stage: nat, part: Part, valid: bool, k: nat, next: int): Result<(Part, nat, int)> {
    if stage >= Stage(part) || !valid then Err(InvalidSpecifier) else Ok((part, k, next))
  }

  function ParseFill(s: string, stage: nat, next: int): (r: Result<(Part, nat, int)>)
    requires s != ""
    ensures r.Ok? ==> 0 < r.value.1 <= |s|
  {
    var k := CodePointLength(s[0]);
    if |s| <= k then Err(InvalidSpecifier)
    else if s[0] == '{' then Err(InvalidFill)
    else Enter(stage, Align(s[..k], s[k]), IsAlign(s[k]), k + 1, next)
  }

  function ParseWidth(s: string, stage: nat, next: int): (r: Result<(Part, nat, int)>)
    requires s != ""
    ensures r.Ok? ==> 0 < r.value.1 <= |s|
  {
    if stage >= 5 then Err(InvalidSpecifier)
    else
      var amount := ParseDynamic(s, next);
      if amount.Err? then Err(amount.error) else Ok((Width(amount.value.0), amount.value.1, amount.value.2))
  }

  predicate HasPrecision(t: ArgType) {
    t.Float? || t.String? || t.CString?
  }

  function ParsePrecision(t: ArgType, s: string, stage: nat, next: int): (r: Result<(Part, nat, int)>)
    requires s != ""
    ensures r.Ok? ==> 0 < r.value.1 <= |s|
  {
    if stage >= 6 || !HasPrecision(t) then Err(InvalidSpecifier)
    else if |s| == 1 then Err(InvalidPrecision)
    else
      var amount := ParseDynamic(s[1..], next);
      if amount.Err? then Err(amount.error) else Ok((Precision(amount.value.0), 1 + amount.value.1, amount.value.2))
  }

  /** One round of the loop: the part, its length, and the new indexing state. Before the first part, an alignment
      character in second place makes the first one a fill character, whatever it is. */
  function Step(t: ArgType, s: string, stage: nat, next: int): (r: Result<(Part, nat, int)>)
    requires s != ""
    ensures r.Ok? ==> 0 < r.value.1 <= |s|
  {
    var c := s[0];
    if stage == 0 && |s| > 1 && IsAlign(s[1]) then ParseFill(s, stage, next)
    else if IsAlign(c) then Enter(stage, Align("", c), true, 1, next)
    else if c == '+' || c == ' ' || c == '-' then Enter(stage, Sign(c), t.Signed? || t.Float?, 1, next)
    else if c == '#' then Enter(stage, Alternate, Arithmetic(t), 1, next)
    else if c == '0' then
      if stage < 4 && !Arithmetic(t) then Err(NotNumeric) else Enter(stage, Zero, true, 1, next)
    else if '1' <= c <= '9' || c == '{' then ParseWidth(s, stage, next)
    else if c == '.' then ParsePrecision(t, s, stage, next)
    else if c == 'L' then Enter(stage, Locale, Arithmetic(t), 1, next)
    else if IsKind(c) then if Presents(t, c) then Ok((Kind(c), 1, next)) else Err(InvalidSpecifier)
    else ParseFill(s, stage, next)
  }

  type AnyStep = (string, nat, int) -> Result<(Part, nat, int)>

  ghost predicate Advances(step: AnyStep) {
    forall s, stage, next :: step(s, stage, next).Ok? ==> 0 < step(s, stage, next).value.1 <= |s|
  }

  /** A round of the loop, given the text, the stage and the indexing state. */
  type LoopStep = step: AnyStep | Advances(step) witness (s: string, stage: nat, next: int) => Err(InvalidFormat)

  function StepFor(t: ArgType): LoopStep {
    (s: string, stage: nat, next: int) => if s == "" then Err(InvalidFormat) else Step(t, s, stage, next)
  }

  /** The parts up to a closing brace, the end of the text or a presentation type, and how far they reach. */
  function Scan(step: LoopStep, s: string, stage: nat, next: int): (r: Result<(nat, seq<Part>)>)
    ensures r.Ok? ==> r.value.0 <= |s|
    decreases |s|
  {
    if s == "" || s[0] == '}' then Ok((0, []))
    else
      var found := step(s, stage, next);
      if found.Err? then Err(found.error)
      else
        var (part, k, after) := found.value;
        if part.Kind? then Ok((k, [part])) else Extend(k, [part], Scan(step, s[k..], Stage(part), after))
  }

  /** Parts read so far in front of the result for the rest. */
  function Extend(k: nat, parts: seq<Part>, rest: Result<(nat, seq<Part>)>): Result<(nat, seq<Part>)> {
    if rest.Err? then rest else Ok((k + rest.value.0, parts + rest.value.1))
  }

  lemma ExtendTwice(j: nat, front: seq<Part>, k: nat, parts: seq<Part>, rest: Result<(nat, seq<Part>)>)
    ensures Extend(j, front, Extend(k, parts, rest)) == Extend(j + k, front + parts, rest)
  {
    if rest.Ok? {
      assert front + (parts + rest.value.1) == (front + parts) + rest.value.1;
    }
  }

  /** `parse_format_specs`: one round of the switch per part, until a closing brace, the end or a presentation type. */
  method ParseFormatSpecs(step: LoopStep, s: string, start: int) returns (r: Result<(nat, seq<Part>)>)
    ensures r == Scan(step, s, 0, start)
  {
    var i, stage, next := 0, 0, start;
    var parts: seq<Part> := [];
    ghost var all := Scan(step, s, 0, start);
    assert s[0..] == s && (all.Ok? ==> [] + all.value.1 == all.value.1);
    while i < |s| && s[i] != '}'
      invariant i <= |s| && Scan(step, s, 0, start) == Extend(i, parts, Scan(step, s[i..], stage, next))
      decreases |s| - i
    {
      var found := step(s[i..], stage, next);
      if found.Err? {
        return Err(found.error);
      }
      var (part, k, after) := found.value;
      assert s[i..][k..] == s[i + k..];
      if part.Kind? {
        return Ok((i + k, parts + [part]));
      }
      ExtendTwice(i, parts, k, [part], Scan(step, s[i + k..], Stage(part), after));
      i, stage, next, parts := i + k, Stage(part), after, parts + [part];
    }
    assert parts + [] == parts;
    r := Ok((i, parts));
  }

  // ----- Specifiers written out -----

  function AmountText(amount: Amount): string {
    if amount.Given? then amount.text else "{" + ArgText(Resolve(amount.ref, 0)) + "}"
  }

  function PartText(part: Part): string {
    match part
    case Align(fill, c) => fill + [c]
    case Sign(c) => [c]
    case Alternate => "#"
    case Zero => "0"
    case Width(amount) => AmountText(amount)
    case Precision(amount) => "." + AmountText(amount)
    case Locale => "L"
    case Kind(c) => [c]
  }

  function PartsText(parts: seq<Part>): string {
    if parts == [] then "" else PartText(parts[0]) + PartsText(parts[1..])
  }

  /** The references of a part and of all parts, in order. */
  function AmountRefs(amount: Amount): seq<Ref> {
    if amount.Taken? then [amount.ref] else []
  }

  function PartRefs(part: Part): seq<Ref> {
    if part.Width? || part.Precision? then AmountRefs(part.amount) else []
  }

  function Refs(parts: seq<Part>): seq<Ref> {
    if parts == [] then [] else PartRefs(parts[0]) + Refs(parts[1..])
  }

  ghost predicate AmountOk(amount: Amount) {
    match amount
    case Given(text) => text != "" && AllDigits(text) && IntValue(text, -1) != -1
    case Taken(ref) => ArgOk(Resolve(ref, 0), 0)
  }

  /** The part is well formed and the type allows it. */
  ghost predicate Fits(t: ArgType, part: Part) {
    match part
    case Align(fill, c) =>
      IsAlign(c) && (fill != "" ==> fill[0] != '{' && fill[0] != '}' && |fill| == CodePointLength(fill[0]))
    case Sign(c) => (c == '+' || c == ' ' || c == '-') && (t.Signed? || t.Float?)
    case Alternate => Arithmetic(t)
    case Zero => Arithmetic(t)
    case Width(amount) => AmountOk(amount) && (amount.Given? ==> amount.text[0] != '0')
    case Precision(amount) => AmountOk(amount) && HasPrecision(t)
    case Locale => Arithmetic(t)
    case Kind(c) => Presents(t, c)
  }

  /** Fitting parts in the order of their stages, each stage at most once. */
  ghost predicate InOrder(t: ArgType, parts: seq<Part>, stage: nat) {
    parts == [] || (stage < Stage(parts[0]) && Fits(t, parts[0]) && InOrder(t, parts[1..], Stage(parts[0])))
  }

  // ----- Parsing what was written -----

  /** No alignment character occurs after the first part. */
  ghost predicate Plain(text: string) {
    forall i :: 0 <= i < |text| ==> !IsAlign(text[i])
  }

  lemma PlainAmount(amount: Amount)
    requires AmountOk(amount)
    ensures Plain(AmountText(amount)) && AmountText(amount) != "" && AmountText(amount)[0] != '}'
  {
    if amount.Taken? && amount.ref.At? {
      IntFits(amount.ref.n);
    }
  }

  lemma PlainPart(t: ArgType, part: Part)
    requires Fits(t, part)
    ensures PartText(part) != "" && PartText(part)[0] != '}' && (!part.Align? ==> Plain(PartText(part)))
  {
    if part.Width? || part.Precision? {
      PlainAmount(part.amount);
    }
  }

  lemma {:induction false} PlainParts(t: ArgType, parts: seq<Part>, stage: nat)
    requires InOrder(t, parts, stage) && stage >= 1
    ensures Plain(PartsText(parts))
  {
    if parts != [] {
      PlainPart(t, parts[0]);
      PlainParts(t, parts[1..], Stage(parts[0]));
    }
  }

  /** What follows a width or a precision does not start with a digit. */
  lemma NoDigitNext(t: ArgType, parts: seq<Part>, stage: nat, tail: string)
    requires InOrder(t, parts, stage) && stage >= 5
    ensures !IsDigit((PartsText(parts) + "}" + tail)[0])
  {
    if parts != [] {
      PlainPart(t, parts[0]);
      assert (PartsText(parts) + "}" + tail)[0] == PartText(parts[0])[0];
    }
  }

  lemma NestedParses(ref: Ref, next: int, s: string, rest: string)
    requires s == ArgText(Resolve(ref, 0)) + "}" + rest && ArgOk(Resolve(ref, 0), 0)
    requires TakeArg(next, Resolve(ref, next)).Ok?
    ensures ParseNested(s, next) == Ok((Taken(ref), |ArgText(Resolve(ref, 0))| + 2,
                                        TakeArg(next, Resolve(ref, next)).value))
  {
    var text := ArgText(Resolve(ref, 0));
    assert s == text + ("}" + rest) && s[|text|] == '}';
    if !ref.Next? {
      ArgParses(Resolve(ref, 0), 0, "}" + rest);
    }
  }

  lemma GivenAmount(text: string, next: int, s: string, rest: string)
    requires AmountOk(Given(text)) && s == text + rest && (rest == "" || !IsDigit(rest[0]))
    ensures s != "" && ParseDynamic(s, next) == Ok((Given(text), |text|, next))
  {
    DigitRunOf(text, rest);
    assert s[0] == text[0] && s[..|text|] == text;
  }

  lemma BraceParses(s: string, next: int)
    requires |s| > 1 && s[0] == '{'
    ensures ParseDynamic(s, next) == ParseNested(s[1..], next)
  {
  }

  lemma Braced(s: string, text: string, rest: string)
    requires s == "{" + text + "}" + rest
    ensures |s| > 1 && s[0] == '{' && s[1..] == text + "}" + rest
  {
  }

  lemma TakenAmount(ref: Ref, next: int, s: string, rest: string)
    requires AmountOk(Taken(ref)) && s == AmountText(Taken(ref)) + rest && TakeArg(next, Resolve(ref, next)).Ok?
    ensures s != ""
    ensures ParseDynamic(s, next) == Ok((Taken(ref), |AmountText(Taken(ref))|, TakeArg(next, Resolve(ref, next)).value))
  {
    Braced(s, ArgText(Resolve(ref, 0)), rest);
    BraceParses(s, next);
    NestedParses(ref, next, s[1..], rest);
  }

  lemma DynamicParses(amount: Amount, next: int, s: string, rest: string)
    requires AmountOk(amount) && s == AmountText(amount) + rest && TakeRefs(next, AmountRefs(amount)).Ok?
    requires rest != "" && !IsDigit(rest[0])
    ensures s != "" && ParseDynamic(s, next) == Ok((amount, |AmountText(amount)|,
                                                    TakeRefs(next, AmountRefs(amount)).value.1))
  {
    match amount
    case Given(text) => GivenAmount(text, next, s, rest);
    case Taken(ref) =>
      assert AmountRefs(amount)[1..] == [];
      TakenAmount(ref, next, s, rest);
  }

  lemma FillParses(fill: string, c: char, s: string, rest: string, stage: nat, next: int)
    requires s == fill + [c] + rest && IsAlign(c) && stage == 0
    requires fill != "" && fill[0] != '{' && fill[0] != '}' && |fill| == CodePointLength(fill[0])
    ensures ParseFill(s, stage, next) == Ok((Align(fill, c), |fill| + 1, next))
  {
    assert s[0] == fill[0] && s[..|fill|] == fill && s[|fill|] == c;
  }

  lemma AlignSteps(t: ArgType, part: Part, s: string, rest: string, next: int)
    requires part.Align? && Fits(t, part) && s == PartText(part) + rest
    requires part.fill == "" && |s| > 1 ==> !IsAlign(s[1])
    ensures Step(t, s, 0, next) == Ok((part, |PartText(part)|, TakeRefs(next, PartRefs(part)).value.1))
  {
    if part.fill != "" {
      FillParses(part.fill, part.c, s, rest, 0, next);
      assert s[|part.fill|] == part.c;
    }
  }

  lemma WidthSteps(t: ArgType, part: Part, s: string, rest: string, stage: nat, next: int)
    requires part.Width? && Fits(t, part) && stage < 5 && s == PartText(part) + rest
    requires stage == 0 && |s| > 1 ==> !IsAlign(s[1])
    requires rest != "" && !IsDigit(rest[0]) && TakeRefs(next, PartRefs(part)).Ok?
    ensures Step(t, s, stage, next) == Ok((part, |PartText(part)|, TakeRefs(next, PartRefs(part)).value.1))
  {
    DynamicParses(part.amount, next, s, rest);
    assert s[0] == AmountText(part.amount)[0];
    assert '1' <= s[0] <= '9' || s[0] == '{';
    assert ParseWidth(s, stage, next) == Ok((part, |PartText(part)|, TakeRefs(next, PartRefs(part)).value.1));
  }

  lemma PrecisionParses(t: ArgType, amount: Amount, s: string, rest: string, stage: nat, next: int)
    requires AmountOk(amount) && HasPrecision(t) && stage < 6 && s != "" && s[1..] == AmountText(amount) + rest
    requires rest != "" && !IsDigit(rest[0]) && TakeRefs(next, AmountRefs(amount)).Ok?
    ensures ParsePrecision(t, s, stage, next)
            == Ok((Precision(amount), 1 + |AmountText(amount)|, TakeRefs(next, AmountRefs(amount)).value.1))
  {
    DynamicParses(amount, next, s[1..], rest);
  }

  lemma PointSteps(t: ArgType, s: string, stage: nat, next: int)
    requires s != "" && s[0] == '.' && (stage == 0 && |s| > 1 ==> !IsAlign(s[1]))
    ensures Step(t, s, stage, next) == ParsePrecision(t, s, stage, next)
  {
  }

  lemma AfterPoint(s: string, text: string, rest: string)
    requires s == "." + text + rest
    ensures s != "" && s[0] == '.' && s[1..] == text + rest
  {
  }

  lemma PrecisionSteps(t: ArgType, amount: Amount, s: string, rest: string, stage: nat, next: int)
    requires AmountOk(amount) && HasPrecision(t) && stage < 6 && s == "." + AmountText(amount) + rest
    requires stage == 0 && |s| > 1 ==> !IsAlign(s[1])
    requires rest != "" && !IsDigit(rest[0]) && TakeRefs(next, AmountRefs(amount)).Ok?
    ensures Step(t, s, stage, next)
            == Ok((Precision(amount), 1 + |AmountText(amount)|, TakeRefs(next, AmountRefs(amount)).value.1))
  {
    AfterPoint(s, AmountText(amount), rest);
    PointSteps(t, s, stage, next);
    PrecisionParses(t, amount, s, rest, stage, next);
  }

  lemma KindSteps(t: ArgType, part: Part, s: string, stage: nat, next: int)
    requires part.Kind? && Fits(t, part) && s != "" && s[0] == PartText(part)[0]
    requires stage == 0 && |s| > 1 ==> !IsAlign(s[1])
    ensures Step(t, s, stage, next) == Ok((part, |PartText(part)|, TakeRefs(next, PartRefs(part)).value.1))
  {
  }

  lemma FlagSteps(t: ArgType, part: Part, s: string, stage: nat, next: int)
    requires part.Sign? || part.Alternate? || part.Zero? || part.Locale?
    requires Fits(t, part) && stage < Stage(part) && s != "" && s[0] == PartText(part)[0]
    requires stage == 0 && |s| > 1 ==> !IsAlign(s[1])
    ensures Step(t, s, stage, next) == Ok((part, |PartText(part)|, TakeRefs(next, PartRefs(part)).value.1))
  {
  }

  lemma StepParses(t: ArgType, part: Part, s: string, rest: string, stage: nat, next: int)
    requires Fits(t, part) && stage < Stage(part) && s == PartText(part) + rest
    requires stage == 0 && (part.Align? ==> part.fill == "") && |s| > 1 ==> !IsAlign(s[1])
    requires rest != "" && (part.Width? || part.Precision? ==> !IsDigit(rest[0])) && TakeRefs(next, PartRefs(part)).Ok?
    ensures Step(t, s, stage, next) == Ok((part, |PartText(part)|, TakeRefs(next, PartRefs(part)).value.1))
  {
    if part.Align? {
      AlignSteps(t, part, s, rest, next);
    } else if part.Width? {
      WidthSteps(t, part, s, rest, stage, next);
    } else if part.Precision? {
      PrecisionSteps(t, part.amount, s, rest, stage, next);
    } else {
      assert s[0] == PartText(part)[0];
      if part.Kind? {
        KindSteps(t, part, s, stage, next);
      } else {
        FlagSteps(t, part, s, stage, next);
      }
    }
  }

  /** The part can be read off the front of `PartText(part) + rest`. */
  ghost predicate Readable(t: ArgType, part: Part, rest: string, stage: nat, next: int) {
    var s := PartText(part) + rest;
    && Fits(t, part) && stage < Stage(part) && TakeRefs(next, PartRefs(part)).Ok?
    && (stage == 0 && (part.Align? ==> part.fill == "") && |s| > 1 ==> !IsAlign(s[1]))
    && rest != "" && (part.Width? || part.Precision? ==> !IsDigit(rest[0]))
  }

  ghost predicate Reads(step: LoopStep, t: ArgType) {
    forall part, rest, stage, next :: Readable(t, part, rest, stage, next) ==>
      step(PartText(part) + rest, stage, next) == Ok((part, |PartText(part)|, TakeRefs(next, PartRefs(part)).value.1))
  }

  lemma StepReads(t: ArgType)
    ensures Reads(StepFor(t), t)
  {
    forall part, rest, stage, next | Readable(t, part, rest, stage, next)
      ensures StepFor(t)(PartText(part) + rest, stage, next)
              == Ok((part, |PartText(part)|, TakeRefs(next, PartRefs(part)).value.1))
    {
      StepParses(t, part, PartText(part) + rest, rest, stage, next);
    }
  }

  lemma TakeOneThen(next: int, part: Part, refs: seq<Ref>)
    requires TakeRefs(next, PartRefs(part) + refs).Ok?
    ensures TakeRefs(next, PartRefs(part)).Ok?
    ensures TakeRefs(TakeRefs(next, PartRefs(part)).value.1, refs).Ok?
  {
    var here := PartRefs(part);
    if here == [] {
      assert here + refs == refs;
    } else {
      assert (here + refs)[1..] == refs && here[1..] == [] && (here + refs)[0] == here[0];
    }
  }

  /** In second place there is no alignment character, except behind a fill character. */
  lemma NoFillSecond(part: Part, s: string, rest: seq<Part>, tail: string)
    requires PartText(part) != "" && (part.Align? ==> part.fill == "") && (!part.Align? ==> Plain(PartText(part)))
    requires Plain(PartsText(rest)) && s == PartText(part) + (PartsText(rest) + "}" + tail)
    ensures |s| > 1 && !IsAlign(s[1])
  {
    if |PartText(part)| > 1 {
      assert s[1] == PartText(part)[1];
    } else {
      assert s[1] == (PartsText(rest) + "}" + tail)[0];
    }
  }

  lemma WrittenPart(t: ArgType, part: Part, others: seq<Part>, rest: string, stage: nat, next: int, tail: string)
    requires Fits(t, part) && stage < Stage(part) && InOrder(t, others, Stage(part))
             && TakeRefs(next, PartRefs(part)).Ok?
    requires rest == PartsText(others) + "}" + tail
    ensures Readable(t, part, rest, stage, next)
    ensures PartText(part) != "" && PartText(part)[0] != '}'
  {
    PlainPart(t, part);
    PlainParts(t, others, Stage(part));
    if Stage(part) >= 5 {
      NoDigitNext(t, others, Stage(part), tail);
    }
    if part.Align? ==> part.fill == "" {
      NoFillSecond(part, PartText(part) + rest, others, tail);
    }
  }

  /** A part in front of what is read after it. */
  lemma ScanFront(step: LoopStep, s: string, text: string, rest: string, stage: nat, next: int, part: Part, after: int,
                  k: nat, others: seq<Part>)
    requires text != "" && text[0] != '}' && s == text + rest && step(s, stage, next) == Ok((part, |text|, after))
    requires if part.Kind? then k == 0 && others == [] else Scan(step, rest, Stage(part), after) == Ok((k, others))
    ensures Scan(step, s, stage, next) == Ok((|text| + k, [part] + others))
  {
    assert s[0] == text[0] && s[|text|..] == rest;
    assert part.Kind? ==> [part] + others == [part];
  }

  lemma NothingWritten(step: LoopStep, tail: string, stage: nat, next: int)
    ensures Scan(step, "" + "}" + tail, stage, next) == Ok((0, []))
  {
    assert ("" + "}" + tail)[0] == '}';
  }

  lemma KindIsLast(t: ArgType, parts: seq<Part>)
    requires InOrder(t, parts, 8)
    ensures parts == [] && PartsText(parts) == ""
  {
  }

  /** The parts after this one are read from the rest, `k` characters long. */
  ghost predicate RestRead(step: LoopStep, part: Part, others: seq<Part>, rest: string, next: int, k: nat)
    requires TakeRefs(next, PartRefs(part)).Ok?
  {
    if part.Kind? then k == 0 && others == []
    else Scan(step, rest, Stage(part), TakeRefs(next, PartRefs(part)).value.1) == Ok((k, others))
  }

  lemma ReadFront(step: LoopStep, t: ArgType, part: Part, s: string, rest: string, stage: nat, next: int, k: nat,
                  others: seq<Part>)
    requires Reads(step, t) && Readable(t, part, rest, stage, next) && PartText(part) != "" && PartText(part)[0] != '}'
    requires s == PartText(part) + rest && RestRead(step, part, others, rest, next, k)
    ensures Scan(step, s, stage, next) == Ok((|PartText(part)| + k, [part] + others))
  {
    var after := TakeRefs(next, PartRefs(part)).value.1;
    ScanFront(step, s, PartText(part), rest, stage, next, part, after, k, others);
  }

  lemma JoinText(a: string, b: string, all: string, tail: string, s: string, rest: string)
    requires all == a + b && s == all + "}" + tail && rest == b + "}" + tail
    ensures s == a + rest && |all| == |a| + |b|
  {
  }

  lemma JoinParts(parts: seq<Part>, s: string, rest: string, tail: string)
    requires parts != [] && s == PartsText(parts) + "}" + tail && rest == PartsText(parts[1..]) + "}" + tail
    ensures s == PartText(parts[0]) + rest && parts == [parts[0]] + parts[1..]
    ensures |PartsText(parts)| == |PartText(parts[0])| + |PartsText(parts[1..])|
  {
    JoinText(PartText(parts[0]), PartsText(parts[1..]), PartsText(parts), tail, s, rest);
  }

  /** One written part in front of others that are read back, `all` of them `n` characters long. */
  lemma WrittenFront(step: LoopStep, t: ArgType, part: Part, others: seq<Part>, all: seq<Part>, n: nat, s: string,
                     rest: string, stage: nat, next: int, tail: string)
    requires Reads(step, t) && Fits(t, part) && stage < Stage(part) && InOrder(t, others, Stage(part))
    requires TakeRefs(next, PartRefs(part)).Ok?
    requires s == PartText(part) + rest && rest == PartsText(others) + "}" + tail
    requires RestRead(step, part, others, rest, next, |PartsText(others)|)
    requires all == [part] + others && n == |PartText(part)| + |PartsText(others)|
    ensures Scan(step, s, stage, next) == Ok((n, all))
  {
    WrittenPart(t, part, others, rest, stage, next, tail);
    ReadFront(step, t, part, s, rest, stage, next, |PartsText(others)|, others);
  }

  /** A written specifier is read back, whatever follows its closing brace. */
  lemma {:induction false} ScanWritten(step: LoopStep, t: ArgType, parts: seq<Part>, s: string, stage: nat, next: int,
                                       tail: string)
    requires Reads(step, t) && InOrder(t, parts, stage) && TakeRefs(next, Refs(parts)).Ok?
    requires s == PartsText(parts) + "}" + tail
    ensures Scan(step, s, stage, next) == Ok((|PartsText(parts)|, parts))
    decreases |parts|
  {
    if parts == [] {
      NothingWritten(step, tail, stage, next);
    } else {
      var part, others := parts[0], parts[1..];
      var rest := PartsText(others) + "}" + tail;
      TakeOneThen(next, part, Refs(others));
      if part.Kind? {
        KindIsLast(t, others);
      } else {
        ScanWritten(step, t, others, rest, Stage(part), TakeRefs(next, PartRefs(part)).value.1, tail);
      }
      JoinParts(parts, s, rest, tail);
      WrittenFront(step, t, part, others, parts, |PartsText(parts)|, s, rest, stage, next, tail);
    }
  }

  // ----- Writing what was parsed -----

  lemma NestedSound(s: string, next: int)
    requires s != "" && ParseNested(s, next).Ok?
    ensures var (amount, k, after) := ParseNested(s, next).value;
            && AmountOk(amount) && amount.Taken? && TakeArg(next, Resolve(amount.ref, next)) == Ok(after)
            && (amount.ref != At(INT_MAX) ==> AmountText(amount) == "{" + s[..k - 1])
  {
    var (amount, k, after) := ParseNested(s, next).value;
    if amount.ref.Next? {
      assert s[..1] == "}";
    } else {
      ArgSound(s, 0);
      assert s[..k - 1] == s[..k - 2] + "}";
    }
  }

  lemma GivenSound(s: string, next: int)
    requires s != "" && IsDigit(s[0]) && ParseDynamic(s, next).Ok?
    ensures var (amount, k, after) := ParseDynamic(s, next).value;
            AmountOk(amount) && amount == Given(s[..k]) && k > 0 && after == next
  {
    DigitRunIs(s);
  }

  lemma TakeOne(next: int, ref: Ref, after: int)
    requires TakeArg(next, Resolve(ref, next)) == Ok(after)
    ensures TakeRefs(next, [ref]) == Ok(([Resolve(ref, next)], after))
  {
    assert [ref][1..] == [] && [Resolve(ref, next)] + [] == [Resolve(ref, next)];
  }

  lemma DynamicSound(s: string, next: int)
    requires s != "" && ParseDynamic(s, next).Ok?
    ensures var (amount, k, after) := ParseDynamic(s, next).value;
            && AmountOk(amount) && TakeRefs(next, AmountRefs(amount)).Ok?
            && TakeRefs(next, AmountRefs(amount)).value.1 == after
            && (At(INT_MAX) !in AmountRefs(amount) ==> AmountText(amount) == s[..k])
            && (amount.Given? ==> amount.text != "" && amount.text[0] == s[0])
  {
    if IsDigit(s[0]) {
      GivenSound(s, next);
    } else {
      NestedSound(s[1..], next);
      BraceParses(s, next);
      var (amount, k, after) := ParseDynamic(s, next).value;
      TakeOne(next, amount.ref, after);
      assert s[..k] == "{" + s[1..][..k - 1];
    }
  }

  /** What a round of the loop finds: a fitting part, in order, whose text and references it consumed. */
  ghost predicate StepIsSound(t: ArgType, s: string, stage: nat, next: int, part: Part, k: nat, after: int) {
    && k <= |s| && Fits(t, part) && stage < Stage(part)
    && TakeRefs(next, PartRefs(part)).Ok? && TakeRefs(next, PartRefs(part)).value.1 == after
    && (At(INT_MAX) !in PartRefs(part) ==> PartText(part) == s[..k])
  }

  lemma FillSound(t: ArgType, s: string, stage: nat, next: int)
    requires s != "" && s[0] != '}' && ParseFill(s, stage, next).Ok?
    ensures var (part, k, after) := ParseFill(s, stage, next).value;
            StepIsSound(t, s, stage, next, part, k, after)
  {
    var k := CodePointLength(s[0]);
    assert s[..k + 1] == s[..k] + [s[k]];
  }

  lemma WidthSound(t: ArgType, s: string, stage: nat, next: int)
    requires s != "" && s[0] != '0' && ParseWidth(s, stage, next).Ok?
    ensures var (part, k, after) := ParseWidth(s, stage, next).value;
            StepIsSound(t, s, stage, next, part, k, after)
  {
    DynamicSound(s, next);
  }

  lemma PrecisionSound(t: ArgType, s: string, stage: nat, next: int)
    requires s != "" && s[0] == '.' && ParsePrecision(t, s, stage, next).Ok?
    ensures var (part, k, after) := ParsePrecision(t, s, stage, next).value;
            StepIsSound(t, s, stage, next, part, k, after)
  {
    DynamicSound(s[1..], next);
    var k := ParsePrecision(t, s, stage, next).value.1;
    assert s[..k] == "." + s[1..][..k - 1];
  }

  lemma FlagSound(t: ArgType, s: string, stage: nat, next: int)
    requires s != "" && Step(t, s, stage, next).Ok? && Step(t, s, stage, next) != ParseFill(s, stage, next)
    requires IsAlign(s[0]) || s[0] == '+' || s[0] == ' ' || s[0] == '-' || s[0] == '#' || s[0] == '0' || s[0] == 'L'
    ensures var (part, k, after) := Step(t, s, stage, next).value;
            StepIsSound(t, s, stage, next, part, k, after)
  {
    assert s[..1] == [s[0]];
  }

  lemma KindSound(t: ArgType, s: string, stage: nat, next: int)
    requires s != "" && stage < 8 && IsKind(s[0]) && Step(t, s, stage, next).Ok?
    requires Step(t, s, stage, next) != ParseFill(s, stage, next)
    ensures var (part, k, after) := Step(t, s, stage, next).value;
            StepIsSound(t, s, stage, next, part, k, after)
  {
    OnlyIfPresented(t, s, stage, next);
    assert s[..1] == [s[0]];
  }

  lemma OnlyIfPresented(t: ArgType, s: string, stage: nat, next: int)
    requires s != "" && IsKind(s[0]) && Step(t, s, stage, next).Ok?
             && Step(t, s, stage, next) != ParseFill(s, stage, next)
    ensures Presents(t, s[0]) && Step(t, s, stage, next) == Ok((Kind(s[0]), 1, next))
  {
  }

  lemma StepSound(t: ArgType, s: string, stage: nat, next: int)
    requires s != "" && s[0] != '}' && stage < 8 && Step(t, s, stage, next).Ok?
    ensures var (part, k, after) := Step(t, s, stage, next).value;
            StepIsSound(t, s, stage, next, part, k, after)
  {
    var c := s[0];
    if Step(t, s, stage, next) == ParseFill(s, stage, next) {
      FillSound(t, s, stage, next);
    } else if IsKind(c) {
      KindSound(t, s, stage, next);
    } else if '1' <= c <= '9' || c == '{' {
      WidthSound(t, s, stage, next);
    } else if c == '.' {
      PrecisionSound(t, s, stage, next);
    } else {
      FlagSound(t, s, stage, next);
    }
  }

  ghost predicate IsSound(step: LoopStep, t: ArgType) {
    forall s, stage, next :: s != "" && s[0] != '}' && stage < 8 && step(s, stage, next).Ok? ==>
      var (part, k, after) := step(s, stage, next).value;
      StepIsSound(t, s, stage, next, part, k, after)
  }

  lemma StepsSound(t: ArgType)
    ensures IsSound(StepFor(t), t)
  {
    forall s, stage, next | s != "" && s[0] != '}' && stage < 8 && StepFor(t)(s, stage, next).Ok?
      ensures var (part, k, after) := StepFor(t)(s, stage, next).value;
              StepIsSound(t, s, stage, next, part, k, after)
    {
      StepSound(t, s, stage, next);
    }
  }

  lemma TakeThen(next: int, part: Part, refs: seq<Ref>)
    requires TakeRefs(next, PartRefs(part)).Ok? && TakeRefs(TakeRefs(next, PartRefs(part)).value.1, refs).Ok?
    ensures TakeRefs(next, PartRefs(part) + refs).Ok?
  {
    var here := PartRefs(part);
    if here == [] {
      assert here + refs == refs;
    } else {
      assert (here + refs)[1..] == refs && here[1..] == [] && (here + refs)[0] == here[0];
    }
  }

  lemma JoinSlices(s: string, k: nat, e: nat)
    requires k + e <= |s|
    ensures s[..k + e] == s[..k] + s[k..][..e]
  {
  }

  lemma SoundFront(t: ArgType, s: string, stage: nat, next: int, part: Part, k: nat, after: int, e: nat,
                   others: seq<Part>)
    requires StepIsSound(t, s, stage, next, part, k, after) && InOrder(t, others, Stage(part)) && k + e <= |s|
    requires TakeRefs(after, Refs(others)).Ok?
    requires At(INT_MAX) !in Refs(others) ==> PartsText(others) == s[k..][..e]
    ensures InOrder(t, [part] + others, stage) && TakeRefs(next, Refs([part] + others)).Ok?
    ensures At(INT_MAX) !in Refs([part] + others) ==> PartsText([part] + others) == s[..k + e]
  {
    TakeThen(next, part, Refs(others));
    var parts := [part] + others;
    assert parts[0] == part && parts[1..] == others;
    JoinSlices(s, k, e);
  }

  /** A specifier that was read consists of fitting parts in order, and they are its text up to where reading
      stopped. */
  lemma {:induction false} ScanSound(step: LoopStep, t: ArgType, s: string, stage: nat, next: int)
    requires IsSound(step, t) && stage < 8 && Scan(step, s, stage, next).Ok?
    ensures var (e, parts) := Scan(step, s, stage, next).value;
            && InOrder(t, parts, stage) && TakeRefs(next, Refs(parts)).Ok?
            && (At(INT_MAX) !in Refs(parts) ==> PartsText(parts) == s[..e])
    decreases |s|
  {
    if s != "" && s[0] != '}' {
      var (part, k, after) := step(s, stage, next).value;
      assert StepIsSound(t, s, stage, next, part, k, after);
      if part.Kind? {
        SoundFront(t, s, stage, next, part, k, after, 0, []);
        assert [part] + [] == [part];
      } else {
        ScanSound(step, t, s[k..], Stage(part), after);
        var (e, others) := Scan(step, s[k..], Stage(part), after).value;
        SoundFront(t, s, stage, next, part, k, after, e, others);
      }
    }
  }

  /** The parts are the specifier a text starts with, up to its closing brace. */
  ghost predicate Starts(t: ArgType, s: string, next: int, parts: seq<Part>) {
    var e := |PartsText(parts)|;
    && InOrder(t, parts, 0) && TakeRefs(next, Refs(parts)).Ok?
    && e < |s| && PartsText(parts) == s[..e] && s[e] == '}'
  }

  lemma StartsScans(t: ArgType, s: string, next: int, parts: seq<Part>)
    requires Starts(t, s, next, parts)
    ensures Scan(StepFor(t), s, 0, next) == Ok((|PartsText(parts)|, parts))
  {
    var e := |PartsText(parts)|;
    assert s == s[..e] + "}" + s[e + 1..];
    StepReads(t);
    ScanWritten(StepFor(t), t, parts, s, 0, next, s[e + 1..]);
  }

  lemma ScansStarts(t: ArgType, s: string, next: int, e: nat, parts: seq<Part>)
    requires Scan(StepFor(t), s, 0, next) == Ok((e, parts)) && e < |s| && s[e] == '}' && At(INT_MAX) !in Refs(parts)
    ensures Starts(t, s, next, parts) && e == |PartsText(parts)|
  {
    StepsSound(t);
    ScanSound(StepFor(t), t, s, 0, next);
  }

  /** The loop stops at a closing brace exactly after fitting parts in order, and these are what it read. The one
      exception is an index clamped to the largest int. */
  lemma SpecifierExact(t: ArgType, s: string, next: int, e: nat, parts: seq<Part>)
    requires At(INT_MAX) !in Refs(parts) && e < |s| && s[e] == '}'
    ensures Scan(StepFor(t), s, 0, next) == Ok((e, parts)) <==> Starts(t, s, next, parts) && e == |PartsText(parts)|
  {
    if Starts(t, s, next, parts) {
      StartsScans(t, s, next, parts);
    }
    if Scan(StepFor(t), s, 0, next) == Ok((e, parts)) {
      ScansStarts(t, s, next, e, parts);
    }
  }

  /** A specifier takes at most a width and a precision from further arguments. */
  lemma {:induction false} TakesAtMostTwo(t: ArgType, parts: seq<Part>, stage: nat)
    requires InOrder(t, parts, stage)
    ensures |Refs(parts)| <= (if stage < 5 then 1 else 0) + (if stage < 6 && HasPrecision(t) then 1 else 0)
  {
    if parts != [] {
      TakesAtMostTwo(t, parts[1..], Stage(parts[0]));
    }
  }

  // ----- Format strings with standard specifiers -----

  /** The specifier parser of a call: the standard one, or that of the argument's own formatter. */
  function StandardSpecs(types: Arg -> ArgType, custom: SpecParser): SpecParser {
    (arg: Arg, s: string, next: int) =>
      if types(arg).Custom? then custom(arg, s, next)
      else
        var r := Scan(StepFor(types(arg)), s, 0, next);
        if r.Err? then Err(r.error) else Ok((r.value.0, Refs(r.value.1)))
  }

  /** Any specifier in order can be written into a field. */
  lemma StandardWritable(types: Arg -> ArgType, custom: SpecParser, arg: Arg, parts: seq<Part>, next: int)
    requires !types(arg).Custom? && InOrder(types(arg), parts, 0) && TakeRefs(next, Refs(parts)).Ok?
    ensures var spec := Some(Spec(PartsText(parts), TakeRefs(next, Refs(parts)).value.0));
            && SpecOk(StandardSpecs(types, custom), arg, spec, next)
            && SpecAfter(StandardSpecs(types, custom), arg, spec, next) == TakeRefs(next, Refs(parts)).value.1
  {
    var t, text := types(arg), PartsText(parts);
    StepReads(t);
    forall tail ensures Scan(StepFor(t), text + "}" + tail, 0, next) == Ok((|text|, parts)) {
      ScanWritten(StepFor(t), t, parts, text + "}" + tail, 0, next, tail);
    }
    assert text + "}" + "" == text + "}";
  }

  /** A first field with a specifier, and a second one without. */
  lemma TwoFields(specs: SpecParser, s: string, end: string, spec: Spec, after: int, arg: Arg)
    requires SpecOk(specs, Auto(0), Some(spec), 1) && SpecAfter(specs, Auto(0), Some(spec), 1) == after
    requires ArgOk(arg, after) && TakeArg(after, arg).Ok?
    requires s == "{" + ("" + SpecText(Some(spec))) + end && end == "{" + (ArgText(arg) + "}") + ""
    ensures Parse(specs, s, 0) == Ok([Field(Auto(0), Some(spec)), Field(arg, None)])
  {
    BareField(specs, arg, after, "");
    NothingLeft(specs, TakeArg(after, arg).value);
    assert [Field(arg, None)] + [] == [Field(arg, None)];
    FieldFront(specs, s, Auto(0), Some(spec), 0, end);
    assert [Field(Auto(0), Some(spec))] + [Field(arg, None)] == [Field(Auto(0), Some(spec)), Field(arg, None)];
  }

  /** A width taken from an argument, and a second field. */
  lemma WidthThen(types: Arg -> ArgType, custom: SpecParser, s: string, end: string, text: string, ref: Ref, after: int,
                  arg: Arg)
    requires !types(Auto(0)).Custom? && ArgOk(Resolve(ref, 0), 0) && TakeArg(1, Resolve(ref, 1)) == Ok(after)
    requires text == "{" + ArgText(Resolve(ref, 0)) + "}" && ArgOk(arg, after) && TakeArg(after, arg).Ok?
    requires s == "{" + (":" + text + "}") + end && end == "{" + (ArgText(arg) + "}") + ""
    ensures Parse(StandardSpecs(types, custom), s, 0)
            == Ok([Field(Auto(0), Some(Spec(text, [Resolve(ref, 1)]))), Field(arg, None)])
  {
    var parts := [Width(Taken(ref))];
    assert parts[1..] == [] && PartsText(parts) == text && Refs(parts) == [ref];
    TakeOne(1, ref, after);
    StandardWritable(types, custom, Auto(0), parts, 1);
    var spec := Spec(text, [Resolve(ref, 1)]);
    assert SpecText(Some(spec)) == ":" + text + "}" && "" + SpecText(Some(spec)) == SpecText(Some(spec));
    TwoFields(StandardSpecs(types, custom), s, end, spec, after, arg);
  }

  /** A width taken from the next argument: the second field gets the one after it. */
  lemma NestedExample(types: Arg -> ArgType, custom: SpecParser)
    requires !types(Auto(0)).Custom?
    ensures Parse(StandardSpecs(types, custom), "{:{}}" + "{}", 0)
            == Ok([Field(Auto(0), Some(Spec("{}", [Auto(1)]))), Field(Auto(2), None)])
  {
    WidthThen(types, custom, "{:{}}" + "{}", "{}", "{}", Next, 2, Auto(2));
  }

  /** A width taken from a named argument: automatic and manual indexing mix. */
  lemma NestedNameExample(types: Arg -> ArgType, custom: SpecParser)
    requires !types(Auto(0)).Custom?
    ensures Parse(StandardSpecs(types, custom), "{:{a}}" + "{0}", 0)
            == Ok([Field(Auto(0), Some(Spec("{a}", [Named("a")]))), Field(Index(0), None)])
  {
    assert Decimals(0) == "0";
    WidthThen(types, custom, "{:{a}}" + "{0}", "{0}", "{a}", By("a"), -1, Index(0));
  }

  /** A precision of 1 that is refused for its leading zeros. */
  lemma LongPrecisionExample(t: ArgType, next: int)
    requires HasPrecision(t)
    ensures Scan(StepFor(t), "." + "00000000001" + "}", 0, next) == Err(TooBig)
  {
    var digits := "00000000001";
    var s := "." + digits + "}";
    LeadingZerosExample();
    DigitRunOf(digits, "}");
    assert s[0] == '.' && s[1] == '0' && s[1..] == digits + "}" && s[1..][..11] == digits;
    PointSteps(t, s, 0, next);
    assert ParseDynamic(s[1..], next) == Err(TooBig);
  }
}
