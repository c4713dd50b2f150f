/** Parsing format strings: escaped braces, replacement fields, and automatic or manual argument indexing. */
module FormatParser {
  import opened Common
  import opened Words
  import opened Decimal
  import opened Digits

  const INT_MAX: nat := 0x7fff_ffff

  // ----- Numbers -----

  /** How many digits a text starts with. */
  function DigitRun(s: string): (k: nat)
    ensures k <= |s|
  {
    if s != "" && IsDigit(s[0]) then 1 + DigitRun(s[1..]) else 0
  }

  lemma {:induction false} DigitRunIs(s: string)
    ensures AllDigits(s[..DigitRun(s)])
    ensures DigitRun(s) < |s| ==> !IsDigit(s[DigitRun(s)])
  {
    if s != "" && IsDigit(s[0]) {
      DigitRunIs(s[1..]);
      assert s[..DigitRun(s)] == [s[0]] + s[1..][..DigitRun(s[1..])];
    }
  }

  lemma {:induction false} DigitRunOf(digits: string, rest: string)
    requires AllDigits(digits) && (rest == "" || !IsDigit(rest[0]))
    ensures DigitRun(digits + rest) == |digits|
  {
    if digits == "" {
      assert digits + rest == rest;
    } else {
      DigitRunOf(digits[1..], rest);
      assert (digits + rest)[1..] == digits[1..] + rest;
    }
  }

  /** The value of a digit text, unless it has more than ten digits or exceeds the largest int. */
  function IntValue(digits: string, error: int): int {
    if |digits| <= 10 && Number(digits) <= INT_MAX then Number(digits) else error
  }

  /** The value of a digit text in wrapping 32-bit arithmetic, together with the value before its last digit. */
  method Accumulate(s: string) returns (v: nat, prev: nat, k: nat)
    ensures k == DigitRun(s) && v == Number(s[..k]) % BASE
    ensures k > 0 ==> prev == Number(s[..k - 1]) % BASE
  {
    v, prev, k := 0, 0, 0;
    DigitRunIs(s);
    while k < |s| && IsDigit(s[k])
      invariant k <= DigitRun(s)
      invariant v == Number(s[..k]) % BASE
      invariant k > 0 ==> prev == Number(s[..k - 1]) % BASE
    {
      prev := v;
      InRun(s, k);
      assert s[..k + 1] == s[..k] + [s[k]];
      NumberSnoc(s[..k], s[k]);
      WrapStep(Number(s[..k]), DigitValue(s[k]));
      v := (v * 10 + DigitValue(s[k])) % BASE;
      k := k + 1;
    }
  }

  /** One check at the end tells whether the wrapping value is right. */
  method CheckOverflow(digits: string, v: nat, prev: nat, error: int) returns (value: int)
    requires digits != "" && AllDigits(digits) && v == Number(digits) % BASE
    requires prev == Number(digits[..|digits| - 1]) % BASE
    ensures value == IntValue(digits, error)
  {
    var k := |digits|;
    if k <= 9 {
      SmallNumber(digits);
      return v;
    }
    if k == 10 {
      SmallNumber(digits[..9]);
      assert Number(digits) == 10 * prev + DigitValue(digits[9]);
      if prev * 10 + DigitValue(digits[9]) <= INT_MAX {
        return v;
      }
    }
    value := error;
  }

  method ParseNonnegativeInt(s: string, error: int) returns (value: int, k: nat)
    requires s != "" && IsDigit(s[0])
    ensures k == DigitRun(s) > 0 && value == IntValue(s[..k], error)
  {
    var v, prev;
    v, prev, k := Accumulate(s);
    DigitRunIs(s);
    assert s[..k][..k - 1] == s[..k - 1];
    value := CheckOverflow(s[..k], v, prev, error);
  }

  lemma {:induction false} InRun(s: string, k: nat)
    requires k < |s| && IsDigit(s[k]) && k <= DigitRun(s)
    ensures k < DigitRun(s)
  {
    DigitRunIs(s);
  }

  lemma WrapStep(n: int, d: int)
    ensures (n % BASE * 10 + d) % BASE == (10 * n + d) % BASE
  {
    var q := n / BASE;
    assert 10 * n + d == n % BASE * 10 + d + BASE * (10 * q);
  }

  lemma SmallNumber(digits: string)
    requires AllDigits(digits) && |digits| <= 9
    ensures 0 <= Number(digits) < 1_000_000_000
  {
    NumberBound(digits);
    PowMono(10, |digits|, 9);
    assert Pow(10, 9) == 1_000_000_000;
  }

  /** The check is exact except that more than ten digits are refused even when leading zeros make them small. */
  lemma IntValueExact(digits: string, error: int)
    requires digits != "" && AllDigits(digits) && error != Number(digits)
    ensures IntValue(digits, error) == (if Number(digits) <= INT_MAX then Number(digits) else error)
            <==> |digits| <= 10 || Number(digits) > INT_MAX
    ensures digits[0] != '0' ==> IntValue(digits, error) == if Number(digits) <= INT_MAX then Number(digits) else error
  {
    if |digits| > 10 && digits[0] != '0' {
      NumberBound(digits);
      PowMono(10, 10, |digits| - 1);
      assert Pow(10, 10) == 10_000_000_000;
    }
  }

  lemma {:induction false} LeadingZeros(k: nat)
    ensures AllDigits(seq(k, _ => '0')) && Number(seq(k, _ => '0')) == 0
  {
    if k > 0 {
      LeadingZeros(k - 1);
      NumberSnoc(seq(k - 1, _ => '0'), '0');
      assert seq(k, _ => '0') == seq(k - 1, _ => '0') + ['0'];
    }
  }

  /** Ten zeros in front of a 1. */
  lemma LeadingZerosExample()
    ensures AllDigits("00000000001") && Number("00000000001") == 1 && IntValue("00000000001", -1) == -1
  {
    var zeros := seq(10, _ => '0');
    LeadingZeros(10);
    NumberSnoc(zeros, '1');
    assert "00000000001" == zeros + ['1'];
  }

  // ----- Argument references -----

  /** A reference as it is written: the next argument, an index, or a name. */
  datatype Ref = Next | At(n: int) | By(name: string)

  /** A reference once taken; an automatic one has got its number. */
  datatype Arg = Auto(id: int) | Index(n: int) | Named(name: string)

  datatype Error =
    | InvalidFormat | Unmatched | MissingBrace | UnknownSpecifier | ToAutomatic | ToManual
    | InvalidSpecifier | InvalidFill | InvalidPrecision | NotNumeric | TooBig

  datatype Result<+T> = Ok(value: T) | Err(error: Error)

  function Resolve(ref: Ref, next: int): Arg {
    match ref
    case Next => Auto(next)
    case At(n) => Index(n)
    case By(name) => Named(name)
  }

  /** The indexing state: how many automatic arguments were taken, or -1 in manual mode. */
  function TakeArg(next: int, arg: Arg): Result<int> {
    match arg
    case Auto(_) => if next < 0 then Err(ToAutomatic) else Ok(next + 1)
    case Index(_) => if next > 0 then Err(ToManual) else Ok(-1)
    case Named(_) => Ok(-1)
  }

  /** Takes references one after the other. */
  function TakeRefs(next: int, refs: seq<Ref>): Result<(seq<Arg>, int)>
    decreases |refs|
  {
    if refs == [] then Ok(([], next))
    else
      var arg := Resolve(refs[0], next);
      var taken := TakeArg(next, arg);
      if taken.Err? then Err(taken.error)
      else
        var rest := TakeRefs(taken.value, refs[1..]);
        if rest.Err? then rest else Ok(([arg] + rest.value.0, rest.value.1))
  }

  predicate IsNameStart(c: char) {
    'a' <= c <= 'z' || 'A' <= c <= 'Z' || c == '_'
  }

  predicate IsNameChar(c: char) {
    IsNameStart(c) || IsDigit(c)
  }

  /** How many name characters a text starts with. */
  function NameRun(s: string): (k: nat)
    ensures k <= |s|
  {
    if s != "" && IsNameChar(s[0]) then 1 + NameRun(s[1..]) else 0
  }

  lemma {:induction false} NameRunOf(name: string, rest: string)
    requires (forall i :: 0 <= i < |name| ==> IsNameChar(name[i])) && (rest == "" || !IsNameChar(rest[0]))
    ensures NameRun(name + rest) == |name|
  {
    if name == "" {
      assert name + rest == rest;
    } else {
      NameRunOf(name[1..], rest);
      assert (name + rest)[1..] == name[1..] + rest;
    }
  }

  /** An argument reference and its length, before any check of the indexing mode. */
  function ParseArg(s: string): (r: Result<(Ref, nat)>)
    requires s != ""
    ensures r.Ok? ==> 0 < r.value.1 <= |s|
  {
    if IsDigit(s[0]) then
      var k := if s[0] == '0' then 1 else DigitRun(s);
      var n := if s[0] == '0' then 0 else IntValue(s[..k], INT_MAX);
      if k >= |s| || (s[k] != '}' && s[k] != ':') then Err(InvalidFormat) else Ok((At(n), k))
    else if !IsNameStart(s[0]) then Err(InvalidFormat)
    else Ok((By(s[..NameRun(s)]), NameRun(s)))
  }

  // ----- Replacement fields -----

  /** A specifier: its text and the arguments its width and precision take. */
  datatype Spec = Spec(text: string, args: seq<Arg>)

  datatype Piece = Literal(c: char) | Field(arg: Arg, spec: Option<Spec>)

  /** The specifier parser of an argument, given the text and the indexing state: how much of the text it consumes and
      which further arguments it refers to, or its error. */
  type SpecParser = (Arg, string, int) -> Result<(nat, seq<Ref>)>

  /** What follows the argument reference at `k`: a closing brace, or a colon and a specifier up to a closing brace. */
  function ParseSpec(specs: SpecParser, arg: Arg, s: string, k: nat, next: int): Result<(Option<Spec>, nat, int)>
    requires k <= |s|
  {
    if k < |s| && s[k] == '}' then Ok((None, k + 1, next))
    else if k == |s| || s[k] != ':' then Err(MissingBrace)
    else
      var rest := s[k + 1..];
      var r := specs(arg, rest, next);
      if r.Err? then Err(r.error)
      else
        var taken := TakeRefs(next, r.value.1);
        var e := r.value.0;
        if taken.Err? then Err(taken.error)
        else if e >= |rest| || rest[e] != '}' then Err(UnknownSpecifier)
        else Ok((Some(Spec(rest[..e], taken.value.0)), k + 1 + e + 1, taken.value.1))
  }

  /** A replacement field after its opening brace: the piece, its length and the new indexing state. */
  function ParseField(specs: SpecParser, s: string, next: int): (r: Result<(Piece, nat, int)>)
    ensures r.Ok? ==> 0 < r.value.1 <= |s|
  {
    if s == "" then Err(InvalidFormat)
    else if s[0] == '{' then Ok((Literal('{'), 1, next))
    else
      var found := if s[0] == '}' || s[0] == ':' then Ok((Next, 0)) else ParseArg(s);
      if found.Err? then Err(found.error)
      else
        var arg := Resolve(found.value.0, next);
        var taken := TakeArg(next, arg);
        if taken.Err? then Err(taken.error)
        else
          var spec := ParseSpec(specs, arg, s, found.value.1, taken.value);
          if spec.Err? then Err(spec.error) else Ok((Field(arg, spec.value.0), spec.value.1, spec.value.2))
  }

  function Prepend(front: seq<Piece>, r: Result<seq<Piece>>): Result<seq<Piece>> {
    if r.Ok? then Ok(front + r.value) else r
  }

  function Parse(specs: SpecParser, s: string, next: int): Result<seq<Piece>>
    decreases |s|
  {
    if s == "" then Ok([])
    else if s[0] == '{' then
      var field := ParseField(specs, s[1..], next);
      if field.Err? then Err(field.error)
      else Prepend([field.value.0], Parse(specs, s[1 + field.value.1..], field.value.2))
    else if s[0] == '}' then
      if |s| < 2 || s[1] != '}' then Err(Unmatched) else Prepend([Literal('}')], Parse(specs, s[2..], next))
    else Prepend([Literal(s[0])], Parse(specs, s[1..], next))
  }

  // ----- Parsing in one pass -----

  function Literals(text: string): (ps: seq<Piece>)
    ensures |ps| == |text|
  {
    if text == "" then [] else Literals(text[..|text| - 1]) + [Literal(text[|text| - 1])]
  }

  lemma PrependTwice(a: seq<Piece>, b: seq<Piece>, r: Result<seq<Piece>>)
    ensures Prepend(a, Prepend(b, r)) == Prepend(a + b, r)
  {
    if r.Ok? {
      assert a + (b + r.value) == (a + b) + r.value;
    }
  }

  lemma LiteralsSnoc(text: string, c: char)
    ensures Literals(text + [c]) == Literals(text) + [Literal(c)]
  {
    assert (text + [c])[..|text|] == text;
  }

  /** What was collected and what is left make up the whole parse. */
  ghost predicate SoFar(specs: SpecParser, fmt: string, pieces: seq<Piece>, begin: nat, p: nat, next: int) {
    begin <= p <= |fmt| && Parse(specs, fmt, 0)
      == Prepend(pieces + Literals(fmt[begin..p]), Parse(specs, fmt[p..], next))
  }

  lemma StartsSoFar(specs: SpecParser, fmt: string)
    ensures SoFar(specs, fmt, [], 0, 0, 0)
  {
    var r := Parse(specs, fmt, 0);
    assert fmt[0..] == fmt && fmt[0..0] == "" && [] + Literals("") == [];
    if r.Ok? {
      assert [] + r.value == r.value;
    }
  }

  /** A piece that ends a run of text. */
  lemma PieceSoFar(specs: SpecParser, fmt: string, pieces: seq<Piece>, begin: nat, p: nat, next: int, piece: Piece,
                   q: nat, after: int)
    requires SoFar(specs, fmt, pieces, begin, p, next) && q <= |fmt|
    requires Parse(specs, fmt[p..], next) == Prepend([piece], Parse(specs, fmt[q..], after))
    ensures SoFar(specs, fmt, pieces + Literals(fmt[begin..p]) + [piece], q, q, after)
  {
    var before := pieces + Literals(fmt[begin..p]);
    PrependTwice(before, [piece], Parse(specs, fmt[q..], after));
    assert fmt[q..q] == "" && before + [piece] + [] == before + [piece];
  }

  lemma ParseBrace(specs: SpecParser, s: string, next: int)
    requires s != "" && s[0] == '{'
    ensures var field := ParseField(specs, s[1..], next);
            Parse(specs, s, next) == if field.Err? then Err(field.error)
                                     else Prepend([field.value.0], Parse(specs, s[1 + field.value.1..], field.value.2))
  {
  }

  /** Reads the field whose opening brace is at `p`; `q` is where it ends. */
  method ReadField(specs: SpecParser, fmt: string, p: nat, next: int) returns (field: Result<(Piece, int)>, q: nat)
    requires p < |fmt| && fmt[p] == '{'
    ensures field.Err? ==> Parse(specs, fmt[p..], next) == Err(field.error)
    ensures field.Ok? ==> p < q <= |fmt|
    ensures field.Ok? ==>
              Parse(specs, fmt[p..], next) == Prepend([field.value.0], Parse(specs, fmt[q..], field.value.1))
  {
    var s := fmt[p..];
    ParseBrace(specs, s, next);
    var r := ParseField(specs, s[1..], next);
    if r.Err? {
      return Err(r.error), p;
    }
    q := p + 1 + r.value.1;
    assert s[1 + r.value.1..] == fmt[q..];
    field := Ok((r.value.0, r.value.2));
  }

  /** A doubled closing brace: the first one belongs to the run of text before it. */
  lemma DoubledBrace(specs: SpecParser, s: string, next: int)
    requires s != "" && s[0] == '}'
    ensures Parse(specs, s, next)
            == if |s| < 2 || s[1] != '}' then Err(Unmatched) else Prepend([Literal('}')], Parse(specs, s[2..], next))
  {
  }

  lemma RunWith(text: string, longer: string, c: char, pieces: seq<Piece>)
    requires longer == text + [c]
    ensures pieces + Literals(text) + [Literal(c)] == pieces + Literals(longer)
  {
    LiteralsSnoc(text, c);
  }

  lemma BraceSoFar(specs: SpecParser, fmt: string, pieces: seq<Piece>, begin: nat, p: nat, next: int)
    requires SoFar(specs, fmt, pieces, begin, p, next) && p < |fmt| && fmt[p] == '}'
    ensures if p + 1 == |fmt| || fmt[p + 1] != '}' then Parse(specs, fmt, 0) == Err(Unmatched)
            else SoFar(specs, fmt, pieces + Literals(fmt[begin..p + 1]), p + 2, p + 2, next)
  {
    var s := fmt[p..];
    DoubledBrace(specs, s, next);
    if p + 1 < |fmt| && fmt[p + 1] == '}' {
      assert s[2..] == fmt[p + 2..];
      RunWith(fmt[begin..p], fmt[begin..p + 1], '}', pieces);
      PrependTwice(pieces + Literals(fmt[begin..p]), [Literal('}')], Parse(specs, s[2..], next));
      NothingCollected(fmt, pieces + Literals(fmt[begin..p + 1]), p + 2);
    }
  }

  lemma NothingCollected(fmt: string, pieces: seq<Piece>, p: nat)
    requires p <= |fmt|
    ensures pieces + Literals(fmt[p..p]) == pieces
  {
    assert fmt[p..p] == "";
  }

  lemma PlainChar(specs: SpecParser, s: string, next: int)
    requires s != "" && s[0] != '{' && s[0] != '}'
    ensures Parse(specs, s, next) == Prepend([Literal(s[0])], Parse(specs, s[1..], next))
  {
  }

  lemma TextSoFar(specs: SpecParser, fmt: string, pieces: seq<Piece>, begin: nat, p: nat, next: int)
    requires SoFar(specs, fmt, pieces, begin, p, next) && p < |fmt| && fmt[p] != '{' && fmt[p] != '}'
    ensures SoFar(specs, fmt, pieces, begin, p + 1, next)
  {
    var s := fmt[p..];
    PlainChar(specs, s, next);
    assert s[1..] == fmt[p + 1..];
    RunWith(fmt[begin..p], fmt[begin..p + 1], fmt[p], pieces);
    PrependTwice(pieces + Literals(fmt[begin..p]), [Literal(fmt[p])], Parse(specs, s[1..], next));
  }

  lemma NothingPrepended(pieces: seq<Piece>)
    ensures Prepend(pieces, Ok([])) == Ok(pieces)
  {
    assert pieces + [] == pieces;
  }

  lemma EndsSoFar(specs: SpecParser, fmt: string, pieces: seq<Piece>, begin: nat, next: int)
    requires SoFar(specs, fmt, pieces, begin, |fmt|, next)
    ensures Parse(specs, fmt, 0) == Ok(pieces + Literals(fmt[begin..]))
  {
    var last := Literals(fmt[begin..|fmt|]);
    assert fmt[|fmt|..] == "" && fmt[begin..|fmt|] == fmt[begin..];
    NothingPrepended(pieces + last);
  }

  /** The parsing loop: text is handed over in runs, and both kinds of doubled braces end a run. */
  method ParseFormatString(specs: SpecParser, fmt: string) returns (r: Result<seq<Piece>>)
    ensures r == Parse(specs, fmt, 0)
  {
    var pieces: seq<Piece> := [];
    var begin, p, next := 0, 0, 0;
    StartsSoFar(specs, fmt);
    while p != |fmt|
      invariant 0 <= begin <= p <= |fmt| && SoFar(specs, fmt, pieces, begin, p, next)
      decreases |fmt| - p
    {
      var c := fmt[p];
      if c == '{' {
        var field, q := ReadField(specs, fmt, p, next);
        if field.Err? {
          return Err(field.error);
        }
        PieceSoFar(specs, fmt, pieces, begin, p, next, field.value.0, q, field.value.1);
        pieces := pieces + Literals(fmt[begin..p]) + [field.value.0];
        begin, p, next := q, q, field.value.1;
      } else if c == '}' {
        BraceSoFar(specs, fmt, pieces, begin, p, next);
        if p + 1 == |fmt| || fmt[p + 1] != '}' {
          return Err(Unmatched);
        }
        pieces := pieces + Literals(fmt[begin..p + 1]);
        begin, p := p + 2, p + 2;
      } else {
        TextSoFar(specs, fmt, pieces, begin, p, next);
        p := p + 1;
      }
    }
    EndsSoFar(specs, fmt, pieces, begin, next);
    r := Ok(pieces + Literals(fmt[begin..]));
  }
}
