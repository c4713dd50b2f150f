/** Digit grouping: where separators go, how many there are, and writing them. */
module DigitGrouping {
  import opened Common

  const INT_MAX: int := 0x7fff_ffff
  const CHAR_MAX: int := 127

  /** Group sizes from the right, the last one repeating; a size that is not positive, or CHAR_MAX, ends the
      grouping. */
  datatype Grouping = Grouping(groups: seq<int>, separator: Option<char>) {
    predicate Valid() {
      (separator.Some? ==> groups != []) && forall i :: 0 <= i < |groups| ==> groups[i] <= CHAR_MAX
    }
  }

  datatype Cursor = Cursor(group: nat, pos: int)

  predicate Ends(size: int) {
    size <= 0 || size == CHAR_MAX
  }

  /** All groups before the cursor were used, so none of them ends the grouping. */
  predicate CursorOk(g: Grouping, c: Cursor) {
    c.group <= |g.groups| && c.pos >= 0 && forall i :: 0 <= i < c.group ==> !Ends(g.groups[i])
  }

  /** The next separator position, counted in digits from the right. */
  function Next(g: Grouping, c: Cursor): (r: (int, Cursor))
    requires g.Valid() && CursorOk(g, c)
    ensures CursorOk(g, r.1) && (r.0 == INT_MAX || (r.0 == r.1.pos > c.pos && r.0 <= c.pos + CHAR_MAX))
  {
    if g.separator.None? then (INT_MAX, c)
    else if c.group == |g.groups| then
      var pos := c.pos + g.groups[|g.groups| - 1];
      (pos, Cursor(c.group, pos))
    else if Ends(g.groups[c.group]) then (INT_MAX, c)
    else
      var pos := c.pos + g.groups[c.group];
      (pos, Cursor(c.group + 1, pos))
  }

  /** The separator positions inside a number of `n` digits. */
  function Positions(g: Grouping, c: Cursor, n: int): (ps: seq<int>)
    requires g.Valid() && CursorOk(g, c) && n <= INT_MAX
    ensures forall i :: 0 <= i < |ps| ==> c.pos < ps[i] < n
    ensures forall i, j :: 0 <= i < j < |ps| ==> ps[i] < ps[j]
    decreases n - c.pos
  {
    var (i, rest) := Next(g, c);
    if i >= n then [] else [i] + Positions(g, rest, n)
  }

  /** Each group has the size the grouping gives it, the last size repeating. */
  lemma {:induction false} GroupSizes(g: Grouping, c: Cursor, n: int, k: nat)
    requires g.Valid() && CursorOk(g, c) && n <= INT_MAX && k < |Positions(g, c, n)|
    ensures var ps := Positions(g, c, n);
            var at := if c.group + k < |g.groups| then c.group + k else |g.groups| - 1;
            0 <= at < |g.groups| && !Ends(g.groups[at]) && ps[k] - (if k == 0 then c.pos else ps[k - 1]) == g.groups[at]
    decreases k
  {
    var (i, rest) := Next(g, c);
    if k > 0 {
      assert Positions(g, c, n) == [i] + Positions(g, rest, n);
      GroupSizes(g, rest, n, k - 1);
    }
  }

  method CountSeparators(g: Grouping, digits: int) returns (count: nat)
    requires g.Valid() && digits <= INT_MAX
    ensures count == |Positions(g, Cursor(0, 0), digits)|
  {
    count := 0;
    ghost var before := Cursor(0, 0);
    var next := Next(g, Cursor(0, 0));
    while digits > next.0
      invariant CursorOk(g, before) && next == Next(g, before)
      invariant count + |Positions(g, before, digits)| == |Positions(g, Cursor(0, 0), digits)|
      decreases digits - before.pos
    {
      count := count + 1;
      before := next.1;
      next := Next(g, next.1);
    }
  }

  /** The first `i` digits with a separator before each digit that a position to its right calls for. */
  function Grouped(digits: string, i: nat, positions: seq<int>, separator: char): string
    requires i <= |digits|
  {
    if i == 0 then ""
    else
      Grouped(digits, i - 1, positions, separator)
      + (if |digits| - (i - 1) in positions then [separator] else []) + [digits[i - 1]]
  }

  function GroupedAll(g: Grouping, digits: string): string
    requires g.Valid() && |digits| <= INT_MAX
  {
    if g.separator.None? then digits
    else Grouped(digits, |digits|, Positions(g, Cursor(0, 0), |digits|), g.separator.value)
  }

  /** Collects the separator positions in a list headed by zero. */
  method Separators(g: Grouping, digits: int) returns (list: seq<int>)
    requires g.Valid() && 0 <= digits <= INT_MAX
    ensures list == [0] + Positions(g, Cursor(0, 0), digits)
  {
    list := [0];
    ghost var before := Cursor(0, 0);
    var next := Next(g, Cursor(0, 0));
    while next.0 != 0 && next.0 < digits
      invariant CursorOk(g, before) && next == Next(g, before)
      invariant list + Positions(g, before, digits) == [0] + Positions(g, Cursor(0, 0), digits)
      decreases digits - before.pos
    {
      assert Positions(g, before, digits) == [next.0] + Positions(g, next.1, digits);
      list := list + [next.0];
      before := next.1;
      next := Next(g, next.1);
    }
  }

  ghost predicate Rising(ps: seq<int>) {
    forall i, j :: 0 <= i < j < |ps| ==> ps[i] < ps[j]
  }

  /** `at` is the last entry of the list not above `x`. */
  ghost predicate LastUpTo(list: seq<int>, at: int, x: int) {
    0 <= at < |list| && list[at] <= x && forall k :: at < k < |list| ==> list[k] > x
  }

  lemma CursorMoves(list: seq<int>, at: int, x: int)
    requires Rising(list) && LastUpTo(list, at, x) && x > 0 && list[0] == 0
    ensures LastUpTo(list, if list[at] == x then at - 1 else at, x - 1)
  {
  }

  /** Membership above zero is one comparison. */
  lemma InList(ps: seq<int>, at: int, x: int)
    requires Rising([0] + ps) && LastUpTo([0] + ps, at, x) && x > 0
    ensures x in ps <==> ([0] + ps)[at] == x
  {
    var list := [0] + ps;
    if x in ps {
      var k :| 0 <= k < |ps| && ps[k] == x;
      assert list[k + 1] == x;
    }
  }

  /** One more digit, behind a separator if its position calls for one. */
  lemma GroupedStep(digits: string, i: nat, ps: seq<int>, separator: char, out: string)
    requires i < |digits| && out == Grouped(digits, i, ps, separator)
    ensures Grouped(digits, i + 1, ps, separator)
            == (if |digits| - i in ps then out + [separator] else out) + [digits[i]]
  {
    if |digits| - i !in ps {
      assert out + [] == out;
    }
  }

  /** Writes the digits with separators, walking the position list backwards. */
  method Apply(g: Grouping, digits: string) returns (out: string)
    requires g.Valid() && g.separator.Some? && |digits| <= INT_MAX
    ensures out == GroupedAll(g, digits)
  {
    var n := |digits|;
    var list := Separators(g, n);
    ghost var ps := Positions(g, Cursor(0, 0), n);
    assert Rising(list);
    out := "";
    var i := 0;
    var at := |list| - 1;
    while i < n
      invariant 0 <= i <= n && LastUpTo(list, at, n - i)
      invariant out == Grouped(digits, i, ps, g.separator.value)
    {
      InList(ps, at, n - i);
      CursorMoves(list, at, n - i);
      GroupedStep(digits, i, ps, g.separator.value, out);
      if n - i == list[at] {
        out := out + [g.separator.value];
        at := at - 1;
      }
      out := out + [digits[i]];
      i := i + 1;
    }
  }

  /** How many positions of a rising list lie beyond `x`. */
  function Beyond(ps: seq<int>, x: int): nat {
    if ps == [] || ps[|ps| - 1] <= x then 0 else 1 + Beyond(ps[..|ps| - 1], x)
  }

  lemma {:induction false} BeyondStep(ps: seq<int>, x: int)
    requires Rising(ps)
    ensures Beyond(ps, x) == Beyond(ps, x + 1) + if x + 1 in ps then 1 else 0
  {
    if ps != [] {
      var last := ps[|ps| - 1];
      var front := ps[..|ps| - 1];
      BeyondStep(front, x);
      assert ps == front + [last];
      if last == x + 1 {
        NoneBeyond(front, x);
        assert x + 1 !in front;
      }
    }
  }

  lemma NoneBeyond(ps: seq<int>, x: int)
    requires Rising(ps) && forall i :: 0 <= i < |ps| ==> ps[i] <= x
    ensures Beyond(ps, x) == 0
  {
  }

  lemma {:induction false} AllBeyond(ps: seq<int>, x: int)
    requires forall i :: 0 <= i < |ps| ==> ps[i] > x
    ensures Beyond(ps, x) == |ps|
  {
    if ps != [] {
      AllBeyond(ps[..|ps| - 1], x);
    }
  }

  /** Grouping adds exactly the counted separators. */
  lemma {:induction false} GroupedLength(digits: string, i: nat, ps: seq<int>, separator: char)
    requires i <= |digits| && Rising(ps) && forall k :: 0 <= k < |ps| ==> ps[k] < |digits|
    ensures |Grouped(digits, i, ps, separator)| == i + Beyond(ps, |digits| - i)
  {
    if i > 0 {
      GroupedLength(digits, i - 1, ps, separator);
      BeyondStep(ps, |digits| - i);
    } else {
      NoneBeyond(ps, |digits|);
    }
  }

  lemma GroupedSize(g: Grouping, digits: string)
    requires g.Valid() && |digits| <= INT_MAX
    ensures |GroupedAll(g, digits)| == |digits| + |Positions(g, Cursor(0, 0), |digits|)|
  {
    var ps := Positions(g, Cursor(0, 0), |digits|);
    if g.separator.Some? {
      GroupedLength(digits, |digits|, ps, g.separator.value);
      AllBeyond(ps, 0);
    }
  }

  function Strip(text: string, separator: char): string {
    if text == "" then ""
    else Strip(text[..|text| - 1], separator) + if text[|text| - 1] == separator then [] else [text[|text| - 1]]
  }

  lemma StripSnoc(text: string, c: char, separator: char)
    ensures Strip(text + [c], separator) == Strip(text, separator) + if c == separator then [] else [c]
  {
    assert (text + [c])[..|text|] == text;
  }

  /** Taking the separators out gives the digits back. */
  lemma {:induction false} GroupedStrips(digits: string, i: nat, ps: seq<int>, separator: char)
    requires i <= |digits| && separator !in digits
    ensures Strip(Grouped(digits, i, ps, separator), separator) == digits[..i]
  {
    if i > 0 {
      var before := Grouped(digits, i - 1, ps, separator);
      var marked := if |digits| - (i - 1) in ps then before + [separator] else before;
      GroupedStrips(digits, i - 1, ps, separator);
      GroupedStep(digits, i - 1, ps, separator, before);
      StripMarked(before, marked, separator, digits[i - 1]);
      OneMore(digits, i - 1);
    }
  }

  lemma OneMore(digits: string, i: nat)
    requires i < |digits|
    ensures digits[..i] + [digits[i]] == digits[..i + 1]
  {
  }

  lemma StripMarked(before: string, marked: string, separator: char, c: char)
    requires (marked == before || marked == before + [separator]) && c != separator
    ensures Strip(marked + [c], separator) == Strip(before, separator) + [c]
  {
    if marked != before {
      StripSeparator(before, separator);
    }
    StripSnoc(marked, c, separator);
  }

  lemma StripSeparator(text: string, separator: char)
    ensures Strip(text + [separator], separator) == Strip(text, separator)
  {
    StripSnoc(text, separator, separator);
    assert Strip(text, separator) + [] == Strip(text, separator);
  }

  lemma GroupingReversible(g: Grouping, digits: string)
    requires g.Valid() && |digits| <= INT_MAX && g.separator.Some? && g.separator.value !in digits
    ensures Strip(GroupedAll(g, digits), g.separator.value) == digits
  {
    GroupedStrips(digits, |digits|, Positions(g, Cursor(0, 0), |digits|), g.separator.value);
    assert digits[..|digits|] == digits;
  }
}
