/** The cached header, patched in place per call, against headers rendered from scratch. */
module HeaderCache {
  import opened Words
  import opened Decimal
  import opened HeaderText

  // ----- Slots -----

  function StampWidth(o: Options): nat {
    if o.showDate then 19 else 8
  }

  function FractionAt(o: Options): nat {
    StampWidth(o) + 2
  }

  function ThreadAt(o: Options): nat {
    1 + StampWidth(o) + (if o.precision.NoFraction? then 0 else 1 + FractionWidth(o.precision)) + 3
  }

  function TagAt(o: Options, name: string): nat {
    1 + StampWidth(o) + (if o.precision.NoFraction? then 0 else 1 + FractionWidth(o.precision)) + 2
    + (if o.showThreadId then 9 else 0) + (if name == "" then 0 else |name| + 3) + 1
  }

  /** The slots lie in the header, in order and apart from each other. */
  lemma SlotsDisjoint(o: Options, name: string, stamp: string, fraction: string, thread: string, tag: string)
    requires Fits(o, stamp, fraction, thread, tag)
    ensures 1 + StampWidth(o) < FractionAt(o) || o.precision.NoFraction?
    ensures o.precision.NoFraction? || FractionAt(o) + FractionWidth(o.precision) + 2 < ThreadAt(o)
    ensures o.showThreadId ==> 1 + StampWidth(o) < ThreadAt(o) && ThreadAt(o) + 6 < TagAt(o, name)
    ensures 1 + StampWidth(o) + (if o.precision.NoFraction? then 0 else 1 + FractionWidth(o.precision)) < TagAt(o, name)
    ensures TagAt(o, name) + LEVEL_WIDTH + 2 == |Layout(o, name, stamp, fraction, thread, tag)|
  {
  }

  ghost predicate Fits(o: Options, stamp: string, fraction: string, thread: string, tag: string) {
    |stamp| == StampWidth(o) && |fraction| == FractionWidth(o.precision) && |tag| == LEVEL_WIDTH
    && |thread| == if o.showThreadId then 6 else 0
  }

  lemma SetStamp(o: Options, name: string, stamp: string, fraction: string, thread: string, tag: string, now: string)
    requires Fits(o, stamp, fraction, thread, tag) && |now| == |stamp|
    ensures var h := Layout(o, name, stamp, fraction, thread, tag);
            && |h| > 1 + |stamp| && h[1..1 + |stamp|] == stamp
            && Patch(h, 1, now) == Layout(o, name, now, fraction, thread, tag)
  {
    var back := (if o.precision.NoFraction? then "" else "." + fraction) + AfterFraction(o, name, thread, tag);
    PatchMiddle("[", stamp, back, now);
    MiddleOf("[", stamp, back);
  }

  lemma MiddleOf(front: string, middle: string, back: string)
    ensures (front + middle + back)[|front|..|front| + |middle|] == middle
  {
  }

  lemma SetFraction(o: Options, name: string, stamp: string, fraction: string, thread: string, tag: string, now: string)
    requires Fits(o, stamp, fraction, thread, tag) && |now| == |fraction| && !o.precision.NoFraction?
    ensures var h := Layout(o, name, stamp, fraction, thread, tag);
            && FractionAt(o) + |now| <= |h|
            && Patch(h, FractionAt(o), now) == Layout(o, name, stamp, now, thread, tag)
  {
    var back := AfterFraction(o, name, thread, tag);
    PatchMiddle(".", fraction, back, now);
    PatchBack("[" + stamp, "." + fraction + back, 1, now);
  }

  lemma SetThread(o: Options, name: string, stamp: string, fraction: string, thread: string, tag: string, now: string)
    requires Fits(o, stamp, fraction, thread, tag) && |now| == |thread| && o.showThreadId
    ensures var h := Layout(o, name, stamp, fraction, thread, tag);
            && ThreadAt(o) + |now| <= |h|
            && Patch(h, ThreadAt(o), now) == Layout(o, name, stamp, fraction, now, tag)
  {
    var back := AfterFraction(o, name, thread, tag);
    ThreadInBack(o, name, thread, tag, now);
    var dotted := if o.precision.NoFraction? then "" else "." + fraction;
    assert ThreadAt(o) == |"[" + stamp| + |dotted| + 3;
    PatchThird("[" + stamp, dotted, back, 3, now);
  }

  lemma ThreadInBack(o: Options, name: string, thread: string, tag: string, now: string)
    requires |now| == |thread| && o.showThreadId
    ensures 3 + |now| <= |AfterFraction(o, name, thread, tag)|
    ensures Patch(AfterFraction(o, name, thread, tag), 3, now) == AfterFraction(o, name, now, tag)
  {
    var back := "] " + AfterThread(name, tag);
    PatchMiddle("] [", thread, back, now);
    Regroup("] ", "[", thread, "] ", AfterThread(name, tag));
    Regroup("] ", "[", now, "] ", AfterThread(name, tag));
  }

  lemma Regroup(a: string, b: string, c: string, d: string, e: string)
    ensures a + (b + c + d) + e == (a + b) + c + (d + e)
  {
  }

  lemma TagInBack(name: string, tag: string, now: string)
    requires |now| == |tag|
    ensures var at := (if name == "" then 0 else |name| + 3) + 1;
            && at + |now| + 2 == |AfterThread(name, tag)|
            && Patch(AfterThread(name, tag), at, now) == AfterThread(name, now)
  {
    PatchMiddle((if name == "" then "" else Bracketed(name)) + "[", tag, "] ", now);
  }

  lemma TagInFraction(o: Options, name: string, thread: string, tag: string, now: string)
    requires |now| == |tag| && |thread| == if o.showThreadId then 6 else 0
    ensures var at := 2 + (if o.showThreadId then 9 else 0) + (if name == "" then 0 else |name| + 3) + 1;
            && at + |now| + 2 == |AfterFraction(o, name, thread, tag)|
            && Patch(AfterFraction(o, name, thread, tag), at, now) == AfterFraction(o, name, thread, now)
  {
    TagInBack(name, tag, now);
    PatchBack("] " + if o.showThreadId then Bracketed(thread) else "", AfterThread(name, tag),
              (if name == "" then 0 else |name| + 3) + 1, now);
  }

  /** Patching the last part of three. */
  lemma PatchThird(a: string, b: string, c: string, at: nat, now: string)
    requires at + |now| <= |c|
    ensures Patch(a + (b + c), |a| + |b| + at, now) == a + (b + Patch(c, at, now))
  {
    PatchBack(b, c, at, now);
    PatchBack(a, b + c, |b| + at, now);
  }

  lemma TagIsLast(o: Options, name: string, stamp: string, fraction: string, thread: string, tag: string)
    requires Fits(o, stamp, fraction, thread, tag)
    ensures |Layout(o, name, stamp, fraction, thread, tag)| == TagAt(o, name) + LEVEL_WIDTH + 2
  {
  }

  lemma SetTag(o: Options, name: string, stamp: string, fraction: string, thread: string, tag: string, now: string)
    requires Fits(o, stamp, fraction, thread, tag) && |now| == |tag|
    ensures TagAt(o, name) + |now| + 2 == |Layout(o, name, stamp, fraction, thread, tag)|
    ensures Patch(Layout(o, name, stamp, fraction, thread, tag), TagAt(o, name), now)
            == Layout(o, name, stamp, fraction, thread, now)
  {
    var at := 2 + (if o.showThreadId then 9 else 0) + (if name == "" then 0 else |name| + 3) + 1;
    var dotted := if o.precision.NoFraction? then "" else "." + fraction;
    TagIsLast(o, name, stamp, fraction, thread, tag);
    TagInFraction(o, name, thread, tag, now);
    assert TagAt(o, name) == |"[" + stamp| + |dotted| + at;
    PatchThird("[" + stamp, dotted, AfterFraction(o, name, thread, tag), at, now);
  }

  // ----- The timestamp digits -----

  /** The zeros a rebuilt header starts with. */
  function Blank(o: Options): (s: string)
    ensures |s| == StampWidth(o)
  {
    if o.showDate then "0000-00-00 00:00:00" else "00:00:00"
  }

  /** Two patches around a character that stays are one patch. */
  lemma PatchGap(s: string, off: nat, a: string, c: char, b: string)
    requires off + |a| + 1 + |b| <= |s| && s[off + |a|] == c
    ensures Patch(Patch(s, off, a), off + |a| + 1, b) == Patch(s, off, a + [c] + b)
  {
  }

  lemma PatchSame(s: string, off: nat, a: string, c: char)
    requires off + |a| + 1 <= |s| && s[off + |a|] == c
    ensures Patch(s, off, a) == Patch(s, off, a + [c])
  {
  }

  method PutDate(h: string, off: nat, m: Moment) returns (r: string)
    requires off + 11 <= |h| && m.InRange()
    requires h[off + 4] == '-' && h[off + 7] == '-' && h[off + 10] == ' '
    ensures r == Patch(h, off, DateText(m))
  {
    r := Put4(h, off, m.year);
    r := Put2(r, off + 5, m.month);
    PatchGap(h, off, Padded(m.year, 4), '-', Padded(m.month, 2));
    r := Put2(r, off + 8, m.day);
    var date := Padded(m.year, 4) + "-" + Padded(m.month, 2);
    PatchGap(h, off, date, '-', Padded(m.day, 2));
    PatchSame(h, off, date + "-" + Padded(m.day, 2), ' ');
  }

  method PutTime(h: string, off: nat, m: Moment) returns (r: string)
    requires off + 8 <= |h| && m.InRange() && h[off + 2] == ':' && h[off + 5] == ':'
    ensures r == Patch(h, off, TimeText(m))
  {
    r := Put2(h, off, m.hour);
    r := Put2(r, off + 3, m.minute);
    PatchGap(h, off, Padded(m.hour, 2), ':', Padded(m.minute, 2));
    r := Put2(r, off + 6, m.second);
    PatchGap(h, off, Padded(m.hour, 2) + ":" + Padded(m.minute, 2), ':', Padded(m.second, 2));
  }

  ghost predicate Punctuated(o: Options, stamp: string)
    requires |stamp| == StampWidth(o)
  {
    var t := if o.showDate then 11 else 0;
    (o.showDate ==> stamp[4] == '-' && stamp[7] == '-' && stamp[10] == ' ') && stamp[t + 2] == ':'
      && stamp[t + 5] == ':'
  }

  method PutStamp(h: string, o: Options, m: Moment) returns (r: string)
    requires |h| > 1 + StampWidth(o) && m.InRange() && Punctuated(o, h[1..1 + StampWidth(o)])
    ensures r == Patch(h, 1, Stamp(o, m))
  {
    var off := 1;
    r := h;
    if o.showDate {
      r := PutDate(r, off, m);
      off := off + 11;
    }
    r := PutTime(r, off, m);
    if o.showDate {
      PatchJoin(h, 1, DateText(m), TimeText(m));
    } else {
      assert "" + TimeText(m) == TimeText(m);
    }
  }

  lemma StampPunctuated(o: Options, m: Moment)
    ensures Punctuated(o, Stamp(o, m)) && Punctuated(o, Blank(o))
  {
  }

  // ----- The cache -----

  /** What the cached header stands for: `stamped` says that its digits were written since it was last rebuilt. */
  datatype Cache = Cache(name: string, stamped: bool, lastSecs: nat) {
    function Named(name: string): Cache {
      Cache(name, false, 0)
    }

    function At(second: nat): Cache {
      Cache(name, stamped || second != lastSecs, second)
    }

    function ShownStamp(cal: Calendar, o: Options): (s: string)
      ensures |s| == StampWidth(o)
    {
      if stamped then Stamp(o, cal(o.utc, lastSecs)) else Blank(o)
    }

    /** The header the cache gives for a call. */
    function Shown(cal: Calendar, o: Options, call: Call): string {
      var c := At(call.Second());
      Layout(o, name, c.ShownStamp(cal, o), Fraction(o.precision, call.nanos % NANOS), ThreadText(o, call.tid),
             Tag(call.level))
    }
  }

  lemma Associate(a: string, b: string, c: string, d: string, e: string, f: string, g: string)
    ensures a + b + c + d + e + f + g == a + (b + (c + d + (e + f + g)))
  {
  }

  /** Builds a header with placeholders in its slots. */
  method NewHeader(o: Options, name: string) returns (h: string, fractionOffset: nat, threadOffset: nat,
                                                      levelOffset: nat)
    ensures h == Layout(o, name, Blank(o), Padded(0, FractionWidth(o.precision)),
                        if o.showThreadId then "000000" else "", "INF")
    ensures o.precision.NoFraction? || fractionOffset == FractionAt(o)
    ensures o.showThreadId ==> threadOffset == ThreadAt(o)
    ensures levelOffset == TagAt(o, name)
  {
    h, fractionOffset, threadOffset := "[" + Blank(o), 0, 0;
    var dotted := if o.precision.NoFraction? then "" else "." + Padded(0, FractionWidth(o.precision));
    if !o.precision.NoFraction? {
      fractionOffset := |h| + 1;
    }
    h := h + dotted + "] ";
    var threaded := if o.showThreadId then Bracketed("000000") else "";
    if o.showThreadId {
      threadOffset := |h| + 1;
    }
    h := h + threaded;
    var named := if name == "" then "" else Bracketed(name);
    h := h + named + "[";
    levelOffset := |h|;
    h := h + ("INF" + "] ");
    Associate("[" + Blank(o), dotted, "] ", threaded, named, "[", "INF" + "] ");
    assert named + "[" + ("INF" + "] ") == AfterThread(name, "INF");
  }

  class Formatter {
    const cal: Calendar
    const opts: Options
    var header: string
    var fractionOffset: nat
    var threadOffset: nat
    var levelOffset: nat
    var lastSecs: nat
    ghost var name: string
    ghost var stamped: bool
    ghost var slots: (string, string, string)

    ghost function Now(): Cache
      reads this
    {
      Cache(name, stamped, lastSecs)
    }

    ghost predicate Valid()
      reads this
    {
      && Fits(opts, Now().ShownStamp(cal, opts), slots.0, slots.1, slots.2)
      && header == Layout(opts, name, Now().ShownStamp(cal, opts), slots.0, slots.1, slots.2)
      && (opts.precision.NoFraction? || fractionOffset == FractionAt(opts))
      && (opts.showThreadId ==> threadOffset == ThreadAt(opts))
      && levelOffset == TagAt(opts, name)
    }

    constructor (cal: Calendar, name: string, opts: Options)
      ensures Valid() && this.cal == cal && this.opts == opts && Now() == Cache(name, false, 0)
    {
      this.cal := cal;
      this.opts := opts;
      new;
      RebuildHeader(name);
    }

    method RebuildHeader(name: string)
      modifies this
      ensures Valid() && Now() == old(Now()).Named(name)
    {
      header, fractionOffset, threadOffset, levelOffset := NewHeader(opts, name);
      lastSecs := 0;
      this.name := name;
      stamped := false;
      slots := (Padded(0, FractionWidth(opts.precision)), if opts.showThreadId then "000000" else "", "INF");
    }

    method SetLoggerName(name: string)
      modifies this
      ensures Valid() && Now() == old(Now()).Named(name)
    {
      RebuildHeader(name);
    }

    method RebuildTimestamp(second: nat)
      requires Valid() && cal(opts.utc, second).InRange()
      modifies this`header, this`stamped, this`lastSecs
      ensures Valid() && Now() == Cache(name, true, second)
    {
      ghost var shown := Now().ShownStamp(cal, opts);
      var m := cal(opts.utc, second);
      StampPunctuated(opts, cal(opts.utc, lastSecs));
      SetStamp(opts, name, shown, slots.0, slots.1, slots.2, Stamp(opts, m));
      header := PutStamp(header, opts, m);
      lastSecs := second;
      stamped := true;
    }

    method PutFraction(nanos: nat)
      requires Valid() && nanos < NANOS
      modifies this`header, this`slots
      ensures Valid() && slots == (Fraction(opts.precision, nanos), old(slots.1), old(slots.2))
    {
      if !opts.precision.NoFraction? {
        SetFraction(opts, name, Now().ShownStamp(cal, opts), slots.0, slots.1, slots.2,
                    Fraction(opts.precision, nanos));
      }
      match opts.precision {
        case Millis => header := Put3(header, fractionOffset, nanos / 1_000_000);
        case Micros => header := Put6(header, fractionOffset, nanos / 1_000);
        case Nanos => header := Put9(header, fractionOffset, nanos);
        case NoFraction =>
      }
      slots := (Fraction(opts.precision, nanos), slots.1, slots.2);
    }

    method PutThread(tid: nat)
      requires Valid() && tid < THREAD_IDS
      modifies this`header, this`slots
      ensures Valid() && slots == (old(slots.0), ThreadText(opts, tid), old(slots.2))
    {
      if opts.showThreadId {
        SetThread(opts, name, Now().ShownStamp(cal, opts), slots.0, slots.1, slots.2, Padded(tid, 6));
        header := Put6(header, threadOffset, tid);
      }
      slots := (slots.0, ThreadText(opts, tid), slots.2);
    }

    method PutTag(level: Level)
      requires Valid()
      modifies this`header, this`slots
      ensures Valid() && slots == (old(slots.0), old(slots.1), Tag(level))
    {
      SetTag(opts, name, Now().ShownStamp(cal, opts), slots.0, slots.1, slots.2, Tag(level));
      header := Patch(header, levelOffset, Tag(level));
      slots := (slots.0, slots.1, Tag(level));
    }

    /** Brings the cached header up to date for one call. */
    method Refresh(call: Call)
      requires Valid() && cal(opts.utc, call.Second()).InRange() && call.tid < THREAD_IDS
      modifies this
      ensures Valid() && Now() == old(Now()).At(call.Second()) && header == old(Now()).Shown(cal, opts, call)
      ensures slots == (Fraction(opts.precision, call.nanos % NANOS), ThreadText(opts, call.tid), Tag(call.level))
    {
      var second := call.nanos / NANOS;
      if second != lastSecs {
        RebuildTimestamp(second);
      }
      PutFraction(call.nanos % NANOS);
      PutThread(call.tid);
      PutTag(call.level);
    }

    /** Appends the header of one call. */
    method FormatHeader(call: Call, dest: string) returns (out: string)
      requires Valid() && cal(opts.utc, call.Second()).InRange() && call.tid < THREAD_IDS
      modifies this
      ensures Valid() && Now() == old(Now()).At(call.Second())
      ensures out == dest + old(Now()).Shown(cal, opts, call)
      ensures |dest| + levelOffset + LEVEL_WIDTH <= |out|
      ensures out[|dest| + levelOffset..|dest| + levelOffset + LEVEL_WIDTH] == Tag(call.level)
    {
      Refresh(call);
      out := dest + header;
      TagSlot(opts, name, Now().ShownStamp(cal, opts), slots.0, slots.1, slots.2, dest);
    }
  }

  /** The level offset addresses the tag. */
  lemma TagSlot(o: Options, name: string, stamp: string, fraction: string, thread: string, tag: string, dest: string)
    requires Fits(o, stamp, fraction, thread, tag)
    ensures var out, at := dest + Layout(o, name, stamp, fraction, thread, tag), |dest| + TagAt(o, name);
            at + LEVEL_WIDTH <= |out| && out[at..at + LEVEL_WIDTH] == tag
  {
    var h, at := Layout(o, name, stamp, fraction, thread, tag), TagAt(o, name);
    SetTag(o, name, stamp, fraction, thread, tag, tag);
    assert Patch(h, at, tag)[at..at + LEVEL_WIDTH] == tag;
    assert (dest + h)[|dest| + at..|dest| + at + LEVEL_WIDTH] == h[at..at + LEVEL_WIDTH];
  }

  // ----- The cache against rendering from scratch -----

  /** When a date-less stamp of zeros happens to be the right one: midnight at the epoch. */
  predicate ZeroStamp(cal: Calendar, o: Options) {
    var m := cal(o.utc, 0);
    !o.showDate && m.hour == 0 && m.minute == 0 && m.second == 0
  }

  lemma PaddedZero(n: nat)
    requires n < 100
    ensures (Padded(n, 2) == "00") == (n == 0)
  {
    assert Pow(10, 2) == 100;
    PaddedDenotes(n, 2);
    PaddedDenotes(0, 2);
    NumberInjective(Padded(0, 2), "00");
  }

  lemma BlankStamp(o: Options, m: Moment)
    requires m.InRange()
    ensures (Stamp(o, m) == Blank(o)) == (!o.showDate && m.hour == 0 && m.minute == 0 && m.second == 0)
  {
    if o.showDate {
      PaddedZero(m.day);
      assert Stamp(o, m)[8..10] == Padded(m.day, 2);
      assert Blank(o)[8..10] == "00";
    } else {
      PaddedZero(m.hour);
      PaddedZero(m.minute);
      PaddedZero(m.second);
      assert Stamp(o, m)[..2] == Padded(m.hour, 2) && Blank(o)[..2] == "00";
      assert Stamp(o, m)[3..5] == Padded(m.minute, 2) && Blank(o)[3..5] == "00";
      assert Stamp(o, m)[6..8] == Padded(m.second, 2) && Blank(o)[6..8] == "00";
    }
  }

  /** A cached header equals the rendered one exactly when its stamp does. */
  lemma ShownIsRendered(cal: Calendar, o: Options, c: Cache, call: Call)
    requires cal(o.utc, call.Second()).InRange()
    requires c.stamped || c.lastSecs == 0
    ensures c.Shown(cal, o, call) == Render(cal, o, c.name, call) <==> c.At(call.Second()).stamped || ZeroStamp(cal, o)
  {
    var stamp, now := c.At(call.Second()).ShownStamp(cal, o), Stamp(o, cal(o.utc, call.Second()));
    var fraction, thread, tag := Fraction(o.precision, call.nanos % NANOS), ThreadText(o, call.tid), Tag(call.level);
    SetStamp(o, c.name, stamp, fraction, thread, tag, now);
    SetStamp(o, c.name, now, fraction, thread, tag, stamp);
    BlankStamp(o, cal(o.utc, call.Second()));
  }

  // ----- Runs -----

  datatype Op = Name(name: string) | Format(call: Call)

  function CacheAfter(name: string, ops: seq<Op>): Cache {
    if ops == [] then Cache(name, false, 0)
    else
      var before := CacheAfter(name, ops[..|ops| - 1]);
      match ops[|ops| - 1]
      case Name(n) => before.Named(n)
      case Format(call) => before.At(call.Second())
  }

  function NameAfter(name: string, ops: seq<Op>): string {
    if ops == [] then name
    else if ops[|ops| - 1].Name? then ops[|ops| - 1].name
    else NameAfter(name, ops[..|ops| - 1])
  }

  /** Some call since the last renaming was not in the epoch's first second. */
  predicate LeftEpoch(ops: seq<Op>) {
    ops != [] && ops[|ops| - 1].Format? && (ops[|ops| - 1].call.Second() != 0 || LeftEpoch(ops[..|ops| - 1]))
  }

  lemma {:induction false} CacheIs(name: string, ops: seq<Op>)
    ensures CacheAfter(name, ops).name == NameAfter(name, ops)
    ensures CacheAfter(name, ops).stamped == LeftEpoch(ops)
    ensures CacheAfter(name, ops).stamped || CacheAfter(name, ops).lastSecs == 0
  {
    if ops != [] {
      CacheIs(name, ops[..|ops| - 1]);
    }
  }

  /** After any renamings and calls, the header a call appends equals the rendered one exactly when some call since the
      last renaming, this one included, fell outside the epoch's first second (or the zeros are right anyway). */
  lemma CachedHeaderExact(cal: Calendar, o: Options, name: string, ops: seq<Op>, call: Call)
    requires cal(o.utc, call.Second()).InRange()
    ensures CacheAfter(name, ops).Shown(cal, o, call) == Render(cal, o, NameAfter(name, ops), call)
            <==> LeftEpoch(ops + [Format(call)]) || ZeroStamp(cal, o)
  {
    CacheIs(name, ops);
    ShownIsRendered(cal, o, CacheAfter(name, ops), call);
    assert (ops + [Format(call)])[..|ops|] == ops;
  }

  /** A first call in the epoch's first second shows the placeholder date. */
  lemma EpochSecondExample(cal: Calendar, o: Options, call: Call)
    requires cal(o.utc, 0) == Moment(1970, 1, 1, 0, 0, 0) && o.showDate && call.Second() == 0
    ensures |CacheAfter("", []).Shown(cal, o, call)| > 20 && |Render(cal, o, "", call)| > 20
    ensures CacheAfter("", []).Shown(cal, o, call)[1..20] == "0000-00-00 00:00:00"
    ensures Render(cal, o, "", call)[1..20][..10] == "1970-01-01"
  {
    var fraction, thread, tag := Fraction(o.precision, call.nanos % NANOS), ThreadText(o, call.tid), Tag(call.level);
    SetStamp(o, "", Blank(o), fraction, thread, tag, Blank(o));
    SetStamp(o, "", Stamp(o, cal(o.utc, 0)), fraction, thread, tag, Blank(o));
    EpochDate();
  }

  lemma EpochDate()
    ensures Stamp(Options(true, true, false, Millis), Moment(1970, 1, 1, 0, 0, 0))[..10] == "1970-01-01"
  {
    assert Padded(1970, 4) == "1970";
    assert Padded(1, 2) == "01";
  }
}
