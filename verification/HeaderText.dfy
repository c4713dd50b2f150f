/** The text of a log line's header, and the in-place writers of its digit slots. */
module HeaderText {
  import opened Words
  import opened Decimal

  const NANOS: nat := 1_000_000_000
  const THREAD_IDS: nat := 1_000_000
  const LEVEL_WIDTH: nat := 3

  datatype Precision = NoFraction | Millis | Micros | Nanos

  datatype Options = Options(utc: bool, showDate: bool, showThreadId: bool, precision: Precision)

  datatype Level = Trace | Debug | Info | Warn | Err | Critical | Off

  function Tag(level: Level): (t: string)
    ensures |t| == LEVEL_WIDTH
  {
    match level
    case Trace => "TRC"
    case Debug => "DBG"
    case Info => "INF"
    case Warn => "WRN"
    case Err => "ERR"
    case Critical => "CRT"
    case Off => "OFF"
  }

  /** A broken-down time; the second may be a leap second. */
  datatype Moment = Moment(year: nat, month: nat, day: nat, hour: nat, minute: nat, second: nat) {
    predicate InRange() {
      year <= 9999 && 1 <= month <= 12 && 1 <= day <= 31 && hour < 24 && minute < 60 && second <= 60
    }
  }

  /** The calendar: universal or local time of a number of seconds since the epoch. */
  type Calendar = (bool, nat) -> Moment

  function FractionWidth(p: Precision): nat {
    match p
    case NoFraction => 0
    case Millis => 3
    case Micros => 6
    case Nanos => 9
  }

  /** The last `width` decimal digits of a number. */
  function Padded(n: nat, width: nat): (s: string)
    ensures |s| == width
  {
    if width == 0 then "" else Padded(n / 10, width - 1) + [DigitChar(n % 10)]
  }

  /** A padded text holds digits only and reads back as its number. */
  lemma {:induction false} PaddedDenotes(n: nat, width: nat)
    requires n < Pow(10, width)
    ensures AllDigits(Padded(n, width)) && Number(Padded(n, width)) == n
  {
    if width > 0 {
      PaddedDenotes(n / 10, width - 1);
      NumberSnoc(Padded(n / 10, width - 1), DigitChar(n % 10));
    }
  }

  /** Two padded numbers side by side are one padded number. */
  lemma {:induction false} PaddedJoin(high: nat, low: nat, a: nat, b: nat)
    requires low < Pow(10, b)
    ensures Padded(high, a) + Padded(low, b) == Padded(high * Pow(10, b) + low, a + b)
  {
    if b == 0 {
      assert Padded(high, a) + "" == Padded(high, a);
    } else {
      var q := low / 10;
      JoinStep(high, Pow(10, b - 1), low);
      PaddedJoin(high, q, a, b - 1);
      assert Padded(high, a) + (Padded(q, b - 1) + [DigitChar(low % 10)])
          == (Padded(high, a) + Padded(q, b - 1)) + [DigitChar(low % 10)];
    }
  }

  lemma JoinThousands(n: nat, width: nat)
    ensures Padded(n / 1000, width) + Padded(n % 1000, 3) == Padded(n, width + 3)
  {
    assert Pow(10, 3) == 1000;
    assert n / 1000 * 1000 + n % 1000 == n;
    PaddedJoin(n / 1000, n % 1000, width, 3);
  }

  lemma JoinStep(high: nat, p: nat, low: nat)
    ensures (high * (10 * p) + low) / 10 == high * p + low / 10
    ensures (high * (10 * p) + low) % 10 == low % 10
  {
    assert high * (10 * p) == 10 * (high * p);
  }

  // ----- Writing digits in place -----

  function Patch(s: string, off: nat, text: string): (r: string)
    requires off + |text| <= |s|
    ensures |r| == |s|
  {
    s[..off] + text + s[off + |text|..]
  }

  /** Patching the middle of three parts replaces it. */
  lemma PatchMiddle(front: string, middle: string, back: string, text: string)
    requires |text| == |middle|
    ensures Patch(front + middle + back, |front|, text) == front + text + back
  {
    var s := front + middle + back;
    assert s[..|front|] == front;
    assert s[|front| + |text|..] == back;
  }

  /** Patching behind a front leaves the front alone. */
  lemma PatchBack(front: string, back: string, k: nat, text: string)
    requires k + |text| <= |back|
    ensures Patch(front + back, |front| + k, text) == front + Patch(back, k, text)
  {
    var s := front + back;
    assert s[..|front| + k] == front + back[..k];
    assert s[|front| + k + |text|..] == back[k + |text|..];
  }

  method Put2(s: string, off: nat, n: nat) returns (r: string)
    requires off + 2 <= |s| && n < 100
    ensures r == Patch(s, off, Padded(n, 2))
  {
    r := s[off := DigitChar(n / 10)][off + 1 := DigitChar(n % 10)];
    PaddedSmall(n / 10);
    assert Padded(n, 2) == [DigitChar(n / 10), DigitChar(n % 10)];
  }

  lemma PaddedSmall(d: nat)
    requires d < 10
    ensures Padded(d, 1) == [DigitChar(d)]
  {
    assert Padded(d / 10, 0) == "";
  }

  lemma PaddedThree(n: nat)
    requires n < 1000
    ensures Padded(n, 3) == [DigitChar(n / 100), DigitChar((n / 10) % 10), DigitChar(n % 10)]
  {
    assert n / 10 / 10 == n / 100 < 10;
    PaddedSmall(n / 100);
    assert Padded(n / 10, 2) == Padded(n / 10 / 10, 1) + [DigitChar((n / 10) % 10)];
  }

  method Put3(s: string, off: nat, n: nat) returns (r: string)
    requires off + 3 <= |s| && n < 1000
    ensures r == Patch(s, off, Padded(n, 3))
  {
    r := s[off := DigitChar(n / 100)][off + 1 := DigitChar((n / 10) % 10)][off + 2 := DigitChar(n % 10)];
    PaddedThree(n);
  }

  method Put4(s: string, off: nat, n: nat) returns (r: string)
    requires off + 4 <= |s| && n < 10000
    ensures r == Patch(s, off, Padded(n, 4))
  {
    r := s[off := DigitChar(n / 1000)][off + 1 := DigitChar((n / 100) % 10)][off + 2 := DigitChar((n / 10) % 10)]
         [off + 3 := DigitChar(n % 10)];
    PaddedThree(n / 10);
    assert n / 10 / 100 == n / 1000 && n / 10 / 10 == n / 100;
  }

  /** Two patches side by side are one. */
  lemma PatchJoin(s: string, off: nat, a: string, b: string)
    requires off + |a| + |b| <= |s|
    ensures Patch(Patch(s, off, a), off + |a|, b) == Patch(s, off, a + b)
  {
  }

  method Put6(s: string, off: nat, n: nat) returns (r: string)
    requires off + 6 <= |s| && n < 1_000_000
    ensures r == Patch(s, off, Padded(n, 6))
  {
    var halfway := Put3(s, off, n / 1000);
    r := Put3(halfway, off + 3, n % 1000);
    JoinThousands(n, 3);
    PatchJoin(s, off, Padded(n / 1000, 3), Padded(n % 1000, 3));
  }

  method Put9(s: string, off: nat, n: nat) returns (r: string)
    requires off + 9 <= |s| && n < 1_000_000_000
    ensures r == Patch(s, off, Padded(n, 9))
  {
    var third := Put3(s, off, n / 1_000_000);
    var twoThirds := Put3(third, off + 3, (n / 1000) % 1000);
    r := Put3(twoThirds, off + 6, n % 1000);
    assert n / 1000 / 1000 == n / 1_000_000;
    JoinThousands(n / 1000, 3);
    JoinThousands(n, 6);
    PatchJoin(s, off, Padded(n / 1_000_000, 3), Padded((n / 1000) % 1000, 3));
    PatchJoin(s, off, Padded(n / 1000, 6), Padded(n % 1000, 3));
  }

  // ----- The header rendered from scratch -----

  function DateText(m: Moment): string {
    Padded(m.year, 4) + "-" + Padded(m.month, 2) + "-" + Padded(m.day, 2) + " "
  }

  function TimeText(m: Moment): string {
    Padded(m.hour, 2) + ":" + Padded(m.minute, 2) + ":" + Padded(m.second, 2)
  }

  function Stamp(o: Options, m: Moment): (s: string)
    ensures |s| == if o.showDate then 19 else 8
  {
    (if o.showDate then DateText(m) else "") + TimeText(m)
  }

  function Fraction(p: Precision, nanos: nat): (s: string)
    ensures |s| == FractionWidth(p)
  {
    match p
    case NoFraction => ""
    case Millis => Padded(nanos / 1_000_000, 3)
    case Micros => Padded(nanos / 1_000, 6)
    case Nanos => Padded(nanos, 9)
  }

  function ThreadText(o: Options, tid: nat): (s: string)
    ensures |s| == if o.showThreadId then 6 else 0
  {
    if o.showThreadId then Padded(tid, 6) else ""
  }

  function Bracketed(text: string): string {
    "[" + text + "] "
  }

  /** The name and level brackets. */
  function AfterThread(name: string, tag: string): string {
    (if name == "" then "" else Bracketed(name)) + "[" + tag + "] "
  }

  function AfterFraction(o: Options, name: string, thread: string, tag: string): string {
    "] " + (if o.showThreadId then Bracketed(thread) else "") + AfterThread(name, tag)
  }

  /** A header from the texts of its parts. */
  function Layout(o: Options, name: string, stamp: string, fraction: string, thread: string, tag: string): string {
    "[" + stamp + ((if o.precision.NoFraction? then "" else "." + fraction) + AfterFraction(o, name, thread, tag))
  }

  /** What is known when a line is logged. */
  datatype Call = Call(nanos: nat, level: Level, tid: nat) {
    function Second(): nat {
      nanos / NANOS
    }
  }

  /** The header of one call, rendered from scratch. */
  function Render(cal: Calendar, o: Options, name: string, call: Call): string {
    Layout(o, name, Stamp(o, cal(o.utc, call.Second())), Fraction(o.precision, call.nanos % NANOS),
           ThreadText(o, call.tid), Tag(call.level))
  }
}
