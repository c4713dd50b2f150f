/** What every interleaving of the dispatch steps keeps. */
module DispatchSafety {
  import opened Common
  import opened HeaderText
  import opened HeaderCache
  import opened Dispatch

  // ----- Loggers -----

  ghost predicate Increasing(xs: seq<nat>, below: nat) {
    (forall i, j :: 0 <= i < j < |xs| ==> xs[i] < xs[j]) && (forall i :: 0 <= i < |xs| ==> xs[i] < below)
  }

  /** A line is the header of one configuration, one call's payload and a newline. */
  ghost predicate Whole(header: (Cache, Options, Call) -> string, configs: seq<(string, Options)>, line: Line) {
    && line.config < |configs| && line.cache.name == configs[line.config].0
    && (line.cache.stamped || line.cache.lastSecs == 0)
    && line.text == header(line.cache, configs[line.config].1, line.call) + line.payload + "\n"
  }

  /** Every line taken at a place was taken at each place before it. */
  ghost predicate Nested(taken: seq<seq<nat>>) {
    forall i, j, x :: 0 <= i < j < |taken| && x in taken[j] ==> x in taken[i]
  }

  function UpTo(n: nat): (xs: seq<nat>)
    ensures |xs| == n && forall i :: 0 <= i < n ==> xs[i] == i
  {
    if n == 0 then [] else UpTo(n - 1) + [n - 1]
  }

  /** Without a throwing sink, places before `at` have taken all lines and the others all but the last `late`. */
  ghost predicate Complete(g: Logger, at: nat, late: nat)
    requires late <= |g.lines|
  {
    !g.threw ==> forall i :: 0 <= i < |g.taken| ==> g.taken[i] == UpTo(if i < at then |g.lines| else |g.lines| - late)
  }

  ghost predicate LoggerOk(w: Wiring, l: Id, g: Logger)
    requires l < |w.sinks|
  {
    && |g.taken| == |w.sinks[l]| && |g.configs| > 0
    && (forall i :: 0 <= i < |g.lines| ==> Whole(w.header, g.configs, g.lines[i]))
    && (forall i, j :: 0 <= i < j < |g.lines| ==> g.lines[i].config <= g.lines[j].config)
    && (forall i :: 0 <= i < |g.taken| ==> Increasing(g.taken[i], |g.lines|))
    && Nested(g.taken)
    && (g.cache.stamped || g.cache.lastSecs == 0)
  }

  /** The cache shows the logger's current name and options. */
  ghost predicate Settled(g: Logger) {
    |g.configs| > 0 && g.cache.name == g.name && g.configs[|g.configs| - 1] == (g.name, g.opts)
  }

  /** The last line is the buffer's, and the places before `at`, and only those, have taken it. */
  ghost predicate Sent(g: Logger, at: nat) {
    && Settled(g) && |g.lines| > 0 && at <= |g.taken| && g.buf == g.lines[|g.lines| - 1].text
    && (forall i :: 0 <= i < at ==> |g.lines| - 1 in g.taken[i])
    && (forall i :: at <= i < |g.taken| ==> Increasing(g.taken[i], |g.lines| - 1))
    && Complete(g, at, 1)
  }

  /** What a phase of the lock holder says about its logger. */
  ghost predicate PhaseOk(w: Wiring, g: Logger, p: Phase) {
    match p
    case Idle => Settled(g) && Complete(g, 0, 0)
    case Timed(_) => Settled(g) && Complete(g, 0, 0)
    case Locked(_) => Settled(g) && Complete(g, 0, 0)
    case Headed(job) => Settled(g) && Complete(g, 0, 0) && g.buf == w.header(g.cache, g.opts, job.call)
    case Filled(job) => Settled(g) && Complete(g, 0, 0) && g.buf == w.header(g.cache, g.opts, job.call) + job.payload
    case Sending(_, at) => Sent(g, at)
    case Inside(_, at, done) => Sent(g, at) && at < |g.taken| && done <= |g.buf|
    case Flushing(_, at, _) => Settled(g) && Complete(g, 0, 0) && at <= |g.taken|
    case FlushInside(_, at, _) => Settled(g) && Complete(g, 0, 0) && at < |g.taken|
    case Changing(_, _) => Settled(g) && Complete(g, 0, 0)
    case Changed(_, _) => Complete(g, 0, 0)
  }

  // ----- Sinks -----

  function Joined(receipts: seq<Receipt>): string {
    if receipts == [] then "" else Joined(receipts[..|receipts| - 1]) + receipts[|receipts| - 1].text
  }

  /** The lines a sink took from one place of one logger, in the order it took them; a write that threw took none. */
  function Project(receipts: seq<Receipt>, l: Id, at: nat): seq<nat> {
    if receipts == [] then []
    else
      var r := receipts[|receipts| - 1];
      Project(receipts[..|receipts| - 1], l, at)
      + if r.logger == l && r.at == at && r.outcome != Failed then [r.line] else []
  }

  function SinkOf(w: Wiring, p: Phase): (k: int) {
    match p
    case Inside(job, at, _) => if w.Slot(job.logger, at) then w.sinks[job.logger][at] else -1
    case FlushInside(l, at, _) => if w.Slot(l, at) then w.sinks[l][at] else -1
    case _ => -1
  }

  /** What the thread inside the sink has delivered of its line. */
  ghost function Partial(s: System, k: Id): string
    requires k < |s.sinks|
  {
    match s.sinks[k].owner
    case None => ""
    case Some(t) =>
      if t < |s.threads| && s.threads[t].Inside? && s.threads[t].job.logger < |s.loggers|
         && s.threads[t].done <= |s.loggers[s.threads[t].job.logger].buf|
      then s.loggers[s.threads[t].job.logger].buf[..s.threads[t].done] else ""
  }

  ghost predicate ReceiptOk(w: Wiring, s: System, k: Id, r: Receipt) {
    && w.Slot(r.logger, r.at) && w.sinks[r.logger][r.at] == k && r.logger < |s.loggers|
    && r.line < |s.loggers[r.logger].lines| && r.text <= s.loggers[r.logger].lines[r.line].text
    && (r.outcome == Full ==> r.text == s.loggers[r.logger].lines[r.line].text)
  }

  /** One line before another, or the same line at an earlier place. */
  predicate Precedes(a: Receipt, b: Receipt) {
    a.line < b.line || (a.line == b.line && a.at < b.at)
  }

  /** Lines of one logger that were both taken. */
  predicate SameTaker(a: Receipt, b: Receipt) {
    a.logger == b.logger && a.outcome != Failed && b.outcome != Failed
  }

  /** The lines of one logger came in the order in which it completed them. */
  ghost predicate Ordered(receipts: seq<Receipt>) {
    forall i, j :: 0 <= i < j < |receipts| && SameTaker(receipts[i], receipts[j]) ==> Precedes(receipts[i], receipts[j])
  }

  /** From each place, the sink took the lines that its logger says were taken there. */
  ghost predicate Projects(w: Wiring, s: System, k: Id)
    requires k < |s.sinks|
  {
    forall l: nat, at: nat ::
      w.Slot(l, at) && w.sinks[l][at] == k && l < |s.loggers| && at < |s.loggers[l].taken|
      ==> Project(s.sinks[k].received, l, at) == s.loggers[l].taken[at]
  }

  ghost predicate SinkOk(w: Wiring, s: System, k: Id)
    requires k < |s.sinks|
  {
    var sink := s.sinks[k];
    && (sink.owner.Some? ==> sink.owner.value < |s.threads| && SinkOf(w, s.threads[sink.owner.value]) == k)
    && sink.out == Joined(sink.received) + Partial(s, k)
    && (forall i :: 0 <= i < |sink.received| ==> ReceiptOk(w, s, k, sink.received[i]))
    && Ordered(sink.received)
    && Projects(w, s, k)
  }

  // ----- The whole system -----

  ghost predicate ThreadOk(w: Wiring, s: System, t: Id)
    requires t < |s.threads|
  {
    var p := s.threads[t];
    && (p.Timed? ==> p.job.logger < |s.loggers|)
    && (p.Held().Some? ==>
      var l := p.Held().value;
      && l < |s.loggers| && s.loggers[l].owner == Some(t) && PhaseOk(w, s.loggers[l], p)
      && (p.InSink() ==> 0 <= SinkOf(w, p) < |s.sinks| && s.sinks[SinkOf(w, p)].owner == Some(t)))
  }

  ghost predicate OwnerOk(w: Wiring, s: System, l: Id)
    requires l < |s.loggers|
  {
    match s.loggers[l].owner
    case None => PhaseOk(w, s.loggers[l], Idle)
    case Some(t) => t < |s.threads| && s.threads[t].Held() == Some(l)
  }

  /** The new state of a logger continues the old one, as far as sink `k` can tell. */
  ghost predicate Continues(w: Wiring, l: Id, g: Logger, h: Logger, k: Id) {
    && g.lines <= h.lines && |g.taken| == |h.taken|
    && forall at: nat :: at < |g.taken| && w.Slot(l, at) && w.sinks[l][at] == k ==> g.taken[at] == h.taken[at]
  }

  lemma OtherThread(w: Wiring, s: System, t: Id, p: Phase, l: Id, g: Logger, u: Id)
    requires t < |s.threads| && l < |s.loggers| && u < |s.threads| && u != t
    requires ThreadOk(w, s, u) && s.threads[u].Held() != Some(l)
    ensures ThreadOk(w, Moved(s, t, p, l, g), u)
  {
  }

  lemma OtherOwner(w: Wiring, s: System, t: Id, p: Phase, l: Id, g: Logger, m: Id)
    requires t < |s.threads| && l < |s.loggers| && m < |s.loggers| && m != l
    requires OwnerOk(w, s, m) && s.threads[t].Held() != Some(m)
    ensures OwnerOk(w, Moved(s, t, p, l, g), m)
  {
  }

  /** A thread outside sinks moves no sink. */
  lemma SameSink(w: Wiring, s: System, t: Id, p: Phase, l: Id, g: Logger, k: Id)
    requires t < |s.threads| && l < |s.loggers| && k < |s.sinks|
    requires SinkOk(w, s, k) && Continues(w, l, s.loggers[l], g, k) && s.sinks[k].owner != Some(t)
    requires s.sinks[k].owner.Some? ==> s.threads[s.sinks[k].owner.value].Held() != Some(l)
    ensures SinkOk(w, Moved(s, t, p, l, g), k)
  {
    var n := Moved(s, t, p, l, g);
    assert Partial(n, k) == Partial(s, k);
    forall i | 0 <= i < |n.sinks[k].received| ensures ReceiptOk(w, n, k, n.sinks[k].received[i]) {
      assert ReceiptOk(w, s, k, s.sinks[k].received[i]);
    }
    ContinuesProjects(w, s, n, l, g, k);
  }

  lemma ContinuesProjects(w: Wiring, s: System, n: System, l: Id, g: Logger, k: Id)
    requires l < |s.loggers| && k < |s.sinks| && k < |n.sinks| && n.sinks[k].received == s.sinks[k].received
    requires n.loggers == s.loggers[l := g] && Projects(w, s, k) && Continues(w, l, s.loggers[l], g, k)
    ensures Projects(w, n, k)
  {
    forall m: nat, b: nat | w.Slot(m, b) && w.sinks[m][b] == k && m < |n.loggers| && b < |n.loggers[m].taken|
      ensures Project(n.sinks[k].received, m, b) == n.loggers[m].taken[b]
    {
      assert Project(s.sinks[k].received, m, b) == s.loggers[m].taken[b];
    }
  }

  /** A logger's lock has one holder. */
  lemma OneHolder(w: Wiring, s: System, t: Id, l: Id, u: Id)
    requires u < |s.threads| && ThreadOk(w, s, u) && u != t && l < |s.loggers|
    requires s.loggers[l].owner == None || s.loggers[l].owner == Some(t)
    ensures s.threads[u].Held() != Some(l)
  {
  }

  ghost predicate Threads(w: Wiring, s: System) {
    forall t: nat :: t < |s.threads| ==> ThreadOk(w, s, t)
  }

  ghost predicate Loggers(w: Wiring, s: System) {
    |s.loggers| == |w.sinks| && forall l: nat :: l < |s.loggers| ==> LoggerOk(w, l, s.loggers[l]) && OwnerOk(w, s, l)
  }

  ghost predicate Sinks(w: Wiring, s: System) {
    forall k: nat :: k < |s.sinks| ==> SinkOk(w, s, k)
  }

  ghost predicate Inv(w: Wiring, s: System) {
    w.Valid() && |s.sinks| == |w.shared| && Threads(w, s) && Loggers(w, s) && Sinks(w, s)
  }

  /** Thread `t` may act on logger `l`: it holds the lock, or holds none while the lock is free. */
  ghost predicate Acts(s: System, t: Id, l: Id) {
    && t < |s.threads| && l < |s.loggers|
    && ((s.threads[t].Held() == Some(l) && s.loggers[l].owner == Some(t))
        || (s.threads[t].Held() == None && s.loggers[l].owner == None))
  }

  /** Where the step leaves the lock. */
  ghost predicate Leaves(t: Id, p: Phase, l: Id, g: Logger) {
    (p.Held() == Some(l) && g.owner == Some(t)) || (p == Idle && g.owner == None)
  }

  lemma LoggersKept(w: Wiring, s: System, t: Id, p: Phase, l: Id, g: Logger)
    requires Loggers(w, s) && Acts(s, t, l) && Leaves(t, p, l, g)
    requires LoggerOk(w, l, g) && PhaseOk(w, g, p)
    ensures Loggers(w, Moved(s, t, p, l, g))
  {
    var n := Moved(s, t, p, l, g);
    forall m: nat | m < |n.loggers| ensures LoggerOk(w, m, n.loggers[m]) && OwnerOk(w, n, m) {
      if m != l {
        assert OwnerOk(w, s, m);
        OtherOwner(w, s, t, p, l, g, m);
      }
    }
  }

  lemma OtherThreadsKept(w: Wiring, s: System, t: Id, p: Phase, l: Id, g: Logger)
    requires Threads(w, s) && Acts(s, t, l)
    ensures forall u: nat :: u < |s.threads| && u != t ==> ThreadOk(w, Moved(s, t, p, l, g), u)
  {
    forall u: nat | u < |s.threads| && u != t ensures ThreadOk(w, Moved(s, t, p, l, g), u) {
      OneHolder(w, s, t, l, u);
      OtherThread(w, s, t, p, l, g, u);
    }
  }

  lemma SinksKept(w: Wiring, s: System, t: Id, p: Phase, l: Id, g: Logger)
    requires Threads(w, s) && Sinks(w, s) && Acts(s, t, l)
    ensures forall k: nat :: k < |s.sinks| && Continues(w, l, s.loggers[l], g, k) && SinkOf(w, s.threads[t]) != k ==>
              SinkOk(w, Moved(s, t, p, l, g), k)
  {
    forall k: nat | k < |s.sinks| && Continues(w, l, s.loggers[l], g, k) && SinkOf(w, s.threads[t]) != k
      ensures SinkOk(w, Moved(s, t, p, l, g), k)
    {
      assert SinkOk(w, s, k);
      if s.sinks[k].owner.Some? {
        OneHolder(w, s, t, l, s.sinks[k].owner.value);
      }
      SameSink(w, s, t, p, l, g, k);
    }
  }

  /** A step of the thread that holds, takes or gives up a logger's lock, outside sinks. */
  lemma StepKeeps(w: Wiring, s: System, t: Id, p: Phase, l: Id, g: Logger)
    requires Inv(w, s) && Acts(s, t, l) && Leaves(t, p, l, g) && !s.threads[t].InSink() && !p.InSink()
    requires LoggerOk(w, l, g) && PhaseOk(w, g, p) && s.loggers[l].lines <= g.lines && s.loggers[l].taken == g.taken
    ensures Inv(w, Moved(s, t, p, l, g))
  {
    LoggersKept(w, s, t, p, l, g);
    OtherThreadsKept(w, s, t, p, l, g);
    SinksKept(w, s, t, p, l, g);
  }

  /** A step into, inside or out of sink `k`. */
  lemma SinkStepKeeps(w: Wiring, s: System, t: Id, p: Phase, l: Id, g: Logger, k: Id, sink: Sink)
    requires Inv(w, s) && Acts(s, t, l) && Leaves(t, p, l, g) && k < |s.sinks|
    requires s.sinks[k].owner == None || s.sinks[k].owner == Some(t)
    requires SinkOf(w, s.threads[t]) == -1 || SinkOf(w, s.threads[t]) == k
    requires LoggerOk(w, l, g) && PhaseOk(w, g, p)
    requires forall m: nat :: m != k ==> Continues(w, l, s.loggers[l], g, m)
    requires p.InSink() ==> SinkOf(w, p) == k && sink.owner == Some(t)
    requires SinkOk(w, WithSink(Moved(s, t, p, l, g), k, sink), k)
    ensures Inv(w, WithSink(Moved(s, t, p, l, g), k, sink))
  {
    var n := Moved(s, t, p, l, g);
    LoggersKept(w, s, t, p, l, g);
    OtherThreadsKept(w, s, t, p, l, g);
    SinksKept(w, s, t, p, l, g);
    OtherSinksKept(w, n, k, sink);
    OtherInsidesKept(w, s, t, p, l, g, k, sink);
    assert Loggers(w, WithSink(n, k, sink)) by {
      SameLoggers(w, n, k, sink);
    }
  }

  lemma SameLoggers(w: Wiring, n: System, k: Id, sink: Sink)
    requires Loggers(w, n) && k < |n.sinks|
    ensures Loggers(w, WithSink(n, k, sink))
  {
    forall m: nat | m < |n.loggers| ensures OwnerOk(w, WithSink(n, k, sink), m) {
      assert OwnerOk(w, n, m);
    }
  }

  lemma OtherSinksKept(w: Wiring, n: System, k: Id, sink: Sink)
    requires k < |n.sinks|
    ensures forall m: nat :: m < |n.sinks| && m != k && SinkOk(w, n, m) ==> SinkOk(w, WithSink(n, k, sink), m)
  {
    forall m: nat | m < |n.sinks| && m != k && SinkOk(w, n, m) ensures SinkOk(w, WithSink(n, k, sink), m) {
      var after := WithSink(n, k, sink);
      assert Partial(after, m) == Partial(n, m);
      forall i | 0 <= i < |n.sinks[m].received| ensures ReceiptOk(w, after, m, n.sinks[m].received[i]) {
        assert ReceiptOk(w, n, m, n.sinks[m].received[i]);
      }
    }
  }

  lemma OtherInsidesKept(w: Wiring, s: System, t: Id, p: Phase, l: Id, g: Logger, k: Id, sink: Sink)
    requires t < |s.threads| && l < |s.loggers| && k < |s.sinks|
    requires Threads(w, s) && (s.sinks[k].owner == None || s.sinks[k].owner == Some(t))
    requires forall u: nat :: u < |s.threads| && u != t ==> ThreadOk(w, Moved(s, t, p, l, g), u)
    requires p.Held() == Some(l) ==> g.owner == Some(t) && PhaseOk(w, g, p)
    requires p.Held() == Some(l) || p == Idle
    requires p.InSink() ==> SinkOf(w, p) == k && sink.owner == Some(t)
    ensures Threads(w, WithSink(Moved(s, t, p, l, g), k, sink))
  {
    var after := WithSink(Moved(s, t, p, l, g), k, sink);
    forall u: nat | u < |after.threads| ensures ThreadOk(w, after, u) {
      if u != t {
        assert ThreadOk(w, Moved(s, t, p, l, g), u);
        assert ThreadOk(w, s, u);
      }
    }
  }

  // ----- The steps -----

  /** The holder's phase speaks about its logger. */
  lemma HolderActs(w: Wiring, s: System, t: Id, l: Id)
    requires Inv(w, s) && t < |s.threads| && s.threads[t].Held() == Some(l)
    ensures Acts(s, t, l) && PhaseOk(w, s.loggers[l], s.threads[t]) && LoggerOk(w, l, s.loggers[l])
  {
    assert ThreadOk(w, s, t);
  }

  lemma FreeActs(w: Wiring, s: System, t: Id, l: Id)
    requires Inv(w, s) && t < |s.threads| && s.threads[t].Held() == None && Free(s, l)
    ensures Acts(s, t, l) && PhaseOk(w, s.loggers[l], Idle) && LoggerOk(w, l, s.loggers[l])
  {
    assert OwnerOk(w, s, l);
  }

  lemma ReadClockKeeps(w: Wiring, s: System, t: Id, job: Job)
    requires Inv(w, s) && Enabled(w, s, t, ReadClock(job))
    ensures Inv(w, Apply(w, s, t, ReadClock(job)))
  {
    var n := Apply(w, s, t, ReadClock(job));
    forall u: nat | u < |n.threads| ensures ThreadOk(w, n, u) {
      assert ThreadOk(w, s, u);
    }
    forall l: nat | l < |n.loggers| ensures OwnerOk(w, n, l) {
      assert OwnerOk(w, s, l);
    }
    forall k: nat | k < |n.sinks| ensures SinkOk(w, n, k) {
      assert SinkOk(w, s, k) && Partial(n, k) == Partial(s, k);
      forall i | 0 <= i < |n.sinks[k].received| ensures ReceiptOk(w, n, k, n.sinks[k].received[i]) {
        assert ReceiptOk(w, s, k, s.sinks[k].received[i]);
      }
    }
  }

  /** Loggers that differ at most in their levels. */
  ghost predicate Alike(g: Logger, h: Logger) {
    h.(level := g.level, flushLevel := g.flushLevel) == g
  }

  lemma AlikeOk(w: Wiring, l: Id, g: Logger, h: Logger)
    requires l < |w.sinks| && LoggerOk(w, l, g) && Alike(g, h)
    ensures LoggerOk(w, l, h)
  {
  }

  lemma AlikePhase(w: Wiring, g: Logger, h: Logger, p: Phase)
    requires PhaseOk(w, g, p) && Alike(g, h)
    ensures PhaseOk(w, h, p)
  {
  }

  /** Levels are atomics outside the lock: nothing else depends on them. */
  lemma LevelsKeep(w: Wiring, s: System, l: Id, g: Logger)
    requires Inv(w, s) && l < |s.loggers| && Alike(s.loggers[l], g)
    ensures Inv(w, s.(loggers := s.loggers[l := g]))
  {
    var n := s.(loggers := s.loggers[l := g]);
    AlikeOk(w, l, s.loggers[l], g);
    forall u: nat | u < |n.threads| ensures ThreadOk(w, n, u) {
      assert ThreadOk(w, s, u);
      if s.threads[u].Held() == Some(l) {
        AlikePhase(w, s.loggers[l], g, s.threads[u]);
      }
    }
    forall m: nat | m < |n.loggers| ensures OwnerOk(w, n, m) {
      assert OwnerOk(w, s, m);
      if s.loggers[l].owner.None? {
        AlikePhase(w, s.loggers[l], g, Idle);
      }
    }
    forall k: nat | k < |n.sinks| ensures SinkOk(w, n, k) {
      SinkAlike(w, s, l, g, k);
    }
  }

  lemma SinkAlike(w: Wiring, s: System, l: Id, g: Logger, k: Id)
    requires l < |s.loggers| && k < |s.sinks| && SinkOk(w, s, k) && Alike(s.loggers[l], g)
    ensures SinkOk(w, s.(loggers := s.loggers[l := g]), k)
  {
    var n := s.(loggers := s.loggers[l := g]);
    assert Partial(n, k) == Partial(s, k);
    forall i | 0 <= i < |n.sinks[k].received| ensures ReceiptOk(w, n, k, n.sinks[k].received[i]) {
      assert ReceiptOk(w, s, k, s.sinks[k].received[i]);
    }
  }

  lemma LockKeeps(w: Wiring, s: System, t: Id, l: Id, p: Phase)
    requires Inv(w, s) && t < |s.threads| && s.threads[t].Held() == None && Free(s, l)
    requires p.Locked? || p.Flushing? || p.Changing?
    requires p.Held() == Some(l) && (p.Flushing? ==> p.at == 0)
    ensures Inv(w, Moved(s, t, p, l, s.loggers[l].(owner := Some(t))))
  {
    FreeActs(w, s, t, l);
    StepKeeps(w, s, t, p, l, s.loggers[l].(owner := Some(t)));
  }

  lemma WriteHeaderKeeps(w: Wiring, s: System, t: Id)
    requires Inv(w, s) && Enabled(w, s, t, WriteHeader)
    ensures Inv(w, Apply(w, s, t, WriteHeader))
  {
    var p := s.threads[t];
    var l, call := p.job.logger, p.job.call;
    HolderActs(w, s, t, l);
    var g := s.loggers[l];
    var cache := g.cache.At(call.Second());
    StepKeeps(w, s, t, Headed(p.job), l, g.(cache := cache, buf := w.header(cache, g.opts, call)));
  }

  lemma WritePayloadKeeps(w: Wiring, s: System, t: Id)
    requires Inv(w, s) && Enabled(w, s, t, WritePayload)
    ensures Inv(w, Apply(w, s, t, WritePayload))
  {
    var p := s.threads[t];
    HolderActs(w, s, t, p.job.logger);
    var g := s.loggers[p.job.logger];
    StepKeeps(w, s, t, Filled(p.job), p.job.logger, g.(buf := g.buf + p.job.payload));
  }

  lemma FormatThrowsKeeps(w: Wiring, s: System, t: Id, written: nat)
    requires Inv(w, s) && Enabled(w, s, t, FormatThrows(written))
    ensures Inv(w, Apply(w, s, t, FormatThrows(written)))
  {
    var p := s.threads[t];
    HolderActs(w, s, t, p.job.logger);
    var g := s.loggers[p.job.logger];
    StepKeeps(w, s, t, Idle, p.job.logger, Unlocked(g.(buf := g.buf + p.job.payload[..written])));
  }

  lemma NewLineWhole(w: Wiring, l: Id, g: Logger, job: Job)
    requires l < |w.sinks| && LoggerOk(w, l, g) && PhaseOk(w, g, Filled(job))
    ensures forall i :: 0 <= i <= |g.lines| ==> Whole(w.header, g.configs, WithLine(g, job).lines[i])
  {
    var h := WithLine(g, job);
    forall i | 0 <= i <= |g.lines| ensures Whole(w.header, g.configs, h.lines[i]) {
      if i < |g.lines| {
        assert Whole(w.header, g.configs, g.lines[i]);
      }
    }
  }

  lemma NewLineOk(w: Wiring, l: Id, g: Logger, job: Job)
    requires l < |w.sinks| && LoggerOk(w, l, g) && PhaseOk(w, g, Filled(job))
    ensures LoggerOk(w, l, WithLine(g, job))
  {
    NewLineWhole(w, l, g, job);
    forall i | 0 <= i < |g.lines| ensures g.lines[i].config <= |g.configs| - 1 {
      assert Whole(w.header, g.configs, g.lines[i]);
    }
  }

  /** No place has taken a line that was just completed. */
  lemma NewLineSent(w: Wiring, l: Id, g: Logger, job: Job)
    requires l < |w.sinks| && LoggerOk(w, l, g) && PhaseOk(w, g, Filled(job))
    ensures Sent(WithLine(g, job), 0)
  {
    var h := WithLine(g, job);
    assert |h.lines| - 1 == |g.lines| && h.lines[|g.lines|].text == h.buf;
    assert h.taken == g.taken;
  }

  lemma WriteNewlineKeeps(w: Wiring, s: System, t: Id)
    requires Inv(w, s) && Enabled(w, s, t, WriteNewline)
    ensures Inv(w, Apply(w, s, t, WriteNewline))
  {
    var p := s.threads[t];
    var l := p.job.logger;
    HolderActs(w, s, t, l);
    NewLineOk(w, l, s.loggers[l], p.job);
    NewLineSent(w, l, s.loggers[l], p.job);
    StepKeeps(w, s, t, Sending(p.job, 0), l, WithLine(s.loggers[l], p.job));
  }

  lemma EndSendingKeeps(w: Wiring, s: System, t: Id)
    requires Inv(w, s) && Enabled(w, s, t, EndSending)
    ensures Inv(w, Apply(w, s, t, EndSending))
  {
    var p := s.threads[t];
    var l := p.job.logger;
    HolderActs(w, s, t, l);
    var g := s.loggers[l];
    assert Complete(g, 0, 0);
    if Rank(p.job.call.level) >= Rank(g.flushLevel) {
      StepKeeps(w, s, t, Flushing(l, 0, true), l, g);
    } else {
      StepKeeps(w, s, t, Idle, l, Unlocked(g));
    }
  }

  lemma EndFlushKeeps(w: Wiring, s: System, t: Id)
    requires Inv(w, s) && Enabled(w, s, t, EndFlush)
    ensures Inv(w, Apply(w, s, t, EndFlush))
  {
    var l := s.threads[t].logger;
    HolderActs(w, s, t, l);
    StepKeeps(w, s, t, Idle, l, Unlocked(s.loggers[l]));
  }

  lemma SetFieldKeeps(w: Wiring, s: System, t: Id)
    requires Inv(w, s) && Enabled(w, s, t, SetField)
    ensures Inv(w, Apply(w, s, t, SetField))
  {
    var p := s.threads[t];
    HolderActs(w, s, t, p.logger);
    var g := s.loggers[p.logger];
    StepKeeps(w, s, t, Changed(p.logger, p.change), p.logger,
              match p.change case Rename(name) => g.(name := name) case Reshape(opts) => g.(opts := opts));
  }

  lemma Reconfigured(w: Wiring, l: Id, g: Logger)
    requires l < |w.sinks| && LoggerOk(w, l, g) && Complete(g, 0, 0)
    ensures var h := Unlocked(g.(cache := g.cache.Named(g.name), configs := g.configs + [(g.name, g.opts)]));
            LoggerOk(w, l, h) && PhaseOk(w, h, Idle)
  {
    var h := Unlocked(g.(cache := g.cache.Named(g.name), configs := g.configs + [(g.name, g.opts)]));
    forall i | 0 <= i < |h.lines| ensures Whole(w.header, h.configs, h.lines[i]) {
      assert Whole(w.header, g.configs, g.lines[i]);
    }
  }

  lemma RebuildHeaderKeeps(w: Wiring, s: System, t: Id)
    requires Inv(w, s) && Enabled(w, s, t, RebuildHeader)
    ensures Inv(w, Apply(w, s, t, RebuildHeader))
  {
    var l := s.threads[t].logger;
    HolderActs(w, s, t, l);
    var g := s.loggers[l];
    Reconfigured(w, l, g);
    StepKeeps(w, s, t, Idle, l, Unlocked(g.(cache := g.cache.Named(g.name),
                                            configs := g.configs + [(g.name, g.opts)])));
  }

  // ----- The steps at sinks -----

  /** Whoever is inside a private sink holds the one logger it belongs to. */
  lemma InsidePrivate(w: Wiring, s: System, l: Id, at: nat, u: Id)
    requires Inv(w, s) && w.Slot(l, at) && w.sinks[l][at] < |w.shared| && !w.shared[w.sinks[l][at]]
    requires u < |s.threads| && SinkOf(w, s.threads[u]) == w.sinks[l][at]
    ensures s.threads[u].Held() == Some(l) && l < |s.loggers| && s.loggers[l].owner == Some(u)
  {
    assert ThreadOk(w, s, u);
  }

  /** So a private sink needs no lock: nobody else can be inside it. */
  lemma MayEnterFree(w: Wiring, s: System, t: Id, l: Id, at: nat)
    requires Inv(w, s) && t < |s.threads| && s.threads[t].Held() == Some(l) && !s.threads[t].InSink()
             && MayEnter(w, s, l, at)
    ensures s.sinks[w.sinks[l][at]].owner == None
  {
    var k := w.sinks[l][at];
    assert ThreadOk(w, s, t);
    assert SinkOk(w, s, k);
    if s.sinks[k].owner.Some? && !w.shared[k] {
      InsidePrivate(w, s, l, at, s.sinks[k].owner.value);
    }
  }

  lemma EnterKeeps(w: Wiring, s: System, t: Id, l: Id, at: nat, p: Phase)
    requires Inv(w, s) && t < |s.threads| && s.threads[t].Held() == Some(l) && !s.threads[t].InSink()
             && MayEnter(w, s, l, at)
    requires (p.Inside? && p.job.logger == l && p.at == at && p.done == 0)
             || (p.FlushInside? && p.logger == l && p.at == at)
    requires PhaseOk(w, s.loggers[l], p)
    ensures Inv(w, WithSink(Moved(s, t, p, l, s.loggers[l]), w.sinks[l][at],
                            s.sinks[w.sinks[l][at]].(owner := Some(t))))
  {
    var k := w.sinks[l][at];
    HolderActs(w, s, t, l);
    MayEnterFree(w, s, t, l, at);
    var sink := s.sinks[k].(owner := Some(t));
    var n := WithSink(Moved(s, t, p, l, s.loggers[l]), k, sink);
    assert SinkOk(w, s, k);
    assert Partial(n, k) == "";
    SinkStepKeeps(w, s, t, p, l, s.loggers[l], k, sink);
  }

  /** What is known of a thread inside a sink. */
  lemma InsideActs(w: Wiring, s: System, t: Id, l: Id, at: nat)
    requires Inv(w, s) && t < |s.threads| && s.threads[t].InSink() && s.threads[t].Held() == Some(l)
    requires at == s.threads[t].at
    ensures Acts(s, t, l) && PhaseOk(w, s.loggers[l], s.threads[t]) && LoggerOk(w, l, s.loggers[l])
    ensures w.Slot(l, at) && w.sinks[l][at] < |s.sinks| && SinkOf(w, s.threads[t]) == w.sinks[l][at]
    ensures s.sinks[w.sinks[l][at]].owner == Some(t) && SinkOk(w, s, w.sinks[l][at])
  {
    assert ThreadOk(w, s, t);
  }

  lemma DeliverText(s: System, t: Id, job: Job, at: nat, done: nat, count: nat, k: Id)
    requires t < |s.threads| && s.threads[t] == Inside(job, at, done) && job.logger < |s.loggers| && k < |s.sinks|
    requires s.sinks[k].owner == Some(t) && done + count <= |s.loggers[job.logger].buf|
    ensures var g := s.loggers[job.logger];
            var sink := s.sinks[k].(out := s.sinks[k].out + g.buf[done..done + count]);
            Partial(WithSink(Moved(s, t, Inside(job, at, done + count), job.logger, g), k, sink), k)
              == Partial(s, k) + g.buf[done..done + count]
  {
    var buf := s.loggers[job.logger].buf;
    assert buf[..done] + buf[done..done + count] == buf[..done + count];
  }

  lemma DeliverOk(w: Wiring, s: System, t: Id, job: Job, at: nat, done: nat, count: nat, k: Id)
    requires t < |s.threads| && s.threads[t] == Inside(job, at, done) && job.logger < |s.loggers| && k < |s.sinks|
    requires SinkOk(w, s, k) && s.sinks[k].owner == Some(t) && w.Slot(job.logger, at) && w.sinks[job.logger][at] == k
    requires done + count <= |s.loggers[job.logger].buf|
    ensures var g := s.loggers[job.logger];
            var sink := s.sinks[k].(out := s.sinks[k].out + g.buf[done..done + count]);
            SinkOk(w, WithSink(Moved(s, t, Inside(job, at, done + count), job.logger, g), k, sink), k)
  {
    var g := s.loggers[job.logger];
    var piece := g.buf[done..done + count];
    var n := WithSink(Moved(s, t, Inside(job, at, done + count), job.logger, g), k,
                      s.sinks[k].(out := s.sinks[k].out + piece));
    DeliverText(s, t, job, at, done, count, k);
    Delivered(w, s, n, t, k, piece);
  }

  /** A sink that has got one more piece of the write under way. */
  lemma Delivered(w: Wiring, s: System, n: System, t: Id, k: Id, piece: string)
    requires k < |s.sinks| && k < |n.sinks| && SinkOk(w, s, k) && s.sinks[k].owner == Some(t)
    requires t < |n.threads| && SinkOf(w, n.threads[t]) == k && n.loggers == s.loggers
    requires n.sinks[k] == s.sinks[k].(out := s.sinks[k].out + piece) && Partial(n, k) == Partial(s, k) + piece
    ensures SinkOk(w, n, k)
  {
    JoinAssoc(Joined(s.sinks[k].received), Partial(s, k), piece);
    SameReceipts(w, s, n, k);
    SameProjects(w, s, n, k);
    SinkInUse(w, n, k);
  }

  lemma JoinAssoc(a: string, b: string, c: string)
    ensures (a + b) + c == a + (b + c)
  {
  }

  /** A sink with a thread inside. */
  lemma SinkInUse(w: Wiring, n: System, k: Id)
    requires k < |n.sinks| && n.sinks[k].owner.Some? && n.sinks[k].owner.value < |n.threads|
    requires SinkOf(w, n.threads[n.sinks[k].owner.value]) == k
    requires n.sinks[k].out == Joined(n.sinks[k].received) + Partial(n, k)
    requires forall i :: 0 <= i < |n.sinks[k].received| ==> ReceiptOk(w, n, k, n.sinks[k].received[i])
    requires Ordered(n.sinks[k].received) && Projects(w, n, k)
    ensures SinkOk(w, n, k)
  {
  }

  lemma DeliverKeeps(w: Wiring, s: System, t: Id, job: Job, at: nat, done: nat, count: nat)
    requires Inv(w, s) && t < |s.threads| && s.threads[t] == Inside(job, at, done)
    requires InRange(w, s, job.logger, at) && done + count <= |s.loggers[job.logger].buf|
    ensures var l, k := job.logger, w.sinks[job.logger][at];
            Inv(w, WithSink(Moved(s, t, Inside(job, at, done + count), l, s.loggers[l]), k,
                            s.sinks[k].(out := s.sinks[k].out + s.loggers[l].buf[done..done + count])))
  {
    var l, k := job.logger, w.sinks[job.logger][at];
    InsideActs(w, s, t, l, at);
    DeliverOk(w, s, t, job, at, done, count, k);
    SinkStepKeeps(w, s, t, Inside(job, at, done + count), l, s.loggers[l], k,
                  s.sinks[k].(out := s.sinks[k].out + s.loggers[l].buf[done..done + count]));
  }

  lemma SameReceipts(w: Wiring, s: System, n: System, k: Id)
    requires k < |s.sinks| && k < |n.sinks| && SinkOk(w, s, k) && s.sinks[k].received <= n.sinks[k].received
    requires |n.loggers| == |s.loggers| && forall l :: 0 <= l < |s.loggers| ==> s.loggers[l].lines <= n.loggers[l].lines
    ensures forall i :: 0 <= i < |s.sinks[k].received| ==> ReceiptOk(w, n, k, n.sinks[k].received[i])
  {
    forall i | 0 <= i < |s.sinks[k].received| ensures ReceiptOk(w, n, k, n.sinks[k].received[i]) {
      assert ReceiptOk(w, s, k, s.sinks[k].received[i]);
    }
  }

  /** Taking the last line at the next place keeps the logger's history in order. */
  lemma TakenNested(g: Logger, at: nat)
    requires Sent(g, at) && at < |g.taken| && Nested(g.taken)
    ensures Nested(WithTaken(g, at).taken)
  {
    var h := WithTaken(g, at);
    forall i, j, x | 0 <= i < j < |h.taken| && x in h.taken[j] ensures x in h.taken[i] {
      if x in g.taken[j] {
        assert x in g.taken[i];
      }
    }
  }

  lemma TakenIncreasing(g: Logger, at: nat)
    requires Sent(g, at) && at < |g.taken| && forall i :: 0 <= i < |g.taken| ==> Increasing(g.taken[i], |g.lines|)
    ensures forall i :: 0 <= i < |g.taken| ==> Increasing(WithTaken(g, at).taken[i], |g.lines|)
  {
    assert Increasing(g.taken[at], |g.lines| - 1);
    assert Increasing(g.taken[at] + [|g.lines| - 1], |g.lines|);
  }

  lemma TakenSent(g: Logger, at: nat)
    requires Sent(g, at) && at < |g.taken|
    ensures Sent(WithTaken(g, at), at + 1)
  {
    var h := WithTaken(g, at);
    if !g.threw {
      assert g.taken[at] == UpTo(|g.lines| - 1);
      assert h.taken[at] == UpTo(|g.lines|);
    }
  }

  lemma TakenOk(w: Wiring, l: Id, g: Logger, at: nat)
    requires l < |w.sinks| && LoggerOk(w, l, g) && Sent(g, at) && at < |g.taken|
    ensures LoggerOk(w, l, WithTaken(g, at))
  {
    TakenNested(g, at);
    TakenIncreasing(g, at);
  }

  lemma ProjectSnoc(receipts: seq<Receipt>, r: Receipt, l: Id, at: nat)
    ensures Project(receipts + [r], l, at)
            == Project(receipts, l, at) + if r.logger == l && r.at == at && r.outcome != Failed then [r.line] else []
    ensures Joined(receipts + [r]) == Joined(receipts) + r.text
  {
    assert (receipts + [r])[..|receipts|] == receipts;
  }

  lemma {:induction false} ProjectHas(receipts: seq<Receipt>, i: nat)
    requires i < |receipts| && receipts[i].outcome != Failed
    ensures receipts[i].line in Project(receipts, receipts[i].logger, receipts[i].at)
  {
    if i < |receipts| - 1 {
      ProjectHas(receipts[..|receipts| - 1], i);
    }
  }

  /** Whatever a sink took from the logger before precedes its last line at the place that takes it now. */
  lemma LastInOrder(w: Wiring, s: System, l: Id, at: nat, k: Id, r: Receipt)
    requires l < |s.loggers| && k < |s.sinks| && SinkOk(w, s, k) && Sent(s.loggers[l], at)
    requires l < |w.sinks| && |s.loggers[l].taken| == |w.sinks[l]|
    requires r.logger == l && r.at == at && r.line == |s.loggers[l].lines| - 1
    ensures Ordered(s.sinks[k].received + [r])
  {
    var g, receipts := s.loggers[l], s.sinks[k].received;
    forall i | 0 <= i < |receipts| && SameTaker(receipts[i], r) ensures Precedes(receipts[i], r) {
      var b := receipts[i].at;
      assert ReceiptOk(w, s, k, receipts[i]);
      ProjectHas(receipts, i);
      assert receipts[i].line in g.taken[b];
      if b >= at {
        assert Increasing(g.taken[b], |g.lines| - 1);
      }
    }
  }

  /** The receipt of a write that ends now, and the sink's bytes with it. */
  lemma WriteEnds(w: Wiring, s: System, t: Id, l: Id, at: nat, k: Id, outcome: Outcome)
    requires t < |s.threads| && s.threads[t].Inside? && s.threads[t].job.logger == l && s.threads[t].at == at
    requires w.Slot(l, at) && w.sinks[l][at] == k && l < |s.loggers| && k < |s.sinks|
    requires SinkOk(w, s, k) && s.sinks[k].owner == Some(t) && Sent(s.loggers[l], at)
    requires s.threads[t].done <= |s.loggers[l].buf|
    requires outcome == Full ==> s.threads[t].done == |s.loggers[l].buf|
    ensures var r := Written(s.loggers[l], l, at, s.threads[t].done, outcome);
            && ReceiptOk(w, s, k, r) && s.sinks[k].out == Joined(s.sinks[k].received + [r])
  {
    var g, done := s.loggers[l], s.threads[t].done;
    var r := Written(g, l, at, done, outcome);
    WrittenPart(g, l, at, done, outcome);
    assert Partial(s, k) == r.text;
    ProjectSnoc(s.sinks[k].received, r, l, at);
  }

  lemma WrittenPart(g: Logger, l: Id, at: nat, done: nat, outcome: Outcome)
    requires |g.lines| > 0 && g.buf == g.lines[|g.lines| - 1].text && done <= |g.buf|
    ensures var r := Written(g, l, at, done, outcome);
            && r.text <= g.lines[r.line].text && (done == |g.buf| ==> r.text == g.lines[r.line].text)
  {
    assert g.buf[..|g.buf|] == g.buf;
  }

  lemma LeaveProjects(w: Wiring, s: System, n: System, l: Id, at: nat, k: Id, r: Receipt)
    requires w.Valid() && l < |s.loggers| && k < |s.sinks| && k < |n.sinks| && SinkOk(w, s, k)
    requires at < |s.loggers[l].taken| && |s.loggers[l].lines| > 0
    requires n.loggers == s.loggers[l := WithTaken(s.loggers[l], at)]
             && n.sinks[k].received == s.sinks[k].received + [r]
    requires r.logger == l && r.at == at && r.line == |s.loggers[l].lines| - 1 && r.outcome != Failed
    ensures Projects(w, n, k)
  {
    forall m: nat, b: nat | w.Slot(m, b) && w.sinks[m][b] == k && m < |n.loggers| && b < |n.loggers[m].taken|
      ensures Project(n.sinks[k].received, m, b) == n.loggers[m].taken[b]
    {
      LeaveProject(w, s, n, l, at, k, r, m, b);
    }
  }

  lemma LeaveProject(w: Wiring, s: System, n: System, l: Id, at: nat, k: Id, r: Receipt, m: Id, b: nat)
    requires l < |s.loggers| && k < |s.sinks| && k < |n.sinks| && Projects(w, s, k)
    requires at < |s.loggers[l].taken| && |s.loggers[l].lines| > 0
    requires n.loggers == s.loggers[l := WithTaken(s.loggers[l], at)]
             && n.sinks[k].received == s.sinks[k].received + [r]
    requires r.logger == l && r.at == at && r.line == |s.loggers[l].lines| - 1 && r.outcome != Failed
    requires w.Slot(m, b) && w.sinks[m][b] == k && m < |n.loggers| && b < |n.loggers[m].taken|
    ensures Project(n.sinks[k].received, m, b) == n.loggers[m].taken[b]
  {
    TakenAt(s, n, l, at, m, b);
    OneProject(s.sinks[k].received, n.sinks[k].received, r, m, b, s.loggers[m].taken[b], n.loggers[m].taken[b]);
  }

  lemma OneProject(receipts: seq<Receipt>, more: seq<Receipt>, r: Receipt, l: Id, at: nat, before: seq<nat>,
                   after: seq<nat>)
    requires more == receipts + [r] && Project(receipts, l, at) == before
    requires after == before + if r.logger == l && r.at == at && r.outcome != Failed then [r.line] else []
    ensures Project(more, l, at) == after
  {
    ProjectSnoc(receipts, r, l, at);
  }

  /** What each place has taken after one more line at place `at` of logger `l`. */
  lemma TakenAt(s: System, n: System, l: Id, at: nat, m: nat, b: nat)
    requires l < |s.loggers| && at < |s.loggers[l].taken| && |s.loggers[l].lines| > 0
    requires n.loggers == s.loggers[l := WithTaken(s.loggers[l], at)] && m < |n.loggers| && b < |n.loggers[m].taken|
    ensures b < |s.loggers[m].taken|
    ensures n.loggers[m].taken[b]
            == s.loggers[m].taken[b] + if m == l && b == at then [|s.loggers[l].lines| - 1] else []
  {
    assert s.loggers[m].taken[b] + [] == s.loggers[m].taken[b];
  }

  lemma LeaveSinkOk(w: Wiring, s: System, t: Id, l: Id, at: nat, p: Phase, outcome: Outcome)
    requires w.Valid() && t < |s.threads| && s.threads[t].Inside? && s.threads[t].job.logger == l
             && s.threads[t].at == at && !p.InSink()
    requires w.Slot(l, at) && l < |s.loggers| && w.sinks[l][at] < |s.sinks| && at < |s.loggers[l].taken|
    requires SinkOk(w, s, w.sinks[l][at]) && s.sinks[w.sinks[l][at]].owner == Some(t)
    requires Sent(s.loggers[l], at) && |s.loggers[l].taken| == |w.sinks[l]|
    requires s.threads[t].done <= |s.loggers[l].buf| && outcome != Failed
    requires outcome == Full ==> s.threads[t].done == |s.loggers[l].buf|
    ensures var g, k := s.loggers[l], w.sinks[l][at];
            var r := Written(g, l, at, s.threads[t].done, outcome);
            SinkOk(w, WithSink(Moved(s, t, p, l, WithTaken(g, at)), k, WithReceipt(s.sinks[k], r)), k)
  {
    var g, k := s.loggers[l], w.sinks[l][at];
    var r := Written(g, l, at, s.threads[t].done, outcome);
    var n := WithSink(Moved(s, t, p, l, WithTaken(g, at)), k, WithReceipt(s.sinks[k], r));
    WriteEnds(w, s, t, l, at, k, outcome);
    LastInOrder(w, s, l, at, k, r);
    SameReceipts(w, s, n, k);
    LeaveProjects(w, s, n, l, at, k, r);
    assert ReceiptOk(w, n, k, r);
    SinkAtRest(w, n, k);
  }

  /** A write that throws leaves what it delivered and takes nothing. */
  lemma ThrowSinkOk(w: Wiring, s: System, t: Id, l: Id, at: nat, g: Logger)
    requires t < |s.threads| && s.threads[t].Inside? && s.threads[t].job.logger == l && s.threads[t].at == at
    requires w.Slot(l, at) && l < |s.loggers| && w.sinks[l][at] < |s.sinks|
    requires SinkOk(w, s, w.sinks[l][at]) && s.sinks[w.sinks[l][at]].owner == Some(t)
    requires Sent(s.loggers[l], at) && s.threads[t].done <= |s.loggers[l].buf|
    requires g.lines == s.loggers[l].lines && g.taken == s.loggers[l].taken
    ensures var k := w.sinks[l][at];
            var r := Written(s.loggers[l], l, at, s.threads[t].done, Failed);
            SinkOk(w, WithSink(Moved(s, t, Idle, l, g), k, WithReceipt(s.sinks[k], r)), k)
  {
    var k := w.sinks[l][at];
    var r := Written(s.loggers[l], l, at, s.threads[t].done, Failed);
    var n := WithSink(Moved(s, t, Idle, l, g), k, WithReceipt(s.sinks[k], r));
    WriteEnds(w, s, t, l, at, k, Failed);
    SameReceipts(w, s, n, k);
    assert ReceiptOk(w, n, k, r);
    ThrowProjects(w, s, n, k, r);
    SinkAtRest(w, n, k);
  }

  lemma ThrowProjects(w: Wiring, s: System, n: System, k: Id, r: Receipt)
    requires k < |s.sinks| && k < |n.sinks| && Projects(w, s, k) && r.outcome == Failed
    requires n.sinks[k].received == s.sinks[k].received + [r]
    requires |n.loggers| == |s.loggers| && forall m :: 0 <= m < |s.loggers| ==> n.loggers[m].taken == s.loggers[m].taken
    ensures Projects(w, n, k)
  {
    forall m: nat, b: nat | w.Slot(m, b) && w.sinks[m][b] == k && m < |n.loggers| && b < |n.loggers[m].taken|
      ensures Project(n.sinks[k].received, m, b) == n.loggers[m].taken[b]
    {
      ProjectSnoc(s.sinks[k].received, r, m, b);
      assert n.loggers[m].taken == s.loggers[m].taken;
      assert Project(s.sinks[k].received, m, b) == s.loggers[m].taken[b];
    }
  }

  lemma TakenElsewhere(w: Wiring, l: Id, g: Logger, at: nat, k: Id)
    requires at < |g.taken| && |g.lines| > 0 && w.Slot(l, at) && w.sinks[l][at] == k
    ensures forall m: nat :: m != k ==> Continues(w, l, g, WithTaken(g, at), m)
  {
  }

  /** What the step out of a sink needs. */
  lemma LeaveSinkReady(w: Wiring, s: System, t: Id, job: Job, at: nat, done: nat)
    requires Inv(w, s) && t < |s.threads| && InRange(w, s, job.logger, at)
    requires s.threads[t] == Inside(job, at, done) && |s.loggers[job.logger].lines| > 0
    ensures var l, k := job.logger, w.sinks[job.logger][at];
            var g := s.loggers[l];
            && Acts(s, t, l) && SinkOf(w, s.threads[t]) == k && s.sinks[k].owner == Some(t) && SinkOk(w, s, k)
            && LoggerOk(w, l, WithTaken(g, at)) && Sent(g, at) && Sent(WithTaken(g, at), at + 1)
            && done <= |g.buf| && |g.taken| == |w.sinks[l]|
            && (forall m: nat :: m != k ==> Continues(w, l, g, WithTaken(g, at), m))
  {
    var l, k := job.logger, w.sinks[job.logger][at];
    InsideActs(w, s, t, l, at);
    TakenOk(w, l, s.loggers[l], at);
    TakenSent(s.loggers[l], at);
    TakenElsewhere(w, l, s.loggers[l], at, k);
  }

  lemma LeaveSinkKeeps(w: Wiring, s: System, t: Id, job: Job, at: nat, done: nat, k: Id, g: Logger, outcome: Outcome)
    requires Inv(w, s) && t < |s.threads| && InRange(w, s, job.logger, at)
    requires k == w.sinks[job.logger][at] && g == s.loggers[job.logger] && s.threads[t] == Inside(job, at, done)
    requires |g.lines| > 0 && done <= |g.buf| && outcome != Failed && (outcome == Full ==> done == |g.buf|)
    ensures var r := Written(g, job.logger, at, done, outcome);
            Inv(w, WithSink(Moved(s, t, Sending(job, at + 1), job.logger, WithTaken(g, at)), k,
                            WithReceipt(s.sinks[k], r)))
  {
    LeaveSinkReady(w, s, t, job, at, done);
    LeaveSinkOk(w, s, t, job.logger, at, Sending(job, at + 1), outcome);
    SinkStepKeeps(w, s, t, Sending(job, at + 1), job.logger, WithTaken(g, at), k,
                  WithReceipt(s.sinks[k], Written(g, job.logger, at, done, outcome)));
  }

  /** Leaving a sink with nothing delivered. */
  lemma LeaveEmptyOk(w: Wiring, s: System, t: Id, l: Id, k: Id, p: Phase, g: Logger, sink: Sink)
    requires t < |s.threads| && l < |s.loggers| && k < |s.sinks| && SinkOk(w, s, k) && s.sinks[k].owner == Some(t)
    requires s.threads[t].FlushInside?
    requires g.lines == s.loggers[l].lines && g.taken == s.loggers[l].taken
    requires sink.owner == None && sink.out == s.sinks[k].out && sink.received == s.sinks[k].received
    ensures SinkOk(w, WithSink(Moved(s, t, p, l, g), k, sink), k)
  {
    var n := WithSink(Moved(s, t, p, l, g), k, sink);
    assert Partial(s, k) == "";
    SameReceipts(w, s, n, k);
    SameProjects(w, s, n, k);
    SinkAtRest(w, n, k);
  }

  /** Loggers that took the same lines leave the order at the sink as it is. */
  lemma SameProjects(w: Wiring, s: System, n: System, k: Id)
    requires k < |s.sinks| && k < |n.sinks| && Projects(w, s, k) && n.sinks[k].received == s.sinks[k].received
    requires |n.loggers| == |s.loggers| && forall m :: 0 <= m < |s.loggers| ==> n.loggers[m].taken == s.loggers[m].taken
    ensures Projects(w, n, k)
  {
    forall m: nat, b: nat | w.Slot(m, b) && w.sinks[m][b] == k && m < |n.loggers| && b < |n.loggers[m].taken|
      ensures Project(n.sinks[k].received, m, b) == n.loggers[m].taken[b]
    {
      assert n.loggers[m].taken == s.loggers[m].taken;
      assert Project(s.sinks[k].received, m, b) == s.loggers[m].taken[b];
    }
  }

  /** A sink nobody is inside. */
  lemma SinkAtRest(w: Wiring, n: System, k: Id)
    requires k < |n.sinks| && n.sinks[k].owner == None && n.sinks[k].out == Joined(n.sinks[k].received)
    requires forall i :: 0 <= i < |n.sinks[k].received| ==> ReceiptOk(w, n, k, n.sinks[k].received[i])
    requires Ordered(n.sinks[k].received) && Projects(w, n, k)
    ensures SinkOk(w, n, k)
  {
    assert Joined(n.sinks[k].received) + "" == Joined(n.sinks[k].received);
  }

  lemma LeaveEmptyKeeps(w: Wiring, s: System, t: Id, l: Id, k: Id, p: Phase, g: Logger, sink: Sink)
    requires Inv(w, s) && t < |s.threads| && s.threads[t].Held() == Some(l) && SinkOf(w, s.threads[t]) == k
             && k < |s.sinks|
    requires s.threads[t].FlushInside?
    requires l < |s.loggers| && g.lines == s.loggers[l].lines && g.taken == s.loggers[l].taken
    requires sink.owner == None && sink.out == s.sinks[k].out && sink.received == s.sinks[k].received
    requires LoggerOk(w, l, g) && PhaseOk(w, g, p) && Leaves(t, p, l, g) && !p.InSink()
    ensures Inv(w, WithSink(Moved(s, t, p, l, g), k, sink))
  {
    InsideActs(w, s, t, l, s.threads[t].at);
    LeaveEmptyOk(w, s, t, l, k, p, g, sink);
    SinkStepKeeps(w, s, t, p, l, g, k, sink);
  }

  /** After a sink has thrown, nothing is promised about completeness, and the rest holds. */
  lemma ThrownLogger(w: Wiring, l: Id, g: Logger, at: nat)
    requires l < |w.sinks| && LoggerOk(w, l, g) && Sent(g, at)
    ensures var h := Unlocked(g.(threw := true)); LoggerOk(w, l, h) && PhaseOk(w, h, Idle)
  {
  }

  lemma SinkThrowsKeeps(w: Wiring, s: System, t: Id, job: Job, at: nat, done: nat)
    requires Inv(w, s) && t < |s.threads| && s.threads[t] == Inside(job, at, done) && InRange(w, s, job.logger, at)
    requires MayStop(s, job.logger, done)
    ensures var l, k := job.logger, w.sinks[job.logger][at];
            Inv(w, WithSink(Moved(s, t, Idle, l, Unlocked(s.loggers[l].(threw := true))), k,
                            WithReceipt(s.sinks[k], Written(s.loggers[l], l, at, done, Failed))))
  {
    var l, k := job.logger, w.sinks[job.logger][at];
    var g := Unlocked(s.loggers[l].(threw := true));
    InsideActs(w, s, t, l, at);
    ThrownLogger(w, l, s.loggers[l], at);
    ThrowSinkOk(w, s, t, l, at, g);
    SinkStepKeeps(w, s, t, Idle, l, g, k, WithReceipt(s.sinks[k], Written(s.loggers[l], l, at, done, Failed)));
  }

  lemma LeaveFlushKeeps(w: Wiring, s: System, t: Id, l: Id, at: nat, auto: bool)
    requires Inv(w, s) && t < |s.threads| && s.threads[t] == FlushInside(l, at, auto) && InRange(w, s, l, at)
    ensures var k := w.sinks[l][at];
            Inv(w, WithSink(Moved(s, t, Flushing(l, at + 1, auto), l, s.loggers[l]), k,
                            s.sinks[k].(owner := None, flushes := s.sinks[k].flushes + 1)))
  {
    var k := w.sinks[l][at];
    InsideActs(w, s, t, l, at);
    LeaveEmptyKeeps(w, s, t, l, k, Flushing(l, at + 1, auto), s.loggers[l],
                    s.sinks[k].(owner := None, flushes := s.sinks[k].flushes + 1));
  }

  lemma FlushThrowsKeeps(w: Wiring, s: System, t: Id, l: Id, at: nat, auto: bool)
    requires Inv(w, s) && t < |s.threads| && s.threads[t] == FlushInside(l, at, auto) && InRange(w, s, l, at)
    ensures var k := w.sinks[l][at];
            Inv(w, WithSink(Moved(s, t, Idle, l, Unlocked(s.loggers[l])), k, s.sinks[k].(owner := None)))
  {
    var k := w.sinks[l][at];
    InsideActs(w, s, t, l, at);
    LeaveEmptyKeeps(w, s, t, l, k, Idle, Unlocked(s.loggers[l]), s.sinks[k].(owner := None));
  }

  lemma EnterSafe(w: Wiring, s: System, t: Id, a: Action)
    requires Inv(w, s) && Enabled(w, s, t, a) && (a.EnterSink? || a.EnterFlush?)
    ensures Inv(w, Apply(w, s, t, a))
  {
    var p := s.threads[t];
    if a.EnterSink? {
      HolderActs(w, s, t, p.job.logger);
      EnterKeeps(w, s, t, p.job.logger, p.at, Inside(p.job, p.at, 0));
    } else {
      HolderActs(w, s, t, p.logger);
      EnterKeeps(w, s, t, p.logger, p.at, FlushInside(p.logger, p.at, p.auto));
    }
  }

  lemma DeliverSafe(w: Wiring, s: System, t: Id, a: Action)
    requires Inv(w, s) && Enabled(w, s, t, a) && a.Deliver?
    ensures Inv(w, Apply(w, s, t, a))
  {
    var p := s.threads[t];
    DeliverKeeps(w, s, t, p.job, p.at, p.done, a.count);
  }

  lemma LeaveSafe(w: Wiring, s: System, t: Id, a: Action)
    requires Inv(w, s) && Enabled(w, s, t, a) && a.LeaveSink?
    ensures Inv(w, Apply(w, s, t, a))
  {
    var p := s.threads[t];
    var g := s.loggers[p.job.logger];
    LeaveSinkKeeps(w, s, t, p.job, p.at, p.done, w.sinks[p.job.logger][p.at], g, Full);
  }

  lemma LeaveShortSafe(w: Wiring, s: System, t: Id, a: Action)
    requires Inv(w, s) && Enabled(w, s, t, a) && a.LeaveShort?
    ensures Inv(w, Apply(w, s, t, a))
  {
    var p := s.threads[t];
    LeaveSinkKeeps(w, s, t, p.job, p.at, p.done, w.sinks[p.job.logger][p.at], s.loggers[p.job.logger], Short);
  }

  lemma ThrowSafe(w: Wiring, s: System, t: Id, a: Action)
    requires Inv(w, s) && Enabled(w, s, t, a) && a.SinkThrows?
    ensures Inv(w, Apply(w, s, t, a))
  {
    var p := s.threads[t];
    SinkThrowsKeeps(w, s, t, p.job, p.at, p.done);
  }

  lemma LeaveFlushSafe(w: Wiring, s: System, t: Id, a: Action)
    requires Inv(w, s) && Enabled(w, s, t, a) && a == LeaveFlush(false)
    ensures Inv(w, Apply(w, s, t, a))
  {
    LeaveFlushKeeps(w, s, t, s.threads[t].logger, s.threads[t].at, s.threads[t].auto);
  }

  lemma FlushThrowsSafe(w: Wiring, s: System, t: Id, a: Action)
    requires Inv(w, s) && Enabled(w, s, t, a) && a == LeaveFlush(true)
    ensures Inv(w, Apply(w, s, t, a))
  {
    FlushThrowsKeeps(w, s, t, s.threads[t].logger, s.threads[t].at, s.threads[t].auto);
  }

  /** Every step keeps the invariant. */
  lemma StepSafe(w: Wiring, s: System, t: Id, a: Action)
    requires Inv(w, s) && Enabled(w, s, t, a)
    ensures Inv(w, Apply(w, s, t, a))
  {
    var p := s.threads[t];
    match a
    case ReadClock(job) => ReadClockKeeps(w, s, t, job);
    case Lock => LockKeeps(w, s, t, p.job.logger, Locked(p.job));
    case WriteHeader => WriteHeaderKeeps(w, s, t);
    case WritePayload => WritePayloadKeeps(w, s, t);
    case FormatThrows(written) => FormatThrowsKeeps(w, s, t, written);
    case WriteNewline => WriteNewlineKeeps(w, s, t);
    case EndSending => EndSendingKeeps(w, s, t);
    case LockToFlush(l) => LockKeeps(w, s, t, l, Flushing(l, 0, false));
    case EndFlush => EndFlushKeeps(w, s, t);
    case LockToChange(l, change) => LockKeeps(w, s, t, l, Changing(l, change));
    case SetField => SetFieldKeeps(w, s, t);
    case RebuildHeader => RebuildHeaderKeeps(w, s, t);
    case SetLevel(l, level) => SetLevelKeeps(w, s, t, a);
    case SetFlushLevel(l, level) => SetLevelKeeps(w, s, t, a);
    case EnterSink => EnterSafe(w, s, t, a);
    case EnterFlush => EnterSafe(w, s, t, a);
    case Deliver(_) => DeliverSafe(w, s, t, a);
    case LeaveSink => LeaveSafe(w, s, t, a);
    case LeaveShort => LeaveShortSafe(w, s, t, a);
    case SinkThrows => ThrowSafe(w, s, t, a);
    case LeaveFlush(throws) => if throws { FlushThrowsSafe(w, s, t, a); } else { LeaveFlushSafe(w, s, t, a); }
  }

  lemma SetLevelKeeps(w: Wiring, s: System, t: Id, a: Action)
    requires Inv(w, s) && Enabled(w, s, t, a) && (a.SetLevel? || a.SetFlushLevel?)
    ensures Inv(w, Apply(w, s, t, a))
  {
    var g := s.loggers[a.logger];
    LevelsKeep(w, s, a.logger, if a.SetLevel? then g.(level := a.level) else g.(flushLevel := a.level));
    assert s.threads[t := Idle] == s.threads;
  }
}
