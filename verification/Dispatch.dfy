/** Loggers, threads and sinks as a state machine over the steps that locks leave visible to each other. */
module Dispatch {
  import opened Common
  import opened HeaderText
  import opened HeaderCache

  type Id = nat

  /** One log call: its clock reading, level and thread id, and the text formatting would produce. */
  datatype Job = Job(logger: Id, call: Call, payload: string)

  datatype Change = Rename(name: string) | Reshape(opts: Options)

  /** Where a thread stands; everything after `Timed` except `Idle` holds the logger's lock. A flush is automatic, after
      a line, or a call of its own. */
  datatype Phase =
    | Idle
    | Timed(job: Job)
    | Locked(job: Job)
    | Headed(job: Job)
    | Filled(job: Job)
    | Sending(job: Job, at: nat)
    | Inside(job: Job, at: nat, done: nat)
    | Flushing(logger: Id, at: nat, auto: bool)
    | FlushInside(logger: Id, at: nat, auto: bool)
    | Changing(logger: Id, change: Change)
    | Changed(logger: Id, change: Change)
  {
    function Held(): Option<Id> {
      match this
      case Idle | Timed(_) => None
      case Locked(job) => Some(job.logger)
      case Headed(job) => Some(job.logger)
      case Filled(job) => Some(job.logger)
      case Sending(job, _) => Some(job.logger)
      case Inside(job, _, _) => Some(job.logger)
      case Flushing(l, _, _) => Some(l)
      case FlushInside(l, _, _) => Some(l)
      case Changing(l, _) => Some(l)
      case Changed(l, _) => Some(l)
    }

    predicate InSink() {
      Inside? || FlushInside?
    }
  }

  /** A completed line and what it was made from; `config` numbers the name and options in force. */
  datatype Line = Line(text: string, cache: Cache, config: nat, call: Call, payload: string)

  /** A logger: its fields, and the history of its configurations, of its lines and of the lines each sink took. */
  datatype Logger = Logger(owner: Option<Id>, name: string, opts: Options, cache: Cache, buf: string, level: Level,
                           flushLevel: Level,
                           configs: seq<(string, Options)>, lines: seq<Line>, taken: seq<seq<nat>>, threw: bool)

  /** How a write at a sink ended: with the whole line, with a part of it and a return, or by throwing. */
  datatype Outcome = Full | Short | Failed

  /** What one write left at a sink. */
  datatype Receipt = Receipt(logger: Id, at: nat, line: nat, text: string, outcome: Outcome)

  /** A sink: its lock holder (for a private sink, whoever is inside it), its bytes and what each write left there. */
  datatype Sink = Sink(owner: Option<Id>, out: string, received: seq<Receipt>, flushes: nat)

  /** How headers come out of the cache, which sinks each logger writes to, in order, and which sinks are shared. */
  datatype Wiring = Wiring(header: (Cache, Options, Call) -> string, sinks: seq<seq<Id>>, shared: seq<bool>) {
    predicate Slot(l: Id, at: nat) {
      l < |sinks| && at < |sinks[l]|
    }

    /** Sink ids exist, and a private sink belongs to one place of one logger. */
    ghost predicate Valid() {
      && (forall l: nat, at: nat | Slot(l, at) :: sinks[l][at] < |shared|)
      && (forall l: nat, at: nat, m: nat, bt: nat | Slot(l, at) && Slot(m, bt) && sinks[l][at] == sinks[m][bt]
          && !shared[sinks[l][at]] :: l == m && at == bt)
    }
  }

  datatype System = System(threads: seq<Phase>, loggers: seq<Logger>, sinks: seq<Sink>)

  datatype Action =
    | ReadClock(job: Job)
    | Lock
    | WriteHeader
    | WritePayload
    | FormatThrows(written: nat)
    | WriteNewline
    | EnterSink
    | Deliver(count: nat)
    | LeaveSink
    | LeaveShort
    | SinkThrows
    | EndSending
    | LockToFlush(logger: Id)
    | EnterFlush
    | LeaveFlush(throws: bool)
    | EndFlush
    | LockToChange(logger: Id, change: Change)
    | SetField
    | RebuildHeader
    | SetLevel(logger: Id, level: Level)
    | SetFlushLevel(logger: Id, level: Level)

  function Rank(level: Level): nat {
    match level
    case Trace => 0
    case Debug => 1
    case Info => 2
    case Warn => 3
    case Err => 4
    case Critical => 5
    case Off => 6
  }

  // ----- Steps -----

  predicate WellFormed(w: Wiring, s: System) {
    |s.loggers| == |w.sinks| && |s.sinks| == |w.shared|
    && forall t | 0 <= t < |s.threads| && s.threads[t].Held().Some? :: s.threads[t].Held().value < |s.loggers|
  }

  /** The sink may be entered: a shared one only when its lock is free. */
  predicate MayEnter(w: Wiring, s: System, l: Id, at: nat) {
    w.Slot(l, at) && w.sinks[l][at] < |w.shared| && w.sinks[l][at] < |s.sinks|
    && (w.shared[w.sinks[l][at]] ==> s.sinks[w.sinks[l][at]].owner.None?)
  }

  predicate Free(s: System, l: Id) {
    l < |s.loggers| && s.loggers[l].owner.None?
  }

  /** Whether thread `t` can take this step now. A sink that throws in a flush call ends the program, so only an
      automatic flush goes on after that. */
  predicate Enabled(w: Wiring, s: System, t: Id, a: Action) {
    WellFormed(w, s) && t < |s.threads| &&
    var p := s.threads[t];
    match a
    case ReadClock(job) => p.Idle? && job.logger < |s.loggers|
      && Rank(job.call.level) >= Rank(s.loggers[job.logger].level)
    case Lock => p.Timed? && Free(s, p.job.logger)
    case WriteHeader => p.Locked?
    case WritePayload => p.Headed?
    case FormatThrows(written) => p.Headed? && written <= |p.job.payload|
    case WriteNewline => p.Filled? && |s.loggers[p.job.logger].configs| > 0
    case EnterSink => p.Sending? && MayEnter(w, s, p.job.logger, p.at)
    case Deliver(count) => p.Inside? && InRange(w, s, p.job.logger, p.at)
      && p.done + count <= |s.loggers[p.job.logger].buf|
    case LeaveSink =>
      p.Inside? && InRange(w, s, p.job.logger, p.at) && p.done == |s.loggers[p.job.logger].buf|
        && |s.loggers[p.job.logger].lines| > 0
    case LeaveShort => p.Inside? && MayStop(s, p.job.logger, p.done) && InRange(w, s, p.job.logger, p.at)
    case SinkThrows => p.Inside? && MayStop(s, p.job.logger, p.done) && InRange(w, s, p.job.logger, p.at)
    case EndSending => p.Sending? && p.at == |w.sinks[p.job.logger]|
    case LockToFlush(l) => p.Idle? && Free(s, l)
    case EnterFlush => p.Flushing? && MayEnter(w, s, p.logger, p.at)
    case LeaveFlush(throws) => p.FlushInside? && InRange(w, s, p.logger, p.at) && (throws ==> p.auto)
    case EndFlush => p.Flushing? && p.at == |w.sinks[p.logger]|
    case LockToChange(l, _) => p.Idle? && Free(s, l)
    case SetField => p.Changing?
    case RebuildHeader => p.Changed?
    case SetLevel(l, _) => p.Idle? && l < |s.loggers|
    case SetFlushLevel(l, _) => p.Idle? && l < |s.loggers|
  }

  predicate InRange(w: Wiring, s: System, l: Id, at: nat) {
    w.Slot(l, at) && w.sinks[l][at] < |s.sinks| && l < |s.loggers| && at < |s.loggers[l].taken|
  }

  /** Part of the line has been delivered. */
  predicate MayStop(s: System, l: Id, done: nat) {
    l < |s.loggers| && |s.loggers[l].lines| > 0 && done <= |s.loggers[l].buf|
  }

  function Moved(s: System, t: Id, p: Phase, l: Id, g: Logger): System
    requires t < |s.threads| && l < |s.loggers|
  {
    System(s.threads[t := p], s.loggers[l := g], s.sinks)
  }

  function WithSink(s: System, k: Id, sink: Sink): System
    requires k < |s.sinks|
  {
    s.(sinks := s.sinks[k := sink])
  }

  function WithLine(g: Logger, job: Job): Logger
    requires |g.configs| > 0
  {
    var text := g.buf + "\n";
    g.(buf := text, lines := g.lines + [Line(text, g.cache, |g.configs| - 1, job.call, job.payload)])
  }

  function Unlocked(g: Logger): Logger {
    g.(owner := None)
  }

  /** The logger's last line is taken by the sink at place `at`. */
  function WithTaken(g: Logger, at: nat): Logger
    requires at < |g.taken| && |g.lines| > 0
  {
    g.(taken := g.taken[at := g.taken[at] + [|g.lines| - 1]])
  }

  /** What the write of the last line leaves at a sink after `done` characters. */
  function Written(g: Logger, l: Id, at: nat, done: nat, outcome: Outcome): Receipt
    requires |g.lines| > 0 && done <= |g.buf|
  {
    Receipt(l, at, |g.lines| - 1, g.buf[..done], outcome)
  }

  function WithReceipt(k: Sink, r: Receipt): Sink {
    k.(owner := None, received := k.received + [r])
  }

  function Apply(w: Wiring, s: System, t: Id, a: Action): System
    requires Enabled(w, s, t, a)
  {
    var p := s.threads[t];
    match a
    case ReadClock(job) => s.(threads := s.threads[t := Timed(job)])
    case Lock =>
      var l := p.job.logger;
      Moved(s, t, Locked(p.job), l, s.loggers[l].(owner := Some(t)))
    case WriteHeader =>
      var g := s.loggers[p.job.logger];
      var cache := g.cache.At(p.job.call.Second());
      Moved(s, t, Headed(p.job), p.job.logger, g.(cache := cache, buf := w.header(cache, g.opts, p.job.call)))
    case WritePayload =>
      var g := s.loggers[p.job.logger];
      Moved(s, t, Filled(p.job), p.job.logger, g.(buf := g.buf + p.job.payload))
    case FormatThrows(written) =>
      var g := s.loggers[p.job.logger];
      Moved(s, t, Idle, p.job.logger, Unlocked(g.(buf := g.buf + p.job.payload[..written])))
    case WriteNewline =>
      Moved(s, t, Sending(p.job, 0), p.job.logger, WithLine(s.loggers[p.job.logger], p.job))
    case EnterSink =>
      var k := w.sinks[p.job.logger][p.at];
      WithSink(Moved(s, t, Inside(p.job, p.at, 0), p.job.logger, s.loggers[p.job.logger]), k,
               s.sinks[k].(owner := Some(t)))
    case Deliver(count) =>
      var l, k := p.job.logger, w.sinks[p.job.logger][p.at];
      WithSink(Moved(s, t, Inside(p.job, p.at, p.done + count), l, s.loggers[l]), k,
               s.sinks[k].(out := s.sinks[k].out + s.loggers[l].buf[p.done..p.done + count]))
    case LeaveSink =>
      var l, k := p.job.logger, w.sinks[p.job.logger][p.at];
      var g := s.loggers[l];
      WithSink(Moved(s, t, Sending(p.job, p.at + 1), l, WithTaken(g, p.at)), k,
               WithReceipt(s.sinks[k], Written(g, l, p.at, p.done, Full)))
    case LeaveShort =>
      var l, k := p.job.logger, w.sinks[p.job.logger][p.at];
      var g := s.loggers[l];
      WithSink(Moved(s, t, Sending(p.job, p.at + 1), l, WithTaken(g, p.at)), k,
               WithReceipt(s.sinks[k], Written(g, l, p.at, p.done, Short)))
    case SinkThrows =>
      var l, k := p.job.logger, w.sinks[p.job.logger][p.at];
      var g := s.loggers[l];
      WithSink(Moved(s, t, Idle, l, Unlocked(g.(threw := true))), k,
               WithReceipt(s.sinks[k], Written(g, l, p.at, p.done, Failed)))
    case EndSending =>
      var g := s.loggers[p.job.logger];
      if Rank(p.job.call.level) >= Rank(g.flushLevel) then Moved(s, t, Flushing(p.job.logger, 0, true), p.job.logger, g)
      else Moved(s, t, Idle, p.job.logger, Unlocked(g))
    case LockToFlush(l) => Moved(s, t, Flushing(l, 0, false), l, s.loggers[l].(owner := Some(t)))
    case EnterFlush =>
      var k := w.sinks[p.logger][p.at];
      WithSink(Moved(s, t, FlushInside(p.logger, p.at, p.auto), p.logger, s.loggers[p.logger]), k,
               s.sinks[k].(owner := Some(t)))
    case LeaveFlush(throws) =>
      var l, k := p.logger, w.sinks[p.logger][p.at];
      if throws then WithSink(Moved(s, t, Idle, l, Unlocked(s.loggers[l])), k, s.sinks[k].(owner := None))
      else WithSink(Moved(s, t, Flushing(l, p.at + 1, p.auto), l, s.loggers[l]), k,
                    s.sinks[k].(owner := None, flushes := s.sinks[k].flushes + 1))
    case EndFlush => Moved(s, t, Idle, p.logger, Unlocked(s.loggers[p.logger]))
    case LockToChange(l, change) => Moved(s, t, Changing(l, change), l, s.loggers[l].(owner := Some(t)))
    case SetField =>
      var g := s.loggers[p.logger];
      Moved(s, t, Changed(p.logger, p.change), p.logger,
            match p.change case Rename(name) => g.(name := name) case Reshape(opts) => g.(opts := opts))
    case RebuildHeader =>
      var g := s.loggers[p.logger];
      Moved(s, t, Idle, p.logger, Unlocked(g.(cache := g.cache.Named(g.name),
                                              configs := g.configs + [(g.name, g.opts)])))
    case SetLevel(l, level) => Moved(s, t, Idle, l, s.loggers[l].(level := level))
    case SetFlushLevel(l, level) => Moved(s, t, Idle, l, s.loggers[l].(flushLevel := level))
  }
}
