/** Whole runs of loggers, threads and sinks, over every interleaving. */
module DispatchRuns {
  import opened Common
  import opened HeaderText
  import opened HeaderCache
  import opened Dispatch
  import opened DispatchSafety

  /** Freshly constructed loggers and sinks, and threads that have not called anything. */
  ghost predicate Initial(w: Wiring, s: System) {
    && w.Valid() && |s.loggers| == |w.sinks| && |s.sinks| == |w.shared|
    && (forall t :: 0 <= t < |s.threads| ==> s.threads[t] == Idle)
    && (forall l :: 0 <= l < |s.loggers| ==>
          var g := s.loggers[l];
          && g.owner == None && g.cache == Cache(g.name, false, 0) && g.configs == [(g.name, g.opts)] && g.lines == []
          && !g.threw
          && g.taken == seq(|w.sinks[l]|, _ => []))
    && (forall k :: 0 <= k < |s.sinks| ==>
          s.sinks[k].owner == None && s.sinks[k].out == "" && s.sinks[k].received == [])
  }

  type Schedule = seq<(Id, Action)>

  /** Runs a schedule from its first step on; a step that is not enabled is passed over. */
  function Run(w: Wiring, s: System, schedule: Schedule): System
    decreases |schedule|
  {
    if schedule == [] then s
    else
      var (t, a) := schedule[0];
      Run(w, if Enabled(w, s, t, a) then Apply(w, s, t, a) else s, schedule[1..])
  }

  lemma InitialSafe(w: Wiring, s: System)
    requires Initial(w, s)
    ensures Inv(w, s)
  {
    forall l: nat | l < |s.loggers| ensures LoggerOk(w, l, s.loggers[l]) && OwnerOk(w, s, l) {
    }
    forall k: nat | k < |s.sinks| ensures SinkOk(w, s, k) {
    }
  }

  /** Every interleaving keeps the invariant. */
  lemma {:induction false} RunSafe(w: Wiring, s: System, schedule: Schedule)
    requires Inv(w, s)
    ensures Inv(w, Run(w, s, schedule))
    decreases |schedule|
  {
    if schedule != [] {
      var (t, a) := schedule[0];
      if Enabled(w, s, t, a) {
        StepSafe(w, s, t, a);
        RunSafe(w, Apply(w, s, t, a), schedule[1..]);
      } else {
        RunSafe(w, s, schedule[1..]);
      }
    }
  }

  // ----- Lines -----

  /** The header the cache shows. */
  function CachedHeader(cal: Calendar): (Cache, Options, Call) -> string {
    (c: Cache, o: Options, call: Call) => c.Shown(cal, o, call)
  }

  /** Asking the cache twice in one second is asking once. */
  lemma AskedTwice(cal: Calendar, o: Options, c: Cache, call: Call)
    ensures c.At(call.Second()).Shown(cal, o, call) == c.Shown(cal, o, call)
  {
    assert c.At(call.Second()).At(call.Second()) == c.At(call.Second());
  }

  /** The header step of a call writes what its logger's cache shows for it. */
  lemma HeaderWritten(w: Wiring, cal: Calendar, s: System, t: Id)
    requires Enabled(w, s, t, WriteHeader) && w.header == CachedHeader(cal)
    ensures var job := s.threads[t].job;
            var g := s.loggers[job.logger];
            Apply(w, s, t, WriteHeader).loggers[job.logger].buf == g.cache.Shown(cal, g.opts, job.call)
  {
    var job := s.threads[t].job;
    AskedTwice(cal, s.loggers[job.logger].opts, s.loggers[job.logger].cache, job.call);
  }

  /** What a receipt says of its line: a write that ended well left it whole, any other a part of it from the front. */
  ghost predicate Delivered(w: Wiring, n: System, r: Receipt) {
    && r.logger < |n.loggers| && r.line < |n.loggers[r.logger].lines|
    && var line := n.loggers[r.logger].lines[r.line];
       && Whole(w.header, n.loggers[r.logger].configs, line)
       && r.text <= line.text && (r.outcome == Full ==> r.text == line.text)
  }

  /** A sink's bytes are whole lines, and for each write that threw or stopped midway a part of one line, in the
      order of the writes, apart from what the thread inside it has delivered of its own line. Each line is one call's
      header, under one name and options that were in force together, then its payload and a newline. */
  lemma LinesWhole(w: Wiring, s: System, schedule: Schedule, k: Id)
    requires Initial(w, s) && k < |w.shared|
    ensures var n := Run(w, s, schedule);
            && k < |n.sinks| && n.sinks[k].out == Joined(n.sinks[k].received) + Partial(n, k)
            && (n.sinks[k].owner == None ==> Partial(n, k) == "")
            && forall i :: 0 <= i < |n.sinks[k].received| ==> Delivered(w, n, n.sinks[k].received[i])
  {
    InitialSafe(w, s);
    RunSafe(w, s, schedule);
    var n := Run(w, s, schedule);
    assert SinkOk(w, n, k);
    forall i | 0 <= i < |n.sinks[k].received| ensures Delivered(w, n, n.sinks[k].received[i]) {
      var r := n.sinks[k].received[i];
      assert ReceiptOk(w, n, k, r);
      assert LoggerOk(w, r.logger, n.loggers[r.logger]);
    }
  }

  /** With headers from the cache, a whole line of a call after the epoch's first second is the rendered header, the
      payload and a newline. */
  lemma WholeIsRendered(cal: Calendar, header: (Cache, Options, Call) -> string, configs: seq<(string, Options)>,
                        line: Line)
    requires Whole(header, configs, line)
    requires var opts := configs[line.config].1;
             header(line.cache, opts, line.call) == line.cache.Shown(cal, opts, line.call)
    requires line.call.Second() > 0 && cal(configs[line.config].1.utc, line.call.Second()).InRange()
    ensures line.text == Render(cal, configs[line.config].1, configs[line.config].0, line.call) + line.payload + "\n"
  {
    ShownIsRendered(cal, configs[line.config].1, line.cache, line.call);
  }

  /** Every write of a call after the epoch's first second left at a sink a rendered header under one name and
      options of its logger, the payload of that call and a newline, or a part of that from the front if it did not end
      well. */
  lemma LinesRendered(w: Wiring, cal: Calendar, s: System, schedule: Schedule, k: Id, i: nat)
    requires Initial(w, s) && k < |w.shared| && w.header == CachedHeader(cal)
    ensures var n := Run(w, s, schedule);
            && k < |n.sinks|
            && (i < |n.sinks[k].received| ==>
                  var r := n.sinks[k].received[i];
                  && r.logger < |n.loggers| && r.line < |n.loggers[r.logger].lines|
                  && var g := n.loggers[r.logger];
                     var line := g.lines[r.line];
                     && line.config < |g.configs|
                     && (line.call.Second() > 0 && cal(g.configs[line.config].1.utc, line.call.Second()).InRange() ==>
                           var text := Render(cal, g.configs[line.config].1, g.configs[line.config].0, line.call)
                                       + line.payload + "\n";
                           r.text <= text && (r.outcome == Full ==> r.text == text)))
  {
    LinesWhole(w, s, schedule, k);
    var n := Run(w, s, schedule);
    if i < |n.sinks[k].received| {
      var r := n.sinks[k].received[i];
      var g := n.loggers[r.logger];
      var line := g.lines[r.line];
      assert Delivered(w, n, r);
      if line.call.Second() > 0 && cal(g.configs[line.config].1.utc, line.call.Second()).InRange() {
        WholeIsRendered(cal, w.header, g.configs, line);
      }
    }
  }

  // ----- Order -----

  /** `xs` can be had from `ys` by leaving out elements. */
  predicate Subsequence(xs: seq<nat>, ys: seq<nat>) {
    xs == [] ||
    (ys != [] && ((xs[|xs| - 1] == ys[|ys| - 1] && Subsequence(xs[..|xs| - 1], ys[..|ys| - 1]))
                  || Subsequence(xs, ys[..|ys| - 1])))
  }

  /** Below its last element an increasing sequence is its front. */
  lemma InFront(ys: seq<nat>, below: nat, z: nat)
    requires Increasing(ys, below) && z in ys && z != ys[|ys| - 1]
    ensures z in ys[..|ys| - 1]
  {
    var i :| 0 <= i < |ys| && ys[i] == z;
    assert ys[..|ys| - 1][i] == z;
  }

  lemma LastIsLargest(ys: seq<nat>, below: nat, i: nat)
    requires Increasing(ys, below) && i < |ys| - 1
    ensures ys[i] < ys[|ys| - 1]
  {
  }

  lemma {:induction false} IncreasingSubsequence(xs: seq<nat>, ys: seq<nat>, below: nat)
    requires Increasing(xs, below) && Increasing(ys, below) && forall i :: 0 <= i < |xs| ==> xs[i] in ys
    ensures Subsequence(xs, ys)
    decreases |ys|
  {
    if xs != [] {
      var n := |xs| - 1;
      assert xs[n] in ys;
      var front := ys[..|ys| - 1];
      if xs[n] == ys[|ys| - 1] {
        forall i | 0 <= i < n ensures xs[..n][i] in front {
          InFront(ys, below, xs[i]);
        }
        IncreasingSubsequence(xs[..n], front, below);
      } else {
        InFront(ys, below, xs[n]);
        var m :| 0 <= m < |front| && front[m] == xs[n];
        LastIsLargest(ys, below, m);
        forall i | 0 <= i < |xs| ensures xs[i] in front {
          InFront(ys, below, xs[i]);
        }
        IncreasingSubsequence(xs, front, below);
      }
    }
  }

  /** What a later sink of a logger took is a subsequence of what each earlier one took, whatever throws. */
  lemma LaterTakesLess(w: Wiring, s: System, schedule: Schedule, l: Id, i: nat, j: nat)
    requires Initial(w, s) && l < |w.sinks| && i < j < |w.sinks[l]|
    ensures var g := Run(w, s, schedule).loggers;
            && l < |g| && |g[l].taken| == |w.sinks[l]|
            && Subsequence(g[l].taken[j], g[l].taken[i])
  {
    InitialSafe(w, s);
    RunSafe(w, s, schedule);
    var n := Run(w, s, schedule);
    assert LoggerOk(w, l, n.loggers[l]);
    IncreasingSubsequence(n.loggers[l].taken[j], n.loggers[l].taken[i], |n.loggers[l].lines|);
  }

  /** While no sink throws, every sink of an unlocked logger has taken all its lines, in order. */
  lemma AllTakeAll(w: Wiring, s: System, schedule: Schedule, l: Id)
    requires Initial(w, s) && l < |w.sinks|
    ensures var g := Run(w, s, schedule).loggers;
            && l < |g| && |g[l].taken| == |w.sinks[l]|
            && (g[l].owner == None && !g[l].threw ==>
                  forall i :: 0 <= i < |g[l].taken| ==> g[l].taken[i] == UpTo(|g[l].lines|))
  {
    InitialSafe(w, s);
    RunSafe(w, s, schedule);
    var n := Run(w, s, schedule);
    assert LoggerOk(w, l, n.loggers[l]) && OwnerOk(w, n, l);
  }

  /** A shared sink takes each logger's lines in the order in which that logger's lock was held, whatever other
      loggers write in between. A logger that holds several copies of the sink writes each line once for every copy, in
      order. */
  lemma SharedKeepsOrder(w: Wiring, s: System, schedule: Schedule, k: Id, i: nat, j: nat)
    requires Initial(w, s) && k < |w.shared|
    ensures var n := Run(w, s, schedule);
            && k < |n.sinks|
            && (i < j < |n.sinks[k].received| && SameTaker(n.sinks[k].received[i], n.sinks[k].received[j])
                ==> var a, b := n.sinks[k].received[i], n.sinks[k].received[j];
                    a.line <= b.line && (a.line == b.line ==> a.at < b.at))
  {
    InitialSafe(w, s);
    RunSafe(w, s, schedule);
    ReceiptOrder(w, Run(w, s, schedule), k, i, j);
  }

  lemma ReceiptOrder(w: Wiring, n: System, k: Id, i: nat, j: nat)
    requires Inv(w, n) && k < |n.sinks|
    ensures i < j < |n.sinks[k].received| && SameTaker(n.sinks[k].received[i], n.sinks[k].received[j])
            ==> Precedes(n.sinks[k].received[i], n.sinks[k].received[j])
  {
    assert SinkOk(w, n, k);
  }

  // ----- Progress -----

  lemma InvWellFormed(w: Wiring, s: System)
    requires Inv(w, s)
    ensures WellFormed(w, s)
  {
    forall t | 0 <= t < |s.threads| && s.threads[t].Held().Some? ensures s.threads[t].Held().value < |s.loggers| {
      assert ThreadOk(w, s, t);
    }
  }

  /** A thread inside a sink can go on. */
  lemma InsideCanStep(w: Wiring, s: System, t: Id) returns (a: Action)
    requires Inv(w, s) && t < |s.threads| && s.threads[t].InSink()
    ensures Enabled(w, s, t, a)
  {
    var p := s.threads[t];
    InvWellFormed(w, s);
    InsideActs(w, s, t, p.Held().value, p.at);
    if p.FlushInside? {
      a := LeaveFlush(false);
    } else if p.done < |s.loggers[p.job.logger].buf| {
      a := Deliver(|s.loggers[p.job.logger].buf| - p.done);
    } else {
      a := LeaveSink;
    }
  }

  /** The holder of a logger's lock can go on, or the thread inside the sink it waits for can. */
  lemma HolderCanStep(w: Wiring, s: System, t: Id) returns (u: Id, a: Action)
    requires Inv(w, s) && t < |s.threads| && s.threads[t].Held().Some?
    ensures u < |s.threads| && s.threads[u].Held().Some? && Enabled(w, s, u, a)
  {
    var p := s.threads[t];
    InvWellFormed(w, s);
    HolderActs(w, s, t, p.Held().value);
    u := t;
    match p
    case Locked(_) => a := WriteHeader;
    case Headed(_) => a := WritePayload;
    case Filled(_) => a := WriteNewline;
    case Changing(_, _) => a := SetField;
    case Changed(_, _) => a := RebuildHeader;
    case Inside(_, _, _) => a := InsideCanStep(w, s, t);
    case FlushInside(_, _, _) => a := InsideCanStep(w, s, t);
    case Sending(job, at) => u, a := AtSinkCanStep(w, s, t, job.logger, at, EnterSink, EndSending);
    case Flushing(l, at, _) => u, a := AtSinkCanStep(w, s, t, l, at, EnterFlush, EndFlush);
  }

  lemma AtSinkCanStep(w: Wiring, s: System, t: Id, l: Id, at: nat, enter: Action, end: Action)
    returns (u: Id, a: Action)
    requires Inv(w, s) && t < |s.threads| && s.threads[t].Held() == Some(l) && l < |w.sinks| && at <= |w.sinks[l]|
    requires at == |w.sinks[l]| ==> Enabled(w, s, t, end)
    requires MayEnter(w, s, l, at) ==> Enabled(w, s, t, enter)
    ensures u < |s.threads| && s.threads[u].Held().Some? && Enabled(w, s, u, a)
  {
    if at == |w.sinks[l]| {
      u, a := t, end;
    } else if MayEnter(w, s, l, at) {
      u, a := t, enter;
    } else {
      var k := w.sinks[l][at];
      assert w.Slot(l, at);
      u := s.sinks[k].owner.value;
      assert SinkOk(w, s, k);
      a := InsideCanStep(w, s, u);
    }
  }

  lemma WaiterCanStep(w: Wiring, s: System, t: Id) returns (u: Id, a: Action)
    requires Inv(w, s) && t < |s.threads| && s.threads[t].Timed?
    ensures u < |s.threads| && s.threads[u] != Idle && Enabled(w, s, u, a)
  {
    var l := s.threads[t].job.logger;
    InvWellFormed(w, s);
    assert ThreadOk(w, s, t);
    if s.loggers[l].owner == None {
      u, a := t, Lock;
    } else {
      assert OwnerOk(w, s, l);
      u, a := HolderCanStep(w, s, s.loggers[l].owner.value);
    }
  }

  /** No deadlock: as long as some thread is in the middle of an operation, some such thread can take a step. */
  lemma NoDeadlock(w: Wiring, s: System, schedule: Schedule, t: Id) returns (u: Id, a: Action)
    requires Initial(w, s) && t < |Run(w, s, schedule).threads| && Run(w, s, schedule).threads[t] != Idle
    ensures var n := Run(w, s, schedule);
            u < |n.threads| && n.threads[u] != Idle && Enabled(w, n, u, a)
  {
    InitialSafe(w, s);
    RunSafe(w, s, schedule);
    var n := Run(w, s, schedule);
    InvWellFormed(w, n);
    assert ThreadOk(w, n, t);
    if n.threads[t].Held().Some? {
      u, a := HolderCanStep(w, n, t);
    } else {
      u, a := WaiterCanStep(w, n, t);
    }
  }
}
