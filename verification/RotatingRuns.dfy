/** Whole runs of the rotating sink: what the directory holds after any writes and restarts. */
module RotatingRuns {
  import opened Common
  import opened ArchiveNames
  import opened RotatingFiles
  import opened RotatingJournal

  // ----- Restarting -----

  /** With at least one archive kept, a restarted sink is the sink it replaces and nothing is pruned. */
  lemma RestartTransparent(c: Config, s: State, j: Journal, others: Files, order: seq<string>)
    requires c.naming.Lawful() && Follows(c, s, j, others) && Lists(order, s.files) && c.maxFiles > 0
    ensures Start(c, s.files, order, {}, true) == Running(s)
  {
    var kept := Window(j, c.maxFiles);
    ScanFinds(c.naming, s.files, kept, order);
    assert j.next > 1 ==> j.next - 1 in kept;
    assert Highest(c.naming.index, order) + 1 == j.next;
    if j.next - 1 > c.maxFiles {
      NothingStale(c.naming, s.files, kept, order, j.next - c.maxFiles);
    }
  }

  lemma NothingStale(nm: Naming, files: Files, kept: map<nat, Bytes>, order: seq<string>, lowest: int)
    requires Archives(nm, files, kept) && Lists(order, files) && forall n :: n in kept ==> n >= lowest
    ensures Prune(nm.index, files, order, lowest, {}) == files
  {
    PruneDeletes(nm.index, files, order, lowest, {}, |order|);
    assert order[..|order|] == order;
    assert StaleNames(nm.index, order, lowest) == {};
  }

  /** A sink without archives counts from 1 again after a restart. */
  lemma RestartWithoutArchives(c: Config, s: State, j: Journal, others: Files, order: seq<string>)
    requires c.naming.Lawful() && Follows(c, s, j, others) && Lists(order, s.files) && c.maxFiles == 0
    ensures Start(c, s.files, order, {}, true) == Running(s.(nextIndex := 1))
    ensures Follows(c, s.(nextIndex := 1), Journal(map[], 1, j.active), others)
  {
    assert Window(j, 0) == map[] == Window(Journal(map[], 1, j.active), 0);
    ScanFinds(c.naming, s.files, map[], order);
  }

  // ----- Runs of writes and restarts -----

  datatype Event = Written(message: Bytes, faults: Faults) | Restarted(order: seq<string>)

  function Step(c: Config, s: State, e: Event): State {
    match e
    case Written(m, f) => Write(c, s, m, f).0
    case Restarted(order) =>
      var r := Start(c, s.files, order, {}, true);
      if r.Running? then r.state else s
  }

  function Run(c: Config, s: State, events: seq<Event>): State {
    if events == [] then s else Step(c, Run(c, s, events[..|events| - 1]), events[|events| - 1])
  }

  function Messages(events: seq<Event>): seq<Bytes> {
    if events == [] then []
    else
      var e := events[|events| - 1];
      Messages(events[..|events| - 1]) + if e.Written? then [e.message] else []
  }

  ghost function JournalRun(maxSize: nat, j: Journal, messages: seq<Bytes>): Journal {
    if messages == [] then j
    else JournalRun(maxSize, j, messages[..|messages| - 1]).Write(maxSize, messages[|messages| - 1])
  }

  ghost predicate SmoothEvent(s: State, e: Event) {
    if e.Written? then Smooth(e.faults, e.message) else Lists(e.order, s.files)
  }

  /** Every file operation of the run succeeds in the end, and every restart sees the directory as it is. */
  ghost predicate SmoothRun(c: Config, s: State, events: seq<Event>) {
    events == [] ||
    (SmoothRun(c, s, events[..|events| - 1]) && SmoothEvent(Run(c, s, events[..|events| - 1]), events[|events| - 1]))
  }

  /** The journal a state follows after restarts: the same one, unless no archives are kept. */
  ghost predicate Matches(c: Config, k: Journal, j: Journal) {
    k.active == j.active && k.next <= j.next && (c.maxFiles > 0 ==> k == j)
  }

  lemma StepFollows(c: Config, s: State, k: Journal, j: Journal, others: Files, e: Event) returns (k': Journal)
    requires c.naming.Lawful() && Follows(c, s, k, others) && Matches(c, k, j) && j.next + 1 < SIZE_MAX
             && SmoothEvent(s, e)
    ensures Follows(c, Step(c, s, e), k', others)
    ensures Matches(c, k', if e.Written? then j.Write(c.maxSize, e.message) else j)
  {
    match e
    case Written(m, f) =>
      WriteFollows(c, s, k, others, m, f);
      k' := k.Write(c.maxSize, m);
    case Restarted(order) =>
      if c.maxFiles > 0 {
        RestartTransparent(c, s, k, others, order);
        k' := k;
      } else {
        RestartWithoutArchives(c, s, k, others, order);
        k' := Journal(map[], 1, k.active);
      }
  }

  lemma {:induction false} JournalGrows(maxSize: nat, j: Journal, messages: seq<Bytes>)
    ensures j.next <= JournalRun(maxSize, j, messages).next <= j.next + |messages|
  {
    if messages != [] {
      JournalGrows(maxSize, j, messages[..|messages| - 1]);
    }
  }

  lemma {:induction false} MessagesFew(events: seq<Event>)
    ensures |Messages(events)| <= |events|
  {
    if events != [] {
      MessagesFew(events[..|events| - 1]);
    }
  }

  lemma {:induction false} RunFollows(c: Config, s: State, j: Journal, others: Files, events: seq<Event>)
    returns (k: Journal)
    requires c.naming.Lawful() && Follows(c, s, j, others) && SmoothRun(c, s, events) && j.next + |events| < SIZE_MAX
    ensures Follows(c, Run(c, s, events), k, others) && Matches(c, k, JournalRun(c.maxSize, j, Messages(events)))
  {
    if events == [] {
      k := j;
    } else {
      var n := |events| - 1;
      var before := RunFollows(c, s, j, others, events[..n]);
      var past := Messages(events[..n]);
      JournalGrows(c.maxSize, j, past);
      MessagesFew(events[..n]);
      k := StepFollows(c, Run(c, s, events[..n]), before, JournalRun(c.maxSize, j, past), others, events[n]);
      if events[n].Written? {
        assert (past + [events[n].message])[..|past|] == past;
      } else {
        assert past + [] == past;
      }
    }
  }

  /** Restarts anywhere in a run do not show in the directory. */
  lemma RestartsDontShow(c: Config, s: State, j: Journal, others: Files, with: seq<Event>, without: seq<Event>)
    requires c.naming.Lawful() && Follows(c, s, j, others) && Messages(with) == Messages(without)
    requires SmoothRun(c, s, with) && j.next + |with| < SIZE_MAX
    requires SmoothRun(c, s, without) && j.next + |without| < SIZE_MAX
    ensures Run(c, s, with).files == Run(c, s, without).files
  {
    var k := RunFollows(c, s, j, others, with);
    var l := RunFollows(c, s, j, others, without);
    if c.maxFiles == 0 {
      assert Window(k, 0) == map[] == Window(l, 0);
    }
    HoldsUnique(c.naming, Run(c, s, with).files, Run(c, s, without).files, k.active, Window(k, c.maxFiles), others);
  }

  // ----- The history on disk -----

  /** The archives from index `lo` up to but not including `hi`, joined in index order. */
  ghost function Joined(kept: map<nat, Bytes>, lo: nat, hi: nat): Bytes
    decreases hi
  {
    if hi <= lo then [] else Joined(kept, lo, hi - 1) + if hi - 1 in kept then kept[hi - 1] else []
  }

  function ReadBack(nm: Naming, files: Files, hi: nat): Bytes {
    if hi <= 1 then []
    else ReadBack(nm, files, hi - 1) + if nm.archive(hi - 1) in files then files[nm.archive(hi - 1)] else []
  }

  /** All the directory's log text: the archives below `next` in index order, then the active file. */
  function OnDisk(nm: Naming, files: Files, next: nat): Bytes {
    ReadBack(nm, files, next) + if nm.active in files then files[nm.active] else []
  }

  ghost function Text(j: Journal): Bytes {
    Joined(j.closed, 1, j.next) + j.active
  }

  function Flat(messages: seq<Bytes>): Bytes {
    if messages == [] then [] else Flat(messages[..|messages| - 1]) + messages[|messages| - 1]
  }

  lemma {:induction false} ReadBackIs(nm: Naming, files: Files, kept: map<nat, Bytes>, hi: nat)
    requires nm.Lawful() && Archives(nm, files, kept) && hi <= SIZE_MAX
    ensures ReadBack(nm, files, hi) == Joined(kept, 1, hi)
  {
    if hi > 1 {
      ReadBackIs(nm, files, kept, hi - 1);
      assert nm.index(nm.archive(hi - 1)) == Some(hi - 1);
    }
  }

  lemma {:induction false} JoinedSplit(kept: map<nat, Bytes>, lo: nat, mid: nat, hi: nat)
    requires lo <= mid <= hi
    ensures Joined(kept, lo, hi) == Joined(kept, lo, mid) + Joined(kept, mid, hi)
  {
    if mid < hi {
      JoinedSplit(kept, lo, mid, hi - 1);
    }
  }

  lemma {:induction false} JoinedSame(a: map<nat, Bytes>, b: map<nat, Bytes>, lo: nat, hi: nat)
    requires forall n :: lo <= n < hi ==> (n in a <==> n in b) && (n in a ==> a[n] == b[n])
    ensures Joined(a, lo, hi) == Joined(b, lo, hi)
  {
    if lo < hi {
      JoinedSame(a, b, lo, hi - 1);
    }
  }

  lemma {:induction false} JoinedEmpty(kept: map<nat, Bytes>, lo: nat, hi: nat)
    requires forall n :: lo <= n < hi ==> n !in kept
    ensures Joined(kept, lo, hi) == []
  {
    if lo < hi {
      JoinedEmpty(kept, lo, hi - 1);
    }
  }

  /** Where the window cuts the journal: always between two files. */
  ghost function Cut(next: nat, maxFiles: nat): nat {
    if next > maxFiles + 1 then next - maxFiles else 1
  }

  lemma WindowText(j: Journal, maxFiles: nat)
    requires j.Valid()
    ensures Joined(j.closed, 1, j.next) == Joined(j.closed, 1, Cut(j.next, maxFiles))
            + Joined(Window(j, maxFiles), 1, j.next)
  {
    var cut := Cut(j.next, maxFiles);
    JoinedSplit(j.closed, 1, cut, j.next);
    JoinedSplit(Window(j, maxFiles), 1, cut, j.next);
    JoinedEmpty(Window(j, maxFiles), 1, cut);
    JoinedSame(j.closed, Window(j, maxFiles), cut, j.next);
  }

  /** The journal loses nothing: each write appends its message to the text. */
  lemma JournalText(j: Journal, maxSize: nat, m: Bytes)
    requires j.Valid()
    ensures Text(j.Write(maxSize, m)) == Text(j) + m
  {
    if |j.active| + |m| > maxSize && |j.active| > 0 {
      JoinedSame(j.closed, j.closed[j.next := j.active], 1, j.next);
    } else {
      assert Joined(j.closed, 1, j.next) + (j.active + m) == Text(j) + m;
    }
  }

  lemma {:induction false} JournalRunText(maxSize: nat, j: Journal, messages: seq<Bytes>)
    requires j.Valid()
    ensures JournalRun(maxSize, j, messages).Valid()
            && Text(JournalRun(maxSize, j, messages)) == Text(j) + Flat(messages)
  {
    if messages != [] {
      var n := |messages| - 1;
      var before := JournalRun(maxSize, j, messages[..n]);
      JournalRunText(maxSize, j, messages[..n]);
      JournalStep(before, maxSize, messages[n]);
      JournalText(before, maxSize, messages[n]);
      assert Text(j) + Flat(messages[..n]) + messages[n] == Text(j) + (Flat(messages[..n]) + messages[n]);
    }
  }

  /** What the directory holds is the journal's text from the cut on. */
  lemma DiskIsSuffix(c: Config, s: State, k: Journal, j: Journal, others: Files)
    requires c.naming.Lawful() && Follows(c, s, k, others) && Matches(c, k, j) && j.Valid() && j.next <= SIZE_MAX
    ensures Text(j) == Joined(j.closed, 1, Cut(j.next, c.maxFiles)) + OnDisk(c.naming, s.files, j.next)
  {
    WindowText(j, c.maxFiles);
    if c.maxFiles == 0 {
      assert Window(k, 0) == map[] == Window(j, 0);
    }
    ReadBackIs(c.naming, s.files, Window(j, c.maxFiles), j.next);
    var lost := Joined(j.closed, 1, Cut(j.next, c.maxFiles));
    var shown := ReadBack(c.naming, s.files, j.next);
    assert lost + shown + j.active == lost + (shown + j.active);
  }

  /** The whole run on any canonically named directory: the earlier text followed by every message written is what was
      dropped, in whole files, followed by what is on disk. */
  lemma HistoryOnDisk(c: Config, files: Files, kept: map<nat, Bytes>, order: seq<string>, events: seq<Event>)
    requires c.Accepted() && c.naming.Lawful() && Archives(c.naming, files, kept) && Lists(order, files)
    requires Highest(c.naming.index, order) + 1 + |events| < SIZE_MAX
    requires Start(c, files, order, {}, true).Running? ==> SmoothRun(c, Start(c, files, order, {}, true).state, events)
    ensures var first := Highest(c.naming.index, order) + 1;
            var found := Journal(kept, first, if c.naming.active in files then files[c.naming.active] else []);
            var j := JournalRun(c.maxSize, found, Messages(events));
            var started := Start(c, files, order, {}, true);
            && started.Running?
            && OnDisk(c.naming, files, first) + Flat(Messages(events)) ==
               Joined(j.closed, 1, Cut(j.next, c.maxFiles))
                 + OnDisk(c.naming, Run(c, started.state, events).files, j.next)
  {
    var first := Highest(c.naming.index, order) + 1;
    var found := Journal(kept, first, if c.naming.active in files then files[c.naming.active] else []);
    var messages := Messages(events);
    ScanFinds(c.naming, files, kept, order);
    StartFollows(c, files, kept, order);
    var started := Start(c, files, order, {}, true);
    var k := RunFollows(c, started.state, found, Others(c.naming, files), events);
    JournalRunText(c.maxSize, found, messages);
    JournalGrows(c.maxSize, found, messages);
    MessagesFew(events);
    DiskIsSuffix(c, Run(c, started.state, events), k, JournalRun(c.maxSize, found, messages), Others(c.naming, files));
    ReadBackIs(c.naming, files, kept, first);
  }

  // ----- What is kept -----

  ghost predicate Dense(j: Journal) {
    forall n :: 1 <= n < j.next ==> n in j.closed
  }

  lemma {:induction false} StaysDense(maxSize: nat, j: Journal, messages: seq<Bytes>)
    requires j.Valid() && Dense(j)
    ensures JournalRun(maxSize, j, messages).Valid() && Dense(JournalRun(maxSize, j, messages))
  {
    if messages != [] {
      var before := JournalRun(maxSize, j, messages[..|messages| - 1]);
      StaysDense(maxSize, j, messages[..|messages| - 1]);
      JournalStep(before, maxSize, messages[|messages| - 1]);
    }
  }

  /** From a directory without archives, the archives after a run are exactly the last max_files closed files. */
  lemma ArchivesKept(c: Config, files: Files, order: seq<string>, events: seq<Event>, n: nat)
    requires c.Accepted() && c.naming.Lawful() && c.maxFiles > 0 && Archives(c.naming, files, map[])
             && Lists(order, files)
    requires 1 + |events| < SIZE_MAX && 0 < n < SIZE_MAX
    requires Start(c, files, order, {}, true).Running? ==> SmoothRun(c, Start(c, files, order, {}, true).state, events)
    ensures var active := if c.naming.active in files then files[c.naming.active] else [];
            var j := JournalRun(c.maxSize, Journal(map[], 1, active), Messages(events));
            var started := Start(c, files, order, {}, true);
            && started.Running?
            && var s := Run(c, started.state, events);
            && s.nextIndex == j.next && Dense(j)
            && (c.naming.archive(n) in s.files <==> Cut(j.next, c.maxFiles) <= n < j.next)
            && (c.naming.archive(n) in s.files ==> n in j.closed && s.files[c.naming.archive(n)] == j.closed[n])
  {
    ScanFinds(c.naming, files, map[], order);
    StartFollows(c, files, map[], order);
    var found := Journal(map[], 1, if c.naming.active in files then files[c.naming.active] else []);
    var started := Start(c, files, order, {}, true);
    var k := RunFollows(c, started.state, found, Others(c.naming, files), events);
    StaysDense(c.maxSize, found, Messages(events));
    assert c.naming.index(c.naming.archive(n)) == Some(n);
  }

  // ----- Runs with faults -----

  /** Every archive in the directory has been numbered before the next one. */
  ghost predicate Numbered(nm: Naming, s: State, kept: map<nat, Bytes>) {
    0 < s.nextIndex < SIZE_MAX && Archives(nm, s.files, kept) && forall n :: n in kept ==> n < s.nextIndex
  }

  /** `later` still has every archive of `kept` that the window of `next` covers. */
  ghost predicate Survive(kept: map<nat, Bytes>, later: map<nat, Bytes>, next: nat, maxFiles: nat) {
    forall n :: n in kept && n >= next - maxFiles ==> n in later && later[n] == kept[n]
  }

  /** The newest archive is there, so that a restart goes on from the same index. */
  ghost predicate Topped(c: Config, s: State, kept: map<nat, Bytes>) {
    c.maxFiles > 0 && s.nextIndex > 1 ==> s.nextIndex - 1 in kept
  }

  /** A rename attempt adds the next archive or changes nothing. */
  lemma FaultyRename(nm: Naming, files: Files, kept: map<nat, Bytes>, n: nat, attempts: seq<Attempt>)
    requires nm.Lawful() && Archives(nm, files, kept) && 0 < n < SIZE_MAX && n !in kept
    ensures var (after, renamed) := TryRename(files, nm.active, nm.archive(n), attempts);
            if renamed then nm.active in files && Archives(nm, after, kept[n := files[nm.active]]) else after == files
  {
    RenameMoves(files, nm.active, nm.archive(n), attempts);
    NextIsFree(nm, files, kept, n);
    if nm.active in files {
      Archived(nm, files, kept, n);
    }
  }

  lemma FaultyDrop(nm: Naming, files: Files, kept: map<nat, Bytes>, next: nat, maxFiles: nat, drops: bool)
    returns (later: map<nat, Bytes>)
    requires nm.Lawful() && Archives(nm, files, kept) && 0 < next < SIZE_MAX
    ensures var left := if next > maxFiles + 1 && drops then files - {nm.archive(next - maxFiles - 1)} else files;
            Archives(nm, left, later) && Archives(nm, OpenAppend(left, nm.active), later)
    ensures later.Keys <= kept.Keys && Survive(kept, later, next, maxFiles)
  {
    later := kept;
    var left := files;
    if next > maxFiles + 1 && drops {
      DropArchive(nm, files, kept, next - maxFiles - 1);
      later := kept - {next - maxFiles - 1};
      left := files - {nm.archive(next - maxFiles - 1)};
    }
    SetActive(nm, left, later, []);
  }

  /** After a rename that worked. */
  lemma FaultyShift(c: Config, kept: map<nat, Bytes>, files: Files, n: nat, text: Bytes, drops: bool)
    returns (later: map<nat, Bytes>)
    requires c.naming.Lawful() && Archives(c.naming, files, kept[n := text]) && 0 < n && n + 1 < SIZE_MAX
    requires forall k :: k in kept ==> k < n
    ensures var left := if n > c.maxFiles && drops then files - {c.naming.archive(n - c.maxFiles)} else files;
            Archives(c.naming, left, later) && Archives(c.naming, OpenAppend(left, c.naming.active), later)
    ensures (forall k :: k in later ==> k <= n) && Survive(kept, later, n + 1, c.maxFiles)
            && (c.maxFiles > 0 ==> n in later)
  {
    later := FaultyDrop(c.naming, files, kept[n := text], n + 1, c.maxFiles, drops);
  }

  /** The directory after a rotation, in the terms of FaultyShift. */
  lemma RotatedState(c: Config, s: State, f: Faults)
    requires s.nextIndex > 0
    ensures var nm, n, t := c.naming, s.nextIndex, Rotate(c, s, f).0;
            var (files, renamed) := TryRename(s.files, nm.active, nm.archive(n), f.attempts);
            if renamed then
              var left := if n > c.maxFiles && f.drops then files - {nm.archive(n - c.maxFiles)} else files;
              t.nextIndex == n + 1 && t.files == if f.opens then OpenAppend(left, nm.active) else left
            else
              t.nextIndex == n && t.files == if f.opens then files[nm.active := []] else files
  {
  }

  lemma FaultyRotate(c: Config, s: State, kept: map<nat, Bytes>, f: Faults) returns (later: map<nat, Bytes>)
    requires c.naming.Lawful() && Numbered(c.naming, s, kept) && s.nextIndex + 1 < SIZE_MAX
    ensures var t := Rotate(c, s, f).0;
            && Numbered(c.naming, t, later) && s.nextIndex <= t.nextIndex <= s.nextIndex + 1
            && (Topped(c, s, kept) ==> Topped(c, t, later))
            && Survive(kept, later, t.nextIndex, c.maxFiles)
  {
    var nm, n := c.naming, s.nextIndex;
    FaultyRename(nm, s.files, kept, n, f.attempts);
    RotatedState(c, s, f);
    var (files, renamed) := TryRename(s.files, nm.active, nm.archive(n), f.attempts);
    if renamed {
      later := FaultyShift(c, kept, files, n, s.files[nm.active], f.drops);
      NumberedNext(c, Rotate(c, s, f).0, later, n);
    } else {
      later := kept;
      SetActive(nm, files, later, []);
      NumberedSame(c, s, Rotate(c, s, f).0, later);
    }
  }

  lemma NumberedSame(c: Config, s: State, t: State, kept: map<nat, Bytes>)
    requires Numbered(c.naming, s, kept) && Archives(c.naming, t.files, kept) && t.nextIndex == s.nextIndex
    ensures Numbered(c.naming, t, kept) && (Topped(c, s, kept) ==> Topped(c, t, kept))
    ensures Survive(kept, kept, t.nextIndex, c.maxFiles)
  {
  }

  lemma NumberedNext(c: Config, t: State, later: map<nat, Bytes>, n: nat)
    requires Archives(c.naming, t.files, later) && t.nextIndex == n + 1 < SIZE_MAX
    requires (forall k :: k in later ==> k <= n) && (c.maxFiles > 0 ==> n in later)
    ensures Numbered(c.naming, t, later) && Topped(c, t, later)
  {
  }

  lemma FaultyWrites(c: Config, s: State, kept: map<nat, Bytes>, m: Bytes, f: Faults) returns (later: map<nat, Bytes>)
    requires c.naming.Lawful() && Numbered(c.naming, s, kept) && s.nextIndex + 1 < SIZE_MAX
    ensures var t := Write(c, s, m, f).0;
            && Numbered(c.naming, t, later) && s.nextIndex <= t.nextIndex <= s.nextIndex + 1
            && (Topped(c, s, kept) ==> Topped(c, t, later))
            && Survive(kept, later, t.nextIndex, c.maxFiles)
  {
    later := kept;
    var t := s;
    if s.open && Rotates(c, s, m) {
      later := FaultyRotate(c, s, kept, f);
      t := Rotate(c, s, f).0;
    }
    var taken := if f.written < |m| then m[..f.written] else m;
    if c.naming.active in t.files {
      SetActive(c.naming, t.files, later, t.files[c.naming.active] + taken);
    }
  }

  /** Pruning with deletions that fail: only archives below the window go. */
  lemma {:induction false} FaultyPrune(nm: Naming, files: Files, kept: map<nat, Bytes>, order: seq<string>, lowest: int,
                                       stuck: set<string>) returns (later: map<nat, Bytes>)
    requires nm.Lawful() && Archives(nm, files, kept)
    ensures Archives(nm, Prune(nm.index, files, order, lowest, stuck), later) && later.Keys <= kept.Keys
    ensures forall n :: n in kept && n >= lowest ==> n in later && later[n] == kept[n]
    decreases |order|
  {
    later := kept;
    if order != [] {
      if !Stale(nm.index, lowest, order[0]) {
        later := FaultyPrune(nm, files, kept, order[1..], lowest, stuck);
      } else if order[0] !in stuck {
        if order[0] in files {
          DropArchive(nm, files, kept, nm.index(order[0]).value);
          later := FaultyPrune(nm, files - {order[0]}, kept - {nm.index(order[0]).value}, order[1..], lowest, stuck);
        } else {
          assert files - {order[0]} == files;
          later := FaultyPrune(nm, files, kept, order[1..], lowest, stuck);
        }
      }
    }
  }

  lemma FaultyScan(c: Config, files: Files, kept: map<nat, Bytes>, order: seq<string>, stuck: set<string>)
    returns (later: map<nat, Bytes>)
    requires c.naming.Lawful() && Archives(c.naming, files, kept) && Lists(order, files)
    ensures var (left, highest) := ScanAndPrune(c, files, order, stuck);
            && Archives(c.naming, left, later) && later.Keys <= kept.Keys && (forall n :: n in kept ==> n <= highest)
            && (highest > 0 ==> highest in kept) && (highest > 0 && c.maxFiles > 0 ==> highest in later)
            && Survive(kept, later, highest + 1, c.maxFiles)
  {
    ScanFinds(c.naming, files, kept, order);
    var highest := Highest(c.naming.index, order);
    later := kept;
    if highest > c.maxFiles {
      later := FaultyPrune(c.naming, files, kept, order, highest - c.maxFiles + 1, stuck);
    }
  }

  /** Whatever is stuck, a sink started on a directory numbers its archives on from the newest one. */
  lemma FaultyStart(c: Config, files: Files, kept: map<nat, Bytes>, order: seq<string>, stuck: set<string>, opens: bool)
    returns (later: map<nat, Bytes>)
    requires c.Accepted() && c.naming.Lawful() && Archives(c.naming, files, kept) && Lists(order, files)
    requires forall n :: n in kept ==> n + 1 < SIZE_MAX
    ensures var next := Highest(c.naming.index, order) + 1;
            && Survive(kept, later, next, c.maxFiles)
            && match Start(c, files, order, stuck, opens)
               case Refused => false
               case OpenFailed(left) =>
                 var t := State(left, 0, next, false);
                 Numbered(c.naming, t, later) && Topped(c, t, later)
               case Running(t) => t.nextIndex == next && Numbered(c.naming, t, later) && Topped(c, t, later)
  {
    later := FaultyScan(c, files, kept, order, stuck);
    SetActive(c.naming, ScanAndPrune(c, files, order, stuck).0, later, []);
  }

  /** A write, or a restart that sees the listing `order`, cannot delete the names `stuck`, and may fail to open. */
  datatype FaultyEvent = FaultyWrite(message: Bytes, faults: Faults)
    | FaultyRestart(order: seq<string>, stuck: set<string>, opens: bool)

  /** After a restart that fails to open there is no sink, and nothing is written. */
  function FaultyStep(c: Config, s: State, e: FaultyEvent): State {
    match e
    case FaultyWrite(m, f) => Write(c, s, m, f).0
    case FaultyRestart(order, stuck, opens) =>
      match Start(c, s.files, order, stuck, opens)
      case Refused => s
      case OpenFailed(files) => s.(files := files, open := false)
      case Running(t) => t
  }

  function FaultyEvents(c: Config, s: State, events: seq<FaultyEvent>): State {
    if events == [] then s else FaultyStep(c, FaultyEvents(c, s, events[..|events| - 1]), events[|events| - 1])
  }

  /** Every restart sees the directory as it is. */
  ghost predicate Listed(c: Config, s: State, events: seq<FaultyEvent>) {
    forall i :: 0 <= i < |events| && events[i].FaultyRestart?
      ==> Lists(events[i].order, FaultyEvents(c, s, events[..i]).files)
  }

  predicate OnlyWrites(events: seq<FaultyEvent>) {
    forall i :: 0 <= i < |events| ==> events[i].FaultyWrite?
  }

  lemma FaultyRestarts(c: Config, s: State, kept: map<nat, Bytes>, e: FaultyEvent) returns (later: map<nat, Bytes>)
    requires e.FaultyRestart? && c.naming.Lawful() && Numbered(c.naming, s, kept) && Lists(e.order, s.files)
    requires Topped(c, s, kept) && s.nextIndex + 1 < SIZE_MAX
    ensures var t := FaultyStep(c, s, e);
            && Numbered(c.naming, t, later) && Topped(c, t, later) && t.nextIndex <= s.nextIndex
            && (c.maxFiles > 0 ==> t.nextIndex == s.nextIndex && Survive(kept, later, t.nextIndex, c.maxFiles))
  {
    later := kept;
    if c.Accepted() {
      ScanFinds(c.naming, s.files, kept, e.order);
      later := FaultyStart(c, s.files, kept, e.order, e.stuck, e.opens);
    }
  }

  /** Whatever fails during a run of writes and restarts, no archive inside the window is lost or overwritten, and no
      index is reused. Restarts of a sink that keeps no archives are the exception: they count from the start again. */
  lemma {:induction false} FaultyRun(c: Config, s: State, kept: map<nat, Bytes>, events: seq<FaultyEvent>)
    returns (later: map<nat, Bytes>)
    requires c.naming.Lawful() && Numbered(c.naming, s, kept) && Listed(c, s, events)
             && s.nextIndex + |events| + 1 < SIZE_MAX
    requires Topped(c, s, kept) || OnlyWrites(events)
    ensures var t := FaultyEvents(c, s, events);
            && Numbered(c.naming, t, later) && (Topped(c, s, kept) ==> Topped(c, t, later))
            && t.nextIndex <= s.nextIndex + |events|
            && (c.maxFiles > 0 || OnlyWrites(events) ==>
                  s.nextIndex <= t.nextIndex && Survive(kept, later, t.nextIndex, c.maxFiles))
  {
    later := kept;
    if events != [] {
      var n := |events| - 1;
      forall i | 0 <= i < n ensures events[..n][..i] == events[..i] {
      }
      var middle := FaultyRun(c, s, kept, events[..n]);
      var s' := FaultyEvents(c, s, events[..n]);
      match events[n]
      case FaultyWrite(m, f) => later := FaultyWrites(c, s', middle, m, f);
      case FaultyRestart(order, stuck, opens) => later := FaultyRestarts(c, s', middle, events[n]);
    }
  }

  // ----- The size of the active file -----

  /** Every opening and every write of the run succeeds; renames and deletions may fail. */
  predicate OpensAndWrites(events: seq<FaultyEvent>) {
    forall i :: 0 <= i < |events| ==>
      if events[i].FaultyWrite? then events[i].faults.opens && events[i].faults.written >= |events[i].message|
      else events[i].opens
  }

  /** The most the active file may hold: the limit or the last message, and without a message what it held before. */
  function Allowed(maxSize: nat, before: nat, events: seq<FaultyEvent>): nat {
    if events == [] then before
    else
      var e := events[|events| - 1];
      if e.FaultyWrite? then Max(maxSize, |e.message|) else Allowed(maxSize, before, events[..|events| - 1])
  }

  lemma RestartMeasured(c: Config, s: State, e: FaultyEvent)
    requires e.FaultyRestart? && e.opens && s.open && Measured(c, s) && c.naming.Lawful()
    ensures var t := FaultyStep(c, s, e); t.open && Measured(c, t) && t.currentSize == s.currentSize
  {
    if c.Accepted() {
      PruneKeepsActive(c.naming, s.files, e.order, Highest(c.naming.index, e.order) - c.maxFiles + 1, e.stuck);
    }
  }

  /** The active file is no archive, so pruning leaves it. */
  lemma {:induction false} PruneKeepsActive(nm: Naming, files: Files, order: seq<string>, lowest: int,
                                            stuck: set<string>)
    requires nm.Lawful() && nm.active in files
    ensures var left := Prune(nm.index, files, order, lowest, stuck);
            nm.active in left && left[nm.active] == files[nm.active]
    decreases |order|
  {
    if order != [] {
      if !Stale(nm.index, lowest, order[0]) {
        PruneKeepsActive(nm, files, order[1..], lowest, stuck);
      } else if order[0] !in stuck {
        PruneKeepsActive(nm, files - {order[0]}, order[1..], lowest, stuck);
      }
    }
  }

  /** After any run of writes and restarts whose openings and writes succeed, whatever renames and deletions fail, the
      active file holds no more than the limit or its last message. */
  lemma {:induction false} SizeRun(c: Config, s: State, kept: map<nat, Bytes>, events: seq<FaultyEvent>)
    requires c.naming.Lawful() && Numbered(c.naming, s, kept) && Listed(c, s, events)
    requires s.nextIndex + |events| + 1 < SIZE_MAX && (Topped(c, s, kept) || OnlyWrites(events))
    requires s.open && Measured(c, s) && OpensAndWrites(events)
    ensures var t := FaultyEvents(c, s, events);
            t.open && Measured(c, t) && t.currentSize <= Allowed(c.maxSize, s.currentSize, events)
  {
    if events != [] {
      var n := |events| - 1;
      forall i | 0 <= i < n ensures events[..n][..i] == events[..i] {
      }
      SizeRun(c, s, kept, events[..n]);
      var middle := FaultyRun(c, s, kept, events[..n]);
      var s' := FaultyEvents(c, s, events[..n]);
      match events[n]
      case FaultyWrite(m, f) => SizeBound(c, s', m, f);
      case FaultyRestart(_, _, _) => RestartMeasured(c, s', events[n]);
    }
  }
}
