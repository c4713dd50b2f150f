/** Each operation of the rotating sink keeps it in step with a journal that never deletes anything. */
module RotatingJournal {
  import opened Common
  import opened ArchiveNames
  import opened RotatingFiles

  // ----- The directory as a map from archive index to contents -----

  /** The archives in the directory are exactly `kept`, all canonically named. */
  ghost predicate Archives(nm: Naming, files: Files, kept: map<nat, Bytes>) {
    && (forall name | name in files && nm.index(name).Some? ::
          var n := nm.index(name).value;
          n in kept && name == nm.archive(n) && files[name] == kept[n])
    && (forall n | n in kept :: 0 < n < SIZE_MAX && nm.archive(n) in files)
  }

  /** Everything that is neither the active file nor an archive. */
  ghost function Others(nm: Naming, files: Files): Files {
    map name | name in files && name != nm.active && nm.index(name).None? :: files[name]
  }

  /** A directory is determined by its active file, its archives and the rest. */
  ghost predicate Holds(nm: Naming, files: Files, active: Bytes, kept: map<nat, Bytes>, others: Files) {
    Archives(nm, files, kept) && Others(nm, files) == others && nm.active in files && files[nm.active] == active
  }

  lemma HoldsUnique(nm: Naming, f: Files, g: Files, active: Bytes, kept: map<nat, Bytes>, others: Files)
    requires nm.Lawful() && Holds(nm, f, active, kept, others) && Holds(nm, g, active, kept, others)
    ensures f == g
  {
    SameName(nm, f, g, active, kept, others);
    SameName(nm, g, f, active, kept, others);
  }

  lemma SameName(nm: Naming, f: Files, g: Files, active: Bytes, kept: map<nat, Bytes>, others: Files)
    requires nm.Lawful() && Holds(nm, f, active, kept, others) && Holds(nm, g, active, kept, others)
    ensures forall name :: name in f ==> name in g && g[name] == f[name]
  {
    forall name | name in f ensures name in g && g[name] == f[name] {
      if nm.index(name).Some? {
        assert nm.archive(nm.index(name).value) in g;
      } else if name != nm.active {
        assert name in Others(nm, f);
        assert name in Others(nm, g);
      }
    }
  }

  lemma AddArchive(nm: Naming, files: Files, kept: map<nat, Bytes>, n: nat, text: Bytes)
    requires nm.Lawful() && Archives(nm, files, kept) && 0 < n < SIZE_MAX
    ensures Archives(nm, files[nm.archive(n) := text], kept[n := text])
    ensures Others(nm, files[nm.archive(n) := text]) == Others(nm, files)
  {
  }

  lemma DropArchive(nm: Naming, files: Files, kept: map<nat, Bytes>, n: nat)
    requires nm.Lawful() && Archives(nm, files, kept) && 0 < n < SIZE_MAX
    ensures Archives(nm, files - {nm.archive(n)}, kept - {n})
    ensures Others(nm, files - {nm.archive(n)}) == Others(nm, files)
  {
    forall k | k in kept - {n} ensures nm.archive(k) in files - {nm.archive(n)} {
      assert nm.index(nm.archive(k)) == Some(k);
    }
  }

  lemma SetActive(nm: Naming, files: Files, kept: map<nat, Bytes>, text: Bytes)
    requires nm.Lawful() && Archives(nm, files, kept)
    ensures Archives(nm, files[nm.active := text], kept) && Others(nm, files[nm.active := text]) == Others(nm, files)
  {
  }

  lemma DropActive(nm: Naming, files: Files, kept: map<nat, Bytes>)
    requires nm.Lawful() && Archives(nm, files, kept)
    ensures Archives(nm, files - {nm.active}, kept) && Others(nm, files - {nm.active}) == Others(nm, files)
  {
  }

  /** The archives from index `lo` on. */
  ghost function Above(kept: map<nat, Bytes>, lo: int): map<nat, Bytes> {
    map n | n in kept && n >= lo :: kept[n]
  }

  // ----- The journal: the same sink, were nothing ever deleted -----

  datatype Journal = Journal(closed: map<nat, Bytes>, next: nat, active: Bytes) {
    ghost predicate Valid() {
      && next > 0
      && (forall n | n in closed :: 0 < n < next)
      && (next > 1 ==> next - 1 in closed)
    }

    ghost function Close(): Journal {
      Journal(closed[next := active], next + 1, [])
    }

    ghost function Write(maxSize: nat, m: Bytes): Journal {
      if |active| + |m| > maxSize && |active| > 0 then Journal(closed[next := active], next + 1, m)
      else Journal(closed, next, active + m)
    }
  }

  /** What the sink keeps of the journal. */
  ghost function Window(j: Journal, maxFiles: nat): map<nat, Bytes> {
    Above(j.closed, j.next - maxFiles)
  }

  lemma JournalStep(j: Journal, maxSize: nat, m: Bytes)
    requires j.Valid()
    ensures j.Write(maxSize, m).Valid()
  {
  }

  /** The sink's state is the journal cut off below the window. */
  ghost predicate Follows(c: Config, s: State, j: Journal, others: Files) {
    && c.Accepted() && j.Valid() && s.open
    && s.nextIndex == j.next < SIZE_MAX
    && s.currentSize == |j.active|
    && Holds(c.naming, s.files, j.active, Window(j, c.maxFiles), others)
  }

  /** A write none of whose file operations fails in the end; the rename may take several attempts. */
  ghost predicate Smooth(f: Faults, m: Bytes) {
    f.opens && f.drops && f.written >= |m| && exists i :: 0 <= i < |f.attempts| && f.attempts[i].renames
  }

  lemma {:induction false} RenameWorks(nm: Naming, files: Files, dst: string, attempts: seq<Attempt>)
    requires nm.active in files && dst !in files
    requires exists i :: 0 <= i < |attempts| && attempts[i].renames
    ensures TryRename(files, nm.active, dst, attempts) == (files[dst := files[nm.active]] - {nm.active}, true)
  {
    assert files - {dst} == files;
    if !attempts[0].renames {
      var i :| 0 <= i < |attempts| && attempts[i].renames;
      assert attempts[1..][i - 1].renames;
      RenameWorks(nm, files, dst, attempts[1..]);
    }
  }

  /** The name for the next archive is free, so no rotation overwrites an archive. */
  lemma NextIsFree(nm: Naming, files: Files, kept: map<nat, Bytes>, n: nat)
    requires nm.Lawful() && Archives(nm, files, kept) && 0 < n < SIZE_MAX && n !in kept
    ensures nm.archive(n) !in files && nm.archive(n) != nm.active
  {
  }

  /** Renaming the active file to archive `n`. */
  lemma Archived(nm: Naming, files: Files, kept: map<nat, Bytes>, n: nat)
    requires nm.Lawful() && Archives(nm, files, kept) && 0 < n < SIZE_MAX && nm.active in files && n !in kept
    ensures var moved := files[nm.archive(n) := files[nm.active]] - {nm.active};
            Archives(nm, moved, kept[n := files[nm.active]]) && Others(nm, moved) == Others(nm, files)
  {
    AddArchive(nm, files, kept, n, files[nm.active]);
    DropActive(nm, files[nm.archive(n) := files[nm.active]], kept[n := files[nm.active]]);
  }

  lemma Reopened(nm: Naming, files: Files, kept: map<nat, Bytes>)
    requires nm.Lawful() && Archives(nm, files, kept) && nm.active !in files
    ensures Holds(nm, OpenAppend(files, nm.active), [], kept, Others(nm, files))
  {
    SetActive(nm, files, kept, []);
  }

  /** The window after one more file is closed. */
  lemma WindowMoves(j: Journal, maxFiles: nat)
    requires j.Valid()
    ensures var kept, n := Window(j, maxFiles)[j.next := j.active], j.next;
            var now := Window(j.Close(), maxFiles);
            if n > maxFiles then kept - {n - maxFiles} == now else kept == now
  {
  }

  /** The directory a rotation reaches before it reopens the active file. */
  ghost function Shifted(nm: Naming, files: Files, n: nat, maxFiles: nat): Files
    requires nm.active in files
  {
    var moved := files[nm.archive(n) := files[nm.active]] - {nm.active};
    if n > maxFiles then moved - {nm.archive(n - maxFiles)} else moved
  }

  lemma RotateResult(c: Config, s: State, m: Bytes, f: Faults)
    requires c.naming.active in s.files && c.naming.archive(s.nextIndex) !in s.files && Smooth(f, m)
    ensures Rotate(c, s, f) ==
            (State(OpenAppend(Shifted(c.naming, s.files, s.nextIndex, c.maxFiles), c.naming.active), 0, s.nextIndex + 1,
                   true), false)
  {
    RenameWorks(c.naming, s.files, c.naming.archive(s.nextIndex), f.attempts);
  }

  lemma ShiftedWindow(nm: Naming, files: Files, j: Journal, maxFiles: nat)
    requires nm.Lawful() && j.Valid() && j.next + 1 < SIZE_MAX && nm.active in files && files[nm.active] == j.active
    requires Archives(nm, files, Window(j, maxFiles))
    ensures var left := Shifted(nm, files, j.next, maxFiles);
            && Archives(nm, left, Window(j.Close(), maxFiles))
            && Others(nm, left) == Others(nm, files) && nm.active !in left
  {
    var n := j.next;
    var kept := Window(j, maxFiles);
    var moved, more := files[nm.archive(n) := j.active] - {nm.active}, kept[n := j.active];
    Archived(nm, files, kept, n);
    WindowMoves(j, maxFiles);
    if n > maxFiles {
      DropArchive(nm, moved, more, n - maxFiles);
    }
  }

  lemma ReopenedWindow(nm: Naming, files: Files, j: Journal, maxFiles: nat)
    requires nm.Lawful() && j.Valid() && j.next + 1 < SIZE_MAX && nm.active in files && files[nm.active] == j.active
    requires Archives(nm, files, Window(j, maxFiles))
    ensures Holds(nm, OpenAppend(Shifted(nm, files, j.next, maxFiles), nm.active), [],
                  Window(j.Close(), maxFiles), Others(nm, files))
  {
    ShiftedWindow(nm, files, j, maxFiles);
    Reopened(nm, Shifted(nm, files, j.next, maxFiles),
             Window(j.Close(), maxFiles));
  }

  lemma RotateFrom(c: Config, s: State, j: Journal, m: Bytes, f: Faults)
    requires c.naming.Lawful() && j.Valid() && Smooth(f, m) && s.nextIndex == j.next < SIZE_MAX
             && c.naming.active in s.files
    requires Archives(c.naming, s.files, Window(j, c.maxFiles))
    ensures Rotate(c, s, f) ==
            (State(OpenAppend(Shifted(c.naming, s.files, j.next, c.maxFiles), c.naming.active), 0, j.next + 1, true),
             false)
  {
    NextIsFree(c.naming, s.files, Window(j, c.maxFiles), j.next);
    RotateResult(c, s, m, f);
  }

  /** The state a rotation leaves when its file operations succeed. */
  ghost function Rotated(c: Config, s: State): State
    requires c.naming.active in s.files
  {
    State(OpenAppend(Shifted(c.naming, s.files, s.nextIndex, c.maxFiles), c.naming.active), 0, s.nextIndex + 1, true)
  }

  lemma RotatedFollows(c: Config, s: State, j: Journal, others: Files)
    requires c.naming.Lawful() && Follows(c, s, j, others) && j.next + 1 < SIZE_MAX
    ensures Follows(c, Rotated(c, s), j.Close(), others)
  {
    ReopenedWindow(c.naming, s.files, j, c.maxFiles);
  }

  lemma RotateFollows(c: Config, s: State, j: Journal, others: Files, m: Bytes, f: Faults)
    requires c.naming.Lawful() && Follows(c, s, j, others) && Smooth(f, m) && j.next + 1 < SIZE_MAX
    ensures Rotate(c, s, f) == (Rotated(c, s), false) && Follows(c, Rotated(c, s), j.Close(), others)
  {
    RotateFrom(c, s, j, m, f);
    RotatedFollows(c, s, j, others);
  }

  lemma DeliverFollows(c: Config, s: State, j: Journal, others: Files, m: Bytes, f: Faults)
    requires c.naming.Lawful() && Follows(c, s, j, others) && f.written >= |m|
    ensures Follows(c, Deliver(c, s, m, f), Journal(j.closed, j.next, j.active + m), others)
  {
    SetActive(c.naming, s.files, Window(j, c.maxFiles), j.active + m);
    assert Window(Journal(j.closed, j.next, j.active + m), c.maxFiles) == Window(j, c.maxFiles);
  }

  /** One write keeps the sink in step with the journal. */
  lemma WriteFollows(c: Config, s: State, j: Journal, others: Files, m: Bytes, f: Faults)
    requires c.naming.Lawful() && Follows(c, s, j, others) && Smooth(f, m) && j.next + 1 < SIZE_MAX
    ensures var (t, threw) := Write(c, s, m, f);
            !threw && Follows(c, t, j.Write(c.maxSize, m), others)
  {
    if Rotates(c, s, m) {
      RotateFollows(c, s, j, others, m, f);
      DeliverFollows(c, Rotated(c, s), j.Close(), others, m, f);
      assert [] + m == m;
    } else {
      DeliverFollows(c, s, j, others, m, f);
    }
  }

  // ----- Size of the active file, whatever happens to the rename -----

  lemma {:induction false} RenameMoves(files: Files, src: string, dst: string, attempts: seq<Attempt>)
    requires src != dst
    ensures var (after, ok) := TryRename(files, src, dst, attempts);
            if ok then src in files && after == files[dst := files[src]] - {src}
            else after == files || after == files - {dst}
  {
    if attempts != [] {
      var cleared := if attempts[0].removes then files - {dst} else files;
      if attempts[0].renames && src in cleared {
        assert cleared[dst := cleared[src]] - {src} == files[dst := files[src]] - {src};
      } else {
        RenameMoves(cleared, src, dst, attempts[1..]);
        assert cleared[dst := []] == files[dst := []];
        assert cleared - {dst} == files - {dst};
        if src in files {
          assert cleared[dst := files[src]] == files[dst := files[src]];
        }
      }
    }
  }

  /** The sink's idea of the active file's size is right. */
  ghost predicate Measured(c: Config, s: State) {
    c.naming.active in s.files && |s.files[c.naming.active]| == s.currentSize
  }

  lemma RotateEmpties(c: Config, s: State, f: Faults)
    requires c.naming.Lawful() && 0 < s.nextIndex < SIZE_MAX && f.opens
    ensures var (t, threw) := Rotate(c, s, f);
            !threw && t.open && t.currentSize == 0 && c.naming.active in t.files && t.files[c.naming.active] == []
  {
    var dst := c.naming.archive(s.nextIndex);
    RenameMoves(s.files, c.naming.active, dst, f.attempts);
  }

  /** A completed write leaves at most max_size bytes, or the one message, even when renaming fails. */
  lemma SizeBound(c: Config, s: State, m: Bytes, f: Faults)
    requires c.naming.Lawful() && 0 < s.nextIndex < SIZE_MAX && s.open && Measured(c, s)
    requires f.opens && f.written >= |m|
    ensures var (t, threw) := Write(c, s, m, f);
            !threw && t.open && Measured(c, t) && t.currentSize <= Max(c.maxSize, |m|)
  {
    if Rotates(c, s, m) {
      RotateEmpties(c, s, f);
    }
  }

  // ----- Construction -----

  lemma {:induction false} HighestIs(index: string -> Option<nat>, order: seq<string>)
    ensures forall name :: name in order && index(name).Some? ==> index(name).value <= Highest(index, order)
    ensures Highest(index, order) == 0 || exists name :: name in order && index(name) == Some(Highest(index, order))
  {
    if order != [] {
      var n := |order| - 1;
      HighestIs(index, order[..n]);
      assert order == order[..n] + [order[n]];
    }
  }

  ghost function StaleNames(index: string -> Option<nat>, order: seq<string>, lowest: int): set<string> {
    set name | name in order && Stale(index, lowest, name)
  }

  /** Pruning deletes the stale names in listing order up to the first one that cannot be deleted, and no others. */
  lemma {:induction false} PruneDeletes(index: string -> Option<nat>, files: Files, order: seq<string>, lowest: int,
                                        stuck: set<string>, k: nat)
    requires k <= |order| && forall i :: 0 <= i < k ==> !(order[i] in stuck && Stale(index, lowest, order[i]))
    requires k == |order| || (order[k] in stuck && Stale(index, lowest, order[k]))
    ensures Prune(index, files, order, lowest, stuck) == files - StaleNames(index, order[..k], lowest)
  {
    if k == 0 {
      assert StaleNames(index, order[..k], lowest) == {};
    } else {
      var rest := if Stale(index, lowest, order[0]) then files - {order[0]} else files;
      PruneDeletes(index, rest, order[1..], lowest, stuck, k - 1);
      assert order[..k] == [order[0]] + order[1..][..k - 1];
      var first := if Stale(index, lowest, order[0]) then {order[0]} else {};
      assert StaleNames(index, order[..k], lowest) == first + StaleNames(index, order[1..][..k - 1], lowest);
    }
  }

  /** With one archive to keep of 1, 2 and 9: when the first cannot be deleted, the second stays too. */
  lemma StuckPruneExample(nm: Naming, files: Files)
    requires nm.Lawful() && nm.archive(2) in files
    ensures var order := [nm.archive(1), nm.archive(2), nm.archive(9)];
            var c := Config(nm, 1, 1);
            && ScanAndPrune(c, files, order, {nm.archive(1)}) == (files, 9)
            && nm.archive(2) !in ScanAndPrune(c, files, order, {}).0
  {
    var a, b, top := nm.archive(1), nm.archive(2), nm.archive(9);
    var order := [a, b, top];
    assert order[..2] == [a, b] && [a, b][..1] == [a] && [a][..0] == [];
    assert Highest(nm.index, [a]) == 1 && Highest(nm.index, [a, b]) == 2;
    assert Highest(nm.index, order) == 9;
    PruneDeletes(nm.index, files, order, 9, {a}, 0);
    assert StaleNames(nm.index, order[..0], 9) == {};
    PruneDeletes(nm.index, files, order, 9, {}, 3);
    assert order[1] in order[..3] && Stale(nm.index, 9, b);
  }

  /** Nothing but archives differs. */
  ghost predicate SameRest(nm: Naming, f: Files, g: Files) {
    && Others(nm, f) == Others(nm, g) && (nm.active in f <==> nm.active in g)
    && (nm.active in f ==> f[nm.active] == g[nm.active])
  }

  lemma DropStale(nm: Naming, files: Files, kept: map<nat, Bytes>, order: seq<string>, lowest: int)
    requires nm.Lawful() && Archives(nm, files, kept) && Lists(order, files)
    ensures var left := files - StaleNames(nm.index, order, lowest);
            Archives(nm, left, Above(kept, lowest)) && SameRest(nm, files, left)
  {
  }

  lemma PruneLeaves(nm: Naming, files: Files, kept: map<nat, Bytes>, order: seq<string>, lowest: int)
    requires nm.Lawful() && Archives(nm, files, kept) && Lists(order, files)
    ensures var left := Prune(nm.index, files, order, lowest, {});
            Archives(nm, left, Above(kept, lowest)) && SameRest(nm, files, left)
  {
    PruneDeletes(nm.index, files, order, lowest, {}, |order|);
    assert order[..|order|] == order;
    DropStale(nm, files, kept, order, lowest);
  }

  /** The scan finds the highest archive. */
  lemma ScanFinds(nm: Naming, files: Files, kept: map<nat, Bytes>, order: seq<string>)
    requires nm.Lawful() && Archives(nm, files, kept) && Lists(order, files)
    ensures var highest := Highest(nm.index, order);
            (forall n :: n in kept ==> n <= highest) && (highest > 0 ==> highest in kept)
  {
    HighestIs(nm.index, order);
    forall n | n in kept ensures n <= Highest(nm.index, order) {
      assert nm.archive(n) in order;
    }
  }

  lemma AllAbove(kept: map<nat, Bytes>, lowest: int)
    requires forall n :: n in kept ==> n >= lowest
    ensures Above(kept, lowest) == kept
  {
  }

  lemma NothingPruned(nm: Naming, files: Files, kept: map<nat, Bytes>, lowest: int)
    requires Archives(nm, files, kept) && lowest <= 1
    ensures Archives(nm, files, Above(kept, lowest)) && SameRest(nm, files, files)
  {
    AllAbove(kept, lowest);
  }

  lemma ScanLeaves(c: Config, files: Files, kept: map<nat, Bytes>, order: seq<string>)
    requires c.naming.Lawful() && Archives(c.naming, files, kept) && Lists(order, files)
    ensures var (left, highest) := ScanAndPrune(c, files, order, {});
            && highest == Highest(c.naming.index, order)
            && Archives(c.naming, left, Above(kept, highest + 1 - c.maxFiles)) && SameRest(c.naming, files, left)
  {
    var lowest := Highest(c.naming.index, order) + 1 - c.maxFiles;
    if lowest > 1 {
      PruneLeaves(c.naming, files, kept, order, lowest);
    } else {
      NothingPruned(c.naming, files, kept, lowest);
    }
  }

  lemma Opened(nm: Naming, files: Files, kept: map<nat, Bytes>)
    requires nm.Lawful() && Archives(nm, files, kept)
    ensures Holds(nm, OpenAppend(files, nm.active), if nm.active in files then files[nm.active] else [], kept,
                  Others(nm, files))
  {
    SetActive(nm, files, kept, []);
  }

  /** Opening the active file of a directory that was pruned. */
  lemma OpenedPruned(nm: Naming, files: Files, left: Files, kept: map<nat, Bytes>)
    requires nm.Lawful() && Archives(nm, left, kept) && SameRest(nm, files, left)
    ensures var active := if nm.active in files then files[nm.active] else [];
            && Holds(nm, OpenAppend(left, nm.active), active, kept, Others(nm, files))
            && |active| == if nm.active in left then |left[nm.active]| else 0
  {
    Opened(nm, left, kept);
  }

  /** A sink started on any canonically named directory is in step with the journal of what it found. */
  lemma StartFollows(c: Config, files: Files, kept: map<nat, Bytes>, order: seq<string>)
    requires c.Accepted() && c.naming.Lawful() && Archives(c.naming, files, kept) && Lists(order, files)
    requires forall n :: n in kept ==> n + 1 < SIZE_MAX
    ensures var r := Start(c, files, order, {}, true);
            var active := if c.naming.active in files then files[c.naming.active] else [];
            && r.Running?
            && Follows(c, r.state, Journal(kept, Highest(c.naming.index, order) + 1, active), Others(c.naming, files))
  {
    ScanFinds(c.naming, files, kept, order);
    ScanLeaves(c, files, kept, order);
    var (left, highest) := ScanAndPrune(c, files, order, {});
    OpenedPruned(c.naming, files, left, Above(kept, highest + 1 - c.maxFiles));
  }
}
