/** The sink object, which changes its fields and a shared directory in place. */
module RotatingSink {
  import opened Common
  import opened ArchiveNames
  import opened RotatingFiles

  class Directory {
    var files: Files

    constructor (files: Files)
      ensures this.files == files
    {
      this.files := files;
    }

    method Remove(name: string, works: bool)
      modifies this
      ensures files == if works then old(files) - {name} else old(files)
    {
      if works {
        files := files - {name};
      }
    }

    method Rename(src: string, dst: string, works: bool) returns (ok: bool)
      modifies this
      ensures ok == (works && src in old(files))
      ensures files == if ok then old(files)[dst := old(files)[src]] - {src} else old(files)
    {
      ok := works && src in files;
      if ok {
        files := files[dst := files[src]] - {src};
      }
    }
  }

  class RotatingFileSink {
    const naming: Naming
    const maxSize: nat
    const maxFiles: nat
    const dir: Directory
    var currentSize: nat
    var nextIndex: nat
    var open: bool

    function Settings(): Config {
      Config(naming, maxSize, maxFiles)
    }

    ghost function Now(): State
      reads this, dir
    {
      State(dir.files, currentSize, nextIndex, open)
    }

    constructor (naming: Naming, maxSize: nat, maxFiles: nat, dir: Directory, currentSize: nat, nextIndex: nat)
      ensures Settings() == Config(naming, maxSize, maxFiles) && this.dir == dir
      ensures Now() == State(dir.files, currentSize, nextIndex, false)
    {
      this.naming := naming;
      this.maxSize := maxSize;
      this.maxFiles := maxFiles;
      this.dir := dir;
      this.currentSize := currentSize;
      this.nextIndex := nextIndex;
      this.open := false;
    }

    method Open(truncate: bool, works: bool) returns (threw: bool)
      modifies this`open, dir
      ensures threw == !works && open == (if works then true else old(open))
      ensures dir.files == if !works then old(dir.files) else if truncate then Put(old(dir.files), naming.active, [])
                           else OpenAppend(old(dir.files), naming.active)
    {
      threw := !works;
      if works {
        if truncate || naming.active !in dir.files {
          dir.files := dir.files[naming.active := []];
        }
        open := true;
      }
    }

    method Rename(src: string, dst: string, attempts: Attempts) returns (ok: bool)
      modifies dir
      ensures (dir.files, ok) == TryRename(old(dir.files), src, dst, attempts)
    {
      var attempt := 0;
      while attempt < MAX_ATTEMPTS
        invariant 0 <= attempt <= MAX_ATTEMPTS
        invariant TryRename(dir.files, src, dst, attempts[attempt..]) == TryRename(old(dir.files), src, dst, attempts)
      {
        assert attempts[attempt..][0] == attempts[attempt];
        assert attempts[attempt..][1..] == attempts[attempt + 1..];
        dir.Remove(dst, attempts[attempt].removes);
        ok := dir.Rename(src, dst, attempts[attempt].renames);
        if ok {
          return;
        }
        attempt := attempt + 1;
      }
      ok := false;
    }

    method Rotate(f: Faults) returns (threw: bool)
      modifies this, dir
      ensures (Now(), threw) == RotatingFiles.Rotate(Settings(), old(Now()), f)
    {
      open := false;
      var archive := naming.archive(nextIndex);
      var renamed := Rename(naming.active, archive, f.attempts);
      if !renamed {
        threw := Open(true, f.opens);
        if !threw {
          currentSize := 0;
        }
        return;
      }
      nextIndex := nextIndex + 1;
      if nextIndex > maxFiles + 1 {
        dir.Remove(naming.archive(nextIndex - maxFiles - 1), f.drops);
      }
      threw := Open(false, f.opens);
      if !threw {
        currentSize := 0;
      }
    }

    method Write(m: Bytes, f: Faults) returns (threw: bool)
      modifies this, dir
      ensures (Now(), threw) == RotatingFiles.Write(Settings(), old(Now()), m, f)
    {
      threw := false;
      if !open {
        return;
      }
      var newSize := currentSize + |m|;
      if newSize > maxSize && currentSize > 0 {
        threw := Rotate(f);
        if threw {
          return;
        }
        newSize := |m|;
      }
      dir.files := AppendTo(dir.files, naming.active, if f.written < |m| then m[..f.written] else m);
      if f.written >= |m| {
        currentSize := newSize;
      }
    }

    /** Finds the highest archive index. */
    static method Scan(naming: Naming, order: seq<string>) returns (highest: nat)
      ensures highest == Highest(naming.index, order)
    {
      highest := 0;
      var i := 0;
      while i < |order|
        invariant 0 <= i <= |order| && highest == Highest(naming.index, order[..i])
      {
        HighestSnoc(naming.index, order, i);
        var n := naming.index(order[i]);
        if n.Some? && n.value > highest {
          highest := n.value;
        }
        i := i + 1;
      }
      assert order[..i] == order;
    }

    /** Deletes what lies below the window, until a deletion fails. */
    static method PruneBelow(naming: Naming, dir: Directory, order: seq<string>, lowest: nat, stuck: set<string>)
      modifies dir
      ensures dir.files == Prune(naming.index, old(dir.files), order, lowest, stuck)
    {
      var i := 0;
      var failed := false;
      while i < |order| && !failed
        invariant 0 <= i <= |order|
        invariant Prune(naming.index, old(dir.files), order, lowest, stuck) ==
                  if failed then dir.files else Prune(naming.index, dir.files, order[i..], lowest, stuck)
      {
        assert order[i..][0] == order[i] && order[i..][1..] == order[i + 1..];
        var n := naming.index(order[i]);
        if n.Some? && n.value < lowest {
          failed := order[i] in stuck;
          dir.Remove(order[i], !failed);
        }
        i := i + 1;
      }
    }

    static method ScanAndPrune(naming: Naming, maxFiles: nat, dir: Directory, order: seq<string>, stuck: set<string>)
      returns (highest: nat)
      modifies dir
      ensures highest == Highest(naming.index, order)
      ensures dir.files ==
              if highest > maxFiles then Prune(naming.index, old(dir.files), order, highest - maxFiles + 1, stuck)
              else old(dir.files)
    {
      highest := Scan(naming, order);
      if highest > maxFiles {
        PruneBelow(naming, dir, order, highest - maxFiles + 1, stuck);
      }
    }

    /** Construction: `None` stands for a thrown exception. */
    static method Create(naming: Naming, maxSize: nat, maxFiles: nat, dir: Directory, order: seq<string>,
                         stuck: set<string>, opens: bool)
      returns (sink: Option<RotatingFileSink>)
      modifies dir
      ensures match Start(Config(naming, maxSize, maxFiles), old(dir.files), order, stuck, opens)
              case Refused => sink.None? && dir.files == old(dir.files)
              case OpenFailed(files) => sink.None? && dir.files == files
              case Running(state) =>
                && sink.Some? && fresh(sink.value) && sink.value.dir == dir
                && sink.value.Settings() == Config(naming, maxSize, maxFiles) && sink.value.Now() == state
    {
      if naming.active == "" || maxSize == 0 || maxFiles > MAX_FILES_LIMIT {
        return None;
      }
      var highest := ScanAndPrune(naming, maxFiles, dir, order, stuck);
      var size := if naming.active in dir.files then |dir.files[naming.active]| else 0;
      var created := new RotatingFileSink(naming, maxSize, maxFiles, dir, size, highest + 1);
      var threw := created.Open(false, opens);
      sink := if threw then None else Some(created);
    }
  }
}
