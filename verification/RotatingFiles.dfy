/** The rotating file sink over an abstract directory: one step of each operation, faults included. */
module RotatingFiles {
  import opened Common
  import opened ArchiveNames

  const MAX_FILES_LIMIT: nat := 1000
  const MAX_ATTEMPTS: nat := 5

  type Bytes = seq<char>
  type Files = map<string, Bytes>

  datatype Config = Config(naming: Naming, maxSize: nat, maxFiles: nat) {
    predicate Accepted() {
      naming.active != "" && maxSize > 0 && maxFiles <= MAX_FILES_LIMIT
    }
  }

  /** The directory together with the sink's fields; `open` says whether the sink holds a file handle. */
  datatype State = State(files: Files, currentSize: nat, nextIndex: nat, open: bool)

  /** One attempt at renaming: whether deleting the target and whether the rename itself would succeed. */
  datatype Attempt = Attempt(removes: bool, renames: bool)

  type Attempts = s: seq<Attempt> | |s| == 5 witness seq(5, _ => Attempt(true, true))

  /** What the file system does to one write; `written` is how many bytes the final write takes. */
  datatype Faults = Faults(attempts: Attempts, drops: bool, opens: bool, written: nat)

  function Put(files: Files, name: string, text: Bytes): Files {
    files[name := text]
  }

  /** Opening for append creates a missing file and keeps an existing one. */
  function OpenAppend(files: Files, name: string): Files {
    if name in files then files else files[name := []]
  }

  function AppendTo(files: Files, name: string, text: Bytes): Files {
    if name in files then files[name := files[name] + text] else files
  }

  function TryRename(files: Files, src: string, dst: string, attempts: seq<Attempt>): (Files, bool) {
    if attempts == [] then (files, false)
    else
      var cleared := if attempts[0].removes then files - {dst} else files;
      if attempts[0].renames && src in cleared then (cleared[dst := cleared[src]] - {src}, true)
      else TryRename(cleared, src, dst, attempts[1..])
  }

  /** Closing, renaming or truncating, dropping and reopening; the flag says that opening threw. */
  function Rotate(c: Config, s: State, f: Faults): (State, bool) {
    var (files, renamed) := TryRename(s.files, c.naming.active, c.naming.archive(s.nextIndex), f.attempts);
    if renamed then
      var next := s.nextIndex + 1;
      var left := if next > c.maxFiles + 1 && f.drops then files - {c.naming.archive(next - c.maxFiles - 1)} else files;
      if f.opens then (State(OpenAppend(left, c.naming.active), 0, next, true), false)
      else (State(left, s.currentSize, next, false), true)
    else if f.opens then (State(files[c.naming.active := []], 0, s.nextIndex, true), false)
    else (State(files, s.currentSize, s.nextIndex, false), true)
  }

  function Deliver(c: Config, s: State, m: Bytes, f: Faults): State {
    var taken := if f.written < |m| then m[..f.written] else m;
    State(AppendTo(s.files, c.naming.active, taken), if f.written < |m| then s.currentSize else s.currentSize + |m|,
          s.nextIndex, s.open)
  }

  predicate Rotates(c: Config, s: State, m: Bytes) {
    s.currentSize + |m| > c.maxSize && s.currentSize > 0
  }

  /** One write; the flag says that it threw. */
  function Write(c: Config, s: State, m: Bytes, f: Faults): (State, bool) {
    if !s.open then (s, false)
    else if Rotates(c, s, m) then
      var (t, threw) := Rotate(c, s, f);
      if threw then (t, true) else (Deliver(c, t, m, f), false)
    else (Deliver(c, s, m, f), false)
  }

  function Highest(index: string -> Option<nat>, order: seq<string>): nat {
    if order == [] then 0
    else
      var rest := Highest(index, order[..|order| - 1]);
      var n := index(order[|order| - 1]);
      if n.Some? && n.value > rest then n.value else rest
  }

  lemma HighestSnoc(index: string -> Option<nat>, order: seq<string>, i: nat)
    requires i < |order|
    ensures var n, rest := index(order[i]), Highest(index, order[..i]);
            Highest(index, order[..i + 1]) == if n.Some? && n.value > rest then n.value else rest
  {
    assert order[..i + 1][..i] == order[..i];
  }

  predicate Stale(index: string -> Option<nat>, lowest: int, name: string) {
    index(name).Some? && index(name).value < lowest
  }

  /** Deletes the stale archives in listing order; the first failing deletion ends the pass. */
  function Prune(index: string -> Option<nat>, files: Files, order: seq<string>, lowest: int,
                 stuck: set<string>): Files {
    if order == [] then files
    else if !Stale(index, lowest, order[0]) then Prune(index, files, order[1..], lowest, stuck)
    else if order[0] in stuck then files
    else Prune(index, files - {order[0]}, order[1..], lowest, stuck)
  }

  /** `order` lists the directory. */
  ghost predicate Lists(order: seq<string>, files: Files) {
    forall name :: name in order <==> name in files
  }

  function ScanAndPrune(c: Config, files: Files, order: seq<string>, stuck: set<string>): (Files, nat) {
    var highest := Highest(c.naming.index, order);
    if highest > c.maxFiles then (Prune(c.naming.index, files, order, highest - c.maxFiles + 1, stuck), highest)
    else (files, highest)
  }

  datatype Started = Refused | OpenFailed(files: Files) | Running(state: State)

  /** Constructing a sink on a directory listed as `order`. */
  function Start(c: Config, files: Files, order: seq<string>, stuck: set<string>, opens: bool): Started {
    if !c.Accepted() then Refused
    else
      var (pruned, highest) := ScanAndPrune(c, files, order, stuck);
      if !opens then OpenFailed(pruned)
      else
        Running(State(OpenAppend(pruned, c.naming.active),
                      if c.naming.active in pruned then |pruned[c.naming.active]| else 0, highest + 1, true))
  }
}
