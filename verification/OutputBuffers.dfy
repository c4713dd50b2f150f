/** Buffers that deliver at most a given number of elements to an output iterator or to raw memory. */
module OutputBuffers {
  import opened Common

  const BUFFER_SIZE: nat := 256

  /** Copies elements into an array behind the first `at`. */
  method CopyIn<T>(memory: array<T>, at: nat, items: seq<T>)
    requires at + |items| <= memory.Length
    modifies memory
    ensures memory[..at + |items|] == old(memory[..at]) + items
  {
    var i := 0;
    while i < |items|
      invariant 0 <= i <= |items| && memory[..at + i] == old(memory[..at]) + items[..i]
    {
      memory[at + i] := items[i];
      i := i + 1;
    }
    assert items[..i] == items;
  }

  lemma Prefixes<T>(total: seq<T>, items: seq<T>)
    ensures forall n :: 0 <= n <= |total| ==> (total + items)[..n] == total[..n]
  {
  }

  lemma TakeMore<T>(items: seq<T>, begin: nat, count: nat)
    requires begin + count <= |items|
    ensures items[..begin] + items[begin..][..count] == items[..begin + count]
  {
  }

  /** An output buffer with a limit. The generic kind collects elements in `data` and copies them to an iterator
      when full; the raw kind lets elements go straight to the target memory until that is full, and `data` only
      swallows the rest. */
  class IteratorBuffer<T(0)> {
    const raw: bool
    const limit: nat
    const data: array<T>
    const target: array<T>
    var direct: bool
    var size: nat
    var passed: nat
    var outAt: nat
    var out: seq<T>
    ghost var total: seq<T>
    ghost var cut: nat
    ghost var asked: bool
    ghost var atFirstOut: nat

    /** `total` is everything appended; `cut` is how much of it had gone to raw memory when that was given up, and
        `atFirstOut` how much had been appended when the output was first asked for. */
    ghost predicate Valid()
      reads this, data, target
    {
      && data.Length == BUFFER_SIZE && target.Length == limit && data != target
      && (direct ==> raw && passed == 0 && outAt == 0 && size <= limit && target[..size] == total)
      && (!direct ==> size <= BUFFER_SIZE && passed + size == |total| && data[..size] == total[passed..])
      && (!direct && raw ==> outAt == cut <= limit && cut <= passed && target[..cut] == total[..cut])
      && (!direct && raw ==> cut == if asked then Min(limit, atFirstOut) else limit)
      && (asked ==> !direct && atFirstOut <= |total|)
      && (!raw ==> out == total[..Min(limit, passed)])
    }

    /** What has reached the output. */
    function Delivered(): seq<T>
      requires raw ==> outAt <= target.Length
      reads this, target
    {
      if raw then target[..outAt] else out
    }

    function Capacity(): nat
      reads this
    {
      if direct then limit else BUFFER_SIZE
    }

    constructor (raw: bool, limit: nat, memory: array<T>)
      requires memory.Length == limit
      ensures Valid() && total == [] && !asked && direct == raw && fresh(data)
      ensures this.raw == raw && this.limit == limit && this.target == memory
    {
      this.raw := raw;
      this.limit := limit;
      this.target := memory;
      this.data := new T[BUFFER_SIZE];
      this.direct := raw;
      this.size, this.passed, this.outAt := 0, 0, 0;
      this.out := [];
      this.total := [];
      this.cut := 0;
      this.asked := false;
      this.atFirstOut := 0;
    }

    /** How many of `count` further elements the limit lets through. */
    method Limit(count: nat) returns (n: nat)
      modifies this`passed
      ensures n == Min(count, if limit > old(passed) then limit - old(passed) else 0) && passed == old(passed) + count
    {
      n := Min(count, if limit > passed then limit - passed else 0);
      passed := passed + count;
    }

    /** Passes on what was collected; `last` says that it was asked for, not made necessary by a full buffer. */
    method Flush(ghost last: bool)
      requires Valid() && (direct && size < limit ==> last)
      modifies this`direct, this`size, this`passed, this`outAt, this`out, this`cut, this`asked, this`atFirstOut
      ensures Valid() && !direct && size == 0 && passed == |total|
      ensures asked == (last || old(asked)) && atFirstOut == if last && !old(asked) then |total| else old(atFirstOut)
      ensures cut == if old(direct) then |total| else old(cut)
    {
      if last && !asked {
        asked, atFirstOut := true, |total|;
      }
      if raw {
        var n := Limit(size);
        if direct {
          outAt := outAt + n;
          direct := false;
          cut := |total|;
        }
        size := 0;
      } else {
        FlushGeneric();
      }
    }

    method FlushGeneric()
      requires Valid() && !raw
      modifies this`size, this`passed, this`out
      ensures Valid() && size == 0 && passed == |total|
    {
      var count := size;
      size := 0;
      ghost var before := passed;
      var n := Limit(count);
      var begin := 0;
      while begin != n
        invariant 0 <= begin <= n <= count
        invariant out == old(out) + data[..begin]
        modifies this`out
      {
        out := out + [data[begin]];
        begin := begin + 1;
      }
      assert data[..n] == data[..count][..n];
      assert total[before..][..n] == total[before..before + n];
      if n > 0 {
        assert total[..before] + total[before..before + n] == total[..before + n];
      }
    }

    /** Makes room for at least one element. */
    method Grow()
      requires Valid()
      modifies this`direct, this`size, this`passed, this`outAt, this`out, this`cut, this`asked, this`atFirstOut
      ensures Valid() && size < Capacity() && asked == old(asked) && atFirstOut == old(atFirstOut)
      ensures old(direct) && !direct ==> cut == |total|
      ensures !old(direct) ==> !direct && cut == old(cut)
    {
      if size == Capacity() {
        Flush(false);
      }
    }

    /** Writes elements for which there is room behind the others. */
    method Store(items: seq<T>)
      requires Valid() && size + |items| <= Capacity()
      modifies this`size, this`total, data, target
      ensures Valid() && total == old(total) + items && size == old(size) + |items|
    {
      if direct {
        CopyIn(target, size, items);
      } else {
        CopyIn(data, size, items);
        assert (total + items)[passed..] == total[passed..] + items;
      }
      Prefixes(total, items);
      total := total + items;
      size := size + |items|;
    }

    method PushBack(value: T)
      requires Valid()
      modifies this, data, target
      ensures Valid() && total == old(total) + [value] && asked == old(asked) && atFirstOut == old(atFirstOut)
      ensures !old(direct) ==> !direct && cut == old(cut)
      ensures old(direct) && !direct ==> cut == limit
    {
      if size + 1 > Capacity() {
        Grow();
      }
      Store([value]);
    }

    /** One round of appending: as many elements as there is room for, and at least one. */
    method AppendSome(items: seq<T>) returns (count: nat)
      requires Valid() && items != []
      modifies this, data, target
      ensures 0 < count <= |items|
      ensures Valid() && total == old(total) + items[..count] && asked == old(asked) && atFirstOut == old(atFirstOut)
      ensures !old(direct) ==> !direct && cut == old(cut)
      ensures old(direct) && !direct ==> cut == limit
    {
      var free := Capacity() - size;
      count := |items|;
      if free < count {
        Grow();
        free := Capacity() - size;
        count := if count < free then count else free;
      }
      Store(items[..count]);
    }

    /** Appends a run of elements. */
    method Append(items: seq<T>)
      requires Valid()
      modifies this, data, target
      ensures Valid() && total == old(total) + items && asked == old(asked) && atFirstOut == old(atFirstOut)
      ensures !old(direct) ==> !direct && cut == old(cut)
      ensures old(direct) && !direct ==> cut == limit
    {
      var begin := 0;
      while begin != |items|
        invariant 0 <= begin <= |items|
        invariant Valid() && total == old(total) + items[..begin] && asked == old(asked)
                  && atFirstOut == old(atFirstOut)
        invariant !old(direct) ==> !direct && cut == old(cut)
        invariant old(direct) && !direct ==> cut == limit
        decreases |items| - begin
      {
        var count := AppendSome(items[begin..]);
        TakeMore(items, begin, count);
        assert total == old(total) + (items[..begin] + items[begin..][..count]);
        begin := begin + count;
      }
      assert items[..begin] == items;
    }

    /** The number of elements appended, delivered or not. */
    method Count() returns (n: nat)
      requires Valid() && !direct
      ensures n == |total|
    {
      n := passed + size;
    }

    /** Flushes and hands back the output: the first elements up to the limit, unless raw memory was given up early,
        that is, elements were appended after an earlier call that came before the memory was full. */
    method Out()
      requires Valid()
      modifies this
      ensures Valid() && asked && !direct && total == old(total)
      ensures atFirstOut == if old(asked) then old(atFirstOut) else |total|
      ensures Delivered() == if raw then total[..Min(limit, atFirstOut)] else total[..Min(limit, |total|)]
      ensures Delivered() == total[..Min(limit, |total|)] <==> !raw || atFirstOut == |total| || atFirstOut >= limit
    {
      Flush(true);
    }
  }

  function Flatten<T>(chunks: seq<seq<T>>): seq<T> {
    if chunks == [] then [] else Flatten(chunks[..|chunks| - 1]) + chunks[|chunks| - 1]
  }

  /** Formats at most `limit` elements: whatever pieces the output comes in, its first elements are delivered, and its
      untruncated size is reported. */
  method FormatToN<T(0)>(chunks: seq<seq<T>>, limit: nat, raw: bool, filler: T) returns (delivered: seq<T>, count: nat)
    ensures delivered == Flatten(chunks)[..Min(limit, |Flatten(chunks)|)]
    ensures count == |Flatten(chunks)|
  {
    var memory := new T[limit](_ => filler);
    var buf := new IteratorBuffer(raw, limit, memory);
    var i := 0;
    while i < |chunks|
      invariant 0 <= i <= |chunks|
      invariant buf.Valid() && !buf.asked && buf.total == Flatten(chunks[..i]) && fresh(buf) && fresh(buf.data)
                && fresh(buf.target)
    {
      assert chunks[..i + 1][..i] == chunks[..i];
      buf.Append(chunks[i]);
      i := i + 1;
    }
    assert chunks[..i] == chunks;
    buf.Out();
    delivered := buf.Delivered();
    count := buf.Count();
  }

  /** Two elements appended around an early call, with room for both: the second one never arrives. */
  method EarlyOutLoses(filler: int) returns (delivered: seq<int>, count: nat)
    ensures delivered == [7] && count == 2
  {
    var memory := new int[2](_ => filler);
    var buf := new IteratorBuffer(true, 2, memory);
    buf.Append([7]);
    buf.Out();
    buf.Append([8]);
    buf.Out();
    delivered := buf.Delivered();
    count := buf.Count();
  }
}
