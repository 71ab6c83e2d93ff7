/**
  The buffered merge that both merge phases share: one input buffer per run and one output
  buffer in a single block of memory, refilled and flushed through files. Sizes and offsets
  count values of 8 bytes.
  Source: task-external-sort/src/external_sort.cc:77-171, 353-486.
  */
module MergeBuffers {
  import opened Collections
  import opened SortSpec
  import opened Memory

  /** What a read of `size` values at `offset` delivers: the file may end before. */
  function Prefix(data: seq<Value>, offset: nat, size: nat): (r: seq<Value>)
    ensures |r| <= size
  {
    if offset >= |data| then [] else data[offset..Min(offset + size, |data|)]
  }

  class File {
    var data: seq<Value>

    constructor ()
      ensures data == []
    {
      data := [];
    }

    /** Cuts the file or fills it up with zeroes. */
    method Resize(size: nat)
      modifies this
      ensures |data| == size
      ensures data == if size <= |old(data)| then old(data)[..size] else old(data) + seq(size - |old(data)|, _ => 0)
    {
      data := if size <= |data| then data[..size] else data + seq(size - |data|, _ => 0);
    }

    /** Reads into `to` from `at` on; past the end of the file nothing is stored. */
    method ReadInto(offset: nat, size: nat, to: array<Value>, at: nat)
      requires at + size <= to.Length
      modifies to
      ensures to[..] == Splice(old(to[..]), at, Prefix(data, offset, size))
    {
      Store(to, at, Prefix(data, offset, size));
    }

    method Read(offset: nat, size: nat) returns (block: seq<Value>)
      ensures block == Prefix(data, offset, size)
    {
      block := Prefix(data, offset, size);
    }

    method Write(block: seq<Value>, offset: nat)
      requires offset + |block| <= |data|
      modifies this
      ensures data == Splice(old(data), offset, block)
    {
      data := Splice(data, offset, block);
    }
  }

  // ---------- one run and its buffer ----------

  /**
    The buffer [at, at+size) of `mem` serves `run`, whose element `c` is the current one and
    stands just before index `push`; `next` is where the next load starts.
    */
  ghost predicate CursorOk(mem: seq<Value>, at: nat, size: nat, run: seq<Value>, c: nat, push: nat, next: nat) {
    && c < |run| && 1 <= push <= size && push - 1 <= c && at + size <= |mem|
    && (next == c - (push - 1) + size || (next == |run| && |run| <= c - (push - 1) + size))
    && forall m :: c <= m < |run| && m < c - (push - 1) + size ==> run[m] == mem[at + (m - (c - (push - 1)))]
  }

  /** The first load, which for a short run may have read less than the buffer holds. */
  lemma CursorStart(mem: seq<Value>, at: nat, size: nat, run: seq<Value>, block: seq<Value>)
    requires run != [] && size >= 1 && at + size <= |mem| && |block| <= size
    requires |block| >= Min(size, |run|) && block[..Min(size, |run|)] == run[..Min(size, |run|)]
    requires forall j :: 0 <= j < |block| ==> mem[at + j] == block[j]
    ensures CursorOk(mem, at, size, run, 0, 1, size)
  {
    forall m | 0 <= m < |run| && m < size ensures run[m] == mem[at + m] {
      assert block[..Min(size, |run|)][m] == run[..Min(size, |run|)][m];
    }
  }

  /** A reload happens only when the buffer is used up, and then `next` is exactly the next element. */
  lemma ReloadPoint(mem: seq<Value>, at: nat, size: nat, run: seq<Value>, c: nat, next: nat)
    requires CursorOk(mem, at, size, run, c, size, next) && c + 1 < |run|
    ensures next == c + 1
  {
  }

  /** The buffer freshly loaded with the run from `c` on. */
  lemma CursorLoaded(mem: seq<Value>, at: nat, size: nat, run: seq<Value>, c: nat, block: seq<Value>, next: nat)
    requires c < |run| && size >= 1 && at + size <= |mem|
    requires |block| == Min(size, |run| - c) && block == run[c..c + |block|] && next == c + |block|
    ensures CursorOk(Splice(mem, at, block), at, size, run, c, 1, next)
  {
    var mem' := Splice(mem, at, block);
    forall m | c <= m < |run| && m < c + size ensures run[m] == mem'[at + (m - c)] {
      assert block[m - c] == run[m];
    }
  }

  lemma PushInBuffer(mem: seq<Value>, at: nat, size: nat, run: seq<Value>, c: nat, push: nat, next: nat)
    requires CursorOk(mem, at, size, run, c, push, next)
    ensures push <= size
  {
  }

  /** Within a loaded buffer the next value is the next index. */
  lemma CursorNext(mem: seq<Value>, at: nat, size: nat, run: seq<Value>, c: nat, push: nat, next: nat)
    requires CursorOk(mem, at, size, run, c, push, next) && c + 1 < |run| && push < size
    ensures CursorOk(mem, at, size, run, c + 1, push + 1, next)
  {
  }

  /** The current value stands just before index `push`. */
  lemma CursorCurrent(mem: seq<Value>, at: nat, size: nat, run: seq<Value>, c: nat, push: nat, next: nat)
    requires CursorOk(mem, at, size, run, c, push, next)
    ensures c < |run| && 1 <= push <= size && at + size <= |mem| && run[c] == mem[at + (push - 1)]
  {
  }

  /** Only the buffer itself matters. */
  lemma CursorFrame(mem: seq<Value>, other: seq<Value>, at: nat, size: nat, run: seq<Value>, c: nat, push: nat, next: nat)
    requires CursorOk(mem, at, size, run, c, push, next) && |other| == |mem|
    requires forall j :: at <= j < at + size ==> other[j] == mem[j]
    ensures CursorOk(other, at, size, run, c, push, next)
  {
  }

  /** The buffers of the other runs are as they were. */
  lemma OthersKept(bases: seq<nat>, size: nat, mem: seq<Value>, other: seq<Value>, i: nat, j: nat,
                   run: seq<Value>, c: nat, push: nat, next: nat)
    requires i < |bases| && j < |bases| && j != i && |other| == |mem|
    requires forall a, b :: 0 <= a < b < |bases| ==> bases[a] + size <= bases[b]
    requires forall k :: 0 <= k < |mem| && !(bases[i] <= k < bases[i] + size) ==> other[k] == mem[k]
    requires CursorOk(mem, bases[j], size, run, c, push, next)
    ensures CursorOk(other, bases[j], size, run, c, push, next)
  {
    CursorFrame(mem, other, bases[j], size, run, c, push, next);
  }

  /** A read inside a run delivers that part of it. */
  lemma ReadOfRun(data: seq<Value>, start: nat, run: seq<Value>, c: nat, n: nat)
    requires start + |run| <= |data| && data[start..start + |run|] == run && c + n <= |run|
    ensures Prefix(data, c + start, n) == run[c..c + n]
  {
    var p := Prefix(data, c + start, n);
    assert |p| == n;
    forall j | 0 <= j < n ensures p[j] == run[c..c + n][j] {
      assert data[start..start + |run|][c + j] == data[c + start + j];
    }
  }

  /** A read from the start of a run delivers the run as far as it goes, whatever comes behind it. */
  lemma ReadOfStart(data: seq<Value>, start: nat, run: seq<Value>, size: nat)
    requires start + |run| <= |data| && data[start..start + |run|] == run
    ensures |Prefix(data, start, size)| >= Min(size, |run|)
    ensures Prefix(data, start, size)[..Min(size, |run|)] == run[..Min(size, |run|)]
  {
    var p, n := Prefix(data, start, size), Min(size, |run|);
    forall j | 0 <= j < n ensures p[j] == run[j] {
      assert data[start..start + |run|][j] == data[start + j];
    }
  }

  // ---------- the output buffer ----------

  /** Of everything put out, the first `full` values are in the file and the rest in `mem` from `at` on. */
  ghost predicate OutHolds(mem: seq<Value>, at: nat, count: nat, out: seq<Value>, data: seq<Value>, full: nat) {
    && at + count <= |mem| && full + count == |out| <= |data|
    && data[..full] == out[..full] && mem[at..at + count] == out[full..]
  }

  lemma PushOne(mem: seq<Value>, at: nat, count: nat, out: seq<Value>, data: seq<Value>, full: nat, v: Value)
    requires OutHolds(mem, at, count, out, data, full) && at + count < |mem| && |out| < |data|
    ensures OutHolds(mem[at + count := v], at, count + 1, out + [v], data, full)
  {
    assert mem[at + count := v][at..at + count + 1] == mem[at..at + count] + [v];
    assert (out + [v])[full..] == out[full..] + [v];
  }

  lemma FlushAll(mem: seq<Value>, at: nat, count: nat, out: seq<Value>, data: seq<Value>, full: nat)
    requires OutHolds(mem, at, count, out, data, full)
    ensures at + count <= |mem| && full + count <= |data|
    ensures OutHolds(mem, at, 0, out, Splice(data, full, mem[at..at + count]), full + count)
  {
    assert out == out[..full] + out[full..];
  }

  // ---------- where the runs lie ----------

  /** `fanIn` runs of `runSize` values from `base` on; the last one has `lastSize`. */
  datatype Layout = Layout(base: nat, runSize: nat, lastSize: nat, fanIn: nat) {
    function Start(i: nat): nat { base + runSize * i }

    function Size(i: nat): nat { if i + 1 == fanIn then lastSize else runSize }

    function Sizes(): (r: seq<nat>)
      ensures |r| == fanIn && forall i :: 0 <= i < fanIn ==> r[i] == Size(i)
    {
      seq(fanIn, (i: nat) => Size(i))
    }

    function Total(): nat { if fanIn == 0 then 0 else runSize * (fanIn - 1) + lastSize }
  }

  lemma RunFits(l: Layout, i: nat)
    requires i < l.fanIn
    ensures l.Start(i) + l.Size(i) <= l.base + l.Total()
  {
    if i + 1 < l.fanIn {
      assert l.runSize * (i + 1) == l.runSize * i + l.runSize;
      assert l.runSize * (i + 1) <= l.runSize * (l.fanIn - 1);
    }
  }

  ghost function RunAt(l: Layout, data: seq<Value>, i: nat): (r: seq<Value>)
    requires i < l.fanIn && l.base + l.Total() <= |data|
    ensures |r| == l.Size(i)
  {
    RunFits(l, i);
    data[l.Start(i)..l.Start(i) + l.Size(i)]
  }

  ghost function RunsOf(l: Layout, data: seq<Value>): (r: seq<seq<Value>>)
    requires l.base + l.Total() <= |data|
    ensures |r| == l.fanIn && forall i :: 0 <= i < l.fanIn ==> r[i] == RunAt(l, data, i)
  {
    seq(l.fanIn, i requires 0 <= i < l.fanIn => RunAt(l, data, i))
  }

  /** The runs together are the part of the file they cover. */
  lemma {:induction false} BagOfRuns(l: Layout, data: seq<Value>)
    requires l.fanIn >= 1 && l.base + l.Total() <= |data|
    ensures Bag(RunsOf(l, data)) == multiset(data[l.base..l.base + l.Total()])
    decreases l.fanIn
  {
    hide RunsOf, RunAt, Layout.Total;
    if l.fanIn == 1 {
      BagOfOneRun(l, data);
    } else {
      TailRuns(l, data);
      BagOfRuns(Tail(l), data);
      SplitBag(data, l.base, l.base + l.runSize, l.base + l.Total());
    }
  }

  lemma BagOfOneRun(l: Layout, data: seq<Value>)
    requires l.fanIn == 1 && l.base + l.Total() <= |data|
    ensures Bag(RunsOf(l, data)) == multiset(data[l.base..l.base + l.Total()])
  {
    var rs := RunsOf(l, data);
    assert rs[1..] == [];
    assert rs[0] == RunAt(l, data, 0) == data[l.base..l.base + l.Total()];
  }

  lemma SplitBag(data: seq<Value>, a: nat, b: nat, c: nat)
    requires a <= b <= c <= |data|
    ensures multiset(data[a..c]) == multiset(data[a..b]) + multiset(data[b..c])
  {
    assert data[a..c] == data[a..b] + data[b..c];
  }

  function Tail(l: Layout): Layout
    requires l.fanIn >= 1
  {
    Layout(l.base + l.runSize, l.runSize, l.lastSize, l.fanIn - 1)
  }

  lemma TailRuns(l: Layout, data: seq<Value>)
    requires l.fanIn >= 2 && l.base + l.Total() <= |data|
    ensures Tail(l).base + Tail(l).Total() == l.base + l.Total()
    ensures RunsOf(l, data)[1..] == RunsOf(Tail(l), data)
    ensures l.base + l.runSize <= l.base + l.Total() && RunsOf(l, data)[0] == data[l.base..l.base + l.runSize]
  {
    assert l.runSize * (l.fanIn - 1) == l.runSize * (l.fanIn - 2) + l.runSize;
    forall i | 0 <= i < l.fanIn - 1 ensures RunsOf(l, data)[1..][i] == RunsOf(Tail(l), data)[i] {
      assert l.runSize * (i + 1) == l.runSize * i + l.runSize;
      assert RunsOf(l, data)[i + 1] == RunAt(l, data, i + 1);
      assert RunAt(l, data, i + 1) == RunAt(Tail(l), data, i);
    }
  }

  /** Input buffers of a common size do not overlap each other or what comes after them. */
  lemma BuffersApart(i: nat, j: nat, size: nat)
    requires i < j
    ensures i * size + size <= j * size
  {
    assert (i + 1) * size == i * size + size;
    assert (i + 1) * size <= j * size;
  }

  function Bases(fanIn: nat, size: nat): (r: seq<nat>)
    ensures |r| == fanIn
    ensures forall i :: 0 <= i < fanIn ==> r[i] + size <= fanIn * size
    ensures forall i, j :: 0 <= i < j < fanIn ==> r[i] + size <= r[j]
  {
    var r := seq(fanIn, (i: nat) => i * size);
    assert forall i :: 0 <= i < fanIn ==> r[i] + size <= fanIn * size by {
      forall i | 0 <= i < fanIn ensures r[i] + size <= fanIn * size { BuffersApart(i, fanIn, size); }
    }
    assert forall i, j :: 0 <= i < j < fanIn ==> r[i] + size <= r[j] by {
      forall i, j | 0 <= i < j < fanIn ensures r[i] + size <= r[j] { BuffersApart(i, j, size); }
    }
    r
  }

  function Starts(l: Layout): (r: seq<nat>)
    ensures |r| == l.fanIn && forall i :: 0 <= i < l.fanIn ==> r[i] == l.Start(i)
  {
    seq(l.fanIn, (i: nat) => l.Start(i))
  }

  lemma RunsLie(l: Layout, data: seq<Value>)
    requires l.base + l.Total() <= |data|
    ensures forall i :: 0 <= i < l.fanIn ==>
      |RunsOf(l, data)[i]| == l.Size(i) && Starts(l)[i] + l.Size(i) <= |data|
      && data[Starts(l)[i]..Starts(l)[i] + l.Size(i)] == RunsOf(l, data)[i]
  {
    forall i | 0 <= i < l.fanIn
      ensures |RunsOf(l, data)[i]| == l.Size(i) && Starts(l)[i] + l.Size(i) <= |data|
        && data[Starts(l)[i]..Starts(l)[i] + l.Size(i)] == RunsOf(l, data)[i]
    {
      RunFits(l, i);
      assert RunsOf(l, data)[i] == RunAt(l, data, i);
    }
  }

  /** The runs without the values already put out. */
  ghost function RestsOf(runs: seq<seq<Value>>, remaining: seq<nat>): (r: seq<seq<Value>>)
    requires |remaining| == |runs| && forall i :: 0 <= i < |runs| ==> remaining[i] <= |runs[i]|
    ensures |r| == |runs| && forall i :: 0 <= i < |runs| ==> r[i] == runs[i][|runs[i]| - remaining[i]..]
  {
    seq(|runs|, i requires 0 <= i < |runs| => runs[i][|runs[i]| - remaining[i]..])
  }

  /** The counts of values left fit the runs. */
  ghost predicate Fits(runs: seq<seq<Value>>, remaining: seq<nat>) {
    |remaining| == |runs| && forall i :: 0 <= i < |runs| ==> remaining[i] <= |runs[i]|
  }

  /** The first value of run `i` not put out yet. */
  ghost function Head(runs: seq<seq<Value>>, remaining: seq<nat>, i: nat): Value
    requires Fits(runs, remaining) && i < |runs| && remaining[i] > 0
  {
    runs[i][|runs[i]| - remaining[i]]
  }

  class Merger {
    const source: File
    const target: File
    const layout: Layout
    const inSize: nat    // NUM_VALUE_INPUT_BUFFER
    const outSize: nat   // NUM_VALUE_OUTPUT_BUFFER
    const memory: array<Value>
    const bases: seq<nat>    // per run: where its input buffer starts
    const starts: seq<nat>   // per run: where it starts in the source
    var nextRead: seq<nat>   // per run: where the next load starts, relative to the run
    var nextPush: seq<nat>   // per run: the buffer index after the current value
    var remaining: seq<nat>  // per run: how many values have not been put out
    var outCount: nat
    var fullWrites: nat
    ghost const runs: seq<seq<Value>>
    ghost var out: seq<Value>  // everything put out so far

    function OutBase(): nat { layout.fanIn * inSize }

    /** The input buffers and the output buffer divide the memory among them. */
    ghost predicate Divided() {
      && memory.Length == OutBase() + outSize && inSize >= 1 && outSize >= 1
      && |bases| == layout.fanIn
      && (forall i :: 0 <= i < |bases| ==> bases[i] + inSize <= OutBase())
      && forall i, j :: 0 <= i < j < |bases| ==> bases[i] + inSize <= bases[j]
    }

    /** The source still holds the runs. */
    ghost predicate Shape()
      reads this`nextRead, this`nextPush, this`remaining, source
    {
      && source != target && layout.fanIn >= 1 && Divided()
      && |nextRead| == |nextPush| == |remaining| == |runs| == |starts| == layout.fanIn
      && (forall i :: 0 <= i < layout.fanIn ==>
            |runs[i]| == layout.Size(i) && starts[i] + |runs[i]| <= |source.data|
            && source.data[starts[i]..starts[i] + |runs[i]|] == runs[i])
      && forall i :: 0 <= i < layout.fanIn ==> remaining[i] <= |runs[i]|
    }

    /** How many values of run `i` were put out. */
    ghost function Done(i: nat): nat
      requires Shape() && i < layout.fanIn
      reads this`nextRead, this`nextPush, this`remaining, source
    {
      |runs[i]| - remaining[i]
    }

    ghost predicate BufferOk(i: nat)
      requires Shape() && i < layout.fanIn
      reads this`nextRead, this`nextPush, this`remaining, source, memory
    {
      remaining[i] > 0 ==> CursorOk(memory[..], bases[i], inSize, runs[i], Done(i), nextPush[i], nextRead[i])
    }

    /** What is left of the runs. */
    ghost function Rests(): (r: seq<seq<Value>>)
      requires Shape()
      reads this`nextRead, this`nextPush, this`remaining, source
      ensures |r| == layout.fanIn && forall i :: 0 <= i < layout.fanIn ==> r[i] == runs[i][Done(i)..]
    {
      RestsOf(runs, remaining)
    }

    ghost predicate Valid()
      reads this, source, target, memory
    {
      && Shape() && OutOk() && (forall i :: 0 <= i < layout.fanIn ==> BufferOk(i))
      && |target.data| == |Bag(runs)|
      && Merging(Bag(runs), out, Rests())
    }

    /** Takes the memory and divides it; nothing is loaded yet. */
    constructor (source: File, target: File, layout: Layout, inSize: nat, outSize: nat)
      requires source != target && layout.fanIn >= 1 && inSize >= 1 && outSize >= 1
      requires layout.base + layout.Total() <= |source.data|
      ensures fresh(memory) && this.source == source && this.target == target && this.layout == layout && this.inSize == inSize
      ensures Shape() && out == [] && outCount == 0 && fullWrites == 0 && runs == RunsOf(layout, source.data)
      ensures forall i :: 0 <= i < layout.fanIn ==> remaining[i] == |runs[i]| && nextPush[i] == 1 && nextRead[i] == inSize
    {
      this.source, this.target, this.layout, this.inSize, this.outSize := source, target, layout, inSize, outSize;
      memory := new Value[layout.fanIn * inSize + outSize];
      bases := Bases(layout.fanIn, inSize);
      starts := Starts(layout);
      nextRead := seq(layout.fanIn, _ => inSize);
      nextPush := seq(layout.fanIn, _ => 1);
      remaining := layout.Sizes();
      outCount, fullWrites := 0, 0;
      RunsLie(layout, source.data);
      runs := RunsOf(layout, source.data);
      out := [];
      new;
      hide RunsOf, RunAt;
    }

    /** Loads the beginning of every run. */
    method Begin()
      requires Shape() && out == [] && outCount == 0 && fullWrites == 0 && |target.data| == |Bag(runs)|
      requires forall i :: 0 <= i < layout.fanIn ==> Sorted(runs[i])
      requires forall i :: 0 <= i < layout.fanIn ==>
        remaining[i] == |runs[i]| >= 1 && nextPush[i] == 1 && nextRead[i] == inSize
      modifies memory
      ensures Valid()
      ensures source.data == old(source.data) && target.data == old(target.data)
    {
      hide Bag, CursorOk;
      LoadAll();
      assert Rests() == runs;
      assert multiset(out) + Bag(Rests()) == Bag(runs);
    }

    method LoadAll()
      requires Shape() && forall i :: 0 <= i < layout.fanIn ==>
        remaining[i] == |runs[i]| >= 1 && nextPush[i] == 1 && nextRead[i] == inSize
      modifies memory
      ensures Shape() && forall i :: 0 <= i < layout.fanIn ==> BufferOk(i)
    {
      for i := 0 to layout.fanIn
        invariant Shape() && forall j :: 0 <= j < i ==> BufferOk(j)
      {
        LoadFirst(i);
      }
    }

    /** The first load of run `i`; it may ask for more than the run, or the file, has. */
    method LoadFirst(i: nat)
      requires Shape() && i < layout.fanIn && layout.Size(i) >= 1
      requires remaining[i] == |runs[i]| && nextPush[i] == 1 && nextRead[i] == inSize
      requires forall j :: 0 <= j < i ==> BufferOk(j)
      modifies memory
      ensures Shape() && forall j :: 0 <= j < i + 1 ==> BufferOk(j)
    {
      hide CursorOk, Prefix;
      ghost var m := memory[..];
      ReadOfStart(source.data, starts[i], runs[i], inSize);
      source.ReadInto(starts[i], inSize, memory, bases[i]);
      CursorStart(memory[..], bases[i], inSize, runs[i], Prefix(source.data, starts[i], inSize));
      forall j | 0 <= j < i ensures BufferOk(j) {
        if remaining[j] > 0 {
          assert old(BufferOk(j));
          CursorFrame(m, memory[..], bases[j], inSize, runs[j], Done(j), nextPush[j], nextRead[j]);
        }
      }
    }

    ghost predicate OutOk()
      reads this`outCount, this`fullWrites, this`out, target, memory
    {
      && memory.Length == OutBase() + outSize && outCount < outSize
      && OutHolds(memory[..], OutBase(), outCount, out, target.data, fullWrites * outSize)
    }

    /** Appends to the output buffer and flushes it when it is full. */
    method Output(v: Value)
      requires OutOk() && |out| < |target.data|
      modifies this`outCount, this`fullWrites, this`out, memory, target
      ensures OutOk() && out == old(out) + [v]
      ensures |target.data| == |old(target.data)|
      ensures forall j :: 0 <= j < OutBase() ==> memory[j] == old(memory[j])
    {
      ghost var m := memory[..];
      PushOne(m, OutBase(), outCount, out, target.data, fullWrites * outSize, v);
      hide OutHolds, Splice;
      memory[OutBase() + outCount] := v;
      outCount := outCount + 1;
      out := out + [v];
      assert memory[..] == m[OutBase() + (outCount - 1) := v];
      if outCount == outSize {
        var block := memory[OutBase()..OutBase() + outSize];
        assert block == memory[..][OutBase()..OutBase() + outCount];
        assert (fullWrites + 1) * outSize == fullWrites * outSize + outSize;
        FlushAll(memory[..], OutBase(), outCount, out, target.data, fullWrites * outSize);
        target.Write(block, fullWrites * outSize);
        fullWrites := fullWrites + 1;
        outCount := 0;
      }
    }

    /** Loads the buffer of run `i` from `nextRead[i]` on; the last load of a run is cut to what is left. */
    method Load(i: nat)
      requires Shape() && i < layout.fanIn && nextRead[i] < |runs[i]|
      modifies this`nextRead, memory
      ensures Shape() && CursorOk(memory[..], bases[i], inSize, runs[i], old(nextRead[i]), 1, nextRead[i])
      ensures forall j :: 0 <= j < layout.fanIn && j != i ==> nextRead[j] == old(nextRead[j])
      ensures forall j :: 0 <= j < memory.Length && !(bases[i] <= j < bases[i] + inSize) ==> memory[j] == old(memory[j])
    {
      hide CursorOk;
      var c, size := nextRead[i], layout.Size(i);
      var n := if c + inSize >= size then size - c else inSize;
      ReadOfRun(source.data, starts[i], runs[i], c, n);
      CursorLoaded(memory[..], bases[i], inSize, runs[i], c, runs[i][c..c + n], c + n);
      source.ReadInto(c + starts[i], n, memory, bases[i]);
      nextRead := nextRead[i := c + n];
    }

    /** Moves on in run `i`, loading its next part when its buffer is used up; returns the index of the new current value. */
    method Advance(i: nat) returns (index: nat)
      requires Shape() && i < layout.fanIn && remaining[i] > 0 && Done(i) > 0
      requires CursorOk(memory[..], bases[i], inSize, runs[i], Done(i) - 1, nextPush[i], nextRead[i])
      modifies this`nextRead, this`nextPush, memory
      ensures Shape() && BufferOk(i) && nextPush[i] >= 1 && index == bases[i] + (nextPush[i] - 1)
      ensures forall j :: 0 <= j < layout.fanIn && j != i ==> nextRead[j] == old(nextRead[j]) && nextPush[j] == old(nextPush[j])
      ensures forall j :: 0 <= j < memory.Length && !(bases[i] <= j < bases[i] + inSize) ==> memory[j] == old(memory[j])
    {
      hide CursorOk;
      ghost var c := Done(i);
      if nextPush[i] == inSize {
        ReloadPoint(memory[..], bases[i], inSize, runs[i], c - 1, nextRead[i]);
        Load(i);
        nextPush := nextPush[i := 0];
      } else {
        PushInBuffer(memory[..], bases[i], inSize, runs[i], c - 1, nextPush[i], nextRead[i]);
        CursorNext(memory[..], bases[i], inSize, runs[i], c - 1, nextPush[i], nextRead[i]);
      }
      index := bases[i] + nextPush[i];
      nextPush := nextPush[i := nextPush[i] + 1];
    }

    /** The current value of a run that is not used up: it is the head of what is left of it. */
    function Current(i: nat): Value
      requires Shape() && i < layout.fanIn && 1 <= nextPush[i] <= inSize
      reads this, source, memory
    {
      memory[bases[i] + (nextPush[i] - 1)]
    }

    lemma CurrentIsHead(i: nat)
      requires Valid() && i < layout.fanIn && remaining[i] > 0
      ensures 1 <= nextPush[i] <= inSize && Rests()[i] != [] && Current(i) == Rests()[i][0] == Head(runs, remaining, i)
    {
      hide CursorOk, OutOk, Merging, Bag;
      assert BufferOk(i);
      CursorCurrent(memory[..], bases[i], inSize, runs[i], Done(i), nextPush[i], nextRead[i]);
      assert Rests()[i] == runs[i][Done(i)..];
    }

    /** The current value of run `i` is at index `at`. */
    ghost predicate IsCurrent(i: nat, at: nat)
      requires i < layout.fanIn && |bases| == |nextPush| == layout.fanIn
      reads this`nextPush
    {
      at + 1 == bases[i] + nextPush[i]
    }

    /** Reading there gives the head of the run. */
    lemma CurrentAt(i: nat, at: nat)
      requires Valid() && i < layout.fanIn && remaining[i] > 0 && IsCurrent(i, at)
      ensures at < memory.Length && memory[at] == Head(runs, remaining, i)
    {
      CurrentIsHead(i);
    }

    /**
      One round of either merge: the current value of run `i`, a least one, is put out, and the
      run moves on. Returns where its next value is, or None when the run is used up.
      */
    method Take(i: nat) returns (index: Option<nat>)
      requires Valid() && i < layout.fanIn && remaining[i] > 0
      requires forall j :: 0 <= j < layout.fanIn && remaining[j] > 0 ==> Head(runs, remaining, i) <= Head(runs, remaining, j)
      modifies this`nextRead, this`nextPush, this`remaining, this`outCount, this`fullWrites, this`out, memory, target
      ensures Valid() && remaining == old(remaining)[i := old(remaining[i]) - 1]
      ensures index.None? <==> remaining[i] == 0
      ensures index.Some? ==> IsCurrent(i, index.value)
      ensures forall j, at :: 0 <= j < layout.fanIn && j != i && old(IsCurrent(j, at)) ==> IsCurrent(j, at)
      ensures |out| == old(|out|) + 1 && |target.data| == old(|target.data|) && source.data == old(source.data)
    {
      hide CursorOk, Merging, Bag;
      PutOut(i);
      label put:
      index := None;
      if remaining[i] > 0 {
        ghost var m := memory[..];
        var at := Advance(i);
        index := Some(at);
        assert Rests() == old@put(Rests());
        assert memory[OutBase()..OutBase() + outCount] == old@put(memory[OutBase()..OutBase() + outCount]);
        forall j | 0 <= j < layout.fanIn ensures BufferOk(j) {
          if j != i && remaining[j] > 0 {
            assert old@put(BufferOk(j));
            OthersKept(bases, inSize, m, memory[..], i, j, runs[j], Done(j), nextPush[j], nextRead[j]);
          }
        }
      }
    }

    /** The current value of run `i` goes to the output; the run has not moved on yet. */
    method PutOut(i: nat)
      requires Valid() && i < layout.fanIn && remaining[i] > 0
      requires forall j :: 0 <= j < layout.fanIn && remaining[j] > 0 ==> Head(runs, remaining, i) <= Head(runs, remaining, j)
      modifies this`remaining, this`outCount, this`fullWrites, this`out, memory, target
      ensures Shape() && OutOk() && |target.data| == |Bag(runs)| && Merging(Bag(runs), out, Rests())
      ensures remaining == old(remaining)[i := old(remaining[i]) - 1]
      ensures |out| == old(|out|) + 1 && |target.data| == old(|target.data|) && source.data == old(source.data)
      ensures forall j :: 0 <= j < layout.fanIn && j != i ==> BufferOk(j)
      ensures remaining[i] > 0 ==> Done(i) > 0 && CursorOk(memory[..], bases[i], inSize, runs[i], Done(i) - 1, nextPush[i], nextRead[i])
    {
      hide CursorOk, Merging, OutOk, Bag;
      ghost var rests := Rests();
      Emit(i);
      ghost var mem, left := memory[..], remaining;
      forall j | 0 <= j < layout.fanIn && left[j] > 0
        ensures CursorOk(mem, bases[j], inSize, runs[j], |runs[j]| - left[j], nextPush[j], nextRead[j])
      {
        assert BufferOk(j);
      }
      remaining := remaining[i := remaining[i] - 1];
      assert Rests() == rests[i := rests[i][1..]];
      assert memory[..] == mem;
    }

    /** Puts the current value of run `i` out; the counts are not touched. */
    method Emit(i: nat)
      requires Valid() && i < layout.fanIn && remaining[i] > 0
      requires forall j :: 0 <= j < layout.fanIn && remaining[j] > 0 ==> Head(runs, remaining, i) <= Head(runs, remaining, j)
      modifies this`outCount, this`fullWrites, this`out, memory, target
      ensures Shape() && OutOk() && |target.data| == |Bag(runs)|
      ensures Rests()[i] != [] && Merging(Bag(runs), out, Rests()[i := Rests()[i][1..]])
      ensures |out| == old(|out|) + 1 && |target.data| == old(|target.data|) && source.data == old(source.data)
      ensures forall j :: 0 <= j < layout.fanIn ==> BufferOk(j)
    {
      hide CursorOk, Merging, OutOk, Bag;
      CurrentIsHead(i);
      ghost var m := memory[..];
      Room(i);
      LeastOfRests(i);
      Output(Current(i));
      forall j | 0 <= j < layout.fanIn ensures BufferOk(j) {
        if remaining[j] > 0 {
          assert old(BufferOk(j));
          CursorFrame(m, memory[..], bases[j], inSize, runs[j], Done(j), nextPush[j], nextRead[j]);
        }
      }
    }

    /** Taking the least head keeps what was merged a beginning of the whole. */
    lemma LeastOfRests(i: nat)
      requires Valid() && i < layout.fanIn && remaining[i] > 0
      requires forall j :: 0 <= j < layout.fanIn && remaining[j] > 0 ==> Head(runs, remaining, i) <= Head(runs, remaining, j)
      ensures Rests()[i] != []
      ensures Merging(Bag(runs), out + [Rests()[i][0]], Rests()[i := Rests()[i][1..]])
    {
      hide Merging, Bag, CursorOk, OutOk;
      var rests := Rests();
      assert forall j :: 0 <= j < layout.fanIn && rests[j] != [] ==> remaining[j] > 0 && rests[j][0] == Head(runs, remaining, j);
      TakeLeast(Bag(runs), out, rests, i);
    }

    lemma OutFits()
      requires Valid()
      ensures |out| <= |target.data|
    {
    }

    /** The output never has more values than the runs together. */
    lemma Room(i: nat)
      requires Valid() && i < layout.fanIn && remaining[i] > 0
      ensures |out| < |target.data|
    {
      CurrentIsHead(i);
      BagTake(Rests(), i);
      assert |multiset(out)| + |Bag(Rests())| == |Bag(runs)|;
    }

    /** Writes what is left in the output buffer; the file is then the sorted permutation of the runs. */
    method Finish()
      requires Valid() && forall i :: 0 <= i < layout.fanIn ==> remaining[i] == 0
      modifies target
      ensures Sorted(target.data) && multiset(target.data) == Bag(runs)
      ensures source.data == old(source.data)
    {
      hide Bag, Merging, CursorOk, Splice, Sorted;
      assert forall i :: 0 <= i < layout.fanIn ==> Rests()[i] == [];
      Merged(Bag(runs), out, Rests());
      assert |multiset(out)| == |Bag(runs)|;
      var size := |target.data|;
      var numFullWrite := size / outSize;
      QuotientIs(size, outSize, fullWrites, outCount);
      FlushRest(target.data, out, fullWrites * outSize);
      if size > outSize * numFullWrite {
        var block := memory[OutBase()..OutBase() + (size - outSize * numFullWrite)];
        assert block == out[fullWrites * outSize..];
        target.Write(block, fullWrites * outSize);
      }
      assert target.data == out;
    }
  }

  /** The full writes and the rest of the output buffer make the whole output. */
  lemma FlushRest(data: seq<Value>, out: seq<Value>, full: nat)
    requires full <= |data| == |out| && data[..full] == out[..full]
    ensures Splice(data, full, out[full..]) == out
    ensures full == |data| ==> data == out
  {
    assert out == out[..full] + out[full..];
    assert data == data[..full] + data[full..];
  }

  lemma QuotientIs(n: nat, d: nat, q: nat, r: nat)
    requires d > 0 && n == q * d + r && r < d
    ensures n / d == q && n - d * (n / d) == r
  {
    var k := n / d;
    assert n == k * d + n % d;
    Multiples(k, q, d);
    Multiples(q, k, d);
  }

  lemma Multiples(a: nat, b: nat, d: nat)
    ensures a < b ==> a * d + d <= b * d
  {
    if a < b {
      assert (a + 1) * d <= b * d;
    }
  }
}
