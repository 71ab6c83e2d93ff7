/**
  External merge sort: sorted runs in a temporary file, 2-way merge passes while the memory
  is too small for all runs, then one k-way merge into the output.
  Source: task-external-sort/src/external_sort.cc.
  */
module ExternalSort {
  import opened Collections
  import opened SortSpec
  import opened Memory
  import opened MergeBuffers

  // ---------- the priority queue of the k-way merge ----------

  /** Pairs compare by value, then by the index of the run. */
  predicate PairLe(a: (Value, nat), b: (Value, nat)) { a.0 < b.0 || (a.0 == b.0 && a.1 <= b.1) }

  lemma {:induction false} LeastPair(pq: set<(Value, nat)>)
    requires pq != {}
    ensures exists e :: e in pq && forall x :: x in pq ==> PairLe(e, x)
  {
    var e :| e in pq;
    var others := pq - {e};
    if others == {} {
      assert pq == others + {e};
      assert e in pq && forall x :: x in pq ==> PairLe(e, x);
    } else {
      LeastPair(others);
      var m :| m in others && forall x :: x in others ==> PairLe(m, x);
      var w := if PairLe(e, m) then e else m;
      assert forall x :: x in pq ==> x == e || x in others;
      assert w in pq && forall x :: x in pq ==> PairLe(w, x);
    }
  }

  /** The queue holds the current value of every run that is not used up. */
  ghost predicate HeadsIn(runs: seq<seq<Value>>, remaining: seq<nat>, pq: set<(Value, nat)>)
    requires Fits(runs, remaining)
  {
    && (forall e :: e in pq ==> e.1 < |runs| && remaining[e.1] > 0 && e.0 == Head(runs, remaining, e.1))
    && forall j :: 0 <= j < |runs| && remaining[j] > 0 ==> (Head(runs, remaining, j), j) in pq
  }

  /** Fills the queue with the first value of every run. */
  method FirstValues(m: Merger) returns (pq: set<(Value, nat)>)
    requires m.Valid() && forall i :: 0 <= i < m.layout.fanIn ==> m.remaining[i] > 0
    ensures HeadsIn(m.runs, m.remaining, pq)
  {
    hide Merger.OutOk, Merger.BufferOk, Merging, Merger.Rests, RunsOf, Head;
    pq := {};
    for i := 0 to m.layout.fanIn
      invariant forall e :: e in pq ==> e.1 < i && e.0 == Head(m.runs, m.remaining, e.1)
      invariant forall j :: 0 <= j < i ==> (Head(m.runs, m.remaining, j), j) in pq
    {
      m.CurrentIsHead(i);
      pq := pq + {(m.Current(i), i)};
    }
  }

  /** The queue after the popped run `i` moved on by one value. */
  lemma HeadsAfter(runs: seq<seq<Value>>, remaining: seq<nat>, pq: set<(Value, nat)>, top: (Value, nat), after: seq<nat>)
    requires Fits(runs, remaining) && HeadsIn(runs, remaining, pq) && top in pq
    requires after == remaining[top.1 := remaining[top.1] - 1]
    ensures Fits(runs, after)
    ensures after[top.1] == 0 ==> HeadsIn(runs, after, pq - {top})
    ensures after[top.1] > 0 ==> HeadsIn(runs, after, pq - {top} + {(Head(runs, after, top.1), top.1)})
  {
    var i, rest := top.1, pq - {top};
    forall e | e in rest ensures e.1 != i && after[e.1] == remaining[e.1] {
    }
    forall j | 0 <= j < |runs| && j != i && after[j] > 0 ensures (Head(runs, after, j), j) in rest {
      assert Head(runs, after, j) == Head(runs, remaining, j);
    }
  }

  /** Pops the least pair, puts its value out, and pushes the next value of its run. */
  method PopAndPush(m: Merger, pq: set<(Value, nat)>) returns (pq': set<(Value, nat)>)
    requires m.Valid() && HeadsIn(m.runs, m.remaining, pq) && pq != {}
    modifies m, m.memory, m.target
    ensures m.Valid() && HeadsIn(m.runs, m.remaining, pq')
    ensures |m.out| == old(|m.out|) + 1 && |m.target.data| == old(|m.target.data|) && m.source.data == old(m.source.data)
  {
    hide Merger.OutOk, Merger.BufferOk, Merging, Merger.Rests, RunsOf, Head, Bag, HeadsIn, PairLe;
    LeastPair(pq);
    var top :| top in pq && forall e :: e in pq ==> PairLe(top, e);
    var i := top.1;
    LeastIsHead(m.runs, m.remaining, pq, top);
    HeadsAfter(m.runs, m.remaining, pq, top, m.remaining[i := m.remaining[i] - 1]);
    hide Fits;
    var index := m.Take(i);
    pq' := pq - {top};
    if index.Some? {
      m.CurrentAt(i, index.value);
      var next: (Value, nat) := (m.memory[index.value], i);
      pq' := pq' + {next};
    }
  }

  /** The run of the least pair has a least head. */
  lemma LeastIsHead(runs: seq<seq<Value>>, remaining: seq<nat>, pq: set<(Value, nat)>, top: (Value, nat))
    requires Fits(runs, remaining) && HeadsIn(runs, remaining, pq) && top in pq && forall e :: e in pq ==> PairLe(top, e)
    ensures top.1 < |runs| && remaining[top.1] > 0
    ensures forall j :: 0 <= j < |runs| && remaining[j] > 0 ==> Head(runs, remaining, top.1) <= Head(runs, remaining, j)
  {
    forall j | 0 <= j < |runs| && remaining[j] > 0 ensures Head(runs, remaining, top.1) <= Head(runs, remaining, j) {
      assert PairLe(top, (Head(runs, remaining, j), j));
    }
  }

  /** Merges all runs through a priority queue. */
  method KWayMerge(m: Merger)
    requires m.Valid() && forall i :: 0 <= i < m.layout.fanIn ==> m.remaining[i] > 0
    modifies m, m.memory, m.target
    ensures Sorted(m.target.data) && multiset(m.target.data) == Bag(m.runs)
    ensures m.source.data == old(m.source.data)
  {
    var pq := FirstValues(m);
    while pq != {}
      invariant m.Valid() && HeadsIn(m.runs, m.remaining, pq)
      invariant m.source.data == old(m.source.data)
      decreases |m.target.data| - |m.out|
    {
      m.OutFits();
      pq := PopAndPush(m, pq);
    }
    m.Finish();
  }

  /** Merges two runs by comparing their current values; on a tie the second run goes first. */
  method TwoWayMerge(m: Merger)
    requires m.Valid() && m.layout.fanIn == 2 && m.remaining[0] > 0 && m.remaining[1] > 0
    requires m.nextPush[0] == m.nextPush[1] == 1
    modifies m, m.memory, m.target
    ensures Sorted(m.target.data) && multiset(m.target.data) == Bag(m.runs)
    ensures m.source.data == old(m.source.data)
  {
    hide Merger.OutOk, Merger.BufferOk, Merging, Merger.Rests, RunsOf, Head, Bag;
    var compare0, compare1 := Some(m.bases[0]), Some(m.bases[1]);
    while compare0.Some? || compare1.Some?
      invariant m.Valid() && (compare0.Some? <==> m.remaining[0] > 0) && (compare1.Some? <==> m.remaining[1] > 0)
      invariant compare0.Some? ==> m.IsCurrent(0, compare0.value)
      invariant compare1.Some? ==> m.IsCurrent(1, compare1.value)
      invariant m.source.data == old(m.source.data)
      decreases |m.target.data| - |m.out|
    {
      m.OutFits();
      if compare0.Some? {
        m.CurrentAt(0, compare0.value);
      }
      if compare1.Some? {
        m.CurrentAt(1, compare1.value);
      }
      if compare0.Some? && (compare1.None? || m.memory[compare0.value] < m.memory[compare1.value]) {
        compare0 := m.Take(0);
      } else {
        compare1 := m.Take(1);
      }
    }
    m.Finish();
  }

  // ---------- sorted runs ----------

  /** The file is cut into runs, each of them sorted; the last one may be longer than the others. */
  ghost predicate RunsSorted(l: Layout, data: seq<Value>) {
    && l.base == 0 && l.fanIn >= 1 && l.runSize >= 1 && l.lastSize >= 1 && l.Total() == |data|
    && forall i :: 0 <= i < l.fanIn ==> Sorted(RunAt(l, data, i))
  }

  /**
    Then every slice that sort_phase_done looks at is sorted. It cuts the file into slices of the
    run size, as many as that takes when rounded up, so it may cut a longer last run again.
    */
  lemma SortPhaseDone(l: Layout, data: seq<Value>, i: nat)
    requires RunsSorted(l, data) && i < (|data| - 1) / l.runSize + 1
    ensures l.runSize * i < |data| && Sorted(data[l.runSize * i..Min(l.runSize * i + l.runSize, |data|)])
  {
    DivBounds(|data| - 1, l.runSize);
    StartsGrow(l, i, (|data| - 1) / l.runSize);
    assert l.Start(i) == l.runSize * i < |data|;
    if i + 1 < l.fanIn {
      RunFits(l, i);
      assert data[l.Start(i)..l.Start(i) + l.Size(i)] == RunAt(l, data, i);
    } else {
      SliceOfLastRun(l, data, i);
    }
  }

  lemma SliceOfLastRun(l: Layout, data: seq<Value>, i: nat)
    requires RunsSorted(l, data) && l.fanIn <= i + 1 && l.Start(i) < |data|
    ensures Sorted(data[l.Start(i)..Min(l.Start(i) + l.runSize, |data|)])
  {
    var last := l.Start(l.fanIn - 1);
    RunFits(l, l.fanIn - 1);
    StartsGrow(l, l.fanIn - 1, i);
    assert RunAt(l, data, l.fanIn - 1) == data[last..] by {
      assert last + l.lastSize == |data|;
    }
    SliceSorted(data, last, l.Start(i), Min(l.Start(i) + l.runSize, |data|));
  }

  lemma SliceSorted(data: seq<Value>, a: nat, x: nat, y: nat)
    requires a <= x <= y <= |data| && Sorted(data[a..])
    ensures Sorted(data[x..y])
  {
    forall i, j | 0 <= i < j < y - x ensures data[x..y][i] <= data[x..y][j] {
      assert data[a..][x - a + i] <= data[a..][x - a + j];
    }
  }

  /** Runs do not overlap. */
  lemma RunsApart(l: Layout, i: nat, j: nat)
    requires i < j < l.fanIn
    ensures l.Start(i) + l.Size(i) <= l.Start(j)
  {
    assert l.runSize * (i + 1) == l.runSize * i + l.runSize;
    assert l.runSize * (i + 1) <= l.runSize * j;
  }

  /** A write outside a run leaves it as it is. */
  lemma RunKept(l: Layout, data: seq<Value>, at: nat, block: seq<Value>, i: nat)
    requires i < l.fanIn && l.base + l.Total() <= |data| && at + |block| <= |data|
    requires l.Start(i) + l.Size(i) <= at || at + |block| <= l.Start(i)
    ensures RunAt(l, Splice(data, at, block), i) == RunAt(l, data, i)
  {
    RunFits(l, i);
  }

  /** Sorts the input run by run into the temporary file. */
  method MakeRuns(input: File, n: nat, tmp: File, l: Layout)
    requires input != tmp && |input.data| >= n && |tmp.data| == n
    requires l.base == 0 && l.fanIn >= 1 && l.runSize >= 1 && 1 <= l.lastSize && l.Total() == n
    modifies tmp
    ensures RunsSorted(l, tmp.data) && multiset(tmp.data) == multiset(input.data[..n])
  {
    var offset := 0;
    for i := 0 to l.fanIn - 1
      invariant offset == l.Start(i) <= n && |tmp.data| == n && input.data == old(input.data)
      invariant forall j :: 0 <= j < i ==> Sorted(RunAt(l, tmp.data, j))
      invariant multiset(tmp.data[..offset]) == multiset(input.data[..offset])
    {
      RunFits(l, i);
      SortOneRun(input, tmp, l, i, offset);
      assert l.runSize * (i + 1) == l.runSize * i + l.runSize;
      offset := offset + l.runSize;
    }
    RunFits(l, l.fanIn - 1);
    SortOneRun(input, tmp, l, l.fanIn - 1, offset);
    assert tmp.data[..n] == tmp.data;
  }

  /** Reads run `i` of the input, sorts it and writes it to its place. */
  method SortOneRun(input: File, tmp: File, l: Layout, i: nat, offset: nat)
    requires input != tmp && l.base == 0 && i < l.fanIn && l.Total() == |tmp.data| <= |input.data|
    requires offset == l.Start(i) && offset + l.Size(i) <= |tmp.data|
    requires forall j :: 0 <= j < i ==> Sorted(RunAt(l, tmp.data, j))
    requires multiset(tmp.data[..offset]) == multiset(input.data[..offset])
    modifies tmp
    ensures |tmp.data| == |old(tmp.data)|
    ensures forall j :: 0 <= j < i + 1 ==> Sorted(RunAt(l, tmp.data, j))
    ensures multiset(tmp.data[..offset + l.Size(i)]) == multiset(input.data[..offset + l.Size(i)])
  {
    hide SortValues, Splice, Sorted;
    ghost var before := tmp.data;
    var block := input.Read(offset, l.Size(i));
    assert block == input.data[offset..offset + l.Size(i)];
    tmp.Write(SortValues(block), offset);
    forall j | 0 <= j < i ensures Sorted(RunAt(l, tmp.data, j)) {
      RunsApart(l, j, i);
      RunKept(l, before, offset, SortValues(block), j);
    }
    RunWritten(l, before, input.data, i, offset, block);
  }

  /** The run just written is sorted, and up to its end the file holds what the input holds. */
  lemma RunWritten(l: Layout, before: seq<Value>, input: seq<Value>, i: nat, offset: nat, block: seq<Value>)
    requires l.base == 0 && i < l.fanIn && l.Total() == |before| <= |input|
    requires offset == l.Start(i) && offset + l.Size(i) <= |before|
    requires block == input[offset..offset + l.Size(i)]
    requires multiset(before[..offset]) == multiset(input[..offset])
    ensures RunAt(l, Splice(before, offset, SortValues(block)), i) == SortValues(block)
    ensures var end := offset + l.Size(i);
            multiset(Splice(before, offset, SortValues(block))[..end]) == multiset(input[..end])
  {
    var sorted := SortValues(block);
    hide SortValues, Sorted, Layout.Start, Layout.Size, Layout.Total;
    WrittenPrefix(before, input, offset, block, sorted);
  }

  lemma WrittenPrefix(before: seq<Value>, input: seq<Value>, offset: nat, block: seq<Value>, sorted: seq<Value>)
    requires |sorted| == |block| && multiset(sorted) == multiset(block) && offset + |block| <= |before| <= |input|
    requires block == input[offset..offset + |block|] && multiset(before[..offset]) == multiset(input[..offset])
    ensures var after, end := Splice(before, offset, sorted), offset + |block|;
            after[offset..end] == sorted && multiset(after[..end]) == multiset(input[..end])
  {
    var after, end := Splice(before, offset, sorted), offset + |block|;
    assert after[..end] == before[..offset] + sorted;
    assert input[..end] == input[..offset] + block;
  }

  // ---------- 2-way merge passes ----------

  /** What a merge of the part [a, b) of the file does to it. */
  ghost predicate PartSorted(before: seq<Value>, after: seq<Value>, a: nat, b: nat) {
    && a <= b <= |before| == |after|
    && after[..a] == before[..a] && after[b..] == before[b..] && Sorted(after[a..b])
    && multiset(after) == multiset(before)
  }

  /** `block` is that part of `data`, sorted. */
  ghost predicate SortedPart(block: seq<Value>, data: seq<Value>, a: nat, b: nat) {
    a <= b <= |data| && Sorted(block) && multiset(block) == multiset(data[a..b])
  }

  /** Merges two neighbouring runs through an intermediate file and puts the result in their place. */
  method MergePair(tmp: File, mem: nat, l: Layout)
    requires mem >= 24 && l.fanIn == 2 && l.runSize >= 1 && l.lastSize >= 1 && l.base + l.Total() <= |tmp.data|
    requires Sorted(RunAt(l, tmp.data, 0)) && Sorted(RunAt(l, tmp.data, 1))
    modifies tmp
    ensures PartSorted(old(tmp.data), tmp.data, l.base, l.base + l.Total())
  {
    hide Sorted, SortedPart, PartSorted, Splice, RunAt;
    assert l.Total() == l.runSize + l.lastSize;
    hide Layout.Total;
    var intermediate := new File();
    intermediate.Resize(l.runSize + l.lastSize);
    MergeTwoRuns(tmp, intermediate, mem, l);
    assert tmp.data == old(tmp.data);
    var block := ReadAll(intermediate);
    PutBack(tmp, block, l.base, l.base + l.Total());
  }

  method ReadAll(file: File) returns (block: seq<Value>)
    ensures block == file.data
  {
    block := file.Read(0, |file.data|);
  }

  /** A part of the file is replaced by its sorted values. */
  method PutBack(tmp: File, block: seq<Value>, a: nat, b: nat)
    requires SortedPart(block, tmp.data, a, b)
    modifies tmp
    ensures PartSorted(old(tmp.data), tmp.data, a, b)
  {
    hide Sorted, PartSorted, Splice;
    PartReplaced(tmp.data, a, b, block);
    tmp.Write(block, a);
  }

  /** The 2-way merge of two runs into another file. */
  method MergeTwoRuns(tmp: File, target: File, mem: nat, l: Layout)
    requires tmp != target && mem >= 24 && l.fanIn == 2 && l.runSize >= 1 && l.lastSize >= 1
    requires l.base + l.Total() <= |tmp.data| && |target.data| == l.Total()
    requires Sorted(RunAt(l, tmp.data, 0)) && Sorted(RunAt(l, tmp.data, 1))
    modifies target
    ensures SortedPart(target.data, tmp.data, l.base, l.base + l.Total())
  {
    var inSize, outSize := TwoWaySizes(mem);
    assert forall i :: 0 <= i < 2 ==> Sorted(RunAt(l, tmp.data, i));
    hide RunAt;
    var m := BeginMerge(tmp, target, l, inSize, outSize);
    TwoWayMerge(m);
  }

  /** A third of the memory for each input buffer, the rest for the output buffer. */
  method TwoWaySizes(mem: nat) returns (inSize: nat, outSize: nat)
    requires mem >= 24
    ensures inSize >= 1 && outSize >= 1 && (2 * inSize + outSize) * 8 <= mem
  {
    inSize := (mem / 3) / 8;
    outSize := (mem - 2 * (inSize * 8)) / 8;
  }

  lemma PartReplaced(data: seq<Value>, a: nat, b: nat, block: seq<Value>)
    requires a <= b <= |data| && Sorted(block) && multiset(block) == multiset(data[a..b])
    ensures |block| == b - a && PartSorted(data, Splice(data, a, block), a, b)
  {
    assert |multiset(block)| == |multiset(data[a..b])|;
    assert data == data[..a] + data[a..b] + data[b..];
    assert Splice(data, a, block) == data[..a] + block + data[b..];
    assert Splice(data, a, block)[a..b] == block;
  }

  /** Sets up a merge of the runs of `l` into `target`, with the first parts of all runs loaded. */
  method BeginMerge(source: File, target: File, l: Layout, inSize: nat, outSize: nat) returns (m: Merger)
    requires source != target && l.fanIn >= 1 && inSize >= 1 && outSize >= 1 && l.runSize >= 1 && l.lastSize >= 1
    requires l.base + l.Total() <= |source.data| && |target.data| == l.Total()
    requires forall i :: 0 <= i < l.fanIn ==> Sorted(RunAt(l, source.data, i))
    ensures m.Valid() && fresh(m) && fresh(m.memory) && m.source == source && m.target == target && m.layout == l
    ensures forall i :: 0 <= i < l.fanIn ==> m.remaining[i] > 0 && m.nextPush[i] == 1
    ensures Bag(m.runs) == multiset(source.data[l.base..l.base + l.Total()])
  {
    BagOfRuns(l, source.data);
    m := new Merger(source, target, l, inSize, outSize);
    hide Bag;
    forall i | 0 <= i < l.fanIn ensures Sorted(m.runs[i]) && |m.runs[i]| >= 1 {
      assert m.runs[i] == RunAt(l, source.data, i);
    }
    assert |multiset(source.data[l.base..l.base + l.Total()])| == l.Total();
    m.Begin();
  }

  /** The layout after a pass: pairs of runs have become runs of twice the size. */
  function Doubled(l: Layout): Layout {
    Layout(0, 2 * l.runSize, if l.fanIn % 2 == 0 then l.runSize + l.lastSize else 2 * l.runSize + l.lastSize, l.fanIn / 2)
  }

  /** In the middle of a pass: `it` pairs are merged, the runs after them are still as they were. */
  ghost predicate MidPass(l: Layout, d: Layout, data: seq<Value>, it: nat) {
    && l.base == 0 && l.runSize >= 1 && l.lastSize >= 1 && l.fanIn >= 2 && l.Total() == |data|
    && d == Doubled(l) && it <= d.fanIn
    && (forall j :: 0 <= j < it ==> Sorted(RunOrNil(d, data, j)))
    && forall i :: 2 * it <= i < l.fanIn ==> Sorted(RunOrNil(l, data, i))
  }

  ghost function RunOrNil(l: Layout, data: seq<Value>, i: nat): seq<Value> {
    if i < l.fanIn && l.base + l.Total() <= |data| then RunAt(l, data, i) else []
  }

  lemma NextMultiple(a: nat, k: nat)
    ensures a * (k + 1) == a * k + a
  {
  }

  lemma TwiceAsWide(a: nat, k: nat)
    ensures (2 * a) * k == a * (2 * k)
  {
  }

  lemma DoubledTotal(l: Layout)
    requires l.fanIn >= 2
    ensures Doubled(l).Total() == l.Total() && Doubled(l).fanIn >= 1
  {
    var h := l.fanIn / 2;
    TwiceAsWide(l.runSize, h - 1);
    NextMultiple(l.runSize, 2 * (h - 1));
    if l.fanIn % 2 == 1 {
      NextMultiple(l.runSize, 2 * (h - 1) + 1);
      assert l.fanIn - 1 == 2 * (h - 1) + 2;
    } else {
      assert l.fanIn - 1 == 2 * (h - 1) + 1;
    }
  }

  /** Where the pair number `it` starts. */
  lemma PairStart(l: Layout, it: nat)
    requires it < l.fanIn / 2
    ensures Doubled(l).Start(it) == l.Start(2 * it) - l.base
  {
    TwiceAsWide(l.runSize, it);
  }

  lemma StartNext(l: Layout, i: nat)
    ensures l.Start(i + 1) == l.Start(i) + l.runSize
  {
    NextMultiple(l.runSize, i);
  }

  /** The last two of an odd number of runs become one run; then their number is even. */
  function LastTwoMerged(l: Layout): Layout
    requires l.fanIn >= 1
  {
    Layout(l.base, l.runSize, l.lastSize + l.runSize, l.fanIn - 1)
  }

  lemma MergedTotal(l: Layout)
    requires l.fanIn >= 2
    ensures LastTwoMerged(l).Total() == l.Total()
  {
    NextMultiple(l.runSize, l.fanIn - 2);
  }

  lemma MergedDoubles(l: Layout)
    requires l.fanIn >= 3 && l.fanIn % 2 == 1
    ensures Doubled(LastTwoMerged(l)) == Doubled(l)
  {
  }

  /** A part of the file outside of what a merge touched. */
  lemma OutsideKept(before: seq<Value>, after: seq<Value>, a: nat, b: nat, x: nat, y: nat)
    requires PartSorted(before, after, a, b) && x <= y <= |before| && (y <= a || b <= x)
    ensures after[x..y] == before[x..y]
  {
    forall k | x <= k < y ensures after[k] == before[k] {
      if y <= a {
        assert after[..a][k] == before[..a][k];
      } else {
        assert after[b..][k - b] == before[b..][k - b];
      }
    }
  }

  /** A round of a pass that merges pair `it`. */
  lemma PairMerged(l: Layout, d: Layout, before: seq<Value>, after: seq<Value>, it: nat)
    requires MidPass(l, d, before, it) && it < d.fanIn && (it + 1 < d.fanIn || l.fanIn % 2 == 0)
    requires PartSorted(before, after, d.Start(it), d.Start(it) + d.Size(it))
    ensures MidPass(l, d, after, it + 1)
  {
    DoubledTotal(l);
    RunFits(d, it);
    forall j | 0 <= j < it + 1 ensures Sorted(RunOrNil(d, after, j)) {
      if j < it {
        MergedPairKept(l, d, before, after, it, j);
      }
    }
    forall i | 2 * (it + 1) <= i < l.fanIn ensures Sorted(RunOrNil(l, after, i)) {
      hide Sorted, RunOrNil, PartSorted, Layout.Total, Layout.Start, Layout.Size, Doubled;
      RunToComeKept(l, d, before, after, it, i);
    }
  }

  lemma MergedPairKept(l: Layout, d: Layout, before: seq<Value>, after: seq<Value>, it: nat, j: nat)
    requires d.base == 0 && it < d.fanIn && j < it && d.Total() == |before|
    requires PartSorted(before, after, d.Start(it), d.Start(it) + d.Size(it))
    ensures RunOrNil(d, after, j) == RunOrNil(d, before, j)
  {
    hide Sorted;
    RunFits(d, j);
    RunsApart(d, j, it);
    OutsideKept(before, after, d.Start(it), d.Start(it) + d.Size(it), d.Start(j), d.Start(j) + d.Size(j));
  }

  lemma RunToComeKept(l: Layout, d: Layout, before: seq<Value>, after: seq<Value>, it: nat, i: nat)
    requires l.base == 0 && l.Total() == |before| && d == Doubled(l) && it < d.fanIn
    requires it + 1 < d.fanIn || l.fanIn % 2 == 0
    requires PartSorted(before, after, d.Start(it), d.Start(it) + d.Size(it))
    requires 2 * (it + 1) <= i < l.fanIn
    ensures RunOrNil(l, after, i) == RunOrNil(l, before, i)
  {
    hide Sorted;
    RunFits(l, i);
    PairEnd(l, it, i);
    OutsideKept(before, after, d.Start(it), d.Start(it) + d.Size(it), l.Start(i), l.Start(i) + l.Size(i));
  }

  /** A run after a pair starts where the pair ends or later. */
  lemma PairEnd(l: Layout, it: nat, i: nat)
    requires l.base == 0 && it < l.fanIn / 2 && 2 * (it + 1) <= i < l.fanIn && (it + 1 < l.fanIn / 2 || l.fanIn % 2 == 0)
    ensures Doubled(l).Start(it) + Doubled(l).Size(it) <= l.Start(i)
  {
    PairStart(l, it);
    StartNext(l, 2 * it);
    StartNext(l, 2 * it + 1);
    StartsGrow(l, 2 * it + 2, i);
  }

  lemma StartsGrow(l: Layout, i: nat, j: nat)
    requires i <= j
    ensures l.Start(i) <= l.Start(j)
  {
    assert l.runSize * i <= l.runSize * j;
  }

  /** The round that merges the last two of an odd number of runs. */
  lemma OddMerged(l: Layout, d: Layout, before: seq<Value>, after: seq<Value>, it: nat)
    requires MidPass(l, d, before, it) && it + 1 == d.fanIn && l.fanIn % 2 == 1
    requires PartSorted(before, after, l.Start(l.fanIn - 2), |before|)
    ensures MidPass(LastTwoMerged(l), d, after, it)
  {
    DoubledTotal(l);
    MergedTotal(l);
    MergedDoubles(l);
    var n := LastTwoMerged(l);
    forall j | 0 <= j < it ensures Sorted(RunOrNil(d, after, j)) {
      hide Sorted, RunOrNil, PartSorted, Layout.Total, Layout.Start, Doubled, LastTwoMerged;
      PairBeforeKept(l, d, before, after, it, j);
    }
    forall i | 2 * it <= i < n.fanIn ensures Sorted(RunOrNil(n, after, i)) {
      LastRunMerged(l, before, after);
    }
  }

  lemma PairBeforeKept(l: Layout, d: Layout, before: seq<Value>, after: seq<Value>, it: nat, j: nat)
    requires l.base == 0 && l.fanIn >= 3 && d == Doubled(l) && d.Total() == |before|
    requires it + 1 == d.fanIn && l.fanIn % 2 == 1 && j < it
    requires PartSorted(before, after, l.Start(l.fanIn - 2), |before|)
    ensures RunOrNil(d, after, j) == RunOrNil(d, before, j)
  {
    hide Sorted;
    RunFits(d, j);
    RunsApart(d, j, it);
    PairStart(l, it);
    StartNext(l, 2 * it);
    OutsideKept(before, after, l.Start(l.fanIn - 2), |before|, d.Start(j), d.Start(j) + d.Size(j));
  }

  /** Of the runs still to come one stays as it is, and the last two are the part that was sorted. */
  lemma LastRunMerged(l: Layout, before: seq<Value>, after: seq<Value>)
    requires l.base == 0 && l.fanIn >= 3 && l.Total() == |before|
    requires PartSorted(before, after, l.Start(l.fanIn - 2), |before|)
    ensures RunOrNil(LastTwoMerged(l), after, l.fanIn - 3) == RunOrNil(l, before, l.fanIn - 3)
    ensures Sorted(RunOrNil(LastTwoMerged(l), after, l.fanIn - 2))
  {
    var n := LastTwoMerged(l);
    MergedTotal(l);
    RunFits(l, l.fanIn - 3);
    RunFits(n, n.fanIn - 1);
    RunsApart(l, l.fanIn - 3, l.fanIn - 2);
    OutsideKept(before, after, l.Start(l.fanIn - 2), |before|, l.Start(l.fanIn - 3), l.Start(l.fanIn - 3) + l.runSize);
    assert n.Start(n.fanIn - 1) + n.Size(n.fanIn - 1) == |before|;
  }

  /** The two runs that a round merges: runs `i` and `i+1`, the second with the size it really has. */
  function TwoRuns(l: Layout, i: nat): Layout
  {
    Layout(l.runSize * i, l.runSize, l.Size(i + 1), 2)
  }

  lemma TwoRunsAre(l: Layout, data: seq<Value>, i: nat)
    requires l.base == 0 && i + 1 < l.fanIn && l.Total() <= |data|
    ensures TwoRuns(l, i).base + TwoRuns(l, i).Total() == l.Start(i + 1) + l.Size(i + 1) <= l.Total()
    ensures RunAt(TwoRuns(l, i), data, 0) == RunAt(l, data, i) && RunAt(TwoRuns(l, i), data, 1) == RunAt(l, data, i + 1)
  {
    TwoRunsPlaces(l, i);
    RunFits(l, i + 1);
    hide TwoRuns, Layout.Start, Layout.Size, Layout.Total;
  }

  lemma TwoRunsPlaces(l: Layout, i: nat)
    requires l.base == 0 && i + 1 < l.fanIn
    ensures var r := TwoRuns(l, i);
            && r.fanIn == 2 && r.Start(0) == l.Start(i) && r.Size(0) == l.Size(i)
            && r.Start(1) == l.Start(i + 1) && r.Size(1) == l.Size(i + 1)
            && r.base + r.Total() == l.Start(i + 1) + l.Size(i + 1)
  {
    StartNext(l, i);
  }

  /** One round of a pass on pair `it`; with an odd number of runs left in the last pair, its last two runs. */
  method Round(tmp: File, mem: nat, l: Layout, ghost d: Layout, it: nat) returns (l': Layout, it': nat)
    requires mem >= 24 && MidPass(l, d, tmp.data, it) && it < d.fanIn
    modifies tmp
    ensures MidPass(l', d, tmp.data, it') && multiset(tmp.data) == multiset(old(tmp.data)) && |tmp.data| == |old(tmp.data)|
    ensures l'.runSize == l.runSize && l'.fanIn / 2 == l.fanIn / 2 && (it' == d.fanIn ==> l'.fanIn % 2 == 0)
    ensures (it' == it + 1 && l' == l) || (it' == it && l.fanIn % 2 == 1 && l' == LastTwoMerged(l))
  {
    var isLast := it == l.fanIn / 2 - 1;
    var odd := isLast && l.fanIn % 2 != 0;
    var i := if odd then 2 * it + 1 else 2 * it;
    assert l.fanIn >= 2 && it < l.fanIn / 2 == d.fanIn && i + 1 < l.fanIn && d == Doubled(l);
    PairReady(l, d, tmp.data, it, i);
    ghost var before := tmp.data;
    hide MidPass, RunAt, Layout.Total, Layout.Start, Layout.Size;
    MergePair(tmp, mem, TwoRuns(l, i));
    if odd {
      OddMerged(l, d, before, tmp.data, it);
      l', it' := LastTwoMerged(l), it;
    } else {
      PairMerged(l, d, before, tmp.data, it);
      l', it' := l, it + 1;
    }
  }

  /** The two runs that a round merges are sorted, and cover the pair or the end of the file. */
  lemma PairReady(l: Layout, d: Layout, data: seq<Value>, it: nat, i: nat)
    requires MidPass(l, d, data, it) && it < d.fanIn && i + 1 < l.fanIn
    requires i == if it + 1 == d.fanIn && l.fanIn % 2 == 1 then 2 * it + 1 else 2 * it
    ensures TwoRuns(l, i).fanIn == 2 && TwoRuns(l, i).runSize >= 1 && TwoRuns(l, i).lastSize >= 1
    ensures TwoRuns(l, i).base + TwoRuns(l, i).Total() <= |data|
    ensures Sorted(RunAt(TwoRuns(l, i), data, 0)) && Sorted(RunAt(TwoRuns(l, i), data, 1))
    ensures i == 2 * it ==> TwoRuns(l, i).base == d.Start(it) && TwoRuns(l, i).Total() == d.Size(it)
    ensures i == 2 * it + 1 ==> TwoRuns(l, i).base == l.Start(l.fanIn - 2) && TwoRuns(l, i).base + TwoRuns(l, i).Total() == |data|
  {
    hide Sorted;
    assert RunOrNil(l, data, i) == RunAt(l, data, i);
    assert RunOrNil(l, data, i + 1) == RunAt(l, data, i + 1);
    TwoRunsAre(l, data, i);
    hide RunAt, RunOrNil;
    if i == 2 * it {
      PairStart(l, it);
      PairSize(l, it);
    }
  }

  lemma PairSize(l: Layout, it: nat)
    requires l.base == 0 && it < l.fanIn / 2 && (it + 1 < l.fanIn / 2 || l.fanIn % 2 == 0)
    ensures TwoRuns(l, 2 * it).Total() == Doubled(l).Size(it)
  {
  }

  /** Merges pairs of runs, pass by pass, until at most two runs are left. */
  method NotFullWayMerge(tmp: File, mem: nat, runs: Layout) returns (l: Layout)
    requires mem >= 24 && RunsSorted(runs, tmp.data)
    modifies tmp
    ensures RunsSorted(l, tmp.data) && l.fanIn <= 2
    ensures multiset(tmp.data) == multiset(old(tmp.data)) && |tmp.data| == |old(tmp.data)|
  {
    l := runs;
    while l.fanIn > 2
      invariant RunsSorted(l, tmp.data)
      invariant multiset(tmp.data) == multiset(old(tmp.data)) && |tmp.data| == |old(tmp.data)|
      decreases l.fanIn
    {
      l := Pass(tmp, mem, l);
    }
  }

  /** One pass over all runs halves their number. */
  method Pass(tmp: File, mem: nat, runs: Layout) returns (l: Layout)
    requires mem >= 24 && RunsSorted(runs, tmp.data) && runs.fanIn > 2
    modifies tmp
    ensures RunsSorted(l, tmp.data) && l.fanIn == runs.fanIn / 2
    ensures multiset(tmp.data) == multiset(old(tmp.data)) && |tmp.data| == |old(tmp.data)|
  {
    l := runs;
    ghost var d := Doubled(runs);
    DoubledTotal(runs);
    var numIterations := l.fanIn / 2;
    var it := 0;
    PassStart(runs, tmp.data);
    hide RunsSorted;
    while it < numIterations
      invariant MidPass(l, d, tmp.data, it) && l.fanIn / 2 == numIterations && (it == numIterations ==> l.fanIn % 2 == 0)
      invariant multiset(tmp.data) == multiset(old(tmp.data)) && |tmp.data| == |old(tmp.data)|
      decreases numIterations - it, l.fanIn % 2
    {
      l, it := Round(tmp, mem, l, d, it);
    }
    PassEnd(l, d, tmp.data);
    l := Layout(0, l.runSize * 2, l.lastSize + l.runSize, l.fanIn / 2);
  }

  lemma PassStart(l: Layout, data: seq<Value>)
    requires RunsSorted(l, data) && l.fanIn >= 2
    ensures MidPass(l, Doubled(l), data, 0)
  {
    forall i | 0 <= i < l.fanIn ensures Sorted(RunOrNil(l, data, i)) {
      assert RunOrNil(l, data, i) == RunAt(l, data, i);
    }
  }

  lemma PassEnd(l: Layout, d: Layout, data: seq<Value>)
    requires MidPass(l, d, data, d.fanIn) && l.fanIn % 2 == 0
    ensures d == Layout(0, l.runSize * 2, l.lastSize + l.runSize, l.fanIn / 2) && RunsSorted(d, data)
  {
    DoubledTotal(l);
    forall i | 0 <= i < d.fanIn ensures Sorted(RunAt(d, data, i)) {
      assert RunOrNil(d, data, i) == RunAt(d, data, i);
    }
  }

  // ---------- the whole sort ----------

  /** A file in memory: sorted and written back. */
  method InMemorySort(input: File, n: nat, output: File)
    requires input != output && n <= |input.data| && |output.data| == n
    modifies output
    ensures Sorted(output.data) && multiset(output.data) == multiset(input.data[..n])
  {
    var block := input.Read(0, n);
    assert block == input.data[..n];
    output.Write(SortValues(block), 0);
    assert output.data == SortValues(block);
  }

  /** The run count and sizes the code computes in bytes, in values. */
  lemma RunCount(n: nat, mem: nat)
    requires mem % 8 == 0 && mem >= 8 && n * 8 > mem
    ensures var numRuns := (n * 8 - 1) / mem + 1;
      var last := if n * 8 == numRuns * mem then mem else n * 8 - (numRuns - 1) * mem;
      && numRuns >= 2 && 0 < last <= mem && last % 8 == 0
      && Layout(0, mem / 8, last / 8, numRuns).Total() == n
  {
    var m, q := mem / 8, (n * 8 - 1) / mem;
    DivBounds(n * 8 - 1, mem);
    ProductOfBytes(q, mem, m);
    NextMultiple(mem, q);
    assert q == 0 ==> m * q == 0;
    RunBytes(n, m, q, m * q);
    assert (q + 1) * mem == 8 * (m * q + m) && (q + 1 - 1) * mem == 8 * (m * q);
  }

  /** The same with the `p` values of all runs but the last. */
  lemma RunBytes(n: nat, m: nat, q: nat, p: nat)
    requires m >= 1 && n > m && 8 * p <= n * 8 - 1 < 8 * p + 8 * m && (q == 0 ==> p == 0)
    ensures q >= 1
    ensures var last := if n * 8 == 8 * (p + m) then 8 * m else n * 8 - 8 * p;
            0 < last <= 8 * m && last % 8 == 0 && p + last / 8 == n
  {
  }

  lemma ProductOfBytes(q: nat, mem: nat, m: nat)
    requires mem == 8 * m
    ensures q * mem == 8 * (m * q) == mem * q && (q + 1) * mem == mem * (q + 1)
  {
    assert q * (8 * m) == 8 * (q * m);
    assert q * m == m * q;
  }

  lemma DivBounds(a: nat, b: nat)
    requires b > 0
    ensures (a / b) * b <= a < (a / b) * b + b
  {
    assert a == (a / b) * b + a % b;
  }

  /** The memory split among `k` input buffers and the output buffer. */
  method KWaySizes(mem: nat, k: nat) returns (inSize: nat, outSize: nat)
    requires k >= 1 && (mem / (k + 1)) / 8 >= 1
    ensures inSize >= 1 && outSize >= 1 && k * (inSize * 8) + outSize * 8 <= mem
    ensures mem < (k + 1) * ((inSize + 1) * 8) && mem < k * (inSize * 8) + (outSize + 1) * 8
  {
    inSize := (mem / (k + 1)) / 8;
    SharesFit(mem, k, mem / (k + 1), inSize * 8);
    SharesFill(mem, k, mem / (k + 1), (inSize + 1) * 8);
    outSize := (mem - k * (inSize * 8)) / 8;
  }

  /** `k` blocks no larger than a (k + 1)-th of the memory leave one block over. */
  lemma SharesFit(mem: nat, k: nat, q: nat, block: nat)
    requires q == mem / (k + 1) && block <= q
    ensures k * block + q <= mem
  {
    DivBounds(mem, k + 1);
    TimesSuccessor(k, q);
    TimesMonotone(k, block, q);
  }

  /** Larger blocks do not fit once more than so often. */
  lemma SharesFill(mem: nat, k: nat, q: nat, block: nat)
    requires q == mem / (k + 1) && q < block
    ensures mem < (k + 1) * block
  {
    DivBounds(mem, k + 1);
    TimesMonotone(k + 1, q + 1, block);
    assert (k + 1) * (q + 1) == q * (k + 1) + (k + 1);
  }

  lemma TimesSuccessor(k: nat, q: nat)
    ensures q * (k + 1) == k * q + q
  {
  }

  lemma TimesMonotone(k: nat, a: nat, b: nat)
    requires a <= b
    ensures k * a <= k * b
  {
  }

  /** With at most two runs a memory of three values is enough. */
  lemma FewRunsFit(mem: nat, k: nat)
    requires mem >= 24 && 1 <= k <= 2
    ensures (mem / (k + 1)) / 8 >= 1
  {
  }

  /**
    The output file receives the first `n` values of the input, sorted, for every `n` and every
    memory size that is a multiple of 8 and holds the whole input or at least three values.
    */
  method Sort(input: File, n: nat, output: File, mem: nat)
    requires mem % 8 == 0 && input != output && n <= |input.data|
    requires n * 8 <= mem || mem >= 24
    modifies output
    ensures |output.data| == n && Sorted(output.data) && multiset(output.data) == multiset(input.data[..n])
  {
    output.Resize(n);
    if n == 0 {
      assert input.data[..n] == [] && output.data == [];
      return;
    }
    if n * 8 <= mem {
      InMemorySort(input, n, output);
    } else {
      MergeSort(input, n, output, mem);
    }
    assert |multiset(output.data)| == |multiset(input.data[..n])|;
  }

  /** How the input is cut into runs of the size of the memory. */
  method FirstRuns(n: nat, mem: nat) returns (l: Layout)
    requires mem % 8 == 0 && n * 8 > mem >= 24
    ensures l.base == 0 && l.fanIn >= 2 && l.runSize == mem / 8 >= 1 && 1 <= l.lastSize <= l.runSize && l.Total() == n
  {
    RunCount(n, mem);
    var numRuns := (n * 8 - 1) / mem + 1;
    var lastRunSize := if n * 8 == numRuns * mem then mem else n * 8 - (numRuns - 1) * mem;
    l := Layout(0, mem / 8, lastRunSize / 8, numRuns);
  }

  method MergeSort(input: File, n: nat, output: File, mem: nat)
    requires mem % 8 == 0 && input != output && n <= |input.data| && n * 8 > mem >= 24 && |output.data| == n
    modifies output
    ensures Sorted(output.data) && multiset(output.data) == multiset(input.data[..n])
  {
    hide RunsSorted, Sorted;
    var l := FirstRuns(n, mem);
    var tmp := new File();
    tmp.Resize(n);
    MakeRuns(input, n, tmp, l);
    if (mem / (l.fanIn + 1)) / 8 == 0 {
      l := NotFullWayMerge(tmp, mem, l);
      FewRunsFit(mem, l.fanIn);
    }
    FinalMerge(tmp, output, mem, l);
  }

  method FinalMerge(tmp: File, output: File, mem: nat, l: Layout)
    requires tmp != output && RunsSorted(l, tmp.data) && |output.data| == |tmp.data| && (mem / (l.fanIn + 1)) / 8 >= 1
    modifies output
    ensures Sorted(output.data) && multiset(output.data) == multiset(tmp.data)
  {
    assert tmp.data[l.base..l.base + l.Total()] == tmp.data;
    hide RunAt;
    var inSize, outSize := KWaySizes(mem, l.fanIn);
    var m := BeginMerge(tmp, output, l, inSize, outSize);
    KWayMerge(m);
  }
}
