/**
  The order in which compaction visits the records and what is true half way through it.
  Source: task-slotted-pages/src/slotted_page/slotted_page.cc, compactify.
  Here `slots` and `data` are the page before compaction, `s` and `d` the page now.
 */
module Compaction {
  import opened Memory
  import opened PageLayout

  function SizesOf(slots: seq<Slot>, ids: seq<nat>): nat
    requires forall k :: 0 <= k < |ids| ==> ids[k] < |slots|
  {
    if ids == [] then 0 else SizesOf(slots, ids[..|ids| - 1]) + SizeOf(slots[ids[|ids| - 1]])
  }

  /** `ids` are records among the first `n` slots. */
  ghost predicate Listed(slots: seq<Slot>, n: nat, ids: seq<nat>) {
    && n <= |slots|
    && forall k :: 0 <= k < |ids| ==> ids[k] < n && slots[ids[k]].Record? && 0 < slots[ids[k]].size
  }

  ghost predicate Below(a: Slot, b: Slot) {
    a.Record? && b.Record? && a.offset + a.size <= b.offset
  }

  /** Each record of the first `n` slots is listed, the one nearest to the end of the page first. */
  ghost predicate Descending(slots: seq<Slot>, n: nat, ids: seq<nat>) {
    && Listed(slots, n, ids)
    && (forall i :: 0 <= i < n && slots[i].Record? ==> i in ids)
    && (forall a, b :: 0 <= a < b < |ids| ==> Below(slots[ids[b]], slots[ids[a]]))
  }

  lemma {:induction false} SizesInsert(slots: seq<Slot>, ids: seq<nat>, p: nat, id: nat)
    requires p <= |ids| && id < |slots| && forall k :: 0 <= k < |ids| ==> ids[k] < |slots|
    ensures SizesOf(slots, ids[..p] + [id] + ids[p..]) == SizesOf(slots, ids) + SizeOf(slots[id])
  {
    var r := ids[..p] + [id] + ids[p..];
    if p == |ids| {
      assert r[..|r| - 1] == ids;
    } else {
      var m := |ids| - 1;
      var q := ids[..m];
      assert q[..p] == ids[..p] && ids[p..] == q[p..] + [ids[m]];
      assert r[..|r| - 1] == q[..p] + [id] + q[p..] && r[|r| - 1] == ids[m];
      SizesInsert(slots, q, p, id);
    }
  }

  /** The records of a page, the one nearest to the end first (slotted_page.cc:172-191). */
  method Order(slots: seq<Slot>, ghost low: nat, ghost pageSize: nat) returns (ids: seq<nat>)
    requires Placed(slots, low, pageSize)
    ensures Descending(slots, |slots|, ids)
    ensures SizesOf(slots, ids) == LiveSum(slots)
  {
    ids := [];
    var i := 0;
    while i < |slots|
      invariant i <= |slots|
      invariant Descending(slots, i, ids)
      invariant SizesOf(slots, ids) == LiveSum(slots[..i])
    {
      assert slots[..i + 1][..i] == slots[..i];
      ids := Put(slots, i, ids, low, pageSize);
      i := i + 1;
    }
    assert slots[..i] == slots;
  }

  /** Takes one more slot into the order. */
  method Put(slots: seq<Slot>, i: nat, ids: seq<nat>, ghost low: nat, ghost pageSize: nat) returns (r: seq<nat>)
    requires i < |slots| && Placed(slots, low, pageSize)
    requires Descending(slots, i, ids)
    ensures Descending(slots, i + 1, r)
    ensures SizesOf(slots, r) == SizesOf(slots, ids) + SizeOf(slots[i])
  {
    if !slots[i].Record? {
      r := ids;
      return;
    }
    var p := 0;
    while p < |ids| && slots[ids[p]].offset > slots[i].offset
      invariant p <= |ids|
      invariant forall k :: 0 <= k < p ==> slots[ids[k]].offset > slots[i].offset
    {
      p := p + 1;
    }
    r := ids[..p] + [i] + ids[p..];
    PutDescending(slots, i, ids, p, low, pageSize);
    SizesInsert(slots, ids, p, i);
  }

  lemma PutBetween(slots: seq<Slot>, i: nat, ids: seq<nat>, p: nat, low: nat, pageSize: nat, k: nat)
    requires i < |slots| && Placed(slots, low, pageSize)
    requires Descending(slots, i, ids)
    requires slots[i].Record? && p <= |ids| && k < |ids|
    requires forall k :: 0 <= k < p ==> slots[ids[k]].offset > slots[i].offset
    requires p < |ids| ==> slots[ids[p]].offset <= slots[i].offset
    ensures if k < p then Below(slots[i], slots[ids[k]]) else Below(slots[ids[k]], slots[i])
  {
    assert Apart(slots[ids[k]], slots[i]) && Inside(slots[ids[k]], low, pageSize) && Inside(slots[i], low, pageSize);
    if p < k {
      assert Below(slots[ids[k]], slots[ids[p]]);
    }
  }

  lemma PutPair(slots: seq<Slot>, i: nat, ids: seq<nat>, p: nat, low: nat, pageSize: nat, a: nat, b: nat)
    requires i < |slots| && Placed(slots, low, pageSize)
    requires Descending(slots, i, ids)
    requires slots[i].Record? && p <= |ids| && a < b <= |ids|
    requires forall k :: 0 <= k < p ==> slots[ids[k]].offset > slots[i].offset
    requires p < |ids| ==> slots[ids[p]].offset <= slots[i].offset
    ensures var r := ids[..p] + [i] + ids[p..];
            r[a] < |slots| && r[b] < |slots| && slots[r[a]].Record? && slots[r[b]].Record? && Below(slots[r[b]], slots[r[a]])
  {
    hide Below, Placed;
    var r := ids[..p] + [i] + ids[p..];
    assert r[a] == if a < p then ids[a] else if a == p then i else ids[a - 1];
    assert r[b] == if b < p then ids[b] else if b == p then i else ids[b - 1];
    if a == p {
      PutBetween(slots, i, ids, p, low, pageSize, b - 1);
    } else if b == p {
      PutBetween(slots, i, ids, p, low, pageSize, a);
    }
  }

  lemma PutDescending(slots: seq<Slot>, i: nat, ids: seq<nat>, p: nat, low: nat, pageSize: nat)
    requires i < |slots| && Placed(slots, low, pageSize)
    requires Descending(slots, i, ids)
    requires slots[i].Record? && p <= |ids|
    requires forall k :: 0 <= k < p ==> slots[ids[k]].offset > slots[i].offset
    requires p < |ids| ==> slots[ids[p]].offset <= slots[i].offset
    ensures Descending(slots, i + 1, ids[..p] + [i] + ids[p..])
  {
    hide Below;
    var r := ids[..p] + [i] + ids[p..];
    forall k | 0 <= k < |r|
      ensures r[k] < i + 1 && slots[r[k]].Record? && 0 < slots[r[k]].size
    {
      assert r[k] == if k < p then ids[k] else if k == p then i else ids[k - 1];
      assert Inside(slots[i], low, pageSize);
    }
    forall a, b | 0 <= a < b < |r| ensures Below(slots[r[b]], slots[r[a]]) {
      PutPair(slots, i, ids, p, low, pageSize, a, b);
    }
    forall j | 0 <= j < i + 1 && slots[j].Record? ensures j in r {
      InPut(ids, p, i, j);
    }
  }

  lemma InPut(ids: seq<nat>, p: nat, i: nat, j: nat)
    requires p <= |ids|
    ensures j in ids[..p] + [i] + ids[p..] <==> j == i || j in ids
  {
    assert ids == ids[..p] + ids[p..];
  }

  // ---------- half way ----------

  /** Record `id` was moved, whole. */
  ghost predicate Carried(slots: seq<Slot>, data: seq<Byte>, s: seq<Slot>, d: seq<Byte>, id: nat) {
    && id < |slots| == |s| && |d| == |data| && slots[id].Record? && s[id].Record?
    && s[id].size == slots[id].size && s[id].target == slots[id].target
    && slots[id].offset + slots[id].size <= |data| && s[id].offset + s[id].size <= |d|
    && d[s[id].offset..s[id].offset + s[id].size] == data[slots[id].offset..slots[id].offset + slots[id].size]
  }

  /** The first `n` of the ordered records were moved and sit end to end in the bytes from `last` on. */
  ghost predicate Packed(slots: seq<Slot>, data: seq<Byte>, ids: seq<nat>, s: seq<Slot>, d: seq<Byte>, n: nat, last: nat)
    requires Listed(slots, |slots|, ids) && n <= |ids| && |s| == |slots|
  {
    && last + SizesOf(slots, ids[..n]) == |d|
    && (forall k :: 0 <= k < n ==> Carried(slots, data, s, d, ids[k]) && last <= s[ids[k]].offset)
    && (forall a, b :: 0 <= a < b < n ==> Below(s[ids[b]], s[ids[a]]))
  }

  /** The other slots, and the bytes up to the last record moved, are as they were. */
  ghost predicate Untouched(slots: seq<Slot>, data: seq<Byte>, ids: seq<nat>, s: seq<Slot>, d: seq<Byte>, n: nat, last: nat)
    requires Listed(slots, |slots|, ids) && n <= |ids| && |s| == |slots| && |d| == |data|
  {
    && (forall i :: 0 <= i < |s| && i !in ids[..n] ==> s[i] == slots[i])
    && (0 < n ==> slots[ids[n - 1]].offset <= last)
    && (forall x :: 0 <= x < |d| && (0 < n ==> x < slots[ids[n - 1]].offset) ==> d[x] == data[x])
  }

  ghost predicate PartlyPacked(slots: seq<Slot>, data: seq<Byte>, ids: seq<nat>,
                               s: seq<Slot>, d: seq<Byte>, n: nat, last: nat)
    requires Listed(slots, |slots|, ids) && n <= |ids|
  {
    && |s| == |slots| && |d| == |data|
    && Packed(slots, data, ids, s, d, n, last)
    && Untouched(slots, data, ids, s, d, n, last)
  }

  lemma SpliceKeeps<T>(d: seq<T>, at: nat, part: seq<T>, x: nat, y: nat)
    requires at + |part| <= |d| && x <= y <= |d|
    requires y <= at || at + |part| <= x
    ensures Splice(d, at, part)[x..y] == d[x..y]
  {
  }

  lemma SplicePuts<T>(d: seq<T>, at: nat, part: seq<T>)
    requires at + |part| <= |d|
    ensures Splice(d, at, part)[at..at + |part|] == part
  {
  }

  /** A record moved before stays where it was put. */
  lemma CarriedStays(slots: seq<Slot>, data: seq<Byte>, s: seq<Slot>, d: seq<Byte>, id: nat,
                     t: seq<Slot>, e: seq<Byte>, at: nat, part: seq<Byte>)
    requires Carried(slots, data, s, d, id)
    requires |t| == |s| && t[id] == s[id]
    requires at + |part| <= |d| && e == Splice(d, at, part) && at + |part| <= s[id].offset
    ensures Carried(slots, data, t, e, id) && t[id] == s[id]
  {
    SpliceKeeps(d, at, part, s[id].offset, s[id].offset + s[id].size);
  }

  /** The bytes once those of `r` were copied to `at`. */
  ghost function Carry(d: seq<Byte>, r: Slot, at: nat): (e: seq<Byte>)
    requires r.Record? && r.offset + r.size <= |d| && at + r.size <= |d|
    ensures |e| == |d|
  {
    Splice(d, at, d[r.offset..r.offset + r.size])
  }

  /** The slots and bytes after record `ids[n]` moved to end at `last`. */
  ghost predicate Move(slots: seq<Slot>, ids: seq<nat>, s: seq<Slot>, d: seq<Byte>, n: nat, last: nat,
                       t: seq<Slot>, e: seq<Byte>, at: nat)
    requires Listed(slots, |slots|, ids) && n < |ids| && |s| == |slots|
  {
    var id, r := ids[n], slots[ids[n]];
    && r.offset + r.size <= |d| && at + r.size == last <= |d| && r.offset <= at
    && e == Carry(d, r, at)
    && t == s[id := r.(offset := at)]
  }

  lemma UntouchedStep(slots: seq<Slot>, data: seq<Byte>, ids: seq<nat>,
                      s: seq<Slot>, d: seq<Byte>, n: nat, last: nat, t: seq<Slot>, e: seq<Byte>, at: nat)
    requires Descending(slots, |slots|, ids) && n < |ids| && |s| == |slots| && |d| == |data|
    requires Untouched(slots, data, ids, s, d, n, last)
    requires Move(slots, ids, s, d, n, last, t, e, at)
    ensures Untouched(slots, data, ids, t, e, n + 1, at)
    ensures var r := slots[ids[n]]; d[r.offset..r.offset + r.size] == data[r.offset..r.offset + r.size]
  {
    assert 0 < n ==> Below(slots[ids[n]], slots[ids[n - 1]]);
    forall i | 0 <= i < |t| && i !in ids[..n + 1] ensures t[i] == slots[i] {
      assert ids[..n + 1][n] == ids[n] && ids[..n + 1] == ids[..n] + [ids[n]];
    }
  }

  lemma PackedStep(slots: seq<Slot>, data: seq<Byte>, ids: seq<nat>,
                   s: seq<Slot>, d: seq<Byte>, n: nat, last: nat, t: seq<Slot>, e: seq<Byte>, at: nat)
    requires Descending(slots, |slots|, ids) && n < |ids| && |s| == |slots| && |d| == |data|
    requires Packed(slots, data, ids, s, d, n, last)
    requires Move(slots, ids, s, d, n, last, t, e, at)
    requires var r := slots[ids[n]]; d[r.offset..r.offset + r.size] == data[r.offset..r.offset + r.size]
    ensures Packed(slots, data, ids, t, e, n + 1, at)
  {
    hide Carried;
    var id, r := ids[n], slots[ids[n]];
    assert ids[..n + 1][..n] == ids[..n];
    forall k | 0 <= k < n
      ensures Carried(slots, data, t, e, ids[k]) && t[ids[k]] == s[ids[k]] && Below(t[id], t[ids[k]])
    {
      assert Below(slots[id], slots[ids[k]]);
      CarriedStays(slots, data, s, d, ids[k], t, e, at, d[r.offset..r.offset + r.size]);
    }
    CarriedNow(slots, data, s, d, id, t, e, at);
  }

  /** One more record is moved to end where the last one begins. */
  lemma PackStep(slots: seq<Slot>, data: seq<Byte>, ids: seq<nat>,
                 s: seq<Slot>, d: seq<Byte>, n: nat, last: nat, t: seq<Slot>, e: seq<Byte>, at: nat)
    requires Descending(slots, |slots|, ids) && n < |ids|
    requires PartlyPacked(slots, data, ids, s, d, n, last)
    requires Move(slots, ids, s, d, n, last, t, e, at)
    ensures PartlyPacked(slots, data, ids, t, e, n + 1, at)
  {
    hide Carried, Packed, Untouched;
    UntouchedStep(slots, data, ids, s, d, n, last, t, e, at);
    PackedStep(slots, data, ids, s, d, n, last, t, e, at);
  }

  lemma CarriedNow(slots: seq<Slot>, data: seq<Byte>, s: seq<Slot>, d: seq<Byte>, id: nat,
                   t: seq<Slot>, e: seq<Byte>, at: nat)
    requires id < |slots| == |s| && |d| == |data| && slots[id].Record?
    requires var r := slots[id]; r.offset + r.size <= |data| && at + r.size <= |d|
    requires var r := slots[id]; d[r.offset..r.offset + r.size] == data[r.offset..r.offset + r.size]
    requires e == Splice(d, at, d[slots[id].offset..slots[id].offset + slots[id].size])
    requires t == s[id := slots[id].(offset := at)]
    ensures Carried(slots, data, t, e, id)
  {
    SplicePuts(d, at, d[slots[id].offset..slots[id].offset + slots[id].size]);
  }

  /** The next record is where it always was, below the one moved last. */
  lemma NextRecord(slots: seq<Slot>, data: seq<Byte>, ids: seq<nat>, s: seq<Slot>, d: seq<Byte>, n: nat, last: nat, low: nat)
    requires Placed(slots, low, |data|)
    requires Descending(slots, |slots|, ids) && n < |ids|
    requires if n == 0 then s == slots && d == data && last == |d| else PartlyPacked(slots, data, ids, s, d, n, last)
    ensures PartlyPacked(slots, data, ids, s, d, n, last)
    ensures |s| == |slots| && ids[n] < |s| && s[ids[n]] == slots[ids[n]] && s[ids[n]].Record?
    ensures s[ids[n]].offset + s[ids[n]].size <= last <= |d|
    ensures 0 < n ==> Below(slots[ids[n]], slots[ids[n - 1]])
    ensures Listed(slots, |slots|, ids)
  {
    assert Inside(slots[ids[n]], low, |data|);
    if 0 < n {
      assert Below(slots[ids[n]], slots[ids[n - 1]]);
      forall k | 0 <= k < n ensures ids[k] != ids[n] {
        assert Below(slots[ids[n]], slots[ids[k]]);
      }
    } else {
      assert ids[..0] == [];
    }
  }

  /** The record nearest to the end of the page, which moves first. */
  lemma FirstRecord(p: Page, ids: seq<nat>, pageSize: nat)
    requires Layout(p, pageSize) && Descending(p.slots, |p.slots|, ids) && ids != []
    ensures |p.data| == pageSize && Listed(p.slots, |p.slots|, ids)
    ensures PartlyPacked(p.slots, p.data, ids, p.slots, p.data, 0, pageSize)
    ensures p.slots[ids[0]].offset + p.slots[ids[0]].size <= pageSize
  {
    NextRecord(p.slots, p.data, ids, p.slots, p.data, 0, pageSize, p.dataStart);
  }

  lemma FirstStep(p: Page, ids: seq<nat>, pageSize: nat, t: seq<Slot>, e: seq<Byte>, at: nat)
    requires Layout(p, pageSize) && Descending(p.slots, |p.slots|, ids) && ids != []
    requires Move(p.slots, ids, p.slots, p.data, 0, pageSize, t, e, at)
    ensures PartlyPacked(p.slots, p.data, ids, t, e, 1, at)
  {
    FirstRecord(p, ids, pageSize);
    hide Layout, Move;
    PackStep(p.slots, p.data, ids, p.slots, p.data, 0, pageSize, t, e, at);
  }

  /** A page without records has nothing to move. */
  lemma NothingPacked(p: Page, ids: seq<nat>)
    requires ids == [] && Listed(p.slots, |p.slots|, ids)
    ensures PartlyPacked(p.slots, p.data, ids, p.slots, p.data, 0, |p.data|)
  {
  }

  /** What compaction promises: every slot stands for what it stood for, and no byte is free between records. */
  ghost predicate Compacted(p: Page, q: Page, pageSize: nat)
    requires Layout(p, pageSize)
  {
    && Layout(q, pageSize) && |q.slots| == |p.slots|
    && q.firstFree == p.firstFree && q.freeSpace == p.freeSpace
    && q.dataStart == pageSize - LiveSum(q.slots)
    && LiveSum(q.slots) == LiveSum(p.slots)
    && Entries(q) == Entries(p)
  }

  /** All records moved: nothing is lost and no byte is free between them. */
  lemma PackedAll(p: Page, ids: seq<nat>, q: Page, pageSize: nat)
    requires Layout(p, pageSize)
    requires Descending(p.slots, |p.slots|, ids)
    requires SizesOf(p.slots, ids) == LiveSum(p.slots)
    requires PartlyPacked(p.slots, p.data, ids, q.slots, q.data, |ids|, q.dataStart)
    requires q.firstFree == p.firstFree && q.freeSpace == p.freeSpace
    ensures Compacted(p, q, pageSize)
  {
    hide Descending, Untouched, Apart, Inside, Carried;
    assert ids[..|ids|] == ids;
    PackedEach(p, ids, q, pageSize);
    PackedApart(p, ids, q);
    assert q.dataStart == pageSize - LiveSum(p.slots) && |q.slots| == |p.slots| && |q.data| == |p.data|;
    hide PartlyPacked, EntryOf;
    LiveSumSame(p.slots, q.slots);
    hide LiveSum;
    assert Placed(q.slots, q.dataStart, pageSize);
    assert Layout(q, pageSize);
    assert Entries(q) == Entries(p);
  }

  lemma PackedEach(p: Page, ids: seq<nat>, q: Page, pageSize: nat)
    requires Layout(p, pageSize)
    requires Descending(p.slots, |p.slots|, ids)
    requires PartlyPacked(p.slots, p.data, ids, q.slots, q.data, |ids|, q.dataStart)
    ensures forall i :: 0 <= i < |q.slots| ==> Inside(q.slots[i], q.dataStart, pageSize) && SizeOf(q.slots[i]) == SizeOf(p.slots[i])
    ensures forall i :: 0 <= i < |q.slots| ==> EntryOf(q.slots[i], q.data) == EntryOf(p.slots[i], p.data)
  {
    assert ids[..|ids|] == ids;
    forall i | 0 <= i < |q.slots|
      ensures Inside(q.slots[i], q.dataStart, pageSize) && SizeOf(q.slots[i]) == SizeOf(p.slots[i])
      ensures EntryOf(q.slots[i], q.data) == EntryOf(p.slots[i], p.data)
    {
      assert Inside(p.slots[i], p.dataStart, pageSize);
      if i in ids {
        var k :| 0 <= k < |ids| && ids[k] == i;
        assert Carried(p.slots, p.data, q.slots, q.data, ids[k]);
      } else {
        assert q.slots[i] == p.slots[i] && !p.slots[i].Record?;
      }
    }
  }

  lemma PackedApart(p: Page, ids: seq<nat>, q: Page)
    requires Descending(p.slots, |p.slots|, ids)
    requires PartlyPacked(p.slots, p.data, ids, q.slots, q.data, |ids|, q.dataStart)
    ensures forall i, j :: 0 <= i < j < |q.slots| ==> Apart(q.slots[i], q.slots[j])
  {
    var s := q.slots;
    assert ids[..|ids|] == ids;
    forall i, j | 0 <= i < j < |s| && s[i].Record? && s[j].Record? ensures Apart(s[i], s[j]) {
      assert i in ids && j in ids;
      var a :| 0 <= a < |ids| && ids[a] == i;
      var b :| 0 <= b < |ids| && ids[b] == j;
      assert if a < b then Below(s[ids[b]], s[ids[a]]) else Below(s[ids[a]], s[ids[b]]);
    }
  }
}
