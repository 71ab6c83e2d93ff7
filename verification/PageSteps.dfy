/**
  The elementary changes of a slotted page and what each does to the entries: a slot more,
  a record placed below the others, a record given up, one cut short, the last slots dropped.
  */
module PageSteps {
  import opened Memory
  import opened PageLayout

  /** A slot more at the end of the slot array. */
  lemma SlotAdded(p: Page, pageSize: nat, q: Page)
    requires Layout(p, pageSize) && SLOT <= p.freeSpace
    requires HEADER + SLOT * (|p.slots| + 1) <= p.dataStart
    requires q == p.(slots := p.slots + [Free], freeSpace := p.freeSpace - SLOT, firstFree := q.firstFree)
    ensures Layout(q, pageSize)
    ensures Entries(q) == Entries(p) + [Vacant]
  {
    LiveSumAppend(p.slots, Free);
    forall i, j | 0 <= i < j < |q.slots| ensures Apart(q.slots[i], q.slots[j]) {
      if j < |p.slots| {
        assert Apart(p.slots[i], p.slots[j]);
      }
    }
  }

  /** `n` bytes below all records go to the empty slot `id`. */
  ghost predicate Puts(p: Page, id: nat, part: seq<Byte>, target: bool, q: Page) {
    && id < |p.slots| && p.slots[id].Free? && 0 < |part|
    && HEADER + SLOT * |p.slots| + |part| <= p.dataStart <= |p.data|
    && |part| <= p.freeSpace
    && q == Page(p.slots[id := Record(p.dataStart - |part|, |part|, target)], p.firstFree, p.dataStart - |part|,
                 p.freeSpace - |part|, Splice(p.data, p.dataStart - |part|, part))
  }

  lemma PutsLayout(p: Page, pageSize: nat, id: nat, part: seq<Byte>, target: bool, q: Page)
    requires Layout(p, pageSize) && Puts(p, id, part, target, q)
    ensures Layout(q, pageSize)
  {
    LiveSumUpdate(p.slots, id, q.slots[id]);
    forall i | 0 <= i < |q.slots| ensures Inside(q.slots[i], q.dataStart, pageSize) {
      assert Inside(p.slots[i], p.dataStart, pageSize);
    }
    forall i, j | 0 <= i < j < |q.slots| ensures Apart(q.slots[i], q.slots[j]) {
      assert Apart(p.slots[i], p.slots[j]);
      assert Inside(p.slots[i], p.dataStart, pageSize) && Inside(p.slots[j], p.dataStart, pageSize);
    }
  }

  lemma PutsEntries(p: Page, pageSize: nat, id: nat, part: seq<Byte>, target: bool, q: Page)
    requires Layout(p, pageSize) && Layout(q, pageSize) && Puts(p, id, part, target, q)
    ensures Entries(q) == Entries(p)[id := Live(part, target)]
  {
    var at := q.dataStart;
    assert q.data[at..at + |part|] == part;
    forall i | 0 <= i < |q.slots| && i != id ensures EntryOf(q.slots[i], q.data) == EntryOf(p.slots[i], p.data) {
      var s := p.slots[i];
      assert Inside(s, p.dataStart, pageSize);
      if s.Record? {
        assert q.data[s.offset..s.offset + s.size] == p.data[s.offset..s.offset + s.size];
      }
    }
  }

  /** Where the records begin once record `id` is gone (slotted_page.cc:117-119, 149-151). */
  function StartWithout(p: Page, id: nat): nat
    requires id < |p.slots| && p.slots[id].Record?
  {
    if p.slots[id].offset == p.dataStart then p.dataStart + p.slots[id].size else p.dataStart
  }

  /** Record `id` is given up. */
  lemma GivenUp(p: Page, pageSize: nat, id: nat, q: Page)
    requires Layout(p, pageSize) && id < |p.slots| && p.slots[id].Record?
    requires q.slots == p.slots[id := Free] && q.data == p.data
    requires q.dataStart == StartWithout(p, id) && q.freeSpace == p.freeSpace + p.slots[id].size
    ensures Layout(q, pageSize)
    ensures Entries(q) == Entries(p)[id := Vacant]
  {
    LiveSumUpdate(p.slots, id, Free);
    assert Inside(p.slots[id], p.dataStart, pageSize);
    forall i | 0 <= i < |q.slots| ensures Inside(q.slots[i], q.dataStart, pageSize) {
      assert Inside(p.slots[i], p.dataStart, pageSize);
      if i < id {
        assert Apart(p.slots[i], p.slots[id]);
      } else if id < i {
        assert Apart(p.slots[id], p.slots[i]);
      }
    }
    forall i, j | 0 <= i < j < |q.slots| ensures Apart(q.slots[i], q.slots[j]) {
      assert Apart(p.slots[i], p.slots[j]);
    }
  }

  /** Record `id` keeps its first `n` bytes. */
  ghost predicate Cuts(p: Page, id: nat, n: nat, q: Page) {
    && id < |p.slots| && p.slots[id].Record? && 0 < n <= p.slots[id].size
    && q == p.(slots := p.slots[id := p.slots[id].(size := n)], freeSpace := p.freeSpace + (p.slots[id].size - n))
  }

  lemma CutsLayout(p: Page, pageSize: nat, id: nat, n: nat, q: Page)
    requires Layout(p, pageSize) && Cuts(p, id, n, q)
    ensures Layout(q, pageSize)
  {
    LiveSumUpdate(p.slots, id, q.slots[id]);
    forall i | 0 <= i < |q.slots| ensures Inside(q.slots[i], q.dataStart, pageSize) {
      assert Inside(p.slots[i], p.dataStart, pageSize);
    }
    forall i, j | 0 <= i < j < |q.slots| ensures Apart(q.slots[i], q.slots[j]) {
      assert Apart(p.slots[i], p.slots[j]);
    }
  }

  lemma CutsEntries(p: Page, pageSize: nat, id: nat, n: nat, q: Page)
    requires Layout(p, pageSize) && Layout(q, pageSize) && Cuts(p, id, n, q)
    requires Entries(p)[id].Live?
    ensures n <= |Entries(p)[id].bytes|
    ensures Entries(q) == Entries(p)[id := Live(Entries(p)[id].bytes[..n], Entries(p)[id].target)]
  {
    var r := p.slots[id];
    assert Inside(r, p.dataStart, pageSize);
    assert p.data[r.offset..r.offset + r.size][..n] == p.data[r.offset..r.offset + n];
  }

  /** The last slot, an empty one, is dropped. */
  lemma SlotDropped(p: Page, pageSize: nat, q: Page)
    requires Layout(p, pageSize) && p.slots != [] && p.slots[|p.slots| - 1].Free?
    requires q == p.(slots := p.slots[..|p.slots| - 1], freeSpace := p.freeSpace + SLOT)
    ensures Layout(q, pageSize)
    ensures Entries(q) == Entries(p)[..|p.slots| - 1]
    ensures Trim(Entries(q)) == Trim(Entries(p))
  {
    assert Entries(p)[|p.slots| - 1].Vacant?;
    assert Entries(q) == Entries(p)[..|p.slots| - 1];
  }

  /** The first bytes of record `id` are written, and its redirect-target flag is set. */
  ghost predicate Writes(p: Page, id: nat, part: seq<Byte>, target: bool, q: Page) {
    && id < |p.slots| && p.slots[id].Record? && |part| <= p.slots[id].size
    && p.slots[id].offset + p.slots[id].size <= |p.data|
    && q == p.(slots := p.slots[id := p.slots[id].(target := target)], data := Splice(p.data, p.slots[id].offset, part))
  }

  lemma WritesLayout(p: Page, pageSize: nat, id: nat, part: seq<Byte>, target: bool, q: Page)
    requires PageOk(p, pageSize) && Writes(p, id, part, target, q)
    ensures PageOk(q, pageSize)
  {
    LiveSumUpdate(p.slots, id, q.slots[id]);
    forall i | 0 <= i < |q.slots| ensures Inside(q.slots[i], q.dataStart, pageSize) {
      assert Inside(p.slots[i], p.dataStart, pageSize);
    }
    forall i, j | 0 <= i < j < |q.slots| ensures Apart(q.slots[i], q.slots[j]) {
      assert Apart(p.slots[i], p.slots[j]);
    }
  }

  lemma WritesEntries(p: Page, pageSize: nat, id: nat, part: seq<Byte>, target: bool, q: Page)
    requires PageOk(p, pageSize) && PageOk(q, pageSize) && Writes(p, id, part, target, q)
    requires Entries(p)[id].Live? && |part| <= |Entries(p)[id].bytes|
    ensures Entries(q) == Entries(p)[id := Live(part + Entries(p)[id].bytes[|part|..], target)]
  {
    var r := p.slots[id];
    assert q.data[r.offset..r.offset + r.size] == part + p.data[r.offset..r.offset + r.size][|part|..];
    forall i | 0 <= i < |q.slots| && i != id ensures EntryOf(q.slots[i], q.data) == EntryOf(p.slots[i], p.data) {
      var s := p.slots[i];
      assert Inside(s, p.dataStart, pageSize);
      assert if i < id then Apart(s, r) else Apart(r, s);
      if s.Record? {
        assert q.data[s.offset..s.offset + s.size] == p.data[s.offset..s.offset + s.size];
      }
    }
  }

  /** Record `id` moves away and its slot now says where to (sp_segment.cc:259-263). */
  lemma SlotRedirected(p: Page, pageSize: nat, id: nat, tid: Tid, q: Page)
    requires PageOk(p, pageSize) && id < |p.slots| && p.slots[id].Record?
    requires q == p.(slots := p.slots[id := Redirect(tid)], freeSpace := p.freeSpace + p.slots[id].size)
    ensures PageOk(q, pageSize)
    ensures Entries(q) == Entries(p)[id := Moved(tid)]
  {
    LiveSumUpdate(p.slots, id, Redirect(tid));
    forall i | 0 <= i < |q.slots| ensures Inside(q.slots[i], q.dataStart, pageSize) {
      assert Inside(p.slots[i], p.dataStart, pageSize);
    }
    forall i, j | 0 <= i < j < |q.slots| ensures Apart(q.slots[i], q.slots[j]) {
      assert Apart(p.slots[i], p.slots[j]);
    }
  }

  /** A slot and its entry tell the same. */
  lemma EntriesFreeAll(p: Page, pageSize: nat)
    requires Layout(p, pageSize)
    ensures forall i :: 0 <= i < |p.slots| ==> (Entries(p)[i].Vacant? <==> p.slots[i].Free?)
    ensures forall i :: 0 <= i < |p.slots| ==> (Entries(p)[i].Live? <==> p.slots[i].Record?)
    ensures forall i :: 0 <= i < |p.slots| && p.slots[i].Record? ==>
                          |Entries(p)[i].bytes| == p.slots[i].size > 0 && Entries(p)[i].target == p.slots[i].target
  {
    forall i | 0 <= i < |p.slots|
      ensures Inside(p.slots[i], p.dataStart, pageSize)
    {
    }
  }

  /** The entries once entry `id` is erased. */
  function Erased(e: seq<Entry>, id: nat): seq<Entry>
    requires id < |e|
  {
    if id == |e| - 1 then Trim(e[id := Vacant]) else e[id := Vacant]
  }
}
