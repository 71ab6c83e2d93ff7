/**
  The slotted page as the code keeps it: header fields, slots and bytes changed in place.
  Source: task-slotted-pages/src/slotted_page/slotted_page.cc.
  */
module SlottedPages {
  import opened Memory
  import opened PageLayout
  import opened Compaction
  import opened PageSteps

  class SlottedPage {
    const pageSize: nat
    var slots: seq<Slot>
    var firstFree: nat
    var dataStart: nat
    var freeSpace: nat
    const data: array<Byte>

    ghost function View(): Page
      reads `slots, `firstFree, `dataStart, `freeSpace, data
    {
      Page(slots, firstFree, dataStart, freeSpace, data[..])
    }

    /** A page on a fresh buffer frame (slotted_page.h:83, 163). */
    constructor (pageSize: nat)
      requires HEADER <= pageSize < PAGE_LIMIT
      ensures fresh(data) && this.pageSize == pageSize
      ensures View() == NewPage(pageSize)
    {
      this.pageSize := pageSize;
      slots, firstFree, dataStart, freeSpace := [], 0, pageSize, pageSize - HEADER;
      data := new Byte[pageSize](i => 0);
      new;
      assert data[..] == Zeros(pageSize);
    }

    /** The page found on a buffer frame. */
    constructor Load(p: Page)
      ensures fresh(data) && pageSize == |p.data|
      ensures View() == p
    {
      pageSize := |p.data|;
      slots, firstFree, dataStart, freeSpace := p.slots, p.firstFree, p.dataStart, p.freeSpace;
      data := new Byte[|p.data|](i requires 0 <= i < |p.data| => p.data[i]);
      new;
      assert data[..] == p.data;
    }

    /** What is left on the buffer frame. */
    method Unload() returns (p: Page)
      ensures p == View()
    {
      p := Page(slots, firstFree, dataStart, freeSpace, data[..]);
    }

    /** slotted_page.cc:10-16, with the assertion it starts with. */
    method ContinuousFreeSpace() returns (n: nat)
      requires HEADER + SLOT * |slots| <= dataStart
      ensures n == dataStart - HEADER - SLOT * |slots|
    {
      n := dataStart - (HEADER + SLOT * |slots|);
    }

    /** memmove of a record's bytes and set_offset, as both places of compactify do them. */
    method MoveRecord(id: nat, at: nat)
      requires id < |slots| && slots[id].Record?
      requires slots[id].offset + slots[id].size <= data.Length && at + slots[id].size <= data.Length
      modifies `slots, data
      ensures slots == old(slots)[id := old(slots[id]).(offset := at)]
      ensures data[..] == Carry(old(data[..]), old(slots[id]), at)
    {
      ghost var d := data[..];
      assert data[slots[id].offset..slots[id].offset + slots[id].size] == d[slots[id].offset..slots[id].offset + slots[id].size];
      Memmove(data, at, slots[id].offset, slots[id].size);
      slots := slots[id := slots[id].(offset := at)];
    }

    /** Moves a record to the very end of the page, unless it is there already (slotted_page.cc:193-202). */
    method MoveToEnd(id: nat) returns (last: nat, shift: nat)
      requires id < |slots| && slots[id].Record?
      requires slots[id].offset + slots[id].size <= data.Length == pageSize
      modifies `slots, data
      ensures last == old(slots[id]).offset + shift && last + old(slots[id]).size == pageSize
      ensures slots == old(slots)[id := old(slots[id]).(offset := last)]
      ensures data[..] == Carry(old(data[..]), old(slots[id]), last)
    {
      last, shift := slots[id].offset, 0;
      if last + slots[id].size < pageSize {
        shift := pageSize - (last + slots[id].size);
        MoveRecord(id, last + shift);
        last := last + shift;
      }
    }

    /** The record nearest to the end of the page moves first. */
    method PackFirst(ids: seq<nat>) returns (last: nat, shift: nat)
      requires Layout(View(), pageSize)
      requires Descending(slots, |slots|, ids) && ids != []
      modifies `slots, data
      ensures PartlyPacked(old(slots), old(data[..]), ids, slots, data[..], 1, last)
      ensures last == old(slots)[ids[0]].offset + shift
    {
      ghost var p := View();
      FirstRecord(p, ids, pageSize);
      hide Layout, Descending, PartlyPacked, Carry;
      last, shift := MoveToEnd(ids[0]);
      FirstStep(p, ids, pageSize, slots, data[..], last);
    }

    /** Moves one more record up to the one moved before it (slotted_page.cc:206-220). */
    method PackNext(ids: seq<nat>, i: nat, last: nat, shift: nat, ghost p: Page) returns (here: nat, moved: nat)
      requires Layout(p, pageSize) && data.Length == pageSize
      requires Descending(p.slots, |p.slots|, ids) && 1 <= i < |ids|
      requires PartlyPacked(p.slots, p.data, ids, slots, data[..], i, last)
      requires last == p.slots[ids[i - 1]].offset + shift
      modifies `slots, data
      ensures PartlyPacked(p.slots, p.data, ids, slots, data[..], i + 1, here)
      ensures here == p.slots[ids[i]].offset + moved
    {
      hide Descending, Listed, PartlyPacked, Carry, Layout;
      LayoutPlaced(p, pageSize);
      NextRecord(p.slots, p.data, ids, slots, data[..], i, last, p.dataStart);
      ghost var s, d := slots, data[..];
      var size, offset := slots[ids[i]].size, slots[ids[i]].offset;
      assert offset + size + shift <= last;
      moved := shift + (last - (size + offset + shift));
      here := offset + moved;
      MoveRecord(ids[i], here);
      PackStep(p.slots, p.data, ids, s, d, i, last, slots, data[..], here);
    }

    /** Moves the records one after the other (slotted_page.cc:193-221). */
    method PackAll(ids: seq<nat>) returns (last: nat)
      requires Layout(View(), pageSize)
      requires Descending(slots, |slots|, ids) && ids != []
      modifies `slots, data
      ensures PartlyPacked(old(slots), old(data[..]), ids, slots, data[..], |ids|, last)
    {
      ghost var p := View();
      assert Listed(p.slots, |p.slots|, ids);
      hide Layout, PartlyPacked, Descending;
      var shift;
      last, shift := PackFirst(ids);
      var i := 1;
      while i < |ids|
        invariant 1 <= i <= |ids|
        invariant PartlyPacked(p.slots, p.data, ids, slots, data[..], i, last)
        invariant last == p.slots[ids[i - 1]].offset + shift
      {
        last, shift := PackNext(ids, i, last, shift, p);
        i := i + 1;
      }
    }

    /**
      Moves every record towards the end of the page. Nothing a slot stands for changes,
      and afterwards the records leave no byte free between them (slotted_page.cc:163-223).
      */
    method Compactify()
      requires Layout(View(), pageSize)
      modifies `slots, `dataStart, data
      ensures Compacted(old(View()), View(), pageSize)
    {
      ghost var p := View();
      var ids := Order(slots, dataStart, pageSize);
      hide Compacted, Layout, PartlyPacked, Descending;
      if |ids| == 0 {
        dataStart := pageSize;
        NothingPacked(p, ids);
      } else {
        dataStart := PackAll(ids);
      }
      PackedAll(p, ids, View(), pageSize);
    }

    /** Slot `id`, an empty one, gets `part`, stored below all records (slotted_page.cc:55-60, 127-132). */
    method Place(id: nat, part: seq<Byte>)
      requires Layout(View(), pageSize) && id < |slots| && slots[id].Free?
      requires 0 < |part| <= freeSpace && HEADER + SLOT * |slots| + |part| <= dataStart
      modifies `slots, `dataStart, `freeSpace, data
      ensures Layout(View(), pageSize) && |slots| == old(|slots|)
      ensures freeSpace == old(freeSpace) - |part|
      ensures Entries(View()) == old(Entries(View()))[id := Live(part, false)]
    {
      ghost var p := View();
      freeSpace := freeSpace - |part|;
      dataStart := dataStart - |part|;
      slots := slots[id := Record(dataStart, |part|, false)];
      Store(data, dataStart, part);
      PutsLayout(p, pageSize, id, part, false, View());
      PutsEntries(p, pageSize, id, part, false, View());
    }

    /** Compacts the page if the gap below the records is too small for `need` bytes. */
    method MakeRoom(need: nat)
      requires Layout(View(), pageSize) && need <= freeSpace
      modifies `slots, `dataStart, data
      ensures Layout(View(), pageSize) && HEADER + SLOT * |slots| + need <= dataStart
      ensures |slots| == old(|slots|) && Entries(View()) == old(Entries(View()))
      ensures HEADER + SLOT * old(|slots|) + need <= old(dataStart) ==> View() == old(View())
    {
      var gap := ContinuousFreeSpace();
      if gap < need {
        Compactify();
      }
    }

    /**
      The hint after slot `id` was reused: the scan goes on to the end, so this is the last
      empty slot after `id`, or the slot count if there is none (slotted_page.cc:39-48).
      */
    method NextHint(id: nat)
      requires firstFree == id < |slots|
      modifies `firstFree
      ensures id < firstFree <= |slots|
      ensures firstFree < |slots| ==> slots[firstFree].Free?
      ensures forall j :: id < j < |slots| && slots[j].Free? ==> j <= firstFree < |slots|
    {
      for i := id + 1 to |slots|
        invariant firstFree == id || id < firstFree < i
        invariant firstFree != id ==> slots[firstFree].Free?
        invariant forall j :: id < j < i && slots[j].Free? ==> j <= firstFree
      {
        if slots[i].Free? {
          firstFree := i;
        }
      }
      if id == firstFree {
        firstFree := |slots|;
      }
    }

    /** One more slot, with room for a record of `n` bytes (slotted_page.cc:26-38). */
    method NewSlot(n: nat)
      requires Layout(View(), pageSize) && firstFree == |slots| && n + SLOT <= freeSpace
      modifies this, data
      ensures Layout(View(), pageSize) && HEADER + SLOT * |slots| + n <= dataStart
      ensures |slots| == old(|slots|) + 1 == firstFree && freeSpace == old(freeSpace) - SLOT
      ensures Entries(View()) == old(Entries(View())) + [Vacant]
    {
      hide Placed, LiveSum;
      firstFree := firstFree + 1;
      MakeRoom(n + SLOT);
      ghost var p := View();
      freeSpace := freeSpace - SLOT;
      slots := slots + [Free];
      SlotAdded(p, pageSize, View());
    }

    /** A record of `n` zero bytes; the two requirements on space and hint are the code's assertions. */
    method Allocate(n: nat) returns (id: nat)
      requires PageOk(View(), pageSize) && 0 < n
      requires firstFree <= |slots|
      requires n + (if firstFree == |slots| then SLOT else 0) <= freeSpace
      modifies this, data
      ensures PageOk(View(), pageSize) && id < firstFree <= |slots|
      ensures id == old(firstFree)
      ensures old(firstFree) == old(|slots|) ==>
                Entries(View()) == old(Entries(View())) + [Live(Zeros(n), false)]
      ensures old(firstFree) < old(|slots|) ==>
                Entries(View()) == old(Entries(View()))[id := Live(Zeros(n), false)]
      ensures freeSpace == old(freeSpace) - n - SLOT * (|slots| - old(|slots|))
      ensures forall j :: id < j < |slots| && slots[j].Free? ==> j <= firstFree < |slots|
    {
      hide Placed, LiveSum;
      EntriesFreeAll(View(), pageSize);
      id := firstFree;
      if firstFree == |slots| {
        NewSlot(n);
      } else {
        MakeRoom(n);
        NextHint(id);
      }
      EntriesFreeAll(View(), pageSize);
      ghost var before := View();
      Place(id, Zeros(n));
      HintKept(before, View(), pageSize, id);
    }

    /**
      Record `id` gets `n` bytes: cut short, or its old bytes and then zeros
      (slotted_page.cc:64-134; that a record is not empty leaves out 75-95).
      */
    method Relocate(id: nat, n: nat)
      requires PageOk(View(), pageSize) && 0 < n
      requires id < |slots| && slots[id].Record?
      requires slots[id].target && n < slots[id].size ==> TID < n
      requires n <= freeSpace + slots[id].size
      modifies this, data
      ensures PageOk(View(), pageSize) && firstFree == old(firstFree) && |slots| == old(|slots|)
      ensures freeSpace == old(freeSpace) + old(slots[id].size) - n
      ensures var e := old(Entries(View()));
              Entries(View()) == e[id := Live(Resized(e[id].bytes, n), e[id].target && n <= |e[id].bytes|)]
    {
      hide Placed, LiveSum;
      ghost var p := View();
      EntriesFreeAll(p, pageSize);
      var size := slots[id].size;
      if size == n {
        assert Entries(p)[id].bytes == Resized(Entries(p)[id].bytes, n);
        return;
      }
      if size > n {
        freeSpace := freeSpace + (size - n);
        slots := slots[id := slots[id].(size := n)];
        CutsLayout(p, pageSize, id, n, View());
        CutsEntries(p, pageSize, id, n, View());
        return;
      }
      Regrow(id, n);
      HintKept(p, View(), pageSize, id);
    }

    /** The hard case of relocate: the record moves to a larger place (slotted_page.cc:108-133). */
    method Regrow(id: nat, n: nat)
      requires Layout(View(), pageSize)
      requires id < |slots| && slots[id].Record? && 0 < slots[id].size < n <= freeSpace + slots[id].size
      modifies `slots, `dataStart, `freeSpace, data
      ensures Layout(View(), pageSize) && |slots| == old(|slots|)
      ensures freeSpace == old(freeSpace) + old(slots[id].size) - n
      ensures var e := old(Entries(View()));
              Entries(View()) == e[id := Live(Resized(e[id].bytes, n), false)]
    {
      hide Placed, LiveSum;
      ghost var p := View();
      EntriesFreeAll(p, pageSize);
      var size, offset := slots[id].size, slots[id].offset;
      InData(p, pageSize, id);
      var buffer := data[offset..offset + size];
      freeSpace := freeSpace + size;
      if offset == dataStart {
        dataStart := dataStart + size;
      }
      slots := slots[id := Free];
      GivenUp(p, pageSize, id, View());
      MakeRoom(n);
      EntriesFreeAll(View(), pageSize);
      Place(id, Resized(buffer, n));
    }

    /**
      Gives slot `id` up; if it is the last one the empty slots before it go too
      (slotted_page.cc:136-161).
      */
    method Erase(id: nat)
      requires PageOk(View(), pageSize)
      requires id < |slots| && slots[id].Record?
      modifies `slots, `firstFree, `dataStart, `freeSpace
      ensures PageOk(View(), pageSize)
      ensures firstFree == if id < old(firstFree) then id else old(firstFree)
      ensures freeSpace == old(freeSpace) + old(slots[id].size) + SLOT * (old(|slots|) - |slots|)
      ensures Entries(View()) == Erased(old(Entries(View())), id)
    {
      hide Placed, LiveSum;
      ghost var p := View();
      EntriesFreeAll(p, pageSize);
      freeSpace := freeSpace + slots[id].size;
      if id < firstFree {
        firstFree := id;
      }
      if slots[id].offset == dataStart {
        dataStart := dataStart + slots[id].size;
      }
      slots := slots[id := Free];
      ghost var q := View();
      GivenUp(p, pageSize, id, q);
      EntriesFreeAll(q, pageSize);
      if id == |slots| - 1 {
        DropEmpty();
      }
    }

    /** The loop of erase that gives the empty slots at the end back. */
    method DropEmpty()
      requires Layout(View(), pageSize)
      modifies `slots, `freeSpace
      ensures Layout(View(), pageSize) && slots <= old(slots)
      ensures freeSpace == old(freeSpace) + SLOT * (old(|slots|) - |slots|)
      ensures Entries(View()) == Trim(old(Entries(View())))
    {
      hide Placed, LiveSum;
      while |slots| >= 1 && slots[|slots| - 1].Free?
        invariant Layout(View(), pageSize) && slots <= old(slots)
        invariant freeSpace == old(freeSpace) + SLOT * (old(|slots|) - |slots|)
        invariant Trim(Entries(View())) == Trim(old(Entries(View())))
      {
        ghost var r := View();
        slots := slots[..|slots| - 1];
        freeSpace := freeSpace + SLOT;
        SlotDropped(r, pageSize, View());
      }
      EntriesFreeAll(View(), pageSize);
    }
  }

  lemma InData(p: Page, pageSize: nat, id: nat)
    requires Layout(p, pageSize) && id < |p.slots| && p.slots[id].Record?
    ensures p.slots[id].offset + p.slots[id].size <= pageSize
    ensures Entries(p)[id].bytes == p.data[p.slots[id].offset..p.slots[id].offset + p.slots[id].size]
  {
    assert Inside(p.slots[id], p.dataStart, pageSize);
  }

  /** The other slots are as empty as they were. */
  lemma HintKept(p: Page, q: Page, pageSize: nat, id: nat)
    requires Layout(p, pageSize) && Layout(q, pageSize) && |p.slots| == |q.slots| && id < |p.slots|
    requires forall i :: 0 <= i < |p.slots| && i != id ==> Entries(q)[i] == Entries(p)[i]
    ensures forall i :: 0 <= i < |p.slots| && i != id ==> (q.slots[i].Free? <==> p.slots[i].Free?)
  {
    EntriesFreeAll(p, pageSize);
    EntriesFreeAll(q, pageSize);
  }
}
