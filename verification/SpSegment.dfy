/**
  The record segment: allocation guided by the free-space inventory, access by tuple id, and
  growth across pages by one redirect. Source: task-slotted-pages/src/slotted_page/sp_segment.cc.
  A fixed page is loaded from `pages` and stored back when it is unfixed dirty.
  */
module SpSegment {
  import opened Collections
  import opened Memory
  import opened PageLayout
  import opened PageSteps
  import opened SlottedPages
  import opened FreeSpaceInventory
  import opened SegmentRecords

  /** The first byte of a tuple id must not be 0xFF (slotted_page.h:142). */
  const PAGE_ID_LIMIT := 0xFF00_0000_0000

  class SPSegment {
    const pageSize: nat
    const fsi: FSISegment
    var pages: seq<Page>

    /** No page has less free than the inventory promises. */
    ghost predicate Conservative()
      requires fsi.Valid() && fsi.slottedPages == |pages|
      reads this, fsi
    {
      forall p :: 0 <= p < |pages| ==> fsi.Promised(p) <= pages[p].freeSpace
    }

    ghost predicate Valid()
      reads this, fsi
    {
      && HEADER + SLOT <= pageSize == fsi.pageSize < PAGE_LIMIT
      && fsi.Valid() && fsi.slottedPages == |pages| > 0
      && PagesOk(pages, pageSize) && LinksOk(pages, pageSize)
      && Conservative()
    }

    /** The segment and its inventory, with one empty page (sp_segment.cc:14-25). */
    constructor (pageSize: nat)
      requires HEADER + SLOT <= pageSize < PAGE_LIMIT
      ensures Valid() && fresh(fsi) && this.pageSize == pageSize
      ensures pages == [NewPage(pageSize)] && fsi.Promised(0) == pageSize - HEADER
    {
      this.pageSize := pageSize;
      var inventory := new FSISegment(pageSize);
      inventory.slottedPages := 1;
      fsi := inventory;
      pages := [NewPage(pageSize)];
      FirstPage(pageSize, inventory.frames);
      TableGrows(pageSize);
    }

    /** The assertion slotted_page.cc:33 fails on the page the inventory picks for `need` bytes. */
    ghost predicate HintFails(need: nat)
      requires Valid()
      reads this, fsi
    {
      exists p :: 0 <= p < |pages| && need <= fsi.Promised(p) && (forall i :: 0 <= i < p ==> fsi.Promised(i) < need)
                  && |pages[p].slots| < pages[p].firstFree
    }

    /** sp_segment.cc:71-82 */
    method AllocateOn(page: nat, n: nat) returns (r: Option<Tid>)
      requires Valid() && 0 < n && page < |pages|
      requires fsi.Promised(page) + n + SLOT <= pages[page].freeSpace
      modifies `pages
      ensures r.None? <==> |old(pages)[page].slots| < old(pages)[page].firstFree
      ensures r.None? ==> pages == old(pages)
      ensures Valid() && |pages| == old(|pages|)
      ensures r.Some? ==> r.value.page == page
      ensures r.Some? ==> Gained(old(pages), pages, pageSize, r.value, n)
      ensures r.Some? ==> KeptBut(old(pages), pages, page)
      ensures !SomeHintBeyond(old(pages)) ==> !SomeHintBeyond(pages)
    {
      hide Layout, FSISegment.Valid, FSISegment.Promised;
      LayoutPlaced(pages[page], pageSize);
      var sp := new SlottedPage.Load(pages[page]);
      if |sp.slots| < sp.firstFree {
        return None;
      }
      EntriesFreeAll(pages[page], pageSize);
      var slot := sp.Allocate(n);
      var q := sp.Unload();
      ghost var before := pages;
      var e := Live(Zeros(n), false);
      EntrySet(pages[page], q, pageSize, slot, e);
      StoreBack(pages, pageSize, page, q, slot, e);
      DirectChange(pages, pages[page := q], pageSize, Tid(page, slot), e);
      pages := pages[page := q];
      r := Some(Tid(page, slot));
    }

    /** sp_segment.cc:41-69 */
    method AllocateNew(n: nat) returns (slot: nat)
      requires Valid() && 0 < n <= pageSize - HEADER - SLOT
      modifies `pages, fsi`frames, fsi`slottedPages
      ensures Valid() && |pages| == old(|pages|) + 1 && old(pages) <= pages
      ensures Gained(old(pages), pages, pageSize, Tid(old(|pages|), slot), n)
      ensures BestPromise(fsi.table, pages[old(|pages|)].freeSpace, fsi.Promised(old(|pages|)))
      ensures forall p :: 0 <= p < old(|pages|) ==> fsi.Promised(p) == old(fsi.Promised(p))
      ensures !SomeHintBeyond(old(pages)) ==> !SomeHintBeyond(pages)
    {
      hide Layout, LookUpTable, Level, Covers, Encode, LinksOk, OneChanged, OnlyRecord;
      TableGrows(pageSize);
      var page := fsi.slottedPages;
      ghost var before := pages;
      var sp := new SlottedPage(pageSize);
      NewPageOk(pageSize);
      fsi.AddSlottedPage();
      slot := sp.Allocate(n);
      var q := sp.Unload();
      pages := pages + [q];
      fsi.Update(page, q.freeSpace);
      Appended(before, pageSize, q, slot, Live(Zeros(n), false));
      DirectChange(before, pages, pageSize, Tid(page, slot), Live(Zeros(n), false));
    }

    /**
      A zeroed record on the first page the inventory promises room on, or else on a new page
      (sp_segment.cc:27-83). No result stands for the assertion that stops the program.
      */
    method Allocate(n: nat) returns (r: Option<Tid>)
      requires Valid() && 0 < n <= pageSize - HEADER - SLOT
      modifies `pages, fsi`frames, fsi`slottedPages
      ensures r.None? <==> old(HintFails(n + SLOT))
      ensures r.None? ==> pages == old(pages)
      ensures Valid() && |pages| <= old(|pages|) + 1
      ensures r.Some? ==> r.value.page < |pages|
      ensures r.Some? ==> Gained(old(pages), pages, pageSize, r.value, n)
      ensures r.Some? ==> r.value.page == old(|pages|) || n + SLOT <= old(fsi.Promised(r.value.page))
      ensures r.Some? ==> KeptBut(old(pages), pages, r.value.page)
      ensures r.Some? && r.value.page < old(|pages|) ==>
                |pages| == old(|pages|)
                && BestPromise(fsi.table, old(fsi.Promised(r.value.page)) - (n + SLOT), fsi.Promised(r.value.page))
      ensures r.Some? && r.value.page == old(|pages|) ==> BestPromise(fsi.table, pages[r.value.page].freeSpace, fsi.Promised(r.value.page))
      ensures r.Some? ==> forall p :: 0 <= p < old(|pages|) && p != r.value.page ==> fsi.Promised(p) == old(fsi.Promised(p))
      ensures !SomeHintBeyond(old(pages)) ==> !SomeHintBeyond(pages)
    {
      hide Layout, LookUpTable, Level, Covers, Encode, LinksOk, OneChanged, OnlyRecord, Gained;
      TableGrows(pageSize);
      var found, page := fsi.Find(n + SLOT);
      if found {
        r := AllocateOn(page, n);
      } else {
        var slot := AllocateNew(n);
        r := Some(Tid(page, slot));
      }
    }

    /** The first `capacity` bytes of a record, over a redirect if there is one (sp_segment.cc:85-139). */
    method Read(tid: Tid, capacity: nat) returns (record: seq<Byte>)
      requires Valid()
      requires RecordAt(pages, pageSize, tid).Some? && capacity <= |RecordAt(pages, pageSize, tid).value|
      ensures record == RecordAt(pages, pageSize, tid).value[..capacity]
    {
      hide LinksOk, PagesOk, Linked;
      Readable(pages, pageSize, tid);
      if At(pages, pageSize, tid).Moved? {
        LinkFollowed(pages, pageSize, tid);
        Readable(pages, pageSize, At(pages, pageSize, tid).tid);
      }
      hide At;
      var page := pages[tid.page];
      var slot := page.slots[tid.slot];
      if !slot.Redirect? {
        PartOf(page.data, slot.offset, slot.size, 0, capacity);
        record := page.data[slot.offset..slot.offset + capacity];
        return;
      }
      var target := slot.tid;
      page := pages[target.page];
      slot := page.slots[target.slot];
      assert slot.target && slot.size > TID && slot.size - TID >= capacity;
      PartOf(page.data, slot.offset, slot.size, 0, TID);
      PartOf(page.data, slot.offset, slot.size, TID, capacity);
      var original := page.data[slot.offset..slot.offset + TID];
      assert original == TidBytes(tid);
      record := page.data[slot.offset + TID..slot.offset + TID + capacity];
    }

    /** Unfixes a changed page and brings its inventory entry up to date. */
    method PutBack(t: Tid, q: Page, ghost e: Entry)
      requires Valid() && t.page < |pages| && PageOk(q, pageSize)
      requires At(pages, pageSize, t).Live? && !At(pages, pageSize, t).target
      requires e.Vacant? || (e.Live? && !e.target)
      requires forall s: nat :: EntryAt(q, pageSize, s) == if s == t.slot then e else EntryAt(pages[t.page], pageSize, s)
      modifies `pages, fsi`frames
      ensures Valid() && pages == old(pages)[t.page := q]
      ensures OnlyRecord(old(pages), pages, pageSize, t, if e.Live? then Some(e.bytes) else None)
      ensures BestPromise(fsi.table, q.freeSpace, fsi.Promised(t.page))
      ensures forall p :: 0 <= p < |pages| && p != t.page ==> fsi.Promised(p) == old(fsi.Promised(p))
    {
      hide Layout, LookUpTable, Level, Covers, Encode, LinksOk, OneChanged, OnlyRecord;
      TableGrows(pageSize);
      StoreBack(pages, pageSize, t.page, q, t.slot, e);
      DirectChange(pages, pages[t.page := q], pageSize, t, e);
      pages := pages[t.page := q];
      fsi.Update(t.page, q.freeSpace);
    }

    /** The bytes of a record stored directly begin with `record` (sp_segment.cc:141-163). */
    method Write(t: Tid, record: seq<Byte>)
      requires Valid()
      requires At(pages, pageSize, t).Live? && !At(pages, pageSize, t).target
      requires |record| <= |At(pages, pageSize, t).bytes|
      modifies `pages
      ensures Valid()
      ensures OnlyRecord(old(pages), pages, pageSize, t, Some(record + old(At(pages, pageSize, t).bytes)[|record|..]))
      ensures !SomeHintBeyond(old(pages)) ==> !SomeHintBeyond(pages)
    {
      hide Layout, FSISegment.Valid, FSISegment.Promised, LinksOk, OneChanged, OnlyRecord;
      Readable(pages, pageSize, t);
      ghost var e := Live(record + At(pages, pageSize, t).bytes[|record|..], false);
      var page := pages[t.page];
      var sp := new SlottedPage.Load(page);
      Store(sp.data, page.slots[t.slot].offset, record);
      var q := sp.Unload();
      assert page.slots[t.slot := page.slots[t.slot].(target := false)] == page.slots;
      WritesLayout(page, pageSize, t.slot, record, false, q);
      WritesEntries(page, pageSize, t.slot, record, false, q);
      EntrySet(page, q, pageSize, t.slot, e);
      StoreBack(pages, pageSize, t.page, q, t.slot, e);
      DirectChange(pages, pages[t.page := q], pageSize, t, e);
      pages := pages[t.page := q];
    }

    /** A record stored directly goes, and its space is promised again (sp_segment.cc:412-433). */
    method Erase(t: Tid)
      requires Valid()
      requires At(pages, pageSize, t).Live? && !At(pages, pageSize, t).target
      modifies `pages, fsi`frames
      ensures Valid()
      ensures OnlyRecord(old(pages), pages, pageSize, t, None)
      ensures |pages| == old(|pages|) && BestPromise(fsi.table, pages[t.page].freeSpace, fsi.Promised(t.page))
      ensures forall p :: 0 <= p < |pages| && p != t.page ==> fsi.Promised(p) == old(fsi.Promised(p))
    {
      hide Layout, FSISegment.Valid, FSISegment.Promised, LinksOk, OnlyRecord;
      Readable(pages, pageSize, t);
      var sp := new SlottedPage.Load(pages[t.page]);
      sp.Erase(t.slot);
      var q := sp.Unload();
      EntryErased(pages[t.page], q, pageSize, t.slot);
      PutBack(t, q, Vacant);
    }

    /** The record moves to another page and its slot says where to (sp_segment.cc:252-288). */
    method Redirected(t: Tid, n: nat) returns (ok: bool)
      requires Valid() && n + TID <= pageSize - HEADER - SLOT && |pages| < PAGE_ID_LIMIT
      requires At(pages, pageSize, t).Live? && !At(pages, pageSize, t).target
      requires |At(pages, pageSize, t).bytes| < n && pages[t.page].freeSpace + |At(pages, pageSize, t).bytes| <= n
      modifies `pages, fsi`frames, fsi`slottedPages
      ensures !ok <==> old(HintFails(n + TID + SLOT))
      ensures !ok ==> pages == old(pages)
      ensures Valid()
      ensures ok ==> OnlyRecord(old(pages), pages, pageSize, t, Some(Resized(old(At(pages, pageSize, t).bytes), n)))
      ensures ok ==> At(pages, pageSize, t).Moved? && At(pages, pageSize, t).tid.page != t.page
      ensures ok ==> old(|pages|) <= |pages| && BestPromise(fsi.table, pages[t.page].freeSpace, fsi.Promised(t.page))
      ensures ok ==> forall p :: 0 <= p < old(|pages|) && p != t.page && p != At(pages, pageSize, t).tid.page ==>
                                   fsi.Promised(p) == old(fsi.Promised(p))
      ensures !SomeHintBeyond(old(pages)) ==> !SomeHintBeyond(pages)
    {
      hide Layout, LookUpTable, Level, Covers, Encode, LinksOk, OneChanged, OnlyRecord, Resized, HintFails;
      Readable(pages, pageSize, t);
      ghost var before := pages;
      var slot := pages[t.page].slots[t.slot];
      var buffer := pages[t.page].data[slot.offset..slot.offset + slot.size];
      var r := Allocate(n + TID);
      if r.None? {
        return false;
      }
      var u := r.value;
      assert u.page != t.page;
      ghost var one := pages;
      PointTo(t, u);
      ghost var two := pages;
      ChangedAt(before, one, pageSize, u, Live(Zeros(n + TID), false), u);
      ChangedAt(one, two, pageSize, t, Moved(u), u);
      FillTarget(t, u, buffer, n);
      RedirectsIs(before, one, two, pages, pageSize, t, u, Live(Zeros(n + TID), false), Resized(buffer, n));
      RedirectChange(before, pages, pageSize, t, u, Resized(buffer, n));
      MovedIs(before, pages, pageSize, t, u, Resized(buffer, n));
      ok := true;
    }

    /** The slot of `t` redirects to `u`, and the space of its record is promised again (sp_segment.cc:258-267). */
    method PointTo(t: Tid, u: Tid)
      requires fsi.Valid() && pageSize == fsi.pageSize && fsi.slottedPages == |pages|
      requires PagesOk(pages, pageSize) && Conservative() && At(pages, pageSize, t).Live?
      modifies `pages, fsi`frames
      ensures fsi.Valid() && fsi.slottedPages == |pages| == old(|pages|)
      ensures PagesOk(pages, pageSize) && Conservative()
      ensures OneChanged(old(pages), pages, pageSize, t, Moved(u))
      ensures BestPromise(fsi.table, pages[t.page].freeSpace, fsi.Promised(t.page))
      ensures forall p :: 0 <= p < |pages| && p != t.page ==> fsi.Promised(p) == old(fsi.Promised(p))
      ensures !SomeHintBeyond(old(pages)) ==> !SomeHintBeyond(pages)
    {
      hide Layout, LookUpTable, Level, Covers, Encode, OneChanged;
      Readable(pages, pageSize, t);
      var p := pages[t.page];
      var q := p.(slots := p.slots[t.slot := Redirect(u)], freeSpace := p.freeSpace + p.slots[t.slot].size);
      SlotRedirected(p, pageSize, t.slot, u, q);
      EntrySet(p, q, pageSize, t.slot, Moved(u));
      StoreBack(pages, pageSize, t.page, q, t.slot, Moved(u));
      pages := pages[t.page := q];
      fsi.Update(t.page, q.freeSpace);
    }

    /** The fresh slot `u` becomes the target of `t` and gets its id and its bytes (sp_segment.cc:268-286). */
    method FillTarget(t: Tid, u: Tid, buffer: seq<Byte>, n: nat)
      requires PagesOk(pages, pageSize) && |buffer| <= n
      requires At(pages, pageSize, u) == Live(Zeros(n + TID), false)
      modifies `pages
      ensures PagesOk(pages, pageSize) && |pages| == old(|pages|)
      ensures OneChanged(old(pages), pages, pageSize, u, Live(TidBytes(t) + Resized(buffer, n), true))
      ensures forall p :: 0 <= p < |pages| ==> pages[p].freeSpace == old(pages)[p].freeSpace
      ensures !SomeHintBeyond(old(pages)) ==> !SomeHintBeyond(pages)
    {
      hide Layout, OneChanged, ToBytes;
      Readable(pages, pageSize, u);
      var page := pages[u.page];
      var slot := page.slots[u.slot];
      assert slot.size == n + TID && !slot.target;
      var sp := new SlottedPage.Load(page);
      sp.slots := sp.slots[u.slot := slot.(target := true)];
      Store(sp.data, slot.offset, TidBytes(t) + buffer);
      var q := sp.Unload();
      WritesLayout(page, pageSize, u.slot, TidBytes(t) + buffer, true, q);
      WritesEntries(page, pageSize, u.slot, TidBytes(t) + buffer, true, q);
      FilledUp(t, buffer, n);
      EntrySet(page, q, pageSize, u.slot, Live(TidBytes(t) + Resized(buffer, n), true));
      StoreBack(pages, pageSize, u.page, q, u.slot, Live(TidBytes(t) + Resized(buffer, n), true));
      pages := pages[u.page := q];
    }

    /** There is no room on the page of `t` to grow to `n` bytes; the comparison is strict (sp_segment.cc:237). */
    ghost predicate MustMove(t: Tid, n: nat)
      requires Valid() && At(pages, pageSize, t).Live?
      reads this, fsi
    {
      |At(pages, pageSize, t).bytes| < n && pages[t.page].freeSpace + |At(pages, pageSize, t).bytes| <= n
    }

    /**
      Resizes a record stored directly: the record keeps its bytes as far as they go and ends in
      zeros, whether it stays on its page or moves to another behind a redirect
      (sp_segment.cc:197-290). The outcome is false where the program's own assertion stops it.
      */
    method Resize(t: Tid, n: nat) returns (ok: bool)
      requires Valid() && 0 < n
      requires At(pages, pageSize, t).Live? && !At(pages, pageSize, t).target
      requires MustMove(t, n) ==> n + TID <= pageSize - HEADER - SLOT && |pages| < PAGE_ID_LIMIT
      modifies `pages, fsi`frames, fsi`slottedPages
      ensures !ok <==> old(MustMove(t, n)) && old(HintFails(n + TID + SLOT))
      ensures !ok ==> pages == old(pages)
      ensures Valid()
      ensures ok ==> OnlyRecord(old(pages), pages, pageSize, t, Some(Resized(old(At(pages, pageSize, t).bytes), n)))
      ensures ok ==> (At(pages, pageSize, t).Moved? <==> old(MustMove(t, n)))
      ensures ok && old(MustMove(t, n)) ==> At(pages, pageSize, t).tid.page != t.page
      ensures ok ==> old(|pages|) <= |pages|
      ensures ok && n != old(|At(pages, pageSize, t).bytes|) ==>
                BestPromise(fsi.table, pages[t.page].freeSpace, fsi.Promised(t.page))
      ensures ok && n == old(|At(pages, pageSize, t).bytes|) ==> pages == old(pages) && fsi.frames == old(fsi.frames)
      ensures ok ==> forall p :: 0 <= p < old(|pages|) && p != t.page
                                 && (At(pages, pageSize, t).Moved? ==> p != At(pages, pageSize, t).tid.page) ==>
                                   fsi.Promised(p) == old(fsi.Promised(p))
      ensures !SomeHintBeyond(old(pages)) ==> !SomeHintBeyond(pages)
    {
      hide Layout, FSISegment.Valid, FSISegment.Promised, LinksOk, OnlyRecord, Resized;
      Readable(pages, pageSize, t);
      var page := pages[t.page];
      var size := page.slots[t.slot].size;
      ghost var bytes := At(pages, pageSize, t).bytes;
      ok := true;
      if n == size {
        Unchanged(pages, pageSize, t, n);
      } else if n < size {
        page := page.(slots := page.slots[t.slot := page.slots[t.slot].(size := n)], freeSpace := page.freeSpace + (size - n));
        ShrunkOk(pages[t.page], pageSize, t.slot, n, page);
        PutBack(t, page, Live(bytes[..n], false));
        CutIs(bytes, n);
      } else if page.freeSpace + size > n {
        LayoutPlaced(page, pageSize);
        var sp := new SlottedPage.Load(page);
        sp.Relocate(t.slot, n);
        var q := sp.Unload();
        EntrySet(page, q, pageSize, t.slot, Live(Resized(bytes, n), false));
        PutBack(t, q, Live(Resized(bytes, n), false));
      } else {
        ok := Redirected(t, n);
      }
    }
  }

  lemma FirstPage(pageSize: nat, frames: seq<seq<Byte>>)
    requires HEADER + SLOT <= pageSize < PAGE_LIMIT && frames == [seq(pageSize, i => 0xFF)]
    ensures 1 / (2 * pageSize) == 0 && Covers(frames, pageSize, 1) && Level(frames, pageSize, 1, 0) == 15
    ensures PageOk(NewPage(pageSize), pageSize)
    ensures PagesOk([NewPage(pageSize)], pageSize) && LinksOk([NewPage(pageSize)], pageSize)
  {
    SplitIndex(1, 2 * pageSize, 0, 1);
    SplitIndex(0, 2 * pageSize, 0, 0);
  }

  lemma NewPageOk(pageSize: nat)
    requires HEADER + SLOT <= pageSize < PAGE_LIMIT
    ensures PageOk(NewPage(pageSize), pageSize)
  {
  }

  lemma Appended(before: seq<Page>, pageSize: nat, q: Page, slot: nat, e: Entry)
    requires PagesOk(before, pageSize) && PageOk(q, pageSize) && slot == 0
    requires Entries(q) == [e]
    ensures PagesOk(before + [q], pageSize)
    ensures At(before, pageSize, Tid(|before|, slot)).Vacant?
    ensures OneChanged(before, before + [q], pageSize, Tid(|before|, slot), e)
  {
  }

  /** Where the bytes of a record stored directly are. */
  lemma Readable(pages: seq<Page>, pageSize: nat, t: Tid)
    requires PagesOk(pages, pageSize) && !At(pages, pageSize, t).Vacant?
    ensures t.page < |pages| && t.slot < |pages[t.page].slots|
    ensures var page := pages[t.page];
            var slot := page.slots[t.slot];
            && |page.data| == pageSize && !slot.Free?
            && (slot.Redirect? <==> At(pages, pageSize, t).Moved?)
            && (slot.Redirect? ==> slot.tid == At(pages, pageSize, t).tid)
            && (slot.Record? ==>
                  && slot.offset + slot.size <= pageSize && 0 < slot.size
                  && At(pages, pageSize, t) == Live(page.data[slot.offset..slot.offset + slot.size], slot.target))
  {
    var page := pages[t.page];
    assert PageOk(page, pageSize);
    assert Inside(page.slots[t.slot], page.dataStart, pageSize);
  }

  lemma PartOf(data: seq<Byte>, offset: nat, size: nat, from: nat, n: nat)
    requires offset + size <= |data| && from + n <= size
    ensures data[offset..offset + size][from..][..n] == data[offset + from..offset + from + n]
    ensures from == 0 ==> data[offset..offset + size][..n] == data[offset..offset + n]
  {
  }

  lemma LinkFollowed(pages: seq<Page>, pageSize: nat, t: Tid)
    requires PagesOk(pages, pageSize) && LinksOk(pages, pageSize) && At(pages, pageSize, t).Moved?
    ensures var u := At(pages, pageSize, t).tid;
            var e := At(pages, pageSize, u);
            && e.Live? && e.target && TID < |e.bytes| && e.bytes[..TID] == TidBytes(t) && u.page != t.page
            && RecordAt(pages, pageSize, t) == Some(e.bytes[TID..])
    ensures !At(pages, pageSize, At(pages, pageSize, t).tid).Vacant?
  {
  }

  lemma Unchanged(pages: seq<Page>, pageSize: nat, t: Tid, n: nat)
    requires PagesOk(pages, pageSize) && At(pages, pageSize, t).Live? && !At(pages, pageSize, t).target
    requires |At(pages, pageSize, t).bytes| == n
    ensures OnlyRecord(pages, pages, pageSize, t, Some(Resized(At(pages, pageSize, t).bytes, n)))
  {
    CutIs(At(pages, pageSize, t).bytes, n);
    assert At(pages, pageSize, t).bytes[..n] == At(pages, pageSize, t).bytes;
  }

  lemma CutIs(b: seq<Byte>, n: nat)
    requires n <= |b|
    ensures Resized(b, n) == b[..n]
  {
  }

  lemma ShrunkOk(p: Page, pageSize: nat, id: nat, n: nat, q: Page)
    requires PageOk(p, pageSize) && Cuts(p, id, n, q)
    ensures PageOk(q, pageSize)
    ensures n <= |Entries(p)[id].bytes| && Entries(p)[id].Live?
    ensures forall s: nat :: EntryAt(q, pageSize, s)
                             == if s == id then Live(Entries(p)[id].bytes[..n], Entries(p)[id].target) else EntryAt(p, pageSize, s)
  {
    EntriesFreeAll(p, pageSize);
    CutsLayout(p, pageSize, id, n, q);
    CutsEntries(p, pageSize, id, n, q);
  }

  lemma FilledUp(t: Tid, buffer: seq<Byte>, n: nat)
    requires |buffer| <= n
    ensures TidBytes(t) + buffer + Zeros(n + TID)[TID + |buffer|..] == TidBytes(t) + Resized(buffer, n)
  {
  }

  lemma MovedIs(before: seq<Page>, after: seq<Page>, pageSize: nat, t: Tid, u: Tid, r: seq<Byte>)
    requires PagesOk(before, pageSize) && PagesOk(after, pageSize) && Redirects(before, after, pageSize, t, u, r)
    ensures At(after, pageSize, t) == Moved(u)
  {
  }
}
