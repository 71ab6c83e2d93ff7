/**
  What a segment of slotted pages means: the record a tuple id stands for, directly or over
  one redirect, and how the entries of its pages may change without disturbing other records.
  Source: task-slotted-pages/src/slotted_page/sp_segment.cc.
  */
module SegmentRecords {
  import opened Collections
  import opened PageLayout
  import opened PageSteps

  // ---------- the eight bytes of a tuple id, lowest first ----------

  function ToBytes(v: nat, n: nat): (r: seq<Byte>)
    ensures |r| == n
  {
    if n == 0 then [] else [(v % 256) as Byte] + ToBytes(v / 256, n - 1)
  }

  function FromBytes(b: seq<Byte>): nat {
    if b == [] then 0 else b[0] as int + 256 * FromBytes(b[1..])
  }

  function Power256(n: nat): nat {
    if n == 0 then 1 else 256 * Power256(n - 1)
  }

  lemma {:induction false} BytesRoundTrip(v: nat, n: nat)
    requires v < Power256(n)
    ensures FromBytes(ToBytes(v, n)) == v
  {
    if n != 0 {
      BytesRoundTrip(v / 256, n - 1);
      assert ToBytes(v, n)[1..] == ToBytes(v / 256, n - 1);
    }
  }

  predicate TidFits(t: Tid) { t.page < 0x1_0000_0000_0000 && t.slot < 0x1_0000 }

  function TidBytes(t: Tid): (r: seq<Byte>)
    ensures |r| == TID
  {
    ToBytes(t.page * 0x1_0000 + t.slot, TID)
  }

  /** A stored tuple id tells which record it belongs to. */
  lemma TidBytesInjective(t: Tid, u: Tid)
    requires TidFits(t) && TidFits(u) && TidBytes(t) == TidBytes(u)
    ensures t == u
  {
    assert Power256(4) == 0x1_0000_0000 by {
      assert Power256(2) == 0x1_0000;
      assert Power256(3) == 0x100_0000;
    }
    assert Power256(8) == 0x1_0000_0000_0000_0000 by {
      assert Power256(5) == 0x100_0000_0000;
      assert Power256(6) == 0x1_0000_0000_0000;
      assert Power256(7) == 0x100_0000_0000_0000;
    }
    BytesRoundTrip(t.page * 0x1_0000 + t.slot, TID);
    BytesRoundTrip(u.page * 0x1_0000 + u.slot, TID);
  }

  /** The slot in the first two bytes and the page in the other six, each with its lowest byte first. */
  lemma TidBytesAre(t: Tid)
    requires TidFits(t)
    ensures var b := TidBytes(t);
            && b[0] as int + 0x100 * b[1] as int == t.slot
            && b[2] as int + 0x100 * b[3] as int + 0x1_0000 * b[4] as int + 0x100_0000 * b[5] as int
               + 0x1_0000_0000 * b[6] as int + 0x100_0000_0000 * b[7] as int == t.page
  {
    var v, p := t.page * 0x1_0000 + t.slot, t.page;
    TidParts(t, v);
    TwoBytes(v, 8);
    TwoBytes(p, 6);
    TwoBytes(p / 256 / 256, 4);
    TwoBytes(p / 256 / 256 / 256 / 256, 2);
    hide ToBytes;
    SixBytes(p);
  }

  lemma TidParts(t: Tid, v: nat)
    requires TidFits(t) && v == t.page * 0x1_0000 + t.slot
    ensures v % 256 + 0x100 * (v / 256 % 256) == t.slot && v / 256 / 256 == t.page
  {
    assert v % 256 == t.slot % 256 && v / 256 == t.page * 0x100 + t.slot / 256;
    assert v / 256 % 256 == t.slot / 256 && v / 256 / 256 == t.page;
  }

  lemma SixBytes(p: nat)
    requires p < 0x1_0000_0000_0000
    ensures var q := p / 256 / 256;
            var r := q / 256 / 256;
            p % 256 + 0x100 * (p / 256 % 256) + 0x1_0000 * (q % 256) + 0x100_0000 * (q / 256 % 256)
            + 0x1_0000_0000 * (r % 256) + 0x100_0000_0000 * (r / 256 % 256) == p
  {
  }

  lemma TwoBytes(v: nat, n: nat)
    requires 2 <= n
    ensures ToBytes(v, n) == [(v % 256) as Byte, (v / 256 % 256) as Byte] + ToBytes(v / 256 / 256, n - 2)
  {
    assert ToBytes(v, n) == [(v % 256) as Byte] + ToBytes(v / 256, n - 1);
    assert ToBytes(v / 256, n - 1) == [(v / 256 % 256) as Byte] + ToBytes(v / 256 / 256, n - 2);
  }

  // ---------- records ----------

  ghost predicate PagesOk(pages: seq<Page>, pageSize: nat) {
    forall p :: 0 <= p < |pages| ==> PageOk(pages[p], pageSize)
  }

  ghost function EntryAt(p: Page, pageSize: nat, slot: nat): Entry
    requires PageOk(p, pageSize)
  {
    if slot < |p.slots| then Entries(p)[slot] else Vacant
  }

  ghost function At(pages: seq<Page>, pageSize: nat, t: Tid): Entry
    requires PagesOk(pages, pageSize)
  {
    if t.page < |pages| then EntryAt(pages[t.page], pageSize, t.slot) else Vacant
  }

  /** The record under a tuple id that allocate gave out; a redirect target is not one. */
  ghost function RecordAt(pages: seq<Page>, pageSize: nat, t: Tid): Option<seq<Byte>>
    requires PagesOk(pages, pageSize)
  {
    match At(pages, pageSize, t)
    case Vacant => None
    case Live(bytes, target) => if target then None else Some(bytes)
    case Moved(u) =>
      match At(pages, pageSize, u)
      case Live(bytes, _) => if TID <= |bytes| then Some(bytes[TID..]) else None
      case _ => None
  }

  /** A redirect leads, in one hop and to another page, to a target that names the slot it came from. */
  ghost predicate Linked(t: Tid, u: Tid, e: Entry) {
    u.page != t.page && e.Live? && e.target && TID < |e.bytes| && e.bytes[..TID] == TidBytes(t)
  }

  ghost predicate LinksOk(pages: seq<Page>, pageSize: nat)
    requires PagesOk(pages, pageSize)
  {
    forall t: Tid :: At(pages, pageSize, t).Moved? ==>
                       Linked(t, At(pages, pageSize, t).tid, At(pages, pageSize, At(pages, pageSize, t).tid))
  }

  /** Only the entry of `t` differs: it is now `e`. */
  ghost predicate OneChanged(before: seq<Page>, after: seq<Page>, pageSize: nat, t: Tid, e: Entry)
    requires PagesOk(before, pageSize) && PagesOk(after, pageSize)
  {
    forall x: Tid :: At(after, pageSize, x) == if x == t then e else At(before, pageSize, x)
  }

  /** Only the record of `t` differs: it is now `r`. */
  ghost predicate OnlyRecord(before: seq<Page>, after: seq<Page>, pageSize: nat, t: Tid, r: Option<seq<Byte>>)
    requires PagesOk(before, pageSize) && PagesOk(after, pageSize)
  {
    forall x: Tid :: RecordAt(after, pageSize, x) == if x == t then r else RecordAt(before, pageSize, x)
  }

  lemma ChangedAt(before: seq<Page>, after: seq<Page>, pageSize: nat, t: Tid, e: Entry, x: Tid)
    requires PagesOk(before, pageSize) && PagesOk(after, pageSize) && OneChanged(before, after, pageSize, t, e)
    ensures At(after, pageSize, x) == if x == t then e else At(before, pageSize, x)
  {
  }

  /** The assertion at slotted_page.cc:33 would fail on some page. */
  ghost predicate SomeHintBeyond(pages: seq<Page>) {
    exists p :: 0 <= p < |pages| && |pages[p].slots| < pages[p].firstFree
  }

  /** At most page `page` differs; pages may have been added. */
  ghost predicate KeptBut(before: seq<Page>, after: seq<Page>, page: nat) {
    && |before| <= |after|
    && forall p :: 0 <= p < |before| && p != page ==> after[p] == before[p]
  }

  /** `t` is a new record of `n` zeros, all else is as it was. */
  ghost predicate Gained(before: seq<Page>, after: seq<Page>, pageSize: nat, t: Tid, n: nat) {
    && PagesOk(before, pageSize) && PagesOk(after, pageSize)
    && At(before, pageSize, t).Vacant?
    && OneChanged(before, after, pageSize, t, Live(Zeros(n), false))
    && OnlyRecord(before, after, pageSize, t, Some(Zeros(n)))
  }

  /** A record stored directly may change or go without any other record noticing. */
  lemma DirectChange(before: seq<Page>, after: seq<Page>, pageSize: nat, t: Tid, e: Entry)
    requires PagesOk(before, pageSize) && PagesOk(after, pageSize) && LinksOk(before, pageSize)
    requires OneChanged(before, after, pageSize, t, e)
    requires At(before, pageSize, t).Vacant? || (At(before, pageSize, t).Live? && !At(before, pageSize, t).target)
    requires e.Vacant? || (e.Live? && !e.target)
    ensures LinksOk(after, pageSize)
    ensures OnlyRecord(before, after, pageSize, t, if e.Live? then Some(e.bytes) else None)
  {
    forall x: Tid
      ensures At(after, pageSize, x).Moved? ==>
                Linked(x, At(after, pageSize, x).tid, At(after, pageSize, At(after, pageSize, x).tid))
      ensures RecordAt(after, pageSize, x)
              == if x == t then if e.Live? then Some(e.bytes) else None else RecordAt(before, pageSize, x)
    {
      if x != t {
        var a := At(before, pageSize, x);
        assert At(after, pageSize, x) == a;
        if a.Moved? {
          assert Linked(x, a.tid, At(before, pageSize, a.tid));
          assert a.tid != t;
        }
      } else {
        assert At(after, pageSize, t) == e;
      }
    }
  }

  /** `t` redirects to `u`, where its id and the bytes `r` are; all else is as it was. */
  ghost predicate Redirects(before: seq<Page>, after: seq<Page>, pageSize: nat, t: Tid, u: Tid, r: seq<Byte>)
    requires PagesOk(before, pageSize) && PagesOk(after, pageSize)
  {
    forall x: Tid :: At(after, pageSize, x)
                     == if x == t then Moved(u) else if x == u then Live(TidBytes(t) + r, true) else At(before, pageSize, x)
  }

  /**
    A record moves to a fresh slot `u` of another page, behind its own tuple id: the record under
    `t` is now what follows the id, and no other record notices.
    */
  lemma RedirectChange(before: seq<Page>, after: seq<Page>, pageSize: nat, t: Tid, u: Tid, r: seq<Byte>)
    requires PagesOk(before, pageSize) && PagesOk(after, pageSize)
    requires LinksOk(before, pageSize)
    requires At(before, pageSize, t).Live? && !At(before, pageSize, t).target
    requires At(before, pageSize, u).Vacant? && u.page != t.page && 0 < |r|
    requires Redirects(before, after, pageSize, t, u, r)
    ensures LinksOk(after, pageSize)
    ensures OnlyRecord(before, after, pageSize, t, Some(r))
  {
    var e := Live(TidBytes(t) + r, true);
    assert At(after, pageSize, u) == e && At(after, pageSize, t) == Moved(u);
    assert e.bytes[..TID] == TidBytes(t) && e.bytes[TID..] == r;
    forall x: Tid
      ensures At(after, pageSize, x).Moved? ==>
                Linked(x, At(after, pageSize, x).tid, At(after, pageSize, At(after, pageSize, x).tid))
      ensures RecordAt(after, pageSize, x) == if x == t then Some(r) else RecordAt(before, pageSize, x)
    {
      if x != t && x != u {
        var a := At(before, pageSize, x);
        assert At(after, pageSize, x) == a;
        if a.Moved? {
          assert Linked(x, a.tid, At(before, pageSize, a.tid));
          assert a.tid != t && a.tid != u;
          assert At(after, pageSize, a.tid) == At(before, pageSize, a.tid);
        }
      }
    }
  }

  lemma RedirectsIs(before: seq<Page>, one: seq<Page>, two: seq<Page>, after: seq<Page>, pageSize: nat,
                    t: Tid, u: Tid, zeros: Entry, r: seq<Byte>)
    requires PagesOk(before, pageSize) && PagesOk(one, pageSize) && PagesOk(two, pageSize) && PagesOk(after, pageSize)
    requires t != u
    requires OneChanged(before, one, pageSize, u, zeros)
    requires OneChanged(one, two, pageSize, t, Moved(u))
    requires OneChanged(two, after, pageSize, u, Live(TidBytes(t) + r, true))
    ensures Redirects(before, after, pageSize, t, u, r)
  {
    forall x: Tid
      ensures At(after, pageSize, x)
              == if x == t then Moved(u) else if x == u then Live(TidBytes(t) + r, true) else At(before, pageSize, x)
    {
      assert At(one, pageSize, x) == if x == u then zeros else At(before, pageSize, x);
      assert At(two, pageSize, x) == if x == t then Moved(u) else At(one, pageSize, x);
    }
  }

  // ---------- from one page to the segment ----------

  /** Storing back a page that differs in one entry. */
  lemma StoreBack(before: seq<Page>, pageSize: nat, p: nat, q: Page, slot: nat, e: Entry)
    requires PagesOk(before, pageSize) && p < |before| && PageOk(q, pageSize)
    requires forall s: nat :: EntryAt(q, pageSize, s) == if s == slot then e else EntryAt(before[p], pageSize, s)
    ensures PagesOk(before[p := q], pageSize)
    ensures OneChanged(before, before[p := q], pageSize, Tid(p, slot), e)
  {
    var after := before[p := q];
    forall x: Tid ensures At(after, pageSize, x) == if x == Tid(p, slot) then e else At(before, pageSize, x) {
      if x.page == p {
        assert EntryAt(q, pageSize, x.slot) == if x.slot == slot then e else EntryAt(before[p], pageSize, x.slot);
      }
    }
  }

  lemma EntrySet(p: Page, q: Page, pageSize: nat, slot: nat, e: Entry)
    requires PageOk(p, pageSize) && PageOk(q, pageSize) && slot <= |p.slots|
    requires Entries(q) == if slot < |p.slots| then Entries(p)[slot := e] else Entries(p) + [e]
    ensures forall s: nat :: EntryAt(q, pageSize, s) == if s == slot then e else EntryAt(p, pageSize, s)
  {
  }

  lemma EntryErased(p: Page, q: Page, pageSize: nat, slot: nat)
    requires PageOk(p, pageSize) && PageOk(q, pageSize) && slot < |p.slots|
    requires Entries(q) == Erased(Entries(p), slot)
    ensures forall s: nat :: EntryAt(q, pageSize, s) == if s == slot then Vacant else EntryAt(p, pageSize, s)
  {
    var e := Entries(p)[slot := Vacant];
    forall s: nat ensures EntryAt(q, pageSize, s) == if s == slot then Vacant else EntryAt(p, pageSize, s) {
      if |q.slots| <= s < |p.slots| {
        assert e[s].Vacant?;
      } else if s < |q.slots| {
        assert Entries(q)[s] == e[s];
      }
    }
  }
}
