/**
  What a slotted page is (`Page`, on values), which pages are well laid out, and what they
  mean (`Entries`). Source: task-slotted-pages/include/slotted_page/slotted_page.h.
  The slots are kept in a sequence of their own; `Layout` keeps the records clear of the
  bytes the header and the slot array occupy.
  */
module PageLayout {
  newtype Byte = x: int | 0 <= x < 256

  /** sizeof(Header), sizeof(Slot) and sizeof(TID). */
  const HEADER := 12
  const SLOT := 8
  const TID := 8

  /** With a smaller page the slot count fits 16 bits and offsets and sizes fit 24. */
  const PAGE_LIMIT := 524300

  datatype Tid = Tid(page: nat, slot: nat)

  /** The fields of a slot word; the all-zero record is the empty slot. */
  datatype Slot = Free | Record(offset: nat, size: nat, target: bool) | Redirect(tid: Tid)

  datatype Page = Page(slots: seq<Slot>, firstFree: nat, dataStart: nat, freeSpace: nat, data: seq<Byte>)

  /** What a slot id stands for. */
  datatype Entry = Vacant | Live(bytes: seq<Byte>, target: bool) | Moved(tid: Tid)

  function SizeOf(s: Slot): nat { if s.Record? then s.size else 0 }

  /** The bytes all records of a page take. */
  function LiveSum(slots: seq<Slot>): nat {
    if slots == [] then 0 else LiveSum(slots[..|slots| - 1]) + SizeOf(slots[|slots| - 1])
  }

  lemma {:induction false} LiveSumAppend(slots: seq<Slot>, s: Slot)
    ensures LiveSum(slots + [s]) == LiveSum(slots) + SizeOf(s)
  {
    assert (slots + [s])[..|slots|] == slots;
  }

  lemma {:induction false} LiveSumUpdate(slots: seq<Slot>, i: nat, s: Slot)
    requires i < |slots|
    ensures LiveSum(slots[i := s]) == LiveSum(slots) - SizeOf(slots[i]) + SizeOf(s)
  {
    var n := |slots| - 1;
    if i < n {
      assert slots[i := s][..n] == slots[..n][i := s];
      LiveSumUpdate(slots[..n], i, s);
    } else {
      assert slots[i := s][..n] == slots[..n];
    }
  }

  lemma {:induction false} LiveSumSame(a: seq<Slot>, b: seq<Slot>)
    requires |a| == |b| && forall i :: 0 <= i < |a| ==> SizeOf(a[i]) == SizeOf(b[i])
    ensures LiveSum(a) == LiveSum(b)
  {
    if a != [] {
      var n := |a| - 1;
      LiveSumSame(a[..n], b[..n]);
    }
  }

  ghost predicate Inside(s: Slot, low: nat, pageSize: nat) {
    s.Record? ==> 0 < s.size && low <= s.offset && s.offset + s.size <= pageSize
  }

  ghost predicate Apart(a: Slot, b: Slot) {
    a.Record? && b.Record? ==> a.offset + a.size <= b.offset || b.offset + b.size <= a.offset
  }

  /** Records lie in the page at `low` or above and do not overlap. */
  ghost predicate Placed(slots: seq<Slot>, low: nat, pageSize: nat) {
    && (forall i :: 0 <= i < |slots| ==> Inside(slots[i], low, pageSize))
    && (forall i, j :: 0 <= i < j < |slots| ==> Apart(slots[i], slots[j]))
  }

  ghost predicate Layout(p: Page, pageSize: nat) {
    && |p.data| == pageSize < PAGE_LIMIT
    && HEADER + SLOT * |p.slots| <= p.dataStart <= pageSize
    && Placed(p.slots, p.dataStart, pageSize)
    && p.freeSpace == pageSize - HEADER - SLOT * |p.slots| - LiveSum(p.slots)
  }

  lemma LayoutPlaced(p: Page, pageSize: nat)
    requires Layout(p, pageSize)
    ensures |p.data| == pageSize && Placed(p.slots, p.dataStart, pageSize)
  {
  }

  /** Between calls: a layout, and the free-slot hint names an empty slot if it names one. */
  ghost predicate PageOk(p: Page, pageSize: nat) {
    && Layout(p, pageSize)
    && (p.firstFree < |p.slots| ==> p.slots[p.firstFree].Free?)
  }

  function EntryOf(s: Slot, data: seq<Byte>): Entry
    requires s.Record? ==> s.offset + s.size <= |data|
  {
    match s
    case Free => Vacant
    case Record(offset, size, target) => Live(data[offset..offset + size], target)
    case Redirect(tid) => Moved(tid)
  }

  ghost function Entries(p: Page): (r: seq<Entry>)
    requires Placed(p.slots, p.dataStart, |p.data|)
    ensures |r| == |p.slots|
    ensures forall i :: 0 <= i < |r| ==> r[i] == EntryOf(p.slots[i], p.data)
  {
    seq(|p.slots|, i requires 0 <= i < |p.slots| => EntryOf(p.slots[i], p.data))
  }

  function Zeros(n: nat): (r: seq<Byte>)
    ensures |r| == n && forall i :: 0 <= i < n ==> r[i] == 0
  {
    seq(n, i => 0)
  }

  /** `b` cut to `n` bytes, or filled up with zeros. */
  function Resized(b: seq<Byte>, n: nat): (r: seq<Byte>)
    ensures |r| == n
    ensures forall i :: 0 <= i < n ==> r[i] == if i < |b| then b[i] else 0
  {
    if n <= |b| then b[..n] else b + Zeros(n - |b|)
  }

  /** The entries left once the vacant ones at the end are dropped. */
  function Trim(e: seq<Entry>): (r: seq<Entry>)
    ensures r <= e
    ensures r != [] ==> !r[|r| - 1].Vacant?
    ensures forall i :: |r| <= i < |e| ==> e[i].Vacant?
  {
    if e != [] && e[|e| - 1].Vacant? then Trim(e[..|e| - 1]) else e
  }

  /** A page fresh from the constructor. */
  function NewPage(pageSize: nat): Page
    requires HEADER <= pageSize
  {
    Page([], 0, pageSize, pageSize - HEADER, Zeros(pageSize))
  }
}
