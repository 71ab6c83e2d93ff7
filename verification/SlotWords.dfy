/**
  The two 64-bit words of a slotted page, bit by bit: slots and tuple ids.
  Source: task-slotted-pages/include/slotted_page/slotted_page.h.
  The page model keeps the fields of a slot; here each operation on the word is shown to
  change exactly the field it names.
  */
module SlotWords {
  type Word = bv64

  const EMPTY: Word := 0xFF00_0000_0000_0000
  const UNSET_OFFSET: Word := 0xFFFF_0000_00FF_FFFF
  const UNSET_SIZE: Word := 0xFFFF_FFFF_FF00_0000
  const FIELD: Word := 0xFF_FFFF

  function IsRedirect(w: Word): bool { w >> 56 != 0xFF }
  function IsRedirectTarget(w: Word): bool { (w >> 48) & 0xFF != 0 }
  function GetSize(w: Word): Word { w & FIELD }
  function GetOffset(w: Word): Word { (w >> 24) & FIELD }
  function IsEmpty(w: Word): bool { w == EMPTY }

  function SetOffset(w: Word, offset: Word): Word { (w & UNSET_OFFSET) ^ (offset << 24) }
  function SetSize(w: Word, size: Word): Word { (w & UNSET_SIZE) ^ size }

  function SetSlot(offset: Word, size: Word, target: bool): Word {
    Assembled(offset, size, if target then 0xFF else 0)
  }

  function Assembled(offset: Word, size: Word, flag: Word): Word {
    (size & FIELD) ^ ((offset & FIELD) << 24) ^ (flag << 48) ^ (0xFF << 56)
  }

  function Cleared(w: Word): Word { w & !(0xFF << 48) }

  function MarkAsRedirectTarget(w: Word, target: bool): Word {
    if target then Cleared(w) ^ 0xFF_0000_0000_0000 else Cleared(w)
  }

  /** The fields, or the tuple id of a slot that redirects. */
  datatype View = Redirected(tid: Word) | Fields(offset: Word, size: Word, target: bool)

  function ViewOf(w: Word): View {
    if IsRedirect(w) then Redirected(w) else Fields(GetOffset(w), GetSize(w), IsRedirectTarget(w))
  }

  /** A slot holds what it was set to; only the all-zero fields make an empty slot. */
  lemma SetSlotHolds(offset: Word, size: Word, target: bool)
    requires offset <= FIELD && size <= FIELD
    ensures ViewOf(SetSlot(offset, size, target)) == Fields(offset, size, target)
    ensures IsEmpty(SetSlot(offset, size, target)) <==> offset == 0 && size == 0 && !target
  {
    hide Assembled, ViewOf;
    if target {
      SetBits(offset, size, 0xFF);
      FieldsOf(Assembled(offset, size, 0xFF), offset, size, 0xFF);
    } else {
      SetBits(offset, size, 0);
      FieldsOf(Assembled(offset, size, 0), offset, size, 0);
    }
  }

  /** Where the fields are: size lowest, above it the offset, the flag byte and the byte 0xFF. */
  lemma SlotBits(offset: Word, size: Word, target: bool)
    requires offset <= FIELD && size <= FIELD
    ensures var w := SetSlot(offset, size, target);
            && w >> 56 == 0xFF && (w >> 48) & 0xFF == (if target then 0xFF else 0)
            && (w >> 24) & FIELD == offset && w & FIELD == size && FIELD == 0xFF_FFFF
  {
    hide Assembled;
    SetBits(offset, size, if target then 0xFF else 0);
  }

  lemma FieldsOf(w: Word, offset: Word, size: Word, flag: Word)
    requires w >> 56 == 0xFF && (w >> 48) & 0xFF == flag && (w >> 24) & FIELD == offset && w & FIELD == size
    ensures ViewOf(w) == Fields(offset, size, flag != 0)
  {
  }

  lemma SetBits(offset: Word, size: Word, flag: Word)
    requires offset <= FIELD && size <= FIELD && flag <= 0xFF
    ensures var w := Assembled(offset, size, flag);
            && w >> 56 == 0xFF && (w >> 48) & 0xFF == flag && (w >> 24) & FIELD == offset && w & FIELD == size
            && (w == EMPTY <==> offset == 0 && size == 0 && flag == 0)
  {
  }

  lemma SetOffsetHolds(w: Word, offset: Word)
    requires ViewOf(w).Fields? && offset <= FIELD
    ensures ViewOf(SetOffset(w, offset)) == ViewOf(w).(offset := offset)
  {
  }

  lemma SetSizeHolds(w: Word, size: Word)
    requires ViewOf(w).Fields? && size <= FIELD
    ensures ViewOf(SetSize(w, size)) == ViewOf(w).(size := size)
  {
  }

  lemma MarkHolds(w: Word)
    requires w >> 56 == 0xFF
    ensures ViewOf(w).Fields? && ViewOf(MarkAsRedirectTarget(w, true)) == ViewOf(w).(target := true)
  {
    ClearBits(w);
    hide ViewOf, Cleared;
    FlagBits(Cleared(w));
    ViewIs(MarkAsRedirectTarget(w, true), w, true);
  }

  lemma UnmarkHolds(w: Word)
    requires w >> 56 == 0xFF
    ensures ViewOf(w).Fields? && ViewOf(MarkAsRedirectTarget(w, false)) == ViewOf(w).(target := false)
  {
    ClearBits(w);
    hide ViewOf, Cleared;
    ViewIs(MarkAsRedirectTarget(w, false), w, false);
  }

  lemma ViewIs(m: Word, w: Word, target: bool)
    requires w >> 56 == 0xFF == m >> 56 && (m >> 24) & 0xFF_FFFF == (w >> 24) & 0xFF_FFFF && m & 0xFF_FFFF == w & 0xFF_FFFF
    requires (m >> 48) & 0xFF != 0 <==> target
    ensures ViewOf(w).Fields? && ViewOf(m) == ViewOf(w).(target := target)
  {
  }

  lemma ClearBits(w: Word)
    ensures var c := Cleared(w);
            c >> 56 == w >> 56 && (c >> 48) & 0xFF == 0 && (c >> 24) & 0xFF_FFFF == (w >> 24) & 0xFF_FFFF && c & 0xFF_FFFF == w & 0xFF_FFFF
  {
  }

  lemma FlagBits(c: Word)
    ensures var d := c ^ 0xFF_0000_0000_0000;
            d >> 56 == c >> 56 && (d >> 24) & 0xFF_FFFF == (c >> 24) & 0xFF_FFFF && d & 0xFF_FFFF == c & 0xFF_FFFF
    ensures (c >> 48) & 0xFF == 0 ==> ((c ^ 0xFF_0000_0000_0000) >> 48) & 0xFF == 0xFF
  {
  }

  /** Two words with the same fields are the same word, if the flag byte is 0 or 0xFF. */
  lemma ViewDetermines(v: Word, w: Word)
    requires ViewOf(v) == ViewOf(w)
    requires !IsRedirect(v) ==> (v >> 48) & 0xFF in {0, 0xFF} && (w >> 48) & 0xFF in {0, 0xFF}
    ensures v == w
  {
    Rebuilt(v);
    Rebuilt(w);
  }

  lemma Rebuilt(w: Word)
    ensures w == ((w >> 56) << 56) ^ (((w >> 48) & 0xFF) << 48) ^ (((w >> 24) & FIELD) << 24) ^ (w & FIELD)
  {
  }

  // ---------- tuple ids ----------

  /** The constructor is given the page id with its segment id on top; the shift drops the latter. */
  function MakeTid(page: Word, slot: Word): Word { (page << 16) ^ (slot & 0xFFFF) }
  function TidPage(tid: Word, segment: Word): Word { (tid >> 16) ^ (segment << 48) }
  function TidSegmentPage(tid: Word): Word { tid >> 16 }
  function TidSlot(tid: Word): Word { tid & 0xFFFF }

  /** A page id of segment `segment`. */
  function PageId(segment: Word, page: Word): Word { (segment << 48) ^ page }

  /** The page id, with the segment id it was made with, and the slot id come back. */
  lemma TidRoundTrip(segment: Word, page: Word, slot: Word)
    requires segment <= 0xFFFF && page >> 48 == 0 && slot <= 0xFFFF
    ensures var tid := MakeTid(PageId(segment, page), slot);
            TidPage(tid, segment) == PageId(segment, page) && TidSegmentPage(tid) == page && TidSlot(tid) == slot
  {
  }

  /** The slot is in the lowest 16 bits, the page above them. */
  lemma TidBits(segment: Word, page: Word, slot: Word)
    requires segment <= 0xFFFF && page >> 48 == 0 && slot <= 0xFFFF
    ensures var tid := MakeTid(PageId(segment, page), slot); tid >> 16 == page && tid & 0xFFFF == slot
  {
  }

  /**
    A tuple id in a slot reads as a redirect exactly when the page id does not begin with 0xFF
    (the assertion of slotted_page.h:142).
    */
  lemma TidIsRedirect(segment: Word, page: Word, slot: Word)
    requires segment <= 0xFFFF && page >> 48 == 0 && slot <= 0xFFFF
    ensures IsRedirect(MakeTid(PageId(segment, page), slot)) <==> page >> 40 != 0xFF
  {
  }
}
