/**
  The free-space inventory: four bits for each slotted page, two pages to a byte.
  Source: task-slotted-pages/src/slotted_page/fsi_segment.cc.
  Pages are numbered within their segment; that the segment id comes off again is
  SlotWords.TidRoundTrip.
  */
module FreeSpaceInventory {
  import opened PageLayout

  // ---------- the sixteen levels ----------

  /** Half a page in eighths, and below that in halves of halves (fsi_segment.cc:12-33). */
  function LookUpTable(pageSize: nat): (t: seq<nat>)
    requires HEADER <= pageSize
    ensures |t| == 16
  {
    var free := pageSize - HEADER;
    var half := free / 2;
    var linear := half / 8;
    [0, half / 64, half / 32, half / 16, half / 8, half / 4, half / 2, half,
     free - 7 * linear, free - 6 * linear, free - 5 * linear, free - 4 * linear,
     free - 3 * linear, free - 2 * linear, free - linear, free]
  }

  lemma TableGrows(pageSize: nat)
    requires HEADER <= pageSize
    ensures var t := LookUpTable(pageSize); t[0] == 0 && t[15] == pageSize - HEADER
    ensures var t := LookUpTable(pageSize); forall i, j :: 0 <= i <= j < 16 ==> t[i] <= t[j]
  {
    var t := LookUpTable(pageSize);
    var free := pageSize - HEADER;
    var half := free / 2;
    var linear := half / 8;
    assert 8 * linear <= half && 2 * half <= free;
    assert t[0] <= t[1] <= t[2] <= t[3] <= t[4] <= t[5] <= t[6] <= t[7] <= t[8];
    assert t[8] <= t[9] <= t[10] <= t[11] <= t[12] <= t[13] <= t[14] <= t[15];
    forall i, j | 0 <= i <= j < 16 ensures t[i] <= t[j] {
      Chain(t, i, j);
    }
  }

  /**
    The scale: from half the free space on in steps of one size, an eighth of that half, and below
    it each level half of the next one, down to level 1.
    */
  ghost predicate Scaled(t: seq<nat>, free: nat) {
    && |t| == 16 && t[0] == 0 && Doubled(t[7], free) && t[15] == free
    && (forall i :: 1 <= i < 7 ==> Doubled(t[i], t[i + 1]))
    && (forall i :: 8 <= i < 15 ==> Eighth(t[i], t[i + 1], t[7]))
  }

  /** The step from `a` to `b` is an eighth of `half`. */
  predicate Eighth(a: nat, b: nat, half: nat) { a <= b && 8 * (b - a) <= half < 8 * (b - a) + 8 }

  predicate Doubled(a: nat, b: nat) { 2 * a <= b <= 2 * a + 1 }

  lemma TableScale(pageSize: nat)
    requires HEADER <= pageSize
    ensures Scaled(LookUpTable(pageSize), pageSize - HEADER)
  {
    var t, half := LookUpTable(pageSize), (pageSize - HEADER) / 2;
    Halved(half, 1);
    Halved(half, 2);
    Halved(half, 4);
    Halved(half, 8);
    Halved(half, 16);
    Halved(half, 32);
    assert t[1] == half / 64 && t[2] == half / 32 && t[3] == half / 16;
    assert t[4] == half / 8 && t[5] == half / 4 && t[6] == half / 2 && t[7] == half;
    hide Doubled;
    assert forall i :: 1 <= i < 7 ==> Doubled(t[i], t[i + 1]);
    hide Eighth;
    forall i | 8 <= i < 15 ensures Eighth(t[i], t[i + 1], t[7]) {
      assert t[i + 1] == t[i] + half / 8;
      StepIsEighth(t[i], half);
    }
  }

  lemma StepIsEighth(a: nat, half: nat)
    ensures Eighth(a, a + half / 8, half)
  {
  }

  lemma Halved(half: nat, d: nat)
    requires d in {1, 2, 4, 8, 16, 32}
    ensures Doubled(half / (2 * d), half / d)
  {
  }

  /**
    How far a promise falls short of the space there is: if half of the page is free, by less than
    an eighth of that half and 8 bytes, otherwise by no more than half of the space, unless that is
    less than a 64th of half the page.
    */
  lemma PromiseFallsShort(pageSize: nat, free: nat)
    requires HEADER <= pageSize && free <= pageSize - HEADER
    ensures var t, half := LookUpTable(pageSize), (pageSize - HEADER) / 2;
            && t[0] == 0
            && (half <= free ==> free - t[Encode(t, free)] < half / 8 + 8)
            && (free < half ==> free <= 2 * t[Encode(t, free)] || free < half / 64)
  {
    TableScale(pageSize);
    TableGrows(pageSize);
    var t := LookUpTable(pageSize);
    var e := Encode(t, free);
    if e < 15 {
      assert free < t[e + 1];
    }
  }

  lemma {:induction false} Chain(t: seq<nat>, i: nat, j: nat)
    requires i <= j < |t|
    requires forall k :: 0 <= k < |t| - 1 ==> t[k] <= t[k + 1]
    ensures t[i] <= t[j]
    decreases j
  {
    if i < j {
      Chain(t, i, j - 1);
    }
  }

  /** The level that stands for `free` bytes. */
  function Encode(table: seq<nat>, free: nat): (r: nat)
    requires |table| == 16 && table[0] == 0
    ensures r < 16 && table[r] <= free
    ensures forall i :: r < i < 16 ==> free < table[i]
  {
    EncodeFrom(table, free, 15)
  }

  function EncodeFrom(table: seq<nat>, free: nat, i: nat): (r: nat)
    requires i < |table| && table[0] == 0
    ensures r <= i && table[r] <= free
    ensures forall k :: r < k <= i ==> free < table[k]
  {
    if free >= table[i] then i else EncodeFrom(table, free, i - 1)
  }

  /** The inventory never promises more than there is, nor less than the best level that fits. */
  lemma EncodeIsBest(pageSize: nat, free: nat)
    requires HEADER <= pageSize
    ensures var t := LookUpTable(pageSize);
            && t[0] == 0 && t[Encode(t, free)] <= free
            && forall i :: 0 <= i < 16 && t[i] <= free ==> t[i] <= t[Encode(t, free)]
  {
    TableGrows(pageSize);
  }

  /** The largest level that is not more than `free`. */
  ghost predicate BestPromise(table: seq<nat>, free: nat, promise: nat) {
    promise in table && promise <= free && forall i :: 0 <= i < |table| && table[i] <= free ==> table[i] <= promise
  }

  lemma EncodePromises(pageSize: nat, free: nat)
    requires HEADER <= pageSize
    ensures var t := LookUpTable(pageSize); t[0] == 0 && BestPromise(t, free, t[Encode(t, free)])
  {
    EncodeIsBest(pageSize, free);
  }

  // ---------- entries ----------

  /** The entry at `offset` of an inventory page: the high nibble of its byte if the offset is even. */
  function Nibble(page: seq<Byte>, offset: nat): (r: nat)
    requires offset < 2 * |page|
    ensures r < 16
  {
    var b := page[offset / 2] as int;
    if offset % 2 == 0 then b / 16 else b % 16
  }

  /** The byte with one of its two entries replaced (fsi_segment.cc:102-108, 142, 158). */
  function WithNibble(b: Byte, offset: nat, level: nat): (r: Byte)
    requires level < 16
    ensures offset % 2 == 0 ==> r as int / 16 == level && r as int % 16 == b as int % 16
    ensures offset % 2 == 1 ==> r as int / 16 == b as int / 16 && r as int % 16 == level
  {
    if offset % 2 == 0 then (level * 16 + b as int % 16) as Byte else (b as int / 16 * 16 + level) as Byte
  }

  ghost predicate Covers(frames: seq<seq<Byte>>, pageSize: nat, n: nat) {
    && 0 < pageSize
    && (forall f :: 0 <= f < |frames| ==> |frames[f]| == pageSize)
    && n <= |frames| * (2 * pageSize)
  }

  /** The inventory page and offset of slotted page `sp` (fsi_segment.cc:46-64). */
  function FsiPage(sp: nat, pageSize: nat): (nat, nat)
    requires 0 < pageSize
  {
    var width := 2 * pageSize;
    Quotient(sp, width);
    (sp / width, sp % width)
  }

  lemma Quotient(n: nat, width: nat)
    requires 0 < width
    ensures 0 <= n / width && 0 <= n % width < width && n == width * (n / width) + n % width
  {
  }

  /** The slotted page an entry is about (fsi_segment.cc:66-77). */
  function TargetPage(fsiPage: nat, entry: nat, pageSize: nat): nat {
    fsiPage * (2 * pageSize) + entry
  }

  lemma SplitIndex(sp: nat, width: nat, f: nat, offset: nat)
    requires 0 < width && sp == f * width + offset && offset < width
    ensures sp / width == f && sp % width == offset
  {
    assert sp == width * (sp / width) + sp % width;
    var d := sp / width - f;
    assert width * d == offset - sp % width by {
      assert width * (sp / width) - width * f == width * d;
    }
    Multiple(width, d);
  }

  lemma Multiple(width: int, d: int)
    requires 0 <= width
    ensures d >= 1 ==> width * d >= width
    ensures d <= -1 ==> width * d <= -width
  {
  }

  /** Going to the inventory and back, either way round, leads to where one was. */
  lemma FsiRoundTrip(pageSize: nat)
    requires 0 < pageSize
    ensures forall sp: nat :: var (f, offset) := FsiPage(sp, pageSize);
                              offset < 2 * pageSize && TargetPage(f, offset, pageSize) == sp == f * (2 * pageSize) + offset
    ensures forall f: nat, offset: nat :: offset < 2 * pageSize ==> FsiPage(TargetPage(f, offset, pageSize), pageSize) == (f, offset)
  {
    var w := 2 * pageSize;
    forall sp: nat ensures var (f, offset) := FsiPage(sp, pageSize); offset < w && TargetPage(f, offset, pageSize) == sp {
      assert sp == w * (sp / w) + sp % w;
    }
    forall f: nat, offset: nat | offset < w ensures FsiPage(TargetPage(f, offset, pageSize), pageSize) == (f, offset) {
      SplitIndex(f * w + offset, w, f, offset);
    }
  }

  lemma InFrames(frames: seq<seq<Byte>>, pageSize: nat, n: nat, sp: nat)
    requires Covers(frames, pageSize, n) && sp < n
    ensures var (f, offset) := FsiPage(sp, pageSize); f < |frames| && offset < 2 * pageSize == 2 * |frames[f]|
  {
    var w := 2 * pageSize;
    Quotient(sp, w);
    Multiple(w, sp / w - |frames| + 1);
    assert w * (sp / w) - w * |frames| + w == w * (sp / w - |frames| + 1);
  }

  /** What the inventory says of slotted page `sp`. */
  ghost function Level(frames: seq<seq<Byte>>, pageSize: nat, n: nat, sp: nat): (r: nat)
    requires Covers(frames, pageSize, n) && sp < n
    ensures r < 16
  {
    InFrames(frames, pageSize, n, sp);
    var (f, offset) := FsiPage(sp, pageSize);
    Nibble(frames[f], offset)
  }

  lemma SetLevel(frames: seq<seq<Byte>>, pageSize: nat, n: nat, sp: nat, level: nat, f: nat, offset: nat, after: seq<seq<Byte>>)
    requires Covers(frames, pageSize, n) && sp < n && level < 16
    requires (f, offset) == FsiPage(sp, pageSize) && f < |frames| && offset < 2 * |frames[f]|
    requires after == frames[f := frames[f][offset / 2 := WithNibble(frames[f][offset / 2], offset, level)]]
    ensures Covers(after, pageSize, n)
    ensures forall i :: 0 <= i < n ==> Level(after, pageSize, n, i) == if i == sp then level else Level(frames, pageSize, n, i)
  {
    forall i | 0 <= i < n
      ensures Level(after, pageSize, n, i) == if i == sp then level else Level(frames, pageSize, n, i)
    {
      SetLevelAt(frames, pageSize, n, sp, level, f, offset, after, i);
    }
  }

  lemma SetLevelAt(frames: seq<seq<Byte>>, pageSize: nat, n: nat, sp: nat, level: nat, f: nat, offset: nat,
                   after: seq<seq<Byte>>, i: nat)
    requires Covers(frames, pageSize, n) && Covers(after, pageSize, n) && sp < n && level < 16 && i < n
    requires (f, offset) == FsiPage(sp, pageSize) && f < |frames| && offset < 2 * |frames[f]|
    requires after == frames[f := frames[f][offset / 2 := WithNibble(frames[f][offset / 2], offset, level)]]
    ensures Level(after, pageSize, n, i) == if i == sp then level else Level(frames, pageSize, n, i)
  {
    InFrames(frames, pageSize, n, i);
    var (g, o) := FsiPage(i, pageSize);
    FsiRoundTrip(pageSize);
    assert TargetPage(g, o, pageSize) == i && TargetPage(f, offset, pageSize) == sp;
    hide TargetPage, FsiPage, Covers;
    if g == f {
      NibbleSet(frames[f], offset, level, o);
    }
  }

  /** Writing one entry of a page leaves its other entries alone. */
  lemma NibbleSet(page: seq<Byte>, offset: nat, level: nat, o: nat)
    requires offset < 2 * |page| && o < 2 * |page| && level < 16
    ensures Nibble(page[offset / 2 := WithNibble(page[offset / 2], offset, level)], o)
            == if o == offset then level else Nibble(page, o)
  {
  }

  lemma CountUp(n: nat, width: nat)
    requires 0 < width
    ensures (n + 1) / width == n / width + (if (n + 1) % width == 0 then 1 else 0)
    ensures n < (n / width + 1) * width
  {
    Quotient(n, width);
    var q, r := n / width, n % width;
    assert n + 1 == q * width + (r + 1);
    if r + 1 == width {
      assert n + 1 == (q + 1) * width + 0;
      SplitIndex(n + 1, width, q + 1, 0);
    } else {
      SplitIndex(n + 1, width, q, r + 1);
    }
  }

  lemma StillCovered(before: seq<seq<Byte>>, after: seq<seq<Byte>>, pageSize: nat, n: nat)
    requires Covers(before, pageSize, n) && before <= after
    requires |after| == (n + 1) / (2 * pageSize) + 1
    requires forall f :: 0 <= f < |after| ==> |after[f]| == pageSize
    ensures Covers(after, pageSize, n + 1)
    ensures forall i :: 0 <= i < n ==> Level(after, pageSize, n + 1, i) == Level(before, pageSize, n, i)
  {
    CountUp(n + 1, 2 * pageSize);
    forall i | 0 <= i < n ensures Level(after, pageSize, n + 1, i) == Level(before, pageSize, n, i) {
      InFrames(before, pageSize, n, i);
    }
  }

  class FSISegment {
    const pageSize: nat
    /** look_up_table */
    const table: seq<nat>
    /** The pages of the inventory; there are table.allocated_fsi_pages of them. */
    var frames: seq<seq<Byte>>
    /** table.allocated_slotted_pages */
    var slottedPages: nat

    ghost predicate Valid()
      reads this
    {
      && HEADER < pageSize && table == LookUpTable(pageSize)
      && Covers(frames, pageSize, slottedPages)
      && |frames| == slottedPages / (2 * pageSize) + 1
    }

    constructor (pageSize: nat)
      requires HEADER < pageSize
      ensures this.pageSize == pageSize && slottedPages == 0 && Valid()
      ensures frames == [seq(pageSize, i => 0xFF)]
    {
      this.pageSize := pageSize;
      table := LookUpTable(pageSize);
      frames := [seq(pageSize, i => 0xFF)];
      slottedPages := 0;
    }

    /** What page `sp` is promised to have free. */
    ghost function Promised(sp: nat): nat
      requires Valid() && sp < slottedPages
      reads this
    {
      table[Level(frames, pageSize, slottedPages, sp)]
    }

    /** `required` bytes were taken off the promise of page `sp`; the other entries are as in `before`. */
    ghost predicate TookFrom(before: seq<seq<Byte>>, sp: nat, required: nat)
      requires Valid() && sp < slottedPages && Covers(before, pageSize, slottedPages) && table[0] == 0
      requires required <= table[Level(before, pageSize, slottedPages, sp)]
      reads this
    {
      forall i :: 0 <= i < slottedPages ==>
                    Level(frames, pageSize, slottedPages, i)
                    == if i == sp then Encode(table, table[Level(before, pageSize, slottedPages, sp)] - required)
                       else Level(before, pageSize, slottedPages, i)
    }

    method EncodeFreeSpace(free: nat) returns (i: nat)
      requires Valid()
      ensures table[0] == 0 && i == Encode(table, free)
    {
      TableGrows(pageSize);
      i := 15;
      while free < table[i]
        invariant i < 16
        invariant EncodeFrom(table, free, i) == Encode(table, free)
        decreases i
      {
        i := i - 1;
      }
    }

    /** One more slotted page is counted, and covered before the inventory runs out (sp_segment.cc:40, 52-60). */
    method AddSlottedPage()
      requires Valid()
      modifies `frames, `slottedPages
      ensures Valid() && slottedPages == old(slottedPages) + 1
      ensures forall i :: 0 <= i < old(slottedPages) ==>
                            Level(frames, pageSize, slottedPages, i) == Level(old(frames), pageSize, old(slottedPages), i)
    {
      var width := 2 * pageSize;
      ghost var n, before := slottedPages, frames;
      slottedPages := slottedPages + 1;
      CountUp(n, width);
      if slottedPages % width == 0 {
        frames := frames + [seq(pageSize, i => 0xFF)];
      }
      StillCovered(before, frames, pageSize, n);
    }

    /** One entry changes, to the level of `free` (fsi_segment.cc:88-110). */
    method Update(sp: nat, free: nat)
      requires Valid() && sp < slottedPages
      modifies `frames
      ensures Valid() && table[0] == 0
      ensures forall i :: 0 <= i < slottedPages ==>
                            Level(frames, pageSize, slottedPages, i)
                            == if i == sp then Encode(table, free) else Level(old(frames), pageSize, slottedPages, i)
      ensures BestPromise(table, free, Promised(sp))
      ensures forall i :: 0 <= i < slottedPages && i != sp ==> Promised(i) == old(Promised(i))
    {
      EncodePromises(pageSize, free);
      InFrames(frames, pageSize, slottedPages, sp);
      var (f, offset) := FsiPage(sp, pageSize);
      var level := EncodeFreeSpace(free);
      ghost var before := frames;
      frames := frames[f := frames[f][offset / 2 := WithNibble(frames[f][offset / 2], offset, level)]];
      SetLevel(before, pageSize, slottedPages, sp, level, f, offset, frames);
    }

    /** None of the pages from `a` up to `b` promises `required` bytes in `entries`. */
    ghost predicate NoneFits(entries: seq<seq<Byte>>, a: nat, b: nat, required: nat)
      requires Valid() && b <= slottedPages && Covers(entries, pageSize, slottedPages)
      reads this
    {
      forall i :: a <= i < b ==> table[Level(entries, pageSize, slottedPages, i)] < required
    }

    /**
      Looks at the entry of page `sp`; if it promises enough, takes the space off its promise
      (fsi_segment.cc:139-146 for the first entry of a byte, 155-162 for the second).
      */
    method TakeFrom(f: nat, offset: nat, ghost first: nat, ghost sp: nat, required: nat) returns (fits: bool)
      requires Valid() && sp == TargetPage(f, offset, pageSize) < slottedPages && offset < 2 * pageSize
      requires NoneFits(frames, first, sp, required)
      modifies `frames
      ensures Valid() && table[0] == 0
      ensures fits <==> required <= old(Promised(sp))
      ensures fits ==> TookFrom(old(frames), sp, required)
      ensures !fits ==> frames == old(frames) && NoneFits(frames, first, sp + 1, required)
      ensures TargetPage(f, offset + 1, pageSize) == sp + 1
    {
      TableGrows(pageSize);
      EntryIndex(f, offset, pageSize);
      InFrames(frames, pageSize, slottedPages, sp);
      var free := table[Nibble(frames[f], offset)];
      fits := free >= required;
      if fits {
        var level := EncodeFreeSpace(free - required);
        ghost var before := frames;
        frames := frames[f := frames[f][offset / 2 := WithNibble(frames[f][offset / 2], offset, level)]];
        SetLevel(before, pageSize, slottedPages, sp, level, f, offset, frames);
      }
    }

    /**
      Goes through the bytes of one inventory page: stops at the page whose promise was taken,
      or at the last slotted page, or goes on to the end (fsi_segment.cc:135-169).
      */
    method SearchPage(f: nat, first: nat, required: nat) returns (found: bool, sp: nat)
      requires Valid() && f < |frames|
      requires first == TargetPage(f, 0, pageSize) < slottedPages
      modifies `frames
      ensures Valid() && table[0] == 0 && first <= sp <= slottedPages
      ensures NoneFits(old(frames), first, sp, required)
      ensures found ==> sp < slottedPages && required <= old(Promised(sp)) && TookFrom(old(frames), sp, required)
      ensures !found ==> frames == old(frames) && (sp == slottedPages || sp == TargetPage(f + 1, 0, pageSize))
    {
      hide LookUpTable, Level, FsiPage, TargetPage, Covers, Encode;
      TableGrows(pageSize);
      found, sp := false, first;
      var byte := 0;
      while byte < pageSize
        invariant byte <= pageSize && frames == old(frames) && !found
        invariant first <= sp == TargetPage(f, 2 * byte, pageSize) < slottedPages
        invariant NoneFits(frames, first, sp, required)
      {
        found := TakeFrom(f, 2 * byte, first, sp, required);
        if found {
          return;
        }
        sp := sp + 1;
        if sp == slottedPages {
          return;
        }
        found := TakeFrom(f, 2 * byte + 1, first, sp, required);
        if found {
          return;
        }
        sp := sp + 1;
        if sp == slottedPages {
          return;
        }
        byte := byte + 1;
      }
      assert byte == pageSize;
      NextFrame(f, pageSize);
    }

    /**
      The first page that promises `required` bytes, which are then taken off its promise;
      if none does, the number of the page to allocate next (fsi_segment.cc:112-175).
      */
    method Find(required: nat) returns (found: bool, page: nat)
      requires Valid() && 0 < slottedPages
      modifies `frames
      ensures Valid() && table[0] == 0
      ensures !found ==> NoneFits(old(frames), 0, slottedPages, required)
      ensures found ==> page < slottedPages && required <= old(Promised(page)) && TookFrom(old(frames), page, required)
      ensures found ==> NoneFits(old(frames), 0, page, required)
      ensures found ==> BestPromise(table, old(Promised(page)) - required, Promised(page))
      ensures found ==> forall i :: 0 <= i < slottedPages && i != page ==> Promised(i) == old(Promised(i))
      ensures !found ==> page == slottedPages && frames == old(frames)
    {
      hide LookUpTable, Level, FsiPage, TargetPage, Covers, Encode;
      TableGrows(pageSize);
      EntryIndex(0, 0, pageSize);
      var fsiPage, sp := 0, 0;
      while fsiPage < |frames|
        invariant fsiPage <= |frames| && frames == old(frames)
        invariant sp == TargetPage(fsiPage, 0, pageSize) < slottedPages
        invariant NoneFits(frames, 0, sp, required)
      {
        found, sp := SearchPage(fsiPage, sp, required);
        if found || sp == slottedPages {
          page := sp;
          return;
        }
        fsiPage := fsiPage + 1;
      }
      LastFrame(frames, pageSize, slottedPages);
      assert false;
    }
  }

  lemma EntryIndex(f: nat, offset: nat, pageSize: nat)
    requires 0 < pageSize && offset < 2 * pageSize
    ensures FsiPage(TargetPage(f, offset, pageSize), pageSize) == (f, offset)
    ensures TargetPage(f, offset + 1, pageSize) == TargetPage(f, offset, pageSize) + 1
    ensures f == offset == 0 ==> TargetPage(f, offset, pageSize) == 0
  {
    FsiRoundTrip(pageSize);
  }

  lemma NextFrame(f: nat, pageSize: nat)
    ensures TargetPage(f, 2 * pageSize, pageSize) == TargetPage(f + 1, 0, pageSize)
  {
  }

  lemma LastFrame(frames: seq<seq<Byte>>, pageSize: nat, n: nat)
    requires Covers(frames, pageSize, n)
    ensures n <= TargetPage(|frames|, 0, pageSize)
  {
  }
}
