/**
  The 2Q replacer: two lists, a hash table over both, two counters, updated in place.
  Source: task-slotted-pages/src/buffer/2Q_replacer.cc.
  The reference is `StatusOf`, which follows one frame through the calls and knows no lists.
  */
module TwoQReplacers {
  import opened Collections

  type Frame = nat

  datatype Hotness = COLD | HOT | COLD_PINNED | HOT_PINNED

  // ---------- the reference: one frame through the calls ----------

  datatype Event = Unpinned(frame: Frame) | Pinned(frame: Frame) | Evicted(frame: Frame)

  /** Cold since the call that brought the frame in; hot since it was last unpinned. */
  datatype Status = Absent | Cold(since: nat, pinned: bool) | Hot(since: nat, pinned: bool)

  function StatusOf(h: seq<Event>, f: Frame): (r: Status)
    ensures r.Absent? || r.since < |h|
  {
    if h == [] then Absent
    else
      var now := |h| - 1;
      var before := StatusOf(h[..now], f);
      match h[now]
      case Unpinned(g) => if f != g then before else if before.Absent? then Cold(now, false) else Hot(now, false)
      case Pinned(g) => if f != g || before.Absent? then before else before.(pinned := true)
      case Evicted(g) => if f != g then before else Absent
  }

  lemma Next(h: seq<Event>, e: Event, f: Frame)
    ensures StatusOf(h + [e], f)
            == var before := StatusOf(h, f);
               match e
               case Unpinned(g) => if f != g then before else if before.Absent? then Cold(|h|, false) else Hot(|h|, false)
               case Pinned(g) => if f != g || before.Absent? then before else before.(pinned := true)
               case Evicted(g) => if f != g then before else Absent
  {
    assert (h + [e])[..|h|] == h;
  }

  /** `s` goes before `t`: cold before hot, and the older one first. */
  predicate Before(s: Status, t: Status) {
    match (s, t)
    case (Cold(a, _), Cold(b, _)) => a < b
    case (Cold(_, _), Hot(_, _)) => true
    case (Hot(a, _), Hot(b, _)) => a < b
    case _ => false
  }

  predicate Evictable(s: Status) { !s.Absent? && !s.pinned }

  /** `f` is the one to go: the oldest unpinned cold frame, or the oldest unpinned hot one if no cold one is unpinned. */
  ghost predicate Oldest(h: seq<Event>, f: Frame) {
    && Evictable(StatusOf(h, f))
    && forall g :: Evictable(StatusOf(h, g)) && g != f ==> Before(StatusOf(h, f), StatusOf(h, g))
  }

  // ---------- the replacer ----------

  /** A list in order of age, its newest entry first, of exactly the frames of one temperature. */
  ghost predicate Ordered(list: seq<Frame>, h: seq<Event>, hot: bool) {
    && (forall f :: f in list <==> !StatusOf(h, f).Absent? && StatusOf(h, f).Hot? == hot)
    && (forall i, j :: 0 <= i < j < |list| ==> Since(h, list[j]) < Since(h, list[i]))
  }

  ghost function Since(h: seq<Event>, f: Frame): int {
    var s := StatusOf(h, f);
    if s.Absent? then -1 else s.since
  }

  function HotnessOf(s: Status): Hotness
    requires !s.Absent?
  {
    if s.Cold? then if s.pinned then COLD_PINNED else COLD else if s.pinned then HOT_PINNED else HOT
  }

  ghost predicate Indexes(ht: map<Frame, Hotness>, h: seq<Event>) {
    && (forall f :: f in ht <==> !StatusOf(h, f).Absent?)
    && (forall f :: f in ht ==> ht[f] == HotnessOf(StatusOf(h, f)))
  }

  ghost predicate Has(ht: map<Frame, Hotness>, x: Hotness) { exists f :: f in ht && ht[f] == x }

  lemma WithHas(ht: map<Frame, Hotness>, x: Hotness)
    ensures 0 < |With(ht, x)| <==> Has(ht, x)
  {
    if Has(ht, x) {
      var f :| f in ht && ht[f] == x;
      assert f in With(ht, x);
    }
    if With(ht, x) != {} {
      var f :| f in With(ht, x);
    }
  }

  lemma Counted(ht: map<Frame, Hotness>, f: Frame)
    requires f in ht
    ensures 0 < |With(ht, ht[f])|
  {
    assert f in With(ht, ht[f]);
  }

  function With(ht: map<Frame, Hotness>, x: Hotness): set<Frame> { set f | f in ht && ht[f] == x }

  lemma WithUpdate(ht: map<Frame, Hotness>, f: Frame, y: Hotness, x: Hotness)
    ensures |With(ht[f := y], x)|
            == |With(ht, x)| - (if f in ht && ht[f] == x then 1 else 0) + (if y == x then 1 else 0)
  {
    SizeWithout(With(ht[f := y], x), f);
    SizeWithout(With(ht, x), f);
    assert With(ht[f := y], x) - {f} == With(ht, x) - {f};
  }

  lemma WithRemove(ht: map<Frame, Hotness>, f: Frame, x: Hotness)
    ensures |With(ht - {f}, x)| == |With(ht, x)| - (if f in ht && ht[f] == x then 1 else 0)
  {
    assert With(ht - {f}, x) == With(ht, x) - {f};
  }

  // ---------- a list around one call ----------

  ghost predicate Is(s: Status, hot: bool) { !s.Absent? && s.Hot? == hot }

  /** `rest` is the list of one temperature, but for `f`. */
  ghost predicate Others(rest: seq<Frame>, h: seq<Event>, hot: bool, f: Frame) {
    && (forall g :: g in rest <==> g != f && Is(StatusOf(h, g), hot))
    && (forall i, j :: 0 <= i < j < |rest| ==> Since(h, rest[j]) < Since(h, rest[i]))
  }

  lemma OthersWithout(list: seq<Frame>, h: seq<Event>, hot: bool, p: nat)
    requires Ordered(list, h, hot) && p < |list|
    ensures Others(list[..p] + list[p + 1..], h, hot, list[p])
  {
    forall g {
      InRest(list, h, p, g);
    }
  }

  lemma InRest(list: seq<Frame>, h: seq<Event>, p: nat, g: Frame)
    requires p < |list| && forall i, j :: 0 <= i < j < |list| ==> Since(h, list[j]) < Since(h, list[i])
    ensures g in list[..p] + list[p + 1..] <==> g in list && g != list[p]
  {
    assert list == list[..p] + [list[p]] + list[p + 1..];
    if g in list[..p] {
      var i :| 0 <= i < p && list[i] == g;
      assert Since(h, list[p]) < Since(h, list[i]);
    }
    if g in list[p + 1..] {
      var i :| p < i < |list| && list[i] == g;
      assert Since(h, list[i]) < Since(h, list[p]);
    }
  }

  lemma OthersAll(list: seq<Frame>, h: seq<Event>, hot: bool, f: Frame)
    requires Ordered(list, h, hot) && f !in list
    ensures Others(list, h, hot, f)
  {
  }

  /** After a call on `f`, which is not of this temperature then. */
  lemma OthersStay(rest: seq<Frame>, h: seq<Event>, hot: bool, e: Event)
    requires Others(rest, h, hot, e.frame) && !Is(StatusOf(h + [e], e.frame), hot)
    ensures Ordered(rest, h + [e], hot)
  {
    forall g | g != e.frame ensures StatusOf(h + [e], g) == StatusOf(h, g) {
      Next(h, e, g);
    }
  }

  /** After a call that made `f` the youngest of this temperature. */
  lemma OthersFront(rest: seq<Frame>, h: seq<Event>, hot: bool, e: Event)
    requires Others(rest, h, hot, e.frame)
    requires Is(StatusOf(h + [e], e.frame), hot) && StatusOf(h + [e], e.frame).since == |h|
    ensures Ordered([e.frame] + rest, h + [e], hot)
  {
    FrontMembers(rest, h, hot, e);
    FrontOrder(rest, h, hot, e);
  }

  lemma FrontMembers(rest: seq<Frame>, h: seq<Event>, hot: bool, e: Event)
    requires forall g :: g in rest <==> g != e.frame && Is(StatusOf(h, g), hot)
    requires Is(StatusOf(h + [e], e.frame), hot)
    ensures forall g :: g in [e.frame] + rest <==> Is(StatusOf(h + [e], g), hot)
  {
    hide StatusOf, Is;
    forall g ensures g in [e.frame] + rest <==> Is(StatusOf(h + [e], g), hot) {
      if g != e.frame {
        OthersSame(h, e, g);
      }
    }
  }

  lemma FrontOrder(rest: seq<Frame>, h: seq<Event>, hot: bool, e: Event)
    requires e.frame !in rest && !StatusOf(h + [e], e.frame).Absent? && StatusOf(h + [e], e.frame).since == |h|
    requires forall i, j :: 0 <= i < j < |rest| ==> Since(h, rest[j]) < Since(h, rest[i])
    ensures var list := [e.frame] + rest;
            forall i, j :: 0 <= i < j < |list| ==> Since(h + [e], list[j]) < Since(h + [e], list[i])
  {
    hide StatusOf, Since;
    var list := [e.frame] + rest;
    forall i, j | 0 <= i < j < |list| ensures Since(h + [e], list[j]) < Since(h + [e], list[i]) {
      assert list[j] == rest[j - 1];
      if i == 0 {
        Younger(h, e, rest[j - 1]);
      } else {
        assert list[i] == rest[i - 1];
        StillOlder(h, e, rest[j - 1], rest[i - 1]);
      }
    }
  }

  lemma Younger(h: seq<Event>, e: Event, g: Frame)
    requires g != e.frame && !StatusOf(h + [e], e.frame).Absent? && StatusOf(h + [e], e.frame).since == |h|
    ensures Since(h + [e], g) < Since(h + [e], e.frame)
  {
    OthersSame(h, e, g);
  }

  lemma StillOlder(h: seq<Event>, e: Event, f: Frame, g: Frame)
    requires f != e.frame && g != e.frame && Since(h, f) < Since(h, g)
    ensures Since(h + [e], f) < Since(h + [e], g)
  {
    OthersSame(h, e, f);
    OthersSame(h, e, g);
  }

  /** A call does not concern other frames, whose ages are all in the past. */
  lemma OthersSame(h: seq<Event>, e: Event, g: Frame)
    requires g != e.frame
    ensures StatusOf(h + [e], g) == StatusOf(h, g) && Since(h + [e], g) == Since(h, g) < |h|
  {
    Next(h, e, g);
  }

  /** Pinning changes neither age nor temperature. */
  lemma PinnedStays(list: seq<Frame>, h: seq<Event>, hot: bool, f: Frame)
    requires Ordered(list, h, hot)
    ensures Ordered(list, h + [Pinned(f)], hot)
  {
    forall g ensures Is(StatusOf(h + [Pinned(f)], g), hot) == Is(StatusOf(h, g), hot) && Since(h + [Pinned(f)], g) == Since(h, g) {
      Next(h, Pinned(f), g);
    }
  }

  lemma TableNext(ht: map<Frame, Hotness>, h: seq<Event>, e: Event, after: map<Frame, Hotness>)
    requires Indexes(ht, h)
    requires forall g :: g != e.frame ==> (g in after <==> g in ht) && (g in ht ==> after[g] == ht[g])
    requires e.frame in after <==> !StatusOf(h + [e], e.frame).Absent?
    requires e.frame in after ==> after[e.frame] == HotnessOf(StatusOf(h + [e], e.frame))
    ensures Indexes(after, h + [e])
  {
    forall g | g != e.frame ensures StatusOf(h + [e], g) == StatusOf(h, g) {
      Next(h, e, g);
    }
  }

  /** The last entry of a list that is unpinned is the oldest one. */
  lemma LastIsOldest(h: seq<Event>, fifo: seq<Frame>, lru: seq<Frame>, ht: map<Frame, Hotness>, hot: bool, p: nat)
    requires Ordered(fifo, h, false) && Ordered(lru, h, true) && Indexes(ht, h)
    requires hot ==> !Has(ht, COLD)
    requires var list, comp := if hot then lru else fifo, if hot then HOT else COLD;
             p < |list| && ht[list[p]] == comp && forall j :: p < j < |list| ==> ht[list[j]] != comp
    ensures Oldest(h, (if hot then lru else fifo)[p])
  {
    var f := (if hot then lru else fifo)[p];
    LastOfKind(h, if hot then lru else fifo, ht, hot, p);
    forall g | Evictable(StatusOf(h, g)) && g != f ensures Before(StatusOf(h, f), StatusOf(h, g)) {
      assert g in ht && (hot ==> ht[g] != COLD);
    }
  }

  /** It is the oldest one of its temperature. */
  lemma LastOfKind(h: seq<Event>, list: seq<Frame>, ht: map<Frame, Hotness>, hot: bool, p: nat)
    requires Ordered(list, h, hot) && Indexes(ht, h)
    requires var comp := if hot then HOT else COLD;
             p < |list| && ht[list[p]] == comp && forall j :: p < j < |list| ==> ht[list[j]] != comp
    ensures Evictable(StatusOf(h, list[p])) && Is(StatusOf(h, list[p]), hot)
    ensures forall g :: Evictable(StatusOf(h, g)) && Is(StatusOf(h, g), hot) && g != list[p] ==>
                          StatusOf(h, list[p]).since < StatusOf(h, g).since
  {
    assert list[p] in list;
    forall g | Evictable(StatusOf(h, g)) && Is(StatusOf(h, g), hot) && g != list[p]
      ensures StatusOf(h, list[p]).since < StatusOf(h, g).since
    {
      assert g in list;
      var j :| 0 <= j < |list| && list[j] == g;
      assert Since(h, list[p]) < Since(h, list[j]);
    }
  }

  /** The counters count the unpinned frames of each temperature. */
  ghost predicate Sizes(ht: map<Frame, Hotness>, fifoSize: nat, lruSize: nat) {
    fifoSize == |With(ht, COLD)| && lruSize == |With(ht, HOT)|
  }

  class TwoQReplacer {
    const numPages: nat
    var fifo: seq<Frame>
    var lru: seq<Frame>
    var ht: map<Frame, Hotness>
    var fifoSize: nat
    var lruSize: nat
    ghost var history: seq<Event>

    /** The counters count the unpinned entries, the table indexes both lists, the lists are in order of age. */
    ghost predicate Valid()
      reads this
    {
      && Ordered(fifo, history, false) && Ordered(lru, history, true)
      && Indexes(ht, history)
      && Sizes(ht, fifoSize, lruSize)
      && |ht| <= numPages
    }

    constructor (numPages: nat)
      ensures Valid() && this.numPages == numPages && history == []
    {
      this.numPages := numPages;
      fifo, lru, ht := [], [], map[];
      fifoSize, lruSize := 0, 0;
      history := [];
    }

    /** The last entry of a list with the given hotness, taken out of list and table (2Q_replacer.cc:29-40). */
    method TakeLast(list: seq<Frame>, comp: Hotness) returns (f: Frame, rest: seq<Frame>, ghost at: nat)
      requires exists i :: 0 <= i < |list| && list[i] in ht && ht[list[i]] == comp
      requires forall f :: f in list ==> f in ht
      ensures at < |list| && list[at] == f && rest == list[..at] + list[at + 1..] && ht[f] == comp
      ensures forall j :: at < j < |list| ==> ht[list[j]] != comp
    {
      ghost var k :| 0 <= k < |list| && ht[list[k]] == comp;
      var p := |list| - 1;
      while ht[list[p]] != comp
        invariant k <= p < |list|
        invariant forall j :: p < j < |list| ==> ht[list[j]] != comp
        decreases p
      {
        p := p - 1;
      }
      f, rest, at := list[p], list[..p] + list[p + 1..], p;
    }

    /** Evicts the frame the reference names, if any is unpinned (2Q_replacer.cc:9-43). */
    method Victim() returns (r: Option<Frame>)
      requires Valid() && ht != map[]
      modifies this
      ensures Valid()
      ensures r.None? <==> !Has(old(ht), COLD) && !Has(old(ht), HOT)
      ensures r.None? ==> history == old(history)
      ensures r.Some? ==> Oldest(old(history), r.value) && history == old(history) + [Evicted(r.value)]
    {
      hide Ordered, Indexes, Oldest, With, StatusOf, Has;
      WithHas(ht, COLD);
      WithHas(ht, HOT);
      if fifoSize + lruSize == 0 {
        return None;
      }
      ghost var h := history;
      var f: Frame;
      if fifoSize == 0 {
        Listed(lru, h, ht, true, HOT);
        lruSize := lruSize - 1;
        ghost var list := lru;
        ghost var p;
        f, lru, p := TakeLast(lru, HOT);
        LastIsOldest(h, fifo, list, ht, true, p);
        Leaves(h, list, fifo, true, p);
      } else {
        Listed(fifo, h, ht, false, COLD);
        fifoSize := fifoSize - 1;
        ghost var list := fifo;
        ghost var p;
        f, fifo, p := TakeLast(fifo, COLD);
        LastIsOldest(h, list, lru, ht, false, p);
        Leaves(h, list, lru, false, p);
      }
      SizeUpdate(ht, f, COLD);
      WithRemove(ht, f, COLD);
      WithRemove(ht, f, HOT);
      Next(h, Evicted(f), f);
      TableNext(ht, h, Evicted(f), ht - {f});
      ht := ht - {f};
      history := h + [Evicted(f)];
      r := Some(f);
    }

    method SetHotness(f: Frame, x: Hotness)
      modifies `ht
      ensures ht == old(ht)[f := x] && |ht| == |old(ht)| + (if f in old(ht) then 0 else 1)
      ensures |With(ht, COLD)| == |With(old(ht), COLD)| - (if f in old(ht) && old(ht)[f] == COLD then 1 else 0) + (if x == COLD then 1 else 0)
      ensures |With(ht, HOT)| == |With(old(ht), HOT)| - (if f in old(ht) && old(ht)[f] == HOT then 1 else 0) + (if x == HOT then 1 else 0)
    {
      WithUpdate(ht, f, x, COLD);
      WithUpdate(ht, f, x, HOT);
      SizeUpdate(ht, f, x);
      ht := ht[f := x];
    }

    /** The frame no longer counts (2Q_replacer.cc:54-61). */
    method MakePinned(f: Frame)
      requires f in ht && Sizes(ht, fifoSize, lruSize)
      modifies `ht, `fifoSize, `lruSize
      ensures ht == if old(ht)[f] == COLD then old(ht)[f := COLD_PINNED]
                    else if old(ht)[f] == HOT then old(ht)[f := HOT_PINNED] else old(ht)
      ensures Sizes(ht, fifoSize, lruSize) && |ht| == |old(ht)|
    {
      Counted(ht, f);
      if ht[f] == COLD {
        SetHotness(f, COLD_PINNED);
        fifoSize := fifoSize - 1;
      } else if ht[f] == HOT {
        SetHotness(f, HOT_PINNED);
        lruSize := lruSize - 1;
      }
    }

    /** An unpinned frame becomes a placeholder where it is (2Q_replacer.cc:45-64). */
    method Pin(f: Frame)
      requires Valid()
      modifies this
      ensures Valid() && history == old(history) + [Pinned(f)]
      ensures fifo == old(fifo) && lru == old(lru)
    {
      PinnedStays(fifo, history, false, f);
      PinnedStays(lru, history, true, f);
      PinnedTable(ht, history, f);
      hide Ordered, Indexes, With, StatusOf, Sizes;
      if f in ht {
        MakePinned(f);
      }
      history := history + [Pinned(f)];
    }

    /** The frame counts as hot and unpinned from now on (2Q_replacer.cc:90-97). */
    method MakeHot(f: Frame)
      requires f in ht && Sizes(ht, fifoSize, lruSize)
      modifies `ht, `fifoSize, `lruSize
      ensures ht == old(ht)[f := HOT] && |ht| == |old(ht)|
      ensures Sizes(ht, fifoSize, lruSize)
    {
      Counted(ht, f);
      if ht[f] == COLD {
        fifoSize := fifoSize - 1;
        lruSize := lruSize + 1;
        SetHotness(f, HOT);
      } else if ht[f] == HOT_PINNED || ht[f] == COLD_PINNED {
        lruSize := lruSize + 1;
        SetHotness(f, HOT);
      }
    }

    /** The entry of a known frame moves to the front of the LRU list (2Q_replacer.cc:87-89). */
    method Splice(f: Frame)
      requires Ordered(fifo, history, false) && Ordered(lru, history, true) && Indexes(ht, history) && f in ht
      modifies `fifo, `lru
      ensures Ordered(fifo, history + [Unpinned(f)], false) && Ordered(lru, history + [Unpinned(f)], true)
    {
      Places(fifo, lru, ht, history, f);
      hide Ordered, Indexes, StatusOf;
      if ht[f] == HOT || ht[f] == HOT_PINNED {
        var p :| 0 <= p < |lru| && lru[p] == f;
        Refreshes(fifo, lru, history, p);
        lru := [f] + (lru[..p] + lru[p + 1..]);
      } else {
        var p :| 0 <= p < |fifo| && fifo[p] == f;
        Warms(fifo, lru, history, p);
        fifo := fifo[..p] + fifo[p + 1..];
        lru := [f] + lru;
      }
    }

    /** A known frame becomes hot and the youngest of the hot (2Q_replacer.cc:82-98). */
    method Heat(f: Frame)
      requires Ordered(fifo, history, false) && Ordered(lru, history, true) && Indexes(ht, history) && f in ht
      requires Sizes(ht, fifoSize, lruSize)
      modifies `fifo, `lru, `ht, `fifoSize, `lruSize
      ensures Ordered(fifo, history + [Unpinned(f)], false) && Ordered(lru, history + [Unpinned(f)], true)
      ensures Sizes(ht, fifoSize, lruSize)
      ensures ht == old(ht)[f := HOT] && |ht| == |old(ht)|
    {
      hide Ordered, Indexes, Sizes;
      Splice(f);
      MakeHot(f);
    }

    /** A new frame enters at the front of the FIFO list (2Q_replacer.cc:73-81). */
    method Admit(f: Frame)
      requires Ordered(fifo, history, false) && Ordered(lru, history, true) && StatusOf(history, f).Absent? && f !in ht
      requires Sizes(ht, fifoSize, lruSize)
      modifies `fifo, `ht, `fifoSize
      ensures Ordered(fifo, history + [Unpinned(f)], false) && Ordered(lru, history + [Unpinned(f)], true)
      ensures Sizes(ht, fifoSize, lruSize)
      ensures ht == old(ht)[f := COLD] && |ht| == |old(ht)| + 1
    {
      Arrives(fifo, lru, history, f);
      hide Ordered, With, StatusOf;
      fifo := [f] + fifo;
      SetHotness(f, COLD);
      fifoSize := fifoSize + 1;
    }

    /** A new frame comes in cold; a known one becomes hot and the youngest of the hot (2Q_replacer.cc:66-100). */
    method Unpin(f: Frame)
      requires Valid() && (f in ht || |ht| < numPages)
      modifies this
      ensures Valid() && history == old(history) + [Unpinned(f)]
    {
      ghost var h := history;
      Places(fifo, lru, ht, h, f);
      UnpinnedTable(ht, h, f);
      hide Ordered, Indexes, With, StatusOf, Sizes;
      if f !in ht {
        Admit(f);
      } else {
        Heat(f);
      }
      history := h + [Unpinned(f)];
    }
  }

  // ---------- what one call does to both lists and the table ----------

  lemma Places(fifo: seq<Frame>, lru: seq<Frame>, ht: map<Frame, Hotness>, h: seq<Event>, f: Frame)
    requires Ordered(fifo, h, false) && Ordered(lru, h, true) && Indexes(ht, h)
    ensures f !in ht <==> StatusOf(h, f).Absent?
    ensures f in ht ==> if ht[f] == HOT || ht[f] == HOT_PINNED then f in lru else f in fifo
  {
  }

  lemma PinnedTable(ht: map<Frame, Hotness>, h: seq<Event>, f: Frame)
    requires Indexes(ht, h)
    ensures Indexes(if f !in ht then ht
                    else if ht[f] == COLD then ht[f := COLD_PINNED]
                    else if ht[f] == HOT then ht[f := HOT_PINNED] else ht, h + [Pinned(f)])
  {
    Next(h, Pinned(f), f);
    TableNext(ht, h, Pinned(f),
              if f !in ht then ht
              else if ht[f] == COLD then ht[f := COLD_PINNED] else if ht[f] == HOT then ht[f := HOT_PINNED] else ht);
  }

  lemma UnpinnedTable(ht: map<Frame, Hotness>, h: seq<Event>, f: Frame)
    requires Indexes(ht, h)
    ensures Indexes(ht[f := if f in ht then HOT else COLD], h + [Unpinned(f)])
    ensures f in ht && ht[f] == HOT ==> Indexes(ht, h + [Unpinned(f)])
  {
    Next(h, Unpinned(f), f);
    TableNext(ht, h, Unpinned(f), ht[f := if f in ht then HOT else COLD]);
    if f in ht && ht[f] == HOT {
      assert ht[f := HOT] == ht;
    }
  }

  /** A new frame is the youngest of the cold. */
  lemma Arrives(fifo: seq<Frame>, lru: seq<Frame>, h: seq<Event>, f: Frame)
    requires Ordered(fifo, h, false) && Ordered(lru, h, true) && StatusOf(h, f).Absent?
    ensures Ordered([f] + fifo, h + [Unpinned(f)], false) && Ordered(lru, h + [Unpinned(f)], true)
  {
    Next(h, Unpinned(f), f);
    OthersAll(fifo, h, false, f);
    OthersAll(lru, h, true, f);
    OthersFront(fifo, h, false, Unpinned(f));
    OthersStay(lru, h, true, Unpinned(f));
  }

  /** A hot frame becomes the youngest of the hot again. */
  lemma Refreshes(fifo: seq<Frame>, lru: seq<Frame>, h: seq<Event>, p: nat)
    requires Ordered(fifo, h, false) && Ordered(lru, h, true) && p < |lru|
    ensures Ordered(fifo, h + [Unpinned(lru[p])], false)
    ensures Ordered([lru[p]] + (lru[..p] + lru[p + 1..]), h + [Unpinned(lru[p])], true)
  {
    var f := lru[p];
    assert f in lru;
    Next(h, Unpinned(f), f);
    OthersAll(fifo, h, false, f);
    OthersWithout(lru, h, true, p);
    OthersStay(fifo, h, false, Unpinned(f));
    OthersFront(lru[..p] + lru[p + 1..], h, true, Unpinned(f));
  }

  /** A cold frame moves over to the hot ones. */
  lemma Warms(fifo: seq<Frame>, lru: seq<Frame>, h: seq<Event>, p: nat)
    requires Ordered(fifo, h, false) && Ordered(lru, h, true) && p < |fifo|
    ensures Ordered(fifo[..p] + fifo[p + 1..], h + [Unpinned(fifo[p])], false)
    ensures Ordered([fifo[p]] + lru, h + [Unpinned(fifo[p])], true)
  {
    var f := fifo[p];
    assert f in fifo;
    Next(h, Unpinned(f), f);
    OthersWithout(fifo, h, false, p);
    OthersAll(lru, h, true, f);
    OthersStay(fifo[..p] + fifo[p + 1..], h, false, Unpinned(f));
    OthersFront(lru, h, true, Unpinned(f));
  }

  /** Where there is an unpinned frame, the search through its list finds one: assert(false) is not reached. */
  lemma Listed(list: seq<Frame>, h: seq<Event>, ht: map<Frame, Hotness>, hot: bool, comp: Hotness)
    requires Ordered(list, h, hot) && Indexes(ht, h) && comp == (if hot then HOT else COLD)
    requires Has(ht, comp)
    ensures exists i :: 0 <= i < |list| && list[i] in ht && ht[list[i]] == comp
    ensures forall f :: f in list ==> f in ht
  {
    var f :| f in ht && ht[f] == comp;
    assert f in list;
  }

  /** The victim leaves its list, and the other list does not have it. */
  lemma Leaves(h: seq<Event>, list: seq<Frame>, other: seq<Frame>, hot: bool, p: nat)
    requires Ordered(list, h, hot) && Ordered(other, h, !hot) && p < |list|
    ensures Ordered(list[..p] + list[p + 1..], h + [Evicted(list[p])], hot)
    ensures Ordered(other, h + [Evicted(list[p])], !hot)
  {
    var f := list[p];
    assert f in list;
    Next(h, Evicted(f), f);
    OthersWithout(list, h, hot, p);
    OthersStay(list[..p] + list[p + 1..], h, hot, Evicted(f));
    OthersAll(other, h, !hot, f);
    OthersStay(other, h, !hot, Evicted(f));
  }

  /** ht.size() == fifo_list.size() + lru_list.size(), which every method asserts (2Q_replacer.cc:12, 47, 68). */
  lemma TableIsBothLists(fifo: seq<Frame>, lru: seq<Frame>, ht: map<Frame, Hotness>, h: seq<Event>)
    requires Ordered(fifo, h, false) && Ordered(lru, h, true) && Indexes(ht, h)
    ensures |ht| == |fifo| + |lru|
  {
    Distinct(fifo, h);
    Distinct(lru, h);
    assert Frames(fifo) !! Frames(lru);
    assert ht.Keys == Frames(fifo) + Frames(lru);
  }

  function Frames(list: seq<Frame>): set<Frame> { set f | f in list }

  lemma {:induction false} Distinct(list: seq<Frame>, h: seq<Event>)
    requires forall i, j :: 0 <= i < j < |list| ==> Since(h, list[j]) < Since(h, list[i])
    ensures |Frames(list)| == |list|
  {
    if list != [] {
      var n := |list| - 1;
      Distinct(list[..n], h);
      Extended(list[..n], list[n]);
      assert list == list[..n] + [list[n]];
    }
  }

  lemma Extended(list: seq<Frame>, x: Frame)
    requires x !in list
    ensures |Frames(list + [x])| == |Frames(list)| + 1
  {
    assert Frames(list + [x]) == Frames(list) + {x};
  }

  lemma SizeUpdate(ht: map<Frame, Hotness>, f: Frame, x: Hotness)
    ensures |ht[f := x]| == |ht| + (if f in ht then 0 else 1)
    ensures |ht - {f}| <= |ht|
  {
    assert ht[f := x].Keys == ht.Keys + {f};
    assert (ht - {f}).Keys == ht.Keys - {f};
  }
}
