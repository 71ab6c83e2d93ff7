/** The sections that create, load, evict and drop frames keep the invariant. */
module BufferEvict {
  import opened Collections
  import opened BufferState
  import opened BufferInvariant
  import opened BufferSteps

  // ---------- lists ----------

  lemma {:induction false} RemoveAll<T>(xs: seq<T>, x: T)
    requires NoDup(xs)
    ensures NoDup(Remove(xs, x)) && x !in Remove(xs, x)
  {
    if xs == [] {
    } else if xs[0] == x {
    } else {
      RemoveAll(xs[1..], x);
      var r := Remove(xs[1..], x);
      assert xs[0] !in xs[1..];
    }
  }

  lemma NoDupAppend<T>(xs: seq<T>, x: T)
    requires NoDup(xs) && x !in xs
    ensures NoDup(xs + [x]) && forall y :: y in xs + [x] <==> y in xs || y == x
  {
  }

  /** Moving an owner to the end of the LRU list changes nothing but the lists. */
  lemma TouchInv(cfg: Config, s: State, p: PageId)
    requires Inv(cfg, s) && Owns(s, p)
    ensures Inv(cfg, Touch(s, p))
  {
    var u := Touch(s, p);
    TouchStructure(cfg, s, p);
    hide Structure, Touch, Counts, Places, Datas;
    SameButLists(cfg, s, u);
    SameOwners(s, u);
  }

  lemma SameOwners(s: State, u: State)
    requires forall q :: Owns(u, q) == Owns(s, q)
    ensures Owners(u) == Owners(s)
  {
  }

  lemma TouchStructure(cfg: Config, s: State, p: PageId)
    requires Structure(cfg, s) && Owns(s, p)
    ensures Structure(cfg, Touch(s, p)) && OtherLists(s, Touch(s, p))
  {
    var u := Touch(s, p);
    ListsTouched(s, u, p);
    hide Touch, Remove;
    forall q ensures Owns(u, q) == Owns(s, q) {
    }
    forall q | q in u.frames ensures FrameSlotOk(cfg, u, q) {
      assert FrameSlotOk(cfg, s, q);
    }
  }

  /** Nothing but the lists differs. */
  ghost predicate OtherLists(s: State, u: State) {
    && u.frames == s.frames && u.sessions == s.sessions && u.slots == s.slots
    && u.files == s.files && u.left == s.left && u.origin == s.origin
  }

  /** The page is in the LRU list, and not in the other one. */
  lemma ListsTouched(s: State, u: State, p: PageId)
    requires u == Touch(s, p) && NoDup(s.lru) && NoDup(s.fifo) && (forall q :: q in s.fifo ==> q !in s.lru)
    ensures OtherLists(s, u) && NoDup(u.lru) && NoDup(u.fifo)
    ensures forall q :: q in u.lru <==> q in s.lru || q == p
    ensures forall q :: q in u.fifo <==> q in s.fifo && q != p
  {
    RemoveAll(s.lru, p);
    RemoveAll(s.fifo, p);
    if p in s.lru {
      NoDupAppend(Remove(s.lru, p), p);
    } else {
      NoDupAppend(s.lru, p);
    }
  }

  lemma SameButLists(cfg: Config, s: State, u: State)
    requires Counts(s) && Places(s) && Datas(cfg, s) && OtherLists(s, u)
    ensures Counts(u) && Places(u) && Datas(cfg, u)
  {
    forall q ensures CountsAt(u, q) && LoadingHasReader(u, q) && DataAt(cfg, u, q) {
      assert CountsAt(s, q) && LoadingHasReader(s, q) && DataAt(cfg, s, q);
      if PagePresent(s, q, {LOADING}) {
        var w :| IsReading(s, w, q);
        assert IsReading(u, w, q);
      }
      assert forall w :: Changing(s, w, q) ==> Changing(u, w, q);
      assert forall w :: WillMark(s, w, q) ==> WillMark(u, w, q);
    }
    forall w | w in u.sessions ensures SessionOk(u, u.sessions[w]) && TransferOk(cfg, u, w) {
      assert SessionOk(s, s.sessions[w]) && TransferOk(cfg, s, w);
    }
  }

  /** The frame with one more user, claimed back if it was being evicted. */
  function Pinned(f: Frame): Frame {
    f.(users := f.users + 1, state := if f.state == EVICTING then RELOADED else f.state)
  }

  lemma PinnedInv(cfg: Config, s: State, t: SessionId, p: PageId, x: bool)
    requires Inv(cfg, s) && t in s.sessions && s.sessions[t] == Start(p, x)
    requires p in s.frames && s.frames[p].state != NEW
    ensures Inv(cfg, Goto(SetFrame(s, p, Pinned(s.frames[p])), t, WantLock(p, x)))
  {
    Facts(cfg, s, t, p);
    hide Structure, Counts, Places, Datas, Quota;
    var u := Goto(SetFrame(s, p, Pinned(s.frames[p])), t, WantLock(p, x));
    FrameStep(s, t, p, Pinned(s.frames[p]), WantLock(p, x));
    LatchKept(s.frames[p], Pinned(s.frames[p]), s.sessions[t], WantLock(p, x), p);
    SameData(cfg, s, u, t, p);
    hide Local, LatchMoves, DataAt;
    LocalCore(cfg, s, u, t, p);
  }

  lemma FoundOtherInv(cfg: Config, s: State, t: SessionId, p: PageId, x: bool)
    requires Inv(cfg, s) && t in s.sessions && s.sessions[t] == Start(p, x)
    requires p in s.frames && s.frames[p].state != NEW
    ensures Inv(cfg, Found(s, t, p, x))
  {
    Facts(cfg, s, t, p);
    PinnedInv(cfg, s, t, p, x);
    var u := Goto(SetFrame(s, p, Pinned(s.frames[p])), t, WantLock(p, x));
    hide Inv;
    TouchInv(cfg, u, p);
    FoundTouches(s, t, p, x);
  }

  lemma FoundTouches(s: State, t: SessionId, p: PageId, x: bool)
    requires t in s.sessions && p in s.frames && s.frames[p].state != NEW
    ensures Found(s, t, p, x) == Touch(Goto(SetFrame(s, p, Pinned(s.frames[p])), t, WantLock(p, x)), p)
  {
    hide Remove;
    var f := s.frames[p].(users := s.frames[p].users + 1);
    assert Pinned(s.frames[p]) == if f.state == EVICTING then f.(state := RELOADED) else f;
  }

  lemma LookAgainTouchInv(cfg: Config, s: State, t: SessionId, p: PageId, x: bool)
    requires Inv(cfg, s) && t in s.sessions && s.sessions[t] == Recheck(p, x)
    requires p in s.frames && s.frames[p].state != NEW
    ensures Inv(cfg, LookAgainStep(s, t, p, x))
  {
    Facts(cfg, s, t, p);
    var u := Goto(s, t, WantLock(p, x));
    assert SetFrame(s, p, s.frames[p]).frames == s.frames;
    hide Structure, Counts, Places, Datas, Quota;
    FrameStep(s, t, p, s.frames[p], WantLock(p, x));
    LatchKept(s.frames[p], s.frames[p], s.sessions[t], WantLock(p, x), p);
    SameData(cfg, s, u, t, p);
    hide Local, LatchMoves, DataAt;
    LocalCore(cfg, s, u, t, p);
    hide Inv, Touch;
    TouchInv(cfg, u, p);
    TouchesGoto(s, t, p, WantLock(p, x));
  }

  lemma TouchesGoto(s: State, t: SessionId, p: PageId, pc: Pc)
    ensures Touch(Goto(s, t, pc), p) == Goto(Touch(s, p), t, pc)
  {
  }

  // ---------- frames that come and go ----------

  /** Page `p` is pinned by `t` alone, or by nobody when `t` does not pin it. */
  lemma NoOtherPins(s: State, t: SessionId, p: PageId)
    requires t in s.sessions && CountsAt(s, p)
    requires (p in s.frames ==> s.frames[p].users <= Bit(Is(Pin, s.sessions[t], p)))
    ensures forall w :: w in s.sessions && w != t ==> !Is(Pin, s.sessions[w], p)
  {
    forall w | w in s.sessions && w != t && Is(Pin, s.sessions[w], p) ensures false {
      Counted(s.sessions, w, Pin, p);
    }
  }

  /** What a session holds it also pins, so without pins nothing is held. */
  lemma HoldersPin(sessions: map<SessionId, Pc>, p: PageId)
    ensures Count(sessions, Pin, p) == 0 ==> Count(sessions, HoldsExclusive, p) == 0 && Count(sessions, HoldsShared, p) == 0
  {
    assert Sessions(sessions, HoldsExclusive, p) <= Sessions(sessions, Pin, p);
    assert Sessions(sessions, HoldsShared, p) <= Sessions(sessions, Pin, p);
  }

  /** Frame `p` appears (in no list, with no slot) or disappears, and session `t`, the only one to pin it, moves. */
  ghost predicate ComesOrGoes(s: State, u: State, t: SessionId, p: PageId) {
    && t in s.sessions && t in u.sessions && u.sessions == s.sessions[t := u.sessions[t]]
    && (forall q :: q != p ==> (q in s.frames <==> q in u.frames) && (q in s.frames ==> u.frames[q] == s.frames[q]))
    && u.slots == s.slots && u.files == s.files && u.left == s.left && u.origin == s.origin
    && OnPage(s.sessions[t], p) && OnPage(u.sessions[t], p)
    && (forall w :: w in s.sessions && w != t ==> !Is(Pin, s.sessions[w], p))
    && (forall w :: w in s.sessions && w != t && s.sessions[w].Writing? ==> s.sessions[w].victim != p)
    && !s.sessions[t].Writing? && !u.sessions[t].Writing? && !s.sessions[t].Reading?
  }

  lemma ComesOrGoesPlaces(s: State, u: State, t: SessionId, p: PageId)
    requires ComesOrGoes(s, u, t, p) && Places(s) && SessionOk(u, u.sessions[t])
    requires p in u.frames ==> u.frames[p].state == NEW
    ensures Places(u)
  {
    forall w | w in u.sessions ensures SessionOk(u, u.sessions[w]) {
      if w != t {
        assert SessionOk(s, s.sessions[w]);
      }
    }
    forall q ensures LoadingHasReader(u, q) {
      assert LoadingHasReader(s, q);
      if PagePresent(u, q, {LOADING}) {
        var w :| IsReading(s, w, q);
        assert IsReading(u, w, q);
      }
    }
    forall q | PagePresent(u, q, {EVICTING}) ensures u.frames[q].users == 0 {
      assert PagePresent(s, q, {EVICTING});
    }
  }

  lemma ComesOrGoesDatas(cfg: Config, s: State, u: State, t: SessionId, p: PageId)
    requires ComesOrGoes(s, u, t, p) && Datas(cfg, s) && TransferOk(cfg, u, t)
    requires p in u.frames ==> u.frames[p].state == NEW
    requires DiskAt(cfg, s.files, p) == Left(cfg, s, p)
    ensures Datas(cfg, u)
  {
    forall q ensures DataAt(cfg, u, q) {
      if q != p {
        assert DataAt(cfg, s, q);
        forall w | WillMark(s, w, q) ensures WillMark(u, w, q) && (Changing(s, w, q) ==> Changing(u, w, q)) {
          assert Is(Pin, s.sessions[w], q);
        }
      }
    }
    forall w | w in u.sessions ensures TransferOk(cfg, u, w) {
      if w != t {
        assert TransferOk(cfg, s, w);
      }
    }
  }

  lemma ComesOrGoesCounts(s: State, u: State, t: SessionId, p: PageId)
    requires ComesOrGoes(s, u, t, p) && Counts(s) && CountsAt(u, p)
    ensures Counts(u)
  {
    forall q ensures CountsAt(u, q) {
      if q != p {
        assert CountsAt(s, q);
        CountsAfter(s.sessions, t, u.sessions[t], q);
      }
    }
  }

  /** Victims are owned pages, so never a NEW frame or an absent page. */
  lemma VictimsOwned(s: State, p: PageId)
    requires Places(s) && (p in s.frames ==> s.frames[p].state == NEW)
    ensures forall w :: w in s.sessions && s.sessions[w].Writing? ==> s.sessions[w].victim != p
  {
    forall w | w in s.sessions && s.sessions[w].Writing? ensures s.sessions[w].victim != p {
      assert SessionOk(s, s.sessions[w]);
    }
  }

  lemma CreateCore(cfg: Config, s: State, t: SessionId, p: PageId, x: bool)
    requires Inv(cfg, s) && t in s.sessions && s.sessions[t] == Start(p, x) && p !in s.frames
    ensures Core(cfg, Create(s, t, p, x)) && Owners(Create(s, t, p, x)) == Owners(s)
  {
    var u := Create(s, t, p, x);
    Facts(cfg, s, t, p);
    AbsentNoPins(s, t, p);
    VictimsOwned(s, p);
    ComesOrGoesStructure(cfg, s, u, p);
    hide Structure, Places, Datas;
    Appears(s, t, p, x);
    hide Create, ComesOrGoes;
    ComesOrGoesCounts(s, u, t, p);
    hide Counts, CountsAt;
    ComesOrGoesPlaces(s, u, t, p);
    ComesOrGoesDatas(cfg, s, u, t, p);
  }

  lemma Appears(s: State, t: SessionId, p: PageId, x: bool)
    requires t in s.sessions && s.sessions[t] == Start(p, x) && p !in s.frames && CountsAt(s, p)
    requires forall w :: w in s.sessions ==> !Is(Pin, s.sessions[w], p)
    requires forall w :: w in s.sessions && s.sessions[w].Writing? ==> s.sessions[w].victim != p
    ensures var u := Create(s, t, p, x);
      && ComesOrGoes(s, u, t, p) && CountsAt(u, p) && SessionOk(u, u.sessions[t])
      && p in u.frames && u.frames[p].state == NEW && u.sessions[t] == Choosing(p, x)
  {
    CountsAfter(s.sessions, t, Choosing(p, x), p);
  }

  lemma AbsentNoPins(s: State, t: SessionId, p: PageId)
    requires t in s.sessions && CountsAt(s, p) && p !in s.frames
    ensures forall w :: w in s.sessions ==> !Is(Pin, s.sessions[w], p)
  {
    forall w | w in s.sessions && Is(Pin, s.sessions[w], p) ensures false {
      Counted(s.sessions, w, Pin, p);
    }
  }

  /** A frame without a slot comes or goes: owners, slots and lists stay. */
  lemma ComesOrGoesStructure(cfg: Config, s: State, u: State, p: PageId)
    requires Structure(cfg, s) && u.slots == s.slots && u.fifo == s.fifo && u.lru == s.lru
    requires forall q :: q != p ==> (q in s.frames <==> q in u.frames) && (q in s.frames ==> u.frames[q] == s.frames[q])
    requires !Owns(s, p) && (p in u.frames ==> u.frames[p].state == NEW && u.frames[p].slot == None)
    ensures Structure(cfg, u) && Owners(u) == Owners(s)
  {
    assert forall q :: Owns(u, q) == Owns(s, q);
    forall q | q in u.frames ensures FrameSlotOk(cfg, u, q) {
      assert q != p ==> FrameSlotOk(cfg, s, q);
    }
  }

  ghost predicate Full(cfg: Config, s: State) { |Owners(s)| == cfg.pageCount }

  /** While a NEW frame exists all slots are taken. */
  lemma NewMeansFull(cfg: Config, s: State, p: PageId)
    requires Inv(cfg, s) && p in s.frames && s.frames[p].state == NEW
    ensures Full(cfg, s)
  {
    assert FrameSlotOk(cfg, s, p);
  }

  /** A NEW frame that nobody else uses disappears. */
  lemma VanishInv(cfg: Config, s: State, u: State, t: SessionId, p: PageId, pc: Pc)
    requires Core(cfg, s) && Full(cfg, s) && t in s.sessions && (s.sessions[t].Recheck? || s.sessions[t].Choosing?)
    requires s.sessions[t].page == p && p in s.frames && s.frames[p].state == NEW && s.frames[p].users == 1
    requires (pc.Start? || pc.Threw?) && pc.page == p
    requires u == Goto(s.(frames := s.frames - {p}), t, pc)
    ensures Inv(cfg, u)
  {
    Facts(cfg, s, t, p);
    NoOtherPins(s, t, p);
    VictimsOwned(s, p);
    ComesOrGoesStructure(cfg, s, u, p);
    hide Structure, Places, Datas;
    Vanishes(s, u, t, p, pc);
    hide ComesOrGoes;
    ComesOrGoesCounts(s, u, t, p);
    hide Counts, CountsAt;
    ComesOrGoesPlaces(s, u, t, p);
    ComesOrGoesDatas(cfg, s, u, t, p);
  }

  lemma Vanishes(s: State, u: State, t: SessionId, p: PageId, pc: Pc)
    requires t in s.sessions && (s.sessions[t].Recheck? || s.sessions[t].Choosing?) && s.sessions[t].page == p
    requires p in s.frames && s.frames[p].users == 1 && CountsAt(s, p)
    requires forall w :: w in s.sessions && w != t ==> !Is(Pin, s.sessions[w], p)
    requires forall w :: w in s.sessions && s.sessions[w].Writing? ==> s.sessions[w].victim != p
    requires (pc.Start? || pc.Threw?) && pc.page == p
    requires u == Goto(s.(frames := s.frames - {p}), t, pc)
    ensures ComesOrGoes(s, u, t, p) && CountsAt(u, p)
  {
    CountsAfter(s.sessions, t, pc, p);
    HoldersPin(u.sessions, p);
  }

  /** A waiter finds that the loader failed. */
  lemma LookAgainDropInv(cfg: Config, s: State, t: SessionId, p: PageId, x: bool)
    requires Inv(cfg, s) && t in s.sessions && s.sessions[t] == Recheck(p, x)
    requires p in s.frames && s.frames[p].state == NEW
    ensures MayDrop(s, p) && Inv(cfg, LookAgainStep(s, t, p, x))
  {
    Facts(cfg, s, t, p);
    NewMeansFull(cfg, s, p);
    NewNotListed(cfg, s, p);
    var u := LookAgainStep(s, t, p, x);
    hide Structure, Counts, Places, Datas, Quota, Full;
    if s.frames[p].users == 1 {
      VanishInv(cfg, s, u, t, p, Start(p, x));
    } else {
      FrameStep(s, t, p, u.frames[p], Start(p, x));
      LatchKept(s.frames[p], u.frames[p], s.sessions[t], Start(p, x), p);
      SameData(cfg, s, u, t, p);
      hide Local, LatchMoves, DataAt;
      LocalCore(cfg, s, u, t, p);
    }
  }

  /** A NEW frame owns no slot, and only owners are in a list. */
  lemma NewNotListed(cfg: Config, s: State, p: PageId)
    requires Structure(cfg, s) && p in s.frames && s.frames[p].state == NEW
    ensures !Listed(s, p)
  {
    assert FrameSlotOk(cfg, s, p);
  }

  /** buffer_full_error: the frame is unlocked and dropped, or left NEW to the sessions that wait on it. */
  lemma GiveUpInv(cfg: Config, s: State, t: SessionId, p: PageId, x: bool)
    requires Core(cfg, s) && Full(cfg, s) && t in s.sessions && s.sessions[t] == Choosing(p, x)
    ensures p in s.frames && MayDrop(s, p) && Inv(cfg, GiveUp(s, t, p))
  {
    Facts(cfg, s, t, p);
    Held(s, t, p);
    NewNotListed(cfg, s, p);
    var u := GiveUp(s, t, p);
    hide Structure, Counts, Places, Datas;
    if s.frames[p].users == 1 {
      hide Full, Quota;
      assert SetFrame(s, p, Unlock(s.frames[p])).frames - {p} == s.frames - {p};
      VanishInv(cfg, s, u, t, p, Threw(p));
    } else {
      GiveUpLocal(cfg, s, u, t, p, x);
      hide Local, LatchMoves, DataAt;
      LocalCore(cfg, s, u, t, p);
    }
  }

  lemma GiveUpLocal(cfg: Config, s: State, u: State, t: SessionId, p: PageId, x: bool)
    requires t in s.sessions && s.sessions[t] == Choosing(p, x) && p in s.frames && s.frames[p].users > 1
    requires s.frames[p].latch == Exclusive && s.frames[p].exclusivelyLocked && DataAt(cfg, s, p)
    requires u == GiveUp(s, t, p)
    ensures Local(s, u, t, p) && LatchMoves(s.frames[p], u.frames[p], s.sessions[t], u.sessions[t], p) && DataAt(cfg, u, p)
  {
    LatchGiven(s.frames[p], s.sessions[t], Threw(p), p);
    SameData(cfg, s, u, t, p);
  }

  // ---------- eviction ----------

  /** Frame `v` may leave: nobody uses it and the disk has its true contents. */
  ghost predicate MayLeave(cfg: Config, s: State, v: PageId) {
    && Owns(s, v) && s.frames[v].users == 0 && DiskAt(cfg, s.files, v) == Left(cfg, s, v)
    && forall w :: w in s.sessions && s.sessions[w].Writing? ==> s.sessions[w].victim != v
  }

  /** Frame `v` is gone; the lists may differ, nothing else does. */
  ghost predicate Gone(s: State, u: State, v: PageId) {
    && u.frames == s.frames - {v} && u.sessions == s.sessions && u.slots == s.slots && u.files == s.files
    && u.left == s.left && u.origin == s.origin
  }

  lemma TakeOutCore(cfg: Config, s: State, t: SessionId, v: PageId)
    requires Core(cfg, s) && MayLeave(cfg, s, v) && t in s.sessions && s.sessions[t].Choosing? && s.sessions[t].page != v
    ensures Core(cfg, TakeOut(s, v)) && Owners(TakeOut(s, v)) == Owners(s) - {v}
    ensures forall q :: Owns(TakeOut(s, v), q) ==> s.frames[q].slot != s.frames[v].slot
  {
    var u := TakeOut(s, v);
    Facts(cfg, s, t, v);
    NoOtherPins(s, t, v);
    HoldersPin(s.sessions, v);
    TakeOutStructure(cfg, s, v);
    hide Structure, Owners, Owns;
    GoneCounts(s, u, v);
    hide Counts;
    GonePlaces(s, u, v);
    hide Places;
    GoneDatas(cfg, s, u, v);
  }

  lemma TakeOutStructure(cfg: Config, s: State, v: PageId)
    requires Structure(cfg, s) && Owns(s, v)
    ensures Structure(cfg, TakeOut(s, v)) && Owners(TakeOut(s, v)) == Owners(s) - {v} && Gone(s, TakeOut(s, v), v)
    ensures forall q :: Owns(TakeOut(s, v), q) ==> s.frames[q].slot != s.frames[v].slot
  {
    var u := TakeOut(s, v);
    ListsWithout(s, u, v);
    hide TakeOut, Remove;
    OwnersWithout(s, u, v);
    forall q | q in u.frames ensures FrameSlotOk(cfg, u, q) {
      assert FrameSlotOk(cfg, s, q);
    }
    hide NoDup;
  }

  lemma OwnersWithout(s: State, u: State, v: PageId)
    requires Gone(s, u, v)
    ensures forall q :: Owns(u, q) <==> q != v && Owns(s, q)
    ensures forall q :: Owns(u, q) ==> u.frames[q] == s.frames[q]
    ensures Owners(u) == Owners(s) - {v}
  {
    forall q ensures Owns(u, q) <==> q != v && Owns(s, q) {
    }
  }

  /** The victim leaves the one list it is in. */
  lemma ListsWithout(s: State, u: State, v: PageId)
    requires u == TakeOut(s, v) && NoDup(s.lru) && NoDup(s.fifo) && (forall p :: p in s.fifo ==> p !in s.lru)
    ensures Gone(s, u, v) && NoDup(u.lru) && NoDup(u.fifo)
    ensures forall p :: p in u.lru <==> p in s.lru && p != v
    ensures forall p :: p in u.fifo <==> p in s.fifo && p != v
  {
    if v in s.lru {
      RemoveAll(s.lru, v);
    } else {
      RemoveAll(s.fifo, v);
    }
  }

  lemma GoneCounts(s: State, u: State, v: PageId)
    requires Counts(s) && Gone(s, u, v) && Count(s.sessions, Pin, v) == 0
    ensures Counts(u)
  {
    HoldersPin(s.sessions, v);
    forall q ensures CountsAt(u, q) {
      assert CountsAt(s, q);
    }
  }

  lemma GonePlaces(s: State, u: State, v: PageId)
    requires Places(s) && Gone(s, u, v)
    requires forall w :: w in s.sessions ==> !Is(Pin, s.sessions[w], v)
    requires forall w :: w in s.sessions && s.sessions[w].Writing? ==> s.sessions[w].victim != v
    ensures Places(u)
  {
    forall q ensures LoadingHasReader(u, q) {
      assert LoadingHasReader(s, q);
      if PagePresent(u, q, {LOADING}) {
        var w :| IsReading(s, w, q);
        assert IsReading(u, w, q);
      }
    }
    forall w | w in u.sessions ensures SessionOk(u, u.sessions[w]) {
      assert SessionOk(s, s.sessions[w]) && !Is(Pin, s.sessions[w], v);
    }
    forall q | PagePresent(u, q, {EVICTING}) ensures u.frames[q].users == 0 {
      assert PagePresent(s, q, {EVICTING});
    }
  }

  lemma GoneDatas(cfg: Config, s: State, u: State, v: PageId)
    requires Datas(cfg, s) && Gone(s, u, v) && DiskAt(cfg, s.files, v) == Left(cfg, s, v)
    requires forall w :: w in s.sessions ==> !Is(Pin, s.sessions[w], v)
    requires forall w :: w in s.sessions && s.sessions[w].Writing? ==> s.sessions[w].victim != v
    ensures Datas(cfg, u)
  {
    forall q ensures DataAt(cfg, u, q) {
      assert DataAt(cfg, s, q);
      GoneDataAt(cfg, s, u, v, q);
    }
    forall w | w in u.sessions ensures TransferOk(cfg, u, w) {
      assert TransferOk(cfg, s, w) && !Is(Pin, s.sessions[w], v);
    }
  }

  lemma GoneDataAt(cfg: Config, s: State, u: State, v: PageId, q: PageId)
    requires DataAt(cfg, s, q) && Gone(s, u, v) && DiskAt(cfg, s.files, v) == Left(cfg, s, v)
    ensures DataAt(cfg, u, q)
  {
    assert forall w :: Changing(s, w, q) ==> Changing(u, w, q);
    assert forall w :: WillMark(s, w, q) ==> WillMark(u, w, q);
  }
}
