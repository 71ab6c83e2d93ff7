/** Every atomic step keeps the invariant. */
module BufferSteps {
  import opened Collections
  import opened BufferState
  import opened BufferInvariant

  // ---------- steps that change one frame and one session ----------

  /** Nothing but the frame of `p`, the session `t` and the record for `p` changes; slots and lists stay. */
  ghost predicate Local(s: State, u: State, t: SessionId, p: PageId) {
    && t in s.sessions && t in u.sessions && u.sessions == s.sessions[t := u.sessions[t]]
    && p in s.frames && p in u.frames && u.frames == s.frames[p := u.frames[p]]
    && u.frames[p].slot == s.frames[p].slot && (u.frames[p].state == NEW <==> s.frames[p].state == NEW)
    && u.fifo == s.fifo && u.lru == s.lru && u.slots == s.slots && u.files == s.files && u.origin == s.origin
    && (u.left == s.left || (p in u.left && u.left == s.left[p := u.left[p]]))
    && OnPage(s.sessions[t], p) && OnPage(u.sessions[t], p)
  }

  /** A session there pins no other page than `p`. */
  predicate OnPage(pc: Pc, p: PageId) { !pc.Idle? ==> pc.page == p }

  lemma LocalStructure(cfg: Config, s: State, u: State, t: SessionId, p: PageId)
    requires Local(s, u, t, p) && Structure(cfg, s)
    ensures Structure(cfg, u) && (Quota(cfg, s) ==> Quota(cfg, u)) && Owners(u) == Owners(s)
  {
    SameStructure(cfg, s, u);
  }

  /** Steps that leave slots and lists alone keep the structure and the quota. */
  lemma SameStructure(cfg: Config, s: State, u: State)
    requires Structure(cfg, s) && |u.slots| == |s.slots| && u.fifo == s.fifo && u.lru == s.lru
    requires u.frames.Keys == s.frames.Keys
    requires forall p :: p in s.frames ==>
      u.frames[p].slot == s.frames[p].slot && (u.frames[p].state == NEW <==> s.frames[p].state == NEW)
    ensures Structure(cfg, u) && (Quota(cfg, s) ==> Quota(cfg, u)) && Owners(u) == Owners(s)
  {
    forall p ensures Owns(u, p) == Owns(s, p) {
    }
    assert Owners(u) == Owners(s);
    forall p | p in u.frames ensures FrameSlotOk(cfg, u, p) {
      assert FrameSlotOk(cfg, s, p);
    }
  }

  /** A step that changes the frame of its own page and no slot. */
  lemma FrameStep(s: State, t: SessionId, p: PageId, f: Frame, pc: Pc)
    requires t in s.sessions && p in s.frames && OnPage(s.sessions[t], p) && OnPage(pc, p)
    requires f.slot == s.frames[p].slot && (f.state == NEW <==> s.frames[p].state == NEW)
    ensures Local(s, Goto(SetFrame(s, p, f), t, pc), t, p)
  {
  }

  /** The latch of a frame of `p` follows what the session held before, at `a`, and holds after, at `b`. */
  ghost predicate LatchMoves(f: Frame, g: Frame, a: Pc, b: Pc, p: PageId) {
    forall x: nat, h: nat {:trigger LatchOk(f, x, h)} :: LatchOk(f, x, h) ==>
      var x' := x - Bit(Is(HoldsExclusive, a, p));
      var h' := h - Bit(Is(HoldsShared, a, p));
      x' >= 0 && h' >= 0 ==>
        LatchOk(g, x' + Bit(Is(HoldsExclusive, b, p)), h' + Bit(Is(HoldsShared, b, p)))
  }

  lemma LatchKept(f: Frame, g: Frame, a: Pc, b: Pc, p: PageId)
    requires g.latch == f.latch && g.exclusivelyLocked == f.exclusivelyLocked
    requires Is(HoldsExclusive, a, p) == Is(HoldsExclusive, b, p) && Is(HoldsShared, a, p) == Is(HoldsShared, b, p)
    ensures LatchMoves(f, g, a, b, p)
  {
  }

  lemma LatchTaken(f: Frame, exclusive: bool, a: Pc, b: Pc, p: PageId)
    requires Lock(f, exclusive).Some?
    requires !Is(HoldsExclusive, a, p) && !Is(HoldsShared, a, p)
    requires Is(HoldsExclusive, b, p) == exclusive && Is(HoldsShared, b, p) == !exclusive
    ensures LatchMoves(f, Lock(f, exclusive).value, a, b, p)
  {
  }

  lemma LatchGiven(f: Frame, a: Pc, b: Pc, p: PageId)
    requires Is(HoldsExclusive, a, p) ==> f.latch == Exclusive && f.exclusivelyLocked
    requires Is(HoldsShared, a, p) ==> f.latch.Shared? && !f.exclusivelyLocked
    requires Is(HoldsExclusive, a, p) || Is(HoldsShared, a, p)
    requires !Is(HoldsExclusive, b, p) && !Is(HoldsShared, b, p)
    ensures LatchMoves(f, Unlock(f), a, b, p)
  {
  }

  /** The users and the latch of `p` change as the session does. */
  lemma LocalCounts(s: State, u: State, t: SessionId, p: PageId)
    requires Local(s, u, t, p) && Counts(s)
    requires u.frames[p].users == s.frames[p].users - Bit(Is(Pin, s.sessions[t], p)) + Bit(Is(Pin, u.sessions[t], p))
    requires LatchMoves(s.frames[p], u.frames[p], s.sessions[t], u.sessions[t], p)
    ensures Counts(u)
  {
    forall q ensures CountsAt(u, q) {
      assert CountsAt(s, q);
      CountsAfter(s.sessions, t, u.sessions[t], q);
      if q == p {
        if Is(HoldsExclusive, s.sessions[t], p) {
          Counted(s.sessions, t, HoldsExclusive, p);
        }
        if Is(HoldsShared, s.sessions[t], p) {
          Counted(s.sessions, t, HoldsShared, p);
        }
      }
    }
  }

  /** The state a frame may change to under its other sessions. */
  predicate MayBecome(a: FrameState, b: FrameState) { a == b || (a == EVICTING && b == RELOADED) }

  lemma LocalPlaces(s: State, u: State, t: SessionId, p: PageId)
    requires Local(s, u, t, p) && Places(s)
    requires MayBecome(s.frames[p].state, u.frames[p].state) && (s.frames[p].dirty ==> u.frames[p].dirty)
    requires SessionOk(u, u.sessions[t]) && !s.sessions[t].Reading? && !u.sessions[t].Writing?
    requires u.frames[p].state == EVICTING ==> u.frames[p].users == 0
    ensures Places(u)
  {
    forall w | w in u.sessions ensures SessionOk(u, u.sessions[w]) {
      if w != t {
        assert SessionOk(s, s.sessions[w]);
      }
    }
    forall q ensures LoadingHasReader(u, q) {
      assert LoadingHasReader(s, q);
      if PagePresent(s, q, {LOADING}) {
        var w :| IsReading(s, w, q);
        assert IsReading(u, w, q);
      }
    }
  }

  lemma LocalDatas(cfg: Config, s: State, u: State, t: SessionId, p: PageId)
    requires Local(s, u, t, p) && Datas(cfg, s) && MayBecome(s.frames[p].state, u.frames[p].state)
    requires DataAt(cfg, u, p) && TransferOk(cfg, u, t)
    ensures Datas(cfg, u)
  {
    forall q ensures DataAt(cfg, u, q) {
      if q != p {
        DataElsewhere(cfg, s, u, t, p, q);
      }
    }
    forall w | w in u.sessions ensures TransferOk(cfg, u, w) {
      if w != t {
        assert TransferOk(cfg, s, w);
      }
    }
  }

  lemma DataElsewhere(cfg: Config, s: State, u: State, t: SessionId, p: PageId, q: PageId)
    requires Local(s, u, t, p) && DataAt(cfg, s, q) && q != p
    ensures DataAt(cfg, u, q)
  {
    forall w | Changing(s, w, q) ensures Changing(u, w, q) {
      assert Is(Pin, s.sessions[w], q);
    }
    forall w | WillMark(s, w, q) ensures WillMark(u, w, q) {
      assert Is(Pin, s.sessions[w], q);
    }
    assert Left(cfg, u, q) == Left(cfg, s, q);
  }

  /** The other sessions that change `p`, or will mark it dirty, still do. */
  lemma Others(s: State, u: State, t: SessionId, p: PageId)
    requires Local(s, u, t, p)
    ensures forall w :: w != t && Changing(s, w, p) ==> Changing(u, w, p)
    ensures forall w :: w != t && WillMark(s, w, p) ==> WillMark(u, w, p)
  {
  }

  /** A step that leaves contents and marks of `p` alone keeps them where they are. */
  lemma SameData(cfg: Config, s: State, u: State, t: SessionId, p: PageId)
    requires Local(s, u, t, p) && DataAt(cfg, s, p) && u.left == s.left
    requires MayBecome(s.frames[p].state, u.frames[p].state) && u.frames[p].dirty == s.frames[p].dirty
    requires !s.sessions[t].Using? && !s.sessions[t].Unfixing?
    ensures DataAt(cfg, u, p)
  {
    Others(s, u, t, p);
  }

  /** What the invariant says about one session and one page. */
  lemma Facts(cfg: Config, s: State, t: SessionId, p: PageId)
    requires Core(cfg, s) && t in s.sessions
    ensures CountsAt(s, p) && SessionOk(s, s.sessions[t]) && DataAt(cfg, s, p) && TransferOk(cfg, s, t)
    ensures |s.slots| == cfg.pageCount && (p in s.frames ==> FrameSlotOk(cfg, s, p))
    ensures p in s.frames && s.frames[p].state == EVICTING ==> s.frames[p].users == 0
    ensures Is(Pin, s.sessions[t], p) ==> p in s.frames && s.frames[p].users >= 1
  {
    assert CountsAt(s, p);
    if Is(Pin, s.sessions[t], p) {
      Counted(s.sessions, t, Pin, p);
    }
    assert PagePresent(s, p, {EVICTING}) ==> s.frames[p].users == 0;
    assert p in s.frames ==> FrameSlotOk(cfg, s, p);
  }

  /** The latch is held in the mode of the session. */
  lemma Held(s: State, t: SessionId, p: PageId)
    requires Counts(s) && t in s.sessions
    ensures Is(HoldsExclusive, s.sessions[t], p) ==> p in s.frames && s.frames[p].latch == Exclusive && s.frames[p].exclusivelyLocked
    ensures Is(HoldsShared, s.sessions[t], p) ==> p in s.frames && s.frames[p].latch.Shared? && !s.frames[p].exclusivelyLocked
  {
    assert CountsAt(s, p);
    if Is(HoldsExclusive, s.sessions[t], p) {
      Counted(s.sessions, t, HoldsExclusive, p);
    }
    if Is(HoldsShared, s.sessions[t], p) {
      Counted(s.sessions, t, HoldsShared, p);
    }
  }

  /** A local step that keeps the frame's state keeps the invariant if it keeps it at its own page and session. */
  lemma LocalCore(cfg: Config, s: State, u: State, t: SessionId, p: PageId)
    requires Core(cfg, s) && Local(s, u, t, p) && MayBecome(s.frames[p].state, u.frames[p].state)
    requires u.frames[p].users == s.frames[p].users - Bit(Is(Pin, s.sessions[t], p)) + Bit(Is(Pin, u.sessions[t], p))
    requires LatchMoves(s.frames[p], u.frames[p], s.sessions[t], u.sessions[t], p)
    requires s.frames[p].dirty ==> u.frames[p].dirty
    requires SessionOk(u, u.sessions[t]) && !s.sessions[t].Reading? && !u.sessions[t].Writing?
    requires u.frames[p].state == EVICTING ==> u.frames[p].users == 0
    requires DataAt(cfg, u, p) && TransferOk(cfg, u, t)
    ensures Core(cfg, u) && (Quota(cfg, s) ==> Quota(cfg, u)) && Owners(u) == Owners(s)
  {
    LocalStructure(cfg, s, u, t, p);
    LocalCounts(s, u, t, p);
    LocalPlaces(s, u, t, p);
    LocalDatas(cfg, s, u, t, p);
  }

  // ---------- the local steps ----------

  lemma UnfixInv(cfg: Config, s: State, t: SessionId, p: PageId, dirty: bool)
    requires Inv(cfg, s) && t in s.sessions && s.sessions[t] == Unfixing(p, dirty)
    ensures p in s.frames && s.frames[p].users > 0 && Inv(cfg, UnfixStep(s, t, p, dirty))
  {
    Facts(cfg, s, t, p);
    hide Structure, Counts, Places, Datas, Quota;
    var u := UnfixStep(s, t, p, dirty);
    FrameStep(s, t, p, u.frames[p], Idle);
    LatchKept(s.frames[p], u.frames[p], s.sessions[t], Idle, p);
    Others(s, u, t, p);
    hide Local, LatchMoves;
    LocalCore(cfg, s, u, t, p);
  }

  lemma UnlockInv(cfg: Config, s: State, t: SessionId, p: PageId, x: bool, wrote: bool, dirty: bool)
    requires Inv(cfg, s) && t in s.sessions && s.sessions[t] == Using(p, x, wrote) && (wrote ==> dirty)
    ensures SlotOk(s, p) && Inv(cfg, UnlockStep(s, t, p, x, dirty))
  {
    Facts(cfg, s, t, p);
    Held(s, t, p);
    OneWriter(s, t, p);
    hide Structure, Counts, Places, Datas, Quota;
    var u := UnlockStep(s, t, p, x, dirty);
    UnlockData(cfg, s, u, t, p, x, wrote, dirty);
    UnlockMoves(cfg, s, u, t, p, x, wrote, dirty);
    hide UnlockStep, Local, LatchMoves, DataAt, TransferOk, CountsAt, SessionOk;
    LocalCore(cfg, s, u, t, p);
  }

  lemma UnlockMoves(cfg: Config, s: State, u: State, t: SessionId, p: PageId, x: bool, wrote: bool, dirty: bool)
    requires t in s.sessions && s.sessions[t] == Using(p, x, wrote)
    requires SlotOk(s, p) && s.frames[p].state in {LOADED, RELOADED} && u == UnlockStep(s, t, p, x, dirty)
    requires x ==> s.frames[p].latch == Exclusive && s.frames[p].exclusivelyLocked
    requires !x ==> s.frames[p].latch.Shared? && !s.frames[p].exclusivelyLocked
    ensures t in u.sessions && p in u.frames && SessionOk(u, u.sessions[t]) && TransferOk(cfg, u, t)
    ensures LatchMoves(s.frames[p], u.frames[p], s.sessions[t], u.sessions[t], p)
    ensures u.sessions[t] == Unfixing(p, dirty) && u.frames[p].state == s.frames[p].state
    ensures u.frames[p].users == s.frames[p].users && u.frames[p].dirty == s.frames[p].dirty
  {
    LatchGiven(s.frames[p], s.sessions[t], Unfixing(p, dirty), p);
  }

  /** What is left in a page is what its frame holds when its user gives it back. */
  lemma UnlockData(cfg: Config, s: State, u: State, t: SessionId, p: PageId, x: bool, wrote: bool, dirty: bool)
    requires t in s.sessions && s.sessions[t] == Using(p, x, wrote) && (wrote ==> dirty)
    requires SlotOk(s, p) && s.frames[p].state in {LOADED, RELOADED} && DataAt(cfg, s, p)
    requires forall w :: Changing(s, w, p) ==> w == t
    requires u == UnlockStep(s, t, p, x, dirty)
    ensures Local(s, u, t, p) && DataAt(cfg, u, p)
  {
    Others(s, u, t, p);
    assert x && wrote ==> WillMark(u, t, p);
    assert InFrame(u, p) == Left(cfg, u, p);
  }

  /** Nobody changes a page while another session holds its latch. */
  lemma OneWriter(s: State, t: SessionId, p: PageId)
    requires Counts(s) && t in s.sessions
    requires Is(HoldsExclusive, s.sessions[t], p) || Is(HoldsShared, s.sessions[t], p)
    ensures forall w :: Changing(s, w, p) ==> w == t
  {
    assert CountsAt(s, p);
    forall w | Changing(s, w, p) ensures w == t {
      Counted(s.sessions, w, HoldsExclusive, p);
      if Is(HoldsExclusive, s.sessions[t], p) {
        Counted(s.sessions, t, HoldsExclusive, p);
      } else {
        Counted(s.sessions, t, HoldsShared, p);
      }
    }
  }

  lemma LockNewInv(cfg: Config, s: State, t: SessionId, p: PageId, x: bool, f: Frame)
    requires Inv(cfg, s) && t in s.sessions && s.sessions[t] == WaitNew(p, x)
    requires p in s.frames && Lock(s.frames[p], true) == Some(f)
    ensures Inv(cfg, Goto(SetFrame(s, p, f), t, HoldNew(p, x)))
  {
    Facts(cfg, s, t, p);
    hide Structure, Counts, Places, Datas, Quota;
    var u := Goto(SetFrame(s, p, f), t, HoldNew(p, x));
    FrameStep(s, t, p, f, HoldNew(p, x));
    LatchTaken(s.frames[p], true, s.sessions[t], HoldNew(p, x), p);
    SameData(cfg, s, u, t, p);
    hide Local, LatchMoves, DataAt;
    LocalCore(cfg, s, u, t, p);
  }

  lemma UnlockNewInv(cfg: Config, s: State, t: SessionId, p: PageId, x: bool)
    requires Inv(cfg, s) && t in s.sessions && s.sessions[t] == HoldNew(p, x)
    ensures p in s.frames && Inv(cfg, Goto(SetFrame(s, p, Unlock(s.frames[p])), t, Recheck(p, x)))
  {
    Facts(cfg, s, t, p);
    Held(s, t, p);
    hide Structure, Counts, Places, Datas, Quota;
    var u := Goto(SetFrame(s, p, Unlock(s.frames[p])), t, Recheck(p, x));
    FrameStep(s, t, p, Unlock(s.frames[p]), Recheck(p, x));
    LatchGiven(s.frames[p], s.sessions[t], Recheck(p, x), p);
    SameData(cfg, s, u, t, p);
    hide Local, LatchMoves, DataAt;
    LocalCore(cfg, s, u, t, p);
  }

  lemma LockPageInv(cfg: Config, s: State, t: SessionId, p: PageId, x: bool, f: Frame)
    requires Inv(cfg, s) && t in s.sessions && s.sessions[t] == WantLock(p, x)
    requires p in s.frames && Lock(s.frames[p], x) == Some(f)
    ensures Inv(cfg, Goto(SetFrame(s, p, f), t, Using(p, x, false)))
  {
    Facts(cfg, s, t, p);
    NotLoading(cfg, s, p);
    hide Structure, Counts, Places, Datas, Quota;
    var u := Goto(SetFrame(s, p, f), t, Using(p, x, false));
    FrameStep(s, t, p, f, Using(p, x, false));
    LatchTaken(s.frames[p], x, s.sessions[t], Using(p, x, false), p);
    SameData(cfg, s, u, t, p);
    hide Local, LatchMoves, DataAt;
    LocalCore(cfg, s, u, t, p);
  }

  /** A frame that is being loaded is locked exclusively by its loader. */
  lemma NotLoading(cfg: Config, s: State, p: PageId)
    requires Core(cfg, s) && p in s.frames
    ensures s.frames[p].state == LOADING ==> s.frames[p].latch == Exclusive
  {
    assert LoadingHasReader(s, p);
    if s.frames[p].state == LOADING {
      var w :| IsReading(s, w, p);
      Held(s, w, p);
    }
  }

  lemma FoundNewInv(cfg: Config, s: State, t: SessionId, p: PageId, x: bool)
    requires Inv(cfg, s) && t in s.sessions && s.sessions[t] == Start(p, x)
    requires p in s.frames && s.frames[p].state == NEW
    ensures Inv(cfg, Found(s, t, p, x))
  {
    Facts(cfg, s, t, p);
    hide Structure, Counts, Places, Datas, Quota;
    var u := Found(s, t, p, x);
    FrameStep(s, t, p, u.frames[p], WaitNew(p, x));
    LatchKept(s.frames[p], u.frames[p], s.sessions[t], WaitNew(p, x), p);
    SameData(cfg, s, u, t, p);
    hide Local, LatchMoves, DataAt;
    LocalCore(cfg, s, u, t, p);
  }

  // ---------- steps that change a session, slots or files, but no frame ----------

  /** The session pins and holds the same there. */
  ghost predicate SameKinds(a: Pc, b: Pc) {
    forall q, kind :: Is(kind, a, q) == Is(kind, b, q)
  }

  /** Session `t` moves on without a change of what it pins or holds. */
  ghost predicate Moves(s: State, u: State, t: SessionId) {
    && t in s.sessions && t in u.sessions && u.sessions == s.sessions[t := u.sessions[t]]
    && u.frames == s.frames && u.fifo == s.fifo && u.lru == s.lru && |u.slots| == |s.slots|
    && u.left == s.left && u.origin == s.origin
    && SameKinds(s.sessions[t], u.sessions[t])
    && (u.sessions[t].Reading? <==> s.sessions[t].Reading?)
    && (u.sessions[t].Writing? ==> s.sessions[t].Writing? && u.sessions[t].victim == s.sessions[t].victim)
    && SessionOk(u, u.sessions[t])
  }

  lemma MovesCore(cfg: Config, s: State, u: State, t: SessionId)
    requires Inv(cfg, s) && Moves(s, u, t) && Datas(cfg, u)
    ensures Inv(cfg, u)
  {
    SameStructure(cfg, s, u);
    forall q ensures CountsAt(u, q) {
      assert CountsAt(s, q);
      CountsAfter(s.sessions, t, u.sessions[t], q);
    }
    MovesPlaces(s, u, t);
  }

  lemma MovesPlaces(s: State, u: State, t: SessionId)
    requires Places(s) && Moves(s, u, t)
    ensures Places(u)
  {
    forall w | w in u.sessions ensures SessionOk(u, u.sessions[w]) {
      if w != t {
        assert SessionOk(s, s.sessions[w]);
      }
    }
    forall q ensures LoadingHasReader(u, q) {
      assert LoadingHasReader(s, q);
      if PagePresent(s, q, {LOADING}) {
        var w :| IsReading(s, w, q);
        assert Is(Pin, u.sessions[w], q);
        assert IsReading(u, w, q);
      }
    }
  }

  lemma CallInv(cfg: Config, s: State, t: SessionId, p: PageId, x: bool)
    requires Inv(cfg, s) && t in s.sessions && (s.sessions[t].Idle? || s.sessions[t].Threw?)
    ensures Inv(cfg, Goto(s, t, Start(p, x)))
  {
    var u := Goto(s, t, Start(p, x));
    forall q ensures DataAt(cfg, u, q) {
      assert DataAt(cfg, s, q);
      CallData(cfg, s, t, p, x, q);
    }
    forall w | w in u.sessions ensures TransferOk(cfg, u, w) {
      assert w != t ==> TransferOk(cfg, s, w);
    }
    hide Structure, Counts, Places, DataAt, TransferOk, Quota;
    MovesCore(cfg, s, u, t);
  }

  lemma CallData(cfg: Config, s: State, t: SessionId, p: PageId, x: bool, q: PageId)
    requires t in s.sessions && (s.sessions[t].Idle? || s.sessions[t].Threw?) && DataAt(cfg, s, q)
    ensures DataAt(cfg, Goto(s, t, Start(p, x)), q)
  {
    var u := Goto(s, t, Start(p, x));
    assert forall w :: Changing(s, w, q) ==> Changing(u, w, q);
    assert forall w :: WillMark(s, w, q) ==> WillMark(u, w, q);
  }

  lemma WriteBlockDisk(cfg: Config, files: map<nat, seq<Data>>, v: PageId, d: Data, q: PageId)
    requires v.page < |FileOf(files, v.segment)|
    ensures DiskAt(cfg, WriteBlock(files, v, d), q) == if q == v then d else DiskAt(cfg, files, q)
    ensures |FileOf(WriteBlock(files, v, d), q.segment)| == |FileOf(files, q.segment)|
  {
  }

  /** Writing a victim's copy leaves the true contents of every page where they were. */
  lemma WriteDiskData(cfg: Config, s: State, u: State, t: SessionId, p: PageId, x: bool, v: PageId, d: Data, q: PageId)
    requires t in s.sessions && s.sessions[t] == Writing(p, x, v, d, false) && OnDisk(s, v)
    requires DataAt(cfg, s, q) && SessionOk(s, s.sessions[t])
    requires u == Goto(s.(files := WriteBlock(s.files, v, d)), t, Writing(p, x, v, d, true))
    ensures DataAt(cfg, u, q)
  {
    WriteBlockDisk(cfg, s.files, v, d, q);
    assert Left(cfg, u, q) == Left(cfg, s, q) && OnDisk(s, q) == OnDisk(u, q);
    hide Left, WriteBlock, DiskAt, FileOf, OnDisk, SessionOk;
    assert PagePresent(s, v, {EVICTING, RELOADED}) && s.frames[v].dirty;
    assert forall w :: Changing(s, w, q) ==> Changing(u, w, q);
    assert forall w :: WillMark(s, w, q) ==> WillMark(u, w, q);
  }

  lemma WriteDiskInv(cfg: Config, s: State, t: SessionId, p: PageId, x: bool, v: PageId, d: Data)
    requires Inv(cfg, s) && t in s.sessions && s.sessions[t] == Writing(p, x, v, d, false)
    ensures OnDisk(s, v)
    ensures Inv(cfg, Goto(s.(files := WriteBlock(s.files, v, d)), t, Writing(p, x, v, d, true)))
  {
    Facts(cfg, s, t, v);
    var u := Goto(s.(files := WriteBlock(s.files, v, d)), t, Writing(p, x, v, d, true));
    forall q ensures DataAt(cfg, u, q) {
      assert DataAt(cfg, s, q);
      WriteDiskData(cfg, s, u, t, p, x, v, d, q);
    }
    forall w | w in u.sessions ensures TransferOk(cfg, u, w) {
      assert TransferOk(cfg, s, w) && SessionOk(s, s.sessions[w]);
      WriteDiskTransfer(cfg, s, u, t, p, x, v, d, w);
    }
    hide Structure, Counts, Places, DataAt, TransferOk, Quota;
    MovesCore(cfg, s, u, t);
  }

  lemma WriteDiskTransfer(cfg: Config, s: State, u: State, t: SessionId, p: PageId, x: bool, v: PageId, d: Data, w: SessionId)
    requires t in s.sessions && s.sessions[t] == Writing(p, x, v, d, false) && w in s.sessions && OnDisk(s, v)
    requires TransferOk(cfg, s, w) && TransferOk(cfg, s, t) && SessionOk(s, s.sessions[w]) && SessionOk(s, s.sessions[t])
    requires u == Goto(s.(files := WriteBlock(s.files, v, d)), t, Writing(p, x, v, d, true))
    ensures TransferOk(cfg, u, w)
  {
    if s.sessions[w].Writing? {
      WriteBlockDisk(cfg, s.files, v, d, s.sessions[w].victim);
    } else if s.sessions[w].Reading? {
      WriteBlockDisk(cfg, s.files, v, d, s.sessions[w].page);
    }
  }

  /** No other frame has the slot of `p`. */
  ghost predicate SoleOwner(s: State, p: PageId) {
    SlotOk(s, p) && forall q :: Owns(s, q) && q != p ==> s.frames[q].slot != s.frames[p].slot
  }

  /** Storing into the slot of `p` changes no other page's contents in memory. */
  lemma StoreElsewhere(s: State, p: PageId, d: Data, q: PageId)
    requires SoleOwner(s, p) && SlotOk(s, q)
    ensures SlotOk(Store(s, p, d), q) && InFrame(Store(s, p, d), q) == if q == p then d else InFrame(s, q)
  {
    assert Owns(s, q);
  }

  lemma ReadDiskInv(cfg: Config, s: State, t: SessionId, p: PageId, x: bool)
    requires Inv(cfg, s) && t in s.sessions && s.sessions[t] == Reading(p, x, false)
    ensures SlotOk(s, p) && Inv(cfg, Goto(Store(s, p, DiskAt(cfg, s.files, p)), t, Reading(p, x, true)))
  {
    Facts(cfg, s, t, p);
    StoreInv(cfg, s, t, p, DiskAt(cfg, s.files, p), Reading(p, x, true));
  }

  lemma ChangeInv(cfg: Config, s: State, t: SessionId, p: PageId, wrote: bool, d: Data)
    requires Inv(cfg, s) && t in s.sessions && s.sessions[t] == Using(p, true, wrote)
    ensures SlotOk(s, p) && Inv(cfg, Goto(Store(s, p, d), t, Using(p, true, true)))
  {
    Facts(cfg, s, t, p);
    StoreInv(cfg, s, t, p, d, Using(p, true, true));
  }

  /** Session `t` may store `d` into the frame of `p`, going on at `pc`. */
  ghost predicate Fills(cfg: Config, s: State, t: SessionId, p: PageId, d: Data, pc: Pc) {
    && t in s.sessions && SlotOk(s, p)
    && (match s.sessions[t]
        case Reading(q, x, _) => q == p && pc == Reading(p, x, true) && d == DiskAt(cfg, s.files, p)
        case Using(q, x, _) => q == p && x && pc == Using(p, true, true)
        case _ => false)
  }

  /** A loader fills its slot, or an exclusive user changes its page. */
  lemma StoreInv(cfg: Config, s: State, t: SessionId, p: PageId, d: Data, pc: Pc)
    requires Inv(cfg, s) && Fills(cfg, s, t, p, d, pc)
    ensures Inv(cfg, Goto(Store(s, p, d), t, pc))
  {
    var u := Goto(Store(s, p, d), t, pc);
    assert SessionOk(s, s.sessions[t]);
    assert SoleOwner(s, p) by {
      assert Owns(s, p);
    }
    hide SoleOwner;
    forall q ensures DataAt(cfg, u, q) {
      assert DataAt(cfg, s, q);
      StoreData(cfg, s, t, p, d, pc, q);
    }
    forall w | w in u.sessions ensures TransferOk(cfg, u, w) {
      assert TransferOk(cfg, s, w) && SessionOk(s, s.sessions[w]);
      if w != t {
        OneReader(cfg, s, t, w, p);
      }
      StoreTransfer(cfg, s, t, p, d, pc, w);
    }
    hide Structure, Counts, Places, DataAt, TransferOk, Quota, Store;
    MovesCore(cfg, s, u, t);
  }

  lemma StoreData(cfg: Config, s: State, t: SessionId, p: PageId, d: Data, pc: Pc, q: PageId)
    requires SoleOwner(s, p) && Fills(cfg, s, t, p, d, pc) && DataAt(cfg, s, q) && SessionOk(s, s.sessions[t])
    ensures DataAt(cfg, Goto(Store(s, p, d), t, pc), q)
  {
    var u := Goto(Store(s, p, d), t, pc);
    if q == p {
      assert pc.Using? ==> Changing(u, t, p) && WillMark(u, t, p);
    } else {
      if SlotOk(s, q) {
        StoreElsewhere(s, p, d, q);
      }
      hide SoleOwner;
      assert forall w :: Changing(s, w, q) ==> Changing(u, w, q);
      assert forall w :: WillMark(s, w, q) ==> WillMark(u, w, q);
    }
  }

  lemma StoreTransfer(cfg: Config, s: State, t: SessionId, p: PageId, d: Data, pc: Pc, w: SessionId)
    requires SoleOwner(s, p) && Fills(cfg, s, t, p, d, pc) && w in s.sessions
    requires TransferOk(cfg, s, w) && SessionOk(s, s.sessions[w]) && SessionOk(s, s.sessions[t])
    requires w != t ==> !(Is(HoldsExclusive, s.sessions[t], p) && Is(HoldsExclusive, s.sessions[w], p))
    ensures TransferOk(cfg, Goto(Store(s, p, d), t, pc), w)
  {
    var q := Transferring(s.sessions[w]);
    if q.Some? && SlotOk(s, q.value) {
      StoreElsewhere(s, p, d, q.value);
    }
    hide SoleOwner, DiskAt;
  }

  /** Two sessions never hold one page exclusively. */
  lemma OneReader(cfg: Config, s: State, t: SessionId, w: SessionId, p: PageId)
    requires Core(cfg, s) && t in s.sessions && w in s.sessions && t != w
    ensures !(Is(HoldsExclusive, s.sessions[t], p) && Is(HoldsExclusive, s.sessions[w], p))
  {
    assert CountsAt(s, p);
    if Is(HoldsExclusive, s.sessions[t], p) && Is(HoldsExclusive, s.sessions[w], p) {
      Counted(s.sessions, t, HoldsExclusive, p);
    }
  }
}
