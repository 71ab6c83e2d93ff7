/**
  What holds of every run of the buffer manager, whatever the interleaving.
  Source: task-buffer-manager/src/buffer_manager.cc:107-212, 243-355.
  */
module BufferTheorems {
  import opened Collections
  import opened BufferState
  import opened BufferInvariant
  import opened BufferSteps
  import opened BufferEvict
  import opened BufferLoad
  import opened BufferChanges

  /** Every step that is enabled keeps the invariant. */
  lemma StepInv(cfg: Config, s: State, step: Step)
    requires Inv(cfg, s) && Apply(cfg, s, step).Some?
    ensures Inv(cfg, Apply(cfg, s, step).value)
  {
    var t := step.t;
    hide Inv, EnterStep, LookAgainStep, AfterWriteStep, AfterReadStep, UnlockStep, UnfixStep, Lock, Unlock;
    match (step, s.sessions[t])
    case (Call(_, p, x), _) => CallInv(cfg, s, t, p, x);
    case (Enter(_), Start(p, x)) => EnterInv(cfg, s, t, p, x);
    case (LockNew(_), WaitNew(p, x)) => LockNewInv(cfg, s, t, p, x, Lock(s.frames[p], true).value);
    case (UnlockNew(_), HoldNew(p, x)) => UnlockNewInv(cfg, s, t, p, x);
    case (LookAgain(_), Recheck(p, x)) =>
      if s.frames[p].state == NEW {
        LookAgainDropInv(cfg, s, t, p, x);
      } else {
        LookAgainTouchInv(cfg, s, t, p, x);
      }
    case (WriteDisk(_), Writing(p, x, v, d, false)) => WriteDiskInv(cfg, s, t, p, x, v, d);
    case (AfterWrite(_), Writing(p, x, v, d, true)) => AfterWriteInv(cfg, s, t, p, x, v, d);
    case (ReadDisk(_), Reading(p, x, false)) => ReadDiskInv(cfg, s, t, p, x);
    case (AfterRead(_), Reading(p, x, true)) => AfterReadInv(cfg, s, t, p, x);
    case (LockPage(_), WantLock(p, x)) => LockPageInv(cfg, s, t, p, x, Lock(s.frames[p], x).value);
    case (Change(_, d), Using(p, true, wrote)) => ChangeInv(cfg, s, t, p, wrote, d);
    case (UnlockPage(_, dirty), Using(p, x, wrote)) => UnlockInv(cfg, s, t, p, x, wrote, dirty);
    case (Unfix(_), Unfixing(p, dirty)) => UnfixInv(cfg, s, t, p, dirty);
  }

  /** The state after a run, or None if some step is not enabled. */
  function Run(cfg: Config, s: State, steps: seq<Step>): Option<State>
    decreases |steps|
  {
    if steps == [] then Some(s)
    else match Apply(cfg, s, steps[0])
      case None => None
      case Some(u) => Run(cfg, u, steps[1..])
  }

  ghost predicate Reachable(cfg: Config, s: State) {
    exists s0, steps :: Init(cfg, s0) && Run(cfg, s0, steps) == Some(s)
  }

  lemma {:induction false} RunInv(cfg: Config, s: State, steps: seq<Step>)
    requires Inv(cfg, s) && Run(cfg, s, steps).Some?
    ensures Inv(cfg, Run(cfg, s, steps).value)
    decreases |steps|
  {
    if steps != [] {
      StepInv(cfg, s, steps[0]);
      RunInv(cfg, Apply(cfg, s, steps[0]).value, steps[1..]);
    }
  }

  lemma ReachableInv(cfg: Config, s: State)
    requires Reachable(cfg, s)
    ensures Inv(cfg, s)
  {
    var s0, steps :| Init(cfg, s0) && Run(cfg, s0, steps) == Some(s);
    InitInv(cfg, s0);
    RunInv(cfg, s0, steps);
  }

  // ---------- the theorems ----------

  /** At most page_count frames own a slot, no two the same one, and each owner is in exactly one list, once. */
  lemma SlotsAndLists(cfg: Config, s: State)
    requires Reachable(cfg, s)
    ensures |set p | p in s.frames && s.frames[p].state != NEW| <= cfg.pageCount
    ensures forall p, q :: p in s.frames && q in s.frames && p != q && s.frames[p].state != NEW && s.frames[q].state != NEW ==>
      s.frames[p].slot.Some? && s.frames[q].slot.Some? && s.frames[p].slot.value != s.frames[q].slot.value
    ensures forall p :: p in s.fifo || p in s.lru <==> p in s.frames && s.frames[p].state != NEW
    ensures forall p :: !(p in s.fifo && p in s.lru)
    ensures NoDup(s.fifo) && NoDup(s.lru)
  {
    ReachableInv(cfg, s);
    LoadedAreOwners(cfg, s);
    forall p | p in s.frames ensures s.frames[p].state != NEW <==> Owns(s, p) {
      assert FrameSlotOk(cfg, s, p);
    }
  }

  /**
    Coherence: when fix_page hands a page out, the page holds what the last dirty exclusive
    unfix left in it, and it still does until the session itself changes it.
    */
  lemma FixSeesLastUnfix(cfg: Config, s: State, t: SessionId)
    requires Reachable(cfg, s) && t in s.sessions && s.sessions[t].Using? && !s.sessions[t].wrote
    ensures var p := s.sessions[t].page;
      SlotOk(s, p) && s.slots[s.frames[p].slot.value] == Left(cfg, s, p)
  {
    ReachableInv(cfg, s);
    var p := s.sessions[t].page;
    Facts(cfg, s, t, p);
    OneWriter(s, t, p);
    assert InFrame(s, p) == Left(cfg, s, p);
  }

  /** What the last dirty exclusive unfix of `p` in a run left behind, or `d` if the run has none. */
  function LastUnfix(cfg: Config, s: State, steps: seq<Step>, p: PageId, d: Data): Data
    requires Run(cfg, s, steps).Some?
    decreases |steps|
  {
    if steps == [] then d
    else LastUnfix(cfg, Apply(cfg, s, steps[0]).value, steps[1..], p, if LeavesPage(s, steps[0], p) then Contents(s, p) else d)
  }

  /** The step in which an exclusive user of `p` gives it back as dirty. */
  predicate LeavesPage(s: State, step: Step, p: PageId) {
    step.UnlockPage? && step.dirty && step.t in s.sessions && s.sessions[step.t].Using?
    && s.sessions[step.t].exclusive && s.sessions[step.t].page == p
  }

  function Contents(s: State, p: PageId): Data {
    if SlotOk(s, p) then s.slots[s.frames[p].slot.value] else []
  }

  lemma {:induction false} LeftOverRuns(cfg: Config, s: State, steps: seq<Step>, p: PageId)
    requires Run(cfg, s, steps).Some?
    ensures Left(cfg, Run(cfg, s, steps).value, p) == LastUnfix(cfg, s, steps, p, Left(cfg, s, p))
    decreases |steps|
  {
    if steps != [] {
      var u := Apply(cfg, s, steps[0]).value;
      LeftIsLastUnfix(cfg, s, steps[0], u, p);
      hide Apply;
      LeftOverRuns(cfg, u, steps[1..], p);
    }
  }

  /**
    Coherence over every interleaving: in whatever order the sections of all sessions run, a
    session that was handed a page sees what the last dirty exclusive unfix of that page left,
    or the page as it was on disk at the beginning.
    */
  lemma Coherence(cfg: Config, s0: State, steps: seq<Step>, s: State, t: SessionId)
    requires Init(cfg, s0) && Run(cfg, s0, steps) == Some(s)
    requires t in s.sessions && s.sessions[t].Using? && !s.sessions[t].wrote
    ensures Contents(s, s.sessions[t].page) ==
      LastUnfix(cfg, s0, steps, s.sessions[t].page, DiskAt(cfg, s0.files, s.sessions[t].page))
  {
    assert Reachable(cfg, s);
    FixSeesLastUnfix(cfg, s, t);
    LeftOverRuns(cfg, s0, steps, s.sessions[t].page);
  }

  /** `Left` changes only when an exclusive user unlocks as dirty, to the contents at that moment. */
  lemma LeftIsLastUnfix(cfg: Config, s: State, step: Step, u: State, p: PageId)
    requires Apply(cfg, s, step) == Some(u)
    ensures Left(cfg, u, p) == if LeavesPage(s, step, p) then Contents(s, p) else Left(cfg, s, p)
  {
    if step.UnlockPage? {
      var pc := s.sessions[step.t];
      UnlockLeaves(cfg, s, step.t, pc.page, pc.exclusive, step.dirty, p);
      hide UnlockStep, Left;
    } else {
      KeepsLeft(cfg, s, step, u);
      hide Apply;
      SameLeft(cfg, s, u, p);
    }
  }

  /** What `Left` looks at. */
  function Recorded(s: State): (map<PageId, Data>, map<nat, seq<Data>>) { (s.left, s.origin) }

  lemma KeepsLeft(cfg: Config, s: State, step: Step, u: State)
    requires Apply(cfg, s, step) == Some(u) && !step.UnlockPage?
    ensures Recorded(u) == Recorded(s)
  {
    var t := step.t;
    match (step, s.sessions[t])
    case (Enter(_), Start(q, x)) => EnterKeepsLeft(cfg, s, t, q, x);
    case (AfterWrite(_), Writing(q, x, v, d, true)) => AfterWriteKeepsLeft(cfg, s, t, q, x, v);
    case _ =>
      hide EnterStep, AfterWriteStep, BeginLoad, Evict, Unlock, Lock, WriteBlock, DiskAt, Remove;
  }

  lemma SameLeft(cfg: Config, s: State, u: State, p: PageId)
    requires Recorded(u) == Recorded(s)
    ensures Left(cfg, u, p) == Left(cfg, s, p)
  {
  }

  lemma UnlockLeaves(cfg: Config, s: State, t: SessionId, q: PageId, x: bool, dirty: bool, p: PageId)
    requires SlotOk(s, q)
    ensures Left(cfg, UnlockStep(s, t, q, x, dirty), p) == if x && dirty && q == p then Contents(s, p) else Left(cfg, s, p)
  {
  }

  lemma LoadKeepsLeft(cfg: Config, s: State, t: SessionId, p: PageId, x: bool, slot: nat)
    requires p in s.frames && slot < |s.slots|
    ensures var u := BeginLoad(cfg, s, t, p, x, slot); Recorded(u) == Recorded(s)
  {
  }

  lemma EvictKeepsLeft(cfg: Config, s: State, t: SessionId, p: PageId, x: bool)
    requires p in s.frames && Evict(cfg, s, t, p, x).Some?
    ensures var u := Evict(cfg, s, t, p, x).value; Recorded(u) == Recorded(s)
  {
    hide BeginLoad;
    match Victim(s)
    case None =>
    case Some(v) =>
      if !s.frames[v].dirty {
        LoadKeepsLeft(cfg, TakeOut(s, v), t, p, x, s.frames[v].slot.value);
      }
  }

  lemma EnterKeepsLeft(cfg: Config, s: State, t: SessionId, p: PageId, x: bool)
    requires EnterStep(cfg, s, t, p, x).Some?
    ensures var u := EnterStep(cfg, s, t, p, x).value; Recorded(u) == Recorded(s)
  {
    hide BeginLoad, Evict;
    if p !in s.frames {
      var m := Create(s, t, p, x);
      if |m.frames| - 1 < cfg.pageCount {
        LoadKeepsLeft(cfg, m, t, p, x, |m.frames| - 1);
      } else {
        EvictKeepsLeft(cfg, m, t, p, x);
      }
    }
  }

  lemma AfterWriteKeepsLeft(cfg: Config, s: State, t: SessionId, p: PageId, x: bool, v: PageId)
    requires p in s.frames && v in s.frames && AfterWriteStep(cfg, s, t, p, x, v).Some?
    ensures var u := AfterWriteStep(cfg, s, t, p, x, v).value; Recorded(u) == Recorded(s)
  {
    hide BeginLoad, Evict;
    if s.frames[v].state == EVICTING {
      LoadKeepsLeft(cfg, TakeOut(Goto(s, t, Choosing(p, x)), v), t, p, x, s.frames[v].slot.value);
    } else {
      EvictKeepsLeft(cfg, Goto(SetFrame(s, v, s.frames[v].(state := LOADED)), t, Choosing(p, x)), t, p, x);
    }
  }

  /** No update is lost: a page without a frame, or with one that is not loaded yet, has its true contents on disk. */
  lemma NoLostUpdate(cfg: Config, s: State, p: PageId)
    requires Reachable(cfg, s) && (p !in s.frames || s.frames[p].state == NEW || s.frames[p].state == LOADING)
    ensures DiskAt(cfg, s.files, p) == Left(cfg, s, p)
  {
    ReachableInv(cfg, s);
    assert DataAt(cfg, s, p);
  }

  /** Each page has at most one write in flight. */
  lemma OneWriteInFlight(cfg: Config, s: State, t: SessionId, u: SessionId)
    requires Reachable(cfg, s) && t in s.sessions && u in s.sessions && s.sessions[t].Writing? && s.sessions[u].Writing?
    ensures s.sessions[t].victim == s.sessions[u].victim ==> t == u
  {
    ReachableInv(cfg, s);
  }

  /**
    No page is read from disk while it is written, nor read or written twice at once: a page being
    read is LOADING under its loader's exclusive latch, one being written is EVICTING or RELOADED.
    */
  lemma TransfersApart(cfg: Config, s: State, t: SessionId, u: SessionId)
    requires Reachable(cfg, s) && t in s.sessions && u in s.sessions && t != u && Transferring(s.sessions[t]).Some?
    ensures Transferring(s.sessions[t]) != Transferring(s.sessions[u])
  {
    ReachableInv(cfg, s);
    OneReader(cfg, s, t, u, s.sessions[t].page);
    hide Structure, Counts, Datas, Quota, SessionOk;
    TransferState(s, s.sessions[t]);
    TransferState(s, s.sessions[u]);
  }

  lemma TransferState(s: State, pc: Pc)
    requires SessionOk(s, pc)
    ensures pc.Reading? ==> PagePresent(s, pc.page, {LOADING})
    ensures pc.Writing? ==> PagePresent(s, pc.victim, {EVICTING, RELOADED})
  {
  }

  /** A page is changed by one session at a time, and read by none meanwhile. */
  lemma ExclusiveUse(cfg: Config, s: State, t: SessionId, u: SessionId)
    requires Reachable(cfg, s) && t in s.sessions && u in s.sessions && t != u
    requires s.sessions[t].Using? && s.sessions[u].Using? && s.sessions[t].page == s.sessions[u].page
    ensures !s.sessions[t].exclusive && !s.sessions[u].exclusive
  {
    ReachableInv(cfg, s);
    Held(s, t, s.sessions[t].page);
    Held(s, u, s.sessions[t].page);
    OneReader(cfg, s, t, u, s.sessions[t].page);
  }

  /** The frame of `p` is in the table with its slot. */
  ghost predicate Keeps(s: State, u: State, p: PageId) {
    p in s.frames && p in u.frames && u.frames[p].slot == s.frames[p].slot
  }

  /** A frame with users keeps its place in the table and its slot through any step. */
  lemma UsedFramesStay(cfg: Config, s: State, step: Step, u: State, p: PageId)
    requires Reachable(cfg, s) && Apply(cfg, s, step) == Some(u)
    requires p in s.frames && s.frames[p].users > 0 && s.frames[p].slot.Some?
    ensures Keeps(s, u, p)
  {
    ReachableInv(cfg, s);
    var t := step.t;
    assert FrameSlotOk(cfg, s, p);
    assert SessionOk(s, s.sessions[t]);
    match (step, s.sessions[t])
    case (Enter(_), Start(q, x)) => EnterKeepsUsed(cfg, s, t, q, x, p);
    case (AfterWrite(_), Writing(q, x, v, d, true)) =>
      assert PagePresent(s, v, {EVICTING}) ==> s.frames[v].users == 0;
      AfterWriteKeepsUsed(cfg, s, t, q, x, v, p);
    case _ => SimpleStep(cfg, s, step, u, p);
  }

  /** Outside eviction no frame with a slot goes and nobody throws. */
  lemma SimpleStep(cfg: Config, s: State, step: Step, u: State, p: PageId)
    requires Apply(cfg, s, step) == Some(u) && !step.Enter? && !step.AfterWrite?
    ensures p in s.frames && s.frames[p].state != NEW ==> Keeps(s, u, p)
    ensures !HasThrown(u, step.t)
  {
    hide EnterStep, AfterWriteStep, BeginLoad, Evict;
  }

  lemma LoadKeepsUsed(cfg: Config, s: State, t: SessionId, q: PageId, x: bool, slot: nat, p: PageId)
    requires q in s.frames && slot < |s.slots| && p in s.frames && p != q
    ensures Keeps(s, BeginLoad(cfg, s, t, q, x, slot), p)
  {
  }

  lemma EvictKeepsUsed(cfg: Config, s: State, t: SessionId, q: PageId, x: bool, p: PageId)
    requires q in s.frames && Evict(cfg, s, t, q, x).Some? && p in s.frames && p != q && s.frames[p].users > 0
    ensures Keeps(s, Evict(cfg, s, t, q, x).value, p)
  {
    hide BeginLoad;
    match Victim(s)
    case None =>
    case Some(v) =>
      assert v != p;
      if !s.frames[v].dirty {
        LoadKeepsUsed(cfg, TakeOut(s, v), t, q, x, s.frames[v].slot.value, p);
      }
  }

  lemma EnterKeepsUsed(cfg: Config, s: State, t: SessionId, q: PageId, x: bool, p: PageId)
    requires EnterStep(cfg, s, t, q, x).Some? && p in s.frames && s.frames[p].users > 0
    ensures Keeps(s, EnterStep(cfg, s, t, q, x).value, p)
  {
    hide BeginLoad, Evict;
    if q !in s.frames {
      var m := Create(s, t, q, x);
      if |m.frames| - 1 < cfg.pageCount {
        LoadKeepsUsed(cfg, m, t, q, x, |m.frames| - 1, p);
      } else {
        EvictKeepsUsed(cfg, m, t, q, x, p);
      }
    }
  }

  lemma AfterWriteKeepsUsed(cfg: Config, s: State, t: SessionId, q: PageId, x: bool, v: PageId, p: PageId)
    requires q in s.frames && v in s.frames && q != v && AfterWriteStep(cfg, s, t, q, x, v).Some?
    requires p in s.frames && p != q && s.frames[p].users > 0 && (s.frames[v].state == EVICTING ==> s.frames[v].users == 0)
    ensures Keeps(s, AfterWriteStep(cfg, s, t, q, x, v).value, p)
  {
    hide BeginLoad, Evict;
    if s.frames[v].state == EVICTING {
      LoadKeepsUsed(cfg, TakeOut(Goto(s, t, Choosing(q, x)), v), t, q, x, s.frames[v].slot.value, p);
    } else {
      EvictKeepsUsed(cfg, Goto(SetFrame(s, v, s.frames[v].(state := LOADED)), t, Choosing(q, x)), t, q, x, p);
    }
  }

  ghost predicate HasThrown(s: State, t: SessionId) { t in s.sessions && s.sessions[t].Threw? }

  /** buffer_full_error is thrown only when every slot is taken and no frame is both unused and LOADED. */
  lemma FullMeansFull(cfg: Config, s: State, step: Step, u: State)
    requires Reachable(cfg, s) && Apply(cfg, s, step) == Some(u)
    requires !HasThrown(s, step.t) && HasThrown(u, step.t)
    ensures NoneEvictable(u)
    ensures |set p | p in u.frames && u.frames[p].state != NEW| == cfg.pageCount
  {
    ReachableInv(cfg, s);
    StepInv(cfg, s, step);
    var t := step.t;
    var someone := PageId(0, 0);
    LoadedAreOwners(cfg, u);
    hide Core, Quota, NoneEvictable, Full, Owners;
    match (step, s.sessions[t])
    case (Enter(_), Start(q, x)) => EnterThrows(cfg, s, t, q, x, u);
    case (AfterWrite(_), Writing(q, x, v, d, true)) => AfterWriteThrows(cfg, s, t, q, x, v, d, u);
    case _ => SimpleStep(cfg, s, step, u, someone);
  }

  lemma LoadedAreOwners(cfg: Config, s: State)
    requires Inv(cfg, s)
    ensures |set p | p in s.frames && s.frames[p].state != NEW| == |Owners(s)|
    ensures Full(cfg, s) ==> |set p | p in s.frames && s.frames[p].state != NEW| == cfg.pageCount
  {
    forall p | p in s.frames ensures s.frames[p].state != NEW <==> Owns(s, p) {
      assert FrameSlotOk(cfg, s, p);
    }
    assert (set p | p in s.frames && s.frames[p].state != NEW) == Owners(s);
  }

  ghost predicate NoneEvictable(s: State) {
    forall p :: p in s.frames ==> !(s.frames[p].users == 0 && s.frames[p].state == LOADED)
  }

  lemma EnterThrows(cfg: Config, s: State, t: SessionId, q: PageId, x: bool, u: State)
    requires Inv(cfg, s) && t in s.sessions && s.sessions[t] == Start(q, x)
    requires EnterStep(cfg, s, t, q, x) == Some(u) && HasThrown(u, t)
    ensures NoneEvictable(u) && Full(cfg, u)
  {
    if q !in s.frames {
      CreateCore(cfg, s, t, q, x);
      if cfg.pageCount <= |s.frames| {
        FullUnlessRoom(cfg, s);
      }
      assert |Create(s, t, q, x).frames.Keys| == |s.frames.Keys| + 1;
      hide Core, Quota, Evict, BeginLoad, NoneEvictable, Owners;
      var m := Create(s, t, q, x);
      if |m.frames| - 1 < cfg.pageCount {
        LoadThrowsNot(cfg, m, t, q, x, |m.frames| - 1);
      } else {
        EvictThrows(cfg, m, t, q, x);
        GivenUpFull(cfg, m, t, q);
      }
    }
  }

  /** Giving a page up that has no slot takes no slot from anybody. */
  lemma GivenUpFull(cfg: Config, s: State, t: SessionId, q: PageId)
    requires q in s.frames && !Owns(s, q) && Full(cfg, s)
    ensures Full(cfg, GiveUp(s, t, q))
  {
    GiveUpEffect(s, t, q);
    hide GiveUp;
    assert Owners(GiveUp(s, t, q)) == Owners(s);
  }

  lemma LoadThrowsNot(cfg: Config, s: State, t: SessionId, q: PageId, x: bool, slot: nat)
    requires t in s.sessions && q in s.frames && slot < |s.slots|
    ensures !HasThrown(BeginLoad(cfg, s, t, q, x, slot), t)
  {
  }

  lemma TakenThrowsNot(cfg: Config, s: State, t: SessionId, q: PageId, x: bool, v: PageId, u: State)
    requires t in s.sessions && q in s.frames && v in s.frames && s.frames[v].state == EVICTING
    requires AfterWriteStep(cfg, s, t, q, x, v) == Some(u)
    ensures !HasThrown(u, t)
  {
  }

  lemma AfterWriteThrows(cfg: Config, s: State, t: SessionId, q: PageId, x: bool, v: PageId, d: Data, u: State)
    requires Inv(cfg, s) && t in s.sessions && s.sessions[t] == Writing(q, x, v, d, true)
    requires q in s.frames && v in s.frames && AfterWriteStep(cfg, s, t, q, x, v) == Some(u) && HasThrown(u, t)
    ensures NoneEvictable(u) && Full(cfg, u)
  {
    Facts(cfg, s, t, q);
    NewMeansFull(cfg, s, q);
    WrittenCore(cfg, s, t, q, x, v, d);
    assert !Owns(s, q);
    hide Core, Quota, Evict, MayLeave, BeginLoad, NoneEvictable, Owners;
    if s.frames[v].state == EVICTING {
      TakenThrowsNot(cfg, s, t, q, x, v, u);
    } else {
      var m := Goto(SetFrame(s, v, s.frames[v].(state := LOADED)), t, Choosing(q, x));
      EvictThrows(cfg, m, t, q, x);
      GivenUpFull(cfg, m, t, q);
    }
  }

  /** The loop of evict_page gives up exactly when no frame is both unused and LOADED. */
  lemma EvictThrows(cfg: Config, s: State, t: SessionId, q: PageId, x: bool)
    requires Core(cfg, s) && t in s.sessions && s.sessions[t] == Choosing(q, x) && q in s.frames
    ensures Evict(cfg, s, t, q, x).Some? && HasThrown(Evict(cfg, s, t, q, x).value, t) ==>
      Evict(cfg, s, t, q, x).value == GiveUp(s, t, q) && NoneEvictable(s) && NoneEvictable(GiveUp(s, t, q))
    ensures NoneEvictable(s) ==> Evict(cfg, s, t, q, x) == Some(GiveUp(s, t, q))
  {
    NothingEvictable(cfg, s);
    assert SessionOk(s, s.sessions[t]);
    NewNotListed(cfg, s, q);
    hide Core, NoneEvictable;
    if Victim(s).None? {
      GiveUpKeepsNone(s, t, q);
      hide GiveUp;
    } else {
      EvictGoesOn(cfg, s, t, q, x);
      hide Evict;
    }
  }

  lemma GiveUpKeepsNone(s: State, t: SessionId, q: PageId)
    requires q in s.frames && s.frames[q].state == NEW && NoneEvictable(s)
    ensures NoneEvictable(GiveUp(s, t, q))
  {
  }

  lemma EvictGoesOn(cfg: Config, s: State, t: SessionId, q: PageId, x: bool)
    requires q in s.frames && Victim(s).Some? && t in s.sessions
    ensures Evict(cfg, s, t, q, x).Some? ==> !HasThrown(Evict(cfg, s, t, q, x).value, t)
  {
    hide Victim;
  }

  /** The two lists hold every frame that could be evicted. */
  lemma NothingEvictable(cfg: Config, s: State)
    requires Core(cfg, s)
    ensures Victim(s).None? <==> NoneEvictable(s)
  {
    VictimIs(s);
    forall p | p in s.frames && Evictable(s.frames, p) ensures Victim(s).Some? {
      assert FrameSlotOk(cfg, s, p) && Owns(s, p);
    }
  }

  /** The victim is the oldest evictable page of the FIFO list, and of the LRU list only if the FIFO list has none. */
  lemma VictimOrder(s: State)
    requires Victim(s).Some?
    ensures (exists i :: 0 <= i < |s.fifo| && s.fifo[i] == Victim(s).value && forall j :: 0 <= j < i ==> !Evictable(s.frames, s.fifo[j]))
      || ((forall p :: p in s.fifo ==> !Evictable(s.frames, p)) &&
          exists i :: 0 <= i < |s.lru| && s.lru[i] == Victim(s).value && forall j :: 0 <= j < i ==> !Evictable(s.frames, s.lru[j]))
    ensures Evictable(s.frames, Victim(s).value)
  {
  }

  /** The step that a session takes next, where the page latch is not what it waits for. */
  function NextStep(t: SessionId, pc: Pc): Option<Step> {
    match pc
    case Start(_, _) => Some(Enter(t))
    case HoldNew(_, _) => Some(UnlockNew(t))
    case Recheck(_, _) => Some(LookAgain(t))
    case Writing(_, _, _, _, written) => Some(if written then AfterWrite(t) else WriteDisk(t))
    case Reading(_, _, done) => Some(if done then AfterRead(t) else ReadDisk(t))
    case Using(_, _, _) => Some(UnlockPage(t, true))
    case Unfixing(_, _) => Some(Unfix(t))
    case _ => None
  }

  /**
    No assertion of the code fails: a session that does not wait for a page latch can always go on.
    Those about list positions and the state of a victim (buffer_manager.cc:134, 145, 179, 338, 349)
    are part of the steps; the others (160, 244, 326) repeat the branch they stand in.
    */
  lemma NeverStuck(cfg: Config, s: State, t: SessionId)
    requires Reachable(cfg, s) && t in s.sessions && NextStep(t, s.sessions[t]).Some?
    ensures Apply(cfg, s, NextStep(t, s.sessions[t]).value).Some?
  {
    ReachableInv(cfg, s);
    var pc := s.sessions[t];
    hide Core, Quota;
    if pc.Start? {
      EnterInv(cfg, s, t, pc.page, pc.exclusive);
      hide EnterStep;
    } else if pc.Writing? {
      WritingEnabled(cfg, s, t);
    } else {
      PlacesEnable(cfg, s, t, pc.page);
    }
  }

  lemma WritingEnabled(cfg: Config, s: State, t: SessionId)
    requires Inv(cfg, s) && t in s.sessions && s.sessions[t].Writing?
    ensures Apply(cfg, s, NextStep(t, s.sessions[t]).value).Some?
  {
    var pc := s.sessions[t];
    WritingOnDisk(cfg, s, t);
    if pc.written {
      AfterWriteInv(cfg, s, t, pc.page, pc.exclusive, pc.victim, pc.copy);
      hide *;
      AppliesAfterWrite(cfg, s, t, pc.page, pc.exclusive, pc.victim, pc.copy);
      NextOfWriting(t, pc);
    } else {
      hide AfterWriteStep, Core, Quota;
    }
  }

  lemma AppliesAfterWrite(cfg: Config, s: State, t: SessionId, p: PageId, x: bool, v: PageId, d: Data)
    requires t in s.sessions && s.sessions[t] == Writing(p, x, v, d, true) && p in s.frames && v in s.frames
    ensures Apply(cfg, s, AfterWrite(t)) == AfterWriteStep(cfg, s, t, p, x, v)
  {
    hide AfterWriteStep, EnterStep, BeginLoad, Evict;
  }

  lemma NextOfWriting(t: SessionId, pc: Pc)
    requires pc.Writing? && pc.written
    ensures NextStep(t, pc) == Some(AfterWrite(t))
  {
  }

  lemma PlacesEnable(cfg: Config, s: State, t: SessionId, p: PageId)
    requires Inv(cfg, s) && t in s.sessions && NextStep(t, s.sessions[t]).Some? && s.sessions[t].page == p
    requires !s.sessions[t].Start? && !s.sessions[t].Writing?
    ensures Apply(cfg, s, NextStep(t, s.sessions[t]).value).Some?
  {
    Facts(cfg, s, t, p);
    hide Core, Quota;
  }

  lemma WritingOnDisk(cfg: Config, s: State, t: SessionId)
    requires Core(cfg, s) && t in s.sessions && s.sessions[t].Writing?
    ensures OnDisk(s, s.sessions[t].victim)
  {
    Facts(cfg, s, t, s.sessions[t].victim);
  }

  /** A reader may join readers, a writer needs the latch for itself. */
  predicate MayLock(f: Frame, exclusive: bool) { f.latch == Free || (!exclusive && f.latch.Shared?) }

  /** A session in this place holds the latch of `p`, and keeps out who wants it so. */
  predicate InTheWay(pc: Pc, p: PageId, exclusive: bool) {
    && !pc.Idle? && pc.page == p
    && (pc.HoldNew? || pc.Choosing? || pc.Writing? || pc.Reading? || (pc.Using? && (pc.exclusive || exclusive)))
  }

  lemma LatchFree(s: State, p: PageId, exclusive: bool)
    requires Counts(s) && p in s.frames
    ensures MayLock(s.frames[p], exclusive) <==> forall u :: u in s.sessions ==> !InTheWay(s.sessions[u], p, exclusive)
  {
    assert CountsAt(s, p);
    hide Counts;
    forall u | u in s.sessions && InTheWay(s.sessions[u], p, exclusive) ensures !MayLock(s.frames[p], exclusive) {
      Counted(s.sessions, u, if Is(HoldsExclusive, s.sessions[u], p) then HoldsExclusive else HoldsShared, p);
    }
    if !MayLock(s.frames[p], exclusive) {
      var kind := if s.frames[p].latch.Exclusive? then HoldsExclusive else HoldsShared;
      assert Sessions(s.sessions, kind, p) != {};
      var u :| u in Sessions(s.sessions, kind, p);
      assert InTheWay(s.sessions[u], p, exclusive);
    }
  }

  /** A session that waits for a page latch goes on as soon as no session holds it against it. */
  lemma OnlyLatchesBlock(cfg: Config, s: State, t: SessionId)
    requires Reachable(cfg, s) && t in s.sessions
    ensures s.sessions[t].WaitNew? || s.sessions[t].WantLock? ==> s.sessions[t].page in s.frames
    ensures s.sessions[t].WaitNew? ==>
      (Apply(cfg, s, LockNew(t)).Some? <==> forall u :: u in s.sessions ==> !InTheWay(s.sessions[u], s.sessions[t].page, true))
    ensures s.sessions[t].WantLock? ==>
      (Apply(cfg, s, LockPage(t)).Some? <==>
        forall u :: u in s.sessions ==> !InTheWay(s.sessions[u], s.sessions[t].page, s.sessions[t].exclusive))
  {
    ReachableInv(cfg, s);
    assert SessionOk(s, s.sessions[t]);
    if s.sessions[t].WaitNew? || s.sessions[t].WantLock? {
      LatchFree(s, s.sessions[t].page, s.sessions[t].WaitNew? || s.sessions[t].exclusive);
    }
    hide Inv, Reachable;
    LatchSteps(cfg, s, t);
  }

  lemma LatchSteps(cfg: Config, s: State, t: SessionId)
    requires t in s.sessions && (s.sessions[t].WaitNew? || s.sessions[t].WantLock? ==> s.sessions[t].page in s.frames)
    ensures s.sessions[t].WaitNew? ==> (Apply(cfg, s, LockNew(t)).Some? <==> MayLock(s.frames[s.sessions[t].page], true))
    ensures s.sessions[t].WantLock? ==>
      (Apply(cfg, s, LockPage(t)).Some? <==> MayLock(s.frames[s.sessions[t].page], s.sessions[t].exclusive))
  {
    hide EnterStep, AfterWriteStep, LookAgainStep, UnlockStep, UnfixStep, AfterReadStep;
  }

  /** unlock gives a latch back in the mode the session took it. */
  lemma UnlocksAsLocked(cfg: Config, s: State, t: SessionId)
    requires Reachable(cfg, s) && t in s.sessions && s.sessions[t].Using?
    ensures s.sessions[t].page in s.frames
    ensures s.frames[s.sessions[t].page].exclusivelyLocked == s.sessions[t].exclusive
    ensures s.sessions[t].exclusive ==>
      s.frames[s.sessions[t].page].latch == Exclusive && Unlock(s.frames[s.sessions[t].page]).latch == Free
    ensures !s.sessions[t].exclusive ==>
      s.frames[s.sessions[t].page].latch == Shared(Count(s.sessions, HoldsShared, s.sessions[t].page))
  {
    ReachableInv(cfg, s);
    var p := s.sessions[t].page;
    Held(s, t, p);
    assert CountsAt(s, p);
  }
}
