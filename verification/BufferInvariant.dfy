/**
  What holds of the buffer manager in every reachable state: which frames own which slots
  and stand in which list, who counts as a user and who holds a page latch, and where the
  true contents of every page are.
  Source: task-buffer-manager/src/buffer_manager.cc:38-57, 107-212, 243-355.
  */
module BufferInvariant {
  import opened Collections
  import opened BufferState

  // ---------- slots and lists ----------

  ghost predicate NoDup<T>(xs: seq<T>) {
    forall i, j :: 0 <= i < j < |xs| ==> xs[i] != xs[j]
  }

  ghost predicate Owns(s: State, p: PageId) {
    p in s.frames && s.frames[p].slot.Some?
  }

  ghost function Owners(s: State): set<PageId> {
    set p | p in s.frames && Owns(s, p)
  }

  ghost predicate FrameSlotOk(cfg: Config, s: State, p: PageId)
    requires p in s.frames
  {
    && (s.frames[p].slot.None? <==> s.frames[p].state == NEW)
    && (Owns(s, p) ==> s.frames[p].slot.value < cfg.pageCount)
  }

  /** No two frames own the same slot, and each owner is in exactly one of the two lists. */
  ghost predicate Structure(cfg: Config, s: State) {
    && |s.slots| == cfg.pageCount
    && (forall p {:trigger FrameSlotOk(cfg, s, p)} :: p in s.frames ==> FrameSlotOk(cfg, s, p))
    && (forall p, q :: Owns(s, p) && Owns(s, q) && p != q ==> s.frames[p].slot != s.frames[q].slot)
    && NoDup(s.fifo) && NoDup(s.lru)
    && (forall p :: p in s.fifo ==> Owns(s, p) && p !in s.lru)
    && (forall p :: p in s.lru ==> Owns(s, p))
    && (forall p :: Owns(s, p) ==> p in s.fifo || p in s.lru)
  }

  /** Slots are handed out in order until they are used up; after that they only change hands. */
  ghost predicate Quota(cfg: Config, s: State) {
    && |Owners(s)| <= cfg.pageCount
    && (|Owners(s)| == cfg.pageCount || forall p :: p in s.frames ==> Owns(s, p) && s.frames[p].slot.value < |s.frames|)
  }

  // ---------- users and latches ----------

  datatype Kind = Pin | HoldsExclusive | HoldsShared

  predicate Is(kind: Kind, pc: Pc, p: PageId) {
    match kind
    case Pin => !pc.Idle? && !pc.Start? && !pc.Threw? && pc.page == p
    case HoldsExclusive =>
      (pc.HoldNew? || pc.Choosing? || pc.Writing? || pc.Reading? || (pc.Using? && pc.exclusive)) && pc.page == p
    case HoldsShared => pc.Using? && !pc.exclusive && pc.page == p
  }

  ghost function Sessions(sessions: map<SessionId, Pc>, kind: Kind, p: PageId): set<SessionId> {
    set t | t in sessions && Is(kind, sessions[t], p)
  }

  ghost function Count(sessions: map<SessionId, Pc>, kind: Kind, p: PageId): nat {
    |Sessions(sessions, kind, p)|
  }

  function Bit(b: bool): int { if b then 1 else 0 }

  /** The lock state agrees with the sessions that hold the latch; the flag with the mode it is held in. */
  ghost predicate LatchOk(f: Frame, exclusive: nat, shared: nat) {
    && f.exclusivelyLocked == f.latch.Exclusive?
    && match f.latch
       case Free => exclusive == 0 && shared == 0
       case Exclusive => exclusive == 1 && shared == 0
       case Shared(n) => exclusive == 0 && shared == n && n >= 1
  }

  ghost predicate CountsAt(s: State, p: PageId) {
    if p in s.frames then
      && s.frames[p].users == Count(s.sessions, Pin, p)
      && LatchOk(s.frames[p], Count(s.sessions, HoldsExclusive, p), Count(s.sessions, HoldsShared, p))
    else
      Count(s.sessions, Pin, p) == Count(s.sessions, HoldsExclusive, p) == Count(s.sessions, HoldsShared, p) == 0
  }

  ghost predicate Counts(s: State) {
    forall p {:trigger CountsAt(s, p)} :: CountsAt(s, p)
  }

  // ---------- where each session stands ----------

  ghost predicate PagePresent(s: State, p: PageId, states: set<FrameState>) {
    p in s.frames && s.frames[p].state in states
  }

  ghost predicate SessionOk(s: State, pc: Pc) {
    match pc
    case Idle => true
    case Start(_, _) => true
    case Threw(_) => true
    case WaitNew(p, _) => p in s.frames
    case HoldNew(p, _) => p in s.frames
    case Recheck(p, _) => p in s.frames
    case Choosing(p, _) => PagePresent(s, p, {NEW})
    case Writing(p, _, v, _, _) => PagePresent(s, p, {NEW}) && PagePresent(s, v, {EVICTING, RELOADED}) && s.frames[v].dirty
    case Reading(p, _, _) => PagePresent(s, p, {LOADING})
    case WantLock(p, _) => PagePresent(s, p, {LOADING, LOADED, RELOADED})
    case Using(p, _, _) => PagePresent(s, p, {LOADED, RELOADED})
    case Unfixing(p, _) => PagePresent(s, p, {LOADED, RELOADED})
  }

  ghost predicate IsReading(s: State, t: SessionId, p: PageId) {
    t in s.sessions && s.sessions[t].Reading? && s.sessions[t].page == p
  }

  ghost predicate LoadingHasReader(s: State, p: PageId) {
    PagePresent(s, p, {LOADING}) ==> exists t :: IsReading(s, t, p)
  }

  /** Every session stands where its frame's state allows; a page being evicted has no user; one writer per victim. */
  ghost predicate Places(s: State) {
    && (forall t {:trigger SessionOk(s, s.sessions[t])} :: t in s.sessions ==> SessionOk(s, s.sessions[t]))
    && (forall p {:trigger LoadingHasReader(s, p)} :: LoadingHasReader(s, p))
    && (forall p :: PagePresent(s, p, {EVICTING}) ==> s.frames[p].users == 0)
    && (forall t, u :: t in s.sessions && u in s.sessions && t != u && s.sessions[t].Writing? && s.sessions[u].Writing? ==>
          s.sessions[t].victim != s.sessions[u].victim)
  }

  // ---------- where the contents are ----------

  ghost predicate Changing(s: State, t: SessionId, p: PageId) {
    t in s.sessions && s.sessions[t] == Using(p, true, true)
  }

  ghost predicate WillMark(s: State, t: SessionId, p: PageId) {
    t in s.sessions && (s.sessions[t] == Using(p, true, true) || s.sessions[t] == Unfixing(p, true))
  }

  ghost predicate OnDisk(s: State, p: PageId) { p.page < |FileOf(s.files, p.segment)| }

  ghost function InFrame(s: State, p: PageId): Data
    requires Owns(s, p) && s.frames[p].slot.value < |s.slots|
  {
    s.slots[s.frames[p].slot.value]
  }

  /** The true contents are in the frame once it is loaded, on disk otherwise; a clean frame equals the disk. */
  ghost predicate DataAt(cfg: Config, s: State, p: PageId) {
    if p in s.frames && s.frames[p].state in {LOADED, EVICTING, RELOADED} then
      && OnDisk(s, p) && Owns(s, p) && s.frames[p].slot.value < |s.slots|
      && ((exists t :: Changing(s, t, p)) || InFrame(s, p) == Left(cfg, s, p))
      && (s.frames[p].dirty || DiskAt(cfg, s.files, p) == InFrame(s, p) || exists t :: WillMark(s, t, p))
    else
      && DiskAt(cfg, s.files, p) == Left(cfg, s, p)
      && (PagePresent(s, p, {LOADING}) ==> OnDisk(s, p))
  }

  /** The page that a session is copying from or to the disk, outside the global latch. */
  function Transferring(pc: Pc): Option<PageId> {
    match pc
    case Writing(_, _, v, _, _) => Some(v)
    case Reading(p, _, _) => Some(p)
    case _ => None
  }

  /** The copy being written is the victim's contents while nobody has claimed it back. */
  ghost predicate TransferOk(cfg: Config, s: State, t: SessionId)
    requires t in s.sessions
  {
    match s.sessions[t]
    case Writing(_, _, v, copy, written) =>
      PagePresent(s, v, {EVICTING}) ==>
        && Owns(s, v) && s.frames[v].slot.value < |s.slots| && copy == InFrame(s, v)
        && (written ==> DiskAt(cfg, s.files, v) == copy)
    case Reading(p, _, done) =>
      done ==> Owns(s, p) && s.frames[p].slot.value < |s.slots| && InFrame(s, p) == DiskAt(cfg, s.files, p)
    case _ => true
  }

  ghost predicate Datas(cfg: Config, s: State) {
    && (forall p {:trigger DataAt(cfg, s, p)} :: DataAt(cfg, s, p))
    && (forall t {:trigger TransferOk(cfg, s, t)} :: t in s.sessions ==> TransferOk(cfg, s, t))
  }

  /** Everything but the quota, which fails for a moment while a slot changes hands. */
  ghost predicate Core(cfg: Config, s: State) {
    Structure(cfg, s) && Counts(s) && Places(s) && Datas(cfg, s)
  }

  ghost predicate Inv(cfg: Config, s: State) {
    Core(cfg, s) && Quota(cfg, s)
  }

  /** At the beginning nothing is buffered and every session is idle. */
  ghost predicate Init(cfg: Config, s: State) {
    && s.frames == map[] && s.fifo == [] && s.lru == [] && |s.slots| == cfg.pageCount
    && s.files == s.origin && s.left == map[]
    && forall t :: t in s.sessions ==> s.sessions[t] == Idle
  }

  lemma InitInv(cfg: Config, s: State)
    requires Init(cfg, s)
    ensures Inv(cfg, s)
  {
    forall p ensures CountsAt(s, p) {
      forall kind ensures Count(s.sessions, kind, p) == 0 {
        assert Sessions(s.sessions, kind, p) == {};
      }
    }
    assert Owners(s) == {};
  }

  // ---------- counting ----------

  lemma CountAfter(sessions: map<SessionId, Pc>, t: SessionId, pc: Pc, kind: Kind, p: PageId)
    requires t in sessions
    ensures Count(sessions[t := pc], kind, p) == Count(sessions, kind, p) - Bit(Is(kind, sessions[t], p)) + Bit(Is(kind, pc, p))
  {
    var a, b := Sessions(sessions, kind, p), Sessions(sessions[t := pc], kind, p);
    SizeWithout(a, t);
    SizeWithout(b, t);
    assert a - {t} == b - {t} by {
      hide Is;
    }
    assert t in a <==> Is(kind, sessions[t], p);
    assert t in b <==> Is(kind, pc, p);
    hide Is, Sessions;
  }

  lemma CountsAfter(sessions: map<SessionId, Pc>, t: SessionId, pc: Pc, p: PageId)
    requires t in sessions
    ensures forall kind :: Count(sessions[t := pc], kind, p) ==
              Count(sessions, kind, p) - Bit(Is(kind, sessions[t], p)) + Bit(Is(kind, pc, p))
  {
    forall kind ensures Count(sessions[t := pc], kind, p) ==
              Count(sessions, kind, p) - Bit(Is(kind, sessions[t], p)) + Bit(Is(kind, pc, p)) {
      CountAfter(sessions, t, pc, kind, p);
    }
  }

  /** A session of a kind is counted. */
  lemma Counted(sessions: map<SessionId, Pc>, t: SessionId, kind: Kind, p: PageId)
    requires t in sessions && Is(kind, sessions[t], p)
    ensures Count(sessions, kind, p) >= 1
    ensures forall u :: u in sessions && Is(kind, sessions[u], p) && u != t ==> Count(sessions, kind, p) >= 2
  {
    var a := Sessions(sessions, kind, p);
    assert t in a;
    assert |a - {t}| == |a| - 1;
    forall u | u in sessions && Is(kind, sessions[u], p) && u != t ensures |a| >= 2 {
      assert u in a - {t};
      assert |a - {t}| >= 1;
    }
  }
}
