/**
  The concurrent 2Q buffer manager as a transition system. A session is one use of a
  page: a call of fix_page, the time the page is in use, and the unfix_page that ends it;
  a thread that fixes several pages runs several sessions. The atomic steps are the
  sections that run under the global latch, single page-latch operations, and single
  disk transfers. A transfer may count as one step although it runs outside the latch: in no
  reachable state do two sessions transfer the same page (TransfersApart in BufferTheorems).
  Source: task-buffer-manager/src/buffer_manager.cc, include/moderndbs/buffer_manager.h.
  */
module BufferState {
  import opened Collections

  type Data = seq<nat>
  type SessionId = nat

  /** The segment (upper 16 bits) and the page within it (lower 48 bits). */
  datatype PageId = PageId(segment: nat, page: nat)

  datatype FrameState = NEW | LOADING | LOADED | EVICTING | RELOADED

  /** The shared_mutex of a frame. */
  datatype Latch = Free | Shared(readers: nat) | Exclusive

  datatype Frame = Frame(state: FrameState, users: nat, dirty: bool, latch: Latch, exclusivelyLocked: bool, slot: Option<nat>)

  /** Where a session stands. */
  datatype Pc =
    | Idle
    | Start(page: PageId, exclusive: bool)                    // will take the global latch and look the page up
    | WaitNew(page: PageId, exclusive: bool)                  // will lock a NEW frame to wait for its loader
    | HoldNew(page: PageId, exclusive: bool)                  // has that lock
    | Recheck(page: PageId, exclusive: bool)                  // will look at the frame again
    | Choosing(page: PageId, exclusive: bool)                 // needs a slot; only inside a section
    | Writing(page: PageId, exclusive: bool, victim: PageId, copy: Data, written: bool)  // writes a victim out
    | Reading(page: PageId, exclusive: bool, done: bool)      // reads the page in
    | WantLock(page: PageId, exclusive: bool)                 // will lock the frame for its user
    | Using(page: PageId, exclusive: bool, wrote: bool)       // fix_page has returned
    | Unfixing(page: PageId, markDirty: bool)                 // unlocked, will take the global latch
    | Threw(page: PageId)                                     // buffer_full_error

  datatype Config = Config(pageCount: nat, zero: Data)

  /**
    `files` holds whole pages; `left` records what the last dirty exclusive unfix left in
    each page, `origin` the files at the beginning. The last two only serve the specification.
    */
  datatype State = State(frames: map<PageId, Frame>, fifo: seq<PageId>, lru: seq<PageId>,
                         slots: seq<Data>, files: map<nat, seq<Data>>,
                         sessions: map<SessionId, Pc>,
                         left: map<PageId, Data>, origin: map<nat, seq<Data>>)

  // ---------- files ----------

  function FileOf(files: map<nat, seq<Data>>, segment: nat): seq<Data> {
    if segment in files then files[segment] else []
  }

  /** The page on disk; past the end of the file it counts as zeroes. */
  function DiskAt(cfg: Config, files: map<nat, seq<Data>>, p: PageId): Data {
    if p.page < |FileOf(files, p.segment)| then FileOf(files, p.segment)[p.page] else cfg.zero
  }

  /** File::resize to hold `p`, filled up with zeroes. */
  function Grow(cfg: Config, files: map<nat, seq<Data>>, p: PageId): (r: map<nat, seq<Data>>)
    ensures |FileOf(r, p.segment)| == if |FileOf(files, p.segment)| <= p.page then p.page + 1 else |FileOf(files, p.segment)|
    ensures forall i :: 0 <= i < |FileOf(r, p.segment)| ==>
                          FileOf(r, p.segment)[i] == if i < |FileOf(files, p.segment)| then FileOf(files, p.segment)[i] else cfg.zero
    ensures forall g :: g != p.segment ==> FileOf(r, g) == FileOf(files, g)
  {
    var f := FileOf(files, p.segment);
    files[p.segment := f + seq(if |f| <= p.page then p.page + 1 - |f| else 0, i => cfg.zero)]
  }

  function WriteBlock(files: map<nat, seq<Data>>, p: PageId, d: Data): map<nat, seq<Data>>
    requires p.page < |FileOf(files, p.segment)|
  {
    files[p.segment := FileOf(files, p.segment)[p.page := d]]
  }

  /** What a reader of `p` must see. */
  function Left(cfg: Config, s: State, p: PageId): Data {
    if p in s.left then s.left[p] else DiskAt(cfg, s.origin, p)
  }

  // ---------- page latches ----------

  /** BufferFrame::lock, where it does not block. */
  function Lock(f: Frame, exclusive: bool): Option<Frame> {
    if exclusive then
      if f.latch.Free? then Some(f.(latch := Exclusive, exclusivelyLocked := true)) else None
    else
      match f.latch
      case Free => Some(f.(latch := Shared(1)))
      case Shared(n) => Some(f.(latch := Shared(n + 1)))
      case Exclusive => None
  }

  /** BufferFrame::unlock; the flag decides how. Unlocking what is not locked so is undefined: no effect here. */
  function Unlock(f: Frame): Frame {
    if f.exclusivelyLocked then
      f.(exclusivelyLocked := false, latch := if f.latch.Exclusive? then Free else f.latch)
    else
      match f.latch
      case Shared(n) => f.(latch := if n <= 1 then Free else Shared(n - 1))
      case _ => f
  }

  // ---------- the two lists ----------

  function Remove<T(==)>(xs: seq<T>, x: T): (r: seq<T>)
    ensures forall y :: y in r ==> y in xs
    ensures forall y :: y in xs && y != x ==> y in r
    ensures |r| == if x in xs then |xs| - 1 else |xs|
  {
    if xs == [] then [] else if xs[0] == x then xs[1..] else [xs[0]] + Remove(xs[1..], x)
  }

  /** The frame's list positions, as the code's assertions ask for them. */
  predicate Listed(s: State, p: PageId) { p in s.lru || p in s.fifo }

  /** A page that is fixed again: to the end of the LRU list, from wherever it was. */
  function Touch(s: State, p: PageId): State {
    if p in s.lru then s.(lru := Remove(s.lru, p) + [p])
    else s.(fifo := Remove(s.fifo, p), lru := s.lru + [p])
  }

  predicate Evictable(frames: map<PageId, Frame>, p: PageId) {
    p in frames && frames[p].users == 0 && frames[p].state == LOADED
  }

  function FirstEvictable(frames: map<PageId, Frame>, xs: seq<PageId>): (r: Option<PageId>)
    ensures r.Some? ==> exists i :: 0 <= i < |xs| && xs[i] == r.value && Evictable(frames, xs[i]) &&
                                    forall j :: 0 <= j < i ==> !Evictable(frames, xs[j])
    ensures r.None? ==> forall i :: 0 <= i < |xs| ==> !Evictable(frames, xs[i])
  {
    if xs == [] then None
    else if Evictable(frames, xs[0]) then
      assert xs[0] == xs[0]; Some(xs[0])
    else
      var r := FirstEvictable(frames, xs[1..]);
      assert r.Some? ==> exists i :: 0 <= i < |xs| && xs[i] == r.value && Evictable(frames, xs[i]) &&
                                    forall j :: 0 <= j < i ==> !Evictable(frames, xs[j]) by {
        if r.Some? {
          var i :| 0 <= i < |xs[1..]| && xs[1..][i] == r.value && Evictable(frames, xs[1..][i]) &&
            forall j :: 0 <= j < i ==> !Evictable(frames, xs[1..][j]);
          assert xs[i + 1] == r.value;
          forall j | 0 <= j < i + 1 ensures !Evictable(frames, xs[j]) {
            if j > 0 { assert xs[j] == xs[1..][j - 1]; }
          }
        }
      }
      r
  }

  /** The frame to evict: the first evictable one of the FIFO list, else of the LRU list. */
  function Victim(s: State): Option<PageId> {
    var f := FirstEvictable(s.frames, s.fifo);
    if f.Some? then f else FirstEvictable(s.frames, s.lru)
  }

  /** find_page_to_evict as the code's two loops. */
  method FindPageToEvict(frames: map<PageId, Frame>, fifo: seq<PageId>, lru: seq<PageId>) returns (r: Option<PageId>)
    requires forall p :: p in fifo || p in lru ==> p in frames
    ensures r == (var f := FirstEvictable(frames, fifo); if f.Some? then f else FirstEvictable(frames, lru))
  {
    for i := 0 to |fifo|
      invariant FirstEvictable(frames, fifo) == FirstEvictable(frames, fifo[i..])
    {
      assert fifo[i..][0] == fifo[i] && fifo[i..][1..] == fifo[i + 1..];
      assert fifo[i] in fifo;
      if frames[fifo[i]].users == 0 && frames[fifo[i]].state == LOADED {
        return Some(fifo[i]);
      }
    }
    for i := 0 to |lru|
      invariant FirstEvictable(frames, lru) == FirstEvictable(frames, lru[i..])
    {
      assert lru[i..][0] == lru[i] && lru[i..][1..] == lru[i + 1..];
      assert lru[i] in lru;
      if frames[lru[i]].users == 0 && frames[lru[i]].state == LOADED {
        return Some(lru[i]);
      }
    }
    return None;
  }

  // ---------- the sections of fix_page and unfix_page ----------

  function Goto(s: State, t: SessionId, pc: Pc): State { s.(sessions := s.sessions[t := pc]) }

  function SetFrame(s: State, p: PageId, f: Frame): State { s.(frames := s.frames[p := f]) }

  /** Gives up a use of `p`; a NEW frame nobody uses any more is erased. */
  function DropNew(s: State, p: PageId): State
    requires p in s.frames
  {
    var f := s.frames[p];
    if f.users <= 1 then s.(frames := s.frames - {p}) else SetFrame(s, p, f.(users := f.users - 1))
  }

  /** The assertion on a frame that is erased when its last user gives it up (buffer_manager.cc:134, 179). */
  predicate MayDrop(s: State, p: PageId)
    requires p in s.frames
  {
    s.frames[p].users <= 1 ==> !Listed(s, p)
  }

  /** load_page up to its first cut: either the file is too short and zeroes do, or the page must be read. */
  function BeginLoad(cfg: Config, s: State, t: SessionId, p: PageId, exclusive: bool, slot: nat): State
    requires p in s.frames && slot < |s.slots|
  {
    var f := s.frames[p].(slot := Some(slot));
    if |FileOf(s.files, p.segment)| <= p.page then
      Goto(SetFrame(s, p, Unlock(f.(state := LOADED, dirty := false)))
           .(fifo := s.fifo + [p], files := Grow(cfg, s.files, p), slots := s.slots[slot := cfg.zero]),
           t, WantLock(p, exclusive))
    else
      Goto(SetFrame(s, p, f.(state := LOADING)).(fifo := s.fifo + [p]), t, Reading(p, exclusive, false))
  }

  /** The victim leaves its list and the table. */
  function TakeOut(s: State, v: PageId): State {
    var t := if v in s.lru then s.(lru := Remove(s.lru, v)) else s.(fifo := Remove(s.fifo, v));
    t.(frames := s.frames - {v})
  }

  /** No page can be evicted: the new frame is given up and buffer_full_error is thrown. */
  function GiveUp(s: State, t: SessionId, p: PageId): State
    requires p in s.frames
  {
    Goto(DropNew(SetFrame(s, p, Unlock(s.frames[p])), p), t, Threw(p))
  }

  /**
    evict_page's loop from its head to its next cut, and what fix_page does with the outcome.
    None stands for an assertion that fails: those of MayDrop, or that the victim is in a list
    (buffer_manager.cc:349).
    */
  function Evict(cfg: Config, s: State, t: SessionId, p: PageId, exclusive: bool): Option<State>
    requires p in s.frames
  {
    match Victim(s)
    case None => if MayDrop(s, p) then Some(GiveUp(s, t, p)) else None
    case Some(v) =>
      if s.frames[v].slot.None? || s.frames[v].slot.value >= |s.slots| || v == p || !Listed(s, v) then None
      else if s.frames[v].dirty then
        Some(Goto(SetFrame(s, v, s.frames[v].(state := EVICTING)), t,
                  Writing(p, exclusive, v, s.slots[s.frames[v].slot.value], false)))
      else
        Some(BeginLoad(cfg, TakeOut(s, v), t, p, exclusive, s.frames[v].slot.value))
  }

  datatype Step =
    | Call(t: SessionId, page: PageId, exclusive: bool)
    | Enter(t: SessionId)
    | LockNew(t: SessionId)
    | UnlockNew(t: SessionId)
    | LookAgain(t: SessionId)
    | WriteDisk(t: SessionId)
    | AfterWrite(t: SessionId)
    | ReadDisk(t: SessionId)
    | AfterRead(t: SessionId)
    | LockPage(t: SessionId)
    | Change(t: SessionId, data: Data)
    | UnlockPage(t: SessionId, dirty: bool)
    | Unfix(t: SessionId)

  /** fix_page, a frame for the page exists. */
  function Found(s: State, t: SessionId, p: PageId, exclusive: bool): State
    requires p in s.frames
  {
    var f := s.frames[p].(users := s.frames[p].users + 1);
    if f.state == NEW then
      Goto(SetFrame(s, p, f), t, WaitNew(p, exclusive))
    else
      Goto(Touch(SetFrame(s, p, if f.state == EVICTING then f.(state := RELOADED) else f), p), t, WantLock(p, exclusive))
  }

  /** fix_page, no frame exists: a locked NEW frame in no list. */
  function Create(s: State, t: SessionId, p: PageId, exclusive: bool): State {
    Goto(SetFrame(s, p, Frame(NEW, 1, false, Exclusive, true, None)), t, Choosing(p, exclusive))
  }

  /** fix_page from the lookup to its first cut; a frame that is not NEW must be in a list (buffer_manager.cc:145). */
  function EnterStep(cfg: Config, s: State, t: SessionId, p: PageId, exclusive: bool): Option<State> {
    if p in s.frames then
      if s.frames[p].state == NEW || Listed(s, p) then Some(Found(s, t, p, exclusive)) else None
    else
      var s1 := Create(s, t, p, exclusive);
      if |s1.frames| - 1 < cfg.pageCount then
        if |s1.frames| - 1 < |s1.slots| then Some(BeginLoad(cfg, s1, t, p, exclusive, |s1.frames| - 1)) else None
      else
        Evict(cfg, s1, t, p, exclusive)
  }

  /** A waiter looks at the frame again: still NEW means that its loader failed. */
  function LookAgainStep(s: State, t: SessionId, p: PageId, exclusive: bool): State
    requires p in s.frames
  {
    if s.frames[p].state == NEW then Goto(DropNew(s, p), t, Start(p, exclusive))
    else Goto(Touch(s, p), t, WantLock(p, exclusive))
  }

  /** The assertions of that section (buffer_manager.cc:134, 145). */
  predicate MayLookAgain(s: State, p: PageId)
    requires p in s.frames
  {
    if s.frames[p].state == NEW then MayDrop(s, p) else Listed(s, p)
  }

  /**
    evict_page after the victim was written: take it unless somebody claimed it back. Any other
    state of the victim fails the assertion at buffer_manager.cc:338.
    */
  function AfterWriteStep(cfg: Config, s: State, t: SessionId, p: PageId, exclusive: bool, v: PageId): Option<State>
    requires p in s.frames && v in s.frames
  {
    if s.frames[v].state == EVICTING then
      if s.frames[v].slot.Some? && s.frames[v].slot.value < |s.slots| && p != v && Listed(s, v)
      then Some(BeginLoad(cfg, TakeOut(Goto(s, t, Choosing(p, exclusive)), v), t, p, exclusive, s.frames[v].slot.value)) else None
    else if s.frames[v].state == RELOADED then
      Evict(cfg, Goto(SetFrame(s, v, s.frames[v].(state := LOADED)), t, Choosing(p, exclusive)), t, p, exclusive)
    else None
  }

  predicate SlotOk(s: State, p: PageId) {
    p in s.frames && s.frames[p].slot.Some? && s.frames[p].slot.value < |s.slots|
  }

  function Store(s: State, p: PageId, d: Data): State
    requires SlotOk(s, p)
  {
    s.(slots := s.slots[s.frames[p].slot.value := d])
  }

  function AfterReadStep(s: State, t: SessionId, p: PageId, exclusive: bool): State
    requires p in s.frames
  {
    Goto(SetFrame(s, p, Unlock(s.frames[p].(state := LOADED, dirty := false))), t, WantLock(p, exclusive))
  }

  /** unfix_page up to the global latch: the page latch is given back. */
  function UnlockStep(s: State, t: SessionId, p: PageId, exclusive: bool, dirty: bool): State
    requires SlotOk(s, p)
  {
    Goto(SetFrame(s, p, Unlock(s.frames[p]))
         .(left := if exclusive && dirty then s.left[p := s.slots[s.frames[p].slot.value]] else s.left),
         t, Unfixing(p, dirty))
  }

  function UnfixStep(s: State, t: SessionId, p: PageId, dirty: bool): State
    requires p in s.frames && s.frames[p].users > 0
  {
    Goto(SetFrame(s, p, s.frames[p].(users := s.frames[p].users - 1, dirty := s.frames[p].dirty || dirty)), t, Idle)
  }

  /** The state after a step, or None where the step is not enabled. */
  function Apply(cfg: Config, s: State, step: Step): Option<State> {
    if step.t !in s.sessions then None else
    var t := step.t;
    match (step, s.sessions[t])
    case (Call(_, p, x), Idle) => Some(Goto(s, t, Start(p, x)))
    case (Call(_, p, x), Threw(_)) => Some(Goto(s, t, Start(p, x)))
    case (Enter(_), Start(p, x)) => EnterStep(cfg, s, t, p, x)
    case (LockNew(_), WaitNew(p, x)) =>
      if p in s.frames && Lock(s.frames[p], true).Some?
      then Some(Goto(SetFrame(s, p, Lock(s.frames[p], true).value), t, HoldNew(p, x))) else None
    case (UnlockNew(_), HoldNew(p, x)) =>
      if p in s.frames then Some(Goto(SetFrame(s, p, Unlock(s.frames[p])), t, Recheck(p, x))) else None
    case (LookAgain(_), Recheck(p, x)) =>
      if p in s.frames && MayLookAgain(s, p) then Some(LookAgainStep(s, t, p, x)) else None
    case (WriteDisk(_), Writing(p, x, v, d, false)) =>
      if v.page < |FileOf(s.files, v.segment)|
      then Some(Goto(s.(files := WriteBlock(s.files, v, d)), t, Writing(p, x, v, d, true))) else None
    case (AfterWrite(_), Writing(p, x, v, d, true)) =>
      if p in s.frames && v in s.frames then AfterWriteStep(cfg, s, t, p, x, v) else None
    case (ReadDisk(_), Reading(p, x, false)) =>
      if SlotOk(s, p) then Some(Goto(Store(s, p, DiskAt(cfg, s.files, p)), t, Reading(p, x, true))) else None
    case (AfterRead(_), Reading(p, x, true)) =>
      if p in s.frames then Some(AfterReadStep(s, t, p, x)) else None
    case (LockPage(_), WantLock(p, x)) =>
      if p in s.frames && Lock(s.frames[p], x).Some?
      then Some(Goto(SetFrame(s, p, Lock(s.frames[p], x).value), t, Using(p, x, false))) else None
    case (Change(_, d), Using(p, true, _)) =>
      if SlotOk(s, p) then Some(Goto(Store(s, p, d), t, Using(p, true, true))) else None
    case (UnlockPage(_, dirty), Using(p, x, wrote)) =>
      // clients unfix what they changed as dirty
      if SlotOk(s, p) && (wrote ==> dirty) then Some(UnlockStep(s, t, p, x, dirty)) else None
    case (Unfix(_), Unfixing(p, dirty)) =>
      if p in s.frames && s.frames[p].users > 0 then Some(UnfixStep(s, t, p, dirty)) else None
    case _ => None
  }
}
