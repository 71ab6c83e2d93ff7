/**
  What each section does to the frame table and to the two lists.
  Source: task-buffer-manager/src/buffer_manager.cc:107-189, 316-355.
  */
module BufferChanges {
  import opened Collections
  import opened BufferState
  import opened BufferInvariant
  import opened BufferSteps
  import opened BufferEvict
  import opened BufferLoad

  /** Page `q` keeps its slot, and its eviction does not begin. */
  ghost predicate Stays(s: State, u: State, q: PageId) {
    Owns(s, q) ==> Owns(u, q) && (u.frames[q].state == EVICTING ==> s.frames[q].state == EVICTING)
  }

  ghost predicate SameTable(s: State, u: State) {
    u.fifo == s.fifo && u.lru == s.lru && forall q :: (Owns(u, q) ==> Owns(s, q)) && Stays(s, u, q)
  }

  /** A page that has a slot is fixed once more: it goes to the end of the LRU list, wherever it was. */
  ghost predicate FixedAgain(s: State, u: State, p: PageId) {
    && Owns(s, p) && u.fifo == Remove(s.fifo, p) && u.lru == Remove(s.lru, p) + [p]
    && forall q :: (Owns(u, q) ==> Owns(s, q)) && Stays(s, u, q)
  }

  function Without(xs: seq<PageId>, v: Option<PageId>): seq<PageId> { if v.Some? then Remove(xs, v.value) else xs }

  /** A page gets a slot, the victim's if there is one, and goes to the end of the FIFO list. */
  ghost predicate BroughtIn(s: State, u: State, p: PageId, v: Option<PageId>) {
    && !Owns(s, p) && (v.Some? ==> Owns(s, v.value))
    && u.fifo == Without(s.fifo, v) + [p] && u.lru == Without(s.lru, v)
    && forall q :: (Owns(u, q) <==> q == p || (Owns(s, q) && v != Some(q))) && (v != Some(q) ==> Stays(s, u, q))
  }

  /** A dirty victim will be written out. */
  ghost predicate EvictionBegins(s: State, u: State, v: PageId) {
    && u.fifo == s.fifo && u.lru == s.lru && Owns(s, v)
    && forall q :: (Owns(u, q) <==> Owns(s, q)) && (q != v ==> Stays(s, u, q))
  }

  /** What evict_page does for page `p` when it looks at the frames of `m`. */
  ghost predicate MakesRoom(s: State, m: State, u: State, p: PageId) {
    match Victim(m)
    case None => SameTable(s, u)
    case Some(v) => EvictionBegins(s, u, v) || BroughtIn(s, u, p, Some(v))
  }

  /** The frames as evict_page finds them after a victim that somebody has claimed back. */
  function ClaimedBack(s: State, v: PageId): State
    requires v in s.frames
  {
    SetFrame(s, v, s.frames[v].(state := LOADED))
  }

  ghost predicate Effect(cfg: Config, s: State, step: Step, u: State)
    requires step.t in s.sessions
  {
    match (step, s.sessions[step.t])
    case (Enter(_), Start(p, _)) =>
      if Owns(s, p) then FixedAgain(s, u, p)
      else if p in s.frames then SameTable(s, u)
      else if |s.frames| < cfg.pageCount then BroughtIn(s, u, p, None)
      else Full(cfg, s) && MakesRoom(s, s, u, p)
    case (LookAgain(_), Recheck(p, _)) => if Owns(s, p) then FixedAgain(s, u, p) else SameTable(s, u)
    case (AfterWrite(_), Writing(p, _, v, _, true)) =>
      && Full(cfg, s) && v in s.frames
      && if s.frames[v].state == EVICTING then BroughtIn(s, u, p, Some(v)) else MakesRoom(s, ClaimedBack(s, v), u, p)
    case _ => SameTable(s, u)
  }

  // ---------- the sections ----------

  lemma {:induction false} RemoveNone<T>(xs: seq<T>, x: T)
    requires x !in xs
    ensures Remove(xs, x) == xs
  {
    if xs != [] {
      RemoveNone(xs[1..], x);
    }
  }

  lemma TouchEffect(s: State, p: PageId)
    requires p in s.lru ==> p !in s.fifo
    ensures var u := Touch(s, p); OtherLists(s, u) && u.fifo == Remove(s.fifo, p) && u.lru == Remove(s.lru, p) + [p]
  {
    if p in s.lru {
      RemoveNone(s.fifo, p);
    } else {
      RemoveNone(s.lru, p);
    }
  }

  lemma TakeOutEffect(cfg: Config, s: State, v: PageId)
    requires Structure(cfg, s) && Owns(s, v)
    ensures var u := TakeOut(s, v);
            && u.frames == s.frames - {v} && u.fifo == Remove(s.fifo, v) && u.lru == Remove(s.lru, v)
            && u.slots == s.slots && u.files == s.files && u.sessions == s.sessions
  {
    if v in s.lru {
      RemoveNone(s.fifo, v);
    } else {
      RemoveNone(s.lru, v);
    }
  }

  /** `u` comes from `m` when page `p` begins to load. */
  ghost predicate Loads(m: State, u: State, p: PageId) {
    && u.fifo == m.fifo + [p] && u.lru == m.lru && u.frames.Keys == m.frames.Keys
    && Owns(u, p) && forall q :: q in m.frames && q != p ==> u.frames[q] == m.frames[q]
  }

  lemma LoadEffect(cfg: Config, m: State, t: SessionId, p: PageId, x: bool, slot: nat)
    requires p in m.frames && slot < |m.slots|
    ensures Loads(m, BeginLoad(cfg, m, t, p, x, slot), p)
  {
  }

  /** `m` is `s` with a frame for `p`, and without the victim. */
  ghost predicate RoomIn(s: State, m: State, p: PageId, v: Option<PageId>) {
    && m.fifo == Without(s.fifo, v) && m.lru == Without(s.lru, v)
    && forall q :: q != p ==> (q in m.frames <==> q in s.frames && v != Some(q)) && (q in m.frames ==> m.frames[q] == s.frames[q])
  }

  lemma Brings(s: State, m: State, u: State, p: PageId, v: Option<PageId>)
    requires !Owns(s, p) && (v.Some? ==> v.value != p && Owns(s, v.value)) && RoomIn(s, m, p, v) && Loads(m, u, p)
    ensures BroughtIn(s, u, p, v)
  {
    hide Without;
    forall q ensures Owns(u, q) <==> q == p || (Owns(s, q) && v != Some(q)) {
      assert q in u.frames.Keys <==> q in m.frames.Keys;
    }
  }

  lemma GiveUpEffect(s: State, t: SessionId, p: PageId)
    requires p in s.frames && !Owns(s, p)
    ensures SameTable(s, GiveUp(s, t, p))
  {
  }

  lemma WritingEffect(s: State, t: SessionId, pc: Pc, v: PageId)
    requires Owns(s, v)
    ensures EvictionBegins(s, Goto(SetFrame(s, v, s.frames[v].(state := EVICTING)), t, pc), v)
  {
  }

  /** The page loads into the slot of a victim. */
  lemma ReplacedEffect(cfg: Config, s: State, t: SessionId, p: PageId, x: bool, v: PageId)
    requires Structure(cfg, s) && p in s.frames && !Owns(s, p) && SlotOk(s, v)
    ensures p != v && BroughtIn(s, BeginLoad(cfg, TakeOut(s, v), t, p, x, s.frames[v].slot.value), p, Some(v))
  {
    TakeOutEffect(cfg, s, v);
    var m := TakeOut(s, v);
    assert RoomIn(s, m, p, Some(v));
    hide Structure, TakeOut, BeginLoad, BroughtIn, RoomIn, Loads;
    LoadEffect(cfg, m, t, p, x, s.frames[v].slot.value);
    Brings(s, m, BeginLoad(cfg, m, t, p, x, s.frames[v].slot.value), p, Some(v));
  }

  /** `u` comes from `m` by making room for `p`. */
  lemma EvictEffect(cfg: Config, m: State, t: SessionId, p: PageId, x: bool, u: State)
    requires Structure(cfg, m) && p in m.frames && !Owns(m, p) && Evict(cfg, m, t, p, x) == Some(u)
    ensures MakesRoom(m, m, u, p)
  {
    VictimIs(m);
    hide BeginLoad, Victim, Structure, TakeOut, SameTable, EvictionBegins, BroughtIn, GiveUp;
    match Victim(m)
    case None => GiveUpEffect(m, t, p);
    case Some(v) =>
      if m.frames[v].dirty {
        WritingEffect(m, t, Writing(p, x, v, m.slots[m.frames[v].slot.value], false), v);
      } else {
        ReplacedEffect(cfg, m, t, p, x, v);
      }
  }

  // ---------- the steps ----------

  lemma {:induction false} SameFirst(f: map<PageId, Frame>, g: map<PageId, Frame>, xs: seq<PageId>)
    requires forall p :: p in xs ==> (Evictable(f, p) <==> Evictable(g, p))
    ensures FirstEvictable(f, xs) == FirstEvictable(g, xs)
  {
    if xs != [] {
      assert xs[0] in xs && forall p :: p in xs[1..] ==> p in xs;
      SameFirst(f, g, xs[1..]);
    }
  }

  /** The new frame is in no list and cannot be the victim. */
  lemma CreatedEffect(s: State, t: SessionId, p: PageId, x: bool)
    requires p !in s.frames
    ensures var m := Create(s, t, p, x);
            && Victim(m) == Victim(s) && m.fifo == s.fifo && m.lru == s.lru && p in m.frames && !Owns(m, p)
            && m.frames.Keys == s.frames.Keys + {p} && m.slots == s.slots
            && RoomIn(s, m, p, None)
  {
    var m := Create(s, t, p, x);
    SameFirst(m.frames, s.frames, s.fifo);
    SameFirst(m.frames, s.frames, s.lru);
  }

  /** The same effect on a state that differs only in what does not matter here. */
  lemma RoomMadeIn(s: State, m: State, u: State, p: PageId)
    requires MakesRoom(m, m, u, p) && s.fifo == m.fifo && s.lru == m.lru
    requires forall q :: (Owns(s, q) <==> Owns(m, q)) && (Owns(s, q) ==> (s.frames[q].state == EVICTING <==> m.frames[q].state == EVICTING))
    ensures MakesRoom(s, m, u, p)
  {
    hide Victim;
  }

  lemma EnterEffect(cfg: Config, s: State, t: SessionId, p: PageId, x: bool, u: State)
    requires Inv(cfg, s) && t in s.sessions && s.sessions[t] == Start(p, x) && EnterStep(cfg, s, t, p, x) == Some(u)
    ensures Effect(cfg, s, Enter(t), u)
  {
    if p in s.frames {
      FrameFacts(cfg, s, p);
      hide Inv, SameTable, FixedAgain;
      FoundEffect(s, t, p, x);
    } else if |s.frames| < cfg.pageCount {
      EnterLoads(cfg, s, t, p, x);
      hide Inv, BroughtIn, BeginLoad, Create;
      EnterStepLoads(cfg, s, t, p, x);
    } else {
      FullUnlessRoom(cfg, s);
      CreateCore(cfg, s, t, p, x);
      EnterEvicts(cfg, s, t, p, x, u);
    }
  }

  lemma EnterStepLoads(cfg: Config, s: State, t: SessionId, p: PageId, x: bool)
    requires p !in s.frames && |s.frames| < cfg.pageCount == |s.slots|
    ensures p in Create(s, t, p, x).frames && EnterStep(cfg, s, t, p, x) == Some(BeginLoad(cfg, Create(s, t, p, x), t, p, x, |s.frames|))
  {
    hide BeginLoad;
    assert |Create(s, t, p, x).frames.Keys| == |s.frames.Keys| + 1;
  }

  lemma EnterLoads(cfg: Config, s: State, t: SessionId, p: PageId, x: bool)
    requires p !in s.frames && |s.frames| < |s.slots|
    ensures p in Create(s, t, p, x).frames && BroughtIn(s, BeginLoad(cfg, Create(s, t, p, x), t, p, x, |s.frames|), p, None)
  {
    hide Create, BeginLoad, BroughtIn, RoomIn, Loads, Victim;
    CreatedEffect(s, t, p, x);
    var m := Create(s, t, p, x);
    LoadEffect(cfg, m, t, p, x, |s.frames|);
    Brings(s, m, BeginLoad(cfg, m, t, p, x, |s.frames|), p, None);
  }

  lemma EnterEvicts(cfg: Config, s: State, t: SessionId, p: PageId, x: bool, u: State)
    requires p !in s.frames && cfg.pageCount <= |s.frames| && EnterStep(cfg, s, t, p, x) == Some(u)
    requires Structure(cfg, Create(s, t, p, x))
    ensures MakesRoom(s, s, u, p)
  {
    CreatedEffect(s, t, p, x);
    var m := Create(s, t, p, x);
    assert |m.frames.Keys| == |s.frames.Keys| + 1;
    hide Create, Victim, Evict, BeginLoad;
    EvictEffect(cfg, m, t, p, x, u);
    hide Structure, EnterStep, MakesRoom;
    RoomMadeIn(s, m, u, p);
    RoomFor(s, m, s, u, p);
  }

  lemma RoomFor(s: State, m: State, n: State, u: State, p: PageId)
    requires MakesRoom(s, m, u, p) && Victim(m) == Victim(n)
    ensures MakesRoom(s, n, u, p)
  {
    hide Victim;
  }

  lemma FoundEffect(s: State, t: SessionId, p: PageId, x: bool)
    requires p in s.frames && (s.frames[p].slot.None? <==> s.frames[p].state == NEW) && (p in s.lru ==> p !in s.fifo)
    ensures if s.frames[p].state == NEW then SameTable(s, Found(s, t, p, x)) else FixedAgain(s, Found(s, t, p, x), p)
  {
    hide Touch, Remove;
    var f := s.frames[p].(users := s.frames[p].users + 1);
    if s.frames[p].state != NEW {
      TouchEffect(SetFrame(s, p, if f.state == EVICTING then f.(state := RELOADED) else f), p);
    }
  }

  /** Once the slots are used up they stay so. */
  lemma FullUnlessRoom(cfg: Config, s: State)
    requires Quota(cfg, s) && cfg.pageCount <= |s.frames|
    ensures Full(cfg, s)
  {
    OwnersAreFrames(s);
  }

  lemma AfterWriteEffect(cfg: Config, s: State, t: SessionId, p: PageId, x: bool, v: PageId, d: Data, u: State)
    requires Inv(cfg, s) && t in s.sessions && s.sessions[t] == Writing(p, x, v, d, true)
    requires p in s.frames && v in s.frames && AfterWriteStep(cfg, s, t, p, x, v) == Some(u)
    ensures Effect(cfg, s, AfterWrite(t), u)
  {
    hide Quota, Counts, Places, Datas, Structure, Full, BroughtIn, MakesRoom, MayLeave, DataAt, TransferOk, CountsAt;
    Facts(cfg, s, t, p);
    NewMeansFull(cfg, s, p);
    WrittenCore(cfg, s, t, p, x, v, d);
    assert !Owns(s, p);
    if s.frames[v].state == EVICTING {
      VictimTaken(cfg, s, t, p, x, v, u);
    } else {
      VictimClaimed(cfg, s, t, p, x, v, u);
    }
  }

  lemma VictimTaken(cfg: Config, s: State, t: SessionId, p: PageId, x: bool, v: PageId, u: State)
    requires p in s.frames && v in s.frames && s.frames[v].state == EVICTING && AfterWriteStep(cfg, s, t, p, x, v) == Some(u)
    requires Structure(cfg, Goto(s, t, Choosing(p, x))) && !Owns(s, p)
    ensures BroughtIn(s, u, p, Some(v))
  {
    var m := Goto(s, t, Choosing(p, x));
    assert SlotOk(m, v);
    hide BeginLoad, TakeOut, Structure, BroughtIn;
    ReplacedEffect(cfg, m, t, p, x, v);
    SameBringing(m, s, u, p, v);
  }

  lemma SameBringing(m: State, n: State, u: State, p: PageId, v: PageId)
    requires BroughtIn(m, u, p, Some(v)) && m.frames == n.frames && m.fifo == n.fifo && m.lru == n.lru
    ensures BroughtIn(n, u, p, Some(v))
  {
  }

  lemma VictimClaimed(cfg: Config, s: State, t: SessionId, p: PageId, x: bool, v: PageId, u: State)
    requires p in s.frames && v in s.frames && s.frames[v].state == RELOADED && AfterWriteStep(cfg, s, t, p, x, v) == Some(u)
    requires Structure(cfg, Goto(ClaimedBack(s, v), t, Choosing(p, x))) && !Owns(s, p) && p != v
    ensures MakesRoom(s, ClaimedBack(s, v), u, p)
  {
    var m := Goto(ClaimedBack(s, v), t, Choosing(p, x));
    hide Evict, BeginLoad, TakeOut, Structure, Victim, MakesRoom;
    EvictEffect(cfg, m, t, p, x, u);
    RoomMadeIn(s, m, u, p);
    SameVictim(m, ClaimedBack(s, v));
    RoomFor(s, m, ClaimedBack(s, v), u, p);
  }

  lemma SameVictim(m: State, n: State)
    requires m.frames == n.frames && m.fifo == n.fifo && m.lru == n.lru
    ensures Victim(m) == Victim(n)
  {
  }

  lemma LookAgainEffect(s: State, t: SessionId, p: PageId, x: bool)
    requires p in s.frames && (s.frames[p].slot.None? <==> s.frames[p].state == NEW) && (p in s.lru ==> p !in s.fifo)
    ensures var u := LookAgainStep(s, t, p, x);
            if s.frames[p].state == NEW then SameTable(s, u) else FixedAgain(s, u, p)
  {
    hide Touch, Remove;
    if s.frames[p].state != NEW {
      TouchEffect(s, p);
    }
  }

  lemma FrameFacts(cfg: Config, s: State, p: PageId)
    requires Structure(cfg, s) && p in s.frames
    ensures (s.frames[p].slot.None? <==> s.frames[p].state == NEW) && (p in s.lru ==> p !in s.fifo)
  {
    assert FrameSlotOk(cfg, s, p);
  }

  /** The steps that change at most one frame, and neither its slot nor the lists. */
  lemma OtherEffect(cfg: Config, s: State, step: Step, u: State)
    requires Apply(cfg, s, step) == Some(u) && !step.Enter? && !step.AfterWrite? && !step.LookAgain?
    ensures SameTable(s, u)
  {
    hide EnterStep, AfterWriteStep, LookAgainStep, DiskAt, WriteBlock;
  }

  lemma InvStructure(cfg: Config, s: State)
    requires Inv(cfg, s)
    ensures Structure(cfg, s)
  {
  }

  lemma StepEffect(cfg: Config, s: State, step: Step, u: State)
    requires Inv(cfg, s) && Apply(cfg, s, step) == Some(u)
    ensures Effect(cfg, s, step, u)
  {
    var t := step.t;
    hide Inv, Structure, EnterStep, AfterWriteStep, LookAgainStep, SameTable, FixedAgain, BroughtIn, MakesRoom, Full, Lock, Unlock, Store, DiskAt,
      WriteBlock, UnlockStep, UnfixStep, AfterReadStep;
    match (step, s.sessions[t])
    case (Enter(_), Start(p, x)) => EnterEffect(cfg, s, t, p, x, u);
    case (AfterWrite(_), Writing(p, x, v, d, true)) => AfterWriteEffect(cfg, s, t, p, x, v, d, u);
    case (LookAgain(_), Recheck(p, x)) =>
      assert Structure(cfg, s) by { InvStructure(cfg, s); }
      FrameFacts(cfg, s, p);
      LookAgainEffect(s, t, p, x);
    case _ => OtherEffect(cfg, s, step, u);
  }
}
