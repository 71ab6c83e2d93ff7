/**
  Eviction order over every run: the FIFO list has the pages fixed once since they were loaded, by
  the time of loading, the LRU list those fixed again, by the time of the last fix; a page goes
  only when every slot is taken, in that order; and only an unfix makes a frame dirty.
  Source: task-buffer-manager/src/buffer_manager.cc:107-189, 299-355.
  */
module BufferAges {
  import opened Collections
  import opened BufferState
  import opened BufferInvariant
  import opened BufferEvict
  import opened BufferLoad
  import opened BufferChanges
  import opened BufferTheorems

  /** Fixed once, when it was loaded, or fixed again, the last time at step `at`. */
  datatype Use = Once(at: nat) | Again(at: nat)

  type Uses = map<PageId, Use>

  ghost predicate HasSlot(s: State, p: PageId) { p in s.frames && s.frames[p].slot.Some? }

  /**
    What step number `now` is for the page of its session: a fix_page that finds the page in a slot,
    at once or after waiting for its loader, or one that gets it a slot.
    */
  ghost function Noted(s: State, step: Step, u: State, uses: Uses, now: nat): Uses
    requires step.t in s.sessions
  {
    match (step, s.sessions[step.t])
    case (Enter(_), Start(p, _)) =>
      if HasSlot(s, p) then uses[p := Again(now)] else if HasSlot(u, p) then uses[p := Once(now)] else uses
    case (LookAgain(_), Recheck(p, _)) => if HasSlot(s, p) then uses[p := Again(now)] else uses
    case (AfterWrite(_), Writing(p, _, _, _, true)) => if HasSlot(u, p) then uses[p := Once(now)] else uses
    case _ => uses
  }

  ghost function UsesAfter(cfg: Config, s: State, steps: seq<Step>, uses: Uses, now: nat): Uses
    requires Run(cfg, s, steps).Some?
    decreases |steps|
  {
    if steps == [] then uses
    else
      var u := Apply(cfg, s, steps[0]).value;
      UsesAfter(cfg, u, steps[1..], Noted(s, steps[0], u, uses, now), now + 1)
  }

  /** From the oldest to the youngest. */
  ghost predicate ByAge(xs: seq<PageId>, uses: Uses, again: bool, now: nat) {
    && (forall i :: 0 <= i < |xs| ==> xs[i] in uses && uses[xs[i]].Again? == again && uses[xs[i]].at < now)
    && (forall i, j :: 0 <= i < j < |xs| ==> xs[i] in uses && xs[j] in uses && uses[xs[i]].at < uses[xs[j]].at)
  }

  ghost predicate Aged(s: State, uses: Uses, now: nat) {
    ByAge(s.fifo, uses, false, now) && ByAge(s.lru, uses, true, now)
  }

  // ---------- lists by age ----------

  lemma {:induction false} RemoveByAge(xs: seq<PageId>, x: PageId, uses: Uses, again: bool, now: nat)
    requires ByAge(xs, uses, again, now)
    ensures ByAge(Remove(xs, x), uses, again, now) && x !in Remove(xs, x)
  {
    if xs != [] {
      assert forall i :: 0 < i < |xs| ==> xs[i] == xs[1..][i - 1];
      if xs[0] == x {
        forall i | 0 < i < |xs| ensures xs[i] != x {
          assert uses[xs[0]].at < uses[xs[i]].at;
        }
      } else {
        RemoveByAge(xs[1..], x, uses, again, now);
        PrependByAge(xs, Remove(xs[1..], x), uses, again, now);
      }
    }
  }

  lemma PrependByAge(xs: seq<PageId>, rest: seq<PageId>, uses: Uses, again: bool, now: nat)
    requires xs != [] && ByAge(xs, uses, again, now) && ByAge(rest, uses, again, now)
    requires forall y :: y in rest ==> y in xs[1..]
    ensures ByAge([xs[0]] + rest, uses, again, now)
  {
    forall j | 0 <= j < |rest| ensures uses[xs[0]].at < uses[rest[j]].at {
      assert rest[j] in xs[1..];
      var k :| 0 <= k < |xs| - 1 && xs[1..][k] == rest[j];
      assert xs[k + 1] == rest[j];
    }
  }

  /** A list without `p` is as old as before, whatever is noted of `p` now. */
  lemma StaysByAge(xs: seq<PageId>, p: PageId, uses: Uses, use: Use, again: bool, now: nat)
    requires ByAge(xs, uses, again, now) && p !in xs
    ensures ByAge(xs, uses[p := use], again, now + 1)
  {
  }

  lemma AppendByAge(xs: seq<PageId>, p: PageId, uses: Uses, again: bool, now: nat)
    requires ByAge(xs, uses, again, now) && p !in xs
    ensures ByAge(xs + [p], uses[p := if again then Again(now) else Once(now)], again, now + 1)
  {
  }

  lemma AgainByAge(s: State, u: State, p: PageId, uses: Uses, now: nat)
    requires Aged(s, uses, now) && FixedAgain(s, u, p)
    ensures Aged(u, uses[p := Again(now)], now + 1)
  {
    RemoveByAge(s.fifo, p, uses, false, now);
    RemoveByAge(s.lru, p, uses, true, now);
    hide Remove, ByAge;
    StaysByAge(u.fifo, p, uses, Again(now), false, now);
    AppendByAge(Remove(s.lru, p), p, uses, true, now);
  }

  lemma OnceByAge(s: State, u: State, p: PageId, v: Option<PageId>, uses: Uses, now: nat)
    requires Aged(s, uses, now) && BroughtIn(s, u, p, v) && p !in s.fifo && p !in s.lru
    ensures Aged(u, uses[p := Once(now)], now + 1)
  {
    if v.Some? {
      RemoveByAge(s.fifo, v.value, uses, false, now);
      RemoveByAge(s.lru, v.value, uses, true, now);
    }
    hide Remove, ByAge;
    AppendByAge(Without(s.fifo, v), p, uses, false, now);
    StaysByAge(u.lru, p, uses, Once(now), true, now);
  }

  lemma LaterByAge(s: State, u: State, uses: Uses, now: nat)
    requires Aged(s, uses, now) && u.fifo == s.fifo && u.lru == s.lru
    ensures Aged(u, uses, now + 1)
  {
  }

  lemma RoomByAge(s: State, m: State, u: State, p: PageId, uses: Uses, now: nat)
    requires Aged(s, uses, now) && MakesRoom(s, m, u, p) && p !in s.fifo && p !in s.lru && !HasSlot(s, p)
    ensures Aged(u, if HasSlot(u, p) then uses[p := Once(now)] else uses, now + 1)
  {
    hide Victim, Aged;
    match Victim(m)
    case None =>
      LaterByAge(s, u, uses, now);
      assert !Owns(u, p);
    case Some(v) =>
      if EvictionBegins(s, u, v) {
        LaterByAge(s, u, uses, now);
        assert !Owns(u, p);
      } else {
        OnceByAge(s, u, p, Some(v), uses, now);
        BroughtInSlot(s, u, p, Some(v));
      }
  }

  lemma EnterByAge(cfg: Config, s: State, t: SessionId, u: State, p: PageId, uses: Uses, now: nat)
    requires t in s.sessions && s.sessions[t].Start? && s.sessions[t].page == p && Effect(cfg, s, Enter(t), u)
    requires Aged(s, uses, now) && (p in s.fifo || p in s.lru <==> HasSlot(s, p))
    ensures Aged(u, Noted(s, Enter(t), u, uses, now), now + 1)
  {
    hide Aged, MakesRoom, BroughtIn, FixedAgain, Full;
    if Owns(s, p) {
      AgainByAge(s, u, p, uses, now);
    } else if p in s.frames {
      LaterByAge(s, u, uses, now);
      assert !Owns(u, p);
    } else if |s.frames| < cfg.pageCount {
      OnceByAge(s, u, p, None, uses, now);
      BroughtInSlot(s, u, p, None);
    } else {
      RoomByAge(s, s, u, p, uses, now);
    }
  }

  lemma AfterWriteByAge(cfg: Config, s: State, t: SessionId, u: State, p: PageId, uses: Uses, now: nat)
    requires t in s.sessions && s.sessions[t].Writing? && s.sessions[t].page == p && Effect(cfg, s, AfterWrite(t), u)
    requires s.sessions[t].written && !HasSlot(s, p)
    requires Aged(s, uses, now) && p !in s.fifo && p !in s.lru
    ensures Aged(u, Noted(s, AfterWrite(t), u, uses, now), now + 1)
  {
    hide Aged, MakesRoom, BroughtIn, Full;
    var v := s.sessions[t].victim;
    if s.frames[v].state == EVICTING {
      OnceByAge(s, u, p, Some(v), uses, now);
      BroughtInSlot(s, u, p, Some(v));
    } else {
      RoomByAge(s, ClaimedBack(s, v), u, p, uses, now);
    }
  }

  lemma TakesPart(cfg: Config, s: State, step: Step)
    requires Apply(cfg, s, step).Some?
    ensures step.t in s.sessions
  {
    hide EnterStep, AfterWriteStep, LookAgainStep, UnlockStep, UnfixStep, AfterReadStep;
  }

  lemma StepByAge(cfg: Config, s: State, step: Step, u: State, uses: Uses, now: nat)
    requires Inv(cfg, s) && Apply(cfg, s, step) == Some(u) && Aged(s, uses, now)
    ensures Aged(u, Noted(s, step, u, uses, now), now + 1)
  {
    hide Inv, Apply, Aged, MakesRoom, BroughtIn, FixedAgain, Full;
    TakesPart(cfg, s, step);
    StepEffect(cfg, s, step, u);
    OnlyOwnersListed(cfg, s);
    match (step, s.sessions[step.t])
    case (Enter(t), Start(p, _)) => EnterByAge(cfg, s, t, u, p, uses, now);
    case (LookAgain(_), Recheck(p, _)) =>
      if Owns(s, p) {
        AgainByAge(s, u, p, uses, now);
      } else {
        LaterByAge(s, u, uses, now);
      }
    case (AfterWrite(t), Writing(p, _, v, _, true)) =>
      WriterHasNone(cfg, s, t);
      AfterWriteByAge(cfg, s, t, u, p, uses, now);
    case _ => LaterByAge(s, u, uses, now);
  }

  lemma OnlyOwnersListed(cfg: Config, s: State)
    requires Inv(cfg, s)
    ensures forall p :: p in s.fifo || p in s.lru <==> HasSlot(s, p)
    ensures forall p :: !(p in s.fifo && p in s.lru)
  {
  }

  lemma WriterHasNone(cfg: Config, s: State, t: SessionId)
    requires Inv(cfg, s) && t in s.sessions && s.sessions[t].Writing?
    ensures !HasSlot(s, s.sessions[t].page)
  {
    assert SessionOk(s, s.sessions[t]) && FrameSlotOk(cfg, s, s.sessions[t].page);
  }

  lemma BroughtInSlot(s: State, u: State, p: PageId, v: Option<PageId>)
    requires BroughtIn(s, u, p, v)
    ensures HasSlot(u, p)
  {
    assert Owns(u, p);
  }

  lemma {:induction false} RunByAge(cfg: Config, s: State, steps: seq<Step>, uses: Uses, now: nat)
    requires Inv(cfg, s) && Run(cfg, s, steps).Some? && Aged(s, uses, now)
    ensures Aged(Run(cfg, s, steps).value, UsesAfter(cfg, s, steps, uses, now), now + |steps|)
    decreases |steps|
  {
    hide Apply, Inv, Aged, Noted;
    if steps != [] {
      var u := Apply(cfg, s, steps[0]).value;
      TakesPart(cfg, s, steps[0]);
      StepInv(cfg, s, steps[0]);
      StepByAge(cfg, s, steps[0], u, uses, now);
      RunByAge(cfg, u, steps[1..], Noted(s, steps[0], u, uses, now), now + 1);
    }
  }

  /**
    After any run the FIFO list has exactly the pages in a slot that were fixed once since they were
    loaded, in the order in which they were loaded, and the LRU list those fixed again, in the order
    of their last fixes.
    */
  lemma ListsByAge(cfg: Config, s0: State, steps: seq<Step>, s: State)
    requires Init(cfg, s0) && Run(cfg, s0, steps) == Some(s)
    ensures var uses := UsesAfter(cfg, s0, steps, map[], 0);
      && (forall p :: p in s.fifo <==> HasSlot(s, p) && p in uses && uses[p].Once?)
      && (forall p :: p in s.lru <==> HasSlot(s, p) && p in uses && uses[p].Again?)
      && (forall i, j :: 0 <= i < j < |s.fifo| ==> uses[s.fifo[i]].at < uses[s.fifo[j]].at)
      && (forall i, j :: 0 <= i < j < |s.lru| ==> uses[s.lru[i]].at < uses[s.lru[j]].at)
  {
    InitInv(cfg, s0);
    RunInv(cfg, s0, steps);
    RunByAge(cfg, s0, steps, map[], 0);
    OnlyOwnersListed(cfg, s);
    hide Inv, Run, UsesAfter;
    AgedMeans(s, UsesAfter(cfg, s0, steps, map[], 0), |steps|);
  }

  lemma AgedMeans(s: State, uses: Uses, now: nat)
    requires Aged(s, uses, now)
    requires forall p :: p in s.fifo || p in s.lru <==> HasSlot(s, p)
    ensures forall p :: p in s.fifo <==> HasSlot(s, p) && p in uses && uses[p].Once?
    ensures forall p :: p in s.lru <==> HasSlot(s, p) && p in uses && uses[p].Again?
    ensures forall i, j :: 0 <= i < j < |s.fifo| ==> s.fifo[i] in uses && s.fifo[j] in uses && uses[s.fifo[i]].at < uses[s.fifo[j]].at
    ensures forall i, j :: 0 <= i < j < |s.lru| ==> s.lru[i] in uses && s.lru[j] in uses && uses[s.lru[i]].at < uses[s.lru[j]].at
  {
    forall p | p in s.fifo ensures p in uses && uses[p].Once? {
      var i :| 0 <= i < |s.fifo| && s.fifo[i] == p;
    }
    forall p | p in s.lru ensures p in uses && uses[p].Again? {
      var i :| 0 <= i < |s.lru| && s.lru[i] == p;
    }
  }

  // ---------- which page goes ----------

  /** Nobody uses the page; it is LOADED, or was claimed back while this session wrote it and given up again. */
  ghost predicate CanGo(s: State, step: Step, p: PageId) {
    && p in s.frames && s.frames[p].users == 0
    && (s.frames[p].state == LOADED
        || (s.frames[p].state == RELOADED && step.AfterWrite? && step.t in s.sessions
            && s.sessions[step.t].Writing? && s.sessions[step.t].victim == p))
  }

  /** The first of the FIFO list that can go, or the first of the LRU list if none of the other can. */
  ghost predicate FirstToGo(s: State, step: Step, v: PageId) {
    && CanGo(s, step, v)
    && ((exists i :: 0 <= i < |s.fifo| && s.fifo[i] == v && forall j :: 0 <= j < i ==> !CanGo(s, step, s.fifo[j]))
        || ((forall p :: p in s.fifo ==> !CanGo(s, step, p))
            && exists i :: 0 <= i < |s.lru| && s.lru[i] == v && forall j :: 0 <= j < i ==> !CanGo(s, step, s.lru[j])))
  }

  /** The page is dropped or its eviction begins. */
  ghost predicate Goes(s: State, u: State, v: PageId) {
    HasSlot(s, v) && s.frames[v].state != EVICTING && (!HasSlot(u, v) || u.frames[v].state == EVICTING)
  }

  /** A page goes only if all slots are taken, and only if it is the first to go. */
  lemma GoesInOrder(cfg: Config, s: State, step: Step, u: State, v: PageId)
    requires Reachable(cfg, s) && Apply(cfg, s, step) == Some(u) && Goes(s, u, v)
    ensures |set p | p in s.frames && s.frames[p].state != NEW| == cfg.pageCount
    ensures FirstToGo(s, step, v)
  {
    hide Inv, Apply, Reachable, FirstToGo, MakesRoom;
    ReachableInv(cfg, s);
    LoadedAreOwners(cfg, s);
    TakesPart(cfg, s, step);
    StepEffect(cfg, s, step, u);
    assert !Stays(s, u, v);
    match (step, s.sessions[step.t])
    case (Enter(_), Start(p, _)) => VictimFirst(s, s, step, u, p, v);
    case (AfterWrite(_), Writing(p, _, w, _, true)) =>
      if s.frames[w].state != EVICTING {
        WriterSees(cfg, s, step.t);
        VictimFirst(s, ClaimedBack(s, w), step, u, p, v);
      }
    case _ =>
  }

  lemma WriterSees(cfg: Config, s: State, t: SessionId)
    requires Inv(cfg, s) && t in s.sessions && s.sessions[t].Writing?
    ensures PagePresent(s, s.sessions[t].victim, {EVICTING, RELOADED})
  {
    assert SessionOk(s, s.sessions[t]);
  }

  lemma VictimFirst(s: State, m: State, step: Step, u: State, p: PageId, v: PageId)
    requires MakesRoom(s, m, u, p) && !Stays(s, u, v)
    requires m.fifo == s.fifo && m.lru == s.lru && forall q :: Evictable(m.frames, q) <==> CanGo(s, step, q)
    ensures FirstToGo(s, step, v)
  {
    assert Victim(m) == Some(v) by {
      hide Victim;
    }
    VictimOrder(m);
    hide Victim;
  }

  /**
    The 2Q order over every run: what goes is, among the pages that could, the one loaded first of
    those fixed once, or else the one whose last fix lies furthest back.
    */
  lemma OldestGoes(cfg: Config, s0: State, steps: seq<Step>, s: State, step: Step, u: State, v: PageId, q: PageId)
    requires Init(cfg, s0) && Run(cfg, s0, steps) == Some(s) && Apply(cfg, s, step) == Some(u)
    requires Goes(s, u, v) && CanGo(s, step, q) && q != v
    ensures var uses := UsesAfter(cfg, s0, steps, map[], 0);
      && v in uses && q in uses
      && if uses[v].Once? then uses[q].Again? || uses[v].at < uses[q].at else uses[q].Again? && uses[v].at < uses[q].at
  {
    assert Reachable(cfg, s);
    ReachableInv(cfg, s);
    GoesInOrder(cfg, s, step, u, v);
    ListsByAge(cfg, s0, steps, s);
    CanGoListed(cfg, s, step, q);
    hide Run, Init, Apply, Reachable, Inv, UsesAfter, CanGo;
    FirstIsOldest(s, step, UsesAfter(cfg, s0, steps, map[], 0), v, q);
  }

  lemma CanGoListed(cfg: Config, s: State, step: Step, q: PageId)
    requires Inv(cfg, s) && CanGo(s, step, q)
    ensures HasSlot(s, q) && (q in s.fifo || q in s.lru)
  {
    assert FrameSlotOk(cfg, s, q) && Owns(s, q);
  }

  lemma FirstIsOldest(s: State, step: Step, uses: Uses, v: PageId, q: PageId)
    requires FirstToGo(s, step, v) && CanGo(s, step, q) && q != v && (q in s.fifo || q in s.lru)
    requires forall p :: p in s.fifo ==> p in uses && uses[p].Once?
    requires forall p :: p in s.lru ==> p in uses && uses[p].Again?
    requires forall i, j :: 0 <= i < j < |s.fifo| ==> uses[s.fifo[i]].at < uses[s.fifo[j]].at
    requires forall i, j :: 0 <= i < j < |s.lru| ==> uses[s.lru[i]].at < uses[s.lru[j]].at
    ensures v in uses && q in uses
    ensures if uses[v].Once? then uses[q].Again? || uses[v].at < uses[q].at else uses[q].Again? && uses[v].at < uses[q].at
  {
    hide CanGo;
    if q in s.fifo {
      var k :| 0 <= k < |s.fifo| && s.fifo[k] == q;
      var i :| 0 <= i < |s.fifo| && s.fifo[i] == v && forall j :: 0 <= j < i ==> !CanGo(s, step, s.fifo[j]);
      assert i < k;
    } else if v in s.lru {
      var k :| 0 <= k < |s.lru| && s.lru[k] == q;
      var i :| 0 <= i < |s.lru| && s.lru[i] == v && forall j :: 0 <= j < i ==> !CanGo(s, step, s.lru[j]);
      assert i < k;
    }
  }

  /** While a slot is free, fix_page gets the page one, throws nothing, and no other page goes. */
  lemma LoadsWhileRoom(cfg: Config, s: State, t: SessionId, u: State)
    requires Reachable(cfg, s) && Apply(cfg, s, Enter(t)) == Some(u) && t in s.sessions && s.sessions[t].Start?
    requires s.sessions[t].page !in s.frames
    requires |set p | p in s.frames && s.frames[p].state != NEW| < cfg.pageCount
    ensures HasSlot(u, s.sessions[t].page) && !HasThrown(u, t) && forall q :: !Goes(s, u, q)
  {
    ReachableInv(cfg, s);
    LoadedAreOwners(cfg, s);
    OwnersAreFrames(s);
    var p, x := s.sessions[t].page, s.sessions[t].exclusive;
    EnterStepLoads(cfg, s, t, p, x);
    assert |s.frames| < cfg.pageCount == |s.slots|;
    EnterLoads(cfg, s, t, p, x);
    hide Inv, Reachable, BeginLoad, Create, EnterStep;
    assert t in Create(s, t, p, x).sessions by { CreatedSession(s, t, p, x); }
    LoadThrowsNot(cfg, Create(s, t, p, x), t, p, x, |s.frames|);
    BroughtInSlot(s, u, p, None);
    forall q ensures !Goes(s, u, q) {
      assert Stays(s, u, q);
    }
  }

  lemma CreatedSession(s: State, t: SessionId, p: PageId, x: bool)
    requires t in s.sessions
    ensures t in Create(s, t, p, x).sessions
  {
  }

  // ---------- dirty frames ----------

  /** No frame has become dirty; a new one is clean. */
  ghost predicate NoneDirtied(s: State, u: State) {
    forall p :: p in u.frames && u.frames[p].dirty ==> p in s.frames && s.frames[p].dirty
  }

  lemma LoadClean(cfg: Config, s: State, t: SessionId, p: PageId, x: bool, slot: nat)
    requires p in s.frames && slot < |s.slots|
    ensures NoneDirtied(s, BeginLoad(cfg, s, t, p, x, slot))
  {
  }

  lemma EvictClean(cfg: Config, s: State, t: SessionId, p: PageId, x: bool)
    requires p in s.frames && Evict(cfg, s, t, p, x).Some?
    ensures NoneDirtied(s, Evict(cfg, s, t, p, x).value)
  {
    hide BeginLoad;
    match Victim(s)
    case None =>
    case Some(v) =>
      if !s.frames[v].dirty {
        LoadClean(cfg, TakeOut(s, v), t, p, x, s.frames[v].slot.value);
      }
  }

  lemma EnterClean(cfg: Config, s: State, t: SessionId, p: PageId, x: bool)
    requires EnterStep(cfg, s, t, p, x).Some?
    ensures NoneDirtied(s, EnterStep(cfg, s, t, p, x).value)
  {
    hide BeginLoad, Evict, NoneDirtied, Create, Found;
    if p in s.frames {
      FoundClean(s, t, p, x);
    } else {
      var m := Create(s, t, p, x);
      CreatedClean(s, t, p, x, EnterStep(cfg, s, t, p, x).value);
      if |m.frames| - 1 < cfg.pageCount {
        LoadClean(cfg, m, t, p, x, |m.frames| - 1);
      } else {
        EvictClean(cfg, m, t, p, x);
      }
    }
  }

  lemma FoundClean(s: State, t: SessionId, p: PageId, x: bool)
    requires p in s.frames
    ensures NoneDirtied(s, Found(s, t, p, x))
  {
    hide Touch;
    var f := s.frames[p].(users := s.frames[p].users + 1);
    TouchedFrames(SetFrame(s, p, if f.state == EVICTING then f.(state := RELOADED) else f), p);
  }

  lemma CreatedClean(s: State, t: SessionId, p: PageId, x: bool, u: State)
    requires p !in s.frames
    ensures p in Create(s, t, p, x).frames
    ensures NoneDirtied(Create(s, t, p, x), u) ==> NoneDirtied(s, u)
  {
  }

  lemma LookAgainClean(s: State, t: SessionId, p: PageId, x: bool)
    requires p in s.frames
    ensures NoneDirtied(s, LookAgainStep(s, t, p, x))
  {
    TouchedFrames(s, p);
    hide Touch;
  }

  lemma TouchedFrames(s: State, p: PageId)
    ensures Touch(s, p).frames == s.frames
  {
  }

  lemma AfterWriteClean(cfg: Config, s: State, t: SessionId, p: PageId, x: bool, v: PageId)
    requires p in s.frames && v in s.frames && AfterWriteStep(cfg, s, t, p, x, v).Some?
    ensures NoneDirtied(s, AfterWriteStep(cfg, s, t, p, x, v).value)
  {
    hide BeginLoad, Evict, Victim;
    if s.frames[v].state == EVICTING {
      LoadClean(cfg, TakeOut(Goto(s, t, Choosing(p, x)), v), t, p, x, s.frames[v].slot.value);
    } else {
      EvictClean(cfg, Goto(SetFrame(s, v, s.frames[v].(state := LOADED)), t, Choosing(p, x)), t, p, x);
    }
  }

  lemma OthersClean(cfg: Config, s: State, step: Step, u: State)
    requires Apply(cfg, s, step) == Some(u) && !step.Enter? && !step.AfterWrite? && !step.Unfix?
    ensures NoneDirtied(s, u)
  {
    hide EnterStep, AfterWriteStep, DiskAt, WriteBlock, LookAgainStep;
    if step.LookAgain? {
      LookAgainClean(s, step.t, s.sessions[step.t].page, s.sessions[step.t].exclusive);
    }
  }

  /** A frame becomes dirty by the unfix that says so, and by nothing else. */
  lemma DirtiedByUnfix(cfg: Config, s: State, step: Step, u: State, p: PageId)
    requires Apply(cfg, s, step) == Some(u) && p in s.frames && p in u.frames && !s.frames[p].dirty
    ensures u.frames[p].dirty <==> step.Unfix? && s.sessions[step.t] == Unfixing(p, true)
  {
    var t := step.t;
    match (step, s.sessions[t])
    case (Enter(_), Start(q, x)) =>
      EnterClean(cfg, s, t, q, x);
      hide EnterStep;
    case (AfterWrite(_), Writing(q, x, v, _, true)) =>
      AfterWriteClean(cfg, s, t, q, x, v);
      hide AfterWriteStep;
    case (Unfix(_), _) => hide EnterStep, AfterWriteStep;
    case _ =>
      OthersClean(cfg, s, step, u);
      hide Apply;
  }
}
