/** Loading a page, writing a victim out, and the whole of fix_page's and evict_page's sections keep the invariant. */
module BufferLoad {
  import opened Collections
  import opened BufferState
  import opened BufferInvariant
  import opened BufferSteps
  import opened BufferEvict

  lemma GrowDisk(cfg: Config, files: map<nat, seq<Data>>, p: PageId, q: PageId)
    ensures DiskAt(cfg, Grow(cfg, files, p), q) == DiskAt(cfg, files, q)
    ensures |FileOf(Grow(cfg, files, p), q.segment)| >= |FileOf(files, q.segment)|
    ensures p.page < |FileOf(Grow(cfg, files, p), p.segment)|
  {
  }

  /** `slot` is free, and session `t` is about to load the NEW frame of `p` into it. */
  ghost predicate CanLoad(cfg: Config, s: State, t: SessionId, p: PageId, x: bool, slot: nat) {
    && Core(cfg, s) && t in s.sessions && s.sessions[t] == Choosing(p, x)
    && slot < cfg.pageCount && forall q :: Owns(s, q) ==> s.frames[q].slot != Some(slot)
  }

  lemma LoadStructure(cfg: Config, s: State, u: State, p: PageId, slot: nat)
    requires Structure(cfg, s) && p in s.frames && !Owns(s, p) && slot < cfg.pageCount
    requires forall q :: Owns(s, q) ==> s.frames[q].slot != Some(slot)
    requires p in u.frames && u.frames == s.frames[p := u.frames[p]] && u.frames[p].slot == Some(slot) && u.frames[p].state != NEW
    requires u.fifo == s.fifo + [p] && u.lru == s.lru && |u.slots| == |s.slots|
    ensures Structure(cfg, u) && Owners(u) == Owners(s) + {p} && |u.frames| == |s.frames|
  {
    assert u.frames.Keys == s.frames.Keys;
    NoDupAppend(s.fifo, p);
    forall q ensures Owns(u, q) <==> q == p || Owns(s, q) {
    }
    forall q | q in u.frames ensures FrameSlotOk(cfg, u, q) {
      assert FrameSlotOk(cfg, s, q);
    }
  }

  lemma LoadCounts(s: State, u: State, t: SessionId, p: PageId)
    requires Counts(s) && t in s.sessions && s.sessions[t].Choosing? && s.sessions[t].page == p && p in s.frames
    requires t in u.sessions && u.sessions == s.sessions[t := u.sessions[t]]
    requires !u.sessions[t].Idle? && u.sessions[t].page == p
    requires p in u.frames && u.frames == s.frames[p := u.frames[p]] && u.frames[p].users == s.frames[p].users
    requires (u.sessions[t].WantLock? && u.frames[p].latch == Unlock(s.frames[p]).latch && u.frames[p].exclusivelyLocked == Unlock(s.frames[p]).exclusivelyLocked)
          || (u.sessions[t].Reading? && u.frames[p].latch == s.frames[p].latch && u.frames[p].exclusivelyLocked == s.frames[p].exclusivelyLocked)
    ensures Counts(u)
  {
    Held(s, t, p);
    forall q ensures CountsAt(u, q) {
      assert CountsAt(s, q);
      CountsAfter(s.sessions, t, u.sessions[t], q);
    }
  }

  lemma LoadPlaces(cfg: Config, s: State, u: State, t: SessionId, p: PageId)
    requires Core(cfg, s) && t in s.sessions && s.sessions[t].Choosing? && s.sessions[t].page == p
    requires t in u.sessions && u.sessions == s.sessions[t := u.sessions[t]]
    requires !u.sessions[t].Idle? && u.sessions[t].page == p
    requires p in u.frames && u.frames == s.frames[p := u.frames[p]]
    requires (u.sessions[t].WantLock? && u.frames[p].state == LOADED) || (u.sessions[t].Reading? && u.frames[p].state == LOADING)
    ensures Places(u)
  {
    assert SessionOk(s, s.sessions[t]);
    forall w | w in u.sessions ensures SessionOk(u, u.sessions[w]) {
      assert SessionOk(s, s.sessions[w]);
      if w != t {
        OneReader(cfg, s, t, w, p);
      }
    }
    forall q ensures LoadingHasReader(u, q) {
      assert LoadingHasReader(s, q);
      if q == p {
        assert u.sessions[t].Reading? ==> IsReading(u, t, p);
      } else if PagePresent(s, q, {LOADING}) {
        var w :| IsReading(s, w, q);
        assert IsReading(u, w, q);
      }
    }
    forall q | PagePresent(u, q, {EVICTING}) ensures u.frames[q].users == 0 {
      assert PagePresent(s, q, {EVICTING});
    }
  }

  /** Loading: what the other pages and sessions rely on stays. */
  lemma LoadOthers(cfg: Config, s: State, u: State, t: SessionId, p: PageId, slot: nat, q: PageId)
    requires DataAt(cfg, s, q) && t in s.sessions && s.sessions[t].Choosing?
    requires t in u.sessions && u.sessions == s.sessions[t := u.sessions[t]]
    requires p in u.frames && u.frames == s.frames[p := u.frames[p]] && |u.slots| == |s.slots| && u.left == s.left && u.origin == s.origin
    requires forall i :: 0 <= i < |s.slots| && i != slot ==> u.slots[i] == s.slots[i]
    requires forall r :: Owns(s, r) ==> s.frames[r].slot != Some(slot)
    requires DiskAt(cfg, u.files, q) == DiskAt(cfg, s.files, q) && |FileOf(u.files, q.segment)| >= |FileOf(s.files, q.segment)|
    requires q != p
    ensures DataAt(cfg, u, q)
  {
    assert Left(cfg, u, q) == Left(cfg, s, q);
    hide DiskAt, FileOf, Left;
    assert forall w :: Changing(s, w, q) ==> Changing(u, w, q);
    assert forall w :: WillMark(s, w, q) ==> WillMark(u, w, q);
    assert SlotOk(s, q) ==> Owns(s, q);
  }

  lemma LoadTransfers(cfg: Config, s: State, u: State, t: SessionId, p: PageId, slot: nat, w: SessionId)
    requires t in s.sessions && s.sessions[t].Choosing? && s.sessions[t].page == p
    requires w in s.sessions && w != t && TransferOk(cfg, s, w) && SessionOk(s, s.sessions[w]) && SessionOk(s, s.sessions[t])
    requires t in u.sessions && u.sessions == s.sessions[t := u.sessions[t]]
    requires p in u.frames && u.frames == s.frames[p := u.frames[p]] && |u.slots| == |s.slots|
    requires forall i :: 0 <= i < |s.slots| && i != slot ==> u.slots[i] == s.slots[i]
    requires forall r :: Owns(s, r) ==> s.frames[r].slot != Some(slot)
    requires forall q :: DiskAt(cfg, u.files, q) == DiskAt(cfg, s.files, q)
    ensures TransferOk(cfg, u, w)
  {
    hide DiskAt;
    match s.sessions[w]
    case Writing(_, _, v, _, _) => assert Owns(s, v) ==> s.frames[v].slot != Some(slot);
    case Reading(q, _, _) => assert Owns(s, q) ==> s.frames[q].slot != Some(slot);
    case _ =>
  }

  lemma BeginLoadCore(cfg: Config, s: State, t: SessionId, p: PageId, x: bool, slot: nat)
    requires CanLoad(cfg, s, t, p, x, slot)
    ensures p in s.frames && slot < |s.slots|
    ensures var u := BeginLoad(cfg, s, t, p, x, slot);
      && Core(cfg, u) && Owners(u) == Owners(s) + {p} && |u.frames| == |s.frames|
      && p in u.frames && u.frames == s.frames[p := u.frames[p]] && u.frames[p].slot == Some(slot)
  {
    Facts(cfg, s, t, p);
    Held(s, t, p);
    var u := BeginLoad(cfg, s, t, p, x, slot);
    LoadStructure(cfg, s, u, p, slot);
    LoadCounts(s, u, t, p);
    LoadPlaces(cfg, s, u, t, p);
    LoadDatas(cfg, s, u, t, p, x, slot);
  }

  lemma LoadDatas(cfg: Config, s: State, u: State, t: SessionId, p: PageId, x: bool, slot: nat)
    requires CanLoad(cfg, s, t, p, x, slot) && p in s.frames && slot < |s.slots| && u == BeginLoad(cfg, s, t, p, x, slot)
    ensures Datas(cfg, u)
  {
    Facts(cfg, s, t, p);
    forall q ensures DiskAt(cfg, u.files, q) == DiskAt(cfg, s.files, q) && |FileOf(u.files, q.segment)| >= |FileOf(s.files, q.segment)| {
      GrowDisk(cfg, s.files, p, q);
    }
    forall q ensures DataAt(cfg, u, q) {
      assert DataAt(cfg, s, q);
      if q == p {
        LoadedData(cfg, s, u, t, p, x, slot);
      } else {
        hide Core, Grow, DataAt, DiskAt, FileOf;
        LoadOthers(cfg, s, u, t, p, slot, q);
      }
    }
    LoadTransfersAll(cfg, s, u, t, p, x, slot);
  }

  /** The page itself: zeroes when the file was too short, and otherwise still to be read. */
  lemma LoadedData(cfg: Config, s: State, u: State, t: SessionId, p: PageId, x: bool, slot: nat)
    requires t in s.sessions && s.sessions[t] == Choosing(p, x) && p in s.frames && s.frames[p].state == NEW && slot < |s.slots|
    requires DataAt(cfg, s, p) && u == BeginLoad(cfg, s, t, p, x, slot)
    ensures DataAt(cfg, u, p)
  {
    GrowDisk(cfg, s.files, p, p);
  }

  lemma LoadTransfersAll(cfg: Config, s: State, u: State, t: SessionId, p: PageId, x: bool, slot: nat)
    requires CanLoad(cfg, s, t, p, x, slot) && p in s.frames && slot < |s.slots| && u == BeginLoad(cfg, s, t, p, x, slot)
    requires forall q :: DiskAt(cfg, u.files, q) == DiskAt(cfg, s.files, q) && |FileOf(u.files, q.segment)| >= |FileOf(s.files, q.segment)|
    ensures forall w {:trigger TransferOk(cfg, u, w)} :: w in u.sessions ==> TransferOk(cfg, u, w)
  {
    assert SessionOk(s, s.sessions[t]);
    forall w | w in u.sessions ensures TransferOk(cfg, u, w) {
      if w != t {
        assert TransferOk(cfg, s, w) && SessionOk(s, s.sessions[w]);
        hide Core, Grow, DiskAt, FileOf, SessionOk, TransferOk;
        LoadTransfers(cfg, s, u, t, p, slot, w);
      }
    }
  }

  // ---------- the state of one frame changes, its users do not ----------

  /** Session `t` moves between pins of the same pages, and frame `v` changes its state. */
  ghost predicate Restates(s: State, u: State, t: SessionId, v: PageId) {
    && t in s.sessions && t in u.sessions && u.sessions == s.sessions[t := u.sessions[t]]
    && v in s.frames && v in u.frames && u.frames == s.frames[v := s.frames[v].(state := u.frames[v].state)]
    && s.frames[v].state != NEW && u.frames[v].state != NEW
    && u.fifo == s.fifo && u.lru == s.lru && u.slots == s.slots && u.files == s.files && u.left == s.left && u.origin == s.origin
    && SameKinds(s.sessions[t], u.sessions[t])
    && !s.sessions[t].Reading? && !u.sessions[t].Reading? && !s.sessions[t].Using? && !s.sessions[t].Unfixing?
  }

  lemma RestatesCore(cfg: Config, s: State, u: State, t: SessionId, v: PageId)
    requires Core(cfg, s) && Restates(s, u, t, v) && Places(u) && TransferOk(cfg, u, t)
    requires s.frames[v].state in {LOADED, EVICTING, RELOADED} && u.frames[v].state in {LOADED, EVICTING, RELOADED}
    requires forall w :: w in s.sessions && w != t && s.sessions[w].Writing? ==> s.sessions[w].victim != v
    ensures Core(cfg, u) && Owners(u) == Owners(s)
  {
    SameStructure(cfg, s, u);
    RestatesCounts(s, u, t, v);
    RestatesDatas(cfg, s, u, t, v);
  }

  lemma RestatesCounts(s: State, u: State, t: SessionId, v: PageId)
    requires Counts(s) && Restates(s, u, t, v)
    ensures Counts(u)
  {
    forall q ensures CountsAt(u, q) {
      assert CountsAt(s, q);
      CountsAfter(s.sessions, t, u.sessions[t], q);
    }
  }

  lemma RestatesDatas(cfg: Config, s: State, u: State, t: SessionId, v: PageId)
    requires Datas(cfg, s) && Restates(s, u, t, v) && TransferOk(cfg, u, t)
    requires s.frames[v].state in {LOADED, EVICTING, RELOADED} && u.frames[v].state in {LOADED, EVICTING, RELOADED}
    requires forall w :: w in s.sessions && w != t && s.sessions[w].Writing? ==> s.sessions[w].victim != v
    ensures Datas(cfg, u)
  {
    forall q ensures DataAt(cfg, u, q) {
      assert DataAt(cfg, s, q);
      assert forall w :: Changing(s, w, q) ==> Changing(u, w, q);
      assert forall w :: WillMark(s, w, q) ==> WillMark(u, w, q);
    }
    forall w | w in u.sessions ensures TransferOk(cfg, u, w) {
      if w != t {
        assert TransferOk(cfg, s, w);
      }
    }
  }

  /** A dirty victim goes to EVICTING and its copy is handed to the writer. */
  lemma StartWritingCore(cfg: Config, s: State, t: SessionId, p: PageId, x: bool, v: PageId)
    requires Core(cfg, s) && t in s.sessions && s.sessions[t] == Choosing(p, x) && Evictable(s.frames, v) && s.frames[v].dirty
    ensures SlotOk(s, v)
    ensures var u := Goto(SetFrame(s, v, s.frames[v].(state := EVICTING)), t, Writing(p, x, v, InFrame(s, v), false));
      Core(cfg, u) && Owners(u) == Owners(s)
  {
    Facts(cfg, s, t, v);
    Facts(cfg, s, t, p);
    var u := Goto(SetFrame(s, v, s.frames[v].(state := EVICTING)), t, Writing(p, x, v, InFrame(s, v), false));
    NotVictim(s, v);
    NoOtherPins(s, t, v);
    StartWritingPlaces(s, u, t, p, x, v);
    assert Restates(s, u, t, v) && TransferOk(cfg, u, t);
    hide Structure, Counts, Places, Datas, Restates, TransferOk;
    RestatesCore(cfg, s, u, t, v);
  }

  lemma StartWritingPlaces(s: State, u: State, t: SessionId, p: PageId, x: bool, v: PageId)
    requires Places(s) && t in s.sessions && s.sessions[t] == Choosing(p, x) && v != p
    requires SlotOk(s, v) && s.frames[v].state == LOADED && s.frames[v].users == 0 && s.frames[v].dirty
    requires forall w :: w in s.sessions && w != t ==> !Is(Pin, s.sessions[w], v)
    requires forall w :: w in s.sessions && s.sessions[w].Writing? ==> s.sessions[w].victim != v
    requires u == Goto(SetFrame(s, v, s.frames[v].(state := EVICTING)), t, Writing(p, x, v, InFrame(s, v), false))
    ensures Places(u)
  {
    forall w | w in u.sessions ensures SessionOk(u, u.sessions[w]) {
      assert SessionOk(s, s.sessions[w]);
    }
    forall q ensures LoadingHasReader(u, q) {
      ReadersStay(s, u, q);
    }
    forall q | PagePresent(u, q, {EVICTING}) ensures u.frames[q].users == 0 {
      assert q != v ==> PagePresent(s, q, {EVICTING});
    }
  }

  /** A frame in LOADING keeps its reader. */
  lemma ReadersStay(s: State, u: State, q: PageId)
    requires Places(s) && (PagePresent(u, q, {LOADING}) ==> PagePresent(s, q, {LOADING}))
    requires forall w :: IsReading(s, w, q) ==> IsReading(u, w, q)
    ensures LoadingHasReader(u, q)
  {
    assert LoadingHasReader(s, q);
    if PagePresent(s, q, {LOADING}) {
      var w :| IsReading(s, w, q);
      assert IsReading(u, w, q);
    }
  }

  /** A LOADED page is nobody's victim. */
  lemma NotVictim(s: State, v: PageId)
    requires Places(s) && v in s.frames && s.frames[v].state == LOADED
    ensures forall w :: w in s.sessions && s.sessions[w].Writing? ==> s.sessions[w].victim != v
  {
    forall w | w in s.sessions && s.sessions[w].Writing? ensures s.sessions[w].victim != v {
      assert SessionOk(s, s.sessions[w]);
    }
  }

  /** After the write the writer decides again; a victim that was claimed back is LOADED. */
  lemma WrittenCore(cfg: Config, s: State, t: SessionId, p: PageId, x: bool, v: PageId, d: Data)
    requires Core(cfg, s) && t in s.sessions && s.sessions[t] == Writing(p, x, v, d, true)
    ensures p in s.frames && v in s.frames && p != v && s.frames[v].state in {EVICTING, RELOADED}
    ensures s.frames[v].state == EVICTING ==> Core(cfg, Goto(s, t, Choosing(p, x))) && MayLeave(cfg, Goto(s, t, Choosing(p, x)), v)
    ensures s.frames[v].state != EVICTING ==>
      var u := Goto(SetFrame(s, v, s.frames[v].(state := LOADED)), t, Choosing(p, x));
      Core(cfg, u) && Owners(u) == Owners(s)
  {
    WrittenAny(cfg, s, t, p, x, v, d);
    Facts(cfg, s, t, p);
    Facts(cfg, s, t, v);
    hide Structure, Places, Datas;
    if s.frames[v].state == EVICTING {
      assert Goto(SetFrame(s, v, Resumed(s.frames[v])), t, Choosing(p, x)) == Goto(s, t, Choosing(p, x)) by {
        assert Resumed(s.frames[v]) == s.frames[v];
        assert SetFrame(s, v, s.frames[v]).frames == s.frames;
      }
      NoOtherPins(s, t, v);
      assert forall w :: Changing(s, w, v) ==> Is(Pin, s.sessions[w], v);
    }
  }

  /** A victim that was claimed back meanwhile is LOADED again. */
  function Resumed(f: Frame): Frame { f.(state := if f.state == EVICTING then EVICTING else LOADED) }

  lemma WrittenAny(cfg: Config, s: State, t: SessionId, p: PageId, x: bool, v: PageId, d: Data)
    requires Core(cfg, s) && t in s.sessions && s.sessions[t] == Writing(p, x, v, d, true)
    ensures p in s.frames && v in s.frames && p != v && s.frames[v].state in {EVICTING, RELOADED}
    ensures var u := Goto(SetFrame(s, v, Resumed(s.frames[v])), t, Choosing(p, x)); Core(cfg, u) && Owners(u) == Owners(s)
  {
    Facts(cfg, s, t, p);
    Facts(cfg, s, t, v);
    var u := Goto(SetFrame(s, v, Resumed(s.frames[v])), t, Choosing(p, x));
    WrittenPlaces(s, u, t, p, x, v, d);
    assert Restates(s, u, t, v) && TransferOk(cfg, u, t);
    hide Structure, Counts, Datas, Restates, TransferOk;
    RestatesCore(cfg, s, u, t, v);
  }

  lemma WrittenPlaces(s: State, u: State, t: SessionId, p: PageId, x: bool, v: PageId, d: Data)
    requires Places(s) && t in s.sessions && s.sessions[t] == Writing(p, x, v, d, true)
    requires p in s.frames && s.frames[p].state == NEW && v in s.frames && s.frames[v].state in {EVICTING, RELOADED}
    requires u == Goto(SetFrame(s, v, Resumed(s.frames[v])), t, Choosing(p, x))
    ensures Places(u)
  {
    forall w | w in u.sessions ensures SessionOk(u, u.sessions[w]) {
      assert SessionOk(s, s.sessions[w]);
    }
    forall q ensures LoadingHasReader(u, q) {
      ReadersStay(s, u, q);
    }
    forall q | PagePresent(u, q, {EVICTING}) ensures u.frames[q].users == 0 {
      assert PagePresent(s, q, {EVICTING});
    }
  }

  /** The page read in becomes LOADED and its loader lets go of it. */
  lemma AfterReadInv(cfg: Config, s: State, t: SessionId, p: PageId, x: bool)
    requires Inv(cfg, s) && t in s.sessions && s.sessions[t] == Reading(p, x, true)
    ensures p in s.frames && Inv(cfg, AfterReadStep(s, t, p, x))
  {
    Facts(cfg, s, t, p);
    Held(s, t, p);
    var u := AfterReadStep(s, t, p, x);
    SameStructure(cfg, s, u);
    AfterReadCounts(s, u, t, p, x);
    hide Counts, Structure, Places, Datas;
    AfterReadPlaces(cfg, s, u, t, p, x);
    AfterReadDatas(cfg, s, u, t, p, x);
  }

  lemma AfterReadCounts(s: State, u: State, t: SessionId, p: PageId, x: bool)
    requires Counts(s) && t in s.sessions && s.sessions[t] == Reading(p, x, true)
    requires p in s.frames && s.frames[p].latch == Exclusive && s.frames[p].exclusivelyLocked && u == AfterReadStep(s, t, p, x)
    ensures Counts(u)
  {
    forall q ensures CountsAt(u, q) {
      assert CountsAt(s, q);
      CountsAfter(s.sessions, t, u.sessions[t], q);
    }
  }

  lemma AfterReadPlaces(cfg: Config, s: State, u: State, t: SessionId, p: PageId, x: bool)
    requires Inv(cfg, s) && t in s.sessions && s.sessions[t] == Reading(p, x, true)
    requires p in s.frames && u == AfterReadStep(s, t, p, x)
    ensures Places(u)
  {
    forall w | w in u.sessions ensures SessionOk(u, u.sessions[w]) {
      assert SessionOk(s, s.sessions[w]) && SessionOk(s, s.sessions[t]);
      if w != t {
        OneReader(cfg, s, t, w, p);
      }
    }
    forall q ensures LoadingHasReader(u, q) {
      assert LoadingHasReader(s, q);
      if PagePresent(u, q, {LOADING}) {
        var w :| IsReading(s, w, q);
        assert IsReading(u, w, q);
      }
    }
    forall q | PagePresent(u, q, {EVICTING}) ensures u.frames[q].users == 0 {
      assert PagePresent(s, q, {EVICTING});
    }
  }

  lemma AfterReadDatas(cfg: Config, s: State, u: State, t: SessionId, p: PageId, x: bool)
    requires Inv(cfg, s) && t in s.sessions && s.sessions[t] == Reading(p, x, true)
    requires p in s.frames && u == AfterReadStep(s, t, p, x)
    ensures Datas(cfg, u)
  {
    Facts(cfg, s, t, p);
    forall q ensures DataAt(cfg, u, q) {
      assert DataAt(cfg, s, q);
      hide Core, Quota;
      AfterReadDataAt(cfg, s, u, t, p, x, q);
    }
    forall w | w in u.sessions ensures TransferOk(cfg, u, w) {
      assert TransferOk(cfg, s, w) && SessionOk(s, s.sessions[w]) && SessionOk(s, s.sessions[t]);
      hide Core, Quota;
    }
  }

  lemma AfterReadDataAt(cfg: Config, s: State, u: State, t: SessionId, p: PageId, x: bool, q: PageId)
    requires t in s.sessions && s.sessions[t] == Reading(p, x, true) && DataAt(cfg, s, q) && DataAt(cfg, s, p) && TransferOk(cfg, s, t)
    requires p in s.frames && s.frames[p].state == LOADING && u == AfterReadStep(s, t, p, x)
    ensures DataAt(cfg, u, q)
  {
    assert Left(cfg, u, q) == Left(cfg, s, q);
    hide DiskAt, FileOf, Left;
    assert forall w :: Changing(s, w, q) ==> Changing(u, w, q);
    assert forall w :: WillMark(s, w, q) ==> WillMark(u, w, q);
  }

  // ---------- whole sections ----------

  /** A slot changes hands: the number of owners stays. */
  lemma HandOver(cfg: Config, s: State, u: State, v: PageId, p: PageId)
    requires Full(cfg, s) && Owns(s, v) && !Owns(s, p) && Owners(u) == Owners(s) - {v} + {p}
    ensures Quota(cfg, u)
  {
    assert v in Owners(s) && p !in Owners(s) - {v};
    assert |Owners(s) - {v}| == |Owners(s)| - 1;
    assert |Owners(u)| == |Owners(s) - {v}| + 1;
  }

  lemma EvictLoadInv(cfg: Config, s: State, t: SessionId, p: PageId, x: bool, v: PageId)
    requires Core(cfg, s) && Full(cfg, s) && t in s.sessions && s.sessions[t] == Choosing(p, x) && p != v && MayLeave(cfg, s, v)
    ensures p in s.frames && SlotOk(s, v) && Listed(s, v)
    ensures Inv(cfg, BeginLoad(cfg, TakeOut(s, v), t, p, x, s.frames[v].slot.value))
  {
    Facts(cfg, s, t, p);
    Facts(cfg, s, t, v);
    var slot := s.frames[v].slot.value;
    var m := TakeOut(s, v);
    TakeOutCore(cfg, s, t, v);
    BeginLoadCore(cfg, m, t, p, x, slot);
    HandOver(cfg, s, BeginLoad(cfg, m, t, p, x, slot), v, p);
  }

  lemma VictimIs(s: State)
    requires forall q :: q in s.fifo || q in s.lru ==> Owns(s, q)
    ensures Victim(s).Some? ==>
      Evictable(s.frames, Victim(s).value) && Owns(s, Victim(s).value) && Listed(s, Victim(s).value)
  {
  }

  lemma EvictInv(cfg: Config, s: State, t: SessionId, p: PageId, x: bool)
    requires Core(cfg, s) && Full(cfg, s) && t in s.sessions && s.sessions[t] == Choosing(p, x)
    ensures p in s.frames && Evict(cfg, s, t, p, x).Some? && Inv(cfg, Evict(cfg, s, t, p, x).value)
  {
    Facts(cfg, s, t, p);
    VictimIs(s);
    match Victim(s) {
      case None => GiveUpInv(cfg, s, t, p, x);
      case Some(v) =>
        Facts(cfg, s, t, v);
        if s.frames[v].dirty {
          StartWritingCore(cfg, s, t, p, x, v);
        } else {
          CleanMayLeave(cfg, s, t, v);
          EvictLoadInv(cfg, s, t, p, x, v);
        }
    }
  }

  /** A clean LOADED page without users is on disk as it is in memory, and that is the truth. */
  lemma CleanMayLeave(cfg: Config, s: State, t: SessionId, v: PageId)
    requires Core(cfg, s) && t in s.sessions && s.sessions[t].Choosing? && Owns(s, v) && Evictable(s.frames, v) && !s.frames[v].dirty
    ensures MayLeave(cfg, s, v)
  {
    Facts(cfg, s, t, v);
    NotVictim(s, v);
    AbsentUsers(s, v);
  }

  /** A frame without users is neither being changed nor about to be marked dirty. */
  lemma AbsentUsers(s: State, v: PageId)
    requires Counts(s) && v in s.frames && s.frames[v].users == 0
    ensures forall w :: !Changing(s, w, v) && !WillMark(s, w, v)
  {
    assert CountsAt(s, v);
    forall w ensures !Changing(s, w, v) && !WillMark(s, w, v) {
      if Changing(s, w, v) || WillMark(s, w, v) {
        Counted(s.sessions, w, Pin, v);
      }
    }
  }

  lemma EnterInv(cfg: Config, s: State, t: SessionId, p: PageId, x: bool)
    requires Inv(cfg, s) && t in s.sessions && s.sessions[t] == Start(p, x)
    ensures EnterStep(cfg, s, t, p, x).Some? && Inv(cfg, EnterStep(cfg, s, t, p, x).value)
  {
    if p in s.frames {
      hide Structure, Counts, Places, Datas, Quota;
      if s.frames[p].state == NEW {
        FoundNewInv(cfg, s, t, p, x);
      } else {
        AllListed(cfg, s, p);
        FoundOtherInv(cfg, s, t, p, x);
      }
    } else {
      var m := Create(s, t, p, x);
      CreateCore(cfg, s, t, p, x);
      assert |m.frames| == |s.frames| + 1;
      OwnersAreFrames(s);
      if |s.frames| < cfg.pageCount {
        FreshSlotInv(cfg, s, m, t, p, x);
        hide Inv, BeginLoad, Evict;
      } else {
        assert Full(cfg, m);
        hide Inv, BeginLoad, Evict, Full;
        EvictInv(cfg, m, t, p, x);
      }
    }
  }

  /** Only NEW frames are in no list. */
  lemma AllListed(cfg: Config, s: State, p: PageId)
    requires Structure(cfg, s) && p in s.frames && s.frames[p].state != NEW
    ensures Listed(s, p)
  {
    assert FrameSlotOk(cfg, s, p) && Owns(s, p);
  }

  lemma OwnersAreFrames(s: State)
    ensures |Owners(s)| <= |s.frames|
    ensures (forall p :: p in s.frames ==> Owns(s, p)) ==> |Owners(s)| == |s.frames|
  {
    assert Owners(s) <= s.frames.Keys;
    assert s.frames.Keys == Owners(s) + (s.frames.Keys - Owners(s));
    assert |s.frames.Keys| == |Owners(s)| + |s.frames.Keys - Owners(s)|;
    if forall p :: p in s.frames ==> Owns(s, p) {
      assert Owners(s) == s.frames.Keys;
    }
  }

  /** While slots are left, the next one in order is free. */
  lemma FreshSlotInv(cfg: Config, s: State, m: State, t: SessionId, p: PageId, x: bool)
    requires Inv(cfg, s) && t in s.sessions && s.sessions[t] == Start(p, x) && p !in s.frames && |s.frames| < cfg.pageCount
    requires m == Create(s, t, p, x) && Core(cfg, m) && Owners(m) == Owners(s)
    ensures |s.frames| < |m.slots| && Inv(cfg, BeginLoad(cfg, m, t, p, x, |s.frames|))
  {
    OwnersAreFrames(s);
    forall q | Owns(m, q) ensures m.frames[q].slot != Some(|s.frames|) {
      assert q in Owners(s);
    }
    BeginLoadCore(cfg, m, t, p, x, |s.frames|);
    FreshSlotQuota(cfg, s, m, t, p, x);
  }

  lemma FreshSlotQuota(cfg: Config, s: State, m: State, t: SessionId, p: PageId, x: bool)
    requires Quota(cfg, s) && t in s.sessions && p !in s.frames && |s.frames| < cfg.pageCount == |m.slots|
    requires m == Create(s, t, p, x) && p in m.frames
    ensures Quota(cfg, BeginLoad(cfg, m, t, p, x, |s.frames|))
  {
    hide Quota, Create, BeginLoad;
    FreshFrames(cfg, s, m, t, p, x, |s.frames|);
    OneMoreOwner(cfg, s, BeginLoad(cfg, m, t, p, x, |s.frames|), p);
  }

  lemma FreshFrames(cfg: Config, s: State, m: State, t: SessionId, p: PageId, x: bool, slot: nat)
    requires p !in s.frames && slot < |m.slots| && m == Create(s, t, p, x)
    ensures p in m.frames
    ensures var u := BeginLoad(cfg, m, t, p, x, slot);
      && u.frames.Keys == s.frames.Keys + {p} && u.frames[p].slot == Some(slot)
      && forall q :: q in s.frames ==> u.frames[q] == s.frames[q]
  {
  }

  lemma OneMoreOwner(cfg: Config, s: State, u: State, p: PageId)
    requires Quota(cfg, s) && p !in s.frames && |s.frames| < cfg.pageCount
    requires u.frames.Keys == s.frames.Keys + {p} && forall q :: q in s.frames ==> u.frames[q] == s.frames[q]
    requires u.frames[p].slot == Some(|s.frames|)
    ensures Quota(cfg, u)
  {
    OwnersAreFrames(s);
    assert |u.frames.Keys| == |s.frames.Keys| + 1;
    assert Owners(u) == Owners(s) + {p};
    assert p !in Owners(s);
    if |Owners(s)| != cfg.pageCount {
      forall q | q in u.frames ensures Owns(u, q) && u.frames[q].slot.value < |u.frames| {
        if q != p {
          assert Owns(s, q) && s.frames[q].slot.value < |s.frames|;
        }
      }
    }
  }

  lemma AfterWriteInv(cfg: Config, s: State, t: SessionId, p: PageId, x: bool, v: PageId, d: Data)
    requires Inv(cfg, s) && t in s.sessions && s.sessions[t] == Writing(p, x, v, d, true)
    ensures p in s.frames && v in s.frames
    ensures AfterWriteStep(cfg, s, t, p, x, v).Some? && Inv(cfg, AfterWriteStep(cfg, s, t, p, x, v).value)
  {
    Facts(cfg, s, t, p);
    NewMeansFull(cfg, s, p);
    WrittenCore(cfg, s, t, p, x, v, d);
    hide Core, Quota, Evict, BeginLoad, MayLeave, TakeOut, AfterWriteStep;
    if s.frames[v].state == EVICTING {
      var m := Goto(s, t, Choosing(p, x));
      SameOwners(s, m);
      EvictLoadInv(cfg, m, t, p, x, v);
      AfterWriteTakes(cfg, s, t, p, x, v);
    } else {
      var m := Goto(SetFrame(s, v, s.frames[v].(state := LOADED)), t, Choosing(p, x));
      EvictInv(cfg, m, t, p, x);
      AfterWriteGoesOn(cfg, s, t, p, x, v);
    }
  }

  /** Nobody claimed the victim back: it goes. */
  lemma AfterWriteTakes(cfg: Config, s: State, t: SessionId, p: PageId, x: bool, v: PageId)
    requires p in s.frames && v in s.frames && p != v && s.frames[v].state == EVICTING && SlotOk(s, v) && Listed(s, v)
    ensures AfterWriteStep(cfg, s, t, p, x, v) ==
            Some(BeginLoad(cfg, TakeOut(Goto(s, t, Choosing(p, x)), v), t, p, x, s.frames[v].slot.value))
  {
  }

  /** Somebody did: the search goes on. */
  lemma AfterWriteGoesOn(cfg: Config, s: State, t: SessionId, p: PageId, x: bool, v: PageId)
    requires p in s.frames && v in s.frames && p != v && s.frames[v].state == RELOADED
    ensures AfterWriteStep(cfg, s, t, p, x, v) ==
            Evict(cfg, Goto(SetFrame(s, v, s.frames[v].(state := LOADED)), t, Choosing(p, x)), t, p, x)
  {
  }
}
