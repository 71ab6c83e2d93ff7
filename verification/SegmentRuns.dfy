/**
  Runs of a record segment: whoever keeps the tuple ids that `allocate` returned finds, whatever
  has been allocated, written, resized, moved and erased in between, what the calls on each
  record alone make of it. Source: task-slotted-pages/src/slotted_page/sp_segment.cc.
  */
module SegmentRuns {
  import opened Collections
  import opened PageLayout
  import opened FreeSpaceInventory
  import opened SegmentRecords
  import opened SpSegment

  /** Records are named by the order of their allocation. */
  datatype Call = New(n: nat) | Put(i: nat, bytes: seq<Byte>) | Grow(i: nat, n: nat) | Drop(i: nat)

  type Contents = seq<Option<seq<Byte>>>

  /** What callers must respect: live records, sizes greater than 0, no writing past the end. */
  predicate Sensible(c: Contents, call: Call, pageSize: nat) {
    match call
    case New(n) => 0 < n && n + HEADER + SLOT <= pageSize
    case Put(i, bytes) => i < |c| && c[i].Some? && |bytes| <= |c[i].value|
    case Grow(i, n) => i < |c| && c[i].Some? && 0 < n
    case Drop(i) => i < |c| && c[i].Some?
  }

  function Apply(c: Contents, call: Call): Contents {
    match call
    case New(n) => c + [Some(Zeros(n))]
    case Put(i, bytes) =>
      if i < |c| && c[i].Some? && |bytes| <= |c[i].value| then c[i := Some(bytes + c[i].value[|bytes|..])] else c
    case Grow(i, n) => if i < |c| && c[i].Some? then c[i := Some(Resized(c[i].value, n))] else c
    case Drop(i) => if i < |c| then c[i := None] else c
  }

  function ApplyAll(c: Contents, calls: seq<Call>): Contents
    decreases |calls|
  {
    if calls == [] then c else ApplyAll(Apply(c, calls[0]), calls[1..])
  }

  /** The live tuple ids differ, each stands for its contents, and there are no other records. */
  ghost predicate Agrees(pages: seq<Page>, pageSize: nat, tids: seq<Tid>, c: Contents)
    requires PagesOk(pages, pageSize)
  {
    && |tids| == |c|
    && (forall i :: 0 <= i < |c| && c[i].Some? ==> RecordAt(pages, pageSize, tids[i]) == c[i])
    && (forall i, j :: 0 <= i < j < |c| && c[i].Some? && c[j].Some? ==> tids[i] != tids[j])
    && (forall t: Tid :: RecordAt(pages, pageSize, t).Some? ==> exists i :: 0 <= i < |c| && c[i].Some? && tids[i] == t)
  }

  /** Why a run ends before this call. */
  ghost predicate Stops(s: SPSegment, tids: seq<Tid>, c: Contents, call: Call)
    requires s.Valid() && |tids| == |c|
    reads s, s.fsi
  {
    || !Sensible(c, call, s.pageSize)
    || match call
       case New(n) => s.HintFails(n + SLOT)
       case Put(i, _) => At(s.pages, s.pageSize, tids[i]).Moved?
       case Drop(i) => At(s.pages, s.pageSize, tids[i]).Moved?
       case Grow(i, n) =>
         || !At(s.pages, s.pageSize, tids[i]).Live?
         || (s.MustMove(tids[i], n)
             && (s.pageSize < n + TID + HEADER + SLOT || PAGE_ID_LIMIT <= |s.pages| || s.HintFails(n + TID + SLOT)))
  }

  /** The same, as far as the pages tell: the hint assertion fails on pages whose hint is beyond their slots only. */
  ghost predicate Excused(pages: seq<Page>, pageSize: nat, tids: seq<Tid>, c: Contents, call: Call)
    requires PagesOk(pages, pageSize) && |tids| == |c|
  {
    Sensible(c, call, pageSize) ==>
      match call
      case New(_) => SomeHintBeyond(pages)
      case Put(i, _) => At(pages, pageSize, tids[i]).Moved?
      case Drop(i) => At(pages, pageSize, tids[i]).Moved?
      case Grow(i, n) =>
        var e := At(pages, pageSize, tids[i]);
        e.Live? ==>
          && |e.bytes| < n && tids[i].page < |pages| && pages[tids[i].page].freeSpace + |e.bytes| <= n
          && (pageSize < n + TID + HEADER + SLOT || PAGE_ID_LIMIT <= |pages| || SomeHintBeyond(pages))
  }

  lemma StopExcused(s: SPSegment, tids: seq<Tid>, c: Contents, call: Call)
    requires s.Valid() && |tids| == |c| && Stops(s, tids, c, call)
    ensures Excused(s.pages, s.pageSize, tids, c, call)
  {
  }

  /** One record changed, and so did its contents. */
  lemma ChangeAgrees(before: seq<Page>, after: seq<Page>, pageSize: nat, tids: seq<Tid>, c: Contents, i: nat,
                     r: Option<seq<Byte>>)
    requires PagesOk(before, pageSize) && PagesOk(after, pageSize) && Agrees(before, pageSize, tids, c)
    requires i < |c| && c[i].Some? && OnlyRecord(before, after, pageSize, tids[i], r)
    ensures Agrees(after, pageSize, tids, c[i := r])
  {
    var d := c[i := r];
    forall t: Tid | RecordAt(after, pageSize, t).Some?
      ensures exists k :: 0 <= k < |d| && d[k].Some? && tids[k] == t
    {
      if t == tids[i] {
        assert d[i].Some?;
      } else {
        assert RecordAt(before, pageSize, t).Some?;
        var k :| 0 <= k < |c| && c[k].Some? && tids[k] == t;
        assert d[k].Some?;
      }
    }
  }

  /** A record was added under a tuple id that stood for none. */
  lemma GainAgrees(before: seq<Page>, after: seq<Page>, pageSize: nat, tids: seq<Tid>, c: Contents, t: Tid, n: nat)
    requires PagesOk(before, pageSize) && PagesOk(after, pageSize) && Agrees(before, pageSize, tids, c)
    requires Gained(before, after, pageSize, t, n)
    ensures Agrees(after, pageSize, tids + [t], c + [Some(Zeros(n))])
  {
    var d, all := c + [Some(Zeros(n))], tids + [t];
    assert RecordAt(before, pageSize, t).None?;
    forall x: Tid | RecordAt(after, pageSize, x).Some?
      ensures exists k :: 0 <= k < |d| && d[k].Some? && all[k] == x
    {
      if x == t {
        assert all[|c|] == t && d[|c|].Some?;
      } else {
        assert RecordAt(before, pageSize, x).Some?;
        var k :| 0 <= k < |c| && c[k].Some? && tids[k] == x;
        assert d[k].Some? && all[k] == x;
      }
    }
  }

  /** A record that is not behind a redirect is stored directly. */
  lemma DirectIs(pages: seq<Page>, pageSize: nat, t: Tid)
    requires PagesOk(pages, pageSize) && RecordAt(pages, pageSize, t).Some?
    ensures !At(pages, pageSize, t).Vacant?
    ensures At(pages, pageSize, t).Live? ==>
              !At(pages, pageSize, t).target && RecordAt(pages, pageSize, t) == Some(At(pages, pageSize, t).bytes)
  {
  }

  /** Whether the record under `t` is stored where `t` says. */
  method IsDirect(s: SPSegment, t: Tid) returns (direct: bool)
    requires s.Valid() && RecordAt(s.pages, s.pageSize, t).Some?
    ensures direct <==> At(s.pages, s.pageSize, t).Live?
    ensures direct <==> !At(s.pages, s.pageSize, t).Moved?
    ensures direct ==> !At(s.pages, s.pageSize, t).target
    ensures direct ==> RecordAt(s.pages, s.pageSize, t) == Some(At(s.pages, s.pageSize, t).bytes)
  {
    DirectIs(s.pages, s.pageSize, t);
    Readable(s.pages, s.pageSize, t);
    direct := !s.pages[t.page].slots[t.slot].Redirect?;
  }

  /** Whether `resize` may be called to give the directly stored record `n` bytes. */
  method MayGrow(s: SPSegment, t: Tid, n: nat) returns (may: bool)
    requires s.Valid() && At(s.pages, s.pageSize, t).Live?
    ensures may <==> (s.MustMove(t, n) ==> n + TID + HEADER + SLOT <= s.pageSize && |s.pages| < PAGE_ID_LIMIT)
  {
    hide Layout, PageOk, LinksOk, OneChanged;
    Readable(s.pages, s.pageSize, t);
    var page := s.pages[t.page];
    var size := page.slots[t.slot].size;
    may := n <= size || n < page.freeSpace + size || (n + TID + HEADER + SLOT <= s.pageSize && |s.pages| < PAGE_ID_LIMIT);
  }

  /** One call, unless the run must stop before it. */
  method Issue(s: SPSegment, tids: seq<Tid>, c: Contents, call: Call) returns (ok: bool, now: seq<Tid>)
    requires s.Valid() && Agrees(s.pages, s.pageSize, tids, c)
    modifies s`pages, s.fsi`frames, s.fsi`slottedPages
    ensures !ok <==> old(Stops(s, tids, c, call))
    ensures !ok ==> s.pages == old(s.pages) && now == tids
    ensures s.Valid() && (ok ==> |now| == |Apply(c, call)| && Agrees(s.pages, s.pageSize, now, Apply(c, call)))
    ensures !call.Drop? && !SomeHintBeyond(old(s.pages)) ==> !SomeHintBeyond(s.pages)
  {
    hide SPSegment.HintFails, SPSegment.MustMove, SPSegment.Conservative, FSISegment.Valid, OnlyRecord, OneChanged, RecordAt, At, LinksOk, PagesOk;
    now := tids;
    ok := Sensible(c, call, s.pageSize);
    if !ok {
      return;
    }
    ghost var before := s.pages;
    match call {
      case New(n) =>
        var t := s.Allocate(n);
        ok := t.Some?;
        if ok {
          now := tids + [t.value];
          GainAgrees(before, s.pages, s.pageSize, tids, c, t.value, n);
        }
      case Put(i, bytes) =>
        ok := IsDirect(s, tids[i]);
        if ok {
          s.Write(tids[i], bytes);
          ChangeAgrees(before, s.pages, s.pageSize, tids, c, i, Apply(c, call)[i]);
        }
      case Grow(i, n) =>
        ok := IsDirect(s, tids[i]);
        if ok {
          ok := MayGrow(s, tids[i], n);
        }
        if ok {
          ok := s.Resize(tids[i], n);
        }
        if ok {
          ChangeAgrees(before, s.pages, s.pageSize, tids, c, i, Apply(c, call)[i]);
        }
      case Drop(i) =>
        ok := IsDirect(s, tids[i]);
        if ok {
          s.Erase(tids[i]);
          ChangeAgrees(before, s.pages, s.pageSize, tids, c, i, None);
        }
    }
  }

  /** What the calls on record `i` alone make of it. */
  function Alone(r: Option<seq<Byte>>, calls: seq<Call>, i: nat): Option<seq<Byte>>
    decreases |calls|
  {
    if calls == [] then r
    else
      Alone(match calls[0]
            case Put(k, bytes) =>
              if k == i && r.Some? && |bytes| <= |r.value| then Some(bytes + r.value[|bytes|..]) else r
            case Grow(k, n) => if k == i && r.Some? then Some(Resized(r.value, n)) else r
            case Drop(k) => if k == i then None else r
            case New(_) => r,
            calls[1..], i)
  }

  /** Calls on other records leave no trace in this one. */
  lemma {:induction false} OthersLeaveNoTrace(c: Contents, calls: seq<Call>, i: nat)
    requires i < |c|
    ensures i < |ApplyAll(c, calls)| && ApplyAll(c, calls)[i] == Alone(c[i], calls, i)
    decreases |calls|
  {
    if calls != [] {
      OthersLeaveNoTrace(Apply(c, calls[0]), calls[1..], i);
    }
  }

  /** A run on a new segment: the tuple ids it returned stand for exactly what the calls made. */
  method Run(pageSize: nat, calls: seq<Call>) returns (s: SPSegment, done: nat, tids: seq<Tid>)
    requires HEADER + SLOT <= pageSize < PAGE_LIMIT
    ensures fresh(s) && s.Valid() && s.pageSize == pageSize && done <= |calls|
    ensures var c := ApplyAll([], calls[..done]); |tids| == |c| && Agrees(s.pages, pageSize, tids, c)
    ensures done < |calls| ==> Excused(s.pages, pageSize, tids, ApplyAll([], calls[..done]), calls[done])
    ensures (forall c :: c in calls[..done] ==> !c.Drop?) ==> !SomeHintBeyond(s.pages)
    ensures (forall c :: c in calls ==> c.New? && 0 < c.n <= pageSize - HEADER - SLOT) ==> done == |calls|
  {
    hide Sensible, Stops, Excused, Agrees, Apply, PageOk, LinksOk, SPSegment.Conservative, LookUpTable, Level, Covers, Encode;
    s := new SPSegment(pageSize);
    done, tids := 0, [];
    var c: Contents := [];
    NothingThere(pageSize);
    var ok := true;
    while ok && done < |calls|
      invariant done <= |calls| && fresh(s) && fresh(s.fsi) && s.Valid() && s.pageSize == pageSize
      invariant c == ApplyAll([], calls[..done]) && |tids| == |c| && Agrees(s.pages, pageSize, tids, c)
      invariant !ok ==> done < |calls| && Excused(s.pages, pageSize, tids, c, calls[done])
      invariant (forall c :: c in calls[..done] ==> !c.Drop?) ==> !SomeHintBeyond(s.pages)
      decreases |calls| - done, ok
    {
      if Stops(s, tids, c, calls[done]) {
        StopExcused(s, tids, c, calls[done]);
      }
      ok, tids := Issue(s, tids, c, calls[done]);
      if ok {
        Snoc([], calls[..done], calls[done]);
        assert calls[..done] + [calls[done]] == calls[..done + 1];
        c := Apply(c, calls[done]);
        done := done + 1;
      }
    }
    if done < |calls| && forall c :: c in calls ==> c.New? && 0 < c.n <= pageSize - HEADER - SLOT {
      Unexcused(s.pages, pageSize, tids, c, calls, done);
    }
  }

  /** Before anything is erased, allocations of fitting sizes go on. */
  lemma Unexcused(pages: seq<Page>, pageSize: nat, tids: seq<Tid>, c: Contents, calls: seq<Call>, done: nat)
    requires PagesOk(pages, pageSize) && |tids| == |c| && done < |calls|
    requires forall x :: x in calls ==> x.New? && 0 < x.n <= pageSize - HEADER - SLOT
    requires (forall x :: x in calls[..done] ==> !x.Drop?) ==> !SomeHintBeyond(pages)
    ensures !Excused(pages, pageSize, tids, c, calls[done])
  {
    assert calls[done] in calls && forall x :: x in calls[..done] ==> x in calls;
  }

  lemma {:induction false} Snoc(c: Contents, calls: seq<Call>, call: Call)
    ensures ApplyAll(c, calls + [call]) == Apply(ApplyAll(c, calls), call)
    decreases |calls|
  {
    var all := calls + [call];
    if calls == [] {
      assert all[1..] == [];
    } else {
      assert all[1..] == calls[1..] + [call];
      Snoc(Apply(c, calls[0]), calls[1..], call);
    }
  }

  lemma NothingThere(pageSize: nat)
    requires HEADER + SLOT <= pageSize < PAGE_LIMIT
    ensures PagesOk([NewPage(pageSize)], pageSize) && Agrees([NewPage(pageSize)], pageSize, [], [])
  {
  }

  /** Reading record `i` after a run gives the first bytes of what the calls on it alone made of it. */
  method ReadAfter(pageSize: nat, calls: seq<Call>, i: nat, capacity: nat)
    returns (s: SPSegment, done: nat, tids: seq<Tid>, r: Option<seq<Byte>>)
    requires HEADER + SLOT <= pageSize < PAGE_LIMIT
    ensures fresh(s) && s.Valid() && s.pageSize == pageSize && done <= |calls|
    ensures |tids| == |ApplyAll([], calls[..done])|
    ensures done < |calls| ==> Excused(s.pages, pageSize, tids, ApplyAll([], calls[..done]), calls[done])
    ensures var c := ApplyAll([], calls[..done]);
            r == if i < |c| && c[i].Some? && capacity <= |c[i].value| then Some(c[i].value[..capacity]) else None
  {
    s, done, tids := Run(pageSize, calls);
    hide Excused;
    var c := ApplyAll([], calls[..done]);
    r := None;
    if i < |c| && c[i].Some? && capacity <= |c[i].value| {
      var bytes := s.Read(tids[i], capacity);
      r := Some(bytes);
    }
  }
}
