/**
  What a DeadLockError thrown by addWaitsFor says about the transactions that wait: every deadlock
  is reported, and in orderly runs nothing else is.
  Source: task-lock-manager/src/lock_manager.cc:68-112, 182-213.
  */
module DeadlockErrors {
  import opened Collections
  import opened WaitsFor
  import opened LockProtocol
  import opened LockTheorems
  import opened OrderlyRuns

  /** Each of `stuck`, with `t` among them, waits for another one of them. */
  ghost predicate Deadlock(s: State, t: Txn, stuck: set<Txn>) {
    t in stuck && forall x :: x in stuck ==> Of(s, x).pc.Waiting? && BlockedWithin(s, x, stuck)
  }

  /** acquireLock ends with the exception: `t` has no edges then, and no lock and no other transaction has changed. */
  ghost predicate Refused(s: State, t: Txn, i: Item, mode: Mode)
    requires Enabled(s, Wait(t, i, mode))
  {
    Apply(s, Wait(t, i, mode)) == s.(graph := WithEdges(s.graph, t, LockOf(s, i).owners) - {t})
  }

  /** It ends so if addWaitsFor throws; otherwise `t` waits and is registered. */
  lemma RefusedOrWaits(s: State, t: Txn, i: Item, mode: Mode)
    requires Enabled(s, Wait(t, i, mode))
    ensures Refused(s, t, i, mode) <==> WaitCloses(s.graph, t, LockOf(s, i).owners)
    ensures !Refused(s, t, i, mode) ==>
              var u := Apply(s, Wait(t, i, mode));
              Of(u, t) == Of(s, t).(pc := Waiting(i, mode)) && t in LockOf(u, i).waiters
  {
    hide WaitCloses, WithEdges;
    var u := Apply(s, Wait(t, i, mode));
    assert !WaitCloses(s.graph, t, LockOf(s, i).owners) ==> Of(u, t).pc.Waiting? && !Of(s, t).pc.Waiting?;
  }

  // ---------- every deadlock is reported ----------

  /** If waiting would complete a deadlock, addWaitsFor throws and the call is refused. */
  lemma DeadlockIsReported(s: State, t: Txn, i: Item, mode: Mode, stuck: set<Txn>)
    requires Reachable(s) && Enabled(s, Wait(t, i, mode)) && Deadlock(Asking(s, t, i, mode), t, stuck)
    ensures WaitCloses(s.graph, t, LockOf(s, i).owners) && Refused(s, t, i, mode)
  {
    ReachableInv(s);
    RefusedOrWaits(s, t, i, mode);
    var owners := LockOf(s, i).owners;
    var h := WithEdges(s.graph, t, owners);
    WaitsForExact(s.graph, t, owners);
    if Acyclic(h) {
      NoClosedSet(h, stuck);
      var x :| x in stuck && !LeadsWithin(h, x, stuck);
      AskingLeads(s, t, i, mode, stuck, x);
    }
  }

  lemma AskingLeads(s: State, t: Txn, i: Item, mode: Mode, stuck: set<Txn>, x: Txn)
    requires Inv(s) && Of(s, t).pc.Running? && Deadlock(Asking(s, t, i, mode), t, stuck) && x in stuck
    ensures LeadsWithin(WithEdges(s.graph, t, LockOf(s, i).owners), x, stuck)
  {
    hide Inv, WithEdges, Edge;
    var a := Asking(s, t, i, mode);
    assert BlockedWithin(a, x, stuck);
    var u :| u in stuck && BlockedBy(a, x, u);
    assert Of(a, u).pc.Waiting?;
    hide Deadlock, BlockedWithin, BlockedBy, Of;
    AskingEdge(s, t, i, mode, x, u);
    hide Asking, LockOf;
    WithEdgesIs(s.graph, t, LockOf(s, i).owners);
    assert Edge(WithEdges(s.graph, t, LockOf(s, i).owners), x, u);
  }

  /** Who keeps another out while `t` asks is an owner, so an edge leads there, or will. */
  lemma AskingEdge(s: State, t: Txn, i: Item, mode: Mode, x: Txn, u: Txn)
    requires Inv(s) && Of(s, t).pc.Running?
    requires BlockedBy(Asking(s, t, i, mode), x, u) && Of(Asking(s, t, i, mode), u).pc.Waiting?
    ensures Edge(s.graph, x, u) || (x == t && u in LockOf(s, i).owners)
  {
    AskingIs(s, t, i, mode, x);
    AskingIs(s, t, i, mode, u);
    hide Inv, Edge, Asking;
    if x == t {
      HolderOwns(s, i, u);
    } else {
      HolderOwns(s, Of(s, x).pc.item, u);
      WaiterLeads(s, x, u);
    }
  }

  /** Who has locked a mutex and is between calls, or waits for another, is registered as an owner. */
  lemma HolderOwns(s: State, i: Item, u: Txn)
    requires Inv(s) && u in LockOf(s, i).holders && (Of(s, u).pc.Running? || Of(s, u).pc.Waiting?)
    ensures u in LockOf(s, i).owners
  {
    assert PairOk(u, Of(s, u), i, LockOf(s, i));
  }

  lemma WaiterLeads(s: State, x: Txn, u: Txn)
    requires Inv(s) && Of(s, x).pc.Waiting? && u in LockOf(s, Of(s, x).pc.item).owners && !Of(s, u).pc.Ending?
    ensures Edge(s.graph, x, u)
  {
    var i := Of(s, x).pc.item;
    assert PairOk(x, Of(s, x), i, LockOf(s, i)) && EdgesOk(s, i);
  }

  // ---------- when an error means a deadlock ----------

  /** On a cycle that the new edges close everybody waits for the next one. */
  lemma CycleBlocks(s: State, t: Txn, i: Item, mode: Mode, c: seq<Txn>, m: nat)
    requires Inv(s) && Justified(s) && Of(s, t).pc.Running? && mode != Unlocked && !Free(LockOf(s, i), mode)
    requires Closed(WithEdges(s.graph, t, LockOf(s, i).owners), c) && m + 1 < |c|
    ensures BlockedBy(Asking(s, t, i, mode), c[m], c[m + 1])
  {
    var owners := LockOf(s, i).owners;
    var h := WithEdges(s.graph, t, owners);
    WithEdgesIs(s.graph, t, owners);
    var x, y := c[m], c[m + 1];
    assert Edge(h, x, y);
    if Edge(s.graph, x, y) {
      assert StandsForWait(s, x, y);
      var z := GoesOn(h, c, m + 1);
      assert y in h && !Of(s, y).pc.Ending?;
      hide Inv;
      BlockStays(s, Asking(s, t, i, mode), x, y);
    } else {
      OwnersBlock(s, t, i, mode, y);
    }
  }

  /** The nodes of the cycle are the deadlock. */
  lemma ErrorMeansDeadlock(s: State, t: Txn, i: Item, mode: Mode) returns (stuck: set<Txn>)
    requires Inv(s) && Justified(s) && Enabled(s, Wait(t, i, mode)) && !Free(LockOf(s, i), mode)
    requires WaitCloses(s.graph, t, LockOf(s, i).owners)
    ensures Deadlock(Asking(s, t, i, mode), t, stuck)
  {
    assert Acyclic(s.graph) && Of(s, t).pc.Running? && mode != Unlocked;
    var a := Asking(s, t, i, mode);
    hide Inv, Justified, Asking, LockOf, Free, Deadlock, Enabled;
    var c, k := ClosingCycle(s.graph, t, LockOf(s, i).owners);
    forall m | 0 <= m < |c| - 1 ensures BlockedBy(a, c[m], c[m + 1]) {
      CycleBlocks(s, t, i, mode, c, m);
    }
    stuck := StuckInCircle(a, c, k);
  }

  lemma ClosingCycle(g: Graph, t: Txn, owners: seq<Txn>) returns (c: seq<Txn>, k: nat)
    requires Acyclic(g) && WaitCloses(g, t, owners)
    ensures Closed(WithEdges(g, t, owners), c) && k < |c| - 1 && c[k] == t
  {
    WaitsForExact(g, t, owners);
    WithEdgesIs(g, t, owners);
    c := ClosedWalk(WithEdges(g, t, owners));
    k := BrokenStep(g, c);
    assert Edge(WithEdges(g, t, owners), c[k], c[k + 1]);
  }

  lemma StuckInCircle(s: State, c: seq<Txn>, k: nat) returns (stuck: set<Txn>)
    requires |c| >= 2 && c[0] == c[|c| - 1] && k < |c| - 1
    requires forall m :: 0 <= m < |c| - 1 ==> BlockedBy(s, c[m], c[m + 1])
    ensures Deadlock(s, c[k], stuck)
  {
    var d := c[..|c| - 1];
    stuck := Elements(d);
    assert d[k] in stuck;
    forall x | x in stuck ensures Of(s, x).pc.Waiting? && BlockedWithin(s, x, stuck) {
      var m :| 0 <= m < |d| && d[m] == x;
      var y := d[if m + 1 == |d| then 0 else m + 1];
      assert BlockedBy(s, x, y) && y in stuck;
      WaitsWhoIsBlocked(s, x, y);
    }
  }

  lemma WaitsWhoIsBlocked(s: State, x: Txn, y: Txn)
    requires BlockedBy(s, x, y)
    ensures Of(s, x).pc.Waiting?
  {
  }

  /** In an orderly run a wait for a taken mutex is refused if and only if it would complete a deadlock. */
  lemma ErrorIffDeadlock(s: State, t: Txn, i: Item, mode: Mode)
    requires OrderlyReachable(s) && Enabled(s, Wait(t, i, mode)) && !Free(LockOf(s, i), mode)
    ensures Refused(s, t, i, mode) <==> exists stuck: set<Txn> :: Deadlock(Asking(s, t, i, mode), t, stuck)
    ensures Refused(s, t, i, mode) <==> WaitCloses(s.graph, t, LockOf(s, i).owners)
  {
    OrderlyJustified(s);
    RefusedOrWaits(s, t, i, mode);
    hide Refused, WaitCloses, Enabled, Inv, Justified, Asking, Deadlock, Reachable, OrderlyReachable;
    if WaitCloses(s.graph, t, LockOf(s, i).owners) {
      var stuck := ErrorMeansDeadlock(s, t, i, mode);
    }
    forall stuck: set<Txn> | Deadlock(Asking(s, t, i, mode), t, stuck) ensures WaitCloses(s.graph, t, LockOf(s, i).owners) {
      DeadlockIsReported(s, t, i, mode, stuck);
    }
  }
}
