/**
  What holds of every run of the lock manager in which addWaiters does not throw.
  Source: task-lock-manager/src/lock_manager.cc:19-35, 68-122, 182-213.
  */
module LockTheorems {
  import opened Collections
  import opened WaitsFor
  import opened LockProtocol
  import opened LockSteps

  lemma StepInv(s: State, step: Step)
    requires Inv(s) && Enabled(s, step)
    ensures Inv(Apply(s, step))
  {
    match step
    case TryLock(t, i, mode) => TryLockInv(s, t, i, mode);
    case Wait(t, i, mode) => WaitInv(s, t, i, mode);
    case Obtain(t) => ObtainInv(s, t);
    case Register(t) => RegisterInv(s, t);
    case Begin(t) => BeginInv(s, t);
    case Withdraw(t) => WithdrawInv(s, t);
    case Unlock(t) => UnlockInv(s, t);
  }

  /** The state after a run, or None if some step is not enabled. */
  ghost function Run(s: State, steps: seq<Step>): Option<State>
    decreases |steps|
  {
    if steps == [] then Some(s)
    else if !Enabled(s, steps[0]) then None
    else Run(Apply(s, steps[0]), steps[1..])
  }

  ghost predicate Reachable(s: State) {
    exists s0, steps :: Init(s0) && Run(s0, steps) == Some(s)
  }

  lemma {:induction false} RunInv(s: State, steps: seq<Step>)
    requires Inv(s) && Run(s, steps).Some?
    ensures Inv(Run(s, steps).value)
    decreases |steps|
  {
    if steps != [] {
      StepInv(s, steps[0]);
      RunInv(Apply(s, steps[0]), steps[1..]);
    }
  }

  lemma ReachableInv(s: State)
    requires Reachable(s)
    ensures Inv(s)
  {
    var s0, steps :| Init(s0) && Run(s0, steps) == Some(s);
    InitInv(s0);
    RunInv(s0, steps);
  }

  // ---------- the theorems ----------

  /** Every registered waiter of a lock has an edge to every registered owner whose destructor has not begun. */
  lemma WaitersSeeOwners(s: State, i: Item, w: Txn, o: Txn)
    requires Reachable(s)
    requires w in LockOf(s, i).waiters && o in LockOf(s, i).owners && !Of(s, o).pc.Ending?
    ensures Edge(s.graph, w, o)
  {
    ReachableInv(s);
    assert EdgesOk(s, i);
  }

  /** A destructor that comes to unlock a mutex finds it held, by itself, in the mode it unlocks. */
  lemma ReleasedAsAcquired(s: State, t: Txn)
    requires Reachable(s) && Enabled(s, Unlock(t))
    ensures var l := LockOf(s, Of(s, t).locks[Of(s, t).pc.next]);
            t in l.holders && l.ownership == l.holders[t] != Unlocked
    ensures !Apply(s, Unlock(t)).misused
  {
    ReachableInv(s);
    var i := Of(s, t).locks[Of(s, t).pc.next];
    assert TxnOk(Of(s, t)) && PairOk(t, Of(s, t), i, LockOf(s, i));
    NextOnce(Of(s, t));
  }

  /** Two transactions that share a lock both have it in shared mode; an owner has it in the mode on record. */
  lemma OwnersAgree(s: State, i: Item, t: Txn, u: Txn)
    requires Reachable(s) && t in LockOf(s, i).owners && u in LockOf(s, i).owners && t != u
    ensures LockOf(s, i).ownership == Shared
    ensures t in LockOf(s, i).holders && u in LockOf(s, i).holders
    ensures LockOf(s, i).holders[t] == LockOf(s, i).holders[u] == Shared
  {
    ReachableInv(s);
    assert PairOk(t, Of(s, t), i, LockOf(s, i)) && PairOk(u, Of(s, u), i, LockOf(s, i)) && Excludes(LockOf(s, i));
    ListedHeld(Of(s, t), i);
    ListedHeld(Of(s, u), i);
  }

  lemma ListedHeld(me: TxnState, i: Item)
    requires i in Listed(me)
    ensures i in Held(me)
  {
  }

  /** A transaction whose destructor is through owns nothing, waits for nothing and holds no mutex. */
  lemma EndedHoldsNothing(s: State, t: Txn, i: Item)
    requires Reachable(s) && Of(s, t).pc.Ending? && Of(s, t).pc.next == |Of(s, t).locks|
    ensures t !in LockOf(s, i).owners && t !in LockOf(s, i).waiters && t !in LockOf(s, i).holders
  {
    ReachableInv(s);
    assert TxnOk(Of(s, t)) && PairOk(t, Of(s, t), i, LockOf(s, i));
  }

  /** `t` waits for a mutex that `u` holds in a mode that keeps `t` out. */
  ghost predicate BlockedBy(s: State, t: Txn, u: Txn) {
    && Of(s, t).pc.Waiting?
    && var l := LockOf(s, Of(s, t).pc.item);
       u in l.holders && (Of(s, t).pc.mode == Exclusive || l.holders[u] != Shared)
  }

  /** A waiting transaction gets the mutex exactly when nobody's holding it keeps it out. */
  lemma OnlyHoldersBlock(s: State, t: Txn)
    requires Reachable(s) && Of(s, t).pc.Waiting?
    ensures Enabled(s, Obtain(t)) <==> forall u :: !BlockedBy(s, t, u)
  {
    ReachableInv(s);
    var l := LockOf(s, Of(s, t).pc.item);
    assert TxnOk(Of(s, t)) && Excludes(l);
    hide Inv;
    if !Enabled(s, Obtain(t)) {
      var u :| u in l.holders && (Of(s, t).pc.mode == Shared ==> l.holders[u] != Shared);
      assert BlockedBy(s, t, u);
    }
  }

  lemma BlockIsEdge(s: State, t: Txn, u: Txn)
    requires Inv(s) && BlockedBy(s, t, u) && Of(s, u).pc.Waiting?
    ensures Edge(s.graph, t, u)
  {
    var i := Of(s, t).pc.item;
    assert PairOk(t, Of(s, t), i, LockOf(s, i)) && PairOk(u, Of(s, u), i, LockOf(s, i)) && EdgesOk(s, i);
  }

  ghost predicate BlockedWithin(s: State, t: Txn, stuck: set<Txn>) {
    exists u :: u in stuck && BlockedBy(s, t, u)
  }

  lemma BlockedLeads(s: State, t: Txn, stuck: set<Txn>)
    requires Inv(s) && BlockedWithin(s, t, stuck) && forall u :: u in stuck ==> Of(s, u).pc.Waiting?
    ensures LeadsWithin(s.graph, t, stuck)
  {
    var u :| u in stuck && BlockedBy(s, t, u);
    BlockIsEdge(s, t, u);
  }

  /** No deadlock: among transactions that wait there is always one that none of them blocks. */
  lemma NoDeadlock(s: State, stuck: set<Txn>)
    requires Reachable(s) && stuck != {}
    requires forall t :: t in stuck ==> Of(s, t).pc.Waiting?
    ensures exists t :: t in stuck && !BlockedWithin(s, t, stuck)
  {
    ReachableInv(s);
    NoClosedSet(s.graph, stuck);
    var t :| t in stuck && !LeadsWithin(s.graph, t, stuck);
    hide Reachable, BlockedWithin, LeadsWithin, Of;
    if BlockedWithin(s, t, stuck) {
      BlockedLeads(s, t, stuck);
    }
  }

  ghost predicate LeadsWithin(g: Graph, t: Txn, nodes: set<Txn>) {
    exists u :: u in nodes && Edge(g, t, u)
  }

  lemma NoClosedSet(g: Graph, nodes: set<Txn>)
    requires Acyclic(g) && nodes != {}
    ensures exists t :: t in nodes && !LeadsWithin(g, t, nodes)
  {
    if forall t :: t in nodes ==> LeadsWithin(g, t, nodes) {
      var p := LongWalk(g, nodes, |nodes| + 1);
      Pigeonhole(p, nodes);
    }
  }

  lemma {:induction false} LongWalk(g: Graph, nodes: set<Txn>, n: nat) returns (p: seq<Txn>)
    requires nodes != {} && 0 < n
    requires forall t :: t in nodes ==> LeadsWithin(g, t, nodes)
    ensures Walk(g, p) && |p| == n && forall x :: x in p ==> x in nodes
  {
    if n == 1 {
      var x :| x in nodes;
      p := [x];
    } else {
      var q := LongWalk(g, nodes, n - 1);
      var last := q[n - 2];
      assert last in q && LeadsWithin(g, last, nodes);
      var u :| u in nodes && Edge(g, last, u);
      assert q == q[..n - 2] + [last];
      WalkAppend(g, q[..n - 2], last, u);
      p := q + [u];
    }
  }

  lemma {:induction false} Pigeonhole(p: seq<Txn>, nodes: set<Txn>)
    requires |nodes| < |p| && forall x :: x in p ==> x in nodes
    ensures Repeats(p)
    decreases |p|
  {
    var n := |p| - 1;
    var x := p[n];
    if x in p[..n] {
      var i :| 0 <= i < n && p[..n][i] == x;
      assert p[i] == p[n];
    } else {
      forall y | y in p[..n] ensures y in nodes - {x} {
        assert y in p;
      }
      Pigeonhole(p[..n], nodes - {x});
      var i, j :| 0 <= i < j < n && p[..n][i] == p[..n][j];
      assert p[i] == p[j];
    }
  }
}
