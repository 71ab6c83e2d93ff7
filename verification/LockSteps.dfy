/** Every step of the lock protocol keeps the invariant. Source: task-lock-manager/src/lock_manager.cc. */
module LockSteps {
  import opened WaitsFor
  import opened LockProtocol

  /** `r` differs from `s` in transaction `t` and lock `i` at most, apart from the graph. */
  ghost predicate Local(s: State, r: State, t: Txn, me: TxnState, i: Item, l: Lock) {
    && (forall u: Txn :: Of(r, u) == if u == t then me else Of(s, u))
    && (forall j: Item :: LockOf(r, j) == if j == i then l else LockOf(s, j))
  }

  /** The pairs an update of `t` and `i` touches. */
  ghost predicate PairsOk(s: State, t: Txn, me: TxnState, i: Item, l: Lock) {
    && PairOk(t, me, i, l)
    && (forall u: Txn :: u != t ==> PairOk(u, Of(s, u), i, l))
    && (forall j: Item :: j != i ==> PairOk(t, me, j, LockOf(s, j)))
  }

  lemma Put(s: State, r: State, t: Txn, me: TxnState, i: Item, l: Lock)
    requires Inv(s) && Local(s, r, t, me, i, l)
    requires TxnOk(me) && PairsOk(s, t, me, i, l) && Excludes(l)
    requires forall j: Item :: EdgesOk(r, j)
    requires Acyclic(r.graph) && !r.misused
    ensures Inv(r)
  {
    forall u: Txn, j: Item ensures PairOk(u, Of(r, u), j, LockOf(r, j)) {
      assert PairOk(u, Of(s, u), j, LockOf(s, j));
    }
    forall u: Txn ensures TxnOk(Of(r, u)) {
      assert TxnOk(Of(s, u));
    }
    forall j: Item ensures Excludes(LockOf(r, j)) {
      assert Excludes(LockOf(s, j));
    }
  }

  lemma InitInv(s: State)
    requires Init(s)
    ensures Inv(s)
  {
    forall p | Walk(s.graph, p) ensures !Repeats(p) {
      assert |p| < 2 || Edge(s.graph, p[0], p[1]);
    }
  }

  // ---------- a new owner: TryLock and Register ----------

  /** What both do: `t` holds the mutex of `i` in `mode` and is now an owner; `waiters` are who still waits. */
  lemma NewOwnerPairs(s: State, t: Txn, i: Item, mode: Mode, waiters: seq<Txn>, holders: map<Txn, Mode>, me: TxnState, l: Lock)
    requires Inv(s) && mode != Unlocked && i !in Of(s, t).locks
    requires me == TxnState(Running, Of(s, t).locks + [i])
    requires Of(s, t).pc.Running? || Of(s, t).pc == Granted(i, mode)
    requires forall w :: w in waiters <==> w in LockOf(s, i).waiters && w != t
    requires holders == LockOf(s, i).holders[t := mode]
    requires forall u :: u in LockOf(s, i).holders && u != t ==> mode == Shared == LockOf(s, i).holders[u]
    requires l == Lock(LockOf(s, i).owners + [t], waiters, mode, holders)
    ensures TxnOk(me) && PairsOk(s, t, me, i, l) && Excludes(l)
  {
    assert TxnOk(Of(s, t));
    forall u: Txn | u != t ensures PairOk(u, Of(s, u), i, l) {
      assert PairOk(u, Of(s, u), i, LockOf(s, i));
      if i in Held(Of(s, u)) {
        assert u in LockOf(s, i).holders;
      }
    }
    forall j: Item | j != i ensures PairOk(t, me, j, LockOf(s, j)) {
      assert PairOk(t, Of(s, t), j, LockOf(s, j));
    }
  }

  lemma NewOwnerEdges(s: State, r: State, t: Txn, i: Item, waiters: seq<Txn>, me: TxnState, l: Lock)
    requires Inv(s) && Local(s, r, t, me, i, l) && me.pc.Running? && !Of(s, t).pc.Ending?
    requires l.owners == LockOf(s, i).owners + [t] && l.waiters == waiters
    requires forall w :: w in waiters ==> w in LockOf(s, i).waiters
    requires r.graph == WithWaiters(s.graph, t, waiters)
    ensures forall j: Item :: EdgesOk(r, j)
  {
    WithWaitersIs(s.graph, t, waiters);
    forall j: Item ensures EdgesOk(r, j) {
      assert EdgesOk(s, j);
      forall w, o | w in LockOf(r, j).waiters && o in LockOf(r, j).owners && !Of(r, o).pc.Ending?
        ensures Edge(r.graph, w, o)
      {
        if j != i || o != t {
          assert w in LockOf(s, j).waiters && o in LockOf(s, j).owners;
          assert Edge(s.graph, w, o);
        }
      }
    }
  }

  lemma TryLockInv(s: State, t: Txn, i: Item, mode: Mode)
    requires Inv(s) && Enabled(s, TryLock(t, i, mode))
    ensures Inv(Apply(s, TryLock(t, i, mode)))
  {
    var r := Apply(s, TryLock(t, i, mode));
    var l, me := LockOf(r, i), Of(r, t);
    assert PairOk(t, Of(s, t), i, LockOf(s, i));
    NewOwnerPairs(s, t, i, mode, l.waiters, l.holders, me, l);
    NewOwnerEdges(s, r, t, i, l.waiters, me, l);
    WaitersExact(s.graph, t, l.waiters);
    Put(s, r, t, me, i, l);
  }

  lemma RegisterInv(s: State, t: Txn)
    requires Inv(s) && Enabled(s, Register(t))
    ensures Inv(Apply(s, Register(t)))
  {
    var r := Apply(s, Register(t));
    var i, mode := Of(s, t).pc.item, Of(s, t).pc.mode;
    var l, me := LockOf(r, i), Of(r, t);
    assert TxnOk(Of(s, t)) && PairOk(t, Of(s, t), i, LockOf(s, i)) && Excludes(LockOf(s, i));
    assert LockOf(s, i).holders == LockOf(s, i).holders[t := mode];
    SharedWithOthers(s, t, i, mode);
    NewOwnerPairs(s, t, i, mode, l.waiters, l.holders, me, l);
    NewOwnerEdges(s, r, t, i, l.waiters, me, l);
    WaitersExact(s.graph, t, l.waiters);
    Put(s, r, t, me, i, l);
  }

  lemma SharedWithOthers(s: State, t: Txn, i: Item, mode: Mode)
    requires Inv(s) && t in LockOf(s, i).holders && LockOf(s, i).holders[t] == mode
    ensures forall u :: u in LockOf(s, i).holders && u != t ==> mode == Shared == LockOf(s, i).holders[u]
  {
    assert Excludes(LockOf(s, i));
  }

  // ---------- the other steps ----------

  lemma WaitPairs(s: State, t: Txn, i: Item, mode: Mode, me: TxnState, l: Lock)
    requires Inv(s) && Of(s, t).pc.Running? && i !in Of(s, t).locks && mode != Unlocked
    requires me == Of(s, t).(pc := Waiting(i, mode))
    requires l == LockOf(s, i).(waiters := LockOf(s, i).waiters + [t])
    ensures TxnOk(me) && PairsOk(s, t, me, i, l) && Excludes(l)
  {
    assert TxnOk(Of(s, t)) && PairOk(t, Of(s, t), i, LockOf(s, i)) && Excludes(LockOf(s, i));
    forall u: Txn | u != t ensures PairOk(u, Of(s, u), i, l) {
      assert PairOk(u, Of(s, u), i, LockOf(s, i));
    }
    forall j: Item | j != i ensures PairOk(t, me, j, LockOf(s, j)) {
      assert PairOk(t, Of(s, t), j, LockOf(s, j));
    }
  }

  /** The transaction is a waiter of nothing, so no edge another one needs is lost. */
  lemma RefusedEdges(s: State, t: Txn, i: Item, g: Graph)
    requires Inv(s) && Of(s, t).pc.Running?
    requires forall a, b :: a != t && Edge(s.graph, a, b) ==> Edge(g, a, b)
    ensures forall j: Item :: EdgesOk(s.(graph := g), j)
  {
    forall j: Item ensures EdgesOk(s.(graph := g), j) {
      assert EdgesOk(s, j) && PairOk(t, Of(s, t), j, LockOf(s, j));
    }
  }

  lemma OnlyGraph(s: State, g: Graph)
    requires Inv(s) && Acyclic(g) && forall j: Item :: EdgesOk(s.(graph := g), j)
    ensures Inv(s.(graph := g))
  {
    var r := s.(graph := g);
    forall t: Txn ensures TxnOk(Of(r, t)) {
      assert TxnOk(Of(s, t)) && Of(r, t) == Of(s, t);
    }
    forall t: Txn, i: Item ensures PairOk(t, Of(r, t), i, LockOf(r, i)) && Excludes(LockOf(r, i)) {
      assert PairOk(t, Of(s, t), i, LockOf(s, i)) && Excludes(LockOf(s, i));
    }
    forall i: Item ensures Excludes(LockOf(r, i)) {
      assert Excludes(LockOf(s, i));
    }
  }

  lemma WaitEdges(s: State, r: State, t: Txn, i: Item, me: TxnState, l: Lock)
    requires Inv(s) && Local(s, r, t, me, i, l) && !Of(s, t).pc.Ending?
    requires l.owners == LockOf(s, i).owners && l.waiters == LockOf(s, i).waiters + [t]
    requires forall a, b :: Edge(r.graph, a, b) <==> Edge(s.graph, a, b) || (a == t && b in LockOf(s, i).owners)
    requires Of(s, t).pc.Running?
    ensures forall j: Item :: EdgesOk(r, j)
  {
    forall j: Item ensures EdgesOk(r, j) {
      assert EdgesOk(s, j) && PairOk(t, Of(s, t), j, LockOf(s, j));
      forall w, o | w in LockOf(r, j).waiters && o in LockOf(r, j).owners && !Of(r, o).pc.Ending?
        ensures Edge(r.graph, w, o)
      {
        if w != t {
          assert w in LockOf(s, j).waiters && !Of(s, o).pc.Ending?;
        }
      }
    }
  }

  lemma WaitInv(s: State, t: Txn, i: Item, mode: Mode)
    requires Inv(s) && Enabled(s, Wait(t, i, mode))
    ensures Inv(Apply(s, Wait(t, i, mode)))
  {
    var r := Apply(s, Wait(t, i, mode));
    var owners := LockOf(s, i).owners;
    WaitsForExact(s.graph, t, owners);
    WithEdgesIs(s.graph, t, owners);
    hide PairOk, TxnOk, Excludes, PairsOk, EdgesOk, WithEdges, WaitCloses, Acyclic;
    if WaitCloses(s.graph, t, owners) {
      RefusedEdges(s, t, i, WithEdges(s.graph, t, owners) - {t});
      OnlyGraph(s, WithEdges(s.graph, t, owners) - {t});
    } else {
      var l, me := LockOf(r, i), Of(r, t);
      WaitPairs(s, t, i, mode, me, l);
      WaitEdges(s, r, t, i, me, l);
      Put(s, r, t, me, i, l);
    }
  }

  lemma ObtainPairs(s: State, t: Txn, me: TxnState, i: Item, l: Lock)
    requires Inv(s) && Enabled(s, Obtain(t)) && i == Of(s, t).pc.item
    requires me == Of(s, t).(pc := Granted(i, Of(s, t).pc.mode))
    requires l == LockOf(s, i).(holders := LockOf(s, i).holders[t := Of(s, t).pc.mode])
    ensures TxnOk(me) && PairsOk(s, t, me, i, l) && Excludes(l)
  {
    assert TxnOk(Of(s, t)) && PairOk(t, Of(s, t), i, LockOf(s, i)) && Excludes(LockOf(s, i));
    forall u: Txn | u != t ensures PairOk(u, Of(s, u), i, l) {
      assert PairOk(u, Of(s, u), i, LockOf(s, i));
    }
    forall j: Item | j != i ensures PairOk(t, me, j, LockOf(s, j)) {
      assert PairOk(t, Of(s, t), j, LockOf(s, j));
    }
  }

  lemma ObtainInv(s: State, t: Txn)
    requires Inv(s) && Enabled(s, Obtain(t))
    ensures Inv(Apply(s, Obtain(t)))
  {
    var r := Apply(s, Obtain(t));
    var i := Of(s, t).pc.item;
    var l, me := LockOf(r, i), Of(r, t);
    ObtainPairs(s, t, me, i, l);
    hide PairOk, TxnOk, Excludes, PairsOk, EdgesOk;
    FewerOwners(s, r, t, i, me, l);
    Put(s, r, t, me, i, l);
  }

  lemma BeginInv(s: State, t: Txn)
    requires Inv(s) && Enabled(s, Begin(t))
    ensures Inv(Apply(s, Begin(t)))
  {
    var r := Apply(s, Begin(t));
    var me := Of(r, t);
    WithoutIs(s.graph, t);
    WithoutKeeps(s.graph, t);
    assert TxnOk(Of(s, t));
    assert Held(me) == Held(Of(s, t)) == Listed(me);
    forall j: Item ensures EdgesOk(r, j) && PairOk(t, me, j, LockOf(s, j)) {
      assert EdgesOk(s, j) && PairOk(t, Of(s, t), j, LockOf(s, j));
      forall w, o | w in LockOf(r, j).waiters && o in LockOf(r, j).owners && !Of(r, o).pc.Ending?
        ensures Edge(r.graph, w, o)
      {
        assert Edge(s.graph, w, o) && w != t && o != t;
      }
    }
    var i :| i == 0;
    assert PairsOk(s, t, me, i, LockOf(s, i)) by {
      forall u: Txn | u != t ensures PairOk(u, Of(s, u), i, LockOf(s, i)) {
      }
    }
    assert Excludes(LockOf(s, i));
    Put(s, r, t, me, i, LockOf(s, i));
  }

  /** The lock a destructor is at is not among those it will come to. */
  lemma NextOnce(me: TxnState)
    requires TxnOk(me) && me.pc.Ending? && me.pc.next < |me.locks|
    ensures me.locks[me.pc.next..] == [me.locks[me.pc.next]] + me.locks[me.pc.next + 1..]
    ensures me.locks[me.pc.next] !in me.locks[me.pc.next + 1..]
  {
  }

  lemma WithdrawPairs(s: State, t: Txn, me: TxnState, i: Item, l: Lock)
    requires Inv(s) && Enabled(s, Withdraw(t)) && i == Of(s, t).locks[Of(s, t).pc.next]
    requires me == Of(s, t).(pc := Ending(Of(s, t).pc.next, true))
    requires l == LockOf(s, i).(owners := Filter(LockOf(s, i).owners, t))
    ensures TxnOk(me) && PairsOk(s, t, me, i, l) && Excludes(l)
  {
    assert TxnOk(Of(s, t)) && PairOk(t, Of(s, t), i, LockOf(s, i)) && Excludes(LockOf(s, i));
    NextOnce(Of(s, t));
    forall u: Txn | u != t ensures PairOk(u, Of(s, u), i, l) {
      assert PairOk(u, Of(s, u), i, LockOf(s, i));
    }
    forall j: Item | j != i ensures PairOk(t, me, j, LockOf(s, j)) {
      assert PairOk(t, Of(s, t), j, LockOf(s, j));
    }
  }

  /** The graph stays, the waiters stay, and owners only go. */
  lemma FewerOwners(s: State, r: State, t: Txn, i: Item, me: TxnState, l: Lock)
    requires Inv(s) && Local(s, r, t, me, i, l) && r.graph == s.graph && (Of(s, t).pc.Ending? <==> me.pc.Ending?)
    requires l.waiters == LockOf(s, i).waiters && forall o :: o in l.owners ==> o in LockOf(s, i).owners
    ensures forall j: Item :: EdgesOk(r, j)
  {
    forall j: Item ensures EdgesOk(r, j) {
      assert EdgesOk(s, j);
      forall o | o in LockOf(r, j).owners && !Of(r, o).pc.Ending? ensures !Of(s, o).pc.Ending? {
      }
    }
  }

  lemma WithdrawInv(s: State, t: Txn)
    requires Inv(s) && Enabled(s, Withdraw(t))
    ensures Inv(Apply(s, Withdraw(t)))
  {
    var r := Apply(s, Withdraw(t));
    var i := Of(s, t).locks[Of(s, t).pc.next];
    var l, me := LockOf(r, i), Of(r, t);
    WithdrawPairs(s, t, me, i, l);
    hide PairOk, TxnOk, Excludes, PairsOk, EdgesOk;
    FewerOwners(s, r, t, i, me, l);
    Put(s, r, t, me, i, l);
  }

  lemma UnlockPairs(s: State, t: Txn, me: TxnState, i: Item, l: Lock)
    requires Inv(s) && Enabled(s, Unlock(t)) && i == Of(s, t).locks[Of(s, t).pc.next]
    requires me == Of(s, t).(pc := Ending(Of(s, t).pc.next + 1, false))
    requires l == LockOf(s, i).(holders := LockOf(s, i).holders - {t})
    ensures TxnOk(me) && PairsOk(s, t, me, i, l) && Excludes(l)
    ensures t in LockOf(s, i).holders && LockOf(s, i).holders[t] == LockOf(s, i).ownership != Unlocked
  {
    assert TxnOk(Of(s, t)) && PairOk(t, Of(s, t), i, LockOf(s, i)) && Excludes(LockOf(s, i));
    NextOnce(Of(s, t));
    forall u: Txn | u != t ensures PairOk(u, Of(s, u), i, l) {
      assert PairOk(u, Of(s, u), i, LockOf(s, i));
    }
    forall j: Item | j != i ensures PairOk(t, me, j, LockOf(s, j)) {
      assert PairOk(t, Of(s, t), j, LockOf(s, j));
    }
  }

  lemma UnlockInv(s: State, t: Txn)
    requires Inv(s) && Enabled(s, Unlock(t))
    ensures Inv(Apply(s, Unlock(t)))
  {
    var r := Apply(s, Unlock(t));
    var i := Of(s, t).locks[Of(s, t).pc.next];
    var l, me := LockOf(r, i), Of(r, t);
    UnlockPairs(s, t, me, i, l);
    hide PairOk, TxnOk, Excludes, PairsOk, EdgesOk;
    FewerOwners(s, r, t, i, me, l);
    Put(s, r, t, me, i, l);
  }
}
