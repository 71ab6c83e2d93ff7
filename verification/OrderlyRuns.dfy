/**
  Runs in which every edge of the waits-for graph stands for a wait. The one way to lose this is a
  reader that becomes an owner while another reader is still queued for the same item: addWaiters
  then draws an edge between two transactions of which neither keeps the other out.
  Source: task-lock-manager/src/lock_manager.cc:19-35, 92-122, 182-213.
  */
module OrderlyRuns {
  import opened Collections
  import opened WaitsFor
  import opened LockProtocol
  import opened LockSteps
  import opened LockTheorems

  /** `a` waits for `b`, or for nothing: an owner that is ending has no edges and cannot close a cycle. */
  ghost predicate StandsForWait(s: State, a: Txn, b: Txn) {
    BlockedBy(s, a, b) || Of(s, b).pc.Ending?
  }

  ghost predicate Justified(s: State) {
    && (forall a, b :: Edge(s.graph, a, b) ==> StandsForWait(s, a, b))
    && (forall b :: Of(s, b).pc.Ending? ==> b !in s.graph)
  }

  /** Queued for a shared lock. */
  predicate QueuedReader(pc: Pc) { (pc.Waiting? || pc.Granted?) && pc.mode == Shared }

  /** A reader enters only when everybody else who is queued for the item asks for it exclusively. */
  ghost predicate InOrder(s: State, t: Txn, i: Item, mode: Mode) {
    mode == Shared ==> forall w :: w in LockOf(s, i).waiters && w != t ==> !QueuedReader(Of(s, w).pc)
  }

  /** And nobody waits for a mutex that is free: tries fail on taken ones only. */
  ghost predicate Orderly(s: State, step: Step) {
    match step
    case TryLock(t, i, mode) => InOrder(s, t, i, mode)
    case Register(t) => Of(s, t).pc.Granted? ==> InOrder(s, t, Of(s, t).pc.item, Of(s, t).pc.mode)
    case Wait(_, i, mode) => !Free(LockOf(s, i), mode)
    case _ => true
  }

  // ---------- orderly steps keep it ----------

  /** Blocks last while the mutex of the item is not given back and the blocked one still waits. */
  lemma BlockStays(s: State, r: State, a: Txn, b: Txn)
    requires BlockedBy(s, a, b) && Of(r, a).pc == Of(s, a).pc
    requires b in LockOf(r, Of(s, a).pc.item).holders
    requires LockOf(r, Of(s, a).pc.item).holders[b] == LockOf(s, Of(s, a).pc.item).holders[b]
    ensures BlockedBy(r, a, b)
  {
  }

  /** A queued transaction that `t` keeps out once it owns the item. */
  lemma QueueIsBlocked(s: State, t: Txn, i: Item, mode: Mode, w: Txn)
    requires Inv(s) && w in LockOf(s, i).waiters && w != t && InOrder(s, t, i, mode) && mode != Unlocked
    requires forall u :: u in LockOf(s, i).holders && u != t ==> mode == Shared == LockOf(s, i).holders[u]
    ensures Of(s, w).pc.Waiting? && Of(s, w).pc.item == i && (Of(s, w).pc.mode == Exclusive || mode == Exclusive)
  {
    assert PairOk(w, Of(s, w), i, LockOf(s, i)) && TxnOk(Of(s, w));
  }

  /** What TryLock and Register do: `t` is a new owner of `i`, and the queue behind it gets edges to it. */
  ghost predicate BecomesOwner(s: State, r: State, t: Txn, i: Item, mode: Mode, waiters: seq<Txn>) {
    && !Of(s, t).pc.Waiting? && !Of(s, t).pc.Ending? && Of(r, t).pc.Running? && mode != Unlocked
    && (forall u: Txn :: u != t ==> Of(r, u) == Of(s, u))
    && (forall j: Item :: j != i ==> LockOf(r, j) == LockOf(s, j))
    && LockOf(r, i).holders == LockOf(s, i).holders[t := mode]
    && (t in LockOf(s, i).holders ==> LockOf(s, i).holders[t] == mode)
    && (forall u :: u in LockOf(s, i).holders && u != t ==> mode == Shared == LockOf(s, i).holders[u])
    && (forall w :: w in waiters ==> w in LockOf(s, i).waiters && w != t)
    && r.graph == WithWaiters(s.graph, t, waiters)
  }

  lemma OwnerKeeps(s: State, r: State, t: Txn, i: Item, mode: Mode, waiters: seq<Txn>)
    requires Inv(s) && Justified(s) && BecomesOwner(s, r, t, i, mode, waiters) && InOrder(s, t, i, mode)
    ensures Justified(r)
  {
    WithWaitersIs(s.graph, t, waiters);
    forall a, b | Edge(r.graph, a, b) ensures StandsForWait(r, a, b) {
      if Edge(s.graph, a, b) {
        assert StandsForWait(s, a, b);
        OldEdgeStays(s, r, t, i, mode, waiters, a, b);
      } else {
        QueueIsBlocked(s, t, i, mode, a);
      }
    }
    WaitersRows(s, r, t, i, mode, waiters);
  }

  lemma OldEdgeStays(s: State, r: State, t: Txn, i: Item, mode: Mode, waiters: seq<Txn>, a: Txn, b: Txn)
    requires BecomesOwner(s, r, t, i, mode, waiters) && StandsForWait(s, a, b)
    ensures StandsForWait(r, a, b)
  {
    if BlockedBy(s, a, b) {
      BlockStays(s, r, a, b);
    }
  }

  /** Only queued transactions get rows, and none of them is ending. */
  lemma WaitersRows(s: State, r: State, t: Txn, i: Item, mode: Mode, waiters: seq<Txn>)
    requires Inv(s) && Justified(s) && BecomesOwner(s, r, t, i, mode, waiters)
    ensures forall b :: Of(r, b).pc.Ending? ==> b !in r.graph
  {
    WithWaitersRows(s.graph, t, waiters);
    forall b | Of(r, b).pc.Ending? ensures b !in r.graph {
      assert b != t && Of(s, b).pc.Ending?;
      assert PairOk(b, Of(s, b), i, LockOf(s, i));
    }
  }

  lemma {:induction false} WithWaitersRows(g: Graph, owner: Txn, waiters: seq<Txn>)
    ensures forall a :: a in WithWaiters(g, owner, waiters) <==> a in g || a in waiters
  {
    if waiters != [] {
      var n := |waiters| - 1;
      WithWaitersRows(g, owner, waiters[..n]);
      assert waiters == waiters[..n] + [waiters[n]];
    }
  }

  lemma TryLockOwner(s: State, t: Txn, i: Item, mode: Mode)
    requires Inv(s) && Enabled(s, TryLock(t, i, mode))
    ensures BecomesOwner(s, Apply(s, TryLock(t, i, mode)), t, i, mode, LockOf(s, i).waiters)
  {
    assert PairOk(t, Of(s, t), i, LockOf(s, i));
  }

  lemma RegisterOwner(s: State, t: Txn)
    requires Inv(s) && Enabled(s, Register(t))
    ensures var i, mode := Of(s, t).pc.item, Of(s, t).pc.mode;
            BecomesOwner(s, Apply(s, Register(t)), t, i, mode, Filter(LockOf(s, i).waiters, t))
  {
    var i, mode := Of(s, t).pc.item, Of(s, t).pc.mode;
    assert TxnOk(Of(s, t)) && PairOk(t, Of(s, t), i, LockOf(s, i));
    SharedWithOthers(s, t, i, mode);
    assert LockOf(s, i).holders == LockOf(s, i).holders[t := mode];
  }

  /** Owners of a taken mutex are what keeps the new waiter out. */
  lemma OwnersBlock(s: State, t: Txn, i: Item, mode: Mode, o: Txn)
    requires Inv(s) && Of(s, t).pc.Running? && mode != Unlocked && !Free(LockOf(s, i), mode) && o in LockOf(s, i).owners
    ensures BlockedBy(Asking(s, t, i, mode), t, o)
  {
    assert PairOk(o, Of(s, o), i, LockOf(s, i)) && Excludes(LockOf(s, i));
    ListedHeld(Of(s, o), i);
  }

  /** `s` with `t` waiting for item `i`. */
  function Asking(s: State, t: Txn, i: Item, mode: Mode): State {
    s.(txns := s.txns[t := Of(s, t).(pc := Waiting(i, mode))])
  }

  lemma AskingIs(s: State, t: Txn, i: Item, mode: Mode, x: Txn)
    ensures forall k :: LockOf(Asking(s, t, i, mode), k) == LockOf(s, k)
    ensures x == t ==> Of(Asking(s, t, i, mode), x).pc == Waiting(i, mode)
    ensures x != t ==> Of(Asking(s, t, i, mode), x) == Of(s, x)
  {
  }

  lemma WaitKeeps(s: State, t: Txn, i: Item, mode: Mode)
    requires Inv(s) && Justified(s) && Enabled(s, Wait(t, i, mode)) && !Free(LockOf(s, i), mode)
    ensures Justified(Apply(s, Wait(t, i, mode)))
  {
    var r, owners := Apply(s, Wait(t, i, mode)), LockOf(s, i).owners;
    WithEdgesIs(s.graph, t, owners);
    hide Inv, WaitCloses;
    if WaitCloses(s.graph, t, owners) {
      RefusedKeeps(s, r, t);
    } else {
      QueuedKeeps(s, r, t, i, mode);
    }
  }

  /** A refused transaction has no edges left. */
  lemma RefusedKeeps(s: State, r: State, t: Txn)
    requires Justified(s) && r == s.(graph := r.graph)
    requires forall a, b :: Edge(r.graph, a, b) ==> Edge(s.graph, a, b)
    requires forall a :: a in r.graph ==> a in s.graph
    ensures Justified(r)
  {
    forall a, b | Edge(r.graph, a, b) ensures StandsForWait(r, a, b) {
      assert StandsForWait(s, a, b);
    }
  }

  lemma QueuedKeeps(s: State, r: State, t: Txn, i: Item, mode: Mode)
    requires Inv(s) && Justified(s) && Of(s, t).pc.Running? && mode != Unlocked && !Free(LockOf(s, i), mode)
    requires r.txns == Asking(s, t, i, mode).txns && forall k :: LockOf(r, k).holders == LockOf(s, k).holders
    requires r.graph == WithEdges(s.graph, t, LockOf(s, i).owners)
    ensures Justified(r)
  {
    WithEdgesIs(s.graph, t, LockOf(s, i).owners);
    forall b | b in LockOf(s, i).owners ensures BlockedBy(Asking(s, t, i, mode), t, b) {
      OwnersBlock(s, t, i, mode, b);
    }
    hide Inv, WithEdges, Free;
    forall a, b | Edge(r.graph, a, b) ensures StandsForWait(r, a, b) {
      if Edge(s.graph, a, b) {
        assert StandsForWait(s, a, b);
      } else {
        assert BlockedBy(Asking(s, t, i, mode), a, b);
      }
    }
  }

  /** A transaction that has got its mutex waits for nobody any more. */
  lemma ObtainKeeps(s: State, t: Txn)
    requires Inv(s) && Justified(s) && Enabled(s, Obtain(t))
    ensures Justified(Apply(s, Obtain(t)))
  {
    var r, i := Apply(s, Obtain(t)), Of(s, t).pc.item;
    assert TxnOk(Of(s, t)) && PairOk(t, Of(s, t), i, LockOf(s, i));
    forall a, b | Edge(r.graph, a, b) ensures StandsForWait(r, a, b) {
      assert StandsForWait(s, a, b);
    }
  }

  /** With its destructor a transaction leaves the graph. */
  lemma BeginKeeps(s: State, t: Txn)
    requires Justified(s) && Enabled(s, Begin(t))
    ensures Justified(Apply(s, Begin(t)))
  {
    var r := Apply(s, Begin(t));
    WithoutIs(s.graph, t);
    forall a, b | Edge(r.graph, a, b) ensures StandsForWait(r, a, b) {
      assert StandsForWait(s, a, b);
    }
  }

  lemma WithdrawKeeps(s: State, t: Txn)
    requires Justified(s) && Enabled(s, Withdraw(t))
    ensures Justified(Apply(s, Withdraw(t)))
  {
    var r := Apply(s, Withdraw(t));
    forall a, b | Edge(r.graph, a, b) ensures StandsForWait(r, a, b) {
      assert StandsForWait(s, a, b);
    }
  }

  lemma UnlockKeeps(s: State, t: Txn)
    requires Justified(s) && Enabled(s, Unlock(t))
    ensures Justified(Apply(s, Unlock(t)))
  {
    var r := Apply(s, Unlock(t));
    forall a, b | Edge(r.graph, a, b) ensures StandsForWait(r, a, b) {
      assert StandsForWait(s, a, b);
    }
  }

  lemma OrderlyKeeps(s: State, step: Step)
    requires Inv(s) && Justified(s) && Enabled(s, step) && Orderly(s, step)
    ensures Justified(Apply(s, step))
  {
    match step
    case TryLock(t, i, mode) =>
      TryLockOwner(s, t, i, mode);
      OwnerKeeps(s, Apply(s, step), t, i, mode, LockOf(s, i).waiters);
    case Wait(t, i, mode) => WaitKeeps(s, t, i, mode);
    case Obtain(t) => ObtainKeeps(s, t);
    case Register(t) =>
      RegisterOwner(s, t);
      var i := Of(s, t).pc.item;
      OwnerKeeps(s, Apply(s, step), t, i, Of(s, t).pc.mode, Filter(LockOf(s, i).waiters, t));
    case Begin(t) => BeginKeeps(s, t);
    case Withdraw(t) => WithdrawKeeps(s, t);
    case Unlock(t) => UnlockKeeps(s, t);
  }

  // ---------- orderly runs ----------

  ghost predicate OrderlyRun(s: State, steps: seq<Step>)
    decreases |steps|
  {
    steps == [] || (Enabled(s, steps[0]) && Orderly(s, steps[0]) && OrderlyRun(Apply(s, steps[0]), steps[1..]))
  }

  ghost predicate OrderlyReachable(s: State) {
    exists s0, steps :: Init(s0) && OrderlyRun(s0, steps) && Run(s0, steps) == Some(s)
  }

  lemma {:induction false} RunKeeps(s: State, steps: seq<Step>)
    requires Inv(s) && Justified(s) && OrderlyRun(s, steps)
    ensures Run(s, steps).Some? && Inv(Run(s, steps).value) && Justified(Run(s, steps).value)
    decreases |steps|
  {
    if steps != [] {
      StepInv(s, steps[0]);
      OrderlyKeeps(s, steps[0]);
      hide Inv, Justified, Enabled, Orderly, Apply;
      RunKeeps(Apply(s, steps[0]), steps[1..]);
    }
  }

  /** In every orderly run each edge stands for a wait. */
  lemma OrderlyJustified(s: State)
    requires OrderlyReachable(s)
    ensures Reachable(s) && Inv(s) && Justified(s)
  {
    var s0, steps :| Init(s0) && OrderlyRun(s0, steps) && Run(s0, steps) == Some(s);
    InitInv(s0);
    RunKeeps(s0, steps);
  }

  // ---------- a new owner is never refused ----------

  /** From an owner that waits for nobody no walk comes back. */
  lemma NoWayBack(s: State, t: Txn, waiters: seq<Txn>)
    requires Inv(s) && Justified(s) && !Of(s, t).pc.Waiting? && !Of(s, t).pc.Ending?
    requires forall w :: w in waiters ==> w != t && !Of(s, w).pc.Ending?
    ensures !WaitersClose(s.graph, t, waiters)
  {
    var h := WithWaiters(s.graph, t, waiters);
    WaitersExact(s.graph, t, waiters);
    WithWaitersIs(s.graph, t, waiters);
    WithWaitersRows(s.graph, t, waiters);
    hide WithWaiters, WaitersClose, Inv;
    if !Acyclic(h) {
      var c := ClosedWalk(h);
      var k := BrokenStep(s.graph, c);
      assert Edge(h, c[k], c[k + 1]);
      var y := GoesOn(h, c, k + 1);
      assert StandsForWait(s, t, y);
      var m :| 0 <= m < |c| && c[m] == y;
      var z := GoesOn(h, c, m);
    }
  }

  /** In an orderly run addWaiters does not throw, so the runs of this model are all orderly runs there are. */
  lemma OwnersNeverRefused(s: State, t: Txn)
    requires OrderlyReachable(s)
    ensures Of(s, t).pc.Granted? ==> Enabled(s, Register(t))
    ensures forall i, mode :: Of(s, t).pc.Running? && i !in Of(s, t).locks && mode != Unlocked && Free(LockOf(s, i), mode)
              ==> Enabled(s, TryLock(t, i, mode))
  {
    OrderlyJustified(s);
    if Of(s, t).pc.Granted? {
      var i := Of(s, t).pc.item;
      QueueNotEnding(s, i);
      NoWayBack(s, t, Filter(LockOf(s, i).waiters, t));
    }
    forall i, mode | Of(s, t).pc.Running? && i !in Of(s, t).locks && mode != Unlocked && Free(LockOf(s, i), mode)
      ensures Enabled(s, TryLock(t, i, mode))
    {
      QueueNotEnding(s, i);
      assert PairOk(t, Of(s, t), i, LockOf(s, i));
      NoWayBack(s, t, LockOf(s, i).waiters);
    }
  }

  lemma QueueNotEnding(s: State, i: Item)
    requires Inv(s)
    ensures forall w :: w in LockOf(s, i).waiters ==> !Of(s, w).pc.Ending?
  {
    forall w | w in LockOf(s, i).waiters ensures !Of(s, w).pc.Ending? {
      assert PairOk(w, Of(s, w), i, LockOf(s, i));
    }
  }

  // ---------- which runs are orderly ----------

  /** The step asks for no shared lock, and waits for no free mutex. */
  ghost predicate Writes(s: State, step: Step) {
    && (step.TryLock? || step.Wait? ==> step.mode == Exclusive)
    && (step.Wait? ==> !Free(LockOf(s, step.i), Exclusive))
  }

  ghost predicate WritesOnly(s: State, steps: seq<Step>)
    decreases |steps|
  {
    steps == [] || (Enabled(s, steps[0]) && Writes(s, steps[0]) && WritesOnly(Apply(s, steps[0]), steps[1..]))
  }

  ghost predicate NoReaders(s: State) { forall t: Txn :: !QueuedReader(Of(s, t).pc) }

  /** Runs of exclusive requests whose tries fail only on a taken mutex are orderly. */
  lemma {:induction false} WritersAreOrderly(s: State, steps: seq<Step>)
    requires NoReaders(s) && WritesOnly(s, steps)
    ensures OrderlyRun(s, steps)
    decreases |steps|
  {
    if steps != [] {
      WriterStep(s, steps[0]);
      WritersAreOrderly(Apply(s, steps[0]), steps[1..]);
    }
  }

  lemma WriterStep(s: State, step: Step)
    requires NoReaders(s) && Enabled(s, step) && Writes(s, step)
    ensures Orderly(s, step) && NoReaders(Apply(s, step))
  {
    forall t: Txn ensures !QueuedReader(Of(Apply(s, step), t).pc) {
      assert !QueuedReader(Of(s, t).pc);
    }
  }

  /** A new owner leaves the edges justified if and only if it enters in order. */
  lemma JustifiedIffInOrder(s: State, step: Step)
    requires Inv(s) && Justified(s) && Enabled(s, step) && (step.TryLock? || step.Register?)
    ensures Justified(Apply(s, step)) <==> Orderly(s, step)
  {
    if Orderly(s, step) {
      OrderlyKeeps(s, step);
    } else {
      var t := step.t;
      if step.TryLock? {
        TryLockOwner(s, t, step.i, step.mode);
        DisorderBreaks(s, Apply(s, step), t, step.i, LockOf(s, step.i).waiters);
      } else {
        RegisterOwner(s, t);
        var i := Of(s, t).pc.item;
        DisorderBreaks(s, Apply(s, step), t, i, Filter(LockOf(s, i).waiters, t));
      }
    }
  }

  /** A reader that enters past a queued reader. */
  lemma DisorderBreaks(s: State, r: State, t: Txn, i: Item, waiters: seq<Txn>)
    requires Inv(s) && BecomesOwner(s, r, t, i, Shared, waiters) && !InOrder(s, t, i, Shared)
    requires forall w :: w in LockOf(s, i).waiters && w != t ==> w in waiters
    ensures !Justified(r)
  {
    var w :| w in LockOf(s, i).waiters && w != t && QueuedReader(Of(s, w).pc);
    WithWaitersIs(s.graph, t, waiters);
    assert PairOk(w, Of(s, w), i, LockOf(s, i));
    assert Edge(r.graph, w, t) && !StandsForWait(r, w, t);
  }
}
