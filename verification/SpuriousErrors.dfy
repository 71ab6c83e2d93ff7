/**
  Errors without a deadlock: where a reader enters past a queued reader, addWaiters draws an edge
  that stands for no wait and stays, and a later addWaitsFor can throw because of it.
  Source: task-lock-manager/src/lock_manager.cc:68-112, 182-213.
  */
module SpuriousErrors {
  import opened Collections
  import opened WaitsFor
  import opened LockProtocol
  import opened LockTheorems
  import opened OrderlyRuns
  import opened DeadlockErrors

  /** addWaitsFor throws although waiting would complete no deadlock. */
  ghost predicate Spurious(s: State, t: Txn, i: Item, mode: Mode) {
    && Enabled(s, Wait(t, i, mode)) && !Free(LockOf(s, i), mode)
    && WaitCloses(s.graph, t, LockOf(s, i).owners) && Refused(s, t, i, mode)
    && forall stuck: set<Txn> :: !Deadlock(Asking(s, t, i, mode), t, stuck)
  }

  // ---------- after every disorder ----------

  ghost predicate DeadEnd(s: State, b: Txn) { Of(s, b).pc.Ending? && b !in s.graph }

  /** Reader `t` has entered past reader `w`, and from neither of them a walk goes further than to the other one. */
  ghost predicate Passed(s: State, w: Txn, t: Txn, i: Item) {
    && t != w && Of(s, t).pc.Running?
    && (Of(s, w).pc == Waiting(i, Shared) || Of(s, w).pc == Granted(i, Shared))
    && (forall x :: x in LockOf(s, i).holders ==> LockOf(s, i).holders[x] == Shared)
    && Edge(s.graph, w, t)
    && (forall b :: Edge(s.graph, w, b) ==> b == t || DeadEnd(s, b))
    && (forall b :: Edge(s.graph, t, b) ==> DeadEnd(s, b))
  }

  lemma PassedNow(s: State, u: State, t: Txn, i: Item, waiters: seq<Txn>, w: Txn)
    requires Inv(s) && Justified(s) && BecomesOwner(s, u, t, i, Shared, waiters)
    requires w in waiters && QueuedReader(Of(s, w).pc)
    ensures Passed(u, w, t, i)
  {
    WithWaitersIs(s.graph, t, waiters);
    WithWaitersRows(s.graph, t, waiters);
    QueueNotEnding(s, i);
    assert PairOk(w, Of(s, w), i, LockOf(s, i));
    forall a, b | (a == w || a == t) && Edge(s.graph, a, b) ensures DeadEnd(u, b) {
      assert StandsForWait(s, a, b);
      assert !BlockedBy(s, a, b);
    }
  }

  lemma PassedObtain(s: State, w: Txn, t: Txn, i: Item)
    requires Passed(s, w, t, i) && Of(s, w).pc.Waiting?
    ensures Enabled(s, Obtain(w))
    ensures var u := Apply(s, Obtain(w)); Passed(u, w, t, i) && Of(u, w).pc.Granted?
  {
    var u := Apply(s, Obtain(w));
    forall b | DeadEnd(s, b) ensures DeadEnd(u, b) {
    }
  }

  /** The queued reader registers unhindered, and both readers are between calls. */
  lemma PassedRegister(s: State, w: Txn, t: Txn, i: Item)
    requires Inv(s) && Passed(s, w, t, i) && Of(s, w).pc.Granted?
    ensures Enabled(s, Register(w))
    ensures var u := Apply(s, Register(w)); Of(u, w).pc.Running? && Of(u, t).pc.Running? && Edge(u.graph, w, t)
  {
    var waiters := Filter(LockOf(s, i).waiters, w);
    QueueNotEnding(s, i);
    assert PairOk(t, Of(s, t), i, LockOf(s, i));
    NoWayBackPast(s, w, t, i, waiters);
    WithWaitersIs(s.graph, w, waiters);
  }

  lemma NoWayBackPast(s: State, w: Txn, t: Txn, i: Item, waiters: seq<Txn>)
    requires Inv(s) && Passed(s, w, t, i)
    requires forall x :: x in waiters ==> x != w && x != t && !Of(s, x).pc.Ending?
    ensures !WaitersClose(s.graph, w, waiters)
  {
    var h := WithWaiters(s.graph, w, waiters);
    WaitersExact(s.graph, w, waiters);
    WithWaitersIs(s.graph, w, waiters);
    WithWaitersRows(s.graph, w, waiters);
    hide WithWaiters, WaitersClose, Inv;
    if !Acyclic(h) {
      var c := ClosedWalk(h);
      var k := BrokenStep(s.graph, c);
      assert Edge(h, c[k], c[k + 1]) && c[k + 1] == w;
      var y := GoesOn(h, c, k + 1);
      var m :| 0 <= m < |c| && c[m] == y;
      var z := GoesOn(h, c, m);
      assert y == t;
      var n :| 0 <= n < |c| && c[n] == z;
      var x := GoesOn(h, c, n);
    }
  }

  /** One reader locks a new item and the other one asks for it. */
  lemma EdgeTurnsBack(s: State, w: Txn, t: Txn, j: Item)
    requires Inv(s) && t != w && Of(s, t).pc.Running? && Of(s, w).pc.Running? && Edge(s.graph, w, t) && j !in s.locks
    ensures Enabled(s, TryLock(w, j, Exclusive)) && Spurious(Apply(s, TryLock(w, j, Exclusive)), t, j, Shared)
  {
    assert Acyclic(s.graph);
    LocksNew(s, w, j);
    var v := Apply(s, TryLock(w, j, Exclusive));
    assert j !in Of(v, t).locks by { assert PairOk(t, Of(s, t), j, LockOf(s, j)); }
    assert Of(v, t).pc == Of(s, t).pc;
    hide Inv, Apply;
    TurnsBack(v.graph, w, t);
    RefusedOrWaits(v, t, j, Shared);
    hide WaitCloses, Refused;
    forall stuck: set<Txn> ensures !Deadlock(Asking(v, t, j, Shared), t, stuck) {
      OnlyRunning(v, w, t, j, stuck);
    }
  }

  lemma LocksNew(s: State, w: Txn, j: Item)
    requires Inv(s) && Of(s, w).pc.Running? && j !in s.locks
    ensures Enabled(s, TryLock(w, j, Exclusive))
    ensures var v := Apply(s, TryLock(w, j, Exclusive));
            && v.graph == s.graph && LockOf(v, j) == Lock([w], [], Exclusive, map[w := Exclusive])
            && Of(v, w).pc.Running? && forall x :: x != w ==> Of(v, x) == Of(s, x)
  {
    assert PairOk(w, Of(s, w), j, LockOf(s, j));
    WaitersExact(s.graph, w, []);
    hide Inv, WaitersClose;
    var none: seq<Txn>, nobody: map<Txn, Mode> := [], map[];
    assert none + [w] == [w] && nobody[w := Exclusive] == map[w := Exclusive];
  }

  lemma TurnsBack(g: Graph, w: Txn, t: Txn)
    requires Acyclic(g) && Edge(g, w, t)
    ensures WaitCloses(g, t, [w])
  {
    var h := WithEdges(g, t, [w]);
    WithEdgesIs(g, t, [w]);
    WaitsForExact(g, t, [w]);
    var p := [w, t, w];
    assert Edge(h, w, t) && Edge(h, t, w);
    assert Walk(h, p) && p[0] == p[2] && Repeats(p);
  }

  lemma OnlyRunning(s: State, w: Txn, t: Txn, j: Item, stuck: set<Txn>)
    requires t != w && Of(s, w).pc.Running? && LockOf(s, j).holders == map[w := Exclusive]
    ensures !Deadlock(Asking(s, t, j, Shared), t, stuck)
  {
    var a := Asking(s, t, j, Shared);
    AskingIs(s, t, j, Shared, t);
    AskingIs(s, t, j, Shared, w);
    assert forall u :: BlockedBy(a, t, u) ==> u == w;
    assert w !in stuck ==> !BlockedWithin(a, t, stuck);
  }

  lemma UnusedItem(used: set<Item>) returns (j: Item)
    ensures j !in used && forall i :: i in used ==> i < j
  {
    j := 0;
    var rest := used;
    while rest != {}
      invariant forall i :: i in used && i !in rest ==> i < j
      decreases |rest|
    {
      var i :| i in rest;
      rest := rest - {i};
      j := if i < j then j else i + 1;
    }
  }

  /**
    Wherever a reader enters past a queued reader, the run can go on to a state in which the first
    one is refused although nobody keeps it waiting in a circle.
    */
  lemma DisorderThrows(s: State, step: Step) returns (more: seq<Step>, v: State, j: Item)
    requires OrderlyReachable(s) && Enabled(s, step) && (step.TryLock? || step.Register?) && !Orderly(s, step)
    ensures Run(Apply(s, step), more) == Some(v) && Spurious(v, step.t, j, Shared)
  {
    OrderlyJustified(s);
    var t, u := step.t, Apply(s, step);
    StepInv(s, step);
    var w, i := PassedBy(s, step);
    more, v := [], u;
    if Of(u, w).pc.Waiting? {
      PassedObtain(u, w, t, i);
      StepInv(u, Obtain(w));
      RunOn(u, more, Obtain(w), Apply(u, Obtain(w)));
      more, v := more + [Obtain(w)], Apply(u, Obtain(w));
    }
    hide Passed, Inv, Enabled, Apply, OrderlyReachable, Orderly, Spurious;
    assert Passed(v, w, t, i) && Inv(v) && Of(v, w).pc.Granted?;
    PassedRegister(v, w, t, i);
    StepInv(v, Register(w));
    RunOn(u, more, Register(w), Apply(v, Register(w)));
    more, v := more + [Register(w)], Apply(v, Register(w));
    j := UnusedItem(v.locks.Keys);
    EdgeTurnsBack(v, w, t, j);
    RunOn(u, more, TryLock(w, j, Exclusive), Apply(v, TryLock(w, j, Exclusive)));
    more, v := more + [TryLock(w, j, Exclusive)], Apply(v, TryLock(w, j, Exclusive));
  }

  lemma PassedBy(s: State, step: Step) returns (w: Txn, i: Item)
    requires Inv(s) && Justified(s) && Enabled(s, step) && (step.TryLock? || step.Register?) && !Orderly(s, step)
    ensures Passed(Apply(s, step), w, step.t, i)
  {
    var t := step.t;
    if step.TryLock? {
      i := step.i;
      TryLockOwner(s, t, i, step.mode);
      w :| w in LockOf(s, i).waiters && w != t && QueuedReader(Of(s, w).pc);
      PassedNow(s, Apply(s, step), t, i, LockOf(s, i).waiters, w);
    } else {
      RegisterOwner(s, t);
      i := Of(s, t).pc.item;
      w :| w in LockOf(s, i).waiters && w != t && QueuedReader(Of(s, w).pc);
      PassedNow(s, Apply(s, step), t, i, Filter(LockOf(s, i).waiters, t), w);
    }
  }

  // ---------- an error without any wait ----------

  const FIRST: Txn := 0
  const LEFT: Txn := 1
  const RIGHT: Txn := 2
  const ITEM: Item := 1
  const OTHER: Item := 2

  /** A run may go on. */
  lemma Next(s: State, step: Step, u: State)
    requires Reachable(s) && Enabled(s, step) && Apply(s, step) == u
    ensures Reachable(u)
  {
    var s0, steps :| Init(s0) && Run(s0, steps) == Some(s);
    hide Enabled, Apply;
    RunOn(s0, steps, step, u);
  }

  lemma {:induction false} RunOn(s0: State, steps: seq<Step>, step: Step, u: State)
    requires Run(s0, steps).Some? && Enabled(Run(s0, steps).value, step) && Apply(Run(s0, steps).value, step) == u
    ensures Run(s0, steps + [step]) == Some(u)
    decreases |steps|
  {
    if steps == [] {
      assert steps + [step] == [step] && [step][1..] == [];
    } else {
      assert (steps + [step])[1..] == steps[1..] + [step];
      RunOn(Apply(s0, steps[0]), steps[1..], step, u);
    }
  }

  /** A lock that nobody has asked for yet. */
  lemma FirstLock(s: State, t: Txn, i: Item, u: State)
    requires i !in s.locks && t !in s.txns && t !in s.graph
    requires u.graph == s.graph && u.misused == s.misused
    requires u.locks == s.locks[i := Lock([t], [], Exclusive, map[t := Exclusive])]
    requires u.txns == s.txns[t := TxnState(Running, [i])] && Reachable(s)
    ensures Reachable(u)
  {
    hide Reachable;
    var none: seq<nat> := [];
    assert none + [t] == [t] && none + [i] == [i];
    var empty: map<Txn, Mode> := map[];
    assert empty[t := Exclusive] == map[t := Exclusive];
    Next(s, TryLock(t, i, Exclusive), u);
  }

  /** The first wait of `t`, for an item with one owner that does not wait. */
  lemma Queues(s: State, t: Txn, i: Item, o: Txn, u: State)
    requires i in s.locks && s.locks[i].owners == [o] && o !in s.graph && o != t && t !in s.graph
    requires Of(s, t).pc.Running? && i !in Of(s, t).locks
    requires u.graph == s.graph[t := [o]] && u.misused == s.misused
    requires u.locks == s.locks[i := s.locks[i].(waiters := s.locks[i].waiters + [t])]
    requires u.txns == s.txns[t := Of(s, t).(pc := Waiting(i, Shared))] && Reachable(s)
    ensures Reachable(u)
  {
    hide Reachable;
    var none: seq<nat> := [];
    assert none + [o] == [o] && [o][..0] == none;
    assert Merge(none, none) == none && Merge(none, [o]) == [o];
    assert WithEdges(s.graph, t, [o]) == u.graph;
    Next(s, Wait(t, i, Shared), u);
  }

  /** The destructor of an owner of one item, from its beginning to its end. */
  lemma Ends(s: State, t: Txn, i: Item, u: State)
    requires i in s.locks && s.locks[i].owners == [t] && s.locks[i].holders == map[t := Exclusive]
    requires s.locks[i].ownership == Exclusive && Of(s, t) == TxnState(Running, [i])
    requires u.graph == Without(s.graph, t) && u.misused == s.misused
    requires u.locks == s.locks[i := s.locks[i].(owners := [], holders := map[])]
    requires u.txns == s.txns[t := TxnState(Ending(1, false), [i])] && Reachable(s)
    ensures Reachable(u)
  {
    var none: seq<nat> := [];
    assert [t][..0] == none && Filter(none, t) == none && Filter([t], t) == none;
    var one := s.(graph := Without(s.graph, t), txns := s.txns[t := TxnState(Ending(0, false), [i])]);
    var two := one.(locks := s.locks[i := s.locks[i].(owners := none)], txns := s.txns[t := TxnState(Ending(0, true), [i])]);
    assert one.txns[t := TxnState(Ending(0, true), [i])] == two.txns;
    assert two.txns[t := TxnState(Ending(1, false), [i])] == u.txns;
    var empty: map<Txn, Mode> := map[];
    assert s.locks[i].holders - {t} == empty;
    assert two.locks[i := two.locks[i].(holders := empty)] == u.locks;
    hide Reachable;
    assert Enabled(s, Begin(t)) && Apply(s, Begin(t)) == one;
    Next(s, Begin(t), one);
    hide Without, Filter;
    EndsWithdraw(one, t, i, two);
    EndsUnlock(two, t, i, u);
  }

  lemma EndsWithdraw(s: State, t: Txn, i: Item, u: State)
    requires Reachable(s) && i in s.locks && Filter(s.locks[i].owners, t) == [] && Of(s, t) == TxnState(Ending(0, false), [i])
    requires u.graph == s.graph && u.misused == s.misused && u.locks == s.locks[i := s.locks[i].(owners := [])]
    requires u.txns == s.txns[t := TxnState(Ending(0, true), [i])]
    ensures Reachable(u)
  {
    hide Reachable;
    Next(s, Withdraw(t), u);
  }

  lemma EndsUnlock(s: State, t: Txn, i: Item, u: State)
    requires Reachable(s) && i in s.locks && Of(s, t) == TxnState(Ending(0, true), [i])
    requires s.locks[i].ownership == Exclusive && t in s.locks[i].holders && s.locks[i].holders[t] == Exclusive
    requires u.graph == s.graph && u.misused == s.misused
    requires u.locks == s.locks[i := s.locks[i].(holders := s.locks[i].holders - {t})]
    requires u.txns == s.txns[t := TxnState(Ending(1, false), [i])]
    ensures Reachable(u)
  {
    hide Reachable;
    Next(s, Unlock(t), u);
  }

  /** A reader gets its lock and registers; those still waiting get an edge to it. */
  lemma Enters(s: State, t: Txn, i: Item, waiters: seq<Txn>, u: State)
    requires i in s.locks && Of(s, t).pc == Waiting(i, Shared) && Free(s.locks[i], Shared)
    requires waiters == Filter(s.locks[i].waiters, t) && !WaitersClose(s.graph, t, waiters)
    requires u.graph == WithWaiters(s.graph, t, waiters) && u.misused == s.misused
    requires u.locks == s.locks[i := Lock(s.locks[i].owners + [t], waiters, Shared, s.locks[i].holders[t := Shared])]
    requires u.txns == s.txns[t := TxnState(Running, Of(s, t).locks + [i])] && Reachable(s)
    ensures Reachable(u)
  {
    var one := s.(locks := s.locks[i := s.locks[i].(holders := s.locks[i].holders[t := Shared])],
                  txns := s.txns[t := Of(s, t).(pc := Granted(i, Shared))]);
    assert one.txns[t := TxnState(Running, Of(s, t).locks + [i])] == u.txns;
    assert one.locks[i := Lock(s.locks[i].owners + [t], waiters, Shared, s.locks[i].holders[t := Shared])] == u.locks;
    hide Reachable, WaitersClose, WithWaiters, Filter;
    EntersObtain(s, t, i, one);
    EntersRegister(one, t, i, waiters, u);
  }

  lemma EntersObtain(s: State, t: Txn, i: Item, u: State)
    requires i in s.locks && Of(s, t).pc == Waiting(i, Shared) && Free(s.locks[i], Shared)
    requires u.graph == s.graph && u.misused == s.misused
    requires u.locks == s.locks[i := s.locks[i].(holders := s.locks[i].holders[t := Shared])]
    requires u.txns == s.txns[t := Of(s, t).(pc := Granted(i, Shared))] && Reachable(s)
    ensures Reachable(u)
  {
    hide Reachable;
    Next(s, Obtain(t), u);
  }

  lemma EntersRegister(s: State, t: Txn, i: Item, waiters: seq<Txn>, u: State)
    requires i in s.locks && Of(s, t).pc == Granted(i, Shared)
    requires waiters == Filter(s.locks[i].waiters, t) && !WaitersClose(s.graph, t, waiters)
    requires u.graph == WithWaiters(s.graph, t, waiters) && u.misused == s.misused
    requires u.locks == s.locks[i := Lock(s.locks[i].owners + [t], waiters, Shared, s.locks[i].holders)]
    requires u.txns == s.txns[t := TxnState(Running, Of(s, t).locks + [i])] && Reachable(s)
    ensures Reachable(u)
  {
    hide Reachable, WaitersClose, WithWaiters, Filter;
    Next(s, Register(t), u);
  }

  /** Two readers queue up behind a writer; one of them owns another item. */
  function Queued(): State {
    State(map[LEFT := [FIRST], RIGHT := [FIRST]],
          map[ITEM := Lock([FIRST], [LEFT, RIGHT], Exclusive, map[FIRST := Exclusive]),
              OTHER := Lock([RIGHT], [], Exclusive, map[RIGHT := Exclusive])],
          map[FIRST := TxnState(Running, [ITEM]),
              LEFT := TxnState(Waiting(ITEM, Shared), []),
              RIGHT := TxnState(Waiting(ITEM, Shared), [OTHER])], false)
  }

  /** The writer has gone and both readers have the item; the edge from one to the other stays. */
  function SideBySide(): State {
    State(map[LEFT := [], RIGHT := [LEFT]],
          map[ITEM := Lock([LEFT, RIGHT], [], Shared, map[LEFT := Shared, RIGHT := Shared]),
              OTHER := Lock([RIGHT], [], Exclusive, map[RIGHT := Exclusive])],
          map[FIRST := TxnState(Ending(1, false), [ITEM]),
              LEFT := TxnState(Running, [ITEM]),
              RIGHT := TxnState(Running, [OTHER, ITEM])], false)
  }

  lemma QueuedReached()
    ensures Reachable(Queued())
  {
    var empty := State(map[], map[], map[], false);
    var one := State(map[], map[ITEM := Lock([FIRST], [], Exclusive, map[FIRST := Exclusive])],
                     map[FIRST := TxnState(Running, [ITEM])], false);
    assert Run(empty, []) == Some(empty);
    FirstLock(empty, FIRST, ITEM, one);
    FirstLock(one, RIGHT, OTHER, Locked([]));
    QueueUp();
  }

  /** The two items have been locked, and `waiters` queue up for the first one. */
  function Locked(waiters: seq<Txn>): State {
    State(if waiters == [] then map[] else map[LEFT := [FIRST]],
          map[ITEM := Lock([FIRST], waiters, Exclusive, map[FIRST := Exclusive]), OTHER := Queued().locks[OTHER]],
          if waiters == [] then map[FIRST := TxnState(Running, [ITEM]), RIGHT := TxnState(Running, [OTHER])]
          else map[FIRST := TxnState(Running, [ITEM]), RIGHT := TxnState(Running, [OTHER]),
                   LEFT := TxnState(Waiting(ITEM, Shared), [])],
          false)
  }

  lemma QueueUp()
    requires Reachable(Locked([]))
    ensures Reachable(Queued())
  {
    hide Reachable;
    var none: seq<nat> := [];
    assert none + [LEFT] == [LEFT] && [LEFT] + [RIGHT] == [LEFT, RIGHT];
    Queues(Locked([]), LEFT, ITEM, FIRST, Locked([LEFT]));
    Queues(Locked([LEFT]), RIGHT, ITEM, FIRST, Queued());
  }

  /** The writer has gone, and the readers still wait. */
  function Freed(): State {
    State(map[LEFT := [], RIGHT := []],
          map[ITEM := Lock([], [LEFT, RIGHT], Exclusive, map[]), OTHER := Queued().locks[OTHER]],
          map[FIRST := TxnState(Ending(1, false), [ITEM]),
              LEFT := Queued().txns[LEFT], RIGHT := Queued().txns[RIGHT]], false)
  }

  /** One reader has the item. */
  function HalfWay(): State {
    State(map[LEFT := [], RIGHT := [LEFT]],
          map[ITEM := Lock([LEFT], [RIGHT], Shared, map[LEFT := Shared]), OTHER := Queued().locks[OTHER]],
          map[FIRST := TxnState(Ending(1, false), [ITEM]),
              LEFT := TxnState(Running, [ITEM]), RIGHT := Queued().txns[RIGHT]], false)
  }

  /** The writer ends, and the readers get the item one after the other. */
  lemma SideBySideReached()
    ensures Reachable(SideBySide())
  {
    hide *;
    QueuedReached();
    WriterEnds();
    LeftEnters();
    RightEnters();
  }

  lemma WriterEnds()
    requires Reachable(Queued())
    ensures Reachable(Freed())
  {
    hide Reachable;
    FilterOne(FIRST);
    assert Without(Queued().graph, FIRST) == Freed().graph;
    Ends(Queued(), FIRST, ITEM, Freed());
  }

  lemma LeftEnters()
    requires Reachable(Freed())
    ensures Reachable(HalfWay())
  {
    hide Reachable;
    var s := Freed();
    FilterOne(LEFT);
    assert [LEFT, RIGHT][..1] == [LEFT];
    var none: seq<nat> := [];
    assert none + [RIGHT] == [RIGHT] && none + [LEFT] == [LEFT] && [RIGHT][..0] == none && [LEFT][..0] == none;
    assert Filter([LEFT, RIGHT], LEFT) == [RIGHT];
    assert Merge(none, none) == none && Merge(none, [LEFT]) == [LEFT];
    assert WithWaiters(s.graph, LEFT, none) == s.graph;
    assert WithWaiters(s.graph, LEFT, [RIGHT]) == HalfWay().graph;
    assert !FindDuplicate(HalfWay().graph, LEFT, {});
    hide FindDuplicate, WithWaiters, Filter;
    Enters(s, LEFT, ITEM, [RIGHT], HalfWay());
  }

  lemma RightEnters()
    requires Reachable(HalfWay())
    ensures Reachable(SideBySide())
  {
    hide Reachable;
    var s := HalfWay();
    FilterOne(RIGHT);
    var none: seq<nat> := [];
    assert [LEFT] + [RIGHT] == [LEFT, RIGHT] && [OTHER] + [ITEM] == [OTHER, ITEM];
    assert WithWaiters(s.graph, RIGHT, none) == s.graph;
    NothingFound(s.graph);
    hide FindDuplicate, WithWaiters, Filter;
    Enters(s, RIGHT, ITEM, none, SideBySide());
  }

  lemma FilterOne(t: Txn)
    ensures Filter([t], t) == []
  {
    assert [t][..0] == [];
  }

  /** One edge makes no cycle. */
  lemma NothingFound(g: Graph)
    requires g == map[LEFT := [], RIGHT := [LEFT]]
    ensures !FindDuplicate(g, RIGHT, {})
  {
    assert !FindDuplicate(g, LEFT, {RIGHT});
    AmongIs(g, [LEFT], {RIGHT});
    assert {} + {RIGHT} == {RIGHT};
  }

  /** A DeadLockError although nobody waits for anything: one reader only asks for what the other one owns. */
  lemma ErrorWithoutWaits()
    ensures Reachable(SideBySide()) && forall x: Txn :: !Of(SideBySide(), x).pc.Waiting?
    ensures Enabled(SideBySide(), Wait(LEFT, OTHER, Shared))
    ensures WaitCloses(SideBySide().graph, LEFT, LockOf(SideBySide(), OTHER).owners)
    ensures Refused(SideBySide(), LEFT, OTHER, Shared)
    ensures forall stuck: set<Txn> :: !Deadlock(Asking(SideBySide(), LEFT, OTHER, Shared), LEFT, stuck)
  {
    SideBySideReached();
    EdgesClose();
    RefusedOrWaits(SideBySide(), LEFT, OTHER, Shared);
    forall stuck: set<Txn> ensures !Deadlock(Asking(SideBySide(), LEFT, OTHER, Shared), LEFT, stuck) {
      NoDeadlockThere(stuck);
    }
    hide Reachable, WaitCloses;
  }

  lemma EdgesClose()
    ensures WaitCloses(SideBySide().graph, LEFT, [RIGHT])
  {
    var g, h := SideBySide().graph, WithEdges(SideBySide().graph, LEFT, [RIGHT]);
    WithEdgesIs(g, LEFT, [RIGHT]);
    var p := [RIGHT, LEFT, RIGHT];
    assert Edge(h, RIGHT, LEFT) && Edge(h, LEFT, RIGHT);
    assert Walk(h, p) && p[0] == p[2] && Repeats(p);
    FindDuplicateExact(h, RIGHT);
  }

  lemma NoDeadlockThere(stuck: set<Txn>)
    ensures !Deadlock(Asking(SideBySide(), LEFT, OTHER, Shared), LEFT, stuck)
  {
    var a := Asking(SideBySide(), LEFT, OTHER, Shared);
    assert !Of(a, RIGHT).pc.Waiting?;
    assert forall u :: BlockedBy(a, LEFT, u) ==> u == RIGHT;
    assert RIGHT !in stuck ==> !BlockedWithin(a, LEFT, stuck);
  }
}
