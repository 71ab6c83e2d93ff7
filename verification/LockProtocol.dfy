/**
  Lock acquisition and release as interleaved steps.
  Source: task-lock-manager/src/lock_manager.cc, acquireLock and ~Transaction.
  A step is a section under the lock's metadata latch, an operation on its mutex outside that
  latch, or a call into the waits-for graph. A step that would make addWaiters throw is not
  enabled, so the runs of this model are the runs in which it does not throw.
  */
module LockProtocol {
  import opened WaitsFor

  type Item = nat

  datatype Mode = Unlocked | Shared | Exclusive

  /** `holders` is the std::shared_mutex: who has locked it, and in which mode. */
  datatype Lock = Lock(owners: seq<Txn>, waiters: seq<Txn>, ownership: Mode, holders: map<Txn, Mode>)

  /** Where the thread of a transaction is. */
  datatype Pc =
    | Running                                  // between calls
    | Waiting(item: Item, mode: Mode)          // a registered waiter, inside the blocking lock call
    | Granted(item: Item, mode: Mode)          // has the mutex, not yet an owner
    | Ending(next: nat, withdrawn: bool)       // in the destructor, releasing locks[next]

  datatype TxnState = TxnState(pc: Pc, locks: seq<Item>)

  /** `misused` says that a mutex was unlocked in a mode in which it was not held. */
  datatype State = State(graph: Graph, locks: map<Item, Lock>, txns: map<Txn, TxnState>, misused: bool)

  function LockOf(s: State, i: Item): Lock { if i in s.locks then s.locks[i] else Lock([], [], Unlocked, map[]) }
  function Of(s: State, t: Txn): TxnState { if t in s.txns then s.txns[t] else TxnState(Running, []) }

  /** The mutex can be locked in `mode`. */
  predicate Free(l: Lock, mode: Mode) {
    if mode == Shared then forall u :: u in l.holders ==> l.holders[u] == Shared else l.holders == map[]
  }

  datatype Step =
    | TryLock(t: Txn, i: Item, mode: Mode)     // lock_manager.cc:183-191
    | Wait(t: Txn, i: Item, mode: Mode)        // 194-196
    | Obtain(t: Txn)                           // 198-202
    | Register(t: Txn)                         // 205-213
    | Begin(t: Txn)                            // 20-22
    | Withdraw(t: Txn)                         // 26-27
    | Unlock(t: Txn)                           // 29-33

  ghost predicate Enabled(s: State, step: Step) {
    var t := step.t;
    var me := Of(s, t);
    match step
    case TryLock(_, i, mode) =>
      && me.pc.Running? && i !in me.locks && mode != Unlocked && Free(LockOf(s, i), mode)
      && !WaitersClose(s.graph, t, LockOf(s, i).waiters)
    case Wait(_, i, mode) => me.pc.Running? && i !in me.locks && mode != Unlocked
    case Obtain(_) => me.pc.Waiting? && Free(LockOf(s, me.pc.item), me.pc.mode)
    case Register(_) => me.pc.Granted? && !WaitersClose(s.graph, t, Filter(LockOf(s, me.pc.item).waiters, t))
    case Begin(_) => me.pc.Running?
    case Withdraw(_) => me.pc.Ending? && me.pc.next < |me.locks| && !me.pc.withdrawn
    case Unlock(_) => me.pc.Ending? && me.pc.next < |me.locks| && me.pc.withdrawn
  }

  ghost function Apply(s: State, step: Step): State
    requires Enabled(s, step)
  {
    var t := step.t;
    var me := Of(s, t);
    match step
    case TryLock(_, i, mode) =>
      var l := LockOf(s, i);
      State(WithWaiters(s.graph, t, l.waiters),
            s.locks[i := Lock(l.owners + [t], l.waiters, mode, l.holders[t := mode])],
            s.txns[t := TxnState(Running, me.locks + [i])], s.misused)
    case Wait(_, i, mode) =>
      var l := LockOf(s, i);
      var g := WithEdges(s.graph, t, l.owners);
      if WaitCloses(s.graph, t, l.owners) then
        s.(graph := g - {t})
      else
        State(g, s.locks[i := l.(waiters := l.waiters + [t])], s.txns[t := me.(pc := Waiting(i, mode))], s.misused)
    case Obtain(_) =>
      var l := LockOf(s, me.pc.item);
      s.(locks := s.locks[me.pc.item := l.(holders := l.holders[t := me.pc.mode])],
         txns := s.txns[t := me.(pc := Granted(me.pc.item, me.pc.mode))])
    case Register(_) =>
      var i, mode := me.pc.item, me.pc.mode;
      var l := LockOf(s, i);
      var waiters := Filter(l.waiters, t);
      State(WithWaiters(s.graph, t, waiters),
            s.locks[i := Lock(l.owners + [t], waiters, mode, l.holders)],
            s.txns[t := TxnState(Running, me.locks + [i])], s.misused)
    case Begin(_) =>
      s.(graph := Without(s.graph, t), txns := s.txns[t := me.(pc := Ending(0, false))])
    case Withdraw(_) =>
      var i := me.locks[me.pc.next];
      var l := LockOf(s, i);
      s.(locks := s.locks[i := l.(owners := Filter(l.owners, t))],
         txns := s.txns[t := me.(pc := Ending(me.pc.next, true))])
    case Unlock(_) =>
      var i := me.locks[me.pc.next];
      var l := LockOf(s, i);
      State(s.graph, s.locks[i := l.(holders := l.holders - {t})],
            s.txns[t := me.(pc := Ending(me.pc.next + 1, false))],
            s.misused || t !in l.holders || l.holders[t] != (if l.ownership == Shared then Shared else Exclusive))
  }

  // ---------- the invariant ----------

  /** The locks whose mutex a transaction has locked and registered for. */
  function Held(me: TxnState): seq<Item> {
    if me.pc.Ending? && me.pc.next <= |me.locks| then me.locks[me.pc.next..] else me.locks
  }

  /** The locks whose owner lists name it. */
  function Listed(me: TxnState): seq<Item> {
    if me.pc.Ending? && me.pc.withdrawn && me.pc.next < |me.locks| then me.locks[me.pc.next + 1..] else Held(me)
  }

  predicate AtItem(pc: Pc, i: Item) { (pc.Waiting? || pc.Granted?) && pc.item == i }

  ghost predicate Distinct(locks: seq<Item>) {
    forall a, b :: 0 <= a < b < |locks| ==> locks[a] != locks[b]
  }

  ghost predicate TxnOk(me: TxnState) {
    && Distinct(me.locks)
    && (me.pc.Waiting? || me.pc.Granted? ==> me.pc.item !in me.locks && me.pc.mode != Unlocked)
    && (me.pc.Ending? ==> me.pc.next <= |me.locks| && (me.pc.withdrawn ==> me.pc.next < |me.locks|))
  }

  /** What a lock records of one transaction. */
  ghost predicate PairOk(t: Txn, me: TxnState, i: Item, l: Lock) {
    && (t in l.owners <==> i in Listed(me))
    && (t in l.waiters <==> AtItem(me.pc, i))
    && (t in l.holders <==> i in Held(me) || (me.pc.Granted? && me.pc.item == i))
    && (i in Held(me) ==> l.holders[t] == l.ownership != Unlocked)
    && (me.pc.Granted? && me.pc.item == i ==> l.holders[t] == me.pc.mode)
  }

  /** The mutex excludes as a shared mutex does. */
  ghost predicate Excludes(l: Lock) {
    forall t, u :: t in l.holders && u in l.holders && t != u ==> l.holders[t] == Shared && l.holders[u] == Shared
  }

  /** Whoever waits for a lock has an edge to each owner that is not in its destructor. */
  ghost predicate EdgesOk(s: State, i: Item) {
    forall w, o :: w in LockOf(s, i).waiters && o in LockOf(s, i).owners && !Of(s, o).pc.Ending? ==> Edge(s.graph, w, o)
  }

  ghost predicate Inv(s: State) {
    && (forall t: Txn :: TxnOk(Of(s, t)))
    && (forall t: Txn, i: Item :: PairOk(t, Of(s, t), i, LockOf(s, i)))
    && (forall i: Item :: Excludes(LockOf(s, i)))
    && (forall i: Item :: EdgesOk(s, i))
    && Acyclic(s.graph)
    && !s.misused
  }

  ghost predicate Init(s: State) { s == State(map[], map[], map[], false) }
}
