/**
  The waits-for graph and its depth-first search for a cycle.
  Source: task-lock-manager/src/lock_manager.cc.
  */
module WaitsFor {
  import opened Collections

  type Txn = nat
  type Graph = map<Txn, seq<Txn>>

  // ---------- walks and cycles ----------

  predicate Edge(g: Graph, a: Txn, b: Txn) { a in g && b in g[a] }

  ghost predicate Walk(g: Graph, p: seq<Txn>) {
    forall i :: 0 <= i < |p| - 1 ==> Edge(g, p[i], p[i + 1])
  }

  ghost predicate Repeats(p: seq<Txn>) {
    exists i, j :: 0 <= i < j < |p| && p[i] == p[j]
  }

  /** A cycle can be reached from `k`: some walk from there comes back to where it has been. */
  ghost predicate CycleFrom(g: Graph, k: Txn) {
    exists p :: Walk(g, p) && p != [] && p[0] == k && Repeats(p)
  }

  ghost predicate Acyclic(g: Graph) {
    forall p :: Walk(g, p) ==> !Repeats(p)
  }

  // ---------- the search (lock_manager.cc:41-66) ----------

  function FindDuplicate(g: Graph, k: Txn, visited: set<Txn>): bool
    requires k in g
    decreases |g.Keys - visited|, 0
  {
    if k in visited then true else
      assert g.Keys - (visited + {k}) < g.Keys - visited by { assert k in g.Keys - visited; }
      Smaller(g.Keys - (visited + {k}), g.Keys - visited);
      FindAmong(g, g[k], visited + {k})
  }

  function FindAmong(g: Graph, next: seq<Txn>, visited: set<Txn>): bool
    decreases |g.Keys - visited|, 1 + |next|
  {
    if next == [] then false
    else if next[0] in g && FindDuplicate(g, next[0], visited) then true
    else FindAmong(g, next[1..], visited)
  }

  lemma {:induction false} Smaller(a: set<Txn>, b: set<Txn>)
    requires a < b
    ensures |a| < |b|
  {
    if a != {} {
      var x :| x in a;
      Smaller(a - {x}, b - {x});
    }
  }

  lemma {:induction false} AmongIs(g: Graph, next: seq<Txn>, visited: set<Txn>)
    ensures FindAmong(g, next, visited) <==> exists x :: x in next && x in g && FindDuplicate(g, x, visited)
  {
    if next != [] {
      AmongIs(g, next[1..], visited);
      assert forall x :: x in next <==> x == next[0] || x in next[1..];
    }
  }

  lemma ElementsAppend(w: seq<Txn>, k: Txn)
    ensures Elements(w + [k]) == Elements(w) + {k}
  {
  }

  lemma WalkAppend(g: Graph, w: seq<Txn>, k: Txn, x: Txn)
    requires Walk(g, w + [k]) && Edge(g, k, x)
    ensures Walk(g, w + [k] + [x])
  {
    forall i | 0 <= i < |w| + 1 ensures Edge(g, (w + [k] + [x])[i], (w + [k] + [x])[i + 1]) {
      if i < |w| {
        assert Edge(g, (w + [k])[i], (w + [k])[i + 1]);
      }
    }
  }

  /** What the search finds: the walk behind it goes on to a node it has been at. */
  lemma {:induction false} FoundIsWalk(g: Graph, k: Txn, w: seq<Txn>) returns (p: seq<Txn>)
    requires k in g && Walk(g, w + [k])
    requires FindDuplicate(g, k, Elements(w))
    ensures Walk(g, p) && Repeats(p) && w + [k] <= p
    decreases |g.Keys - Elements(w)|
  {
    var visited := Elements(w);
    if k in visited {
      p := w + [k];
      var i :| 0 <= i < |w| && w[i] == k;
      assert p[i] == p[|w|];
    } else {
      ElementsAppend(w, k);
      AmongIs(g, g[k], visited + {k});
      var x :| x in g[k] && x in g && FindDuplicate(g, x, visited + {k});
      assert g.Keys - (visited + {k}) < g.Keys - visited by { assert k in g.Keys - visited; }
      Smaller(g.Keys - (visited + {k}), g.Keys - visited);
      WalkAppend(g, w, k, x);
      p := FoundIsWalk(g, x, w + [k]);
    }
  }

  /** A walk into the visited set is found. */
  lemma {:induction false} WalkIntoVisited(g: Graph, p: seq<Txn>, visited: set<Txn>)
    requires Walk(g, p) && p != [] && p[|p| - 1] in visited && p[|p| - 1] in g
    ensures p[0] in g && FindDuplicate(g, p[0], visited)
    decreases |p|
  {
    if |p| > 1 {
      assert Edge(g, p[0], p[1]);
      if p[0] !in visited {
        WalkIntoVisited(g, p[1..], visited + {p[0]});
        AmongIs(g, g[p[0]], visited + {p[0]});
      }
    }
  }

  /** A walk that comes back to where it has been is found. */
  lemma {:induction false} RepeatIsFound(g: Graph, p: seq<Txn>, visited: set<Txn>)
    requires Walk(g, p) && p != [] && Repeats(p)
    ensures p[0] in g && FindDuplicate(g, p[0], visited)
    decreases |p|
  {
    var i, j :| 0 <= i < j < |p| && p[i] == p[j];
    assert Edge(g, p[0], p[1]) && Edge(g, p[i], p[i + 1]);
    if p[0] !in visited {
      if i == 0 {
        WalkIntoVisited(g, p[1..j + 1], visited + {p[0]});
      } else {
        assert p[1..][i - 1] == p[1..][j - 1];
        RepeatIsFound(g, p[1..], visited + {p[0]});
      }
      AmongIs(g, g[p[0]], visited + {p[0]});
    }
  }

  /** The search answers exactly whether a cycle can be reached. */
  lemma FindDuplicateExact(g: Graph, k: Txn)
    requires k in g
    ensures FindDuplicate(g, k, {}) <==> CycleFrom(g, k)
  {
    if FindDuplicate(g, k, {}) {
      assert Elements<Txn>([]) == {} && [] + [k] == [k];
      var p := FoundIsWalk(g, k, []);
    }
    if CycleFrom(g, k) {
      var p :| Walk(g, p) && p != [] && p[0] == k && Repeats(p);
      RepeatIsFound(g, p, {});
    }
  }

  // ---------- cycles closed by new edges ----------

  /** The edges of `h` are edges of `g`, or they lead from `from` to `to`. */
  ghost predicate AddsOnly(g: Graph, h: Graph, from: set<Txn>, to: set<Txn>) {
    forall a, b :: Edge(h, a, b) ==> Edge(g, a, b) || (a in from && b in to)
  }

  lemma FewerEdges(g: Graph, h: Graph)
    requires Acyclic(g) && forall a, b :: Edge(h, a, b) ==> Edge(g, a, b)
    ensures Acyclic(h)
  {
    forall p | Walk(h, p) ensures !Repeats(p) {
      assert Walk(g, p) by {
        forall i | 0 <= i < |p| - 1 ensures Edge(g, p[i], p[i + 1]) {
          assert Edge(h, p[i], p[i + 1]);
        }
      }
    }
  }

  lemma SubWalk(g: Graph, p: seq<Txn>, i: nat, j: nat)
    requires Walk(g, p) && i <= j <= |p|
    ensures Walk(g, p[i..j])
  {
    forall k | 0 <= k < j - i - 1 ensures Edge(g, p[i..j][k], p[i..j][k + 1]) {
      assert Edge(g, p[i + k], p[i + k + 1]);
    }
  }

  /** A cycle as a walk that ends where it began. */
  ghost predicate Closed(g: Graph, c: seq<Txn>) {
    Walk(g, c) && |c| >= 2 && c[0] == c[|c| - 1]
  }

  lemma ClosedWalk(g: Graph) returns (c: seq<Txn>)
    requires !Acyclic(g)
    ensures Closed(g, c)
  {
    var p :| Walk(g, p) && Repeats(p);
    var i, j :| 0 <= i < j < |p| && p[i] == p[j];
    c := p[i..j + 1];
    SubWalk(g, p, i, j + 1);
  }

  /** From each of its nodes it goes on. */
  lemma GoesOn(g: Graph, c: seq<Txn>, m: nat) returns (y: Txn)
    requires Closed(g, c) && m < |c|
    ensures Edge(g, c[m], y) && exists k :: 0 <= k < |c| && c[k] == y
  {
    var k := if m == |c| - 1 then 1 else m + 1;
    y := c[k];
    assert Edge(g, c[k - 1], c[k]);
  }

  /** A cycle that was not there before goes through the target of a new edge. */
  lemma NewCycle(g: Graph, h: Graph, from: set<Txn>, to: set<Txn>, p: seq<Txn>) returns (b: Txn)
    requires Acyclic(g) && AddsOnly(g, h, from, to)
    requires Walk(h, p) && Repeats(p)
    ensures b in to && b in h && CycleFrom(h, b)
  {
    var i, j :| 0 <= i < j < |p| && p[i] == p[j];
    var c := p[i..j + 1];
    SubWalk(h, p, i, j + 1);
    assert |c| >= 2 && c[0] == c[|c| - 1];
    hide Repeats, Edge;
    var k := BrokenStep(g, c);
    assert Edge(h, c[k], c[k + 1]);
    b := c[k + 1];
    Rotated(h, c, k + 1);
    assert b in to;
  }

  /** A closed walk is none in an acyclic graph. */
  lemma BrokenStep(g: Graph, c: seq<Txn>) returns (k: nat)
    requires Acyclic(g) && |c| >= 2 && c[0] == c[|c| - 1]
    ensures k < |c| - 1 && !Edge(g, c[k], c[k + 1])
  {
    assert Repeats(c);
    k :| 0 <= k < |c| - 1 && !Edge(g, c[k], c[k + 1]);
  }

  lemma FirstEdge(g: Graph, p: seq<Txn>)
    requires Walk(g, p) && |p| >= 2
    ensures p[0] in g
  {
    assert Edge(g, p[0], p[1]);
  }

  /** A closed walk can be started at any of its nodes. */
  lemma Rotated(g: Graph, c: seq<Txn>, k: nat)
    requires Walk(g, c) && 1 <= k < |c| && c[0] == c[|c| - 1]
    ensures c[k] in g && CycleFrom(g, c[k])
  {
    var q := c[k..] + c[1..k + 1];
    var turn := |c| - 1 - k;
    assert forall m :: 0 <= m <= turn ==> q[m] == c[k + m];
    assert forall m :: turn < m < |q| ==> q[m] == c[m - turn];
    hide Edge;
    forall m | 0 <= m < |q| - 1 ensures Edge(g, q[m], q[m + 1]) {
      if m < turn {
        assert Edge(g, c[k + m], c[k + m + 1]);
      } else {
        assert q[m] == c[m - turn];
        assert Edge(g, c[m - turn], c[m - turn + 1]);
      }
    }
    assert q[0] == c[k] && q[|q| - 1] == c[k];
    assert Walk(g, q);
    FirstEdge(g, q);
  }

  // ---------- the operations on values ----------

  function Row(g: Graph, t: Txn): seq<Txn> { if t in g then g[t] else [] }

  /** `row` with each of `more` that it lacks, in order. */
  function Merge(row: seq<Txn>, more: seq<Txn>): (r: seq<Txn>)
    ensures forall x :: x in r <==> x in row || x in more
  {
    if more == [] then row
    else
      var rest := Merge(row, more[..|more| - 1]);
      var x := more[|more| - 1];
      assert more == more[..|more| - 1] + [x];
      if x in rest then rest else rest + [x]
  }

  function WithEdges(g: Graph, t: Txn, owners: seq<Txn>): Graph { g[t := Merge(Row(g, t), owners)] }

  /** An edge from each waiter to the owner. */
  function WithWaiters(g: Graph, owner: Txn, waiters: seq<Txn>): Graph {
    if waiters == [] then g
    else
      var rest := WithWaiters(g, owner, waiters[..|waiters| - 1]);
      WithEdges(rest, waiters[|waiters| - 1], [owner])
  }

  function Filter(row: seq<Txn>, t: Txn): (r: seq<Txn>)
    ensures forall x :: x in r <==> x in row && x != t
  {
    if row == [] then []
    else
      var rest := Filter(row[..|row| - 1], t);
      assert row == row[..|row| - 1] + [row[|row| - 1]];
      if row[|row| - 1] == t then rest else rest + [row[|row| - 1]]
  }

  function Without(g: Graph, t: Txn): Graph {
    map a | a in g && a != t :: Filter(g[a], t)
  }

  lemma WithEdgesIs(g: Graph, t: Txn, owners: seq<Txn>)
    ensures forall a, b :: Edge(WithEdges(g, t, owners), a, b) <==> Edge(g, a, b) || (a == t && b in owners)
  {
  }

  lemma {:induction false} WithWaitersIs(g: Graph, owner: Txn, waiters: seq<Txn>)
    ensures forall a, b :: Edge(WithWaiters(g, owner, waiters), a, b) <==> Edge(g, a, b) || (b == owner && a in waiters)
  {
    if waiters != [] {
      var n := |waiters| - 1;
      WithWaitersIs(g, owner, waiters[..n]);
      WithEdgesIs(WithWaiters(g, owner, waiters[..n]), waiters[n], [owner]);
      assert waiters == waiters[..n] + [waiters[n]];
    }
  }

  lemma WithoutIs(g: Graph, t: Txn)
    ensures forall a, b :: Edge(Without(g, t), a, b) <==> Edge(g, a, b) && a != t && b != t
  {
  }

  /** A cycle through some owner is found from it. */
  ghost predicate WaitCloses(g: Graph, t: Txn, owners: seq<Txn>) {
    exists o :: o in owners && o in WithEdges(g, t, owners) && FindDuplicate(WithEdges(g, t, owners), o, {})
  }

  /** From an acyclic graph, waiting is refused exactly when its edges would close a cycle. */
  lemma WaitsForExact(g: Graph, t: Txn, owners: seq<Txn>)
    requires Acyclic(g)
    ensures WaitCloses(g, t, owners) <==> !Acyclic(WithEdges(g, t, owners))
    ensures Acyclic(WithEdges(g, t, owners) - {t})
  {
    var h := WithEdges(g, t, owners);
    WithEdgesIs(g, t, owners);
    FewerEdges(g, h - {t});
    if !Acyclic(h) {
      var p :| Walk(h, p) && Repeats(p);
      var o := NewCycle(g, h, {t}, Elements(owners), p);
      FindDuplicateExact(h, o);
    }
    if WaitCloses(g, t, owners) {
      var o :| o in owners && o in h && FindDuplicate(h, o, {});
      FindDuplicateExact(h, o);
    }
  }

  ghost predicate WaitersClose(g: Graph, owner: Txn, waiters: seq<Txn>) {
    owner in WithWaiters(g, owner, waiters) && FindDuplicate(WithWaiters(g, owner, waiters), owner, {})
  }

  /** From an acyclic graph, a new owner is refused exactly when its waiters would close a cycle, and removing it mends the graph. */
  lemma WaitersExact(g: Graph, owner: Txn, waiters: seq<Txn>)
    requires Acyclic(g)
    ensures WaitersClose(g, owner, waiters) <==> !Acyclic(WithWaiters(g, owner, waiters))
    ensures Acyclic(Without(WithWaiters(g, owner, waiters), owner))
  {
    var h := WithWaiters(g, owner, waiters);
    WithWaitersIs(g, owner, waiters);
    WithoutIs(h, owner);
    FewerEdges(g, Without(h, owner));
    if !Acyclic(h) {
      var p :| Walk(h, p) && Repeats(p);
      var o := NewCycle(g, h, Elements(waiters), {owner}, p);
      FindDuplicateExact(h, o);
    }
    if WaitersClose(g, owner, waiters) {
      FindDuplicateExact(h, owner);
    }
  }

  lemma WithoutKeeps(g: Graph, t: Txn)
    requires Acyclic(g)
    ensures Acyclic(Without(g, t))
  {
    WithoutIs(g, t);
    FewerEdges(g, Without(g, t));
  }
}
