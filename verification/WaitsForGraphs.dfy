/**
  The waits-for graph as the lock manager updates it. Throwing DeadLockError is the result `threw`.
  Source: task-lock-manager/src/lock_manager.cc.
  */
module WaitsForGraphs {
  import opened WaitsFor

  class WaitsForGraph {
    var graph: Graph

    constructor ()
      ensures graph == map[] && Acyclic(graph)
    {
      graph := map[];
      new;
      EmptyAcyclic();
    }

    /** The depth-first search with its copied set of visited nodes (lock_manager.cc:41-60). */
    method Search(k: Txn, visited: set<Txn>) returns (found: bool)
      requires k in graph
      ensures found == FindDuplicate(graph, k, visited)
      decreases |graph.Keys - visited|
    {
      if k in visited {
        return true;
      }
      var current := visited + {k};
      assert graph.Keys - current < graph.Keys - visited by { assert k in graph.Keys - visited; }
      Smaller(graph.Keys - current, graph.Keys - visited);
      for i := 0 to |graph[k]|
        invariant FindAmong(graph, graph[k], current) == FindAmong(graph, graph[k][i..], current)
      {
        assert graph[k][i..][1..] == graph[k][i + 1..];
        if graph[k][i] !in graph {
          continue;
        }
        var deeper := Search(graph[k][i], current);
        if deeper {
          return true;
        }
      }
      found := false;
    }

    /**
      `t` waits for the owners of a lock. From an acyclic graph the call throws exactly when the
      new edges close a cycle, and it leaves the graph acyclic either way (lock_manager.cc:68-90).
      */
    method AddWaitsFor(t: Txn, owners: seq<Txn>) returns (threw: bool)
      modifies this
      ensures threw <==> WaitCloses(old(graph), t, owners)
      ensures graph == if threw then WithEdges(old(graph), t, owners) - {t} else WithEdges(old(graph), t, owners)
      ensures old(Acyclic(graph)) ==> (threw <==> !Acyclic(WithEdges(old(graph), t, owners))) && Acyclic(graph)
    {
      ghost var g := graph;
      if Acyclic(g) {
        WaitsForExact(g, t, owners);
      }
      hide Acyclic;
      AddEdges(t, owners);
      threw := false;
      for i := 0 to |owners|
        invariant graph == WithEdges(g, t, owners)
        invariant forall j :: 0 <= j < i && owners[j] in graph ==> !FindDuplicate(graph, owners[j], {})
      {
        if owners[i] !in graph {
          continue;
        }
        var found := Search(owners[i], {});
        if found {
          graph := graph - {t};
          return true;
        }
      }
    }

    /** The edges from a transaction to the owners of a lock (lock_manager.cc:72-76). */
    method AddEdges(t: Txn, owners: seq<Txn>)
      modifies this
      ensures graph == WithEdges(old(graph), t, owners)
    {
      ghost var g := graph;
      if t !in graph {
        graph := graph[t := []];
      }
      for i := 0 to |owners|
        invariant graph == g[t := Merge(Row(g, t), owners[..i])]
      {
        assert owners[..i + 1][..i] == owners[..i];
        if owners[i] !in graph[t] {
          graph := graph[t := graph[t] + [owners[i]]];
        }
      }
      assert owners[..|owners|] == owners;
    }

    /**
      The waiters of a lock wait for its new owner. From an acyclic graph the call throws exactly
      when that closes a cycle; the graph is acyclic if it returns, and will be again once the
      owner is removed if it throws (lock_manager.cc:92-112).
      */
    method AddWaiters(owner: Txn, waiters: seq<Txn>) returns (threw: bool)
      modifies this
      ensures threw <==> WaitersClose(old(graph), owner, waiters)
      ensures graph == WithWaiters(old(graph), owner, waiters)
      ensures old(Acyclic(graph)) ==> (threw <==> !Acyclic(graph)) && Acyclic(Without(graph, owner))
    {
      ghost var g := graph;
      for i := 0 to |waiters|
        invariant graph == WithWaiters(g, owner, waiters[..i])
      {
        assert waiters[..i + 1][..i] == waiters[..i];
        ghost var h := graph;
        var w := waiters[i];
        if w !in graph {
          graph := graph[w := []];
        }
        if owner !in graph[w] {
          graph := graph[w := graph[w] + [owner]];
        }
        MergeOne(Row(h, w), owner);
      }
      assert waiters[..|waiters|] == waiters;
      if Acyclic(g) {
        WaitersExact(g, owner, waiters);
      }
      threw := false;
      if owner in graph {
        threw := Search(owner, {});
      }
    }

    /** All edges to and from `t` go (lock_manager.cc:114-122). */
    method RemoveTransaction(t: Txn)
      modifies this
      ensures graph == Without(old(graph), t)
      ensures old(Acyclic(graph)) ==> Acyclic(graph)
    {
      ghost var g := graph;
      if Acyclic(g) {
        WithoutKeeps(g, t);
      }
      graph := graph - {t};
      var left := graph.Keys;
      assert Purging(g, t, graph, left);
      hide Acyclic, Filter, Purging, Without;
      while left != {}
        invariant Purging(g, t, graph, left)
        decreases |left|
      {
        var a :| a in left;
        PurgeRow(g, t, graph, left, a);
        graph := graph[a := Filter(graph[a], t)];
        left := left - {a};
      }
      Purged(g, t, graph);
    }
  }

  /** The rows of `left` still have their edges to `t`. */
  ghost predicate Purging(g: Graph, t: Txn, h: Graph, left: set<Txn>) {
    && h.Keys == g.Keys - {t} && left <= h.Keys
    && forall a :: a in h ==> h[a] == if a in left then g[a] else Filter(g[a], t)
  }

  lemma PurgeRow(g: Graph, t: Txn, h: Graph, left: set<Txn>, a: Txn)
    requires Purging(g, t, h, left) && a in left
    ensures a in h && Purging(g, t, h[a := Filter(h[a], t)], left - {a})
  {
    hide Filter;
    assert h[a := Filter(h[a], t)].Keys == h.Keys;
  }

  lemma Purged(g: Graph, t: Txn, h: Graph)
    requires Purging(g, t, h, {})
    ensures h == Without(g, t)
  {
    hide Filter;
  }

  lemma EmptyAcyclic()
    ensures Acyclic(map[])
  {
    forall p | Walk(map[], p) ensures !Repeats(p) {
      assert |p| < 2 || Edge(map[], p[0], p[1]);
    }
  }

  lemma MergeOne(row: seq<Txn>, x: Txn)
    ensures Merge(row, [x]) == if x in row then row else row + [x]
  {
    assert [x][..0] == [];
    assert Merge(row, []) == row;
  }
}
