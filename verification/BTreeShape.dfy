/**
  What a page store must look like to be a B+-tree, said page by page (no recursion),
  and what the structural changes do to it: leaf updates, splits below a parent, and
  splits of the root.
  Source: task-btree/include/moderndbs/btree.h:343-514, 569-646.
  */
module BTreeShape {
  import opened Collections
  import opened BTreeNodes

  datatype Capacity = Capacity(leaf: nat, inner: nat) {
    ghost predicate Ok() { leaf >= 3 && inner >= 5 }
  }

  /** A page store, its root, and for every page the interval (lo, hi] of its keys and its parent. */
  datatype Shape = Shape(nodes: map<PageId, Node>, root: PageId,
                         lo: map<PageId, Option<Key>>, hi: map<PageId, Option<Key>>,
                         parent: map<PageId, PageId>)

  ghost predicate Above(lo: Option<Key>, key: Key) { lo.Some? ==> lo.value < key }

  ghost predicate UpTo(key: Key, hi: Option<Key>) { hi.Some? ==> key <= hi.value }

  ghost predicate InRange(s: Shape, p: PageId, key: Key)
    requires p in s.lo && p in s.hi
  {
    Above(s.lo[p], key) && UpTo(key, s.hi[p])
  }

  // ---------- well-formedness ----------

  ghost predicate LeafPageOk(s: Shape, cap: Capacity, p: PageId)
    requires p in s.nodes && s.nodes[p].Leaf? && p in s.lo && p in s.hi
  {
    LeafOk(s.nodes[p]) && |s.nodes[p].keys| <= cap.leaf && forall k :: k in s.nodes[p].keys ==> InRange(s, p, k)
  }

  /** Every key lies strictly between the bounds. */
  ghost predicate Inside(keys: seq<Key>, lo: Option<Key>, hi: Option<Key>) {
    forall i :: 0 <= i < |keys| ==> Above(lo, keys[i]) && (hi.Some? ==> keys[i] < hi.value)
  }

  ghost predicate InnerKeysOk(n: Node, lo: Option<Key>, hi: Option<Key>) {
    && n.Inner? && |n.keys| == |n.children| >= 2
    && Sorted(n.Valid())
    && Inside(n.Valid(), lo, hi)
    && (n.keys[|n.keys| - 1] <= n.keys[|n.keys| - 2] || hi == Some(n.keys[|n.keys| - 1]))
  }

  /** The interval of child `i`: keys[i-1] < K <= keys[i]. */
  function ChildLo(n: Node, lo: Option<Key>, i: nat): Option<Key>
    requires n.Inner? && i <= |n.keys|
  {
    if i == 0 then lo else Some(n.keys[i - 1])
  }

  function ChildHi(n: Node, hi: Option<Key>, i: nat): Option<Key>
    requires n.Inner? && i < |n.keys|
  {
    if i == |n.keys| - 1 then hi else Some(n.keys[i])
  }

  ghost predicate ChildOk(s: Shape, p: PageId, i: nat)
    requires p in s.nodes && s.nodes[p].Inner? && i < |s.nodes[p].children| == |s.nodes[p].keys|
    requires p in s.lo && p in s.hi
  {
    var c := s.nodes[p].children[i];
    && c in s.nodes && c in s.lo && c in s.hi && c != s.root
    && c in s.parent && s.parent[c] == p
    && s.nodes[c].Level() + 1 == s.nodes[p].level
    && s.lo[c] == ChildLo(s.nodes[p], s.lo[p], i)
    && s.hi[c] == ChildHi(s.nodes[p], s.hi[p], i)
  }

  ghost predicate Distinct(xs: seq<PageId>) {
    forall i, j :: 0 <= i < j < |xs| ==> xs[i] != xs[j]
  }

  /** The fewest children a non-root inner page keeps. */
  function MinFill(cap: Capacity): nat { if cap.inner == 0 then 0 else (cap.inner - 1) / 2 }

  ghost predicate InnerPageOk(s: Shape, cap: Capacity, p: PageId)
    requires p in s.nodes && s.nodes[p].Inner? && p in s.lo && p in s.hi
  {
    var n := s.nodes[p];
    && n.level >= 1 && InnerKeysOk(n, s.lo[p], s.hi[p])
    && |n.children| <= cap.inner - 1
    && (p != s.root ==> MinFill(cap) <= |n.children|)
    && Distinct(n.children)
    && forall i {:trigger ChildOk(s, p, i)} :: 0 <= i < |n.children| ==> ChildOk(s, p, i)
  }

  ghost predicate PageOk(s: Shape, cap: Capacity, p: PageId)
    requires p in s.nodes
  {
    && p in s.lo && p in s.hi
    && (if s.nodes[p].Leaf? then LeafPageOk(s, cap, p) else InnerPageOk(s, cap, p))
  }

  /** Every page but the root hangs below exactly the parent recorded for it. */
  ghost predicate ParentOk(s: Shape, p: PageId)
    requires p in s.nodes && s.root in s.nodes
  {
    p != s.root ==>
      && p in s.parent && s.parent[p] in s.nodes && s.nodes[s.parent[p]].Inner?
      && p in s.nodes[s.parent[p]].children
      && s.nodes[p].Level() < s.nodes[s.root].Level()
  }

  ghost predicate Wf(s: Shape, cap: Capacity) {
    && cap.Ok()
    && s.root in s.nodes && s.root in s.lo && s.root in s.hi
    && s.lo[s.root] == None && s.hi[s.root] == None
    && (forall p {:trigger PageOk(s, cap, p)} :: p in s.nodes ==> PageOk(s, cap, p))
    && (forall p {:trigger ParentOk(s, p)} :: p in s.nodes ==> ParentOk(s, p))
  }

  lemma LeafPages(s: Shape, cap: Capacity, p: PageId)
    requires Wf(s, cap) && p in s.nodes && s.nodes[p].Leaf?
    ensures LeafOk(s.nodes[p]) && |s.nodes[p].keys| <= cap.leaf
  {
    assert PageOk(s, cap, p);
  }

  // ---------- routing ----------

  /** An inner page sends a key of its interval to the one child whose interval takes it. */
  lemma RouteInRange(s: Shape, cap: Capacity, p: PageId, key: Key)
    requires Wf(s, cap) && p in s.nodes && s.nodes[p].Inner? && PageOk(s, cap, p) && InRange(s, p, key)
    ensures var i := Position(s.nodes[p].Valid(), key);
      i < |s.nodes[p].children| && ChildOk(s, p, i) && InRange(s, s.nodes[p].children[i], key)
  {
    var n := s.nodes[p];
    var i := Position(n.Valid(), key);
    assert i > 0 ==> n.Valid()[i - 1] < key;
    assert ChildOk(s, p, i);
  }

  /** If a child's interval takes a key then so does its parent's, and routing picks that child. */
  lemma ChildInRange(s: Shape, cap: Capacity, p: PageId, i: nat, key: Key)
    requires Wf(s, cap) && p in s.nodes && s.nodes[p].Inner? && i < |s.nodes[p].children|
    requires s.nodes[p].children[i] in s.lo && s.nodes[p].children[i] in s.hi
    requires InRange(s, s.nodes[p].children[i], key)
    ensures p in s.lo && p in s.hi && InRange(s, p, key)
    ensures Position(s.nodes[p].Valid(), key) == i
  {
    var n := s.nodes[p];
    assert PageOk(s, cap, p) && ChildOk(s, p, i);
    var v := n.Valid();
    assert |v| == |n.children| - 1;
    if i > 0 {
      assert v[i - 1] in v && v[i - 1] < key;
    }
    if i < |v| {
      assert v[i] in v && key <= v[i];
    }
    forall j | 0 <= j < i ensures v[j] < key {
      assert v[j] <= v[i - 1];
    }
    PositionIs(v, key, i);
  }

  /** Intervals of pages of one level do not overlap. */
  lemma {:induction false} OnePagePerLevel(s: Shape, cap: Capacity, p: PageId, q: PageId, key: Key)
    requires Wf(s, cap) && p in s.nodes && q in s.nodes && s.nodes[p].Level() == s.nodes[q].Level()
    requires p in s.lo && p in s.hi && q in s.lo && q in s.hi
    requires InRange(s, p, key) && InRange(s, q, key)
    ensures p == q
    decreases s.nodes[s.root].Level() - s.nodes[p].Level()
  {
    assert ParentOk(s, p) && ParentOk(s, q);
    if p != s.root && q != s.root {
      var pp, qp := s.parent[p], s.parent[q];
      var i :| 0 <= i < |s.nodes[pp].children| && s.nodes[pp].children[i] == p;
      var j :| 0 <= j < |s.nodes[qp].children| && s.nodes[qp].children[j] == q;
      assert PageOk(s, cap, pp) && PageOk(s, cap, qp) && ChildOk(s, pp, i) && ChildOk(s, qp, j);
      ChildInRange(s, cap, pp, i, key);
      ChildInRange(s, cap, qp, j, key);
      assert ParentOk(s, pp);
      OnePagePerLevel(s, cap, pp, qp, key);
    }
  }

  // ---------- contents ----------

  ghost predicate Stored(s: Shape, key: Key, value: Value) {
    exists p :: p in s.nodes && Holds(s.nodes[p], key, value)
  }

  /** The map a well-formed tree stands for. */
  ghost function Contents(s: Shape, cap: Capacity): map<Key, Value>
    requires Wf(s, cap)
  {
    OneValuePerKey(s, cap);
    map p, i | p in s.nodes && s.nodes[p].Leaf? && 0 <= i < |s.nodes[p].keys| && i < |s.nodes[p].values|
      :: s.nodes[p].keys[i] := s.nodes[p].values[i]
  }

  lemma OneValuePerKey(s: Shape, cap: Capacity)
    requires Wf(s, cap)
    ensures forall p, q, i, j ::
      && p in s.nodes && s.nodes[p].Leaf? && 0 <= i < |s.nodes[p].keys| && i < |s.nodes[p].values|
      && q in s.nodes && s.nodes[q].Leaf? && 0 <= j < |s.nodes[q].keys| && j < |s.nodes[q].values|
      && s.nodes[p].keys[i] == s.nodes[q].keys[j]
      ==> p == q && i == j
  {
    forall p, q, i, j |
      && p in s.nodes && s.nodes[p].Leaf? && 0 <= i < |s.nodes[p].keys| && i < |s.nodes[p].values|
      && q in s.nodes && s.nodes[q].Leaf? && 0 <= j < |s.nodes[q].keys| && j < |s.nodes[q].values|
      && s.nodes[p].keys[i] == s.nodes[q].keys[j]
      ensures p == q && i == j
    {
      assert PageOk(s, cap, p) && PageOk(s, cap, q);
      var key := s.nodes[p].keys[i];
      assert key in s.nodes[p].keys && key in s.nodes[q].keys;
      OnePagePerLevel(s, cap, p, q, key);
    }
  }

  lemma ContentsStored(s: Shape, cap: Capacity)
    requires Wf(s, cap)
    ensures forall k, v :: k in Contents(s, cap) && Contents(s, cap)[k] == v <==> Stored(s, k, v)
  {
    OneValuePerKey(s, cap);
    forall k, v | Stored(s, k, v) ensures k in Contents(s, cap) && Contents(s, cap)[k] == v {
      var p :| p in s.nodes && Holds(s.nodes[p], k, v);
      var i :| 0 <= i < |s.nodes[p].keys| && i < |s.nodes[p].values| && s.nodes[p].keys[i] == k && s.nodes[p].values[i] == v;
    }
    forall k | k in Contents(s, cap) ensures Stored(s, k, Contents(s, cap)[k]) {
      var p, i :| p in s.nodes && s.nodes[p].Leaf? && 0 <= i < |s.nodes[p].keys| && i < |s.nodes[p].values|
        && s.nodes[p].keys[i] == k;
      assert Holds(s.nodes[p], k, s.nodes[p].values[i]);
    }
  }

  /** Two trees that store the same pairs stand for the same map. */
  lemma SameStored(s: Shape, t: Shape, cap: Capacity)
    requires Wf(s, cap) && Wf(t, cap)
    requires forall k, v :: Stored(s, k, v) <==> Stored(t, k, v)
    ensures Contents(s, cap) == Contents(t, cap)
  {
    ContentsStored(s, cap);
    ContentsStored(t, cap);
    var a, b := Contents(s, cap), Contents(t, cap);
    forall k | k in a ensures k in b && b[k] == a[k] {
      assert Stored(s, k, a[k]);
    }
    forall k | k in b ensures k in a {
      assert Stored(t, k, b[k]);
    }
  }

  /** The leaf whose interval takes `key` decides what is stored under it. */
  lemma LookupMeansContents(s: Shape, cap: Capacity, p: PageId, key: Key)
    requires Wf(s, cap) && p in s.nodes && s.nodes[p].Leaf? && p in s.lo && p in s.hi && InRange(s, p, key)
    requires LeafOk(s.nodes[p])
    ensures LeafLookup(s.nodes[p], key) ==
      if key in Contents(s, cap) then Some(Contents(s, cap)[key]) else None
  {
    ContentsStored(s, cap);
    LeafLookupFinds(s.nodes[p], key);
    forall v ensures Stored(s, key, v) <==> Holds(s.nodes[p], key, v) {
      if Stored(s, key, v) {
        var q :| q in s.nodes && Holds(s.nodes[q], key, v);
        assert PageOk(s, cap, q);
        assert key in s.nodes[q].keys;
        OnePagePerLevel(s, cap, p, q, key);
      }
    }
    if key in Contents(s, cap) {
      assert Stored(s, key, Contents(s, cap)[key]);
    }
    if LeafLookup(s.nodes[p], key).Some? {
      assert Stored(s, key, LeafLookup(s.nodes[p], key).value);
    }
  }

  // ---------- changing one leaf ----------

  function WithLeaf(s: Shape, p: PageId, n: Node): Shape { s.(nodes := s.nodes[p := n]) }

  lemma WithLeafWf(s: Shape, cap: Capacity, p: PageId, n: Node)
    requires Wf(s, cap) && p in s.nodes && s.nodes[p].Leaf? && p in s.lo && p in s.hi
    requires LeafOk(n) && |n.keys| <= cap.leaf && forall k :: k in n.keys ==> InRange(s, p, k)
    ensures Wf(WithLeaf(s, p, n), cap)
  {
    var t := WithLeaf(s, p, n);
    forall q | q in t.nodes ensures PageOk(t, cap, q) && ParentOk(t, q) {
      assert PageOk(s, cap, q) && ParentOk(s, q);
      if q != p && s.nodes[q].Inner? {
        forall i | 0 <= i < |s.nodes[q].children| ensures ChildOk(t, q, i) {
          assert ChildOk(s, q, i);
        }
      }
    }
  }

  lemma InsertIntoLeaf(s: Shape, cap: Capacity, p: PageId, key: Key, value: Value)
    requires Wf(s, cap) && p in s.nodes && s.nodes[p].Leaf? && p in s.lo && p in s.hi && InRange(s, p, key)
    requires |s.nodes[p].keys| == |s.nodes[p].values| < cap.leaf
    ensures var t := WithLeaf(s, p, LeafInsert(s.nodes[p], key, value));
      Wf(t, cap) && Contents(t, cap) == Contents(s, cap)[key := value]
  {
    assert PageOk(s, cap, p);
    var n := LeafInsert(s.nodes[p], key, value);
    LeafInsertHolds(s.nodes[p], key, value);
    WithLeafWf(s, cap, p, n);
    var t := WithLeaf(s, p, n);
    forall k, v ensures Stored(t, k, v) <==> if k == key then v == value else Stored(s, k, v) {
      StoredAfterLeafChange(s, cap, p, n, key, k, v);
    }
    ContentsStored(s, cap);
    ContentsFollowStored(t, cap, Contents(s, cap)[key := value]);
  }

  lemma EraseFromLeaf(s: Shape, cap: Capacity, p: PageId, key: Key)
    requires Wf(s, cap) && p in s.nodes && s.nodes[p].Leaf? && p in s.lo && p in s.hi && InRange(s, p, key)
    requires |s.nodes[p].keys| == |s.nodes[p].values|
    ensures var t := WithLeaf(s, p, LeafErase(s.nodes[p], key));
      Wf(t, cap) && Contents(t, cap) == Contents(s, cap) - {key}
  {
    assert PageOk(s, cap, p);
    var n := LeafErase(s.nodes[p], key);
    LeafEraseHolds(s.nodes[p], key);
    WithLeafWf(s, cap, p, n);
    var t := WithLeaf(s, p, n);
    forall k, v ensures Stored(t, k, v) <==> k != key && Stored(s, k, v) {
      StoredAfterLeafChange(s, cap, p, n, key, k, v);
    }
    ContentsStored(s, cap);
    ContentsFollowStored(t, cap, Contents(s, cap) - {key});
  }

  /** Only the leaf whose interval takes `key` can store it, so changing that leaf decides it. */
  lemma StoredAfterLeafChange(s: Shape, cap: Capacity, p: PageId, n: Node, key: Key, k: Key, v: Value)
    requires Wf(s, cap) && p in s.nodes && s.nodes[p].Leaf? && p in s.lo && p in s.hi && InRange(s, p, key)
    requires forall x, y :: x != key ==> (Holds(n, x, y) <==> Holds(s.nodes[p], x, y))
    ensures k == key ==> (Stored(WithLeaf(s, p, n), k, v) <==> Holds(n, k, v))
    ensures k != key ==> (Stored(WithLeaf(s, p, n), k, v) <==> Stored(s, k, v))
  {
    var t := WithLeaf(s, p, n);
    if Stored(t, k, v) {
      var q :| q in t.nodes && Holds(t.nodes[q], k, v);
      if q != p {
        assert q in s.nodes && Holds(s.nodes[q], k, v) && PageOk(s, cap, q) && k in s.nodes[q].keys;
        if k == key {
          OnePagePerLevel(s, cap, p, q, key);
        }
      }
    }
    if k != key && Stored(s, k, v) {
      var q :| q in s.nodes && Holds(s.nodes[q], k, v);
      assert Holds(t.nodes[q], k, v);
    }
    if Holds(n, k, v) {
      assert Holds(t.nodes[p], k, v);
    }
  }

  lemma ContentsFollowStored(t: Shape, cap: Capacity, m: map<Key, Value>)
    requires Wf(t, cap)
    requires forall k, v :: k in m && m[k] == v <==> Stored(t, k, v)
    ensures Contents(t, cap) == m
  {
    ContentsStored(t, cap);
    var b := Contents(t, cap);
    forall k | k in m ensures k in b && b[k] == m[k] {
      assert Stored(t, k, m[k]);
    }
    forall k | k in b ensures k in m {
      assert Stored(t, k, b[k]);
    }
  }

  /** The tree of a single leaf. */
  ghost function OneLeaf(p: PageId, n: Node): Shape {
    Shape(map[p := n], p, map[p := None], map[p := None], map[])
  }

  lemma SingleLeaf(cap: Capacity, p: PageId, key: Key, value: Value)
    requires cap.Ok()
    ensures var n := LeafInsert(Leaf([], []), key, value);
      Wf(OneLeaf(p, n), cap) && Contents(OneLeaf(p, n), cap) == map[key := value]
  {
    var empty := Leaf([], []);
    LeafInsertHolds(empty, key, value);
    var s := OneLeaf(p, LeafInsert(empty, key, value));
    assert PageOk(s, cap, p) && ParentOk(s, p);
    forall k, v ensures Stored(s, k, v) <==> k == key && v == value {
      assert s.nodes[p] == LeafInsert(empty, key, value);
    }
    ContentsFollowStored(s, cap, map[key := value]);
  }
}
