/**
  Splitting a page, below a parent with room or at the root, keeps the tree well formed
  and the map it stands for.
  Source: task-btree/include/moderndbs/btree.h:144-189, 301-314, 372-414, 450-487, 589-623.
  */
module BTreeSplit {
  import opened Collections
  import opened BTreeNodes
  import opened BTreeShape

  /** The pages the code splits: full leaves, and inner pages with at most one place left. */
  ghost predicate MustSplit(n: Node, cap: Capacity) {
    if n.Leaf? then |n.keys| == cap.leaf else |n.keys| >= cap.inner - 1
  }

  /** Both halves of a page have room for one more entry, or for two more children, as the code asserts, and are about half full. */
  predicate HasRoom(n: Node, cap: Capacity) {
    if n.Leaf? then (cap.leaf - 1) / 2 <= |n.keys| < cap.leaf else MinFill(cap) <= |n.children| < cap.inner - 1
  }

  lemma HalvesHaveRoom(s: Shape, cap: Capacity, c: PageId)
    requires Wf(s, cap) && c in s.nodes && MustSplit(s.nodes[c], cap) && PageOk(s, cap, c)
    requires Paired(s.nodes[c]) && 0 < Cut(s.nodes[c]) < |s.nodes[c].keys|
    ensures HasRoom(SplitLeft(s.nodes[c]), cap) && HasRoom(SplitRight(s.nodes[c]), cap)
    ensures SplitLeft(s.nodes[c]).Level() == SplitRight(s.nodes[c]).Level() == s.nodes[c].Level()
  {
  }

  /** The separator lies strictly inside the page's interval. */
  lemma SeparatorInside(s: Shape, cap: Capacity, c: PageId)
    requires Wf(s, cap) && c in s.nodes && MustSplit(s.nodes[c], cap)
    ensures c in s.lo && c in s.hi && 0 < Cut(s.nodes[c]) < |s.nodes[c].keys|
    ensures Above(s.lo[c], Separator(s.nodes[c]))
    ensures s.hi[c].Some? ==> Separator(s.nodes[c]) < s.hi[c].value
  {
    var n := s.nodes[c];
    assert PageOk(s, cap, c);
    if n.Leaf? {
      assert n.keys[Cut(n) - 1] in n.keys && n.keys[Cut(n)] in n.keys;
      assert n.keys[Cut(n) - 1] < n.keys[Cut(n)];
    } else {
      assert n.Valid()[Cut(n) - 1] == Separator(n);
      assert Separator(n) in n.Valid();
    }
  }

  /** The three assertions of InnerNode::insert hold when the separator of a child is pushed up. */
  lemma SeparatorPlace(s: Shape, cap: Capacity, p: PageId, i: nat)
    requires Wf(s, cap) && p in s.nodes && s.nodes[p].Inner? && PageOk(s, cap, p) && i < |s.nodes[p].children|
    requires s.nodes[p].children[i] in s.nodes && MustSplit(s.nodes[s.nodes[p].children[i]], cap)
    ensures Position(s.nodes[p].Valid(), Separator(s.nodes[s.nodes[p].children[i]])) == i
    ensures i < |s.nodes[p].keys| && s.nodes[p].keys[i] != Separator(s.nodes[s.nodes[p].children[i]])
    ensures Above(s.lo[p], Separator(s.nodes[s.nodes[p].children[i]]))
    ensures s.hi[p].Some? ==> Separator(s.nodes[s.nodes[p].children[i]]) < s.hi[p].value
  {
    var c := s.nodes[p].children[i];
    var sep := Separator(s.nodes[c]);
    SeparatorInside(s, cap, c);
    assert PageOk(s, cap, p) && ChildOk(s, p, i);
    ChildInRange(s, cap, p, i, sep);
    var v := s.nodes[p].Valid();
    if i == |v| && i > 0 {
      assert v[i - 1] < sep;
    }
    if i < |v| {
      assert v[i] in v;
    }
  }

  /** The parents once `n` is page `r` below `p`: its children move with it. */
  function Adopt(parent: map<PageId, PageId>, n: Node, r: PageId, p: PageId): map<PageId, PageId> {
    map q | q in parent.Keys + {r} ::
      if q == r then p else if n.Inner? && q in n.children then r else parent[q]
  }

  /** Both arrays of a node have the same length. */
  ghost predicate Paired(n: Node) {
    if n.Leaf? then |n.keys| == |n.values| else |n.keys| == |n.children|
  }

  /** `c` is child `i` of `p` and must be split; `p` has room for one more child; `r` is unused. */
  ghost predicate CanSplitBelow(s: Shape, cap: Capacity, p: PageId, i: nat, c: PageId, r: PageId) {
    && Wf(s, cap)
    && p in s.nodes && s.nodes[p].Inner? && i < |s.nodes[p].children| < cap.inner - 1
    && s.nodes[p].children[i] == c && c in s.nodes && MustSplit(s.nodes[c], cap)
    && r !in s.nodes
    // which implies
    && PageOk(s, cap, p) && PageOk(s, cap, c) && ChildOk(s, p, i)
    && Paired(s.nodes[c]) && 0 < Cut(s.nodes[c]) < |s.nodes[c].keys|
  }

  lemma MaySplitBelow(s: Shape, cap: Capacity, p: PageId, i: nat, c: PageId, r: PageId)
    requires Wf(s, cap)
    requires p in s.nodes && s.nodes[p].Inner? && i < |s.nodes[p].children| < cap.inner - 1
    requires s.nodes[p].children[i] == c && c in s.nodes && MustSplit(s.nodes[c], cap)
    requires r !in s.nodes
    ensures CanSplitBelow(s, cap, p, i, c, r)
  {
    assert PageOk(s, cap, p) && ChildOk(s, p, i) && PageOk(s, cap, c);
  }

  ghost function SplitBelow(s: Shape, p: PageId, c: PageId, r: PageId): Shape
    requires p in s.nodes && c in s.nodes && c in s.hi
    requires s.nodes[p].Inner? && Paired(s.nodes[p]) && |s.nodes[p].keys| >= 1
    requires Paired(s.nodes[c]) && 0 < Cut(s.nodes[c]) <= |s.nodes[c].keys|
  {
    var n := s.nodes[c];
    var sep := Separator(n);
    Shape(s.nodes[c := SplitLeft(n)][r := SplitRight(n)][p := InnerInsert(s.nodes[p], sep, r)],
          s.root,
          s.lo[r := Some(sep)],
          s.hi[c := Some(sep)][r := s.hi[c]],
          Adopt(s.parent, SplitRight(n), r, p))
  }

  // ---------- what any split changes ----------

  /** `t` is `s` with page `c` cut into `c` and the new page `r`; pages in `touched` may differ too. */
  ghost predicate IsCut(s: Shape, t: Shape, c: PageId, r: PageId, touched: set<PageId>)
    requires c in s.nodes && c in s.hi && Paired(s.nodes[c]) && 0 < Cut(s.nodes[c]) <= |s.nodes[c].keys|
  {
    CutNodes(s, t, c, r, touched) && CutBounds(s, t, c, r) && CutParents(s, t, c, r, touched)
  }

  ghost predicate CutNodes(s: Shape, t: Shape, c: PageId, r: PageId, touched: set<PageId>)
    requires c in s.nodes && Paired(s.nodes[c]) && 0 < Cut(s.nodes[c]) <= |s.nodes[c].keys|
  {
    && c in t.nodes && t.nodes[c] == SplitLeft(s.nodes[c])
    && r in t.nodes && t.nodes[r] == SplitRight(s.nodes[c])
    && (forall q :: q in s.nodes && q != c && q !in touched ==> q in t.nodes && t.nodes[q] == s.nodes[q])
    && (forall q :: q in t.nodes && q != r && q !in touched ==> q in s.nodes)
  }

  ghost predicate CutBounds(s: Shape, t: Shape, c: PageId, r: PageId)
    requires c in s.nodes && c in s.hi && 0 < Cut(s.nodes[c]) <= |s.nodes[c].keys|
  {
    var sep := Separator(s.nodes[c]);
    && r in t.lo && t.lo[r] == Some(sep)
    && (forall q :: q in s.lo && q in s.nodes ==> q in t.lo && t.lo[q] == s.lo[q])
    && c in t.hi && t.hi[c] == Some(sep) && r in t.hi && t.hi[r] == s.hi[c]
    && (forall q :: q in s.hi && q in s.nodes && q != c ==> q in t.hi && t.hi[q] == s.hi[q])
  }

  ghost predicate CutParents(s: Shape, t: Shape, c: PageId, r: PageId, touched: set<PageId>)
    requires c in s.nodes && Paired(s.nodes[c]) && Cut(s.nodes[c]) <= |s.nodes[c].keys|
  {
    var n := s.nodes[c];
    && (forall q :: q in s.parent && q in s.nodes && q != s.root && s.parent[q] != c && q !in touched ==>
          q in t.parent && t.parent[q] == s.parent[q])
    && (n.Inner? ==> forall j :: 0 <= j < Cut(n) ==> n.children[j] in t.parent && t.parent[n.children[j]] == c)
    && (n.Inner? ==> forall j :: Cut(n) <= j < |n.children| ==> n.children[j] in t.parent && t.parent[n.children[j]] == r)
  }

  lemma SplitBelowIsCut(s: Shape, cap: Capacity, p: PageId, i: nat, c: PageId, r: PageId)
    requires CanSplitBelow(s, cap, p, i, c, r)
    ensures IsCut(s, SplitBelow(s, p, c, r), c, r, {p})
    ensures SplitBelow(s, p, c, r).root == s.root
    ensures var t := SplitBelow(s, p, c, r);
      && p in t.nodes && t.nodes[p] == InnerInsert(s.nodes[p], Separator(s.nodes[c]), r)
      && r in t.parent && t.parent[r] == p
      && (p in s.parent ==> p in t.parent && t.parent[p] == s.parent[p])
  {
    SplitBelowCutsNodes(s, cap, p, i, c, r);
    SplitBelowCutsParents(s, cap, p, i, c, r);
  }

  lemma SplitBelowCutsNodes(s: Shape, cap: Capacity, p: PageId, i: nat, c: PageId, r: PageId)
    requires CanSplitBelow(s, cap, p, i, c, r)
    ensures CutNodes(s, SplitBelow(s, p, c, r), c, r, {p}) && CutBounds(s, SplitBelow(s, p, c, r), c, r)
  {
    hide Wf, PageOk, SplitLeft, SplitRight, InnerInsert, Adopt;
  }

  lemma SplitBelowCutsParents(s: Shape, cap: Capacity, p: PageId, i: nat, c: PageId, r: PageId)
    requires CanSplitBelow(s, cap, p, i, c, r)
    ensures CutParents(s, SplitBelow(s, p, c, r), c, r, {p})
    ensures var t := SplitBelow(s, p, c, r);
      r in t.parent && t.parent[r] == p && (p in s.parent ==> p in t.parent && t.parent[p] == s.parent[p])
  {
    var n := s.nodes[c];
    ChildrenBelow(s, cap, c);
    AdoptMoves(s.parent, n, c, r, p);
    assert n.Inner? && p in s.parent && s.parent[p] == c ==> p !in n.children;
  }

  lemma ChildrenBelow(s: Shape, cap: Capacity, c: PageId)
    requires c in s.nodes && PageOk(s, cap, c)
    ensures s.nodes[c].Inner? ==> Distinct(s.nodes[c].children)
    ensures s.nodes[c].Inner? ==> forall x :: x in s.nodes[c].children ==>
      && x in s.nodes && x in s.parent && s.parent[x] == c && x != s.root
      && s.nodes[x].Level() + 1 == s.nodes[c].level
  {
    if s.nodes[c].Inner? {
      forall x | x in s.nodes[c].children
        ensures x in s.nodes && x in s.parent && s.parent[x] == c && x != s.root
        ensures s.nodes[x].Level() + 1 == s.nodes[c].level
      {
        var j :| 0 <= j < |s.nodes[c].children| && s.nodes[c].children[j] == x;
        assert ChildOk(s, c, j);
      }
    }
  }

  lemma AdoptMoves(parent: map<PageId, PageId>, n: Node, c: PageId, r: PageId, p: PageId)
    requires Paired(n) && Cut(n) <= |n.keys|
    requires n.Inner? ==> Distinct(n.children)
    requires n.Inner? ==> forall x :: x in n.children ==> x in parent && parent[x] == c && x != r
    ensures var a := Adopt(parent, SplitRight(n), r, p);
      && r in a && a[r] == p
      && (forall q :: q in parent && parent[q] != c && q != r ==> q in a && a[q] == parent[q])
      && (n.Inner? ==> forall j :: 0 <= j < Cut(n) ==> n.children[j] in a && a[n.children[j]] == c)
      && (n.Inner? ==> forall j :: Cut(n) <= j < |n.children| ==> n.children[j] in a && a[n.children[j]] == r)
  {
    if n.Inner? {
      var right := SplitRight(n).children;
      assert forall q :: q in right ==> q in n.children;
      forall j | 0 <= j < Cut(n) ensures n.children[j] !in right && n.children[j] in n.children {
        forall k | 0 <= k < |right| ensures right[k] != n.children[j] {
          assert right[k] == n.children[k + Cut(n)];
        }
      }
      forall j | Cut(n) <= j < |n.children| ensures n.children[j] in right {
        assert right[j - Cut(n)] == n.children[j];
      }
    }
  }

  /** Both halves of a leaf are good leaves of their intervals. */
  lemma LeafHalvesOk(s: Shape, t: Shape, cap: Capacity, c: PageId, r: PageId, touched: set<PageId>)
    requires Wf(s, cap) && c in s.nodes && MustSplit(s.nodes[c], cap) && PageOk(s, cap, c) && s.nodes[c].Leaf?
    requires Paired(s.nodes[c]) && 0 < Cut(s.nodes[c]) < |s.nodes[c].keys| && IsCut(s, t, c, r, touched)
    ensures PageOk(t, cap, c) && PageOk(t, cap, r)
  {
    var n := s.nodes[c];
    LeafSplitHolds(n);
    SeparatorInside(s, cap, c);
    assert forall j :: 0 <= j < Cut(n) ==> n.keys[j] in n.keys && n.keys[j] <= Separator(n);
    assert forall j :: Cut(n) <= j < |n.keys| ==> n.keys[j] in n.keys && Separator(n) < n.keys[j];
    forall k | k in t.nodes[c].keys ensures InRange(t, c, k) {
      assert k in n.keys;
    }
    forall k | k in t.nodes[r].keys ensures InRange(t, r, k) {
      assert k in n.keys;
    }
  }

  lemma HalvesOfInner(n: Node, cap: Capacity, lo: Option<Key>, hi: Option<Key>)
    requires n.Inner? && InnerKeysOk(n, lo, hi) && cap.Ok() && |n.keys| == cap.inner - 1
    ensures InnerKeysOk(SplitLeft(n), lo, Some(Separator(n)))
    ensures InnerKeysOk(SplitRight(n), Some(Separator(n)), hi)
    ensures MinFill(cap) <= |SplitLeft(n).children| < cap.inner - 1
    ensures MinFill(cap) <= |SplitRight(n).children| < cap.inner - 1
  {
    var l, r, c := SplitLeft(n), SplitRight(n), Cut(n);
    var v := n.Valid();
    assert l.Valid() == v[..c - 1];
    assert r.Valid() == v[c..];
    assert v[c - 1] == Separator(n) == l.keys[|l.keys| - 1];
    assert r.keys[|r.keys| - 1] == n.keys[|n.keys| - 1] && r.keys[|r.keys| - 2] == n.keys[|n.keys| - 2];
  }

  /** A child keeps its place as child `j` of `q` when its bounds, level and parent agree. */
  lemma ChildKept(s: Shape, t: Shape, cap: Capacity, c: PageId, r: PageId, touched: set<PageId>, x: PageId)
    requires c in s.nodes && c in s.hi && Paired(s.nodes[c]) && 0 < Cut(s.nodes[c]) <= |s.nodes[c].keys|
    requires IsCut(s, t, c, r, touched) && x in s.nodes && x in s.lo && x in s.hi && x !in touched
    ensures x in t.nodes && t.nodes[x].Level() == s.nodes[x].Level()
    ensures x in t.lo && t.lo[x] == s.lo[x]
    ensures x in t.hi && (x != c ==> t.hi[x] == s.hi[x])
  {
  }

  /** What the split of an inner page needs: its children are none of the pages whose links change. */
  ghost predicate CutInner(s: Shape, t: Shape, cap: Capacity, c: PageId, r: PageId, touched: set<PageId>) {
    && Wf(s, cap) && c in s.nodes && MustSplit(s.nodes[c], cap) && PageOk(s, cap, c) && s.nodes[c].Inner?
    && Paired(s.nodes[c]) && 0 < Cut(s.nodes[c]) < |s.nodes[c].keys| && IsCut(s, t, c, r, touched)
    && forall j :: 0 <= j < |s.nodes[c].children| ==>
         s.nodes[c].children[j] !in touched && s.nodes[c].children[j] != t.root && s.nodes[c].children[j] != c
  }

  lemma LeftHalfOk(s: Shape, t: Shape, cap: Capacity, c: PageId, r: PageId, touched: set<PageId>)
    requires CutInner(s, t, cap, c, r, touched)
    ensures PageOk(t, cap, c)
  {
    var n := s.nodes[c];
    HalvesOfInner(n, cap, s.lo[c], s.hi[c]);
    forall j | 0 <= j < |t.nodes[c].children| ensures ChildOk(t, c, j) {
      assert ChildOk(s, c, j);
      ChildKept(s, t, cap, c, r, touched, n.children[j]);
    }
  }

  lemma RightHalfOk(s: Shape, t: Shape, cap: Capacity, c: PageId, r: PageId, touched: set<PageId>)
    requires CutInner(s, t, cap, c, r, touched)
    ensures PageOk(t, cap, r)
  {
    var n := s.nodes[c];
    HalvesOfInner(n, cap, s.lo[c], s.hi[c]);
    forall j | 0 <= j < |t.nodes[r].children| ensures ChildOk(t, r, j) {
      assert ChildOk(s, c, j + Cut(n));
      ChildKept(s, t, cap, c, r, touched, n.children[j + Cut(n)]);
    }
  }

  /** Both halves of a page are good pages of their intervals. */
  lemma HalvesOk(s: Shape, t: Shape, cap: Capacity, c: PageId, r: PageId, touched: set<PageId>)
    requires Wf(s, cap) && c in s.nodes && MustSplit(s.nodes[c], cap) && PageOk(s, cap, c)
    requires Paired(s.nodes[c]) && 0 < Cut(s.nodes[c]) < |s.nodes[c].keys| && IsCut(s, t, c, r, touched)
    requires s.nodes[c].Inner? ==> CutInner(s, t, cap, c, r, touched)
    ensures PageOk(t, cap, c) && PageOk(t, cap, r)
  {
    if s.nodes[c].Leaf? {
      LeafHalvesOk(s, t, cap, c, r, touched);
    } else {
      LeftHalfOk(s, t, cap, c, r, touched);
      RightHalfOk(s, t, cap, c, r, touched);
    }
  }

  /** A page that is neither cut nor touched keeps its children. */
  lemma OtherPageOk(s: Shape, t: Shape, cap: Capacity, c: PageId, r: PageId, touched: set<PageId>, q: PageId)
    requires Wf(s, cap) && c in s.nodes && c in s.hi && Paired(s.nodes[c]) && 0 < Cut(s.nodes[c]) <= |s.nodes[c].keys|
    requires IsCut(s, t, c, r, touched) && q in s.nodes && q != c && q !in touched && PageOk(s, cap, q)
    requires q == s.root <==> q == t.root
    requires s.nodes[q].Inner? ==> forall x :: x in s.nodes[q].children ==>
      && x != t.root && x != c
      && (x in touched ==> x in s.nodes && x in t.nodes && t.nodes[x].Level() == s.nodes[x].Level()
                           && x in t.parent && t.parent[x] == q)
    ensures PageOk(t, cap, q)
  {
    if s.nodes[q].Inner? {
      forall j | 0 <= j < |s.nodes[q].children| ensures ChildOk(t, q, j) {
        var x := s.nodes[q].children[j];
        assert ChildOk(s, q, j) && x in s.nodes[q].children;
      }
    }
  }

  /** Every page of `s` that hung below a recorded parent still does, below the parent now recorded. */
  lemma StillBelow(s: Shape, t: Shape, cap: Capacity, c: PageId, r: PageId, touched: set<PageId>, q: PageId)
    requires Wf(s, cap) && c in s.nodes && PageOk(s, cap, c)
    requires Paired(s.nodes[c]) && 0 < Cut(s.nodes[c]) < |s.nodes[c].keys| && IsCut(s, t, c, r, touched)
    requires q in s.nodes && q != s.root && ParentOk(s, q) && s.parent[q] !in touched && q !in touched
    ensures InParent(t, q)
  {
    var pq := s.parent[q];
    var j :| 0 <= j < |s.nodes[pq].children| && s.nodes[pq].children[j] == q;
    if pq == c {
      var n := s.nodes[c];
      if j < Cut(n) {
        assert t.nodes[c].children[j] == q;
      } else {
        assert t.nodes[r].children[j - Cut(n)] == q;
      }
    }
  }

  // ---------- splitting below a parent ----------

  /** The parent's keys after the separator came in at the place of the split child. */
  lemma InnerInsertKeysOk(n: Node, i: nat, key: Key, r: PageId, lo: Option<Key>, hi: Option<Key>)
    requires InnerKeysOk(n, lo, hi) && i < |n.keys| && Position(n.Valid(), key) == i && n.keys[i] != key
    requires Above(lo, key) && (hi.Some? ==> key < hi.value)
    ensures InnerKeysOk(InnerInsert(n, key, r), lo, hi)
  {
    InsertedKeysFit(n.Valid(), i, key, lo, hi);
    InsertedValid(n, i, key, r);
    InsertedLast(n, i, key, r);
    assert InnerInsert(n, key, r).Inner? && |InnerInsert(n, key, r).children| == |n.keys| + 1 by {
      InsertedChildren(n, i, key, r);
    }
    hide InnerInsert, Sorted, Inside;
  }

  lemma InsertedKeysFit(v: seq<Key>, i: nat, key: Key, lo: Option<Key>, hi: Option<Key>)
    requires Sorted(v) && Inside(v, lo, hi) && i == Position(v, key) && (i < |v| ==> v[i] != key)
    requires Above(lo, key) && (hi.Some? ==> key < hi.value)
    ensures Sorted(v[..i] + [key] + v[i..]) && Inside(v[..i] + [key] + v[i..], lo, hi)
  {
    SortedInsert(v, i, key);
  }

  /** The last, invalid key stays at most the last valid one unless it is the upper bound. */
  lemma InsertedLast(n: Node, i: nat, key: Key, r: PageId)
    requires n.Inner? && Paired(n) && 2 <= |n.keys| && i < |n.keys| && Position(n.Valid(), key) == i
    ensures var m := InnerInsert(n, key, r); var c := |n.keys|;
      |m.keys| == c + 1 && (m.keys[c] == m.keys[c - 1] || (m.keys[c] == n.keys[c - 1] && m.keys[c - 1] == n.keys[c - 2]))
  {
  }

  lemma InsertedValid(n: Node, i: nat, key: Key, r: PageId)
    requires n.Inner? && Paired(n) && 1 <= |n.keys| && i < |n.keys| && Position(n.Valid(), key) == i
    ensures InnerInsert(n, key, r).Valid() == n.Valid()[..i] + [key] + n.Valid()[i..]
  {
    var k, c := n.keys, |n.keys|;
    assert n.Valid()[..i] == k[..i] && n.Valid()[i..] == k[i..c - 1];
    if i == c - 1 {
      assert k[i..c - 1] == [];
      AllButLast(k[..i] + [key], [key]);
    } else {
      AllButLast(k[..i] + [key], k[i..]);
    }
  }

  lemma AllButLast(a: seq<Key>, b: seq<Key>)
    requires b != []
    ensures (a + b)[..|a + b| - 1] == a + b[..|b| - 1]
  {
  }

  /** The children around the split one keep their intervals; the split one's interval is shared. */
  lemma ParentPageOk(s: Shape, t: Shape, cap: Capacity, p: PageId, i: nat, c: PageId, r: PageId)
    requires CanSplitBelow(s, cap, p, i, c, r) && IsCut(s, t, c, r, {p}) && t.root == s.root
    requires p in t.nodes && t.nodes[p] == InnerInsert(s.nodes[p], Separator(s.nodes[c]), r)
    requires r in t.parent && t.parent[r] == p
    ensures PageOk(t, cap, p)
  {
    var n, m := s.nodes[p], t.nodes[p];
    var sep := Separator(s.nodes[c]);
    SeparatorPlace(s, cap, p, i);
    InnerInsertKeysOk(n, i, sep, r, s.lo[p], s.hi[p]);
    InsertedChildren(n, i, sep, r);
    ChildrenBelow(s, cap, p);
    forall j | 0 <= j < |m.children| ensures ChildOk(t, p, j) {
      InsertedChildOk(s, t, cap, p, i, c, r, j);
    }
    assert r !in n.children;
    InsertedDistinct(n, i, sep, r);
  }

  lemma InsertedDistinct(n: Node, i: nat, key: Key, r: PageId)
    requires n.Inner? && Paired(n) && 1 <= |n.keys| && i < |n.keys| && Position(n.Valid(), key) == i
    requires Distinct(n.children) && r !in n.children
    ensures Distinct(InnerInsert(n, key, r).children)
  {
    InsertedChildren(n, i, key, r);
    assert forall j :: 0 <= j < |n.children| ==> n.children[j] in n.children;
  }

  lemma InsertedChildOk(s: Shape, t: Shape, cap: Capacity, p: PageId, i: nat, c: PageId, r: PageId, j: nat)
    requires CanSplitBelow(s, cap, p, i, c, r) && IsCut(s, t, c, r, {p}) && t.root == s.root
    requires Position(s.nodes[p].Valid(), Separator(s.nodes[c])) == i
    requires p in t.nodes && t.nodes[p] == InnerInsert(s.nodes[p], Separator(s.nodes[c]), r)
    requires r in t.parent && t.parent[r] == p && j <= |s.nodes[p].children|
    ensures |t.nodes[p].children| == |t.nodes[p].keys| == |s.nodes[p].children| + 1
    ensures p in t.lo && p in t.hi && ChildOk(t, p, j)
  {
    var n := s.nodes[p];
    InsertedIntervals(n, i, Separator(s.nodes[c]), r, s.lo[p], s.hi[p], j);
    ChildrenBelow(s, cap, p);
    var k := if j <= i then j else j - 1;
    assert ChildOk(s, p, k) && n.children[k] in n.children;
    if k != i {
      assert n.children[k] != n.children[i];
    }
  }

  /** The intervals of the children after an insertion: only child `i`'s interval is parted, at `key`. */
  lemma InsertedIntervals(n: Node, i: nat, key: Key, r: PageId, lo: Option<Key>, hi: Option<Key>, j: nat)
    requires n.Inner? && Paired(n) && 1 <= |n.keys| && i < |n.keys| && Position(n.Valid(), key) == i
    requires j <= |n.keys|
    ensures var m := InnerInsert(n, key, r);
      && |m.keys| == |m.children| == |n.keys| + 1 && m.level == n.level
      && m.children[j] == (if j <= i then n.children[j] else if j == i + 1 then r else n.children[j - 1])
      && ChildLo(m, lo, j) == (if j <= i then ChildLo(n, lo, j) else if j == i + 1 then Some(key) else ChildLo(n, lo, j - 1))
      && ChildHi(m, hi, j) == (if j < i then ChildHi(n, hi, j) else if j == i then Some(key) else ChildHi(n, hi, j - 1))
  {
    InsertedChildren(n, i, key, r);
  }

  lemma InsertedChildren(n: Node, i: nat, key: Key, r: PageId)
    requires n.Inner? && Paired(n) && 1 <= |n.keys| && i < |n.keys| && Position(n.Valid(), key) == i
    ensures var m := InnerInsert(n, key, r);
      && |m.children| == |m.keys| == |n.children| + 1
      && m.children[i + 1] == r && m.keys[i] == key
      && (forall j :: 0 <= j <= i ==> m.children[j] == n.children[j])
      && (forall j :: i + 1 < j < |m.children| ==> m.children[j] == n.children[j - 1])
      && (forall j :: 0 <= j < i ==> m.keys[j] == n.keys[j])
      && (forall j :: i < j < |m.keys| - 1 ==> m.keys[j] == n.keys[j - 1])
      && m.keys[|n.keys|] == if i == |n.keys| - 1 then key else n.keys[|n.keys| - 1]
  {
  }

  lemma InsertedCount(n: Node, key: Key, r: PageId)
    requires n.Inner? && Paired(n) && 2 <= |n.keys| && Position(n.Valid(), key) < |n.keys|
    ensures InnerInsert(n, key, r).Inner? && |InnerInsert(n, key, r).children| == |n.children| + 1
  {
    InsertedChildren(n, Position(n.Valid(), key), key, r);
  }

  /** Pre-emptive splitting keeps the tree well formed. */
  lemma SplitBelowWf(s: Shape, cap: Capacity, p: PageId, i: nat, c: PageId, r: PageId)
    requires CanSplitBelow(s, cap, p, i, c, r)
    ensures Wf(SplitBelow(s, p, c, r), cap)
  {
    var t := SplitBelow(s, p, c, r);
    SplitBelowIsCut(s, cap, p, i, c, r);
    SplitBelowPages(s, t, cap, p, i, c, r);
    SplitBelowParents(s, t, cap, p, i, c, r);
  }

  lemma SplitBelowPages(s: Shape, t: Shape, cap: Capacity, p: PageId, i: nat, c: PageId, r: PageId)
    requires CanSplitBelow(s, cap, p, i, c, r) && IsCut(s, t, c, r, {p}) && t.root == s.root
    requires p in t.nodes && t.nodes[p] == InnerInsert(s.nodes[p], Separator(s.nodes[c]), r)
    requires r in t.parent && t.parent[r] == p && (p in s.parent ==> p in t.parent && t.parent[p] == s.parent[p])
    ensures forall q :: q in t.nodes ==> PageOk(t, cap, q)
  {
    forall q | q in t.nodes ensures PageOk(t, cap, q) {
      if q == p {
        ParentPageOk(s, t, cap, p, i, c, r);
      } else if q == c || q == r {
        ChildrenBelow(s, cap, c);
        HalvesOk(s, t, cap, c, r, {p});
      } else {
        assert PageOk(s, cap, q);
        ChildrenBelow(s, cap, q);
        OtherPageOk(s, t, cap, c, r, {p}, q);
      }
    }
  }

  lemma SplitBelowParents(s: Shape, t: Shape, cap: Capacity, p: PageId, i: nat, c: PageId, r: PageId)
    requires CanSplitBelow(s, cap, p, i, c, r) && IsCut(s, t, c, r, {p}) && t.root == s.root
    requires p in t.nodes && t.nodes[p] == InnerInsert(s.nodes[p], Separator(s.nodes[c]), r)
    requires r in t.parent && t.parent[r] == p && (p in s.parent ==> p in t.parent && t.parent[p] == s.parent[p])
    ensures t.root in t.nodes && forall q :: q in t.nodes ==> ParentOk(t, q)
  {
    assert ParentOk(s, c) && ParentOk(s, p);
    forall q | q in t.nodes ensures ParentOk(t, q) {
      if q == r {
        NewPageParented(s, t, cap, p, i, c, r);
      } else {
        assert ParentOk(s, q);
        if q != s.root {
          StillParented(s, t, cap, p, i, c, r, q);
        }
      }
      hide Wf, PageOk, IsCut, InnerInsert, SplitLeft, SplitRight, MustSplit;
    }
  }

  /** The new page hangs next to the one it was cut from. */
  lemma NewPageParented(s: Shape, t: Shape, cap: Capacity, p: PageId, i: nat, c: PageId, r: PageId)
    requires CanSplitBelow(s, cap, p, i, c, r) && IsCut(s, t, c, r, {p}) && t.root == s.root
    requires p in t.nodes && t.nodes[p] == InnerInsert(s.nodes[p], Separator(s.nodes[c]), r)
    requires r in t.parent && t.parent[r] == p && ParentOk(s, c) && ParentOk(s, p)
    ensures t.root in t.nodes && ParentOk(t, r)
  {
    SeparatorPlace(s, cap, p, i);
    InsertedChildren(s.nodes[p], i, Separator(s.nodes[c]), r);
    assert t.nodes[p].children[i + 1] == r;
    LevelStays(s, t, p, c, r, s.root);
    assert t.nodes[r].Level() == s.nodes[c].Level();
    hide Wf, PageOk, IsCut, InnerInsert, SplitLeft, SplitRight, MustSplit;
  }

  /** A page other than the new one is still below its parent. */
  lemma StillParented(s: Shape, t: Shape, cap: Capacity, p: PageId, i: nat, c: PageId, r: PageId, q: PageId)
    requires CanSplitBelow(s, cap, p, i, c, r) && IsCut(s, t, c, r, {p}) && t.root == s.root
    requires p in t.nodes && t.nodes[p] == InnerInsert(s.nodes[p], Separator(s.nodes[c]), r)
    requires p in s.parent ==> p in t.parent && t.parent[p] == s.parent[p]
    requires q in t.nodes && q != r && q != s.root && ParentOk(s, q)
    ensures ParentOk(t, q)
  {
    LevelStays(s, t, p, c, r, q);
    LevelStays(s, t, p, c, r, s.root);
    if s.parent[q] == p {
      BelowSameParent(s, t, cap, p, i, c, r, q);
    } else if q == p {
      GrandparentStays(s, t, cap, p, i, c, r);
    } else {
      StillBelow(s, t, cap, c, r, {p}, q);
    }
    hide Wf, PageOk, IsCut, InnerInsert, SplitLeft, SplitRight, MustSplit, InParent, Node.Level;
    IsParentOk(s, t, q);
  }

  /** `q` is among the children of the parent recorded for it. */
  ghost predicate InParent(t: Shape, q: PageId) {
    && q in t.parent && t.parent[q] in t.nodes && t.nodes[t.parent[q]].Inner?
    && q in t.nodes[t.parent[q]].children
  }

  lemma IsParentOk(s: Shape, t: Shape, q: PageId)
    requires q in s.nodes && q in t.nodes && s.root in s.nodes && t.root == s.root && t.root in t.nodes
    requires q != s.root && ParentOk(s, q) && InParent(t, q)
    requires t.nodes[q].Level() == s.nodes[q].Level() && t.nodes[t.root].Level() == s.nodes[s.root].Level()
    ensures ParentOk(t, q)
  {
  }

  lemma BelowSameParent(s: Shape, t: Shape, cap: Capacity, p: PageId, i: nat, c: PageId, r: PageId, q: PageId)
    requires CanSplitBelow(s, cap, p, i, c, r) && IsCut(s, t, c, r, {p})
    requires p in t.nodes && t.nodes[p] == InnerInsert(s.nodes[p], Separator(s.nodes[c]), r)
    requires q in s.nodes && q != s.root && ParentOk(s, q) && s.parent[q] == p
    ensures InParent(t, q)
  {
    SeparatorPlace(s, cap, p, i);
    InsertedKeeps(s.nodes[p], i, Separator(s.nodes[c]), r, q);
    assert q != p by {
      assert PageOk(s, cap, p);
      ChildrenBelow(s, cap, p);
    }
    assert c != p by {
      assert ChildOk(s, p, i);
    }
    hide Wf, PageOk, InnerInsert, SplitLeft, SplitRight, MustSplit, CutNodes, CutBounds;
  }

  lemma LevelStays(s: Shape, t: Shape, p: PageId, c: PageId, r: PageId, q: PageId)
    requires c in s.nodes && c in s.hi && Paired(s.nodes[c]) && 0 < Cut(s.nodes[c]) <= |s.nodes[c].keys|
    requires IsCut(s, t, c, r, {p}) && p in s.nodes && s.nodes[p].Inner? && Paired(s.nodes[p]) && |s.nodes[p].keys| >= 1
    requires p in t.nodes && t.nodes[p] == InnerInsert(s.nodes[p], Separator(s.nodes[c]), r)
    requires q == s.root || (q in t.nodes && q != r)
    requires s.root in s.nodes
    ensures q in s.nodes && q in t.nodes && t.nodes[q].Level() == s.nodes[q].Level()
  {
    hide CutParents, CutBounds;
  }

  lemma InsertedKeeps(n: Node, i: nat, key: Key, r: PageId, q: PageId)
    requires n.Inner? && Paired(n) && 1 <= |n.keys| && i < |n.keys| && Position(n.Valid(), key) == i && q in n.children
    ensures InnerInsert(n, key, r).Inner? && q in InnerInsert(n, key, r).children
  {
    InsertedChildren(n, i, key, r);
    var j :| 0 <= j < |n.children| && n.children[j] == q;
    assert InnerInsert(n, key, r).children[if j <= i then j else j + 1] == q;
  }

  /** The parent of `p` is higher up than `p` and `c`, so it is as it was. */
  lemma GrandparentStays(s: Shape, t: Shape, cap: Capacity, p: PageId, i: nat, c: PageId, r: PageId)
    requires CanSplitBelow(s, cap, p, i, c, r) && IsCut(s, t, c, r, {p}) && p != s.root && ParentOk(s, p)
    requires p in s.parent ==> p in t.parent && t.parent[p] == s.parent[p]
    ensures InParent(t, p)
  {
    var pp := s.parent[p];
    var j :| 0 <= j < |s.nodes[pp].children| && s.nodes[pp].children[j] == p;
    assert PageOk(s, cap, pp) && ChildOk(s, pp, j) && ChildOk(s, p, i);
    hide Wf, PageOk, SplitLeft, SplitRight, MustSplit, CutParents, CutBounds;
  }

  // ---------- splitting the root ----------

  /** The root `c` is cut into `c` and `r`, below the new root `top`. */
  ghost function SplitRoot(s: Shape, r: PageId, top: PageId): Shape
    requires s.root in s.nodes && s.root in s.hi
    requires Paired(s.nodes[s.root]) && 0 < Cut(s.nodes[s.root]) <= |s.nodes[s.root].keys|
  {
    var n := s.nodes[s.root];
    var sep := Separator(n);
    Shape(s.nodes[s.root := SplitLeft(n)][r := SplitRight(n)][top := Inner(n.Level() + 1, [sep, sep], [s.root, r])],
          top,
          s.lo[r := Some(sep)][top := None],
          s.hi[s.root := Some(sep)][r := s.hi[s.root]][top := None],
          Adopt(s.parent, SplitRight(n), r, top)[s.root := top])
  }

  ghost predicate CanSplitRoot(s: Shape, cap: Capacity, r: PageId, top: PageId) {
    && Wf(s, cap) && MustSplit(s.nodes[s.root], cap)
    && r !in s.nodes && top !in s.nodes && r != top
    // which implies
    && PageOk(s, cap, s.root) && Paired(s.nodes[s.root]) && 0 < Cut(s.nodes[s.root]) < |s.nodes[s.root].keys|
  }

  lemma MaySplitRoot(s: Shape, cap: Capacity, r: PageId, top: PageId)
    requires Wf(s, cap) && MustSplit(s.nodes[s.root], cap)
    requires r !in s.nodes && top !in s.nodes && r != top
    ensures CanSplitRoot(s, cap, r, top)
  {
    assert PageOk(s, cap, s.root);
  }

  lemma SplitRootIsCut(s: Shape, cap: Capacity, r: PageId, top: PageId)
    requires CanSplitRoot(s, cap, r, top)
    ensures IsCut(s, SplitRoot(s, r, top), s.root, r, {top})
  {
    SplitRootCutsNodes(s, cap, r, top);
    SplitRootCutsBounds(s, cap, r, top);
    SplitRootCutsParents(s, cap, r, top);
  }

  lemma SplitRootCutsNodes(s: Shape, cap: Capacity, r: PageId, top: PageId)
    requires CanSplitRoot(s, cap, r, top)
    ensures CutNodes(s, SplitRoot(s, r, top), s.root, r, {top})
  {
    hide PageOk, SplitLeft, SplitRight;
  }

  lemma SplitRootCutsBounds(s: Shape, cap: Capacity, r: PageId, top: PageId)
    requires CanSplitRoot(s, cap, r, top)
    ensures CutBounds(s, SplitRoot(s, r, top), s.root, r)
  {
    hide PageOk, SplitLeft, SplitRight;
  }

  lemma SplitRootCutsParents(s: Shape, cap: Capacity, r: PageId, top: PageId)
    requires CanSplitRoot(s, cap, r, top)
    ensures CutParents(s, SplitRoot(s, r, top), s.root, r, {top})
  {
    var n := s.nodes[s.root];
    ChildrenBelow(s, cap, s.root);
    AdoptMoves(s.parent, n, s.root, r, top);
    hide Wf, PageOk, SplitLeft, SplitRight, Adopt;
    assert n.Inner? ==> forall j :: 0 <= j < |n.children| ==> n.children[j] in n.children;
  }

  lemma SplitRootPages(s: Shape, t: Shape, cap: Capacity, r: PageId, top: PageId)
    requires CanSplitRoot(s, cap, r, top) && t == SplitRoot(s, r, top) && IsCut(s, t, s.root, r, {top})
    ensures forall q :: q in t.nodes ==> PageOk(t, cap, q)
  {
    NewRootOk(s, t, cap, r, top);
    ChildrenBelow(s, cap, s.root);
    HalvesOk(s, t, cap, s.root, r, {top});
    forall q | q in t.nodes ensures PageOk(t, cap, q) {
      if q != top && q != s.root && q != r {
        assert PageOk(s, cap, q);
        ChildrenBelow(s, cap, q);
        hide Wf, SplitLeft, SplitRight, MustSplit, CutBounds, CutParents;
        OtherPageOk(s, t, cap, s.root, r, {top}, q);
      }
    }
  }

  /** The new root has the two halves as its children. */
  lemma NewRootOk(s: Shape, t: Shape, cap: Capacity, r: PageId, top: PageId)
    requires CanSplitRoot(s, cap, r, top) && t == SplitRoot(s, r, top) && IsCut(s, t, s.root, r, {top})
    ensures PageOk(t, cap, top)
  {
    forall j | 0 <= j < 2 ensures ChildOk(t, top, j) {
    }
  }

  lemma SplitRootParents(s: Shape, t: Shape, cap: Capacity, r: PageId, top: PageId)
    requires CanSplitRoot(s, cap, r, top) && t == SplitRoot(s, r, top) && IsCut(s, t, s.root, r, {top})
    ensures forall q :: q in t.nodes ==> ParentOk(t, q)
  {
    forall q | q in t.nodes ensures ParentOk(t, q) {
      if q == r {
        assert t.nodes[top].children[1] == r;
      } else if q == s.root {
        assert t.nodes[top].children[0] == q;
      } else if q != top {
        assert ParentOk(s, q);
        StillBelow(s, t, cap, s.root, r, {top}, q);
      }
    }
  }

  /** Growing the tree by a level keeps it well formed. */
  lemma SplitRootWf(s: Shape, cap: Capacity, r: PageId, top: PageId)
    requires CanSplitRoot(s, cap, r, top)
    ensures Wf(SplitRoot(s, r, top), cap)
  {
    SplitRootIsCut(s, cap, r, top);
    SplitRootPages(s, SplitRoot(s, r, top), cap, r, top);
    SplitRootParents(s, SplitRoot(s, r, top), cap, r, top);
  }

  /** After a split the code goes on with the half whose interval takes the key, and that half is safe. */
  ghost predicate HalfTaken(s: Shape, t: Shape, cap: Capacity, c: PageId, r: PageId, key: Key)
    requires c in s.nodes && 0 < Cut(s.nodes[c]) <= |s.nodes[c].keys|
  {
    var q := if Separator(s.nodes[c]) < key then r else c;
    && q in t.nodes && q in t.lo && q in t.hi && InRange(t, q, key) && t.nodes[q].Leaf? == s.nodes[c].Leaf?
    && t.nodes[q].Level() == s.nodes[c].Level()
    && (if t.nodes[q].Leaf? then |t.nodes[q].keys| < cap.leaf else |t.nodes[q].children| < cap.inner - 1)
  }

  lemma HalfTakesKey(s: Shape, t: Shape, cap: Capacity, c: PageId, r: PageId, touched: set<PageId>, key: Key)
    requires Wf(s, cap) && c in s.nodes && MustSplit(s.nodes[c], cap) && PageOk(s, cap, c)
    requires Paired(s.nodes[c]) && 0 < Cut(s.nodes[c]) < |s.nodes[c].keys| && IsCut(s, t, c, r, touched)
    requires InRange(s, c, key)
    ensures HalfTaken(s, t, cap, c, r, key)
  {
    if s.nodes[c].Inner? {
      HalvesOfInner(s.nodes[c], cap, s.lo[c], s.hi[c]);
    }
  }

  lemma SplitBelowTakesKey(s: Shape, cap: Capacity, p: PageId, i: nat, c: PageId, r: PageId, key: Key)
    requires CanSplitBelow(s, cap, p, i, c, r) && InRange(s, c, key)
    ensures HalfTaken(s, SplitBelow(s, p, c, r), cap, c, r, key)
  {
    SplitBelowIsCut(s, cap, p, i, c, r);
    HalfTakesKey(s, SplitBelow(s, p, c, r), cap, c, r, {p}, key);
  }

  lemma SplitRootTakesKey(s: Shape, cap: Capacity, r: PageId, top: PageId, key: Key)
    requires CanSplitRoot(s, cap, r, top)
    ensures HalfTaken(s, SplitRoot(s, r, top), cap, s.root, r, key)
  {
    SplitRootIsCut(s, cap, r, top);
    HalfTakesKey(s, SplitRoot(s, r, top), cap, s.root, r, {top}, key);
  }

  // ---------- contents ----------

  /** Cutting a page, and changing inner pages only, loses and adds no pair. */
  lemma CutStores(s: Shape, t: Shape, cap: Capacity, c: PageId, r: PageId, touched: set<PageId>)
    requires Wf(s, cap) && c in s.nodes && MustSplit(s.nodes[c], cap) && PageOk(s, cap, c)
    requires Paired(s.nodes[c]) && 0 < Cut(s.nodes[c]) < |s.nodes[c].keys| && IsCut(s, t, c, r, touched)
    requires forall q :: q in touched ==> (q in s.nodes ==> s.nodes[q].Inner?) && (q in t.nodes ==> t.nodes[q].Inner?)
    ensures forall k, v :: Stored(s, k, v) <==> Stored(t, k, v)
  {
    if s.nodes[c].Leaf? {
      LeafSplitHolds(s.nodes[c]);
    }
    forall k, v | Stored(s, k, v) ensures Stored(t, k, v) {
      var q :| q in s.nodes && Holds(s.nodes[q], k, v);
      if q == c {
        assert Holds(t.nodes[if k <= Separator(s.nodes[c]) then c else r], k, v);
      } else {
        assert Holds(t.nodes[q], k, v);
      }
    }
    forall k, v | Stored(t, k, v) ensures Stored(s, k, v) {
      var q :| q in t.nodes && Holds(t.nodes[q], k, v);
      if q == c || q == r {
        assert Holds(s.nodes[c], k, v);
      } else {
        assert Holds(s.nodes[q], k, v);
      }
    }
  }

  /** A split below a parent leaves the map the tree stands for as it is. */
  lemma SplitBelowContents(s: Shape, cap: Capacity, p: PageId, i: nat, c: PageId, r: PageId)
    requires CanSplitBelow(s, cap, p, i, c, r)
    ensures Wf(SplitBelow(s, p, c, r), cap) && Contents(SplitBelow(s, p, c, r), cap) == Contents(s, cap)
  {
    SplitBelowWf(s, cap, p, i, c, r);
    SplitBelowIsCut(s, cap, p, i, c, r);
    CutStores(s, SplitBelow(s, p, c, r), cap, c, r, {p});
    SameStored(s, SplitBelow(s, p, c, r), cap);
  }

  /** So does a split of the root. */
  lemma SplitRootContents(s: Shape, cap: Capacity, r: PageId, top: PageId)
    requires CanSplitRoot(s, cap, r, top)
    ensures Wf(SplitRoot(s, r, top), cap) && Contents(SplitRoot(s, r, top), cap) == Contents(s, cap)
  {
    SplitRootWf(s, cap, r, top);
    SplitRootIsCut(s, cap, r, top);
    CutStores(s, SplitRoot(s, r, top), cap, s.root, r, {top});
    SameStored(s, SplitRoot(s, r, top), cap);
  }

  // ---------- what the steps of a split in place do to the pages ----------

  /** The pages once `c` is cut in two and nothing else has changed. */
  ghost function Halved(s: Shape, c: PageId, r: PageId): map<PageId, Node>
    requires c in s.nodes && Paired(s.nodes[c]) && 0 < Cut(s.nodes[c]) <= |s.nodes[c].keys|
  {
    s.nodes[c := SplitLeft(s.nodes[c])][r := SplitRight(s.nodes[c])]
  }

  /** Then the separator goes into the parent, whose node may take it. */
  lemma SplitBelowInPlace(s: Shape, cap: Capacity, p: PageId, i: nat, c: PageId, r: PageId)
    requires CanSplitBelow(s, cap, p, i, c, r)
    ensures var m, sep := Halved(s, c, r), Separator(s.nodes[c]);
      && p in m && MayPush(m[p], cap, sep, c)
      && SplitBelow(s, p, c, r).nodes == m[p := InnerInsert(m[p], sep, r)]
    ensures SplitBelow(s, p, c, r).nodes.Keys == s.nodes.Keys + {r} && SplitBelow(s, p, c, r).root == s.root
    ensures |s.nodes[c].keys| <= (if s.nodes[c].Leaf? then cap.leaf else cap.inner - 1)
  {
    SeparatorPlace(s, cap, p, i);
    assert p != c && p != r;
    hide SplitLeft, SplitRight, InnerInsert, Wf;
  }

  /** The parent has room, and the separator of its child `c` is new in it. */
  ghost predicate MayPush(n: Node, cap: Capacity, separator: Key, c: PageId) {
    && n.Inner? && Paired(n) && 2 <= |n.keys| < cap.inner - 1 && Sorted(n.Valid())
    && Position(n.Valid(), separator) < |n.keys| && separator != n.keys[Position(n.Valid(), separator)]
    && c == n.children[Position(n.Valid(), separator)]
  }

  /** What the code asserts of the three pages after a split below a parent. */
  ghost predicate RoomBelow(s: Shape, cap: Capacity, p: PageId, c: PageId, r: PageId) {
    && c in s.nodes && r in s.nodes && HasRoom(s.nodes[c], cap) && HasRoom(s.nodes[r], cap)
    && p in s.nodes && s.nodes[p].Inner? && 2 <= |s.nodes[p].children| < cap.inner
  }

  lemma SplitBelowRoom(s: Shape, cap: Capacity, p: PageId, i: nat, c: PageId, r: PageId)
    requires CanSplitBelow(s, cap, p, i, c, r)
    ensures RoomBelow(SplitBelow(s, p, c, r), cap, p, c, r)
  {
    SeparatorPlace(s, cap, p, i);
    HalvesHaveRoom(s, cap, c);
    InsertedCount(s.nodes[p], Separator(s.nodes[c]), r);
    assert p != c && p != r && c != r;
    hide SplitLeft, SplitRight, InnerInsert, Wf, HasRoom;
  }

  /** The new root goes above the halves. */
  lemma SplitRootInPlace(s: Shape, cap: Capacity, r: PageId, top: PageId)
    requires CanSplitRoot(s, cap, r, top)
    ensures var m, sep := Halved(s, s.root, r), Separator(s.nodes[s.root]);
      && s.root in m
      && SplitRoot(s, r, top).nodes == m[top := Inner(m[s.root].Level() + 1, [sep, sep], [s.root, r])]
    ensures SplitRoot(s, r, top).nodes.Keys == s.nodes.Keys + {r, top} && SplitRoot(s, r, top).root == top
    ensures |s.nodes[s.root].keys| <= (if s.nodes[s.root].Leaf? then cap.leaf else cap.inner - 1)
  {
    HalvesHaveRoom(s, cap, s.root);
  }

  /** What the code asserts of the pages after a split of the root. */
  ghost predicate RoomAbove(s: Shape, cap: Capacity, c: PageId, r: PageId) {
    && c in s.nodes && r in s.nodes && HasRoom(s.nodes[c], cap) && HasRoom(s.nodes[r], cap)
    && s.root in s.nodes && s.nodes[s.root].Inner? && |s.nodes[s.root].children| == 2
  }

  lemma SplitRootRoom(s: Shape, cap: Capacity, r: PageId, top: PageId)
    requires CanSplitRoot(s, cap, r, top)
    ensures RoomAbove(SplitRoot(s, r, top), cap, s.root, r)
  {
    HalvesHaveRoom(s, cap, s.root);
    hide SplitLeft, SplitRight, Wf, HasRoom;
  }

  /** `t` is `s` after the split, and the pages get there by cutting `c` and telling its parent. */
  ghost predicate SplitBelowTo(s: Shape, t: Shape, cap: Capacity, p: PageId, c: PageId, r: PageId) {
    && p in s.nodes && c in s.nodes && c in s.hi && s.nodes[p].Inner? && Paired(s.nodes[p]) && |s.nodes[p].keys| >= 1
    && MayCut(s.nodes[c], cap) && t == SplitBelow(s, p, c, r)
    && p in Halved(s, c, r) && MayPush(Halved(s, c, r)[p], cap, Separator(s.nodes[c]), c)
    && t.nodes == Halved(s, c, r)[p := InnerInsert(Halved(s, c, r)[p], Separator(s.nodes[c]), r)]
  }

  /** A full page that fits its node object. */
  ghost predicate MayCut(n: Node, cap: Capacity) {
    && cap.Ok() && MustSplit(n, cap) && Paired(n) && 0 < Cut(n) <= |n.keys|
    && |n.keys| <= (if n.Leaf? then cap.leaf else cap.inner - 1)
  }

  /** All that a split below a parent keeps. */
  lemma SplitBelowDone(s: Shape, cap: Capacity, p: PageId, i: nat, c: PageId, r: PageId) returns (t: Shape)
    requires CanSplitBelow(s, cap, p, i, c, r)
    ensures SplitBelowTo(s, t, cap, p, c, r) && t.root == s.root && t.nodes.Keys == s.nodes.Keys + {r}
    ensures Wf(t, cap) && Contents(t, cap) == Contents(s, cap) && RoomBelow(t, cap, p, c, r)
  {
    t := SplitBelow(s, p, c, r);
    SplitBelowContents(s, cap, p, i, c, r);
    SplitBelowRoom(s, cap, p, i, c, r);
    SplitBelowInPlace(s, cap, p, i, c, r);
    hide Contents, RoomBelow, MayPush, SplitBelow, InnerInsert, Halved, ChildOk;
  }

  ghost predicate SplitRootTo(s: Shape, t: Shape, cap: Capacity, r: PageId, top: PageId) {
    && s.root in s.nodes && s.root in s.hi && MayCut(s.nodes[s.root], cap) && t == SplitRoot(s, r, top)
    && s.root in Halved(s, s.root, r)
    && var sep := Separator(s.nodes[s.root]);
       t.nodes == Halved(s, s.root, r)[top := Inner(Halved(s, s.root, r)[s.root].Level() + 1, [sep, sep], [s.root, r])]
  }

  /** All that a split of the root keeps. */
  lemma SplitRootDone(s: Shape, cap: Capacity, r: PageId, top: PageId) returns (t: Shape)
    requires CanSplitRoot(s, cap, r, top)
    ensures SplitRootTo(s, t, cap, r, top) && t.root == top && t.nodes.Keys == s.nodes.Keys + {r, top}
    ensures Wf(t, cap) && Contents(t, cap) == Contents(s, cap) && RoomAbove(t, cap, s.root, r)
  {
    t := SplitRoot(s, r, top);
    SplitRootContents(s, cap, r, top);
    SplitRootRoom(s, cap, r, top);
    SplitRootInPlace(s, cap, r, top);
    hide Contents, RoomAbove, SplitRoot, Halved;
  }
}
