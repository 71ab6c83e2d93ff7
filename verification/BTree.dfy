/**
  The B+-tree over a page store: lookup, insert with pre-emptive splitting on the way
  down, and erase without rebalancing. Every operation is proved against the map the
  tree stands for. Fixing a page loads it into a node object; unfixing a dirty page
  stores the object's contents back.
  Source: task-btree/include/moderndbs/btree.h:343-646.
  */
module BTrees {
  import opened Collections
  import opened BTreeNodes
  import opened BTreeShape
  import opened BTreeSplit

  class BTree {
    const cap: Capacity
    var root: Option<PageId>
    var nextPageId: PageId
    var pages: map<PageId, Node>
    ghost var shape: Shape  // the pages with their intervals and parents

    ghost predicate Valid()
      reads this
    {
      && cap.Ok()
      && (root.None? ==> pages == map[])
      && (root.Some? ==> Wf(shape, cap) && shape.root == root.value && shape.nodes == pages)
      && (forall p :: p in pages ==> p < nextPageId)
    }

    /** The map this tree stands for. */
    ghost function Map(): map<Key, Value>
      requires Valid()
      reads this
    {
      if root.None? then map[] else Contents(shape, cap)
    }

    constructor (cap: Capacity, firstPage: PageId)
      requires cap.Ok()
      ensures Valid() && Map() == map[] && this.cap == cap
    {
      this.cap := cap;
      root := None;
      nextPageId := firstPage;
      pages := map[];
    }

    /** Goes down to the leaf whose interval takes `key`; used by lookup and erase. */
    method GetLeafPage(key: Key) returns (leaf: PageId)
      requires Valid() && root.Some?
      ensures leaf in pages && pages[leaf].Leaf? && leaf in shape.lo && leaf in shape.hi
      ensures InRange(shape, leaf, key)
    {
      leaf := root.value;
      assert PageOk(shape, cap, leaf);
      while pages[leaf].Inner?
        invariant leaf in pages && PageOk(shape, cap, leaf) && InRange(shape, leaf, key)
        decreases shape.nodes[leaf].Level()
      {
        RouteInRange(shape, cap, leaf, key);
        var node := new InnerNode(cap.inner, pages[leaf]);
        leaf := node.Lookup(key);
        assert PageOk(shape, cap, leaf);
      }
    }

    method Lookup(key: Key) returns (r: Option<Value>)
      requires Valid()
      ensures r == if key in Map() then Some(Map()[key]) else None
    {
      if root.None? {
        return None;
      }
      var leaf := GetLeafPage(key);
      LeafPages(shape, cap, leaf);
      var node := new LeafNode(cap.leaf, pages[leaf]);
      r := node.Lookup(key);
      LookupMeansContents(shape, cap, leaf, key);
    }

    method Erase(key: Key)
      requires Valid()
      modifies this
      ensures Valid() && Map() == old(Map()) - {key}
    {
      if root.None? {
        return;
      }
      var leaf := GetLeafPage(key);
      LeafPages(shape, cap, leaf);
      var node := new LeafNode(cap.leaf, pages[leaf]);
      node.Erase(key);
      EraseFromLeaf(shape, cap, leaf, key);
      pages := pages[leaf := node.View()];
      shape := WithLeaf(shape, leaf, node.View());
    }

    /** Cuts page `c` in two on a new page `r`; nothing refers to `r` yet. */
    method CutPage(c: PageId) returns (separator: Key, r: PageId)
      requires c in pages && MayCut(pages[c], cap)
      modifies this`pages, this`nextPageId
      ensures r == old(nextPageId) && nextPageId == r + 1
      ensures separator == Separator(old(pages)[c])
      ensures pages == old(pages)[c := SplitLeft(old(pages)[c])][r := SplitRight(old(pages)[c])]
    {
      r := nextPageId;
      nextPageId := nextPageId + 1;
      if pages[c].Leaf? {
        var node := new LeafNode(cap.leaf, pages[c]);
        var other := new LeafNode(cap.leaf, Leaf([], []));
        separator := node.Split(other);
        pages := pages[c := node.View()][r := other.View()];
      } else {
        var node := new InnerNode(cap.inner, pages[c]);
        var other := new InnerNode(cap.inner, Inner(node.level, [], []));
        separator := node.Split(other);
        pages := pages[c := node.View()][r := other.View()];
      }
    }

    /** Splits `c`, child `i` of the safe page `p`, and pushes the separator into `p`. */
    method SplitChild(p: PageId, c: PageId, ghost i: nat) returns (separator: Key, r: PageId)
      requires Valid() && root.Some? && CanSplitBelow(shape, cap, p, i, c, nextPageId)
      modifies this
      ensures Valid() && root == old(root) && Map() == old(Map())
      ensures r == old(nextPageId) && c in old(pages) && separator == Separator(old(pages)[c])
      ensures SplitBelowTo(old(shape), shape, cap, p, c, r)
      ensures RoomBelow(shape, cap, p, c, r)
    {
      hide CanSplitBelow, Wf, Contents;
      ghost var after := SplitBelowDone(shape, cap, p, i, c, nextPageId);
      hide SplitBelowTo, RoomBelow;
      separator, r := CutBelow(p, c, shape, after);
      shape := after;
    }

    /** Both pages change, and a new one comes in. */
    method CutBelow(p: PageId, c: PageId, ghost s: Shape, ghost t: Shape) returns (separator: Key, r: PageId)
      requires s.nodes == pages && SplitBelowTo(s, t, cap, p, c, nextPageId)
      modifies this`pages, this`nextPageId
      ensures c in s.nodes && r == old(nextPageId) && nextPageId == r + 1 && separator == Separator(s.nodes[c])
      ensures pages == t.nodes
    {
      hide MustSplit, MayPush, InnerInsert, SplitLeft, SplitRight, SplitBelow;
      separator, r := CutPage(c);
      assert pages == Halved(s, c, r);
      hide Halved;
      PushSeparator(p, c, r, separator);
    }

    /** The separator and the new page go into the parent page. */
    method PushSeparator(p: PageId, c: PageId, r: PageId, separator: Key)
      requires p in pages && MayPush(pages[p], cap, separator, c)
      modifies this`pages
      ensures pages == old(pages)[p := InnerInsert(old(pages)[p], separator, r)]
    {
      var parent := new InnerNode(cap.inner, pages[p]);
      parent.Insert(separator, c, r);
      pages := pages[p := parent.View()];
    }

    /** A new root above the halves `c` and `r`. */
    method AddRoot(separator: Key, c: PageId, r: PageId)
      requires cap.inner >= 2 && c in pages
      modifies this`pages, this`root, this`nextPageId
      ensures root == Some(old(nextPageId)) && nextPageId == old(nextPageId) + 1
      ensures pages == old(pages)[old(nextPageId) := Inner(old(pages)[c].Level() + 1, [separator, separator], [c, r])]
    {
      var node := new InnerNode(cap.inner, Inner(pages[c].Level() + 1, [], []));
      node.InitInsert(separator, c, r);
      pages := pages[nextPageId := node.View()];
      root := Some(nextPageId);
      nextPageId := nextPageId + 1;
    }

    /** Splits the root, leaf or inner, and puts a new root above the halves. */
    method GrowRoot() returns (separator: Key, r: PageId)
      requires Valid() && root.Some? && CanSplitRoot(shape, cap, nextPageId, nextPageId + 1)
      modifies this
      ensures Valid() && root.Some? && Map() == old(Map())
      ensures r == old(nextPageId) && old(root.value) in old(pages) && separator == Separator(old(pages)[old(root.value)])
      ensures SplitRootTo(old(shape), shape, cap, r, r + 1)
      ensures RoomAbove(shape, cap, old(root.value), r)
    {
      hide CanSplitRoot, Wf, Contents;
      ghost var after := SplitRootDone(shape, cap, nextPageId, nextPageId + 1);
      hide SplitRootTo, RoomAbove;
      separator, r := CutAbove(shape, after);
      shape := after;
    }

    /** The root changes, and two new pages come in. */
    method CutAbove(ghost s: Shape, ghost t: Shape) returns (separator: Key, r: PageId)
      requires root == Some(s.root) && s.nodes == pages && SplitRootTo(s, t, cap, nextPageId, nextPageId + 1)
      modifies this`pages, this`nextPageId, this`root
      ensures s.root in s.nodes && r == old(nextPageId) && nextPageId == r + 2 && root == Some(r + 1)
      ensures separator == Separator(s.nodes[s.root]) && pages == t.nodes
    {
      hide MustSplit, SplitLeft, SplitRight, SplitRoot;
      var c := root.value;
      separator, r := CutPage(c);
      assert pages == Halved(s, c, r);
      hide Halved;
      AddRoot(separator, c, r);
    }

    /**
      Goes down to the leaf whose interval takes `key`, splitting every inner page that is
      not safe. A root leaf is returned as its own parent; otherwise the parent is safe.
      */
    method GetLeafPageForInsert(key: Key) returns (parent: PageId, leaf: PageId, ghost i: nat)
      requires Valid() && root.Some?
      modifies this
      ensures Valid() && root.Some? && Map() == old(Map())
      ensures leaf in pages && pages[leaf].Leaf? && leaf in shape.lo && leaf in shape.hi
      ensures InRange(shape, leaf, key)
      ensures parent == leaf ==> root == Some(leaf)
      ensures parent != leaf ==>
        && parent in pages && pages[parent].Inner? && i < |pages[parent].children| < cap.inner - 1
        && pages[parent].children[i] == leaf
    {
      parent := root.value;
      assert PageOk(shape, cap, parent);
      if pages[parent].Leaf? {
        return parent, parent, 0;
      }
      parent := MakeRootSafe(key);
      leaf, i := Child(parent, key);
      while pages[leaf].Inner?
        invariant Valid() && root.Some? && Map() == old(Map())
        invariant Descending(parent, leaf, i, key)
        decreases shape.nodes[leaf].Level()
      {
        parent := MakeSafe(parent, leaf, i, key);
        leaf, i := Child(parent, key);
      }
    }

    /** Splits the inner page `child` unless it has room for two more children; returns where `key` goes on. */
    method MakeSafe(parent: PageId, child: PageId, ghost i: nat, key: Key) returns (q: PageId)
      requires Valid() && root.Some? && Descending(parent, child, i, key) && pages[child].Inner?
      modifies this
      ensures Valid() && root.Some? && Map() == old(Map())
      ensures q in pages && pages[q].Inner? && |pages[q].children| < cap.inner - 1
      ensures pages[q].Level() == old(pages)[child].Level()
      ensures q in shape.lo && q in shape.hi && InRange(shape, q, key)
    {
      q := child;
      assert PageOk(shape, cap, child);
      if |pages[child].children| >= cap.inner - 1 {
        MaySplitBelow(shape, cap, parent, i, child, nextPageId);
        SplitBelowTakesKey(shape, cap, parent, i, child, nextPageId, key);
        hide Wf, SplitBelow, IsCut;
        var separator, r := SplitChild(parent, child, i);
        if separator < key {
          q := r;
        }
      }
    }

    /** Splits an inner root unless it has room for two more children; returns where `key` goes on. */
    method MakeRootSafe(key: Key) returns (q: PageId)
      requires Valid() && root.Some? && pages[root.value].Inner?
      modifies this
      ensures Valid() && root.Some? && Map() == old(Map())
      ensures q in pages && pages[q].Inner? && |pages[q].children| < cap.inner - 1
      ensures q in shape.lo && q in shape.hi && InRange(shape, q, key)
    {
      q := root.value;
      assert PageOk(shape, cap, q);
      if |pages[q].children| >= cap.inner - 1 {
        MaySplitRoot(shape, cap, nextPageId, nextPageId + 1);
        SplitRootTakesKey(shape, cap, nextPageId, nextPageId + 1, key);
        hide Wf, SplitRoot, IsCut;
        var separator, r := GrowRoot();
        if separator < key {
          q := r;
        }
      }
    }

    /** `leaf` is child `i` of the safe inner page `parent`, and `key` routes to it. */
    ghost predicate Descending(parent: PageId, leaf: PageId, i: nat, key: Key)
      reads this
    {
      && parent in pages && pages[parent].Inner? && i < |pages[parent].children| < cap.inner - 1
      && pages[parent].children[i] == leaf && leaf in pages && parent != leaf && pages == shape.nodes
      && pages[leaf].Level() < pages[parent].Level()
      && leaf in shape.lo && leaf in shape.hi && InRange(shape, leaf, key)
    }

    method Child(parent: PageId, key: Key) returns (child: PageId, ghost i: nat)
      requires Valid() && root.Some? && parent in pages && pages[parent].Inner? && |pages[parent].children| < cap.inner - 1
      requires parent in shape.lo && parent in shape.hi && InRange(shape, parent, key)
      ensures Descending(parent, child, i, key)
    {
      assert PageOk(shape, cap, parent);
      RouteInRange(shape, cap, parent, key);
      var node := new InnerNode(cap.inner, pages[parent]);
      child := node.Lookup(key);
      i := Position(pages[parent].Valid(), key);
    }

    method Insert(key: Key, value: Value)
      requires Valid()
      modifies this
      ensures Valid() && Map() == old(Map())[key := value]
    {
      if root.None? {
        InsertFirst(key, value);
        return;
      }
      var parent, leaf, i := GetLeafPageForInsert(key);
      LeafPages(shape, cap, leaf);
      if |pages[leaf].keys| == cap.leaf {
        var separator, r;
        if parent == leaf {
          MaySplitRoot(shape, cap, nextPageId, nextPageId + 1);
          SplitRootTakesKey(shape, cap, nextPageId, nextPageId + 1, key);
          separator, r := GrowRoot();
        } else {
          MaySplitBelow(shape, cap, parent, i, leaf, nextPageId);
          SplitBelowTakesKey(shape, cap, parent, i, leaf, nextPageId, key);
          separator, r := SplitChild(parent, leaf, i);
        }
        InsertIntoPage(if separator < key then r else leaf, key, value);
      } else {
        InsertIntoPage(leaf, key, value);
      }
    }

    /** The first entry makes a root leaf. */
    method InsertFirst(key: Key, value: Value)
      requires Valid() && root.None?
      modifies this
      ensures Valid() && Map() == map[key := value]
    {
      var page := nextPageId;
      root := Some(page);
      nextPageId := nextPageId + 1;
      var node := new LeafNode(cap.leaf, Leaf([], []));
      node.Insert(key, value);
      pages := pages[page := node.View()];
      SingleLeaf(cap, page, key, value);
      shape := OneLeaf(page, node.View());
    }

    /** An entry goes into a leaf with room whose interval takes it. */
    method InsertIntoPage(leaf: PageId, key: Key, value: Value)
      requires Valid() && root.Some? && leaf in pages && pages[leaf].Leaf? && |pages[leaf].keys| < cap.leaf
      requires leaf in shape.lo && leaf in shape.hi && InRange(shape, leaf, key)
      modifies this`pages, this`shape
      ensures Valid() && Map() == old(Map())[key := value]
    {
      LeafPages(shape, cap, leaf);
      var node := new LeafNode(cap.leaf, pages[leaf]);
      node.Insert(key, value);
      InsertIntoLeaf(shape, cap, leaf, key, value);
      pages := pages[leaf := node.View()];
      shape := WithLeaf(shape, leaf, node.View());
    }
  }
}
