/**
  The two node kinds of the B+-tree: what they mean (`Node`, on values) and what
  the code does to them (`LeafNode` and `InnerNode`, in place on fixed arrays).
  Source: task-btree/include/moderndbs/btree.h.
  */
module BTreeNodes {
  import opened Collections
  import opened Memory

  type Key = int
  type Value = int
  type PageId = nat

  /** An inner node carries as many keys as children; its last key is the invalid one. */
  datatype Node =
    | Leaf(keys: seq<Key>, values: seq<Value>)
    | Inner(level: nat, keys: seq<Key>, children: seq<PageId>)
  {
    function Level(): nat { if Leaf? then 0 else level }

    /** The keys that routing may use. */
    function Valid(): seq<Key> { if Leaf? || keys == [] then keys else keys[..|keys| - 1] }
  }

  ghost predicate Sorted(keys: seq<Key>) {
    forall i, j :: 0 <= i < j < |keys| ==> keys[i] < keys[j]
  }

  /** The index of the first key that is not less than `key`. */
  function Position(keys: seq<Key>, key: Key): (r: nat)
    ensures r <= |keys|
    ensures forall i :: 0 <= i < r ==> keys[i] < key
    ensures r < |keys| ==> key <= keys[r]
  {
    if keys == [] || key <= keys[0] then 0 else 1 + Position(keys[1..], key)
  }

  lemma {:induction false} PositionIs(keys: seq<Key>, key: Key, r: nat)
    requires r <= |keys|
    requires forall i :: 0 <= i < r ==> keys[i] < key
    requires r < |keys| ==> key <= keys[r]
    ensures Position(keys, key) == r
  {
    if keys == [] {
    } else if key <= keys[0] {
      assert r == 0;
    } else {
      PositionIs(keys[1..], key, r - 1);
    }
  }

  // ---------- leaves as finite maps ----------

  ghost predicate LeafOk(n: Node) {
    n.Leaf? && |n.keys| == |n.values| && Sorted(n.keys)
  }

  function LeafInsert(n: Node, key: Key, value: Value): Node
    requires n.Leaf? && |n.keys| == |n.values|
  {
    var i := Position(n.keys, key);
    if i < |n.keys| && n.keys[i] == key then
      n.(values := n.values[i := value])
    else
      Leaf(n.keys[..i] + [key] + n.keys[i..], n.values[..i] + [value] + n.values[i..])
  }

  function LeafErase(n: Node, key: Key): Node
    requires n.Leaf? && |n.keys| == |n.values|
  {
    var i := Position(n.keys, key);
    if i < |n.keys| && n.keys[i] == key then
      Leaf(n.keys[..i] + n.keys[i + 1..], n.values[..i] + n.values[i + 1..])
    else
      n
  }

  /** The value a leaf stores under `key`, by binary-search position. */
  function LeafLookup(n: Node, key: Key): Option<Value>
    requires n.Leaf? && |n.keys| == |n.values|
  {
    var i := Position(n.keys, key);
    if i < |n.keys| && n.keys[i] == key then Some(n.values[i]) else None
  }

  /** `key` is stored with `value`. */
  ghost predicate Holds(n: Node, key: Key, value: Value) {
    n.Leaf? && exists i :: 0 <= i < |n.keys| && i < |n.values| && n.keys[i] == key && n.values[i] == value
  }

  lemma LeafLookupFinds(n: Node, key: Key)
    requires LeafOk(n)
    ensures LeafLookup(n, key).None? <==> forall v :: !Holds(n, key, v)
    ensures forall v :: Holds(n, key, v) <==> LeafLookup(n, key) == Some(v)
  {
    var p := Position(n.keys, key);
    forall v | Holds(n, key, v) ensures LeafLookup(n, key) == Some(v) {
      var i :| 0 <= i < |n.keys| && i < |n.values| && n.keys[i] == key && n.values[i] == v;
      PositionIs(n.keys, key, i);
    }
    if LeafLookup(n, key).Some? {
      assert Holds(n, key, n.values[p]);
    }
  }

  /** Entries after one more was put in at `p`. */
  lemma InsertedAt(n: Node, m: Node, p: nat, key: Key, value: Value)
    requires n.Leaf? && m.Leaf? && |n.keys| == |n.values| && p <= |n.keys|
    requires m.keys == n.keys[..p] + [key] + n.keys[p..]
    requires m.values == n.values[..p] + [value] + n.values[p..]
    ensures forall k, v :: Holds(m, k, v) <==> (k == key && v == value) || Holds(n, k, v)
    ensures forall k :: k in m.keys <==> k == key || k in n.keys
  {
    assert m.keys[p] == key && m.values[p] == value;
    forall k, v | Holds(n, k, v) ensures Holds(m, k, v) {
      var i :| 0 <= i < |n.keys| && i < |n.values| && n.keys[i] == k && n.values[i] == v;
      var j := if i < p then i else i + 1;
      assert m.keys[j] == k && m.values[j] == v;
    }
    forall k, v | Holds(m, k, v) ensures (k == key && v == value) || Holds(n, k, v) {
      var j :| 0 <= j < |m.keys| && j < |m.values| && m.keys[j] == k && m.values[j] == v;
      if j != p {
        var i := if j < p then j else j - 1;
        assert n.keys[i] == k && n.values[i] == v;
      }
    }
    forall k | k in n.keys ensures k in m.keys {
      var i :| 0 <= i < |n.keys| && n.keys[i] == k;
      assert m.keys[if i < p then i else i + 1] == k;
    }
  }

  lemma SortedInsert(keys: seq<Key>, p: nat, key: Key)
    requires Sorted(keys) && p == Position(keys, key) && (p < |keys| ==> keys[p] != key)
    ensures Sorted(keys[..p] + [key] + keys[p..])
  {
    forall i | p <= i < |keys| ensures key < keys[i] {
      assert keys[p] <= keys[i];
    }
  }

  lemma LeafInsertHolds(n: Node, key: Key, value: Value)
    requires LeafOk(n)
    ensures LeafOk(LeafInsert(n, key, value))
    ensures forall k, v :: Holds(LeafInsert(n, key, value), k, v) <==>
              if k == key then v == value else Holds(n, k, v)
    ensures forall k :: k in LeafInsert(n, key, value).keys <==> k == key || k in n.keys
  {
    var m := LeafInsert(n, key, value);
    var p := Position(n.keys, key);
    if p < |n.keys| && n.keys[p] == key {
      assert m.keys[p] == key && m.values[p] == value;
      forall k, v | Holds(n, k, v) && k != key ensures Holds(m, k, v) {
        var i :| 0 <= i < |n.keys| && i < |n.values| && n.keys[i] == k && n.values[i] == v;
        assert m.keys[i] == k && m.values[i] == v;
      }
      forall k, v | Holds(m, k, v) ensures if k == key then v == value else Holds(n, k, v) {
        var i :| 0 <= i < |m.keys| && i < |m.values| && m.keys[i] == k && m.values[i] == v;
        assert k != key ==> n.keys[i] == k && n.values[i] == v;
      }
    } else {
      SortedInsert(n.keys, p, key);
      InsertedAt(n, m, p, key, value);
      LeafLookupFinds(n, key);
    }
  }

  /** Entries after the one at `p` was taken out. */
  lemma RemovedAt(n: Node, m: Node, p: nat)
    requires LeafOk(n) && m.Leaf? && p < |n.keys|
    requires m.keys == n.keys[..p] + n.keys[p + 1..]
    requires m.values == n.values[..p] + n.values[p + 1..]
    ensures forall k, v :: Holds(m, k, v) <==> k != n.keys[p] && Holds(n, k, v)
    ensures forall k :: k in m.keys ==> k in n.keys
  {
    forall k, v | k != n.keys[p] && Holds(n, k, v) ensures Holds(m, k, v) {
      var i :| 0 <= i < |n.keys| && i < |n.values| && n.keys[i] == k && n.values[i] == v;
      var j := if i < p then i else i - 1;
      assert m.keys[j] == k && m.values[j] == v;
    }
    forall k, v | Holds(m, k, v) ensures k != n.keys[p] && Holds(n, k, v) {
      var j :| 0 <= j < |m.keys| && j < |m.values| && m.keys[j] == k && m.values[j] == v;
      var i := if j < p then j else j + 1;
      assert n.keys[i] == k && n.values[i] == v;
    }
  }

  lemma SortedRemove(keys: seq<Key>, p: nat)
    requires Sorted(keys) && p < |keys|
    ensures Sorted(keys[..p] + keys[p + 1..])
  {
  }

  lemma LeafEraseHolds(n: Node, key: Key)
    requires LeafOk(n)
    ensures LeafOk(LeafErase(n, key))
    ensures forall k, v :: Holds(LeafErase(n, key), k, v) <==> k != key && Holds(n, k, v)
    ensures forall k :: k in LeafErase(n, key).keys ==> k in n.keys
  {
    var p := Position(n.keys, key);
    if p < |n.keys| && n.keys[p] == key {
      SortedRemove(n.keys, p);
      RemovedAt(n, LeafErase(n, key), p);
    } else {
      LeafLookupFinds(n, key);
    }
  }

  // ---------- splitting ----------

  /** Where a node is cut: the left half keeps the entries before the cut. */
  function Cut(n: Node): nat {
    if n.Leaf? then |n.keys| / 2 + 1 else (|n.keys| - 1) / 2 + 1
  }

  function SplitLeft(n: Node): Node
    requires Cut(n) <= |n.keys| && (n.Leaf? ==> |n.keys| == |n.values|) && (n.Inner? ==> |n.keys| == |n.children|)
  {
    if n.Leaf? then Leaf(n.keys[..Cut(n)], n.values[..Cut(n)])
    else Inner(n.level, n.keys[..Cut(n)], n.children[..Cut(n)])
  }

  function SplitRight(n: Node): Node
    requires Cut(n) <= |n.keys| && (n.Leaf? ==> |n.keys| == |n.values|) && (n.Inner? ==> |n.keys| == |n.children|)
  {
    if n.Leaf? then Leaf(n.keys[Cut(n)..], n.values[Cut(n)..])
    else Inner(n.level, n.keys[Cut(n)..], n.children[Cut(n)..])
  }

  /** The key pushed up: the largest key of a left leaf, the last (now invalid) key of a left inner node. */
  function Separator(n: Node): Key
    requires 0 < Cut(n) <= |n.keys|
  {
    n.keys[Cut(n) - 1]
  }

  /** Splitting a leaf parts its entries at the separator and loses none. */
  lemma LeafSplitHolds(n: Node)
    requires LeafOk(n) && |n.keys| >= 2
    ensures LeafOk(SplitLeft(n)) && LeafOk(SplitRight(n))
    ensures forall k, v :: Holds(SplitLeft(n), k, v) <==> Holds(n, k, v) && k <= Separator(n)
    ensures forall k, v :: Holds(SplitRight(n), k, v) <==> Holds(n, k, v) && Separator(n) < k
  {
    var l, r, c := SplitLeft(n), SplitRight(n), Cut(n);
    assert forall i :: 0 <= i < c ==> n.keys[i] <= n.keys[c - 1];
    assert forall i :: c <= i < |n.keys| ==> n.keys[c - 1] < n.keys[i];
    forall k, v | Holds(n, k, v) ensures if k <= Separator(n) then Holds(l, k, v) else Holds(r, k, v) {
      var i :| 0 <= i < |n.keys| && i < |n.values| && n.keys[i] == k && n.values[i] == v;
      if i < c {
        assert l.keys[i] == k && l.values[i] == v;
      } else {
        assert r.keys[i - c] == k && r.values[i - c] == v;
      }
    }
  }

  /** An inner node after a child was split: `key` separates the old child from `right`. */
  function InnerInsert(n: Node, key: Key, right: PageId): Node
    requires n.Inner? && |n.keys| == |n.children| && |n.keys| >= 1
  {
    var c := |n.keys|;
    var i := Position(n.Valid(), key);
    if i == c - 1 then
      Inner(n.level, n.keys[..i] + [key, key], n.children + [right])
    else
      Inner(n.level, n.keys[..i] + [key] + n.keys[i..], n.children[..i + 1] + [right] + n.children[i + 1..])
  }

  // ---------- the nodes as the code stores them ----------

  class LeafNode {
    var count: nat
    const keys: array<Key>
    const values: array<Value>

    /** The page as fix_page hands it out. */
    constructor (capacity: nat, page: Node)
      requires page.Leaf? && |page.keys| == |page.values| <= capacity
      ensures Valid() && View() == page && keys.Length == capacity && keys != values
      ensures fresh(keys) && fresh(values)
    {
      count := |page.keys|;
      keys := new Key[capacity];
      values := new Value[capacity];
      new;
      Store(keys, 0, page.keys);
      Store(values, 0, page.values);
      assert keys[..count] == page.keys && values[..count] == page.values;
    }

    ghost predicate Valid()
      reads this
    {
      count <= keys.Length && keys.Length == values.Length
    }

    /** What the page holds when it is unfixed. */
    function View(): (n: Node)
      requires Valid()
      reads this, keys, values
      ensures n.Leaf? && |n.keys| == |n.values| == count
    {
      Leaf(keys[..count], values[..count])
    }

    method LowerBound(key: Key) returns (index: nat, found: bool)
      requires Valid() && Sorted(View().keys)
      ensures index == Position(View().keys, key)
      ensures found <==> index < count && View().keys[index] == key
    {
      if count == 0 {
        return 0, false;
      }
      var first: nat, cnt: nat := 0, count;
      while cnt > 0
        invariant first + cnt <= count
        invariant forall i :: 0 <= i < first ==> keys[i] < key
        invariant forall i :: first + cnt <= i < count ==> key <= keys[i]
      {
        var step := cnt / 2;
        var idx := first + step;
        assert keys[idx] == View().keys[idx];
        if keys[idx] < key {
          forall i | 0 <= i < idx ensures keys[i] < key {
            assert View().keys[i] < View().keys[idx];
          }
          first := idx + 1;
          cnt := cnt - (step + 1);
        } else {
          forall i | idx < i < count ensures key <= keys[i] {
            assert View().keys[idx] < View().keys[i];
          }
          cnt := step;
        }
      }
      PositionIs(View().keys, key, first);
      found := first < count && keys[first] == key;
      index := first;
    }

    method Lookup(key: Key) returns (r: Option<Value>)
      requires Valid() && Sorted(View().keys)
      ensures r == LeafLookup(View(), key)
    {
      var index, found := LowerBound(key);
      r := if found && keys[index] == key then Some(values[index]) else None;
    }

    method Insert(key: Key, value: Value)
      requires Valid() && Sorted(View().keys) && count < keys.Length && keys != values
      modifies this`count, keys, values
      ensures Valid() && View() == LeafInsert(old(View()), key, value)
    {
      if count == 0 {
        keys[0] := key;
        values[0] := value;
        assert keys[..1] == [key] && values[..1] == [value];
      } else {
        var index, found := LowerBound(key);
        if found {
          values[index] := value;
          assert View().keys == old(View()).keys;
          assert View().values == old(View()).values[index := value];
          return;
        }
        ShiftIn(values, count, index, value);
        ShiftIn(keys, count, index, key);
      }
      count := count + 1;
      ghost var w, p := old(View()), Position(old(View()).keys, key);
      assert w.keys[..p] == old(keys[..p]) && w.keys[p..] == old(keys[p..count]);
      assert w.values[..p] == old(values[..p]) && w.values[p..] == old(values[p..count]);
    }

    method Erase(key: Key)
      requires Valid() && Sorted(View().keys) && keys != values
      modifies this`count, keys, values
      ensures Valid() && View() == LeafErase(old(View()), key)
    {
      if count == 0 {
        return;
      }
      var index, found := LowerBound(key);
      if !found {
        return;
      }
      ShiftOut(values, count, index);
      ShiftOut(keys, count, index);
      count := count - 1;
      ghost var w := old(View());
      assert w.keys[..index] == old(keys[..index]) && w.keys[index + 1..] == old(keys[index + 1..count]);
      assert w.values[..index] == old(values[..index]) && w.values[index + 1..] == old(values[index + 1..count]);
    }

    /** Moves the upper entries into the empty node `other`. */
    method Split(other: LeafNode) returns (separator: Key)
      requires Valid() && 2 <= count && keys != values
      requires other != this && other.Valid() && other.keys.Length == keys.Length
      requires other.keys != other.values && {other.keys, other.values} !! {keys, values}
      modifies this`count, other`count, other.keys, other.values
      ensures Valid() && other.Valid()
      ensures View() == SplitLeft(old(View())) && other.View() == SplitRight(old(View()))
      ensures separator == Separator(old(View()))
      ensures count == old(count) / 2 + 1 && other.count == old(count) - count && separator == old(keys[count / 2])
    {
      separator := keys[count / 2];
      other.count := count - (count / 2 + 1);
      count := count / 2 + 1;
      Memcpy(other.keys, 0, keys, count, other.count);
      Memcpy(other.values, 0, values, count, other.count);
      assert other.View().keys == old(View()).keys[count..];
      assert other.View().values == old(View()).values[count..];
      assert View().keys == old(View()).keys[..count];
      assert View().values == old(View()).values[..count];
    }
  }

  class InnerNode {
    var level: nat
    var count: nat
    const keys: array<Key>
    const children: array<PageId>

    /** The page as fix_page hands it out. */
    constructor (capacity: nat, page: Node)
      requires page.Inner? && |page.keys| == |page.children| <= capacity
      ensures Valid() && View() == page && keys.Length == capacity
      ensures fresh(keys) && fresh(children)
    {
      level, count := page.level, |page.keys|;
      keys := new Key[capacity];
      children := new PageId[capacity];
      new;
      Store(keys, 0, page.keys);
      Store(children, 0, page.children);
      assert keys[..count] == page.keys && children[..count] == page.children;
    }

    ghost predicate Valid()
      reads this
    {
      count <= keys.Length && keys.Length == children.Length
    }

    /** What the page holds when it is unfixed. */
    function View(): (n: Node)
      requires Valid()
      reads this, keys, children
      ensures n.Inner? && |n.keys| == |n.children| == count && n.level == level
    {
      Inner(level, keys[..count], children[..count])
    }

    /** The search ignores the last key, but `found` is computed against it as well. */
    method LowerBound(key: Key) returns (index: nat, found: bool)
      requires Valid() && Sorted(View().Valid())
      ensures index == Position(View().Valid(), key)
      ensures found <==> index < count && View().keys[index] == key
    {
      if count == 0 {
        return 0, false;
      }
      var first: nat, cnt: nat := 0, count - 1;
      while cnt > 0
        invariant first + cnt <= count - 1
        invariant forall i :: 0 <= i < first ==> keys[i] < key
        invariant forall i :: first + cnt <= i < count - 1 ==> key <= keys[i]
      {
        var step := cnt / 2;
        var idx := first + step;
        assert keys[idx] == View().Valid()[idx];
        if keys[idx] < key {
          forall i | 0 <= i < idx ensures keys[i] < key {
            assert View().Valid()[i] < View().Valid()[idx];
          }
          first := idx + 1;
          cnt := cnt - (step + 1);
        } else {
          forall i | idx < i < count - 1 ensures key <= keys[i] {
            assert View().Valid()[idx] < View().Valid()[i];
          }
          cnt := step;
        }
      }
      PositionIs(View().Valid(), key, first);
      found := first < count && keys[first] == key;
      index := first;
    }

    /** The child whose interval takes `key`. */
    method Lookup(key: Key) returns (child: PageId)
      requires Valid() && count >= 2 && Sorted(View().Valid())
      ensures child == View().children[Position(View().Valid(), key)]
    {
      var index, _ := LowerBound(key);
      assert index < count;  // so the code's branch for `index == count` is never taken
      child := children[index];
    }

    method InitInsert(key: Key, left: PageId, right: PageId)
      requires Valid() && count == 0 && keys.Length >= 2
      modifies this`count, keys, children
      ensures Valid() && View() == Inner(level, [key, key], [left, right])
    {
      children[0] := left;
      keys[0] := key;
      children[1] := right;
      keys[1] := key;
      count := 2;
    }

    /** The code's three assertions are its preconditions: not full, key unused, left child in place. */
    method Insert(key: Key, left: PageId, right: PageId)
      requires Valid() && 2 <= count <= keys.Length - 1 && Sorted(View().Valid())
      requires key != View().keys[Position(View().Valid(), key)]
      requires left == View().children[Position(View().Valid(), key)]
      modifies this`count, keys, children
      ensures Valid() && View() == InnerInsert(old(View()), key, right)
    {
      var index, found := LowerBound(key);
      assert !found;
      assert index <= count - 1;
      assert children[index] == left;
      hide Sorted;
      if index == count - 1 {
        keys[index] := key;
        keys[index + 1] := key;
        children[index + 1] := right;
        count := count + 1;
        ghost var w := old(View());
        assert w.keys[..index] == old(keys[..index]) && w.children == old(children[..index + 1]);
        assert View().keys == w.keys[..index] + [key, key];
        assert View().children == w.children + [right];
      } else {
        ShiftIn(keys, count, index, key);
        ShiftIn(children, count, index + 1, right);
        count := count + 1;
        ghost var w := old(View());
        assert w.keys[..index] == old(keys[..index]) && w.keys[index..] == old(keys[index..count]);
        assert w.children[..index + 1] == old(children[..index + 1]);
        assert w.children[index + 1..] == old(children[index + 1..count]);
      }
    }

    method Split(other: InnerNode) returns (separator: Key)
      requires Valid() && 2 <= count
      requires other != this && other.Valid() && other.keys.Length == keys.Length && other.level == level
      requires {other.keys} !! {keys} && {other.children} !! {children}
      modifies this`count, other`count, other.keys, other.children
      ensures Valid() && other.Valid()
      ensures View() == SplitLeft(old(View())) && other.View() == SplitRight(old(View()))
      ensures separator == Separator(old(View()))
      ensures count == (old(count) - 1) / 2 + 1 && other.count == old(count) - count
      ensures separator == old(keys[(count - 1) / 2])
    {
      ghost var n, k, c := old(count), keys[..], children[..];
      separator := keys[(count - 1) / 2];
      other.count := count - ((count - 1) / 2 + 1);
      count := (count - 1) / 2 + 1;
      Memcpy(other.keys, 0, keys, count, other.count);
      Memcpy(other.children, 0, children, count, other.count);
      assert keys[count - 1] == separator;
      assert keys[..] == k && children[..] == c;
      hide Splice;
      assert other.keys[..other.count] == k[..n][count..] && other.children[..other.count] == c[..n][count..];
      assert keys[..count] == k[..n][..count] && children[..count] == c[..n][..count];
    }
  }
}
