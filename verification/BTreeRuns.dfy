/**
  Runs of inserts and erases: the tree follows the map they make, and looking a key up
  afterwards finds what was last stored under it.
  Source: task-btree/include/moderndbs/btree.h:535-646.
  */
module BTreeRuns {
  import opened Collections
  import opened BTreeNodes
  import opened BTreeShape
  import opened BTreeHeight
  import opened BTrees

  datatype Operation = Put(key: Key, value: Value) | Remove(key: Key)

  /** The map after a run that starts from an empty tree; each operation changes it as the tree's methods promise. */
  function Replay(ops: seq<Operation>): map<Key, Value> {
    if ops == [] then map[]
    else
      var before := Replay(ops[..|ops| - 1]);
      match ops[|ops| - 1]
      case Put(k, v) => before[k := v]
      case Remove(k) => before - {k}
  }

  /** Operation `i` is the last one on its key. */
  ghost predicate LastOn(ops: seq<Operation>, i: nat)
    requires i < |ops|
  {
    forall j :: i < j < |ops| ==> ops[j].key != ops[i].key
  }

  /** A key is mapped to exactly the value last inserted for it and not erased since. */
  lemma {:induction false} LastInsertWins(ops: seq<Operation>, key: Key, value: Value)
    ensures key in Replay(ops) && Replay(ops)[key] == value <==>
      exists i :: 0 <= i < |ops| && ops[i] == Put(key, value) && LastOn(ops, i)
  {
    if ops != [] {
      var n := |ops| - 1;
      var before := ops[..n];
      LastInsertWins(before, key, value);
      if ops[n].key == key {
        assert LastOn(ops, n);
      } else {
        forall i | 0 <= i < n && ops[i].key == key ensures LastOn(ops, i) <==> LastOn(before, i) {
          if LastOn(before, i) {
            forall j | i < j < |ops| ensures ops[j].key != ops[i].key {
              if j < n { assert before[j].key != before[i].key; }
            }
          }
          if LastOn(ops, i) {
            forall j | i < j < |before| ensures before[j].key != before[i].key {
              assert ops[j].key != ops[i].key;
            }
          }
        }
      }
    }
  }

  /** The leaves that a tree of its height must have, however it came about. */
  ghost predicate WideEnough(tree: BTree, cap: Capacity)
    requires cap.Ok()
    reads tree
  {
    tree.root.Some? ==>
      && tree.root.value in tree.pages
      && var h := tree.pages[tree.root.value].Level();
         h >= 1 ==> |set p | p in tree.pages && tree.pages[p].Leaf?| >= 2 * Power((cap.inner - 1) / 2, h - 1)
  }

  /** Performs a run on an empty tree, with any capacities the code can work with. */
  method Perform(ops: seq<Operation>, cap: Capacity, firstPage: PageId) returns (tree: BTree)
    requires cap.Ok()
    ensures fresh(tree) && tree.Valid() && tree.Map() == Replay(ops)
    ensures tree.cap == cap && WideEnough(tree, cap)
  {
    tree := new BTree(cap, firstPage);
    for i := 0 to |ops|
      invariant fresh(tree) && tree.cap == cap && tree.Valid() && tree.Map() == Replay(ops[..i])
    {
      assert ops[..i + 1][..i] == ops[..i];
      match ops[i] {
        case Put(key, value) => tree.Insert(key, value);
        case Remove(key) => tree.Erase(key);
      }
    }
    assert ops[..|ops|] == ops;
    IsWideEnough(tree);
  }

  lemma IsWideEnough(tree: BTree)
    requires tree.Valid()
    ensures WideEnough(tree, tree.cap)
  {
    if tree.root.Some? && tree.shape.nodes[tree.shape.root].Level() >= 1 {
      HeightBound(tree.shape, tree.cap);
    }
  }

  /** What a lookup after a run returns. */
  method LookupAfter(ops: seq<Operation>, cap: Capacity, firstPage: PageId, key: Key) returns (r: Option<Value>)
    requires cap.Ok()
    ensures forall value :: r == Some(value) <==>
                              exists i :: 0 <= i < |ops| && ops[i] == Put(key, value) && LastOn(ops, i)
  {
    var tree := Perform(ops, cap, firstPage);
    r := tree.Lookup(key);
    forall value
      ensures r == Some(value) <==> exists i :: 0 <= i < |ops| && ops[i] == Put(key, value) && LastOn(ops, i)
    {
      LastInsertWins(ops, key, value);
    }
  }
}
