/**
  What a sorted permutation is, and why repeatedly taking a least head of several sorted
  runs produces one.
  Source: task-external-sort/src/external_sort.cc.
  */
module SortSpec {
  type Value = nat

  ghost predicate Sorted(s: seq<Value>) {
    forall i, j :: 0 <= i < j < |s| ==> s[i] <= s[j]
  }

  /** std::sort on a buffer. */
  function SortValues(s: seq<Value>): (r: seq<Value>)
    ensures Sorted(r) && multiset(r) == multiset(s) && |r| == |s|
  {
    if s == [] then []
    else
      assert s == [s[0]] + s[1..];
      InsertValue(s[0], SortValues(s[1..]))
  }

  function InsertValue(x: Value, s: seq<Value>): (r: seq<Value>)
    requires Sorted(s)
    ensures Sorted(r) && multiset(r) == multiset(s) + multiset{x} && |r| == |s| + 1
    ensures r[0] == x || (s != [] && r[0] == s[0])
  {
    if s == [] || x <= s[0] then [x] + s
    else
      assert s == [s[0]] + s[1..];
      [s[0]] + InsertValue(x, s[1..])
  }

  /** All values still to be merged. */
  ghost function Bag(rests: seq<seq<Value>>): multiset<Value> {
    if rests == [] then multiset{} else multiset(rests[0]) + Bag(rests[1..])
  }

  lemma {:induction false} BagTake(rests: seq<seq<Value>>, i: nat)
    requires i < |rests| && rests[i] != []
    ensures Bag(rests) == Bag(rests[i := rests[i][1..]]) + multiset{rests[i][0]}
  {
    var t := rests[i := rests[i][1..]];
    if i == 0 {
      assert rests[0] == [rests[0][0]] + rests[0][1..];
      assert t[1..] == rests[1..];
    } else {
      BagTake(rests[1..], i - 1);
      assert t[1..] == rests[1..][i - 1 := rests[i][1..]];
    }
  }

  lemma {:induction false} BagEmpty(rests: seq<seq<Value>>)
    requires forall i :: 0 <= i < |rests| ==> rests[i] == []
    ensures Bag(rests) == multiset{}
  {
    if rests != [] {
      BagEmpty(rests[1..]);
    }
  }

  /** `out` is what was merged so far: sorted, below everything left, and nothing is lost. */
  ghost predicate Merging(all: multiset<Value>, out: seq<Value>, rests: seq<seq<Value>>) {
    && Sorted(out)
    && (forall i :: 0 <= i < |rests| ==> Sorted(rests[i]))
    && (forall i, j, k :: 0 <= i < |rests| && 0 <= j < |rests[i]| && 0 <= k < |out| ==> out[k] <= rests[i][j])
    && multiset(out) + Bag(rests) == all
  }

  /** Taking a least head keeps this. */
  lemma TakeLeast(all: multiset<Value>, out: seq<Value>, rests: seq<seq<Value>>, i: nat)
    requires Merging(all, out, rests) && i < |rests| && rests[i] != []
    requires forall j :: 0 <= j < |rests| && rests[j] != [] ==> rests[i][0] <= rests[j][0]
    ensures Merging(all, out + [rests[i][0]], rests[i := rests[i][1..]])
  {
    var x := rests[i][0];
    var o, r := out + [x], rests[i := rests[i][1..]];
    BagTake(rests, i);
    assert multiset(o) == multiset(out) + multiset{x};
    hide Bag;
    forall a, j, k | 0 <= a < |r| && 0 <= j < |r[a]| && 0 <= k < |o| ensures o[k] <= r[a][j] {
      StillBelow(out, rests, i, a, j, k);
    }
  }

  lemma StillBelow(out: seq<Value>, rests: seq<seq<Value>>, i: nat, a: nat, j: nat, k: nat)
    requires i < |rests| && rests[i] != [] && forall b :: 0 <= b < |rests| ==> Sorted(rests[b])
    requires forall b :: 0 <= b < |rests| && rests[b] != [] ==> rests[i][0] <= rests[b][0]
    requires forall b, c, d :: 0 <= b < |rests| && 0 <= c < |rests[b]| && 0 <= d < |out| ==> out[d] <= rests[b][c]
    requires var r := rests[i := rests[i][1..]]; a < |r| && j < |r[a]| && k <= |out|
    ensures (out + [rests[i][0]])[k] <= rests[i := rests[i][1..]][a][j]
  {
    var jj := if a == i then j + 1 else j;
    assert rests[i := rests[i][1..]][a][j] == rests[a][jj];
    assert rests[a][0] <= rests[a][jj];
  }

  /** When nothing is left the result is a sorted permutation. */
  lemma Merged(all: multiset<Value>, out: seq<Value>, rests: seq<seq<Value>>)
    requires Merging(all, out, rests) && forall i :: 0 <= i < |rests| ==> rests[i] == []
    ensures Sorted(out) && multiset(out) == all
  {
    BagEmpty(rests);
  }
}
