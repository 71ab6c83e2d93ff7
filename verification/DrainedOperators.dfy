/**
  What an operator yields altogether, calling next() until it returns false: exact multiplicities.
  Source: task-operators/src/algebra.cc:433-723.
  */
module DrainedOperators {
  import opened Collections
  import opened Tuples
  import opened SetOperators
  import opened CountingOperators

  // ---------- no more is emitted than the result has, so draining ends ----------

  lemma SmallerBag(a: multiset<Tuple>, b: multiset<Tuple>)
    requires a <= b
    ensures |a| <= |b|
  {
    assert b == a + (b - a);
  }

  lemma PrefixBag(s: seq<Tuple>, i: nat)
    requires i <= |s|
    ensures multiset(s[..i]) <= multiset(s)
  {
    assert s == s[..i] + s[i..];
  }

  lemma UnionAllWithin(op: UnionAll)
    requires op.Valid()
    ensures |op.emitted| <= |op.Result()|
  {
    PrefixBag(op.left.rows, op.left.at);
    PrefixBag(op.right.rows, op.right.at);
    SmallerBag(multiset(op.emitted), op.Result());
  }

  lemma UnionWithin(op: Union)
    requires op.Valid()
    ensures |op.emitted| <= |op.Result()|
  {
    assert op.ht <= Elements(op.left.rows) + Elements(op.right.rows);
    SmallerBag(multiset(op.emitted), op.Result());
  }

  lemma IntersectWithin(op: Intersect)
    requires op.Valid()
    ensures |op.emitted| <= |op.Result()|
  {
    PrefixBag(op.right.rows, op.right.at);
    SmallerBag(multiset(op.emitted), op.Result());
  }

  lemma ExceptWithin(op: Except)
    requires op.Valid()
    ensures |op.emitted| <= |op.Result()|
  {
    if op.seenInput {
      forall t ensures multiset(op.emitted)[t] <= op.Result()[t] {
        assert multiset(op.emitted)[t] + CountOf(op.ht, t) == op.Result()[t];
      }
    }
    SmallerBag(multiset(op.emitted), op.Result());
  }

  // ---------- the results, counted ----------

  lemma UnionCounts(left: seq<Tuple>, right: seq<Tuple>)
    ensures forall t :: multiset(Elements(left) + Elements(right))[t] == if t in left || t in right then 1 else 0
  {
  }

  lemma IntersectCounts(left: seq<Tuple>, right: seq<Tuple>)
    ensures forall t :: (Weight(left, true) * multiset(right))[t] == Min(multiset(left)[t], multiset(right)[t])
    ensures forall t :: (Weight(left, false) * multiset(right))[t] == if t in left && t in right then 1 else 0
  {
    forall t ensures (Weight(left, false) * multiset(right))[t] == if t in left && t in right then 1 else 0 {
      assert t in right <==> 0 < multiset(right)[t];
    }
  }

  lemma ExceptCounts(left: seq<Tuple>, right: seq<Tuple>)
    ensures forall t :: (Weight(left, true) - multiset(right))[t] == multiset(left)[t] - Min(multiset(left)[t], multiset(right)[t])
    ensures forall t :: (Weight(left, false) - multiset(right))[t] == if t in left && t !in right then 1 else 0
  {
    forall t ensures (Weight(left, false) - multiset(right))[t] == if t in left && t !in right then 1 else 0 {
      assert t in right <==> 0 < multiset(right)[t];
    }
  }

  // ---------- draining ----------

  /** UNION ALL: the sum. */
  method DrainUnionAll(left: seq<Tuple>, right: seq<Tuple>) returns (out: seq<Tuple>)
    ensures forall t :: multiset(out)[t] == multiset(left)[t] + multiset(right)[t]
  {
    var l := new Input(left);
    var r := new Input(right);
    var op := new UnionAll(l, r);
    out := [];
    while true
      invariant fresh(op) && fresh(l) && fresh(r)
      invariant op.Valid() && op.emitted == out && op.left == l && op.right == r
      decreases |op.Result()| - |out|
    {
      var row := op.Next();
      UnionAllWithin(op);
      if row.None? {
        return;
      }
      out := out + [row.value];
    }
  }

  /** UNION: one copy of what is on either side. */
  method DrainUnion(left: seq<Tuple>, right: seq<Tuple>) returns (out: seq<Tuple>)
    ensures forall t :: multiset(out)[t] == if t in left || t in right then 1 else 0
  {
    var l := new Input(left);
    var r := new Input(right);
    hide Elements, Weight, Union.Valid;
    var op := new Union(l, r);
    out := [];
    while true
      invariant fresh(op) && fresh(l) && fresh(r)
      invariant op.Valid() && op.emitted == out && op.left == l && op.right == r
      decreases |op.Result()| - |out|
    {
      var row := op.Next();
      UnionWithin(op);
      if row.None? {
        UnionCounts(left, right);
        return;
      }
      out := out + [row.value];
    }
  }

  /** INTERSECT ALL: the minimum. INTERSECT: one copy of what is on both sides. */
  method DrainIntersect(left: seq<Tuple>, right: seq<Tuple>, all: bool) returns (out: seq<Tuple>)
    ensures all ==> forall t :: multiset(out)[t] == Min(multiset(left)[t], multiset(right)[t])
    ensures !all ==> forall t :: multiset(out)[t] == if t in left && t in right then 1 else 0
  {
    var l := new Input(left);
    var r := new Input(right);
    hide Elements, Weight, Intersect.Valid;
    var op := new Intersect(l, r, all);
    out := [];
    while true
      invariant fresh(op) && fresh(l) && fresh(r)
      invariant op.Valid() && op.emitted == out && op.left == l && op.right == r && op.all == all
      decreases |op.Result()| - |out|
    {
      var row := op.Next();
      IntersectWithin(op);
      if row.None? {
        IntersectCounts(left, right);
        return;
      }
      out := out + [row.value];
    }
  }

  /** EXCEPT ALL: the difference, not below zero. EXCEPT: one copy of what is only on the left. */
  method DrainExcept(left: seq<Tuple>, right: seq<Tuple>, all: bool) returns (out: seq<Tuple>)
    ensures all ==> forall t :: multiset(out)[t] == multiset(left)[t] - Min(multiset(left)[t], multiset(right)[t])
    ensures !all ==> forall t :: multiset(out)[t] == if t in left && t !in right then 1 else 0
  {
    var l := new Input(left);
    var r := new Input(right);
    hide Elements, Weight, Except.Valid;
    var op := new Except(l, r, all);
    out := [];
    while true
      invariant fresh(op) && fresh(l) && fresh(r)
      invariant op.Valid() && op.emitted == out && op.left == l && op.right == r && op.all == all
      decreases |op.Result()| - |out|
    {
      var row := op.Next();
      ExceptWithin(op);
      if row.None? {
        ExceptCounts(left, right);
        return;
      }
      out := out + [row.value];
    }
  }
}
