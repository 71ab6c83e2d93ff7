/**
  How full a tree of a given height must be.
  Source: task-btree/include/moderndbs/btree.h:174-189, 372-411, 450-484, 604-614.
  */
module BTreeHeight {
  import opened Collections
  import opened BTreeNodes
  import opened BTreeShape

  ghost function AtLevel(s: Shape, l: nat): set<PageId> {
    set p | p in s.nodes && s.nodes[p].Level() == l
  }

  ghost function Below(s: Shape, parents: set<PageId>): set<PageId> {
    set q | q in s.nodes && q != s.root && q in s.parent && s.parent[q] in parents
  }

  function Power(b: nat, e: nat): nat {
    if e == 0 then 1 else b * Power(b, e - 1)
  }

  lemma {:induction false} DistinctCount(xs: seq<PageId>)
    requires Distinct(xs)
    ensures |Elements(xs)| == |xs|
  {
    if xs == [] {
      assert Elements(xs) == {};
    } else {
      var rest := xs[1..];
      DistinctCount(rest);
      assert xs[0] !in rest;
      assert Elements(xs) == {xs[0]} + Elements(rest);
    }
  }

  /** Pages that keep at least `m` children each have at least `m` times as many pages below them. */
  lemma {:induction false} ManyBelow(s: Shape, cap: Capacity, parents: set<PageId>, m: nat)
    requires Wf(s, cap)
    requires forall p :: p in parents ==> p in s.nodes && s.nodes[p].Inner? && m <= |s.nodes[p].children|
    ensures |Below(s, parents)| >= m * |parents|
    decreases parents
  {
    if parents == {} {
      assert |parents| == 0;
      assert m * |parents| == 0;
    } else {
      var p :| p in parents;
      var others := parents - {p};
      ManyBelow(s, cap, others, m);
      assert PageOk(s, cap, p);
      var mine := Elements(s.nodes[p].children);
      DistinctCount(s.nodes[p].children);
      forall x | x in mine ensures x in s.nodes && x != s.root && x in s.parent && s.parent[x] == p {
        var i :| 0 <= i < |s.nodes[p].children| && s.nodes[p].children[i] == x;
        assert ChildOk(s, p, i);
      }
      Disjoint(Below(s, others), mine, Below(s, parents));
      assert |parents| == |others| + 1;
      Distribute(m, |others|);
    }
  }

  lemma Distribute(m: nat, n: nat)
    ensures m * (n + 1) == m * n + m
  {
  }

  lemma Disjoint(a: set<PageId>, b: set<PageId>, c: set<PageId>)
    requires a !! b && a <= c && b <= c
    ensures |c| >= |a| + |b|
  {
    assert |a + b| == |a| + |b|;
    assert c == (a + b) + (c - (a + b));
    assert |c| == |a + b| + |c - (a + b)|;
  }

  lemma BelowIsNextLevel(s: Shape, cap: Capacity, l: nat)
    requires Wf(s, cap)
    ensures Below(s, AtLevel(s, l + 1)) <= AtLevel(s, l)
  {
    forall q | q in Below(s, AtLevel(s, l + 1)) ensures q in AtLevel(s, l) {
      assert ParentOk(s, q);
      var p := s.parent[q];
      assert PageOk(s, cap, p);
      var i :| 0 <= i < |s.nodes[p].children| && s.nodes[p].children[i] == q;
      assert ChildOk(s, p, i);
    }
  }

  lemma Subset(a: set<PageId>, b: set<PageId>)
    requires a <= b
    ensures |a| <= |b|
  {
    assert b == a + (b - a);
    assert |b| == |a| + |b - a|;
  }

  /** The pages `d` levels below the root's children. */
  lemma {:induction false} LevelCount(s: Shape, cap: Capacity, d: nat)
    requires Wf(s, cap) && s.nodes[s.root].Level() >= d + 1
    ensures |AtLevel(s, s.nodes[s.root].Level() - 1 - d)| >= 2 * Power(MinFill(cap), d)
    decreases d
  {
    var h := s.nodes[s.root].Level();
    if d == 0 {
      assert PageOk(s, cap, s.root);
      ManyBelow(s, cap, {s.root}, 2);
      assert Below(s, {s.root}) <= Below(s, AtLevel(s, h));
      BelowIsNextLevel(s, cap, h - 1);
      Subset(Below(s, {s.root}), AtLevel(s, h - 1));
    } else {
      LevelCount(s, cap, d - 1);
      NextLevelCount(s, cap, h - d, 2 * Power(MinFill(cap), d - 1));
      assert MinFill(cap) * (2 * Power(MinFill(cap), d - 1)) == 2 * Power(MinFill(cap), d);
    }
  }

  /** Below the root's children each level is larger by the least fan-out. */
  lemma NextLevelCount(s: Shape, cap: Capacity, l: nat, n: nat)
    requires Wf(s, cap) && 1 <= l < s.nodes[s.root].Level() && n <= |AtLevel(s, l)|
    ensures MinFill(cap) * n <= |AtLevel(s, l - 1)|
  {
    var up, m := AtLevel(s, l), MinFill(cap);
    forall p | p in up ensures s.nodes[p].Inner? && m <= |s.nodes[p].children| {
      assert PageOk(s, cap, p);
    }
    ManyBelow(s, cap, up, m);
    BelowIsNextLevel(s, cap, l - 1);
    Subset(Below(s, up), AtLevel(s, l - 1));
    Scale(m, n, |up|);
  }

  lemma Scale(m: nat, a: nat, b: nat)
    requires a <= b
    ensures m * a <= m * b
  {
  }

  /** A tree whose root is at level h >= 1 has at least 2 * floor((kCapacity-1)/2)^(h-1) leaves. */
  lemma HeightBound(s: Shape, cap: Capacity)
    requires Wf(s, cap) && s.nodes[s.root].Level() >= 1
    ensures |set p | p in s.nodes && s.nodes[p].Leaf?| >= 2 * Power((cap.inner - 1) / 2, s.nodes[s.root].Level() - 1)
  {
    LevelCount(s, cap, s.nodes[s.root].Level() - 1);
    var leaves := set p | p in s.nodes && s.nodes[p].Leaf?;
    forall p | p in AtLevel(s, 0) ensures p in leaves {
      assert PageOk(s, cap, p);
    }
    assert AtLevel(s, 0) == leaves;
  }
}
