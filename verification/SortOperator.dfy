/**
  Sort: one stable sort per criterion, from the last criterion to the first.
  Source: task-operators/src/algebra.cc:239-290.
  */
module SortOperator {
  import opened Collections
  import opened Tuples

  datatype Criterion = Criterion(attr: nat, desc: bool)

  /** The comparison reads an attribute both tuples have, and asserts that the types agree. */
  predicate Comparable(c: Criterion, a: Tuple, b: Tuple) {
    c.attr < |a| && c.attr < |b| && SameType(a[c.attr], b[c.attr])
  }

  ghost predicate RowsOk(rows: seq<Tuple>, criteria: seq<Criterion>) {
    forall c, a, b :: c in criteria && a in rows && b in rows ==> Comparable(c, a, b)
  }

  ghost predicate ColumnOk(rows: seq<Tuple>, c: Criterion) {
    forall a, b :: a in rows && b in rows ==> Comparable(c, a, b)
  }

  /** The comparator of one pass (algebra.cc:268-274). */
  predicate KeyLess(c: Criterion, a: Tuple, b: Tuple) {
    Comparable(c, a, b) && if c.desc then Less(b[c.attr], a[c.attr]) else Less(a[c.attr], b[c.attr])
  }

  lemma KeyOrder(c: Criterion, x: Tuple, y: Tuple, z: Tuple)
    requires Comparable(c, x, y) && Comparable(c, y, z)
    ensures !(KeyLess(c, x, y) && KeyLess(c, y, x)) && !KeyLess(c, x, x)
    ensures KeyLess(c, x, y) && !KeyLess(c, z, y) ==> KeyLess(c, x, z)
    ensures !KeyLess(c, y, x) && !KeyLess(c, z, y) ==> !KeyLess(c, z, x)
  {
    var a, b, d := x[c.attr], y[c.attr], z[c.attr];
    LessTotal(a, b);
    LessTotal(b, d);
    LessTotal(a, d);
    if c.desc {
      if Less(b, a) && Less(d, b) {
        LessTransitive(d, b, a);
      }
      if Less(a, d) && Less(d, b) {
        LessTransitive(a, d, b);
      }
      if Less(b, a) && Less(a, d) {
        LessTransitive(b, a, d);
      }
    } else {
      if Less(a, b) && Less(b, d) {
        LessTransitive(a, b, d);
      }
      if Less(b, d) && Less(d, a) {
        LessTransitive(b, d, a);
      }
      if Less(d, a) && Less(a, b) {
        LessTransitive(d, a, b);
      }
    }
  }

  // ---------- what the passes promise ----------

  /** `b` is `a` rearranged: position k of `b` shows position pi[k] of `a`, each once. */
  ghost predicate Rearranged(a: seq<Tuple>, b: seq<Tuple>, pi: seq<nat>) {
    && |b| == |pi| == |a|
    && (forall k :: 0 <= k < |pi| ==> pi[k] < |a| && b[k] == a[pi[k]])
    && (forall i, j :: 0 <= i < j < |pi| ==> pi[i] != pi[j])
    && multiset(b) == multiset(a)
  }

  /** In order of one criterion, ties in input order. */
  ghost predicate Stable(c: Criterion, b: seq<Tuple>, pi: seq<nat>)
    requires |b| == |pi|
  {
    forall i, j :: 0 <= i < j < |b| ==> !KeyLess(c, b[j], b[i]) && (KeyLess(c, b[i], b[j]) || pi[i] < pi[j])
  }

  /** Smaller in the first criterion in which the two differ. */
  predicate Before(criteria: seq<Criterion>, a: Tuple, b: Tuple) {
    criteria != [] && (KeyLess(criteria[0], a, b) || (!KeyLess(criteria[0], b, a) && Before(criteria[1..], a, b)))
  }

  /** In lexicographic order of all criteria, ties in input order. */
  ghost predicate Lexicographic(criteria: seq<Criterion>, b: seq<Tuple>, pi: seq<nat>)
    requires |b| == |pi|
  {
    forall i, j :: 0 <= i < j < |b| ==> !Before(criteria, b[j], b[i]) && (Before(criteria, b[i], b[j]) || pi[i] < pi[j])
  }

  /** `r` after `q`: where each row came from in the end. */
  function Compose(q: seq<nat>, r: seq<nat>): (p: seq<nat>)
    requires forall k :: 0 <= k < |r| ==> r[k] < |q|
    ensures |p| == |r| && forall k :: 0 <= k < |p| ==> p[k] == q[r[k]]
  {
    seq(|r|, k requires 0 <= k < |r| => q[r[k]])
  }

  /** A stable sort by one more criterion makes it the most important one. */
  lemma PassLexicographic(criteria: seq<Criterion>, rows: seq<Tuple>, a: seq<Tuple>, q: seq<nat>, b: seq<Tuple>, r: seq<nat>)
    requires criteria != [] && ColumnOk(rows, criteria[0])
    requires Rearranged(rows, a, q) && Lexicographic(criteria[1..], a, q)
    requires Rearranged(a, b, r) && Stable(criteria[0], b, r)
    ensures Rearranged(rows, b, Compose(q, r)) && Lexicographic(criteria, b, Compose(q, r))
  {
    var p := Compose(q, r);
    forall i, j | 0 <= i < j < |p| ensures p[i] != p[j] {
      assert r[i] != r[j];
    }
    forall i, j | 0 <= i < j < |b|
      ensures !Before(criteria, b[j], b[i]) && (Before(criteria, b[i], b[j]) || p[i] < p[j])
    {
      var c := criteria[0];
      assert b[i] == rows[p[i]] && b[j] == rows[p[j]];
      KeyOrder(c, b[i], b[j], b[i]);
      if !KeyLess(c, b[i], b[j]) {
        assert r[i] < r[j];
        assert b[i] == a[r[i]] && b[j] == a[r[j]];
      }
    }
  }

  // ---------- std::stable_sort ----------

  lemma InsertStable(a: seq<Tuple>, n: nat, c: Criterion, b: seq<Tuple>, pi: seq<nat>, p: nat)
    requires n < |a| && ColumnOk(a, c)
    requires Rearranged(a[..n], b, pi) && Stable(c, b, pi)
    requires p <= n && (forall k :: 0 <= k < p ==> !KeyLess(c, a[n], b[k])) && (p < n ==> KeyLess(c, a[n], b[p]))
    ensures Stable(c, b[..p] + [a[n]] + b[p..], pi[..p] + [n] + pi[p..])
  {
    var x := a[n];
    forall k | p <= k < n ensures KeyLess(c, x, b[k]) && !KeyLess(c, b[k], x) {
      assert b[k] == a[..n][pi[k]] && b[p] == a[..n][pi[p]];
      assert b[k] in a && b[p] in a && x in a;
      KeyOrder(c, x, b[p], b[k]);
      KeyOrder(c, x, b[k], x);
    }
    InsertedInOrder(a, n, c, b, pi, p);
  }

  lemma InsertedInOrder(a: seq<Tuple>, n: nat, c: Criterion, b: seq<Tuple>, pi: seq<nat>, p: nat)
    requires n < |a| && |b| == |pi| == n && Stable(c, b, pi) && p <= n && forall k :: 0 <= k < n ==> pi[k] < n
    requires forall k :: 0 <= k < p ==> !KeyLess(c, a[n], b[k])
    requires forall k :: p <= k < n ==> KeyLess(c, a[n], b[k]) && !KeyLess(c, b[k], a[n])
    ensures Stable(c, b[..p] + [a[n]] + b[p..], pi[..p] + [n] + pi[p..])
  {
    hide KeyLess;
    var x := a[n];
    var d, q := b[..p] + [x] + b[p..], pi[..p] + [n] + pi[p..];
    forall i, j | 0 <= i < j < |d|
      ensures !KeyLess(c, d[j], d[i]) && (KeyLess(c, d[i], d[j]) || q[i] < q[j])
    {
      if i != p && j != p {
        var k, m := if i < p then i else i - 1, if j < p then j else j - 1;
        assert d[i] == b[k] && d[j] == b[m] && q[i] == pi[k] && q[j] == pi[m];
      } else if i == p {
        assert d[j] == b[j - 1] && d[i] == x;
      } else {
        assert d[i] == b[i] && d[j] == x && q[i] == pi[i] < n;
      }
    }
  }

  lemma InsertRearranged(a: seq<Tuple>, n: nat, b: seq<Tuple>, pi: seq<nat>, p: nat)
    requires n < |a| && Rearranged(a[..n], b, pi) && p <= n
    ensures Rearranged(a[..n + 1], b[..p] + [a[n]] + b[p..], pi[..p] + [n] + pi[p..])
  {
    InsertBag(a, n, b, p);
    InsertPositions(a, n, b, pi, p);
    InsertDistinct(pi, n, p);
  }

  lemma InsertBag(a: seq<Tuple>, n: nat, b: seq<Tuple>, p: nat)
    requires n < |a| && p <= |b| && multiset(b) == multiset(a[..n])
    ensures multiset(b[..p] + [a[n]] + b[p..]) == multiset(a[..n + 1])
  {
    assert a[..n + 1] == a[..n] + [a[n]];
    assert b == b[..p] + b[p..];
  }

  lemma InsertPositions(a: seq<Tuple>, n: nat, b: seq<Tuple>, pi: seq<nat>, p: nat)
    requires n < |a| && |b| == |pi| == n && p <= n
    requires forall k :: 0 <= k < n ==> pi[k] < n && b[k] == a[pi[k]]
    ensures var d, q := b[..p] + [a[n]] + b[p..], pi[..p] + [n] + pi[p..];
            |d| == |q| == n + 1 && forall k :: 0 <= k < |q| ==> q[k] < n + 1 && d[k] == a[q[k]]
  {
  }

  lemma InsertDistinct(pi: seq<nat>, n: nat, p: nat)
    requires p <= |pi| && forall k :: 0 <= k < |pi| ==> pi[k] < n
    requires forall i, j :: 0 <= i < j < |pi| ==> pi[i] != pi[j]
    ensures var q := pi[..p] + [n] + pi[p..]; forall i, j :: 0 <= i < j < |q| ==> q[i] != q[j]
  {
  }

  method StableSort(a: seq<Tuple>, c: Criterion) returns (b: seq<Tuple>, ghost pi: seq<nat>)
    requires ColumnOk(a, c)
    ensures Rearranged(a, b, pi) && Stable(c, b, pi)
  {
    hide Rearranged, Stable, ColumnOk;
    b, pi := [], [];
    EmptySorted(a, c);
    for n := 0 to |a|
      invariant |b| == |pi| == n
      invariant Rearranged(a[..n], b, pi) && Stable(c, b, pi)
    {
      var p := 0;
      while p < |b| && !KeyLess(c, a[n], b[p])
        invariant p <= |b| && forall k :: 0 <= k < p ==> !KeyLess(c, a[n], b[k])
      {
        p := p + 1;
      }
      InsertRearranged(a, n, b, pi, p);
      InsertStable(a, n, c, b, pi, p);
      b, pi := b[..p] + [a[n]] + b[p..], pi[..p] + [n] + pi[p..];
    }
    WholeBag(a, |a|);
  }

  lemma EmptySorted(a: seq<Tuple>, c: Criterion)
    ensures Rearranged(a[..0], [], []) && Stable(c, [], [])
  {
  }

  // ---------- the operator ----------

  ghost predicate IsSorted(rows: seq<Tuple>, criteria: seq<Criterion>, out: seq<Tuple>, pi: seq<nat>) {
    Rearranged(rows, out, pi) && Lexicographic(criteria, out, pi)
  }

  lemma Untouched(rows: seq<Tuple>)
    ensures IsSorted(rows, [], rows, seq(|rows|, i => i))
  {
  }

  class Sort {
    const input: Input
    const criteria: seq<Criterion>
    var sorted: seq<Tuple>
    var nextOutputOffset: nat
    ghost var origin: seq<nat>

    ghost predicate Valid()
      reads this, input
    {
      && input.Valid() && RowsOk(input.rows, criteria)
      && nextOutputOffset <= |sorted|
      && (nextOutputOffset == 0 ==> sorted == [] && (input.at == 0 || input.rows == []))
      && (nextOutputOffset > 0 ==> input.at == |input.rows| && IsSorted(input.rows, criteria, sorted, origin))
    }

    constructor (input: Input, criteria: seq<Criterion>)
      requires input.at == 0 && RowsOk(input.rows, criteria)
      ensures Valid() && nextOutputOffset == 0 && this.input == input && this.criteria == criteria
    {
      this.input, this.criteria := input, criteria;
      sorted, nextOutputOffset, origin := [], 0, [];
    }

    /** Consumes the input and sorts it, the first criterion last (algebra.cc:252-275). */
    method Fill()
      requires Valid() && nextOutputOffset == 0
      modifies `sorted, `origin, input
      ensures input.Valid() && input.at == |input.rows|
      ensures IsSorted(input.rows, criteria, sorted, origin)
    {
      while true
        invariant input.Valid() && sorted == input.rows[..input.at]
        decreases |input.rows| - input.at
      {
        var row := input.Next();
        if row.None? {
          break;
        }
        sorted := sorted + [row.value];
      }
      ghost var rows := input.rows;
      WholeBag(rows, input.at);
      origin := seq(|rows|, i => i);
      Untouched(rows);
      hide IsSorted, RowsOk;
      var k := |criteria|;
      while k > 0
        invariant 0 <= k <= |criteria| && input.Valid() && input.at == |input.rows|
        invariant IsSorted(rows, criteria[k..], sorted, origin)
      {
        k := k - 1;
        PassReady(rows, criteria, k, sorted, origin);
        ghost var was, q, r := sorted, origin, [];
        sorted, r := StableSort(sorted, criteria[k]);
        PassDone(rows, criteria, k, was, q, sorted, r);
        origin := Compose(q, r);
      }
      assert criteria[0..] == criteria;
    }

    /** algebra.cc:249-283 */
    method Next() returns (row: Option<Tuple>)
      requires Valid()
      modifies this, input
      ensures Valid()
      ensures row.Some? ==> nextOutputOffset == old(nextOutputOffset) + 1 && row.value == sorted[old(nextOutputOffset)]
      ensures row.None? ==> nextOutputOffset == old(nextOutputOffset) == |sorted| && IsSorted(input.rows, criteria, sorted, origin)
      ensures 0 < old(nextOutputOffset) ==> sorted == old(sorted) && origin == old(origin)
    {
      if nextOutputOffset == 0 {
        Fill();
      }
      if nextOutputOffset == |sorted| {
        row := None;
      } else {
        row := Some(sorted[nextOutputOffset]);
        nextOutputOffset := nextOutputOffset + 1;
      }
    }
  }

  lemma PassReady(rows: seq<Tuple>, criteria: seq<Criterion>, k: nat, a: seq<Tuple>, q: seq<nat>)
    requires k < |criteria| && RowsOk(rows, criteria) && IsSorted(rows, criteria[k + 1..], a, q)
    ensures ColumnOk(rows, criteria[k]) && ColumnOk(a, criteria[k])
  {
    assert criteria[k] in criteria;
    forall x | x in a ensures x in rows {
      assert x in multiset(a);
    }
  }

  lemma PassDone(rows: seq<Tuple>, criteria: seq<Criterion>, k: nat, a: seq<Tuple>, q: seq<nat>, b: seq<Tuple>, r: seq<nat>)
    requires k < |criteria| && ColumnOk(rows, criteria[k]) && IsSorted(rows, criteria[k + 1..], a, q)
    requires Rearranged(a, b, r) && Stable(criteria[k], b, r)
    ensures forall i :: 0 <= i < |r| ==> r[i] < |q|
    ensures IsSorted(rows, criteria[k..], b, Compose(q, r))
  {
    assert criteria[k..][1..] == criteria[k + 1..];
    PassLexicographic(criteria[k..], rows, a, q, b, r);
  }

  // ---------- the order in terms of the values ----------

  /** `a` and `b` have the attributes of all criteria, with the same types. */
  ghost predicate AllComparable(criteria: seq<Criterion>, a: Tuple, b: Tuple) {
    forall k :: 0 <= k < |criteria| ==> Comparable(criteria[k], a, b)
  }

  /** Criterion `k` is the first one in which `a` and `b` differ; there is none if `k` is their number. */
  ghost predicate FirstDifference(criteria: seq<Criterion>, a: Tuple, b: Tuple, k: nat)
    requires AllComparable(criteria, a, b)
  {
    && k <= |criteria|
    && (forall m :: 0 <= m < k ==> a[criteria[m].attr] == b[criteria[m].attr])
    && (k < |criteria| ==> a[criteria[k].attr] != b[criteria[k].attr])
  }

  /** The smaller number or text goes first, or the greater one. */
  ghost predicate GoesFirst(x: Register, y: Register, desc: bool) {
    && (x.Int? ==> y.Int? && if desc then y.value < x.value else x.value < y.value)
    && (x.Char? ==> y.Char? && if desc then TextLess(y.text, x.text) else TextLess(x.text, y.text))
  }

  /** The first column in which they differ decides which of two rows goes first. */
  lemma {:induction false} OrderOfValues(criteria: seq<Criterion>, a: Tuple, b: Tuple, k: nat)
    requires AllComparable(criteria, a, b) && FirstDifference(criteria, a, b, k) && !Before(criteria, b, a)
    ensures k < |criteria| ==> GoesFirst(a[criteria[k].attr], b[criteria[k].attr], criteria[k].desc)
    ensures k == |criteria| ==> !Before(criteria, a, b)
  {
    if criteria != [] {
      var c := criteria[0];
      LessTotal(a[c.attr], b[c.attr]);
      if 0 < k {
        assert forall m :: 0 <= m < |criteria| - 1 ==> criteria[1..][m] == criteria[m + 1];
        OrderOfValues(criteria[1..], a, b, k - 1);
      }
    }
  }

  lemma RowsComparable(rows: seq<Tuple>, criteria: seq<Criterion>, out: seq<Tuple>)
    requires RowsOk(rows, criteria) && multiset(out) == multiset(rows)
    ensures forall i, j :: 0 <= i < |out| && 0 <= j < |out| ==> AllComparable(criteria, out[i], out[j])
  {
    forall a | a in out ensures a in rows {
      assert a in multiset(out);
    }
  }

  lemma InOrder(criteria: seq<Criterion>, out: seq<Tuple>, origin: seq<nat>, i: nat, j: nat, k: nat)
    requires |out| == |origin| && Lexicographic(criteria, out, origin) && i < j < |out|
    requires AllComparable(criteria, out[i], out[j]) && FirstDifference(criteria, out[i], out[j], k)
    ensures k < |criteria| ==> GoesFirst(out[i][criteria[k].attr], out[j][criteria[k].attr], criteria[k].desc)
    ensures k == |criteria| ==> origin[i] < origin[j]
  {
    OrderOfValues(criteria, out[i], out[j], k);
  }

  lemma InOrderOfValues(criteria: seq<Criterion>, out: seq<Tuple>, origin: seq<nat>)
    requires |out| == |origin| && Lexicographic(criteria, out, origin)
    requires forall i, j :: 0 <= i < |out| && 0 <= j < |out| ==> AllComparable(criteria, out[i], out[j])
    ensures forall i, j, k: nat :: 0 <= i < j < |out| && k < |criteria| && FirstDifference(criteria, out[i], out[j], k) ==>
              var x, y := out[i][criteria[k].attr], out[j][criteria[k].attr];
              && (x.Int? ==> y.Int? && if criteria[k].desc then y.value < x.value else x.value < y.value)
              && (x.Char? ==> y.Char? && if criteria[k].desc then TextLess(y.text, x.text) else TextLess(x.text, y.text))
    ensures forall i, j :: 0 <= i < j < |out| && FirstDifference(criteria, out[i], out[j], |criteria|) ==> origin[i] < origin[j]
  {
    hide Lexicographic, FirstDifference;
    forall i, j, k: nat | 0 <= i < j < |out| && k < |criteria| && FirstDifference(criteria, out[i], out[j], k)
      ensures GoesFirst(out[i][criteria[k].attr], out[j][criteria[k].attr], criteria[k].desc)
    {
      InOrder(criteria, out, origin, i, j, k);
    }
    forall i, j | 0 <= i < j < |out| && FirstDifference(criteria, out[i], out[j], |criteria|) ensures origin[i] < origin[j] {
      InOrder(criteria, out, origin, i, j, |criteria|);
    }
  }

  /**
    Sorting emits every input row once. Of two rows the one that comes out first has, in the first
    criterion in which they differ, the smaller number or text if it is ascending and the greater
    one if it is descending; rows that agree in all criteria come out in input order.
    */
  method DrainSort(rows: seq<Tuple>, criteria: seq<Criterion>) returns (out: seq<Tuple>, ghost origin: seq<nat>)
    requires RowsOk(rows, criteria)
    ensures multiset(out) == multiset(rows) && Rearranged(rows, out, origin)
    ensures forall i, j :: 0 <= i < |out| && 0 <= j < |out| ==> AllComparable(criteria, out[i], out[j])
    ensures forall i, j, k: nat :: 0 <= i < j < |out| && k < |criteria| && FirstDifference(criteria, out[i], out[j], k) ==>
              var x, y := out[i][criteria[k].attr], out[j][criteria[k].attr];
              && (x.Int? ==> y.Int? && if criteria[k].desc then y.value < x.value else x.value < y.value)
              && (x.Char? ==> y.Char? && if criteria[k].desc then TextLess(y.text, x.text) else TextLess(x.text, y.text))
    ensures forall i, j :: 0 <= i < j < |out| && FirstDifference(criteria, out[i], out[j], |criteria|) ==> origin[i] < origin[j]
    ensures Lexicographic(criteria, out, origin)
  {
    hide RowsOk, Lexicographic, FirstDifference;
    var input := new Input(rows);
    var op := new Sort(input, criteria);
    out := [];
    while true
      invariant fresh(op) && fresh(input)
      invariant op.Valid() && op.input == input && op.criteria == criteria
      invariant out == op.sorted[..op.nextOutputOffset]
      decreases |rows| - op.nextOutputOffset
    {
      var row := op.Next();
      if row.None? {
        WholeBag(op.sorted, op.nextOutputOffset);
        origin := op.origin;
        RowsComparable(rows, criteria, out);
        InOrderOfValues(criteria, out, origin);
        return;
      }
      out := out + [row.value];
    }
  }
}
