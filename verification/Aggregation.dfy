/**
  HashAggregation: one output row for each group, folded while the input is consumed.
  Source: task-operators/src/algebra.cc:346-431.
  Sums are unbounded integers here.
  */
module Aggregation {
  import opened Collections
  import opened Tuples

  datatype Func = MIN | MAX | SUM | COUNT

  datatype AggrFunc = AggrFunc(func: Func, attr: nat)

  // ---------- the reference: groups and what is to be said of them ----------

  predicate KeyOk(keyAttrs: seq<nat>, row: Tuple) { forall a :: a in keyAttrs ==> a < |row| }

  /** The values of the grouping attributes, in their order. */
  function Key(keyAttrs: seq<nat>, row: Tuple): (key: Tuple)
    requires KeyOk(keyAttrs, row)
    ensures |key| == |keyAttrs|
    ensures forall i :: 0 <= i < |keyAttrs| ==> keyAttrs[i] in keyAttrs && key[i] == row[keyAttrs[i]]
  {
    seq(|keyAttrs|, i requires 0 <= i < |keyAttrs| => assert keyAttrs[i] in keyAttrs; row[keyAttrs[i]])
  }

  /** What the comparisons and the assertions on types ask of two rows. */
  predicate ColumnsOk(f: AggrFunc, a: Tuple, b: Tuple) {
    match f.func
    case COUNT => true
    case SUM => f.attr < |a| && a[f.attr].Int? && f.attr < |b| && b[f.attr].Int?
    case _ => f.attr < |a| && f.attr < |b| && SameType(a[f.attr], b[f.attr])
  }

  ghost predicate RowsOk(rows: seq<Tuple>, keyAttrs: seq<nat>, funcs: seq<AggrFunc>) {
    && (forall row :: row in rows ==> KeyOk(keyAttrs, row))
    && (forall f, a, b :: f in funcs && a in rows && b in rows ==> ColumnsOk(f, a, b))
  }

  /** The rows with one key, in input order. */
  function Group(rows: seq<Tuple>, keyAttrs: seq<nat>, key: Tuple): (g: seq<Tuple>)
    requires forall row :: row in rows ==> KeyOk(keyAttrs, row)
    ensures forall row :: row in g <==> row in rows && Key(keyAttrs, row) == key
  {
    if rows == [] then []
    else
      var last := rows[|rows| - 1];
      assert rows == rows[..|rows| - 1] + [last];
      var g := Group(rows[..|rows| - 1], keyAttrs, key);
      if Key(keyAttrs, last) == key then g + [last] else g
  }

  function SumOf(g: seq<Tuple>, attr: nat): int
    requires forall row: Tuple :: row in g ==> attr < |row| && row[attr].Int?
  {
    if g == [] then 0
    else
      var last := g[|g| - 1];
      assert last in g;
      SumOf(g[..|g| - 1], attr) + last[attr].value
  }

  /** A sum is that of its parts, down to single values. */
  lemma {:induction false} SumAdds(g: seq<Tuple>, h: seq<Tuple>, attr: nat)
    requires forall row: Tuple :: row in g || row in h ==> attr < |row| && row[attr].Int?
    ensures SumOf(g + h, attr) == SumOf(g, attr) + SumOf(h, attr)
    ensures |g| == 1 ==> g[0] in g && SumOf(g, attr) == g[0][attr].value
  {
    if h == [] {
      assert g + h == g;
    } else {
      var n := |h| - 1;
      assert g + h == g + h[..n] + [h[n]] && h[n] in h;
      SumAdds(g, h[..n], attr);
    }
    assert |g| == 1 ==> g[..0] == [];
  }

  /** Numbers by value, texts as strings compare. */
  predicate AtMost(x: Register, y: Register) {
    SameType(x, y) && if x.Int? then y.Int? && x.value <= y.value else y.Char? && !TextLess(y.text, x.text)
  }

  lemma AtMostIs(x: Register, y: Register)
    requires SameType(x, y)
    ensures AtMost(x, y) <==> !Less(y, x)
  {
  }

  /** `r` is the least, the greatest, the sum or the number of the group's values. */
  ghost predicate IsAggregate(f: AggrFunc, g: seq<Tuple>, r: Register) {
    match f.func
    case MIN =>
      && (forall row :: row in g ==> f.attr < |row| && AtMost(r, row[f.attr]))
      && (exists row :: row in g && f.attr < |row| && row[f.attr] == r)
    case MAX =>
      && (forall row :: row in g ==> f.attr < |row| && AtMost(row[f.attr], r))
      && (exists row :: row in g && f.attr < |row| && row[f.attr] == r)
    case SUM => (forall row: Tuple :: row in g ==> f.attr < |row| && row[f.attr].Int?) && r == Int(SumOf(g, f.attr))
    case COUNT => r == Int(|g|)
  }

  // ---------- the fold ----------

  /** A fresh aggregate (algebra.cc:366-382). */
  function Start(f: AggrFunc, row: Tuple): Register
    requires ColumnsOk(f, row, row)
  {
    if f.func == MIN || f.func == MAX then row[f.attr] else Int(0)
  }

  /** One more row (algebra.cc:386-403). */
  function Fold(f: AggrFunc, r: Register, row: Tuple): Register
    requires ColumnsOk(f, row, row)
    requires if f.func == MIN || f.func == MAX then SameType(row[f.attr], r) else r.Int?
  {
    match f.func
    case MIN => if Less(row[f.attr], r) then row[f.attr] else r
    case MAX => if Less(r, row[f.attr]) then row[f.attr] else r
    case SUM => Int(r.value + row[f.attr].value)
    case COUNT => Int(r.value + 1)
  }

  lemma StartFolds(f: AggrFunc, row: Tuple)
    requires ColumnsOk(f, row, row)
    ensures if f.func == MIN || f.func == MAX then SameType(row[f.attr], Start(f, row)) else Start(f, row).Int?
    ensures IsAggregate(f, [row], Fold(f, Start(f, row), row))
  {
    if f.func == MIN || f.func == MAX {
      LessTotal(row[f.attr], row[f.attr]);
    } else if f.func == SUM {
      assert SumOf([row], f.attr) == SumOf([row][..0], f.attr) + row[f.attr].value;
    }
  }

  lemma FoldAggregates(f: AggrFunc, g: seq<Tuple>, r: Register, row: Tuple)
    requires IsAggregate(f, g, r) && g != []
    requires forall a :: a in g ==> ColumnsOk(f, a, row)
    requires ColumnsOk(f, row, row)
    ensures if f.func == MIN || f.func == MAX then SameType(row[f.attr], r) else r.Int?
    ensures IsAggregate(f, g + [row], Fold(f, r, row))
  {
    var h := g + [row];
    assert g[0] in g;
    if f.func == MIN || f.func == MAX {
      var s := Fold(f, r, row);
      LessTotal(row[f.attr], row[f.attr]);
      forall a | a in h
        ensures f.attr < |a| && SameType(a[f.attr], s)
        ensures if f.func == MIN then !Less(a[f.attr], s) else !Less(s, a[f.attr])
      {
        if a in g {
          FoldKeepsBound(f, r, row, a);
        }
      }
      assert row in h && forall a :: a in g ==> a in h;
    } else if f.func == SUM {
      assert h[..|h| - 1] == g;
    }
  }

  lemma FoldKeepsBound(f: AggrFunc, r: Register, row: Tuple, a: Tuple)
    requires (f.func == MIN || f.func == MAX) && ColumnsOk(f, a, row) && ColumnsOk(f, row, row)
    requires SameType(a[f.attr], r) && if f.func == MIN then !Less(a[f.attr], r) else !Less(r, a[f.attr])
    ensures SameType(row[f.attr], r)
    ensures var s := Fold(f, r, row);
            SameType(a[f.attr], s) && if f.func == MIN then !Less(a[f.attr], s) else !Less(s, a[f.attr])
  {
    var x, y := a[f.attr], row[f.attr];
    LessTotal(x, r);
    LessTotal(y, r);
    LessTotal(x, y);
    if f.func == MIN && Less(y, r) && Less(x, y) {
      LessTransitive(x, y, r);
    }
    if f.func == MAX && Less(r, y) && Less(y, x) {
      LessTransitive(r, y, x);
    }
  }

  // ---------- the hash table ----------

  type Table = map<Tuple, seq<Register>>

  ghost predicate Aggregates(funcs: seq<AggrFunc>, g: seq<Tuple>, values: seq<Register>) {
    |values| == |funcs| && forall i :: 0 <= i < |funcs| ==> IsAggregate(funcs[i], g, values[i])
  }

  /** One entry for each group, holding what is to be said of it. */
  ghost predicate Summarizes(ht: Table, rows: seq<Tuple>, keyAttrs: seq<nat>, funcs: seq<AggrFunc>)
    requires forall row :: row in rows ==> KeyOk(keyAttrs, row)
  {
    && (forall key :: key in ht <==> Group(rows, keyAttrs, key) != [])
    && (forall key :: key in ht ==> Aggregates(funcs, Group(rows, keyAttrs, key), ht[key]))
  }

  /** The rows of the group and the new one agree in what `f` looks at. */
  ghost predicate GroupOk(f: AggrFunc, g: seq<Tuple>, row: Tuple) {
    ColumnsOk(f, row, row) && forall a :: a in g ==> ColumnsOk(f, a, row)
  }

  /** One aggregate of the entry, begun with the first row of the group (algebra.cc:363-403). */
  method NextValue(f: AggrFunc, ghost g: seq<Tuple>, before: Option<Register>, row: Tuple) returns (r: Register)
    requires GroupOk(f, g, row) && (before.None? <==> g == [])
    requires before.Some? ==> IsAggregate(f, g, before.value)
    ensures IsAggregate(f, g + [row], r)
  {
    match before {
      case None =>
        StartFolds(f, row);
        assert g + [row] == [row];
        r := Fold(f, Start(f, row), row);
      case Some(value) =>
        FoldAggregates(f, g, value, row);
        r := Fold(f, value, row);
    }
  }

  /** Takes one row into the table (algebra.cc:360-404). */
  method Update(ht: Table, ghost g: seq<Tuple>, key: Tuple, row: Tuple, funcs: seq<AggrFunc>) returns (r: Table)
    requires key in ht <==> g != []
    requires key in ht ==> Aggregates(funcs, g, ht[key])
    requires forall f :: f in funcs ==> GroupOk(f, g, row)
    ensures key in r && r == ht[key := r[key]] && Aggregates(funcs, g + [row], r[key])
  {
    hide IsAggregate, GroupOk;
    var values := [];
    var i := 0;
    while i < |funcs|
      invariant i <= |funcs| && |values| == i
      invariant forall j :: 0 <= j < i ==> IsAggregate(funcs[j], g + [row], values[j])
    {
      assert funcs[i] in funcs;
      var value := NextValue(funcs[i], g, if key in ht then Some(ht[key][i]) else None, row);
      values := values + [value];
      i := i + 1;
    }
    r := ht[key := values];
  }

  lemma SummarizesNext(ht: Table, rows: seq<Tuple>, n: nat, keyAttrs: seq<nat>, funcs: seq<AggrFunc>, r: Table)
    requires n < |rows| && forall row :: row in rows ==> KeyOk(keyAttrs, row)
    requires Summarizes(ht, rows[..n], keyAttrs, funcs)
    requires var key := Key(keyAttrs, rows[n]);
             key in r && r == ht[key := r[key]] && Aggregates(funcs, Group(rows[..n], keyAttrs, key) + [rows[n]], r[key])
    ensures Summarizes(r, rows[..n + 1], keyAttrs, funcs)
  {
    hide Aggregates, Key, Group;
    forall key
      ensures key in r <==> Group(rows[..n + 1], keyAttrs, key) != []
      ensures key in r ==> Aggregates(funcs, Group(rows[..n + 1], keyAttrs, key), r[key])
    {
      GroupNext(rows, n, keyAttrs, key);
    }
  }

  lemma GroupNext(rows: seq<Tuple>, n: nat, keyAttrs: seq<nat>, key: Tuple)
    requires n < |rows| && forall row :: row in rows ==> KeyOk(keyAttrs, row)
    ensures Group(rows[..n + 1], keyAttrs, key)
            == if key == Key(keyAttrs, rows[n]) then Group(rows[..n], keyAttrs, key) + [rows[n]] else Group(rows[..n], keyAttrs, key)
  {
    assert rows[..n + 1][..n] == rows[..n] && rows[..n + 1][n] == rows[n];
  }

  class HashAggregation {
    const input: Input
    const keyAttrs: seq<nat>
    const funcs: seq<AggrFunc>
    var seenInput: bool
    var ht: Table
    /** The hash table in iteration order, and the iterator. */
    var order: seq<Tuple>
    var it: nat

    ghost predicate Valid()
      reads this, input
    {
      && input.Valid() && RowsOk(input.rows, keyAttrs, funcs)
      && (!seenInput ==> input.at == 0)
      && (seenInput ==>
            && it <= |order| && (forall key :: key in order <==> key in ht)
            && (forall i, j :: 0 <= i < j < |order| ==> order[i] != order[j])
            && Summarizes(ht, input.rows, keyAttrs, funcs))
    }

    constructor (input: Input, keyAttrs: seq<nat>, funcs: seq<AggrFunc>)
      requires input.at == 0 && RowsOk(input.rows, keyAttrs, funcs)
      ensures Valid() && !seenInput && this.input == input && this.keyAttrs == keyAttrs && this.funcs == funcs
    {
      this.input, this.keyAttrs, this.funcs := input, keyAttrs, funcs;
      seenInput, ht, order, it := false, map[], [], 0;
    }

    /** Consumes the input (algebra.cc:359-406). */
    method Build()
      requires Valid() && !seenInput
      modifies `ht, input
      ensures input.Valid() && Summarizes(ht, input.rows, keyAttrs, funcs)
    {
      ghost var rows := input.rows;
      ht := map[];
      assert rows[..0] == [];
      while true
        invariant input.Valid() && Summarizes(ht, rows[..input.at], keyAttrs, funcs)
        decreases |rows| - input.at
      {
        ghost var n := input.at;
        var row := input.Next();
        if row.None? {
          WholeBag(rows, n);
          return;
        }
        assert row.value in rows;
        var key := Key(keyAttrs, row.value);
        ghost var g := Group(rows[..n], keyAttrs, key);
        var r := Update(ht, g, key, row.value, funcs);
        SummarizesNext(ht, rows, n, keyAttrs, funcs, r);
        ht := r;
      }
    }

    /** algebra.cc:357-424; calling it again after it returned false would step past the end of the table. */
    method Next() returns (row: Option<Tuple>)
      requires Valid() && (seenInput ==> it < |order|)
      modifies this, input
      ensures Valid() && seenInput
      ensures old(seenInput) ==> order == old(order) && ht == old(ht) && it == old(it) + 1
      ensures !old(seenInput) ==> it == 0
      ensures row.Some? <==> it < |order|
      ensures row.Some? ==> order[it] in ht && row.value == order[it] + ht[order[it]]
    {
      if !seenInput {
        Build();
        order := Enumerate(ht.Keys);
        it := 0;
        seenInput := true;
      } else {
        it := it + 1;
      }
      if it != |order| {
        assert order[it] in order;
        row := Some(order[it] + ht[order[it]]);
      } else {
        row := None;
      }
    }
  }

  /**
    One row for each group, in some order: its key and the aggregates over exactly that group.
    `places` lists for each output row the input rows that agree with it in all grouping attributes.
    */
  method DrainAggregation(rows: seq<Tuple>, keyAttrs: seq<nat>, funcs: seq<AggrFunc>)
    returns (out: seq<Tuple>, keys: seq<Tuple>, values: seq<seq<Register>>, ghost places: seq<seq<nat>>)
    requires RowsOk(rows, keyAttrs, funcs)
    ensures |out| == |keys| == |values| == |places| && forall i :: 0 <= i < |out| ==> out[i] == keys[i] + values[i]
    ensures forall i, j :: 0 <= i < j < |keys| ==> keys[i] != keys[j]
    ensures forall i :: 0 <= i < |keys| ==>
              IsGroup(rows, keyAttrs, keys[i], places[i]) && Aggregates(funcs, Picked(rows, places[i]), values[i])
    ensures forall row :: row in rows ==> exists i :: 0 <= i < |keys| && HasKey(row, keyAttrs, keys[i])
  {
    hide Aggregates, Group, Summarizes, RowsOk, IsGroup;
    var input := new Input(rows);
    var op := new HashAggregation(input, keyAttrs, funcs);
    out, values := [], [];
    var row := op.Next();
    while row.Some?
      invariant fresh(op) && fresh(input)
      invariant op.Valid() && op.seenInput && op.input == input && op.keyAttrs == keyAttrs && op.funcs == funcs
      invariant row.Some? <==> op.it < |op.order|
      invariant row.Some? ==> op.order[op.it] in op.ht && row.value == op.order[op.it] + op.ht[op.order[op.it]]
      invariant |out| == |values| == op.it
      invariant forall i :: 0 <= i < |out| ==>
                              op.order[i] in op.ht && values[i] == op.ht[op.order[i]] && out[i] == op.order[i] + values[i]
      decreases |op.order| - op.it
    {
      out, values := out + [row.value], values + [op.ht[op.order[op.it]]];
      row := op.Next();
    }
    keys := op.order;
    OneRowPerGroup(op.ht, rows, keyAttrs, funcs, keys, values);
    places := GroupPlaces(rows, keyAttrs, funcs, keys, values);
  }

  // ---------- the groups in terms of the rows' positions ----------

  /** The row has the values `key` in the grouping attributes. */
  ghost predicate HasKey(row: Tuple, keyAttrs: seq<nat>, key: Tuple) {
    |key| == |keyAttrs| && forall k :: 0 <= k < |keyAttrs| ==> keyAttrs[k] < |row| && row[keyAttrs[k]] == key[k]
  }

  /** The positions in `p`, in order, are those of the rows with that key. */
  ghost predicate PlacesOk(rows: seq<Tuple>, keyAttrs: seq<nat>, key: Tuple, p: seq<nat>) {
    && (forall a, b :: 0 <= a < b < |p| ==> p[a] < p[b])
    && (forall a :: 0 <= a < |p| ==> p[a] < |rows| && HasKey(rows[p[a]], keyAttrs, key))
    && (forall n :: 0 <= n < |rows| && HasKey(rows[n], keyAttrs, key) ==> n in p)
  }

  /** And there are some. */
  ghost predicate IsGroup(rows: seq<Tuple>, keyAttrs: seq<nat>, key: Tuple, p: seq<nat>) {
    |key| == |keyAttrs| && p != [] && PlacesOk(rows, keyAttrs, key, p)
  }

  function Picked(rows: seq<Tuple>, p: seq<nat>): (g: seq<Tuple>)
    requires forall a :: 0 <= a < |p| ==> p[a] < |rows|
    ensures |g| == |p| && forall a :: 0 <= a < |p| ==> g[a] == rows[p[a]]
  {
    seq(|p|, a requires 0 <= a < |p| => rows[p[a]])
  }

  lemma SameKey(keyAttrs: seq<nat>, row: Tuple, key: Tuple)
    requires KeyOk(keyAttrs, row)
    ensures Key(keyAttrs, row) == key <==> HasKey(row, keyAttrs, key)
  {
    var own := Key(keyAttrs, row);
    assert forall k :: 0 <= k < |keyAttrs| ==> keyAttrs[k] in keyAttrs && own[k] == row[keyAttrs[k]];
  }

  lemma OneMorePlace(rows: seq<Tuple>, keyAttrs: seq<nat>, key: Tuple, p: seq<nat>)
    requires rows != [] && PlacesOk(rows[..|rows| - 1], keyAttrs, key, p)
    ensures var n := |rows| - 1;
            PlacesOk(rows, keyAttrs, key, if HasKey(rows[n], keyAttrs, key) then p + [n] else p)
  {
    hide HasKey;
    var n := |rows| - 1;
    var q := if HasKey(rows[n], keyAttrs, key) then p + [n] else p;
    forall m | 0 <= m < |rows| && HasKey(rows[m], keyAttrs, key) ensures m in q {
      if m < n {
        assert rows[..n][m] == rows[m] && m in p;
      }
    }
  }

  /** A group is the rows at these positions. */
  lemma {:induction false} PlacesOf(rows: seq<Tuple>, keyAttrs: seq<nat>, key: Tuple) returns (p: seq<nat>)
    requires forall row :: row in rows ==> KeyOk(keyAttrs, row)
    ensures PlacesOk(rows, keyAttrs, key, p) && Group(rows, keyAttrs, key) == Picked(rows, p)
  {
    p := [];
    if rows != [] {
      assert forall row :: row in rows[..|rows| - 1] ==> row in rows;
      p := PlacesOf(rows[..|rows| - 1], keyAttrs, key);
      p := NextPlaces(rows, keyAttrs, key, p);
    }
  }

  lemma NextPlaces(rows: seq<Tuple>, keyAttrs: seq<nat>, key: Tuple, q: seq<nat>) returns (p: seq<nat>)
    requires rows != [] && forall row :: row in rows ==> KeyOk(keyAttrs, row)
    requires PlacesOk(rows[..|rows| - 1], keyAttrs, key, q)
    requires Group(rows[..|rows| - 1], keyAttrs, key) == Picked(rows[..|rows| - 1], q)
    ensures PlacesOk(rows, keyAttrs, key, p) && Group(rows, keyAttrs, key) == Picked(rows, p)
  {
    var n := |rows| - 1;
    assert rows[..n + 1] == rows && rows[n] in rows;
    GroupNext(rows, n, keyAttrs, key);
    SameKey(keyAttrs, rows[n], key);
    OneMorePlace(rows, keyAttrs, key, q);
    PickedNext(rows, q);
    hide HasKey, Group, Picked, Key;
    p := if HasKey(rows[n], keyAttrs, key) then q + [n] else q;
    hide PlacesOk;
  }

  lemma PickedNext(rows: seq<Tuple>, p: seq<nat>)
    requires rows != [] && forall a :: 0 <= a < |p| ==> p[a] < |rows| - 1
    ensures var n := |rows| - 1;
            Picked(rows, p) == Picked(rows[..n], p) && Picked(rows, p + [n]) == Picked(rows[..n], p) + [rows[n]]
  {
  }

  lemma IsGroupThere(rows: seq<Tuple>, keyAttrs: seq<nat>, key: Tuple, p: seq<nat>)
    requires PlacesOk(rows, keyAttrs, key, p) && p != []
    ensures IsGroup(rows, keyAttrs, key, p)
  {
    assert HasKey(rows[p[0]], keyAttrs, key);
  }

  lemma GroupPlaces(rows: seq<Tuple>, keyAttrs: seq<nat>, funcs: seq<AggrFunc>, keys: seq<Tuple>, values: seq<seq<Register>>)
    returns (places: seq<seq<nat>>)
    requires RowsOk(rows, keyAttrs, funcs)
    requires |values| == |keys| && forall key :: key in keys <==> Group(rows, keyAttrs, key) != []
    requires forall i :: 0 <= i < |keys| ==> Aggregates(funcs, Group(rows, keyAttrs, keys[i]), values[i])
    ensures |places| == |keys|
    ensures forall i :: 0 <= i < |keys| ==>
              IsGroup(rows, keyAttrs, keys[i], places[i]) && Aggregates(funcs, Picked(rows, places[i]), values[i])
    ensures forall row :: row in rows ==> exists i :: 0 <= i < |keys| && HasKey(row, keyAttrs, keys[i])
  {
    hide Aggregates, Group, HasKey;
    places := [];
    while |places| < |keys|
      invariant |places| <= |keys|
      invariant forall i :: 0 <= i < |places| ==>
                  IsGroup(rows, keyAttrs, keys[i], places[i]) && Aggregates(funcs, Picked(rows, places[i]), values[i])
    {
      assert keys[|places|] in keys;
      var p := PlacesOf(rows, keyAttrs, keys[|places|]);
      IsGroupThere(rows, keyAttrs, keys[|places|], p);
      hide IsGroup, Picked;
      places := places + [p];
    }
    forall row | row in rows ensures exists i :: 0 <= i < |keys| && HasKey(row, keyAttrs, keys[i]) {
      var key := Key(keyAttrs, row);
      assert row in Group(rows, keyAttrs, key);
      var i :| 0 <= i < |keys| && keys[i] == key;
      SameKey(keyAttrs, row, key);
    }
  }

  lemma OneRowPerGroup(ht: Table, rows: seq<Tuple>, keyAttrs: seq<nat>, funcs: seq<AggrFunc>,
                       keys: seq<Tuple>, values: seq<seq<Register>>)
    requires RowsOk(rows, keyAttrs, funcs) && Summarizes(ht, rows, keyAttrs, funcs) && |values| == |keys|
    requires forall key :: key in keys <==> key in ht
    requires forall i :: 0 <= i < |keys| ==> keys[i] in ht && values[i] == ht[keys[i]]
    ensures forall key :: key in keys <==> Group(rows, keyAttrs, key) != []
    ensures forall i :: 0 <= i < |keys| ==> Aggregates(funcs, Group(rows, keyAttrs, keys[i]), values[i])
  {
    hide Group, Aggregates;
  }
}
