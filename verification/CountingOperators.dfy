/**
  Intersect, IntersectAll, Except and ExceptAll: a hash table of counters over the left input.
  Source: task-operators/src/algebra.cc:531-723. The ALL form of each differs in one line
  ("The difference."), which `all` selects.
  */
module CountingOperators {
  import opened Collections
  import opened Tuples
  import opened SetOperators

  type Counters = map<Tuple, nat>

  function CountOf(ht: Counters, t: Tuple): nat { if t in ht then ht[t] else 0 }

  /** The left input as a bag, or with one copy of each tuple. */
  ghost function Weight(rows: seq<Tuple>, all: bool): multiset<Tuple> {
    if all then multiset(rows) else multiset(Elements(rows))
  }

  ghost predicate Counts(ht: Counters, bag: multiset<Tuple>) {
    forall t :: CountOf(ht, t) == bag[t]
  }

  lemma BuildStep(ht: Counters, rows: seq<Tuple>, i: nat, all: bool)
    requires i < |rows| && Counts(ht, Weight(rows[..i], all))
    ensures Counts(ht[rows[i] := if all then CountOf(ht, rows[i]) + 1 else 1], Weight(rows[..i + 1], all))
  {
    NextBag(rows, i);
    NextElement(rows, i);
    var t := rows[i];
    if all {
      assert Weight(rows[..i + 1], all) == Weight(rows[..i], all) + multiset{t};
    } else {
      assert Weight(rows[..i + 1], all) == Weight(rows[..i], all)[t := 1];
    }
  }

  /** One more tuple on the right: it takes one off the counter, or finds nothing left. */
  lemma TakeStep(ht: Counters, w: multiset<Tuple>, r: multiset<Tuple>, t: Tuple)
    requires Counts(ht, w - r)
    ensures 0 < CountOf(ht, t) ==> Counts(ht[t := (CountOf(ht, t) - 1) as nat], w - (r + multiset{t}))
    ensures 0 < CountOf(ht, t) ==> w * (r + multiset{t}) == w * r + multiset{t}
    ensures CountOf(ht, t) == 0 ==> Counts(ht, w - (r + multiset{t})) && w * (r + multiset{t}) == w * r
  {
    assert CountOf(ht, t) == (w - r)[t];
    var q := r + multiset{t};
    if 0 < CountOf(ht, t) {
      assert w * q == w * r + multiset{t};
      assert w - q == (w - r) - multiset{t};
    } else {
      assert w * q == w * r;
      assert w - q == w - r;
    }
  }

  /** Consumes the left input into counters (algebra.cc:546-550, 590-594, 634-638, 687-691). */
  method Build(left: Input, all: bool) returns (ht: Counters)
    requires left.Valid() && left.at == 0
    modifies left
    ensures left.Valid() && left.at == |left.rows|
    ensures Counts(ht, Weight(left.rows, all))
  {
    hide Counts, Weight;
    ht := map[];
    StartsEmpty(left.rows, all);
    while true
      invariant left.Valid() && Counts(ht, Weight(left.rows[..left.at], all))
      decreases |left.rows| - left.at
    {
      ghost var i := left.at;
      var row := left.Next();
      if row.None? {
        WholeBag(left.rows, left.at);
        return;
      }
      BuildStep(ht, left.rows, i, all);
      ht := ht[row.value := if all then CountOf(ht, row.value) + 1 else 1];
    }
  }

  lemma StartsEmpty(rows: seq<Tuple>, all: bool)
    ensures Counts(map[], Weight(rows[..0], all))
    ensures multiset(rows[..0]) == multiset{}
  {
  }

  lemma NothingTaken(w: multiset<Tuple>)
    ensures w - multiset{} == w && w * multiset{} == multiset{}
  {
  }

  // ---------- Intersect and IntersectAll ----------

  class Intersect {
    const left: Input
    const right: Input
    const all: bool
    var seenInput: bool
    var ht: Counters
    ghost var emitted: seq<Tuple>

    ghost function Result(): multiset<Tuple> { Weight(left.rows, all) * multiset(right.rows) }

    ghost predicate Valid()
      reads this, left, right
    {
      && left != right && left.Valid() && right.Valid()
      && (!seenInput ==> left.at == 0 && right.at == 0 && emitted == [])
      && (seenInput ==>
            && Counts(ht, Weight(left.rows, all) - multiset(right.rows[..right.at]))
            && multiset(emitted) == Weight(left.rows, all) * multiset(right.rows[..right.at]))
    }

    constructor (left: Input, right: Input, all: bool)
      requires left != right && left.at == 0 && right.at == 0
      ensures Valid() && emitted == [] && this.left == left && this.right == right && this.all == all
    {
      this.left, this.right, this.all := left, right, all;
      seenInput, ht, emitted := false, map[], [];
    }

    /** algebra.cc:543-565, 587-609 */
    method Next() returns (row: Option<Tuple>)
      requires Valid()
      modifies this, left, right
      ensures Valid() && emitted == old(emitted) + (if row.Some? then [row.value] else [])
      ensures row.None? ==> multiset(emitted) == Result()
    {
      hide Counts, Weight;
      if !seenInput {
        ht := Build(left, all);
        seenInput := true;
        StartsEmpty(right.rows, all);
        NothingTaken(Weight(left.rows, all));
      }
      row := Probe();
    }

    /** The loop over the right input (algebra.cc:553-564, 597-608). */
    method Probe() returns (row: Option<Tuple>)
      requires Valid() && seenInput
      modifies `ht, `emitted, right
      ensures Valid() && emitted == old(emitted) + (if row.Some? then [row.value] else [])
      ensures row.None? ==> multiset(emitted) == Result()
    {
      hide Counts, Weight;
      ghost var w := Weight(left.rows, all);
      while true
        invariant Valid() && seenInput && emitted == old(emitted)
        decreases |right.rows| - right.at
      {
        ghost var i := right.at;
        row := right.Next();
        if row.None? {
          WholeBag(right.rows, right.at);
          return;
        }
        NextBag(right.rows, i);
        TakeStep(ht, w, multiset(right.rows[..i]), row.value);
        if row.value in ht && ht[row.value] > 0 {
          ht := ht[row.value := ht[row.value] - 1];
          emitted := emitted + [row.value];
          return;
        }
      }
    }
  }

  // ---------- Except and ExceptAll ----------

  class Except {
    const left: Input
    const right: Input
    const all: bool
    var seenInput: bool
    var ht: Counters
    /** The hash table in iteration order, and the iterator. */
    var order: seq<Tuple>
    var it: nat
    ghost var emitted: seq<Tuple>

    ghost function Result(): multiset<Tuple> { Weight(left.rows, all) - multiset(right.rows) }

    ghost predicate Valid()
      reads this, left, right
    {
      && left != right && left.Valid() && right.Valid()
      && (!seenInput ==> left.at == 0 && right.at == 0 && emitted == [])
      && (seenInput ==> it <= |order| && Emitting(ht, order, it, multiset(emitted), Result()))
    }

    constructor (left: Input, right: Input, all: bool)
      requires left != right && left.at == 0 && right.at == 0
      ensures Valid() && emitted == [] && this.left == left && this.right == right && this.all == all
    {
      this.left, this.right, this.all := left, right, all;
      seenInput, ht, order, it, emitted := false, map[], [], 0, [];
    }

    /** Consumes the right input (algebra.cc:639-645, 692-698). */
    method TakeAll()
      requires left != right && right.Valid() && right.at == 0
      requires Counts(ht, Weight(left.rows, all))
      modifies `ht, right
      ensures right.Valid() && Counts(ht, Result())
    {
      hide Counts, Weight;
      ghost var w := Weight(left.rows, all);
      StartsEmpty(right.rows, all);
      NothingTaken(w);
      while true
        invariant right.Valid() && Counts(ht, w - multiset(right.rows[..right.at]))
        decreases |right.rows| - right.at
      {
        ghost var i := right.at;
        var row := right.Next();
        if row.None? {
          WholeBag(right.rows, right.at);
          return;
        }
        NextBag(right.rows, i);
        TakeStep(ht, w, multiset(right.rows[..i]), row.value);
        if row.value in ht && ht[row.value] > 0 {
          ht := ht[row.value := ht[row.value] - 1];
        }
      }
    }

    /** algebra.cc:631-662, 684-715 */
    method Next() returns (row: Option<Tuple>)
      requires Valid()
      modifies this, left, right
      ensures Valid() && emitted == old(emitted) + (if row.Some? then [row.value] else [])
      ensures row.None? ==> multiset(emitted) == Result()
    {
      hide Counts, Weight;
      if !seenInput {
        ht := Build(left, all);
        TakeAll();
        order := Enumerate(ht.Keys);
        EmitStart(ht, order, Result());
        it := 0;
        seenInput := true;
      }
      row := NextOut();
    }

    /** algebra.cc:650-661, 703-714 */
    method NextOut() returns (row: Option<Tuple>)
      requires Valid() && seenInput
      modifies `ht, `it, `emitted
      ensures Valid() && emitted == old(emitted) + (if row.Some? then [row.value] else [])
      ensures row.None? ==> multiset(emitted) == Result()
    {
      hide Emitting, Weight;
      while it != |order|
        invariant Valid() && seenInput && emitted == old(emitted)
        decreases |order| - it
      {
        var t := order[it];
        EmitStep(ht, order, it, multiset(emitted), Result());
        if ht[t] > 0 {
          ht := ht[t := ht[t] - 1];
          emitted := emitted + [t];
          return Some(t);
        }
        it := it + 1;
      }
      AllOut(ht, order, multiset(emitted), Result());
      row := None;
    }
  }

  /** What was emitted and what the counters from the iterator on hold make the result. */
  ghost predicate Emitting(ht: Counters, order: seq<Tuple>, it: nat, out: multiset<Tuple>, result: multiset<Tuple>)
    requires it <= |order|
  {
    && (forall t :: t in order <==> t in ht)
    && (forall j :: 0 <= j < it ==> CountOf(ht, order[j]) == 0)
    && (forall t :: out[t] + CountOf(ht, t) == result[t])
  }

  lemma EmitStart(ht: Counters, order: seq<Tuple>, result: multiset<Tuple>)
    requires Counts(ht, result) && forall t :: t in order <==> t in ht
    ensures Emitting(ht, order, 0, multiset([]), result)
  {
  }

  lemma EmitStep(ht: Counters, order: seq<Tuple>, it: nat, out: multiset<Tuple>, result: multiset<Tuple>)
    requires it < |order| && Emitting(ht, order, it, out, result)
    ensures order[it] in ht
    ensures if ht[order[it]] == 0 then Emitting(ht, order, it + 1, out, result)
            else Emitting(ht[order[it] := ht[order[it]] - 1], order, it, out + multiset{order[it]}, result)
  {
    assert order[it] in order;
  }

  lemma AllOut(ht: Counters, order: seq<Tuple>, out: multiset<Tuple>, result: multiset<Tuple>)
    requires Emitting(ht, order, |order|, out, result)
    ensures out == result
  {
    forall t ensures out[t] == result[t] {
      if t in ht {
        var j :| 0 <= j < |order| && order[j] == t;
        assert CountOf(ht, order[j]) == 0;
      }
      assert out[t] + CountOf(ht, t) == result[t];
    }
  }
}
