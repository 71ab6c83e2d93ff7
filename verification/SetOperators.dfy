/**
  The set and bag operators, one tuple at a time.
  Source: task-operators/src/algebra.cc:433-723.
  `emitted` records what next() has handed out; each operator's result is given as a multiset
  of its two inputs, without reference to hash tables or counters.
  */
module SetOperators {
  import opened Collections
  import opened Tuples

  // ---------- UnionAll ----------

  class UnionAll {
    const left: Input
    const right: Input
    var seenInput: bool
    ghost var emitted: seq<Tuple>

    ghost function Result(): multiset<Tuple> { multiset(left.rows) + multiset(right.rows) }

    ghost predicate Valid()
      reads this, left, right
    {
      && left != right && left.Valid() && right.Valid()
      && (seenInput ==> left.at == |left.rows|) && (!seenInput ==> right.at == 0)
      && emitted == left.rows[..left.at] + right.rows[..right.at]
    }

    constructor (left: Input, right: Input)
      requires left != right && left.at == 0 && right.at == 0
      ensures Valid() && emitted == [] && this.left == left && this.right == right
    {
      this.left, this.right := left, right;
      seenInput, emitted := false, [];
    }

    /** algebra.cc:500-522 */
    method Next() returns (row: Option<Tuple>)
      requires Valid()
      modifies this, left, right
      ensures Valid() && emitted == old(emitted) + (if row.Some? then [row.value] else [])
      ensures row.None? ==> multiset(emitted) == Result()
    {
      if !seenInput {
        row := left.Next();
        if row.Some? {
          emitted := emitted + [row.value];
          return;
        }
        seenInput := true;
      }
      row := right.Next();
      if row.Some? {
        emitted := emitted + [row.value];
      } else {
        WholeBag(left.rows, left.at);
        WholeBag(right.rows, right.at);
      }
    }
  }

  // ---------- Union ----------

  ghost predicate OnceEach(rows: seq<Tuple>, once: set<Tuple>) { multiset(rows) == multiset(once) }

  class Union {
    const left: Input
    const right: Input
    var seenInput: bool
    var ht: set<Tuple>
    ghost var emitted: seq<Tuple>

    ghost function Result(): multiset<Tuple> { multiset(Elements(left.rows) + Elements(right.rows)) }

    ghost predicate Valid()
      reads this, left, right
    {
      && left != right && left.Valid() && right.Valid()
      && (seenInput ==> left.at == |left.rows|) && (!seenInput ==> right.at == 0)
      && ht == Elements(left.rows[..left.at]) + Elements(right.rows[..right.at])
      && OnceEach(emitted, ht)
    }

    constructor (left: Input, right: Input)
      requires left != right && left.at == 0 && right.at == 0
      ensures Valid() && emitted == [] && this.left == left && this.right == right
    {
      this.left, this.right := left, right;
      seenInput, ht, emitted := false, {}, [];
    }

    /** algebra.cc:445-456 */
    method CheckTuple(t: Tuple) returns (isNew: bool)
      requires OnceEach(emitted, ht)
      modifies `ht, `emitted
      ensures isNew <==> t !in old(ht)
      ensures ht == old(ht) + {t} && emitted == old(emitted) + (if isNew then [t] else [])
      ensures OnceEach(emitted, ht)
    {
      isNew := t !in ht;
      if isNew {
        ht := ht + {t};
        emitted := emitted + [t];
      }
    }

    /** The loop over one input: the next tuple of it that was not seen before (algebra.cc:462-466, 470-474). */
    method NewFrom(input: Input) returns (row: Option<Tuple>)
      requires Valid() && (if seenInput then input == right else input == left)
      modifies `ht, `emitted, input
      ensures Valid() && emitted == old(emitted) + (if row.Some? then [row.value] else [])
      ensures row.None? ==> input.at == |input.rows|
    {
      hide Elements, OnceEach;
      while true
        invariant Valid() && emitted == old(emitted)
        decreases |input.rows| - input.at
      {
        row := input.Next();
        if row.None? {
          return;
        }
        NextElement(input.rows, input.at - 1);
        var isNew := CheckTuple(row.value);
        if isNew {
          return;
        }
      }
    }

    /** algebra.cc:458-476 */
    method Next() returns (row: Option<Tuple>)
      requires Valid()
      modifies this, left, right
      ensures Valid() && emitted == old(emitted) + (if row.Some? then [row.value] else [])
      ensures row.None? ==> multiset(emitted) == Result()
    {
      hide Elements;
      if !seenInput {
        row := NewFrom(left);
        if row.Some? {
          return;
        }
        seenInput := true;
      }
      row := NewFrom(right);
      if row.None? {
        WholeBag(left.rows, left.at);
        WholeBag(right.rows, right.at);
      }
    }
  }

  lemma NextElement(rows: seq<Tuple>, i: nat)
    requires i < |rows|
    ensures Elements(rows[..i + 1]) == Elements(rows[..i]) + {rows[i]}
  {
    assert rows[..i + 1] == rows[..i] + [rows[i]];
  }
}
