/**
  Registers, tuples, and the input of an operator as a stream of tuples.
  Source: task-operators/src/algebra.cc, task-operators/include/moderndbs/algebra.h.
  */
module Tuples {
  import opened Collections

  datatype Register = Int(value: int) | Char(text: string)

  type Tuple = seq<Register>

  predicate SameType(a: Register, b: Register) { a.Int? == b.Int? }

  /** The order of std::string: the first characters that differ decide, and a proper prefix is less. */
  predicate TextLess(a: string, b: string): (less: bool)
    ensures less <==> exists k: nat :: DifferFirst(a, b, k) && k < |b| && (k < |a| ==> a[k] < b[k])
  {
    if b == [] then false
    else if a == [] then
      assert DifferFirst(a, b, 0);
      true
    else if a[0] == b[0] then
      LaterDifference(a, b);
      TextLess(a[1..], b[1..])
    else
      assert DifferFirst(a, b, 0);
      a[0] < b[0]
  }

  /** The texts agree before position `k`, and there they differ or one of them ends. */
  ghost predicate DifferFirst(a: string, b: string, k: nat) {
    k <= |a| && k <= |b| && a[..k] == b[..k] && (k == |a| || k == |b| || a[k] != b[k])
  }

  lemma LaterDifference(a: string, b: string)
    requires a != [] && b != [] && a[0] == b[0]
    ensures forall k: nat :: DifferFirst(a[1..], b[1..], k) ==> DifferFirst(a, b, k + 1)
    ensures forall k: nat :: DifferFirst(a, b, k) ==> 0 < k && DifferFirst(a[1..], b[1..], k - 1)
  {
    forall k: nat | DifferFirst(a[1..], b[1..], k) ensures DifferFirst(a, b, k + 1) {
      assert a[..k + 1] == [a[0]] + a[1..][..k] && b[..k + 1] == [b[0]] + b[1..][..k];
    }
    forall k: nat | DifferFirst(a, b, k) ensures 0 < k && DifferFirst(a[1..], b[1..], k - 1) {
      if 0 < k {
        assert a[1..][..k - 1] == a[..k][1..] && b[1..][..k - 1] == b[..k][1..];
      }
    }
  }

  /** operator<, which asserts that the types agree (algebra.cc:56-64). */
  predicate Less(a: Register, b: Register)
    requires SameType(a, b)
  {
    if a.Int? then a.value < b.value else TextLess(a.text, b.text)
  }

  lemma {:induction false} TextOrder(a: string, b: string)
    ensures TextLess(a, b) ==> !TextLess(b, a)
    ensures TextLess(a, b) || TextLess(b, a) || a == b
    ensures !TextLess(a, a)
  {
    if a != [] {
      TextOrder(a[1..], if b == [] then [] else b[1..]);
    }
    if a != [] && b != [] && a[0] == b[0] && a[1..] == b[1..] {
      assert a == [a[0]] + a[1..] && b == [b[0]] + b[1..];
    }
  }

  lemma {:induction false} TextTransitive(a: string, b: string, c: string)
    requires TextLess(a, b) && TextLess(b, c)
    ensures TextLess(a, c)
  {
    if a != [] && b != [] && c != [] && a[0] == b[0] == c[0] {
      TextTransitive(a[1..], b[1..], c[1..]);
    }
  }

  /** operator< is a strict total order on registers of one type. */
  lemma LessTotal(a: Register, b: Register)
    requires SameType(a, b)
    ensures !(Less(a, b) && Less(b, a)) && !Less(a, a)
    ensures Less(a, b) || Less(b, a) || a == b
  {
    if a.Char? {
      TextOrder(a.text, b.text);
    }
  }

  lemma LessTransitive(a: Register, b: Register, c: Register)
    requires SameType(a, b) && SameType(b, c) && Less(a, b) && Less(b, c)
    ensures Less(a, c)
  {
    if a.Char? {
      TextTransitive(a.text, b.text, c.text);
    }
  }

  /** An operator's input: next() until it is used up. */
  class Input {
    const rows: seq<Tuple>
    var at: nat

    ghost predicate Valid()
      reads this
    {
      at <= |rows|
    }

    constructor (rows: seq<Tuple>)
      ensures Valid() && this.rows == rows && at == 0
    {
      this.rows, at := rows, 0;
    }

    method Next() returns (row: Option<Tuple>)
      requires Valid()
      modifies this
      ensures Valid()
      ensures row.None? ==> old(at) == |rows| == at
      ensures row.Some? ==> old(at) < |rows| && at == old(at) + 1 && row.value == rows[old(at)]
    {
      if at == |rows| {
        return None;
      }
      row := Some(rows[at]);
      at := at + 1;
    }
  }

  lemma NextBag<T>(s: seq<T>, i: nat)
    requires i < |s|
    ensures multiset(s[..i + 1]) == multiset(s[..i]) + multiset{s[i]}
  {
    assert s[..i + 1] == s[..i] + [s[i]];
  }

  lemma WholeBag<T>(s: seq<T>, i: nat)
    requires i == |s|
    ensures s[..i] == s
  {
  }

  /** Any enumeration of the keys will do for the iterator over the hash table. */
  method Enumerate(keys: set<Tuple>) returns (order: seq<Tuple>)
    ensures forall t :: t in order <==> t in keys
    ensures forall i, j :: 0 <= i < j < |order| ==> order[i] != order[j]
  {
    order := [];
    var left := keys;
    while left != {}
      invariant left <= keys && forall t :: t in order <==> t in keys && t !in left
      invariant forall i, j :: 0 <= i < j < |order| ==> order[i] != order[j]
      decreases |left|
    {
      var t :| t in left;
      order := order + [t];
      left := left - {t};
    }
  }
}
