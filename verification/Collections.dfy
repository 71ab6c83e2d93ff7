/** What several components need of optional values, sequences and sets. */
module Collections {
  datatype Option<T> = None | Some(value: T)

  function Min(a: nat, b: nat): nat { if a < b then a else b }

  function Elements<T(==)>(xs: seq<T>): set<T> { set x | x in xs }

  lemma SizeWithout<T>(s: set<T>, x: T)
    ensures |s - {x}| == |s| - (if x in s then 1 else 0)
  {
    if x !in s {
      assert s - {x} == s;
    }
  }
}
