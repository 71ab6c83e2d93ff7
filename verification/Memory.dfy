/** The three byte-moving calls of the C library, on arrays of any element type. */
module Memory {
  /** `s` with the `|part|` elements from `at` on replaced by `part`. */
  function Splice<T>(s: seq<T>, at: nat, part: seq<T>): (r: seq<T>)
    requires at + |part| <= |s|
    ensures |r| == |s|
    ensures forall i :: 0 <= i < |s| ==> r[i] == if at <= i < at + |part| then part[i - at] else s[i]
  {
    s[..at] + part + s[at + |part|..]
  }

  /** Moves `n` elements within `a`; source and destination may overlap. */
  method Memmove<T>(a: array<T>, dst: nat, src: nat, n: nat)
    requires dst + n <= a.Length && src + n <= a.Length
    modifies a
    ensures a[..] == Splice(old(a[..]), dst, old(a[src..src + n]))
  {
    forall i | 0 <= i < n {
      a[dst + i] := a[src + i];
    }
  }

  /** Copies `n` elements into another array. */
  method Memcpy<T>(to: array<T>, dst: nat, from: array<T>, src: nat, n: nat)
    requires to != from && dst + n <= to.Length && src + n <= from.Length
    modifies to
    ensures to[..] == Splice(old(to[..]), dst, from[src..src + n])
  {
    forall i | 0 <= i < n {
      to[dst + i] := from[src + i];
    }
  }

  /** Stores the elements of `block` from `dst` on. */
  method Store<T>(to: array<T>, dst: nat, block: seq<T>)
    requires dst + |block| <= to.Length
    modifies to
    ensures to[..] == Splice(old(to[..]), dst, block)
  {
    forall i | 0 <= i < |block| {
      to[dst + i] := block[i];
    }
  }

  /** Opens a gap at `i` among the first `c` elements and fills it with `x`. */
  method ShiftIn<T>(a: array<T>, c: nat, i: nat, x: T)
    requires i <= c < a.Length
    modifies a
    ensures a[..c + 1] == old(a[..i]) + [x] + old(a[i..c])
  {
    Memmove(a, i + 1, i, c - i);
    a[i] := x;
  }

  /** Closes the gap left by dropping element `i` of the first `c`. */
  method ShiftOut<T>(a: array<T>, c: nat, i: nat)
    requires i < c <= a.Length
    modifies a
    ensures a[..c - 1] == old(a[..i]) + old(a[i + 1..c])
  {
    Memmove(a, i, i + 1, c - 1 - i);
  }
}
