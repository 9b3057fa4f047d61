/**
 * Shared vocabulary of the model.
 *
 * Every floating-point result of the probe engine that the source can leave
 * undefined (NaN, +inf or None) is an `Option<real>` here: `None` is the
 * undefined marker and `Some(x)` a defined value, computed exactly.
 */
module Basics {

  datatype Option<+T> = None | Some(value: T)

  function Min(a: int, b: int): int { if a <= b then a else b }

  function Max(a: int, b: int): int { if a >= b then a else b }

  /** Python's `xs[:k]` for any integer `k`: a negative `k` drops `-k` elements from the end. */
  function Prefix<T>(xs: seq<T>, k: int): (r: seq<T>)
    ensures |r| == if k >= 0 then Min(k, |xs|) else Max(0, |xs| + k)
    ensures r == xs[..|r|]
  {
    if k >= 0 then xs[..Min(k, |xs|)] else xs[..Max(0, |xs| + k)]
  }

  /** Number of occurrences of `x` in `s` (defined on prefixes, as the loops visit them). */
  function Occ<T(==)>(s: seq<T>, x: T): (c: nat)
    ensures c <= |s|
    ensures c == 0 <==> x !in s
  {
    if |s| == 0 then 0
    else
      assert s == s[..|s| - 1] + [s[|s| - 1]];
      Occ(s[..|s| - 1], x) + (if s[|s| - 1] == x then 1 else 0)
  }

  lemma OccSnoc<T>(s: seq<T>, y: T, x: T)
    ensures Occ(s + [y], x) == Occ(s, x) + (if y == x then 1 else 0)
  {
    assert (s + [y])[..|s|] == s;
  }

  /** Index of the first occurrence of `x` in `s`. */
  function FirstIdx(s: seq<int>, x: int): (r: Option<nat>)
    ensures r.Some? <==> x in s
    ensures r.Some? ==> r.value < |s| && s[r.value] == x && forall j :: 0 <= j < r.value ==> s[j] != x
  {
    if |s| == 0 then None
    else
      var p := s[..|s| - 1];
      assert s == p + [s[|s| - 1]];
      match FirstIdx(p, x)
      case Some(f) => Some(f)
      case None => if s[|s| - 1] == x then Some(|s| - 1) else None
  }

  lemma FirstIdxSnoc(t: seq<int>, y: int, x: int)
    ensures FirstIdx(t + [y], x) == if FirstIdx(t, x).Some? then FirstIdx(t, x) else if y == x then Some(|t|) else None
  {
    assert (t + [y])[..|t|] == t;
  }

  /** The map `{i: v for i in range(m)}`. */
  function ConstMap<V>(m: int, v: V): (r: map<int, V>)
    ensures forall i :: i in r <==> 0 <= i < m
    ensures forall i :: i in r ==> r[i] == v
  {
    if m <= 0 then map[] else ConstMap(m - 1, v)[m - 1 := v]
  }

  /** The elements of `s` in `0 .. m-1`: the symbols a probe counts. */
  function InRangeCount(s: seq<int>, m: int): (c: nat)
    ensures c <= |s|
  {
    if |s| == 0 then 0
    else InRangeCount(s[..|s| - 1], m) + (if 0 <= s[|s| - 1] < m then 1 else 0)
  }

  // Bounds on real quotients, stated one at a time so that each stays a small
  // arithmetic goal.

  lemma QuotientAtLeastOne(x: real, y: real)
    requires 0.0 < y <= x
    ensures x / y >= 1.0
  {
  }

  lemma QuotientAtMost(x: real, y: real, h: real)
    requires 1.0 <= y && 0.0 <= x <= h
    ensures x / y <= h
  {
  }

  lemma QuotientUnitInterval(x: real, y: real)
    requires 0.0 <= x <= y && y > 0.0
    ensures 0.0 <= x / y <= 1.0
  {
  }
}
