/**
 * SchurProbe: over the first R = min(N, Rcap) symbols, count the pairs i < j
 * with (s[i] + s[j]) mod M == s[(i + j) mod R] mod M, compare the count with
 * the binomial expectation under a uniform source, and remember the column j
 * of the first matching pair.
 */
module Schur {
  import opened Basics
  import opened ModArith

  /** The pair `(i, j)` is additive: `(s[i] + s[j]) % M == s[(i+j) % R] % M`. */
  predicate Match(s: seq<int>, m: int, r: int, i: nat, j: nat)
    requires m > 0 && 0 < r <= |s| && i < r && j < r
  {
    (s[i] + s[j]) % m == s[(i + j) % r] % m
  }

  /** Matches `(i, j')` with `i < j' < j`. */
  function RowCount(s: seq<int>, m: int, r: int, i: nat, j: nat): (c: nat)
    requires m > 0 && 0 < r <= |s| && i < r && j <= r
    ensures c <= Max(j - i - 1, 0)
  {
    if j <= i + 1 then 0 else RowCount(s, m, r, i, j - 1) + (if Match(s, m, r, i, j - 1) then 1 else 0)
  }

  /** Column of the first match `(i, j')` with `i < j' < j`. */
  function RowFirst(s: seq<int>, m: int, r: int, i: nat, j: nat): (f: Option<nat>)
    requires m > 0 && 0 < r <= |s| && i < r && j <= r
    ensures f.None? <==> RowCount(s, m, r, i, j) == 0
    ensures f.Some? ==> i < f.value < j && Match(s, m, r, i, f.value)
    ensures f.Some? ==> forall k :: i < k < f.value ==> !Match(s, m, r, i, k)
    ensures f.None? ==> forall k :: i < k < j ==> !Match(s, m, r, i, k)
  {
    if j <= i + 1 then None
    else match RowFirst(s, m, r, i, j - 1)
      case Some(f) => Some(f)
      case None => if Match(s, m, r, i, j - 1) then Some(j - 1) else None
  }

  /** Matches in the rows `0 .. i-1`. */
  function CountRows(s: seq<int>, m: int, r: int, i: nat): nat
    requires m > 0 && 0 < r <= |s| && i <= r
  {
    if i == 0 then 0 else CountRows(s, m, r, i - 1) + RowCount(s, m, r, i - 1, r)
  }

  /** The column of the first match in the rows `0 .. i-1`, rows scanned in order. */
  function FirstRows(s: seq<int>, m: int, r: int, i: nat): Option<nat>
    requires m > 0 && 0 < r <= |s| && i <= r
  {
    if i == 0 then None
    else if FirstRows(s, m, r, i - 1).Some? then FirstRows(s, m, r, i - 1)
    else RowFirst(s, m, r, i - 1, r)
  }

  /** The counting part of the result; `z` is not modelled. */
  datatype SchurStats = SchurStats(triples: nat, count: nat, expected: real, fraction: real, firstViolation: Option<nat>)

  function Window(len: int, rcap: int): int { Min(len, rcap) }

  /** `N_triples = R * (R - 1) // 2`, the number of pairs i < j < R. */
  function Triples(r: nat): nat
  {
    r * (r - 1) / 2
  }

  /** `expected = N_triples * p` with `p = 1.0 / M`. */
  function ExpectedMatches(triples: nat, m: int): real
    requires m > 0
  {
    triples as real * (1.0 / m as real)
  }

  /** `count / N_triples`, or 0.0 when there are no pairs. */
  function Fraction(count: nat, triples: nat): real
  {
    if triples > 0 then count as real / triples as real else 0.0
  }

  /** `schur_probe` without z. For R < 3 or M <= 0 every field is zero or absent. */
  function SchurSpec(s: seq<int>, m: int, rcap: int): SchurStats
  {
    var r := Window(|s|, rcap);
    if r < 3 || m <= 0 then SchurStats(0, 0, 0.0, 0.0, None)
    else
      var triples := Triples(r);
      var count := CountRows(s, m, r, r - 1);
      SchurStats(triples, count, ExpectedMatches(triples, m), Fraction(count, triples), FirstRows(s, m, r, r - 1))
  }

  /** The binomial variance `expected * (1 - p)` with `p = 1/M`, used only for z. */
  function SchurVariance(triples: nat, m: int): real
    requires m > 0
  {
    var p := 1.0 / m as real;
    triples as real * p * (1.0 - p)
  }

  method SchurProbe(s: seq<int>, m: int, rcap: int) returns (res: SchurStats)
    ensures res == SchurSpec(s, m, rcap)
  {
    var r := Min(|s|, rcap);
    if r < 3 || m <= 0 {
      return SchurStats(0, 0, 0.0, 0.0, None);
    }
    var nTr := r * (r - 1) / 2;
    var p := 1.0 / m as real;
    var expected := nTr as real * p;
    assert nTr == Triples(r) && expected == ExpectedMatches(nTr, m);
    var count := 0;
    var firstIdx: Option<nat> := None;
    var i := 0;
    while i < r - 1
      invariant 0 <= i <= r - 1
      invariant count == CountRows(s, m, r, i)
      invariant firstIdx == FirstRows(s, m, r, i)
    {
      count, firstIdx := ScanRow(s, m, r, i, count, firstIdx);
      i := i + 1;
    }
    var frac := if nTr > 0 then count as real / nTr as real else 0.0;
    assert frac == Fraction(count, nTr);
    res := SchurStats(nTr, count, expected, frac, firstIdx);
  }

  /** The inner loop over `j in range(i + 1, R)`. */
  method ScanRow(s: seq<int>, m: int, r: int, i: nat, count0: nat, first0: Option<nat>) returns (count: nat, firstIdx: Option<nat>)
    requires m > 0 && 0 < r <= |s| && i < r
    ensures count == count0 + RowCount(s, m, r, i, r)
    ensures firstIdx == if first0.Some? then first0 else RowFirst(s, m, r, i, r)
  {
    count, firstIdx := count0, first0;
    var ai := s[i];
    var j := i + 1;
    while j < r
      invariant i + 1 <= j <= r
      invariant count == count0 + RowCount(s, m, r, i, j)
      invariant firstIdx == if first0.Some? then first0 else RowFirst(s, m, r, i, j)
    {
      var k := (i + j) % r;
      if (ai + s[j]) % m == s[k] % m {
        count := count + 1;
        if firstIdx.None? {
          firstIdx := Some(j);
        }
      }
      j := j + 1;
    }
  }

  /** Sum over the rows `0 .. i-1` of their `r - 1 - row` pairs. */
  function PairsBefore(r: int, i: nat): int
  {
    if i == 0 then 0 else PairsBefore(r, i - 1) + (r - i)
  }

  lemma {:induction false} PairsBeforeClosed(r: int, i: nat)
    ensures 2 * PairsBefore(r, i) == i * (2 * r - 1 - i)
  {
    if i > 0 {
      PairsBeforeClosed(r, i - 1);
      assert i * (2 * r - 1 - i) == (i - 1) * (2 * r - 1 - (i - 1)) + 2 * (r - i);
    }
  }

  /** The rows of the scan hold exactly R(R-1)/2 pairs. */
  lemma TriplesArePairs(r: nat)
    requires r >= 1
    ensures Triples(r) == PairsBefore(r, r - 1)
  {
    PairsBeforeClosed(r, r - 1);
    assert (r - 1) * (2 * r - 1 - (r - 1)) == r * (r - 1);
  }

  lemma {:induction false} CountRowsBound(s: seq<int>, m: int, r: int, i: nat)
    requires m > 0 && 0 < r <= |s| && i <= r
    ensures CountRows(s, m, r, i) <= PairsBefore(r, i)
  {
    if i > 0 {
      CountRowsBound(s, m, r, i - 1);
    }
  }

  lemma {:induction false} FirstRowsNoneIff(s: seq<int>, m: int, r: int, i: nat)
    requires m > 0 && 0 < r <= |s| && i <= r
    ensures FirstRows(s, m, r, i).None? <==> CountRows(s, m, r, i) == 0
  {
    if i > 0 {
      FirstRowsNoneIff(s, m, r, i - 1);
    }
  }

  /** The first row before `i` that holds a match. */
  function FirstRowIdx(s: seq<int>, m: int, r: int, i: nat): (a: Option<nat>)
    requires m > 0 && 0 < r <= |s| && i <= r
    ensures a.Some? ==> a.value < i && RowCount(s, m, r, a.value, r) > 0
    ensures a.Some? ==> forall b :: 0 <= b < a.value ==> RowCount(s, m, r, b, r) == 0
    ensures a.None? ==> forall b :: 0 <= b < i ==> RowCount(s, m, r, b, r) == 0
  {
    if i == 0 then None
    else if FirstRowIdx(s, m, r, i - 1).Some? then FirstRowIdx(s, m, r, i - 1)
    else if RowCount(s, m, r, i - 1, r) > 0 then Some(i - 1)
    else None
  }

  /** The recorded column is the first match of the first row holding one. */
  lemma {:induction false} FirstRowsOfFirstRow(s: seq<int>, m: int, r: int, i: nat)
    requires m > 0 && 0 < r <= |s| && i <= r
    ensures FirstRows(s, m, r, i) ==
      if FirstRowIdx(s, m, r, i).Some? then RowFirst(s, m, r, FirstRowIdx(s, m, r, i).value, r) else None
  {
    if i > 0 {
      FirstRowsOfFirstRow(s, m, r, i - 1);
    }
  }

  /** For R < 3 or M <= 0 the result is all zeros with no index. */
  lemma SchurDegenerate(s: seq<int>, m: int, rcap: int)
    requires Window(|s|, rcap) < 3 || m <= 0
    ensures SchurSpec(s, m, rcap) == SchurStats(0, 0, 0.0, 0.0, None)
  {
  }

  /** triples = R(R-1)/2, 0 <= count <= triples, and the fraction lies in [0, 1]. */
  lemma SchurCountBound(s: seq<int>, m: int, rcap: int)
    requires Window(|s|, rcap) >= 3 && m > 0
    ensures var r := Window(|s|, rcap);
      SchurSpec(s, m, rcap).triples == r * (r - 1) / 2 &&
      SchurSpec(s, m, rcap).count <= SchurSpec(s, m, rcap).triples
    ensures 0.0 <= SchurSpec(s, m, rcap).fraction <= 1.0
  {
    var r := Window(|s|, rcap);
    CountRowsBound(s, m, r, r - 1);
    TriplesArePairs(r);
    var triples := Triples(r);
    var count := CountRows(s, m, r, r - 1);
    if triples > 0 {
      QuotientUnitInterval(count as real, triples as real);
    }
  }

  /** No first index is recorded exactly when no pair matched. */
  lemma SchurFirstNoneIff(s: seq<int>, m: int, rcap: int)
    ensures SchurSpec(s, m, rcap).firstViolation.None? <==> SchurSpec(s, m, rcap).count == 0
  {
    var r := Window(|s|, rcap);
    if r >= 3 && m > 0 {
      FirstRowsNoneIff(s, m, r, r - 1);
    }
  }

  /** The index recorded is the column j of the first matching pair, pairs ordered by
      row i and then column j: row i holds a match at j, no earlier row holds any, and
      no earlier column of row i does. The row is returned as a witness. */
  lemma SchurFirstViolation(s: seq<int>, m: int, rcap: int) returns (i: nat)
    requires Window(|s|, rcap) >= 3 && m > 0
    requires SchurSpec(s, m, rcap).firstViolation.Some?
    ensures var r := Window(|s|, rcap);
      var j := SchurSpec(s, m, rcap).firstViolation.value;
      i < j < r && Match(s, m, r, i, j) &&
      (forall k :: i < k < j ==> !Match(s, m, r, i, k)) &&
      (forall a, k :: 0 <= a < i && a < k < r ==> !Match(s, m, r, a, k))
  {
    var r := Window(|s|, rcap);
    FirstRowsOfFirstRow(s, m, r, r - 1);
    i := FirstRowIdx(s, m, r, r - 1).value;
    forall a, k | 0 <= a < i && a < k < r ensures !Match(s, m, r, a, k) {
      assert RowCount(s, m, r, a, r) == 0;
      assert RowFirst(s, m, r, a, r).None?;
    }
  }

  /** With p = 1/M, the variance vanishes exactly for M = 1 (then z is reported as 0). */
  lemma SchurVarianceZeroIff(triples: nat, m: int)
    requires m > 0 && triples > 0
    ensures SchurVariance(triples, m) >= 0.0
    ensures SchurVariance(triples, m) == 0.0 <==> m == 1
  {
    var p := 1.0 / m as real;
    QuotientUnitInterval(1.0, m as real);
    if m > 1 {
      assert p < 1.0;
      PositiveProduct(triples as real * p, 1.0 - p);
    }
  }

  lemma PositiveProduct(x: real, y: real)
    requires x > 0.0 && y > 0.0
    ensures x * y > 0.0
  {
  }

  // ---------- the gradient input s[i] = i mod M ----------

  predicate IsGradient(s: seq<int>, m: int)
    requires m > 0
  {
    forall i :: 0 <= i < |s| ==> s[i] == i % m
  }

  lemma GradientMatches(s: seq<int>, m: int, r: int, i: nat, j: nat)
    requires m > 0 && 0 < r <= |s| && r % m == 0 && i < r && j < r
    requires IsGradient(s, m)
    ensures Match(s, m, r, i, j)
  {
    ModSum(i, j, m);
    ModOfMod(i + j, r, m);
    var k := (i + j) % r;
    assert s[k] % m == (k % m) % m;
    ModOfMod(k, m, m);
  }

  lemma {:induction false} GradientRow(s: seq<int>, m: int, r: int, i: nat, j: nat)
    requires m > 0 && 0 < r <= |s| && r % m == 0 && i < r && i < j <= r
    requires IsGradient(s, m)
    ensures RowCount(s, m, r, i, j) == j - i - 1
  {
    if j > i + 1 {
      GradientRow(s, m, r, i, j - 1);
      GradientMatches(s, m, r, i, j - 1);
    }
  }

  lemma {:induction false} GradientRows(s: seq<int>, m: int, r: int, i: nat)
    requires m > 0 && 0 < r <= |s| && r % m == 0 && i < r
    requires IsGradient(s, m)
    ensures CountRows(s, m, r, i) == PairsBefore(r, i)
    ensures i >= 1 ==> FirstRows(s, m, r, i) == Some(1)
  {
    if i > 0 {
      GradientRows(s, m, r, i - 1);
      GradientRow(s, m, r, i - 1, r);
      if i == 1 {
        GradientMatches(s, m, r, 0, 1);
      }
    }
  }

  /** On the gradient input with M dividing R, every pair is additive: count = triples,
      the fraction is 1 and the first match is the pair (0, 1). */
  lemma GradientAllMatch(s: seq<int>, m: int, rcap: int)
    requires m > 0 && IsGradient(s, m)
    requires Window(|s|, rcap) >= 3 && Window(|s|, rcap) % m == 0
    ensures SchurSpec(s, m, rcap).count == SchurSpec(s, m, rcap).triples
    ensures SchurSpec(s, m, rcap).fraction == 1.0
    ensures SchurSpec(s, m, rcap).firstViolation == Some(1)
  {
    var r := Window(|s|, rcap);
    GradientRows(s, m, r, r - 1);
    TriplesArePairs(r);
    TriplesPositive(r);
    FractionOfAll(Triples(r));
  }

  lemma FractionOfAll(t: nat)
    requires t >= 1
    ensures Fraction(t, t) == 1.0
  {
  }

  lemma TriplesPositive(r: nat)
    requires r >= 2
    ensures Triples(r) >= 1
  {
    assert r * (r - 1) >= r;
  }
}
