/**
 * DistributionProbe: per-symbol counts, chi-square against the uniform
 * expectation N/M, and the top-k symbols by frequency.
 */
module Distribution {
  import opened Basics

  /** Expected count per bin: undefined when M = 0 or N = 0. */
  function Expected(s: seq<int>, m: int): Option<real>
  {
    if m == 0 || |s| == 0 then None else Some(|s| as real / m as real)
  }

  /** The divisor guard of the chi-square loop: `expected` if positive, else 1.0. */
  function Divisor(expected: real): (d: real)
    ensures d > 0.0
  {
    if expected > 0.0 then expected else 1.0
  }

  /** Squared deviation of one bin, over the guarded divisor. */
  function BinTerm(observed: nat, expected: real): (t: real)
    ensures t >= 0.0
  {
    var dev := observed as real - expected;
    assert dev * dev >= 0.0;
    (dev * dev) / Divisor(expected)
  }

  /** Chi-square accumulated over the bins `0 .. k-1`. */
  function ChiSum(s: seq<int>, expected: real, k: nat): real
  {
    if k == 0 then 0.0 else ChiSum(s, expected, k - 1) + BinTerm(Occ(s, k - 1), expected)
  }

  /** Chi-square of `s` over `m` bins: undefined exactly when the expected count is. */
  function ChiSquare(s: seq<int>, m: int): Option<real>
  {
    match Expected(s, m)
    case None => None
    case Some(e) => Some(ChiSum(s, e, Max(m, 0)))
  }

  /** `probe_distribution`: the counts of every bin `0 .. M-1`, the expected count N/M
      and the chi-square statistic, the last two undefined when M = 0 or N = 0. */
  method CountsAndChiSquare(s: seq<int>, m: int) returns (cnt: map<int, nat>, chi2: Option<real>, expected: Option<real>)
    ensures forall i :: i in cnt <==> 0 <= i < m
    ensures forall i :: i in cnt ==> cnt[i] == Occ(s, i)
    ensures expected == Expected(s, m)
    ensures chi2 == ChiSquare(s, m)
  {
    cnt := CountBins(s, m);
    var n := |s|;
    if m == 0 || n == 0 {
      return cnt, None, None;
    }
    var e := n as real / m as real;
    var acc := ChiLoop(s, cnt, m, e);
    chi2, expected := Some(acc), Some(e);
  }

  /** The counting loop of `probe_distribution`. */
  method CountBins(s: seq<int>, m: int) returns (cnt: map<int, nat>)
    ensures forall i :: i in cnt <==> 0 <= i < m
    ensures forall i :: i in cnt ==> cnt[i] == Occ(s, i)
  {
    cnt := ConstMap(m, 0);
    var k := 0;
    while k < |s|
      invariant 0 <= k <= |s|
      invariant forall i :: i in cnt <==> 0 <= i < m
      invariant forall i :: i in cnt ==> cnt[i] == Occ(s[..k], i)
    {
      var x := s[k];
      ghost var before := cnt;
      if 0 <= x < m {
        cnt := cnt[x := cnt[x] + 1];
      }
      CountStep(s, k, before, cnt, m);
      k := k + 1;
    }
    assert s[..|s|] == s;
  }

  /** The chi-square loop of `probe_distribution` over the bins `0 .. M-1`. */
  method ChiLoop(s: seq<int>, cnt: map<int, nat>, m: int, e: real) returns (acc: real)
    requires forall i :: 0 <= i < m ==> i in cnt && cnt[i] == Occ(s, i)
    ensures acc == ChiSum(s, e, Max(m, 0))
  {
    acc := 0.0;
    var i := 0;
    while i < m
      invariant 0 <= i <= Max(m, 0)
      invariant acc == ChiSum(s, e, i)
    {
      acc := acc + BinTerm(cnt[i], e);
      i := i + 1;
    }
  }

  /** One step of the counting loop keeps every bin equal to its count in the prefix read so far. */
  lemma CountStep(s: seq<int>, k: nat, before: map<int, nat>, after: map<int, nat>, m: int)
    requires k < |s|
    requires forall i :: i in before ==> before[i] == Occ(s[..k], i)
    requires after == if 0 <= s[k] < m && s[k] in before then before[s[k] := before[s[k]] + 1] else before
    requires forall i :: i in before <==> 0 <= i < m
    ensures forall i :: i in after ==> after[i] == Occ(s[..k + 1], i)
  {
    assert s[..k + 1] == s[..k] + [s[k]];
    forall i | i in after ensures after[i] == Occ(s[..k + 1], i) {
      OccSnoc(s[..k], s[k], i);
    }
  }

  /** Sum of the counts of bins `0 .. k-1`. */
  function BinTotal(s: seq<int>, k: nat): nat
  {
    if k == 0 then 0 else BinTotal(s, k - 1) + Occ(s, k - 1)
  }

  lemma {:induction false} BinTotalSnoc(s: seq<int>, y: int, k: nat)
    ensures BinTotal(s + [y], k) == BinTotal(s, k) + (if 0 <= y < k then 1 else 0)
  {
    if k > 0 {
      BinTotalSnoc(s, y, k - 1);
      OccSnoc(s, y, k - 1);
    }
  }

  lemma {:induction false} BinTotalEmpty(s: seq<int>, k: nat)
    requires |s| == 0
    ensures BinTotal(s, k) == 0
  {
    if k > 0 { BinTotalEmpty(s, k - 1); }
  }

  /** The M counts add up to the number of in-range symbols: N when every symbol is in [0, M). */
  lemma {:induction false} CountsPartitionInput(s: seq<int>, m: nat)
    ensures BinTotal(s, m) == InRangeCount(s, m)
    ensures (forall i :: 0 <= i < |s| ==> 0 <= s[i] < m) ==> BinTotal(s, m) == |s|
  {
    if |s| == 0 {
      BinTotalEmpty(s, m);
    } else {
      var p := s[..|s| - 1];
      assert s == p + [s[|s| - 1]];
      CountsPartitionInput(p, m);
      BinTotalSnoc(p, s[|s| - 1], m);
      assert InRangeCount(s, m) == InRangeCount(p, m) + (if 0 <= s[|s| - 1] < m then 1 else 0);
    }
  }

  lemma {:induction false} ChiSumNonNegative(s: seq<int>, e: real, k: nat)
    ensures ChiSum(s, e, k) >= 0.0
  {
    if k > 0 { ChiSumNonNegative(s, e, k - 1); }
  }

  /** A bin holding exactly the expected count contributes nothing. */
  lemma BinTermAtExpected(observed: nat, e: real)
    requires observed as real == e
    ensures BinTerm(observed, e) == 0.0
  {
    var dev := observed as real - e;
    assert dev == 0.0;
  }

  lemma {:induction false} ChiSumZero(s: seq<int>, e: real, k: nat)
    requires forall b :: 0 <= b < k ==> Occ(s, b) as real == e
    ensures ChiSum(s, e, k) == 0.0
  {
    if k > 0 {
      ChiSumZero(s, e, k - 1);
      BinTermAtExpected(Occ(s, k - 1), e);
    }
  }

  /** Chi-square is defined iff N > 0 and M != 0; when defined it is non-negative,
      and it is 0 when every bin count equals N/M. */
  lemma ChiSquareFacts(s: seq<int>, m: int)
    ensures ChiSquare(s, m).Some? <==> |s| > 0 && m != 0
    ensures ChiSquare(s, m).Some? ==> ChiSquare(s, m).value >= 0.0
    ensures ChiSquare(s, m).Some? && (forall b :: 0 <= b < m ==> Occ(s, b) as real == |s| as real / m as real)
      ==> ChiSquare(s, m).value == 0.0
  {
    if |s| > 0 && m != 0 {
      var e := |s| as real / m as real;
      ChiSumNonNegative(s, e, Max(m, 0));
      if forall b :: 0 <= b < m ==> Occ(s, b) as real == e {
        ChiSumZero(s, e, Max(m, 0));
      }
    }
  }

  // ---------- zscores_per_symbol ----------

  /** `zscores_per_symbol(counts, expected)`, with `root` the value of `math.sqrt(expected)`:
      every symbol gets (count - E) / sqrt(E), or 0.0 when E <= 0. */
  function ZScores(cnt: map<int, nat>, expected: real, root: real): (z: map<int, real>)
    requires expected > 0.0 ==> root > 0.0 && root * root == expected
    ensures forall k :: k in z <==> k in cnt
    ensures expected <= 0.0 ==> forall k :: k in z ==> z[k] == 0.0
  {
    map k | k in cnt :: if expected <= 0.0 then 0.0 else (cnt[k] as real - expected) / root
  }

  /** A z-score is positive exactly for a symbol seen more often than expected, negative
      exactly for one seen less often, and 0 for one seen exactly E times. */
  lemma ZScoreSign(cnt: map<int, nat>, expected: real, root: real, k: int)
    requires expected > 0.0 ==> root > 0.0 && root * root == expected
    requires k in cnt
    ensures var z := ZScores(cnt, expected, root)[k];
      expected > 0.0 ==>
        (z > 0.0 <==> cnt[k] as real > expected) &&
        (z < 0.0 <==> cnt[k] as real < expected) &&
        (z == 0.0 <==> cnt[k] as real == expected)
  {
    if expected > 0.0 {
      SignOfQuotient(cnt[k] as real - expected, root);
    }
  }

  lemma SignOfQuotient(d: real, root: real)
    requires root > 0.0
    ensures d / root > 0.0 <==> d > 0.0
    ensures d / root < 0.0 <==> d < 0.0
  {
  }

  // ---------- top_k_by_freq ----------

  /** The `dict.items()` of a counts map built over `range(M)`, in key order. */
  function Items(cnt: map<int, nat>, m: int): (r: seq<(int, int)>)
    requires forall i :: 0 <= i < m ==> i in cnt
    ensures |r| == Max(m, 0)
    ensures forall i :: 0 <= i < |r| ==> r[i] == (i, cnt[i] as int)
  {
    if m <= 0 then [] else Items(cnt, m - 1) + [(m - 1, cnt[m - 1] as int)]
  }

  /** Sort key `(-count, symbol)`: `a` ranks no lower than `b`. */
  predicate RanksFirst(a: (int, int), b: (int, int))
  {
    a.1 > b.1 || (a.1 == b.1 && a.0 <= b.0)
  }

  predicate SortedByFreq(s: seq<(int, int)>)
  {
    forall i, j :: 0 <= i < j < |s| ==> RanksFirst(s[i], s[j])
  }

  function InsertByFreq(x: (int, int), s: seq<(int, int)>): (r: seq<(int, int)>)
    requires SortedByFreq(s)
    ensures forall y :: y in r <==> y == x || y in s
    ensures multiset(r) == multiset(s) + multiset{x}
    ensures SortedByFreq(r)
  {
    if |s| == 0 then [x]
    else if RanksFirst(x, s[0]) then [x] + s
    else
      var t := InsertByFreq(x, s[1..]);
      assert s == [s[0]] + s[1..];
      assert forall y :: y in t ==> RanksFirst(s[0], y);
      [s[0]] + t
  }

  /** `sorted(items, key=lambda kv: (-kv[1], kv[0]))`. */
  function SortByFreq(items: seq<(int, int)>): (r: seq<(int, int)>)
    ensures SortedByFreq(r)
    ensures multiset(r) == multiset(items)
  {
    if |items| == 0 then []
    else
      assert items == [items[0]] + items[1..];
      InsertByFreq(items[0], SortByFreq(items[1..]))
  }

  /** `top_k_by_freq(counts, k)`: the first k ranked pairs (Python slice `[:k]`). */
  function TopKByFreq(items: seq<(int, int)>, k: int): seq<(int, int)>
  {
    Prefix(SortByFreq(items), k)
  }

  /** The top-k list is ranked, has min(k, |items|) pairs for k >= 0, each drawn from
      the items, and every pair left out ranks no higher than any pair returned. */
  lemma TopKFacts(items: seq<(int, int)>, k: int)
    ensures SortedByFreq(TopKByFreq(items, k))
    ensures k >= 0 ==> |TopKByFreq(items, k)| == Min(k, |items|)
    ensures multiset(TopKByFreq(items, k)) <= multiset(items)
    ensures forall p, q :: multiset(TopKByFreq(items, k))[p] < multiset(items)[p] && q in TopKByFreq(items, k) ==> RanksFirst(q, p)
  {
    var sorted := SortByFreq(items);
    var r := TopKByFreq(items, k);
    var rest := sorted[|r|..];
    assert sorted == r + rest;
    assert multiset(items) == multiset(r) + multiset(rest);
    forall p, q | multiset(r)[p] < multiset(items)[p] && q in r
      ensures RanksFirst(q, p)
    {
      assert p in multiset(rest);
      var a :| 0 <= a < |r| && r[a] == q;
      var b :| 0 <= b < |rest| && rest[b] == p;
      assert sorted[a] == q && sorted[|r| + b] == p;
    }
  }

  /** For the counts of an M-symbol alphabet, top-k with k >= 0 returns min(k, M) pairs. */
  lemma TopKOfCounts(cnt: map<int, nat>, m: int, k: int)
    requires forall i :: 0 <= i < m ==> i in cnt
    requires k >= 0
    ensures |TopKByFreq(Items(cnt, m), k)| == Min(k, Max(m, 0))
  {
    TopKFacts(Items(cnt, m), k);
  }
}
