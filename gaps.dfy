/**
 * Gap statistics: for each symbol, the number of gaps between consecutive
 * occurrences and the mean gap length (undefined, +inf in the source, when the
 * symbol occurs fewer than twice).
 */
module Gaps {
  import opened Basics

  /** Index of the last occurrence of `x` in `s`. */
  function LastIdx(s: seq<int>, x: int): (r: Option<nat>)
    ensures r.Some? <==> x in s
    ensures r.Some? ==> r.value < |s| && s[r.value] == x && forall j :: r.value < j < |s| ==> s[j] != x
  {
    if |s| == 0 then None
    else if s[|s| - 1] == x then Some(|s| - 1)
    else
      var p := s[..|s| - 1];
      assert s == p + [s[|s| - 1]];
      LastIdx(p, x)
  }

  /** Distance from the first to the last occurrence of `x` (0 when absent). */
  function Span(s: seq<int>, x: int): nat
  {
    match (FirstIdx(s, x), LastIdx(s, x))
    case (Some(f), Some(l)) => if f <= l then l - f else 0
    case _ => 0
  }

  /** Number of gaps and mean gap of one symbol; `mean == None` stands for +inf. */
  datatype GapStat = GapStat(count: nat, mean: Option<real>)

  /** Reference definition: Occ - 1 gaps (none for an absent symbol) whose lengths
      telescope to last index - first index. */
  function GapSpec(s: seq<int>, x: int): GapStat
  {
    var c := Max(Occ(s, x) - 1, 0);
    GapStat(c, if c > 0 then Some(Span(s, x) as real / c as real) else None)
  }

  /** The per-symbol state of the scanning loop after reading `t`: last position seen,
      number of gaps and sum of gap lengths. */
  ghost predicate ScanState(t: seq<int>, m: int, last: map<int, Option<nat>>, gc: map<int, nat>, gs: map<int, nat>)
  {
    LastSeen(t, m, last) && GapCounts(t, m, gc) && GapSums(t, m, gs)
  }

  ghost predicate LastSeen(t: seq<int>, m: int, last: map<int, Option<nat>>)
  {
    (forall i :: i in last <==> 0 <= i < m) && (forall i :: i in last ==> last[i] == LastIdx(t, i))
  }

  ghost predicate GapCounts(t: seq<int>, m: int, gc: map<int, nat>)
  {
    (forall i :: i in gc <==> 0 <= i < m) && (forall i :: i in gc ==> gc[i] == Max(Occ(t, i) - 1, 0))
  }

  ghost predicate GapSums(t: seq<int>, m: int, gs: map<int, nat>)
  {
    (forall i :: i in gs <==> 0 <= i < m) && (forall i :: i in gs ==> gs[i] == Span(t, i))
  }

  /** `gaps_summary`. */
  method GapsSummary(s: seq<int>, m: int) returns (out: map<int, GapStat>)
    ensures forall i :: i in out <==> 0 <= i < m
    ensures forall i :: i in out ==> out[i] == GapSpec(s, i)
  {
    var last: map<int, Option<nat>> := ConstMap(m, None);
    var gc: map<int, nat> := ConstMap(m, 0);
    var gs: map<int, nat> := ConstMap(m, 0);
    var idx := 0;
    while idx < |s|
      invariant 0 <= idx <= |s|
      invariant ScanState(s[..idx], m, last, gc, gs)
    {
      last, gc, gs := ScanSymbol(s, idx, m, last, gc, gs);
      idx := idx + 1;
    }
    assert s[..|s|] == s;
    out := GapTable(s, m, gc, gs);
  }

  /** One step of the scanning loop: symbol `s[idx]` closes a gap when it was seen before. */
  method ScanSymbol(s: seq<int>, idx: nat, m: int, last0: map<int, Option<nat>>, gc0: map<int, nat>, gs0: map<int, nat>)
    returns (last: map<int, Option<nat>>, gc: map<int, nat>, gs: map<int, nat>)
    requires idx < |s|
    requires ScanState(s[..idx], m, last0, gc0, gs0)
    ensures ScanState(s[..idx + 1], m, last, gc, gs)
  {
    var x := s[idx];
    last, gc, gs := last0, gc0, gs0;
    if 0 <= x < m {
      if last[x].Some? {
        gc := gc[x := gc[x] + 1];
        gs := gs[x := gs[x] + (idx - last[x].value)];
      }
      last := last[x := Some(idx)];
    }
    ScanStep(s, idx, m, last0, gc0, gs0, last, gc, gs);
  }

  /** Reading one more symbol keeps the loop state in step with the prefix read. */
  lemma ScanStep(s: seq<int>, idx: nat, m: int,
                 last0: map<int, Option<nat>>, gc0: map<int, nat>, gs0: map<int, nat>,
                 last: map<int, Option<nat>>, gc: map<int, nat>, gs: map<int, nat>)
    requires idx < |s|
    requires ScanState(s[..idx], m, last0, gc0, gs0)
    requires var x := s[idx];
      if 0 <= x < m then
        last == last0[x := Some(idx)] &&
        (if last0[x].Some? then gc == gc0[x := gc0[x] + 1] && gs == gs0[x := gs0[x] + (idx - last0[x].value)]
         else gc == gc0 && gs == gs0)
      else last == last0 && gc == gc0 && gs == gs0
    ensures ScanState(s[..idx + 1], m, last, gc, gs)
  {
    var t := s[..idx];
    var x := s[idx];
    PrefixSnoc(s, idx);
    LastStep(t, x, m, last0, last);
    GapCountStep(t, x, m, last0, gc0, gc);
    GapSumStep(t, x, m, last0, gs0, gs);
  }

  lemma PrefixSnoc(s: seq<int>, k: nat)
    requires k < |s|
    ensures s[..k + 1] == s[..k] + [s[k]]
  {
  }

  lemma LastStep(t: seq<int>, x: int, m: int, last0: map<int, Option<nat>>, last: map<int, Option<nat>>)
    requires LastSeen(t, m, last0)
    requires last == if 0 <= x < m then last0[x := Some(|t|)] else last0
    ensures LastSeen(t + [x], m, last)
  {
    forall i | i in last
      ensures last[i] == LastIdx(t + [x], i)
    {
      SnocIdx(t, x, i);
    }
  }

  lemma GapCountStep(t: seq<int>, x: int, m: int, last0: map<int, Option<nat>>, gc0: map<int, nat>, gc: map<int, nat>)
    requires LastSeen(t, m, last0) && GapCounts(t, m, gc0)
    requires gc == if 0 <= x < m && last0[x].Some? then gc0[x := gc0[x] + 1] else gc0
    ensures GapCounts(t + [x], m, gc)
  {
    forall i | i in gc
      ensures gc[i] == Max(Occ(t + [x], i) - 1, 0)
    {
      OccSnoc(t, x, i);
    }
  }

  lemma GapSumStep(t: seq<int>, x: int, m: int, last0: map<int, Option<nat>>, gs0: map<int, nat>, gs: map<int, nat>)
    requires LastSeen(t, m, last0) && GapSums(t, m, gs0)
    requires gs == if 0 <= x < m && last0[x].Some? then gs0[x := gs0[x] + (|t| - last0[x].value)] else gs0
    ensures GapSums(t + [x], m, gs)
  {
    forall i | i in gs
      ensures gs[i] == Span(t + [x], i)
    {
      SnocIdx(t, x, i);
    }
  }

  /** The closing loop of `gaps_summary`: count and mean gap of every symbol. */
  method GapTable(s: seq<int>, m: int, gc: map<int, nat>, gs: map<int, nat>) returns (out: map<int, GapStat>)
    requires forall i :: 0 <= i < m ==> i in gc && gc[i] == Max(Occ(s, i) - 1, 0)
    requires forall i :: 0 <= i < m ==> i in gs && gs[i] == Span(s, i)
    ensures forall i :: i in out <==> 0 <= i < m
    ensures forall i :: i in out ==> out[i] == GapSpec(s, i)
  {
    out := map[];
    var i := 0;
    while i < m
      invariant 0 <= i <= Max(m, 0)
      invariant forall j :: j in out <==> 0 <= j < i
      invariant forall j :: j in out ==> out[j] == GapSpec(s, j)
    {
      var c := gc[i];
      var mean: Option<real> := if c > 0 then Some(gs[i] as real / c as real) else None;
      out := out[i := GapStat(c, mean)];
      i := i + 1;
    }
  }

  /** How the first and last occurrences and the span move when one element is appended. */
  lemma SnocIdx(t: seq<int>, y: int, x: int)
    ensures LastIdx(t + [y], x) == if y == x then Some(|t|) else LastIdx(t, x)
    ensures FirstIdx(t + [y], x) == if FirstIdx(t, x).Some? then FirstIdx(t, x) else if y == x then Some(|t|) else None
    ensures Span(t + [y], x) == if y == x && LastIdx(t, x).Some? then Span(t, x) + (|t| - LastIdx(t, x).value) else Span(t, x)
  {
    assert (t + [y])[..|t|] == t;
    var f := FirstIdx(t, x);
    var l := LastIdx(t, x);
  }

  /** Every gap is at least 1 long: the span is at least the number of gaps. */
  lemma {:induction false} SpanAtLeastGaps(s: seq<int>, x: int)
    ensures Span(s, x) >= Max(Occ(s, x) - 1, 0)
    ensures Span(s, x) < Max(|s|, 1)
  {
    if |s| > 0 {
      var p := s[..|s| - 1];
      var y := s[|s| - 1];
      assert s == p + [y];
      SpanAtLeastGaps(p, x);
      OccSnoc(p, y, x);
      SnocIdx(p, y, x);
      if y == x && LastIdx(p, x).Some? {
        assert Occ(p, x) > 0;
      } else if y == x {
        assert Occ(p, x) == 0;
      }
    }
  }

  /** The gap count is max(occurrences - 1, 0); the mean is +inf exactly when it is 0,
      and otherwise lies between 1 and N - 1. */
  lemma GapSpecFacts(s: seq<int>, x: int)
    ensures GapSpec(s, x).count == Max(Occ(s, x) - 1, 0)
    ensures GapSpec(s, x).mean.None? <==> Occ(s, x) <= 1
    ensures GapSpec(s, x).mean.Some? ==> 1.0 <= GapSpec(s, x).mean.value <= (|s| - 1) as real
  {
    SpanAtLeastGaps(s, x);
    var c := GapSpec(s, x).count;
    if c > 0 {
      MeanBounds(Span(s, x), c, |s| - 1);
    }
  }

  lemma MeanBounds(sum: nat, c: nat, hi: int)
    requires 0 < c <= sum <= hi
    ensures 1.0 <= sum as real / c as real <= hi as real
  {
    QuotientAtLeastOne(sum as real, c as real);
    QuotientAtMost(sum as real, c as real, hi as real);
  }
}
