/**
 * The anomaly score of a probe report: six metrics are read from the report,
 * each is compared with the baseline report's value (or, failing that, with a
 * fixed reference), the normalised deviations are averaged and the average is
 * mapped to a green / yellow / red severity.
 *
 * Report values are `Option<real>`: `None` is NaN or a missing key.
 */
module Scoring {
  import opened Basics

  /** A `p` field of the `runs` block: missing or JSON null, NaN, or a number. */
  datatype PField = Missing | NaNValue | Num(v: real)

  /** The `runs` block; a missing, null or empty block has every field missing. */
  datatype RunsBlock = RunsBlock(z: Option<real>, pTwoTailed: PField, p: PField, pValue: PField)

  /** The `schur` block; a missing, null or empty block is `None` in the report. */
  datatype SchurBlock = SchurBlock(triples: Option<real>, count: Option<real>, expected: Option<real>,
                                   fraction: Option<real>, z: Option<real>, firstViolation: Option<int>)

  /** The parts of a report the comparison reads. For `autocorrMaxAbs` and `ngramBest`
      the outer `None` is an absent key; for `autocorr` and `ngram` `None` is a value
      that is missing or not a dictionary, and a sequence lists the dictionary's values. */
  datatype Report = Report(
    chiSquare: Option<real>,
    compressRatio: Option<real>,
    runs: RunsBlock,
    autocorrMaxAbs: Option<Option<real>>,
    autocorr: Option<seq<Option<real>>>,
    ngramBest: Option<Option<real>>,
    ngram: Option<seq<Option<real>>>,
    schur: Option<SchurBlock>)

  // ---------- extractors ----------

  /** Python truthiness of a `p` field: missing/null and 0.0 are false, NaN is true. */
  predicate Truthy(f: PField)
  {
    f.NaNValue? || (f.Num? && f.v != 0.0)
  }

  function PValue(f: PField): Option<real>
  {
    if f.Num? then Some(f.v) else None
  }

  /** `safe_get_runs`: Z, and `p_two_tailed` unless it is missing or null, then
      `p or p_value or nan`. */
  function SafeGetRuns(r: Report): (zp: (Option<real>, Option<real>))
    ensures zp.0 == r.runs.z
    ensures r.runs.pTwoTailed != Missing ==> zp.1 == PValue(r.runs.pTwoTailed)
    ensures r.runs.pTwoTailed == Missing && Truthy(r.runs.p) ==> zp.1 == PValue(r.runs.p)
    ensures r.runs.pTwoTailed == Missing && !Truthy(r.runs.p) && Truthy(r.runs.pValue) ==> zp.1 == PValue(r.runs.pValue)
    ensures r.runs.pTwoTailed == Missing && !Truthy(r.runs.p) && !Truthy(r.runs.pValue) ==> zp.1 == None
  {
    var b := r.runs;
    var p := if b.pTwoTailed != Missing then b.pTwoTailed
             else if Truthy(b.p) then b.p
             else if Truthy(b.pValue) then b.pValue
             else NaNValue;
    (b.z, PValue(p))
  }

  /** `a > b` on floats: false whenever either side is NaN. */
  predicate FloatGt(a: Option<real>, b: Option<real>)
  {
    a.Some? && b.Some? && a.value > b.value
  }

  /** Python `max(xs)`: keeps the first element unless a later one is strictly greater.
      A leading NaN therefore wins, and later NaNs are skipped. */
  function PyMax(xs: seq<Option<real>>): Option<real>
    requires |xs| > 0
  {
    if |xs| == 1 then xs[0]
    else
      var acc := PyMax(xs[..|xs| - 1]);
      if FloatGt(xs[|xs| - 1], acc) then xs[|xs| - 1] else acc
  }

  /** With a defined first element, `max` is the largest defined element; with an
      undefined first element it is undefined. */
  lemma {:induction false} PyMaxFacts(xs: seq<Option<real>>)
    requires |xs| > 0
    ensures xs[0].None? ==> PyMax(xs).None?
    ensures xs[0].Some? ==> PyMax(xs).Some? && PyMax(xs) in xs
    ensures xs[0].Some? ==> forall i :: 0 <= i < |xs| && xs[i].Some? ==> xs[i].value <= PyMax(xs).value
  {
    if |xs| > 1 {
      var p := xs[..|xs| - 1];
      PyMaxFacts(p);
      assert p[0] == xs[0];
      assert forall i :: 0 <= i < |p| ==> p[i] == xs[i];
    }
  }

  function AbsOpt(x: Option<real>): Option<real>
  {
    match x
    case None => None
    case Some(v) => Some(if v < 0.0 then -v else v)
  }

  function AbsAll(xs: seq<Option<real>>): (ys: seq<Option<real>>)
    ensures |ys| == |xs|
    ensures forall i :: 0 <= i < |xs| ==> ys[i] == AbsOpt(xs[i])
  {
    if |xs| == 0 then [] else AbsAll(xs[..|xs| - 1]) + [AbsOpt(xs[|xs| - 1])]
  }

  /** `safe_get_autocorr_max`: the stored `autocorr_max_abs` if present, else the max of
      the absolute autocorrelations, undefined for a missing or empty block. */
  function SafeGetAutocorrMax(r: Report): Option<real>
  {
    if r.autocorrMaxAbs.Some? then r.autocorrMaxAbs.value
    else if r.autocorr.None? || |r.autocorr.value| == 0 then None
    else PyMax(AbsAll(r.autocorr.value))
  }

  /** `safe_get_ngram_best`: the stored `ngram_best` if present, else the max of the
      accuracies, undefined for a missing or empty block. */
  function SafeGetNgramBest(r: Report): Option<real>
  {
    if r.ngramBest.Some? then r.ngramBest.value
    else if r.ngram.None? || |r.ngram.value| == 0 then None
    else PyMax(r.ngram.value)
  }

  /** `safe_get_schur`: the block, with every field NaN (and no index) when it is missing. */
  function SafeGetSchur(r: Report): (b: SchurBlock)
    ensures r.schur.Some? ==> b == r.schur.value
    ensures r.schur.None? ==>
      b.triples.None? && b.count.None? && b.expected.None? && b.fraction.None? && b.z.None? && b.firstViolation.None?
  {
    if r.schur.Some? then r.schur.value else SchurBlock(None, None, None, None, None, None)
  }

  /** When every accuracy is defined and `ngram_best` is absent, the best n-gram accuracy
      is one of them and no smaller than any; the same holds for max |autocorrelation|. */
  lemma ExtractorsAreMaxima(r: Report)
    ensures r.ngramBest.None? && r.ngram.Some? && |r.ngram.value| > 0 && r.ngram.value[0].Some? ==>
      SafeGetNgramBest(r).Some? && SafeGetNgramBest(r) in r.ngram.value &&
      forall i :: 0 <= i < |r.ngram.value| && r.ngram.value[i].Some? ==> r.ngram.value[i].value <= SafeGetNgramBest(r).value
    ensures r.autocorrMaxAbs.None? && r.autocorr.Some? && |r.autocorr.value| > 0 && r.autocorr.value[0].Some? ==>
      SafeGetAutocorrMax(r).Some? && SafeGetAutocorrMax(r) in AbsAll(r.autocorr.value) &&
      forall i :: 0 <= i < |r.autocorr.value| && r.autocorr.value[i].Some? ==>
        AbsOpt(r.autocorr.value[i]).value <= SafeGetAutocorrMax(r).value
    ensures r.autocorrMaxAbs.None? && (r.autocorr.None? || |r.autocorr.value| == 0) ==> SafeGetAutocorrMax(r).None?
    ensures r.ngramBest.None? && (r.ngram.None? || |r.ngram.value| == 0) ==> SafeGetNgramBest(r).None?
    ensures r.autocorrMaxAbs.Some? ==> SafeGetAutocorrMax(r) == r.autocorrMaxAbs.value
    ensures r.ngramBest.Some? ==> SafeGetNgramBest(r) == r.ngramBest.value
  {
    if r.ngram.Some? && |r.ngram.value| > 0 {
      PyMaxFacts(r.ngram.value);
    }
    if r.autocorr.Some? && |r.autocorr.value| > 0 {
      PyMaxFacts(AbsAll(r.autocorr.value));
    }
  }

  // ---------- add_term and severity_and_score ----------

  const Epsilon: real := 0.000000001

  function AbsReal(x: real): real { if x < 0.0 then -x else x }

  function MaxReal(a: real, b: real): real { if a >= b then a else b }

  /** The term `add_term` adds: `|val - base| / max(scale, 1e-9)` with `base` the reference
      if defined, else `hard_ref`; none when `val` or both references are undefined. */
  function Term(val: Option<real>, ref: Option<real>, scale: real, hardRef: Option<real>): Option<real>
  {
    if val.None? then None
    else
      var base := if ref.None? && hardRef.Some? then hardRef else ref;
      if base.None? then None
      else Some(AbsReal((val.value - base.value) / MaxReal(scale, Epsilon)))
  }

  /** A term exists iff `val` and some reference are defined; it is non-negative, zero iff
      `val` equals the reference used, and the baseline reference takes precedence. */
  lemma TermFacts(val: Option<real>, ref: Option<real>, scale: real, hardRef: Option<real>)
    ensures Term(val, ref, scale, hardRef).Some? <==> val.Some? && (ref.Some? || hardRef.Some?)
    ensures Term(val, ref, scale, hardRef).Some? ==> Term(val, ref, scale, hardRef).value >= 0.0
    ensures ref.Some? ==> Term(val, ref, scale, hardRef) == Term(val, ref, scale, None)
    ensures ref.None? ==> Term(val, ref, scale, hardRef) == Term(val, hardRef, scale, None)
    ensures val.Some? && ref.Some? ==> (Term(val, ref, scale, hardRef) == Some(0.0) <==> val == ref)
  {
    if val.Some? && ref.Some? {
      var d := MaxReal(scale, Epsilon);
      var q := (val.value - ref.value) / d;
      if val.value != ref.value {
        NonZeroQuotient(val.value - ref.value, d);
      }
    }
  }

  lemma NonZeroQuotient(x: real, d: real)
    requires x != 0.0 && d > 0.0
    ensures x / d != 0.0
  {
  }

  /** `add_term`: the running `score` and `weight_sum` after one heuristic. */
  method AddTerm(score: real, weightSum: real, val: Option<real>, ref: Option<real>, scale: real, hardRef: Option<real>)
    returns (score': real, weightSum': real)
    ensures Term(val, ref, scale, hardRef).None? ==> score' == score && weightSum' == weightSum
    ensures Term(val, ref, scale, hardRef).Some? ==>
      score' == score + Term(val, ref, scale, hardRef).value && weightSum' == weightSum + 1.0
  {
    score', weightSum' := score, weightSum;
    if val.None? {
      return;
    }
    var base := ref;
    if base.None? && hardRef.Some? {
      base := hardRef;
    }
    if base.None? {
      return;
    }
    var s := AbsReal((val.value - base.value) / MaxReal(scale, Epsilon));
    score' := score' + s;
    weightSum' := weightSum' + 1.0;
  }

  /** The six metrics the score compares: chi-square, compression ratio, runs Z,
      max |autocorrelation|, Schur z and best n-gram accuracy. */
  function Metrics(r: Report): (ms: seq<Option<real>>)
    ensures |ms| == 6
  {
    [r.chiSquare, r.compressRatio, SafeGetRuns(r).0, SafeGetAutocorrMax(r), SafeGetSchur(r).z, SafeGetNgramBest(r)]
  }

  /** The baseline's metrics, all undefined without a baseline. */
  function BaselineMetrics(baseline: Option<Report>): (ms: seq<Option<real>>)
    ensures |ms| == 6
  {
    if baseline.Some? then Metrics(baseline.value) else [None, None, None, None, None, None]
  }

  /** Scales and fixed references of the six heuristics. */
  const Scales: seq<real> := [5.0, 0.02, 1.0, 0.01, 1.0, 0.01]
  const HardRefs: seq<real> := [10.0, 0.48, 0.0, 0.0, 0.0, 0.10]

  function Terms(r: Report, baseline: Option<Report>): (ts: seq<Option<real>>)
    ensures |ts| == 6
  {
    var v := Metrics(r);
    var b := BaselineMetrics(baseline);
    seq(6, i requires 0 <= i < 6 => Term(v[i], b[i], Scales[i], Some(HardRefs[i])))
  }

  /** Sum of the defined terms. */
  function DefinedSum(ts: seq<Option<real>>): real
  {
    if |ts| == 0 then 0.0
    else DefinedSum(ts[..|ts| - 1]) + (if ts[|ts| - 1].Some? then ts[|ts| - 1].value else 0.0)
  }

  /** Number of defined terms. */
  function DefinedCount(ts: seq<Option<real>>): (n: nat)
    ensures n <= |ts|
  {
    if |ts| == 0 then 0
    else DefinedCount(ts[..|ts| - 1]) + (if ts[|ts| - 1].Some? then 1 else 0)
  }

  lemma DefinedSnoc(ts: seq<Option<real>>, k: nat)
    requires k < |ts|
    ensures DefinedSum(ts[..k + 1]) == DefinedSum(ts[..k]) + (if ts[k].Some? then ts[k].value else 0.0)
    ensures DefinedCount(ts[..k + 1]) == DefinedCount(ts[..k]) + (if ts[k].Some? then 1 else 0)
  {
    assert ts[..k + 1][..k] == ts[..k];
  }

  /** The mean of the defined terms, 0.0 when there is none. */
  function MeanOfDefined(ts: seq<Option<real>>): real
  {
    var n := DefinedCount(ts);
    if n > 0 then DefinedSum(ts) / n as real else 0.0
  }

  /** Raising defined terms, with the same terms defined, never lowers their sum and keeps their number. */
  lemma {:induction false} DefinedMonotone(ts: seq<Option<real>>, us: seq<Option<real>>)
    requires |ts| == |us|
    requires forall k :: 0 <= k < |ts| ==> (ts[k].Some? <==> us[k].Some?)
    requires forall k :: 0 <= k < |ts| && ts[k].Some? && us[k].Some? ==> ts[k].value <= us[k].value
    ensures DefinedSum(ts) <= DefinedSum(us)
    ensures DefinedCount(ts) == DefinedCount(us)
  {
    if |ts| > 0 {
      DefinedMonotone(ts[..|ts| - 1], us[..|us| - 1]);
    }
  }

  /** The score is monotone in each term: raising defined terms, with the others fixed
      and the same terms defined, never lowers the mean. */
  lemma MeanMonotone(ts: seq<Option<real>>, us: seq<Option<real>>)
    requires |ts| == |us|
    requires forall k :: 0 <= k < |ts| ==> (ts[k].Some? <==> us[k].Some?)
    requires forall k :: 0 <= k < |ts| && ts[k].Some? && us[k].Some? ==> ts[k].value <= us[k].value
    ensures MeanOfDefined(ts) <= MeanOfDefined(us)
  {
    DefinedMonotone(ts, us);
    var n := DefinedCount(ts);
    if n > 0 {
      QuotientMonotone(DefinedSum(ts), DefinedSum(us), n as real);
    }
  }

  lemma QuotientMonotone(a: real, b: real, n: real)
    requires a <= b && n > 0.0
    ensures a / n <= b / n
  {
    assert (b - a) / n == b / n - a / n;
    QuotientNonNegative(b - a, n);
  }

  function ScoreOf(r: Report, baseline: Option<Report>): real
  {
    MeanOfDefined(Terms(r, baseline))
  }

  datatype Severity = Green | Yellow | Red

  function SeverityOf(score: real): Severity
  {
    if score < 0.8 then Green else if score < 1.8 then Yellow else Red
  }

  /** `severity_and_score(r, baseline)`. */
  method SeverityAndScore(r: Report, baseline: Option<Report>) returns (sev: Severity, normScore: real)
    ensures normScore == ScoreOf(r, baseline)
    ensures sev == SeverityOf(normScore)
  {
    var score, weightSum := AccumulateTerms(r, baseline);
    if weightSum > 0.0 {
      normScore := score / weightSum;
    } else {
      normScore := 0.0;
    }
    if normScore < 0.8 {
      sev := Green;
    } else if normScore < 1.8 {
      sev := Yellow;
    } else {
      sev := Red;
    }
  }

  lemma TermsUnfold(r: Report, baseline: Option<Report>)
    ensures var b := BaselineMetrics(baseline);
      Terms(r, baseline) == [
        Term(r.chiSquare, b[0], 5.0, Some(10.0)),
        Term(r.compressRatio, b[1], 0.02, Some(0.48)),
        Term(SafeGetRuns(r).0, b[2], 1.0, Some(0.0)),
        Term(SafeGetAutocorrMax(r), b[3], 0.01, Some(0.0)),
        Term(SafeGetSchur(r).z, b[4], 1.0, Some(0.0)),
        Term(SafeGetNgramBest(r), b[5], 0.01, Some(0.10))]
  {
  }

  /** The six `add_term` calls of `severity_and_score`. */
  method AccumulateTerms(r: Report, baseline: Option<Report>) returns (score: real, weightSum: real)
    ensures score == DefinedSum(Terms(r, baseline))
    ensures weightSum == DefinedCount(Terms(r, baseline)) as real
  {
    var chi2 := r.chiSquare;
    var comp := r.compressRatio;
    var runs := SafeGetRuns(r);
    var acMax := SafeGetAutocorrMax(r);
    var schZ := SafeGetSchur(r).z;
    var ngramBest := SafeGetNgramBest(r);
    var b := BaselineMetrics(baseline);
    ghost var ts := Terms(r, baseline);
    TermsUnfold(r, baseline);
    assert DefinedSum(ts[..0]) == 0.0 && DefinedCount(ts[..0]) == 0;
    score, weightSum := 0.0, 0.0;
    score, weightSum := TrackedAdd(ts, 0, score, weightSum, chi2, b[0], 5.0, Some(10.0));
    score, weightSum := TrackedAdd(ts, 1, score, weightSum, comp, b[1], 0.02, Some(0.48));
    score, weightSum := TrackedAdd(ts, 2, score, weightSum, runs.0, b[2], 1.0, Some(0.0));
    score, weightSum := TrackedAdd(ts, 3, score, weightSum, acMax, b[3], 0.01, Some(0.0));
    score, weightSum := TrackedAdd(ts, 4, score, weightSum, schZ, b[4], 1.0, Some(0.0));
    score, weightSum := TrackedAdd(ts, 5, score, weightSum, ngramBest, b[5], 0.01, Some(0.10));
    assert ts[..6] == ts;
  }

  /** `add_term` on the k-th term: the running sums move from the first k terms to the first k + 1. */
  method TrackedAdd(ghost ts: seq<Option<real>>, ghost k: nat, score: real, weightSum: real,
                    val: Option<real>, ref: Option<real>, scale: real, hardRef: Option<real>)
    returns (score': real, weightSum': real)
    requires k < |ts| && ts[k] == Term(val, ref, scale, hardRef)
    requires score == DefinedSum(ts[..k]) && weightSum == DefinedCount(ts[..k]) as real
    ensures score' == DefinedSum(ts[..k + 1]) && weightSum' == DefinedCount(ts[..k + 1]) as real
  {
    score', weightSum' := AddTerm(score, weightSum, val, ref, scale, hardRef);
    Tracked(ts, k, score, weightSum, score', weightSum');
  }

  /** One `add_term` call moves the running sums from the first k terms to the first k + 1. */
  lemma Tracked(ts: seq<Option<real>>, k: nat, score: real, weightSum: real, score': real, weightSum': real)
    requires k < |ts|
    requires score == DefinedSum(ts[..k]) && weightSum == DefinedCount(ts[..k]) as real
    requires ts[k].None? ==> score' == score && weightSum' == weightSum
    requires ts[k].Some? ==> score' == score + ts[k].value && weightSum' == weightSum + 1.0
    ensures score' == DefinedSum(ts[..k + 1]) && weightSum' == DefinedCount(ts[..k + 1]) as real
  {
    DefinedSnoc(ts, k);
  }

  lemma {:induction false} DefinedSumNonNegative(ts: seq<Option<real>>)
    requires forall i :: 0 <= i < |ts| && ts[i].Some? ==> ts[i].value >= 0.0
    ensures DefinedSum(ts) >= 0.0
  {
    if |ts| > 0 {
      DefinedSumNonNegative(ts[..|ts| - 1]);
    }
  }

  lemma {:induction false} DefinedSumZero(ts: seq<Option<real>>)
    requires forall i :: 0 <= i < |ts| && ts[i].Some? ==> ts[i].value == 0.0
    ensures DefinedSum(ts) == 0.0
  {
    if |ts| > 0 {
      DefinedSumZero(ts[..|ts| - 1]);
    }
  }

  lemma TermsNonNegative(r: Report, baseline: Option<Report>)
    ensures forall i :: 0 <= i < 6 && Terms(r, baseline)[i].Some? ==> Terms(r, baseline)[i].value >= 0.0
  {
    var v := Metrics(r);
    var b := BaselineMetrics(baseline);
    forall i | 0 <= i < 6
      ensures Terms(r, baseline)[i].Some? ==> Terms(r, baseline)[i].value >= 0.0
    {
      TermFacts(v[i], b[i], Scales[i], Some(HardRefs[i]));
    }
  }

  /** The score is never negative, and is 0.0 when no term could be formed. */
  lemma ScoreNonNegative(r: Report, baseline: Option<Report>)
    ensures ScoreOf(r, baseline) >= 0.0
    ensures DefinedCount(Terms(r, baseline)) == 0 ==> ScoreOf(r, baseline) == 0.0
  {
    var ts := Terms(r, baseline);
    TermsNonNegative(r, baseline);
    if DefinedCount(ts) > 0 {
      DefinedSumNonNegative(ts);
      QuotientNonNegative(DefinedSum(ts), DefinedCount(ts) as real);
    }
  }

  lemma QuotientNonNegative(x: real, n: real)
    requires x >= 0.0 && n > 0.0
    ensures x / n >= 0.0
  {
  }

  /** Severity is green below 0.8, yellow below 1.8 and red from there on, and it never
      decreases as the score grows. */
  lemma SeverityMonotone(a: real, b: real)
    requires a <= b
    ensures SeverityOf(a) == Red ==> SeverityOf(b) == Red
    ensures SeverityOf(b) == Green ==> SeverityOf(a) == Green
    ensures SeverityOf(a) == Yellow ==> SeverityOf(b) != Green
  {
  }

  /** A report compared with itself as baseline scores 0 and is green: every metric it
      defines is its own reference. */
  lemma SelfBaselineIsGreen(r: Report)
    ensures ScoreOf(r, Some(r)) == 0.0
    ensures SeverityOf(ScoreOf(r, Some(r))) == Green
  {
    var ts := Terms(r, Some(r));
    var v := Metrics(r);
    forall i | 0 <= i < 6 ensures ts[i].None? || ts[i] == Some(0.0) {
      TermFacts(v[i], v[i], Scales[i], Some(HardRefs[i]));
    }
    DefinedSumZero(ts);
  }
}
