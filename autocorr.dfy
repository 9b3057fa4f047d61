/**
 * Pearson autocorrelation of an integer sequence at a list of lags, with the
 * variance denominator taken over all N values.
 */
module Autocorr {
  import opened Basics

  function SumInt(s: seq<int>): int
  {
    if |s| == 0 then 0 else SumInt(s[..|s| - 1]) + s[|s| - 1]
  }

  /** `statistics.mean(seq)`, exact; 0 for the empty sequence, which is never asked for. */
  function Mean(s: seq<int>): real
  {
    if |s| == 0 then 0.0 else SumInt(s) as real / |s| as real
  }

  /** The product of the deviations of two values from the mean. */
  function DevProduct(a: int, b: int, mu: real): real
  {
    (a as real - mu) * (b as real - mu)
  }

  /** Sum of squared deviations of `s[0 .. k-1]` from `mu`. */
  function SqDev(s: seq<int>, mu: real, k: nat): real
    requires k <= |s|
  {
    if k == 0 then 0.0 else SqDev(s, mu, k - 1) + DevProduct(s[k - 1], s[k - 1], mu)
  }

  /** Sum of lagged deviation products for the pairs `(i, i+L)` with `i < k`. */
  function LagNum(s: seq<int>, mu: real, lag: nat, k: nat): real
    requires k + lag <= |s|
  {
    if k == 0 then 0.0 else LagNum(s, mu, lag, k - 1) + DevProduct(s[k - 1], s[k - 1 + lag], mu)
  }

  /** Autocorrelation at one lag. `None` is NaN. A zero denominator is checked before the
      lag, so a constant sequence gives 0 even at a lag outside `1 .. N-1`. */
  function AutocorrAt(s: seq<int>, lag: int): Option<real>
  {
    var n := |s|;
    if n < 2 then None
    else
      var mu := Mean(s);
      var denom := SqDev(s, mu, n);
      if denom == 0.0 then Some(0.0)
      else if lag <= 0 || lag >= n then None
      else Some(LagNum(s, mu, lag, n - lag) / denom)
  }

  /** `autocorr_lags`: one entry per requested lag. */
  method AutocorrLags(s: seq<int>, lags: seq<int>) returns (out: map<int, Option<real>>)
    ensures forall l :: l in out <==> l in lags
    ensures forall l :: l in out ==> out[l] == AutocorrAt(s, l)
  {
    var n := |s|;
    out := map[];
    if n < 2 {
      out := FillLags(lags, None);
      return;
    }
    var total := SumLoop(s);
    var mu := total as real / n as real;
    var denom := SqDevLoop(s, mu);
    if denom == 0.0 {
      out := FillLags(lags, Some(0.0));
      return;
    }
    var j := 0;
    while j < |lags|
      invariant 0 <= j <= |lags|
      invariant forall l :: l in out <==> l in lags[..j]
      invariant forall l :: l in out ==> out[l] == AutocorrAt(s, l)
    {
      var lag := lags[j];
      assert lags[..j + 1] == lags[..j] + [lag];
      if lag <= 0 || lag >= n {
        out := out[lag := None];
      } else {
        var num := LagNumLoop(s, mu, lag);
        out := out[lag := Some(num / denom)];
      }
      j := j + 1;
    }
    assert lags[..|lags|] == lags;
  }

  /** `{lag: v for lag in lags}`. */
  method FillLags(lags: seq<int>, v: Option<real>) returns (out: map<int, Option<real>>)
    ensures forall l :: l in out <==> l in lags
    ensures forall l :: l in out ==> out[l] == v
  {
    out := map[];
    var j := 0;
    while j < |lags|
      invariant 0 <= j <= |lags|
      invariant forall l :: l in out <==> l in lags[..j]
      invariant forall l :: l in out ==> out[l] == v
    {
      assert lags[..j + 1] == lags[..j] + [lags[j]];
      out := out[lags[j] := v];
      j := j + 1;
    }
    assert lags[..|lags|] == lags;
  }

  method SumLoop(s: seq<int>) returns (total: int)
    ensures total == SumInt(s)
  {
    total := 0;
    var i := 0;
    while i < |s|
      invariant 0 <= i <= |s|
      invariant total == SumInt(s[..i])
    {
      assert s[..i + 1][..i] == s[..i];
      total := total + s[i];
      i := i + 1;
    }
    assert s[..|s|] == s;
  }

  /** `sum((x - mu) * (x - mu) for x in seq)`. */
  method SqDevLoop(s: seq<int>, mu: real) returns (acc: real)
    ensures acc == SqDev(s, mu, |s|)
  {
    acc := 0.0;
    var i := 0;
    while i < |s|
      invariant 0 <= i <= |s|
      invariant acc == SqDev(s, mu, i)
    {
      acc := acc + DevProduct(s[i], s[i], mu);
      i := i + 1;
    }
  }

  /** The inner loop over `i in range(N - L)`. */
  method LagNumLoop(s: seq<int>, mu: real, lag: nat) returns (num: real)
    requires lag <= |s|
    ensures num == LagNum(s, mu, lag, |s| - lag)
  {
    num := 0.0;
    var i := 0;
    while i < |s| - lag
      invariant 0 <= i <= |s| - lag
      invariant num == LagNum(s, mu, lag, i)
    {
      num := num + DevProduct(s[i], s[i + lag], mu);
      i := i + 1;
    }
  }

  /** With fewer than two values every lag is undefined. */
  lemma AutocorrShort(s: seq<int>, lag: int)
    requires |s| < 2
    ensures AutocorrAt(s, lag).None?
  {
  }

  lemma {:induction false} SumConstant(s: seq<int>, c: int)
    requires forall i :: 0 <= i < |s| ==> s[i] == c
    ensures SumInt(s) == |s| * c
  {
    if |s| > 0 {
      SumConstant(s[..|s| - 1], c);
    }
  }

  lemma {:induction false} SqDevAtMean(s: seq<int>, c: int, k: nat)
    requires k <= |s|
    requires forall i :: 0 <= i < |s| ==> s[i] == c
    ensures SqDev(s, c as real, k) == 0.0
  {
    if k > 0 {
      SqDevAtMean(s, c, k - 1);
    }
  }

  lemma MeanOfConstant(n: int, c: int)
    requires n > 0
    ensures (n * c) as real / n as real == c as real
  {
  }

  /** A constant sequence of length >= 2 has autocorrelation 0 at every lag, including
      lags outside 1 .. N-1. */
  lemma AutocorrConstant(s: seq<int>, c: int, lag: int)
    requires |s| >= 2
    requires forall i :: 0 <= i < |s| ==> s[i] == c
    ensures AutocorrAt(s, lag) == Some(0.0)
  {
    SumConstant(s, c);
    MeanOfConstant(|s|, c);
    SqDevAtMean(s, c, |s|);
  }

  /** A lag outside 1 .. N-1 is NaN, except that a sequence with zero variance (checked
      first) gives the degenerate 0 there too. */
  lemma AutocorrLagRange(s: seq<int>, lag: int)
    requires lag <= 0 || lag >= |s|
    ensures AutocorrAt(s, lag) == None || AutocorrAt(s, lag) == Some(0.0)
    ensures |s| >= 2 ==> (AutocorrAt(s, lag).None? <==> SqDev(s, Mean(s), |s|) != 0.0)
    ensures |s| >= 2 ==> (AutocorrAt(s, lag) == Some(0.0) <==> SqDev(s, Mean(s), |s|) == 0.0)
  {
  }

  /** Adding a constant to every value shifts the mean by that constant. */
  lemma {:induction false} SumShift(s: seq<int>, t: seq<int>, c: int)
    requires |t| == |s|
    requires forall i :: 0 <= i < |s| ==> t[i] == s[i] + c
    ensures SumInt(t) == SumInt(s) + |s| * c
  {
    if |s| > 0 {
      SumShift(s[..|s| - 1], t[..|t| - 1], c);
    }
  }

  lemma MeanShift(total: int, n: int, c: int)
    requires n > 0
    ensures (total + n * c) as real / n as real == total as real / n as real + c as real
  {
  }

  lemma {:induction false} SqDevShift(s: seq<int>, t: seq<int>, c: int, mu: real, k: nat)
    requires |t| == |s| && k <= |s|
    requires forall i :: 0 <= i < |s| ==> t[i] == s[i] + c
    ensures SqDev(t, mu + c as real, k) == SqDev(s, mu, k)
  {
    if k > 0 {
      SqDevShift(s, t, c, mu, k - 1);
      assert t[k - 1] as real - (mu + c as real) == s[k - 1] as real - mu;
    }
  }

  lemma {:induction false} LagNumShift(s: seq<int>, t: seq<int>, c: int, mu: real, lag: nat, k: nat)
    requires |t| == |s| && k + lag <= |s|
    requires forall i :: 0 <= i < |s| ==> t[i] == s[i] + c
    ensures LagNum(t, mu + c as real, lag, k) == LagNum(s, mu, lag, k)
  {
    if k > 0 {
      LagNumShift(s, t, c, mu, lag, k - 1);
      assert t[k - 1] as real - (mu + c as real) == s[k - 1] as real - mu;
      assert t[k - 1 + lag] as real - (mu + c as real) == s[k - 1 + lag] as real - mu;
    }
  }

  /** Autocorrelation does not change when a constant is added to every value. */
  lemma AutocorrShiftInvariant(s: seq<int>, t: seq<int>, c: int, lag: int)
    requires |t| == |s|
    requires forall i :: 0 <= i < |s| ==> t[i] == s[i] + c
    ensures AutocorrAt(t, lag) == AutocorrAt(s, lag)
  {
    if |s| >= 2 {
      SumShift(s, t, c);
      MeanShift(SumInt(s), |s|, c);
      assert Mean(t) == Mean(s) + c as real;
      SqDevShift(s, t, c, Mean(s), |s|);
      if 0 < lag < |s| {
        LagNumShift(s, t, c, Mean(s), lag, |s| - lag);
      }
    }
  }
}
