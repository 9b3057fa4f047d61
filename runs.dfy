/**
 * Runs test on parity: the sequence is split into even and odd symbols and the
 * number R of maximal runs of equal parity is counted, together with the mean
 * and variance of R under the null hypothesis (Wald-Wolfowitz).
 */
module Runs {
  import opened Basics

  /** `x & 1`: for Python's arbitrary-precision integers this is the non-negative remainder mod 2. */
  function Parity(x: int): (c: int)
    ensures c == 0 || c == 1
    ensures c == 0 <==> x % 2 == 0
  {
    x % 2
  }

  /** Number of even symbols. */
  function EvenCount(s: seq<int>): (n0: nat)
    ensures n0 <= |s|
  {
    if |s| == 0 then 0
    else EvenCount(s[..|s| - 1]) + (if Parity(s[|s| - 1]) == 0 then 1 else 0)
  }

  /** Number of adjacent positions whose parities differ. */
  function ParityChanges(s: seq<int>): (c: nat)
    ensures |s| > 0 ==> c < |s|
  {
    if |s| < 2 then 0
    else ParityChanges(s[..|s| - 1]) + (if Parity(s[|s| - 1]) != Parity(s[|s| - 2]) then 1 else 0)
  }

  /** The integer quantities of the runs test and its exact mean and variance. */
  datatype RunsCounts = RunsCounts(n0: nat, n1: nat, runs: nat, mu: real, variance: real)

  /** Undefined when N < 2 or when one parity class is empty. */
  function RunsSpec(s: seq<int>): Option<RunsCounts>
  {
    var n := |s|;
    var n0 := EvenCount(s);
    var n1 := n - n0;
    if n < 2 || n0 == 0 || n1 == 0 then None
    else
      var prod := 2 * n0 * n1;
      Some(RunsCounts(n0, n1, 1 + ParityChanges(s),
        1.0 + prod as real / n as real,
        (prod * (prod - n)) as real / (n * n * (n - 1)) as real))
  }

  /** `runs_test_even_odd` up to the computation of Z and p. */
  method RunsTestEvenOdd(s: seq<int>) returns (r: Option<RunsCounts>)
    ensures r == RunsSpec(s)
  {
    var n := |s|;
    if n < 2 {
      return None;
    }
    var classes := seq(n, i requires 0 <= i < n => s[i] % 2);
    var n0 := CountEven(s, classes);
    var n1 := n - n0;
    if n0 == 0 || n1 == 0 {
      return None;
    }
    var runs := CountRuns(s, classes);
    var prod := 2 * n0 * n1;
    var mu := 1.0 + prod as real / n as real;
    var variance := (prod * (prod - n)) as real / (n * n * (n - 1)) as real;
    r := Some(RunsCounts(n0, n1, runs, mu, variance));
  }

  /** `n0 = sum(1 for c in classes if c == 0)`. */
  method CountEven(s: seq<int>, classes: seq<int>) returns (n0: nat)
    requires |classes| == |s| && forall i :: 0 <= i < |s| ==> classes[i] == Parity(s[i])
    ensures n0 == EvenCount(s)
  {
    n0 := 0;
    var k := 0;
    while k < |s|
      invariant 0 <= k <= |s|
      invariant n0 == EvenCount(s[..k])
    {
      assert s[..k + 1][..k] == s[..k];
      if classes[k] == 0 {
        n0 := n0 + 1;
      }
      k := k + 1;
    }
    assert s[..|s|] == s;
  }

  /** The run-counting loop: one run, plus one per change of class. */
  method CountRuns(s: seq<int>, classes: seq<int>) returns (runs: nat)
    requires |s| >= 1
    requires |classes| == |s| && forall i :: 0 <= i < |s| ==> classes[i] == Parity(s[i])
    ensures runs == 1 + ParityChanges(s)
  {
    runs := 1;
    var i := 1;
    while i < |s|
      invariant 1 <= i <= |s|
      invariant runs == 1 + ParityChanges(s[..i])
    {
      assert s[..i + 1][..i] == s[..i];
      if classes[i] != classes[i - 1] {
        runs := runs + 1;
      }
      i := i + 1;
    }
    assert s[..|s|] == s;
  }

  /** A prefix without parity changes has a single parity throughout. */
  lemma {:induction false} NoChangeSingleParity(s: seq<int>)
    requires |s| > 0 && ParityChanges(s) == 0
    ensures forall i :: 0 <= i < |s| ==> Parity(s[i]) == Parity(s[0])
  {
    if |s| >= 2 {
      var p := s[..|s| - 1];
      assert ParityChanges(p) == 0;
      NoChangeSingleParity(p);
      assert forall i :: 0 <= i < |p| ==> p[i] == s[i];
    }
  }

  /** With one parity throughout, every element falls on the same side of the even count. */
  lemma {:induction false} SingleParityCount(s: seq<int>, c: int)
    requires forall i :: 0 <= i < |s| ==> Parity(s[i]) == c
    ensures c == 0 ==> EvenCount(s) == |s|
    ensures c != 0 ==> EvenCount(s) == 0
  {
    if |s| > 0 {
      var p := s[..|s| - 1];
      assert forall i :: 0 <= i < |p| ==> p[i] == s[i];
      SingleParityCount(p, c);
    }
  }

  /** The runs test is defined exactly when N >= 2 and both parities occur; then
      n0 + n1 = N, 2 <= R <= N and the variance is non-negative. */
  lemma RunsFacts(s: seq<int>)
    ensures RunsSpec(s).Some? <==>
      |s| >= 2 && (exists i :: 0 <= i < |s| && Parity(s[i]) == 0) && (exists i :: 0 <= i < |s| && Parity(s[i]) == 1)
    ensures RunsSpec(s).Some? ==> RunsSpec(s).value.n0 + RunsSpec(s).value.n1 == |s|
    ensures RunsSpec(s).Some? ==> 2 <= RunsSpec(s).value.runs <= |s|
    ensures RunsSpec(s).Some? ==> RunsSpec(s).value.variance >= 0.0
  {
    if |s| > 0 {
      var e := EvenCount(s);
      if exists i :: 0 <= i < |s| && Parity(s[i]) != Parity(s[0]) {
        var j :| 0 <= j < |s| && Parity(s[j]) != Parity(s[0]);
        if ParityChanges(s) == 0 {
          NoChangeSingleParity(s);
        }
      } else {
        SingleParityCount(s, Parity(s[0]));
      }
      if e == 0 {
        ParitiesIfUniform(s, e);
      } else if e == |s| {
        ParitiesIfUniform(s, e);
      }
      if RunsSpec(s).Some? {
        VarianceNumeratorNonNegative(e, |s| - e);
      }
    }
  }

  /** An even count of 0 or N rules out the other parity. */
  lemma {:induction false} ParitiesIfUniform(s: seq<int>, e: nat)
    requires e == EvenCount(s)
    ensures e == 0 ==> forall i :: 0 <= i < |s| ==> Parity(s[i]) == 1
    ensures e == |s| ==> forall i :: 0 <= i < |s| ==> Parity(s[i]) == 0
  {
    if |s| > 0 {
      var p := s[..|s| - 1];
      assert forall i :: 0 <= i < |p| ==> p[i] == s[i];
      ParitiesIfUniform(p, EvenCount(p));
    }
  }

  /** 2 n0 n1 (2 n0 n1 - N) >= 0 and N^2 (N - 1) > 0 for n0, n1 >= 1. */
  lemma VarianceNumeratorNonNegative(n0: int, n1: int)
    requires n0 >= 1 && n1 >= 1
    ensures 2 * n0 * n1 - (n0 + n1) >= 0
    ensures 2 * n0 * n1 * (2 * n0 * n1 - (n0 + n1)) >= 0
    ensures (n0 + n1) * (n0 + n1) * (n0 + n1 - 1) > 0
  {
    assert 2 * n0 * n1 - (n0 + n1) == n0 * (n1 - 1) + n1 * (n0 - 1);
    assert n0 * (n1 - 1) >= 0;
    assert n1 * (n0 - 1) >= 0;
    var n := n0 + n1;
    assert n * n > 0;
    assert n * n * (n - 1) > 0;
  }
}
