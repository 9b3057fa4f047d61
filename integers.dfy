/**
 * Integers mode: an input of arbitrary integers is cut to its first Ncap values
 * and every value is reduced into the alphabet with `x % M` before probing.
 */
module IntegersMode {
  import opened Basics
  import opened Distribution
  import opened ModArith

  /** The sequence the probes see in integers mode, or `None` for the exit on M <= 0. */
  function ProbeInput(values: seq<int>, alphabet: int, ncap: Option<int>): (r: Option<seq<int>>)
    ensures r.Some? <==> alphabet > 0
    ensures r.Some? ==> |r.value| == (if ncap.Some? && ncap.value > 0 then Min(ncap.value, |values|) else |values|)
    ensures r.Some? ==> forall i :: 0 <= i < |r.value| ==> 0 <= r.value[i] < alphabet && r.value[i] == values[i] % alphabet
  {
    var kept := if ncap.Some? && ncap.value > 0 then Prefix(values, ncap.value) else values;
    if alphabet <= 0 then None else Some(seq(|kept|, i requires 0 <= i < |kept| => kept[i] % alphabet))
  }

  /** After the reduction no value falls outside the bins: the M counts add up to N. */
  lemma ReducedCountsCoverInput(values: seq<int>, alphabet: int, ncap: Option<int>)
    requires alphabet > 0
    ensures var s := ProbeInput(values, alphabet, ncap).value;
      BinTotal(s, alphabet) == |s|
  {
    CountsPartitionInput(ProbeInput(values, alphabet, ncap).value, alphabet);
  }

  /** Values already in [0, M) pass through unchanged. */
  lemma ReductionKeepsAlphabet(values: seq<int>, alphabet: int)
    requires alphabet > 0
    requires forall i :: 0 <= i < |values| ==> 0 <= values[i] < alphabet
    ensures ProbeInput(values, alphabet, None) == Some(values)
  {
    var r := ProbeInput(values, alphabet, None).value;
    forall i | 0 <= i < |values|
      ensures r[i] == values[i]
    {
      ModUnique(values[i], alphabet, 0, values[i]);
    }
    assert r == values;
  }
}
