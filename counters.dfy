/**
 * `collections.Counter` as used by the n-gram predictor: an insertion-ordered
 * association list from symbols to counts, with `c[x] += 1` and
 * `most_common(1)[0][0]`.
 */
module Counters {
  import opened Basics

  /** Entries in insertion order; keys are distinct in every counter built by `Add`. */
  type Counter = seq<(int, nat)>

  function Keys(c: Counter): (r: seq<int>)
    ensures |r| == |c|
    ensures forall i :: 0 <= i < |c| ==> r[i] == c[i].0
  {
    seq(|c|, i requires 0 <= i < |c| => c[i].0)
  }

  /** A dictionary holds each key once. */
  predicate DistinctKeys(c: Counter)
  {
    forall i, j :: 0 <= i < j < |c| ==> c[i].0 != c[j].0
  }

  /** Position of key `x` in `c`. */
  function IndexOf(c: Counter, x: int): (i: nat)
    requires x in Keys(c)
    ensures i < |c| && c[i].0 == x
  {
    if c[0].0 == x then 0
    else
      assert Keys(c) == [c[0].0] + Keys(c[1..]);
      1 + IndexOf(c[1..], x)
  }

  /** `c[x] += 1`: a present key is incremented in place, a new key is appended with count 1. */
  function Add(c: Counter, x: int): (r: Counter)
    ensures |r| > 0
  {
    if x in Keys(c) then
      var i := IndexOf(c, x);
      c[i := (x, c[i].1 + 1)]
    else
      c + [(x, 1)]
  }

  /** `Add` keeps the keys distinct and in place, increments the entry of x if there is
      one, and otherwise appends x with count 1. */
  lemma AddFacts(c: Counter, x: int)
    requires DistinctKeys(c)
    ensures var r := Add(c, x);
      DistinctKeys(r) &&
      (x in Keys(c) ==> Keys(r) == Keys(c)) &&
      (x !in Keys(c) ==> Keys(r) == Keys(c) + [x] && r == c + [(x, 1)]) &&
      (forall i :: 0 <= i < |c| ==> r[i] == (if c[i].0 == x then (x, c[i].1 + 1) else c[i]))
  {
    var r := Add(c, x);
    if x in Keys(c) {
      var k := IndexOf(c, x);
      assert forall i :: 0 <= i < |c| ==> r[i].0 == c[i].0;
      assert Keys(r) == Keys(c);
    } else {
      assert Keys(r) == Keys(c) + [x];
    }
  }

  /** `collections.Counter(s)`: the symbols of `s` added one after the other. */
  function Tally(s: seq<int>): (c: Counter)
    ensures |s| > 0 ==> |c| > 0
  {
    if |s| == 0 then [] else Add(Tally(s[..|s| - 1]), s[|s| - 1])
  }

  lemma TallySnoc(s: seq<int>, x: int)
    ensures Tally(s + [x]) == Add(Tally(s), x)
  {
    assert (s + [x])[..|s|] == s;
  }

  /** Index of the entry `max(items, key=count)` picks among the first k: the
      first entry holding the largest count. */
  function BestUpTo(c: Counter, k: nat): (b: nat)
    requires 0 < k <= |c|
    ensures b < k
    ensures forall j :: 0 <= j < k ==> c[j].1 <= c[b].1
    ensures forall j :: 0 <= j < b ==> c[j].1 < c[b].1
  {
    if k == 1 then 0
    else
      var b := BestUpTo(c, k - 1);
      if c[k - 1].1 > c[b].1 then k - 1 else b
  }

  /** `c.most_common(1)[0][0]`. */
  function MostCommon(c: Counter): int
    requires |c| > 0
  {
    c[BestUpTo(c, |c|)].0
  }

  /** `c` is the counter of `s`: distinct keys, exactly the symbols of `s`, each with its
      number of occurrences, in the order of their first occurrence in `s`. */
  ghost predicate IsTallyOf(c: Counter, s: seq<int>)
  {
    DistinctKeys(c) && EntriesCounted(c, s) && CoversInput(c, s) && FirstOccurrenceOrder(c, s)
  }

  ghost predicate EntriesCounted(c: Counter, s: seq<int>)
  {
    forall i :: 0 <= i < |c| ==> c[i].0 in s && c[i].1 == Occ(s, c[i].0)
  }

  ghost predicate CoversInput(c: Counter, s: seq<int>)
  {
    forall x :: x in s ==> x in Keys(c)
  }

  ghost predicate FirstOccurrenceOrder(c: Counter, s: seq<int>)
  {
    forall i, j :: 0 <= i < j < |c| && c[i].0 in s && c[j].0 in s ==> FirstIdx(s, c[i].0).value < FirstIdx(s, c[j].0).value
  }

  lemma {:induction false} TallyCorrect(s: seq<int>)
    ensures IsTallyOf(Tally(s), s)
  {
    if |s| > 0 {
      var p := s[..|s| - 1];
      var x := s[|s| - 1];
      assert s == p + [x];
      TallyCorrect(p);
      TallySnoc(p, x);
      var c := Tally(p);
      AddFacts(c, x);
      CountedStep(c, p, x);
      CoversStep(c, p, x);
      if x in Keys(c) {
        OrderStepOld(c, p, x);
      } else {
        OrderStepNew(c, p, x);
      }
    }
  }

  /** Adding `x` to the counter of `p` keeps every count equal to its occurrences in `p + [x]`. */
  lemma CountedStep(c: Counter, p: seq<int>, x: int)
    requires DistinctKeys(c) && EntriesCounted(c, p) && CoversInput(c, p)
    ensures EntriesCounted(Add(c, x), p + [x])
  {
    var s := p + [x];
    var r := Add(c, x);
    forall i | 0 <= i < |r|
      ensures r[i].0 in s && r[i].1 == Occ(s, r[i].0)
    {
      OccSnoc(p, x, r[i].0);
      if i < |c| {
        assert r[i] == (if c[i].0 == x then (x, c[i].1 + 1) else c[i]);
      } else {
        assert x !in Keys(c) && r[i] == (x, 1);
        assert x !in p;
      }
    }
  }

  lemma CoversStep(c: Counter, p: seq<int>, x: int)
    requires DistinctKeys(c) && CoversInput(c, p)
    ensures CoversInput(Add(c, x), p + [x])
  {
    AddFacts(c, x);
    assert forall y :: y in p + [x] ==> y in p || y == x;
  }

  /** Incrementing an entry moves no first occurrence. */
  lemma OrderStepOld(c: Counter, p: seq<int>, x: int)
    requires DistinctKeys(c) && EntriesCounted(c, p) && FirstOccurrenceOrder(c, p)
    requires x in Keys(c)
    ensures FirstOccurrenceOrder(Add(c, x), p + [x])
  {
    var r := Add(c, x);
    forall i | 0 <= i < |r|
      ensures r[i].0 == c[i].0 && FirstIdx(p + [x], r[i].0) == FirstIdx(p, c[i].0)
    {
      FirstIdxSnoc(p, x, c[i].0);
    }
  }

  /** A new entry is appended, and its first occurrence is the last position. */
  lemma OrderStepNew(c: Counter, p: seq<int>, x: int)
    requires DistinctKeys(c) && EntriesCounted(c, p) && CoversInput(c, p) && FirstOccurrenceOrder(c, p)
    requires x !in Keys(c)
    ensures FirstOccurrenceOrder(Add(c, x), p + [x])
  {
    var r := Add(c, x);
    assert x !in p;
    assert r == c + [(x, 1)];
    forall i | 0 <= i < |r|
      ensures FirstIdx(p + [x], r[i].0).value == if i < |c| then FirstIdx(p, c[i].0).value else |p|
    {
      FirstIdxSnoc(p, x, r[i].0);
      if i < |c| {
        assert r[i] == c[i];
      }
    }
  }

  /** `x` is a mode of `s` in `Counter.most_common` order: it occurs in `s`, no symbol
      occurs more often, and it occurs first among the symbols tied with it. */
  ghost predicate IsMode(s: seq<int>, x: int)
  {
    x in s &&
    (forall y :: Occ(s, y) <= Occ(s, x)) &&
    (forall y :: y in s && Occ(s, y) == Occ(s, x) ==> FirstIdx(s, x).value <= FirstIdx(s, y).value)
  }

  /** `Counter(s).most_common(1)[0][0]` is the mode of `s`. */
  lemma MostCommonIsMode(s: seq<int>)
    requires |s| > 0
    ensures IsMode(s, MostCommon(Tally(s)))
  {
    var c := Tally(s);
    TallyCorrect(s);
    var b := BestUpTo(c, |c|);
    BestIsMaximal(c, s, b);
    BestIsFirst(c, s, b);
  }

  lemma BestIsMaximal(c: Counter, s: seq<int>, b: nat)
    requires IsTallyOf(c, s)
    requires b < |c| && forall j :: 0 <= j < |c| ==> c[j].1 <= c[b].1
    ensures c[b].0 in s
    ensures forall y :: Occ(s, y) <= Occ(s, c[b].0)
  {
    forall y ensures Occ(s, y) <= Occ(s, c[b].0) {
      if y in s {
        var j := IndexOf(c, y);
        assert c[j].1 == Occ(s, y);
      }
    }
  }

  lemma BestIsFirst(c: Counter, s: seq<int>, b: nat)
    requires IsTallyOf(c, s)
    requires b < |c| && forall j :: 0 <= j < b ==> c[j].1 < c[b].1
    ensures forall y :: y in s && Occ(s, y) == Occ(s, c[b].0) ==> FirstIdx(s, c[b].0).value <= FirstIdx(s, y).value
  {
    var x := c[b].0;
    forall y | y in s && Occ(s, y) == Occ(s, x) ensures FirstIdx(s, x).value <= FirstIdx(s, y).value {
      var j := IndexOf(c, y);
      assert c[j].1 == c[b].1;
      assert b <= j;
    }
  }

  /** A sequence has at most one mode. */
  lemma ModeUnique(s: seq<int>, x: int, y: int)
    requires IsMode(s, x) && IsMode(s, y)
    ensures x == y
  {
    assert Occ(s, x) == Occ(s, y);
    var fx := FirstIdx(s, x).value;
    var fy := FirstIdx(s, y).value;
    assert fx <= fy && fy <= fx;
    assert s[fx] == x && s[fy] == y;
  }
}
