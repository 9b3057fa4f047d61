/**
 * N-gram predictor: a Markov model of order n trained on the first 80% of the
 * sequence by maximal follower frequency, scored by its accuracy on the rest.
 */
module NGram {
  import opened Basics
  import opened Counters

  /** `trainN = int(N * 0.8)`, raised to `min(N - 1, max(n + 1, int(N * 0.7)))` when it
      leaves fewer than n + 1 training symbols. */
  function TrainLen(len: int, n: nat): (t: nat)
    requires len >= 4
    ensures 1 <= t <= len - 1
  {
    var t := len * 4 / 5;
    if t < n + 1 then Min(len - 1, Max(n + 1, len * 7 / 10)) else t
  }

  /** The 0.7 fallback never wins over n + 1, so a short training part has min(N-1, n+1) symbols. */
  lemma TrainLenFallback(len: int, n: nat)
    requires len >= 4
    ensures TrainLen(len, n) == if len * 4 / 5 < n + 1 then Min(len - 1, n + 1) else len * 4 / 5
  {
  }

  /** The (context, next) windows at positions `n .. k-1` of `t`. */
  function Win(t: seq<int>, n: nat, k: nat): (ws: seq<(seq<int>, int)>)
    requires k <= |t|
    ensures |ws| == Max(k - n, 0)
  {
    if k <= n then [] else Win(t, n, k - 1) + [(t[k - 1 - n..k - 1], t[k - 1])]
  }

  /** The j-th window is the context `t[j..j+n]` followed by `t[j+n]`. */
  lemma {:induction false} WinAt(t: seq<int>, n: nat, k: nat, j: nat)
    requires k <= |t| && j < Max(k - n, 0)
    ensures Win(t, n, k)[j] == (t[j..j + n], t[j + n])
  {
    if j < k - 1 - n {
      WinAt(t, n, k - 1, j);
    }
  }

  /** `for i in range(n, len(t))`: context `t[i-n:i]`, next symbol `t[i]`. */
  function Windows(t: seq<int>, n: nat): seq<(seq<int>, int)>
  {
    Win(t, n, |t|)
  }

  lemma WinStep(t: seq<int>, n: nat, k: nat)
    requires n <= k < |t|
    ensures Win(t, n, k + 1) == Win(t, n, k) + [(t[k - n..k], t[k])]
  {
  }

  type Table = map<seq<int>, Counter>

  /** The transition table `trans` after counting the windows `ws`. */
  function TableOf(ws: seq<(seq<int>, int)>): (tb: Table)
    ensures forall ctx :: ctx in tb ==> |tb[ctx]| > 0
  {
    if |ws| == 0 then map[]
    else
      var tb := TableOf(ws[..|ws| - 1]);
      var w := ws[|ws| - 1];
      tb[w.0 := Add(if w.0 in tb then tb[w.0] else [], w.1)]
  }

  /** The symbols that follow context `ctx` in the windows `ws`, in order. */
  function Followers(ws: seq<(seq<int>, int)>, ctx: seq<int>): seq<int>
  {
    if |ws| == 0 then []
    else Followers(ws[..|ws| - 1], ctx) + (if ws[|ws| - 1].0 == ctx then [ws[|ws| - 1].1] else [])
  }

  /** Each context in the table is one that occurs, and its counter is the tally of its followers. */
  lemma {:induction false} TableIsFollowerTally(ws: seq<(seq<int>, int)>, ctx: seq<int>)
    ensures ctx in TableOf(ws) <==> |Followers(ws, ctx)| > 0
    ensures ctx in TableOf(ws) ==> TableOf(ws)[ctx] == Tally(Followers(ws, ctx))
  {
    if |ws| > 0 {
      var p := ws[..|ws| - 1];
      var w := ws[|ws| - 1];
      TableIsFollowerTally(p, ctx);
      if w.0 == ctx {
        assert Followers(ws, ctx) == Followers(p, ctx) + [w.1];
        TallySnoc(Followers(p, ctx), w.1);
        if ctx !in TableOf(p) {
          assert Followers(p, ctx) == [];
        }
      } else {
        assert Followers(ws, ctx) == Followers(p, ctx);
      }
    }
  }

  /** The symbol predicted after `ctx`: the most common follower of a seen context, and the
      most common training symbol otherwise. */
  function Predict(train: seq<int>, tb: Table, ctx: seq<int>): int
    requires |train| > 0
    requires forall c :: c in tb ==> |tb[c]| > 0
  {
    if ctx !in tb then MostCommon(Tally(train)) else MostCommon(tb[ctx])
  }

  /** Number of windows whose next symbol is predicted correctly. */
  function Hits(ws: seq<(seq<int>, int)>, train: seq<int>, tb: Table): (h: nat)
    requires |train| > 0
    requires forall c :: c in tb ==> |tb[c]| > 0
    ensures h <= |ws|
  {
    if |ws| == 0 then 0
    else Hits(ws[..|ws| - 1], train, tb) + (if Predict(train, tb, ws[|ws| - 1].0) == ws[|ws| - 1].1 then 1 else 0)
  }

  /** Accuracy of the order-n predictor; `None` is NaN. */
  function NgramAccuracy(s: seq<int>, n: nat): Option<real>
  {
    if |s| < 4 then None
    else
      var t := TrainLen(|s|, n);
      var train := s[..t];
      var test := s[t..];
      if n == 1 then
        Some(Occ(test, MostCommon(Tally(train))) as real / |test| as real)
      else
        var ws := Windows(test, n);
        if |ws| == 0 then None
        else Some(Hits(ws, train, TableOf(Windows(train, n))) as real / |ws| as real)
  }

  /** `ngram_predictor_accuracy(seq, M, n)`; the alphabet size M is not used by it. */
  method NgramPredictorAccuracy(s: seq<int>, n: nat) returns (acc: Option<real>)
    ensures acc == NgramAccuracy(s, n)
  {
    var len := |s|;
    if len < 4 {
      return None;
    }
    var trainN := len * 4 / 5;
    if trainN < n + 1 {
      trainN := Min(len - 1, Max(n + 1, len * 7 / 10));
    }
    assert trainN == TrainLen(len, n);
    var train := s[..trainN];
    var test := s[trainN..];
    if n == 1 {
      var top := MostCommon(Tally(train));
      var correct := CountEqual(test, top);
      return Some(correct as real / |test| as real);
    }
    var trans := BuildTable(train, n);
    var correct, total := ScoreTest(test, n, train, trans);
    if total > 0 {
      acc := Some(correct as real / total as real);
    } else {
      acc := None;
    }
  }

  /** `sum(1 for x in test if x == top)`. */
  method CountEqual(t: seq<int>, top: int) returns (correct: nat)
    ensures correct == Occ(t, top)
  {
    correct := 0;
    var i := 0;
    while i < |t|
      invariant 0 <= i <= |t|
      invariant correct == Occ(t[..i], top)
    {
      assert t[..i + 1] == t[..i] + [t[i]];
      OccSnoc(t[..i], t[i], top);
      if t[i] == top {
        correct := correct + 1;
      }
      i := i + 1;
    }
    assert t[..|t|] == t;
  }

  /** The training loop: one counter per context, incremented for each follower. */
  method BuildTable(train: seq<int>, n: nat) returns (trans: Table)
    ensures trans == TableOf(Windows(train, n))
  {
    trans := map[];
    var i := n;
    ghost var done := Win(train, n, Min(i, |train|));
    assert done == [];
    while i < |train|
      invariant n <= i <= Max(n, |train|)
      invariant done == Win(train, n, Min(i, |train|))
      invariant trans == TableOf(done)
    {
      var ctx := train[i - n..i];
      var nxt := train[i];
      var c: Counter := if ctx in trans then trans[ctx] else [];
      TableStep(train, n, i, trans, ctx, c);
      trans := trans[ctx := Add(c, nxt)];
      done := Win(train, n, i + 1);
      i := i + 1;
    }
  }

  /** The test loop: one prediction per window, counting the correct ones. */
  method ScoreTest(test: seq<int>, n: nat, train: seq<int>, trans: Table) returns (correct: nat, total: nat)
    requires |train| > 0
    requires forall c :: c in trans ==> |trans[c]| > 0
    ensures total == |Windows(test, n)|
    ensures correct == Hits(Windows(test, n), train, trans)
  {
    correct, total := 0, 0;
    var i := n;
    while i < |test|
      invariant n <= i <= Max(n, |test|)
      invariant total == i - n
      invariant correct == Hits(Win(test, n, Min(i, |test|)), train, trans)
    {
      var ctx := test[i - n..i];
      var nxt := test[i];
      var top: int;
      if ctx !in trans {
        top := MostCommon(Tally(train));
      } else {
        top := MostCommon(trans[ctx]);
      }
      assert top == Predict(train, trans, ctx);
      HitsStep(test, n, i, train, trans);
      correct := correct + (if top == nxt then 1 else 0);
      total := total + 1;
      i := i + 1;
    }
  }

  lemma TableStep(t: seq<int>, n: nat, k: nat, tb: Table, ctx: seq<int>, c: Counter)
    requires n <= k < |t|
    requires tb == TableOf(Win(t, n, k)) && ctx == t[k - n..k]
    requires c == if ctx in tb then tb[ctx] else []
    ensures TableOf(Win(t, n, k + 1)) == tb[ctx := Add(c, t[k])]
  {
    WinStep(t, n, k);
    assert Win(t, n, k + 1)[..k - n] == Win(t, n, k);
  }

  lemma HitsStep(t: seq<int>, n: nat, k: nat, train: seq<int>, tb: Table)
    requires n <= k < |t|
    requires |train| > 0
    requires forall c :: c in tb ==> |tb[c]| > 0
    ensures Hits(Win(t, n, k + 1), train, tb) ==
      Hits(Win(t, n, k), train, tb) + (if Predict(train, tb, t[k - n..k]) == t[k] then 1 else 0)
  {
    WinStep(t, n, k);
    assert Win(t, n, k + 1)[..k - n] == Win(t, n, k);
  }

  /** For N >= 4 the split leaves both parts non-empty and they make up the sequence. */
  lemma NgramSplit(s: seq<int>, n: nat)
    requires |s| >= 4
    ensures s[..TrainLen(|s|, n)] + s[TrainLen(|s|, n)..] == s
    ensures |s[..TrainLen(|s|, n)]| >= 1 && |s[TrainLen(|s|, n)..]| >= 1
  {
  }

  /** Undefined for N < 4; for n != 1 the number of scored windows is max(0, |test| - n),
      the correct ones are at most that many, and every defined accuracy lies in [0, 1]. */
  lemma NgramAccuracyFacts(s: seq<int>, n: nat)
    ensures |s| < 4 ==> NgramAccuracy(s, n).None?
    ensures |s| >= 4 && n != 1 ==>
      var test := s[TrainLen(|s|, n)..];
      |Windows(test, n)| == Max(|test| - n, 0) &&
      (NgramAccuracy(s, n).None? <==> |test| <= n)
    ensures NgramAccuracy(s, n).Some? ==> 0.0 <= NgramAccuracy(s, n).value <= 1.0
  {
    if |s| >= 4 {
      var t := TrainLen(|s|, n);
      var train := s[..t];
      var test := s[t..];
      if n == 1 {
        QuotientUnitInterval(Occ(test, MostCommon(Tally(train))) as real, |test| as real);
      } else {
        var ws := Windows(test, n);
        if |ws| > 0 {
          QuotientUnitInterval(Hits(ws, train, TableOf(Windows(train, n))) as real, |ws| as real);
        }
      }
    }
  }

  /** The unigram model scores the share of test symbols equal to the training mode:
      the most frequent training symbol, ties going to the one seen first. */
  lemma UnigramPredictsMode(s: seq<int>)
    requires |s| >= 4
    ensures var train := s[..TrainLen(|s|, 1)];
      var test := s[TrainLen(|s|, 1)..];
      var top := MostCommon(Tally(train));
      IsMode(train, top) && NgramAccuracy(s, 1) == Some(Occ(test, top) as real / |test| as real)
  {
    MostCommonIsMode(s[..TrainLen(|s|, 1)]);
  }

  /** A seen context predicts the mode of its followers; an unseen one the training mode. */
  lemma PredictIsMode(train: seq<int>, n: nat, ctx: seq<int>)
    requires |train| > 0
    ensures var ws := Windows(train, n);
      var p := Predict(train, TableOf(ws), ctx);
      (|Followers(ws, ctx)| > 0 ==> IsMode(Followers(ws, ctx), p)) &&
      (|Followers(ws, ctx)| == 0 ==> IsMode(train, p))
  {
    var ws := Windows(train, n);
    TableIsFollowerTally(ws, ctx);
    if |Followers(ws, ctx)| > 0 {
      MostCommonIsMode(Followers(ws, ctx));
    } else {
      MostCommonIsMode(train);
    }
  }
}
