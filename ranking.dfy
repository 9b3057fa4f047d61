/**
 * The comparison table: per-report rows, their differences from the baseline
 * row, and the ranking by (score, |Schur z|, chi-square, max |autocorrelation|)
 * with undefined values ranked as +inf.
 */
module Ranking {
  import opened Basics
  import opened Scoring

  /** `delta(val, base)`: undefined when either side is; otherwise `val - base`. */
  function Delta(val: Option<real>, base: Option<real>): (d: Option<real>)
    ensures d.Some? <==> val.Some? && base.Some?
    ensures d.Some? ==> base.value + d.value == val.value
  {
    if base.None? || val.None? then None else Some(val.value - base.value)
  }

  /** The values `main` keeps per report that the ranking reads. */
  datatype Row = Row(name: string, score: real, chi2: Option<real>, schZ: Option<real>, acMax: Option<real>)

  function RowOf(name: string, r: Report, baseline: Option<Report>): Row
  {
    Row(name, ScoreOf(r, baseline), r.chiSquare, SafeGetSchur(r).z, SafeGetAutocorrMax(r))
  }

  /** `enriched`: one row per report, in the order the reports were given. */
  function Enriched(reports: seq<(string, Report)>, baseline: Option<Report>): (rows: seq<Row>)
    ensures |rows| == |reports|
  {
    if |reports| == 0 then []
    else
      var last := reports[|reports| - 1];
      Enriched(reports[..|reports| - 1], baseline) + [RowOf(last.0, last.1, baseline)]
  }

  lemma {:induction false} EnrichedAt(reports: seq<(string, Report)>, baseline: Option<Report>, k: int)
    requires 0 <= k < |reports|
    ensures Enriched(reports, baseline)[k] == RowOf(reports[k].0, reports[k].1, baseline)
  {
    if k < |reports| - 1 {
      EnrichedAt(reports[..|reports| - 1], baseline, k);
    }
  }

  /** A float key that is never NaN: a finite value or +inf. */
  datatype ExtReal = Fin(v: real) | Inf

  function OrInf(x: Option<real>): ExtReal
  {
    if x.Some? then Fin(x.value) else Inf
  }

  predicate ExtLt(a: ExtReal, b: ExtReal)
  {
    (a.Fin? && b.Inf?) || (a.Fin? && b.Fin? && a.v < b.v)
  }

  type Key = (real, ExtReal, ExtReal, ExtReal)

  /** `sort_key(row)`. */
  function SortKey(row: Row): Key
  {
    (row.score, OrInf(AbsOpt(row.schZ)), OrInf(row.chi2), OrInf(row.acMax))
  }

  /** Python's tuple comparison `a < b`. */
  predicate KeyLt(a: Key, b: Key)
  {
    a.0 < b.0 ||
    (a.0 == b.0 && (ExtLt(a.1, b.1) ||
    (a.1 == b.1 && (ExtLt(a.2, b.2) ||
    (a.2 == b.2 && ExtLt(a.3, b.3))))))
  }

  lemma ExtLtTotal(a: ExtReal, b: ExtReal)
    ensures ExtLt(a, b) || ExtLt(b, a) || a == b
  {
  }

  lemma KeyLtTrans(a: Key, b: Key, c: Key)
    requires KeyLt(a, b) && KeyLt(b, c)
    ensures KeyLt(a, c)
  {
  }

  lemma KeyLtTotal(a: Key, b: Key)
    ensures KeyLt(a, b) || KeyLt(b, a) || a == b
  {
    ExtLtTotal(a.1, b.1);
    ExtLtTotal(a.2, b.2);
    ExtLtTotal(a.3, b.3);
  }

  predicate RowLt(x: Row, y: Row) { KeyLt(SortKey(x), SortKey(y)) }

  /** Ascending by key: no row is followed by one with a smaller key. */
  predicate SortedRows(s: seq<Row>)
  {
    forall i, j :: 0 <= i < j < |s| ==> !RowLt(s[j], s[i])
  }

  /** Insert `x` before the first row whose key is larger, i.e. after every row with an equal key. */
  function InsertRow(x: Row, s: seq<Row>): (r: seq<Row>)
    requires SortedRows(s)
    ensures forall y :: y in r <==> y == x || y in s
    ensures multiset(r) == multiset(s) + multiset{x}
    ensures SortedRows(r)
  {
    if |s| == 0 then [x]
    else if RowLt(x, s[0]) then
      assert forall y :: y in s ==> !RowLt(y, x) by {
        forall y | y in s ensures !RowLt(y, x) {
          if RowLt(y, x) {
            KeyLtTrans(SortKey(y), SortKey(x), SortKey(s[0]));
          }
        }
      }
      ConsSorted(x, s);
      [x] + s
    else
      var t := InsertRow(x, s[1..]);
      assert s == [s[0]] + s[1..];
      assert forall y :: y in t ==> !RowLt(y, s[0]);
      ConsSorted(s[0], t);
      [s[0]] + t
  }

  lemma ConsSorted(h: Row, t: seq<Row>)
    requires SortedRows(t)
    requires forall y :: y in t ==> !RowLt(y, h)
    ensures SortedRows([h] + t)
  {
    var s := [h] + t;
    forall i, j | 0 <= i < j < |s| ensures !RowLt(s[j], s[i]) {
      assert s[j] == t[j - 1];
      if i > 0 {
        assert s[i] == t[i - 1];
      }
    }
  }

  /** `sorted(enriched, key=sort_key)`, as a stable insertion sort. */
  function Ranked(rows: seq<Row>): (r: seq<Row>)
    ensures SortedRows(r)
    ensures multiset(r) == multiset(rows)
  {
    if |rows| == 0 then []
    else
      assert rows == rows[..|rows| - 1] + [rows[|rows| - 1]];
      InsertRow(rows[|rows| - 1], Ranked(rows[..|rows| - 1]))
  }

  /** `enriched_sorted`: the rows of the reports, ranked. */
  function EnrichedSorted(reports: seq<(string, Report)>, baseline: Option<Report>): seq<Row>
  {
    Ranked(Enriched(reports, baseline))
  }

  /** The ranked table holds exactly the reports' rows. Each row carries its report's
      score, which is never negative, and the scores ascend down the table. */
  lemma EnrichedSortedFacts(reports: seq<(string, Report)>, baseline: Option<Report>)
    ensures |EnrichedSorted(reports, baseline)| == |reports|
    ensures forall k :: 0 <= k < |reports| ==> RowOf(reports[k].0, reports[k].1, baseline) in EnrichedSorted(reports, baseline)
    ensures forall row :: row in EnrichedSorted(reports, baseline) ==>
      (exists k :: 0 <= k < |reports| && row == RowOf(reports[k].0, reports[k].1, baseline) &&
                   row.score == ScoreOf(reports[k].1, baseline) && row.score >= 0.0)
    ensures forall i, j :: 0 <= i < j < |reports| ==>
      EnrichedSorted(reports, baseline)[i].score <= EnrichedSorted(reports, baseline)[j].score
  {
    var rows := Enriched(reports, baseline);
    var sorted := Ranked(rows);
    assert multiset(sorted) == multiset(rows);
    assert |sorted| == |multiset(sorted)| == |multiset(rows)| == |rows|;
    forall k | 0 <= k < |reports|
      ensures RowOf(reports[k].0, reports[k].1, baseline) in sorted
    {
      EnrichedAt(reports, baseline, k);
      assert rows[k] in multiset(rows);
    }
    forall row | row in sorted
      ensures (exists k :: 0 <= k < |reports| && row == RowOf(reports[k].0, reports[k].1, baseline) &&
                            row.score == ScoreOf(reports[k].1, baseline) && row.score >= 0.0)
    {
      assert row in multiset(rows);
      var k :| 0 <= k < |rows| && rows[k] == row;
      EnrichedAt(reports, baseline, k);
      ScoreNonNegative(reports[k].1, baseline);
    }
    forall i, j | 0 <= i < j < |reports|
      ensures sorted[i].score <= sorted[j].score
    {
      RankingOrder(rows, i, j);
    }
  }

  /** In the ranking, a lower score always comes first, and among equal scores a row whose
      Schur z is undefined comes after every row whose Schur z is defined. */
  lemma RankingOrder(rows: seq<Row>, i: int, j: int)
    requires 0 <= i < j < |Ranked(rows)|
    ensures Ranked(rows)[i].score <= Ranked(rows)[j].score
    ensures Ranked(rows)[i].score == Ranked(rows)[j].score && Ranked(rows)[i].schZ.None? ==> Ranked(rows)[j].schZ.None?
  {
  }
}
