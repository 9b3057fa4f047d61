# digit-probe, modelled in Dafny

digit-probe is a set of Python tools that test a stream of symbols (the digits of
pi or e, the output of a random generator, lottery draws) for structure. They count
symbol frequencies, run a parity runs test, summarise the gaps between repeats and
compute autocorrelations. They also train an n-gram predictor and run an additive
"Schur" probe. A second tool compares the JSON reports of several streams: it scores
each against a baseline, gives a green/yellow/red severity and ranks the reports.
Small helpers build the input data sets. One extracts the digits of a downloaded page
and trims the leading integer of a constant. One concatenates the decimal digits of
the primes. One is a deliberately broken mod-10 linear congruential generator.

This project models those cores as Dafny code and proves what they promise:

- The probes update dictionaries and accumulators in loops. Here they are methods with
  `while` loops over immutable maps and sequences. Each method is proved equal to a
  reference function, and the properties are proved about that function.
- Python floats are exact `real`s.
- Every NaN, +inf or None that a probe can produce, and every NaN or missing value the
  scorer reads, is `None` of an `Option<real>`. "## Left out" says where JSON null and
  ±inf are not covered.

Modules:

- `Basics`: `Option`, the Python prefix slice `xs[:k]`, occurrence counts and the first
  occurrence index.
- `Distribution`: `counts_and_chi_square`, `zscores_per_symbol` and `top_k_by_freq`.
- `Runs`: the counting part of `runs_test_even_odd`.
- `Gaps`: `gaps_summary`.
- `Autocorr`: `autocorr_lags`.
- `Counters`: the part of `collections.Counter` the n-gram predictor uses. A Counter is
  an insertion-ordered list of (key, count). `most_common(1)` is its first entry with
  the largest count.
- `NGram`: `ngram_predictor_accuracy`.
- `Schur`: the counting part of `schur_probe`.
- `ModArith`: facts about `%`.
- `IntegersMode`: the input reduction of `analyze_integers_mode`.
- `Scoring`: the report extractors, `add_term` and `severity_and_score` from
  `compare_reports.py`.
- `Ranking`: `delta`, `sort_key` and the sorted comparison table.
- `Datasets`: `extract_digits`, `trim_leading_integer` and the digit selection of
  `make_one`.
- `Primes`: `is_prime` and `gen_primes_digits`.
- `RngZoo`: `gen_lcg_mod10`.

Where the code and its documented intent differ, the model follows the code:

- `autocorr_lags` checks for a zero denominator before it checks the lag. So a constant
  sequence gives 0.0 for every lag, including lags outside 1..N-1, which are otherwise
  NaN. `Autocorr.AutocorrAt` keeps this order, and `Autocorr.AutocorrLagRange` states
  that such a lag is 0.0 exactly when the denominator is zero and NaN otherwise.
- The runs test's `R` is at least 2 whenever it is defined, not just at least 1. A
  defined result has both parity classes present, so the parity changes at least once.

## Model

| member | source | states |
|---|---|---|
| Distribution.CountsAndChiSquare | src/digit_probe.py:69-83 | `cnt` has exactly the keys 0..M-1, and each maps to that symbol's number of occurrences. `expected` is N/M and chi-square is the reference sum; both are undefined when N = 0 or M = 0 |
| Distribution.CountBins | src/digit_probe.py:71-74 | the counting loop leaves every bin 0..M-1 holding that symbol's occurrence count; other values are skipped |
| Distribution.ChiLoop | src/digit_probe.py:79-82 | the accumulation loop computes the reference chi-square sum over the bins 0..M-1 |
| Distribution.CountsPartitionInput | src/digit_probe.py:71-74 | the bin counts add up to the number of inputs in 0..M-1, which is N when every input is in range |
| Distribution.ChiSumNonNegative | src/digit_probe.py:79-82 | the chi-square sum is never negative |
| Distribution.ChiSumZero | src/digit_probe.py:79-82 | the chi-square sum is 0 when every bin count equals the expected count |
| Distribution.ChiSquareFacts | src/digit_probe.py:75-83 | chi-square is defined iff N > 0 and M != 0; a defined value is ≥ 0, and it is 0 when every bin holds exactly N/M |
| Distribution.ZScores | src/digit_probe.py:86-96 | one z-score per counted symbol; all are 0.0 when expected ≤ 0 |
| Distribution.ZScoreSign | src/digit_probe.py:93-95 | for expected > 0, a z-score is positive, negative or zero exactly when the count is above, below or equal to expected |
| Distribution.Items | src/digit_probe.py:130 | `counts.items()` for the keys 0..M-1 in order, each paired with its count |
| Distribution.InsertByFreq | src/digit_probe.py:130 | inserting into a list sorted by (count descending, symbol ascending) adds exactly that element |
| Distribution.SortByFreq | src/digit_probe.py:130 | the result is sorted by (count descending, symbol ascending) and is a permutation of the items |
| Distribution.TopKByFreq | src/digit_probe.py:129-130 | `sorted(counts.items(), key=(-count, symbol))[:k]`; no contract of its own, its meaning is stated by `Distribution.TopKFacts` |
| Distribution.TopKFacts | src/digit_probe.py:129-130 | the top k are sorted, number min(k, len) and come from the items. Every item left out ranks after every item returned |
| Distribution.TopKOfCounts | src/digit_probe.py:129-130 | for the counts of an M-symbol alphabet, `top_k_by_freq` returns min(k, M) pairs |
| Runs.Parity | src/digit_probe.py:105 | `x & 1` is 0 or 1, and 0 exactly for even x, negative x included |
| Runs.EvenCount | src/digit_probe.py:106 | the number of even elements is at most N |
| Runs.ParityChanges | src/digit_probe.py:111-114 | a non-empty sequence has fewer than N adjacent parity changes |
| Runs.RunsTestEvenOdd | src/digit_probe.py:99-117 | the result is the reference runs count: n0, n1, R, mu and the variance, or undefined |
| Runs.CountEven | src/digit_probe.py:105-106 | the loop counts the even elements |
| Runs.CountRuns | src/digit_probe.py:111-114 | the loop computes R = 1 + the number of adjacent parity changes |
| Runs.RunsFacts | src/digit_probe.py:101-117 | defined iff N ≥ 2 and both parities occur. Then n0 + n1 = N, 2 ≤ R ≤ N and the variance is ≥ 0 |
| Runs.VarianceNumeratorNonNegative | src/digit_probe.py:117 | with both classes non-empty, the variance numerator is ≥ 0 and its denominator is > 0 |
| Gaps.LastIdx | src/digit_probe.py:143 | `last[x]` is the position of x's last occurrence, absent iff x does not occur |
| Gaps.GapsSummary | src/digit_probe.py:133-149 | one entry per symbol 0..M-1, equal to the reference: max(occ − 1, 0) gaps with mean (last − first) / gaps, or +inf when there are none |
| Gaps.ScanSymbol | src/digit_probe.py:138-143 | one step of the scan keeps last position, gap count and gap sum in step with the prefix read |
| Gaps.ScanStep | src/digit_probe.py:139-143 | the source's updates of `last`, `gaps_count` and `gaps_sum` carry the scan state from one prefix to the next |
| Gaps.GapTable | src/digit_probe.py:144-149 | the closing loop turns counts and sums into the reference (count, mean) per symbol |
| Gaps.SnocIdx | src/digit_probe.py:140-143 | appending x moves x's last occurrence to the end and adds the new gap to the telescoped span |
| Gaps.SpanAtLeastGaps | src/digit_probe.py:138-143 | every gap is at least 1 long, so the span is at least the gap count, and it is below N |
| Gaps.GapSpecFacts | src/digit_probe.py:145-148 | the gap count is max(occ − 1, 0); the mean is +inf iff the symbol occurs at most once, and otherwise lies in [1, N − 1] |
| Autocorr.AutocorrAt | src/digit_probe.py:154-170 | the value of one lag: NaN for N < 2, then 0.0 for a zero denominator, then NaN for L ≤ 0 or L ≥ N, else the lagged product sum over the squared deviations; no contract of its own, stated by the `Autocorr` lemmas below |
| Autocorr.AutocorrLags | src/digit_probe.py:152-171 | one entry per requested lag, equal to the reference autocorrelation at that lag |
| Autocorr.FillLags | src/digit_probe.py:155-161 | every requested lag gets the same value: NaN for N < 2, 0.0 for a zero denominator |
| Autocorr.SumLoop | src/digit_probe.py:157 | the loop computes the sum used for the mean |
| Autocorr.SqDevLoop | src/digit_probe.py:159 | the loop computes the sum of squared deviations from the mean |
| Autocorr.LagNumLoop | src/digit_probe.py:167-169 | the loop computes the lagged product sum over i < N − L |
| Autocorr.AutocorrShort | src/digit_probe.py:155-156 | every lag is undefined when N < 2 |
| Autocorr.AutocorrConstant | src/digit_probe.py:159-161 | a constant sequence of length ≥ 2 has autocorrelation 0.0 at every lag |
| Autocorr.AutocorrLagRange | src/digit_probe.py:160-165 | a lag L ≤ 0 or L ≥ N gives NaN or 0.0; for N ≥ 2 it is NaN exactly when the denominator is non-zero and 0.0 exactly when it is zero |
| Autocorr.AutocorrShiftInvariant | src/digit_probe.py:157-170 | adding a constant to every element leaves every lag's autocorrelation unchanged |
| Counters.Add | src/digit_probe.py:206 | `c[nxt] += 1` leaves a non-empty counter |
| Counters.AddFacts | src/digit_probe.py:202-206 | keys stay distinct. An existing key's count goes up by one. A new key is appended last with count 1 |
| Counters.Tally | src/digit_probe.py:190 | `collections.Counter(train)`: the elements added one after the other; no contract beyond non-emptiness, its meaning is stated by `Counters.TallyCorrect`. The same Counter is built again at line 218 |
| Counters.TallySnoc | src/digit_probe.py:190 | counting one more element is one `Add` after counting the rest |
| Counters.TallyCorrect | src/digit_probe.py:190 | `Counter(xs)` has distinct keys, exactly the elements of xs, each with its occurrence count, in order of first occurrence |
| Counters.BestUpTo | src/digit_probe.py:193 | the index chosen has a maximal count, and every earlier entry has a strictly smaller count |
| Counters.MostCommon | src/digit_probe.py:193 | `most_common(1)[0][0]`: the key of the first entry with the largest count; no contract of its own, its meaning is stated by `Counters.MostCommonIsMode`. Lines 218 and 220 pick the same way |
| Counters.MostCommonIsMode | src/digit_probe.py:193 | `most_common(1)` is the unique most frequent element; ties go to the one that occurs first |
| Counters.BestIsMaximal | src/digit_probe.py:193 | the chosen key occurs at least as often as any value |
| Counters.BestIsFirst | src/digit_probe.py:193 | among equally frequent values the chosen key occurs first |
| Counters.ModeUnique | src/digit_probe.py:193 | that tie-breaking picks a single element |
| NGram.TrainLen | src/digit_probe.py:182-184 | for N ≥ 4 the training part has between 1 and N − 1 elements |
| NGram.TrainLenFallback | src/digit_probe.py:182-184 | trainN is int(0.8·N), or min(N − 1, n + 1) when that is below n + 1 |
| NGram.NgramSplit | src/digit_probe.py:185-186 | train ++ test = seq, and both are non-empty |
| NGram.Win | src/digit_probe.py:199-201 | there are max(k − n, 0) (context, next) windows |
| NGram.WinAt | src/digit_probe.py:199-201 | window j is (t[j..j+n], t[j+n]) |
| NGram.WinStep | src/digit_probe.py:199-201 | one more position adds the window ending there |
| NGram.TableOf | src/digit_probe.py:198-206 | every context in the table has a non-empty counter |
| NGram.TableIsFollowerTally | src/digit_probe.py:198-206 | a context is in the table iff it has followers, and its counter is the Counter of those followers |
| NGram.Predict | src/digit_probe.py:213-220 | the most common follower of a seen context, else the most common training symbol; no contract of its own, stated by `NGram.PredictIsMode` |
| NGram.Hits | src/digit_probe.py:221 | there are no more hits than windows |
| NGram.NgramPredictorAccuracy | src/digit_probe.py:177-223 | the result equals the reference accuracy |
| NGram.CountEqual | src/digit_probe.py:194 | the loop counts the test elements equal to the prediction |
| NGram.BuildTable | src/digit_probe.py:198-206 | the loop builds the table of the training windows |
| NGram.ScoreTest | src/digit_probe.py:208-222 | total = max(0, len(test) − n) and correct is the number of windows predicted right |
| NGram.TableStep | src/digit_probe.py:202-206 | one training window adds its next symbol to its context's counter, created empty when missing |
| NGram.HitsStep | src/digit_probe.py:210-222 | one test window adds one hit exactly when the prediction equals the next symbol |
| NGram.NgramAccuracyFacts | src/digit_probe.py:179-223 | undefined for N < 4. For n ≠ 1, total = max(len(test) − n, 0) and the result is undefined iff len(test) ≤ n. A defined accuracy is in [0, 1] |
| NGram.UnigramPredictsMode | src/digit_probe.py:188-195 | n = 1 predicts the most frequent training symbol; the accuracy is its share of the test part |
| NGram.PredictIsMode | src/digit_probe.py:213-220 | a seen context predicts its most frequent follower; an unseen one predicts the most frequent training symbol |
| Schur.RowCount | src/digit_probe.py:263-268 | a row has at most j − i − 1 matches |
| Schur.RowFirst | src/digit_probe.py:263-268 | the first matching j of a row, absent iff the row has no match |
| Schur.FirstRowIdx | src/digit_probe.py:261-268 | the first row that has a match, with no match in any earlier row |
| Schur.SchurProbe | src/digit_probe.py:229-269 | the result (triples, count, expected, fraction, first index) equals the reference |
| Schur.ScanRow | src/digit_probe.py:263-268 | the inner loop adds the row's matches and records the row's first j only if no index is stored yet |
| Schur.PairsBeforeClosed | src/digit_probe.py:251 | the pairs in the first i rows number i(2R − 1 − i)/2 |
| Schur.TriplesArePairs | src/digit_probe.py:251 | R(R − 1)/2 is the number of pairs i < j < R |
| Schur.CountRowsBound | src/digit_probe.py:261-268 | the rows scanned hold no more matches than pairs |
| Schur.FirstRowsNoneIff | src/digit_probe.py:261-268 | no index is stored iff no match was counted |
| Schur.FirstRowsOfFirstRow | src/digit_probe.py:261-268 | the stored index is the first j of the first row with a match |
| Schur.SchurDegenerate | src/digit_probe.py:240-249 | R < 3 or M ≤ 0 gives zeros and no index |
| Schur.SchurCountBound | src/digit_probe.py:251-271 | otherwise triples = R(R − 1)/2, 0 ≤ count ≤ triples and 0 ≤ fraction ≤ 1 |
| Schur.SchurFirstNoneIff | src/digit_probe.py:257-268 | `first_violation_index` is None iff count = 0 |
| Schur.SchurFirstViolation | src/digit_probe.py:261-268 | a stored index is j of the first match in i-outer, j-inner order: some row i matches at j, no earlier j in that row matches, and no earlier row matches |
| Schur.SchurVariance | src/digit_probe.py:251-254 | `expected * (1 - p)` with p = 1/M; no contract of its own, stated by `Schur.SchurVarianceZeroIff` |
| Schur.SchurVarianceZeroIff | src/digit_probe.py:252-255 | the binomial variance is ≥ 0, and 0 iff M = 1 |
| Schur.GradientMatches | src/digit_probe.py:265 | on `seq[i] = i mod M` with M dividing R, every pair matches |
| Schur.GradientRow | src/digit_probe.py:263-268 | on that input a row from i has j − i − 1 matches |
| Schur.GradientRows | src/digit_probe.py:261-268 | on that input every pair scanned matches, and the first match is at j = 1 |
| Schur.GradientAllMatch | src/digit_probe.py:261-271 | on that input count = triples, fraction = 1 and the first violation index is 1 |
| IntegersMode.ProbeInput | src/digit_probe.py:411-420 | defined iff M > 0. It keeps the first Ncap values when Ncap > 0 and reduces each by `% M` into 0..M-1 |
| IntegersMode.ReducedCountsCoverInput | src/digit_probe.py:420-425 | after reduction every value lands in a bin, so the counts add up to N |
| IntegersMode.ReductionKeepsAlphabet | src/digit_probe.py:420 | values already in 0..M-1 pass through unchanged |
| Scoring.SafeGetRuns | src/compare_reports.py:33-42 | Z is read as given. p is `p_two_tailed` unless it is missing or null, then the first truthy of `p` and `p_value`, then NaN |
| Scoring.PyMax | src/compare_reports.py:57 | Python `max` over floats that may be NaN; no contract of its own, stated by `Scoring.PyMaxFacts` |
| Scoring.PyMaxFacts | src/compare_reports.py:57 | Python `max`: a leading NaN makes it NaN. Otherwise it is one of the values and at least every defined value |
| Scoring.AbsAll | src/compare_reports.py:57 | the absolute value of each autocorrelation, NaN kept |
| Scoring.SafeGetAutocorrMax | src/compare_reports.py:45-59 | the stored `autocorr_max_abs`, else the max of the absolute autocorrelations, undefined for a missing or empty block; no contract of its own, stated by `Scoring.ExtractorsAreMaxima` |
| Scoring.SafeGetNgramBest | src/compare_reports.py:62-76 | the stored `ngram_best`, else the max of the accuracies, undefined for a missing or empty block; no contract of its own, stated by `Scoring.ExtractorsAreMaxima` |
| Scoring.SafeGetSchur | src/compare_reports.py:79-89 | the block as stored, or all six fields NaN (no index) when the block is missing |
| Scoring.ExtractorsAreMaxima | src/compare_reports.py:45-76 | a stored `autocorr_max_abs` or `ngram_best` is returned as is. Otherwise the extracted value is one of the (absolute) values and at least every defined one, and it is undefined for a missing or empty block |
| Scoring.Term | src/compare_reports.py:138-147 | the amount `add_term` adds, `abs((val − base) / max(scale, 1e-9))`; no contract of its own, stated by `Scoring.TermFacts` |
| Scoring.TermFacts | src/compare_reports.py:136-149 | a term exists iff `val` and some reference are defined. It is ≥ 0. The baseline value takes precedence and `hard_ref` is used only when the baseline is NaN. It is 0 iff `val` equals the baseline |
| Scoring.AddTerm | src/compare_reports.py:136-149 | adds nothing when the term is undefined; otherwise adds the term to `score` and 1 to `weight_sum` |
| Scoring.Metrics | src/compare_reports.py:114-120 | the six metrics a report contributes |
| Scoring.BaselineMetrics | src/compare_reports.py:122-131 | the baseline's six metrics, all NaN without a baseline |
| Scoring.Terms | src/compare_reports.py:152-157 | six terms, one per `add_term` call |
| Scoring.TermsUnfold | src/compare_reports.py:152-157 | the six terms use the source's scales and hard references |
| Scoring.AccumulateTerms | src/compare_reports.py:133-157 | after the six calls, `score` is the sum of the defined terms and `weight_sum` their number |
| Scoring.TrackedAdd | src/compare_reports.py:152-157 | each call moves the running sums from the first k terms to the first k + 1 |
| Scoring.SeverityAndScore | src/compare_reports.py:105-172 | the score is the mean of the defined terms (0.0 when there are none), and the severity is its threshold class |
| Scoring.MeanMonotone | src/compare_reports.py:152-162 | raising defined terms, with the other terms fixed and the same terms defined, never lowers the AnomalyScore |
| Scoring.TermsNonNegative | src/compare_reports.py:147 | every defined term is ≥ 0 |
| Scoring.ScoreNonNegative | src/compare_reports.py:159-162 | the score is ≥ 0, and 0.0 when no term was added |
| Scoring.SeverityOf | src/compare_reports.py:164-170 | green below 0.8, yellow below 1.8, red otherwise; no contract of its own, `Scoring.SeverityMonotone` states its monotonicity |
| Scoring.SeverityMonotone | src/compare_reports.py:164-170 | a higher score never gets a milder severity |
| Scoring.SelfBaselineIsGreen | src/compare_reports.py:105-172 | a report compared with itself scores 0.0 and is green |
| Ranking.Delta | src/compare_reports.py:272-275 | defined iff both sides are defined, and then base + delta = val |
| Ranking.RowOf | src/compare_reports.py:197-221 | the row `main` builds per report: its name, score, chi-square, Schur z and max |autocorrelation|; no contract of its own, stated by `Ranking.EnrichedSortedFacts` |
| Ranking.SortKey | src/compare_reports.py:245-251 | (score, abs(sch_z), chi2, max abs(ac)) with NaN mapped to +inf; no contract of its own, stated through `Ranking.Ranked` |
| Ranking.KeyLt | src/compare_reports.py:245-253 | Python's lexicographic tuple `<` on those keys; no contract of its own, `Ranking.KeyLtTrans` and `Ranking.KeyLtTotal` state that it is a strict total order |
| Ranking.ExtLtTotal | src/compare_reports.py:248-250 | a key component with undefined mapped to +inf is totally ordered |
| Ranking.KeyLtTrans | src/compare_reports.py:245-251 | the tuple order of `sort_key` is transitive |
| Ranking.KeyLtTotal | src/compare_reports.py:245-251 | of two keys, one is smaller or they are equal |
| Ranking.InsertRow | src/compare_reports.py:253 | inserting into a sorted table adds exactly the new row |
| Ranking.ConsSorted | src/compare_reports.py:253 | a row no larger than any row of a sorted table can be put first |
| Ranking.Ranked | src/compare_reports.py:245-253 | the table is sorted ascending by (score, abs(sch_z), chi2, max abs(ac)), undefined as +inf, and is a permutation of the rows |
| Ranking.RankingOrder | src/compare_reports.py:245-253 | a lower score comes first; at equal score a row without a Schur z comes after every row with one |
| Ranking.Enriched | src/compare_reports.py:196-222 | one row per report, in input order; it is stated by `Ranking.EnrichedSortedFacts` |
| Ranking.EnrichedSortedFacts | src/compare_reports.py:196-253 | `sorted(enriched, key=sort_key)` holds exactly the reports' rows. Each row carries its own report's score, which is ≥ 0, and the scores ascend down the table |
| Datasets.ExtractDigits | src/make_datasets.py:69-70 | the output is no longer than the input and holds only digits |
| Datasets.ExtractDigitsFacts | src/make_datasets.py:69-70 | the output is a subsequence of the input, and holds each digit as often as the input and nothing else |
| Datasets.ExtractDigitsInOrder | src/make_datasets.py:69-70 | the digits keep their order: the output is a subsequence of the input |
| Datasets.ExtractDigitsCount | src/make_datasets.py:69-70 | each digit occurs as often as in the input; any other character does not occur |
| Datasets.ExtractDigitsIdempotent | src/make_datasets.py:69-70 | extracting twice is extracting once |
| Datasets.AllDigitsFixed | src/make_datasets.py:69-70 | a string of digits is its own extraction |
| Datasets.TrimLeadingInteger | src/make_datasets.py:73-80 | the result is a suffix of the input at most one shorter, and the input itself with `keep_integer` |
| Datasets.TrimLeadingIntegerFacts | src/make_datasets.py:73-80 | exactly the first character is dropped iff `keep_integer` is off and the input starts "3" for pi or "2" for e; else the input is returned unchanged |
| Datasets.FromMirror | src/make_datasets.py:114-125 | one mirror's contribution: nothing for a failed download, a page without digits or fewer than n usable digits, else `cleaned[:n]`; no contract of its own, stated by `Datasets.FirstMirrorFacts` |
| Datasets.FirstMirror | src/make_datasets.py:112-125 | the first mirror in order that contributes; no contract of its own, stated by `Datasets.MirrorStep` and `Datasets.FirstMirrorFacts` |
| Datasets.MakeOneDigits | src/make_datasets.py:106-135 | the first mirror's data, else the offline fallback's `cleaned[:n]`; failure when the fallback raises or has fewer than n usable digits; no contract of its own, stated by `Datasets.SelectedLength` and `Datasets.SelectionFails` |
| Datasets.SelectDigits | src/make_datasets.py:106-135 | the mirror loop, with its skips, and the offline fallback select the reference data `Datasets.MakeOneDigits` |
| Datasets.MirrorStep | src/make_datasets.py:112-125 | a mirror that yields data ends the search; any other goes on to the next |
| Datasets.CleanedAreDigits | src/make_datasets.py:116-120 | the cleaned text holds only digits |
| Datasets.FirstMirrorFacts | src/make_datasets.py:112-125 | data taken from a mirror has exactly n digits and is a prefix of that page's cleaned digits |
| Datasets.SelectionFails | src/make_datasets.py:129-135 | `make_one` fails exactly when no mirror contributes and the fallback raises or has fewer than n usable digits; a raising fallback with no contributing mirror fails for every n |
| Datasets.SelectedLength | src/make_datasets.py:106-135 | selected data has exactly n digits and is a prefix of the cleaned digits of a mirror page or of the offline text |
| Primes.NoDivisorBelowMeans | src/generative/gen_primes_digits.py:19-30 | the recursive no-divisor test means no d in [2, k) divides n |
| Primes.PrimeMeans | src/generative/gen_primes_digits.py:19-30 | the reference notion of prime: n ≥ 2 and no divisor in [2, n) |
| Primes.Isqrt | src/generative/gen_primes_digits.py:24 | r·r ≤ n < (r + 1)·(r + 1) |
| Primes.IsPrime | src/generative/gen_primes_digits.py:19-30 | `is_prime(n)` holds iff n is prime |
| Primes.OddTrial | src/generative/gen_primes_digits.py:25-30 | the loop accepts iff no odd f in [3, r] divides n |
| Primes.EvenPrime | src/generative/gen_primes_digits.py:22-23 | an even n is prime iff n = 2 |
| Primes.FactorRefutes | src/generative/gen_primes_digits.py:27-28 | a divisor found in the trial range makes n composite |
| Primes.OddTrialComplete | src/generative/gen_primes_digits.py:26-30 | an odd n with no odd divisor up to isqrt(n) is prime |
| Primes.OddTrialEquivalence | src/generative/gen_primes_digits.py:24-30 | for odd n ≥ 3, prime iff no odd f in [3, isqrt(n)] divides n |
| Primes.FactDivisible | src/generative/gen_primes_digits.py:37-42 | every d in [1, n] divides n! (used to show the loop always finds another prime) |
| Primes.LeastDivisorFrom | src/generative/gen_primes_digits.py:37-42 | the least divisor ≥ 2 of m divides m and has no smaller divisor |
| Primes.PrimeAfter | src/generative/gen_primes_digits.py:37-42 | there is a prime above every n, so the loop terminates |
| Primes.PrimeAboveFacts | src/generative/gen_primes_digits.py:37-42 | the least prime factor of n! + 1 is a prime above n |
| Primes.DecimalString | src/generative/gen_primes_digits.py:39 | `str(p)` is non-empty, all digits and without a leading zero |
| Primes.DecimalRoundTrip | src/generative/gen_primes_digits.py:39 | reading `str(n)` back gives n |
| Primes.PrimesBelowFacts | src/generative/gen_primes_digits.py:36-42 | the primes collected below p are increasing, all prime and all below p, and none is missed |
| Primes.Decimals | src/generative/gen_primes_digits.py:39-40 | one decimal string per prime |
| Primes.GenPrimesDigits | src/generative/gen_primes_digits.py:33-43 | the output joins the primes 2, 3, 5, … in order. It has at least `target` characters, and is "" when target ≤ 0. Without the last prime it has fewer than `target` characters |
| Primes.GenStep | src/generative/gen_primes_digits.py:37-42 | one pass of the `while total < target` loop moves the buffer from the primes below p to those below p + 1, keeps the buffer short of `target` without its last string, and makes progress towards the end of the loop |
| Primes.AppendIfPrime | src/generative/gen_primes_digits.py:38-42 | one step appends `str(p)` exactly when p is prime, and leaves the buffer unchanged otherwise |
| Primes.AppendStep | src/generative/gen_primes_digits.py:39-41 | appending `str(p)` for prime p extends both the buffer and the joined text by `str(p)` |
| Primes.JoinOfDecimals | src/generative/gen_primes_digits.py:43 | the joined text is all digits, at least one per prime |
| RngZoo.LcgState | src/generative/gen_rng_zoo.py:54-60 | x_k = (3·x_{k−1} + 7) mod 10 from x_0 = 1, always a single digit |
| RngZoo.DigitString | src/generative/gen_rng_zoo.py:61 | `str(x)` of a digit is one digit character |
| RngZoo.GenLcgMod10 | src/generative/gen_rng_zoo.py:47-61 | exactly n values (none for n ≤ 0), the k-th being `str(x_{k+1})` |
| RngZoo.CycleOfFour | src/generative/gen_rng_zoo.py:54-61 | the states run 1, 0, 7, 8, 1, 0, 7, 8, … |
| RngZoo.PeriodFour | src/generative/gen_rng_zoo.py:54-61 | the output has period 4 |
| RngZoo.SymbolSet | tests/test_rng_digits_ci.py:129-131 | only "0", "1", "7" and "8" appear, and all four appear once n ≥ 4 |

## Left out

- File, CLI and report I/O: reading digit and integer files, argument parsing, printing, and writing JSON, CSV and Markdown. Also `load_report` and `fmt`. These are input and output, not computation.
- `compress_ratio_bytes`: zlib's output cannot be specified. The compression ratio is an input of the scorer.
- The square root and `erfc`:
  - the runs test's sigma, Z and p: `Runs.RunsTestEvenOdd` stops at the exact mean and variance;
  - Schur's sigma and z: `Schur.SchurProbe` stops at the exact expected count, and `Schur.SchurVariance` gives the variance;
  - the square root in `zscores_per_symbol`: `Distribution.ZScores` takes it as a parameter whose square is `expected`.
- Floating-point rounding: every ratio is an exact real. NaN is `None` everywhere. A missing report key is `None` everywhere as well, since every extractor then yields NaN. JSON null is `None` only in the runs p fields (`Scoring.PField.Missing`). +inf is `None` only for the gaps mean of a symbol without gaps and in the sort key, where `Ranking.ExtReal` gives it its own value.
- NGram.TrainLen: `int(N * 0.8)` is taken as the exact floor of 4N/5. That holds for N below 2^50; for larger N the rounded float product can reach the next integer, and the source's training part can then be one element longer than the model's. The fallback `max(n + 1, int(N * 0.7))` is always n + 1 in the model, because int(0.7·N) ≤ int(0.8·N) < n + 1.
- The n-gram model's `M` parameter is unused. A negative `n` (negative slice indices) is not modelled: `n` is a `nat`. The `if not cnt` branch cannot be reached for N ≥ 4 and is absent.
- `train_frac` other than the default 0.8 is not modelled.
- Distribution.ChiSquareFacts: states that equal bin counts give chi-square 0, not the converse.
- Autocorr.AutocorrAt: the bound |r| ≤ 1 (Cauchy–Schwarz) is not proved.
- Ranking.Ranked: the stability of Python's `sorted` is modelled by the insertion order but not stated as a property. `Ranking.RankingOrder` states only the first two key components; `Ranking.Ranked` states the whole order.
- Scoring: the extractors' `float(...)` conversion of non-numeric JSON values, and the `except` branches it could trigger, are not modelled. A report value is already a number or NaN. In particular JSON null and ±inf in the scored fields are not modelled:
  - `float(None)` raises `TypeError`. For `chi_square`, `compress_ratio`, the runs `Z` and the Schur `z` nothing catches it, so the comparison stops. Inside an `autocorr` or `ngram` block the `except` turns the whole extractor into NaN. `Scoring.PyMax` instead skips an undefined value that is not first.
  - `add_term` skips only NaN, so an infinite metric makes the score infinite and the severity red. The model has no infinite metric.
  - digit-probe's own reports write NaN, never null, in these fields, and never write an infinity.
- `http_get` and the network: each mirror's page is a parameter, `None` for a failed download. The text of the `mpmath` offline fallback is a parameter too, `None` when `fallback_offline` raises (mpmath missing, unknown constant); the digits mpmath would produce are not modelled. Both that exception and the final `RuntimeError` are the `None` result of `Datasets.MakeOneDigits`.
- Datasets.ExtractDigits: matches ASCII '0'..'9' only. Python's `\d` also matches other Unicode decimal digits.
- `gen_uniform_digits` and `gen_biased7` depend on Python's `random` module. So do the other random-based generators.
- The context scripts (the lottery scraper, the gallery and aggregate renderers, the small argparse generators and the tests that run the CLI) are not part of this model.
- `analyze_digits_mode` and `analyze_integers_mode` only call the probes and print. Only the integer-mode input reduction (`IntegersMode.ProbeInput`) is modelled; the `max_observed` printout is left out.
