# RAN KPI analysis core, modelled in Dafny

The modelled system is the analysis backend of a radio-access-network
monitoring tool. It takes a table of cell measurements and works on three key
performance indicators (KPIs):

- RTWP, the received total wideband power in dBm;
- SINR, the signal-to-interference-plus-noise ratio in dB;
- PRB, the physical-resource-block utilisation in percent.

The backend does the following:

- normalises the uploaded table;
- flags anomalous samples;
- computes pairwise, rolling and lagged correlations and turns them into insights;
- asks a language model for a written summary, with a deterministic fallback;
- compares a "before" and an "after" measurement set, or one set against a
  baseline;
- keeps a firmware log per network node and validates it;
- reports a health status for its own components.

Each of these is a Dafny module, one per source file:

| module | models | file |
|---|---|---|
| `Parser` | header cleaning and the required-column test; time-column resolution; the cleaning pipeline (drop empty rows, fill with the median, 3-sigma trim, sort by time); the metadata | `backend/app/services/parser.py` |
| `Anomaly` | the per-KPI detectors (statistical and absolute bounds, first-tag de-duplication); the correlation and trend detectors; the severity bands | `backend/app/services/anomaly.py` |
| `Correlation` | pairwise Pearson with the significance test or its fallback approximation; rolling correlation and the stability score; lagged cross-correlation; the insights; the top-level analysis | `backend/app/services/correlation.py` |
| `AiSummary` | the confidence score; section routing of the model's reply; key-finding and recommendation extraction; risk level; the fallback summary; the decision between reply and fallback | `backend/app/services/ai_summary.py` |
| `Compare` | per-KPI verdicts; the severity and correlation verdicts; the improvement score and level; the overall assessment; the baseline deviations and performance grade | `backend/app/routers/compare.py` |
| `Firmware` | logging, paging, filtered listing, patching, deletion, per-node history with its current firmware, and the validation report | `backend/app/routers/firmware.py` |
| `Health` | the four component checks, the worst-of rule, and the stored record | `backend/app/routers/health.py` |

Four shared modules support them:

- `Wrappers` holds `Option` and `Result`.
- `Seqs` holds counting, filtering, choosing, and first-occurrence de-duplication.
- `Text` holds `strip`, `upper`, `lower`, substring and `split`/`join` on ASCII strings.
- `Kpi` holds the three metrics, a measurement frame and the rolling window size.

How the source's data is represented:

- A pandas NaN is `None` in a `Cell = Option<real>`. Every comparison against it
  is false, as it is for NaN.
- Floating point is modelled by `real`.
- Statistics come from a numerical library. The model does not recompute them:
  means, standard deviations, medians, Pearson coefficients with their
  p-values, and rolling correlations are parameters (oracle functions). The
  model then proves what the code does with whatever values they return.
- The rolling mean of the trend detector is the exception: it is computed
  exactly.
- Clocks are parameters. So are the database contents (a sequence of log
  entries), the language-model reply, the environment of the health check,
  and whether a step raises.

Where the system's written description and the code disagree, the model
follows the code:

- **Fallback significance.** The fallback significance test never reports a
  pair as significant. It sets p = 0.05 for |r| > 0.3, and significance needs
  p < 0.05 (`Correlation.ApproximationNeverSignificant`).
- **Identical inputs.** Comparing a data set with itself scores 0, which is
  level `degraded` (`Compare.IdenticalInputs`). The score ranges over
  [-60, 100], not [0, 100]: every KPI degraded with no fall in anomalies
  scores -60 (`Compare.AllDegradedScore`).
- **Zero rows.** A table with the required columns and no rows parses
  successfully (`Parser.NoRowsIsNotAnError`).
- **Missing-value counts.** The counts in the metadata are taken after the
  gaps were filled, so they are 0 whenever every column has a median
  (`Parser.CleanedCountsZero`).
- **Time column.** Header cleaning already renames TIMESTAMP, DATE and DATETIME
  to TIME, so time resolution can only ever find TIME
  (`Parser.CleanedTimeColumnIsTime`).
- **Fallback risk.** The fallback summary's risk follows the anomaly total
  (above 50 is high, above 20 is medium), not the severity field passed along
  with it (`AiSummary.Fallback`).

Other observations:

- **Firmware validity flag.** Every firmware log entry is stored with its
  validity flag set, and no operation clears it. The history therefore
  reports the newest entry as the current firmware, even when validation
  rejects that same entry because a version is missing
  (`Firmware.FlagAndValidationDisagree`).
- **Placeholder API key.** The health check counts the configuration
  template's placeholder API key as a configured key. The summary service
  creates no client for it (`Health.PlaceholderKeyDisagreement`).
- **Anomaly test vector.** The repository's anomaly test vector -70 dBm lies
  on the RTWP bound. The bound is exclusive, and -70 is no 2.5-sigma outlier of
  that series, so it is not flagged (`Anomaly.RtwpTestVectorNotFlagged`).

## Model

| member | source | states |
|---|---|---|
| `Anomaly.CandidatesRanked` | backend/app/services/anomaly.py:61-80 | the merged candidate list runs statistical, then high, then low, each segment by increasing row index |
| `Anomaly.KeptInRankOrder` | backend/app/services/anomaly.py:61-92 | keeping each index's first candidate preserves that rank order |
| `Anomaly.ReportColumns` | backend/app/services/anomaly.py:61-92 | the de-duplicated index column holds exactly the flagged indices, each with the tag of the first rule that caught it |
| `Anomaly.ReportInRankOrder` | backend/app/services/anomaly.py:83-92 | the report's index and tag columns follow the same rank order |
| `Anomaly.DetectMetric` | backend/app/services/anomaly.py:53-100 | an index is reported iff its value is flagged (statistical outlier or outside an absolute bound); indices are distinct and in range; each tag is the first rule that caught the value; the report lists statistical flags first, then high, then low, each group by increasing index; a missing column gives the empty report |
| `Anomaly.CandidateKeys` | backend/app/services/anomaly.py:58-81 | the candidate list before de-duplication holds exactly the flagged positions |
| `Anomaly.CandidateSegments` | backend/app/services/anomaly.py:66-81 | the candidates are the statistical positions, then the high ones, then the low ones, each tagged by the rule that produced it |
| `Anomaly.CandidateOccurs` | backend/app/services/anomaly.py:66-81 | a statistical outlier occurs in the statistical segment and a value above the bound in the high segment |
| `Anomaly.FirstTagIsExpected` | backend/app/services/anomaly.py:83-92 | the first candidate for a position carries the tag of the highest-priority rule that fires for its value |
| `Anomaly.SinrNeverHigh` | backend/app/services/anomaly.py:102-144 | SINR has no upper bound, so it is never tagged high-absolute |
| `Anomaly.StatisticalTagWins` | backend/app/services/anomaly.py:83-92 | a value that is both a statistical outlier and out of bounds is tagged statistical |
| `Anomaly.DetectCorrelation` | backend/app/services/anomaly.py:195-225 | insufficient iff a metric is missing or there are fewer than 20 rows; otherwise an index is reported iff either rolling correlation at it is extreme |
| `Anomaly.RollingMean` | backend/app/services/anomaly.py:239-240 | a rolling mean exists only once a full window lies inside the series |
| `Anomaly.TrendPositions` | backend/app/services/anomaly.py:234-247 | a position is reported iff the column exists and there the 5-row moving average differs from the 15-row one by more than twice the standard deviation |
| `Anomaly.DetectTrend` | backend/app/services/anomaly.py:227-252 | insufficient iff fewer than 10 rows; otherwise the reported set is the union over the three metrics of their trend breaks |
| `Anomaly.TrendSkipsWarmUp` | backend/app/services/anomaly.py:239-246 | no trend is ever reported before row 14, the end of the first full 15-row window |
| `Anomaly.SeverityBands` | backend/app/services/anomaly.py:264-268 | severity is high above 50, medium for 21 to 50 and low up to 20, and is monotone in the total |
| `Anomaly.DetectAnomalies` | backend/app/services/anomaly.py:254-278 | each of the five reports is the one its detector computes (the three metric detectors, the correlation detector, the trend detector); the total is the sum of their counts, the severity follows the bands, and a missing metric contributes nothing |
| `Anomaly.SingleFlagged` | backend/app/services/anomaly.py:83-100 | a series with exactly one flagged value reports exactly that index with its expected tag |
| `Anomaly.NoneFlagged` | backend/app/services/anomaly.py:83-100 | a series with no flagged value reports a count of zero |
| `Anomaly.RtwpScenario` | backend/app/services/anomaly.py:61-100 | in a quiet series with one -60 dBm spike, only the spike is reported, tagged high-absolute |
| `Anomaly.RtwpTestVectorNotFlagged` | backend/app/services/anomaly.py:61-100 | a series whose odd value is -70 dBm reports no anomaly, because the bound is exclusive |
| `Kpi.WindowLargeEnough` | backend/app/services/anomaly.py:201-203 | the rolling window reaches the minimum of 5 iff there are at least 20 rows, and never exceeds 20 |
| `Correlation.ClassifyStrength` | backend/app/services/correlation.py:202-214 | NaN gives none; otherwise strong at magnitude 0.7 or more, moderate from 0.3 below 0.7, weak below 0.3, with the sign choosing positive or negative |
| `Correlation.StrengthMirror` | backend/app/services/correlation.py:202-214 | negating a non-zero coefficient mirrors its class, and -0.7 is strong negative |
| `Correlation.PValue` | backend/app/services/correlation.py:66-71 | the fallback approximation gives 0.05 exactly when the magnitude exceeds 0.3, and 0.1 otherwise |
| `Correlation.ApproximationNeverSignificant` | backend/app/services/correlation.py:69-77 | no approximated p-value passes the strict 0.05 test |
| `Correlation.Pairs` | backend/app/services/correlation.py:62-64 | n columns give n(n-1)/2 pairs |
| `Correlation.PairsComplete` | backend/app/services/correlation.py:62-64 | every pair of columns i < j is produced |
| `Correlation.PairsSound` | backend/app/services/correlation.py:62-64 | every produced pair is two columns taken in order |
| `Correlation.AllMetricPairs` | backend/app/services/correlation.py:59-73 | with all three metrics the pairs and their keys are RTWP_SINR, RTWP_PRB and SINR_PRB, in that order |
| `Correlation.Pairwise` | backend/app/services/correlation.py:55-80 | one record per available pair, in pair order; the strength is the class of the coefficient and the p-value the test's, with 1.0 when undefined; a NaN coefficient is reported as 0.0 with no correlation; significance is p < 0.05 |
| `Correlation.ApproximatePairsNotSignificant` | backend/app/services/correlation.py:66-77 | without the statistics library no pair is significant |
| `Correlation.InverseBounds` | backend/app/services/correlation.py:197-200 | 1/(1+cv) lies in (0, 1], equals 1 only at cv = 0, and decreases as cv grows |
| `Correlation.InverseVariation` | backend/app/services/correlation.py:197-198 | 1/(1 + d/m) times m + d is m, for a positive magnitude m |
| `Correlation.StabilityScore` | backend/app/services/correlation.py:192-200 | the score lies in [0, 1]; it is 1 for an empty or constant series, 0 for a zero mean, NaN when the mean or spread is NaN, and otherwise the value `v` with `v * (|mean| + std) == |mean|`, that is 1/(1 + std/|mean|) |
| `Correlation.StabilityAntitone` | backend/app/services/correlation.py:197-200 | with the same non-zero mean, a larger spread never gives a higher score |
| `Correlation.ClassifyStability` | backend/app/services/correlation.py:216-225 | highly stable at 0.8 or more, moderately stable from 0.6 below 0.8, somewhat unstable from 0.4 below 0.6, highly unstable below 0.4 or for NaN |
| `Correlation.StabilityClassMonotone` | backend/app/services/correlation.py:216-225 | a higher score never gives a worse stability class |
| `Correlation.RollingPairsArePairs` | backend/app/services/correlation.py:88-123 | the rolling analysis enumerates the same pairs as the pairwise one |
| `Correlation.RollingCorrelations` | backend/app/services/correlation.py:82-123 | insufficient iff fewer than 20 rows; otherwise one summary per pair over the computed window |
| `Correlation.CorrelationStability` | backend/app/services/correlation.py:125-148 | insufficient iff fewer than 20 rows; otherwise each pair's score and class come from its rolling statistics |
| `Correlation.RollingAgreesWithStability` | backend/app/services/correlation.py:82-148 | both analyses fail together, and where they succeed they report the same pairs with the same stability |
| `Correlation.Lags` | backend/app/services/correlation.py:159-161 | 2L lags, strictly increasing |
| `Correlation.LagsMembership` | backend/app/services/correlation.py:159-161 | the lags are exactly the non-zero integers from -L to L |
| `Correlation.DefinedLags` | backend/app/services/correlation.py:172-179 | kept lags are exactly those whose coefficient is not NaN, each with its value, and increasing lags stay in increasing order |
| `Correlation.DefinedLagsInOrder` | backend/app/services/correlation.py:172-179 | keeping the defined lags preserves increasing lag order |
| `Correlation.BestIndex` | backend/app/services/correlation.py:183 | the chosen lag has maximal magnitude and is the first to reach it |
| `Correlation.EarliestBest` | backend/app/services/correlation.py:183 | when the lags increase, every lag before the best one has a strictly smaller magnitude |
| `Correlation.BestOf` | backend/app/services/correlation.py:181-188 | the record of a non-empty lag list: its lags, a best lag of maximal magnitude, and no earlier lag reaching it |
| `Correlation.CrossCorrelation` | backend/app/services/correlation.py:150-190 | a result needs RTWP and SINR; its lags are exactly the defined ones in lag order; no defined lag beats the best one and no earlier lag reaches its magnitude; a result exists whenever some lag is defined |
| `Correlation.InsightsAsWritten` | backend/app/services/correlation.py:246-253 | the insight loop fails exactly when the stability analysis returned its error |
| `Correlation.Insights` | backend/app/services/correlation.py:227-264 | significant strong and moderate pairs are reported and nothing else of that kind; unstable pairs are reported iff graded highly unstable; a lag insight appears iff the best lagged magnitude exceeds 0.5, and it names RTWP-SINR at the best lag |
| `Correlation.PairInsights` | backend/app/services/correlation.py:231-244 | the pair insights are exactly the significant strong and moderate pairs |
| `Correlation.UnstableInsights` | backend/app/services/correlation.py:246-253 | the stability insights are exactly the pairs graded highly unstable |
| `Correlation.InsightsInOrder` | backend/app/services/correlation.py:227-264 | all pair insights come before all stability insights, and the lag insight comes last |
| `Correlation.InsightsCorrected` | backend/app/services/correlation.py:227-264 | where the stability analysis succeeded, the code as written and the corrected insights agree |
| `Correlation.NoPairInsightsWithoutLibrary` | backend/app/services/correlation.py:231-244 | with the approximated p-values no pair insight is ever produced |
| `Correlation.AnalyzeAsWritten` | backend/app/services/correlation.py:26-53 | the analysis as written fails iff there are fewer than 20 rows |
| `Correlation.Analyze` | backend/app/services/correlation.py:26-53 | for every row count the parts are those of the pairwise, rolling, stability and cross-correlation analyses and the insights are computed from them; the result agrees with the code from 20 rows on, and below 20 rows reports no instability |
| `Correlation.SixRowSampleFails` | backend/app/services/correlation.py:125-129 | a six-row sample makes the analysis as written fail, and the corrected one reports the stability as insufficient |
| `Compare.KpiVerdict` | backend/app/routers/compare.py:333-357 | within the tolerance the verdict is stable; otherwise lower RTWP or higher SINR is improved and the reverse is degraded; PRB is improved when it moves into its band and degraded when it leaves it |
| `Compare.RtwpMirrorsSinr` | backend/app/routers/compare.py:336-347 | the RTWP verdict on two values is the SINR verdict on their negations |
| `Compare.KpiUnchangedIsStable` | backend/app/routers/compare.py:336-339 | an unchanged value is stable for every metric |
| `Compare.SeverityVerdict` | backend/app/routers/compare.py:359-371 | stable iff the levels are equal, improved iff the level dropped |
| `Compare.SeverityAntisymmetric` | backend/app/routers/compare.py:359-371 | swapping before and after swaps improved with degraded |
| `Compare.SeverityVerdictFollowsRank` | backend/app/routers/compare.py:359-371 | on the anomaly detector's own labels the verdict follows the severity rank |
| `Compare.CorrelationChange` | backend/app/routers/compare.py:373-382 | unchanged below a change of 0.1, significant from 0.3 |
| `Compare.CorrelationChangeSymmetric` | backend/app/routers/compare.py:373-382 | the correlation change does not depend on the direction |
| `Compare.ImprovementScore` | backend/app/routers/compare.py:287-313 | the score lies in [-60, 100]; with KPIs, score times their count equals 40 (if anomalies fell, else 0) times the count plus 60 times improved minus degraded; without KPIs it is the anomaly term alone |
| `Compare.AllStableScore` | backend/app/routers/compare.py:296-313 | with every KPI stable the score is 40 when anomalies fell and 0 otherwise |
| `Compare.AllDegradedScore` | backend/app/routers/compare.py:288-313 | with every KPI degraded and no reduction in anomalies the score is -60, the bottom of its range |
| `Compare.AllImprovedScore` | backend/app/routers/compare.py:288-313 | with every KPI improved and fewer anomalies the score is 100 |
| `Compare.NetExtreme` | backend/app/routers/compare.py:306-313 | when the net count is all of the KPIs, either way, the score is the anomaly term moved by 60 |
| `Compare.ImprovementLevel` | backend/app/routers/compare.py:315-323 | significant from 80, moderate from 60 below 80, minimal from 40 below 60, degraded below 40 |
| `Compare.ImprovementLevelMonotone` | backend/app/routers/compare.py:315-323 | a higher score never gives a lower level |
| `Compare.NoReductionNoSignificantLevel` | backend/app/routers/compare.py:287-323 | without an anomaly reduction the level is never significant |
| `Compare.OverallAssessment` | backend/app/routers/compare.py:384-395 | stable iff nothing changed; may-have-degraded iff anomalies rose with no KPI improved; significant iff anomalies fell by more than 10 with two KPIs improved; some improvement iff anomalies fell and a KPI improved |
| `Compare.MixedCases` | backend/app/routers/compare.py:384-395 | the assessment is mixed exactly when the anomaly change and the KPI improvements point different ways |
| `Compare.RelativeChange` | backend/app/routers/compare.py:224 | the relative change in percent, scaled back by the old value, is 100 times the difference |
| `Compare.PercentChange` | backend/app/routers/compare.py:224 | a zero baseline gives 0 %; the change is undefined only when a mean is NaN; otherwise the change `c` satisfies `c * before == (after - before) * 100`, i.e. (after - before) / before * 100 |
| `Compare.KpiComparison` | backend/app/routers/compare.py:211-229 | one entry for each metric present on both sides and nothing else, each computed from both sides' means, in the order RTWP, SINR, PRB, so no metric twice |
| `Compare.KpiEntries` | backend/app/routers/compare.py:211-229 | every metric both sides have yields its entry, and every entry is built from both sides |
| `Compare.KpiOrder` | backend/app/routers/compare.py:213-214 | the entries follow the order RTWP, SINR, PRB |
| `Compare.FindPair` | backend/app/routers/compare.py:249-252 | finds a record of the requested pair, or reports that none exists |
| `Compare.CorrelationComparison` | backend/app/routers/compare.py:244-261 | one delta for each compared pair present on both sides, whose before and after values are the found records' coefficients, classified by their change, in the fixed pair order |
| `Compare.DeltasFound` | backend/app/routers/compare.py:244-261 | every compared pair found on both sides has its delta, and every delta is one of them |
| `Compare.CorrelationOrder` | backend/app/routers/compare.py:249-250 | the deltas follow the fixed order of the compared pairs |
| `Compare.KeyImprovements` | backend/app/routers/compare.py:397-408 | one note per improved KPI, plus the reduced-anomalies note iff anomalies fell; nothing else |
| `Compare.AreasOfConcern` | backend/app/routers/compare.py:410-421 | one note per degraded KPI, plus the increased-anomalies note iff anomalies rose; nothing else |
| `Compare.KeyImprovementsInOrder` | backend/app/routers/compare.py:397-408 | the anomaly note comes first when anomalies fell; then note k names the k-th improved entry's metric and percentage, in entry order |
| `Compare.AreasOfConcernInOrder` | backend/app/routers/compare.py:410-421 | the anomaly note comes first when anomalies rose; then note k names the k-th degraded entry's metric and absolute percentage, in entry order |
| `Compare.NotesAreExclusive` | backend/app/routers/compare.py:397-421 | at most one note per entry across the two lists plus one anomaly note; an anomaly note can only be the first note of the improvements (anomalies fell) or of the concerns (anomalies rose), so at most one is written |
| `Compare.NoKpiBothWays` | backend/app/routers/compare.py:397-421 | in a comparison no metric is named both by an improvement note and by a concern note |
| `Compare.ImprovedSources` | backend/app/routers/compare.py:404-406 | every metric improvement note comes from an improved entry of that metric |
| `Compare.DegradedSources` | backend/app/routers/compare.py:417-419 | every metric concern note comes from a degraded entry of that metric |
| `Compare.CompareSides` | backend/app/routers/compare.py:204-279 | the anomaly change is after minus before; the KPI entries, correlation deltas, improvement and concern notes are those their functions compute from the two sides; the assessment and severity verdict follow from them |
| `Compare.AssessImprovements` | backend/app/routers/compare.py:281-331 | the score is the improvement score of the comparison's verdicts, the level follows it, and the KPI net count is improved minus degraded entries |
| `Compare.VerdictCounts` | backend/app/routers/compare.py:297-305 | counting improved and degraded verdicts counts the entries that carry them |
| `Compare.IdenticalInputs` | backend/app/routers/compare.py:204-331 | comparing a data set with itself finds everything stable and unchanged, writes no note, and scores 0, which is level degraded |
| `Compare.IdenticalKpisStable` | backend/app/routers/compare.py:211-229 | identical means give stable KPI verdicts |
| `Compare.IdenticalCorrelationsUnchanged` | backend/app/routers/compare.py:244-261 | identical correlation records give unchanged deltas |
| `Compare.NoChangeNoNotes` | backend/app/routers/compare.py:397-421 | with all KPIs stable and no anomaly change there are no notes |
| `Compare.DeviationStatusOf` | backend/app/routers/compare.py:446-457 | within normal range below 5 %, minor from 5 % below 15 %, significant from 15 % below 30 %, major from 30 % or when undefined |
| `Compare.DeviationOrder` | backend/app/routers/compare.py:427-442 | the deviations follow the metric order, so no metric appears twice |
| `Compare.BaselineDeviations` | backend/app/routers/compare.py:423-444 | one deviation for each metric with a baseline and a current mean, in the order RTWP, SINR, PRB and none twice; its deviation is current minus baseline and its percentage the relative change, both undefined for a NaN mean |
| `Compare.PerformanceStatusOf` | backend/app/routers/compare.py:469-476 | excellent iff the score is at least 80 and severity is low; good iff not excellent, at least 60 and severity low or medium; fair iff at least 40 and not that; poor below 40 |
| `Compare.BaselinePerformance` | backend/app/routers/compare.py:459-484 | the score is the baseline score of the deviations and the status is the one that score and the severity give |
| `Compare.BaselineScore` | backend/app/routers/compare.py:462-465 | the score is the acceptable share of the deviations in percent: in [0, 100], 100 with no deviations, and 100 iff every deviation is acceptable |
| `Compare.SharePercent` | backend/app/routers/compare.py:465 | k of n in percent lies in [0, 100], is 100 iff k = n, and times n is 100 k |
| `Compare.ShareBounds` | backend/app/routers/compare.py:465 | a share k/n in percent lies in [0, 100] and is 100 iff k = n |
| `Compare.PerformanceMonotone` | backend/app/routers/compare.py:469-476 | a higher score never gives a worse performance status |
| `Compare.MatchingIndustryBaseline` | backend/app/routers/compare.py:145-156 | data matching the industry baseline exactly is within range on every metric and graded excellent at 100 |
| `Compare.SelfDeviationWithin` | backend/app/routers/compare.py:429-457 | a current mean equal to the baseline value is within normal range |
| `Compare.AllWithinRangeExcellent` | backend/app/routers/compare.py:463-476 | with every deviation in range and low severity the grade is excellent at 100 |
| `Parser.CleanHeaders` | backend/app/services/parser.py:60-78 | each header is replaced by its canonical name |
| `Parser.CleanFixed` | backend/app/services/parser.py:60-78 | headers already canonical survive cleaning |
| `Parser.CanonicalHeaderIdempotent` | backend/app/services/parser.py:60-78 | cleaning a cleaned header changes nothing |
| `Parser.SynonymIdempotent` | backend/app/services/parser.py:66-77 | renaming by synonym twice is renaming once |
| `Parser.CanonicalSettled` | backend/app/services/parser.py:63-77 | a cleaned header is trimmed and upper case |
| `Parser.SynonymNeverTimeKey` | backend/app/services/parser.py:66-77 | no synonym renaming yields TIMESTAMP, DATE or DATETIME |
| `Parser.CanonicalNeverTimeSynonym` | backend/app/services/parser.py:60-78 | no cleaned header is TIMESTAMP, DATE or DATETIME |
| `Parser.SettledName` | backend/app/services/parser.py:63-77 | on a trimmed upper-case header cleaning is just the synonym renaming |
| `Parser.RtwpSynonymHeader` | backend/app/services/parser.py:63-77 | " rtwp_dbm" is cleaned to RTWP |
| `Parser.SinrSynonymHeader` | backend/app/services/parser.py:63-77 | "Sinr_dB " is cleaned to SINR |
| `Parser.RequiredHeaderClean` | backend/app/services/parser.py:60-78 | the required names RTWP, SINR and PRB are left as they are |
| `Parser.MissingColumns` | backend/app/services/parser.py:80-86 | the missing columns are exactly the required ones absent from the headers, in the required order |
| `Parser.FirstPresent` | backend/app/services/parser.py:93-96 | the first candidate name present in the headers, or none |
| `Parser.ResolveTimeColumn` | backend/app/services/parser.py:93-96 | the first time-column name present, in the order of preference, or none |
| `Parser.CleanedTimeColumnIsTime` | backend/app/services/parser.py:60-96 | after header cleaning the time column is TIME or absent |
| `Parser.WithSyntheticTimes` | backend/app/services/parser.py:98-104 | without a time column row i is stamped 15 i minutes after the fixed start time |
| `Parser.DropEmpty` | backend/app/services/parser.py:126 | exactly the rows holding some value, the time included, survive, in order and with all their copies |
| `Parser.SyntheticTimesDropNothing` | backend/app/services/parser.py:98-126 | stamped rows are never dropped as empty |
| `Parser.FillMissing` | backend/app/services/parser.py:132-133 | gaps in the column get the fill value, and every other cell is untouched |
| `Parser.FilledHasNoGaps` | backend/app/services/parser.py:132-133 | filling with a number leaves no gap in the column |
| `Parser.FillMissingIdempotent` | backend/app/services/parser.py:133 | filling twice is filling once |
| `Parser.Trim` | backend/app/services/parser.py:135-139 | with a positive spread, exactly the rows within three standard deviations survive, in order, each with as many copies as it had; otherwise nothing is removed |
| `Parser.TrimmedFilledRows` | backend/app/services/parser.py:129-139 | filling and trimming a column adds no rows and no time stamps, leaves no gap once the median is defined, and opens none in another column |
| `Parser.CleanColumn` | backend/app/services/parser.py:129-139 | the result is the subsequence of the filled rows holding exactly those within three standard deviations (all of them without a positive spread), each with its full number of copies; no time stamps are invented, and no gap is left once the median is defined |
| `Parser.SortByTime` | backend/app/services/parser.py:147 | the result is ordered by time, with missing times last, and is a permutation of the input |
| `Parser.CleanData` | backend/app/services/parser.py:123-149 | the cleaned panel is sorted by time and is a permutation of the rows the three column-cleaning steps keep after empty rows are dropped |
| `Parser.MinTime` | backend/app/services/parser.py:157 | the earliest time present, or none when every time is missing |
| `Parser.MaxTime` | backend/app/services/parser.py:158 | the latest time present, or none when every time is missing |
| `Parser.SortedMinIsFirst` | backend/app/services/parser.py:147-157 | on sorted rows the start time is the first row's |
| `Parser.MetadataOf` | backend/app/services/parser.py:151-173 | the record count is the row count; the period is absent iff there are no rows, NaT iff every time is NaT, and otherwise runs from the earliest to the latest time present; each missing count is bounded by the row count; the three means are the estimator's means of the columns |
| `Parser.CleanedCountsZero` | backend/app/services/parser.py:129-165 | when every median is defined the cleaned panel has no gap, so every missing-value count is 0 |
| `Parser.ParseCsv` | backend/app/services/parser.py:17-58 | fails iff a required column is missing after cleaning, naming those columns; otherwise the rows are the cleaned panel of the table (stamped when it has no time column) and the metadata is that of those rows |
| `Parser.NoRowsIsNotAnError` | backend/app/services/parser.py:37-54 | a table with the required columns and no rows parses to an empty panel |
| `AiSummary.Clamp` | backend/app/services/ai_summary.py:176 | the value is clamped into [0, 1] |
| `AiSummary.Confidence` | backend/app/services/ai_summary.py:157-176 | confidence lies in [0.5, 0.95] |
| `AiSummary.ConfidenceOrder` | backend/app/services/ai_summary.py:159-176 | more records never lower confidence, a higher severity never raises it, and the extremes are reached exactly at the extreme inputs |
| `AiSummary.FirstMatch` | backend/app/services/ai_summary.py:196-207 | the first keyword group that the line mentions, or none |
| `AiSummary.Opens` | backend/app/services/ai_summary.py:193-207 | a line opens a section iff it mentions a keyword of some section |
| `AiSummary.InForceIffOpened` | backend/app/services/ai_summary.py:191-208 | a section is in force iff some earlier line opened one |
| `AiSummary.OpenerNotBlank` | backend/app/services/ai_summary.py:194-209 | a line that opens a section is never blank |
| `AiSummary.RoutingRule` | backend/app/services/ai_summary.py:193-210 | a line goes to a section iff it is not blank and some line up to it opened a section; an opening line goes to its own section |
| `AiSummary.Route` | backend/app/services/ai_summary.py:193-210 | every section receives exactly the lines routed to it |
| `AiSummary.RouteLine` | backend/app/services/ai_summary.py:193-210 | routing one more line extends only the section that line is routed to |
| `AiSummary.ExtractSections` | backend/app/services/ai_summary.py:178-212 | every section is present and holds the text of the reply routed to it |
| `AiSummary.EmptySections` | backend/app/services/ai_summary.py:180-187 | every section starts empty |
| `AiSummary.StrippedPiece` | backend/app/services/ai_summary.py:219-221 | each stripped sentence piece has no full stop and occurs in the reply |
| `AiSummary.CandidateIsItem` | backend/app/services/ai_summary.py:219-227 | every candidate taken from a piece is a valid extracted item |
| `AiSummary.SentenceIsItem` | backend/app/services/ai_summary.py:226-227 | a long enough sentence with a term becomes an item ending in a full stop |
| `AiSummary.Extract` | backend/app/services/ai_summary.py:214-229 | the first five qualifying sentences of the reply, in reply order (all of them when fewer qualify), each turned into its item |
| `AiSummary.FirstFiveCandidates` | backend/app/services/ai_summary.py:219-229 | taking five candidates keeps min(5, qualifying) of them, the k-th from the k-th qualifying piece |
| `AiSummary.ExtractItems` | backend/app/services/ai_summary.py:219-229 | every extracted item is a sentence of the reply mentioning a term, trimmed and ended with a full stop |
| `AiSummary.ExtractKeepsAllFew` | backend/app/services/ai_summary.py:229 | with five candidates or fewer, every candidate is kept |
| `AiSummary.RiskLevel` | backend/app/services/ai_summary.py:248-264 | critical iff the reply mentions a critical keyword; high iff not critical and severity is high or a warning keyword is mentioned; medium iff neither and severity is medium; low otherwise |
| `AiSummary.RiskAtLeastSeverity` | backend/app/services/ai_summary.py:248-264 | the risk is never below the one severity implies, and exceeds it only because of a keyword |
| `AiSummary.Digits` | backend/app/services/ai_summary.py:285 | a non-negative number is written as a non-empty string of digits, with a leading zero only for 0 |
| `AiSummary.DigitsRoundTrip` | backend/app/services/ai_summary.py:285 | reading the digits back gives the number |
| `AiSummary.Decimal` | backend/app/services/ai_summary.py:285 | an integer is written with a leading minus iff it is negative, followed by digits without leading zeros that read back as its magnitude |
| `AiSummary.Fallback` | backend/app/services/ai_summary.py:266-288 | the fallback has confidence 0.5, a risk and a summary message set by the anomaly total (above 50, above 20, otherwise), one section holding the summary, two key findings and the fixed recommendations |
| `AiSummary.FallbackRiskBands` | backend/app/services/ai_summary.py:271-279 | the fallback's risk bands (above 50 high, above 20 medium) are the anomaly severity bands |
| `AiSummary.GenerateSummary` | backend/app/services/ai_summary.py:14-61 | the fallback is returned iff there is no client, the statistics are incomplete or the call fails; otherwise the reply supplies summary, risk, findings and recommendations, every section holds the text of the reply routed to it, and confidence comes from the data |
| `Firmware.Selected` | backend/app/routers/firmware.py:49-50 | with a node filter exactly that node's entries, each with all its copies; without one, all entries |
| `Firmware.Page` | backend/app/routers/firmware.py:52 | the window of at most `limit` entries starting at `skip` |
| `Firmware.PagesJoin` | backend/app/routers/firmware.py:52 | two adjacent pages join into one page |
| `Firmware.List` | backend/app/routers/firmware.py:27-74 | listed entries come from the store, match the filter, and number at most `limit` |
| `Firmware.NextId` | backend/app/db/models.py:93 | a fresh identifier exceeds every stored one |
| `Firmware.Log` | backend/app/routers/firmware.py:95-121 | logging appends one entry with a fresh identifier, the submitted fields, the current time and the validity flag set |
| `Firmware.LogKeepsFlags` | backend/app/db/models.py:99 | when every stored entry is flagged valid, logging keeps it so |
| `Firmware.Find` | backend/app/routers/firmware.py:143-146 | finds the entry with the identifier, or reports not found |
| `Firmware.ApplyPatch` | backend/app/routers/firmware.py:190-198 | only the supplied fields change |
| `Firmware.PatchIdempotent` | backend/app/routers/firmware.py:190-198 | patching twice is patching once, and the empty patch changes nothing |
| `Firmware.Update` | backend/app/routers/firmware.py:184-201 | fails iff the identifier is unknown; otherwise only that entry is patched |
| `Firmware.Delete` | backend/app/routers/firmware.py:238-245 | fails iff the identifier is unknown; otherwise exactly one entry with it is removed |
| `Firmware.DeleteRemovesExactly` | backend/app/routers/firmware.py:238-245 | with distinct identifiers the entry is gone and every other entry stays |
| `Firmware.SortNewestFirst` | backend/app/routers/firmware.py:277-279 | a newest-first permutation of the entries |
| `Firmware.NodeEntries` | backend/app/routers/firmware.py:277-279 | exactly the node's entries, each with all its copies, newest first |
| `Firmware.CurrentFirmware` | backend/app/routers/firmware.py:296-305 | the newest entry flagged valid, or none when none is flagged |
| `Firmware.History` | backend/app/routers/firmware.py:276-314 | fails iff the node has no entry; otherwise all its entries newest first, each with all its copies, with their count and current firmware |
| `Firmware.CurrentIsNewestWhenAllFlagged` | backend/app/routers/firmware.py:296-305 | when every entry is flagged valid, the current firmware is the newest entry's |
| `Firmware.Latest` | backend/app/routers/firmware.py:342-344 | the node's most recently logged entry, or none |
| `Firmware.ValidateNode` | backend/app/routers/firmware.py:340-371 | valid iff the latest entry has both versions and a date; the reported versions and date are the latest entry's; with no entry they are absent and the error is 'No firmware data found' |
| `Firmware.ValidateEach` | backend/app/routers/firmware.py:340-371 | one validation per requested node, in order |
| `Firmware.ValidateNodes` | backend/app/routers/firmware.py:337-380 | one result per node, with the valid and invalid counts adding up to the total |
| `Firmware.FlagAndValidationDisagree` | backend/app/routers/firmware.py:296-371 | an entry without a baseband version is current firmware in the history, yet fails validation |
| `Health.Worst` | backend/app/routers/health.py:48-52 | unhealthy iff any status is; degraded iff none is unhealthy and one is degraded; healthy iff all are |
| `Health.WorstIsMaximum` | backend/app/routers/health.py:48-52 | the overall status is the highest-ranked component status |
| `Health.WorstComposes` | backend/app/routers/health.py:250-254 | the order of the components does not matter, and worst-of composes over joined lists |
| `Health.AiServiceCheck` | backend/app/routers/health.py:212-232 | the language-model service is healthy and available iff a key is set |
| `Health.Dependencies` | backend/app/routers/health.py:244-248 | three dependencies; only the language-model API can be degraded, when no key is set |
| `Health.ExternalStatus` | backend/app/routers/health.py:241-260 | never unhealthy; degraded iff no key is set |
| `Health.Recorded` | backend/app/routers/health.py:30-45 | the first k components in check order, each with its status |
| `Health.Statuses` | backend/app/routers/health.py:48 | the statuses of the recorded components, in order |
| `Health.HealthCheck` | backend/app/routers/health.py:15-76 | without an exception the overall status is the worst of four components; component `i` is the `i`-th of API, database, AI service, external with the status its own check gives; an exception forces unhealthy and keeps only the components recorded before it |
| `Health.OverallTable` | backend/app/routers/health.py:30-53 | unhealthy iff the database does not answer; degraded iff it answers and no key is set; healthy otherwise |
| `Health.Lookup` | backend/app/routers/health.py:278-280 | a component's recorded status, or unknown iff it was not recorded |
| `Health.Store` | backend/app/routers/health.py:269-283 | the stored record carries each component's recorded status and the error message |
| `Health.StoredStatuses` | backend/app/routers/health.py:269-283 | a check that raised stores unknown for exactly the components it had not reached |
| `Health.PlaceholderKeyDisagreement` | backend/app/routers/health.py:216-232 | the placeholder key passes the health check, but the summary service creates no client for it; every key that service accepts passes |
| `Text.Split` | backend/app/services/ai_summary.py:190 | at least one piece, none containing the separator, and joining them gives back the string |
| `Text.SplitJoin` | backend/app/services/ai_summary.py:219 | splitting a join of separator-free pieces gives the pieces back |
| `Text.Strip` | backend/app/services/parser.py:63 | the result is the string with its leading and trailing white space removed: an infix of it with only white space before and after, which neither begins nor ends with white space |
| `Text.StripIdempotent` | backend/app/services/parser.py:63 | stripping twice is stripping once |
| `Text.StripEmptyIffBlank` | backend/app/services/parser.py:63 | stripping gives the empty string iff the string is all white space |
| `Seqs.DedupFrom` | backend/app/services/anomaly.py:83-92 | the kept keys are distinct and are exactly the keys not seen before |
| `Seqs.DedupFirstValue` | backend/app/services/anomaly.py:88-92 | each kept pair is the first pair with its key |
| `Seqs.DedupFirstOrder` | backend/app/services/anomaly.py:83-92 | the kept pairs appear in the order of their keys' first occurrences |
| `Seqs.DedupKeepsFirst` | backend/app/services/anomaly.py:83-92 | the first pair of every key is kept |
| `Seqs.CountComplement` | backend/app/routers/firmware.py:378-379 | the counts of a predicate and its negation add up to the length |
| `Seqs.Take` | backend/app/services/ai_summary.py:229 | a prefix of length at most n |

## Left out

- Statistics: means, standard deviations, medians, Pearson coefficients and p-values, and rolling correlations come from a numerical library. They are oracle parameters; the model does not compute them.
- Floating point is modelled by exact reals. Rounding, infinities and the IEEE details of NaN beyond "every comparison is false" are not modelled.
- Reading the uploaded file is not modelled: CSV decoding and date parsing produce the `Table` and the time stamps that the model takes as input.
- The database session and HTTP request handling are not modelled; the store is a sequence of entries and the outcome of a request is a `Result`.
- Logging, timings and response-time measurements are not modelled.
- The language-model request is not modelled: the prompt text and the remote call are left out, and the reply is a parameter.
- The prompt formats 'N/A' with a numeric format when a statistic is missing. That raises, and the fallback is taken. The model covers this as `statsComplete`; it does not build the prompt.
- The health router's `/simple`, `/database`, `/ai` and `/history` endpoints are not modelled. They repeat single component checks or read stored records.
- The firmware router's fetch by identifier is modelled only as the lookup `Firmware.Find`; the response shaping is left out.
- Column length limits of the database schema are left out.
- Duplicate headers are left out. When two headers clean to the same name the table would hold two columns of that name; the model assumes headers stay distinct.
- Case mapping and white space are ASCII only.
- Listing without an explicit order is modelled in insertion order. The database gives no order guarantee.
- Parser.SortByTime: states sortedness and permutation but not the order of rows with equal time stamps, because the library's default sort is not stable.
- Parser.MetadataOf: bounds the missing-value counts by the row count but does not restate them as counts of missing cells (the time range and the means are stated); what they come to after cleaning is stated by Parser.CleanedCountsZero.
- The numeric coercion after filling and trimming (backend/app/services/parser.py:141-144) is not modelled. A KPI cell is a number or NaN, so a non-numeric cell, whose median would raise, cannot be represented.
- Frame: the row count is not tied to the column lengths by an invariant. The row count only sets the length thresholds, and every position is taken from a column itself.
- Correlation.Insights: states the order of the insight kinds, not the order among the pair insights or among the stability insights.
- Firmware.Page: `skip` and `limit` are natural numbers. The endpoint accepts any integer and passes a negative one to the database unchecked (backend/app/routers/firmware.py:30-31, 50); what the database does with it is outside the model.
- Firmware.List: states membership, filtering and the size bound; the exact window is stated by Firmware.Page and Firmware.Selected.
- Anomaly.RollingMean: states when the rolling mean exists, not its value.

## Findings

| source | as written | input that shows it | evidently intended | confidence | as-written member | corrected member |
|---|---|---|---|---|---|---|
| backend/app/services/correlation.py:246-253 | With fewer than 20 rows the rolling window is below 5, and stability returns an error string in place of its per-pair map. The insight loop then subscripts that string, which raises a type error. | any table of six rows holding all three metrics | insights skip the stability part when it reported too few rows, as the rolling-correlation part does | high; not executed | `Correlation.AnalyzeAsWritten` | `Correlation.Analyze` |
