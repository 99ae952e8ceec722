/** The comparison router's decision logic: per-KPI verdicts between two
    analyses, the severity and correlation-change verdicts, the improvement
    score and level, the overall assessment and its lists of improvements and
    concerns, and the comparison of a panel against a baseline. */
module Compare {
  import opened Wrappers
  import opened Kpi
  import Seqs
  import Anomaly
  import Correlation

  datatype Verdict = Improved | Degraded | Stable

  function Flip(v: Verdict): Verdict {
    match v
    case Improved => Degraded
    case Degraded => Improved
    case Stable => Stable
  }

  // ---------------------------------------------------------------------
  // KPI verdict
  // ---------------------------------------------------------------------

  /** The relative change |after - before| / |before| in percent is below 5;
      it counts as 0 when the before value is 0, and NaN is never below 5. */
  predicate SmallChange(before: Cell, after: Cell) {
    before == Some(0.0)
    || (before.Some? && after.Some? && Abs((after.value - before.value) / before.value * 100.0) < 5.0)
  }

  /** The PRB utilisation band 40..80, inclusive. */
  predicate InPrbBand(x: Cell) {
    x.Some? && 40.0 <= x.value <= 80.0
  }

  /** RTWP improves by falling and SINR by rising; PRB improves by landing in
      the band whatever it was before, and degrades only by leaving it; any
      other metric, and any small change, is stable. */
  function KpiVerdict(metric: string, before: Cell, after: Cell): (v: Verdict)
    ensures SmallChange(before, after) ==> v == Stable
    ensures metric == "RTWP" && !SmallChange(before, after) ==>
      v != Stable && (v == Improved <==> before.Some? && after.Some? && after.value < before.value)
    ensures metric == "SINR" && !SmallChange(before, after) ==>
      v != Stable && (v == Improved <==> before.Some? && after.Some? && after.value > before.value)
    ensures metric == "PRB" && !SmallChange(before, after) ==>
      (v == Improved <==> InPrbBand(after)) && (v == Degraded <==> !InPrbBand(after) && InPrbBand(before))
    ensures metric != "RTWP" && metric != "SINR" && metric != "PRB" ==> v == Stable
  {
    if SmallChange(before, after) then Stable
    else if metric == "RTWP" then
      (if before.Some? && after.Some? && after.value < before.value then Improved else Degraded)
    else if metric == "SINR" then
      (if before.Some? && after.Some? && after.value > before.value then Improved else Degraded)
    else if metric == "PRB" then
      (if InPrbBand(after) then Improved else if InPrbBand(before) then Degraded else Stable)
    else Stable
  }

  /** RTWP is SINR upside down: negating both values turns one verdict into the other. */
  lemma RtwpMirrorsSinr(before: real, after: real)
    ensures KpiVerdict("RTWP", Some(before), Some(after)) == KpiVerdict("SINR", Some(-before), Some(-after))
  {
    if before != 0.0 {
      var q := (after - before) / before;
      assert q * before == after - before;
      assert ((-after) - (-before)) / (-before) == q by {
        assert q * (-before) == (-after) - (-before);
      }
    }
  }

  /** An unchanged, defined mean is always stable. */
  lemma KpiUnchangedIsStable(metric: string, x: real)
    ensures KpiVerdict(metric, Some(x), Some(x)) == Stable
  {
    if x != 0.0 {
      assert (x - x) / x * 100.0 == 0.0;
    }
  }

  // ---------------------------------------------------------------------
  // Severity and correlation-change verdicts
  // ---------------------------------------------------------------------

  /** low = 1, medium = 2, high = 3, and any other label counts as medium. */
  function SeverityLevel(s: string): nat {
    if s == "low" then 1 else if s == "medium" then 2 else if s == "high" then 3 else 2
  }

  function SeverityVerdict(before: string, after: string): (v: Verdict)
    ensures v == Stable <==> SeverityLevel(before) == SeverityLevel(after)
    ensures v == Improved <==> SeverityLevel(after) < SeverityLevel(before)
  {
    if SeverityLevel(after) < SeverityLevel(before) then Improved
    else if SeverityLevel(after) > SeverityLevel(before) then Degraded
    else Stable
  }

  /** Swapping before and after swaps improved and degraded. */
  lemma SeverityAntisymmetric(a: string, b: string)
    ensures SeverityVerdict(a, b) == Flip(SeverityVerdict(b, a))
  {
  }

  /** On the detector's own labels the verdict follows the detector's severity order. */
  lemma SeverityVerdictFollowsRank(a: Anomaly.Severity, b: Anomaly.Severity)
    ensures SeverityVerdict(Anomaly.Label(a), Anomaly.Label(b)) == Improved <==> Anomaly.Rank(b) < Anomaly.Rank(a)
    ensures SeverityVerdict(Anomaly.Label(a), Anomaly.Label(b)) == Stable <==> a == b
  {
  }

  datatype Change = Unchanged | ModerateChange | SignificantChange

  /** |Δr| < 0.1 is stable, < 0.3 a moderate change, anything larger significant. */
  function CorrelationChange(before: real, after: real): (c: Change)
    ensures c == Unchanged <==> Abs(after - before) < 0.1
    ensures c == SignificantChange <==> Abs(after - before) >= 0.3
  {
    var d := Abs(after - before);
    if d < 0.1 then Unchanged else if d < 0.3 then ModerateChange else SignificantChange
  }

  lemma CorrelationChangeSymmetric(a: real, b: real)
    ensures CorrelationChange(a, b) == CorrelationChange(b, a)
  {
    assert Abs(b - a) == Abs(a - b);
  }

  // ---------------------------------------------------------------------
  // Improvement score and level
  // ---------------------------------------------------------------------

  predicate IsImproved(v: Verdict) {
    v == Improved
  }

  predicate IsDegraded(v: Verdict) {
    v == Degraded
  }

  /** A net count between -n and n, divided by n > 0, lies in [-1, 1]. */
  lemma RatioBounds(k: int, n: int)
    requires 0 < n && -n <= k <= n
    ensures -1.0 <= k as real / n as real <= 1.0
  {
    var q := k as real / n as real;
    assert q * n as real == k as real;
    assert q > 1.0 ==> q * n as real > n as real;
    assert q < -1.0 ==> q * n as real < -(n as real);
  }

  /** 40 points when the anomaly total fell, plus 60 times the net share of
      improved KPIs (0 without KPIs), out of a maximum of 100. */
  function ImprovementScore(totalChange: int, verdicts: seq<Verdict>): (r: real)
    ensures -60.0 <= r <= 100.0
    ensures totalChange >= 0 ==> r <= 60.0
    ensures totalChange < 0 ==> r >= -20.0
    ensures |verdicts| == 0 ==> r == AnomalyPoints(totalChange)
    ensures |verdicts| > 0 ==>
      r * |verdicts| as real == AnomalyPoints(totalChange) * |verdicts| as real + 60.0 * NetImproved(verdicts) as real
  {
    ScoreOf(AnomalyPoints(totalChange), NetImproved(verdicts), |verdicts|)
  }

  /** Improved KPIs minus degraded ones. */
  function NetImproved(verdicts: seq<Verdict>): (net: int)
    ensures -|verdicts| <= net <= |verdicts|
  {
    Seqs.CountDisjoint(verdicts, IsImproved, IsDegraded);
    Seqs.Count(verdicts, IsImproved) - Seqs.Count(verdicts, IsDegraded)
  }

  /** `(anomaly + kpi) / 100 * 100` with the KPI part 60 times the net share. */
  function ScoreOf(anomaly: real, net: int, n: nat): (r: real)
    requires anomaly == 0.0 || anomaly == 40.0
    requires -(n as int) <= net <= n
    ensures anomaly - 60.0 <= r <= anomaly + 60.0
    ensures n == 0 ==> r == anomaly
    ensures n > 0 ==> r * n as real == anomaly * n as real + 60.0 * net as real
  {
    ScaleBack(anomaly, net, n);
    var kpi := if n > 0 then
        RatioBounds(net, n);
        (net as real / n as real) * 60.0
      else 0.0;
    (anomaly + kpi) / 100.0 * 100.0
  }

  /** The anomaly part of the score: 40 points when the anomaly total fell. */
  function AnomalyPoints(totalChange: int): real {
    if totalChange < 0 then 40.0 else 0.0
  }

  lemma ScaleBack(anomaly: real, net: int, n: nat)
    ensures n > 0 ==>
      ((anomaly + (net as real / n as real) * 60.0) / 100.0 * 100.0 * n as real ==
       anomaly * n as real + 60.0 * net as real)
  {
    if n > 0 {
      var q := net as real / n as real;
      assert q * n as real == net as real;
      calc {
        (anomaly + q * 60.0) / 100.0 * 100.0 * n as real;
        (anomaly + q * 60.0) * n as real;
        anomaly * n as real + 60.0 * (q * n as real);
      }
    }
  }

  /** The lowest score: every KPI degraded and no fall in anomalies gives -60. */
  lemma AllDegradedScore(totalChange: int, verdicts: seq<Verdict>)
    requires totalChange >= 0 && |verdicts| > 0
    requires forall i :: 0 <= i < |verdicts| ==> verdicts[i] == Degraded
    ensures ImprovementScore(totalChange, verdicts) == -60.0
  {
    var n := |verdicts|;
    AllCounted(verdicts, IsDegraded);
    assert Seqs.Count(verdicts, IsImproved) == 0;
    assert NetImproved(verdicts) == -n;
    NetExtreme(ImprovementScore(totalChange, verdicts), AnomalyPoints(totalChange), NetImproved(verdicts), n);
  }

  /** A score whose net count is all of the KPIs, either way, is the anomaly term moved by 60. */
  lemma NetExtreme(r: real, anomaly: real, net: int, n: nat)
    requires n > 0 && (net == n || net == -(n as int))
    requires r * n as real == anomaly * n as real + 60.0 * net as real
    ensures net == n ==> r == anomaly + 60.0
    ensures net == -(n as int) ==> r == anomaly - 60.0
  {
    var m := n as real;
    if net == n {
      assert net as real == m;
      assert (anomaly + 60.0) * m == anomaly * m + 60.0 * m;
      Cancel(r, anomaly + 60.0, n);
    } else {
      assert net as real == -m;
      assert (anomaly - 60.0) * m == anomaly * m - 60.0 * m;
      Cancel(r, anomaly - 60.0, n);
    }
  }

  /** Equal multiples of a positive count have equal factors. */
  lemma Cancel(x: real, y: real, n: nat)
    requires n > 0 && x * n as real == y * n as real
    ensures x == y
  {
    var m := n as real;
    assert x == (x * m) / m;
    assert y == (y * m) / m;
  }

  /** The highest score: every KPI improved and fewer anomalies gives 100. */
  lemma AllImprovedScore(totalChange: int, verdicts: seq<Verdict>)
    requires totalChange < 0 && |verdicts| > 0
    requires forall i :: 0 <= i < |verdicts| ==> verdicts[i] == Improved
    ensures ImprovementScore(totalChange, verdicts) == 100.0
  {
    var n := |verdicts|;
    AllCounted(verdicts, IsImproved);
    assert Seqs.Count(verdicts, IsDegraded) == 0;
    assert NetImproved(verdicts) == n;
    NetExtreme(ImprovementScore(totalChange, verdicts), AnomalyPoints(totalChange), NetImproved(verdicts), n);
  }

  /** With every KPI stable the score is just the anomaly term. */
  lemma AllStableScore(totalChange: int, verdicts: seq<Verdict>)
    requires forall i :: 0 <= i < |verdicts| ==> verdicts[i] == Stable
    ensures ImprovementScore(totalChange, verdicts) == if totalChange < 0 then 40.0 else 0.0
  {
    assert Seqs.Count(verdicts, IsImproved) == 0;
    assert Seqs.Count(verdicts, IsDegraded) == 0;
    assert NetImproved(verdicts) == 0;
  }

  datatype Level = SignificantLevel | ModerateLevel | MinimalLevel | DegradedLevel

  function ImprovementLevel(score: real): (l: Level)
    ensures l == SignificantLevel <==> score >= 80.0
    ensures l == ModerateLevel <==> 60.0 <= score < 80.0
    ensures l == MinimalLevel <==> 40.0 <= score < 60.0
    ensures l == DegradedLevel <==> score < 40.0
  {
    if score >= 80.0 then SignificantLevel
    else if score >= 60.0 then ModerateLevel
    else if score >= 40.0 then MinimalLevel
    else DegradedLevel
  }

  function LevelRank(l: Level): nat {
    match l
    case DegradedLevel => 0
    case MinimalLevel => 1
    case ModerateLevel => 2
    case SignificantLevel => 3
  }

  lemma ImprovementLevelMonotone(a: real, b: real)
    requires a <= b
    ensures LevelRank(ImprovementLevel(a)) <= LevelRank(ImprovementLevel(b))
  {
  }

  /** Without fewer anomalies the level is at best `moderate`. */
  lemma NoReductionNoSignificantLevel(totalChange: int, verdicts: seq<Verdict>)
    requires totalChange >= 0
    ensures ImprovementLevel(ImprovementScore(totalChange, verdicts)) != SignificantLevel
  {
  }

  // ---------------------------------------------------------------------
  // Overall assessment
  // ---------------------------------------------------------------------

  datatype Assessment = SignificantImprovement | ModerateImprovement | RemainedStable | MayHaveDegraded | Mixed

  /** The rules are tried in order; `improvements` is the number of improved KPIs. */
  function OverallAssessment(anomalyChange: int, improvements: int): (a: Assessment)
    ensures a == RemainedStable <==> anomalyChange == 0 && improvements == 0
    ensures a == MayHaveDegraded <==> anomalyChange > 0 && improvements == 0
    ensures a == SignificantImprovement <==> anomalyChange < -10 && improvements >= 2
    ensures a == SignificantImprovement || a == ModerateImprovement <==> anomalyChange < 0 && improvements >= 1
  {
    if anomalyChange < -10 && improvements >= 2 then SignificantImprovement
    else if anomalyChange < 0 && improvements >= 1 then ModerateImprovement
    else if anomalyChange == 0 && improvements == 0 then RemainedStable
    else if anomalyChange > 0 && improvements == 0 then MayHaveDegraded
    else Mixed
  }

  /** `mixed` covers exactly the cases no rule claims, e.g. fewer anomalies
      with no improved KPI, or more anomalies with one. */
  lemma MixedCases(anomalyChange: int, improvements: nat)
    ensures OverallAssessment(anomalyChange, improvements) == Mixed <==>
      (anomalyChange < 0 && improvements == 0) || (anomalyChange >= 0 && improvements >= 1)
  {
  }

  // ---------------------------------------------------------------------
  // Before/after comparison
  // ---------------------------------------------------------------------

  /** What one side of the comparison contributes: the panel's columns, the
      column means (inputs), the detector summary and the pairwise table. */
  datatype Side = Side(frame: Frame, mean: Metric -> Cell, summary: Anomaly.Summary, pairwise: seq<Correlation.PairRecord>)

  /** Δ% of the means, 0 when the before mean is 0, NaN when a mean is NaN. */
  function PercentChange(before: Cell, after: Cell): (r: Cell)
    ensures before == Some(0.0) ==> r == Some(0.0)
    ensures r.None? <==> before != Some(0.0) && (before.None? || after.None?)
    ensures before.Some? && before.value != 0.0 && after.Some? ==>
      r.Some? && r.value * before.value == (after.value - before.value) * 100.0
  {
    if before == Some(0.0) then Some(0.0)
    else if before.Some? && after.Some? then
      RelativeChange(before.value, after.value);
      Some((after.value - before.value) / before.value * 100.0)
    else None
  }

  /** The relative change in percent, scaled back by the old value, is the change times 100. */
  lemma RelativeChange(was: real, now: real)
    requires was != 0.0
    ensures ((now - was) / was * 100.0) * was == (now - was) * 100.0
  {
    var q := (now - was) / was;
    assert q * was == now - was;
    assert (q * 100.0) * was == (q * was) * 100.0;
  }

  datatype KpiEntry = KpiEntry(metric: Metric, before: Cell, after: Cell, changePercent: Cell, verdict: Verdict)

  function EntryFor(b: Side, a: Side, m: Metric): Option<KpiEntry> {
    if b.frame.Has(m) && a.frame.Has(m) then
      Some(KpiEntry(m, b.mean(m), a.mean(m), PercentChange(b.mean(m), a.mean(m)), KpiVerdict(Name(m), b.mean(m), a.mean(m))))
    else None
  }

  /** One entry per metric present on both sides, each with its verdict,
      in the order RTWP, SINR, PRB (so no metric twice). */
  function KpiComparison(b: Side, a: Side): (r: seq<KpiEntry>)
    ensures |r| <= 3
    ensures forall m :: m in Metrics && b.frame.Has(m) && a.frame.Has(m) ==> EntryFor(b, a, m).value in r
    ensures forall k :: 0 <= k < |r| ==> EntryOfBoth(b, a, r[k])
    ensures forall i, j :: 0 <= i < j < |r| ==> MetricIndex(r[i].metric) < MetricIndex(r[j].metric)
  {
    KpiEntries(b, a);
    KpiOrder(b, a);
    Seqs.Choose(Metrics, EntryPicker(b, a))
  }

  /** Every metric both sides have yields an entry, and every entry is one of them. */
  lemma KpiEntries(b: Side, a: Side)
    ensures forall m :: m in Metrics && b.frame.Has(m) && a.frame.Has(m) ==>
      EntryFor(b, a, m).value in Seqs.Choose(Metrics, EntryPicker(b, a))
    ensures forall k :: 0 <= k < |Seqs.Choose(Metrics, EntryPicker(b, a))| ==>
      EntryOfBoth(b, a, Seqs.Choose(Metrics, EntryPicker(b, a))[k])
  {
    var f := EntryPicker(b, a);
    forall m | m in Metrics && b.frame.Has(m) && a.frame.Has(m)
      ensures EntryFor(b, a, m).value in Seqs.Choose(Metrics, f)
    {
      assert Metrics[MetricIndex(m)] == m;
      assert f(Metrics[MetricIndex(m)]).Some?;
    }
    Seqs.ChooseAll(Metrics, f, e => EntryOfBoth(b, a, e));
  }

  function EntryPicker(b: Side, a: Side): Metric -> Option<KpiEntry> {
    m => EntryFor(b, a, m)
  }

  function BothHave(b: Side, a: Side): Metric -> bool {
    m => b.frame.Has(m) && a.frame.Has(m)
  }

  /** The entries follow the order of `Metrics`. */
  lemma KpiOrder(b: Side, a: Side)
    ensures forall i, j :: 0 <= i < j < |Seqs.Choose(Metrics, EntryPicker(b, a))| ==>
      MetricIndex(Seqs.Choose(Metrics, EntryPicker(b, a))[i].metric) < MetricIndex(Seqs.Choose(Metrics, EntryPicker(b, a))[j].metric)
  {
    KpiPositions(b, a);
    var w := Seqs.Where(Metrics, BothHave(b, a));
    assert forall i, j :: 0 <= i < j < |w| ==> w[i] < w[j];
  }

  /** Each entry sits at the position of its metric among those both sides have. */
  lemma KpiPositions(b: Side, a: Side)
    ensures var r := Seqs.Choose(Metrics, EntryPicker(b, a));
      var w := Seqs.Where(Metrics, BothHave(b, a));
      |r| == |w| && forall k :: 0 <= k < |r| ==> MetricIndex(r[k].metric) == w[k]
  {
    var f := EntryPicker(b, a);
    var p := BothHave(b, a);
    Seqs.ChooseWhere(Metrics, f, p);
    var r := Seqs.Choose(Metrics, f);
    var w := Seqs.Where(Metrics, p);
    forall k | 0 <= k < |r| ensures MetricIndex(r[k].metric) == w[k] {
      assert f(Metrics[w[k]]) == Some(r[k]);
      IndexOfMetric(w[k]);
    }
  }

  /** An entry for a metric both sides have, with their means, the relative
      change of the means and its verdict. */
  predicate EntryOfBoth(b: Side, a: Side, e: KpiEntry) {
    b.frame.Has(e.metric) && a.frame.Has(e.metric) && e.before == b.mean(e.metric) && e.after == a.mean(e.metric) &&
    e.changePercent == PercentChange(e.before, e.after) &&
    e.verdict == KpiVerdict(Name(e.metric), e.before, e.after)
  }

  function Verdicts(entries: seq<KpiEntry>): (r: seq<Verdict>)
    ensures |r| == |entries| && forall k :: 0 <= k < |r| ==> r[k] == entries[k].verdict
  {
    seq(|entries|, k requires 0 <= k < |entries| => entries[k].verdict)
  }

  datatype CorrelationDelta = CorrelationDelta(pair: Correlation.Pair, before: real, after: real, change: real, stability: Change)

  /** The first record of a pair in a pairwise table. */
  function FindPair(recs: seq<Correlation.PairRecord>, p: Correlation.Pair): (r: Option<Correlation.PairRecord>)
    ensures r.Some? ==> r.value in recs && r.value.pair == p
    ensures r.None? <==> forall k :: 0 <= k < |recs| ==> recs[k].pair != p
  {
    if recs == [] then None
    else if recs[0].pair == p then Some(recs[0])
    else FindPair(recs[1..], p)
  }

  const ComparedPairs: seq<Correlation.Pair> := [(RTWP, SINR), (RTWP, PRB), (SINR, PRB)]

  function DeltaFor(before: seq<Correlation.PairRecord>, after: seq<Correlation.PairRecord>, p: Correlation.Pair): (r: Option<CorrelationDelta>)
    ensures r.Some? <==> FindPair(before, p).Some? && FindPair(after, p).Some?
    ensures r.Some? ==> r.value.pair == p && DeltaOf(before, after, r.value)
  {
    match (FindPair(before, p), FindPair(after, p))
    case (Some(x), Some(y)) =>
      Some(CorrelationDelta(p, x.correlation, y.correlation, y.correlation - x.correlation, CorrelationChange(x.correlation, y.correlation)))
    case _ => None
  }

  /** The rank of a pair in `ComparedPairs`, increasing along it. */
  function PairRank(p: Correlation.Pair): nat {
    3 * MetricIndex(p.0) + MetricIndex(p.1)
  }

  /** A delta between the first records of its pair in the two tables. */
  predicate DeltaOf(before: seq<Correlation.PairRecord>, after: seq<Correlation.PairRecord>, d: CorrelationDelta) {
    FindPair(before, d.pair).Some? && FindPair(after, d.pair).Some? &&
    d.before == FindPair(before, d.pair).value.correlation &&
    d.after == FindPair(after, d.pair).value.correlation &&
    d.change == d.after - d.before &&
    d.stability == CorrelationChange(d.before, d.after)
  }

  /** One delta per compared pair present in both tables, each with its
      change verdict, in the order of `ComparedPairs`. */
  function CorrelationComparison(before: seq<Correlation.PairRecord>, after: seq<Correlation.PairRecord>): (r: seq<CorrelationDelta>)
    ensures forall p :: p in ComparedPairs && FindPair(before, p).Some? && FindPair(after, p).Some? ==>
      DeltaFor(before, after, p).value in r
    ensures forall k :: 0 <= k < |r| ==> r[k].pair in ComparedPairs && DeltaOf(before, after, r[k])
    ensures forall i, j :: 0 <= i < j < |r| ==> PairRank(r[i].pair) < PairRank(r[j].pair)
  {
    DeltasFound(before, after);
    CorrelationOrder(before, after);
    Seqs.Choose(ComparedPairs, DeltaPicker(before, after))
  }

  /** Every compared pair found in both tables has its delta, and only those do. */
  lemma DeltasFound(before: seq<Correlation.PairRecord>, after: seq<Correlation.PairRecord>)
    ensures var r := Seqs.Choose(ComparedPairs, DeltaPicker(before, after));
      (forall p :: p in ComparedPairs && FindPair(before, p).Some? && FindPair(after, p).Some? ==>
        DeltaFor(before, after, p).value in r) &&
      forall k :: 0 <= k < |r| ==> r[k].pair in ComparedPairs && DeltaOf(before, after, r[k])
  {
    var f := DeltaPicker(before, after);
    var r := Seqs.Choose(ComparedPairs, f);
    forall k | 0 <= k < |r| ensures r[k].pair in ComparedPairs && DeltaOf(before, after, r[k]) {
      assert r[k] in r;
      var i :| 0 <= i < |ComparedPairs| && f(ComparedPairs[i]) == Some(r[k]);
    }
    forall p | p in ComparedPairs && FindPair(before, p).Some? && FindPair(after, p).Some?
      ensures DeltaFor(before, after, p).value in r
    {
      assert f(p) == DeltaFor(before, after, p);
      var i :| 0 <= i < |ComparedPairs| && ComparedPairs[i] == p;
    }
  }

  function DeltaPicker(before: seq<Correlation.PairRecord>, after: seq<Correlation.PairRecord>): Correlation.Pair -> Option<CorrelationDelta> {
    p => DeltaFor(before, after, p)
  }

  function BothRecord(before: seq<Correlation.PairRecord>, after: seq<Correlation.PairRecord>): Correlation.Pair -> bool {
    p => FindPair(before, p).Some? && FindPair(after, p).Some?
  }

  /** The deltas follow the order of `ComparedPairs`. */
  lemma CorrelationOrder(before: seq<Correlation.PairRecord>, after: seq<Correlation.PairRecord>)
    ensures var r := Seqs.Choose(ComparedPairs, DeltaPicker(before, after));
      forall i, j :: 0 <= i < j < |r| ==> PairRank(r[i].pair) < PairRank(r[j].pair)
  {
    CorrelationPositions(before, after);
    RanksIncrease();
    var w := Seqs.Where(ComparedPairs, BothRecord(before, after));
    assert forall i, j :: 0 <= i < j < |w| ==> w[i] < w[j];
  }

  /** Each delta sits at the position of its pair among those both tables hold. */
  lemma CorrelationPositions(before: seq<Correlation.PairRecord>, after: seq<Correlation.PairRecord>)
    ensures var r := Seqs.Choose(ComparedPairs, DeltaPicker(before, after));
      var w := Seqs.Where(ComparedPairs, BothRecord(before, after));
      |r| == |w| && forall k :: 0 <= k < |r| ==> w[k] < |ComparedPairs| && r[k].pair == ComparedPairs[w[k]]
  {
    var f := DeltaPicker(before, after);
    var q := BothRecord(before, after);
    assert forall x :: q(x) == f(x).Some?;
    Seqs.ChooseWhere(ComparedPairs, f, q);
    var r := Seqs.Choose(ComparedPairs, f);
    var w := Seqs.Where(ComparedPairs, q);
    forall k | 0 <= k < |r| ensures w[k] < |ComparedPairs| && r[k].pair == ComparedPairs[w[k]] {
      assert f(ComparedPairs[w[k]]) == Some(r[k]);
    }
  }

  lemma RanksIncrease()
    ensures forall i, j :: 0 <= i < j < |ComparedPairs| ==> PairRank(ComparedPairs[i]) < PairRank(ComparedPairs[j])
  {
    assert PairRank(ComparedPairs[0]) == 1 && PairRank(ComparedPairs[1]) == 2 && PairRank(ComparedPairs[2]) == 5;
  }

  datatype Note =
    | ReducedAnomalies(amount: int)
    | IncreasedAnomalies(amount: int)
    | MetricImproved(metric: Metric, percent: Cell)
    | MetricDegraded(metric: Metric, percent: Cell)

  predicate EntryImproved(e: KpiEntry) {
    e.verdict == Improved
  }

  predicate EntryDegraded(e: KpiEntry) {
    e.verdict == Degraded
  }

  function ImprovedNote(e: KpiEntry): Option<Note> {
    if e.verdict == Improved then Some(MetricImproved(e.metric, e.changePercent)) else None
  }

  function DegradedNote(e: KpiEntry): Option<Note> {
    if e.verdict == Degraded then Some(MetricDegraded(e.metric, AbsPercent(e.changePercent))) else None
  }

  /** The magnitude of a percentage; NaN stays NaN. */
  function AbsPercent(c: Cell): Cell {
    if c.Some? then Some(Abs(c.value)) else None
  }

  /** A note for a fall in anomalies, then one per improved KPI, in entry
      order, with that KPI's relative change. */
  function KeyImprovements(entries: seq<KpiEntry>, totalChange: int): (r: seq<Note>)
    ensures |r| == (if totalChange < 0 then 1 else 0) + Seqs.Count(entries, EntryImproved)
    ensures ReducedAnomalies(-totalChange) in r <==> totalChange < 0
    ensures forall n :: n in r ==> n.ReducedAnomalies? || n.MetricImproved?
  {
    Seqs.ChooseCount(entries, ImprovedNote, EntryImproved);
    var head := if totalChange < 0 then [ReducedAnomalies(-totalChange)] else [];
    var tail := Seqs.Choose(entries, ImprovedNote);
    assert forall n :: n in tail ==> n.MetricImproved?;
    head + tail
  }

  /** The notes of `KeyImprovements` in order: the anomaly note first when there is
      one, then one note per improved entry, in entry order. */
  lemma KeyImprovementsInOrder(entries: seq<KpiEntry>, totalChange: int)
    ensures |KeyImprovements(entries, totalChange)| == (if totalChange < 0 then 1 else 0) + |Seqs.Where(entries, EntryImproved)|
    ensures totalChange < 0 ==> KeyImprovements(entries, totalChange)[0] == ReducedAnomalies(-totalChange)
    ensures totalChange < 0 ==> forall k :: 0 <= k < |Seqs.Where(entries, EntryImproved)| ==>
      KeyImprovements(entries, totalChange)[1 + k] == Seqs.Choose(entries, ImprovedNote)[k]
    ensures totalChange >= 0 ==> KeyImprovements(entries, totalChange) == Seqs.Choose(entries, ImprovedNote)
    ensures forall k :: 0 <= k < |Seqs.Where(entries, EntryImproved)| ==>
      Seqs.Where(entries, EntryImproved)[k] < |entries| &&
      Seqs.Choose(entries, ImprovedNote)[k] == MetricImproved(entries[Seqs.Where(entries, EntryImproved)[k]].metric, entries[Seqs.Where(entries, EntryImproved)[k]].changePercent)
  {
    ImprovedTail(entries);
    var tail := Seqs.Choose(entries, ImprovedNote);
    if totalChange < 0 {
      assert KeyImprovements(entries, totalChange) == [ReducedAnomalies(-totalChange)] + tail;
    } else {
      assert KeyImprovements(entries, totalChange) == tail;
    }
  }

  lemma ImprovedTail(entries: seq<KpiEntry>)
    ensures |Seqs.Choose(entries, ImprovedNote)| == |Seqs.Where(entries, EntryImproved)|
    ensures forall k :: 0 <= k < |Seqs.Where(entries, EntryImproved)| ==>
      Seqs.Where(entries, EntryImproved)[k] < |entries| &&
      Seqs.Choose(entries, ImprovedNote)[k] == MetricImproved(entries[Seqs.Where(entries, EntryImproved)[k]].metric, entries[Seqs.Where(entries, EntryImproved)[k]].changePercent)
  {
    Seqs.ChooseWhere(entries, ImprovedNote, EntryImproved);
  }

  /** A note for a rise in anomalies, then one per degraded KPI, in entry
      order, with the magnitude of that KPI's relative change. */
  function AreasOfConcern(entries: seq<KpiEntry>, totalChange: int): (r: seq<Note>)
    ensures |r| == (if totalChange > 0 then 1 else 0) + Seqs.Count(entries, EntryDegraded)
    ensures IncreasedAnomalies(totalChange) in r <==> totalChange > 0
    ensures forall n :: n in r ==> n.IncreasedAnomalies? || n.MetricDegraded?
  {
    Seqs.ChooseCount(entries, DegradedNote, EntryDegraded);
    var head := if totalChange > 0 then [IncreasedAnomalies(totalChange)] else [];
    var tail := Seqs.Choose(entries, DegradedNote);
    assert forall n :: n in tail ==> n.MetricDegraded?;
    head + tail
  }

  /** The notes of `AreasOfConcern` in order: the anomaly note first when there is
      one, then one note per degraded entry, in entry order. */
  lemma AreasOfConcernInOrder(entries: seq<KpiEntry>, totalChange: int)
    ensures |AreasOfConcern(entries, totalChange)| == (if totalChange > 0 then 1 else 0) + |Seqs.Where(entries, EntryDegraded)|
    ensures totalChange > 0 ==> AreasOfConcern(entries, totalChange)[0] == IncreasedAnomalies(totalChange)
    ensures totalChange > 0 ==> forall k :: 0 <= k < |Seqs.Where(entries, EntryDegraded)| ==>
      AreasOfConcern(entries, totalChange)[1 + k] == Seqs.Choose(entries, DegradedNote)[k]
    ensures totalChange <= 0 ==> AreasOfConcern(entries, totalChange) == Seqs.Choose(entries, DegradedNote)
    ensures forall k :: 0 <= k < |Seqs.Where(entries, EntryDegraded)| ==>
      Seqs.Where(entries, EntryDegraded)[k] < |entries| &&
      Seqs.Choose(entries, DegradedNote)[k] == MetricDegraded(entries[Seqs.Where(entries, EntryDegraded)[k]].metric, AbsPercent(entries[Seqs.Where(entries, EntryDegraded)[k]].changePercent))
  {
    DegradedTail(entries);
    var tail := Seqs.Choose(entries, DegradedNote);
    if totalChange > 0 {
      assert AreasOfConcern(entries, totalChange) == [IncreasedAnomalies(totalChange)] + tail;
    } else {
      assert AreasOfConcern(entries, totalChange) == tail;
    }
  }

  lemma DegradedTail(entries: seq<KpiEntry>)
    ensures |Seqs.Choose(entries, DegradedNote)| == |Seqs.Where(entries, EntryDegraded)|
    ensures forall k :: 0 <= k < |Seqs.Where(entries, EntryDegraded)| ==>
      Seqs.Where(entries, EntryDegraded)[k] < |entries| &&
      Seqs.Choose(entries, DegradedNote)[k] == MetricDegraded(entries[Seqs.Where(entries, EntryDegraded)[k]].metric, AbsPercent(entries[Seqs.Where(entries, EntryDegraded)[k]].changePercent))
  {
    Seqs.ChooseWhere(entries, DegradedNote, EntryDegraded);
  }

  /** Every KPI feeds at most one of the two lists, and only the first note of
      one of them can be about the anomaly trend. */
  lemma NotesAreExclusive(entries: seq<KpiEntry>, totalChange: int)
    ensures |KeyImprovements(entries, totalChange)| + |AreasOfConcern(entries, totalChange)| <= 1 + |entries|
    ensures forall k :: 0 <= k < |KeyImprovements(entries, totalChange)| && KeyImprovements(entries, totalChange)[k].ReducedAnomalies? ==>
      k == 0 && totalChange < 0
    ensures forall k :: 0 <= k < |AreasOfConcern(entries, totalChange)| && AreasOfConcern(entries, totalChange)[k].IncreasedAnomalies? ==>
      k == 0 && totalChange > 0
  {
    Seqs.CountDisjoint(entries, EntryImproved, EntryDegraded);
    KeyImprovementsInOrder(entries, totalChange);
    AreasOfConcernInOrder(entries, totalChange);
    var ki := KeyImprovements(entries, totalChange);
    var ac := AreasOfConcern(entries, totalChange);
    forall k | 0 <= k < |ki| && !(k == 0 && totalChange < 0) ensures ki[k].MetricImproved? {
      if totalChange < 0 {
        assert ki[1 + (k - 1)] == Seqs.Choose(entries, ImprovedNote)[k - 1];
      }
    }
    forall k | 0 <= k < |ac| && !(k == 0 && totalChange > 0) ensures ac[k].MetricDegraded? {
      if totalChange > 0 {
        assert ac[1 + (k - 1)] == Seqs.Choose(entries, DegradedNote)[k - 1];
      }
    }
  }

  /** In a comparison no metric is both among the improvements and among the concerns. */
  lemma NoKpiBothWays(b: Side, a: Side, totalChange: int)
    ensures forall m, p, q :: MetricImproved(m, p) in KeyImprovements(KpiComparison(b, a), totalChange) ==>
      MetricDegraded(m, q) !in AreasOfConcern(KpiComparison(b, a), totalChange)
  {
    var es := KpiComparison(b, a);
    MetricsDistinct(es);
    ImprovedSources(es, totalChange);
    DegradedSources(es, totalChange);
  }

  /** Entries listed in strictly increasing metric order name each metric once. */
  lemma MetricsDistinct(es: seq<KpiEntry>)
    requires forall i, j :: 0 <= i < j < |es| ==> MetricIndex(es[i].metric) < MetricIndex(es[j].metric)
    ensures forall i, j :: 0 <= i < |es| && 0 <= j < |es| && es[i].metric == es[j].metric ==> i == j
  {
  }

  /** Every improvement note about a metric was written for an improved entry of that metric. */
  lemma ImprovedSources(entries: seq<KpiEntry>, totalChange: int)
    ensures forall n :: n in KeyImprovements(entries, totalChange) && n.MetricImproved? ==>
      exists i :: 0 <= i < |entries| && entries[i].verdict == Improved && entries[i].metric == n.metric
  {
    var tail := Seqs.Choose(entries, ImprovedNote);
    assert KeyImprovements(entries, totalChange) == (if totalChange < 0 then [ReducedAnomalies(-totalChange)] else []) + tail;
    forall n | n in KeyImprovements(entries, totalChange) && n.MetricImproved?
      ensures exists i :: 0 <= i < |entries| && entries[i].verdict == Improved && entries[i].metric == n.metric
    {
      assert n in tail;
      var k :| 0 <= k < |entries| && ImprovedNote(entries[k]) == Some(n);
    }
  }

  /** Every concern note about a metric was written for a degraded entry of that metric. */
  lemma DegradedSources(entries: seq<KpiEntry>, totalChange: int)
    ensures forall n :: n in AreasOfConcern(entries, totalChange) && n.MetricDegraded? ==>
      exists i :: 0 <= i < |entries| && entries[i].verdict == Degraded && entries[i].metric == n.metric
  {
    var tail := Seqs.Choose(entries, DegradedNote);
    assert AreasOfConcern(entries, totalChange) == (if totalChange > 0 then [IncreasedAnomalies(totalChange)] else []) + tail;
    forall n | n in AreasOfConcern(entries, totalChange) && n.MetricDegraded?
      ensures exists i :: 0 <= i < |entries| && entries[i].verdict == Degraded && entries[i].metric == n.metric
    {
      assert n in tail;
      var k :| 0 <= k < |entries| && DegradedNote(entries[k]) == Some(n);
    }
  }

  datatype Comparison = Comparison(
    kpis: seq<KpiEntry>,
    totalChange: int,
    severity: Verdict,
    correlations: seq<CorrelationDelta>,
    assessment: Assessment,
    improvements: seq<Note>,
    concerns: seq<Note>)

  function CompareSides(b: Side, a: Side): (c: Comparison)
    ensures c.totalChange == a.summary.total - b.summary.total
    ensures c.assessment == OverallAssessment(c.totalChange, Seqs.Count(c.kpis, EntryImproved))
    ensures c.severity == SeverityVerdict(Anomaly.Label(b.summary.severity), Anomaly.Label(a.summary.severity))
    ensures c.kpis == KpiComparison(b, a)
    ensures c.correlations == CorrelationComparison(b.pairwise, a.pairwise)
    ensures c.improvements == KeyImprovements(c.kpis, c.totalChange)
    ensures c.concerns == AreasOfConcern(c.kpis, c.totalChange)
  {
    var kpis := KpiComparison(b, a);
    var change := a.summary.total - b.summary.total;
    Comparison(
      kpis,
      change,
      SeverityVerdict(Anomaly.Label(b.summary.severity), Anomaly.Label(a.summary.severity)),
      CorrelationComparison(b.pairwise, a.pairwise),
      OverallAssessment(change, Seqs.Count(kpis, EntryImproved)),
      KeyImprovements(kpis, change),
      AreasOfConcern(kpis, change))
  }

  datatype Improvement = Improvement(score: real, level: Level, anomalyReduction: int, kpiNet: int, totalKpis: nat)

  /** The assessment of the comparison: its score and level, with the net
      number of improved KPIs (improved minus degraded). */
  function AssessImprovements(c: Comparison): (r: Improvement)
    ensures -60.0 <= r.score <= 100.0
    ensures r.level == ImprovementLevel(r.score)
    ensures r.totalKpis == |c.kpis| && -(r.totalKpis as int) <= r.kpiNet <= r.totalKpis
    ensures r.score == ImprovementScore(c.totalChange, Verdicts(c.kpis))
    ensures r.kpiNet == Seqs.Count(c.kpis, EntryImproved) - Seqs.Count(c.kpis, EntryDegraded)
    ensures r.anomalyReduction == c.totalChange
  {
    VerdictCounts(c.kpis);
    var vs := Verdicts(c.kpis);
    var score := ImprovementScore(c.totalChange, vs);
    Improvement(score, ImprovementLevel(score), c.totalChange,
      NetImproved(vs), |c.kpis|)
  }

  /** Counting verdicts is counting the entries that carry them. */
  lemma {:induction false} VerdictCounts(entries: seq<KpiEntry>)
    ensures Seqs.Count(Verdicts(entries), IsImproved) == Seqs.Count(entries, EntryImproved)
    ensures Seqs.Count(Verdicts(entries), IsDegraded) == Seqs.Count(entries, EntryDegraded)
  {
    if entries != [] {
      VerdictCounts(entries[1..]);
      assert Verdicts(entries)[1..] == Verdicts(entries[1..]);
    }
  }

  /** Comparing an analysis with itself (defined means): every KPI and the
      severity are stable, every correlation is unchanged, the assessment is
      `remained stable`, no notes are produced, and the score is 0, which
      ranks as `degraded`. */
  lemma IdenticalInputs(s: Side)
    requires forall m :: s.mean(m).Some?
    ensures var c := CompareSides(s, s);
      (forall k :: 0 <= k < |c.kpis| ==> c.kpis[k].verdict == Stable) &&
      c.totalChange == 0 && c.severity == Stable &&
      (forall k :: 0 <= k < |c.correlations| ==> c.correlations[k].stability == Unchanged) &&
      c.assessment == RemainedStable && c.improvements == [] && c.concerns == [] &&
      AssessImprovements(c).score == 0.0 && AssessImprovements(c).level == DegradedLevel
  {
    var c := CompareSides(s, s);
    IdenticalKpisStable(s);
    IdenticalCorrelationsUnchanged(s.pairwise);
    NoChangeNoNotes(c.kpis);
    AllStableScore(0, Verdicts(c.kpis));
  }

  lemma IdenticalKpisStable(s: Side)
    requires forall m :: s.mean(m).Some?
    ensures forall k :: 0 <= k < |KpiComparison(s, s)| ==> KpiComparison(s, s)[k].verdict == Stable
  {
    var r := KpiComparison(s, s);
    forall k | 0 <= k < |r| ensures r[k].verdict == Stable {
      KpiUnchangedIsStable(Name(r[k].metric), s.mean(r[k].metric).value);
    }
  }

  lemma IdenticalCorrelationsUnchanged(recs: seq<Correlation.PairRecord>)
    ensures forall k :: 0 <= k < |CorrelationComparison(recs, recs)| ==>
      CorrelationComparison(recs, recs)[k].stability == Unchanged
  {
    var r := CorrelationComparison(recs, recs);
    forall k | 0 <= k < |r| ensures r[k].stability == Unchanged {
      assert FindPair(recs, r[k].pair).Some?;
    }
  }

  lemma NoChangeNoNotes(kpis: seq<KpiEntry>)
    requires forall k :: 0 <= k < |kpis| ==> kpis[k].verdict == Stable
    ensures KeyImprovements(kpis, 0) == [] && AreasOfConcern(kpis, 0) == []
    ensures Seqs.Count(kpis, EntryImproved) == 0
  {
    assert Seqs.Count(kpis, EntryImproved) == 0;
    assert Seqs.Count(kpis, EntryDegraded) == 0;
  }

  // ---------------------------------------------------------------------
  // Comparison against a baseline
  // ---------------------------------------------------------------------

  /** Baseline means; a stored analysis may lack any of them. */
  datatype Baseline = Baseline(rtwp: Option<real>, sinr: Option<real>, prb: Option<real>)

  /** The default used when no stored baseline is named. */
  const IndustryBaseline := Baseline(Some(-95.0), Some(15.0), Some(60.0))

  function BaselineValue(b: Baseline, m: Metric): Option<real> {
    match m
    case RTWP => b.rtwp
    case SINR => b.sinr
    case PRB => b.prb
  }

  datatype DeviationStatus = WithinNormalRange | MinorDeviation | SignificantDeviation | MajorDeviation

  /** Bands 5, 15 and 30 on |Δ%|, exclusive; NaN is a major deviation. */
  function DeviationStatusOf(percent: Cell): (s: DeviationStatus)
    ensures s == WithinNormalRange <==> percent.Some? && Abs(percent.value) < 5.0
    ensures s == MinorDeviation <==> percent.Some? && 5.0 <= Abs(percent.value) < 15.0
    ensures s == SignificantDeviation <==> percent.Some? && 15.0 <= Abs(percent.value) < 30.0
    ensures s == MajorDeviation <==> percent.None? || Abs(percent.value) >= 30.0
  {
    if percent.Some? && Abs(percent.value) < 5.0 then WithinNormalRange
    else if percent.Some? && Abs(percent.value) < 15.0 then MinorDeviation
    else if percent.Some? && Abs(percent.value) < 30.0 then SignificantDeviation
    else MajorDeviation
  }

  predicate Acceptable(s: DeviationStatus) {
    s == WithinNormalRange || s == MinorDeviation
  }

  datatype Deviation = Deviation(metric: Metric, baseline: real, current: Cell, deviation: Cell, percent: Cell, status: DeviationStatus)

  function DeviationOf(m: Metric, base: real, current: Cell): Deviation {
    var d := if current.Some? then Some(current.value - base) else None;
    var pct := if base == 0.0 then Some(0.0) else if d.Some? then Some(d.value / base * 100.0) else None;
    Deviation(m, base, current, d, pct, DeviationStatusOf(pct))
  }

  function DeviationFor(b: Baseline, current: Metric -> Option<Cell>, m: Metric): Option<Deviation> {
    if BaselineValue(b, m).Some? && current(m).Some? then Some(DeviationOf(m, BaselineValue(b, m).value, current(m).value))
    else None
  }

  /** `current(m)` is the current panel's mean, `None` when the column is
      absent. A deviation is reported for each mean present on both sides;
      its percentage is 0 against a zero baseline. */
  function BaselineDeviations(b: Baseline, current: Metric -> Option<Cell>): (r: seq<Deviation>)
    ensures |r| <= 3
    ensures forall m :: m in Metrics && BaselineValue(b, m).Some? && current(m).Some? ==> DeviationFor(b, current, m).value in r
    ensures forall k :: 0 <= k < |r| ==> DeviationAgainst(b, current, r[k])
    ensures forall i, j :: 0 <= i < j < |r| ==> MetricIndex(r[i].metric) < MetricIndex(r[j].metric)
  {
    var f := DeviationPicker(b, current);
    Seqs.ChooseAll(Metrics, f, d => DeviationAgainst(b, current, d));
    DeviationOrder(b, current);
    Seqs.Choose(Metrics, f)
  }

  function DeviationPicker(b: Baseline, current: Metric -> Option<Cell>): Metric -> Option<Deviation> {
    m => DeviationFor(b, current, m)
  }

  function BothDefined(b: Baseline, current: Metric -> Option<Cell>): Metric -> bool {
    m => BaselineValue(b, m).Some? && current(m).Some?
  }

  /** The deviations follow the order of `Metrics`, so no metric is reported twice. */
  lemma DeviationOrder(b: Baseline, current: Metric -> Option<Cell>)
    ensures forall i, j :: 0 <= i < j < |Seqs.Choose(Metrics, DeviationPicker(b, current))| ==>
      MetricIndex(Seqs.Choose(Metrics, DeviationPicker(b, current))[i].metric) <
      MetricIndex(Seqs.Choose(Metrics, DeviationPicker(b, current))[j].metric)
  {
    DeviationPositions(b, current);
    var w := Seqs.Where(Metrics, BothDefined(b, current));
    assert forall i, j :: 0 <= i < j < |w| ==> w[i] < w[j];
  }

  /** Each deviation sits at the position of its metric among those defined on both sides. */
  lemma DeviationPositions(b: Baseline, current: Metric -> Option<Cell>)
    ensures var r := Seqs.Choose(Metrics, DeviationPicker(b, current));
      var w := Seqs.Where(Metrics, BothDefined(b, current));
      |r| == |w| && forall k :: 0 <= k < |r| ==> MetricIndex(r[k].metric) == w[k]
  {
    var f := DeviationPicker(b, current);
    var p := BothDefined(b, current);
    Seqs.ChooseWhere(Metrics, f, p);
    var r := Seqs.Choose(Metrics, f);
    var w := Seqs.Where(Metrics, p);
    forall k | 0 <= k < |r| ensures MetricIndex(r[k].metric) == w[k] {
      assert f(Metrics[w[k]]) == Some(r[k]);
      IndexOfMetric(w[k]);
    }
  }

  /** A deviation of a current mean from the baseline's: the relative
      change in percent (0 against a zero baseline, NaN for a NaN mean) and
      its status. */
  predicate DeviationAgainst(b: Baseline, current: Metric -> Option<Cell>, d: Deviation) {
    BaselineValue(b, d.metric) == Some(d.baseline) && current(d.metric) == Some(d.current) &&
    d.deviation == (if d.current.Some? then Some(d.current.value - d.baseline) else None) &&
    (d.baseline == 0.0 ==> d.percent == Some(0.0)) &&
    (d.baseline != 0.0 && d.current.Some? ==> d.percent == Some((d.current.value - d.baseline) / d.baseline * 100.0)) &&
    (d.baseline != 0.0 && d.current.None? ==> d.percent.None?) &&
    d.status == DeviationStatusOf(d.percent)
  }

  datatype PerformanceStatus = Excellent | Good | Fair | Poor

  function PerformanceRank(s: PerformanceStatus): nat {
    match s
    case Poor => 0
    case Fair => 1
    case Good => 2
    case Excellent => 3
  }

  datatype Performance = Performance(score: real, status: PerformanceStatus)

  predicate DeviationAcceptable(d: Deviation) {
    Acceptable(d.status)
  }

  /** The status from a score and the current severity label. */
  function PerformanceStatusOf(score: real, severity: string): (s: PerformanceStatus)
    ensures s == Excellent <==> score >= 80.0 && severity == "low"
    ensures s == Good <==> !(score >= 80.0 && severity == "low") && score >= 60.0 && (severity == "low" || severity == "medium")
    ensures s == Fair <==> score >= 40.0 && !(score >= 60.0 && (severity == "low" || severity == "medium"))
    ensures s == Poor <==> score < 40.0
  {
    if score >= 80.0 && severity == "low" then Excellent
    else if score >= 60.0 && (severity == "low" || severity == "medium") then Good
    else if score >= 40.0 then Fair
    else Poor
  }

  /** The share of acceptable deviations in percent (100 without any). */
  function BaselineScore(devs: seq<Deviation>): (q: real)
    ensures 0.0 <= q <= 100.0
    ensures devs == [] ==> q == 100.0
    ensures q == 100.0 <==> forall k :: 0 <= k < |devs| ==> Acceptable(devs[k].status)
    ensures q == SharePercent(Seqs.Count(devs, DeviationAcceptable), |devs|)
  {
    AllCounted(devs, DeviationAcceptable);
    SharePercent(Seqs.Count(devs, DeviationAcceptable), |devs|)
  }

  /** `k` of `n` items as a percentage; 100 when there are no items. */
  function SharePercent(k: nat, n: nat): (q: real)
    requires k <= n
    ensures 0.0 <= q <= 100.0
    ensures q == 100.0 <==> k == n
    ensures n > 0 ==> q * n as real == 100.0 * k as real
  {
    if n == 0 then 100.0
    else
      ShareBounds(k, n);
      k as real / n as real * 100.0
  }

  /** The score with the status it earns under the current severity. */
  function BaselinePerformance(devs: seq<Deviation>, severity: string): (p: Performance)
    ensures p.score == BaselineScore(devs)
    ensures p.status == PerformanceStatusOf(p.score, severity)
  {
    var score := BaselineScore(devs);
    Performance(score, PerformanceStatusOf(score, severity))
  }

  /** A share k/n of n > 0 items, in percent, lies in [0, 100] and is 100 exactly when k == n. */
  lemma ShareBounds(k: nat, n: nat)
    requires 0 < n && k <= n
    ensures 0.0 <= k as real / n as real * 100.0 <= 100.0
    ensures k as real / n as real * 100.0 == 100.0 <==> k == n
    ensures k as real / n as real * 100.0 * n as real == 100.0 * k as real
  {
    RatioBounds(k, n);
    var q := k as real / n as real;
    assert q * n as real == k as real;
    assert q < 0.0 ==> q * n as real < 0.0;
    if k == n {
      assert q == 1.0;
    }
    if q * 100.0 == 100.0 {
      assert q == 1.0;
      assert k as real == n as real;
    }
  }

  /** Every element satisfies `p` exactly when all of them are counted. */
  lemma {:induction false} AllCounted<T>(s: seq<T>, p: T -> bool)
    ensures Seqs.Count(s, p) == |s| <==> forall k :: 0 <= k < |s| ==> p(s[k])
  {
    if s != [] {
      AllCounted(s[1..], p);
      assert forall k :: 1 <= k < |s| ==> s[k] == s[1..][k - 1];
    }
  }

  /** For a fixed severity a higher score never lowers the status. */
  lemma PerformanceMonotone(a: real, b: real, severity: string)
    requires a <= b
    ensures PerformanceRank(PerformanceStatusOf(a, severity)) <= PerformanceRank(PerformanceStatusOf(b, severity))
  {
  }

  /** A panel whose means equal the industry baseline deviates nowhere: each
      deviation is within range, the score is 100, and with `low` severity
      the status is excellent. */
  lemma MatchingIndustryBaseline()
    ensures var current := (m: Metric) => Some(BaselineValue(IndustryBaseline, m));
      var devs := BaselineDeviations(IndustryBaseline, current);
      (forall k :: 0 <= k < |devs| ==> devs[k].status == WithinNormalRange) &&
      BaselinePerformance(devs, "low") == Performance(100.0, Excellent)
  {
    var current := (m: Metric) => Some(BaselineValue(IndustryBaseline, m));
    var devs := BaselineDeviations(IndustryBaseline, current);
    forall k | 0 <= k < |devs| ensures devs[k].status == WithinNormalRange {
      assert DeviationAgainst(IndustryBaseline, current, devs[k]);
      assert devs[k].current == Some(devs[k].baseline);
      SelfDeviationWithin(IndustryBaseline, current, devs[k]);
    }
    AllWithinRangeExcellent(devs);
  }

  /** A mean equal to its baseline is within the normal range. */
  lemma SelfDeviationWithin(b: Baseline, current: Metric -> Option<Cell>, d: Deviation)
    requires DeviationAgainst(b, current, d) && d.current == Some(d.baseline)
    ensures d.status == WithinNormalRange
  {
    if d.baseline != 0.0 {
      assert (d.baseline - d.baseline) / d.baseline * 100.0 == 0.0;
    }
  }

  lemma AllWithinRangeExcellent(devs: seq<Deviation>)
    requires forall k :: 0 <= k < |devs| ==> devs[k].status == WithinNormalRange
    ensures BaselinePerformance(devs, "low") == Performance(100.0, Excellent)
  {
    assert forall k :: 0 <= k < |devs| ==> Acceptable(devs[k].status);
  }
}
