/** The anomaly detector: per-metric statistical and absolute-bound flags
    fused with first-tag-wins de-duplication, the rolling-correlation and
    moving-average detectors, and the severity summary. */
module Anomaly {
  import opened Wrappers
  import opened Kpi
  import Seqs

  datatype Tag = Statistical | HighAbsolute | LowAbsolute

  /** A metric's thresholds: the standard-deviation multiplier and the
      absolute bounds (`None` when the metric has no such bound). */
  datatype Policy = Policy(multiplier: real, upper: Option<real>, lower: Option<real>)

  const RtwpPolicy := Policy(2.5, Some(-70.0), Some(-120.0))
  const SinrPolicy := Policy(2.0, None, Some(0.0))
  const PrbPolicy := Policy(2.0, Some(100.0), Some(0.0))

  function PolicyFor(m: Metric): Policy {
    match m
    case RTWP => RtwpPolicy
    case SINR => SinrPolicy
    case PRB => PrbPolicy
  }

  /** A column's mean and sample standard deviation as pandas reports them (NaN as None). */
  datatype Moments = Moments(mean: Cell, std: Option<Spread>)

  predicate IsStatistical(x: Cell, mo: Moments, k: real) {
    x.Some? && mo.mean.Some? && mo.std.Some? && Abs(x.value - mo.mean.value) > k * mo.std.value
  }

  predicate IsHigh(x: Cell, p: Policy) {
    x.Some? && p.upper.Some? && x.value > p.upper.value
  }

  predicate IsLow(x: Cell, p: Policy) {
    x.Some? && p.lower.Some? && x.value < p.lower.value
  }

  predicate Flagged(x: Cell, mo: Moments, p: Policy) {
    IsStatistical(x, mo, p.multiplier) || IsHigh(x, p) || IsLow(x, p)
  }

  /** The tag a flagged value must carry: the first test that fires, in the
      order statistical, high, low. */
  function ExpectedTag(x: Cell, mo: Moments, p: Policy): Tag
    requires Flagged(x, mo, p)
  {
    if IsStatistical(x, mo, p.multiplier) then Statistical
    else if IsHigh(x, p) then HighAbsolute
    else LowAbsolute
  }

  datatype MetricReport = MetricReport(count: nat, indices: seq<nat>, types: seq<Tag>, moments: Option<Moments>)

  const EmptyReport := MetricReport(0, [], [], None)

  function Tagged(ps: seq<nat>, t: Tag): (r: seq<(nat, Tag)>)
    ensures Seqs.Keys(r) == ps
    ensures forall q :: 0 <= q < |r| ==> r[q].1 == t
  {
    seq(|ps|, q requires 0 <= q < |ps| => (ps[q], t))
  }

  function StatMask(xs: seq<Cell>, mo: Moments, p: Policy): seq<bool> {
    seq(|xs|, i requires 0 <= i < |xs| => IsStatistical(xs[i], mo, p.multiplier))
  }

  function HighMask(xs: seq<Cell>, p: Policy): seq<bool> {
    seq(|xs|, i requires 0 <= i < |xs| => IsHigh(xs[i], p))
  }

  function LowMask(xs: seq<Cell>, p: Policy): seq<bool> {
    seq(|xs|, i requires 0 <= i < |xs| => IsLow(xs[i], p))
  }

  /** The three flag lists concatenated before de-duplication: statistical,
      then high, then low, each in ascending index order. */
  function Candidates(xs: seq<Cell>, mo: Moments, p: Policy): seq<(nat, Tag)> {
    Tagged(Seqs.Positions(StatMask(xs, mo, p)), Statistical)
    + Tagged(Seqs.Positions(HighMask(xs, p)), HighAbsolute)
    + Tagged(Seqs.Positions(LowMask(xs, p)), LowAbsolute)
  }

  function Values<K, V>(xs: seq<(K, V)>): (r: seq<V>)
    ensures |r| == |xs|
    ensures forall i :: 0 <= i < |xs| ==> r[i] == xs[i].1
  {
    seq(|xs|, i requires 0 <= i < |xs| => xs[i].1)
  }

  /** One metric's report: an absent column gives the empty report; otherwise
      the flagged indices without duplicates, each with the tag of the first
      test that flagged it. */
  function DetectMetric(col: Option<seq<Cell>>, mo: Moments, p: Policy): (r: MetricReport)
    ensures r.count == |r.indices| == |r.types|
    ensures Seqs.NoDup(r.indices)
    ensures col.None? ==> r == EmptyReport
    ensures col.Some? ==> forall i: nat :: i in r.indices <==> i < |col.value| && Flagged(col.value[i], mo, p)
    ensures col.Some? ==> forall j :: 0 <= j < |r.indices| ==>
      r.indices[j] < |col.value| && Flagged(col.value[r.indices[j]], mo, p) &&
      r.types[j] == ExpectedTag(col.value[r.indices[j]], mo, p)
    ensures forall a, b :: 0 <= a < b < |r.indices| ==>
      TagRank(r.types[a]) < TagRank(r.types[b]) || (r.types[a] == r.types[b] && r.indices[a] < r.indices[b])
  {
    match col
    case None => EmptyReport
    case Some(xs) =>
      var u := Seqs.DedupFrom<nat, Tag>(Candidates(xs, mo, p), {});
      ReportColumns(xs, mo, p, u);
      ReportInRankOrder(xs, mo, p, u);
      MetricReport(|u|, Seqs.Keys<nat, Tag>(u), Values(u), Some(mo))
  }

  /** The index and tag columns of the de-duplicated candidates: exactly the
      flagged indices, each once, each with its expected tag. */
  lemma ReportColumns(xs: seq<Cell>, mo: Moments, p: Policy, u: seq<(nat, Tag)>)
    requires u == Seqs.DedupFrom<nat, Tag>(Candidates(xs, mo, p), {})
    ensures forall i: nat :: i in Seqs.Keys(u) <==> i < |xs| && Flagged(xs[i], mo, p)
    ensures forall j :: 0 <= j < |u| ==>
      Seqs.Keys(u)[j] < |xs| && Flagged(xs[Seqs.Keys(u)[j]], mo, p) &&
      Values(u)[j] == ExpectedTag(xs[Seqs.Keys(u)[j]], mo, p)
  {
    var c := Candidates(xs, mo, p);
    CandidateKeys(xs, mo, p);
    Seqs.DedupFirstValue(c, {});
    assert forall j :: 0 <= j < |u| ==> u[j].0 in Seqs.Keys(u) by {
      forall j | 0 <= j < |u| ensures u[j].0 in Seqs.Keys(u) {
        Seqs.KeyIn(u, j);
      }
    }
    forall j | 0 <= j < |u|
      ensures u[j].0 < |xs| && Flagged(xs[u[j].0], mo, p) && u[j].1 == ExpectedTag(xs[u[j].0], mo, p)
    {
      FirstTagIsExpected(xs, mo, p, u[j].0);
    }
  }

  lemma CandidateKeys(xs: seq<Cell>, mo: Moments, p: Policy)
    ensures forall i: nat :: i in Seqs.Keys(Candidates(xs, mo, p)) <==> i < |xs| && Flagged(xs[i], mo, p)
  {
    var s := Tagged(Seqs.Positions(StatMask(xs, mo, p)), Statistical);
    var h := Tagged(Seqs.Positions(HighMask(xs, p)), HighAbsolute);
    var l := Tagged(Seqs.Positions(LowMask(xs, p)), LowAbsolute);
    assert Seqs.Keys(s + h + l) == Seqs.Keys(s) + Seqs.Keys(h) + Seqs.Keys(l);
  }

  lemma ThreeSegments(ps: seq<nat>, ph: seq<nat>, pl: seq<nat>)
    ensures var c := Tagged(ps, Statistical) + Tagged(ph, HighAbsolute) + Tagged(pl, LowAbsolute);
      && |c| == |ps| + |ph| + |pl|
      && (forall q :: 0 <= q < |ps| ==> c[q] == (ps[q], Statistical))
      && (forall q :: |ps| <= q < |ps| + |ph| ==> c[q] == (ph[q - |ps|], HighAbsolute))
      && (forall q :: |ps| + |ph| <= q < |c| ==> c[q] == (pl[q - |ps| - |ph|], LowAbsolute))
  {
  }

  /** Every position a mask's `Positions` lists is in range and set in the mask. */
  lemma PositionsInMask(mask: seq<bool>)
    ensures forall q :: 0 <= q < |Seqs.Positions(mask)| ==>
      Seqs.Positions(mask)[q] < |mask| && mask[Seqs.Positions(mask)[q]]
  {
    var ps := Seqs.Positions(mask);
    forall q | 0 <= q < |ps| ensures ps[q] < |mask| && mask[ps[q]] {
      assert ps[q] in ps;
    }
  }

  /** The candidate list is three segments: statistical flags, high flags, low flags. */
  lemma CandidateSegments(xs: seq<Cell>, mo: Moments, p: Policy)
    ensures var c := Candidates(xs, mo, p);
      var ns := |Seqs.Positions(StatMask(xs, mo, p))|;
      var nh := |Seqs.Positions(HighMask(xs, p))|;
      && ns + nh <= |c|
      && (forall q :: 0 <= q < ns ==> c[q].1 == Statistical && c[q].0 < |xs| && IsStatistical(xs[c[q].0], mo, p.multiplier))
      && (forall q :: ns <= q < ns + nh ==> c[q].1 == HighAbsolute && c[q].0 < |xs| && IsHigh(xs[c[q].0], p))
      && (forall q :: ns + nh <= q < |c| ==> c[q].1 == LowAbsolute)
  {
    var sm := StatMask(xs, mo, p);
    var hm := HighMask(xs, p);
    ThreeSegments(Seqs.Positions(sm), Seqs.Positions(hm), Seqs.Positions(LowMask(xs, p)));
    PositionsInMask(sm);
    PositionsInMask(hm);
  }

  /** A statistical (resp. high) index occurs in the statistical (resp. high) segment. */
  lemma CandidateOccurs(xs: seq<Cell>, mo: Moments, p: Policy, i: nat)
    requires i < |xs|
    ensures var c := Candidates(xs, mo, p);
      var ns := |Seqs.Positions(StatMask(xs, mo, p))|;
      var nh := |Seqs.Positions(HighMask(xs, p))|;
      && (IsStatistical(xs[i], mo, p.multiplier) ==> exists q :: 0 <= q < ns && c[q].0 == i)
      && (IsHigh(xs[i], p) ==> exists q :: ns <= q < ns + nh && c[q].0 == i)
  {
    var ps := Seqs.Positions(StatMask(xs, mo, p));
    var ph := Seqs.Positions(HighMask(xs, p));
    ThreeSegments(ps, ph, Seqs.Positions(LowMask(xs, p)));
    if IsStatistical(xs[i], mo, p.multiplier) {
      assert StatMask(xs, mo, p)[i];
      var q :| 0 <= q < |ps| && ps[q] == i;
      assert Candidates(xs, mo, p)[q].0 == i;
    }
    if IsHigh(xs[i], p) {
      assert HighMask(xs, p)[i];
      var q :| 0 <= q < |ph| && ph[q] == i;
      assert Candidates(xs, mo, p)[|ps| + q].0 == i;
    }
  }

  /** The order of the three merged lists: statistical, then high, then low. */
  function TagRank(t: Tag): nat {
    match t
    case Statistical => 0
    case HighAbsolute => 1
    case LowAbsolute => 2
  }

  /** Earlier candidates come from an earlier list, or from the same list at a smaller index. */
  predicate RankedBefore(x: (nat, Tag), y: (nat, Tag)) {
    TagRank(x.1) < TagRank(y.1) || (x.1 == y.1 && x.0 < y.0)
  }

  lemma CandidatesRanked(xs: seq<Cell>, mo: Moments, p: Policy)
    ensures var c := Candidates(xs, mo, p);
      forall a, b :: 0 <= a < b < |c| ==> RankedBefore(c[a], c[b])
  {
    var ps := Seqs.Positions(StatMask(xs, mo, p));
    var ph := Seqs.Positions(HighMask(xs, p));
    var pl := Seqs.Positions(LowMask(xs, p));
    ThreeSegments(ps, ph, pl);
  }

  /** The de-duplicated candidates keep the candidate list's rank order. */
  lemma KeptInRankOrder(xs: seq<Cell>, mo: Moments, p: Policy)
    ensures var u := Seqs.DedupFrom<nat, Tag>(Candidates(xs, mo, p), {});
      forall a, b :: 0 <= a < b < |u| ==> RankedBefore(u[a], u[b])
  {
    var c := Candidates(xs, mo, p);
    var u := Seqs.DedupFrom<nat, Tag>(c, {});
    CandidatesRanked(xs, mo, p);
    Seqs.DedupFirstOrder(c, {});
    Seqs.DedupFirstValue(c, {});
    forall a, b | 0 <= a < b < |u| ensures RankedBefore(u[a], u[b]) {
      assert Seqs.FirstPos(c, u[a].0) < Seqs.FirstPos(c, u[b].0);
    }
  }

  /** The same order, read off the report's index and tag columns. */
  lemma ReportInRankOrder(xs: seq<Cell>, mo: Moments, p: Policy, u: seq<(nat, Tag)>)
    requires u == Seqs.DedupFrom<nat, Tag>(Candidates(xs, mo, p), {})
    ensures forall a, b :: 0 <= a < b < |u| ==>
      TagRank(Values(u)[a]) < TagRank(Values(u)[b]) ||
      (Values(u)[a] == Values(u)[b] && Seqs.Keys(u)[a] < Seqs.Keys(u)[b])
  {
    KeptInRankOrder(xs, mo, p);
  }

  /** The first candidate for a flagged index carries the expected tag. */
  lemma FirstTagIsExpected(xs: seq<Cell>, mo: Moments, p: Policy, i: nat)
    requires i in Seqs.Keys(Candidates(xs, mo, p))
    ensures i < |xs| && Flagged(xs[i], mo, p)
    ensures Candidates(xs, mo, p)[Seqs.FirstPos(Candidates(xs, mo, p), i)].1 == ExpectedTag(xs[i], mo, p)
  {
    CandidateKeys(xs, mo, p);
    CandidateSegments(xs, mo, p);
    CandidateOccurs(xs, mo, p, i);
    var c := Candidates(xs, mo, p);
    var ns := |Seqs.Positions(StatMask(xs, mo, p))|;
    var nh := |Seqs.Positions(HighMask(xs, p))|;
    var f := Seqs.FirstPos(c, i);
    if IsStatistical(xs[i], mo, p.multiplier) {
      var q :| 0 <= q < ns && c[q].0 == i;
      assert f <= q;
    } else if IsHigh(xs[i], p) {
      var q :| ns <= q < ns + nh && c[q].0 == i;
      assert f <= q;
      assert f >= ns;
    } else {
      assert f >= ns;
      assert f >= ns + nh;
    }
  }

  /** The detector for metric `m` of a frame, with its thresholds. */
  function DetectFor(f: Frame, m: Metric, mo: Moments): MetricReport {
    DetectMetric(f.Column(m), mo, PolicyFor(m))
  }

  /** SINR has no upper bound, so no SINR index is ever tagged `high_absolute`. */
  lemma SinrNeverHigh(col: Option<seq<Cell>>, mo: Moments)
    ensures HighAbsolute !in DetectMetric(col, mo, SinrPolicy).types
  {
    var r := DetectMetric(col, mo, SinrPolicy);
    if col.Some? {
      forall j | 0 <= j < |r.types| ensures r.types[j] != HighAbsolute {
      }
    }
  }

  /** An index that is both a statistical outlier and out of bounds is tagged `statistical`. */
  lemma StatisticalTagWins(xs: seq<Cell>, mo: Moments, p: Policy, j: nat)
    requires j < |DetectMetric(Some(xs), mo, p).indices|
    requires IsStatistical(xs[DetectMetric(Some(xs), mo, p).indices[j]], mo, p.multiplier)
    ensures DetectMetric(Some(xs), mo, p).types[j] == Statistical
  {
  }

  /** The result of a detector that needs enough data: skipped, or the set of
      distinct flagged positions (the source reduces its list with `set`). */
  datatype CountReport = Insufficient | Found(indices: set<nat>) {
    function Count(): nat {
      match this
      case Insufficient => 0
      case Found(ix) => |ix|
    }
  }

  /** A rolling coefficient outside [-0.8, 0.8]; NaN never qualifies. */
  predicate Extreme(c: Cell) {
    c.Some? && (c.value < -0.8 || c.value > 0.8)
  }

  function ExtremeMask(rolling: seq<Cell>): seq<bool> {
    seq(|rolling|, i requires 0 <= i < |rolling| => Extreme(rolling[i]))
  }

  function AsSet(s: seq<nat>): (r: set<nat>)
    ensures forall x :: x in r <==> x in s
  {
    set x | x in s
  }

  /** Correlation anomalies from the two rolling coefficient series (RTWP
      against SINR and against PRB, each over the adaptive window). */
  function DetectCorrelation(f: Frame, rtwpSinr: seq<Cell>, rtwpPrb: seq<Cell>): (r: CountReport)
    ensures r.Insufficient? <==> !(f.Has(RTWP) && f.Has(SINR) && f.Has(PRB)) || f.rows < 20
    ensures r.Found? ==> forall i: nat :: i in r.indices <==>
      (i < |rtwpSinr| && Extreme(rtwpSinr[i])) || (i < |rtwpPrb| && Extreme(rtwpPrb[i]))
  {
    WindowLargeEnough(f.rows);
    if !(f.Has(RTWP) && f.Has(SINR) && f.Has(PRB)) then Insufficient
    else if Window(f.rows) < 5 then Insufficient
    else Found(AsSet(Seqs.Positions(ExtremeMask(rtwpSinr)) + Seqs.Positions(ExtremeMask(rtwpPrb))))
  }

  function Sum(xs: seq<real>): real {
    if xs == [] then 0.0 else xs[0] + Sum(xs[1..])
  }

  predicate AllDefined(xs: seq<Cell>) {
    forall k :: 0 <= k < |xs| ==> xs[k].Some?
  }

  function Defined(xs: seq<Cell>): (r: seq<real>)
    requires AllDefined(xs)
    ensures |r| == |xs|
  {
    seq(|xs|, k requires 0 <= k < |xs| => xs[k].value)
  }

  /** pandas `rolling(window=w).mean()` at position `i`: defined only when the
      `w` values ending at `i` exist and none is NaN. */
  function RollingMean(xs: seq<Cell>, w: nat, i: nat): (r: Cell)
    requires w > 0
    ensures r.Some? ==> w <= i + 1 && i < |xs|
  {
    if i + 1 < w || i >= |xs| then None
    else
      var win := xs[i + 1 - w..i + 1];
      if AllDefined(win) then Some(Sum(Defined(win)) / (w as real)) else None
  }

  /** The short (5) and long (15) moving averages are farther apart than twice the column's std. */
  predicate TrendBreak(xs: seq<Cell>, std: Option<Spread>, i: nat) {
    var short := RollingMean(xs, 5, i);
    var long := RollingMean(xs, 15, i);
    short.Some? && long.Some? && std.Some? && Abs(short.value - long.value) > std.value * 2.0
  }

  function TrendMask(xs: seq<Cell>, std: Option<Spread>): seq<bool> {
    seq(|xs|, i requires 0 <= i < |xs| => TrendBreak(xs, std, i))
  }

  function TrendPositions(col: Option<seq<Cell>>, std: Option<Spread>): (r: set<nat>)
    ensures forall i: nat :: i in r <==> col.Some? && i < |col.value| && TrendBreak(col.value, std, i)
  {
    match col
    case None => {}
    case Some(xs) => AsSet(Seqs.Positions(TrendMask(xs, std)))
  }

  /** Metric `m` is present and its moving averages diverge at position `i`. */
  predicate TrendAt(f: Frame, stats: Metric -> Moments, m: Metric, i: nat) {
    f.Has(m) && i < |f.Column(m).value| && TrendBreak(f.Column(m).value, stats(m).std, i)
  }

  /** Trend anomalies: skipped below 10 rows, otherwise the distinct positions
      where some present metric's moving averages diverge. */
  function DetectTrend(f: Frame, stats: Metric -> Moments): (r: CountReport)
    ensures r.Insufficient? <==> f.rows < 10
    ensures r.Found? ==> forall i: nat :: i in r.indices <==>
      TrendAt(f, stats, RTWP, i) || TrendAt(f, stats, SINR, i) || TrendAt(f, stats, PRB, i)
  {
    if f.rows < 10 then Insufficient
    else
      Found(TrendPositions(f.rtwp, stats(RTWP).std)
        + TrendPositions(f.sinr, stats(SINR).std)
        + TrendPositions(f.prb, stats(PRB).std))
  }

  /** A moving-average break needs the 15-sample long average, so positions
      0..13 are never trend anomalies. */
  lemma TrendSkipsWarmUp(f: Frame, stats: Metric -> Moments)
    ensures DetectTrend(f, stats).Found? ==> forall i :: i in DetectTrend(f, stats).indices ==> i >= 14
  {
  }

  datatype Severity = Low | Medium | High

  /** The fixed severity bands: more than 50 is high, more than 20 medium. */
  function SeverityOf(total: int): Severity {
    if total > 50 then High
    else if total > 20 then Medium
    else Low
  }

  function Rank(s: Severity): nat {
    match s
    case Low => 1
    case Medium => 2
    case High => 3
  }

  function Label(s: Severity): string {
    match s
    case Low => "low"
    case Medium => "medium"
    case High => "high"
  }

  /** Severity is `high` iff the total exceeds 50, `medium` iff it lies in
      21..50, and more anomalies never lower it. */
  lemma SeverityBands(a: int, b: int)
    ensures SeverityOf(a) == High <==> a > 50
    ensures SeverityOf(a) == Medium <==> 21 <= a <= 50
    ensures SeverityOf(a) == Low <==> a <= 20
    ensures a <= b ==> Rank(SeverityOf(a)) <= Rank(SeverityOf(b))
  {
  }

  datatype Summary = Summary(total: nat, severity: Severity, rtwp: nat, sinr: nat, prb: nat, correlation: nat, trend: nat)

  datatype Detection = Detection(
    rtwp: MetricReport, sinr: MetricReport, prb: MetricReport,
    correlation: CountReport, trend: CountReport, summary: Summary)

  /** The whole detector: five reports and their summary. The frame's column
      statistics and the two rolling correlation series are inputs. */
  function DetectAnomalies(f: Frame, stats: Metric -> Moments, rtwpSinr: seq<Cell>, rtwpPrb: seq<Cell>): (d: Detection)
    ensures d.summary.total == d.rtwp.count + d.sinr.count + d.prb.count + d.correlation.Count() + d.trend.Count()
    ensures d.summary.severity == High <==> d.summary.total > 50
    ensures d.summary.severity == Medium <==> 21 <= d.summary.total <= 50
    ensures !f.Has(RTWP) ==> d.rtwp.count == 0 && d.rtwp.indices == [] && d.rtwp.types == []
    ensures !f.Has(SINR) ==> d.sinr.count == 0 && d.sinr.indices == [] && d.sinr.types == []
    ensures !f.Has(PRB) ==> d.prb.count == 0 && d.prb.indices == [] && d.prb.types == []
    ensures d.rtwp == DetectFor(f, RTWP, stats(RTWP))
    ensures d.sinr == DetectFor(f, SINR, stats(SINR))
    ensures d.prb == DetectFor(f, PRB, stats(PRB))
    ensures d.correlation == DetectCorrelation(f, rtwpSinr, rtwpPrb)
    ensures d.trend == DetectTrend(f, stats)
    ensures d.summary.rtwp == d.rtwp.count && d.summary.sinr == d.sinr.count && d.summary.prb == d.prb.count
    ensures d.summary.correlation == d.correlation.Count() && d.summary.trend == d.trend.Count()
  {
    var rtwp := DetectFor(f, RTWP, stats(RTWP));
    var sinr := DetectFor(f, SINR, stats(SINR));
    var prb := DetectFor(f, PRB, stats(PRB));
    var corr := DetectCorrelation(f, rtwpSinr, rtwpPrb);
    var trend := DetectTrend(f, stats);
    var total := rtwp.count + sinr.count + prb.count + corr.Count() + trend.Count();
    Detection(rtwp, sinr, prb, corr, trend,
      Summary(total, SeverityOf(total), rtwp.count, sinr.count, prb.count, corr.Count(), trend.Count()))
  }

  /** Squaring is monotone on non-negative reals; used to compare a standard
      deviation given only through its square. */
  lemma SquareMono(a: real, b: real)
    requires 0.0 <= a && 0.0 <= b
    ensures a <= b ==> a * a <= b * b
  {
    if a <= b {
      assert a * a <= a * b;
    }
  }

  /** When exactly one value of a column is flagged, the report lists just
      that index, with the tag of the first test that fires on it. */
  lemma SingleFlagged(xs: seq<Cell>, mo: Moments, p: Policy, i: nat)
    requires i < |xs| && Flagged(xs[i], mo, p)
    requires forall j :: 0 <= j < |xs| && j != i ==> !Flagged(xs[j], mo, p)
    ensures DetectMetric(Some(xs), mo, p).count == 1
    ensures DetectMetric(Some(xs), mo, p).indices == [i]
    ensures DetectMetric(Some(xs), mo, p).types == [ExpectedTag(xs[i], mo, p)]
  {
    var r := DetectMetric(Some(xs), mo, p);
    assert i in r.indices;
    Seqs.NoDupConstant(r.indices, i);
  }

  /** When no value of a column is flagged, the report is empty. */
  lemma NoneFlagged(xs: seq<Cell>, mo: Moments, p: Policy)
    requires forall j :: 0 <= j < |xs| ==> !Flagged(xs[j], mo, p)
    ensures DetectMetric(Some(xs), mo, p).count == 0
  {
    var r := DetectMetric(Some(xs), mo, p);
    Seqs.NoDupCard(r.indices);
    assert (set v | v in r.indices) == {};
  }

  /** RTWP [-95, -96, -94, -97, -98, -60] has mean -90 and sample variance
      218; -60 lies above the -70 bound but within 2.5 standard deviations, so
      it alone is flagged, as `high_absolute`. */
  lemma RtwpScenario(s: Spread)
    requires s * s == 218.0
    ensures var xs := [Some(-95.0), Some(-96.0), Some(-94.0), Some(-97.0), Some(-98.0), Some(-60.0)];
      var r := DetectMetric(Some(xs), Moments(Some(-90.0), Some(s)), RtwpPolicy);
      r.count == 1 && r.indices == [5] && r.types == [HighAbsolute]
  {
    SquareMono(s, 12.0);
    var xs := [Some(-95.0), Some(-96.0), Some(-94.0), Some(-97.0), Some(-98.0), Some(-60.0)];
    var mo := Moments(Some(-90.0), Some(s));
    assert forall j :: 0 <= j < |xs| && j != 5 ==> !Flagged(xs[j], mo, RtwpPolicy);
    SingleFlagged(xs, mo, RtwpPolicy, 5);
  }

  /** RTWP [-95, -96, -94, -70, -97, -98] has mean -275/3 and sample variance
      344/3: -70 is not above the strict -70 bound and lies within 2.5 standard
      deviations, so the RTWP count is 0. */
  lemma RtwpTestVectorNotFlagged(s: Spread)
    requires s * s == 344.0 / 3.0
    ensures var xs := [Some(-95.0), Some(-96.0), Some(-94.0), Some(-70.0), Some(-97.0), Some(-98.0)];
      DetectMetric(Some(xs), Moments(Some(-275.0 / 3.0), Some(s)), RtwpPolicy).count == 0
  {
    SquareMono(s, 9.0);
    var xs := [Some(-95.0), Some(-96.0), Some(-94.0), Some(-70.0), Some(-97.0), Some(-98.0)];
    var mo := Moments(Some(-275.0 / 3.0), Some(s));
    assert forall j :: 0 <= j < |xs| ==> !Flagged(xs[j], mo, RtwpPolicy);
    NoneFlagged(xs, mo, RtwpPolicy);
  }
}
