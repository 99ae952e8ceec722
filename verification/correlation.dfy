/** The correlation engine: pairwise Pearson coefficients with their strength
    and significance, rolling-correlation summaries and their stability,
    lagged RTWP/SINR cross-correlation, and the insights drawn from them.
    Coefficients, p-values and rolling-series statistics are inputs; the model
    owns every threshold, window rule, enumeration order and selection. */
module Correlation {
  import opened Wrappers
  import opened Kpi
  import Seqs

  type Pair = (Metric, Metric)

  // ---------------------------------------------------------------------
  // Strength of a coefficient
  // ---------------------------------------------------------------------

  datatype Strength = StrongPositive | StrongNegative | ModeratePositive | ModerateNegative | Weak | NoCorrelation

  predicate IsStrong(s: Strength) {
    s == StrongPositive || s == StrongNegative
  }

  predicate IsModerate(s: Strength) {
    s == ModeratePositive || s == ModerateNegative
  }

  predicate IsPositive(s: Strength) {
    s == StrongPositive || s == ModeratePositive
  }

  /** |r| >= 0.7 is strong, |r| >= 0.3 moderate, anything smaller weak; the
      `_positive` label needs r > 0, so a magnitude on a band edge with a
      negative sign is `_negative`. NaN has no correlation. */
  function ClassifyStrength(r: Cell): (s: Strength)
    ensures s == NoCorrelation <==> r.None?
    ensures IsStrong(s) <==> r.Some? && Abs(r.value) >= 0.7
    ensures IsModerate(s) <==> r.Some? && 0.3 <= Abs(r.value) < 0.7
    ensures s == Weak <==> r.Some? && Abs(r.value) < 0.3
    ensures IsPositive(s) <==> r.Some? && Abs(r.value) >= 0.3 && r.value > 0.0
  {
    match r
    case None => NoCorrelation
    case Some(x) =>
      if Abs(x) >= 0.7 then (if x > 0.0 then StrongPositive else StrongNegative)
      else if Abs(x) >= 0.3 then (if x > 0.0 then ModeratePositive else ModerateNegative)
      else Weak
  }

  /** The label of the negated coefficient. */
  function Mirror(s: Strength): Strength {
    match s
    case StrongPositive => StrongNegative
    case StrongNegative => StrongPositive
    case ModeratePositive => ModerateNegative
    case ModerateNegative => ModeratePositive
    case Weak => Weak
    case NoCorrelation => NoCorrelation
  }

  /** Negating a non-zero coefficient swaps positive and negative and keeps the band. */
  lemma StrengthMirror(x: real)
    requires x != 0.0
    ensures ClassifyStrength(Some(-x)) == Mirror(ClassifyStrength(Some(x)))
    ensures ClassifyStrength(Some(-0.7)) == StrongNegative
  {
  }

  // ---------------------------------------------------------------------
  // Significance
  // ---------------------------------------------------------------------

  /** How the p-value is obtained: the exact Pearson test (an input) when the
      statistics library is installed, otherwise the fixed approximation. */
  datatype SignificanceTest = PearsonTest(pValue: Pair -> Cell) | Approximation

  /** The approximation returns 0.05 when |r| > 0.3 and 0.1 otherwise (NaN included). */
  function PValue(t: SignificanceTest, pair: Pair, r: Cell): (p: Cell)
    ensures t.Approximation? ==> p.Some? && (p.value == 0.05 || p.value == 0.1)
    ensures t.Approximation? ==> (p == Some(0.05) <==> r.Some? && Abs(r.value) > 0.3)
    ensures t.PearsonTest? ==> p == t.pValue(pair)
  {
    match t
    case PearsonTest(pv) => pv(pair)
    case Approximation => if r.Some? && Abs(r.value) > 0.3 then Some(0.05) else Some(0.1)
  }

  /** `p < 0.05`; false for NaN. */
  predicate Significant(p: Cell) {
    p.Some? && p.value < 0.05
  }

  /** The approximation never reaches significance: its smallest p-value is
      0.05 and the test is strict. */
  lemma ApproximationNeverSignificant(pair: Pair, r: Cell)
    ensures !Significant(PValue(Approximation, pair, r))
  {
  }

  // ---------------------------------------------------------------------
  // Pair enumeration
  // ---------------------------------------------------------------------

  /** All pairs (cols[i], cols[j]) with i < j, ordered by i and then j. */
  function Pairs<T>(cols: seq<T>): (r: seq<(T, T)>)
    ensures 2 * |r| == |cols| * (|cols| - 1)
  {
    if cols == [] then []
    else
      var rest := Pairs(cols[1..]);
      seq(|cols| - 1, k requires 0 <= k < |cols| - 1 => (cols[0], cols[k + 1])) + rest
  }

  /** Every ordered pair of positions i < j is enumerated. */
  lemma {:induction false} PairsComplete<T>(cols: seq<T>, i: nat, j: nat)
    requires i < j < |cols|
    ensures (cols[i], cols[j]) in Pairs(cols)
  {
    var head := seq(|cols| - 1, k requires 0 <= k < |cols| - 1 => (cols[0], cols[k + 1]));
    assert Pairs(cols) == head + Pairs(cols[1..]);
    if i == 0 {
      assert head[j - 1] == (cols[i], cols[j]);
    } else {
      PairsComplete(cols[1..], i - 1, j - 1);
    }
  }

  /** Only pairs of positions i < j are enumerated. */
  lemma {:induction false} PairsSound<T>(cols: seq<T>, k: nat)
    requires k < |Pairs(cols)|
    ensures exists i, j :: 0 <= i < j < |cols| && Pairs(cols)[k] == (cols[i], cols[j])
  {
    var head := seq(|cols| - 1, k requires 0 <= k < |cols| - 1 => (cols[0], cols[k + 1]));
    assert Pairs(cols) == head + Pairs(cols[1..]);
    if k < |head| {
      assert Pairs(cols)[k] == (cols[0], cols[k + 1]);
    } else {
      PairsSound(cols[1..], k - |head|);
      var i, j :| 0 <= i < j < |cols[1..]| && Pairs(cols[1..])[k - |head|] == (cols[1..][i], cols[1..][j]);
      assert Pairs(cols)[k] == (cols[i + 1], cols[j + 1]);
    }
  }

  /** The dictionary key of a pair, e.g. `RTWP_SINR`. */
  function PairKey(p: Pair): string {
    Name(p.0) + "_" + Name(p.1)
  }

  /** With all three metrics present the pairs are RTWP_SINR, RTWP_PRB and
      SINR_PRB, in that order. */
  lemma AllMetricPairs()
    ensures Pairs(Metrics) == [(RTWP, SINR), (RTWP, PRB), (SINR, PRB)]
    ensures seq(3, k requires 0 <= k < 3 => PairKey(Pairs(Metrics)[k])) == ["RTWP_SINR", "RTWP_PRB", "SINR_PRB"]
  {
    assert Metrics[1..] == [SINR, PRB];
    assert Metrics[1..][1..] == [PRB];
    assert Pairs([PRB]) == [];
    assert Pairs([SINR, PRB]) == [(SINR, PRB)];
    assert PairKey((RTWP, SINR)) == "RTWP_SINR";
    assert PairKey((RTWP, PRB)) == "RTWP_PRB";
    assert PairKey((SINR, PRB)) == "SINR_PRB";
  }

  // ---------------------------------------------------------------------
  // Pairwise correlations
  // ---------------------------------------------------------------------

  /** One entry of the pairwise table; NaN coefficients are stored as 0.0 and
      NaN p-values as 1.0, while strength and significance are decided on the
      raw values. */
  datatype PairRecord = PairRecord(pair: Pair, correlation: real, pValue: real, strength: Strength, significant: bool)

  function PairRecordOf(pair: Pair, r: Cell, p: Cell): PairRecord {
    PairRecord(pair, r.GetOr(0.0), p.GetOr(1.0), ClassifyStrength(r), Significant(p))
  }

  function Pairwise(f: Frame, pearson: Pair -> Cell, test: SignificanceTest): (r: seq<PairRecord>)
    ensures |r| == |Pairs(f.Available())|
    ensures forall k :: 0 <= k < |r| ==> r[k].pair == Pairs(f.Available())[k]
    ensures forall k :: 0 <= k < |r| ==>
      var c := pearson(r[k].pair);
      (c.None? ==> r[k].correlation == 0.0 && r[k].strength == NoCorrelation) &&
      (c.Some? ==> r[k].correlation == c.value && r[k].strength != NoCorrelation)
    ensures forall k :: 0 <= k < |r| ==> (r[k].significant <==> Significant(PValue(test, r[k].pair, pearson(r[k].pair))))
    ensures forall k :: 0 <= k < |r| ==>
      r[k].strength == ClassifyStrength(pearson(r[k].pair)) &&
      r[k].pValue == PValue(test, r[k].pair, pearson(r[k].pair)).GetOr(1.0)
  {
    var ps := Pairs(f.Available());
    seq(|ps|, k requires 0 <= k < |ps| => PairRecordOf(ps[k], pearson(ps[k]), PValue(test, ps[k], pearson(ps[k]))))
  }

  /** Without the statistics library no pair is ever reported significant. */
  lemma ApproximatePairsNotSignificant(f: Frame, pearson: Pair -> Cell)
    ensures forall k :: 0 <= k < |Pairwise(f, pearson, Approximation)| ==> !Pairwise(f, pearson, Approximation)[k].significant
  {
    var r := Pairwise(f, pearson, Approximation);
    forall k | 0 <= k < |r| ensures !r[k].significant {
      ApproximationNeverSignificant(r[k].pair, pearson(r[k].pair));
    }
  }

  // ---------------------------------------------------------------------
  // Stability of a rolling correlation series
  // ---------------------------------------------------------------------

  /** What the engine reads off a rolling-correlation series. */
  datatype RollingStats = RollingStats(empty: bool, mean: Cell, std: Option<Spread>, min: Cell, max: Cell)

  /** 1 / (1 + cv) for a non-negative coefficient of variation lies in (0, 1],
      is 1 exactly when cv is 0, and falls as cv grows. */
  lemma InverseBounds(cv: real, cv': real)
    requires 0.0 <= cv <= cv'
    ensures 0.0 < 1.0 / (1.0 + cv) <= 1.0
    ensures 1.0 / (1.0 + cv) == 1.0 <==> cv == 0.0
    ensures 1.0 / (1.0 + cv') <= 1.0 / (1.0 + cv)
  {
    var a := 1.0 / (1.0 + cv);
    var b := 1.0 / (1.0 + cv');
    assert a * (1.0 + cv) == 1.0;
    assert b * (1.0 + cv') == 1.0;
    assert b * (1.0 + cv) <= b * (1.0 + cv');
  }

  /** The inverse coefficient of variation: 1 for an empty or constant series,
      0 when the mean is 0 (the ratio is infinite), NaN when the mean or the
      deviation is NaN, and 1/(1 + std/|mean|) otherwise. */
  function StabilityScore(s: RollingStats): (r: Cell)
    ensures r.Some? ==> 0.0 <= r.value <= 1.0
    ensures r == Some(1.0) <==> s.empty || s.std == Some(0.0)
    ensures r == Some(0.0) <==> !s.empty && s.std != Some(0.0) && s.mean == Some(0.0)
    ensures r.None? <==> !s.empty && s.std != Some(0.0) && s.mean != Some(0.0) && (s.mean.None? || s.std.None?)
    ensures !s.empty && s.std.Some? && s.std.value != 0.0 && s.mean.Some? && s.mean.value != 0.0 ==>
      r.Some? && r.value * (Abs(s.mean.value) + s.std.value) == Abs(s.mean.value)
  {
    if s.empty || s.std == Some(0.0) then Some(1.0)
    else if s.mean == Some(0.0) then Some(0.0)
    else if s.mean.None? || s.std.None? then None
    else
      var cv := s.std.value / Abs(s.mean.value);
      InverseBounds(cv, cv);
      InverseVariation(s.std.value, Abs(s.mean.value));
      Some(1.0 / (1.0 + cv))
  }

  /** 1 / (1 + d/m) is the share m / (m + d) of the magnitude in magnitude plus spread. */
  lemma InverseVariation(d: real, m: real)
    requires d >= 0.0 && m > 0.0
    ensures (1.0 / (1.0 + d / m)) * (m + d) == m
  {
    var cv := d / m;
    var q := 1.0 / (1.0 + cv);
    assert cv * m == d;
    assert q * (1.0 + cv) == 1.0;
    assert m + d == (1.0 + cv) * m;
    assert q * ((1.0 + cv) * m) == (q * (1.0 + cv)) * m;
  }

  /** For a fixed non-zero mean, a wider spread never scores as more stable. */
  lemma StabilityAntitone(s: RollingStats, t: RollingStats)
    requires !s.empty && !t.empty && s.mean == t.mean && s.mean.Some? && s.mean.value != 0.0
    requires s.std.Some? && t.std.Some? && s.std.value <= t.std.value
    ensures StabilityScore(t).value <= StabilityScore(s).value
  {
    var m := Abs(s.mean.value);
    var cs := s.std.value / m;
    var ct := t.std.value / m;
    DivideMonotone(s.std.value, t.std.value, m);
    InverseBounds(cs, ct);
  }

  /** Dividing by a positive number keeps the order. */
  lemma DivideMonotone(a: real, b: real, m: real)
    requires 0.0 <= a <= b && m > 0.0
    ensures 0.0 <= a / m <= b / m
  {
    var q := a / m;
    var q' := b / m;
    assert q * m == a;
    assert q' * m == b;
    if q' < q {
      assert q' * m < q * m;
    }
  }

  datatype StabilityClass = HighlyStable | ModeratelyStable | SomewhatUnstable | HighlyUnstable

  /** Bands 0.8, 0.6 and 0.4, inclusive; NaN fails every band. */
  function ClassifyStability(score: Cell): (c: StabilityClass)
    ensures c == HighlyStable <==> score.Some? && score.value >= 0.8
    ensures c == ModeratelyStable <==> score.Some? && 0.6 <= score.value < 0.8
    ensures c == SomewhatUnstable <==> score.Some? && 0.4 <= score.value < 0.6
    ensures c == HighlyUnstable <==> score.None? || score.value < 0.4
  {
    if score.Some? && score.value >= 0.8 then HighlyStable
    else if score.Some? && score.value >= 0.6 then ModeratelyStable
    else if score.Some? && score.value >= 0.4 then SomewhatUnstable
    else HighlyUnstable
  }

  function StabilityRank(c: StabilityClass): nat {
    match c
    case HighlyUnstable => 0
    case SomewhatUnstable => 1
    case ModeratelyStable => 2
    case HighlyStable => 3
  }

  /** A higher score never gets a less stable class. */
  lemma StabilityClassMonotone(a: real, b: real)
    requires a <= b
    ensures StabilityRank(ClassifyStability(Some(a))) <= StabilityRank(ClassifyStability(Some(b)))
  {
  }

  // ---------------------------------------------------------------------
  // Rolling correlations and stability analysis
  // ---------------------------------------------------------------------

  /** The summary kept for one rolling pair; an empty series reports 0.0 for
      every statistic. */
  datatype RollingSummary = RollingSummary(mean: Cell, std: Cell, min: Cell, max: Cell, stability: Cell)

  function Summarize(s: RollingStats): RollingSummary {
    if s.empty then RollingSummary(Some(0.0), Some(0.0), Some(0.0), Some(0.0), StabilityScore(s))
    else RollingSummary(s.mean, if s.std.Some? then Some(s.std.value) else None, s.min, s.max, StabilityScore(s))
  }

  /** The rolling routine's three hand-written cases, in its order. */
  function RollingPairs(f: Frame): seq<Pair> {
    (if f.Has(RTWP) && f.Has(SINR) then [(RTWP, SINR)] else [])
    + (if f.Has(RTWP) && f.Has(PRB) then [(RTWP, PRB)] else [])
    + (if f.Has(SINR) && f.Has(PRB) then [(SINR, PRB)] else [])
  }

  /** The rolling routine visits exactly the pairs the generic enumeration
      produces, in the same order, for every combination of present columns. */
  lemma RollingPairsArePairs(f: Frame)
    ensures RollingPairs(f) == Pairs(f.Available())
  {
    var a := f.Available();
    if |a| == 3 {
      assert a == Metrics;
      AllMetricPairs();
    } else if |a| == 2 {
      assert a[1..][1..] == [];
      assert Pairs(a[1..]) == [];
    } else {
      assert Pairs(a) == [];
    }
  }

  datatype RollingOutcome = RollingInsufficient | RollingByPair(entries: seq<(Pair, RollingSummary)>)

  /** `rolling(pair, w)` is the rolling correlation series with window `w`. */
  function RollingCorrelations(f: Frame, rolling: (Pair, int) -> RollingStats): (r: RollingOutcome)
    ensures r.RollingInsufficient? <==> f.rows < 20
    ensures r.RollingByPair? ==> |r.entries| == |RollingPairs(f)|
    ensures r.RollingByPair? ==> forall k :: 0 <= k < |r.entries| ==>
      r.entries[k].0 == RollingPairs(f)[k] && r.entries[k].1 == Summarize(rolling(r.entries[k].0, Window(f.rows)))
  {
    WindowLargeEnough(f.rows);
    var w := Window(f.rows);
    if w < 5 then RollingInsufficient
    else
      var ps := RollingPairs(f);
      RollingByPair(seq(|ps|, k requires 0 <= k < |ps| => (ps[k], Summarize(rolling(ps[k], w)))))
  }

  datatype StabilityRecord = StabilityRecord(pair: Pair, score: Cell, grade: StabilityClass)

  datatype StabilityOutcome = StabilityInsufficient | StabilityByPair(records: seq<StabilityRecord>)

  function CorrelationStability(f: Frame, rolling: (Pair, int) -> RollingStats): (r: StabilityOutcome)
    ensures r.StabilityInsufficient? <==> f.rows < 20
    ensures r.StabilityByPair? ==> |r.records| == |Pairs(f.Available())|
    ensures r.StabilityByPair? ==> forall k :: 0 <= k < |r.records| ==>
      r.records[k].pair == Pairs(f.Available())[k] &&
      r.records[k].score == StabilityScore(rolling(r.records[k].pair, Window(f.rows))) &&
      r.records[k].grade == ClassifyStability(r.records[k].score)
  {
    WindowLargeEnough(f.rows);
    var w := Window(f.rows);
    if w < 5 then StabilityInsufficient
    else
      var ps := Pairs(f.Available());
      StabilityByPair(seq(|ps|, k requires 0 <= k < |ps| =>
        var score := StabilityScore(rolling(ps[k], w));
        StabilityRecord(ps[k], score, ClassifyStability(score))))
  }

  /** The rolling summaries and the stability analysis agree: both are
      insufficient together, and otherwise list the same pairs in the same
      order with the same stability score. */
  lemma RollingAgreesWithStability(f: Frame, rolling: (Pair, int) -> RollingStats)
    ensures RollingCorrelations(f, rolling).RollingInsufficient? <==> CorrelationStability(f, rolling).StabilityInsufficient?
    ensures CorrelationStability(f, rolling).StabilityByPair? ==>
      var es := RollingCorrelations(f, rolling).entries;
      var rs := CorrelationStability(f, rolling).records;
      |es| == |rs| && forall k :: 0 <= k < |rs| ==> es[k].0 == rs[k].pair && es[k].1.stability == rs[k].score
  {
    RollingPairsArePairs(f);
  }

  // ---------------------------------------------------------------------
  // Lagged cross-correlation of RTWP against SINR
  // ---------------------------------------------------------------------

  /** -l, ..., -1, 1, ..., l: Python's `range(-l, l + 1)` without 0. */
  function Lags(l: nat): (r: seq<int>)
    ensures |r| == 2 * l
    ensures forall i, j :: 0 <= i < j < |r| ==> r[i] < r[j]
  {
    seq(l, i requires 0 <= i < l => i - l) + seq(l, i requires 0 <= i < l => i + 1)
  }

  lemma LagsMembership(l: nat, lag: int)
    ensures lag in Lags(l) <==> -(l as int) <= lag <= l && lag != 0
  {
    if -(l as int) <= lag < 0 {
      assert Lags(l)[lag + l] == lag;
    } else if 0 < lag <= l {
      assert Lags(l)[l + lag - 1] == lag;
    }
  }

  /** The lags whose coefficient is defined, with that coefficient, in lag order. */
  function DefinedLags(lags: seq<int>, c: int -> Cell): (r: seq<(int, real)>)
    ensures forall k :: 0 <= k < |r| ==> r[k].0 in lags && c(r[k].0) == Some(r[k].1)
    ensures forall i :: 0 <= i < |lags| && c(lags[i]).Some? ==> (lags[i], c(lags[i]).value) in r
    ensures (forall i, j :: 0 <= i < j < |lags| ==> lags[i] < lags[j]) ==>
      forall i, j :: 0 <= i < j < |r| ==> r[i].0 < r[j].0
  {
    DefinedLagsInOrder(lags, c);
    var r := Seqs.Choose(lags, LagPicker(c));
    assert forall k :: 0 <= k < |r| ==> r[k] in r;
    r
  }

  function LagPicker(c: int -> Cell): int -> Option<(int, real)> {
    lag => if c(lag).Some? then Some((lag, c(lag).value)) else None
  }

  function LagDefined(c: int -> Cell): int -> bool {
    lag => c(lag).Some?
  }

  /** The kept lags keep the order of the lags tried. */
  lemma DefinedLagsInOrder(lags: seq<int>, c: int -> Cell)
    ensures (forall i, j :: 0 <= i < j < |lags| ==> lags[i] < lags[j]) ==>
      forall i, j :: 0 <= i < j < |Seqs.Choose(lags, LagPicker(c))| ==>
        Seqs.Choose(lags, LagPicker(c))[i].0 < Seqs.Choose(lags, LagPicker(c))[j].0
  {
    var f := LagPicker(c);
    var p := LagDefined(c);
    Seqs.ChooseWhere(lags, f, p);
    var r := Seqs.Choose(lags, f);
    var w := Seqs.Where(lags, p);
    assert forall k :: 0 <= k < |r| ==> w[k] < |lags| && r[k].0 == lags[w[k]] by {
      forall k | 0 <= k < |r| ensures w[k] < |lags| && r[k].0 == lags[w[k]] {
        assert f(lags[w[k]]) == Some(r[k]);
      }
    }
    assert forall i, j :: 0 <= i < j < |w| ==> w[i] < w[j];
  }

  /** The position of the largest |coefficient|; on a tie the earliest wins,
      as Python's `max` keeps the first maximal key. */
  function BestIndex(xs: seq<(int, real)>): (i: nat)
    requires |xs| > 0
    ensures i < |xs|
    ensures forall j :: 0 <= j < |xs| ==> Abs(xs[j].1) <= Abs(xs[i].1)
    ensures forall j :: 0 <= j < i ==> Abs(xs[j].1) < Abs(xs[i].1)
    decreases |xs|
  {
    if |xs| == 1 then 0
    else
      var init := xs[..|xs| - 1];
      var b := BestIndex(init);
      assert forall j :: 0 <= j < |init| ==> xs[j] == init[j];
      if Abs(xs[|xs| - 1].1) > Abs(xs[b].1) then |xs| - 1 else b
  }

  /** When the keys increase, every entry keyed before the best one has a
      strictly smaller magnitude. */
  lemma EarliestBest(xs: seq<(int, real)>)
    requires |xs| > 0
    ensures (forall i, j :: 0 <= i < j < |xs| ==> xs[i].0 < xs[j].0) ==>
      forall k :: 0 <= k < |xs| && xs[k].0 < xs[BestIndex(xs)].0 ==> Abs(xs[k].1) < Abs(xs[BestIndex(xs)].1)
  {
    var b := BestIndex(xs);
    if forall i, j :: 0 <= i < j < |xs| ==> xs[i].0 < xs[j].0 {
      forall k | 0 <= k < |xs| && xs[k].0 < xs[b].0
        ensures Abs(xs[k].1) < Abs(xs[b].1)
      {
        KeysFollowIndices(xs, k, b);
      }
    }
  }

  /** With increasing keys, key order is index order. */
  lemma KeysFollowIndices(xs: seq<(int, real)>, i: nat, j: nat)
    requires forall i, j :: 0 <= i < j < |xs| ==> xs[i].0 < xs[j].0
    requires i < |xs| && j < |xs|
    ensures xs[i].0 < xs[j].0 <==> i < j
  {
    if j < i {
      assert xs[j].0 < xs[i].0;
    }
  }

  datatype Cross = Cross(lags: seq<(int, real)>, bestLag: int, maxCorrelation: real)

  /** The cross-correlation record of a non-empty list of lag coefficients:
      the lag whose coefficient is largest in magnitude, the earliest one on a tie. */
  function BestOf(ls: seq<(int, real)>): (c: Cross)
    requires |ls| > 0
    ensures c.lags == ls
    ensures (c.bestLag, c.maxCorrelation) in ls
    ensures forall k :: 0 <= k < |ls| ==> Abs(ls[k].1) <= Abs(c.maxCorrelation)
    ensures (forall i, j :: 0 <= i < j < |ls| ==> ls[i].0 < ls[j].0) ==>
      forall k :: 0 <= k < |ls| && ls[k].0 < c.bestLag ==> Abs(ls[k].1) < Abs(c.maxCorrelation)
  {
    var b := BestIndex(ls);
    EarliestBest(ls);
    Cross(ls, ls[b].0, ls[b].1)
  }

  lemma LagsOrdered(l: nat, lagged: int -> Cell)
    ensures var ls := DefinedLags(Lags(l), lagged);
      forall i, j :: 0 <= i < j < |ls| ==> ls[i].0 < ls[j].0
  {
  }

  /** `lagged(k)` is corr(RTWP shifted by -k, SINR) for k > 0 and
      corr(RTWP, SINR shifted by k) for k < 0. */
  function CrossCorrelation(f: Frame, lagged: int -> Cell): (r: Option<Cross>)
    ensures r.Some? ==> f.Has(RTWP) && f.Has(SINR)
    ensures r.Some? ==> (r.value.bestLag, r.value.maxCorrelation) in r.value.lags
    ensures r.Some? ==> forall k :: 0 <= k < |r.value.lags| ==>
      r.value.lags[k].0 in Lags(Min(10, f.rows / 4)) &&
      lagged(r.value.lags[k].0) == Some(r.value.lags[k].1) &&
      Abs(r.value.lags[k].1) <= Abs(r.value.maxCorrelation)
    ensures f.Has(RTWP) && f.Has(SINR) ==>
      forall i :: 0 <= i < 2 * Min(10, f.rows / 4) && lagged(Lags(Min(10, f.rows / 4))[i]).Some? ==> r.Some?
    ensures r.Some? ==> r.value.lags == DefinedLags(Lags(Min(10, f.rows / 4)), lagged)
    ensures r.Some? ==> forall k :: 0 <= k < |r.value.lags| && r.value.lags[k].0 < r.value.bestLag ==>
      Abs(r.value.lags[k].1) < Abs(r.value.maxCorrelation)
  {
    if !(f.Has(RTWP) && f.Has(SINR)) then None
    else
      var l: nat := Min(10, f.rows / 4);
      var ls := DefinedLags(Lags(l), lagged);
      if ls == [] then None
      else
        LagsOrdered(l, lagged);
        Some(BestOf(ls))
  }

  // ---------------------------------------------------------------------
  // Insights
  // ---------------------------------------------------------------------

  datatype Insight =
    | StrongPair(pair: Pair, strength: Strength, r: real)
    | ModeratePair(pair: Pair, strength: Strength, r: real)
    | UnstablePair(pair: Pair)
    | LaggedCross(pair: Pair, lag: int)

  function PairInsight(rec: PairRecord): Option<Insight> {
    if !rec.significant then None
    else if IsStrong(rec.strength) then Some(StrongPair(rec.pair, rec.strength, rec.correlation))
    else if IsModerate(rec.strength) then Some(ModeratePair(rec.pair, rec.strength, rec.correlation))
    else None
  }

  function UnstableInsight(rec: StabilityRecord): Option<Insight> {
    if rec.grade == HighlyUnstable then Some(UnstablePair(rec.pair)) else None
  }

  function CrossInsight(c: Option<Cross>): seq<Insight> {
    if c.Some? && Abs(c.value.maxCorrelation) > 0.5 then [LaggedCross((RTWP, SINR), c.value.bestLag)] else []
  }

  /** The insight loop exactly as written: when the stability analysis is
      insufficient it returns the one-entry map `{'error': message}`, and the
      loop subscripts that message string with `'stability_class'`, which
      raises a `TypeError`. */
  function InsightsAsWritten(pairwise: seq<PairRecord>, stability: StabilityOutcome, cross: Option<Cross>): (r: Result<seq<Insight>, string>)
    ensures r.Err? <==> stability.StabilityInsufficient?
  {
    match stability
    case StabilityInsufficient => Err("TypeError: string indices must be integers")
    case StabilityByPair(recs) =>
      Ok(Seqs.Choose(pairwise, PairInsight) + Seqs.Choose(recs, UnstableInsight) + CrossInsight(cross))
  }

  /** The insight loop as intended: an insufficient stability analysis simply
      contributes no insight. One insight per significant strong or moderate
      pair, one per highly unstable pair, one for a cross-correlation whose
      best coefficient exceeds 0.5 in magnitude, and nothing else. */
  function Insights(pairwise: seq<PairRecord>, stability: StabilityOutcome, cross: Option<Cross>): (r: seq<Insight>)
    ensures forall k :: 0 <= k < |pairwise| && pairwise[k].significant && IsStrong(pairwise[k].strength) ==>
      StrongPair(pairwise[k].pair, pairwise[k].strength, pairwise[k].correlation) in r
    ensures forall k :: 0 <= k < |pairwise| && pairwise[k].significant && IsModerate(pairwise[k].strength) ==>
      ModeratePair(pairwise[k].pair, pairwise[k].strength, pairwise[k].correlation) in r
    ensures forall x :: x in r && (x.StrongPair? || x.ModeratePair?) ==>
      exists k :: 0 <= k < |pairwise| && pairwise[k].significant && PairInsight(pairwise[k]) == Some(x)
    ensures forall p :: UnstablePair(p) in r <==>
      stability.StabilityByPair? &&
      (exists k :: 0 <= k < |stability.records| && stability.records[k] == StabilityRecord(p, stability.records[k].score, HighlyUnstable))
    ensures (exists x :: x in r && x.LaggedCross?) <==> cross.Some? && Abs(cross.value.maxCorrelation) > 0.5
    ensures forall x :: x in r && x.LaggedCross? ==> cross.Some? && x == LaggedCross((RTWP, SINR), cross.value.bestLag)
  {
    var a := Seqs.Choose(pairwise, PairInsight);
    var recs := if stability.StabilityByPair? then stability.records else [];
    var b := Seqs.Choose(recs, UnstableInsight);
    var c := CrossInsight(cross);
    PairInsights(pairwise);
    UnstableInsights(recs);
    var r := a + b + c;
    assert c != [] ==> c[0] in r && c[0].LaggedCross?;
    r
  }

  /** The pair insights: exactly the significant strong and moderate pairs. */
  lemma PairInsights(pairwise: seq<PairRecord>)
    ensures forall k :: 0 <= k < |pairwise| && pairwise[k].significant && IsStrong(pairwise[k].strength) ==>
      StrongPair(pairwise[k].pair, pairwise[k].strength, pairwise[k].correlation) in Seqs.Choose(pairwise, PairInsight)
    ensures forall k :: 0 <= k < |pairwise| && pairwise[k].significant && IsModerate(pairwise[k].strength) ==>
      ModeratePair(pairwise[k].pair, pairwise[k].strength, pairwise[k].correlation) in Seqs.Choose(pairwise, PairInsight)
    ensures forall x :: x in Seqs.Choose(pairwise, PairInsight) ==>
      (x.StrongPair? || x.ModeratePair?) &&
      exists k :: 0 <= k < |pairwise| && pairwise[k].significant && PairInsight(pairwise[k]) == Some(x)
  {
    var a := Seqs.Choose(pairwise, PairInsight);
    forall x | x in a ensures (x.StrongPair? || x.ModeratePair?) &&
      exists k :: 0 <= k < |pairwise| && pairwise[k].significant && PairInsight(pairwise[k]) == Some(x)
    {
      var k :| 0 <= k < |pairwise| && PairInsight(pairwise[k]) == Some(x);
    }
  }

  /** The stability insights: exactly the highly unstable pairs. */
  lemma UnstableInsights(recs: seq<StabilityRecord>)
    ensures forall x :: x in Seqs.Choose(recs, UnstableInsight) ==> x.UnstablePair?
    ensures forall p :: UnstablePair(p) in Seqs.Choose(recs, UnstableInsight) <==>
      exists k :: 0 <= k < |recs| && recs[k] == StabilityRecord(p, recs[k].score, HighlyUnstable)
  {
    var b := Seqs.Choose(recs, UnstableInsight);
    forall p ensures UnstablePair(p) in b <==>
      exists k :: 0 <= k < |recs| && recs[k] == StabilityRecord(p, recs[k].score, HighlyUnstable)
    {
      if UnstablePair(p) in b {
        var k :| 0 <= k < |recs| && UnstableInsight(recs[k]) == Some(UnstablePair(p));
        assert recs[k] == StabilityRecord(p, recs[k].score, HighlyUnstable);
      }
      if exists k :: 0 <= k < |recs| && recs[k] == StabilityRecord(p, recs[k].score, HighlyUnstable) {
        var k :| 0 <= k < |recs| && recs[k] == StabilityRecord(p, recs[k].score, HighlyUnstable);
        assert UnstableInsight(recs[k]) == Some(UnstablePair(p));
      }
    }
  }

  /** The place of an insight's kind in the list: pair insights, then
      unstable pairs, then the lagged cross-correlation. */
  function InsightRank(x: Insight): nat {
    match x
    case StrongPair(_, _, _) => 0
    case ModeratePair(_, _, _) => 0
    case UnstablePair(_) => 1
    case LaggedCross(_, _) => 2
  }

  /** The insights come in the loop order of the source: every pair insight
      before every stability insight, and the cross insight last. */
  lemma {:induction false} InsightsInOrder(pairwise: seq<PairRecord>, stability: StabilityOutcome, cross: Option<Cross>)
    ensures forall i, j :: 0 <= i < j < |Insights(pairwise, stability, cross)| ==>
      InsightRank(Insights(pairwise, stability, cross)[i]) <= InsightRank(Insights(pairwise, stability, cross)[j])
  {
    var a := Seqs.Choose(pairwise, PairInsight);
    var recs := if stability.StabilityByPair? then stability.records else [];
    var b := Seqs.Choose(recs, UnstableInsight);
    var c := CrossInsight(cross);
    PairRanks(pairwise);
    UnstableRanks(recs);
    assert Insights(pairwise, stability, cross) == a + b + c;
    RanksConcat(a, b, c);
  }

  /** Pair insights, then stability insights, then at most a lagged one, are in rank order. */
  lemma RanksConcat(a: seq<Insight>, b: seq<Insight>, c: seq<Insight>)
    requires forall k :: 0 <= k < |a| ==> InsightRank(a[k]) == 0
    requires forall k :: 0 <= k < |b| ==> InsightRank(b[k]) == 1
    requires forall k :: 0 <= k < |c| ==> InsightRank(c[k]) == 2
    ensures forall i, j :: 0 <= i < j < |a + b + c| ==> InsightRank((a + b + c)[i]) <= InsightRank((a + b + c)[j])
  {
    var r := a + b + c;
    forall k | 0 <= k < |r|
      ensures InsightRank(r[k]) == if k < |a| then 0 else if k < |a| + |b| then 1 else 2
    {
      if k < |a| {
        assert r[k] == a[k];
      } else if k < |a| + |b| {
        assert r[k] == b[k - |a|];
      } else {
        assert r[k] == c[k - |a| - |b|];
      }
    }
  }

  lemma PairRanks(pairwise: seq<PairRecord>)
    ensures forall k :: 0 <= k < |Seqs.Choose(pairwise, PairInsight)| ==> InsightRank(Seqs.Choose(pairwise, PairInsight)[k]) == 0
  {
    PairInsights(pairwise);
    var a := Seqs.Choose(pairwise, PairInsight);
    assert forall k :: 0 <= k < |a| ==> a[k] in a;
  }

  lemma UnstableRanks(recs: seq<StabilityRecord>)
    ensures forall k :: 0 <= k < |Seqs.Choose(recs, UnstableInsight)| ==> InsightRank(Seqs.Choose(recs, UnstableInsight)[k]) == 1
  {
    UnstableInsights(recs);
    var b := Seqs.Choose(recs, UnstableInsight);
    assert forall k :: 0 <= k < |b| ==> b[k] in b;
  }

  /** Without an insufficient stability analysis the two agree. */
  lemma InsightsCorrected(pairwise: seq<PairRecord>, stability: StabilityOutcome, cross: Option<Cross>)
    requires stability.StabilityByPair?
    ensures InsightsAsWritten(pairwise, stability, cross) == Ok(Insights(pairwise, stability, cross))
  {
  }

  /** Without the statistics library no pair insight is ever emitted. */
  lemma NoPairInsightsWithoutLibrary(f: Frame, pearson: Pair -> Cell, stability: StabilityOutcome, cross: Option<Cross>)
    ensures forall x :: x in Insights(Pairwise(f, pearson, Approximation), stability, cross) ==>
      !x.StrongPair? && !x.ModeratePair?
  {
    ApproximatePairsNotSignificant(f, pearson);
  }

  // ---------------------------------------------------------------------
  // The whole analysis
  // ---------------------------------------------------------------------

  /** The statistics the engine takes from numpy, pandas and scipy. */
  datatype Estimates = Estimates(
    pearson: Pair -> Cell,
    test: SignificanceTest,
    rolling: (Pair, int) -> RollingStats,
    lagged: int -> Cell)

  datatype Analysis = Analysis(
    pairwise: seq<PairRecord>,
    rolling: RollingOutcome,
    stability: StabilityOutcome,
    cross: Option<Cross>,
    insights: seq<Insight>)

  /** `analyze_correlations` as written: it fails whenever the window is
      below 5, that is for fewer than 20 rows. */
  function AnalyzeAsWritten(f: Frame, e: Estimates): (r: Result<Analysis, string>)
    ensures r.Err? <==> f.rows < 20
  {
    var pairwise := Pairwise(f, e.pearson, e.test);
    var stability := CorrelationStability(f, e.rolling);
    var cross := CrossCorrelation(f, e.lagged);
    match InsightsAsWritten(pairwise, stability, cross)
    case Err(msg) => Err(msg)
    case Ok(insights) => Ok(Analysis(pairwise, RollingCorrelations(f, e.rolling), stability, cross, insights))
  }

  /** `analyze_correlations` with the insight loop skipping the insufficient
      stability case; it agrees with the source whenever the source succeeds. */
  function Analyze(f: Frame, e: Estimates): (a: Analysis)
    ensures a.stability.StabilityInsufficient? <==> f.rows < 20
    ensures a.rolling.RollingInsufficient? <==> f.rows < 20
    ensures f.rows >= 20 ==> AnalyzeAsWritten(f, e) == Ok(a)
    ensures f.rows < 20 ==> forall x :: x in a.insights ==> !x.UnstablePair?
    ensures a.pairwise == Pairwise(f, e.pearson, e.test)
    ensures a.rolling == RollingCorrelations(f, e.rolling)
    ensures a.stability == CorrelationStability(f, e.rolling)
    ensures a.cross == CrossCorrelation(f, e.lagged)
    ensures a.insights == Insights(a.pairwise, a.stability, a.cross)
  {
    var pairwise := Pairwise(f, e.pearson, e.test);
    var stability := CorrelationStability(f, e.rolling);
    var cross := CrossCorrelation(f, e.lagged);
    Analysis(pairwise, RollingCorrelations(f, e.rolling), stability, cross, Insights(pairwise, stability, cross))
  }

  /** The six-row sample of the unit tests (all three metrics present) makes
      the analysis as written fail. */
  lemma SixRowSampleFails(rtwp: seq<Cell>, sinr: seq<Cell>, prb: seq<Cell>, e: Estimates)
    requires |rtwp| == |sinr| == |prb| == 6
    ensures AnalyzeAsWritten(Frame(6, Some(rtwp), Some(sinr), Some(prb)), e).Err?
    ensures Analyze(Frame(6, Some(rtwp), Some(sinr), Some(prb)), e).stability.StabilityInsufficient?
  {
  }
}
