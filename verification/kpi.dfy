/** The cleaned KPI panel shared by the detector, the correlation engine and
    the comparison logic. */
module Kpi {
  import opened Wrappers

  /** A numeric cell; `None` is pandas' NaN. Every comparison with NaN is false. */
  type Cell = Option<real>

  /** A standard deviation: never negative. */
  type Spread = r: real | 0.0 <= r

  datatype Metric = RTWP | SINR | PRB

  /** The required metrics in the order every loop of the source visits them. */
  const Metrics: seq<Metric> := [RTWP, SINR, PRB]

  function Name(m: Metric): string {
    match m
    case RTWP => "RTWP"
    case SINR => "SINR"
    case PRB => "PRB"
  }

  /** The position of a metric in `Metrics`. */
  function MetricIndex(m: Metric): (i: nat)
    ensures i < |Metrics| && Metrics[i] == m
  {
    match m
    case RTWP => 0
    case SINR => 1
    case PRB => 2
  }

  /** `Metrics` lists each metric once, so a position names its metric. */
  lemma IndexOfMetric(i: nat)
    requires i < |Metrics|
    ensures MetricIndex(Metrics[i]) == i
  {
  }

  function Abs(x: real): (r: real)
    ensures r >= 0.0 && (r == x || r == -x)
  {
    if x < 0.0 then -x else x
  }

  function Min(a: int, b: int): int {
    if a < b then a else b
  }

  /** A panel of `rows` samples; a metric column is `None` when the frame
      does not have it. Positions are the frame's 0-based index. */
  datatype Frame = Frame(rows: nat, rtwp: Option<seq<Cell>>, sinr: Option<seq<Cell>>, prb: Option<seq<Cell>>) {

    function Column(m: Metric): Option<seq<Cell>> {
      match m
      case RTWP => rtwp
      case SINR => sinr
      case PRB => prb
    }

    predicate Has(m: Metric) {
      Column(m).Some?
    }

    /** The present metrics, in the fixed order RTWP, SINR, PRB. */
    function Available(): (r: seq<Metric>)
      ensures forall m :: m in r <==> Has(m)
      ensures |r| <= 3
    {
      (if Has(RTWP) then [RTWP] else []) + (if Has(SINR) then [SINR] else []) + (if Has(PRB) then [PRB] else [])
    }
  }

  /** The adaptive window of the rolling analyses: `min(20, len(df) // 4)`. */
  function Window(n: nat): int {
    Min(20, n / 4)
  }

  /** The window is large enough (at least 5) exactly when the panel has 20 rows or more. */
  lemma WindowLargeEnough(n: nat)
    ensures Window(n) >= 5 <==> n >= 20
    ensures Window(n) <= 20
  {
  }
}
