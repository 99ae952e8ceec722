/** The KPI file normaliser: header canonicalisation, required-column
    validation, time-column resolution (or synthetic 15-minute times), the
    cleaning pipeline (empty-row removal, median imputation, 3-sigma outlier
    trim per KPI column, sort by time) and the metadata of the result.
    CSV decoding and date parsing are outside the model: a table arrives with
    its header names and, per row, the coerced time (minutes since the epoch,
    `None` for NaT) and the KPI cells. Median, mean and standard deviation are
    inputs. */
module Parser {
  import opened Wrappers
  import opened Kpi
  import Seqs
  import Text

  // ---------------------------------------------------------------------
  // Headers
  // ---------------------------------------------------------------------

  /** The synonym table; names outside it pass through unchanged. */
  function Synonym(h: string): string {
    if h == "RTWP_DBM" then "RTWP"
    else if h == "SINR_DB" then "SINR"
    else if h == "PRB_UTILIZATION" || h == "PRB_UTIL" || h == "PRB_USAGE" then "PRB"
    else if h == "TIMESTAMP" || h == "DATETIME" || h == "DATE" then "TIME"
    else h
  }

  /** Strip, upper-case, then map through the synonym table. */
  function CanonicalHeader(h: string): string {
    Synonym(Text.Upper(Text.Strip(h)))
  }

  function CleanHeaders(hs: seq<string>): (r: seq<string>)
    ensures |r| == |hs| && forall i :: 0 <= i < |hs| ==> r[i] == CanonicalHeader(hs[i])
  {
    seq(|hs|, i requires 0 <= i < |hs| => CanonicalHeader(hs[i]))
  }

  /** Headers that are already canonical are all kept by cleaning. */
  lemma CleanFixed(hs: seq<string>)
    requires forall i :: 0 <= i < |hs| ==> CanonicalHeader(hs[i]) == hs[i]
    ensures forall i :: 0 <= i < |hs| ==> hs[i] in CleanHeaders(hs)
  {
    var r := CleanHeaders(hs);
    assert forall i :: 0 <= i < |hs| ==> r[i] == hs[i];
  }

  /** A string with no space at either end and no lower-case letter: what a
      canonical header looks like. */
  predicate Settled(s: string) {
    (s == [] || (!Text.IsSpace(s[0]) && !Text.IsSpace(s[|s| - 1]))) && Text.Upper(s) == s
  }

  lemma SettledIsFixed(s: string)
    requires Settled(s)
    ensures CanonicalHeader(s) == Synonym(s)
  {
    Text.StripOfTrimmed(s);
  }

  /** Canonicalising twice changes nothing: stripping and upper-casing are
      idempotent, and no synonym target is itself a synonym key. */
  lemma CanonicalHeaderIdempotent(h: string)
    ensures CanonicalHeader(CanonicalHeader(h)) == CanonicalHeader(h)
  {
    var u := Text.Upper(Text.Strip(h));
    CanonicalSettled(h);
    SettledIsFixed(CanonicalHeader(h));
    SynonymIdempotent(u);
  }

  lemma SynonymIdempotent(u: string)
    ensures Synonym(Synonym(u)) == Synonym(u)
  {
  }

  /** Every canonical header is settled. */
  lemma CanonicalSettled(h: string)
    ensures Settled(CanonicalHeader(h))
  {
    var u := Text.Upper(Text.Strip(h));
    UpperStripSettled(h);
    SynonymCases(u);
    if Synonym(u) != u {
      TargetsSettled();
    }
  }

  lemma UpperStripSettled(h: string)
    ensures Settled(Text.Upper(Text.Strip(h)))
  {
    var s := Text.Strip(h);
    Text.UpperKeepsSpaces(s);
    Text.UpperIdempotent(s);
  }

  /** A synonym is the name itself or one of the four targets. */
  lemma SynonymCases(u: string)
    ensures Synonym(u) == u || Synonym(u) == "RTWP" || Synonym(u) == "SINR" || Synonym(u) == "PRB" || Synonym(u) == "TIME"
  {
  }

  /** The four synonym targets are settled. */
  lemma TargetsSettled()
    ensures Settled("RTWP") && Settled("SINR") && Settled("PRB") && Settled("TIME")
  {
    assert Text.Upper("RTWP") == "RTWP";
    assert Text.Upper("SINR") == "SINR";
    assert Text.Upper("PRB") == "PRB";
    assert Text.Upper("TIME") == "TIME";
  }

  /** No synonym target is a time synonym key. */
  lemma SynonymNeverTimeKey(x: string)
    ensures Synonym(x) != "TIMESTAMP" && Synonym(x) != "DATE" && Synonym(x) != "DATETIME"
  {
    if x == "TIMESTAMP" || x == "DATETIME" || x == "DATE" {
      assert Synonym(x) == "TIME";
    }
  }

  /** A canonical header is never one of the time synonyms. */
  lemma CanonicalNeverTimeSynonym(h: string)
    ensures CanonicalHeader(h) != "TIMESTAMP" && CanonicalHeader(h) != "DATE" && CanonicalHeader(h) != "DATETIME"
  {
    SynonymNeverTimeKey(Text.Upper(Text.Strip(h)));
  }

  /** A name without surrounding spaces or lower-case letters is its own strip and upper-case. */
  lemma SettledName(s: string)
    requires s != [] && !Text.IsSpace(s[0]) && !Text.IsSpace(s[|s| - 1])
    requires forall i :: 0 <= i < |s| ==> Text.UpperChar(s[i]) == s[i]
    ensures CanonicalHeader(s) == Synonym(s)
  {
    Text.StripOfTrimmed(s);
    assert Text.Upper(s) == s;
  }

  // ---------------------------------------------------------------------
  // Validation and time resolution
  // ---------------------------------------------------------------------

  const Required: seq<string> := ["RTWP", "SINR", "PRB"]
  const TimeNames: seq<string> := ["TIME", "TIMESTAMP", "DATE", "DATETIME"]

  /** The required columns absent from the headers, in the order RTWP, SINR, PRB. */
  function MissingColumns(hs: seq<string>): (r: seq<string>)
    ensures forall c :: c in r <==> c in Required && c !in hs
    ensures r == [] <==> forall i :: 0 <= i < |Required| ==> Required[i] in hs
    ensures Seqs.IsSubsequence(r, Required)
  {
    Seqs.FilterIsSubsequence(Required, c => c !in hs);
    Seqs.Filter(Required, c => c !in hs)
  }

  /** The position of the first of `names` present in `hs`: a loop that
      breaks at the first hit. */
  function FirstPresent(names: seq<string>, hs: seq<string>): (r: Option<nat>)
    ensures r.None? <==> forall i :: 0 <= i < |names| ==> names[i] !in hs
    ensures r.Some? ==> r.value < |names| && names[r.value] in hs
    ensures r.Some? ==> forall j :: 0 <= j < r.value ==> names[j] !in hs
  {
    if names == [] then None
    else if names[0] in hs then Some(0)
    else
      var rest := FirstPresent(names[1..], hs);
      assert forall i :: 1 <= i < |names| ==> names[i] == names[1..][i - 1];
      if rest.None? then None else Some(rest.value + 1)
  }

  /** The first of TIME, TIMESTAMP, DATE, DATETIME present in the headers. */
  function ResolveTimeColumn(hs: seq<string>): (r: Option<string>)
    ensures r.None? <==> forall i :: 0 <= i < |TimeNames| ==> TimeNames[i] !in hs
    ensures r.Some? ==> exists i :: 0 <= i < |TimeNames| && r.value == TimeNames[i] && r.value in hs
    ensures r.Some? ==> forall i, j :: 0 <= j < i < |TimeNames| && r.value == TimeNames[i] ==> TimeNames[j] !in hs
  {
    match FirstPresent(TimeNames, hs)
    case None => None
    case Some(i) => Some(TimeNames[i])
  }

  /** After header cleaning only `TIME` can be found: the other time names
      have already been renamed to it. */
  lemma CleanedTimeColumnIsTime(hs: seq<string>)
    ensures ResolveTimeColumn(CleanHeaders(hs)) == None || ResolveTimeColumn(CleanHeaders(hs)) == Some("TIME")
  {
    var c := CleanHeaders(hs);
    forall i | 0 <= i < |c| ensures c[i] != "TIMESTAMP" && c[i] != "DATE" && c[i] != "DATETIME" {
      CanonicalNeverTimeSynonym(hs[i]);
    }
    assert TimeNames[1] !in c && TimeNames[2] !in c && TimeNames[3] !in c;
  }

  // ---------------------------------------------------------------------
  // Rows
  // ---------------------------------------------------------------------

  /** One row: its time in minutes (`None` is NaT), the three KPI cells, and
      whether any other column holds a value. */
  datatype Row = Row(time: Option<int>, rtwp: Cell, sinr: Cell, prb: Cell, other: bool)

  function Get(r: Row, m: Metric): Cell {
    match m
    case RTWP => r.rtwp
    case SINR => r.sinr
    case PRB => r.prb
  }

  function With(r: Row, m: Metric, v: Cell): Row {
    match m
    case RTWP => r.(rtwp := v)
    case SINR => r.(sinr := v)
    case PRB => r.(prb := v)
  }

  function Column(rows: seq<Row>, m: Metric): (c: seq<Cell>)
    ensures |c| == |rows| && forall i :: 0 <= i < |rows| ==> c[i] == Get(rows[i], m)
  {
    seq(|rows|, i requires 0 <= i < |rows| => Get(rows[i], m))
  }

  /** 2024-01-01 00:00, in minutes since 1970-01-01 00:00. */
  const Epoch: int := 28401120

  /** Without a time column, row i is stamped 2024-01-01 00:00 + 15·i minutes. */
  function WithSyntheticTimes(rows: seq<Row>): (r: seq<Row>)
    ensures |r| == |rows|
    ensures forall i :: 0 <= i < |r| ==> r[i] == rows[i].(time := Some(Epoch + 15 * i))
  {
    seq(|rows|, i requires 0 <= i < |rows| => rows[i].(time := Some(Epoch + 15 * i)))
  }

  // ---------------------------------------------------------------------
  // Cleaning
  // ---------------------------------------------------------------------

  /** `dropna(how='all')`: a row survives if any column, the time included, holds a value. */
  predicate NonEmptyRow(r: Row) {
    r.time.Some? || r.rtwp.Some? || r.sinr.Some? || r.prb.Some? || r.other
  }

  function DropEmpty(rows: seq<Row>): (r: seq<Row>)
    ensures forall x :: x in r <==> x in rows && NonEmptyRow(x)
    ensures forall x :: multiset(r)[x] == if NonEmptyRow(x) then multiset(rows)[x] else 0
    ensures Seqs.IsSubsequence(r, rows)
  {
    Seqs.FilterIsSubsequence(rows, NonEmptyRow);
    Seqs.Filter(rows, NonEmptyRow)
  }

  /** Once times are synthetic every row has one, so no row is ever dropped. */
  lemma {:induction false} SyntheticTimesDropNothing(rows: seq<Row>)
    ensures DropEmpty(WithSyntheticTimes(rows)) == WithSyntheticTimes(rows)
  {
    AllKept(WithSyntheticTimes(rows), NonEmptyRow);
  }

  lemma {:induction false} AllKept<T(!new)>(s: seq<T>, p: T -> bool)
    requires forall i :: 0 <= i < |s| ==> p(s[i])
    ensures Seqs.Filter(s, p) == s
  {
    if s != [] {
      AllKept(s[1..], p);
      assert s == [s[0]] + s[1..];
    }
  }

  /** `fillna(v)` on one column. */
  function FillMissing(rows: seq<Row>, m: Metric, v: Cell): (r: seq<Row>)
    ensures |r| == |rows|
    ensures forall i :: 0 <= i < |rows| ==>
      r[i].time == rows[i].time && r[i].other == rows[i].other &&
      (forall m' :: m' != m ==> Get(r[i], m') == Get(rows[i], m')) &&
      (Get(rows[i], m).Some? ==> Get(r[i], m) == Get(rows[i], m)) &&
      (Get(rows[i], m).None? ==> Get(r[i], m) == v)
  {
    seq(|rows|, i requires 0 <= i < |rows| => if Get(rows[i], m).None? then With(rows[i], m, v) else rows[i])
  }

  lemma FillMissingIdempotent(rows: seq<Row>, m: Metric, v: Cell)
    ensures FillMissing(FillMissing(rows, m, v), m, v) == FillMissing(rows, m, v)
  {
  }

  /** Filling with a defined value leaves no gap in the column. */
  lemma FilledHasNoGaps(rows: seq<Row>, m: Metric, v: real)
    ensures forall i :: 0 <= i < |rows| ==> Get(FillMissing(rows, m, Some(v))[i], m).Some?
  {
  }

  /** The 3-sigma test, inclusive; a NaN value or mean fails it. */
  predicate WithinThreeSigma(r: Row, m: Metric, mean: Cell, std: real) {
    Get(r, m).Some? && mean.Some? && Abs(Get(r, m).value - mean.value) <= 3.0 * std
  }

  /** A row passes the trim: there is no trim without a positive deviation. */
  predicate Survives(x: Row, m: Metric, mean: Cell, std: Option<Spread>) {
    !(std.Some? && std.value > 0.0) || WithinThreeSigma(x, m, mean, std.value)
  }

  /** The outlier trim: applied only when the deviation is positive, it keeps
      the rows within three deviations of the mean, in their order. */
  function Trim(rows: seq<Row>, m: Metric, mean: Cell, std: Option<Spread>): (r: seq<Row>)
    ensures !(std.Some? && std.value > 0.0) ==> r == rows
    ensures std.Some? && std.value > 0.0 ==> forall x :: x in r <==> x in rows && WithinThreeSigma(x, m, mean, std.value)
    ensures forall x :: x in r <==> x in rows && Survives(x, m, mean, std)
    ensures forall x :: multiset(r)[x] == if Survives(x, m, mean, std) then multiset(rows)[x] else 0
    ensures Seqs.IsSubsequence(r, rows)
    ensures multiset(r) <= multiset(rows)
  {
    if std.Some? && std.value > 0.0 then
      var keep := (x: Row) => WithinThreeSigma(x, m, mean, std.value);
      Seqs.FilterIsSubsequence(rows, keep);
      Seqs.Filter(rows, keep)
    else
      SubsequenceRefl(rows);
      rows
  }

  lemma {:induction false} SubsequenceRefl<T>(s: seq<T>)
    ensures Seqs.IsSubsequence(s, s)
  {
    if s != [] {
      SubsequenceRefl(s[1..]);
    }
  }

  /** The estimators the pipeline takes from pandas. */
  datatype Estimators = Estimators(median: seq<Cell> -> Cell, mean: seq<Cell> -> Cell, std: seq<Cell> -> Option<Spread>)

  /** The rows with the column's gaps filled by its median. */
  function Filled(rows: seq<Row>, m: Metric, est: Estimators): seq<Row> {
    FillMissing(rows, m, est.median(Column(rows, m)))
  }

  function FilledMean(rows: seq<Row>, m: Metric, est: Estimators): Cell {
    est.mean(Column(Filled(rows, m, est), m))
  }

  function FilledStd(rows: seq<Row>, m: Metric, est: Estimators): Option<Spread> {
    est.std(Column(Filled(rows, m, est), m))
  }

  /** One column's imputation and trim; the statistics are taken on the rows
      as they stand after the previous column's trim. */
  function CleanColumn(rows: seq<Row>, m: Metric, est: Estimators): (r: seq<Row>)
    ensures |r| <= |rows|
    ensures TimesOf(r) <= TimesOf(rows)
    ensures est.median(Column(rows, m)).Some? ==> forall i :: 0 <= i < |r| ==> Get(r[i], m).Some?
    ensures Seqs.IsSubsequence(r, Filled(rows, m, est))
    ensures forall x :: x in r <==> x in Filled(rows, m, est) && Survives(x, m, FilledMean(rows, m, est), FilledStd(rows, m, est))
    ensures forall x ::
      multiset(r)[x] == if Survives(x, m, FilledMean(rows, m, est), FilledStd(rows, m, est))
                        then multiset(Filled(rows, m, est))[x] else 0
    ensures forall m' :: m' != m && NoGaps(rows, m') ==> NoGaps(r, m')
  {
    var trimmed := Trim(Filled(rows, m, est), m, FilledMean(rows, m, est), FilledStd(rows, m, est));
    TrimmedFilledRows(rows, m, est, trimmed);
    trimmed
  }

  /** The trimmed, filled rows: no more of them, no new time stamps, and
      no gap in the column once its median is defined nor in any column
      that had none. */
  lemma TrimmedFilledRows(rows: seq<Row>, m: Metric, est: Estimators, trimmed: seq<Row>)
    requires trimmed == Trim(Filled(rows, m, est), m, FilledMean(rows, m, est), FilledStd(rows, m, est))
    ensures |trimmed| <= |rows|
    ensures TimesOf(trimmed) <= TimesOf(rows)
    ensures est.median(Column(rows, m)).Some? ==> forall i :: 0 <= i < |trimmed| ==> Get(trimmed[i], m).Some?
    ensures forall m' :: m' != m && NoGaps(rows, m') ==> NoGaps(trimmed, m')
  {
    var v := est.median(Column(rows, m));
    var filled := Filled(rows, m, est);
    assert |multiset(trimmed)| <= |multiset(filled)|;
    FillKeepsTimes(rows, m, v);
    KeptRows(trimmed, filled);
    FillKeepsOtherGaps(rows, m, v);
  }

  /** No row of the panel lacks a value of metric `m`. */
  predicate NoGaps(rows: seq<Row>, m: Metric) {
    forall i :: 0 <= i < |rows| ==> Get(rows[i], m).Some?
  }

  /** Filling one column leaves every other column's gaps as they were. */
  lemma FillKeepsOtherGaps(rows: seq<Row>, m: Metric, v: Cell)
    ensures forall m' :: m' != m && NoGaps(rows, m') ==>
      forall x :: x in FillMissing(rows, m, v) ==> Get(x, m').Some?
  {
    var f := FillMissing(rows, m, v);
    forall m', x | m' != m && NoGaps(rows, m') && x in f ensures Get(x, m').Some? {
      var i :| 0 <= i < |f| && f[i] == x;
    }
  }

  /** The time stamps present in a panel. */
  ghost function TimesOf(rows: seq<Row>): set<Option<int>> {
    set x | x in rows :: x.time
  }

  lemma FillKeepsTimes(rows: seq<Row>, m: Metric, v: Cell)
    ensures TimesOf(FillMissing(rows, m, v)) == TimesOf(rows)
  {
    var f := FillMissing(rows, m, v);
    forall t | t in TimesOf(f) ensures t in TimesOf(rows) {
      var i :| 0 <= i < |f| && f[i].time == t;
      assert rows[i] in rows;
    }
    forall t | t in TimesOf(rows) ensures t in TimesOf(f) {
      var i :| 0 <= i < |rows| && rows[i].time == t;
      assert f[i] in f;
    }
  }

  /** Rows drawn from a panel carry only its time stamps and, row by row, its contents. */
  lemma KeptRows(kept: seq<Row>, rows: seq<Row>)
    requires multiset(kept) <= multiset(rows)
    ensures forall i :: 0 <= i < |kept| ==> kept[i] in rows
    ensures TimesOf(kept) <= TimesOf(rows)
  {
    forall i | 0 <= i < |kept| ensures kept[i] in rows {
      assert kept[i] in multiset(kept);
    }
    forall t | t in TimesOf(kept) ensures t in TimesOf(rows) {
      var i :| 0 <= i < |kept| && kept[i].time == t;
      assert kept[i] in rows;
    }
  }

  // ---------------------------------------------------------------------
  // Sorting by time
  // ---------------------------------------------------------------------

  /** Ascending time with NaT last. */
  predicate TimeLe(a: Option<int>, b: Option<int>) {
    b.None? || (a.Some? && a.value <= b.value)
  }

  predicate SortedByTime(rows: seq<Row>) {
    forall i, j :: 0 <= i < j < |rows| ==> TimeLe(rows[i].time, rows[j].time)
  }

  function Insert(x: Row, s: seq<Row>): (r: seq<Row>)
    requires SortedByTime(s)
    ensures SortedByTime(r)
    ensures multiset(r) == multiset(s) + multiset{x}
    ensures forall i :: 0 <= i < |r| ==> r[i] == x || r[i] in s
  {
    if s == [] then [x]
    else if TimeLe(x.time, s[0].time) then [x] + s
    else
      var rest := Insert(x, s[1..]);
      InsertAfterHead(x, s, rest);
      [s[0]] + rest
  }

  /** The step of `Insert` that keeps the head: what the insertion into the
      tail promised carries over to the whole list. */
  lemma InsertAfterHead(x: Row, s: seq<Row>, rest: seq<Row>)
    requires s != [] && SortedByTime(s) && !TimeLe(x.time, s[0].time)
    requires SortedByTime(rest) && multiset(rest) == multiset(s[1..]) + multiset{x}
    requires forall i :: 0 <= i < |rest| ==> rest[i] == x || rest[i] in s[1..]
    ensures SortedByTime([s[0]] + rest)
    ensures multiset([s[0]] + rest) == multiset(s) + multiset{x}
    ensures forall i :: 0 <= i < |[s[0]] + rest| ==> ([s[0]] + rest)[i] == x || ([s[0]] + rest)[i] in s
  {
    assert s == [s[0]] + s[1..];
    HeadIsEarliest(s);
    assert forall i :: 0 <= i < |rest| ==> TimeLe(s[0].time, rest[i].time);
    SortedCons(s[0], rest);
    Seqs.ConsInsert(s[0], x, s[1..], rest);
  }

  lemma HeadIsEarliest(s: seq<Row>)
    requires s != [] && SortedByTime(s)
    ensures forall y :: y in s[1..] ==> TimeLe(s[0].time, y.time)
  {
    forall y | y in s[1..] ensures TimeLe(s[0].time, y.time) {
      var j :| 0 <= j < |s| - 1 && s[1..][j] == y;
      assert s[j + 1] == y;
    }
  }

  lemma SortedCons(h: Row, s: seq<Row>)
    requires SortedByTime(s)
    requires forall i :: 0 <= i < |s| ==> TimeLe(h.time, s[i].time)
    ensures SortedByTime([h] + s)
  {
    var r := [h] + s;
    forall a, b | 0 <= a < b < |r| ensures TimeLe(r[a].time, r[b].time) {
      assert r[b] == s[b - 1];
      if a > 0 {
        assert r[a] == s[a - 1];
      }
    }
  }

  /** A sort by time (insertion sort; the order among equal times is one
      admissible choice, the source's sort does not fix it). */
  function SortByTime(s: seq<Row>): (r: seq<Row>)
    ensures SortedByTime(r)
    ensures multiset(r) == multiset(s)
    ensures |r| == |s|
  {
    if s == [] then []
    else
      assert s == [s[0]] + s[1..];
      Insert(s[0], SortByTime(s[1..]))
  }

  /** The whole cleaning pass. */
  function CleanData(rows: seq<Row>, est: Estimators): (r: seq<Row>)
    ensures SortedByTime(r)
    ensures |r| <= |rows|
    ensures TimesOf(r) <= TimesOf(rows)
    ensures multiset(r) == multiset(CleanColumn(CleanColumn(CleanColumn(DropEmpty(rows), RTWP, est), SINR, est), PRB, est))
  {
    var kept := DropEmpty(rows);
    assert |multiset(kept)| <= |multiset(rows)| by {
      assert multiset(kept) <= multiset(rows);
    }
    assert TimesOf(kept) <= TimesOf(rows);
    var cleaned := CleanColumn(CleanColumn(CleanColumn(kept, RTWP, est), SINR, est), PRB, est);
    var sorted := SortByTime(cleaned);
    KeptRows(sorted, cleaned);
    sorted
  }

  // ---------------------------------------------------------------------
  // Metadata
  // ---------------------------------------------------------------------

  /** The earliest defined time (pandas' `min` skips NaT). */
  function MinTime(rows: seq<Row>): (r: Option<int>)
    ensures r.None? <==> forall i :: 0 <= i < |rows| ==> rows[i].time.None?
    ensures r.Some? ==> exists i :: 0 <= i < |rows| && rows[i].time == r
    ensures r.Some? ==> forall i :: 0 <= i < |rows| && rows[i].time.Some? ==> r.value <= rows[i].time.value
  {
    if rows == [] then None
    else
      var rest := MinTime(rows[1..]);
      assert forall i :: 1 <= i < |rows| ==> rows[i] == rows[1..][i - 1];
      match rows[0].time
      case None => rest
      case Some(t) => if rest.Some? && rest.value < t then rest else Some(t)
  }

  /** The latest defined time (pandas' `max` skips NaT). */
  function MaxTime(rows: seq<Row>): (r: Option<int>)
    ensures r.None? <==> forall i :: 0 <= i < |rows| ==> rows[i].time.None?
    ensures r.Some? ==> exists i :: 0 <= i < |rows| && rows[i].time == r
    ensures r.Some? ==> forall i :: 0 <= i < |rows| && rows[i].time.Some? ==> rows[i].time.value <= r.value
  {
    if rows == [] then None
    else
      var rest := MaxTime(rows[1..]);
      assert forall i :: 1 <= i < |rows| ==> rows[i] == rows[1..][i - 1];
      match rows[0].time
      case None => rest
      case Some(t) => if rest.Some? && rest.value > t then rest else Some(t)
  }

  /** In a time-sorted panel the earliest time is the first row's. */
  lemma SortedMinIsFirst(rows: seq<Row>)
    requires SortedByTime(rows) && rows != []
    ensures MinTime(rows) == rows[0].time
  {
    if rows[0].time.None? {
      assert forall i :: 0 <= i < |rows| ==> rows[i].time.None? by {
        forall i | 0 <= i < |rows| ensures rows[i].time.None? {
          if i > 0 {
            assert TimeLe(rows[0].time, rows[i].time);
          }
        }
      }
    }
  }

  /** A time-range end: no rows at all, NaT when every time is NaT, or a minute. */
  datatype Stamp = NoRows | NaT | At(minute: int)

  function StampOf(rows: seq<Row>, t: Option<int>): Stamp {
    if rows == [] then NoRows else if t.None? then NaT else At(t.value)
  }

  function MissingIn(m: Metric): Row -> bool {
    (r: Row) => Get(r, m).None?
  }

  datatype Metadata = Metadata(
    totalRecords: nat,
    start: Stamp,
    end: Stamp,
    rtwpMissing: nat,
    sinrMissing: nat,
    prbMissing: nat,
    rtwpMean: Cell,
    sinrMean: Cell,
    prbMean: Cell)

  /** Missing-value counts are taken on the cleaned panel, after imputation,
      so they are 0 whenever the medians used for filling are defined (see
      `CleanedCountsZero`). */
  function MetadataOf(rows: seq<Row>, est: Estimators): (md: Metadata)
    ensures md.totalRecords == |rows|
    ensures md.start == NoRows <==> rows == []
    ensures md.rtwpMissing <= |rows| && md.sinrMissing <= |rows| && md.prbMissing <= |rows|
    ensures md.end == NoRows <==> rows == []
    ensures md.start == NaT <==> rows != [] && forall i :: 0 <= i < |rows| ==> rows[i].time.None?
    ensures md.end == NaT <==> rows != [] && forall i :: 0 <= i < |rows| ==> rows[i].time.None?
    ensures md.start.At? ==> exists i :: 0 <= i < |rows| && rows[i].time == Some(md.start.minute)
    ensures md.start.At? ==> forall i :: 0 <= i < |rows| && rows[i].time.Some? ==> md.start.minute <= rows[i].time.value
    ensures md.end.At? ==> exists i :: 0 <= i < |rows| && rows[i].time == Some(md.end.minute)
    ensures md.end.At? ==> forall i :: 0 <= i < |rows| && rows[i].time.Some? ==> rows[i].time.value <= md.end.minute
    ensures md.rtwpMean == est.mean(Column(rows, RTWP))
    ensures md.sinrMean == est.mean(Column(rows, SINR))
    ensures md.prbMean == est.mean(Column(rows, PRB))
  {
    Metadata(
      |rows|,
      StampOf(rows, MinTime(rows)),
      StampOf(rows, MaxTime(rows)),
      Seqs.Count(rows, MissingIn(RTWP)),
      Seqs.Count(rows, MissingIn(SINR)),
      Seqs.Count(rows, MissingIn(PRB)),
      est.mean(Column(rows, RTWP)),
      est.mean(Column(rows, SINR)),
      est.mean(Column(rows, PRB)))
  }

  // ---------------------------------------------------------------------
  // The parse
  // ---------------------------------------------------------------------

  /** A decoded table: header names and rows. A row's `time` is the coerced
      value of the resolved time column and is ignored when there is none. */
  datatype Table = Table(headers: seq<string>, rows: seq<Row>)

  datatype ParseError = MissingRequired(columns: seq<string>)

  datatype Parsed = Parsed(rows: seq<Row>, meta: Metadata)

  function ParseCsv(t: Table, est: Estimators): (r: Result<Parsed, ParseError>)
    ensures r.Err? <==> MissingColumns(CleanHeaders(t.headers)) != []
    ensures r.Err? ==> r.error.columns == MissingColumns(CleanHeaders(t.headers))
    ensures r.Ok? ==> SortedByTime(r.value.rows)
    ensures r.Ok? ==> r.value.meta.totalRecords == |r.value.rows| <= |t.rows|
    ensures r.Ok? ==>
      r.value.rows == CleanData(if ResolveTimeColumn(CleanHeaders(t.headers)).None? then WithSyntheticTimes(t.rows) else t.rows, est) &&
      r.value.meta == MetadataOf(r.value.rows, est)
  {
    var hs := CleanHeaders(t.headers);
    var missing := MissingColumns(hs);
    if missing != [] then Err(MissingRequired(missing))
    else
      var timed := if ResolveTimeColumn(hs).None? then WithSyntheticTimes(t.rows) else t.rows;
      var rows := CleanData(timed, est);
      Ok(Parsed(rows, MetadataOf(rows, est)))
  }

  /** Synonyms and stray spaces or case do not upset validation: the header
      ` rtwp_dbm` canonicalises to the required name `RTWP`. */
  lemma RtwpSynonymHeader()
    ensures CanonicalHeader(" rtwp_dbm") == "RTWP"
  {
    Text.StripLeadingSpace("rtwp_dbm");
    assert " rtwp_dbm" == [' '] + "rtwp_dbm";
    UpperRtwpDbm();
    assert Synonym("RTWP_DBM") == "RTWP";
  }

  lemma UpperRtwpDbm()
    ensures Text.Upper("rtwp_dbm") == "RTWP_DBM"
  {
    var u := Text.Upper("rtwp_dbm");
    assert u[0] == 'R'; assert u[1] == 'T'; assert u[2] == 'W'; assert u[3] == 'P';
    assert u[4] == '_'; assert u[5] == 'D'; assert u[6] == 'B'; assert u[7] == 'M';
  }

  /** Likewise `Sinr_dB ` canonicalises to `SINR`. */
  lemma SinrSynonymHeader()
    ensures CanonicalHeader("Sinr_dB ") == "SINR"
  {
    Text.StripTrailingSpace("Sinr_dB");
    assert "Sinr_dB " == "Sinr_dB" + [' '];
    UpperSinrDb();
    assert Synonym("SINR_DB") == "SINR";
  }

  lemma UpperSinrDb()
    ensures Text.Upper("Sinr_dB") == "SINR_DB"
  {
    var u := Text.Upper("Sinr_dB");
    assert u[0] == 'S'; assert u[1] == 'I'; assert u[2] == 'N'; assert u[3] == 'R';
    assert u[4] == '_'; assert u[5] == 'D'; assert u[6] == 'B';
  }

  /** The required names are already canonical: cleaning leaves them alone. */
  lemma RequiredHeaderClean(h: string)
    requires h == "RTWP" || h == "SINR" || h == "PRB"
    ensures CanonicalHeader(h) == h
  {
    if h == "RTWP" {
      RequiredWordClean("RTWP");
    } else if h == "SINR" {
      RequiredWordClean("SINR");
    } else {
      RequiredWordClean("PRB");
    }
  }

  /** A capital word outside the synonym table is canonical. */
  lemma RequiredWordClean(h: string)
    requires h != [] && forall i :: 0 <= i < |h| ==> 'A' <= h[i] <= 'Z'
    requires Synonym(h) == h
    ensures CanonicalHeader(h) == h
  {
    CanonicalUpperWord(h);
  }

  /** A word of capital letters is its own stripped upper case. */
  lemma CanonicalUpperWord(h: string)
    requires h != [] && forall i :: 0 <= i < |h| ==> 'A' <= h[i] <= 'Z'
    ensures Text.Upper(Text.Strip(h)) == h
  {
    Text.StripOfTrimmed(h);
    Text.UpperOfUpperCase(h);
  }

  /** With a median defined for every column, the cleaned panel has no gaps,
      so the metadata's missing-value counts are all 0. */
  lemma CleanedCountsZero(rows: seq<Row>, est: Estimators)
    requires forall c :: est.median(c).Some?
    ensures var r := CleanData(rows, est);
      NoGaps(r, RTWP) && NoGaps(r, SINR) && NoGaps(r, PRB)
    ensures var md := MetadataOf(CleanData(rows, est), est);
      md.rtwpMissing == 0 && md.sinrMissing == 0 && md.prbMissing == 0
  {
    var c := CleanColumn(CleanColumn(CleanColumn(DropEmpty(rows), RTWP, est), SINR, est), PRB, est);
    StagesLeaveNoGaps(DropEmpty(rows), est);
    var r := CleanData(rows, est);
    SameRowsNoGaps(c, r, RTWP);
    SameRowsNoGaps(c, r, SINR);
    SameRowsNoGaps(c, r, PRB);
    NoGapsNoneMissing(r, RTWP);
    NoGapsNoneMissing(r, SINR);
    NoGapsNoneMissing(r, PRB);
  }

  /** Each stage fills its own column and keeps the gaps of the earlier ones closed. */
  lemma StagesLeaveNoGaps(rows: seq<Row>, est: Estimators)
    requires forall c :: est.median(c).Some?
    ensures var c := CleanColumn(CleanColumn(CleanColumn(rows, RTWP, est), SINR, est), PRB, est);
      NoGaps(c, RTWP) && NoGaps(c, SINR) && NoGaps(c, PRB)
  {
    var a := CleanColumn(rows, RTWP, est);
    var b := CleanColumn(a, SINR, est);
    assert NoGaps(a, RTWP);
    assert NoGaps(b, RTWP) && NoGaps(b, SINR);
  }

  lemma SameRowsNoGaps(c: seq<Row>, r: seq<Row>, m: Metric)
    requires multiset(r) == multiset(c) && NoGaps(c, m)
    ensures NoGaps(r, m)
  {
    forall i | 0 <= i < |r| ensures Get(r[i], m).Some? {
      assert r[i] in multiset(c);
      var j :| 0 <= j < |c| && c[j] == r[i];
    }
  }

  lemma NoGapsNoneMissing(r: seq<Row>, m: Metric)
    requires NoGaps(r, m)
    ensures Seqs.Count(r, MissingIn(m)) == 0
  {
    assert forall i :: 0 <= i < |r| ==> !MissingIn(m)(r[i]);
  }


  /** A table carrying every required column but no data rows parses to an
      empty panel with `total_records` 0; it is not an error. */
  lemma NoRowsIsNotAnError(t: Table, est: Estimators)
    requires t.rows == []
    requires forall i :: 0 <= i < |Required| ==> Required[i] in CleanHeaders(t.headers)
    ensures ParseCsv(t, est).Ok?
    ensures ParseCsv(t, est).value.rows == []
    ensures ParseCsv(t, est).value.meta.totalRecords == 0
  {
  }
}
