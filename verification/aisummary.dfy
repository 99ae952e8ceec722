/** The rule-based half of the analysis summary service: the confidence
    score, the routing of reply lines into six report sections, the
    extraction of key findings and recommendations, the risk level, and the
    fallback analysis used whenever the language-model reply is unavailable.
    The reply text itself is an input; producing it is outside the model. */
module AiSummary {
  import opened Wrappers
  import Seqs
  import Text
  import Anomaly

  // ----- Confidence score -----

  /** The anomaly summary's `severity` field, `low` when it is absent. */
  function SeverityField(s: Option<string>): string {
    s.GetOr("low")
  }

  function RecordAdjustment(totalRecords: int): real {
    if totalRecords > 1000 then 0.1
    else if totalRecords < 100 then -0.2
    else 0.0
  }

  function SeverityAdjustment(severity: string): real {
    if severity == "high" then -0.1
    else if severity == "low" then 0.05
    else 0.0
  }

  /** `max(0.0, min(1.0, x))`. */
  function Clamp(x: real): (r: real)
    ensures 0.0 <= r <= 1.0
    ensures 0.0 <= x <= 1.0 ==> r == x
    ensures x < 0.0 ==> r == 0.0
    ensures x > 1.0 ==> r == 1.0
  {
    if 1.0 < x then 1.0 else if x < 0.0 then 0.0 else x
  }

  /** A base of 0.8, adjusted by the data volume and by the severity, then
      clamped to [0, 1]. The adjustments are small enough that the clamp
      never takes effect: the score lies in [0.5, 0.95]. */
  function Confidence(totalRecords: int, severity: string): (r: real)
    ensures 0.0 <= r <= 1.0
    ensures 0.5 <= r <= 0.95
    ensures r == 0.8 + RecordAdjustment(totalRecords) + SeverityAdjustment(severity)
  {
    Clamp(0.8 + RecordAdjustment(totalRecords) + SeverityAdjustment(severity))
  }

  /** More records never lower the score; `high` severity gives the lowest
      score for a given volume and `low` the highest. */
  lemma ConfidenceOrder(a: int, b: int, severity: string)
    ensures a <= b ==> Confidence(a, severity) <= Confidence(b, severity)
    ensures Confidence(a, "high") <= Confidence(a, severity) <= Confidence(a, "low")
    ensures Confidence(a, severity) == 0.95 <==> a > 1000 && severity == "low"
    ensures Confidence(a, severity) == 0.5 <==> a < 100 && severity == "high"
  {
  }

  // ----- Section routing -----

  datatype Section =
    | PerformanceAssessment
    | AnomalyAnalysis
    | CorrelationInsights
    | RootCauseAnalysis
    | Recommendations
    | RiskAssessment

  /** The sections in priority order, each with the keywords that open it. */
  const Sections: seq<Section> := [PerformanceAssessment, AnomalyAnalysis, CorrelationInsights,
                                   RootCauseAnalysis, Recommendations, RiskAssessment]
  const SectionKeywords: seq<seq<string>> := [
    ["performance", "network health", "overall"],
    ["anomaly", "outlier", "unusual"],
    ["correlation", "relationship", "correlate"],
    ["root cause", "cause", "reason"],
    ["recommend", "suggest", "action"],
    ["risk", "impact", "severity"]
  ]

  /** The key each section has in the reply dictionary. */
  function SectionKey(s: Section): string {
    match s
    case PerformanceAssessment => "performance_assessment"
    case AnomalyAnalysis => "anomaly_analysis"
    case CorrelationInsights => "correlation_insights"
    case RootCauseAnalysis => "root_cause_analysis"
    case Recommendations => "recommendations"
    case RiskAssessment => "risk_assessment"
  }

  /** The index of the first keyword group, from `from` on, with a keyword in `hay`. */
  function FirstMatch(groups: seq<seq<string>>, hay: string, from: nat): (r: Option<nat>)
    requires from <= |groups|
    ensures r.None? <==> forall g :: from <= g < |groups| ==> !Text.ContainsAny(hay, groups[g])
    ensures r.Some? ==> from <= r.value < |groups| && Text.ContainsAny(hay, groups[r.value])
    ensures r.Some? ==> forall g :: from <= g < r.value ==> !Text.ContainsAny(hay, groups[g])
    decreases |groups| - from
  {
    if from == |groups| then None
    else if Text.ContainsAny(hay, groups[from]) then Some(from)
    else FirstMatch(groups, hay, from + 1)
  }

  /** The lower-cased, stripped line that the keywords are looked up in. */
  function LineKey(line: string): string {
    Text.Strip(Text.Lower(line))
  }

  /** The section a line opens, if it holds a keyword: the first group in
      priority order wins. */
  function Opens(line: string): (r: Option<Section>)
    ensures r.None? <==> forall g :: 0 <= g < |SectionKeywords| ==> !Text.ContainsAny(LineKey(line), SectionKeywords[g])
  {
    match FirstMatch(SectionKeywords, LineKey(line), 0)
    case None => None
    case Some(g) => Some(Sections[g])
  }

  /** The section in force after reading the first `n` lines: that of the
      last line among them that opens one. `opens` is the classifier above;
      keeping it a parameter keeps the routing rules apart from the keywords. */
  function InForce(opens: string -> Option<Section>, lines: seq<string>, n: nat): Option<Section>
    requires n <= |lines|
  {
    if n == 0 then None
    else if opens(lines[n - 1]).Some? then opens(lines[n - 1])
    else InForce(opens, lines, n - 1)
  }

  /** Where line `i` goes: to the section in force, unless it is blank or no
      section has been opened yet. */
  function Target(opens: string -> Option<Section>, lines: seq<string>, i: nat): Option<Section>
    requires i < |lines|
  {
    var c := InForce(opens, lines, i + 1);
    if c.Some? && Text.Strip(lines[i]) != [] then c else None
  }

  /** A section's text as the reference definition: the lines routed to it
      among the first `n`, each followed by a line feed. */
  function SectionText(opens: string -> Option<Section>, lines: seq<string>, s: Section, n: nat): string
    requires n <= |lines|
  {
    if n == 0 then []
    else SectionText(opens, lines, s, n - 1) + (if Target(opens, lines, n - 1) == Some(s) then lines[n - 1] + "\n" else [])
  }

  lemma {:induction false} InForceIffOpened(opens: string -> Option<Section>, lines: seq<string>, n: nat)
    requires n <= |lines|
    ensures InForce(opens, lines, n).Some? <==> exists j :: 0 <= j < n && opens(lines[j]).Some?
  {
    if n > 0 {
      InForceIffOpened(opens, lines, n - 1);
    }
  }

  /** A line that opens a section is never blank. */
  lemma OpenerNotBlank(line: string)
    requires Opens(line).Some?
    ensures Text.Strip(line) != []
  {
    var g :| 0 <= g < |SectionKeywords| && Text.ContainsAny(LineKey(line), SectionKeywords[g]);
    var k :| 0 <= k < |SectionKeywords[g]| && Text.Contains(LineKey(line), SectionKeywords[g][k]);
    KeywordNonEmpty(g, k);
    HoldsWordNotBlank(line, SectionKeywords[g][k]);
  }

  lemma KeywordNonEmpty(g: nat, k: nat)
    requires g < |SectionKeywords| && k < |SectionKeywords[g]|
    ensures SectionKeywords[g][k] != []
  {
  }

  /** A line whose key holds a non-empty word is not blank. */
  lemma HoldsWordNotBlank(line: string, w: string)
    requires w != [] && Text.Contains(LineKey(line), w)
    ensures Text.Strip(line) != []
  {
    Text.StripEmptyIffBlank(line);
    Text.StripEmptyIffBlank(Text.Lower(line));
    Text.LowerKeepsSpaces(line);
  }

  /** Each line is routed to at most one section, and to one exactly when it
      is non-blank and some line up to it opened a section; a line that opens
      a section goes to that section. */
  lemma RoutingRule(lines: seq<string>, i: nat)
    requires i < |lines|
    ensures Target(Opens, lines, i).Some? <==> Text.Strip(lines[i]) != [] && exists j :: 0 <= j <= i && Opens(lines[j]).Some?
    ensures Opens(lines[i]).Some? ==> Target(Opens, lines, i) == Opens(lines[i])
  {
    InForceIffOpened(Opens, lines, i + 1);
    if Opens(lines[i]).Some? {
      OpenerNotBlank(lines[i]);
    }
  }

  /** Python's loop over `response.split('\n')`, appending each routed line
      to its section. All six sections are present, possibly empty, and each
      holds exactly the reference text. */
  method ExtractSections(response: string) returns (r: map<Section, string>)
    ensures forall s: Section :: s in r && r[s] == SectionText(Opens, Text.Split(response, '\n'), s, |Text.Split(response, '\n')|)
  {
    r := Route(Opens, Text.Split(response, '\n'));
  }

  /** Every section, each still empty. */
  function EmptySections(): (m: map<Section, string>)
    ensures forall s: Section :: s in m && m[s] == []
  {
    assert forall s: Section :: s in Sections by {
      forall s: Section
        ensures s in Sections
      {
        EverySectionListed(s);
      }
    }
    map s: Section | s in Sections :: []
  }

  lemma EverySectionListed(s: Section)
    ensures s in Sections
  {
    match s
    case PerformanceAssessment =>
    case AnomalyAnalysis =>
    case CorrelationInsights =>
    case RootCauseAnalysis =>
    case Recommendations =>
    case RiskAssessment =>
  }

  /** The routing loop for any classifier. */
  method Route(opens: string -> Option<Section>, lines: seq<string>) returns (r: map<Section, string>)
    ensures forall s: Section :: s in r && r[s] == SectionText(opens, lines, s, |lines|)
  {
    r := EmptySections();
    var current: Option<Section> := None;
    var i := 0;
    while i < |lines|
      invariant 0 <= i <= |lines|
      invariant current == InForce(opens, lines, i)
      invariant forall s: Section :: s in r && r[s] == SectionText(opens, lines, s, i)
    {
      var opening := opens(lines[i]);
      if opening.Some? {
        current := opening;
      }
      r := RouteLine(opens, lines, i, r, current);
      i := i + 1;
    }
  }

  /** One turn of the loop: line `i` is appended to the section in force,
      if any, when it is not blank; every other section is left alone. */
  method RouteLine(opens: string -> Option<Section>, lines: seq<string>, i: nat,
                   r: map<Section, string>, current: Option<Section>)
    returns (r': map<Section, string>)
    requires i < |lines|
    requires current == InForce(opens, lines, i + 1)
    requires forall s: Section :: s in r && r[s] == SectionText(opens, lines, s, i)
    ensures forall s: Section :: s in r' && r'[s] == SectionText(opens, lines, s, i + 1)
  {
    var line := lines[i];
    r' := r;
    if current.Some? && Text.Strip(line) != [] {
      r' := r[current.value := r[current.value] + line + "\n"];
    }
    forall s: Section
      ensures s in r' && r'[s] == SectionText(opens, lines, s, i + 1)
    {
      RouteStep(opens, lines, i, s);
    }
  }

  /** Section `s` gains line `i` exactly when the line is routed to it. */
  lemma RouteStep(opens: string -> Option<Section>, lines: seq<string>, i: nat, s: Section)
    requires i < |lines|
    ensures SectionText(opens, lines, s, i + 1) ==
            SectionText(opens, lines, s, i) + (if Target(opens, lines, i) == Some(s) then lines[i] + "\n" else [])
  {
  }

  // ----- Key findings and recommendations -----

  const FindingTerms: seq<string> := ["interference", "capacity", "hardware", "calibration",
                                      "upgrade", "optimization", "critical", "severe", "warning"]
  const RecommendationTerms: seq<string> := ["recommend", "suggest", "should", "consider",
                                             "implement", "optimize", "adjust", "configure", "upgrade"]

  /** A '.'-separated piece yields an item when, stripped, it is longer than
      20 characters and holds one of the terms (case-insensitively). */
  function Candidate(piece: string, terms: seq<string>): Option<string> {
    var s := Text.Strip(piece);
    if Text.ContainsAny(Text.Lower(s), terms) && |s| > 20 then Some(s + ".") else None
  }

  /** One sentence of the reply: free of full stops, trimmed, holding a term. */
  predicate IsSentence(response: string, terms: seq<string>, p: string) {
    '.' !in p && Text.Strip(p) == p && Text.ContainsAny(Text.Lower(p), terms) && Text.Contains(response, p)
  }

  /** What an extracted item is: a sentence of the reply longer than 20
      characters, with a full stop put back. */
  predicate IsItem(response: string, terms: seq<string>, item: string) {
    |item| > 21 && item[|item| - 1] == '.' && IsSentence(response, terms, item[..|item| - 1])
  }

  /** A stripped piece of the reply is a full-stop-free substring of it. */
  lemma StrippedPiece(response: string, k: nat)
    requires k < |Text.Split(response, '.')|
    ensures '.' !in Text.Strip(Text.Split(response, '.')[k])
    ensures Text.Contains(response, Text.Strip(Text.Split(response, '.')[k]))
  {
    var piece := Text.Split(response, '.')[k];
    Text.SplitPieceOccurs(response, '.', k);
    Text.ContainsTrans(response, piece, Text.Strip(piece));
    Text.ContainsNoChar(piece, Text.Strip(piece), '.');
  }

  lemma CandidateIsItem(response: string, terms: seq<string>, k: nat)
    requires k < |Text.Split(response, '.')|
    requires Candidate(Text.Split(response, '.')[k], terms).Some?
    ensures IsItem(response, terms, Candidate(Text.Split(response, '.')[k], terms).value)
  {
    var piece := Text.Split(response, '.')[k];
    var p := Text.Strip(piece);
    StrippedPiece(response, k);
    Text.StripIdempotent(piece);
    SentenceIsItem(response, terms, p);
  }

  lemma SentenceIsItem(response: string, terms: seq<string>, p: string)
    requires |p| > 20 && IsSentence(response, terms, p)
    ensures IsItem(response, terms, p + ".")
  {
    var item := p + ".";
    DropLast(p, '.');
    assert item[..|item| - 1] == p;
    assert IsSentence(response, terms, item[..|item| - 1]);
  }

  lemma DropLast(p: string, c: char)
    ensures (p + [c])[..|p|] == p && (p + [c])[|p|] == c
  {
  }

  /** `[...][:5]` over the qualifying pieces, in reply order: item k is the
      candidate of the k-th qualifying piece, and there are five items or as
      many as qualifying pieces, whichever is fewer. */
  function Extract(response: string, terms: seq<string>): (r: seq<string>)
    ensures |r| <= 5
    ensures var pieces := Text.Split(response, '.');
      var qs := Seqs.Where(pieces, Qualifies(terms));
      |r| == (if |qs| < 5 then |qs| else 5) &&
      forall k :: 0 <= k < |r| ==> qs[k] < |pieces| && Candidate(pieces[qs[k]], terms) == Some(r[k])
  {
    var pieces := Text.Split(response, '.');
    FirstFiveCandidates(pieces, terms);
    Seqs.Take(Seqs.Choose(pieces, CandidateOf(terms)), 5)
  }

  /** The first five candidates are those of the first five qualifying pieces. */
  lemma FirstFiveCandidates(pieces: seq<string>, terms: seq<string>)
    ensures |Seqs.Take(Seqs.Choose(pieces, CandidateOf(terms)), 5)| ==
      if |Seqs.Where(pieces, Qualifies(terms))| < 5 then |Seqs.Where(pieces, Qualifies(terms))| else 5
    ensures forall k :: 0 <= k < |Seqs.Take(Seqs.Choose(pieces, CandidateOf(terms)), 5)| ==>
      Seqs.Where(pieces, Qualifies(terms))[k] < |pieces| &&
      Candidate(pieces[Seqs.Where(pieces, Qualifies(terms))[k]], terms) == Some(Seqs.Take(Seqs.Choose(pieces, CandidateOf(terms)), 5)[k])
  {
    Seqs.TakeChooseWhere(pieces, CandidateOf(terms), Qualifies(terms), 5);
  }

  /** Every extracted item is a sentence of the reply with its full stop. */
  lemma ExtractItems(response: string, terms: seq<string>)
    ensures forall k :: 0 <= k < |Extract(response, terms)| ==> IsItem(response, terms, Extract(response, terms)[k])
  {
    var pieces := Text.Split(response, '.');
    var r := Extract(response, terms);
    var qs := Seqs.Where(pieces, Qualifies(terms));
    forall k | 0 <= k < |r| ensures IsItem(response, terms, r[k]) {
      CandidateIsItem(response, terms, qs[k]);
    }
  }

  function CandidateOf(terms: seq<string>): string -> Option<string> {
    p => Candidate(p, terms)
  }

  function Qualifies(terms: seq<string>): string -> bool {
    p => Candidate(p, terms).Some?
  }

  /** When at most five pieces qualify, none is lost. */
  lemma ExtractKeepsAllFew(response: string, terms: seq<string>)
    requires Seqs.Count(Text.Split(response, '.'), Qualifies(terms)) <= 5
    ensures forall i :: 0 <= i < |Text.Split(response, '.')| && Candidate(Text.Split(response, '.')[i], terms).Some?
              ==> Candidate(Text.Split(response, '.')[i], terms).value in Extract(response, terms)
  {
    var pieces := Text.Split(response, '.');
    Seqs.ChooseCount(pieces, CandidateOf(terms), Qualifies(terms));
  }

  function KeyFindings(response: string): seq<string> {
    Extract(response, FindingTerms)
  }

  function RecommendationsOf(response: string): seq<string> {
    Extract(response, RecommendationTerms)
  }

  // ----- Risk level -----

  datatype Risk = RiskLow | RiskMedium | RiskHigh | RiskCritical

  function RiskRank(r: Risk): nat {
    match r
    case RiskLow => 1
    case RiskMedium => 2
    case RiskHigh => 3
    case RiskCritical => 4
  }

  const CriticalKeywords: seq<string> := ["critical", "severe", "urgent", "immediate", "failure"]
  const WarningKeywords: seq<string> := ["warning", "concern", "issue", "problem", "degradation"]

  /** A critical word in the reply decides, whatever the severity; then high
      severity or a warning word; then medium severity; otherwise low. */
  function RiskLevel(severity: string, response: string): (r: Risk)
    ensures r == RiskCritical <==> Text.ContainsAny(Text.Lower(response), CriticalKeywords)
    ensures r == RiskHigh <==>
              !Text.ContainsAny(Text.Lower(response), CriticalKeywords) &&
              (severity == "high" || Text.ContainsAny(Text.Lower(response), WarningKeywords))
    ensures r == RiskMedium <==>
              !Text.ContainsAny(Text.Lower(response), CriticalKeywords) &&
              !Text.ContainsAny(Text.Lower(response), WarningKeywords) &&
              severity == "medium"
    ensures r == RiskLow <==>
              !Text.ContainsAny(Text.Lower(response), CriticalKeywords) &&
              !Text.ContainsAny(Text.Lower(response), WarningKeywords) &&
              severity != "high" && severity != "medium"
  {
    var lower := Text.Lower(response);
    if Text.ContainsAny(lower, CriticalKeywords) then RiskCritical
    else if severity == "high" || Text.ContainsAny(lower, WarningKeywords) then RiskHigh
    else if severity == "medium" then RiskMedium
    else RiskLow
  }

  function RiskOfSeverity(s: Anomaly.Severity): Risk {
    match s
    case Low => RiskLow
    case Medium => RiskMedium
    case High => RiskHigh
  }

  /** The reply can only raise the risk above what the anomaly severity
      alone gives. */
  lemma RiskAtLeastSeverity(s: Anomaly.Severity, response: string)
    ensures RiskRank(RiskLevel(Anomaly.Label(s), response)) >= RiskRank(RiskOfSeverity(s))
    ensures RiskLevel(Anomaly.Label(s), response) == RiskOfSeverity(s) ||
            Text.ContainsAny(Text.Lower(response), CriticalKeywords) ||
            Text.ContainsAny(Text.Lower(response), WarningKeywords)
  {
  }

  // ----- Decimal rendering, for the fallback's messages -----

  function DigitChar(d: nat): (c: char)
    requires d < 10
    ensures '0' <= c <= '9' && (c as int) - ('0' as int) == d
  {
    (d + '0' as int) as char
  }

  /** Python's `str(n)` on a natural number. */
  function Digits(n: nat): (r: string)
    ensures r != []
    ensures forall k :: 0 <= k < |r| ==> '0' <= r[k] <= '9'
    ensures r[0] == '0' <==> n == 0
    decreases n
  {
    if n < 10 then [DigitChar(n)] else Digits(n / 10) + [DigitChar(n % 10)]
  }

  /** Reading a string of digits back as a number. */
  function ValueOf(s: string): nat
    requires forall k :: 0 <= k < |s| ==> '0' <= s[k] <= '9'
  {
    if s == [] then 0
    else ValueOf(s[..|s| - 1]) * 10 + ((s[|s| - 1] as int) - ('0' as int))
  }

  lemma {:induction false} DigitsRoundTrip(n: nat)
    ensures ValueOf(Digits(n)) == n
    decreases n
  {
    if n >= 10 {
      var r := Digits(n);
      assert r[..|r| - 1] == Digits(n / 10);
      DigitsRoundTrip(n / 10);
    }
  }

  predicate AllDigits(s: string) {
    forall k :: 0 <= k < |s| ==> '0' <= s[k] <= '9'
  }

  /** Python's `str(n)` on an integer: a minus sign for a negative number,
      then the magnitude's digits without leading zeros. */
  function Decimal(n: int): (r: string)
    ensures r != []
    ensures n < 0 <==> r[0] == '-'
    ensures n >= 0 ==> AllDigits(r) && ValueOf(r) == n && (r[0] == '0' <==> n == 0)
    ensures n < 0 ==> |r| >= 2 && AllDigits(r[1..]) && ValueOf(r[1..]) == -n && r[1] != '0'
  {
    if n < 0 then
      DigitsRoundTrip(-n);
      assert ("-" + Digits(-n))[1..] == Digits(-n);
      "-" + Digits(-n)
    else
      DigitsRoundTrip(n);
      Digits(n)
  }

  // ----- The analysis record -----

  datatype Analysis = Analysis(
    summary: string,
    confidence: real,
    sections: map<Section, string>,
    keyFindings: seq<string>,
    recommendations: seq<string>,
    risk: Risk)

  const FallbackRecommendations: seq<string> :=
    ["Review anomaly details for specific issues", "Consider manual analysis if anomalies persist"]

  const HighSummary := "High number of anomalies detected. Manual analysis recommended."
  const ModerateSummary := "Moderate anomalies detected. Network performance may be affected."
  const LowSummary := "Low anomaly count. Network appears to be operating normally."

  function FallbackSummary(total: int): string {
    if total > 50 then HighSummary else if total > 20 then ModerateSummary else LowSummary
  }

  /** The analysis given when no reply is available: the risk and the
      summary message follow the anomaly severity bands, the confidence is
      fixed at 0.5, and the two findings report the severity and the total. */
  function Fallback(total: int, severity: string): (r: Analysis)
    ensures r.risk == RiskOfSeverity(Anomaly.SeverityOf(total))
    ensures r.confidence == 0.5
    ensures total > 50 ==> r.summary == HighSummary
    ensures 20 < total <= 50 ==> r.summary == ModerateSummary
    ensures total <= 20 ==> r.summary == LowSummary
    ensures r.sections.Keys == {PerformanceAssessment} && r.sections[PerformanceAssessment] == r.summary
    ensures r.keyFindings == ["Anomaly severity: " + severity, "Total anomalies: " + Decimal(total)]
    ensures r.recommendations == FallbackRecommendations
  {
    FallbackRiskBands(total);
    var summary := FallbackSummary(total);
    Analysis(summary, 0.5, map[PerformanceAssessment := summary],
             FallbackFindings(total, severity), FallbackRecommendations, FallbackRisk(total))
  }

  function FallbackRisk(total: int): Risk {
    if total > 50 then RiskHigh else if total > 20 then RiskMedium else RiskLow
  }

  function FallbackFindings(total: int, severity: string): seq<string> {
    ["Anomaly severity: " + severity, "Total anomalies: " + Decimal(total)]
  }

  /** The fallback's own bands are those of the anomaly severity. */
  lemma FallbackRiskBands(total: int)
    ensures FallbackRisk(total) == RiskOfSeverity(Anomaly.SeverityOf(total))
  {}

  /** The client exists only for a non-empty key other than the template's
      placeholder. */
  predicate ClientConfigured(key: Option<string>) {
    key.Some? && key.value != [] && key.value != "your_openai_api_key_here"
  }

  /** The service entry point. `statsComplete` says whether the six KPI
      statistics the prompt formats with one decimal are present: a missing
      one is formatted from the text `N/A`, which raises. `reply` is the
      model's answer, `None` when the call failed. Every failure, and a
      missing client, ends in the fallback. */
  method GenerateSummary(key: Option<string>, statsComplete: bool, reply: Option<string>,
                         totalRecords: int, severity: Option<string>, totalAnomalies: Option<int>)
    returns (r: Analysis)
    ensures 0.0 <= r.confidence <= 1.0
    ensures !(ClientConfigured(key) && statsComplete && reply.Some?) <==> r == Fallback(totalAnomalies.GetOr(0), SeverityField(severity))
    ensures ClientConfigured(key) && statsComplete && reply.Some? ==>
              r.summary == reply.value &&
              r.confidence == Confidence(totalRecords, SeverityField(severity)) &&
              r.risk == RiskLevel(SeverityField(severity), reply.value) &&
              r.keyFindings == KeyFindings(reply.value) &&
              r.recommendations == RecommendationsOf(reply.value) &&
              forall s: Section :: s in r.sections &&
                r.sections[s] == SectionText(Opens, Text.Split(reply.value, '\n'), s, |Text.Split(reply.value, '\n')|)
  {
    var sev := SeverityField(severity);
    if !ClientConfigured(key) || !statsComplete || reply.None? {
      return Fallback(totalAnomalies.GetOr(0), sev);
    }
    var response := reply.value;
    var sections := ExtractSections(response);
    r := Analysis(response, Confidence(totalRecords, sev), sections,
                  KeyFindings(response), RecommendationsOf(response), RiskLevel(sev, response));
    NotFallback(r, totalAnomalies.GetOr(0), sev);
  }

  /** An analysis holding the anomaly section is not the fallback, whose one section is the assessment. */
  lemma NotFallback(r: Analysis, total: int, severity: string)
    requires AnomalyAnalysis in r.sections
    ensures r != Fallback(total, severity)
  {
    assert AnomalyAnalysis !in Fallback(total, severity).sections;
  }
}
