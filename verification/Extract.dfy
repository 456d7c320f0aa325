/** Reading a measurement out of a response (lib/psi/extract.ts, lib/psi/buckets.ts). */
module Extract {
  import opened Sequences
  import opened StableSort
  import opened Psi

  datatype Bucket = Good | NeedsImprovement | Poor

  datatype FieldSource = PageData | OriginFallback | NoData

  datatype MetricId = Lcp | Inp | Cls | Fcp | Ttfb

  datatype Scores = Scores(
    performance: Option<int>, accessibility: Option<int>, bestPractices: Option<int>, seo: Option<int>)

  datatype Lab = Lab(
    lcp: Option<real>, cls: Option<real>, fcp: Option<real>, ttfb: Option<real>, inp: Option<real>,
    tbt: Option<real>, speedIndex: Option<real>)

  datatype FieldMetric = FieldMetric(value: real, bucket: Bucket, distribution: Option<(real, real, real)>)

  datatype Field = Field(source: FieldSource, overall: Option<Bucket>, metrics: map<MetricId, FieldMetric>)

  datatype IssueKind = Opportunity | Diagnostic | Other

  datatype CategoryId = Performance | Accessibility | BestPractices | Seo

  datatype Issue = Issue(
    auditId: string, title: string, description: string, category: CategoryId, kind: IssueKind, score: real,
    scoreDisplayMode: string, displayValue: Option<string>, savingsMs: Option<real>, savingsBytes: Option<real>,
    weight: real)

  datatype Extracted = Extracted(
    failed: bool, runtimeError: Option<string>, finalUrl: Option<string>, lighthouseVersion: Option<string>,
    fetchTime: Option<string>, scores: Scores, lab: Lab, field: Field, audits: seq<Issue>)

  // -------------------------------------------------------------------------------------------
  // Scores and lab metrics
  // -------------------------------------------------------------------------------------------

  /** Math.round(score * 100). */
  function Pct(score: Option<real>): Option<int> {
    if score.None? then None else Some((score.value * 100.0 + 0.5).Floor)
  }

  /** The nearest whole percentage, halves up; a score in range stays in range, and the order of scores is kept. */
  lemma PctIsNearest(score: real, other: real)
    ensures var p := Pct(Some(score)).value;
      && score * 100.0 - 0.5 < p as real <= score * 100.0 + 0.5
      && (0.0 <= score <= 1.0 ==> 0 <= p <= 100)
      && (score <= other ==> p <= Pct(Some(other)).value)
  {
  }

  function KeyOf(c: CategoryId): string {
    match c
    case Performance => "performance"
    case Accessibility => "accessibility"
    case BestPractices => "best-practices"
    case Seo => "seo"
  }

  function ScoreOf(categories: map<string, Category>, c: CategoryId): Option<int> {
    if KeyOf(c) in categories then Pct(categories[KeyOf(c)].score) else None
  }

  function ScoresOf(categories: map<string, Category>): Scores {
    Scores(ScoreOf(categories, Performance), ScoreOf(categories, Accessibility),
           ScoreOf(categories, BestPractices), ScoreOf(categories, Seo))
  }

  function Numeric(audits: map<string, Audit>, id: string): Option<real> {
    if id in audits then audits[id].numericValue else None
  }

  datatype LabIds = LabIds(
    lcp: string, cls: string, fcp: string, ttfb: string, inp: string, tbt: string, speedIndex: string)

  const LAB_AUDITS := LabIds(
    "largest-contentful-paint", "cumulative-layout-shift", "first-contentful-paint", "server-response-time",
    "interaction-to-next-paint", "total-blocking-time", "speed-index")

  function LabOf(audits: map<string, Audit>, ids: LabIds): Lab {
    Lab(Numeric(audits, ids.lcp), Numeric(audits, ids.cls), Numeric(audits, ids.fcp), Numeric(audits, ids.ttfb),
        Numeric(audits, ids.inp), Numeric(audits, ids.tbt), Numeric(audits, ids.speedIndex))
  }

  // -------------------------------------------------------------------------------------------
  // Field data
  // -------------------------------------------------------------------------------------------

  function UpperAll(s: string): string {
    seq(|s|, i requires 0 <= i < |s| => if 'a' <= s[i] <= 'z' then s[i] - 'a' + 'A' else s[i])
  }

  function BucketFromCruxCategory(category: Option<string>): Option<Bucket> {
    var c := UpperAll(category.GetOr(""));
    if c == "FAST" || c == "GOOD" then Some(Good)
    else if c == "AVERAGE" || c == "NEEDS_IMPROVEMENT" then Some(NeedsImprovement)
    else if c == "SLOW" || c == "POOR" then Some(Poor)
    else None
  }

  function CruxKey(id: MetricId): string {
    match id
    case Lcp => "LARGEST_CONTENTFUL_PAINT_MS"
    case Inp => "INTERACTION_TO_NEXT_PAINT"
    case Cls => "CUMULATIVE_LAYOUT_SHIFT_SCORE"
    case Fcp => "FIRST_CONTENTFUL_PAINT_MS"
    case Ttfb => "EXPERIMENTAL_TIME_TO_FIRST_BYTE"
  }

  function FieldSourceOf(le: Option<LoadingExperience>): FieldSource {
    if le.None? || le.value.metrics.None? || le.value.metrics.value == map[] then NoData
    else if le.value.originFallback == Some(true) then OriginFallback
    else PageData
  }

  function DistributionOf(m: CruxMetric): Option<(real, real, real)> {
    if m.distributions.None? || |m.distributions.value| < 3 then None
    else
      var d := m.distributions.value;
      Some((d[0].GetOr(0.0), d[1].GetOr(0.0), d[2].GetOr(0.0)))
  }

  /** CLS comes as an integer, a hundred times the real value. */
  function FieldMetricOf(id: MetricId, m: CruxMetric): Option<FieldMetric> {
    var bucket := BucketFromCruxCategory(m.category);
    if m.percentile.None? || bucket.None? then None
    else
      var value := if id.Cls? then m.percentile.value / 100.0 else m.percentile.value;
      Some(FieldMetric(value, bucket.value, DistributionOf(m)))
  }

  predicate Usable(metrics: map<string, CruxMetric>, id: MetricId) {
    CruxKey(id) in metrics && FieldMetricOf(id, metrics[CruxKey(id)]).Some?
  }

  function FieldMetrics(metrics: map<string, CruxMetric>): map<MetricId, FieldMetric> {
    map id: MetricId | Usable(metrics, id) :: FieldMetricOf(id, metrics[CruxKey(id)]).value
  }

  /** CRUX_KEYS[key]. */
  function MetricOf(key: string): (r: Option<MetricId>)
    ensures forall id :: r == Some(id) ==> CruxKey(id) == key
  {
    if key == CruxKey(Lcp) then Some(Lcp)
    else if key == CruxKey(Inp) then Some(Inp)
    else if key == CruxKey(Cls) then Some(Cls)
    else if key == CruxKey(Fcp) then Some(Fcp)
    else if key == CruxKey(Ttfb) then Some(Ttfb)
    else None
  }

  lemma MetricOfCruxKey(id: MetricId)
    ensures MetricOf(CruxKey(id)) == Some(id)
  {
  }

  method CollectMetrics(metrics: map<string, CruxMetric>) returns (out: map<MetricId, FieldMetric>)
    ensures out == FieldMetrics(metrics)
  {
    out := map[];
    var todo := metrics.Keys;
    while todo != {}
      invariant todo <= metrics.Keys
      invariant forall id :: id in out <==> Usable(metrics, id) && CruxKey(id) !in todo
      invariant forall id :: id in out ==> out[id] == FieldMetricOf(id, metrics[CruxKey(id)]).value
      decreases todo
    {
      var key :| key in todo;
      var id := MetricOf(key);
      forall other ensures CruxKey(other) == key <==> id == Some(other) {
        MetricOfCruxKey(other);
      }
      if id.Some? {
        var m := FieldMetricOf(id.value, metrics[key]);
        if m.Some? {
          out := out[id.value := m.value];
        }
      }
      todo := todo - {key};
    }
  }

  method ExtractField(page: Option<LoadingExperience>, origin: Option<LoadingExperience>) returns (field: Field)
    ensures field == FieldOf(page, origin)
  {
    var pageSource := FieldSourceOf(page);
    var le := if pageSource.NoData? then origin else page;
    var source := pageSource;
    if pageSource.NoData? && !FieldSourceOf(origin).NoData? {
      source := OriginFallback;
    }
    if source.NoData? {
      return Field(NoData, None, map[]);
    }
    var metrics := CollectMetrics(le.value.metrics.value);
    field := Field(source, BucketFromCruxCategory(le.value.overallCategory), metrics);
  }

  function FieldOf(page: Option<LoadingExperience>, origin: Option<LoadingExperience>): Field {
    var le := if FieldSourceOf(page).NoData? then origin else page;
    if FieldSourceOf(le).NoData? then Field(NoData, None, map[])
    else
      Field(if FieldSourceOf(page).NoData? then OriginFallback else FieldSourceOf(page),
            BucketFromCruxCategory(le.value.overallCategory), FieldMetrics(le.value.metrics.value))
  }

  /** Numbers borrowed from the origin are never presented as the page's own. */
  lemma PageDataIsThePages(page: Option<LoadingExperience>, origin: Option<LoadingExperience>)
    ensures FieldOf(page, origin).source.PageData? <==>
      page.Some? && page.value.metrics.GetOr(map[]) != map[] && page.value.originFallback != Some(true)
    ensures FieldOf(page, origin).source.PageData? ==>
      FieldOf(page, origin) == FieldOf(page, None)
  {
  }

  // -------------------------------------------------------------------------------------------
  // Audits
  // -------------------------------------------------------------------------------------------

  predicate IsScoredMode(mode: string) {
    mode == "binary" || mode == "numeric" || mode == "metricSavings"
  }

  const PASS_THRESHOLD: real := 0.9

  function PerfKind(group: Option<string>, details: Option<Details>): Option<IssueKind> {
    var g := group.GetOr("");
    if g == "insights" then Some(Opportunity)
    else if g == "diagnostics" then Some(Diagnostic)
    else if g == "hidden" && details.Some?
            && (details.value.kind == Some("table") || details.value.kind == Some("opportunity"))
    then Some(Diagnostic)
    else None
  }

  /** The greatest of the positive numbers in a list. */
  function MaxPositive(candidates: seq<Option<real>>): (r: Option<real>)
    ensures r.Some? ==> r.value > 0.0 && r in candidates
    ensures forall c :: c in candidates && c.Some? && c.value > 0.0 ==> r.Some? && c.value <= r.value
  {
    if |candidates| == 0 then None
    else
      var rest := MaxPositive(candidates[1..]);
      var c := candidates[0];
      assert candidates == [c] + candidates[1..];
      if c.Some? && c.value > 0.0 && (rest.None? || c.value > rest.value) then c else rest
  }

  function SavingsMsOf(a: Audit): Option<real> {
    var ms := a.metricSavings.GetOr(Savings(None, None, None));
    MaxPositive([ms.lcp, ms.fcp, ms.tbt, if a.details.Some? then a.details.value.overallSavingsMs else None])
  }

  function KindOf(c: CategoryId, ref: AuditRef, a: Audit): Option<IssueKind> {
    if c.Performance? then PerfKind(ref.group, a.details) else Some(Other)
  }

  /** What a category's reference to an audit comes to, if the audit failed a real judgement. */
  function IssueOf(audits: map<string, Audit>, c: CategoryId, ref: AuditRef): Option<Issue> {
    if ref.id !in audits then None
    else
      var a := audits[ref.id];
      var mode := a.scoreDisplayMode.GetOr("");
      var kind := KindOf(c, ref, a);
      if !IsScoredMode(mode) || a.score.None? || a.score.value >= PASS_THRESHOLD || kind.None? then None
      else
        Some(Issue(
          ref.id, a.title.GetOr(ref.id), a.description.GetOr(""), c, kind.value, a.score.value, mode, a.displayValue,
          SavingsMsOf(a), if a.details.Some? then a.details.value.overallSavingsBytes else None, ref.weight.GetOr(0.0)))
  }

  function HasId(id: string): Issue -> bool {
    (i: Issue) => i.auditId == id
  }

  /** Appends an issue unless its audit is listed already. */
  function AddIssue(before: seq<Issue>, issue: Option<Issue>): seq<Issue> {
    if issue.None? || Filter(before, HasId(issue.value.auditId)) != [] then before else before + [issue.value]
  }

  /** One category's issues in the order of its references, the first for each audit. */
  function IssuesOf(audits: map<string, Audit>, c: CategoryId, refs: seq<AuditRef>): seq<Issue> {
    if |refs| == 0 then []
    else
      var n := |refs| - 1;
      AddIssue(IssuesOf(audits, c, refs[..n]), IssueOf(audits, c, refs[n]))
  }

  function RefsOf(categories: map<string, Category>, c: CategoryId): seq<AuditRef> {
    if KeyOf(c) in categories then categories[KeyOf(c)].auditRefs.GetOr([]) else []
  }

  const CATEGORIES: seq<CategoryId> := [Performance, Accessibility, BestPractices, Seo]

  function Listed(audits: map<string, Audit>, categories: map<string, Category>, cs: seq<CategoryId>): seq<Issue> {
    if |cs| == 0 then []
    else
      var n := |cs| - 1;
      Listed(audits, categories, cs[..n]) + IssuesOf(audits, cs[n], RefsOf(categories, cs[n]))
  }

  /** Greatest saving first, then lowest score. */
  predicate WorstFirst(x: Issue, y: Issue) {
    var xs, ys := x.savingsMs.GetOr(0.0), y.savingsMs.GetOr(0.0);
    ys < xs || (ys == xs && x.score <= y.score)
  }

  function AuditsOf(lr: LighthouseResult): seq<Issue> {
    if lr.audits.None? || lr.categories.None? then []
    else Sort(Listed(lr.audits.value, lr.categories.value, CATEGORIES), WorstFirst)
  }

  lemma WorstFirstIsTotal()
    ensures TotalPreorder(WorstFirst)
  {
  }

  /** The two loops and the in-place sort of extractAudits. */
  method ExtractAudits(lr: LighthouseResult) returns (out: seq<Issue>)
    ensures out == AuditsOf(lr)
  {
    if lr.audits.None? || lr.categories.None? {
      return [];
    }
    out := ListIssues(lr.audits.value, lr.categories.value, CATEGORIES);
    out := Sort(out, WorstFirst);
  }

  method ListIssues(audits: map<string, Audit>, categories: map<string, Category>, cs: seq<CategoryId>)
    returns (out: seq<Issue>)
    ensures out == Listed(audits, categories, cs)
  {
    out := [];
    for i := 0 to |cs|
      invariant out == Listed(audits, categories, cs[..i])
    {
      var issues := IssuesInCategory(audits, cs[i], RefsOf(categories, cs[i]));
      assert cs[..i + 1][..i] == cs[..i];
      out := out + issues;
    }
    assert cs[..|cs|] == cs;
  }

  lemma SeenNext(out: seq<Issue>, issue: Issue)
    ensures forall id :: Filter(out + [issue], HasId(id)) != [] <==> Filter(out, HasId(id)) != [] || id == issue.auditId
  {
    forall id ensures Filter(out + [issue], HasId(id)) != [] <==> Filter(out, HasId(id)) != [] || id == issue.auditId {
      FilterAppend(out, [issue], HasId(id));
      FilterOne(issue, HasId(id));
    }
  }

  /** `seen` is the part of the source's set with this category's keys. */
  method IssuesInCategory(audits: map<string, Audit>, c: CategoryId, refs: seq<AuditRef>) returns (out: seq<Issue>)
    ensures out == IssuesOf(audits, c, refs)
  {
    out := [];
    var seen: set<string> := {};
    for i := 0 to |refs|
      invariant out == IssuesOf(audits, c, refs[..i])
      invariant forall id :: id in seen <==> Filter(out, HasId(id)) != []
    {
      assert refs[..i + 1][..i] == refs[..i];
      var issue := IssueOf(audits, c, refs[i]);
      if issue.Some? && refs[i].id !in seen {
        SeenNext(out, issue.value);
        seen := seen + {refs[i].id};
        out := out + [issue.value];
      }
    }
    assert refs[..|refs|] == refs;
  }

  // -------------------------------------------------------------------------------------------
  // The whole
  // -------------------------------------------------------------------------------------------

  const NO_SCORES := Scores(None, None, None, None)

  const NO_LAB := Lab(None, None, None, None, None, None, None)

  function FirstOf(a: Option<string>, b: Option<string>, c: Option<string>): Option<string> {
    if a.Some? then a else if b.Some? then b else c
  }

  const ABSENT := LighthouseResult(None, None, None, None, None, None, None, None, map[])

  function ExtractedFrom(res: Response): Extracted {
    var lr := res.lighthouseResult.GetOr(ABSENT);
    var finalUrl := FirstOf(lr.finalDisplayedUrl, lr.finalUrl, lr.requestedUrl);
    if lr.runtimeError.GetOr("") != "" then
      Extracted(true, lr.runtimeError, finalUrl, lr.lighthouseVersion, lr.fetchTime, NO_SCORES, NO_LAB,
                Field(NoData, None, map[]), [])
    else
      Extracted(false, None, finalUrl, lr.lighthouseVersion, lr.fetchTime,
                ScoresOf(lr.categories.GetOr(map[])), LabOf(lr.audits.GetOr(map[]), LAB_AUDITS),
                FieldOf(res.loadingExperience, res.originLoadingExperience), AuditsOf(lr))
  }
}
