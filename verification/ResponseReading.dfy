/**
 * What a measurement says of the response it was read from, field by field (lib/psi/extract.ts,
 * lib/psi/buckets.ts).
 */
module ResponseReading {
  import opened Sequences
  import opened StableSort
  import opened Psi
  import opened Extract
  import Measurement

  /** The score times a hundred, rounded to the nearest whole number, halves up. */
  ghost predicate IsPercentage(score: Option<real>, p: Option<int>) {
    && (score.None? <==> p.None?)
    && (score.Some? && p.Some? ==> score.value * 100.0 - 0.5 < p.value as real <= score.value * 100.0 + 0.5)
  }

  ghost function ScoreIn(categories: map<string, Category>, key: string): Option<real> {
    if key in categories then categories[key].score else None
  }

  ghost function ValueIn(audits: map<string, Audit>, id: string): Option<real> {
    if id in audits then audits[id].numericValue else None
  }

  // -------------------------------------------------------------------------------------------
  // Scores, lab metrics, and what an error leaves
  // -------------------------------------------------------------------------------------------

  /** Each score is the percentage of the category of its name. */
  lemma ScoresAre(res: Response, lr: LighthouseResult)
    requires res.lighthouseResult == Some(lr) && lr.runtimeError.GetOr("") == ""
    ensures var s, categories := ExtractedFrom(res).scores, lr.categories.GetOr(map[]);
      && IsPercentage(ScoreIn(categories, "performance"), s.performance)
      && IsPercentage(ScoreIn(categories, "accessibility"), s.accessibility)
      && IsPercentage(ScoreIn(categories, "best-practices"), s.bestPractices)
      && IsPercentage(ScoreIn(categories, "seo"), s.seo)
  {
  }

  /** Each lab metric is the numeric value of the audit of its name; blocking time never stands in for INP. */
  lemma LabIs(res: Response, lr: LighthouseResult)
    requires res.lighthouseResult == Some(lr) && lr.runtimeError.GetOr("") == ""
    ensures var lab, audits := ExtractedFrom(res).lab, lr.audits.GetOr(map[]);
      && lab.lcp == ValueIn(audits, "largest-contentful-paint")
      && lab.cls == ValueIn(audits, "cumulative-layout-shift")
      && lab.fcp == ValueIn(audits, "first-contentful-paint")
      && lab.ttfb == ValueIn(audits, "server-response-time")
      && lab.inp == ValueIn(audits, "interaction-to-next-paint")
      && lab.tbt == ValueIn(audits, "total-blocking-time")
      && lab.speedIndex == ValueIn(audits, "speed-index")
  {
  }

  /** With a runtime error nothing is measured: no score, no metric, no field data, no audit. */
  lemma RuntimeErrorLeavesNothing(res: Response)
    ensures var e := ExtractedFrom(res);
      var error := if res.lighthouseResult.Some? then res.lighthouseResult.value.runtimeError.GetOr("") else "";
      && (e.failed <==> error != "") && e.runtimeError == (if error != "" then Some(error) else None)
      && (error != "" ==>
            && e.scores == Scores(None, None, None, None)
            && e.lab == Lab(None, None, None, None, None, None, None)
            && e.field == Field(NoData, None, map[]) && e.audits == [])
  {
  }

  /** Error or not, the final URL is the first that is given of displayed, final and requested. */
  lemma HeaderIs(res: Response, lr: LighthouseResult)
    requires res.lighthouseResult == Some(lr)
    ensures var e := ExtractedFrom(res);
      && e.lighthouseVersion == lr.lighthouseVersion && e.fetchTime == lr.fetchTime
      && (lr.finalDisplayedUrl.Some? ==> e.finalUrl == lr.finalDisplayedUrl)
      && (lr.finalDisplayedUrl.None? && lr.finalUrl.Some? ==> e.finalUrl == lr.finalUrl)
      && (lr.finalDisplayedUrl.None? && lr.finalUrl.None? ==> e.finalUrl == lr.requestedUrl)
  {
  }

  /** A response without a result is no error, and measures nothing but the field data. */
  lemma NoResultMeasuresNothing(res: Response)
    requires res.lighthouseResult == None
    ensures ExtractedFrom(res) == Extracted(
      false, None, None, None, None, Scores(None, None, None, None), Lab(None, None, None, None, None, None, None),
      FieldOf(res.loadingExperience, res.originLoadingExperience), [])
  {
  }

  // -------------------------------------------------------------------------------------------
  // Field data
  // -------------------------------------------------------------------------------------------

  /** Both vocabularies are read, in any case; no other word is. */
  lemma BucketsAre(word: string)
    ensures BucketFromCruxCategory(None) == None
    ensures var upper := UpperAll(word); var bucket := BucketFromCruxCategory(Some(word));
      && (bucket == Some(Good) <==> upper == "FAST" || upper == "GOOD")
      && (bucket == Some(NeedsImprovement) <==> upper == "AVERAGE" || upper == "NEEDS_IMPROVEMENT")
      && (bucket == Some(Poor) <==> upper == "SLOW" || upper == "POOR")
    ensures |UpperAll(word)| == |word|
    ensures forall i :: 0 <= i < |word| ==>
      UpperAll(word)[i] == if 'a' <= word[i] <= 'z' then ((word[i] as int) - 32) as char else word[i]
  {
  }

  /** One metric of the field data: there if its percentile is, under that key, with a bucket; `scale` divides it. */
  ghost predicate MetricReads(
    metrics: map<MetricId, FieldMetric>, id: MetricId, raw: map<string, CruxMetric>, key: string, scale: real)
    requires scale > 0.0
  {
    && (id in metrics <==>
          key in raw && raw[key].percentile.Some? && BucketFromCruxCategory(raw[key].category).Some?)
    && (id in metrics && key in raw ==>
          var m, r := metrics[id], raw[key];
          && (r.percentile.Some? ==> m.value == r.percentile.value / scale)
          && Some(m.bucket) == BucketFromCruxCategory(r.category)
          && (m.distribution.Some? <==> r.distributions.Some? && |r.distributions.value| >= 3)
          && (m.distribution.Some? && r.distributions.Some? && |r.distributions.value| >= 3 ==>
                m.distribution.value.0 == r.distributions.value[0].GetOr(0.0)
                && m.distribution.value.1 == r.distributions.value[1].GetOr(0.0)
                && m.distribution.value.2 == r.distributions.value[2].GetOr(0.0)))
  }

  lemma MetricIs(raw: map<string, CruxMetric>, id: MetricId, key: string, scale: real)
    requires key == CruxKey(id) && scale == if id.Cls? then 100.0 else 1.0
    ensures MetricReads(FieldMetrics(raw), id, raw, key, scale)
  {
  }

  /** Which key feeds which metric; layout shift comes a hundred times too large. */
  lemma MetricsAre(raw: map<string, CruxMetric>)
    ensures MetricReads(FieldMetrics(raw), Lcp, raw, "LARGEST_CONTENTFUL_PAINT_MS", 1.0)
    ensures MetricReads(FieldMetrics(raw), Inp, raw, "INTERACTION_TO_NEXT_PAINT", 1.0)
    ensures MetricReads(FieldMetrics(raw), Cls, raw, "CUMULATIVE_LAYOUT_SHIFT_SCORE", 100.0)
    ensures MetricReads(FieldMetrics(raw), Fcp, raw, "FIRST_CONTENTFUL_PAINT_MS", 1.0)
    ensures MetricReads(FieldMetrics(raw), Ttfb, raw, "EXPERIMENTAL_TIME_TO_FIRST_BYTE", 1.0)
  {
    MetricIs(raw, Lcp, "LARGEST_CONTENTFUL_PAINT_MS", 1.0);
    MetricIs(raw, Inp, "INTERACTION_TO_NEXT_PAINT", 1.0);
    MetricIs(raw, Cls, "CUMULATIVE_LAYOUT_SHIFT_SCORE", 100.0);
    MetricIs(raw, Fcp, "FIRST_CONTENTFUL_PAINT_MS", 1.0);
    MetricIs(raw, Ttfb, "EXPERIMENTAL_TIME_TO_FIRST_BYTE", 1.0);
  }

  /** The metrics of a block, if it has any. */
  ghost function MetricsIn(le: Option<LoadingExperience>): map<string, CruxMetric> {
    if le.Some? then le.value.metrics.GetOr(map[]) else map[]
  }

  /**
   * The page's own block is read if it has metrics, else the origin's if that has; and it is labelled as the
   * page's only if it is, and does not say that it was borrowed.
   */
  lemma FieldIs(page: Option<LoadingExperience>, origin: Option<LoadingExperience>)
    ensures var f := FieldOf(page, origin);
      && (MetricsIn(page) != map[] ==>
            && f.source == (if page.value.originFallback == Some(true) then OriginFallback else PageData)
            && f.metrics == FieldMetrics(MetricsIn(page))
            && f.overall == BucketFromCruxCategory(page.value.overallCategory))
      && (MetricsIn(page) == map[] && MetricsIn(origin) != map[] ==>
            && f.source == OriginFallback && f.metrics == FieldMetrics(MetricsIn(origin))
            && f.overall == BucketFromCruxCategory(origin.value.overallCategory))
      && (MetricsIn(page) == map[] && MetricsIn(origin) == map[] ==> f == Field(NoData, None, map[]))
  {
  }

  /** Without a runtime error the field data are those of the response's two blocks. */
  lemma ExtractedFieldIs(res: Response)
    requires !ExtractedFrom(res).failed
    ensures ExtractedFrom(res).field == FieldOf(res.loadingExperience, res.originLoadingExperience)
  {
  }

  // -------------------------------------------------------------------------------------------
  // Audits
  // -------------------------------------------------------------------------------------------

  /** A performance reference counts by its group, and a hidden one only if its details are a table of some kind. */
  ghost predicate CountsAsPerformance(ref: AuditRef, a: Audit) {
    ref.group == Some("insights") || ref.group == Some("diagnostics")
    || (ref.group == Some("hidden") && a.details.Some? && a.details.value.kind.Some?
        && a.details.value.kind.value in {"table", "opportunity"})
  }

  /** A reference is an issue exactly if its audit was scored, scored below 0.9, and counts in that category. */
  lemma IssueIff(audits: map<string, Audit>, c: CategoryId, ref: AuditRef)
    ensures IssueOf(audits, c, ref).Some? <==>
      && ref.id in audits
      && var a := audits[ref.id];
         && a.scoreDisplayMode.Some? && a.scoreDisplayMode.value in {"binary", "numeric", "metricSavings"}
         && a.score.Some? && a.score.value < 0.9
         && (c == Performance ==> CountsAsPerformance(ref, a))
  {
  }

  /** The greatest of the positive savings on LCP, FCP and TBT and of the audit's own; layout shift has no part. */
  ghost predicate IsSaving(a: Audit, ms: Option<real>) {
    var savings := a.metricSavings.GetOr(Savings(None, None, None));
    var own := if a.details.Some? then a.details.value.overallSavingsMs else None;
    && (ms.Some? ==> ms.value > 0.0 && (ms == savings.lcp || ms == savings.fcp || ms == savings.tbt || ms == own))
    && (savings.lcp.Some? && savings.lcp.value > 0.0 ==> ms.Some? && savings.lcp.value <= ms.value)
    && (savings.fcp.Some? && savings.fcp.value > 0.0 ==> ms.Some? && savings.fcp.value <= ms.value)
    && (savings.tbt.Some? && savings.tbt.value > 0.0 ==> ms.Some? && savings.tbt.value <= ms.value)
    && (own.Some? && own.value > 0.0 ==> ms.Some? && own.value <= ms.value)
  }

  lemma SavingIs(a: Audit)
    ensures IsSaving(a, SavingsMsOf(a))
  {
    var ms := a.metricSavings.GetOr(Savings(None, None, None));
    var own := if a.details.Some? then a.details.value.overallSavingsMs else None;
    var candidates := [ms.lcp, ms.fcp, ms.tbt, own];
    assert ms.lcp in candidates && ms.fcp in candidates && ms.tbt in candidates && own in candidates;
  }

  /** An issue's fields are those of its audit and its reference. */
  lemma IssueIs(audits: map<string, Audit>, c: CategoryId, ref: AuditRef)
    requires IssueOf(audits, c, ref).Some? && ref.id in audits
    ensures var i, a := IssueOf(audits, c, ref).value, audits[ref.id];
      && i.auditId == ref.id && i.category == c && Some(i.score) == a.score
      && i.title == (if a.title.Some? then a.title.value else ref.id)
      && i.description == (if a.description.Some? then a.description.value else "")
      && Some(i.scoreDisplayMode) == a.scoreDisplayMode && i.displayValue == a.displayValue
      && i.kind == (if c != Performance then Other
                    else if ref.group == Some("insights") then Opportunity else Diagnostic)
      && IsSaving(a, i.savingsMs)
      && i.savingsBytes == (if a.details.Some? then a.details.value.overallSavingsBytes else None)
      && i.weight == (if ref.weight.Some? then ref.weight.value else 0.0)
  {
    SavingIs(audits[ref.id]);
  }

  /** The references of a category are those under its key. */
  lemma RefsAre(categories: map<string, Category>, c: CategoryId, ref: AuditRef)
    ensures var key := match c
                       case Performance => "performance"
                       case Accessibility => "accessibility"
                       case BestPractices => "best-practices"
                       case Seo => "seo";
      && (key !in categories ==> RefsOf(categories, c) == [])
      && (key in categories ==> RefsOf(categories, c) == categories[key].auditRefs.GetOr([]))
  {
  }

  lemma {:induction false} IssuesCome(audits: map<string, Audit>, c: CategoryId, refs: seq<AuditRef>, i: Issue)
    requires i in IssuesOf(audits, c, refs)
    ensures exists ref :: ref in refs && IssueOf(audits, c, ref) == Some(i)
  {
    var n := |refs| - 1;
    assert refs == refs[..n] + [refs[n]];
    if i in IssuesOf(audits, c, refs[..n]) {
      IssuesCome(audits, c, refs[..n], i);
    } else {
      assert IssueOf(audits, c, refs[n]) == Some(i);
    }
  }

  lemma {:induction false} ListedCome(
    audits: map<string, Audit>, categories: map<string, Category>, cs: seq<CategoryId>, i: Issue)
    requires i in Listed(audits, categories, cs)
    ensures i.category in cs
    ensures exists ref :: ref in RefsOf(categories, i.category) && IssueOf(audits, i.category, ref) == Some(i)
  {
    var n := |cs| - 1;
    assert cs == cs[..n] + [cs[n]];
    if i in Listed(audits, categories, cs[..n]) {
      ListedCome(audits, categories, cs[..n], i);
    } else {
      IssuesCome(audits, cs[n], RefsOf(categories, cs[n]), i);
    }
  }

  /** Every listed issue comes from a reference in the category it names; the list is sorted, worst first. */
  lemma AuditsCome(lr: LighthouseResult, i: Issue)
    requires lr.audits.Some? && lr.categories.Some? && i in AuditsOf(lr)
    ensures exists ref ::
      ref in RefsOf(lr.categories.value, i.category) && IssueOf(lr.audits.value, i.category, ref) == Some(i)
  {
    SameMembers(Listed(lr.audits.value, lr.categories.value, CATEGORIES), WorstFirst);
    ListedCome(lr.audits.value, lr.categories.value, CATEGORIES, i);
  }

  /** Greater savings come first, none counting as zero, and of equal ones lower scores. */
  lemma WorstComesFirst(lr: LighthouseResult, i: nat, j: nat)
    requires i < j < |AuditsOf(lr)|
    ensures var x, y := AuditsOf(lr)[i], AuditsOf(lr)[j];
      var xs := if x.savingsMs.Some? then x.savingsMs.value else 0.0;
      var ys := if y.savingsMs.Some? then y.savingsMs.value else 0.0;
      xs >= ys && (xs == ys ==> x.score <= y.score)
  {
    WorstFirstIsTotal();
    SortSorted(Listed(lr.audits.value, lr.categories.value, CATEGORIES), WorstFirst);
  }

  /** Of several references to a failing audit in a category the first that fails is the one listed. */
  lemma {:induction false} FirstReferenceIsListed(
    audits: map<string, Audit>, c: CategoryId, refs: seq<AuditRef>, k: nat)
    requires k < |refs| && IssueOf(audits, c, refs[k]).Some?
    requires forall j :: 0 <= j < k && refs[j].id == refs[k].id ==> IssueOf(audits, c, refs[j]).None?
    ensures Filter(IssuesOf(audits, c, refs), HasId(refs[k].id)) == [IssueOf(audits, c, refs[k]).value]
  {
    var n := |refs| - 1;
    Measurement.AddOne(IssuesOf(audits, c, refs[..n]), IssueOf(audits, c, refs[n]), refs[k].id);
    if k < n {
      FirstReferenceIsListed(audits, c, refs[..n], k);
    } else {
      Measurement.IssueIsOf(audits, c, refs[k]);
      NoneListed(audits, c, refs[..n], refs[k].id);
    }
  }

  lemma {:induction false} NoneListed(audits: map<string, Audit>, c: CategoryId, refs: seq<AuditRef>, id: string)
    requires forall j :: 0 <= j < |refs| && refs[j].id == id ==> IssueOf(audits, c, refs[j]).None?
    ensures Filter(IssuesOf(audits, c, refs), HasId(id)) == []
  {
    if |refs| > 0 {
      var n := |refs| - 1;
      NoneListed(audits, c, refs[..n], id);
      Measurement.AddOne(IssuesOf(audits, c, refs[..n]), IssueOf(audits, c, refs[n]), id);
      if IssueOf(audits, c, refs[n]).Some? {
        Measurement.IssueIsOf(audits, c, refs[n]);
      }
    }
  }
}
