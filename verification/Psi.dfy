/** The parts of a PageSpeed Insights response that are read (lib/psi/types.ts). */
module Psi {
  import opened Sequences

  /** Any JSON value. An object's entries are in the order Object.entries gives them. */
  datatype Json =
    | Null
    | Bool(b: bool)
    | Num(n: real)
    | Str(s: string)
    | Arr(items: seq<Json>)
    | Obj(entries: seq<(string, Json)>)

  datatype Savings = Savings(lcp: Option<real>, fcp: Option<real>, tbt: Option<real>)

  datatype Details = Details(
    kind: Option<string>, items: Option<Json>, overallSavingsMs: Option<real>, overallSavingsBytes: Option<real>)

  datatype Audit = Audit(
    id: Option<string>, title: Option<string>, description: Option<string>, score: Option<real>,
    scoreDisplayMode: Option<string>, displayValue: Option<string>, numericValue: Option<real>,
    details: Option<Details>, metricSavings: Option<Savings>)

  datatype AuditRef = AuditRef(id: string, weight: Option<real>, group: Option<string>)

  datatype Category = Category(score: Option<real>, auditRefs: Option<seq<AuditRef>>)

  /** `others` holds the keys nothing is read from. */
  datatype LighthouseResult = LighthouseResult(
    requestedUrl: Option<string>, finalUrl: Option<string>, finalDisplayedUrl: Option<string>,
    lighthouseVersion: Option<string>, fetchTime: Option<string>, runtimeError: Option<string>,
    audits: Option<map<string, Audit>>, categories: Option<map<string, Category>>, others: map<string, Json>)

  datatype CruxMetric = CruxMetric(
    percentile: Option<real>, category: Option<string>, distributions: Option<seq<Option<real>>>)

  datatype LoadingExperience = LoadingExperience(
    overallCategory: Option<string>, metrics: Option<map<string, CruxMetric>>, originFallback: Option<bool>)

  datatype Response = Response(
    loadingExperience: Option<LoadingExperience>, originLoadingExperience: Option<LoadingExperience>,
    lighthouseResult: Option<LighthouseResult>)
}
