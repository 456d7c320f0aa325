/**
 * What pruning leaves of a measurement, and what a result row's issues keep of its audits
 * (lib/psi/prune.ts, lib/psi/extract.ts, lib/services/audit.service.ts).
 */
module Measurement {
  import opened Sequences
  import opened StableSort
  import opened Psi
  import opened Prune
  import opened Extract

  const NotDropped: Issue -> bool := (i: Issue) => !IsDropped(i.auditId)

  // -------------------------------------------------------------------------------------------
  // Pruning
  // -------------------------------------------------------------------------------------------

  lemma PrunedIssue(audits: map<string, Audit>, c: CategoryId, ref: AuditRef)
    ensures IssueOf(PrunedAudits(audits), c, ref) == Undropped(IssueOf(audits, c, ref))
  {
  }

  lemma {:induction false} FilterBoth(issues: seq<Issue>, id: string)
    ensures Filter(Filter(issues, NotDropped), HasId(id)) == if IsDropped(id) then [] else Filter(issues, HasId(id))
  {
    if |issues| > 0 {
      FilterBoth(issues[1..], id);
    }
  }

  ghost function Undropped(issue: Option<Issue>): Option<Issue> {
    if issue.Some? && IsDropped(issue.value.auditId) then None else issue
  }

  lemma PrunedAdd(before: seq<Issue>, issue: Option<Issue>)
    ensures AddIssue(Filter(before, NotDropped), Undropped(issue)) == Filter(AddIssue(before, issue), NotDropped)
  {
    if issue.Some? {
      FilterBoth(before, issue.value.auditId);
      FilterAppend(before, [issue.value], NotDropped);
      FilterOne(issue.value, NotDropped);
    }
  }

  lemma {:induction false} PrunedIssues(audits: map<string, Audit>, c: CategoryId, refs: seq<AuditRef>)
    ensures IssuesOf(PrunedAudits(audits), c, refs) == Filter(IssuesOf(audits, c, refs), NotDropped)
  {
    if |refs| > 0 {
      var n := |refs| - 1;
      PrunedIssues(audits, c, refs[..n]);
      PrunedIssue(audits, c, refs[n]);
      PrunedAdd(IssuesOf(audits, c, refs[..n]), IssueOf(audits, c, refs[n]));
    }
  }

  lemma {:induction false} PrunedListed(
    audits: map<string, Audit>, categories: map<string, Category>, cs: seq<CategoryId>)
    ensures Listed(PrunedAudits(audits), categories, cs) == Filter(Listed(audits, categories, cs), NotDropped)
  {
    if |cs| > 0 {
      var n := |cs| - 1;
      PrunedListed(audits, categories, cs[..n]);
      PrunedIssues(audits, cs[n], RefsOf(categories, cs[n]));
      FilterAppend(Listed(audits, categories, cs[..n]), IssuesOf(audits, cs[n], RefsOf(categories, cs[n])), NotDropped);
    }
  }

  lemma PrunedAuditList(lr: LighthouseResult)
    ensures AuditsOf(PrunedResult(lr)) == Filter(AuditsOf(lr), NotDropped)
  {
    if lr.audits.Some? && lr.categories.Some? {
      var listed := Listed(lr.audits.value, lr.categories.value, CATEGORIES);
      PrunedListed(lr.audits.value, lr.categories.value, CATEGORIES);
      WorstFirstIsTotal();
      SortCommutesWithFilter(listed, WorstFirst, NotDropped);
    }
  }

  lemma PrunedLab(audits: map<string, Audit>)
    ensures LabOf(PrunedAudits(audits), LAB_AUDITS) == LabOf(audits, LAB_AUDITS)
  {
  }

  /**
   * The pruned response measures the same: status, scores, lab and field data are equal, and the
   * sorted audits are the original ones in the original order, less the dropped ids.
   */
  lemma PruningPreservesMeasurement(res: Response)
    ensures ExtractedFrom(Pruned(res))
         == ExtractedFrom(res).(audits := Filter(ExtractedFrom(res).audits, NotDropped))
  {
    if res.lighthouseResult.Some? {
      var lr := res.lighthouseResult.value;
      PrunedAuditList(lr);
      if lr.audits.Some? {
        PrunedLab(lr.audits.value);
      }
    }
  }

  /** No stored list of details is longer than thirty, and what is left is the front of what there was. */
  lemma PrunedListsAreShort(audit: Audit)
    requires HasList(audit)
    ensures var before, after := audit.details.value.items.value.items, PrunedAudit(audit).details.value.items;
      && after.Some? && after.value.Arr? && |after.value.items| <= DEEP_CAP_ITEMS && |after.value.items| <= |before|
      && forall i :: 0 <= i < |after.value.items| ==> after.value.items[i] == TruncatedItem(before[i])
  {
  }

  // -------------------------------------------------------------------------------------------
  // Storing
  // -------------------------------------------------------------------------------------------

  /** createMany with skipDuplicates, where an audit id is unique per result. */
  function Stored(issues: seq<Issue>): seq<Issue> {
    if |issues| == 0 then []
    else
      AddIssue(Stored(issues[..|issues| - 1]), Some(issues[|issues| - 1]))
  }

  function First(issues: seq<Issue>): seq<Issue> {
    if |issues| == 0 then [] else [issues[0]]
  }

  /** A row is stored for each audit id, from the first issue that has it. */
  lemma {:induction false} StoredIsFirst(issues: seq<Issue>, id: string)
    ensures Filter(Stored(issues), HasId(id)) == First(Filter(issues, HasId(id)))
  {
    if |issues| > 0 {
      var n := |issues| - 1;
      StoredIsFirst(issues[..n], id);
      AddOne(Stored(issues[..n]), Some(issues[n]), id);
      assert issues[..n + 1] == issues;
      FilterNext(issues, n, HasId(id));
    }
  }

  /** Some of these references is to the audit, and counts as a failure. */
  ghost predicate Fails(audits: map<string, Audit>, c: CategoryId, refs: seq<AuditRef>, id: string) {
    exists ref :: ref in refs && ref.id == id && IssueOf(audits, c, ref).Some?
  }

  lemma FailsNext(audits: map<string, Audit>, c: CategoryId, refs: seq<AuditRef>, id: string)
    requires |refs| > 0
    ensures var n := |refs| - 1;
      Fails(audits, c, refs, id)
      <==> Fails(audits, c, refs[..n], id) || (refs[n].id == id && IssueOf(audits, c, refs[n]).Some?)
  {
  }

  lemma IssueIsOf(audits: map<string, Audit>, c: CategoryId, ref: AuditRef)
    requires IssueOf(audits, c, ref).Some?
    ensures IssueOf(audits, c, ref).value.auditId == ref.id
  {
  }

  /** One more issue: it counts unless its audit is listed already. */
  lemma AddOne(before: seq<Issue>, issue: Option<Issue>, id: string)
    ensures var found := Filter(before, HasId(id));
      Filter(AddIssue(before, issue), HasId(id))
      == if found == [] && issue.Some? && issue.value.auditId == id then [issue.value] else found
  {
    if issue.Some? {
      FilterAppend(before, [issue.value], HasId(id));
      FilterOne(issue.value, HasId(id));
    }
  }

  /** A category lists an audit once if one of its references to it is a failure, and else not at all. */
  lemma {:induction false} OneIssuePerCategory(
    audits: map<string, Audit>, c: CategoryId, refs: seq<AuditRef>, id: string)
    ensures |Filter(IssuesOf(audits, c, refs), HasId(id))| == if Fails(audits, c, refs, id) then 1 else 0
  {
    if |refs| > 0 {
      var n := |refs| - 1;
      OneIssuePerCategory(audits, c, refs[..n], id);
      FailsNext(audits, c, refs, id);
      AddOne(IssuesOf(audits, c, refs[..n]), IssueOf(audits, c, refs[n]), id);
      if IssueOf(audits, c, refs[n]).Some? {
        IssueIsOf(audits, c, refs[n]);
      }
    }
  }

  /** The audits come with the greatest saving first, and all of them failed. */
  lemma AuditsAreWorstFirst(lr: LighthouseResult, i: Issue)
    ensures Sorted(AuditsOf(lr), WorstFirst)
    ensures i in AuditsOf(lr) ==>
      && i.auditId in lr.audits.value
      && lr.audits.value[i.auditId].score == Some(i.score)
      && i.score < PASS_THRESHOLD
  {
    if lr.audits.Some? && lr.categories.Some? {
      var listed := Listed(lr.audits.value, lr.categories.value, CATEGORIES);
      WorstFirstIsTotal();
      SortSorted(listed, WorstFirst);
      SameMembers(listed, WorstFirst);
      if i in listed {
        ListedAreOfAudit(lr.audits.value, lr.categories.value, CATEGORIES, i);
      }
    }
  }

  /** All issues for one audit carry its own saving and score, whatever the category. */
  lemma {:induction false} IssuesAreOfAudit(audits: map<string, Audit>, c: CategoryId, refs: seq<AuditRef>, i: Issue)
    requires i in IssuesOf(audits, c, refs)
    ensures i.auditId in audits && audits[i.auditId].score == Some(i.score) && i.score < PASS_THRESHOLD
    ensures i.savingsMs == SavingsMsOf(audits[i.auditId])
  {
    var before := IssuesOf(audits, c, refs[..|refs| - 1]);
    if i in before {
      IssuesAreOfAudit(audits, c, refs[..|refs| - 1], i);
    }
  }

  lemma {:induction false} ListedAreOfAudit(
    audits: map<string, Audit>, categories: map<string, Category>, cs: seq<CategoryId>, i: Issue)
    requires i in Listed(audits, categories, cs)
    ensures i.auditId in audits && audits[i.auditId].score == Some(i.score) && i.score < PASS_THRESHOLD
    ensures i.savingsMs == SavingsMsOf(audits[i.auditId])
  {
    var n := |cs| - 1;
    if i in Listed(audits, categories, cs[..n]) {
      ListedAreOfAudit(audits, categories, cs[..n], i);
    } else {
      IssuesAreOfAudit(audits, cs[n], RefsOf(categories, cs[n]), i);
    }
  }

  lemma OneAuditTies(listed: seq<Issue>, audits: map<string, Audit>, id: string)
    requires forall i :: i in listed ==>
      i.auditId in audits && audits[i.auditId].score == Some(i.score) && i.savingsMs == SavingsMsOf(audits[i.auditId])
    ensures Sorted(Filter(listed, HasId(id)), WorstFirst)
  {
    var same := Filter(listed, HasId(id));
    forall i, j | 0 <= i < j < |same| ensures WorstFirst(same[i], same[j]) {
      assert same[i] in same && same[j] in same;
    }
  }

  /** Sorting does not reorder the issues of one audit. */
  lemma SortKeepsAuditOrder(lr: LighthouseResult, id: string)
    requires lr.audits.Some? && lr.categories.Some?
    ensures Filter(AuditsOf(lr), HasId(id))
         == Filter(Listed(lr.audits.value, lr.categories.value, CATEGORIES), HasId(id))
  {
    var audits, categories := lr.audits.value, lr.categories.value;
    var listed := Listed(audits, categories, CATEGORIES);
    WorstFirstIsTotal();
    SortCommutesWithFilter(listed, WorstFirst, HasId(id));
    forall i | i in listed
      ensures i.auditId in audits && audits[i.auditId].score == Some(i.score)
      ensures i.savingsMs == SavingsMsOf(audits[i.auditId])
    {
      ListedAreOfAudit(audits, categories, CATEGORIES, i);
    }
    OneAuditTies(listed, audits, id);
    SortOfSorted(Filter(listed, HasId(id)), WorstFirst);
  }

  ghost function FailsIn(lr: LighthouseResult, id: string): CategoryId -> bool
    requires lr.audits.Some? && lr.categories.Some?
  {
    c => Fails(lr.audits.value, c, RefsOf(lr.categories.value, c), id)
  }

  ghost function HowMany(cs: seq<CategoryId>, p: CategoryId -> bool): nat {
    if |cs| == 0 then 0 else HowMany(cs[..|cs| - 1], p) + if p(cs[|cs| - 1]) then 1 else 0
  }

  ghost predicate AtMostOne(cs: seq<CategoryId>, p: CategoryId -> bool) {
    forall i, j :: 0 <= i < j < |cs| ==> !(p(cs[i]) && p(cs[j]))
  }

  lemma {:induction false} HowManyIs(cs: seq<CategoryId>, p: CategoryId -> bool)
    ensures HowMany(cs, p) == 0 <==> forall i :: 0 <= i < |cs| ==> !p(cs[i])
    ensures HowMany(cs, p) <= 1 <==> AtMostOne(cs, p)
  {
    if |cs| > 0 {
      var n := |cs| - 1;
      HowManyIs(cs[..n], p);
      assert forall i :: 0 <= i < n ==> cs[..n][i] == cs[i];
    }
  }

  lemma {:induction false} ListedHowOften(lr: LighthouseResult, cs: seq<CategoryId>, id: string)
    requires lr.audits.Some? && lr.categories.Some?
    ensures |Filter(Listed(lr.audits.value, lr.categories.value, cs), HasId(id))| == HowMany(cs, FailsIn(lr, id))
  {
    if |cs| > 0 {
      var audits, categories, n := lr.audits.value, lr.categories.value, |cs| - 1;
      var refs := RefsOf(categories, cs[n]);
      ListedHowOften(lr, cs[..n], id);
      OneIssuePerCategory(audits, cs[n], refs, id);
      FilterAppend(Listed(audits, categories, cs[..n]), IssuesOf(audits, cs[n], refs), HasId(id));
    }
  }

  /**
   * extractAudits lists an audit once for each category it fails in, so at most once just when no two
   * categories fail it.
   */
  lemma ExtractedHowOften(lr: LighthouseResult, id: string)
    requires lr.audits.Some? && lr.categories.Some?
    ensures var found := Filter(AuditsOf(lr), HasId(id));
      && |found| == HowMany(CATEGORIES, FailsIn(lr, id))
      && (|found| <= 1 <==> AtMostOne(CATEGORIES, FailsIn(lr, id)))
  {
    SortKeepsAuditOrder(lr, id);
    ListedHowOften(lr, CATEGORIES, id);
    HowManyIs(CATEGORIES, FailsIn(lr, id));
  }

  lemma KeysDiffer(c: CategoryId, d: CategoryId)
    ensures KeyOf(c) == KeyOf(d) ==> c == d
  {
    assert |KeyOf(Performance)| == 11 && |KeyOf(Accessibility)| == 13 && |KeyOf(BestPractices)| == 14;
    assert |KeyOf(Seo)| == 3;
  }

  lemma OneFailure(lr: LighthouseResult, c: CategoryId, ref: AuditRef)
    requires lr.audits.Some? && lr.categories.Some? && !c.Performance? && ref.id in lr.audits.value
    requires KeyOf(c) in lr.categories.value && lr.categories.value[KeyOf(c)].auditRefs == Some([ref])
    requires var audit := lr.audits.value[ref.id];
      IsScoredMode(audit.scoreDisplayMode.GetOr("")) && audit.score.Some? && audit.score.value < PASS_THRESHOLD
    ensures FailsIn(lr, ref.id)(c)
  {
    assert ref in RefsOf(lr.categories.value, c) && IssueOf(lr.audits.value, c, ref).Some?;
  }

  /** A failing scored audit that accessibility and SEO both refer to is listed twice, and stored once. */
  lemma SharedAuditIsListedTwice(lr: LighthouseResult, a: AuditRef, s: AuditRef)
    requires lr.audits.Some? && a.id == s.id && a.id in lr.audits.value
    requires lr.categories == Some(map[
      KeyOf(Accessibility) := Category(None, Some([a])), KeyOf(Seo) := Category(None, Some([s]))])
    requires var audit := lr.audits.value[a.id];
      IsScoredMode(audit.scoreDisplayMode.GetOr("")) && audit.score.Some? && audit.score.value < PASS_THRESHOLD
    ensures |Filter(AuditsOf(lr), HasId(a.id))| == 2
    ensures |Filter(Stored(AuditsOf(lr)), HasId(a.id))| == 1
  {
    var id := a.id;
    KeysDiffer(Performance, Accessibility);
    KeysDiffer(Performance, Seo);
    KeysDiffer(BestPractices, Accessibility);
    KeysDiffer(BestPractices, Seo);
    KeysDiffer(Accessibility, Seo);
    OneFailure(lr, Accessibility, a);
    OneFailure(lr, Seo, s);
    FourCategories(FailsIn(lr, id));
    ExtractedHowOften(lr, id);
    StoredIsFirst(AuditsOf(lr), id);
  }

  lemma FourCategories(p: CategoryId -> bool)
    requires p(Accessibility) && p(Seo) && !p(Performance) && !p(BestPractices)
    ensures HowMany(CATEGORIES, p) == 2
  {
    assert CATEGORIES[..3] == [Performance, Accessibility, BestPractices];
    assert CATEGORIES[..3][..2] == [Performance, Accessibility];
    assert [Performance, Accessibility][..1] == [Performance];
    assert HowMany([Performance], p) == 0;
    assert HowMany([Performance, Accessibility], p) == 1;
    assert HowMany([Performance, Accessibility, BestPractices], p) == 1;
  }

  /**
   * Of the issues listed for an audit only the first, in the order of the categories, becomes a row:
   * the sort in between does not change which one that is.
   */
  lemma FirstCategoryIsStored(lr: LighthouseResult, id: string)
    requires lr.audits.Some? && lr.categories.Some?
    ensures Filter(Stored(AuditsOf(lr)), HasId(id))
         == First(Filter(Listed(lr.audits.value, lr.categories.value, CATEGORIES), HasId(id)))
  {
    StoredIsFirst(AuditsOf(lr), id);
    SortKeepsAuditOrder(lr, id);
  }
}
