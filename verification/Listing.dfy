/** The home screen: every group of a site with its card, in order (lib/services/results.service.ts). */
module Listing {
  import opened Sequences
  import opened StableSort
  import opened Aggregates

  type GroupId = nat
  type ResultId = nat

  datatype GroupRow = GroupRow(id: GroupId, slug: string, name: string, isManual: bool, priority: Option<int>)

  /** An active page with a group. */
  datatype PageRow = PageRow(
    id: PageId, group: GroupId, sitemapIndex: Option<nat>,
    latestResultMobileId: Option<ResultId>, latestResultDesktopId: Option<ResultId>)

  datatype Summary = Summary(
    id: GroupId, sitemapIndex: Option<nat>, priority: Option<int>, slug: string, name: string, isManual: bool,
    pageCount: nat, auditedCount: nat, aggregate: FourScores,
    worstPerformance: Option<int>, worstPageId: Option<PageId>,
    distribution: Distribution, lastAuditedAt: Option<Millis>)

  type Results = map<ResultId, ScoreRow>

  // -------------------------------------------------------------------------------------------
  // One group, from its own pages
  // -------------------------------------------------------------------------------------------

  function InGroup(id: GroupId): PageRow -> bool {
    (p: PageRow) => p.group == id
  }

  function LatestResultIdFor(p: PageRow, mobile: bool): Option<ResultId> {
    if mobile then p.latestResultMobileId else p.latestResultDesktopId
  }

  /** The row a page's pointer leads to. */
  function LatestOf(p: PageRow, mobile: bool, results: Results): Option<ScoreRow> {
    var id := LatestResultIdFor(p, mobile);
    if id.Some? && id.value in results then Some(results[id.value]) else None
  }

  function LatestRows(pages: seq<PageRow>, mobile: bool, results: Results): (rows: seq<ScoreRow>)
    ensures |rows| <= |pages|
  {
    if |pages| == 0 then []
    else
      var n := |pages| - 1;
      var row := LatestOf(pages[n], mobile, results);
      LatestRows(pages[..n], mobile, results) + if row.Some? then [row.value] else []
  }

  function LastAttempt(rows: seq<ScoreRow>): (at: Option<Millis>)
    ensures at.None? <==> rows == []
    ensures at.Some? ==> exists r :: r in rows && r.createdAt == at.value
    ensures forall r :: r in rows ==> r.createdAt <= at.value
  {
    if |rows| == 0 then None
    else
      var n := |rows| - 1;
      assert rows == rows[..n] + [rows[n]] && rows[n] in rows;
      var before := LastAttempt(rows[..n]);
      if before.None? || rows[n].createdAt > before.value then Some(rows[n].createdAt) else before
  }

  /** A group's position is that of its earliest page. */
  function Earliest(pages: seq<PageRow>): (at: Option<nat>)
    ensures at.None? <==> forall p :: p in pages ==> p.sitemapIndex.None?
    ensures at.Some? ==> exists p :: p in pages && p.sitemapIndex == at
    ensures forall p :: p in pages && p.sitemapIndex.Some? ==> at.value <= p.sitemapIndex.value
  {
    if |pages| == 0 then None
    else
      var n := |pages| - 1;
      assert pages == pages[..n] + [pages[n]] && pages[n] in pages;
      var before := Earliest(pages[..n]);
      var here := pages[n].sitemapIndex;
      if here.None? then before
      else if before.None? || here.value < before.value then here else before
  }

  function Summarize(g: GroupRow, pages: seq<PageRow>, mobile: bool, results: Results): Summary {
    var rows := LatestRows(pages, mobile, results);
    var worst := WorstOf(rows);
    Summary(
      g.id, Earliest(pages), g.priority, g.slug, g.name, g.isManual,
      |pages|, |Filter(rows, IsOk)|, ComputeAggregate(rows),
      if worst.None? then None else worst.value.performance, if worst.None? then None else Some(worst.value.pageId),
      DistributionOf(rows, |pages|), LastAttempt(rows))
  }

  /** A group's card, from all the pages that are in it. */
  function CardOf(g: GroupRow, pages: seq<PageRow>, mobile: bool, results: Results): Summary {
    Summarize(g, Filter(pages, InGroup(g.id)), mobile, results)
  }

  function Cards(pages: seq<PageRow>, mobile: bool, results: Results): GroupRow -> Summary {
    (g: GroupRow) => CardOf(g, pages, mobile, results)
  }

  function CardsBy(groups: seq<GroupRow>, card: GroupRow -> Summary): seq<Summary> {
    seq(|groups|, i requires 0 <= i < |groups| => card(groups[i]))
  }

  function Summaries(groups: seq<GroupRow>, pages: seq<PageRow>, mobile: bool, results: Results): seq<Summary> {
    CardsBy(groups, Cards(pages, mobile, results))
  }

  /** The page has a row for this strategy: its own pointer leads to one. */
  function HasRow(mobile: bool, results: Results): PageRow -> bool {
    (p: PageRow) =>
      var id := if mobile then p.latestResultMobileId else p.latestResultDesktopId;
      id.Some? && id.value in results
  }

  /** The rows of a card are those its pages' pointers for this strategy lead to, in the order of the pages. */
  lemma {:induction false} LatestRowsAre(pages: seq<PageRow>, mobile: bool, results: Results)
    ensures var kept, rows := Filter(pages, HasRow(mobile, results)), LatestRows(pages, mobile, results);
      && |rows| == |kept|
      && forall i :: 0 <= i < |rows| ==>
           var id := if mobile then kept[i].latestResultMobileId else kept[i].latestResultDesktopId;
           id.Some? && id.value in results && rows[i] == results[id.value]
  {
    if |pages| > 0 {
      var n := |pages| - 1;
      LatestRowsAre(pages[..n], mobile, results);
      FilterNext(pages, n, HasRow(mobile, results));
      assert pages[..n + 1] == pages;
    }
  }

  /** What a card says of its group, of the group's pages, and of their rows. */
  lemma CardIs(g: GroupRow, pages: seq<PageRow>, mobile: bool, results: Results)
    ensures var card, own := CardOf(g, pages, mobile, results), Filter(pages, (p: PageRow) => p.group == g.id);
      var rows := LatestRows(own, mobile, results);
      && card.id == g.id && card.slug == g.slug && card.name == g.name && card.isManual == g.isManual
      && card.priority == g.priority && card.pageCount == |own| && card.sitemapIndex == Earliest(own)
      && card.auditedCount == |Filter(rows, Succeeded)| && card.lastAuditedAt == LastAttempt(rows)
      && card.aggregate == ComputeAggregate(rows) && card.distribution == DistributionOf(rows, |own|)
      && (card.worstPerformance.None? <==> WorstOf(rows).None?) && (card.worstPageId.None? <==> WorstOf(rows).None?)
      && (WorstOf(rows).Some? ==>
            card.worstPerformance == WorstOf(rows).value.performance
            && card.worstPageId == Some(WorstOf(rows).value.pageId))
  {
    FilterAgree(pages, InGroup(g.id), (p: PageRow) => p.group == g.id);
    FilterAgree(LatestRows(Filter(pages, InGroup(g.id)), mobile, results), IsOk, Succeeded);
  }

  /** pass + average + fail + unaudited is the number of pages on every card. */
  lemma CardAddsUp(g: GroupRow, pages: seq<PageRow>, mobile: bool, results: Results)
    ensures var s := Summarize(g, pages, mobile, results);
      s.distribution.pass + s.distribution.average + s.distribution.fail + s.distribution.unaudited == s.pageCount
  {
    DistributionAddsUpIff(LatestRows(pages, mobile, results), |pages|);
  }

  // -------------------------------------------------------------------------------------------
  // Page counts
  // -------------------------------------------------------------------------------------------

  function TotalPages(summaries: seq<Summary>): nat {
    if |summaries| == 0 then 0 else summaries[0].pageCount + TotalPages(summaries[1..])
  }

  function InSomeGroup(groups: seq<GroupRow>): PageRow -> bool {
    (p: PageRow) => exists g :: g in groups && g.id == p.group
  }

  ghost predicate DistinctIds(groups: seq<GroupRow>) {
    forall i, j :: 0 <= i < j < |groups| ==> groups[i].id != groups[j].id
  }

  lemma {:induction false} FilterUnion(pages: seq<PageRow>, p: PageRow -> bool, q: PageRow -> bool, r: PageRow -> bool)
    requires forall x :: r(x) == (p(x) || q(x)) && !(p(x) && q(x))
    ensures |Filter(pages, r)| == |Filter(pages, p)| + |Filter(pages, q)|
  {
    if |pages| > 0 {
      FilterUnion(pages[1..], p, q, r);
    }
  }

  lemma FirstOrRest(groups: seq<GroupRow>)
    requires |groups| > 0 && DistinctIds(groups)
    ensures forall x :: InSomeGroup(groups)(x) == (InGroup(groups[0].id)(x) || InSomeGroup(groups[1..])(x))
    ensures forall x :: !(InGroup(groups[0].id)(x) && InSomeGroup(groups[1..])(x))
  {
  }

  lemma CardsTail(groups: seq<GroupRow>, card: GroupRow -> Summary)
    requires |groups| > 0
    ensures CardsBy(groups, card)[1..] == CardsBy(groups[1..], card)
  {
  }

  lemma CardCount(g: GroupRow, pages: seq<PageRow>, mobile: bool, results: Results)
    ensures CardOf(g, pages, mobile, results).pageCount == |Filter(pages, InGroup(g.id))|
  {
  }

  lemma {:induction false} CountsOfGroups(groups: seq<GroupRow>, pages: seq<PageRow>, mobile: bool, results: Results)
    requires DistinctIds(groups)
    ensures TotalPages(Summaries(groups, pages, mobile, results)) == |Filter(pages, InSomeGroup(groups))|
  {
    if |groups| == 0 {
      FilterNone(pages, InSomeGroup(groups));
    } else {
      var rest := groups[1..];
      CountsOfGroups(rest, pages, mobile, results);
      CardsTail(groups, Cards(pages, mobile, results));
      CardCount(groups[0], pages, mobile, results);
      FirstOrRest(groups);
      FilterUnion(pages, InGroup(groups[0].id), InSomeGroup(rest), InSomeGroup(groups));
    }
  }

  /** Every active grouped page is on exactly one card. */
  lemma PageCountsAddUp(groups: seq<GroupRow>, pages: seq<PageRow>, mobile: bool, results: Results)
    requires DistinctIds(groups) && forall p :: p in pages ==> InSomeGroup(groups)(p)
    ensures TotalPages(Summaries(groups, pages, mobile, results)) == |pages|
  {
    CountsOfGroups(groups, pages, mobile, results);
    FilterAll(pages, InSomeGroup(groups));
  }

  // -------------------------------------------------------------------------------------------
  // Order
  // -------------------------------------------------------------------------------------------

  /** What localeCompare promises, whatever the locale. */
  ghost predicate Collation(collate: (string, string) -> int) {
    && (forall a, b :: collate(a, b) < 0 <==> collate(b, a) > 0)
    && (forall a, b, c :: collate(a, b) <= 0 && collate(b, c) <= 0 ==> collate(a, c) <= 0)
  }

  /** The comparator: priority first, then position, then, for groups with neither, name. */
  function Compare(a: Summary, b: Summary, collate: (string, string) -> int): int {
    if a.priority != b.priority then
      if a.priority.None? then 1
      else if b.priority.None? then -1
      else a.priority.value - b.priority.value
    else if a.sitemapIndex.None? && b.sitemapIndex.None? then collate(a.name, b.name)
    else if a.sitemapIndex.None? then 1
    else if b.sitemapIndex.None? then -1
    else a.sitemapIndex.value - b.sitemapIndex.value
  }

  /**
   * Which of two cards comes first: the one with the lower priority, or with one at all; with equal ones
   * the one earlier in the sitemap, or in it at all; and if neither is, names decide.
   */
  lemma CompareIs(a: Summary, b: Summary, collate: (string, string) -> int)
    ensures a.priority.Some? && (b.priority.None? || a.priority.value < b.priority.value) ==>
      Compare(a, b, collate) < 0 && Compare(b, a, collate) > 0
    ensures a.priority == b.priority && a.sitemapIndex.Some? && b.sitemapIndex.None? ==>
      Compare(a, b, collate) < 0 && Compare(b, a, collate) > 0
    ensures a.priority == b.priority && a.sitemapIndex.Some? && b.sitemapIndex.Some?
            && a.sitemapIndex.value < b.sitemapIndex.value ==>
      Compare(a, b, collate) < 0 && Compare(b, a, collate) > 0
    ensures a.priority == b.priority && a.sitemapIndex.Some? && a.sitemapIndex == b.sitemapIndex ==>
      Compare(a, b, collate) == 0
    ensures a.priority == b.priority && a.sitemapIndex.None? && b.sitemapIndex.None? ==>
      Compare(a, b, collate) == collate(a.name, b.name)
  {
  }

  function ListOrder(collate: (string, string) -> int): (Summary, Summary) -> bool {
    (a: Summary, b: Summary) => Compare(a, b, collate) <= 0
  }

  /** The comparator is a strict weak order, so the sort is well defined. */
  lemma ComparatorIsWeakOrder(collate: (string, string) -> int)
    requires Collation(collate)
    ensures forall a, b :: Compare(a, b, collate) < 0 <==> Compare(b, a, collate) > 0
    ensures TotalPreorder(ListOrder(collate))
  {
  }

  // -------------------------------------------------------------------------------------------
  // The query
  // -------------------------------------------------------------------------------------------

  /** Page ids are unique and a page's pointer leads to a row of its own. */
  ghost predicate OwnResults(pages: seq<PageRow>, mobile: bool, results: Results) {
    && (forall i, j :: 0 <= i < j < |pages| ==> pages[i].id != pages[j].id)
    && (forall p :: p in pages && LatestOf(p, mobile, results).Some? ==>
          LatestOf(p, mobile, results).value.pageId == p.id)
  }

  function Bucket(buckets: map<GroupId, seq<PageRow>>, id: GroupId): seq<PageRow> {
    if id in buckets then buckets[id] else []
  }

  /** One pass over the pages puts each group's pages together, in their order. */
  method BucketPages(pages: seq<PageRow>) returns (buckets: map<GroupId, seq<PageRow>>)
    ensures forall id: nat :: Bucket(buckets, id) == Filter(pages, InGroup(id))
  {
    buckets := map[];
    for i := 0 to |pages|
      invariant forall id: nat :: Bucket(buckets, id) == Filter(pages[..i], InGroup(id))
    {
      var p := pages[i];
      forall id: nat {
        FilterNext(pages, i, InGroup(id));
      }
      buckets := buckets[p.group := Bucket(buckets, p.group) + [p]];
    }
    assert pages[..|pages|] == pages;
  }

  function RowAt(byPage: map<PageId, ScoreRow>, id: PageId): Option<ScoreRow> {
    if id in byPage then Some(byPage[id]) else None
  }

  method ResultsByPage(pages: seq<PageRow>, mobile: bool, results: Results) returns (byPage: map<PageId, ScoreRow>)
    requires OwnResults(pages, mobile, results)
    ensures forall p :: p in pages ==> RowAt(byPage, p.id) == LatestOf(p, mobile, results)
  {
    byPage := map[];
    for i := 0 to |pages|
      invariant forall k :: 0 <= k < i ==> RowAt(byPage, pages[k].id) == LatestOf(pages[k], mobile, results)
      invariant forall k :: i <= k < |pages| ==> RowAt(byPage, pages[k].id) == None
    {
      var row := LatestOf(pages[i], mobile, results);
      assert pages[i] in pages;
      if row.Some? {
        byPage := byPage[row.value.pageId := row.value];
      }
    }
  }

  method RowsFor(pages: seq<PageRow>, byPage: map<PageId, ScoreRow>, mobile: bool, ghost results: Results)
    returns (rows: seq<ScoreRow>)
    requires forall p :: p in pages ==> RowAt(byPage, p.id) == LatestOf(p, mobile, results)
    ensures rows == LatestRows(pages, mobile, results)
  {
    rows := [];
    for i := 0 to |pages|
      invariant rows == LatestRows(pages[..i], mobile, results)
    {
      assert pages[..i + 1][..i] == pages[..i] && pages[i] in pages;
      if pages[i].id in byPage {
        rows := rows + [byPage[pages[i].id]];
      }
    }
    assert pages[..|pages|] == pages;
  }

  method SummarizeGroup(
    g: GroupRow, pages: seq<PageRow>, byPage: map<PageId, ScoreRow>, mobile: bool, ghost results: Results)
    returns (s: Summary)
    requires forall p :: p in pages ==> RowAt(byPage, p.id) == LatestOf(p, mobile, results)
    ensures s == Summarize(g, pages, mobile, results)
  {
    var rows := RowsFor(pages, byPage, mobile, results);
    var score, worstId := WorstPerformance(rows);
    var distribution := ComputeDistribution(rows, |pages|);
    s := Summary(
      g.id, Earliest(pages), g.priority, g.slug, g.name, g.isManual, |pages|, |Filter(rows, IsOk)|,
      ComputeAggregate(rows), score, worstId, distribution, LastAttempt(rows));
  }

  method SummarizeBucket(
    g: GroupRow, buckets: map<GroupId, seq<PageRow>>, byPage: map<PageId, ScoreRow>,
    ghost pages: seq<PageRow>, mobile: bool, ghost results: Results, ghost card: GroupRow -> Summary)
    returns (s: Summary)
    requires forall id: nat :: Bucket(buckets, id) == Filter(pages, InGroup(id))
    requires forall p :: p in pages ==> RowAt(byPage, p.id) == LatestOf(p, mobile, results)
    requires card == Cards(pages, mobile, results)
    ensures s == card(g)
  {
    s := SummarizeGroup(g, Bucket(buckets, g.id), byPage, mobile, results);
  }

  method SummarizeAll(
    groups: seq<GroupRow>, buckets: map<GroupId, seq<PageRow>>, byPage: map<PageId, ScoreRow>,
    ghost pages: seq<PageRow>, mobile: bool, ghost results: Results, ghost card: GroupRow -> Summary)
    returns (summaries: seq<Summary>)
    requires forall id: nat :: Bucket(buckets, id) == Filter(pages, InGroup(id))
    requires forall p :: p in pages ==> RowAt(byPage, p.id) == LatestOf(p, mobile, results)
    requires card == Cards(pages, mobile, results)
    ensures summaries == CardsBy(groups, card)
  {
    summaries := [];
    for i := 0 to |groups|
      invariant |summaries| == i
      invariant forall k :: 0 <= k < i ==> summaries[k] == card(groups[k])
    {
      var s := SummarizeBucket(groups[i], buckets, byPage, pages, mobile, results, card);
      summaries := summaries + [s];
    }
  }

  /** The bucketed passes give the cards that filtering the pages for each group would, in list order. */
  method ListGroups(
    groups: seq<GroupRow>, pages: seq<PageRow>, mobile: bool, results: Results, collate: (string, string) -> int)
    returns (out: seq<Summary>)
    requires OwnResults(pages, mobile, results)
    ensures out == Sort(Summaries(groups, pages, mobile, results), ListOrder(collate))
  {
    var byPage := ResultsByPage(pages, mobile, results);
    var buckets := BucketPages(pages);
    var summaries := SummarizeAll(groups, buckets, byPage, pages, mobile, results, Cards(pages, mobile, results));
    out := Sort(summaries, ListOrder(collate));
  }
}
