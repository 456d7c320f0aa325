/** What a run is to measure: expanding a scope, and what a resume still owes. */
module RunPlans {
  import opened Sequences
  import opened StableSort
  import Text
  import opened ScopeLabels
  import opened AuditRuns
  import opened RunRows

  ghost predicate DistinctPlan(plan: seq<AuditPair>) {
    forall i, j :: 0 <= i < j < |plan| ==> plan[i].pageId != plan[j].pageId || plan[i].strategy != plan[j].strategy
  }

  function PlanPairs(plan: seq<AuditPair>): set<(PageId, Strategy)> {
    set p | p in plan :: (p.pageId, p.strategy)
  }

  lemma {:induction false} PlanCount(plan: seq<AuditPair>)
    requires DistinctPlan(plan)
    ensures |PlanPairs(plan)| == |plan|
  {
    if |plan| > 0 {
      PlanCount(plan[1..]);
      var head := (plan[0].pageId, plan[0].strategy);
      assert plan == [plan[0]] + plan[1..];
      assert head !in PlanPairs(plan[1..]);
      assert PlanPairs(plan) == {head} + PlanPairs(plan[1..]);
    } else {
      assert PlanPairs(plan) == {};
    }
  }

  const PairOf: AuditPair -> (PageId, Strategy) := (p: AuditPair) => (p.pageId, p.strategy)

  lemma FilterPlan(plan: seq<AuditPair>, keep: AuditPair -> bool)
    requires DistinctPlan(plan)
    ensures DistinctPlan(Filter(plan, keep))
  {
    assert DistinctBy(plan, PairOf);
    FilterKeepsDistinct(plan, keep, PairOf);
    var kept := Filter(plan, keep);
    forall i, j | 0 <= i < j < |kept| ensures kept[i].pageId != kept[j].pageId || kept[i].strategy != kept[j].strategy {
      assert PairOf(kept[i]) != PairOf(kept[j]);
    }
  }

  ghost predicate DistinctIds(pages: seq<PageRow>) {
    forall i, j :: 0 <= i < j < |pages| ==> pages[i].id != pages[j].id
  }

  lemma {:induction false} AllPairsDistinct(pages: seq<PageRow>, strategies: seq<Strategy>)
    requires DistinctIds(pages) && Distinct(strategies)
    ensures DistinctPlan(AllPairs(pages, strategies))
    ensures forall p :: p in AllPairs(pages, strategies) ==> exists q :: q in pages && q.id == p.pageId
  {
    if |pages| > 0 {
      AllPairsDistinct(pages[1..], strategies);
      var first, rest := PagePairs(pages[0], strategies), AllPairs(pages[1..], strategies);
      forall j | 0 <= j < |rest| ensures rest[j].pageId != pages[0].id {
        assert rest[j] in rest;
      }
    }
  }

  lemma {:induction false} FailedPairsDistinct(rows: seq<ResultRow>, pages: seq<PageRow>, id: RunId)
    requires OneRowPerPair(rows) && forall r :: r in rows ==> r.run == id
    ensures DistinctPlan(FailedPairs(rows, pages))
    ensures forall p :: p in FailedPairs(rows, pages) ==>
      exists r :: r in rows && r.page == p.pageId && r.strategy == p.strategy
  {
    if |rows| > 0 {
      FailedPairsDistinct(rows[1..], pages, id);
      var rest := FailedPairs(rows[1..], pages);
      forall j | 0 <= j < |rest| ensures rest[j].pageId != rows[0].page || rest[j].strategy != rows[0].strategy {
        assert rest[j] in rest;
        var r :| r in rows[1..] && r.page == rest[j].pageId && r.strategy == rest[j].strategy;
        assert !SameKey(rows[0], r);
      }
    }
  }

  const KeyOfRow: ResultRow -> (RunId, PageId, Strategy) := (r: ResultRow) => (r.run, r.page, r.strategy)

  lemma FilterKeepsKeys(rows: seq<ResultRow>, keep: ResultRow -> bool)
    requires OneRowPerPair(rows)
    ensures OneRowPerPair(Filter(rows, keep))
  {
    assert DistinctBy(rows, KeyOfRow) by {
      forall i, j | 0 <= i < j < |rows| ensures KeyOfRow(rows[i]) != KeyOfRow(rows[j]) {
        assert !SameKey(rows[i], rows[j]);
      }
    }
    FilterKeepsDistinct(rows, keep, KeyOfRow);
    var kept := Filter(rows, keep);
    forall i, j | 0 <= i < j < |kept| ensures !SameKey(kept[i], kept[j]) {
      assert KeyOfRow(kept[i]) != KeyOfRow(kept[j]);
    }
  }

  const IdOf: PageRow -> PageId := (p: PageRow) => p.id

  lemma SelectedKeepIds(pages: seq<PageRow>, keep: PageRow -> bool)
    requires DistinctIds(pages)
    ensures DistinctIds(Sort(Filter(pages, keep), SweepOrder))
  {
    assert DistinctBy(pages, IdOf);
    FilterKeepsDistinct(pages, keep, IdOf);
    SortKeepsDistinct(Filter(pages, keep), SweepOrder, IdOf);
    var kept := Sort(Filter(pages, keep), SweepOrder);
    forall i, j | 0 <= i < j < |kept| ensures kept[i].id != kept[j].id {
      assert IdOf(kept[i]) != IdOf(kept[j]);
    }
  }

  /** Whatever the scope, expanding it names each (page, strategy) once. */
  lemma ExpandScopeIsDistinct(db: Db, site: SiteId, scope: RunScope, retried: RunId)
    requires DistinctIds(db.pages) && OneRowPerPair(db.results) && Distinct(scope.strategies)
    ensures DistinctPlan(ExpandScope(db, site, scope, retried))
  {
    if scope.kind.Retry? {
      RunRowsAreDistinct(db.results, retried);
      FilterKeepsKeys(RowsOf(db.results, retried), IsErrorRow);
      FailedPairsDistinct(ErrorRows(db.results, retried), db.pages, retried);
    } else {
      SelectedKeepIds(db.pages, Selects(scope, site));
      AllPairsDistinct(Sort(Filter(db.pages, Selects(scope, site)), SweepOrder), scope.strategies);
    }
  }

  ghost predicate IsPairOf(p: AuditPair, page: PageRow, s: Strategy) {
    p == AuditPair(page.id, page.url, s)
  }

  lemma {:induction false} AllPairsMembers(pages: seq<PageRow>, strategies: seq<Strategy>, p: AuditPair)
    ensures p in AllPairs(pages, strategies)
      <==> exists page, s :: page in pages && s in strategies && IsPairOf(p, page, s)
  {
    if |pages| > 0 {
      AllPairsMembers(pages[1..], strategies, p);
      assert pages == [pages[0]] + pages[1..];
      var first := PagePairs(pages[0], strategies);
      if p in first {
        var i :| 0 <= i < |first| && first[i] == p;
        assert IsPairOf(p, pages[0], strategies[i]);
      }
      forall s | s in strategies && IsPairOf(p, pages[0], s) ensures p in first {
        var i :| 0 <= i < |strategies| && strategies[i] == s;
        assert first[i] == p;
      }
    }
  }

  /** A run measures each page its scope selects with each strategy, and nothing else. */
  lemma ExpandScopeMembers(db: Db, site: SiteId, scope: RunScope, retried: RunId, p: AuditPair)
    requires !scope.kind.Retry?
    ensures p in ExpandScope(db, site, scope, retried)
      <==> exists page, s ::
             page in db.pages && Selects(scope, site)(page) && s in scope.strategies && IsPairOf(p, page, s)
  {
    var selected := Filter(db.pages, Selects(scope, site));
    SameMembers(selected, SweepOrder);
    AllPairsMembers(Sort(selected, SweepOrder), scope.strategies, p);
  }

  /** A page scope covers the page with that id, in the sitemap or not. */
  lemma PageScopeMembers(db: Db, site: SiteId, scope: RunScope, retried: RunId, p: AuditPair)
    requires scope.kind.Page?
    ensures p in ExpandScope(db, site, scope, retried)
      <==> exists page, s ::
             && page in db.pages && s in scope.strategies && p == AuditPair(page.id, page.url, s)
             && page.id == scope.ref.GetOr("")
  {
    ExpandScopeMembers(db, site, scope, retried, p);
    forall page, s | page in db.pages && s in scope.strategies && p == AuditPair(page.id, page.url, s)
      ensures IsPairOf(p, page, s)
    {
    }
  }

  /** A list of pages covers each page whose id is one of the non-empty texts between its commas. */
  lemma PagesScopeMembers(db: Db, site: SiteId, scope: RunScope, retried: RunId, p: AuditPair)
    requires scope.kind.Pages?
    ensures p in ExpandScope(db, site, scope, retried)
      <==> && p.pageId != "" && BetweenCommas(scope.ref.GetOr(""), p.pageId)
           && exists page, s ::
                page in db.pages && s in scope.strategies && p == AuditPair(page.id, page.url, s)
  {
    ExpandScopeMembers(db, site, scope, retried, p);
    SplitMembers(scope.ref.GetOr(""), p.pageId);
    forall page, s | page in db.pages && s in scope.strategies && p == AuditPair(page.id, page.url, s)
      ensures IsPairOf(p, page, s)
    {
    }
  }

  /** A group covers the active pages of the site that are in the site's group of that slug. */
  lemma GroupScopeMembers(db: Db, site: SiteId, scope: RunScope, retried: RunId, p: AuditPair)
    requires scope.kind.Group?
    ensures p in ExpandScope(db, site, scope, retried)
      <==> exists page, s ::
             && page in db.pages && s in scope.strategies && p == AuditPair(page.id, page.url, s)
             && page.isActive && page.site == site
             && page.group.Some? && page.group.value.site == site && page.group.value.slug == scope.ref.GetOr("")
  {
    ExpandScopeMembers(db, site, scope, retried, p);
    forall page, s | page in db.pages && s in scope.strategies && p == AuditPair(page.id, page.url, s)
      ensures IsPairOf(p, page, s)
    {
    }
  }

  /** A site scope covers all active pages of the site. */
  lemma SiteScopeMembers(db: Db, site: SiteId, scope: RunScope, retried: RunId, p: AuditPair)
    requires scope.kind.Site?
    ensures p in ExpandScope(db, site, scope, retried)
      <==> exists page, s ::
             && page in db.pages && s in scope.strategies && p == AuditPair(page.id, page.url, s)
             && page.isActive && page.site == site
  {
    ExpandScopeMembers(db, site, scope, retried, p);
    forall page, s | page in db.pages && s in scope.strategies && p == AuditPair(page.id, page.url, s)
      ensures IsPairOf(p, page, s)
    {
    }
  }

  ghost predicate IsPiece(list: string, a: string, text: string, b: string) {
    list == a + (text + b) && (a == "" || a[|a| - 1] == ',') && (b == "" || b[0] == ',')
  }

  /** The text stands between two commas, or between one and an end, and has none itself. */
  ghost predicate BetweenCommas(list: string, text: string) {
    ',' !in text && exists a, b :: IsPiece(list, a, text, b)
  }

  lemma FirstComma(s: string)
    ensures var i := Text.Find(s, ",", 0);
      if i == -1 then ',' !in s else 0 <= i < |s| && s[i] == ',' && ',' !in s[..i]
  {
    forall i | 0 <= i < |s| ensures Text.At(s, ",", i) <==> s[i] == ',' {
      Text.AtIs(s, ",", i);
    }
    var i := Text.Find(s, ",", 0);
    if i != -1 {
      Text.AtIs(s, ",", i);
    }
  }

  lemma EdgesHaveCommas(a: string, b: string)
    ensures a != "" && a[|a| - 1] == ',' ==> ',' in a
    ensures b != "" && b[0] == ',' ==> ',' in b
  {
  }

  lemma WithoutCommas(list: string, text: string)
    requires ',' !in list
    ensures BetweenCommas(list, text) <==> text == list
  {
    assert list == "" + (list + "");
    assert IsPiece(list, "", list, "");
    forall a, b | IsPiece(list, a, text, b) ensures text == list {
      EdgesHaveCommas(a, b);
      assert a == "" && b == "";
    }
  }

  lemma BetweenInTail(h: string, t: string, text: string)
    requires BetweenCommas(t, text)
    ensures BetweenCommas(h + "," + t, text)
  {
    var a, b :| IsPiece(t, a, text, b);
    assert h + "," + t == (h + "," + a) + (text + b);
    assert IsPiece(h + "," + t, h + "," + a, text, b);
  }

  lemma BetweenAtHead(h: string, t: string)
    requires ',' !in h
    ensures BetweenCommas(h + "," + t, h)
  {
    assert h + "," + t == "" + (h + ("," + t));
    assert IsPiece(h + "," + t, "", h, "," + t);
  }

  lemma FirstCommaIsUnique(list: string, i: nat, j: nat)
    requires i < |list| && j < |list| && list[i] == ',' && list[j] == ','
    requires ',' !in list[..i] && ',' !in list[..j]
    ensures i == j
  {
  }

  lemma NoCommaBefore(h: string, rest: string)
    requires ',' !in h
    ensures forall k :: 0 <= k < |h| ==> (h + rest)[k] != ','
  {
  }

  lemma HeadPiece(h: string, t: string, text: string, b: string)
    requires ',' !in h && ',' !in text && (b == "" || b[0] == ',') && h + "," + t == text + b
    ensures text == h
  {
    var list := h + "," + t;
    assert list[|h|] in text + b;
    assert list[..|h|] == h && list[..|text|] == text;
    FirstCommaIsUnique(list, |h|, |text|);
  }

  lemma TailPiece(h: string, t: string, a: string, rest: string)
    requires ',' !in h && a != "" && a[|a| - 1] == ',' && h + "," + t == a + rest
    ensures |h| < |a| && t == a[|h| + 1..] + rest
  {
    var list := h + "," + t;
    assert list == h + ("," + t) && list[|a| - 1] == ',';
    NoCommaBefore(h, "," + t);
    assert t == list[|h| + 1..];
  }

  lemma BetweenIsHeadOrInTail(h: string, t: string, text: string)
    requires ',' !in h && BetweenCommas(h + "," + t, text)
    ensures text == h || BetweenCommas(t, text)
  {
    var a, b :| IsPiece(h + "," + t, a, text, b);
    if a == "" {
      assert h + "," + t == text + b;
      HeadPiece(h, t, text, b);
    } else {
      TailPiece(h, t, a, text + b);
      assert IsPiece(t, a[|h| + 1..], text, b);
    }
  }

  lemma {:induction false} SplitMembers(list: string, text: string)
    ensures text in Split(list) <==> BetweenCommas(list, text)
    decreases |list|
  {
    FirstComma(list);
    var i := Text.Find(list, ",", 0);
    if i == -1 {
      WithoutCommas(list, text);
    } else {
      var h, t := list[..i], list[i + 1..];
      assert list == h + "," + t;
      SplitMembers(t, text);
      BetweenAtHead(h, t);
      if BetweenCommas(t, text) {
        BetweenInTail(h, t, text);
      }
      if BetweenCommas(list, text) {
        BetweenIsHeadOrInTail(h, t, text);
      }
    }
  }

  lemma {:induction false} UrlOfIs(pages: seq<PageRow>, id: PageId)
    ensures UrlOf(pages, id).Some? <==> exists p :: p in pages && p.id == id && p.isActive
    ensures UrlOf(pages, id).Some? ==>
      exists p :: p in pages && p.id == id && p.isActive && p.url == UrlOf(pages, id).value
  {
    if |pages| > 0 {
      UrlOfIs(pages[1..], id);
      assert pages == [pages[0]] + pages[1..];
    }
  }

  /** A retry measures the failed pairs of the other run again, as far as their page is still in the sitemap. */
  lemma {:induction false} FailedPairsMembers(rows: seq<ResultRow>, pages: seq<PageRow>, page: PageId, s: Strategy)
    ensures (page, s) in PlanPairs(FailedPairs(rows, pages))
      <==> (page, s) in PairsOf(rows) && exists p :: p in pages && p.id == page && p.isActive
  {
    if |rows| > 0 {
      FailedPairsMembers(rows[1..], pages, page, s);
      UrlOfIs(pages, rows[0].page);
      assert rows == [rows[0]] + rows[1..];
      var all, rest := FailedPairs(rows, pages), FailedPairs(rows[1..], pages);
      assert forall p :: p in rest ==> p in all;
      assert UrlOf(pages, rows[0].page).Some? ==> all[0] in all;
    }
  }

  /** The error rows of a run whose page is still in the sitemap. */
  function FailedAndAlive(run: RunId, pages: seq<PageRow>): ResultRow -> bool {
    (r: ResultRow) => r.run == run && r.outcome == Error && exists p :: p in pages && p.id == r.page && p.isActive
  }

  /** The pair is the row's, on an active page of its id, with that page's url. */
  ghost predicate Replays(pages: seq<PageRow>, p: AuditPair, r: ResultRow) {
    && p.pageId == r.page && p.strategy == r.strategy
    && exists page :: page in pages && page.id == r.page && page.isActive && page.url == p.url
  }

  ghost predicate AllReplay(pages: seq<PageRow>, plan: seq<AuditPair>, rows: seq<ResultRow>) {
    |plan| == |rows| && forall i :: 0 <= i < |plan| ==> Replays(pages, plan[i], rows[i])
  }

  /**
   * A retry replays the failed rows of that run in their order, each on its page as the page is now: the id
   * and the strategy are the row's, and the url is that of an active page with this id.
   */
  lemma RetryScopeIs(db: Db, site: SiteId, scope: RunScope, retried: RunId)
    requires scope.kind.Retry?
    ensures AllReplay(
      db.pages, ExpandScope(db, site, scope, retried), Filter(db.results, FailedAndAlive(retried, db.pages)))
  {
    FailedPairsAre(ErrorRows(db.results, retried), db.pages);
    FailedAndAliveIs(db.results, retried, db.pages);
  }

  lemma {:induction false} FailedAndAliveIs(rows: seq<ResultRow>, run: RunId, pages: seq<PageRow>)
    ensures Filter(ErrorRows(rows, run), Alive(pages)) == Filter(rows, FailedAndAlive(run, pages))
  {
    if |rows| > 0 {
      FailedAndAliveIs(rows[1..], run, pages);
    }
  }

  function Alive(pages: seq<PageRow>): ResultRow -> bool {
    (r: ResultRow) => exists p :: p in pages && p.id == r.page && p.isActive
  }

  lemma OneMoreReplays(pages: seq<PageRow>, p: AuditPair, plan: seq<AuditPair>, r: ResultRow, rows: seq<ResultRow>)
    requires Replays(pages, p, r) && AllReplay(pages, plan, rows)
    ensures AllReplay(pages, [p] + plan, [r] + rows)
  {
  }

  lemma {:induction false} FailedPairsAre(rows: seq<ResultRow>, pages: seq<PageRow>)
    ensures AllReplay(pages, FailedPairs(rows, pages), Filter(rows, Alive(pages)))
  {
    if |rows| > 0 {
      var r, url := rows[0], UrlOf(pages, rows[0].page);
      FailedPairsAre(rows[1..], pages);
      UrlOfIs(pages, r.page);
      assert url.Some? <==> Alive(pages)(r);
      if url.Some? {
        OneMoreReplays(
          pages, AuditPair(r.page, url.value, r.strategy), FailedPairs(rows[1..], pages),
          r, Filter(rows[1..], Alive(pages)));
      }
    }
  }

  /**
   * Which of two pages comes first: the one whose group has the lower priority, or has one; with equal
   * priorities the one earlier in the sitemap, or in it at all; then the one with the lesser path.
   */
  lemma SweepOrderIs(a: PageRow, b: PageRow)
    ensures var p := if a.group.None? then None else a.group.value.priority;
      var q := if b.group.None? then None else b.group.value.priority;
      && (p.Some? && (q.None? || p.value < q.value) ==> SweepOrder(a, b) && !SweepOrder(b, a))
      && (p == q && a.sitemapIndex.Some? && (b.sitemapIndex.None? || a.sitemapIndex.value < b.sitemapIndex.value) ==>
            SweepOrder(a, b) && !SweepOrder(b, a))
      && (p == q && a.sitemapIndex == b.sitemapIndex ==> (SweepOrder(a, b) <==> Text.LexLe(a.path, b.path)))
  {
  }

  /** The pages of a scope are dispatched in sweep order. */
  lemma SweepOrderIsTotal()
    ensures TotalPreorder(SweepOrder)
  {
    forall a: PageRow, b: PageRow ensures SweepOrder(a, b) || SweepOrder(b, a) {
      Text.LexTotal(a.path, b.path);
    }
    forall a: PageRow, b: PageRow, c: PageRow | SweepOrder(a, b) && SweepOrder(b, c) ensures SweepOrder(a, c) {
      if Priority(a) == Priority(b) == Priority(c) && a.sitemapIndex == b.sitemapIndex == c.sitemapIndex {
        Text.LexTransitive(a.path, b.path, c.path);
      }
    }
  }

  /** One page is not after the other in the sweep. */
  ghost predicate NotAfter(pages: seq<PageRow>, p: AuditPair, q: AuditPair) {
    exists a, b :: a in pages && b in pages && a.id == p.pageId && b.id == q.pageId && SweepOrder(a, b)
  }

  lemma {:induction false} PairPage(pages: seq<PageRow>, strategies: seq<Strategy>, p: AuditPair)
    returns (page: PageRow)
    requires p in AllPairs(pages, strategies)
    ensures page in pages && page.id == p.pageId
  {
    AllPairsMembers(pages, strategies, p);
    var s;
    page, s :| page in pages && s in strategies && IsPairOf(p, page, s);
  }

  lemma NotAfterBy(pages: seq<PageRow>, p: AuditPair, q: AuditPair, a: PageRow, b: PageRow)
    requires a in pages && b in pages && a.id == p.pageId && b.id == q.pageId && SweepOrder(a, b)
    ensures NotAfter(pages, p, q)
  {
  }

  lemma NotAfterInTail(pages: seq<PageRow>, p: AuditPair, q: AuditPair)
    requires |pages| > 0 && NotAfter(pages[1..], p, q)
    ensures NotAfter(pages, p, q)
  {
    var a, b :| a in pages[1..] && b in pages[1..] && a.id == p.pageId && b.id == q.pageId && SweepOrder(a, b);
    NotAfterBy(pages, p, q, a, b);
  }

  lemma FirstIsBefore(pages: seq<PageRow>, b: PageRow)
    requires Sorted(pages, SweepOrder) && |pages| > 0 && b in pages
    ensures SweepOrder(pages[0], b)
  {
    SweepOrderIsTotal();
    var i :| 0 <= i < |pages| && pages[i] == b;
    assert i > 0 ==> SweepOrder(pages[0], pages[i]);
  }

  lemma {:induction false} AllPairsInOrder(pages: seq<PageRow>, strategies: seq<Strategy>, i: nat, j: nat)
    requires Sorted(pages, SweepOrder) && i < j < |AllPairs(pages, strategies)|
    ensures NotAfter(pages, AllPairs(pages, strategies)[i], AllPairs(pages, strategies)[j])
  {
    var all, n := AllPairs(pages, strategies), |strategies|;
    var rest := AllPairs(pages[1..], strategies);
    assert all == PagePairs(pages[0], strategies) + rest;
    if i >= n {
      AllPairsInOrder(pages[1..], strategies, i - n, j - n);
      NotAfterInTail(pages, all[i], all[j]);
    } else {
      assert all[j] in all;
      var b := PairPage(pages, strategies, all[j]);
      FirstIsBefore(pages, b);
      NotAfterBy(pages, all[i], all[j], pages[0], b);
    }
  }

  /** A run's pairs are dispatched in sweep order: by priority, then sitemap position, then path. */
  lemma ExpandScopeInOrder(db: Db, site: SiteId, scope: RunScope, retried: RunId, i: nat, j: nat)
    requires !scope.kind.Retry? && i < j < |ExpandScope(db, site, scope, retried)|
    ensures var plan := ExpandScope(db, site, scope, retried); NotAfter(db.pages, plan[i], plan[j])
  {
    var selected := Filter(db.pages, Selects(scope, site));
    SweepOrderIsTotal();
    SortSorted(selected, SweepOrder);
    SameMembers(selected, SweepOrder);
    AllPairsInOrder(Sort(selected, SweepOrder), scope.strategies, i, j);
  }

  function ForPage(id: PageId): AuditPair -> bool {
    (p: AuditPair) => p.pageId == id
  }

  lemma {:induction false} AllPairsOfPage(pages: seq<PageRow>, strategies: seq<Strategy>, page: PageRow)
    requires DistinctIds(pages)
    ensures page in pages ==> Filter(AllPairs(pages, strategies), ForPage(page.id)) == PagePairs(page, strategies)
    ensures (forall q :: q in pages ==> q.id != page.id) ==> Filter(AllPairs(pages, strategies), ForPage(page.id)) == []
  {
    if |pages| > 0 {
      AllPairsOfPage(pages[1..], strategies, page);
      assert pages == [pages[0]] + pages[1..];
      var first := PagePairs(pages[0], strategies);
      FilterAppend(first, AllPairs(pages[1..], strategies), ForPage(page.id));
      if pages[0].id == page.id {
        FilterAll(first, ForPage(page.id));
      } else {
        FilterNone(first, ForPage(page.id));
      }
    }
  }

  /** A page's pairs are dispatched in the order of the scope's strategies, one for each. */
  lemma StrategiesTakeTurns(db: Db, site: SiteId, scope: RunScope, retried: RunId, page: PageRow)
    requires !scope.kind.Retry? && DistinctIds(db.pages) && page in db.pages && Selects(scope, site)(page)
    ensures var own := Filter(ExpandScope(db, site, scope, retried), ForPage(page.id));
      && |own| == |scope.strategies|
      && forall j :: 0 <= j < |own| ==> own[j] == AuditPair(page.id, page.url, scope.strategies[j])
  {
    SelectedKeepIds(db.pages, Selects(scope, site));
    SameMembers(Filter(db.pages, Selects(scope, site)), SweepOrder);
    AllPairsOfPage(Sort(Filter(db.pages, Selects(scope, site)), SweepOrder), scope.strategies, page);
  }

  lemma ParsedStrategiesAreDistinct(scopeLabel: Option<string>)
    ensures Distinct(ParseScopeLabel(scopeLabel).strategies)
  {
    ParsedIsRepresentable(scopeLabel);
  }

  lemma ReplannedIsDistinct(db: Db, run: Run)
    requires DistinctIds(db.pages) && OneRowPerPair(db.results)
    ensures DistinctPlan(Replanned(db, run))
  {
    ParsedStrategiesAreDistinct(Some(run.scopeLabel));
    ExpandScopeIsDistinct(db, run.site, ParseScopeLabel(Some(run.scopeLabel)), 0);
  }

  // -------------------------------------------------------------------------------------------
  // One resume
  // -------------------------------------------------------------------------------------------

  /** Keys are as good as pairs: neither strategy's name has a blank in it. */
  lemma PairKeyIsInjective(p: PageId, s: Strategy, q: PageId, t: Strategy)
    requires PairKey(p, s) == PairKey(q, t)
    ensures p == q && s == t
  {
    var k := PairKey(p, s);
    assert k[|k| - 2] == StrategyName(s)[|StrategyName(s)| - 2];
    assert k[|k| - 2] == StrategyName(t)[|StrategyName(t)| - 2];
    assert s == t;
    assert p == k[..|p|] && q == k[..|p|];
  }

  function Owed(done: set<(PageId, Strategy)>): AuditPair -> bool {
    (p: AuditPair) => (p.pageId, p.strategy) !in done
  }

  function Paid(done: set<(PageId, Strategy)>): AuditPair -> bool {
    (p: AuditPair) => (p.pageId, p.strategy) in done
  }

  /** The dispatched pairs are those of the scope without a row, in scope order. */
  lemma MissingIsExact(expected: seq<AuditPair>, existing: seq<ResultRow>)
    ensures DiffMissingPairs(expected, existing) == Filter(expected, Owed(PairsOf(existing)))
  {
    forall p: AuditPair ensures NotIn(KeysOf(existing))(p) == Owed(PairsOf(existing))(p) {
      if PairKey(p.pageId, p.strategy) in KeysOf(existing) {
        var r :| r in existing && PairKey(r.page, r.strategy) == PairKey(p.pageId, p.strategy);
        PairKeyIsInjective(r.page, r.strategy, p.pageId, p.strategy);
      }
      if (p.pageId, p.strategy) in PairsOf(existing) {
        var r :| r in existing && (r.page, r.strategy) == (p.pageId, p.strategy);
        assert PairKey(r.page, r.strategy) in KeysOf(existing);
      }
    }
    FilterAgree(expected, NotIn(KeysOf(existing)), Owed(PairsOf(existing)));
  }

  /** How many pairs of the scope are still owed. */
  lemma MissingCount(expected: seq<AuditPair>, existing: seq<ResultRow>)
    requires DistinctPlan(expected)
    ensures DistinctPlan(DiffMissingPairs(expected, existing))
    ensures PlanPairs(DiffMissingPairs(expected, existing)) == PlanPairs(expected) - PairsOf(existing)
    ensures |DiffMissingPairs(expected, existing)| + |PlanPairs(expected) * PairsOf(existing)| == |expected|
  {
    var done := PairsOf(existing);
    MissingIsExact(expected, existing);
    FilterPlan(expected, Owed(done));
    FilterPlan(expected, Paid(done));
    PlanCount(Filter(expected, Paid(done)));
    assert PlanPairs(Filter(expected, Paid(done))) == PlanPairs(expected) * done;
    FilterSplit(expected, Owed(done), Paid(done));
  }

  /**
   * A resume that is not refused never enlarges the run, dispatches no more than it commits to,
   * and recording what it dispatched is enough to finish.
   */
  lemma ResumeNeverGrows(run: Run, expanded: seq<AuditPair>, existing: seq<ResultRow>, id: RunId, now: int)
    requires DistinctPlan(expanded) && OneRowPerPair(existing) && forall r :: r in existing ==> r.run == id
    ensures var after := ResumedRun(run, expanded, existing, now); var sent := Dispatched(run, expanded, existing);
      && after.totalJobs <= run.totalJobs
      && (sent.None? ==> after == run.(status := Failed, finishedAt := after.finishedAt, error := after.error))
      && (sent.Some? ==> after.status == Running && after.completedJobs == |existing|)
      && (sent.Some? ==> |sent.value| <= after.totalJobs <= |existing| + |sent.value|)
  {
    MissingCount(expanded, existing);
    PairsCount(existing, id);
    SubsetSize(PlanPairs(expanded) * PairsOf(existing), PairsOf(existing));
  }
}
