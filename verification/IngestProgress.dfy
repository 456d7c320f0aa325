/** How far the upsert loop of an ingest has come (lib/services/ingest.service.ts). */
module IngestProgress {
  import opened Sequences
  import opened NormalizeUrl
  import opened Dedupe
  import opened Grouping
  import opened Ingest

  /** The counters of an ingest. */
  datatype IngestSummary = IngestSummary(
    discovered: nat, created: nat, updated: nat, reactivated: nat, deactivated: nat, regrouped: nat, groupsCreated: nat)
  {
    function Count(isNew: bool, wasActive: bool, wasInactive: bool, leaves: bool): IngestSummary {
      this.(created := created + (if isNew then 1 else 0),
            updated := updated + (if wasActive then 1 else 0),
            reactivated := reactivated + (if wasInactive then 1 else 0),
            regrouped := regrouped + (if leaves then 1 else 0))
    }
  }

  predicate IsNew(s: Grouping.Site, u: Url) {
    u !in s.pages
  }

  predicate WasActive(s: Grouping.Site, u: Url) {
    u in s.pages && s.pages[u].isActive
  }

  predicate WasInactive(s: Grouping.Site, u: Url) {
    u in s.pages && !s.pages[u].isActive
  }

  /** A known page that nobody moved and that its path leads out of its group. */
  predicate Leaves(d: Derive, s: Grouping.Site, u: Url) {
    u in s.pages && !s.pages[u].isManuallyGrouped && s.pages[u].group != Resolve(s, d.slugOf(u.pathname))
  }

  ghost function GoneFrom(pages: map<Url, Page>, urls: seq<Url>): set<Url> {
    set u | u in pages && pages[u].isActive && u !in urls
  }

  function NewTo(s: Grouping.Site): Url -> bool {
    (u: Url) => IsNew(s, u)
  }

  function ActiveIn(s: Grouping.Site): Url -> bool {
    (u: Url) => WasActive(s, u)
  }

  function InactiveIn(s: Grouping.Site): Url -> bool {
    (u: Url) => WasInactive(s, u)
  }

  function LeavesIn(d: Derive, s: Grouping.Site): Url -> bool {
    (u: Url) => Leaves(d, s, u)
  }

  ghost function Those(urls: seq<Url>, p: Url -> bool): set<Url> {
    set u | u in urls && p(u)
  }

  /** The counters once these URLs are in; w is the state once the groups exist. */
  ghost function Progress(
    d: Derive, w: Grouping.Site, urls: seq<Url>, discovered: nat, groupsCreated: nat): IngestSummary
  {
    IngestSummary(
      discovered, |Those(urls, NewTo(w))|, |Those(urls, ActiveIn(w))|, |Those(urls, InactiveIn(w))|,
      0, |Those(urls, LeavesIn(d, w))|, groupsCreated)
  }

  /** The counters of an ingest, read off the rows before it. */
  ghost function SummaryOf(d: Derive, s: Grouping.Site, found: seq<Found>): IngestSummary {
    var urls := UrlsOf(found);
    var w := WithGroups(d, s, SlugsOf(d, urls));
    Progress(d, w, urls, |found|, w.nextId - s.nextId).(deactivated := |GoneFrom(s.pages, urls)|)
  }

  lemma ThoseNext(urls: seq<Url>, k: nat, p: Url -> bool)
    requires k < |urls| && urls[k] !in urls[..k]
    ensures |Those(urls[..k + 1], p)| == |Those(urls[..k], p)| + if p(urls[k]) then 1 else 0
  {
    assert urls[..k + 1] == urls[..k] + [urls[k]];
    assert Those(urls[..k + 1], p) == Those(urls[..k], p) + if p(urls[k]) then {urls[k]} else {};
  }

  lemma ProgressNext(d: Derive, w: Grouping.Site, urls: seq<Url>, k: nat, discovered: nat, groupsCreated: nat)
    requires k < |urls| && urls[k] !in urls[..k]
    ensures var u := urls[k];
      Progress(d, w, urls[..k + 1], discovered, groupsCreated)
      == Progress(d, w, urls[..k], discovered, groupsCreated).Count(
           IsNew(w, u), WasActive(w, u), WasInactive(w, u), Leaves(d, w, u))
  {
    ThoseNext(urls, k, NewTo(w));
    ThoseNext(urls, k, ActiveIn(w));
    ThoseNext(urls, k, InactiveIn(w));
    ThoseNext(urls, k, LeavesIn(d, w));
  }

  lemma ListedSets(d: Derive, s: Grouping.Site, w: Grouping.Site, urls: seq<Url>)
    requires w.pages == s.pages
    ensures Those(urls, NewTo(w)) == set u | u in urls && u !in s.pages
    ensures Those(urls, ActiveIn(w)) == set u | u in urls && u in s.pages && s.pages[u].isActive
    ensures Those(urls, InactiveIn(w)) == set u | u in urls && u in s.pages && !s.pages[u].isActive
  {
  }

  lemma MovedSets(d: Derive, dateOf: DateParser, w: Grouping.Site, found: seq<Found>, pages: map<Url, Page>)
    requires pages == PagesAfter(d, dateOf, w, found, w.pages)
    ensures GoneFrom(w.pages, UrlsOf(found))
         == set u | u in w.pages && w.pages[u].isActive && !(u in pages && pages[u].isActive)
    ensures Those(UrlsOf(found), LeavesIn(d, w))
         == set u | u in w.pages && u in pages && pages[u].group != w.pages[u].group
  {
  }

  /** The counters, told by the rows before and after. */
  lemma SummaryIs(d: Derive, dateOf: DateParser, s: Grouping.Site, found: seq<Found>)
    requires Indexed(s)
    ensures var t, sum, urls := Ingested(d, dateOf, s, found), SummaryOf(d, s, found), UrlsOf(found);
      && sum.discovered == |found|
      && sum.created == |set u | u in urls && u !in s.pages|
      && sum.updated == |set u | u in urls && u in s.pages && s.pages[u].isActive|
      && sum.reactivated == |set u | u in urls && u in s.pages && !s.pages[u].isActive|
      && sum.deactivated == |set u | u in s.pages && s.pages[u].isActive && !(u in t.pages && t.pages[u].isActive)|
      && sum.regrouped == |set u | u in s.pages && u in t.pages && t.pages[u].group != s.pages[u].group|
      && sum.groupsCreated == |t.groups| - |s.groups|
  {
    var urls := UrlsOf(found);
    var w := WithGroups(d, s, SlugsOf(d, urls));
    NewGroupsAre(d, s, SlugsOf(d, urls), 0);
    WithGroupsResolve(d, s, SlugsOf(d, urls), "");
    ListedSets(d, s, w, urls);
    MovedSets(d, dateOf, w, found, Ingested(d, dateOf, s, found).pages);
  }

  /** The first k entries are for different URLs, and each has a group to go to. */
  ghost predicate Ready(d: Derive, w: Grouping.Site, found: seq<Found>, k: nat)
    requires k <= |found|
  {
    k == 0
    || (Ready(d, w, found, k - 1)
        && Resolve(w, d.slugOf(found[k - 1].url.pathname)).Some?
        && found[k - 1].url !in UrlsOf(found)[..k - 1])
  }

  lemma {:induction false} ReadyAt(d: Derive, w: Grouping.Site, found: seq<Found>, k: nat, i: nat)
    requires i < k <= |found| && Ready(d, w, found, k)
    ensures Ready(d, w, found, i)
    ensures Resolve(w, d.slugOf(found[i].url.pathname)).Some? && found[i].url !in UrlsOf(found)[..i]
  {
    if i < k - 1 {
      ReadyAt(d, w, found, k - 1, i);
    }
  }

  /** Creating the missing groups makes the entries ready. */
  lemma {:induction false} GroupsAreReady(d: Derive, s: Grouping.Site, found: seq<Found>, k: nat)
    requires k <= |found| && Distinct(UrlsOf(found))
    ensures Ready(d, WithGroups(d, s, SlugsOf(d, UrlsOf(found))), found, k)
  {
    if k > 0 {
      var urls := UrlsOf(found);
      GroupsAreReady(d, s, found, k - 1);
      WithGroupsResolve(d, s, SlugsOf(d, urls), d.slugOf(urls[k - 1].pathname));
      assert urls[k - 1] == found[k - 1].url;
      SlugIsNeeded(d, urls, urls[k - 1]);
    }
  }

  ghost function EntryListing(d: Derive, dateOf: DateParser, w: Grouping.Site, found: seq<Found>, k: nat): Listing
    requires k < |found|
  {
    Listing(ValidLastmod(dateOf, found[k].lastmod), k, Resolve(w, d.slugOf(found[k].url.pathname)))
  }

  /** The page rows after the first k entries. */
  ghost function PagesUpTo(d: Derive, dateOf: DateParser, w: Grouping.Site, found: seq<Found>, k: nat): map<Url, Page>
    requires k <= |found|
  {
    if k == 0 then w.pages
    else
      var u := found[k - 1].url;
      PagesUpTo(d, dateOf, w, found, k - 1)[u := Upserted(w.pages, u, EntryListing(d, dateOf, w, found, k - 1))]
  }

  lemma {:induction false} IndexIsFirst(urls: seq<Url>, k: nat)
    requires k < |urls| && urls[k] !in urls[..k]
    ensures IndexOf(urls, urls[k]) == k
  {
    if k > 0 {
      assert urls[0] in urls[..k];
      assert urls[1..][..k - 1] == urls[..k][1..];
      IndexIsFirst(urls[1..], k - 1);
    }
  }

  /** What the loop has left at a URL: the page as the sitemap lists it, or what was there before. */
  lemma {:induction false} UpsertedSoFar(
    d: Derive, dateOf: DateParser, w: Grouping.Site, found: seq<Found>, k: nat, u: Url)
    requires k <= |found| && Ready(d, w, found, k)
    ensures var pages, urls := PagesUpTo(d, dateOf, w, found, k), UrlsOf(found);
      && (u in pages <==> u in w.pages || u in urls[..k])
      && (u in pages ==>
            pages[u] == if u in urls[..k] then Upserted(w.pages, u, ListingOf(d, dateOf, w, found, u)) else w.pages[u])
  {
    if k > 0 {
      var urls := UrlsOf(found);
      UpsertedSoFar(d, dateOf, w, found, k - 1, u);
      IndexIsFirst(urls, k - 1);
      assert urls[..k] == urls[..k - 1] + [urls[k - 1]];
    }
  }

  /** The loop meets each URL once, so it finds what was there at the start. */
  lemma UpsertNext(d: Derive, dateOf: DateParser, w: Grouping.Site, found: seq<Found>, k: nat)
    requires k < |found| && Ready(d, w, found, |found|)
    ensures var u, pages := found[k].url, PagesUpTo(d, dateOf, w, found, k);
      && Resolve(w, d.slugOf(u.pathname)).Some?
      && (u in pages <==> u in w.pages)
      && (u in pages ==> pages[u] == w.pages[u])
  {
    ReadyAt(d, w, found, |found|, k);
    UpsertedSoFar(d, dateOf, w, found, k, found[k].url);
  }

  /** Between the loop and the switching off. */
  ghost predicate UpsertsDone(
    d: Derive, dateOf: DateParser, w: Grouping.Site, found: seq<Found>, pages: map<Url, Page>)
  {
    && (forall u :: u in pages <==> u in w.pages || u in UrlsOf(found))
    && (forall u :: u in pages ==>
          pages[u]
          == if u in UrlsOf(found) then Upserted(w.pages, u, ListingOf(d, dateOf, w, found, u)) else w.pages[u])
  }

  lemma AllUpserted(d: Derive, dateOf: DateParser, w: Grouping.Site, found: seq<Found>)
    requires Ready(d, w, found, |found|)
    ensures UpsertsDone(d, dateOf, w, found, PagesUpTo(d, dateOf, w, found, |found|))
  {
    var pages, urls := PagesUpTo(d, dateOf, w, found, |found|), UrlsOf(found);
    assert urls[..|found|] == urls;
    forall u ensures
      && (u in pages <==> u in w.pages || u in urls)
      && (u in pages ==>
            pages[u] == if u in urls then Upserted(w.pages, u, ListingOf(d, dateOf, w, found, u)) else w.pages[u])
    {
      UpsertedSoFar(d, dateOf, w, found, |found|, u);
    }
  }

  lemma SameGone(d: Derive, dateOf: DateParser, w: Grouping.Site, found: seq<Found>, pages: map<Url, Page>)
    requires UpsertsDone(d, dateOf, w, found, pages)
    ensures GoneFrom(pages, UrlsOf(found)) == GoneFrom(w.pages, UrlsOf(found))
  {
  }

  ghost function SwitchedOff(pages: map<Url, Page>, urls: seq<Url>): map<Url, Page> {
    map u | u in pages :: if u in GoneFrom(pages, urls) then pages[u].(isActive := false) else pages[u]
  }

  /** Switching off what the sitemap does not list completes the ingest. */
  lemma UpsertEnd(d: Derive, dateOf: DateParser, w: Grouping.Site, found: seq<Found>, pages: map<Url, Page>)
    requires UpsertsDone(d, dateOf, w, found, pages)
    ensures SwitchedOff(pages, UrlsOf(found)) == PagesAfter(d, dateOf, w, found, w.pages)
  {
  }

  /** The loop and then the switching off give the page rows of an ingest. */
  lemma RowsEnd(d: Derive, dateOf: DateParser, w: Grouping.Site, found: seq<Found>)
    requires Ready(d, w, found, |found|)
    ensures var pages := PagesUpTo(d, dateOf, w, found, |found|);
      && SwitchedOff(pages, UrlsOf(found)) == PagesAfter(d, dateOf, w, found, w.pages)
      && GoneFrom(pages, UrlsOf(found)) == GoneFrom(w.pages, UrlsOf(found))
  {
    var pages := PagesUpTo(d, dateOf, w, found, |found|);
    AllUpserted(d, dateOf, w, found);
    SameGone(d, dateOf, w, found, pages);
    UpsertEnd(d, dateOf, w, found, pages);
  }

  lemma WithGroupsPages(d: Derive, s: Grouping.Site, slugs: seq<Slug>)
    ensures WithGroups(d, s, slugs).pages == s.pages
  {
  }

  /** Every page of the sitemap is counted once, as created, updated or reactivated. */
  lemma SummaryAddsUp(d: Derive, s: Grouping.Site, found: seq<Found>)
    requires Distinct(UrlsOf(found))
    ensures var r := SummaryOf(d, s, found); r.created + r.updated + r.reactivated == r.discovered == |found|
  {
    var urls := UrlsOf(found);
    ThreeKinds(WithGroups(d, s, SlugsOf(d, urls)), urls);
    DistinctSize(urls);
  }

  lemma ThreeKinds(w: Grouping.Site, urls: seq<Url>)
    ensures |Those(urls, NewTo(w))| + |Those(urls, ActiveIn(w))| + |Those(urls, InactiveIn(w))| == |Elems(urls)|
  {
    var added, active, inactive := Those(urls, NewTo(w)), Those(urls, ActiveIn(w)), Those(urls, InactiveIn(w));
    forall u ensures u in Elems(urls) <==> u in added || u in active || u in inactive {
    }
    DisjointSizes(Elems(urls), added, active, inactive);
  }

  lemma DisjointSizes(whole: set<Url>, a: set<Url>, b: set<Url>, c: set<Url>)
    requires forall u :: u in whole <==> u in a || u in b || u in c
    requires a !! b && a !! c && b !! c
    ensures |a| + |b| + |c| == |whole|
  {
    assert whole == a + b + c;
  }

  /** Where the grouping is consistent an ingest reports no page as regrouped. */
  lemma ConsistentRegroupsNothing(d: Derive, s: Grouping.Site, found: seq<Found>)
    requires Consistent(d, s)
    ensures SummaryOf(d, s, found).regrouped == 0
  {
    var urls := UrlsOf(found);
    var w := WithGroups(d, s, SlugsOf(d, urls));
    WithGroupsAdds(d, s, SlugsOf(d, urls));
    ExtendsKeepsPlaces(d, s, w);
    forall u ensures !Leaves(d, w, u) {
      if u in w.pages && !w.pages[u].isManuallyGrouped {
        assert Automatic(w, u);
      }
    }
    assert Those(urls, LeavesIn(d, w)) == {};
  }
}
