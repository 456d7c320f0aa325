/** From a sitemap URL to page rows: crawl, normalize and dedupe, ingest (lib/services/ingest.service.ts). */
module SitemapPipeline {
  import opened Sequences
  import opened Crawl
  import NormalizeUrl
  import Dedupe
  import Grouping
  import Ingest
  import IngestProgress
  import SiteStore

  /** Some document the root leads to lists an entry that is this page. */
  ghost predicate ListedBy(web: Web, root: Url, norm: Dedupe.Normalizer, page: NormalizeUrl.Url, doc: Url, e: Entry) {
    && Reachable(web, root, doc) && web(doc).UrlSet? && (Some(e.loc), e.lastmod) in web(doc).urls
    && e.loc != "" && norm(e.loc) == NormalizeUrl.Accepted(page)
  }

  ghost predicate InSitemap(web: Web, root: Url, norm: Dedupe.Normalizer, page: NormalizeUrl.Url) {
    exists doc, e :: ListedBy(web, root, norm, page, doc, e)
  }

  lemma {:induction false} EntriesOfMember(web: Web, urls: seq<Url>, e: Entry)
    ensures e in EntriesOf(web, urls) <==> exists u :: u in urls && e in EntriesIn(web(u))
  {
    if |urls| > 0 {
      var n := |urls| - 1;
      EntriesOfMember(web, urls[..n], e);
      assert urls == urls[..n] + [urls[n]];
    }
  }

  lemma {:induction false} AcceptedMember(norm: Dedupe.Normalizer, entries: seq<Entry>, page: NormalizeUrl.Url)
    ensures page in Dedupe.AcceptedUrls(norm, entries)
      <==> exists e :: e in entries && norm(e.loc) == NormalizeUrl.Accepted(page)
  {
    if |entries| > 0 {
      var n := |entries| - 1;
      AcceptedMember(norm, entries[..n], page);
      assert entries == entries[..n] + [entries[n]];
    }
  }

  /** A complete crawl accepts exactly the pages in the sitemap. */
  lemma AcceptedIsInSitemap(web: Web, lim: Limits, root: Url, norm: Dedupe.Normalizer, page: NormalizeUrl.Url)
    requires Complete(web, root, CrawlSitemap(web, lim, root))
    ensures page in Dedupe.AcceptedUrls(norm, CrawlSitemap(web, lim, root).entries)
      <==> InSitemap(web, root, norm, page)
  {
    var s := CrawlSitemap(web, lim, root);
    CrawlAccounts(web, lim, root);
    AcceptedMember(norm, s.entries, page);
    if page in Dedupe.AcceptedUrls(norm, s.entries) {
      var e :| e in s.entries && norm(e.loc) == NormalizeUrl.Accepted(page);
      EntriesOfMember(web, s.visited, e);
      var doc :| doc in s.visited && e in EntriesIn(web(doc));
      EntriesAre(web(doc), e);
      assert ListedBy(web, root, norm, page, doc, e);
    }
    if InSitemap(web, root, norm, page) {
      var doc, e :| ListedBy(web, root, norm, page, doc, e);
      EntriesOfMember(web, s.visited, e);
      EntriesAre(web(doc), e);
      assert doc in s.visited;
    }
  }

  ghost predicate IsActive(s: Grouping.Site, page: NormalizeUrl.Url) {
    page in s.pages && s.pages[page].isActive
  }

  /**
   * crawlSitemap, normalizeAndDedupe and the writes of ingestSitemap, in a row. Whatever the crawl met,
   * the site's active pages are those it accepted; if the crawl was complete they are exactly the pages
   * that some document the root leads to lists, and no page has been removed.
   */
  method IngestFrom(
    web: Web, lim: Limits, root: Url, site: Dedupe.Site, d: Grouping.Derive, dateOf: Ingest.DateParser,
    batchSize: nat, tables: SiteStore.SiteTables)
    returns (summary: IngestProgress.IngestSummary)
    requires batchSize > 0
    modifies tables
    ensures old(tables.pages.Keys) <= tables.pages.Keys
    ensures forall page :: IsActive(tables.Contents(), page) <==>
      page in Dedupe.AcceptedUrls(Dedupe.NormalizerOf(site), CrawlSitemap(web, lim, root).entries)
    ensures Complete(web, root, CrawlSitemap(web, lim, root)) ==> forall page ::
      IsActive(tables.Contents(), page) <==> InSitemap(web, root, Dedupe.NormalizerOf(site), page)
    ensures summary.created + summary.updated + summary.reactivated == summary.discovered
  {
    var crawler := new Crawler(web, lim);
    crawler.CrawlFrom(root, 0);
    ghost var entries := CrawlSitemap(web, lim, root).entries;
    var deduped := Dedupe.NormalizeAndDedupe(crawler.entries, site);
    ghost var norm := Dedupe.NormalizerOf(site);
    Dedupe.FirstAppearancesMembers(Dedupe.AcceptedUrls(norm, entries));
    summary := tables.IngestSitemap(d, dateOf, deduped.urls, batchSize);
    IngestProgress.SummaryAddsUp(d, old(tables.Contents()), deduped.urls);
    Ingest.IngestIsConservative(d, dateOf, old(tables.Contents()), deduped.urls);
    if Complete(web, root, CrawlSitemap(web, lim, root)) {
      forall page ensures page in Dedupe.AcceptedUrls(norm, entries) <==> InSitemap(web, root, norm, page) {
        AcceptedIsInSitemap(web, lim, root, norm, page);
      }
    }
  }

  /** A root that cannot be fetched reads as an empty sitemap: every page of the site is switched off. */
  lemma UnreachableRootEmptiesSite(
    web: Web, lim: Limits, root: Url, norm: Dedupe.Normalizer, d: Grouping.Derive, dateOf: Ingest.DateParser,
    s: Grouping.Site, found: seq<Dedupe.Found>)
    requires web(root).Unreachable? && lim.maxDocuments > 0
    requires Dedupe.UrlsOf(found)
          == Dedupe.FirstAppearances(Dedupe.AcceptedUrls(norm, CrawlSitemap(web, lim, root).entries))
    ensures forall page :: !IsActive(Ingest.Ingested(d, dateOf, s, found), page)
    ensures Ingest.Ingested(d, dateOf, s, found).pages.Keys == s.pages.Keys
  {
    var t := Took(NOTHING, root, web(root));
    assert Children(web(root)) == [] && VisitAll(web, lim, t, [], 1) == t;
    assert CrawlSitemap(web, lim, root) == t;
    assert CrawlSitemap(web, lim, root).entries == [];
    assert Dedupe.UrlsOf(found) == [];
    Ingest.IngestIsConservative(d, dateOf, s, found);
  }
}
