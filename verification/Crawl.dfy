/**
 * Fetching a sitemap and the indexes it points at (lib/sitemap/fetch.ts), one document at a time.
 */
module Crawl {
  import opened Sequences

  type Url = string

  datatype Entry = Entry(loc: Url, lastmod: Option<string>)

  /** What a URL holds. The texts are those of the loc elements, if they have one. */
  datatype Document =
    | Unreachable(message: string)
    | Unparseable(message: string)
    | SitemapIndex(sitemaps: seq<Option<string>>)
    | UrlSet(urls: seq<(Option<string>, Option<string>)>)
    | Neither

  datatype CrawlError = CrawlError(url: Url, what: Document)

  type Web = Url -> Document

  datatype Limits = Limits(maxDepth: nat, maxDocuments: nat)

  /** The crawl's variables, and the URLs it turned away: below maxDepth, or after maxDocuments. */
  datatype Progress = Progress(
    visited: seq<Url>, entries: seq<Entry>, errors: seq<CrawlError>, documentsFetched: nat, truncated: bool,
    tooDeep: seq<Url>, overBudget: seq<Url>)

  // -------------------------------------------------------------------------------------------
  // One document
  // -------------------------------------------------------------------------------------------

  /** The non-empty locs of an index. */
  function Locs(sitemaps: seq<Option<string>>): seq<Url> {
    if |sitemaps| == 0 then []
    else if sitemaps[0].GetOr("") != "" then [sitemaps[0].value] + Locs(sitemaps[1..])
    else Locs(sitemaps[1..])
  }

  function PageEntries(urls: seq<(Option<string>, Option<string>)>): seq<Entry> {
    if |urls| == 0 then []
    else
      var n := |urls| - 1;
      PageEntries(urls[..n]) + if urls[n].0.GetOr("") != "" then [Entry(urls[n].0.value, urls[n].1)] else []
  }

  function Children(doc: Document): seq<Url> {
    if doc.SitemapIndex? then Locs(doc.sitemaps) else []
  }

  function EntriesIn(doc: Document): seq<Entry> {
    if doc.UrlSet? then PageEntries(doc.urls) else []
  }

  type UrlElement = (Option<string>, Option<string>)

  function HasLoc(): UrlElement -> bool {
    (u: UrlElement) => u.0.GetOr("") != ""
  }

  function HasText(): Option<string> -> bool {
    (loc: Option<string>) => loc.GetOr("") != ""
  }

  lemma {:induction false} PageEntriesAre(urls: seq<UrlElement>)
    ensures var kept := Filter(urls, HasLoc());
      && |PageEntries(urls)| == |kept|
      && forall i :: 0 <= i < |kept| ==> PageEntries(urls)[i] == Entry(kept[i].0.GetOr(""), kept[i].1)
  {
    if |urls| > 0 {
      var n := |urls| - 1;
      PageEntriesAre(urls[..n]);
      FilterNext(urls, n, HasLoc());
      assert urls[..n + 1] == urls;
    }
  }

  /**
   * The entries of a urlset are its urls that have a loc with text in it, each as often as it stands there
   * and in that order, with whatever lastmod they have; no other document has any.
   */
  lemma EntriesAre(doc: Document, e: Entry)
    ensures e in EntriesIn(doc) <==> doc.UrlSet? && e.loc != "" && (Some(e.loc), e.lastmod) in doc.urls
    ensures doc.UrlSet? ==>
      var kept := Filter(doc.urls, HasLoc());
      && |EntriesIn(doc)| == |kept|
      && forall i :: 0 <= i < |kept| ==> EntriesIn(doc)[i] == Entry(kept[i].0.GetOr(""), kept[i].1)
  {
    if doc.UrlSet? {
      PageEntriesAre(doc.urls);
      EntryKept(PageEntries(doc.urls), Filter(doc.urls, HasLoc()), e);
    }
  }

  lemma EntryKept(entries: seq<Entry>, kept: seq<UrlElement>, e: Entry)
    requires |entries| == |kept| && forall u :: u in kept ==> u.0.GetOr("") != ""
    requires forall i :: 0 <= i < |kept| ==> entries[i] == Entry(kept[i].0.GetOr(""), kept[i].1)
    ensures e in entries <==> (Some(e.loc), e.lastmod) in kept
  {
    if e in entries {
      var i :| 0 <= i < |entries| && entries[i] == e;
      assert kept[i] in kept;
    }
    if (Some(e.loc), e.lastmod) in kept {
      var i :| 0 <= i < |kept| && kept[i] == (Some(e.loc), e.lastmod);
      assert entries[i] == e;
    }
  }

  lemma {:induction false} LocsAre(sitemaps: seq<Option<string>>)
    ensures var kept := Filter(sitemaps, HasText());
      && |Locs(sitemaps)| == |kept|
      && forall i :: 0 <= i < |kept| ==> Some(Locs(sitemaps)[i]) == kept[i]
  {
    if |sitemaps| > 0 {
      LocsAre(sitemaps[1..]);
    }
  }

  /** The children of an index are its locs with text in them, in that order; no other document has any. */
  lemma ChildrenAre(doc: Document, child: Url)
    ensures child in Children(doc) <==> doc.SitemapIndex? && child != "" && Some(child) in doc.sitemaps
    ensures doc.SitemapIndex? ==>
      var kept := Filter(doc.sitemaps, HasText());
      && |Children(doc)| == |kept|
      && forall i :: 0 <= i < |kept| ==> Some(Children(doc)[i]) == kept[i]
  {
    if doc.SitemapIndex? {
      LocsAre(doc.sitemaps);
      ChildKept(Locs(doc.sitemaps), Filter(doc.sitemaps, HasText()), child);
    }
  }

  lemma ChildKept(locs: seq<Url>, kept: seq<Option<string>>, child: Url)
    requires |locs| == |kept| && forall i :: 0 <= i < |kept| ==> Some(locs[i]) == kept[i]
    ensures child in locs <==> Some(child) in kept
  {
    if Some(child) in kept {
      var i :| 0 <= i < |kept| && kept[i] == Some(child);
      assert locs[i] == child;
    }
  }

  function ErrorsIn(url: Url, doc: Document): seq<CrawlError> {
    if doc.Unreachable? || doc.Unparseable? || doc.Neither? then [CrawlError(url, doc)] else []
  }

  function Took(s: Progress, url: Url, doc: Document): Progress {
    s.(visited := s.visited + [url],
       entries := s.entries + EntriesIn(doc),
       errors := s.errors + ErrorsIn(url, doc),
       documentsFetched := s.documentsFetched + if doc.Unreachable? then 0 else 1)
  }

  // -------------------------------------------------------------------------------------------
  // The crawl
  // -------------------------------------------------------------------------------------------

  function Below(lim: Limits, depth: nat): nat {
    if depth > lim.maxDepth then 0 else lim.maxDepth + 1 - depth
  }

  function Visit(web: Web, lim: Limits, s: Progress, url: Url, depth: nat): Progress
    decreases Below(lim, depth), 0
  {
    if depth > lim.maxDepth then s.(tooDeep := s.tooDeep + [url])
    else if url in s.visited then s
    else if s.documentsFetched >= lim.maxDocuments then s.(truncated := true, overBudget := s.overBudget + [url])
    else VisitAll(web, lim, Took(s, url, web(url)), Children(web(url)), depth + 1)
  }

  function VisitAll(web: Web, lim: Limits, s: Progress, urls: seq<Url>, depth: nat): Progress
    decreases Below(lim, depth), |urls| + 1
  {
    if |urls| == 0 then s
    else
      var n := |urls| - 1;
      Visit(web, lim, VisitAll(web, lim, s, urls[..n], depth), urls[n], depth)
  }

  const NOTHING := Progress([], [], [], 0, false, [], [])

  function CrawlSitemap(web: Web, lim: Limits, root: Url): Progress {
    Visit(web, lim, NOTHING, root, 0)
  }

  class Crawler {
    const web: Web
    const lim: Limits
    var visited: seq<Url>
    var entries: seq<Entry>
    var errors: seq<CrawlError>
    var documentsFetched: nat
    var truncated: bool
    ghost var tooDeep: seq<Url>
    ghost var overBudget: seq<Url>

    constructor (web: Web, lim: Limits)
      ensures this.web == web && this.lim == lim && Contents() == NOTHING
    {
      this.web, this.lim := web, lim;
      visited, entries, errors, documentsFetched, truncated := [], [], [], 0, false;
      tooDeep, overBudget := [], [];
    }

    ghost function Contents(): Progress
      reads this
    {
      Progress(visited, entries, errors, documentsFetched, truncated, tooDeep, overBudget)
    }

    method CrawlFrom(url: Url, depth: nat)
      modifies this
      ensures Contents() == Visit(web, lim, old(Contents()), url, depth)
      decreases Below(lim, depth)
    {
      if depth > lim.maxDepth {
        tooDeep := tooDeep + [url];
        return;
      }
      if url in visited {
        return;
      }
      if documentsFetched >= lim.maxDocuments {
        truncated := true;
        overBudget := overBudget + [url];
        return;
      }
      visited := visited + [url];
      var doc := web(url);
      assert VisitAll(web, lim, Took(old(Contents()), url, doc), [], depth + 1) == Took(old(Contents()), url, doc);
      if doc.Unreachable? {
        errors := errors + [CrawlError(url, doc)];
        return;
      }
      documentsFetched := documentsFetched + 1;
      if doc.SitemapIndex? {
        var children := Locs(doc.sitemaps);
        ghost var before := Contents();
        assert before == Took(old(Contents()), url, doc);
        for i := 0 to |children|
          invariant Contents() == VisitAll(web, lim, before, children[..i], depth + 1)
        {
          assert children[..i + 1][..i] == children[..i];
          CrawlFrom(children[i], depth + 1);
        }
        assert children[..|children|] == children;
      } else if doc.UrlSet? {
        PushEntries(doc.urls);
      } else {
        errors := errors + [CrawlError(url, doc)];
      }
    }

    method PushEntries(urls: seq<(Option<string>, Option<string>)>)
      modifies this`entries
      ensures entries == old(entries) + PageEntries(urls)
    {
      for i := 0 to |urls|
        invariant entries == old(entries) + PageEntries(urls[..i])
      {
        assert urls[..i + 1][..i] == urls[..i];
        var loc := urls[i].0.GetOr("");
        if loc != "" {
          entries := entries + [Entry(loc, urls[i].1)];
        }
      }
      assert urls[..|urls|] == urls;
    }
  }

  // -------------------------------------------------------------------------------------------
  // Accounts: what the result holds, given which documents were visited
  // -------------------------------------------------------------------------------------------

  ghost function EntriesOf(web: Web, urls: seq<Url>): seq<Entry> {
    if |urls| == 0 then []
    else EntriesOf(web, urls[..|urls| - 1]) + EntriesIn(web(urls[|urls| - 1]))
  }

  ghost function ErrorsOf(web: Web, urls: seq<Url>): seq<CrawlError> {
    if |urls| == 0 then []
    else
      var url := urls[|urls| - 1];
      ErrorsOf(web, urls[..|urls| - 1]) + ErrorsIn(url, web(url))
  }

  ghost function FetchedOf(web: Web, urls: seq<Url>): nat {
    if |urls| == 0 then 0
    else FetchedOf(web, urls[..|urls| - 1]) + if web(urls[|urls| - 1]).Unreachable? then 0 else 1
  }

  /** No URL twice; the entries and errors are those of the visited documents, in order; within budget. */
  ghost predicate Accounts(web: Web, lim: Limits, s: Progress) {
    && Distinct(s.visited)
    && s.entries == EntriesOf(web, s.visited)
    && s.errors == ErrorsOf(web, s.visited)
    && s.documentsFetched == FetchedOf(web, s.visited) <= lim.maxDocuments
    && (s.truncated <==> s.overBudget != [])
    && (s.truncated ==> s.documentsFetched == lim.maxDocuments)
  }

  lemma TookAccounts(web: Web, lim: Limits, s: Progress, url: Url)
    requires Accounts(web, lim, s) && url !in s.visited && s.documentsFetched < lim.maxDocuments
    ensures Accounts(web, lim, Took(s, url, web(url)))
  {
  }

  lemma {:induction false} VisitAccounts(web: Web, lim: Limits, s: Progress, url: Url, depth: nat)
    requires Accounts(web, lim, s)
    ensures Accounts(web, lim, Visit(web, lim, s, url, depth))
    decreases Below(lim, depth), 0
  {
    if depth <= lim.maxDepth && url !in s.visited && s.documentsFetched < lim.maxDocuments {
      TookAccounts(web, lim, s, url);
      VisitAllAccounts(web, lim, Took(s, url, web(url)), Children(web(url)), depth + 1);
    }
  }

  lemma {:induction false} VisitAllAccounts(web: Web, lim: Limits, s: Progress, urls: seq<Url>, depth: nat)
    requires Accounts(web, lim, s)
    ensures Accounts(web, lim, VisitAll(web, lim, s, urls, depth))
    decreases Below(lim, depth), |urls| + 1
  {
    if |urls| > 0 {
      var n := |urls| - 1;
      VisitAllAccounts(web, lim, s, urls[..n], depth);
      VisitAccounts(web, lim, VisitAll(web, lim, s, urls[..n], depth), urls[n], depth);
    }
  }

  function Fails(web: Web): Url -> bool {
    (u: Url) => web(u).Unreachable? || web(u).Unparseable? || web(u).Neither?
  }

  function Answers(web: Web): Url -> bool {
    (u: Url) => !web(u).Unreachable?
  }

  /** One error for each visited document that cannot be fetched or read; the rest were fetched, unreadable or not. */
  lemma {:induction false} AccountsAre(web: Web, urls: seq<Url>)
    ensures var failed := Filter(urls, Fails(web));
      && |ErrorsOf(web, urls)| == |failed|
      && forall i :: 0 <= i < |failed| ==> ErrorsOf(web, urls)[i] == CrawlError(failed[i], web(failed[i]))
    ensures FetchedOf(web, urls) == |Filter(urls, Answers(web))|
  {
    if |urls| > 0 {
      var n := |urls| - 1;
      AccountsAre(web, urls[..n]);
      FilterNext(urls, n, Fails(web));
      FilterNext(urls, n, Answers(web));
      assert urls[..n + 1] == urls;
    }
  }

  /** What the crawl's documents were: one error for each that failed, one fetch for each that answered. */
  lemma CrawlReports(web: Web, lim: Limits, root: Url)
    ensures var s := CrawlSitemap(web, lim, root);
      && (forall url, what :: CrawlError(url, what) in s.errors <==>
            url in s.visited && what == web(url) && (what.Unreachable? || what.Unparseable? || what.Neither?))
      && |s.errors| == |Filter(s.visited, Fails(web))|
      && s.documentsFetched == |Filter(s.visited, Answers(web))| <= lim.maxDocuments
  {
    CrawlAccounts(web, lim, root);
    var s := CrawlSitemap(web, lim, root);
    AccountsAre(web, s.visited);
    var failed := Filter(s.visited, Fails(web));
    forall url, what ensures CrawlError(url, what) in s.errors <==> url in failed && what == web(url) {
      if CrawlError(url, what) in s.errors {
        var i :| 0 <= i < |s.errors| && s.errors[i] == CrawlError(url, what);
        assert failed[i] == url;
      }
      if url in failed {
        var i :| 0 <= i < |failed| && failed[i] == url;
        assert s.errors[i] == CrawlError(url, web(url));
      }
    }
  }

  lemma CrawlAccounts(web: Web, lim: Limits, root: Url)
    ensures Accounts(web, lim, CrawlSitemap(web, lim, root))
  {
    VisitAccounts(web, lim, NOTHING, root, 0);
  }

  // -------------------------------------------------------------------------------------------
  // Closure: a child of a visited document was visited or turned away
  // -------------------------------------------------------------------------------------------

  predicate Seen(s: Progress, url: Url) {
    url in s.visited || url in s.tooDeep || url in s.overBudget
  }

  ghost predicate Closed(web: Web, s: Progress, url: Url) {
    forall c :: c in Children(web(url)) ==> Seen(s, c)
  }

  /** From s to t nothing is forgotten, and documents new in t have all their children seen. */
  ghost predicate Completes(web: Web, s: Progress, t: Progress) {
    && (forall u :: u in s.visited ==> u in t.visited)
    && (forall u :: Seen(s, u) ==> Seen(t, u))
    && (forall u :: u in t.visited && u !in s.visited ==> Closed(web, t, u))
  }

  lemma CompletesTransitive(web: Web, s: Progress, t: Progress, u: Progress)
    requires Completes(web, s, t) && Completes(web, t, u)
    ensures Completes(web, s, u)
  {
  }

  lemma {:induction false} VisitCompletes(web: Web, lim: Limits, s: Progress, url: Url, depth: nat)
    ensures var t := Visit(web, lim, s, url, depth); Completes(web, s, t) && Seen(t, url)
    decreases Below(lim, depth), 0
  {
    if depth <= lim.maxDepth && url !in s.visited && s.documentsFetched < lim.maxDocuments {
      VisitAllCompletes(web, lim, Took(s, url, web(url)), Children(web(url)), depth + 1);
    }
  }

  lemma {:induction false} VisitAllCompletes(web: Web, lim: Limits, s: Progress, urls: seq<Url>, depth: nat)
    ensures var t := VisitAll(web, lim, s, urls, depth);
      Completes(web, s, t) && forall u :: u in urls ==> Seen(t, u)
    decreases Below(lim, depth), |urls| + 1
  {
    if |urls| > 0 {
      var n := |urls| - 1;
      var t := VisitAll(web, lim, s, urls[..n], depth);
      VisitAllCompletes(web, lim, s, urls[..n], depth);
      VisitCompletes(web, lim, t, urls[n], depth);
      CompletesTransitive(web, s, t, VisitAll(web, lim, s, urls, depth));
      assert urls == urls[..n] + [urls[n]];
    }
  }

  // -------------------------------------------------------------------------------------------
  // Reachability
  // -------------------------------------------------------------------------------------------

  /** Each URL after the first is listed by the one before it. */
  ghost predicate Path(web: Web, p: seq<Url>) {
    |p| > 0 && forall i :: 0 < i < |p| ==> p[i] in Children(web(p[i - 1]))
  }

  ghost predicate PathTo(web: Web, root: Url, url: Url, p: seq<Url>) {
    Path(web, p) && p[0] == root && p[|p| - 1] == url
  }

  ghost predicate Reachable(web: Web, root: Url, url: Url) {
    exists p :: PathTo(web, root, url, p)
  }

  lemma ReachableChild(web: Web, root: Url, url: Url, child: Url)
    requires Reachable(web, root, url) && child in Children(web(url))
    ensures Reachable(web, root, child)
  {
    var p :| PathTo(web, root, url, p);
    assert PathTo(web, root, child, p + [child]);
  }

  ghost predicate AllReachable(web: Web, root: Url, s: Progress) {
    forall u :: Seen(s, u) ==> Reachable(web, root, u)
  }

  lemma {:induction false} VisitReaches(web: Web, lim: Limits, root: Url, s: Progress, url: Url, depth: nat)
    requires AllReachable(web, root, s) && Reachable(web, root, url)
    ensures AllReachable(web, root, Visit(web, lim, s, url, depth))
    decreases Below(lim, depth), 0
  {
    if depth <= lim.maxDepth && url !in s.visited && s.documentsFetched < lim.maxDocuments {
      forall c | c in Children(web(url)) ensures Reachable(web, root, c) {
        ReachableChild(web, root, url, c);
      }
      VisitAllReaches(web, lim, root, Took(s, url, web(url)), Children(web(url)), depth + 1);
    }
  }

  lemma {:induction false} VisitAllReaches(
    web: Web, lim: Limits, root: Url, s: Progress, urls: seq<Url>, depth: nat)
    requires AllReachable(web, root, s) && forall u :: u in urls ==> Reachable(web, root, u)
    ensures AllReachable(web, root, VisitAll(web, lim, s, urls, depth))
    decreases Below(lim, depth), |urls| + 1
  {
    if |urls| > 0 {
      var n := |urls| - 1;
      VisitAllReaches(web, lim, root, s, urls[..n], depth);
      VisitReaches(web, lim, root, VisitAll(web, lim, s, urls[..n], depth), urls[n], depth);
    }
  }

  lemma CrawlReaches(web: Web, lim: Limits, root: Url)
    ensures AllReachable(web, root, CrawlSitemap(web, lim, root))
  {
    assert PathTo(web, root, root, [root]);
    VisitReaches(web, lim, root, NOTHING, root, 0);
  }

  /** Whatever was turned away was visited some other way. */
  ghost predicate NothingLost(s: Progress) {
    forall u :: u in s.tooDeep || u in s.overBudget ==> u in s.visited
  }

  ghost predicate Complete(web: Web, root: Url, s: Progress) {
    forall u :: u in s.visited <==> Reachable(web, root, u)
  }

  lemma {:induction false} PathStaysInside(web: Web, s: Progress, p: seq<Url>)
    requires Path(web, p) && p[0] in s.visited
    requires forall u, c :: u in s.visited && c in Children(web(u)) ==> c in s.visited
    ensures p[|p| - 1] in s.visited
    decreases |p|
  {
    if |p| > 1 {
      PathStaysInside(web, s, p[..|p| - 1]);
    }
  }

  /** The crawl visits exactly what the root leads to just when nothing it turned away was lost. */
  lemma CompleteIff(web: Web, lim: Limits, root: Url)
    ensures var s := CrawlSitemap(web, lim, root); Complete(web, root, s) <==> NothingLost(s)
  {
    var s := CrawlSitemap(web, lim, root);
    CrawlReaches(web, lim, root);
    VisitCompletes(web, lim, NOTHING, root, 0);
    if NothingLost(s) {
      forall u | Reachable(web, root, u) ensures u in s.visited {
        var p :| PathTo(web, root, u, p);
        PathStaysInside(web, s, p);
      }
    }
  }

  // -------------------------------------------------------------------------------------------
  // Webs the limits are large enough for
  // -------------------------------------------------------------------------------------------

  /** No path from the root without repetitions has more than maxDepth links. */
  ghost predicate Shallow(web: Web, lim: Limits, root: Url) {
    forall p :: Path(web, p) && p[0] == root && Distinct(p) ==> |p| <= lim.maxDepth + 1
  }

  /** The documents between the root and the one being fetched: a path without repetitions. */
  ghost predicate Stack(web: Web, root: Url, stack: seq<Url>, url: Url) {
    Path(web, stack + [url]) && (stack + [url])[0] == root && Distinct(stack)
  }

  ghost predicate Stacks(web: Web, root: Url, stack: seq<Url>, urls: seq<Url>) {
    |urls| == 0 || (Stacks(web, root, stack, urls[..|urls| - 1]) && Stack(web, root, stack, urls[|urls| - 1]))
  }

  lemma {:induction false} StacksAll(web: Web, root: Url, stack: seq<Url>, urls: seq<Url>)
    requires forall u :: u in urls ==> Stack(web, root, stack, u)
    ensures Stacks(web, root, stack, urls)
  {
    if |urls| > 0 {
      StacksAll(web, root, stack, urls[..|urls| - 1]);
    }
  }

  ghost predicate AllVisited(s: Progress, urls: seq<Url>) {
    forall u :: u in urls ==> u in s.visited
  }

  ghost predicate DeepIsVisited(s: Progress) {
    forall u :: u in s.tooDeep ==> u in s.visited
  }

  lemma StackGrows(web: Web, root: Url, stack: seq<Url>, url: Url)
    requires Stack(web, root, stack, url) && url !in stack
    ensures Stacks(web, root, stack + [url], Children(web(url)))
  {
    forall u | u in Children(web(url)) ensures Stack(web, root, stack + [url], u) {
    }
    StacksAll(web, root, stack + [url], Children(web(url)));
  }

  lemma TooDeepIsOnStack(web: Web, lim: Limits, root: Url, stack: seq<Url>, url: Url)
    requires Shallow(web, lim, root) && Stack(web, root, stack, url) && |stack| > lim.maxDepth
    ensures url in stack
  {
    assert Distinct(stack + [url]) || url in stack;
  }

  lemma StillVisited(web: Web, lim: Limits, s: Progress, urls: seq<Url>, depth: nat, stack: seq<Url>)
    requires AllVisited(s, stack)
    ensures AllVisited(VisitAll(web, lim, s, urls, depth), stack)
  {
    VisitAllCompletes(web, lim, s, urls, depth);
  }

  lemma {:induction false} VisitShallow(web: Web, lim: Limits, root: Url, s: Progress, stack: seq<Url>, url: Url)
    requires Shallow(web, lim, root) && Stack(web, root, stack, url) && AllVisited(s, stack) && DeepIsVisited(s)
    ensures DeepIsVisited(Visit(web, lim, s, url, |stack|))
    decreases Below(lim, |stack|), 0
  {
    if |stack| > lim.maxDepth {
      TooDeepIsOnStack(web, lim, root, stack, url);
    } else if url !in s.visited && s.documentsFetched < lim.maxDocuments {
      StackGrows(web, root, stack, url);
      VisitAllShallow(web, lim, root, Took(s, url, web(url)), stack + [url], Children(web(url)));
    }
  }

  lemma {:induction false} VisitAllShallow(
    web: Web, lim: Limits, root: Url, s: Progress, stack: seq<Url>, urls: seq<Url>)
    requires Shallow(web, lim, root) && AllVisited(s, stack) && DeepIsVisited(s)
    requires Stacks(web, root, stack, urls)
    ensures DeepIsVisited(VisitAll(web, lim, s, urls, |stack|))
    decreases Below(lim, |stack|), |urls| + 1
  {
    if |urls| > 0 {
      var n := |urls| - 1;
      var t := VisitAll(web, lim, s, urls[..n], |stack|);
      VisitAllShallow(web, lim, root, s, stack, urls[..n]);
      StillVisited(web, lim, s, urls[..n], |stack|, stack);
      VisitShallow(web, lim, root, t, stack, urls[n]);
    }
  }

  lemma {:induction false} FetchedFits(web: Web, urls: seq<Url>)
    ensures FetchedOf(web, urls) <= |urls|
  {
    if |urls| > 0 {
      FetchedFits(web, urls[..|urls| - 1]);
    }
  }

  ghost predicate Lists(web: Web, all: set<Url>) {
    forall u, c :: u in all && c in Children(web(u)) ==> c in all
  }

  /** A set of documents that holds the root and whatever its members list. */
  ghost predicate Holds(web: Web, root: Url, all: set<Url>) {
    root in all && Lists(web, all)
  }

  ghost predicate Within(web: Web, lim: Limits, all: set<Url>, s: Progress) {
    Accounts(web, lim, s) && !s.truncated && Elems(s.visited) <= all
  }

  lemma TookWithin(web: Web, lim: Limits, all: set<Url>, s: Progress, url: Url)
    requires |all| <= lim.maxDocuments && Within(web, lim, all, s) && url in all && url !in s.visited
    ensures s.documentsFetched < lim.maxDocuments && Within(web, lim, all, Took(s, url, web(url)))
  {
    DistinctSize(s.visited);
    FetchedFits(web, s.visited);
    SubsetSize(Elems(s.visited) + {url}, all);
    TookAccounts(web, lim, s, url);
    assert Elems(s.visited + [url]) == Elems(s.visited) + {url};
  }

  lemma {:induction false} VisitWithinBudget(
    web: Web, lim: Limits, all: set<Url>, s: Progress, url: Url, depth: nat)
    requires |all| <= lim.maxDocuments && Within(web, lim, all, s) && url in all && Lists(web, all)
    ensures Within(web, lim, all, Visit(web, lim, s, url, depth))
    decreases Below(lim, depth), 0
  {
    if depth <= lim.maxDepth && url !in s.visited {
      TookWithin(web, lim, all, s, url);
      VisitAllWithinBudget(web, lim, all, Took(s, url, web(url)), Children(web(url)), depth + 1);
    }
  }

  lemma {:induction false} VisitAllWithinBudget(
    web: Web, lim: Limits, all: set<Url>, s: Progress, urls: seq<Url>, depth: nat)
    requires |all| <= lim.maxDocuments && Within(web, lim, all, s) && Lists(web, all)
    requires forall u :: u in urls ==> u in all
    ensures Within(web, lim, all, VisitAll(web, lim, s, urls, depth))
    decreases Below(lim, depth), |urls| + 1
  {
    if |urls| > 0 {
      var n := |urls| - 1;
      VisitAllWithinBudget(web, lim, all, s, urls[..n], depth);
      VisitWithinBudget(web, lim, all, VisitAll(web, lim, s, urls[..n], depth), urls[n], depth);
    }
  }

  /** Cyclic or not: a web of at most maxDocuments documents and no long detours is crawled in full. */
  lemma LimitsAreEnough(web: Web, lim: Limits, root: Url, all: set<Url>)
    requires Holds(web, root, all) && |all| <= lim.maxDocuments && Shallow(web, lim, root)
    ensures var s := CrawlSitemap(web, lim, root);
      && !s.truncated && Complete(web, root, s) && Elems(s.visited) <= all
      && s.entries == EntriesOf(web, s.visited)
  {
    var s := CrawlSitemap(web, lim, root);
    CrawlAccounts(web, lim, root);
    VisitWithinBudget(web, lim, all, NOTHING, root, 0);
    assert [] + [root] == [root];
    VisitShallow(web, lim, root, NOTHING, [], root);
    CompleteIff(web, lim, root);
  }

  // -------------------------------------------------------------------------------------------
  // Webs the limits are too small for
  // -------------------------------------------------------------------------------------------

  /** A path of at most maxDepth links. */
  ghost predicate Near(web: Web, lim: Limits, root: Url, url: Url) {
    exists p :: PathTo(web, root, url, p) && |p| <= lim.maxDepth + 1
  }

  ghost predicate AllNear(web: Web, lim: Limits, root: Url, s: Progress) {
    forall u :: u in s.visited ==> Near(web, lim, root, u)
  }

  lemma {:induction false} VisitNear(web: Web, lim: Limits, root: Url, s: Progress, url: Url, p: seq<Url>)
    requires AllNear(web, lim, root, s) && PathTo(web, root, url, p)
    ensures AllNear(web, lim, root, Visit(web, lim, s, url, |p| - 1))
    decreases Below(lim, |p| - 1), 0
  {
    var depth := |p| - 1;
    if depth <= lim.maxDepth && url !in s.visited && s.documentsFetched < lim.maxDocuments {
      VisitAllNear(web, lim, root, Took(s, url, web(url)), url, Children(web(url)), p);
    }
  }

  lemma {:induction false} VisitAllNear(
    web: Web, lim: Limits, root: Url, s: Progress, parent: Url, urls: seq<Url>, p: seq<Url>)
    requires AllNear(web, lim, root, s) && PathTo(web, root, parent, p)
    requires forall u :: u in urls ==> u in Children(web(parent))
    ensures AllNear(web, lim, root, VisitAll(web, lim, s, urls, |p|))
    decreases Below(lim, |p|), |urls| + 1
  {
    if |urls| > 0 {
      var n := |urls| - 1;
      VisitAllNear(web, lim, root, s, parent, urls[..n], p);
      assert urls[n] in urls && PathTo(web, root, urls[n], p + [urls[n]]);
      VisitNear(web, lim, root, VisitAll(web, lim, s, urls[..n], |p|), urls[n], p + [urls[n]]);
    }
  }

  /** The crawl is incomplete if some document is reachable, but not by a path of at most maxDepth links. */
  lemma TooFarIsLost(web: Web, lim: Limits, root: Url, url: Url)
    requires Reachable(web, root, url) && !Near(web, lim, root, url)
    ensures url !in CrawlSitemap(web, lim, root).visited && !Complete(web, root, CrawlSitemap(web, lim, root))
  {
    assert PathTo(web, root, root, [root]);
    VisitNear(web, lim, root, NOTHING, root, [root]);
  }

  lemma {:induction false} FetchedIsCount(web: Web, urls: seq<Url>, some: set<Url>)
    requires Distinct(urls) && forall u :: u in some ==> u in urls && !web(u).Unreachable?
    ensures |some| <= FetchedOf(web, urls)
  {
    if |urls| > 0 {
      var n := |urls| - 1;
      assert urls == urls[..n] + [urls[n]];
      FetchedIsCount(web, urls[..n], some - {urls[n]});
    } else {
      assert some == {};
    }
  }

  /** So it is if more than maxDocuments reachable documents could be fetched. */
  lemma TooManyAreLost(web: Web, lim: Limits, root: Url, some: set<Url>)
    requires |some| > lim.maxDocuments
    requires forall u :: u in some ==> Reachable(web, root, u) && !web(u).Unreachable?
    ensures !Complete(web, root, CrawlSitemap(web, lim, root))
  {
    var s := CrawlSitemap(web, lim, root);
    CrawlAccounts(web, lim, root);
    if Complete(web, root, s) {
      FetchedIsCount(web, s.visited, some);
    }
  }

  // -------------------------------------------------------------------------------------------
  // A detour that loses a document
  // -------------------------------------------------------------------------------------------

  /** root lists a and m; a lists b, b lists m; m lists t, which holds one page. */
  ghost predicate Detour(web: Web, root: Url, a: Url, b: Url, m: Url, t: Url, page: Url) {
    && root != a && root != b && root != m && root != t && a != b && a != m && a != t && b != m && b != t && m != t
    && a != "" && b != "" && m != "" && t != "" && page != ""
    && web(root) == SitemapIndex([Some(a), Some(m)])
    && web(a) == SitemapIndex([Some(b)])
    && web(b) == SitemapIndex([Some(m)])
    && web(m) == SitemapIndex([Some(t)])
    && web(t) == UrlSet([(Some(page), None)])
  }

  lemma DetourPath(web: Web, root: Url, a: Url, b: Url, m: Url, t: Url, page: Url)
    requires Detour(web, root, a, b, m, t, page)
    ensures PathTo(web, root, t, [root, m, t])
  {
    LocsTwo(a, m);
    LocsOne(t);
  }

  lemma DetourStep(web: Web, lim: Limits, urls: seq<Url>, url: Url, child: Url, depth: nat)
    requires depth <= lim.maxDepth && url !in urls && |urls| < lim.maxDocuments
    requires child != "" && web(url) == SitemapIndex([Some(child)])
    ensures Visit(web, lim, Taken(urls), url, depth) == Visit(web, lim, Taken(urls + [url]), child, depth + 1)
  {
    VisitsOnlyChild(web, lim, Taken(urls), url, child, depth);
  }

  lemma DetourVisits(web: Web, lim: Limits, root: Url, a: Url, b: Url, m: Url, t: Url, page: Url)
    requires Detour(web, root, a, b, m, t, page) && lim.maxDepth == 3 && lim.maxDocuments >= 4
    ensures Visit(web, lim, Taken([root]), a, 1) == Taken([root, a, b, m]).(tooDeep := [t])
  {
    DetourStep(web, lim, [root], a, b, 1);
    assert [root] + [a] == [root, a];
    DetourStep(web, lim, [root, a], b, m, 2);
    assert [root, a] + [b] == [root, a, b];
    DetourStep(web, lim, [root, a, b], m, t, 3);
    assert [root, a, b] + [m] == [root, a, b, m];
    TurnedAwayBelow(web, lim, [root, a, b, m], t, 4);
  }

  lemma TurnedAwayBelow(web: Web, lim: Limits, urls: seq<Url>, url: Url, depth: nat)
    requires depth > lim.maxDepth
    ensures Visit(web, lim, Taken(urls), url, depth) == Taken(urls).(tooDeep := [url])
  {
  }

  /** Depth first, m is met at the bottom of the detour, where its child is too deep, and never again. */
  lemma DetourLosesPage(web: Web, lim: Limits, root: Url, a: Url, b: Url, m: Url, t: Url, page: Url)
    requires Detour(web, root, a, b, m, t, page) && lim.maxDepth == 3 && lim.maxDocuments >= 4
    ensures PathTo(web, root, t, [root, m, t])
    ensures CrawlSitemap(web, lim, root) == Progress([root, a, b, m], [], [], 4, false, [t], [])
  {
    DetourPath(web, root, a, b, m, t, page);
    VisitsChildren(web, lim, NOTHING, root, a, m, 0);
    assert [] + [root] == [root];
    DetourVisits(web, lim, root, a, b, m, t, page);
  }

  /** After visiting a number of reachable indexes. */
  ghost function Taken(urls: seq<Url>): Progress {
    Progress(urls, [], [], |urls|, false, [], [])
  }

  lemma LocsOne(u: Url)
    requires u != ""
    ensures Locs([Some(u)]) == [u]
  {
  }

  lemma LocsTwo(u: Url, v: Url)
    requires u != "" && v != ""
    ensures Locs([Some(u), Some(v)]) == [u, v]
  {
    assert [Some(u), Some(v)][1..] == [Some(v)];
    LocsOne(v);
  }

  lemma VisitsOnlyChild(web: Web, lim: Limits, s: Progress, url: Url, child: Url, depth: nat)
    requires depth <= lim.maxDepth && url !in s.visited && s.documentsFetched < lim.maxDocuments
    requires child != "" && web(url) == SitemapIndex([Some(child)])
    ensures Visit(web, lim, s, url, depth)
         == Visit(
              web, lim, s.(visited := s.visited + [url], documentsFetched := s.documentsFetched + 1),
              child, depth + 1)
  {
    LocsOne(child);
    VisitOne(web, lim, Took(s, url, web(url)), child, depth + 1);
    TookIndex(s, url, web(url));
  }

  lemma TookIndex(s: Progress, url: Url, doc: Document)
    requires doc.SitemapIndex?
    ensures Took(s, url, doc) == s.(visited := s.visited + [url], documentsFetched := s.documentsFetched + 1)
  {
  }

  lemma VisitsChildren(web: Web, lim: Limits, s: Progress, url: Url, first: Url, second: Url, depth: nat)
    requires depth <= lim.maxDepth && url !in s.visited && s.documentsFetched < lim.maxDocuments
    requires first != "" && second != "" && web(url) == SitemapIndex([Some(first), Some(second)])
    ensures var t := s.(visited := s.visited + [url], documentsFetched := s.documentsFetched + 1);
      Visit(web, lim, s, url, depth)
      == Visit(web, lim, Visit(web, lim, t, first, depth + 1), second, depth + 1)
  {
    LocsTwo(first, second);
    VisitTwo(web, lim, Took(s, url, web(url)), first, second, depth + 1);
    TookIndex(s, url, web(url));
  }

  lemma VisitOne(web: Web, lim: Limits, s: Progress, url: Url, depth: nat)
    ensures VisitAll(web, lim, s, [url], depth) == Visit(web, lim, s, url, depth)
  {
  }

  lemma VisitTwo(web: Web, lim: Limits, s: Progress, first: Url, second: Url, depth: nat)
    ensures VisitAll(web, lim, s, [first, second], depth)
         == Visit(web, lim, Visit(web, lim, s, first, depth), second, depth)
  {
    VisitOne(web, lim, s, first, depth);
    assert [first, second][..1] == [first];
  }
}
