/** Turning a sitemap into page and group rows (lib/services/ingest.service.ts). */
module Ingest {
  import opened Sequences
  import opened NormalizeUrl
  import opened Dedupe
  import opened Grouping

  /** new Date(lastmod): None for a text that is no date. */
  type DateParser = string -> Option<Millis>

  function ValidLastmod(dateOf: DateParser, lastmod: Option<string>): Option<Millis> {
    if Blank(lastmod) then None else dateOf(lastmod.value)
  }

  // -------------------------------------------------------------------------------------------
  // Groups
  // -------------------------------------------------------------------------------------------

  /** The group a slug needs, unless something answers to the slug already. */
  function WithGroup(d: Derive, s: Grouping.Site, slug: Slug): (t: Grouping.Site)
    ensures s.nextId <= t.nextId <= s.nextId + 1
  {
    if Resolve(s, slug).Some? then s
    else
      s.(groups := s.groups[s.nextId := Group(slug, d.nameOf(slug), false)],
         slugs := s.slugs[slug := s.nextId],
         nextId := s.nextId + 1)
  }

  function WithGroups(d: Derive, s: Grouping.Site, slugs: seq<Slug>): (t: Grouping.Site)
    ensures s.nextId <= t.nextId <= s.nextId + |slugs|
  {
    if |slugs| == 0 then s else WithGroup(d, WithGroups(d, s, slugs[..|slugs| - 1]), slugs[|slugs| - 1])
  }

  function SlugsOf(d: Derive, urls: seq<Url>): seq<Slug> {
    seq(|urls|, i requires 0 <= i < |urls| => d.slugOf(urls[i].pathname))
  }

  /** t has the groups of s, and more for slugs that led nowhere. */
  ghost predicate Extends(s: Grouping.Site, t: Grouping.Site) {
    && t.aliases == s.aliases && t.pages == s.pages
    && (forall id: nat :: id in s.groups ==> id in t.groups && t.groups[id] == s.groups[id])
    && (forall slug :: Resolve(s, slug).Some? ==> Resolve(t, slug) == Resolve(s, slug))
  }

  lemma WithGroupIndexed(d: Derive, s: Grouping.Site, slug: Slug)
    requires Indexed(s)
    ensures Indexed(WithGroup(d, s, slug))
  {
  }

  lemma WithGroupExtends(d: Derive, s: Grouping.Site, slug: Slug)
    requires Indexed(s)
    ensures var t := WithGroup(d, s, slug); Extends(s, t) && Resolve(t, slug).Some?
  {
  }

  lemma ExtendsTransitive(s: Grouping.Site, t: Grouping.Site, u: Grouping.Site)
    requires Extends(s, t) && Extends(t, u)
    ensures Extends(s, u)
  {
  }

  /** Creating groups adds what was missing and changes nothing else. */
  lemma {:induction false} WithGroupsAdds(d: Derive, s: Grouping.Site, slugs: seq<Slug>)
    requires Indexed(s)
    ensures var t := WithGroups(d, s, slugs);
      Indexed(t) && Extends(s, t) && forall slug :: slug in slugs ==> Resolve(t, slug).Some?
  {
    if |slugs| > 0 {
      var n := |slugs| - 1;
      var t := WithGroups(d, s, slugs[..n]);
      WithGroupsAdds(d, s, slugs[..n]);
      WithGroupIndexed(d, t, slugs[n]);
      WithGroupExtends(d, t, slugs[n]);
      ExtendsTransitive(s, t, WithGroup(d, t, slugs[n]));
      assert slugs == slugs[..n] + [slugs[n]];
    }
  }

  /** Every slug asked for leads somewhere afterwards, and those that did lead where they led. */
  lemma {:induction false} WithGroupsResolve(d: Derive, s: Grouping.Site, slugs: seq<Slug>, slug: Slug)
    ensures var t := WithGroups(d, s, slugs);
      && t.pages == s.pages && t.aliases == s.aliases
      && (slug in slugs ==> Resolve(t, slug).Some?)
      && (Resolve(s, slug).Some? ==> Resolve(t, slug) == Resolve(s, slug))
  {
    if |slugs| > 0 {
      var n := |slugs| - 1;
      WithGroupsResolve(d, s, slugs[..n], slug);
      assert slugs == slugs[..n] + [slugs[n]];
    }
  }

  /** A slug that was merged or renamed away is never given a group again. */
  lemma {:induction false} NoAliasIsRecreated(d: Derive, s: Grouping.Site, slugs: seq<Slug>)
    ensures var t := WithGroups(d, s, slugs);
      && (forall slug :: slug in t.slugs && slug !in s.slugs ==> slug in slugs && slug !in s.aliases)
      && t.aliases == s.aliases
  {
    if |slugs| > 0 {
      var n := |slugs| - 1;
      NoAliasIsRecreated(d, s, slugs[..n]);
      assert slugs == slugs[..n] + [slugs[n]];
    }
  }

  // -------------------------------------------------------------------------------------------
  // Pages
  // -------------------------------------------------------------------------------------------

  /** What the sitemap says of one page. */
  datatype Listing = Listing(lastmod: Option<Millis>, index: nat, group: Option<GroupId>)

  function Created(l: Listing): Page {
    Page(l.group, l.lastmod, Some(l.index), true, false)
  }

  function Refreshed(page: Page, l: Listing): Page {
    page.(lastmod := l.lastmod, sitemapIndex := Some(l.index), isActive := true,
          group := if page.isManuallyGrouped then page.group else l.group)
  }

  function Upserted(pages: map<Url, Page>, u: Url, l: Listing): Page {
    if u in pages then Refreshed(pages[u], l) else Created(l)
  }

  ghost function IndexOf(urls: seq<Url>, u: Url): nat
    requires u in urls
    ensures IndexOf(urls, u) < |urls| && urls[IndexOf(urls, u)] == u
  {
    if urls[0] == u then 0 else 1 + IndexOf(urls[1..], u)
  }

  ghost function ListingOf(d: Derive, dateOf: DateParser, s: Grouping.Site, found: seq<Found>, u: Url): Listing
    requires u in UrlsOf(found)
  {
    var i := IndexOf(UrlsOf(found), u);
    Listing(ValidLastmod(dateOf, found[i].lastmod), i, Resolve(s, d.slugOf(u.pathname)))
  }

  /** The page rows once the sitemap's pages are in and all others are switched off. */
  ghost function PagesAfter(
    d: Derive, dateOf: DateParser, s: Grouping.Site, found: seq<Found>, pages: map<Url, Page>): map<Url, Page>
  {
    map u | u in pages.Keys + Elems(UrlsOf(found)) ::
      if u in UrlsOf(found) then Upserted(pages, u, ListingOf(d, dateOf, s, found, u))
      else pages[u].(isActive := false)
  }

  /** The rows after an ingest. How the pages are cut into transactions does not come into it. */
  ghost function Ingested(d: Derive, dateOf: DateParser, s: Grouping.Site, found: seq<Found>): Grouping.Site {
    var t := WithGroups(d, s, SlugsOf(d, UrlsOf(found)));
    t.(pages := PagesAfter(d, dateOf, t, found, s.pages))
  }

  // -------------------------------------------------------------------------------------------
  // What an ingest keeps
  // -------------------------------------------------------------------------------------------

  lemma SlugIsNeeded(d: Derive, urls: seq<Url>, u: Url)
    requires u in urls
    ensures d.slugOf(u.pathname) in SlugsOf(d, urls)
  {
    var i :| 0 <= i < |urls| && urls[i] == u;
    assert SlugsOf(d, urls)[i] == d.slugOf(u.pathname);
  }

  /**
   * The active pages are exactly the sitemap's, at the sitemap's positions; no page is lost; hand-made
   * choices stand.
   */
  lemma IngestIsConservative(d: Derive, dateOf: DateParser, s: Grouping.Site, found: seq<Found>)
    ensures var t := Ingested(d, dateOf, s, found);
      && (forall u :: u in t.pages && t.pages[u].isActive <==> u in UrlsOf(found))
      && t.pages.Keys == s.pages.Keys + Elems(UrlsOf(found))
      && (forall u :: u in s.pages && (s.pages[u].isManuallyGrouped || u !in UrlsOf(found)) ==>
            t.pages[u].group == s.pages[u].group)
      && (forall u :: u in s.pages ==> t.pages[u].isManuallyGrouped == s.pages[u].isManuallyGrouped)
      && (forall u :: u in UrlsOf(found) ==> t.pages[u].sitemapIndex == Some(IndexOf(UrlsOf(found), u)))
  {
  }

  lemma {:induction false} IndexOfIs(urls: seq<Url>, i: nat)
    requires Distinct(urls) && i < |urls|
    ensures IndexOf(urls, urls[i]) == i
  {
    assert urls[IndexOf(urls, urls[i])] == urls[i];
  }

  /**
   * A page of the sitemap gets its date, if that parses, and its position, and is active; it is put where its
   * slug leads, by an alias before a group, unless it was placed by hand; that mark is kept, and new pages
   * have none.
   */
  lemma IngestedPageIs(d: Derive, dateOf: DateParser, s: Grouping.Site, found: seq<Found>, i: nat)
    requires Distinct(UrlsOf(found)) && i < |found|
    ensures var t, u := Ingested(d, dateOf, s, found), found[i].url;
      var slug, date := d.slugOf(u.pathname), found[i].lastmod;
      var byHand := u in s.pages && s.pages[u].isManuallyGrouped;
      && (slug in s.aliases || slug in t.slugs) && u in t.pages
      && t.pages[u] == Page(
           if byHand then s.pages[u].group
           else if slug in s.aliases then Some(s.aliases[slug]) else Some(t.slugs[slug]),
           if date.None? || date.value == "" then None else dateOf(date.value),
           Some(i), true, byHand)
  {
    var u := found[i].url;
    assert UrlsOf(found)[i] == u;
    IndexOfIs(UrlsOf(found), i);
    SlugIsNeeded(d, UrlsOf(found), u);
    WithGroupsResolve(d, s, SlugsOf(d, UrlsOf(found)), d.slugOf(u.pathname));
  }

  /** A page the sitemap does not list is switched off, and otherwise as it was. */
  lemma UnlistedPageIs(d: Derive, dateOf: DateParser, s: Grouping.Site, found: seq<Found>, u: Url)
    requires u in s.pages && u !in UrlsOf(found)
    ensures var t, p := Ingested(d, dateOf, s, found), s.pages[u];
      u in t.pages
      && t.pages[u] == Page(p.group, p.lastmod, p.sitemapIndex, false, p.isManuallyGrouped)
  {
  }

  /** A group that was there before, or one for a slug that led nowhere, with the derived name, and not by hand. */
  ghost predicate OldOrNew(d: Derive, s: Grouping.Site, t: Grouping.Site, slugs: seq<Slug>, id: GroupId) {
    && (id in s.groups ==> id in t.groups && t.groups[id] == s.groups[id])
    && (id in t.groups && id !in s.groups ==>
          var slug := t.groups[id].slug;
          && slug in slugs && slug !in s.aliases && slug !in s.slugs
          && t.groups[id] == Group(slug, d.nameOf(slug), false))
  }

  lemma NextGroupIs(
    d: Derive, s: Grouping.Site, t: Grouping.Site, before: seq<Slug>, slug: Slug, slugs: seq<Slug>, id: GroupId)
    requires Indexed(t) && OldOrNew(d, s, t, before, id) && slugs == before + [slug] && s.nextId <= t.nextId
    requires forall k: nat :: k in s.groups ==> k < s.nextId
    requires t.aliases == s.aliases && (Resolve(s, slug).Some? ==> Resolve(t, slug).Some?)
    ensures OldOrNew(d, s, WithGroup(d, t, slug), slugs, id)
    ensures |WithGroup(d, t, slug).groups| - |t.groups| == WithGroup(d, t, slug).nextId - t.nextId
  {
  }

  /** Groups stay as they are, and so many are new as the ids have advanced. */
  lemma {:induction false} NewGroupsAre(d: Derive, s: Grouping.Site, slugs: seq<Slug>, id: GroupId)
    requires Indexed(s)
    ensures OldOrNew(d, s, WithGroups(d, s, slugs), slugs, id)
    ensures |WithGroups(d, s, slugs).groups| - |s.groups| == WithGroups(d, s, slugs).nextId - s.nextId
  {
    if |slugs| > 0 {
      var n := |slugs| - 1;
      NewGroupsAre(d, s, slugs[..n], id);
      WithGroupsAdds(d, s, slugs[..n]);
      WithGroupsResolve(d, s, slugs[..n], slugs[n]);
      NextGroupIs(d, s, WithGroups(d, s, slugs[..n]), slugs[..n], slugs[n], slugs, id);
    }
  }

  lemma IngestKeeps(d: Derive, dateOf: DateParser, s: Grouping.Site, found: seq<Found>)
    requires Consistent(d, s)
    ensures Consistent(d, Ingested(d, dateOf, s, found)) && Keeps(s, Ingested(d, dateOf, s, found))
  {
    var w := WithGroups(d, s, SlugsOf(d, UrlsOf(found)));
    WithGroupsAdds(d, s, SlugsOf(d, UrlsOf(found)));
    NoAliasIsRecreated(d, s, SlugsOf(d, UrlsOf(found)));
    AliasesStillAgree(s, w);
    ExtendsKeepsPlaces(d, s, w);
    PagesAfterPlaced(d, dateOf, w, found);
  }

  lemma AliasesStillAgree(s: Grouping.Site, t: Grouping.Site)
    requires AliasesAgree(s) && AliasesAreLive(s) && Extends(s, t) && Indexed(t) && Indexed(s)
    requires forall slug :: slug in t.slugs && slug !in s.slugs ==> slug !in s.aliases
    ensures AliasesAgree(t) && AliasesAreLive(t)
  {
  }

  lemma ExtendsKeepsPlaces(d: Derive, s: Grouping.Site, t: Grouping.Site)
    requires Extends(s, t) && PagesArePlaced(d, s) && PagesAreInLiveGroups(s)
    ensures PagesArePlaced(d, t) && PagesAreInLiveGroups(t)
  {
  }

  /** Placing the sitemap's pages, once every slug they need leads somewhere. */
  lemma PagesAfterPlaced(d: Derive, dateOf: DateParser, s: Grouping.Site, found: seq<Found>)
    requires Consistent(d, s)
    requires forall slug :: slug in SlugsOf(d, UrlsOf(found)) ==> Resolve(s, slug).Some?
    ensures Consistent(d, s.(pages := PagesAfter(d, dateOf, s, found, s.pages)))
  {
    var t := s.(pages := PagesAfter(d, dateOf, s, found, s.pages));
    SameAnswers(s, t);
    ResolvedIsLive(s);
    forall u | Automatic(t, u)
      ensures t.pages[u].group.Some? && t.pages[u].group == Resolve(t, d.slugOf(u.pathname))
    {
      if u in UrlsOf(found) {
        SlugIsNeeded(d, UrlsOf(found), u);
      } else {
        assert Automatic(s, u);
      }
    }
    forall u | u in t.pages && t.pages[u].group.Some? ensures t.pages[u].group.value in t.groups {
      if !Automatic(t, u) && u in s.pages {
        assert t.pages[u].group == s.pages[u].group;
      }
    }
  }

  lemma ResolvedIsLive(s: Grouping.Site)
    requires Indexed(s) && AliasesAreLive(s)
    ensures forall slug :: Resolve(s, slug).Some? ==> Resolve(s, slug).value in s.groups
  {
  }

  /** A page the sitemap would put in another group. */
  ghost predicate Misplaced(d: Derive, s: Grouping.Site, u: Url) {
    Automatic(s, u) && s.pages[u].group != Resolve(s, d.slugOf(u.pathname))
  }

  /** Where the grouping is consistent no known page changes group. */
  lemma ConsistentMeansNoRegrouping(d: Derive, dateOf: DateParser, s: Grouping.Site, found: seq<Found>, u: Url)
    requires Consistent(d, s) && u in s.pages
    ensures Ingested(d, dateOf, s, found).pages[u].group == s.pages[u].group
    ensures !Misplaced(d, WithGroups(d, s, SlugsOf(d, UrlsOf(found))), u)
  {
    WithGroupsAdds(d, s, SlugsOf(d, UrlsOf(found)));
    if !s.pages[u].isManuallyGrouped {
      assert Automatic(s, u);
    }
  }

  lemma {:induction false} NothingToCreate(d: Derive, s: Grouping.Site, slugs: seq<Slug>)
    requires forall slug :: slug in slugs ==> Resolve(s, slug).Some?
    ensures WithGroups(d, s, slugs) == s
  {
    if |slugs| > 0 {
      NothingToCreate(d, s, slugs[..|slugs| - 1]);
    }
  }

  /** The same sitemap again changes nothing, whatever state the rows were in. */
  lemma IngestIsIdempotent(d: Derive, dateOf: DateParser, s: Grouping.Site, found: seq<Found>)
    ensures var t := Ingested(d, dateOf, s, found); Ingested(d, dateOf, t, found) == t
  {
    var slugs := SlugsOf(d, UrlsOf(found));
    var w := WithGroups(d, s, slugs);
    var t := Ingested(d, dateOf, s, found);
    forall slug ensures w.pages == s.pages && (slug in slugs ==> Resolve(w, slug).Some?) {
      WithGroupsResolve(d, s, slugs, slug);
    }
    SameAnswers(w, t);
    NothingToCreate(d, t, slugs);
    PagesIdempotent(d, dateOf, w, t, found, s.pages);
  }

  /** Resolving a slug does not look at the pages. */
  lemma SameAnswers(s: Grouping.Site, t: Grouping.Site)
    requires t.slugs == s.slugs && t.aliases == s.aliases
    ensures forall slug :: Resolve(t, slug) == Resolve(s, slug)
  {
  }

  lemma PagesIdempotent(
    d: Derive, dateOf: DateParser, s: Grouping.Site, t: Grouping.Site, found: seq<Found>, pages: map<Url, Page>)
    requires forall slug :: Resolve(t, slug) == Resolve(s, slug)
    ensures var after := PagesAfter(d, dateOf, s, found, pages); PagesAfter(d, dateOf, t, found, after) == after
  {
  }

  // -------------------------------------------------------------------------------------------
  // Any sequence of ingests and edits by hand
  // -------------------------------------------------------------------------------------------

  datatype Edit =
    | IngestEdit(found: seq<Found>)
    | RenameEdit(id: GroupId, name: string, slug: Option<Slug>)
    | MergeEdit(sources: set<GroupId>, target: GroupId)
    | MoveEdit(url: Url, to: GroupId)

  /** An edit that throws leaves the rows as they were. */
  ghost function Edited(d: Derive, dateOf: DateParser, s: Grouping.Site, e: Edit): Grouping.Site {
    match e
    case IngestEdit(found) => Ingested(d, dateOf, s, found)
    case RenameEdit(id, name, slug) => Rename(s, id, name, slug).GetOr(s)
    case MergeEdit(sources, target) => Merge(s, sources - {target}, target).GetOr(s)
    case MoveEdit(url, to) => MovePage(s, url, to).GetOr(s)
  }

  ghost predicate Safe(d: Derive, s: Grouping.Site, e: Edit) {
    e.RenameEdit? && e.id in s.groups ==> SafeRename(d, s, e.id, e.slug)
  }

  ghost function AfterEdits(d: Derive, dateOf: DateParser, s: Grouping.Site, edits: seq<Edit>): Grouping.Site
    decreases |edits|
  {
    if |edits| == 0 then s else AfterEdits(d, dateOf, Edited(d, dateOf, s, edits[0]), edits[1..])
  }

  ghost predicate AllSafe(d: Derive, dateOf: DateParser, s: Grouping.Site, edits: seq<Edit>)
    decreases |edits|
  {
    |edits| == 0 || (Safe(d, s, edits[0]) && AllSafe(d, dateOf, Edited(d, dateOf, s, edits[0]), edits[1..]))
  }

  lemma RenameKeeps(d: Derive, s: Grouping.Site, id: GroupId, name: string, slug: Option<Slug>)
    requires Consistent(d, s) && Rename(s, id, name, slug).Some? && SafeRename(d, s, id, slug)
    ensures Consistent(d, Rename(s, id, name, slug).value) && Keeps(s, Rename(s, id, name, slug).value)
  {
    SafeRenameKeeps(d, s, id, name, slug);
  }

  lemma EditKeeps(d: Derive, dateOf: DateParser, s: Grouping.Site, e: Edit)
    requires Consistent(d, s) && Safe(d, s, e)
    ensures Consistent(d, Edited(d, dateOf, s, e)) && Keeps(s, Edited(d, dateOf, s, e))
  {
    match e
    case IngestEdit(found) => IngestKeeps(d, dateOf, s, found);
    case RenameEdit(id, name, slug) => if Rename(s, id, name, slug).Some? { RenameKeeps(d, s, id, name, slug); }
    case MergeEdit(sources, target) =>
      if Merge(s, sources - {target}, target).Some? { MergeKeeps(d, s, sources - {target}, target); }
    case MoveEdit(url, to) => if MovePage(s, url, to).Some? { MoveKeeps(d, s, url, to); }
  }

  /** Consistency, every alias and every page survive any sequence of ingests and safe edits. */
  lemma {:induction false} GroupingSurvivesEdits(d: Derive, dateOf: DateParser, s: Grouping.Site, edits: seq<Edit>)
    requires Consistent(d, s) && AllSafe(d, dateOf, s, edits)
    ensures Consistent(d, AfterEdits(d, dateOf, s, edits)) && Keeps(s, AfterEdits(d, dateOf, s, edits))
    decreases |edits|
  {
    if |edits| > 0 {
      EditKeeps(d, dateOf, s, edits[0]);
      GroupingSurvivesEdits(d, dateOf, Edited(d, dateOf, s, edits[0]), edits[1..]);
    }
  }

  /** So the next ingest moves no known page and gives no slug that was ever aliased a group of its own. */
  lemma NextIngestRespectsEdits(
    d: Derive, dateOf: DateParser, s: Grouping.Site, edits: seq<Edit>, found: seq<Found>, u: Url, slug: Slug)
    requires Consistent(d, s) && AllSafe(d, dateOf, s, edits)
    ensures var before := AfterEdits(d, dateOf, s, edits);
      var after := Ingested(d, dateOf, before, found);
      && (u in before.pages ==> after.pages[u].group == before.pages[u].group)
      && (slug in s.aliases && slug in after.slugs ==> slug in before.slugs)
  {
    var before := AfterEdits(d, dateOf, s, edits);
    GroupingSurvivesEdits(d, dateOf, s, edits);
    NoAliasIsRecreated(d, before, SlugsOf(d, UrlsOf(found)));
    if u in before.pages {
      ConsistentMeansNoRegrouping(d, dateOf, before, found, u);
    }
  }
}
