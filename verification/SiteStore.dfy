/**
 * A site's rows with the services' transactions as methods (lib/services/group.service.ts,
 * lib/services/ingest.service.ts). A method that throws leaves the rows as they were.
 */
module SiteStore {
  import opened Sequences
  import opened NormalizeUrl
  import opened Dedupe
  import opened Grouping
  import opened Ingest
  import opened IngestProgress

  datatype MergeSummary = MergeSummary(pagesMoved: nat, aliasesCreated: nat)

  ghost function MembersOf(pages: map<Url, Page>, groups: set<GroupId>): set<Url> {
    set u | u in pages && pages[u].group.Some? && pages[u].group.value in groups
  }

  class SiteTables {
    var groups: map<GroupId, Group>
    var slugs: map<Slug, GroupId>
    var aliases: map<Slug, GroupId>
    var pages: map<Url, Page>
    var nextId: GroupId

    function Contents(): Grouping.Site
      reads this
    {
      Grouping.Site(groups, slugs, aliases, pages, nextId)
    }

    constructor ()
      ensures Contents() == Grouping.Site(map[], map[], map[], map[], 0)
    {
      groups, slugs, aliases, pages, nextId := map[], map[], map[], map[], 0;
    }

    method RenameGroup(id: GroupId, newName: string, newSlug: Option<Slug>) returns (ok: bool)
      modifies this`groups, this`slugs, this`aliases
      ensures ok <==> Rename(old(Contents()), id, newName, newSlug).Some?
      ensures Contents() == Rename(old(Contents()), id, newName, newSlug).GetOr(old(Contents()))
    {
      if id !in groups {
        return false;
      }
      var group := groups[id];
      var was := aliases;
      if newSlug.Some? && newSlug.value != "" && newSlug.value != group.slug {
        aliases := aliases[group.slug := id];
      }
      var slug := newSlug.GetOr(group.slug);
      if slug != group.slug && slug in slugs {
        aliases := was;
        return false;
      }
      slugs := (slugs - {group.slug})[slug := id];
      groups := groups[id := Group(slug, newName, true)];
      ok := true;
    }

    method AliasSources(live: set<GroupId>, target: GroupId)
      requires live <= groups.Keys
      modifies this`aliases
      ensures aliases == Aliased(old(Contents()), live, target)
    {
      ghost var before := Contents();
      var todo := live;
      while todo != {}
        invariant todo <= live
        invariant aliases == Aliased(before, live - todo, target)
        decreases todo
      {
        var id :| id in todo;
        assert live - (todo - {id}) == (live - todo) + {id};
        SourceSlugsNext(before, live - todo, id);
        todo := todo - {id};
        aliases := aliases[groups[id].slug := target];
      }
      assert live - {} == live;
    }

    /** None when it throws. */
    method MergeGroups(sourceIds: set<GroupId>, target: GroupId) returns (summary: Option<MergeSummary>)
      modifies this
      ensures summary.Some? <==> Merge(old(Contents()), sourceIds - {target}, target).Some?
      ensures Contents() == Merge(old(Contents()), sourceIds - {target}, target).GetOr(old(Contents()))
      ensures summary.Some? ==> summary.value == MergeSummary(
        |MembersOf(old(pages), sourceIds - {target})|, |(sourceIds - {target}) * old(groups).Keys|)
    {
      var sources := sourceIds - {target};
      if sources == {} {
        assert MembersOf(pages, sources) == {};
        return Some(MergeSummary(0, 0));
      }
      if target !in groups {
        return None;
      }
      var live := sources * groups.Keys;
      MergeSteps(Contents(), sources, live, target);
      AliasSources(live, target);
      var moved := MovePages(sources, target);
      aliases := map slug | slug in aliases :: if aliases[slug] in sources then target else aliases[slug];
      slugs := slugs - (set id | id in live :: groups[id].slug);
      groups := (groups - sources)[target := groups[target].(isManual := true)];
      summary := Some(MergeSummary(moved, |live|));
    }

    method MovePages(sources: set<GroupId>, target: GroupId) returns (moved: nat)
      modifies this`pages
      ensures moved == |MembersOf(old(pages), sources)|
      ensures pages == map u | u in old(pages) :: Moved(old(pages)[u], sources, target)
    {
      var movers := set u | u in pages && pages[u].group.Some? && pages[u].group.value in sources;
      pages := map u | u in pages :: if u in movers then pages[u].(group := Some(target)) else pages[u];
      moved := |movers|;
    }

    method CreateGroups(d: Derive, needed: seq<Slug>) returns (created: nat)
      modifies this`groups, this`slugs, this`nextId
      ensures Contents() == WithGroups(d, old(Contents()), needed)
      ensures nextId == old(nextId) + created
    {
      created := 0;
      for i := 0 to |needed|
        invariant Contents() == WithGroups(d, old(Contents()), needed[..i])
        invariant nextId == old(nextId) + created
      {
        var slug := needed[i];
        assert needed[..i + 1][..i] == needed[..i];
        if slug !in aliases && slug !in slugs {
          groups := groups[nextId := Group(slug, d.nameOf(slug), false)];
          slugs := slugs[slug := nextId];
          nextId := nextId + 1;
          created := created + 1;
        }
      }
      assert needed[..|needed|] == needed;
    }

    /** The groups are those of `w`, and so is the row of this URL: the loop has not met it yet. */
    ghost predicate Untouched(w: Grouping.Site, u: Url)
      reads this
    {
      slugs == w.slugs && aliases == w.aliases
      && (u in pages <==> u in w.pages) && (u in pages ==> pages[u] == w.pages[u])
    }

    /** Creates or refreshes the row of one page of the sitemap. */
    method UpsertPage(
      d: Derive, dateOf: DateParser, entry: Found, index: nat, summary: IngestSummary, ghost w: Grouping.Site)
      returns (next: IngestSummary)
      requires Resolve(w, d.slugOf(entry.url.pathname)).Some? && Untouched(w, entry.url)
      modifies this`pages
      ensures pages == old(pages)[entry.url := Upserted(w.pages, entry.url, Listing(
        ValidLastmod(dateOf, entry.lastmod), index, Resolve(w, d.slugOf(entry.url.pathname))))]
      ensures next == summary.Count(
        IsNew(w, entry.url), WasActive(w, entry.url), WasInactive(w, entry.url), Leaves(d, w, entry.url))
    {
      var slug := d.slugOf(entry.url.pathname);
      var target := if slug in aliases then aliases[slug] else slugs[slug];
      var lastmod := ValidLastmod(dateOf, entry.lastmod);
      next := summary;
      if entry.url !in pages {
        pages := pages[entry.url := Page(Some(target), lastmod, Some(index), true, false)];
        next := next.(created := next.created + 1);
        return;
      }
      var page := pages[entry.url];
      var refreshed := page.(lastmod := lastmod, sitemapIndex := Some(index), isActive := true);
      if !page.isManuallyGrouped && page.group != Some(target) {
        refreshed := refreshed.(group := Some(target));
        next := next.(regrouped := next.regrouped + 1);
      }
      pages := pages[entry.url := refreshed];
      if page.isActive {
        next := next.(updated := next.updated + 1);
      } else {
        next := next.(reactivated := next.reactivated + 1);
      }
    }

    /** The first k entries are in, and nothing else has changed since `w`. */
    ghost predicate SoFar(
      d: Derive, dateOf: DateParser, found: seq<Found>, k: nat,
      summary: IngestSummary, w: Grouping.Site, groupsCreated: nat)
      requires k <= |found|
      reads this
    {
      && groups == w.groups && slugs == w.slugs && aliases == w.aliases && nextId == w.nextId
      && pages == PagesUpTo(d, dateOf, w, found, k)
      && summary == Progress(d, w, UrlsOf(found)[..k], |found|, groupsCreated)
    }

    method UpsertEntry(
      d: Derive, dateOf: DateParser, found: seq<Found>, k: nat, summary: IngestSummary,
      ghost w: Grouping.Site, ghost groupsCreated: nat)
      returns (next: IngestSummary)
      requires k < |found| && Ready(d, w, found, |found|) && SoFar(d, dateOf, found, k, summary, w, groupsCreated)
      modifies this`pages
      ensures SoFar(d, dateOf, found, k + 1, next, w, groupsCreated)
    {
      UpsertNext(d, dateOf, w, found, k);
      ReadyAt(d, w, found, |found|, k);
      ProgressNext(d, w, UrlsOf(found), k, |found|, groupsCreated);
      next := UpsertPage(d, dateOf, found[k], k, summary, w);
    }

    /** One transaction of the upsert: the entries from `from` up to `to`. `w` is the state the pages started from. */
    method UpsertBatch(
      d: Derive, dateOf: DateParser, found: seq<Found>, from: nat, to: nat, summary: IngestSummary,
      ghost w: Grouping.Site, ghost groupsCreated: nat)
      returns (next: IngestSummary)
      requires from <= to <= |found| && Ready(d, w, found, |found|)
      requires SoFar(d, dateOf, found, from, summary, w, groupsCreated)
      modifies this`pages
      ensures SoFar(d, dateOf, found, to, next, w, groupsCreated)
    {
      next := summary;
      var i := from;
      while i < to
        invariant from <= i <= to && SoFar(d, dateOf, found, i, next, w, groupsCreated)
      {
        next := UpsertEntry(d, dateOf, found, i, next, w, groupsCreated);
        i := i + 1;
      }
    }

    /** All transactions of the upsert, then the switching off. */
    method UpsertAll(d: Derive, dateOf: DateParser, found: seq<Found>, batchSize: nat, groupsCreated: nat)
      returns (summary: IngestSummary)
      requires batchSize > 0 && Ready(d, Contents(), found, |found|)
      modifies this`pages
      ensures pages == PagesAfter(d, dateOf, old(Contents()), found, old(pages))
      ensures summary == Progress(d, old(Contents()), UrlsOf(found), |found|, groupsCreated).(
        deactivated := |GoneFrom(old(pages), UrlsOf(found))|)
    {
      ghost var w := Contents();
      summary := IngestSummary(|found|, 0, 0, 0, 0, 0, groupsCreated);
      var i := 0;
      while i < |found|
        invariant i <= |found| && SoFar(d, dateOf, found, i, summary, w, groupsCreated)
      {
        var to := if i + batchSize <= |found| then i + batchSize else |found|;
        summary := UpsertBatch(d, dateOf, found, i, to, summary, w, groupsCreated);
        i := to;
      }
      assert UrlsOf(found)[..|found|] == UrlsOf(found);
      RowsEnd(d, dateOf, w, found);
      var gone := Deactivate(found);
      summary := summary.(deactivated := gone);
    }

    /** However many entries go into one transaction, the rows and the counters come out the same. */
    method IngestSitemap(d: Derive, dateOf: DateParser, found: seq<Found>, batchSize: nat)
      returns (summary: IngestSummary)
      requires batchSize > 0 && Distinct(UrlsOf(found))
      modifies this
      ensures Contents() == Ingested(d, dateOf, old(Contents()), found)
      ensures summary == SummaryOf(d, old(Contents()), found)
    {
      var needed: seq<Slug> := seq(|found|, i requires 0 <= i < |found| => d.slugOf(found[i].url.pathname));
      assert needed == SlugsOf(d, UrlsOf(found));
      GroupsAreReady(d, Contents(), found, |found|);
      WithGroupsPages(d, Contents(), needed);
      var groupsCreated := CreateGroups(d, needed);
      summary := UpsertAll(d, dateOf, found, batchSize, groupsCreated);
    }

    /** Switches off the active pages that the sitemap no longer lists. */
    method Deactivate(found: seq<Found>) returns (deactivated: nat)
      modifies this`pages
      ensures deactivated == |GoneFrom(old(pages), UrlsOf(found))|
      ensures pages == SwitchedOff(old(pages), UrlsOf(found))
    {
      var seen := set f | f in found :: f.url;
      SeenUrls(found);
      var gone := set u | u in pages && pages[u].isActive && u !in seen;
      assert gone == GoneFrom(pages, UrlsOf(found));
      pages := map u | u in pages :: if u in gone then pages[u].(isActive := false) else pages[u];
      deactivated := |gone|;
    }
  }

  lemma SeenUrls(found: seq<Found>)
    ensures (set f | f in found :: f.url) == Elems(UrlsOf(found))
  {
    forall f | f in found ensures f.url in UrlsOf(found) {
      var i :| 0 <= i < |found| && found[i] == f;
      assert UrlsOf(found)[i] == f.url;
    }
  }

  /** The aliases once every live source among `done` has left one. */
  ghost function Aliased(before: Grouping.Site, done: set<GroupId>, target: GroupId): map<Slug, GroupId> {
    map slug | slug in before.aliases.Keys + SourceSlugs(before, done) ::
      if slug in SourceSlugs(before, done) then target else before.aliases[slug]
  }

  /** Leaving aliases and then repointing old ones gives the aliases of a merge. */
  lemma MergeSteps(s: Grouping.Site, sources: set<GroupId>, live: set<GroupId>, target: GroupId)
    requires sources != {} && target in s.groups && target !in sources && live == sources * s.groups.Keys
    ensures var t, aliased := Merge(s, sources, target).value, Aliased(s, live, target);
      && t.aliases == (map slug | slug in aliased :: if aliased[slug] in sources then target else aliased[slug])
      && t.slugs == s.slugs - (set id | id in live :: s.groups[id].slug)
  {
  }

  lemma SourceSlugsNext(s: Grouping.Site, done: set<GroupId>, id: GroupId)
    requires id in s.groups
    ensures SourceSlugs(s, done + {id}) == SourceSlugs(s, done) + {s.groups[id].slug}
  {
  }
}
