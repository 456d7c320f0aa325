/**
 * The groups a site's pages are listed under: renaming, merging and moving by hand, and the aliases
 * that renaming and merging leave behind (lib/services/group.service.ts).
 */
module Grouping {
  import opened Sequences
  import opened NormalizeUrl

  type GroupId = nat
  type Slug = string
  type Millis = int

  datatype Group = Group(slug: Slug, name: string, isManual: bool)

  /** A Page row. Its path is the pathname of its URL. */
  datatype Page = Page(
    group: Option<GroupId>, lastmod: Option<Millis>, sitemapIndex: Option<nat>,
    isActive: bool, isManuallyGrouped: bool)

  /**
   * One site's rows. `slugs` is the unique index on the slug of a group; ids are never used twice, and
   * all those used so far are below `nextId`.
   */
  datatype Site = Site(
    groups: map<GroupId, Group>, slugs: map<Slug, GroupId>, aliases: map<Slug, GroupId>,
    pages: map<Url, Page>, nextId: GroupId)

  /** deriveGroup: the slug of a path, and the name given to a new group with some slug. */
  datatype Derive = Derive(slugOf: string -> Slug, nameOf: Slug -> string)

  /** Where a slug leads: an alias is honoured before a group of that name. */
  function Resolve(s: Site, slug: Slug): Option<GroupId> {
    if slug in s.aliases then Some(s.aliases[slug])
    else if slug in s.slugs then Some(s.slugs[slug])
    else None
  }

  // -------------------------------------------------------------------------------------------
  // The invariant
  // -------------------------------------------------------------------------------------------

  ghost predicate Indexed(s: Site) {
    && (forall slug :: slug in s.slugs ==> s.slugs[slug] in s.groups && s.groups[s.slugs[slug]].slug == slug)
    && (forall id: nat :: id in s.groups ==>
          id < s.nextId && s.groups[id].slug in s.slugs && s.slugs[s.groups[id].slug] == id)
  }

  ghost predicate AliasesAreLive(s: Site) {
    forall slug :: slug in s.aliases ==> s.aliases[slug] in s.groups
  }

  /** A live group's own slug does not lead anywhere else. */
  ghost predicate AliasesAgree(s: Site) {
    forall slug :: slug in s.aliases && slug in s.slugs ==> s.aliases[slug] == s.slugs[slug]
  }

  ghost predicate PagesAreInLiveGroups(s: Site) {
    forall u :: u in s.pages && s.pages[u].group.Some? ==> s.pages[u].group.value in s.groups
  }

  /** A page nobody moved by hand. */
  ghost predicate Automatic(s: Site, u: Url) {
    u in s.pages && !s.pages[u].isManuallyGrouped
  }

  /** A page nobody moved is where its path leads. */
  ghost predicate PagesArePlaced(d: Derive, s: Site) {
    forall u :: Automatic(s, u) ==>
      s.pages[u].group.Some? && s.pages[u].group == Resolve(s, d.slugOf(u.pathname))
  }

  ghost predicate Consistent(d: Derive, s: Site) {
    Indexed(s) && AliasesAreLive(s) && AliasesAgree(s) && PagesAreInLiveGroups(s) && PagesArePlaced(d, s)
  }

  /** No alias is ever dropped, and no page. */
  ghost predicate Keeps(s: Site, t: Site) {
    s.aliases.Keys <= t.aliases.Keys && s.pages.Keys <= t.pages.Keys
  }

  // -------------------------------------------------------------------------------------------
  // Renaming
  // -------------------------------------------------------------------------------------------

  /** The slug a rename asks for; none given means the one it has. */
  function SlugAfter(s: Site, id: GroupId, newSlug: Option<Slug>): Slug
    requires id in s.groups
  {
    newSlug.GetOr(s.groups[id].slug)
  }

  /** None when it throws: no such group, or the slug belongs to another one. */
  function Rename(s: Site, id: GroupId, newName: string, newSlug: Option<Slug>): Option<Site> {
    if id !in s.groups then None
    else
      var was := s.groups[id].slug;
      var slug := SlugAfter(s, id, newSlug);
      if slug != was && slug in s.slugs then None
      else
        Some(s.(groups := s.groups[id := Group(slug, newName, true)],
                slugs := (s.slugs - {was})[slug := id],
                aliases := if newSlug.GetOr("") != "" && slug != was then s.aliases[was := id] else s.aliases))
  }

  ghost predicate AnyAutomatic(d: Derive, s: Site, slug: Slug) {
    exists u :: Automatic(s, u) && d.slugOf(u.pathname) == slug
  }

  /**
   * What a caller can look up before renaming: the new slug is not an alias of another group and, if
   * it is the empty one (which leaves no alias behind), nothing needs the old slug.
   */
  ghost predicate SafeRename(d: Derive, s: Site, id: GroupId, newSlug: Option<Slug>)
    requires id in s.groups
  {
    var was, slug := s.groups[id].slug, SlugAfter(s, id, newSlug);
    slug == was
    || ((slug in s.aliases ==> s.aliases[slug] == id)
        && (slug == "" ==> was in s.aliases || !AnyAutomatic(d, s, was)))
  }

  /**
   * A rename gives the group its new name and slug and marks it as made by hand; it is refused if there is no
   * such group, or another has the slug. The old slug becomes an alias if a new one was given.
   */
  lemma RenameIs(s: Site, id: GroupId, newName: string, newSlug: Option<Slug>)
    ensures Rename(s, id, newName, newSlug).None?
      <==> id !in s.groups
           || (newSlug.Some? && newSlug.value != s.groups[id].slug && newSlug.value in s.slugs)
    ensures Rename(s, id, newName, newSlug).Some? && id in s.groups ==>
      var t, was := Rename(s, id, newName, newSlug).value, s.groups[id].slug;
      && t.groups == s.groups[id := Group(if newSlug.Some? then newSlug.value else was, newName, true)]
      && t.slugs == (s.slugs - {was})[if newSlug.Some? then newSlug.value else was := id]
      && t.aliases == (if newSlug.Some? && newSlug.value != "" && newSlug.value != was
                       then s.aliases[was := id] else s.aliases)
      && t.pages == s.pages && t.nextId == s.nextId
  {
  }

  lemma RenameIndexed(s: Site, id: GroupId, newName: string, newSlug: Option<Slug>)
    requires Indexed(s) && Rename(s, id, newName, newSlug).Some?
    ensures Indexed(Rename(s, id, newName, newSlug).value)
  {
  }

  lemma RenameResolves(d: Derive, s: Site, id: GroupId, newName: string, newSlug: Option<Slug>, slug: Slug)
    requires Indexed(s) && AliasesAgree(s) && Rename(s, id, newName, newSlug).Some?
    requires SafeRename(d, s, id, newSlug) && Resolve(s, slug).Some?
    requires slug == s.groups[id].slug ==> AnyAutomatic(d, s, slug)
    ensures Resolve(Rename(s, id, newName, newSlug).value, slug) == Resolve(s, slug)
  {
  }

  lemma SafeRenameKeeps(d: Derive, s: Site, id: GroupId, newName: string, newSlug: Option<Slug>)
    requires Consistent(d, s) && Rename(s, id, newName, newSlug).Some? && SafeRename(d, s, id, newSlug)
    ensures Consistent(d, Rename(s, id, newName, newSlug).value)
  {
    var t := Rename(s, id, newName, newSlug).value;
    RenameIndexed(s, id, newName, newSlug);
    forall u | Automatic(t, u) ensures t.pages[u].group == Resolve(t, d.slugOf(u.pathname)) {
      assert Automatic(s, u);
      RenameResolves(d, s, id, newName, newSlug, d.slugOf(u.pathname));
    }
  }

  /** A rename keeps the grouping consistent just when it is safe. */
  lemma RenameKeepsIff(d: Derive, s: Site, id: GroupId, newName: string, newSlug: Option<Slug>)
    requires Consistent(d, s) && Rename(s, id, newName, newSlug).Some?
    ensures Consistent(d, Rename(s, id, newName, newSlug).value) <==> SafeRename(d, s, id, newSlug)
  {
    var t := Rename(s, id, newName, newSlug).value;
    var was, slug := s.groups[id].slug, SlugAfter(s, id, newSlug);
    if SafeRename(d, s, id, newSlug) {
      SafeRenameKeeps(d, s, id, newName, newSlug);
    } else if slug in s.aliases && s.aliases[slug] != id {
      assert slug in t.aliases && slug in t.slugs && t.aliases[slug] != t.slugs[slug];
    } else {
      var u :| Automatic(s, u) && d.slugOf(u.pathname) == was;
      assert Automatic(t, u) && Resolve(t, was) == None;
    }
  }

  // -------------------------------------------------------------------------------------------
  // Merging
  // -------------------------------------------------------------------------------------------

  function SourceSlugs(s: Site, sources: set<GroupId>): set<Slug> {
    set id | id in sources && id in s.groups :: s.groups[id].slug
  }

  function Moved(page: Page, sources: set<GroupId>, target: GroupId): Page {
    if page.group.Some? && page.group.value in sources then page.(group := Some(target)) else page
  }

  /** `sources` does not hold the target. None when it throws: there is no such target. */
  function Merge(s: Site, sources: set<GroupId>, target: GroupId): Option<Site> {
    if sources == {} then Some(s)
    else if target !in s.groups then None
    else
      var gone := SourceSlugs(s, sources);
      Some(Site(
        (s.groups - sources)[target := s.groups[target].(isManual := true)],
        s.slugs - gone,
        map slug | slug in s.aliases.Keys + gone ::
          if slug in gone || s.aliases[slug] in sources then target else s.aliases[slug],
        map u | u in s.pages :: Moved(s.pages[u], sources, target),
        s.nextId))
  }

  /**
   * A merge removes the source groups and marks the target as made by hand; their pages move to the target,
   * and nothing else about a page or another group changes. It throws if there is no such target.
   */
  lemma MergeIs(s: Site, sources: set<GroupId>, target: GroupId)
    requires target !in sources
    ensures Merge(s, sources, target).None? <==> sources != {} && target !in s.groups
    ensures sources == {} ==> Merge(s, sources, target) == Some(s)
    ensures sources != {} && target in s.groups ==>
      var t := Merge(s, sources, target).value;
      && t.groups.Keys == s.groups.Keys - sources
      && t.groups[target] == Group(s.groups[target].slug, s.groups[target].name, true)
      && (forall id: nat :: id in t.groups && id != target ==> t.groups[id] == s.groups[id])
      && t.pages.Keys == s.pages.Keys
      && (forall u :: u in s.pages ==>
            var p := s.pages[u];
            t.pages[u] == if p.group.Some? && p.group.value in sources
                          then Page(Some(target), p.lastmod, p.sitemapIndex, p.isActive, p.isManuallyGrouped) else p)
      && (forall slug :: slug in t.aliases <==>
            slug in s.aliases || exists id :: id in sources && id in s.groups && s.groups[id].slug == slug)
      && (forall slug :: slug in t.slugs <==>
            slug in s.slugs && !exists id :: id in sources && id in s.groups && s.groups[id].slug == slug)
  {
  }

  lemma MergeIndexed(s: Site, sources: set<GroupId>, target: GroupId)
    requires Indexed(s) && target !in sources && Merge(s, sources, target).Some?
    ensures Indexed(Merge(s, sources, target).value)
  {
  }

  ghost function Redirect(id: GroupId, sources: set<GroupId>, target: GroupId): GroupId {
    if id in sources then target else id
  }

  /** Whatever led to a source leads to the target; nothing else changes. */
  lemma MergeRedirects(s: Site, sources: set<GroupId>, target: GroupId, slug: Slug)
    requires Indexed(s) && AliasesAgree(s) && target !in sources && Merge(s, sources, target).Some?
    ensures var before, after := Resolve(s, slug), Resolve(Merge(s, sources, target).value, slug);
      after == if before.Some? then Some(Redirect(before.value, sources, target)) else None
  {
  }

  lemma MergeKeeps(d: Derive, s: Site, sources: set<GroupId>, target: GroupId)
    requires Consistent(d, s) && target !in sources && Merge(s, sources, target).Some?
    ensures Consistent(d, Merge(s, sources, target).value) && Keeps(s, Merge(s, sources, target).value)
  {
    var t := Merge(s, sources, target).value;
    MergeIndexed(s, sources, target);
    forall u | Automatic(t, u)
      ensures t.pages[u].group.Some? && t.pages[u].group == Resolve(t, d.slugOf(u.pathname))
    {
      assert Automatic(s, u);
      MergeRedirects(s, sources, target, d.slugOf(u.pathname));
    }
  }

  // -------------------------------------------------------------------------------------------
  // Moving a page by hand
  // -------------------------------------------------------------------------------------------

  /** None when there is no such page or group. */
  function MovePage(s: Site, u: Url, id: GroupId): Option<Site> {
    if u in s.pages && id in s.groups then
      Some(s.(pages := s.pages[u := s.pages[u].(group := Some(id), isManuallyGrouped := true)]))
    else None
  }

  /** Only this page changes, and of it only the group and the mark of the hand. */
  lemma MoveIs(s: Site, u: Url, id: GroupId)
    ensures MovePage(s, u, id).Some? <==> u in s.pages && id in s.groups
    ensures MovePage(s, u, id).Some? && u in s.pages ==>
      var p := s.pages[u];
      MovePage(s, u, id).value
      == Site(s.groups, s.slugs, s.aliases,
              s.pages[u := Page(Some(id), p.lastmod, p.sitemapIndex, p.isActive, true)], s.nextId)
  {
  }

  lemma MoveKeeps(d: Derive, s: Site, u: Url, id: GroupId)
    requires Consistent(d, s) && MovePage(s, u, id).Some?
    ensures Consistent(d, MovePage(s, u, id).value) && Keeps(s, MovePage(s, u, id).value)
  {
  }
}
