/** Putting groups in an order of one's own (app/actions/groups.ts), and what the home screen makes of it. */
module GroupOrder {
  import opened Sequences
  import opened StableSort
  import opened Aggregates
  import opened Listing

  /** The last position of a slug in a list, which is the priority it ends up with. */
  function PositionOf(slugs: seq<string>, slug: string): (at: Option<int>)
    ensures at.None? <==> slug !in slugs
    ensures at.Some? ==> 0 <= at.value < |slugs| && slugs[at.value] == slug
    ensures at.Some? ==> forall j :: at.value < j < |slugs| ==> slugs[j] != slug
  {
    if |slugs| == 0 then None
    else if slugs[|slugs| - 1] == slug then Some(|slugs| - 1)
    else PositionOf(slugs[..|slugs| - 1], slug)
  }

  function Prioritize(g: GroupRow, slugs: seq<string>): GroupRow {
    g.(priority := PositionOf(slugs, g.slug))
  }

  /** setGroupPriorityAction: a group that is not listed loses the number it had. */
  function Prioritized(groups: seq<GroupRow>, slugs: seq<string>): seq<GroupRow> {
    seq(|groups|, i requires 0 <= i < |groups| => Prioritize(groups[i], slugs))
  }

  /** reorderGroupsAction: a group that is not listed keeps it. */
  function Reordered(groups: seq<GroupRow>, slugs: seq<string>): seq<GroupRow> {
    seq(|groups|, i requires 0 <= i < |groups| =>
      if groups[i].slug in slugs then Prioritize(groups[i], slugs) else groups[i])
  }

  /** Both actions number the listed groups by last position; only the first clears the others. */
  lemma PrioritiesAre(groups: seq<GroupRow>, slugs: seq<string>, i: nat)
    requires i < |groups|
    ensures |Prioritized(groups, slugs)| == |groups| == |Reordered(groups, slugs)|
    ensures var g := groups[i];
      && Prioritized(groups, slugs)[i] == GroupRow(g.id, g.slug, g.name, g.isManual, PositionOf(slugs, g.slug))
      && (g.slug in slugs ==> Reordered(groups, slugs)[i] == Prioritized(groups, slugs)[i])
      && (g.slug !in slugs ==> Prioritized(groups, slugs)[i].priority == None && Reordered(groups, slugs)[i] == g)
  {
  }

  class GroupTable {
    var groups: seq<GroupRow>

    constructor (groups: seq<GroupRow>)
      ensures this.groups == groups
    {
      this.groups := groups;
    }

    /** updateMany({where: {slug}, data: {priority}}). */
    method SetPriority(slug: string, priority: Option<int>)
      modifies this
      ensures groups == seq(|old(groups)|, i requires 0 <= i < |old(groups)| =>
        if old(groups)[i].slug == slug then old(groups)[i].(priority := priority) else old(groups)[i])
    {
      groups := seq(|groups|, i requires 0 <= i < |groups| reads this =>
        if groups[i].slug == slug then groups[i].(priority := priority) else groups[i]);
    }

    method SetGroupPriority(slugsInOrder: seq<string>)
      modifies this
      ensures groups == Prioritized(old(groups), slugsInOrder)
    {
      ghost var before := groups;
      groups := seq(|groups|, i requires 0 <= i < |groups| reads this => groups[i].(priority := None));
      for i := 0 to |slugsInOrder|
        invariant groups == Prioritized(before, slugsInOrder[..i])
      {
        assert slugsInOrder[..i + 1][..i] == slugsInOrder[..i];
        SetPriority(slugsInOrder[i], Some(i));
      }
      assert slugsInOrder[..|slugsInOrder|] == slugsInOrder;
    }

    method ReorderGroups(slugsInOrder: seq<string>)
      modifies this
      ensures groups == Reordered(old(groups), slugsInOrder)
    {
      ghost var before := groups;
      var owned := set g | g in groups && g.slug in slugsInOrder :: g.slug;
      for i := 0 to |slugsInOrder|
        invariant groups == Reordered(before, slugsInOrder[..i])
      {
        assert slugsInOrder[..i + 1] == slugsInOrder[..i] + [slugsInOrder[i]];
        assert slugsInOrder[..i + 1][..i] == slugsInOrder[..i];
        if slugsInOrder[i] in owned {
          SetPriority(slugsInOrder[i], Some(i));
        } else {
          assert forall g :: g in before ==> g.slug != slugsInOrder[i];
        }
      }
      assert slugsInOrder[..|slugsInOrder|] == slugsInOrder;
    }
  }

  /** An empty list clears nothing, whatever the comment on the action says. */
  lemma EmptyReorderIsNoReset(groups: seq<GroupRow>)
    ensures Reordered(groups, []) == groups
    ensures forall i :: 0 <= i < |groups| ==> Prioritized(groups, [])[i].priority == None
  {
  }

  /** The two actions agree just when no group outside the list has a number of its own. */
  lemma ActionsAgreeIff(groups: seq<GroupRow>, slugs: seq<string>)
    ensures Reordered(groups, slugs) == Prioritized(groups, slugs)
      <==> forall g :: g in groups && g.slug !in slugs ==> g.priority == None
  {
    var kept, cleared := Reordered(groups, slugs), Prioritized(groups, slugs);
    if kept == cleared {
      forall g | g in groups && g.slug !in slugs ensures g.priority == None {
        var i :| 0 <= i < |groups| && groups[i] == g;
        assert kept[i] == cleared[i];
      }
    } else {
      var i :| 0 <= i < |groups| && kept[i] != cleared[i];
      assert groups[i] in groups && groups[i].slug !in slugs && groups[i].priority != None;
    }
  }

  // -------------------------------------------------------------------------------------------
  // What the home screen shows afterwards
  // -------------------------------------------------------------------------------------------

  const Pinned: Summary -> bool := (s: Summary) => s.priority.Some?

  const Unpinned: Summary -> bool := (s: Summary) => s.priority.None?

  /** No pinned card comes after one that is not. */
  ghost predicate PinnedFirst(xs: seq<Summary>) {
    |xs| == 0 || (if Pinned(xs[0]) then PinnedFirst(xs[1..]) else forall x :: x in xs ==> Unpinned(x))
  }

  lemma {:induction false} PinnedFirstSplits(xs: seq<Summary>)
    requires PinnedFirst(xs)
    ensures xs == Filter(xs, Pinned) + Filter(xs, Unpinned)
  {
    if |xs| > 0 {
      if Pinned(xs[0]) {
        PinnedFirstSplits(xs[1..]);
        assert xs == [xs[0]] + xs[1..];
      } else {
        FilterNone(xs, Pinned);
        FilterAll(xs, Unpinned);
      }
    }
  }

  lemma {:induction false} SortedIsPinnedFirst(xs: seq<Summary>, collate: (string, string) -> int)
    requires Sorted(xs, ListOrder(collate))
    ensures PinnedFirst(xs)
  {
    if |xs| > 0 {
      SortedIsPinnedFirst(xs[1..], collate);
      if Unpinned(xs[0]) {
        forall x | x in xs ensures Unpinned(x) {
          var j :| 0 <= j < |xs| && xs[j] == x;
          assert j > 0 ==> ListOrder(collate)(xs[0], xs[j]);
        }
      }
    }
  }

  /** The pinned groups come first, each part sorted by itself. */
  lemma PinnedComeFirst(xs: seq<Summary>, collate: (string, string) -> int)
    requires Collation(collate)
    ensures Sort(xs, ListOrder(collate))
         == Sort(Filter(xs, Pinned), ListOrder(collate)) + Sort(Filter(xs, Unpinned), ListOrder(collate))
  {
    var le := ListOrder(collate);
    ComparatorIsWeakOrder(collate);
    SortSorted(xs, le);
    SortedIsPinnedFirst(Sort(xs, le), collate);
    PinnedFirstSplits(Sort(xs, le));
    SortCommutesWithFilter(xs, le, Pinned);
    SortCommutesWithFilter(xs, le, Unpinned);
  }

  /** The order of groups nobody pinned: position in the sitemap, then name where there is none. */
  predicate SitemapBefore(a: Summary, b: Summary, collate: (string, string) -> int) {
    if a.sitemapIndex.Some? && b.sitemapIndex.Some? then a.sitemapIndex.value <= b.sitemapIndex.value
    else if a.sitemapIndex.None? && b.sitemapIndex.None? then collate(a.name, b.name) <= 0
    else a.sitemapIndex.Some?
  }

  function SitemapOrder(collate: (string, string) -> int): (Summary, Summary) -> bool {
    (a: Summary, b: Summary) => SitemapBefore(a, b, collate)
  }

  lemma {:induction false} InsertAgree(
    x: Summary, ys: seq<Summary>, p: (Summary, Summary) -> bool, q: (Summary, Summary) -> bool)
    requires forall y :: y in ys ==> p(x, y) == q(x, y)
    ensures Insert(x, ys, p) == Insert(x, ys, q)
  {
    if |ys| > 0 {
      assert ys[0] in ys;
      InsertAgree(x, ys[1..], p, q);
    }
  }

  /** Orders that agree on a list sort it alike. */
  lemma {:induction false} SortAgree(xs: seq<Summary>, p: (Summary, Summary) -> bool, q: (Summary, Summary) -> bool)
    requires forall x, y :: x in xs && y in xs ==> p(x, y) == q(x, y)
    ensures Sort(xs, p) == Sort(xs, q)
  {
    if |xs| > 0 {
      assert xs[0] in xs;
      SortAgree(xs[1..], p, q);
      SameMembers(xs[1..], p);
      InsertAgree(xs[0], Sort(xs[1..], p), p, q);
    }
  }

  lemma UnpinnedInSitemapOrder(xs: seq<Summary>, collate: (string, string) -> int)
    ensures Sort(Filter(xs, Unpinned), ListOrder(collate)) == Sort(Filter(xs, Unpinned), SitemapOrder(collate))
  {
    SortAgree(Filter(xs, Unpinned), ListOrder(collate), SitemapOrder(collate));
  }

  ghost predicate DistinctSlugs(groups: seq<GroupRow>) {
    forall i, j :: 0 <= i < j < |groups| ==> groups[i].slug != groups[j].slug
  }

  const SlugOf: Summary -> string := (s: Summary) => s.slug

  lemma {:induction false} PositionOfMember(slugs: seq<string>, i: nat)
    requires Distinct(slugs) && i < |slugs|
    ensures PositionOf(slugs, slugs[i]) == Some(i)
  {
  }

  /** A list of slugs that runs through `slugs` without going back. */
  ghost predicate InOrderOf(slugs: seq<string>, part: seq<string>) {
    && (forall i :: 0 <= i < |part| ==> part[i] in slugs)
    && (forall i, j :: 0 <= i < j < |part| ==> PositionOf(slugs, part[i]).value < PositionOf(slugs, part[j]).value)
  }

  lemma HeadsAgree(slugs: seq<string>, a: seq<string>, b: seq<string>)
    requires InOrderOf(slugs, a) && InOrderOf(slugs, b) && |a| > 0 && |b| > 0 && a[0] in b && b[0] in a
    ensures a[0] == b[0]
  {
  }

  /** Such a list is determined by its members. */
  lemma {:induction false} InOrderIsUnique(slugs: seq<string>, a: seq<string>, b: seq<string>)
    requires InOrderOf(slugs, a) && InOrderOf(slugs, b) && forall s :: s in a <==> s in b
    ensures a == b
  {
    if |a| > 0 {
      assert a[0] in b;
    }
    if |b| > 0 {
      assert b[0] in a;
    }
    if |a| > 0 && |b| > 0 {
      HeadsAgree(slugs, a, b);
      forall s ensures s in a[1..] <==> s in b[1..] {
        TailMembers(slugs, a, s);
        TailMembers(slugs, b, s);
      }
      InOrderIsUnique(slugs, a[1..], b[1..]);
      assert a == [a[0]] + a[1..] && b == [b[0]] + b[1..];
    }
  }

  lemma TailMembers(slugs: seq<string>, a: seq<string>, s: string)
    requires InOrderOf(slugs, a) && |a| > 0
    ensures s in a[1..] <==> s in a && s != a[0]
  {
  }

  function Owned(groups: seq<GroupRow>): string -> bool {
    slug => exists g :: g in groups && g.slug == slug
  }

  lemma {:induction false} FilterInOrder(slugs: seq<string>, n: nat, keep: string -> bool)
    requires Distinct(slugs) && n <= |slugs|
    ensures InOrderOf(slugs, Filter(slugs[n..], keep))
    ensures forall i :: 0 <= i < |Filter(slugs[n..], keep)| ==>
      Filter(slugs[n..], keep)[i] in slugs && PositionOf(slugs, Filter(slugs[n..], keep)[i]).value >= n
    decreases |slugs| - n
  {
    if n < |slugs| {
      FilterInOrder(slugs, n + 1, keep);
      PositionOfMember(slugs, n);
      assert slugs[n..][1..] == slugs[n + 1..] && slugs[n..][0] == slugs[n];
    }
  }

  function SlugsShown(xs: seq<Summary>): seq<string> {
    seq(|xs|, i requires 0 <= i < |xs| => xs[i].slug)
  }

  /** Cards whose priorities are their slugs' positions, sorted, are in the order of the slugs. */
  lemma ShownInOrder(shown: seq<Summary>, slugs: seq<string>, collate: (string, string) -> int)
    requires Sorted(shown, ListOrder(collate)) && DistinctBy(shown, SlugOf)
    requires forall x :: x in shown ==> x.priority.Some? && x.priority == PositionOf(slugs, x.slug)
    ensures InOrderOf(slugs, SlugsShown(shown))
  {
  }

  /** The cards after setGroupPriorityAction, before they are sorted. */
  ghost function CardsAfter(
    groups: seq<GroupRow>, slugs: seq<string>, pages: seq<PageRow>, mobile: bool, results: Results)
    : seq<Summary>
  {
    Summaries(Prioritized(groups, slugs), pages, mobile, results)
  }

  lemma CardsAre(groups: seq<GroupRow>, slugs: seq<string>, pages: seq<PageRow>, mobile: bool, results: Results)
    requires DistinctSlugs(groups)
    ensures var xs := CardsAfter(groups, slugs, pages, mobile, results);
      && DistinctBy(xs, SlugOf)
      && (forall x :: x in xs ==> x.priority == PositionOf(slugs, x.slug) && Owned(groups)(x.slug))
      && (forall g :: g in groups ==> exists x :: x in xs && x.slug == g.slug)
  {
    var xs := CardsAfter(groups, slugs, pages, mobile, results);
    forall x | x in xs ensures x.priority == PositionOf(slugs, x.slug) && Owned(groups)(x.slug) {
      var i :| 0 <= i < |xs| && xs[i] == x;
      assert groups[i] in groups && groups[i].slug == x.slug;
    }
    forall g | g in groups ensures exists x :: x in xs && x.slug == g.slug {
      var i :| 0 <= i < |groups| && groups[i] == g;
      assert xs[i] in xs && xs[i].slug == g.slug;
    }
  }

  lemma PinnedCards(groups: seq<GroupRow>, slugs: seq<string>, xs: seq<Summary>, collate: (string, string) -> int)
    requires Distinct(slugs) && Collation(collate) && DistinctBy(xs, SlugOf)
    requires forall x :: x in xs ==> x.priority == PositionOf(slugs, x.slug) && Owned(groups)(x.slug)
    requires forall g :: g in groups ==> exists x :: x in xs && x.slug == g.slug
    ensures SlugsShown(Sort(Filter(xs, Pinned), ListOrder(collate))) == Filter(slugs, Owned(groups))
  {
    var pinned := Filter(xs, Pinned);
    var shown := Sort(pinned, ListOrder(collate));
    ComparatorIsWeakOrder(collate);
    SortSorted(pinned, ListOrder(collate));
    FilterKeepsDistinct(xs, Pinned, SlugOf);
    SortKeepsDistinct(pinned, ListOrder(collate), SlugOf);
    SameMembers(pinned, ListOrder(collate));
    ShownInOrder(shown, slugs, collate);
    FilterInOrder(slugs, 0, Owned(groups));
    assert slugs[0..] == slugs;
    forall slug ensures slug in SlugsShown(shown) <==> slug in Filter(slugs, Owned(groups)) {
      ShownMembers(groups, slugs, xs, shown, slug);
    }
    InOrderIsUnique(slugs, SlugsShown(shown), Filter(slugs, Owned(groups)));
  }

  lemma ShownMembers(groups: seq<GroupRow>, slugs: seq<string>, xs: seq<Summary>, shown: seq<Summary>, slug: string)
    requires forall x :: x in xs ==> x.priority == PositionOf(slugs, x.slug) && Owned(groups)(x.slug)
    requires forall g :: g in groups ==> exists x :: x in xs && x.slug == g.slug
    requires forall x :: x in shown <==> x in xs && Pinned(x)
    ensures slug in SlugsShown(shown) <==> slug in slugs && Owned(groups)(slug)
  {
    if slug in SlugsShown(shown) {
      var i :| 0 <= i < |shown| && shown[i].slug == slug;
      assert shown[i] in shown;
    }
    if slug in slugs && Owned(groups)(slug) {
      var g :| g in groups && g.slug == slug;
      var x :| x in xs && x.slug == g.slug;
      assert x in shown;
      var i :| 0 <= i < |shown| && shown[i] == x;
      assert SlugsShown(shown)[i] == slug;
    }
  }

  /**
   * After setGroupPriorityAction the home screen shows the chosen groups in the chosen order, then all
   * others in sitemap order. Slugs that name no group are passed over.
   */
  lemma ChosenOrderIsShown(
    groups: seq<GroupRow>, slugs: seq<string>, pages: seq<PageRow>, mobile: bool, results: Results,
    collate: (string, string) -> int)
    requires Distinct(slugs) && DistinctSlugs(groups) && Collation(collate)
    ensures var cards := CardsAfter(groups, slugs, pages, mobile, results);
      var pinned := Sort(Filter(cards, Pinned), ListOrder(collate));
      && Sort(cards, ListOrder(collate)) == pinned + Sort(Filter(cards, Unpinned), SitemapOrder(collate))
      && SlugsShown(pinned) == Filter(slugs, Owned(groups))
  {
    var cards := CardsAfter(groups, slugs, pages, mobile, results);
    CardsAre(groups, slugs, pages, mobile, results);
    PinnedComeFirst(cards, collate);
    UnpinnedInSitemapOrder(cards, collate);
    PinnedCards(groups, slugs, cards, collate);
  }
}
