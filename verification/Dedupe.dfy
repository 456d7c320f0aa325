/** One entry per page out of a sitemap's entries (normalizeAndDedupe in lib/sitemap/normalize.ts). */
module Dedupe {
  import opened Sequences
  import opened Text
  import opened NormalizeUrl
  import Crawl

  type SitemapEntry = Crawl.Entry

  datatype Found = Found(url: Url, lastmod: Option<string>)

  datatype Rejections = Rejections(unparseable: nat, nonHttp: nat, crossDomain: nat, assetExtension: nat) {
    function Bump(reason: RejectReason): (r: Rejections)
      ensures r.Total() == Total() + 1
    {
      match reason
      case Unparseable => this.(unparseable := unparseable + 1)
      case NonHttp => this.(nonHttp := nonHttp + 1)
      case CrossDomain => this.(crossDomain := crossDomain + 1)
      case AssetExtension => this.(assetExtension := assetExtension + 1)
    }

    function Total(): nat {
      unparseable + nonHttp + crossDomain + assetExtension
    }
  }

  datatype DedupeResult = DedupeResult(urls: seq<Found>, rejected: Rejections, duplicates: nat)

  /** The URL parser, and the host name of the site if its own URL parses. */
  datatype Site = Site(parse: string -> Option<Url>, host: Option<string>)

  function NormalizeLoc(site: Site, loc: string): NormalizeResult {
    var u := site.parse(Trim(loc));
    if u.None? || site.host.None? then Rejected(Unparseable) else Normalize(u.value, site.host.value)
  }

  type Normalizer = string -> NormalizeResult

  function NormalizerOf(site: Site): Normalizer {
    loc => NormalizeLoc(site, loc)
  }

  /** Blanks around a loc do not matter, and it is unparseable if it, or the site's own URL, does not parse. */
  lemma LocIs(site: Site, before: string, loc: string, after: string)
    requires forall c :: c in before || c in after ==> IsSpace(c)
    ensures NormalizeLoc(site, before + loc + after) == NormalizeLoc(site, loc)
    ensures NormalizeLoc(site, loc) == Rejected(Unparseable) <==> site.parse(Trim(loc)).None? || site.host.None?
    ensures site.parse(Trim(loc)).Some? && site.host.Some? ==>
      NormalizeLoc(site, loc) == Normalize(site.parse(Trim(loc)).value, site.host.value)
  {
    TrimIgnoresBlanks(before, loc, after);
  }

  /** The accepted URLs of a list of entries, with repetitions. */
  function AcceptedUrls(norm: Normalizer, entries: seq<SitemapEntry>): seq<Url> {
    if |entries| == 0 then []
    else
      var n := |entries| - 1;
      var r := norm(entries[n].loc);
      AcceptedUrls(norm, entries[..n]) + if r.Accepted? then [r.url] else []
  }

  /** The list without repetitions, each element where it first appears. */
  ghost function FirstAppearances<T>(xs: seq<T>): seq<T> {
    if |xs| == 0 then []
    else
      var n := |xs| - 1;
      FirstAppearances(xs[..n]) + if xs[n] in xs[..n] then [] else [xs[n]]
  }

  ghost predicate FirstAt<T>(xs: seq<T>, x: T, i: int) {
    0 <= i < |xs| && xs[i] == x && x !in xs[..i]
  }

  lemma {:induction false} FirstAppearancesMembers<T>(xs: seq<T>)
    ensures Distinct(FirstAppearances(xs))
    ensures forall x :: x in FirstAppearances(xs) <==> x in xs
  {
    if |xs| > 0 {
      var n := |xs| - 1;
      FirstAppearancesMembers(xs[..n]);
      assert xs == xs[..n] + [xs[n]];
    }
  }

  /** Two elements are in the order in which they first appear. */
  lemma {:induction false} FirstAppearancesOrder<T>(xs: seq<T>, i: nat, j: nat, p: nat, q: nat)
    requires i < j < |FirstAppearances(xs)|
    requires FirstAt(xs, FirstAppearances(xs)[i], p) && FirstAt(xs, FirstAppearances(xs)[j], q)
    ensures p < q
  {
    var n := |xs| - 1;
    var r := FirstAppearances(xs[..n]);
    FirstAppearancesMembers(xs[..n]);
    if j < |r| {
      FirstIn(xs, r[i], p);
      FirstIn(xs, r[j], q);
      FirstAppearancesOrder(xs[..n], i, j, p, q);
    } else {
      assert r[i] in xs[..n];
      FirstIn(xs, r[i], p);
    }
  }

  /** An element of the front first appears in the front. */
  lemma FirstIn<T>(xs: seq<T>, x: T, p: nat)
    requires FirstAt(xs, x, p) && x in xs[..|xs| - 1]
    ensures p < |xs| - 1 && FirstAt(xs[..|xs| - 1], x, p)
  {
  }

  function LastmodsOf(norm: Normalizer, entries: seq<SitemapEntry>, u: Url): seq<Option<string>> {
    if |entries| == 0 then []
    else
      var n := |entries| - 1;
      LastmodsOf(norm, entries[..n], u)
      + if norm(entries[n].loc) == Accepted(u) then [entries[n].lastmod] else []
  }

  predicate Blank(m: Option<string>) {
    m.GetOr("") == ""
  }

  /** The greatest of the dates given for a URL; with no date at all, what its first entry says. */
  ghost predicate IsNewest(ms: seq<Option<string>>, m: Option<string>) {
    m in ms
    && (if Blank(m) then m == ms[0] && forall k :: k in ms ==> Blank(k)
        else forall k :: k in ms && !Blank(k) ==> LexLe(k.value, m.value))
  }

  predicate Supersedes(m: Option<string>, prev: Option<string>) {
    !Blank(m) && (Blank(prev) || !LexLe(m.value, prev.value))
  }

  lemma NewestNext(ms: seq<Option<string>>, prev: Option<string>, m: Option<string>)
    requires IsNewest(ms, prev)
    ensures IsNewest(ms + [m], if Supersedes(m, prev) then m else prev)
  {
    if !Blank(m) {
      LexTotal(m.value, m.value);
      if !Blank(prev) {
        LexTotal(m.value, prev.value);
        forall k | k in ms && !Blank(k) && Supersedes(m, prev) ensures LexLe(k.value, m.value) {
          LexTransitive(k.value, prev.value, m.value);
        }
      }
    }
  }

  function RejectedFor(norm: Normalizer, reason: RejectReason): SitemapEntry -> bool {
    (e: SitemapEntry) => norm(e.loc) == Rejected(reason)
  }

  /** How many entries were turned away for each reason. */
  ghost function Tally(norm: Normalizer, entries: seq<SitemapEntry>): Rejections {
    Rejections(
      |Filter(entries, RejectedFor(norm, Unparseable))|, |Filter(entries, RejectedFor(norm, NonHttp))|,
      |Filter(entries, RejectedFor(norm, CrossDomain))|, |Filter(entries, RejectedFor(norm, AssetExtension))|)
  }

  ghost predicate KeepsNewest(norm: Normalizer, entries: seq<SitemapEntry>, seen: map<Url, Option<string>>) {
    forall u :: u in seen ==> IsNewest(LastmodsOf(norm, entries, u), seen[u])
  }

  ghost function UrlsOf(found: seq<Found>): seq<Url> {
    seq(|found|, i requires 0 <= i < |found| => found[i].url)
  }

  lemma TallyNext(norm: Normalizer, entries: seq<SitemapEntry>, i: nat)
    requires i < |entries|
    ensures var r := norm(entries[i].loc);
      Tally(norm, entries[..i + 1])
      == if r.Rejected? then Tally(norm, entries[..i]).Bump(r.reason) else Tally(norm, entries[..i])
  {
    FilterNext(entries, i, RejectedFor(norm, Unparseable));
    FilterNext(entries, i, RejectedFor(norm, NonHttp));
    FilterNext(entries, i, RejectedFor(norm, CrossDomain));
    FilterNext(entries, i, RejectedFor(norm, AssetExtension));
  }

  lemma {:induction false} NoneAccepted(norm: Normalizer, entries: seq<SitemapEntry>, u: Url)
    requires u !in AcceptedUrls(norm, entries)
    ensures LastmodsOf(norm, entries, u) == []
  {
    if |entries| > 0 {
      NoneAccepted(norm, entries[..|entries| - 1], u);
    }
  }

  /**
   * The pages in order of first appearance, each with its newest date; the rest is counted, by reason
   * or as a duplicate.
   */
  method NormalizeAndDedupe(entries: seq<SitemapEntry>, site: Site) returns (result: DedupeResult)
    ensures UrlsOf(result.urls) == FirstAppearances(AcceptedUrls(NormalizerOf(site), entries))
    ensures forall f :: f in result.urls ==> IsNewest(LastmodsOf(NormalizerOf(site), entries, f.url), f.lastmod)
    ensures |result.urls| + result.duplicates == |AcceptedUrls(NormalizerOf(site), entries)|
    ensures result.rejected == Tally(NormalizerOf(site), entries)
  {
    result := DedupeBy(entries, NormalizerOf(site));
  }

  method DedupeBy(entries: seq<SitemapEntry>, norm: Normalizer) returns (result: DedupeResult)
    ensures UrlsOf(result.urls) == FirstAppearances(AcceptedUrls(norm, entries))
    ensures forall f :: f in result.urls ==> IsNewest(LastmodsOf(norm, entries, f.url), f.lastmod)
    ensures |result.urls| + result.duplicates == |AcceptedUrls(norm, entries)|
    ensures result.rejected == Tally(norm, entries)
  {
    var order: seq<Url> := [];
    var seen: map<Url, Option<string>> := map[];
    var rejected := Rejections(0, 0, 0, 0);
    var duplicates := 0;
    for i := 0 to |entries|
      invariant order == FirstAppearances(AcceptedUrls(norm, entries[..i]))
      invariant forall u :: u in seen <==> u in order
      invariant KeepsNewest(norm, entries[..i], seen)
      invariant |order| + duplicates == |AcceptedUrls(norm, entries[..i])|
      invariant rejected == Tally(norm, entries[..i])
    {
      var e := entries[i];
      var r := norm(e.loc);
      assert entries[..i + 1][..i] == entries[..i];
      TallyNext(norm, entries, i);
      FirstAppearancesMembers(AcceptedUrls(norm, entries[..i]));
      if r.Rejected? {
        SkipNext(norm, entries, i, seen);
        rejected := rejected.Bump(r.reason);
      } else {
        TakeNext(norm, entries, i, r.url, order, seen);
        if r.url in seen {
          duplicates := duplicates + 1;
          if Supersedes(e.lastmod, seen[r.url]) {
            seen := seen[r.url := e.lastmod];
          }
        } else {
          order := order + [r.url];
          seen := seen[r.url := e.lastmod];
        }
      }
    }
    assert entries[..|entries|] == entries;
    result := DedupeResult(Listed(order, seen), rejected, duplicates);
  }

  function Listed(order: seq<Url>, seen: map<Url, Option<string>>): (found: seq<Found>)
    requires forall u :: u in order ==> u in seen
    ensures UrlsOf(found) == order
    ensures forall f :: f in found ==> f.url in seen && f.lastmod == seen[f.url]
  {
    seq(|order|, i requires 0 <= i < |order| => assert order[i] in order; Found(order[i], seen[order[i]]))
  }

  lemma SkipNext(norm: Normalizer, entries: seq<SitemapEntry>, i: nat, seen: map<Url, Option<string>>)
    requires i < |entries| && norm(entries[i].loc).Rejected?
    ensures AcceptedUrls(norm, entries[..i + 1]) == AcceptedUrls(norm, entries[..i])
    ensures KeepsNewest(norm, entries[..i], seen) ==> KeepsNewest(norm, entries[..i + 1], seen)
  {
    var before, after := entries[..i], entries[..i + 1];
    assert after[..i] == before && after[i] == entries[i];
    assert AcceptedUrls(norm, before) + [] == AcceptedUrls(norm, before);
    forall v ensures LastmodsOf(norm, after, v) == LastmodsOf(norm, before, v) {
      assert LastmodsOf(norm, before, v) + [] == LastmodsOf(norm, before, v);
    }
  }

  lemma TakeNext(
    norm: Normalizer, entries: seq<SitemapEntry>, i: nat, u: Url, order: seq<Url>, seen: map<Url, Option<string>>)
    requires i < |entries| && norm(entries[i].loc) == Accepted(u)
    requires order == FirstAppearances(AcceptedUrls(norm, entries[..i]))
    requires forall u :: u in seen <==> u in order
    requires KeepsNewest(norm, entries[..i], seen)
    ensures var m := entries[i].lastmod;
      && |AcceptedUrls(norm, entries[..i + 1])| == |AcceptedUrls(norm, entries[..i])| + 1
      && FirstAppearances(AcceptedUrls(norm, entries[..i + 1])) == (if u in seen then order else order + [u])
      && KeepsNewest(norm, entries[..i + 1],
           if u !in seen || Supersedes(m, seen[u]) then seen[u := m] else seen)
  {
    var before, after := entries[..i], entries[..i + 1];
    assert after[..i] == before && after[i] == entries[i];
    var accepted := AcceptedUrls(norm, before);
    FirstAppearancesMembers(accepted);
    assert (accepted + [u])[..|accepted|] == accepted;
    TakeKeepsNewest(norm, entries, i, u, seen);
  }

  lemma TakeKeepsNewest(
    norm: Normalizer, entries: seq<SitemapEntry>, i: nat, u: Url, seen: map<Url, Option<string>>)
    requires i < |entries| && norm(entries[i].loc) == Accepted(u) && KeepsNewest(norm, entries[..i], seen)
    requires u !in seen ==> u !in AcceptedUrls(norm, entries[..i])
    ensures var m := entries[i].lastmod;
      KeepsNewest(norm, entries[..i + 1], if u !in seen || Supersedes(m, seen[u]) then seen[u := m] else seen)
  {
    var before, after := entries[..i], entries[..i + 1];
    var m := entries[i].lastmod;
    var next := if u !in seen || Supersedes(m, seen[u]) then seen[u := m] else seen;
    assert after[..i] == before && after[i] == entries[i];
    forall v | v in next ensures IsNewest(LastmodsOf(norm, after, v), next[v]) {
      if v != u {
        assert LastmodsOf(norm, after, v) == LastmodsOf(norm, before, v);
      } else {
        assert LastmodsOf(norm, after, u) == LastmodsOf(norm, before, u) + [m];
        if u in seen {
          NewestNext(LastmodsOf(norm, before, u), seen[u], m);
        } else {
          NoneAccepted(norm, before, u);
          OnlyIsNewest(m);
        }
      }
    }
  }

  lemma OnlyIsNewest(m: Option<string>)
    ensures IsNewest([] + [m], m)
  {
    if !Blank(m) {
      LexTotal(m.value, m.value);
    }
  }

  /** Nothing is lost: every entry is a page, a duplicate or a rejection. */
  lemma {:induction false} EveryEntryCounts(norm: Normalizer, entries: seq<SitemapEntry>)
    ensures |AcceptedUrls(norm, entries)| + Tally(norm, entries).Total() == |entries|
  {
    if |entries| > 0 {
      var n := |entries| - 1;
      EveryEntryCounts(norm, entries[..n]);
      TallyNext(norm, entries, n);
      assert entries[..n + 1] == entries;
    }
  }
}
