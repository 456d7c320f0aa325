/**
 * The one spelling of a page's URL (lib/sitemap/normalize.ts). A URL is its parsed components: the
 * href they serialise to determines them, so equal hrefs are equal components.
 */
module NormalizeUrl {
  import opened Sequences
  import opened StableSort
  import opened Text

  datatype Param = Param(key: string, value: string)

  datatype Url = Url(
    protocol: string, username: string, password: string, hostname: string, port: string,
    pathname: string, params: seq<Param>, hash: string)

  datatype RejectReason = Unparseable | NonHttp | CrossDomain | AssetExtension

  datatype NormalizeResult = Accepted(url: Url) | Rejected(reason: RejectReason) {
    function Reason(): Option<RejectReason> {
      if Accepted? then None else Some(reason)
    }
  }

  const TRACKING_NAMES: seq<string> := [
    "fbclid", "gclid", "gbraid", "wbraid", "msclkid", "mc_eid", "mc_cid", "_hsenc", "_hsmi", "igshid", "yclid",
    "ref", "ref_src", "_ga", "vero_id", "s_kwcid"]

  const ASSET_EXTENSIONS: seq<string> := [
    ".pdf", ".jpg", ".jpeg", ".png", ".gif", ".webp", ".avif", ".svg", ".ico",
    ".xml", ".json", ".txt", ".zip", ".gz", ".mp4", ".webm", ".mp3", ".wav",
    ".css", ".js", ".woff", ".woff2", ".ttf", ".eot", ".dmg", ".exe"]

  predicate OneOf(s: string, names: seq<string>) {
    names != [] && (s == names[0] || OneOf(s, names[1..]))
  }

  const UTM_PREFIX: string := "utm_"

  predicate IsTracking(key: string) {
    StartsWith(LowerAll(key), UTM_PREFIX) || OneOf(LowerAll(key), TRACKING_NAMES)
  }

  function LastIndexOf(s: string, c: char): (r: int)
    ensures -1 <= r < |s|
    ensures r >= 0 ==> s[r] == c
    ensures forall i :: r < i < |s| ==> s[i] != c
  {
    if s == [] then -1 else if s[|s| - 1] == c then |s| - 1 else LastIndexOf(s[..|s| - 1], c)
  }

  function ExtensionOf(pathname: string): string {
    var last := pathname[LastIndexOf(pathname, '/') + 1..];
    var dot := LastIndexOf(last, '.');
    if dot == -1 then "" else LowerAll(last[dot..])
  }

  predicate IsAsset(pathname: string) {
    OneOf(ExtensionOf(pathname), ASSET_EXTENSIONS)
  }

  const SLASH: char := '/'

  function TrimSlashes(p: string): (r: string)
    ensures |r| <= |p|
    ensures r == [] || r[|r| - 1] != SLASH
  {
    if p == [] || p[|p| - 1] != SLASH then p else TrimSlashes(p[..|p| - 1])
  }

  /** Every trailing slash goes, except that the root stays the root. */
  function StripSlashes(p: string): string {
    if |p| > 1 && p[|p| - 1] == SLASH then
      var trimmed := TrimSlashes(p);
      if trimmed == [] then [SLASH] else trimmed
    else p
  }

  predicate ByKey(a: Param, b: Param) {
    LexLe(a.key, b.key)
  }

  function Untracked(tracking: string -> bool): Param -> bool {
    (p: Param) => !tracking(p.key)
  }

  const Kept: Param -> bool := Untracked(IsTracking)

  function EffectivePort(protocol: string, port: string): string {
    if (protocol == "https:" && port == "443") || (protocol == "http:" && port == "80") then "" else port
  }

  function Canonical(u: Url): Url {
    u.(hostname := LowerAll(u.hostname), port := EffectivePort(u.protocol, u.port),
       pathname := StripSlashes(u.pathname), params := Sort(Filter(u.params, Kept), ByKey), hash := [])
  }

  predicate IsHttp(protocol: string) {
    protocol == "http:" || protocol == "https:"
  }

  /** `host` is the site's own host name. */
  function Normalize(u: Url, host: string): NormalizeResult {
    if !IsHttp(u.protocol) then Rejected(NonHttp)
    else if LowerAll(u.hostname) != LowerAll(host) then Rejected(CrossDomain)
    else if IsAsset(u.pathname) then Rejected(AssetExtension)
    else Accepted(Canonical(u))
  }

  /** A URL object, edited field by field. */
  class UrlObject {
    var protocol: string
    const username: string
    const password: string
    var hostname: string
    var port: string
    var pathname: string
    var params: seq<Param>
    var hash: string

    function Components(): Url
      reads this
    {
      Url(protocol, username, password, hostname, port, pathname, params, hash)
    }

    constructor (u: Url)
      ensures Components() == u
    {
      protocol, username, password, hostname := u.protocol, u.username, u.password, u.hostname;
      port, pathname, params, hash := u.port, u.pathname, u.params, u.hash;
    }

    /** searchParams.delete for each tracking key, over a snapshot of the keys. */
    method DropTracking()
      modifies this`params
      ensures params == Filter(old(params), Kept)
    {
      var snapshot := params;
      NothingDeleted(IsTracking, snapshot);
      for i := 0 to |snapshot|
        invariant params == Filter(snapshot, NotDeleted(IsTracking, snapshot[..i]))
      {
        DeleteNext(IsTracking, snapshot, i);
        if IsTracking(snapshot[i].key) {
          params := Filter(params, OtherKey(snapshot[i].key));
        }
      }
      assert snapshot[..|snapshot|] == snapshot;
      AllDeleted(IsTracking, snapshot);
    }

    method DropDefaultPort()
      modifies this`port
      ensures port == EffectivePort(protocol, old(port))
    {
      if protocol == "https:" && port == "443" {
        port := "";
      } else if protocol == "http:" && port == "80" {
        port := "";
      }
    }

    method DropSlashes()
      modifies this`pathname
      ensures pathname == StripSlashes(old(pathname))
    {
      if |pathname| > 1 && pathname[|pathname| - 1] == SLASH {
        pathname := TrimSlashes(pathname);
        if pathname == [] {
          pathname := [SLASH];
        }
      }
    }

    method DropNoise()
      modifies this
      ensures Components() == old(Components()).(
        pathname := StripSlashes(old(pathname)), params := Sort(Filter(old(params), Kept), ByKey), hash := [])
    {
      hash := [];
      DropTracking();
      params := Sort(params, ByKey);
      DropSlashes();
    }

    /** Everything up to the last rejection. */
    method Check(host: string) returns (rejected: Option<RejectReason>)
      modifies this`hostname, this`port
      ensures rejected == Normalize(old(Components()), host).Reason()
      ensures rejected.None? ==>
        hostname == LowerAll(old(hostname)) && port == EffectivePort(protocol, old(port))
    {
      if !IsHttp(protocol) {
        return Some(NonHttp);
      }
      hostname := LowerAll(hostname);
      DropDefaultPort();
      if hostname != LowerAll(host) {
        return Some(CrossDomain);
      }
      return if IsAsset(pathname) then Some(AssetExtension) else None;
    }

    method NormalizeInPlace(host: string) returns (rejected: Option<RejectReason>)
      modifies this
      ensures rejected == Normalize(old(Components()), host).Reason()
      ensures rejected.None? ==> Normalize(old(Components()), host) == Accepted(Components())
    {
      rejected := Check(host);
      if rejected.None? {
        DropNoise();
      }
    }
  }

  predicate KeyIn(key: string, ps: seq<Param>) {
    ps != [] && (ps[|ps| - 1].key == key || KeyIn(key, ps[..|ps| - 1]))
  }

  /** Not yet deleted, once the tracking keys among `done` have been. */
  function NotDeleted(tracking: string -> bool, done: seq<Param>): Param -> bool {
    (p: Param) => !(tracking(p.key) && KeyIn(p.key, done))
  }

  function OtherKey(key: string): Param -> bool {
    (p: Param) => p.key != key
  }

  function HasKey(key: string): Param -> bool {
    (p: Param) => p.key == key
  }

  lemma NothingDeleted(tracking: string -> bool, ps: seq<Param>)
    ensures Filter(ps, NotDeleted(tracking, ps[..0])) == ps
  {
    forall p: Param ensures NotDeleted(tracking, ps[..0])(p) {
      assert ps[..0] == [] && !KeyIn(p.key, []);
    }
    FilterAll(ps, NotDeleted(tracking, ps[..0]));
  }

  lemma DeleteNext(tracking: string -> bool, ps: seq<Param>, i: nat)
    requires i < |ps|
    ensures Filter(ps, NotDeleted(tracking, ps[..i + 1]))
         == if tracking(ps[i].key) then Filter(Filter(ps, NotDeleted(tracking, ps[..i])), OtherKey(ps[i].key))
            else Filter(ps, NotDeleted(tracking, ps[..i]))
  {
    var done, last := ps[..i], ps[i];
    assert ps[..i + 1] == done + [last];
    forall p: Param
      ensures NotDeleted(tracking, done + [last])(p)
           == (NotDeleted(tracking, done)(p) && !(tracking(last.key) && last.key == p.key))
    {
      NotDeletedNext(tracking, done, last, p);
    }
    if tracking(last.key) {
      FilterFilter(ps, NotDeleted(tracking, done), OtherKey(last.key), NotDeleted(tracking, done + [last]));
    } else {
      FilterAgree(ps, NotDeleted(tracking, done), NotDeleted(tracking, done + [last]));
    }
  }

  lemma NotDeletedNext(tracking: string -> bool, done: seq<Param>, last: Param, p: Param)
    ensures NotDeleted(tracking, done + [last])(p)
         == (NotDeleted(tracking, done)(p) && !(tracking(last.key) && last.key == p.key))
  {
    assert (done + [last])[..|done|] == done;
    assert KeyIn(p.key, done + [last]) == (last.key == p.key || KeyIn(p.key, done));
    if last.key == p.key {
      assert tracking(last.key) == tracking(p.key);
    }
  }

  lemma {:induction false} KeyIsIn(p: Param, ps: seq<Param>)
    requires p in ps
    ensures KeyIn(p.key, ps)
  {
    if p != ps[|ps| - 1] {
      KeyIsIn(p, ps[..|ps| - 1]);
    }
  }

  lemma AllDeleted(tracking: string -> bool, ps: seq<Param>)
    ensures Filter(ps, NotDeleted(tracking, ps)) == Filter(ps, Untracked(tracking))
  {
    forall p | p in ps ensures NotDeleted(tracking, ps)(p) == Untracked(tracking)(p) {
      KeyIsIn(p, ps);
    }
    FilterAgree(ps, NotDeleted(tracking, ps), Untracked(tracking));
  }

  // -------------------------------------------------------------------------------------------
  // Query parameters
  // -------------------------------------------------------------------------------------------

  lemma ByKeyIsTotal()
    ensures TotalPreorder(ByKey)
  {
    forall a: Param, b: Param ensures ByKey(a, b) || ByKey(b, a) {
      LexTotal(a.key, b.key);
    }
    forall a: Param, b: Param, c: Param | ByKey(a, b) && ByKey(b, c) ensures ByKey(a, c) {
      LexTransitive(a.key, b.key, c.key);
    }
  }

  lemma TiesShareKey(x: Param)
    ensures forall p :: Tie(x, ByKey)(p) == HasKey(x.key)(p)
  {
    forall p: Param ensures Tie(x, ByKey)(p) == HasKey(x.key)(p) {
      LexTotal(x.key, p.key);
      assert Tie(x, ByKey)(p) == (ByKey(x, p) && ByKey(p, x));
    }
  }

  /** The parameters with one key, in order: all that the canonical query depends on. */
  lemma KeptWithKey(ps: seq<Param>, key: string)
    ensures Filter(Filter(ps, Kept), HasKey(key)) == if IsTracking(key) then [] else Filter(ps, HasKey(key))
  {
  }

  /** Sorting by key keeps each key's parameters in order. */
  lemma SortKeepsKeyOrder(ps: seq<Param>, key: string)
    ensures Filter(Sort(ps, ByKey), HasKey(key)) == Filter(ps, HasKey(key))
  {
    ByKeyIsTotal();
    SortCommutesWithFilter(ps, ByKey, HasKey(key));
    OneKeyIsSorted(Filter(ps, HasKey(key)), key);
    SortOfSorted(Filter(ps, HasKey(key)), ByKey);
  }

  lemma OneKeyIsSorted(ps: seq<Param>, key: string)
    requires forall p :: p in ps ==> p.key == key
    ensures Sorted(ps, ByKey)
  {
    LexTotal(key, key);
    forall i, j | 0 <= i < j < |ps| ensures ByKey(ps[i], ps[j]) {
      assert ps[i] in ps && ps[j] in ps;
    }
  }

  ghost predicate SameQuery(ps: seq<Param>, qs: seq<Param>) {
    forall key {:trigger HasKey(key)} :: !IsTracking(key) ==> Filter(ps, HasKey(key)) == Filter(qs, HasKey(key))
  }

  /** Two queries become one just when every key that is no tracking key has the same values in the same order. */
  lemma QueryCanonicalIff(ps: seq<Param>, qs: seq<Param>)
    ensures Sort(Filter(ps, Kept), ByKey) == Sort(Filter(qs, Kept), ByKey) <==> SameQuery(ps, qs)
  {
    if SameQuery(ps, qs) {
      ByKeyIsTotal();
      forall x: Param ensures Filter(Filter(ps, Kept), Tie(x, ByKey)) == Filter(Filter(qs, Kept), Tie(x, ByKey)) {
        TiesShareKey(x);
        FilterAgree(Filter(ps, Kept), Tie(x, ByKey), HasKey(x.key));
        FilterAgree(Filter(qs, Kept), Tie(x, ByKey), HasKey(x.key));
        KeptWithKey(ps, x.key);
        KeptWithKey(qs, x.key);
      }
      SortDependsOnTies(Filter(ps, Kept), Filter(qs, Kept), ByKey);
    }
    if Sort(Filter(ps, Kept), ByKey) == Sort(Filter(qs, Kept), ByKey) {
      forall key | !IsTracking(key) ensures Filter(ps, HasKey(key)) == Filter(qs, HasKey(key)) {
        SortKeepsKeyOrder(Filter(ps, Kept), key);
        SortKeepsKeyOrder(Filter(qs, Kept), key);
        KeptWithKey(ps, key);
        KeptWithKey(qs, key);
      }
    }
  }

  // -------------------------------------------------------------------------------------------
  // Paths
  // -------------------------------------------------------------------------------------------

  function Slashes(n: nat): string {
    seq(n, _ => SLASH)
  }

  /** Two paths that differ at most in their trailing slashes. */
  ghost predicate SamePath(p: string, q: string) {
    exists stem: string, m: nat, n: nat :: p == stem + Slashes(m) && q == stem + Slashes(n)
  }

  lemma {:induction false} TrimIsStem(p: string) returns (n: nat)
    ensures p == TrimSlashes(p) + Slashes(n)
  {
    if p == [] || p[|p| - 1] != SLASH {
      n := 0;
      assert p == p + Slashes(0);
    } else {
      n := TrimIsStem(p[..|p| - 1]);
      assert Slashes(n + 1) == Slashes(n) + [SLASH];
      assert p == p[..|p| - 1] + [SLASH];
      n := n + 1;
    }
  }

  lemma {:induction false} TrimDropsSlashes(stem: string, n: nat)
    ensures TrimSlashes(stem + Slashes(n)) == TrimSlashes(stem)
  {
    if n == 0 {
      assert stem + Slashes(0) == stem;
    } else {
      assert (stem + Slashes(n))[..|stem| + n - 1] == stem + Slashes(n - 1);
      TrimDropsSlashes(stem, n - 1);
    }
  }

  predicate IsPath(p: string) {
    p != [] && p[0] == SLASH
  }

  lemma StripIsTrim(p: string)
    requires IsPath(p)
    ensures StripSlashes(p) == if TrimSlashes(p) == [] then [SLASH] else TrimSlashes(p)
  {
  }

  lemma StripIff(p: string, q: string)
    requires IsPath(p) && IsPath(q)
    ensures StripSlashes(p) == StripSlashes(q) <==> SamePath(p, q)
  {
    StripIsTrim(p);
    StripIsTrim(q);
    if SamePath(p, q) {
      var stem: string, m: nat, n: nat :| p == stem + Slashes(m) && q == stem + Slashes(n);
      TrimDropsSlashes(stem, m);
      TrimDropsSlashes(stem, n);
    }
    if StripSlashes(p) == StripSlashes(q) {
      var m := TrimIsStem(p);
      var n := TrimIsStem(q);
      assert TrimSlashes(p) == TrimSlashes(q);
    }
  }

  // -------------------------------------------------------------------------------------------
  // The canonical form
  // -------------------------------------------------------------------------------------------

  /** Equal, or both the default of the protocol: none, 443 for https, 80 for http. */
  ghost predicate SamePort(protocol: string, p: string, q: string) {
    p == q || (IsDefaultPort(protocol, p) && IsDefaultPort(protocol, q))
  }

  ghost predicate IsDefaultPort(protocol: string, port: string) {
    port == "" || (protocol == "https:" && port == "443") || (protocol == "http:" && port == "80")
  }

  /** The same page: fragment, tracking parameters, trailing slashes and the order across keys do not count. */
  ghost predicate SamePage(u: Url, v: Url) {
    && u.protocol == v.protocol && u.username == v.username && u.password == v.password
    && LowerAll(u.hostname) == LowerAll(v.hostname)
    && SamePort(u.protocol, u.port, v.port)
    && SamePath(u.pathname, v.pathname)
    && SameQuery(u.params, v.params)
  }

  /** Accepted URLs get one spelling just when they are the same page. */
  lemma CanonicalIff(u: Url, v: Url, host: string)
    requires IsPath(u.pathname) && IsPath(v.pathname)
    ensures Normalize(u, host).Accepted? && Normalize(v, host).Accepted? ==>
      (Normalize(u, host) == Normalize(v, host) <==> SamePage(u, v))
  {
    StripIff(u.pathname, v.pathname);
    QueryCanonicalIff(u.params, v.params);
  }

  /** Which URLs are rejected, and for which of several reasons. */
  lemma RejectedIs(u: Url, host: string)
    ensures var http := u.protocol == "http:" || u.protocol == "https:";
      var own := LowerAll(u.hostname) == LowerAll(host);
      && (Normalize(u, host) == Rejected(NonHttp) <==> !http)
      && (Normalize(u, host) == Rejected(CrossDomain) <==> http && !own)
      && (Normalize(u, host) == Rejected(AssetExtension) <==> http && own && IsAsset(u.pathname))
      && (Normalize(u, host).Accepted? <==> http && own && !IsAsset(u.pathname))
  {
  }

  /**
   * What is accepted: lower-case host, no default port, no fragment, the parameters that do not track in
   * the order of their keys, equal keys in their old order, and the path without the slashes at its end.
   */
  lemma AcceptedIs(u: Url, host: string, key: string)
    requires Normalize(u, host).Accepted? && IsPath(u.pathname)
    ensures var c := Normalize(u, host).url;
      && c.protocol == u.protocol && c.username == u.username && c.password == u.password
      && c.hostname == LowerAll(u.hostname) && c.hash == ""
      && c.port == (if IsDefaultPort(u.protocol, u.port) then "" else u.port)
      && (forall i, j :: 0 <= i < j < |c.params| ==> LexLe(c.params[i].key, c.params[j].key))
      && Filter(c.params, HasKey(key)) == (if IsTracking(key) then [] else Filter(u.params, HasKey(key)))
      && SamePath(c.pathname, u.pathname) && (c.pathname == "/" || c.pathname[|c.pathname| - 1] != '/')
  {
    var kept := Filter(u.params, Kept);
    ByKeyIsTotal();
    SortSorted(kept, ByKey);
    AcceptedQuery(u.params, key);
    StripIsTrim(u.pathname);
    var n := TrimIsStem(u.pathname);
    StripKeepsPath(u.pathname, n);
  }

  lemma AcceptedQuery(ps: seq<Param>, key: string)
    ensures Filter(Sort(Filter(ps, Kept), ByKey), HasKey(key))
         == if IsTracking(key) then [] else Filter(ps, HasKey(key))
  {
    SortKeepsKeyOrder(Filter(ps, Kept), key);
    if IsTracking(key) {
      FilterNone(Filter(ps, Kept), HasKey(key));
    } else {
      KeptWithKey(ps, key);
    }
  }

  lemma StripKeepsPath(p: string, n: nat)
    requires IsPath(p) && p == TrimSlashes(p) + Slashes(n)
    ensures SamePath(StripSlashes(p), p) && StripSlashes(p) != ""
    ensures StripSlashes(p) == "/" || StripSlashes(p)[|StripSlashes(p)| - 1] != '/'
  {
    StripIsTrim(p);
    if TrimSlashes(p) == [] {
      assert StripSlashes(p) == "" + Slashes(1) && p == "" + Slashes(n);
    } else {
      assert StripSlashes(p) == TrimSlashes(p) + Slashes(0);
    }
  }

  /** A parameter tracks if its key, in any case, starts with utm_ or is one of sixteen names. */
  lemma TrackingIs(key: string)
    ensures IsTracking(key) <==>
      var k := LowerAll(key);
      (|k| >= 4 && k[..4] == "utm_")
      || k == "fbclid" || k == "gclid" || k == "gbraid" || k == "wbraid" || k == "msclkid" || k == "mc_eid"
      || k == "mc_cid" || k == "_hsenc" || k == "_hsmi" || k == "igshid" || k == "yclid" || k == "ref"
      || k == "ref_src" || k == "_ga" || k == "vero_id" || k == "s_kwcid"
  {
    StartsWithIs(LowerAll(key), UTM_PREFIX);
    OneOfIs(LowerAll(key), TRACKING_NAMES);
  }

  lemma {:induction false} OneOfIs(s: string, names: seq<string>)
    ensures OneOf(s, names) <==> s in names
  {
    if names != [] {
      OneOfIs(s, names[1..]);
      assert names == [names[0]] + names[1..];
    }
  }

  /** A dot, and after it neither a dot nor a slash. */
  ghost predicate IsExtension(ext: string) {
    ext != "" && ext[0] == '.' && forall i :: 0 < i < |ext| ==> ext[i] != '.' && ext[i] != '/'
  }

  lemma LastIndexIs(s: string, c: char, at: nat)
    requires at < |s| && s[at] == c && forall i :: at < i < |s| ==> s[i] != c
    ensures LastIndexOf(s, c) == at
  {
  }

  lemma NoSlashAfter(stem: string, ext: string)
    requires forall i :: 0 <= i < |ext| ==> ext[i] != '/'
    ensures LastIndexOf(stem + ext, '/') < |stem|
  {
    var p := stem + ext;
    forall i | |stem| <= i < |p| ensures p[i] != '/' {
      assert p[i] == ext[i - |stem|];
    }
  }

  lemma LastDot(lead: string, ext: string)
    requires ext != "" && ext[0] == '.' && forall i :: 0 < i < |ext| ==> ext[i] != '.'
    ensures LastIndexOf(lead + ext, '.') == |lead| && (lead + ext)[|lead|..] == ext
  {
    var last := lead + ext;
    forall i | |lead| < i < |last| ensures last[i] != '.' {
      assert last[i] == ext[i - |lead|];
    }
    LastIndexIs(last, '.', |lead|);
  }

  lemma TailFrom(stem: string, ext: string, k: nat)
    requires k <= |stem|
    ensures (stem + ext)[k..] == stem[k..] + ext
  {
  }

  /** A path's extension is what it ends with from its last dot on, if no slash comes after that. */
  lemma ExtensionIs(stem: string, ext: string)
    requires IsExtension(LowerAll(ext))
    ensures ExtensionOf(stem + ext) == LowerAll(ext)
  {
    LowerKeepsMarks(ext);
    assert LowerAll(ext)[0] == '.';
    assert forall i :: 0 < i < |ext| ==> LowerAll(ext)[i] != '.' && LowerAll(ext)[i] != '/';
    NoSlashAfter(stem, ext);
    var k := LastIndexOf(stem + ext, '/') + 1;
    TailFrom(stem, ext, k);
    LastDot(stem[k..], ext);
  }

  lemma LowerKeepsMarks(s: string)
    ensures |LowerAll(s)| == |s|
    ensures forall i :: 0 <= i < |s| ==>
      (LowerAll(s)[i] == '.' <==> s[i] == '.') && (LowerAll(s)[i] == '/' <==> s[i] == '/')
  {
  }

  lemma Rejoins(p: string, k: nat, j: nat)
    requires k <= |p| && j <= |p[k..]|
    ensures p == p[..k + j] + p[k..][j..]
    ensures p == p + "" && LowerAll("") == ""
  {
  }

  lemma ExtensionEnds(p: string) returns (stem: string, ext: string)
    ensures p == stem + ext && LowerAll(ext) == ExtensionOf(p)
  {
    var k := LastIndexOf(p, '/') + 1;
    var dot := LastIndexOf(p[k..], '.');
    if dot == -1 {
      Rejoins(p, 0, 0);
      stem, ext := p, "";
    } else {
      Rejoins(p, k, dot);
      stem, ext := p[..k + dot], p[k..][dot..];
    }
  }

  /** A path is an asset's if it ends, in any case, like one of the extensions. */
  lemma AssetIff(p: string)
    ensures IsAsset(p) <==> exists stem, ext :: p == stem + ext && LowerAll(ext) in ASSET_EXTENSIONS
  {
    OneOfIs(ExtensionOf(p), ASSET_EXTENSIONS);
    var stem, ext := ExtensionEnds(p);
    forall s, e | p == s + e && LowerAll(e) in ASSET_EXTENSIONS ensures ExtensionOf(p) == LowerAll(e) {
      ExtensionsAreClean(LowerAll(e));
      ExtensionIs(s, e);
    }
  }

  lemma ExtensionsAreClean(ext: string)
    requires ext in ASSET_EXTENSIONS
    ensures IsExtension(ext)
  {
  }

  /** The extensions: no more than these. */
  lemma ExtensionsAre(ext: string)
    ensures ext in ASSET_EXTENSIONS <==>
      ext == ".pdf" || ext == ".jpg" || ext == ".jpeg" || ext == ".png" || ext == ".gif" || ext == ".webp"
      || ext == ".avif" || ext == ".svg" || ext == ".ico" || ext == ".xml" || ext == ".json" || ext == ".txt"
      || ext == ".zip" || ext == ".gz" || ext == ".mp4" || ext == ".webm" || ext == ".mp3" || ext == ".wav"
      || ext == ".css" || ext == ".js" || ext == ".woff" || ext == ".woff2" || ext == ".ttf" || ext == ".eot"
      || ext == ".dmg" || ext == ".exe"
  {
  }

  lemma LowerIdempotent(s: string)
    ensures LowerAll(LowerAll(s)) == LowerAll(s)
  {
  }

  lemma PortIdempotent(protocol: string, port: string)
    ensures EffectivePort(protocol, EffectivePort(protocol, port)) == EffectivePort(protocol, port)
  {
  }

  lemma CanonicalIdempotent(u: Url)
    ensures Canonical(Canonical(u)) == Canonical(u)
  {
    var kept := Filter(u.params, Kept);
    var sorted := Sort(kept, ByKey);
    LowerIdempotent(u.hostname);
    PortIdempotent(u.protocol, u.port);
    ByKeyIsTotal();
    SortSorted(kept, ByKey);
    SameMembers(kept, ByKey);
    FilterAll(sorted, Kept);
    SortOfSorted(sorted, ByKey);
  }

  /** A spelling is final just when the stripped path is not a file's; otherwise it is rejected next time. */
  lemma IdempotentIff(u: Url, host: string)
    requires Normalize(u, host).Accepted?
    ensures var c := Normalize(u, host).url;
      && (Normalize(c, host) == Accepted(c) <==> !IsAsset(StripSlashes(u.pathname)))
      && (IsAsset(StripSlashes(u.pathname)) ==> Normalize(c, host) == Rejected(AssetExtension))
  {
    CanonicalIdempotent(u);
    LowerIdempotent(u.hostname);
    NormalizeAgain(Canonical(u), host);
  }

  lemma NormalizeAgain(c: Url, host: string)
    requires IsHttp(c.protocol) && LowerAll(c.hostname) == LowerAll(host)
    ensures Normalize(c, host) == if IsAsset(c.pathname) then Rejected(AssetExtension) else Accepted(Canonical(c))
  {
  }

  /** A slash after a file name, `/a.pdf/` say, hides the extension from the check that comes before the strip. */
  lemma SlashHidesAsset(u: Url, host: string)
    requires IsHttp(u.protocol) && LowerAll(u.hostname) == LowerAll(host) && IsPath(u.pathname) && IsAsset(u.pathname)
    ensures Normalize(u, host) == Rejected(AssetExtension)
    ensures var v := u.(pathname := u.pathname + [SLASH]);
      Normalize(v, host) == Accepted(Canonical(v)) && Canonical(v).pathname == u.pathname
      && Normalize(Canonical(v), host) == Rejected(AssetExtension)
  {
    var v := u.(pathname := u.pathname + [SLASH]);
    SlashIsStripped(u.pathname);
    NormalizeAgain(v, host);
    IdempotentIff(v, host);
  }

  lemma SlashIsStripped(p: string)
    requires IsPath(p) && IsAsset(p)
    ensures StripSlashes(p + [SLASH]) == p && !IsAsset(p + [SLASH])
  {
    EndsInSlash(p + [SLASH]);
    if p[|p| - 1] == SLASH {
      EndsInSlash(p);
    }
    assert (p + [SLASH])[..|p + [SLASH]| - 1] == p;
    assert TrimSlashes(p) == p;
  }

  lemma EndsInSlash(p: string)
    requires p != [] && p[|p| - 1] == SLASH
    ensures !IsAsset(p)
  {
    assert p[LastIndexOf(p, '/') + 1..] == "";
    EmptyIsNoAsset();
  }

  lemma EmptyIsNoAsset()
    ensures !OneOf("", ASSET_EXTENSIONS)
  {
    NotOneOf("", ASSET_EXTENSIONS);
  }

  lemma {:induction false} NotOneOf(s: string, names: seq<string>)
    requires forall i :: 0 <= i < |names| ==> names[i] != s
    ensures !OneOf(s, names)
  {
    if names != [] {
      NotOneOf(s, names[1..]);
    }
  }

  /** A fragment, a tracking parameter and the order of neighbours with different keys change nothing. */
  lemma NoiseIsDropped(
    u: Url, host: string, hash: string, t: Param, before: seq<Param>, x: Param, y: Param, after: seq<Param>)
    requires IsTracking(t.key) && x.key != y.key
    ensures Normalize(u.(hash := hash, params := before + [x, y] + after), host)
         == Normalize(u.(params := before + [y, x, t] + after), host)
  {
    var ps, qs := before + [x, y] + after, before + [y, x, t] + after;
    forall key | !IsTracking(key) ensures Filter(ps, HasKey(key)) == Filter(qs, HasKey(key)) {
      FilterNoise(t, before, x, y, after, HasKey(key));
    }
    QueryCanonicalIff(ps, qs);
  }

  lemma FilterNoise(t: Param, before: seq<Param>, x: Param, y: Param, after: seq<Param>, f: Param -> bool)
    requires !f(t) && !(f(x) && f(y))
    ensures Filter(before + [x, y] + after, f) == Filter(before + [y, x, t] + after, f)
  {
    FilterSwap(x, y, f);
    FilterOne(t, f);
    FilterAppend([y, x], [t], f);
    FilterMiddle(before, [x, y], after, f);
    FilterMiddle(before, [y, x, t], after, f);
    assert [y, x] + [t] == [y, x, t];
  }

  lemma FilterMiddle(before: seq<Param>, middle: seq<Param>, after: seq<Param>, f: Param -> bool)
    ensures Filter(before + middle + after, f) == Filter(before, f) + Filter(middle, f) + Filter(after, f)
  {
    FilterAppend(before + middle, after, f);
    FilterAppend(before, middle, f);
  }

  lemma FilterSwap(x: Param, y: Param, f: Param -> bool)
    requires !(f(x) && f(y))
    ensures Filter([x, y], f) == Filter([y, x], f)
  {
  }
}
