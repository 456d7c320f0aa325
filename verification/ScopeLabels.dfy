/** What a run covers, and the label that carries it through a crash (lib/services/run.service.ts). */
module ScopeLabels {
  import opened Sequences
  import opened Text

  datatype Strategy = Mobile | Desktop

  datatype Kind = Site | Group | Page | Pages | Retry

  datatype RunScope = RunScope(kind: Kind, ref: Option<string>, strategies: seq<Strategy>)

  const BOTH_STRATEGIES := [Mobile, Desktop]

  function StrategyName(s: Strategy): string {
    if s.Mobile? then "mobile" else "desktop"
  }

  function KindName(k: Kind): string {
    match k
    case Site => "site"
    case Group => "group"
    case Page => "page"
    case Pages => "pages"
    case Retry => "retry"
  }

  function Bracketed(s: Strategy): string {
    "(" + StrategyName(s) + ")"
  }

  function FormatScopeLabel(scope: RunScope): string {
    var head := if scope.kind.Site? then KindName(Site) else RefOf(scope.kind, scope.ref.GetOr("null"));
    if |scope.strategies| == 1 then head + (" " + Bracketed(scope.strategies[0])) else head
  }

  function RefOf(kind: Kind, ref: string): string {
    KindName(kind) + ":" + ref
  }

  /** The strategy a label ends with, looking past trailing blanks. */
  function StrategySuffix(raw: string): Option<Strategy> {
    var r := TrimEnd(raw);
    if EndsWith(r, Bracketed(Mobile)) then Some(Mobile)
    else if EndsWith(r, Bracketed(Desktop)) then Some(Desktop)
    else None
  }

  /** The label without its strategy suffix. */
  function Head(raw: string): string {
    match StrategySuffix(raw)
    case None => Trim(raw)
    case Some(s) => var r := TrimEnd(raw); Trim(r[..|r| - |Bracketed(s)|])
  }

  /** The kinds a label is read back as: `retry` is not one of them. */
  function ParsedKind(name: string): Option<Kind> {
    if name == KindName(Group) then Some(Group)
    else if name == KindName(Page) then Some(Page)
    else if name == KindName(Pages) then Some(Pages)
    else None
  }

  /** Reads kind and ref from a label without its suffix; anything unrecognised is the whole site. */
  function FromHead(head: string, strategies: seq<Strategy>): RunScope {
    var sep := Find(head, ":", 0);
    if sep > 0 && ParsedKind(head[..sep]).Some? && Trim(head[sep + 1..]) != "" then
      RunScope(ParsedKind(head[..sep]).value, Some(Trim(head[sep + 1..])), strategies)
    else RunScope(Site, None, strategies)
  }

  function StrategiesOf(raw: string): seq<Strategy> {
    match StrategySuffix(raw)
    case Some(s) => [s]
    case None => BOTH_STRATEGIES
  }

  function ParseScopeLabel(scopeLabel: Option<string>): RunScope {
    var raw := Trim(scopeLabel.GetOr(""));
    FromHead(Head(raw), StrategiesOf(raw))
  }

  // -------------------------------------------------------------------------------------------

  /** The scopes a label can carry: exactly these survive the round trip. */
  ghost predicate Representable(scope: RunScope) {
    && (|scope.strategies| == 1 || scope.strategies == BOTH_STRATEGIES)
    && match scope.kind
       case Site => scope.ref == None
       case Retry => false
       case _ =>
         && scope.ref.Some? && scope.ref.value != "" && Trimmed(scope.ref.value)
         && (|scope.strategies| == 1 || StrategySuffix(scope.ref.value) == None)
  }

  /** What is stored: the kind, the ref after a colon, and a strategy in brackets if there is just one. */
  lemma LabelsAre(ref: string, s: Strategy)
    ensures FormatScopeLabel(RunScope(Site, None, [Mobile, Desktop])) == "site"
    ensures FormatScopeLabel(RunScope(Site, None, [Mobile])) == "site (mobile)"
    ensures FormatScopeLabel(RunScope(Site, None, [Desktop])) == "site (desktop)"
    ensures FormatScopeLabel(RunScope(Group, Some(ref), [Mobile, Desktop])) == "group:" + ref
    ensures FormatScopeLabel(RunScope(Page, Some(ref), [Mobile, Desktop])) == "page:" + ref
    ensures FormatScopeLabel(RunScope(Pages, Some(ref), [Mobile, Desktop])) == "pages:" + ref
    ensures FormatScopeLabel(RunScope(Retry, Some(ref), [Mobile, Desktop])) == "retry:" + ref
    ensures FormatScopeLabel(RunScope(Group, Some(ref), [s]))
         == "group:" + ref + if s.Mobile? then " (mobile)" else " (desktop)"
  {
    assert KindName(Group) + ":" == "group:" && KindName(Page) + ":" == "page:";
    assert KindName(Pages) + ":" == "pages:" && KindName(Retry) + ":" == "retry:";
    assert " " + Bracketed(Mobile) == " (mobile)" && " " + Bracketed(Desktop) == " (desktop)";
  }

  /** Blanks around a label do not matter, and a missing label is an empty one. */
  lemma BlanksAreIgnored(before: string, text: string, after: string)
    requires forall c :: c in before || c in after ==> IsSpace(c)
    ensures ParseScopeLabel(Some(before + text + after)) == ParseScopeLabel(Some(text))
    ensures ParseScopeLabel(None) == ParseScopeLabel(Some(""))
  {
    TrimIgnoresBlanks(before, text, after);
  }

  /** The round trip holds exactly for those scopes. */
  lemma ScopeRoundTrip(scope: RunScope)
    ensures ParseScopeLabel(Some(FormatScopeLabel(scope))) == scope <==> Representable(scope)
  {
    ParsedIsRepresentable(Some(FormatScopeLabel(scope)));
    if scope.kind.Site? {
      SiteLabel(scope);
    } else if scope.ref.Some? && scope.ref.value != "" && Trimmed(scope.ref.value) {
      RefLabel(scope);
    }
  }

  /** Every retry label reads back as the whole site. */
  lemma RetryReadsAsSite(scope: RunScope)
    requires scope.kind.Retry?
    ensures ParseScopeLabel(Some(FormatScopeLabel(scope))).kind == Site
    ensures Representable(scope.(kind := Group)) ==>
      ParseScopeLabel(Some(FormatScopeLabel(scope))) == RunScope(Site, None, scope.strategies)
  {
    RetryHead(scope);
    if Representable(scope.(kind := Group)) {
      RefLabel(scope);
    }
  }

  /** Whatever the label, what it parses to is a scope that survives the round trip. */
  lemma ParsedIsRepresentable(scopeLabel: Option<string>)
    ensures Representable(ParseScopeLabel(scopeLabel))
  {
    var raw := Trim(scopeLabel.GetOr(""));
    TrimIsTrimmed(scopeLabel.GetOr(""));
    FromHeadIsClean(Head(raw), StrategiesOf(raw));
    if StrategySuffix(raw) == None {
      TrimIsTrimmed(raw);
      PlainHead(raw);
    }
  }

  lemma FromHeadIsClean(head: string, strategies: seq<Strategy>)
    ensures var scope := FromHead(head, strategies);
      && scope.strategies == strategies && !scope.kind.Retry?
      && (scope.kind.Site? <==> scope.ref.None?)
      && (scope.ref.Some? ==> scope.ref.value != "" && Trimmed(scope.ref.value))
  {
    TrimIsTrimmed(head[Find(head, ":", 0) + 1..]);
  }

  /** A tail of a label without a strategy ending has none either. */
  lemma TailHasNoSuffix(raw: string, ref: string)
    requires Trimmed(raw) && Trimmed(ref) && EndsWith(raw, ref) && StrategySuffix(raw) == None
    ensures StrategySuffix(ref) == None
  {
    assert TrimEnd(raw) == raw && TrimEnd(ref) == ref;
    if EndsWith(ref, Bracketed(Mobile)) {
      EndsWithTransitive(raw, ref, Bracketed(Mobile));
    } else if EndsWith(ref, Bracketed(Desktop)) {
      EndsWithTransitive(raw, ref, Bracketed(Desktop));
    }
  }

  lemma PlainHead(raw: string)
    requires Trimmed(raw) && StrategySuffix(raw) == None
    ensures var ref := FromHead(raw, BOTH_STRATEGIES).ref; ref.Some? ==> StrategySuffix(ref.value) == None
  {
    var k := Find(raw, ":", 0) + 1;
    if k <= |raw| {
      TrimmedTail(raw, k);
      TrimIsTrimmed(raw[k..]);
      TailHasNoSuffix(raw, Trim(raw[k..]));
    }
  }

  lemma NamesAreClean(k: Kind)
    ensures |KindName(k)| > 0 && !IsSpace(KindName(k)[0]) && ':' !in KindName(k)
    ensures !IsSpace(KindName(k)[|KindName(k)| - 1]) && KindName(k)[|KindName(k)| - 1] != ')'
  {
  }

  lemma Brackets(s: Strategy)
    ensures |Bracketed(s)| >= 2 && Bracketed(s)[|Bracketed(s)| - 1] == ')' && ':' !in Bracketed(s)
    ensures Bracketed(Mobile)[|Bracketed(Mobile)| - 2] != Bracketed(Desktop)[|Bracketed(Desktop)| - 2]
  {
  }

  lemma LastTwo(s: string, suffix: string)
    requires |suffix| >= 2 && EndsWith(s, suffix)
    ensures s[|s| - 1] == suffix[|suffix| - 1] && s[|s| - 2] == suffix[|suffix| - 2]
  {
  }

  /** A text followed by a strategy suffix ends in that strategy and no other. */
  lemma SuffixIsRead(text: string, s: Strategy)
    ensures TrimEnd(text + Bracketed(s)) == text + Bracketed(s)
    ensures StrategySuffix(text + Bracketed(s)) == Some(s)
    ensures Head(text + Bracketed(s)) == Trim(text)
  {
    var all := text + Bracketed(s);
    Brackets(s);
    assert EndsWith(all, Bracketed(s));
    LastTwo(all, Bracketed(s));
    if EndsWith(all, Bracketed(Mobile)) {
      LastTwo(all, Bracketed(Mobile));
    }
    assert all[..|text|] == text;
  }

  /** A label that ends in a suffix is already trimmed, and splits where the suffix begins. */
  lemma LabelEnds(text: string, s: Strategy)
    requires text != "" && Trimmed(text)
    ensures StrategiesOf(Trim(text + (" " + Bracketed(s)))) == [s]
    ensures Head(Trim(text + (" " + Bracketed(s)))) == text
  {
    Brackets(s);
    TrimAroundBlank(text, " ", Bracketed(s));
    SuffixIsRead(text + " ", s);
  }

  lemma TrimAroundBlank(text: string, blank: string, suffix: string)
    requires text != "" && Trimmed(text) && suffix != "" && !IsSpace(suffix[|suffix| - 1])
    requires forall c :: c in blank ==> IsSpace(c)
    ensures Trim(text + (blank + suffix)) == (text + blank) + suffix
    ensures Trim(text + blank) == text
  {
    var all := text + (blank + suffix);
    assert all == (text + blank) + suffix;
    assert TrimStart(all) == all && TrimEnd(all) == all;
    assert TrimStart(text + blank) == text + blank;
    TrimIsTrimmed(text);
    TrimEndDropsSpaces(text, blank);
  }

  lemma ParseSuffixed(text: string, s: Strategy)
    requires text != "" && Trimmed(text)
    ensures ParseScopeLabel(Some(text + (" " + Bracketed(s)))) == FromHead(text, [s])
  {
    LabelEnds(text, s);
    ParseFrom(text + (" " + Bracketed(s)), text, [s]);
  }

  lemma ParseFrom(text: string, head: string, strategies: seq<Strategy>)
    requires Head(Trim(text)) == head && StrategiesOf(Trim(text)) == strategies
    ensures ParseScopeLabel(Some(text)) == FromHead(head, strategies)
  {
  }

  lemma ParsePlain(text: string)
    requires text != "" && Trimmed(text)
    ensures StrategySuffix(text) == None ==> ParseScopeLabel(Some(text)) == FromHead(text, BOTH_STRATEGIES)
    ensures StrategySuffix(text) != None ==> |ParseScopeLabel(Some(text)).strategies| == 1
  {
  }

  lemma SiteLabel(scope: RunScope)
    requires scope.kind.Site?
    ensures ParseScopeLabel(Some(FormatScopeLabel(scope)))
         == RunScope(Site, None, if |scope.strategies| == 1 then scope.strategies else BOTH_STRATEGIES)
  {
    NamesAreClean(Site);
    if |scope.strategies| == 1 {
      ParseSuffixed(KindName(Site), scope.strategies[0]);
      SiteHead(KindName(Site), scope.strategies);
    } else {
      NotClosing(KindName(Site));
      ParsePlain(KindName(Site));
      SiteHead(KindName(Site), BOTH_STRATEGIES);
    }
  }

  lemma NotClosing(text: string)
    requires text != "" && !IsSpace(text[|text| - 1]) && text[|text| - 1] != ')'
    ensures StrategySuffix(text) == None
  {
  }

  lemma SiteHead(name: string, strategies: seq<Strategy>)
    requires ':' !in name
    ensures FromHead(name, strategies) == RunScope(Site, None, strategies)
  {
  }

  lemma SplitsAtColon(name: string, ref: string)
    requires ':' !in name
    ensures var head := name + ":" + ref;
      Find(head, ":", 0) == |name| && head[..|name|] == name && head[|name| + 1..] == ref
  {
    var head := name + (":" + ref);
    assert head == name + ":" + ref;
    AtStart(":", ref);
    AtRight(name, ":" + ref, ":", |name|);
    forall i | 0 <= i < |name| ensures !At(head, ":", i) {
      assert name[i] in name;
      NotAt(head, ":", i, 0);
    }
    FindIs(head, ":", 0, |name|);
  }

  /** kind:ref splits at its first colon. */
  lemma HeadSplits(kind: Kind, ref: string)
    ensures var head := RefOf(kind, ref);
      && Find(head, ":", 0) == |KindName(kind)|
      && head[..|KindName(kind)|] == KindName(kind) && head[|KindName(kind)| + 1..] == ref
  {
    NamesAreClean(kind);
    SplitsAtColon(KindName(kind), ref);
  }

  lemma RefHead(kind: Kind, ref: string, strategies: seq<Strategy>)
    requires !kind.Site? && ref != "" && Trimmed(ref)
    ensures FromHead(RefOf(kind, ref), strategies)
         == Reread(kind, ref, strategies)
  {
    NamesAreClean(kind);
    HeadSplits(kind, ref);
    TrimIsTrimmed(ref);
    KindIsRead(kind);
  }

  lemma KindIsRead(kind: Kind)
    ensures ParsedKind(KindName(kind)) == if kind.Site? || kind.Retry? then None else Some(kind)
  {
  }

  /** A label with a usable ref gives it back, unless the ref's own ending passes for a strategy. */
  lemma RefLabel(scope: RunScope)
    requires !scope.kind.Site? && scope.ref.Some? && scope.ref.value != "" && Trimmed(scope.ref.value)
    ensures var p := ParseScopeLabel(Some(FormatScopeLabel(scope)));
      if |scope.strategies| == 1 || StrategySuffix(scope.ref.value) == None then
        var strategies := if |scope.strategies| == 1 then scope.strategies else BOTH_STRATEGIES;
        p == if scope.kind.Retry? then RunScope(Site, None, strategies) else scope.(strategies := strategies)
      else |p.strategies| == 1
  {
    if |scope.strategies| == 1 {
      ParseRefWith(scope.kind, scope.ref.value, scope.strategies[0]);
      assert [scope.strategies[0]] == scope.strategies;
    } else {
      ParseRefPlain(scope.kind, scope.ref.value);
    }
  }

  function Reread(kind: Kind, ref: string, strategies: seq<Strategy>): RunScope {
    if kind.Retry? then RunScope(Site, None, strategies) else RunScope(kind, Some(ref), strategies)
  }

  lemma ParseRefWith(kind: Kind, ref: string, s: Strategy)
    requires !kind.Site? && ref != "" && Trimmed(ref)
    ensures ParseScopeLabel(Some(RefOf(kind, ref) + (" " + Bracketed(s)))) == Reread(kind, ref, [s])
  {
    RefIsTrimmed(kind, ref);
    ParseSuffixed(RefOf(kind, ref), s);
    RefHead(kind, ref, [s]);
  }

  lemma ParseRefPlain(kind: Kind, ref: string)
    requires !kind.Site? && ref != "" && Trimmed(ref)
    ensures if StrategySuffix(ref) == None
      then ParseScopeLabel(Some(RefOf(kind, ref))) == Reread(kind, ref, BOTH_STRATEGIES)
      else |ParseScopeLabel(Some(RefOf(kind, ref))).strategies| == 1
  {
    RefIsTrimmed(kind, ref);
    ParsePlain(RefOf(kind, ref));
    RefHead(kind, ref, BOTH_STRATEGIES);
  }

  lemma RefIsTrimmed(kind: Kind, ref: string)
    requires ref != "" && Trimmed(ref)
    ensures RefOf(kind, ref) != "" && Trimmed(RefOf(kind, ref))
    ensures StrategySuffix(RefOf(kind, ref)) == StrategySuffix(ref)
  {
    NamesAreClean(kind);
    SuffixOfRef(KindName(kind) + ":", ref);
  }

  lemma SuffixOfRef(lead: string, ref: string)
    requires lead != "" && lead[|lead| - 1] == ':' && ref != "" && Trimmed(ref)
    ensures StrategySuffix(lead + ref) == StrategySuffix(ref)
  {
    assert TrimEnd(ref) == ref && TrimEnd(lead + ref) == lead + ref;
    SuffixOfTail(lead, ref, Mobile);
    SuffixOfTail(lead, ref, Desktop);
  }

  /** No suffix straddles the colon. */
  lemma NoneStraddles(lead: string, ref: string, b: string)
    requires lead != "" && lead[|lead| - 1] == ':' && ':' !in b
    ensures EndsWith(lead + ref, b) <==> EndsWith(ref, b)
  {
    var all := lead + ref;
    if |b| <= |ref| {
      assert all[|all| - |b|..] == ref[|ref| - |b|..];
    } else if |b| <= |all| {
      assert all[|all| - |b|..][|b| - 1 - |ref|] == ':';
    }
  }

  lemma SuffixOfTail(lead: string, ref: string, s: Strategy)
    requires lead != "" && lead[|lead| - 1] == ':'
    ensures EndsWith(lead + ref, Bracketed(s)) <==> EndsWith(ref, Bracketed(s))
  {
    Brackets(s);
    NoneStraddles(lead, ref, Bracketed(s));
  }

  /** Whatever its ref, a retry label has no kind that is read back. */
  lemma RetryHead(scope: RunScope)
    requires scope.kind.Retry?
    ensures ParseScopeLabel(Some(FormatScopeLabel(scope))).kind == Site
  {
    var text := FormatScopeLabel(scope);
    FormatStarts(scope);
    var raw := Trim(text);
    HeadKeepsFirst(raw);
    var head := Head(raw);
    var sep := Find(head, ":", 0);
    if sep > 0 {
      FirstIsNotAKind(head[..sep]);
    }
  }

  lemma FormatStarts(scope: RunScope)
    requires scope.kind.Retry?
    ensures FormatScopeLabel(scope) != "" && FormatScopeLabel(scope)[0] == 'r'
  {
  }

  lemma HeadKeepsFirst(raw: string)
    requires raw == "" || !IsSpace(raw[0])
    ensures Head(raw) == "" || Head(raw)[0] == raw[0]
  {
  }

  lemma FirstIsNotAKind(name: string)
    requires name != "" && name[0] == 'r'
    ensures ParsedKind(name) == None
  {
  }
}
