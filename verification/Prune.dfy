/** Taking the bulk out of a response before it is stored (lib/psi/prune.ts). */
module Prune {
  import opened Sequences
  import opened Arithmetic
  import opened Psi

  const DROPPED_AUDITS: set<string> := {
    "screenshot-thumbnails", "script-treemap-data", "main-thread-tasks", "diagnostics"
  }

  const DROPPED_KEYS: set<string> := {"fullPageScreenshot", "timing", "entities", "i18n", "stackPacks"}

  const DEEP_AUDITS: set<string> := {
    "network-requests", "render-blocking-insight", "unused-css-rules", "unused-javascript", "uses-responsive-images",
    "modern-image-format-insight", "image-delivery-insight", "legacy-javascript-insight",
    "duplicated-javascript-insight", "third-parties-insight", "font-display-insight", "cache-insight",
    "lcp-discovery-insight", "cls-culprits-insight"}

  const CAP_ITEMS: nat := 10
  const DEEP_CAP_ITEMS: nat := 30
  const MAX_ITEM_STRING: nat := 200
  const ELLIPSIS: char := '\U{2026}'

  // -------------------------------------------------------------------------------------------
  // One item
  // -------------------------------------------------------------------------------------------

  function Cut(s: string): string {
    if |s| > MAX_ITEM_STRING then s[..MAX_ITEM_STRING] + [ELLIPSIS] else s
  }

  /** The property name of an array index. */
  function IndexKey(i: nat): string {
    if i < 10 then [(i + 48) as char] else IndexKey(i / 10) + [(i % 10 + 48) as char]
  }

  /** truncateItem: copies an object entry by entry. An array is an object with index keys to it. */
  function TruncatedItem(item: Json): Json
    decreases item, 0
  {
    match item
    case Arr(items) =>
      Obj(seq(|items|, i requires 0 <= i < |items| => (IndexKey(i), TruncatedValue(items[i]))))
    case Obj(entries) =>
      Obj(seq(|entries|, i requires 0 <= i < |entries| => (entries[i].0, TruncatedValue(entries[i].1))))
    case _ => item
  }

  /** What an entry's value becomes. */
  function TruncatedValue(v: Json): Json
    decreases v, 1
  {
    match v
    case Str(s) => Str(Cut(s))
    case Obj(_) => TruncatedItem(v)
    case Arr(items) =>
      var n := Min(|items|, CAP_ITEMS);
      Arr(seq(n, i requires 0 <= i < n => TruncatedItem(items[i])))
    case _ => v
  }

  /**
   * A string is cut after two hundred units and marked; of a list ten elements are kept; an object keeps its
   * keys. Numbers, booleans and null stay as they are.
   */
  lemma ValueIs(v: Json)
    ensures v.Str? ==> TruncatedValue(v) == if |v.s| <= 200 then v else Str(v.s[..200] + "\U{2026}")
    ensures v.Num? || v.Bool? || v.Null? ==> TruncatedValue(v) == v
    ensures v.Obj? ==> TruncatedValue(v) == TruncatedItem(v)
    ensures v.Arr? ==>
      && TruncatedValue(v).Arr? && |TruncatedValue(v).items| == (if |v.items| <= 10 then |v.items| else 10)
      && forall i :: 0 <= i < |TruncatedValue(v).items| ==> TruncatedValue(v).items[i] == TruncatedItem(v.items[i])
  {
  }

  /** An item that is an object or a list becomes an object of its entries; any other is left alone. */
  lemma ItemIs(item: Json)
    ensures item.Str? || item.Num? || item.Bool? || item.Null? ==> TruncatedItem(item) == item
    ensures item.Obj? ==>
      && TruncatedItem(item).Obj? && |TruncatedItem(item).entries| == |item.entries|
      && forall i :: 0 <= i < |item.entries| ==>
           TruncatedItem(item).entries[i] == (item.entries[i].0, TruncatedValue(item.entries[i].1))
    ensures item.Arr? ==>
      && TruncatedItem(item).Obj? && |TruncatedItem(item).entries| == |item.items|
      && forall i :: 0 <= i < |item.items| ==>
           TruncatedItem(item).entries[i] == (IndexKey(i), TruncatedValue(item.items[i]))
  {
  }

  ghost function NumberOf(digits: string): int {
    if digits == [] then 0 else 10 * NumberOf(digits[..|digits| - 1]) + (digits[|digits| - 1] as int - '0' as int)
  }

  /** The key of a list element is its position in decimal digits. */
  lemma {:induction false} IndexKeyIs(i: nat)
    ensures NumberOf(IndexKey(i)) == i && IndexKey(i) != ""
    ensures forall c :: c in IndexKey(i) ==> '0' <= c <= '9'
    ensures i > 0 ==> IndexKey(i)[0] != '0'
  {
    var key := IndexKey(i);
    if i >= 10 {
      IndexKeyIs(i / 10);
    }
    assert key[..|key| - 1] == if i < 10 then "" else IndexKey(i / 10);
  }

  method TruncateItem(item: Json) returns (r: Json)
    ensures r == TruncatedItem(item)
    decreases item, 0
  {
    if !item.Arr? && !item.Obj? {
      return item;
    }
    var n := if item.Arr? then |item.items| else |item.entries|;
    var out: seq<(string, Json)> := [];
    for i := 0 to n
      invariant |out| == i
      invariant forall k :: 0 <= k < i ==> out[k] == TruncatedItem(item).entries[k]
    {
      var key := if item.Arr? then IndexKey(i) else item.entries[i].0;
      var v := if item.Arr? then item.items[i] else item.entries[i].1;
      var w := v;
      if v.Str? {
        w := if |v.s| > MAX_ITEM_STRING then Str(v.s[..MAX_ITEM_STRING] + [ELLIPSIS]) else v;
      } else if v.Obj? {
        w := TruncateItem(v);
      } else if v.Arr? {
        var kept := TruncateAll(v.items, CAP_ITEMS);
        w := Arr(kept);
      }
      out := out + [(key, w)];
    }
    r := Obj(out);
  }

  /** slice(0, cap).map(truncateItem). */
  method TruncateAll(items: seq<Json>, cap: nat) returns (r: seq<Json>)
    ensures r == TruncatedAll(items, cap)
    decreases items, 1
  {
    var n := Min(|items|, cap);
    r := [];
    for i := 0 to n
      invariant |r| == i
      invariant forall k :: 0 <= k < i ==> r[k] == TruncatedItem(items[k])
    {
      var t := TruncateItem(items[i]);
      r := r + [t];
    }
  }

  function TruncatedAll(items: seq<Json>, cap: nat): seq<Json> {
    var n := Min(|items|, cap);
    seq(n, i requires 0 <= i < n => TruncatedItem(items[i]))
  }

  lemma CutIdempotent(s: string)
    ensures Cut(Cut(s)) == Cut(s)
  {
  }

  /** Truncating twice is truncating once, for any JSON: even where an array has become an object. */
  lemma {:induction false} ItemIdempotent(item: Json)
    ensures TruncatedItem(TruncatedItem(item)) == TruncatedItem(item)
    decreases item, 0
  {
    match item
    case Arr(items) =>
      forall i | 0 <= i < |items| ensures TruncatedValue(TruncatedValue(items[i])) == TruncatedValue(items[i]) {
        ValueIdempotent(items[i]);
      }
    case Obj(entries) =>
      forall i | 0 <= i < |entries|
        ensures TruncatedValue(TruncatedValue(entries[i].1)) == TruncatedValue(entries[i].1)
      {
        ValueIdempotent(entries[i].1);
      }
    case _ =>
  }

  lemma {:induction false} ValueIdempotent(v: Json)
    ensures TruncatedValue(TruncatedValue(v)) == TruncatedValue(v)
    decreases v, 1
  {
    match v
    case Str(s) => CutIdempotent(s);
    case Obj(_) => ItemIdempotent(v);
    case Arr(items) =>
      forall i | 0 <= i < |items| ensures TruncatedItem(TruncatedItem(items[i])) == TruncatedItem(items[i]) {
        ItemIdempotent(items[i]);
      }
    case _ =>
  }

  lemma AllIdempotent(items: seq<Json>, cap: nat)
    ensures TruncatedAll(TruncatedAll(items, cap), cap) == TruncatedAll(items, cap)
  {
    forall i | 0 <= i < |items| ensures TruncatedItem(TruncatedItem(items[i])) == TruncatedItem(items[i]) {
      ItemIdempotent(items[i]);
    }
  }

  // -------------------------------------------------------------------------------------------
  // How long a string can still be
  // -------------------------------------------------------------------------------------------

  /** No string in here is longer than a cut one. */
  ghost predicate Short(j: Json) {
    match j
    case Str(s) => |s| <= MAX_ITEM_STRING + 1
    case Arr(items) => forall i :: 0 <= i < |items| ==> Short(items[i])
    case Obj(entries) => forall i :: 0 <= i < |entries| ==> Short(entries[i].1)
    case _ => true
  }

  /** No overlong string is an item of its own, or among the elements that are kept of a list. */
  ghost predicate ItemOk(item: Json)
    decreases item, 0
  {
    match item
    case Str(s) => |s| <= MAX_ITEM_STRING + 1
    case Arr(items) => forall i :: 0 <= i < |items| ==> ValueOk(items[i])
    case Obj(entries) => forall i :: 0 <= i < |entries| ==> ValueOk(entries[i].1)
    case _ => true
  }

  /** An entry's value may be a string of any length: that one is cut. */
  ghost predicate ValueOk(v: Json)
    decreases v, 1
  {
    match v
    case Obj(_) => ItemOk(v)
    case Arr(items) => forall i :: 0 <= i < Min(|items|, CAP_ITEMS) ==> ItemOk(items[i])
    case _ => true
  }

  /** The limit on strings holds of a truncated item exactly when no overlong string sits in a list. */
  lemma {:induction false} ItemShortIff(item: Json)
    ensures Short(TruncatedItem(item)) <==> ItemOk(item)
    decreases item, 0
  {
    match item
    case Arr(items) =>
      forall i | 0 <= i < |items| ensures Short(TruncatedItem(item).entries[i].1) <==> ValueOk(items[i]) {
        ValueShortIff(items[i]);
      }
    case Obj(entries) =>
      forall i | 0 <= i < |entries| ensures Short(TruncatedItem(item).entries[i].1) <==> ValueOk(entries[i].1) {
        ValueShortIff(entries[i].1);
      }
    case _ =>
  }

  lemma {:induction false} ValueShortIff(v: Json)
    ensures Short(TruncatedValue(v)) <==> ValueOk(v)
    decreases v, 1
  {
    match v
    case Obj(_) => ItemShortIff(v);
    case Arr(items) =>
      forall i | 0 <= i < Min(|items|, CAP_ITEMS) ensures Short(TruncatedValue(v).items[i]) <==> ItemOk(items[i]) {
        ItemShortIff(items[i]);
      }
    case _ =>
  }

  /** The smallest instance: a string in a list is kept whole, one under a key is cut. */
  lemma StringsInListsAreKept(s: string)
    ensures TruncatedValue(Arr([Str(s)])) == Arr([Str(s)])
    ensures |s| > MAX_ITEM_STRING + 1 ==> TruncatedValue(Str(s)) != Str(s)
    ensures ValueOk(Arr([Str(s)])) <==> |s| <= MAX_ITEM_STRING + 1
  {
    assert ItemOk([Str(s)][0]) <==> |s| <= MAX_ITEM_STRING + 1;
  }

  // -------------------------------------------------------------------------------------------
  // The response
  // -------------------------------------------------------------------------------------------

  predicate IsDropped(id: string) {
    id in DROPPED_AUDITS
  }

  function CapOf(audit: Audit): nat {
    if audit.id.GetOr("") in DEEP_AUDITS then DEEP_CAP_ITEMS else CAP_ITEMS
  }

  predicate HasList(audit: Audit) {
    audit.details.Some? && audit.details.value.items.Some? && audit.details.value.items.value.Arr?
  }

  function PrunedAudit(audit: Audit): Audit {
    if HasList(audit) then
      var items := audit.details.value.items.value.items;
      audit.(details := Some(audit.details.value.(items := Some(Arr(TruncatedAll(items, CapOf(audit)))))))
    else audit
  }

  function PrunedAudits(audits: map<string, Audit>): map<string, Audit> {
    map id | id in audits && !IsDropped(id) :: PrunedAudit(audits[id])
  }

  function PrunedResult(lr: LighthouseResult): LighthouseResult {
    lr.(others := lr.others - DROPPED_KEYS,
        audits := if lr.audits.Some? then Some(PrunedAudits(lr.audits.value)) else None)
  }

  function Pruned(res: Response): Response {
    if res.lighthouseResult.None? then res
    else res.(lighthouseResult := Some(PrunedResult(res.lighthouseResult.value)))
  }

  /** What goes: four audits, and five keys nothing is read from. */
  lemma DroppedAre()
    ensures forall id :: IsDropped(id) <==>
      id == "screenshot-thumbnails" || id == "script-treemap-data" || id == "main-thread-tasks" || id == "diagnostics"
    ensures forall key :: key in DROPPED_KEYS <==>
      key == "fullPageScreenshot" || key == "timing" || key == "entities" || key == "i18n" || key == "stackPacks"
  {
  }

  /** These audits keep thirty items, all others ten. */
  lemma CapIs(audit: Audit)
    ensures CapOf(audit) == 30 || CapOf(audit) == 10
    ensures CapOf(audit) == 30 <==>
      audit.id.Some? && audit.id.value in {
        "network-requests", "render-blocking-insight", "unused-css-rules", "unused-javascript",
        "uses-responsive-images", "modern-image-format-insight", "image-delivery-insight", "legacy-javascript-insight",
        "duplicated-javascript-insight", "third-parties-insight", "font-display-insight", "cache-insight",
        "lcp-discovery-insight", "cls-culprits-insight"}
  {
  }

  /** Of an audit only the list of details changes, if it has one: its first items are kept, shortened. */
  lemma PrunedAuditIs(audit: Audit)
    ensures PrunedAudit(audit).(details := None) == audit.(details := None)
    ensures !HasList(audit) ==> PrunedAudit(audit) == audit
    ensures HasList(audit) ==>
      var items, after := audit.details.value.items.value.items, PrunedAudit(audit).details;
      && after.Some? && after.value.(items := None) == audit.details.value.(items := None)
      && after.value.items.Some? && after.value.items.value.Arr?
      && |after.value.items.value.items| == (if |items| <= CapOf(audit) then |items| else CapOf(audit))
      && forall i :: 0 <= i < |after.value.items.value.items| ==>
           after.value.items.value.items[i] == TruncatedItem(items[i])
  {
  }

  /** Everything else of the response stays. */
  lemma PrunedIs(res: Response)
    ensures Pruned(res).loadingExperience == res.loadingExperience
    ensures Pruned(res).originLoadingExperience == res.originLoadingExperience
    ensures Pruned(res).lighthouseResult.Some? <==> res.lighthouseResult.Some?
    ensures res.lighthouseResult.Some? ==>
      var before, after := res.lighthouseResult.value, Pruned(res).lighthouseResult.value;
      && after.(others := map[], audits := None) == before.(others := map[], audits := None)
      && (forall key :: key in after.others <==> key in before.others && key !in DROPPED_KEYS)
      && (forall key :: key in after.others && key in before.others ==> after.others[key] == before.others[key])
      && (after.audits.Some? <==> before.audits.Some?)
      && (before.audits.Some? ==>
            && (forall id :: id in after.audits.value <==> id in before.audits.value && !IsDropped(id))
            && (forall id :: id in after.audits.value && id in before.audits.value ==>
                  after.audits.value[id] == PrunedAudit(before.audits.value[id])))
  {
  }

  /** Works on a clone: the caller's response is a value and stays as it is. */
  method PruneResponse(input: Response) returns (out: Response)
    ensures out == Pruned(input)
  {
    out := input;
    if out.lighthouseResult.Some? {
      var lr := out.lighthouseResult.value;
      lr := lr.(others := lr.others - DROPPED_KEYS);
      if lr.audits.Some? {
        var audits := PruneAudits(lr.audits.value - DROPPED_AUDITS);
        lr := lr.(audits := Some(audits));
        assert audits == PrunedAudits(input.lighthouseResult.value.audits.value);
      }
      out := out.(lighthouseResult := Some(lr));
    }
  }

  method PruneAudits(input: map<string, Audit>) returns (audits: map<string, Audit>)
    ensures audits == map id | id in input :: PrunedAudit(input[id])
  {
    audits := input;
    var todo := audits.Keys;
    while todo != {}
      invariant todo <= input.Keys
      invariant audits == map id | id in input :: if id in todo then input[id] else PrunedAudit(input[id])
      decreases todo
    {
      var id :| id in todo;
      todo := todo - {id};
      var audit := audits[id];
      if HasList(audit) {
        var details := audit.details.value;
        var items := TruncateAll(details.items.value.items, CapOf(audit));
        audits := audits[id := audit.(details := Some(details.(items := Some(Arr(items)))))];
      }
    }
  }

  /** A stored audit keeps the limit on strings exactly when the items it keeps are free of overlong list elements. */
  lemma AuditShortIff(audit: Audit)
    requires HasList(audit)
    ensures var items := audit.details.value.items.value.items;
      HasList(PrunedAudit(audit))
      && (Short(PrunedAudit(audit).details.value.items.value)
          <==> forall i :: 0 <= i < Min(|items|, CapOf(audit)) ==> ItemOk(items[i]))
  {
    var items := audit.details.value.items.value.items;
    var n := Min(|items|, CapOf(audit));
    forall i | 0 <= i < n
      ensures Short(PrunedAudit(audit).details.value.items.value.items[i]) <==> ItemOk(items[i])
    {
      ItemShortIff(items[i]);
    }
  }

  lemma AuditIdempotent(audit: Audit)
    ensures PrunedAudit(PrunedAudit(audit)) == PrunedAudit(audit)
  {
    if HasList(audit) {
      AllIdempotent(audit.details.value.items.value.items, CapOf(audit));
    }
  }

  lemma AuditsIdempotent(audits: map<string, Audit>)
    ensures PrunedAudits(PrunedAudits(audits)) == PrunedAudits(audits)
  {
    forall id | id in audits ensures PrunedAudit(PrunedAudit(audits[id])) == PrunedAudit(audits[id]) {
      AuditIdempotent(audits[id]);
    }
  }

  lemma DroppedOnce(others: map<string, Json>, keys: set<string>)
    ensures others - keys - keys == others - keys
  {
  }

  /** Pruning a stored response again changes nothing. */
  lemma PruneIdempotent(res: Response)
    ensures Pruned(Pruned(res)) == Pruned(res)
  {
    if res.lighthouseResult.Some? {
      var lr := res.lighthouseResult.value;
      DroppedOnce(lr.others, DROPPED_KEYS);
      if lr.audits.Some? {
        AuditsIdempotent(lr.audits.value);
      }
    }
  }
}
