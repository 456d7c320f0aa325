/**
 * On-demand AI recommendations for one audit result (lib/services/recommendation.service.ts):
 * optimistic single-flight generation, versioned answers, and the copy kept inside the report.
 */
module Recommendations {
  import opened Sequences
  import opened AiSection

  const KEEP_VERSIONS: nat := 10
  const STALE_GENERATING_MS: nat := 3 * 60 * 1000

  datatype Status = Generating | Complete | Failed

  datatype Row = Row(status: Status, content: string, startedAt: int)

  /** The Recommendation rows of one audit result; the key is the unique pair's version. */
  type Table = map<nat, Row>

  function Top(versions: set<nat>): (m: nat)
    ensures versions == {} ==> m == 0
    ensures versions != {} ==> m in versions
    ensures forall v :: v in versions ==> v <= m
  {
    if versions == {} then 0
    else
      TopExists(versions);
      var m :| m in versions && forall v :: v in versions ==> v <= m;
      m
  }

  lemma {:induction false} TopExists(versions: set<nat>)
    requires versions != {}
    ensures exists m :: m in versions && forall v :: v in versions ==> v <= m
  {
    var x :| x in versions;
    if versions != {x} {
      TopExists(versions - {x});
      var m :| m in versions - {x} && forall v :: v in versions - {x} ==> v <= m;
      assert (if x > m then x else m) in versions;
      assert forall v :: v in versions ==> v == x || v in versions - {x};
    }
  }

  // -------------------------------------------------------------------------------------------
  // The steps of one request
  // -------------------------------------------------------------------------------------------

  datatype Look =
    | Cached(version: nat, content: string)
    | Busy
    | Proceed(seen: nat, previous: Option<string>)

  /** Reads the newest row and decides: answer from it, refuse, or go on to claim the next version. */
  function LookAt(rows: Table, now: int, force: bool): Look {
    var v := Top(rows.Keys);
    if v !in rows then Proceed(v, None)
    else
      var latest := rows[v];
      if !force && latest.status == Complete && latest.content != "" then Cached(v, latest.content)
      else if latest.status == Generating && now - latest.startedAt < STALE_GENERATING_MS then Busy
      else Proceed(v, if latest.status == Complete then Some(latest.content) else None)
  }

  /** INSERT ... ON CONFLICT DO NOTHING of the version after the one that was seen. */
  function Claimed(rows: Table, version: nat, now: int): Table {
    if version in rows then rows else rows[version := Row(Generating, "", now)]
  }

  /** The rows a page of KEEP_VERSIONS newest-first would show. */
  function KeepNewest(rows: Table): Table {
    map v | v in rows && |Newer(rows, v)| < KEEP_VERSIONS :: rows[v]
  }

  function Newer(rows: Table, version: nat): set<nat> {
    set w | w in rows && w > version
  }

  function Published(rows: Table, version: nat, content: string): Table
    requires version in rows
  {
    KeepNewest(rows[version := rows[version].(status := Complete, content := content)])
  }

  function Released(rows: Table, version: nat): Table {
    if version in rows then rows[version := rows[version].(status := Failed)] else rows
  }

  datatype Answer =
    | Ready(version: nat, content: string, cached: bool)
    | AlreadyGenerating
    | LostTheRace
    | CouldNotGenerate

  /** The rows and the stored report of one audit result, with the request's statements as methods. */
  class RecommendationStore {
    var rows: Table
    var markdownReport: string

    constructor (report: string)
      ensures rows == map[] && markdownReport == report
    {
      rows, markdownReport := map[], report;
    }

    method Claim(version: nat, now: int) returns (claimed: bool)
      modifies this`rows
      ensures rows == Claimed(old(rows), version, now)
      ensures claimed <==> version !in old(rows)
      ensures rows == if claimed then old(rows)[version := Row(Generating, "", now)] else old(rows)
    {
      claimed := version !in rows;
      if claimed {
        rows := rows[version := Row(Generating, "", now)];
      }
    }

    /** One transaction: complete the row, splice the answer into the report, trim the history. */
    method Publish(version: nat, content: string) returns (saved: bool)
      modifies this
      ensures saved <==> version in old(rows)
      ensures saved ==> rows == Published(old(rows), version, content)
      ensures saved ==> markdownReport == UpsertAiSection(old(markdownReport), content)
      ensures !saved ==> rows == old(rows) && markdownReport == old(markdownReport)
    {
      saved := version in rows;
      if saved {
        rows := rows[version := rows[version].(status := Complete, content := content)];
        markdownReport := UpsertAiSection(markdownReport, content);
        var surplus := set v | v in rows && |Newer(rows, v)| >= KEEP_VERSIONS;
        rows := rows - surplus;
      }
    }

    method Release(version: nat)
      modifies this`rows
      ensures rows == Released(old(rows), version)
      ensures rows.Keys == old(rows).Keys
      ensures forall v :: v in rows ==>
        rows[v] == if v == version then old(rows)[v].(status := Failed) else old(rows)[v]
    {
      if version in rows {
        rows := rows[version := rows[version].(status := Failed)];
      }
    }

    /**
     * One request with nobody else at work. `generate` is the model's text for a prompt with that earlier
     * answer in it, or None if it threw.
     */
    method GetOrCreateRecommendation(now: int, force: bool, generate: Option<string> -> Option<string>)
      returns (answer: Answer)
      modifies this
      // From the cache, exactly when the newest row is a complete answer and no new one is asked for.
      ensures var top := Top(old(rows).Keys);
        answer.Ready? && answer.cached
        <==> !force && top in old(rows) && old(rows)[top].status == Complete && old(rows)[top].content != ""
      ensures answer.Ready? && answer.cached ==>
        answer == Ready(Top(old(rows).Keys), old(rows)[Top(old(rows).Keys)].content, true)
      // Refused, exactly when the newest row is being generated and is less than three minutes old.
      ensures var top := Top(old(rows).Keys);
        answer == AlreadyGenerating
        <==> top in old(rows) && old(rows)[top].status == Generating && now - old(rows)[top].startedAt < 180_000
      ensures answer == AlreadyGenerating || (answer.Ready? && answer.cached) ==>
        rows == old(rows) && markdownReport == old(markdownReport)
      // Otherwise the next version is claimed, and the model is shown the newest row's answer, if it is complete.
      ensures answer == CouldNotGenerate || (answer.Ready? && !answer.cached) ==>
        var top := Top(old(rows).Keys);
        var reply := generate(if top in old(rows) && old(rows)[top].status == Complete
                              then Some(old(rows)[top].content) else None);
        && (answer == CouldNotGenerate <==> reply.None? || reply.value == "")
        && (answer == CouldNotGenerate ==>
              rows == old(rows)[top + 1 := Row(Failed, "", now)] && markdownReport == old(markdownReport))
        && (answer.Ready? ==>
              && reply.Some? && answer == Ready(top + 1, reply.value, false)
              && rows == Published(old(rows)[top + 1 := Row(Generating, "", now)], top + 1, reply.value)
              && Top(rows.Keys) == top + 1 && |rows| <= KEEP_VERSIONS
              && markdownReport == UpsertAiSection(old(markdownReport), reply.value))
      ensures answer != LostTheRace
    {
      var look := LookAt(rows, now, force);
      match look {
        case Cached(version, content) =>
          answer := Ready(version, content, true);
        case Busy =>
          answer := AlreadyGenerating;
        case Proceed(seen, previous) =>
          var version := seen + 1;
          var claimed := Claim(version, now);
          if !claimed {
            answer := LostTheRace;
          } else {
            var reply := generate(previous);
            if reply.Some? && reply.value != "" {
              PublishKeepsTop(rows, version, reply.value);
              TrimBound(rows[version := rows[version].(status := Complete, content := reply.value)]);
              var saved := Publish(version, reply.value);
              answer := Ready(version, reply.value, false);
            } else {
              Release(version);
              answer := CouldNotGenerate;
            }
          }
      }
    }
  }

  // -------------------------------------------------------------------------------------------
  // Trimming
  // -------------------------------------------------------------------------------------------

  /** Whatever the table held, at most KEEP_VERSIONS rows survive a trim. */
  lemma TrimBound(rows: Table)
    ensures |KeepNewest(rows)| <= KEEP_VERSIONS
  {
    var kept := KeepNewest(rows).Keys;
    if kept != {} {
      var low := Bottom(kept);
      assert kept - {low} <= Newer(rows, low);
      SubsetSize(kept - {low}, Newer(rows, low));
      assert |kept| == |kept - {low}| + 1;
    }
  }

  lemma {:induction false} Bottom(versions: set<nat>) returns (low: nat)
    requires versions != {}
    ensures low in versions && forall v :: v in versions ==> low <= v
  {
    low :| low in versions;
    if versions != {low} {
      var rest := Bottom(versions - {low});
      assert forall v :: v in versions ==> v == low || v in versions - {low};
      low := if rest < low then rest else low;
    }
  }

  /** What a publish leaves: the rows with fewer than ten newer ones, as they were but for the published one. */
  lemma PublishedIs(rows: Table, version: nat, content: string, v: nat)
    requires version in rows
    ensures v in Published(rows, version, content) <==> v in rows && |set w | w in rows && w > v| < 10
    ensures v in Published(rows, version, content) ==>
      Published(rows, version, content)[v]
      == if v == version then Row(Complete, content, rows[v].startedAt) else rows[v]
  {
    var done := rows[version := rows[version].(status := Complete, content := content)];
    assert Newer(done, v) == set w | w in rows && w > v;
  }

  /** The newest row is never trimmed. */
  lemma PublishKeepsTop(rows: Table, version: nat, content: string)
    requires version in rows
    ensures Top(Published(rows, version, content).Keys) == Top(rows.Keys)
    ensures version == Top(rows.Keys) ==>
      && version in Published(rows, version, content)
      && Published(rows, version, content)[version].status == Complete
      && Published(rows, version, content)[version].content == content
  {
    var done := rows[version := rows[version].(status := Complete, content := content)];
    assert done.Keys == rows.Keys;
    var top := Top(rows.Keys);
    assert Newer(done, top) == {};
    assert top in KeepNewest(done);
    assert KeepNewest(done).Keys <= done.Keys;
  }
}
