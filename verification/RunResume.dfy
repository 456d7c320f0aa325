/** What a resume promises about the deliveries that follow it. */
module RunResume {
  import opened Sequences
  import StableSort
  import opened ScopeLabels
  import opened AuditRuns
  import opened RunRows
  import opened RunPlans

  /** Workers reporting one result after the other. */
  function RecordAll(db: Db, rows: seq<ResultRow>): Db {
    if |rows| == 0 then db
    else
      var n := |rows| - 1;
      Record(RecordAll(db, rows[..n]), rows[n], rows[n].outcome == Error).0
  }

  /**
   * A resume is refused if the scope has grown past what was committed. Otherwise it dispatches the pairs of
   * the scope without a row, its counters are those of its rows, and its total is the larger of scope and
   * rows, but no more than it was.
   */
  lemma ResumedRunIs(run: Run, plan: seq<AuditPair>, rows: seq<ResultRow>, now: int)
    ensures |plan| > run.totalJobs ==>
      && Dispatched(run, plan, rows) == None
      && ResumedRun(run, plan, rows, now)
         == Run(run.site, Failed, run.scopeLabel, run.totalJobs, run.completedJobs, run.failedJobs, run.startedAt,
                Some(now), run.completedAt, Some(ScopeGrew(|plan|, run.totalJobs)))
    ensures |plan| <= run.totalJobs ==>
      && Dispatched(run, plan, rows) == Some(Filter(plan, Owed(PairsOf(rows))))
      && ResumedRun(run, plan, rows, now)
         == Run(run.site, Running, run.scopeLabel,
                if |plan| >= |rows| then |plan| else if |rows| >= run.totalJobs then run.totalJobs else |rows|,
                |rows|, |Filter(rows, (r: ResultRow) => r.outcome == Error)|, run.startedAt, None, None, None)
  {
    MissingIsExact(plan, rows);
    FilterAgree(rows, IsErrorRow, (r: ResultRow) => r.outcome == Error);
  }

  /** The scope is the one its label is read back as, expanded as the site stands now. */
  lemma ResumeIs(db: Db, id: RunId, now: int, plan: seq<AuditPair>)
    requires id in db.runs
    requires plan == ExpandScope(db, db.runs[id].site, ParseScopeLabel(Some(db.runs[id].scopeLabel)), 0)
    ensures Resume(db, id, now)
         == db.(runs := db.runs[id := ResumedRun(db.runs[id], plan, RowsOf(db.results, id), now)])
  {
  }

  /** Results of this run, for pages that exist. */
  ghost predicate For(db: Db, id: RunId, rows: seq<ResultRow>) {
    forall r :: r in rows ==> r.run == id && HasPage(db.pages, r.page)
  }

  lemma RecordFrame(db: Db, row: ResultRow, isFailure: bool)
    ensures var t := Record(db, row, isFailure).0;
      && t.runs.Keys == db.runs.Keys && t.pages == db.pages
      && (forall id :: id in db.runs ==> t.runs[id].totalJobs == db.runs[id].totalJobs)
  {
  }

  lemma {:induction false} RecordAllKeepsMatch(db: Db, rows: seq<ResultRow>)
    requires RowsMatch(db)
    ensures RowsMatch(RecordAll(db, rows))
  {
    if |rows| > 0 {
      var n := |rows| - 1;
      RecordAllKeepsMatch(db, rows[..n]);
      RecordKeepsMatch(RecordAll(db, rows[..n]), rows[n]);
    }
  }

  lemma {:induction false} RecordAllFrame(db: Db, rows: seq<ResultRow>)
    ensures var t := RecordAll(db, rows);
      && t.runs.Keys == db.runs.Keys && t.pages == db.pages
      && (forall id :: id in db.runs ==> t.runs[id].totalJobs == db.runs[id].totalJobs)
  {
    if |rows| > 0 {
      var n := |rows| - 1;
      RecordAllFrame(db, rows[..n]);
      RecordFrame(RecordAll(db, rows[..n]), rows[n], rows[n].outcome == Error);
    }
  }

  /** A delivery for a known run and page leaves that pair recorded, whatever was there before. */
  lemma RecordAdds(db: Db, row: ResultRow)
    requires row.run in db.runs && HasPage(db.pages, row.page)
    ensures Recorded(Record(db, row, row.outcome == Error).0, row.run)
         == Recorded(db, row.run) + {(row.page, row.strategy)}
  {
  }

  lemma PairsOfLast(rows: seq<ResultRow>)
    requires |rows| > 0
    ensures var n := |rows| - 1;
      PairsOf(rows) == PairsOf(rows[..n]) + {(rows[n].page, rows[n].strategy)}
  {
  }

  lemma {:induction false} RecordAllRecords(db: Db, id: RunId, rows: seq<ResultRow>)
    requires id in db.runs && For(db, id, rows)
    ensures Recorded(RecordAll(db, rows), id) == Recorded(db, id) + PairsOf(rows)
  {
    if |rows| > 0 {
      var n := |rows| - 1;
      RecordAllRecords(db, id, rows[..n]);
      RecordAllFrame(db, rows[..n]);
      RecordAdds(RecordAll(db, rows[..n]), rows[n]);
      PairsOfLast(rows);
    }
  }

  lemma CompletedIsRecorded(db: Db, id: RunId)
    requires RowsMatch(db) && id in db.runs
    ensures db.runs[id].completedJobs == |Recorded(db, id)|
  {
    RecordedCount(db, id);
  }

  /** Resuming a run touches its row and nothing else, and its counters are right again. */
  lemma ResumeKeepsMatch(db: Db, id: RunId, now: int)
    requires RowsMatch(db) && id in db.runs
    ensures RowsMatch(Resume(db, id, now))
  {
    var run := ResumedRun(db.runs[id], Replanned(db, db.runs[id]), RowsOf(db.results, id), now);
    if |Replanned(db, db.runs[id])| > db.runs[id].totalJobs {
      assert run.completedJobs == db.runs[id].completedJobs;
    }
    ReplacedRunKeepsMatch(db, id, run);
    assert Resume(db, id, now) == db.(runs := db.runs[id := run]);
  }

  /** What is more, resuming an active run leaves it the only active one of its site. */
  lemma ResumeKeepsInv(db: Db, id: RunId, now: int)
    requires Inv(db) && id in db.runs && Active(db.runs[id].status)
    ensures Inv(Resume(db, id, now))
  {
    var run := ResumedRun(db.runs[id], Replanned(db, db.runs[id]), RowsOf(db.results, id), now);
    ResumeKeepsMatch(db, id, now);
    ReplacedRunKeepsApart(db, id, run);
    assert Resume(db, id, now) == db.(runs := db.runs[id := run]);
  }

  /**
   * After a resume that was not refused, in whatever order the dispatched pairs report and however
   * often they are replayed, the run ends up with enough rows to finish.
   */
  lemma ResumeCanFinish(db: Db, id: RunId, now: int, rows: seq<ResultRow>)
    requires RowsMatch(db) && DistinctIds(db.pages) && id in db.runs
    requires For(db, id, rows)
    requires var sent := Dispatched(db.runs[id], Replanned(db, db.runs[id]), RowsOf(db.results, id));
      sent.Some? && PlanPairs(sent.value) <= PairsOf(rows)
    ensures var t := RecordAll(Resume(db, id, now), rows);
      && id in t.runs && t.runs[id].totalJobs <= db.runs[id].totalJobs
      && t.runs[id].completedJobs >= t.runs[id].totalJobs
  {
    var run, existing := db.runs[id], RowsOf(db.results, id);
    var expanded := Replanned(db, run);
    var sent := Dispatched(run, expanded, existing).value;
    var s := Resume(db, id, now);
    ResumeKeepsMatch(db, id, now);
    RecordAllKeepsMatch(s, rows);
    RecordAllFrame(s, rows);
    RecordAllRecords(s, id, rows);
    CompletedIsRecorded(RecordAll(s, rows), id);
    ReplannedIsDistinct(db, run);
    RunRowsAreDistinct(db.results, id);
    PairsCount(existing, id);
    ResumeNeverGrows(run, expanded, existing, id, now);
    MissingCount(expanded, existing);
    PlanCount(sent);
    assert Recorded(s, id) == PairsOf(existing);
    assert PairsOf(existing) !! PlanPairs(sent);
    SubsetSize(PairsOf(existing) + PlanPairs(sent), Recorded(RecordAll(s, rows), id));
  }

  /** After j distinct new deliveries the counter has moved by j, and the next pair is still new. */
  lemma AfterPrefix(s: Db, id: RunId, rows: seq<ResultRow>, j: nat)
    requires RowsMatch(s) && id in s.runs && For(s, id, rows) && OneRowPerPair(rows) && j < |rows|
    requires PairsOf(rows) !! Recorded(s, id)
    ensures var t := RecordAll(s, rows[..j]);
      && id in t.runs && t.pages == s.pages && t.runs[id].totalJobs == s.runs[id].totalJobs
      && t.runs[id].completedJobs == |Recorded(s, id)| + j
      && (rows[j].page, rows[j].strategy) !in Recorded(t, id)
  {
    RecordAllKeepsMatch(s, rows[..j]);
    RecordAllFrame(s, rows[..j]);
    RecordAllRecords(s, id, rows[..j]);
    CompletedIsRecorded(RecordAll(s, rows[..j]), id);
    PrefixPairs(rows, id, j);
  }

  /** The j-th of distinct new deliveries reports ready as soon as the counter reaches the total. */
  lemma DeliveryReady(s: Db, id: RunId, rows: seq<ResultRow>, j: nat)
    requires RowsMatch(s) && id in s.runs && For(s, id, rows) && OneRowPerPair(rows) && j < |rows|
    requires PairsOf(rows) !! Recorded(s, id)
    ensures Record(RecordAll(s, rows[..j]), rows[j], rows[j].outcome == Error).1
         == Written(s.runs[id].totalJobs > 0 && |Recorded(s, id)| + j + 1 >= s.runs[id].totalJobs)
  {
    AfterPrefix(s, id, rows, j);
    assert rows[j] in rows;
    RecordAnswer(RecordAll(s, rows[..j]), rows[j]);
  }

  lemma RecordAnswer(t: Db, row: ResultRow)
    requires row.run in t.runs && HasPage(t.pages, row.page)
    requires (row.page, row.strategy) !in Recorded(t, row.run)
    ensures var run := t.runs[row.run];
      Record(t, row, row.outcome == Error).1 == Written(run.totalJobs > 0 && run.completedJobs + 1 >= run.totalJobs)
  {
  }

  lemma PrefixPairs(rows: seq<ResultRow>, id: RunId, j: nat)
    requires OneRowPerPair(rows) && j < |rows| && forall r :: r in rows ==> r.run == id
    ensures |PairsOf(rows[..j])| == j && PairsOf(rows[..j]) <= PairsOf(rows)
    ensures (rows[j].page, rows[j].strategy) in PairsOf(rows) - PairsOf(rows[..j])
  {
    PairsCount(rows[..j], id);
    forall r | r in rows[..j] ensures r in rows && (r.page, r.strategy) != (rows[j].page, rows[j].strategy) {
      var i :| 0 <= i < j && rows[i] == r;
      assert !SameKey(rows[i], rows[j]);
    }
  }

  /** Some delivery before the last reports ready. */
  ghost predicate ReadyEarly(s: Db, rows: seq<ResultRow>) {
    exists j :: 0 <= j < |rows| - 1 && ReadyAt(s, rows, j)
  }

  ghost predicate ReadyAt(s: Db, rows: seq<ResultRow>, j: nat)
    requires j < |rows|
  {
    Record(RecordAll(s, rows[..j]), rows[j], rows[j].outcome == Error).1 == Written(true)
  }

  /** The total a resume sets is reached one delivery early exactly when something recorded left the scope. */
  lemma ResumedTotal(run: Run, expanded: seq<AuditPair>, existing: seq<ResultRow>, id: RunId, now: int)
    requires DistinctPlan(expanded) && OneRowPerPair(existing) && forall r :: r in existing ==> r.run == id
    requires |expanded| <= run.totalJobs
    ensures var total := ResumedRun(run, expanded, existing, now).totalJobs;
      var owed := |DiffMissingPairs(expanded, existing)|;
      owed >= 2 ==>
        (total > 0 && |existing| + owed - 1 >= total <==> !(PairsOf(existing) <= PlanPairs(expanded)))
  {
    MissingCount(expanded, existing);
    PairsCount(existing, id);
    var both := PlanPairs(expanded) * PairsOf(existing);
    SubsetSize(both, PairsOf(existing));
    assert PairsOf(existing) <= PlanPairs(expanded) <==> both == PairsOf(existing);
  }

  /**
   * A resumed run is ready only when its whole scope is measured exactly when every recorded pair
   * is still in scope, or at most one pair is owed. Otherwise (a measured page has left the scope
   * and two pairs are owed) a delivery reports ready while another pair has no row, in every order.
   */
  lemma ResumeIsExactIff(db: Db, id: RunId, now: int, rows: seq<ResultRow>)
    requires RowsMatch(db) && DistinctIds(db.pages) && id in db.runs
    requires var sent := Dispatched(db.runs[id], Replanned(db, db.runs[id]), RowsOf(db.results, id));
      sent.Some? && PlanPairs(sent.value) == PairsOf(rows)
    requires For(db, id, rows) && OneRowPerPair(rows)
    ensures !ReadyEarly(Resume(db, id, now), rows)
      <==> Recorded(db, id) <= PlanPairs(Replanned(db, db.runs[id])) || |rows| <= 1
  {
    var run, existing := db.runs[id], RowsOf(db.results, id);
    var expanded := Replanned(db, run);
    var s := Resume(db, id, now);
    ResumeKeepsMatch(db, id, now);
    ReplannedIsDistinct(db, run);
    RunRowsAreDistinct(db.results, id);
    PairsCount(existing, id);
    MissingCount(expanded, existing);
    PlanCount(DiffMissingPairs(expanded, existing));
    PairsCount(rows, id);
    ResumedTotal(run, expanded, existing, id, now);
    ReadyFrom(s, id, rows, |existing|, s.runs[id].totalJobs);
  }

  /** Deliveries count up to the total, so the last-but-one decides. */
  lemma ReadyFrom(s: Db, id: RunId, rows: seq<ResultRow>, recorded: nat, total: nat)
    requires RowsMatch(s) && id in s.runs && For(s, id, rows) && OneRowPerPair(rows)
    requires PairsOf(rows) !! Recorded(s, id)
    requires recorded == |Recorded(s, id)| && total == s.runs[id].totalJobs
    ensures ReadyEarly(s, rows) <==> |rows| >= 2 && total > 0 && recorded + |rows| - 1 >= total
  {
    forall j | 0 <= j < |rows| ensures ReadyAt(s, rows, j) <==> total > 0 && recorded + j + 1 >= total {
      DeliveryReady(s, id, rows, j);
    }
    if |rows| >= 2 && total > 0 && recorded + |rows| - 1 >= total {
      assert ReadyAt(s, rows, |rows| - 2);
    }
  }

  /** A run with one measured page. */
  lemma OneRowMatches(run: Run, row: ResultRow, pages: seq<PageRow>)
    requires row.outcome == Ok && run.completedJobs == 1 && run.failedJobs == 0
    ensures var db := Db(map[row.run := run], [row], pages, map[(row.page, row.strategy) := 0]);
      RowsMatch(db) && RowsOf(db.results, row.run) == [row]
  {
  }

  lemma KeepTwo(a: PageRow, b: PageRow, c: PageRow, pick: PageRow -> bool)
    requires !pick(a) && pick(b) && pick(c)
    ensures Filter([a, b, c], pick) == [b, c]
  {
  }

  lemma SortTwo(b: PageRow, c: PageRow)
    requires SweepOrder(b, c)
    ensures StableSort.Sort([b, c], SweepOrder) == [b, c]
  {
  }

  lemma PairsOfTwo(b: PageRow, c: PageRow, s: Strategy)
    ensures AllPairs([b, c], [s]) == [AuditPair(b.id, b.url, s), AuditPair(c.id, c.url, s)]
  {
    assert [b, c][1..] == [c] && [c][1..] == [];
    assert PagePairs(b, [s]) == [AuditPair(b.id, b.url, s)];
    assert AllPairs([c], [s]) == PagePairs(c, [s]) + [] == [AuditPair(c.id, c.url, s)];
  }

  lemma TwoPagePlan(db: Db, a: PageRow, b: PageRow, c: PageRow, run: Run)
    requires db.pages == [a, b, c] && !a.isActive && b.isActive && c.isActive
    requires b.site == c.site == run.site && SweepOrder(b, c)
    requires run.scopeLabel == FormatScopeLabel(RunScope(Site, None, [Mobile]))
    ensures Replanned(db, run) == [AuditPair(b.id, b.url, Mobile), AuditPair(c.id, c.url, Mobile)]
  {
    SiteLabel(RunScope(Site, None, [Mobile]));
    KeepTwo(a, b, c, Selects(RunScope(Site, None, [Mobile]), run.site));
    SortTwo(b, c);
    PairsOfTwo(b, c, Mobile);
  }

  /**
   * The exception occurs: page a was measured and then left the sitemap, b and c are still owed,
   * and the delivery of b already reports the run ready.
   */
  lemma DeactivatedPageReadyEarly(a: PageRow, b: PageRow, c: PageRow, run: Run, db: Db, rows: seq<ResultRow>)
    requires a.id != b.id && a.id != c.id && b.id != c.id
    requires a.site == b.site == c.site == run.site && !a.isActive && b.isActive && c.isActive
    requires SweepOrder(b, c)
    requires run.scopeLabel == FormatScopeLabel(RunScope(Site, None, [Mobile]))
    requires run.status == Running && run.totalJobs == 3 && run.completedJobs == 1 && run.failedJobs == 0
    requires db == Db(map[0 := run], [ResultRow(0, a.id, Mobile, Ok, true)], [a, b, c], map[(a.id, Mobile) := 0])
    requires rows == [ResultRow(0, b.id, Mobile, Ok, true), ResultRow(0, c.id, Mobile, Ok, true)]
    ensures ReadyEarly(Resume(db, 0, 0), rows)
  {
    OneRowMatches(run, ResultRow(0, a.id, Mobile, Ok, true), db.pages);
    TwoPagePlan(db, a, b, c, run);
    var plan := Replanned(db, run);
    TwoOwed(a, b, c, plan, rows);
    ThreePages(a, b, c);
    TwoRowsFor(db, a, b, c, rows);
    AllOwed(run, plan, RowsOf(db.results, 0));
    ResumeIsExactIff(db, 0, 0, rows);
  }

  lemma ThreePages(a: PageRow, b: PageRow, c: PageRow)
    requires a.id != b.id && a.id != c.id && b.id != c.id
    ensures DistinctIds([a, b, c])
  {
  }

  lemma TwoRowsFor(db: Db, a: PageRow, b: PageRow, c: PageRow, rows: seq<ResultRow>)
    requires b.id != c.id && 0 in db.runs && db.pages == [a, b, c]
    requires rows == [ResultRow(0, b.id, Mobile, Ok, true), ResultRow(0, c.id, Mobile, Ok, true)]
    ensures For(db, 0, rows) && OneRowPerPair(rows)
  {
  }

  lemma AllOwed(run: Run, plan: seq<AuditPair>, existing: seq<ResultRow>)
    requires |plan| <= run.totalJobs && forall p :: p in plan ==> Owed(PairsOf(existing))(p)
    ensures Dispatched(run, plan, existing) == Some(plan)
  {
    MissingIsExact(plan, existing);
    FilterAll(plan, Owed(PairsOf(existing)));
  }

  lemma TwoOwed(a: PageRow, b: PageRow, c: PageRow, plan: seq<AuditPair>, rows: seq<ResultRow>)
    requires a.id != b.id && a.id != c.id
    requires plan == [AuditPair(b.id, b.url, Mobile), AuditPair(c.id, c.url, Mobile)]
    requires rows == [ResultRow(0, b.id, Mobile, Ok, true), ResultRow(0, c.id, Mobile, Ok, true)]
    ensures PlanPairs(plan) == PairsOf(rows) == {(b.id, Mobile), (c.id, Mobile)}
    ensures (a.id, Mobile) !in PlanPairs(plan)
    ensures PairsOf([ResultRow(0, a.id, Mobile, Ok, true)]) == {(a.id, Mobile)}
  {
  }
}
