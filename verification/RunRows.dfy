/** The AuditResult rows of the runs: the unique constraint, the counters and the page pointers. */
module RunRows {
  import opened Sequences
  import opened ScopeLabels
  import opened AuditRuns

  ghost predicate RowsAreOwned(db: Db) {
    forall r :: r in db.results ==> r.run in db.runs
  }

  predicate SameKey(a: ResultRow, b: ResultRow) {
    a.run == b.run && a.page == b.page && a.strategy == b.strategy
  }

  /** The unique constraint. */
  ghost predicate OneRowPerPair(rows: seq<ResultRow>) {
    forall i, j :: 0 <= i < j < |rows| ==> !SameKey(rows[i], rows[j])
  }

  /** Progress counts rows: every terminal outcome, error rows included. */
  ghost predicate CountersMatch(db: Db) {
    forall id :: id in db.runs ==>
      && db.runs[id].completedJobs == |RowsOf(db.results, id)|
      && db.runs[id].failedJobs == |ErrorRows(db.results, id)|
  }

  ghost predicate AtMostOneActive(db: Db) {
    forall site, a, b :: ActiveRun(db, site, a) && ActiveRun(db, site, b) ==> a == b
  }

  /** Each page's pointer names the newest row of that page and strategy. */
  ghost predicate LatestIsNewest(results: seq<ResultRow>, latest: map<(PageId, Strategy), nat>) {
    && (forall k :: k in latest ==>
          latest[k] < |results| && results[latest[k]].page == k.0 && results[latest[k]].strategy == k.1)
    && (forall j :: 0 <= j < |results| ==>
          && (results[j].page, results[j].strategy) in latest
          && j <= latest[(results[j].page, results[j].strategy)])
  }

  /** Rows, counters and pointers agree. */
  ghost predicate RowsMatch(db: Db) {
    RowsAreOwned(db) && OneRowPerPair(db.results) && CountersMatch(db) && LatestIsNewest(db.results, db.latest)
  }

  ghost predicate Inv(db: Db) {
    RowsMatch(db) && AtMostOneActive(db)
  }

  /** Changing a run's row keeps rows and counters in agreement if the new counters are those of its rows. */
  lemma ReplacedRunKeepsMatch(db: Db, id: RunId, run: Run)
    requires RowsMatch(db) && id in db.runs
    requires run.completedJobs == |RowsOf(db.results, id)| && run.failedJobs == |ErrorRows(db.results, id)|
    ensures RowsMatch(db.(runs := db.runs[id := run]))
  {
  }

  /** And it keeps the active runs apart if it keeps the site and does not revive the run. */
  lemma ReplacedRunKeepsApart(db: Db, id: RunId, run: Run)
    requires AtMostOneActive(db) && id in db.runs && run.site == db.runs[id].site
    requires Active(run.status) ==> Active(db.runs[id].status)
    ensures AtMostOneActive(db.(runs := db.runs[id := run]))
  {
    var t := db.(runs := db.runs[id := run]);
    forall site, a | ActiveRun(t, site, a) ensures ActiveRun(db, site, a) {
    }
  }

  lemma ReplacedRunKeepsInv(db: Db, id: RunId, run: Run)
    requires Inv(db) && id in db.runs && run.site == db.runs[id].site
    requires Active(run.status) ==> Active(db.runs[id].status)
    requires run.completedJobs == |RowsOf(db.results, id)| && run.failedJobs == |ErrorRows(db.results, id)|
    ensures Inv(db.(runs := db.runs[id := run]))
  {
    ReplacedRunKeepsMatch(db, id, run);
    ReplacedRunKeepsApart(db, id, run);
  }

  // -------------------------------------------------------------------------------------------
  // Rows and counters
  // -------------------------------------------------------------------------------------------

  lemma RowsAfterInsert(results: seq<ResultRow>, row: ResultRow, id: RunId)
    ensures RowsOf(results + [row], id) == RowsOf(results, id) + (if row.run == id then [row] else [])
    ensures ErrorRows(results + [row], id)
         == ErrorRows(results, id) + (if row.run == id && row.outcome == Error then [row] else [])
  {
    FilterAppend(results, [row], OfRun(id));
    FilterOne(row, OfRun(id));
    FilterAppend(RowsOf(results, id), [row], IsErrorRow);
    FilterOne(row, IsErrorRow);
    assert RowsOf(results, id) + [] == RowsOf(results, id);
    assert ErrorRows(results, id) + [] == ErrorRows(results, id);
  }

  lemma {:induction false} RunRowsAreDistinct(results: seq<ResultRow>, id: RunId)
    requires OneRowPerPair(results)
    ensures OneRowPerPair(RowsOf(results, id))
  {
    if |results| > 0 {
      RunRowsAreDistinct(results[1..], id);
      var rest := RowsOf(results[1..], id);
      forall i | 0 <= i < |rest| ensures !SameKey(results[0], rest[i]) {
        assert rest[i] in results[1..];
      }
    }
  }

  /** A run has as many recorded pairs as rows. */
  lemma {:induction false} PairsCount(rows: seq<ResultRow>, id: RunId)
    requires OneRowPerPair(rows) && forall r :: r in rows ==> r.run == id
    ensures |PairsOf(rows)| == |rows|
  {
    if |rows| > 0 {
      PairsCount(rows[1..], id);
      var head := (rows[0].page, rows[0].strategy);
      assert rows == [rows[0]] + rows[1..];
      assert head !in PairsOf(rows[1..]);
      assert PairsOf(rows) == {head} + PairsOf(rows[1..]);
    } else {
      assert PairsOf(rows) == {};
    }
  }

  lemma RecordedCount(db: Db, id: RunId)
    requires OneRowPerPair(db.results)
    ensures |Recorded(db, id)| == |RowsOf(db.results, id)|
  {
    RunRowsAreDistinct(db.results, id);
    PairsCount(RowsOf(db.results, id), id);
  }

  /** One delivery: recorded once, counted once, and nobody else's rows move. */
  lemma RecordGrows(db: Db, row: ResultRow, isFailure: bool)
    ensures var (t, out) := Record(db, row, isFailure);
      && (out.Written? ==> t.results == db.results + [row])
      && (out.Written? ==> Recorded(t, row.run) == Recorded(db, row.run) + {(row.page, row.strategy)})
      && (!out.Written? ==> t == db)
      && (forall id :: id != row.run ==> RowsOf(t.results, id) == RowsOf(db.results, id))
  {
    RowsAfterInsert(db.results, row, row.run);
    forall id | id != row.run ensures RowsOf(db.results + [row], id) == RowsOf(db.results, id) {
      RowsAfterInsert(db.results, row, id);
    }
    var t := Record(db, row, isFailure).0;
    if t != db {
      assert PairsOf(RowsOf(db.results, row.run) + [row])
          == PairsOf(RowsOf(db.results, row.run)) + {(row.page, row.strategy)};
    }
  }

  lemma RecordKeepsCounters(db: Db, row: ResultRow)
    requires RowsMatch(db)
    ensures CountersMatch(Record(db, row, row.outcome == Error).0)
  {
    var t := Record(db, row, row.outcome == Error).0;
    if t != db {
      forall id | id in t.runs ensures
        && t.runs[id].completedJobs == |RowsOf(t.results, id)|
        && t.runs[id].failedJobs == |ErrorRows(t.results, id)|
      {
        RowsAfterInsert(db.results, row, id);
      }
    }
  }

  lemma RecordKeepsRows(db: Db, row: ResultRow, isFailure: bool)
    requires RowsAreOwned(db) && OneRowPerPair(db.results)
    ensures var t := Record(db, row, isFailure).0; RowsAreOwned(t) && OneRowPerPair(t.results)
  {
    var t := Record(db, row, isFailure).0;
    if t != db {
      forall i | 0 <= i < |db.results| ensures !SameKey(db.results[i], row) {
        if db.results[i].run == row.run {
          assert db.results[i] in RowsOf(db.results, row.run);
          assert (db.results[i].page, db.results[i].strategy) in Recorded(db, row.run);
        }
      }
    }
  }

  lemma RecordKeepsApart(db: Db, row: ResultRow, isFailure: bool)
    requires AtMostOneActive(db)
    ensures AtMostOneActive(Record(db, row, isFailure).0)
  {
    var t := Record(db, row, isFailure).0;
    forall site, a | ActiveRun(t, site, a) ensures ActiveRun(db, site, a) {
    }
  }

  lemma RecordKeepsLatest(db: Db, row: ResultRow, isFailure: bool)
    requires LatestIsNewest(db.results, db.latest)
    ensures var t := Record(db, row, isFailure).0; LatestIsNewest(t.results, t.latest)
  {
  }

  lemma RecordKeepsMatch(db: Db, row: ResultRow)
    requires RowsMatch(db)
    ensures RowsMatch(Record(db, row, row.outcome == Error).0)
  {
    RecordKeepsRows(db, row, row.outcome == Error);
    RecordKeepsLatest(db, row, row.outcome == Error);
    RecordKeepsCounters(db, row);
  }

  lemma RecordKeepsInv(db: Db, row: ResultRow)
    requires Inv(db)
    ensures Inv(Record(db, row, row.outcome == Error).0)
  {
    RecordKeepsMatch(db, row);
    RecordKeepsApart(db, row, row.outcome == Error);
  }
}
