/**
 * Audit runs: recording measurements, progress counters, finalizing, resuming after a crash and
 * the pause/stop controls (lib/services/run.service.ts, lib/services/audit.service.ts).
 * The database is plain state; one transaction or one SQL statement is one step.
 */
module AuditRuns {
  import opened Sequences
  import opened StableSort
  import opened Text
  import opened Arithmetic
  import opened ScopeLabels

  type RunId = nat
  type SiteId = nat
  type PageId = string

  datatype Status = Queued | Running | Paused | Completed | Failed | Skipped | Cancelled

  predicate Terminal(s: Status) {
    s.Completed? || s.Failed? || s.Skipped? || s.Cancelled?
  }

  datatype RunError =
    | NothingSucceeded
    | Message(text: string)
    | ScopeGrew(expanded: nat, committed: nat)
    | Stopped(completed: nat, total: nat)

  datatype Run = Run(
    site: SiteId, status: Status, scopeLabel: string, totalJobs: nat, completedJobs: nat, failedJobs: nat,
    startedAt: int, finishedAt: Option<int>, completedAt: Option<int>, error: Option<RunError>)

  datatype Outcome = Ok | Error

  /** An AuditResult row. `evidence` says whether its raw JSON was stored. */
  datatype ResultRow = ResultRow(run: RunId, page: PageId, strategy: Strategy, outcome: Outcome, evidence: bool)

  datatype PageGroup = PageGroup(slug: string, site: SiteId, priority: Option<int>)

  datatype PageRow = PageRow(
    id: PageId, url: string, path: string, site: SiteId, group: Option<PageGroup>,
    sitemapIndex: Option<int>, isActive: bool)

  datatype AuditPair = AuditPair(pageId: PageId, url: string, strategy: Strategy)

  /** Results in insertion order; `latest` holds each page's pointer to its newest row. */
  datatype Db = Db(
    runs: map<RunId, Run>, results: seq<ResultRow>, pages: seq<PageRow>, latest: map<(PageId, Strategy), nat>)

  // -------------------------------------------------------------------------------------------
  // Reading
  // -------------------------------------------------------------------------------------------

  function OfRun(run: RunId): ResultRow -> bool {
    (r: ResultRow) => r.run == run
  }

  function RowsOf(results: seq<ResultRow>, run: RunId): seq<ResultRow> {
    Filter(results, OfRun(run))
  }

  const IsErrorRow: ResultRow -> bool := (r: ResultRow) => r.outcome == Error

  function ErrorRows(results: seq<ResultRow>, run: RunId): seq<ResultRow> {
    Filter(RowsOf(results, run), IsErrorRow)
  }

  function PairsOf(rows: seq<ResultRow>): set<(PageId, Strategy)> {
    set r | r in rows :: (r.page, r.strategy)
  }

  /** The pairs a run has a row for. */
  function Recorded(db: Db, run: RunId): set<(PageId, Strategy)> {
    PairsOf(RowsOf(db.results, run))
  }

  predicate HasPage(pages: seq<PageRow>, id: PageId) {
    exists p :: p in pages && p.id == id
  }

  predicate Active(s: Status) {
    s.Queued? || s.Running? || s.Paused?
  }

  predicate ActiveRun(db: Db, site: SiteId, id: RunId) {
    id in db.runs && db.runs[id].site == site && Active(db.runs[id].status)
  }

  predicate ShouldFinalize(run: Run) {
    run.totalJobs > 0 && run.completedJobs >= run.totalJobs
  }

  function PairKey(page: PageId, strategy: Strategy): string {
    page + " " + StrategyName(strategy)
  }

  function KeysOf(rows: seq<ResultRow>): set<string> {
    set r | r in rows :: PairKey(r.page, r.strategy)
  }

  function NotIn(done: set<string>): AuditPair -> bool {
    (p: AuditPair) => PairKey(p.pageId, p.strategy) !in done
  }

  /** Which pairs a run still owes. */
  function DiffMissingPairs(expected: seq<AuditPair>, existing: seq<ResultRow>): seq<AuditPair> {
    Filter(expected, NotIn(KeysOf(existing)))
  }

  // -------------------------------------------------------------------------------------------
  // Scope expansion
  // -------------------------------------------------------------------------------------------

  /** s.split(','). */
  function Split(s: string): seq<string>
    decreases |s|
  {
    var i := Find(s, ",", 0);
    if i == -1 then [s] else [s[..i]] + Split(s[i + 1..])
  }

  function Selects(scope: RunScope, site: SiteId): PageRow -> bool {
    (p: PageRow) =>
      match scope.kind
      case Page => p.id == scope.ref.GetOr("")
      case Pages => p.id != "" && p.id in Split(scope.ref.GetOr(""))
      case Group =>
        p.site == site && p.isActive
        && p.group.Some? && p.group.value.slug == scope.ref.GetOr("") && p.group.value.site == site
      case _ => p.site == site && p.isActive
  }

  function Priority(p: PageRow): Option<int> {
    if p.group.Some? then p.group.value.priority else None
  }

  /** Ascending, nulls last. */
  predicate NullsLast(a: Option<int>, b: Option<int>) {
    b.None? || (a.Some? && a.value <= b.value)
  }

  /** Manual group priority, then sitemap position, then path. */
  predicate SweepOrder(a: PageRow, b: PageRow) {
    if Priority(a) != Priority(b) then NullsLast(Priority(a), Priority(b))
    else if a.sitemapIndex != b.sitemapIndex then NullsLast(a.sitemapIndex, b.sitemapIndex)
    else LexLe(a.path, b.path)
  }

  function PagePairs(p: PageRow, strategies: seq<Strategy>): seq<AuditPair> {
    seq(|strategies|, i requires 0 <= i < |strategies| => AuditPair(p.id, p.url, strategies[i]))
  }

  function AllPairs(pages: seq<PageRow>, strategies: seq<Strategy>): seq<AuditPair> {
    if |pages| == 0 then [] else PagePairs(pages[0], strategies) + AllPairs(pages[1..], strategies)
  }

  function UrlOf(pages: seq<PageRow>, id: PageId): Option<string> {
    if |pages| == 0 then None
    else if pages[0].id == id && pages[0].isActive then Some(pages[0].url)
    else UrlOf(pages[1..], id)
  }

  /** The failed pairs of another run whose page is still in the sitemap. */
  function FailedPairs(rows: seq<ResultRow>, pages: seq<PageRow>): seq<AuditPair> {
    if |rows| == 0 then []
    else
      var rest := FailedPairs(rows[1..], pages);
      match UrlOf(pages, rows[0].page)
      case None => rest
      case Some(url) => [AuditPair(rows[0].page, url, rows[0].strategy)] + rest
  }

  /** The pairs a scope covers, as the site stands now; `retried` is the run a retry scope names. */
  function ExpandScope(db: Db, site: SiteId, scope: RunScope, retried: RunId): seq<AuditPair> {
    if scope.kind.Retry? then FailedPairs(ErrorRows(db.results, retried), db.pages)
    else AllPairs(Sort(Filter(db.pages, Selects(scope, site)), SweepOrder), scope.strategies)
  }

  // -------------------------------------------------------------------------------------------
  // The writes
  // -------------------------------------------------------------------------------------------

  datatype RecordOutcome = Written(readyToFinalize: bool) | Replayed | Threw

  /** The transaction of recordAuditResult: all of it, or nothing. */
  function Record(db: Db, row: ResultRow, isFailure: bool): (Db, RecordOutcome) {
    if row.run !in db.runs || !HasPage(db.pages, row.page) then (db, Threw)
    else if (row.page, row.strategy) in Recorded(db, row.run) then (db, Replayed)
    else
      var run := db.runs[row.run];
      var counted := run.(completedJobs := run.completedJobs + 1,
                          failedJobs := run.failedJobs + (if isFailure then 1 else 0));
      (Db(db.runs[row.run := counted], db.results + [row], db.pages,
          db.latest[(row.page, row.strategy) := |db.results|]),
       Written(ShouldFinalize(counted)))
  }

  function Finalized(run: Run, now: int): Run {
    if Terminal(run.status) then run
    else if run.totalJobs > 0 && run.failedJobs >= run.totalJobs then
      run.(status := Failed, finishedAt := Some(now), completedAt := Some(now), error := Some(NothingSucceeded))
    else run.(status := Completed, finishedAt := Some(now), completedAt := Some(now), error := None)
  }

  /** Only a queued or running run is failed from outside. */
  function FailedRun(run: Run, message: string, now: int): Run {
    if run.status.Queued? || run.status.Running? then
      run.(status := Failed, error := Some(Message(message)), finishedAt := Some(now), completedAt := Some(now))
    else run
  }

  /** resumeRun on the run row, for an expanded scope and the rows the run already has. */
  function ResumedRun(run: Run, expanded: seq<AuditPair>, existing: seq<ResultRow>, now: int): Run {
    if |expanded| > run.totalJobs then
      run.(status := Failed, error := Some(ScopeGrew(|expanded|, run.totalJobs)), finishedAt := Some(now))
    else
      run.(status := Running, completedJobs := |existing|, failedJobs := |Filter(existing, IsErrorRow)|,
           totalJobs := Min(run.totalJobs, Max(|expanded|, |existing|)),
           finishedAt := None, completedAt := None, error := None)
  }

  /** What a resume hands to the dispatcher; None when growth made it refuse. */
  function Dispatched(run: Run, expanded: seq<AuditPair>, existing: seq<ResultRow>): Option<seq<AuditPair>> {
    if |expanded| > run.totalJobs then None else Some(DiffMissingPairs(expanded, existing))
  }

  /** The pairs the stored label of a run stands for now. A label is never read back as a retry. */
  function Replanned(db: Db, run: Run): seq<AuditPair> {
    ExpandScope(db, run.site, ParseScopeLabel(Some(run.scopeLabel)), 0)
  }

  function Resume(db: Db, id: RunId, now: int): Db {
    if id !in db.runs then db
    else db.(runs := db.runs[id := ResumedRun(db.runs[id], Replanned(db, db.runs[id]), RowsOf(db.results, id), now)])
  }

  predicate IsStale(startedAt: int, now: int, staleHours: int) {
    now - startedAt > staleHours * 3_600_000
  }

  /** What reconcileStaleRuns does to one run it found open. */
  function Reconciled(db: Db, id: RunId, now: int, staleHours: int, message: string): Db {
    if id !in db.runs then db
    else if IsStale(db.runs[id].startedAt, now, staleHours) then
      db.(runs := db.runs[id := FailedRun(db.runs[id], message, now)])
    else Resume(db, id, now)
  }

  function ReconcileAll(db: Db, open: seq<RunId>, now: int, staleHours: int, message: string): Db {
    if |open| == 0 then db
    else
      var n := |open| - 1;
      Reconciled(ReconcileAll(db, open[..n], now, staleHours, message), open[n], now, staleHours, message)
  }

  datatype Control = Pause | Unpause | Stop

  predicate ControlAllowed(status: Status, action: Control) {
    match action
    case Pause => status.Queued? || status.Running?
    case Unpause => status.Paused?
    case Stop => status.Queued? || status.Running? || status.Paused?
  }

  function Controlled(run: Run, action: Control, now: int): Run {
    if !ControlAllowed(run.status, action) then run
    else
      match action
      case Pause => run.(status := Paused)
      case Unpause => run.(status := Running)
      case Stop =>
        run.(status := Cancelled, finishedAt := Some(now), error := Some(Stopped(run.completedJobs, run.totalJobs)))
  }

  function NewRun(site: SiteId, status: Status, scope: RunScope, totalJobs: nat, now: int): Run {
    Run(site, status, FormatScopeLabel(scope), totalJobs, 0, 0, now, None, None, None)
  }

  /** The guarded creation: one active run per site; a scheduled sweep leaves a skipped row instead. */
  function Start(db: Db, id: RunId, site: SiteId, scope: RunScope, retried: RunId, scheduled: bool, now: int): Db {
    if id in db.runs then db
    else if exists other :: other in db.runs && ActiveRun(db, site, other) then
      if scheduled then
        db.(runs := db.runs[
            id := NewRun(site, Skipped, scope, 0, now).(finishedAt := Some(now), completedAt := Some(now))])
      else db
    else
      var pairs := ExpandScope(db, site, scope, retried);
      if |pairs| == 0 then db
      else db.(runs := db.runs[id := NewRun(site, Running, scope, |pairs|, now)])
  }
}
