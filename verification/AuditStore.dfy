/**
 * The tables of the audit side of a tenant database, with the services' statements as methods
 * (lib/services/run.service.ts, lib/services/audit.service.ts).
 */
module AuditStore {
  import opened Sequences
  import opened StableSort
  import opened Arithmetic
  import opened ScopeLabels
  import opened AuditRuns
  import opened AuditRunProtocol
  import opened AuditService

  datatype ResumeSummary = ResumeSummary(
    expected: nat, alreadyDone: nat, reEnqueued: nat, finalizedImmediately: bool)

  function StartOf(runs: map<RunId, Run>, id: RunId): int {
    if id in runs then runs[id].startedAt else 0
  }

  function OldestFirst(runs: map<RunId, Run>): (RunId, RunId) -> bool {
    (a: RunId, b: RunId) => StartOf(runs, a) <= StartOf(runs, b)
  }

  /** A run reconcileStaleRuns reports as resumed: not stale, and its dispatch, if any, went through. */
  function ReportedResumed(db: Db, now: int, staleHours: int, dispatchFails: set<RunId>): RunId -> bool {
    (id: RunId) =>
      id in db.runs && !IsStale(db.runs[id].startedAt, now, staleHours)
      && (|Replanned(db, db.runs[id])| > db.runs[id].totalJobs || id !in dispatchFails)
  }

  function Not(keep: RunId -> bool): RunId -> bool {
    (id: RunId) => !keep(id)
  }

  lemma OldestIsFirst(runs: map<RunId, Run>, open: seq<RunId>)
    requires Sorted(open, OldestFirst(runs)) && forall id :: id in open ==> id in runs
    ensures forall i, j :: 0 <= i < j < |open| ==>
      open[i] in runs && open[j] in runs && runs[open[i]].startedAt <= runs[open[j]].startedAt
  {
    forall i, j | 0 <= i < j < |open|
      ensures open[i] in runs && open[j] in runs && runs[open[i]].startedAt <= runs[open[j]].startedAt
    {
      assert open[i] in open && open[j] in open && OldestFirst(runs)(open[i], open[j]);
    }
  }

  class Tables {
    var runs: map<RunId, Run>
    var results: seq<ResultRow>
    var pages: seq<PageRow>
    var latest: map<(PageId, Strategy), nat>

    function Contents(): Db
      reads this
    {
      Db(runs, results, pages, latest)
    }

    constructor (pages: seq<PageRow>)
      ensures Contents() == Db(map[], [], pages, map[])
    {
      this.runs, this.results, this.pages, this.latest := map[], [], pages, map[];
    }

    /**
     * Stores the raw JSON, then inserts the row, moves the page pointer and advances the counters.
     * A misconfigured store costs the evidence, never the measurement; an unreachable one costs the
     * whole attempt.
     */
    method RecordAuditResult(
      run: RunId, page: PageId, strategy: Strategy, outcome: Outcome, isFailure: bool,
      hasJson: bool, storage: Storage) returns (out: RecordOutcome)
      modifies this
      ensures hasJson && storage.Unreachable? ==> Contents() == old(Contents()) && out == Threw
      ensures !(hasJson && storage.Unreachable?) ==>
        (Contents(), out)
        == Record(old(Contents()), ResultRow(run, page, strategy, outcome, hasJson && storage.Kept?), isFailure)
    {
      if hasJson && storage.Unreachable? {
        return Threw;
      }
      if run !in runs || !HasPage(pages, page) {
        return Threw;
      }
      if (page, strategy) in PairsOf(RowsOf(results, run)) {
        return Replayed;
      }
      latest := latest[(page, strategy) := |results|];
      results := results + [ResultRow(run, page, strategy, outcome, hasJson && storage.Kept?)];
      var row := runs[run];
      row := row.(completedJobs := row.completedJobs + 1);
      if isFailure {
        row := row.(failedJobs := row.failedJobs + 1);
      }
      runs := runs[run := row];
      out := Written(ShouldFinalize(row));
    }

    /** auditPage: one measurement, given how PageSpeed and the store of raw JSON behave. */
    method AuditPageOnce(run: RunId, page: PageId, strategy: Strategy, a: Attempt) returns (outcome: PageOutcome)
      modifies this
      ensures (Contents(), outcome) == AuditPage(old(Contents()), run, page, strategy, a)
    {
      match a.fetch {
        case NoApiKey =>
          return ThrewPermanent;
        case RetryableFailure =>
          return ThrewOther;
        case Blip =>
          return ThrewOther;
        case PermanentFailure(httpStatus) =>
          var out := RecordAuditResult(run, page, strategy, Error, true, false, a.storage);
          return if out.Threw? then ThrewOther else if httpStatus == Some(403) then ThrewPermanent else Returned(out);
        case ContentFailure =>
          var out := RecordAuditResult(run, page, strategy, Error, true, false, a.storage);
          return if out.Threw? then ThrewOther else Returned(out);
        case Answered(measured) =>
          var out := RecordAuditResult(run, page, strategy, measured, measured == Error, true, a.storage);
          return if out.Threw? then ThrewOther else Returned(out);
      }
    }

    /** auditOnePageStep: attempts until one settles the pair, or the last one becomes an error row. */
    method AuditOnePage(run: RunId, page: PageId, strategy: Strategy, attempts: seq<Attempt>, max: nat)
      returns (finalize: bool)
      modifies this
      ensures (Contents(), finalize) == AuditStep(old(Contents()), run, page, strategy, attempts, 1, max)
    {
      var i := 1;
      while i <= |attempts|
        invariant 1 <= i <= |attempts| + 1
        invariant AuditStep(old(Contents()), run, page, strategy, attempts, 1, max)
               == AuditStep(Contents(), run, page, strategy, attempts, i, max)
      {
        var outcome := AuditPageOnce(run, page, strategy, attempts[i - 1]);
        if outcome.Returned? {
          return outcome.out == Written(true);
        }
        if outcome.ThrewPermanent? || i >= max {
          var out := RecordAuditResult(run, page, strategy, Error, true, false, Kept);
          return out == Written(true);
        }
        i := i + 1;
      }
      finalize := false;
    }

    method FinalizeRun(id: RunId, now: int) returns (status: Option<Status>)
      modifies this`runs
      ensures id !in old(runs) ==> status == None && runs == old(runs)
      ensures id in old(runs) ==>
        runs == old(runs)[id := Finalized(old(runs)[id], now)] && status == Some(runs[id].status)
      // A run that is over is left alone; any other fails if every job has, and is completed if not.
      ensures id in old(runs) && old(runs)[id].status in {Completed, Failed, Skipped, Cancelled} ==> runs == old(runs)
      ensures id in old(runs) && old(runs)[id].status in {Queued, Running, Paused} ==>
        var run := old(runs)[id];
        var allFailed := run.totalJobs > 0 && run.failedJobs >= run.totalJobs;
        runs == old(runs)[id := Run(
          run.site, if allFailed then Failed else Completed, run.scopeLabel, run.totalJobs, run.completedJobs,
          run.failedJobs, run.startedAt, Some(now), Some(now), if allFailed then Some(NothingSucceeded) else None)]
    {
      if id !in runs {
        return None;
      }
      var run := runs[id];
      if Terminal(run.status) {
        return Some(run.status);
      }
      var nothingSucceeded := run.totalJobs > 0 && run.failedJobs >= run.totalJobs;
      status := Some(if nothingSucceeded then Failed else Completed);
      runs := runs[id := run.(
        status := status.value, finishedAt := Some(now), completedAt := Some(now),
        error := if nothingSucceeded then Some(NothingSucceeded) else None)];
    }

    method FailRun(id: RunId, message: string, now: int)
      modifies this`runs
      ensures runs == if id in old(runs) then old(runs)[id := FailedRun(old(runs)[id], message, now)] else old(runs)
      ensures id in old(runs) && old(runs)[id].status in {Queued, Running} ==>
        var run := old(runs)[id];
        runs == old(runs)[id := Run(
          run.site, Failed, run.scopeLabel, run.totalJobs, run.completedJobs, run.failedJobs, run.startedAt,
          Some(now), Some(now), Some(Message(message)))]
      ensures id in old(runs) && old(runs)[id].status !in {Queued, Running} ==> runs == old(runs)
    {
      if id in runs && (runs[id].status.Queued? || runs[id].status.Running?) {
        runs := runs[id := runs[id].(
          status := Failed, error := Some(Message(message)), finishedAt := Some(now), completedAt := Some(now))];
      }
    }

    /** None for an unknown run. What is dispatched is None when the resume was refused. */
    method ResumeRun(id: RunId, now: int) returns (summary: Option<ResumeSummary>, sent: Option<seq<AuditPair>>)
      modifies this`runs
      ensures Contents() == Resume(old(Contents()), id, now)
      ensures summary.Some? <==> id in old(runs)
      ensures id in old(runs) ==>
        && sent == Dispatched(old(runs)[id], Replanned(old(Contents()), old(runs)[id]), RowsOf(results, id))
        && summary.value.expected
           == (if sent.None? then old(runs)[id].totalJobs else |Replanned(old(Contents()), old(runs)[id])|)
        && summary.value.alreadyDone == |RowsOf(results, id)|
        && summary.value.reEnqueued == (if sent.Some? then |sent.value| else 0)
        && summary.value.finalizedImmediately == (sent == Some([]))
    {
      if id !in runs {
        return None, None;
      }
      var run := runs[id];
      var expanded := Replanned(Contents(), run);
      var existing := RowsOf(results, id);
      if |expanded| > run.totalJobs {
        runs := runs[id := run.(
          status := Failed, error := Some(ScopeGrew(|expanded|, run.totalJobs)), finishedAt := Some(now))];
        return Some(ResumeSummary(run.totalJobs, |existing|, 0, false)), None;
      }
      var missing := DiffMissingPairs(expanded, existing);
      var failedJobs := CountErrors(existing);
      runs := runs[id := run.(
        status := Running, completedJobs := |existing|, failedJobs := failedJobs,
        totalJobs := Min(run.totalJobs, Max(|expanded|, |existing|)),
        finishedAt := None, completedAt := None, error := None)];
      summary := Some(ResumeSummary(|expanded|, |existing|, |missing|, |missing| == 0));
      sent := Some(missing);
    }

    /** The queued and running runs, oldest first. */
    method FindOpenRuns() returns (open: seq<RunId>)
      ensures IsOpenList(Contents(), open) && Sorted(open, OldestFirst(runs))
      ensures forall id :: id in open <==> id in runs && runs[id].status in {Queued, Running}
      ensures forall i, j :: 0 <= i < j < |open| ==>
        open[i] in runs && open[j] in runs && runs[open[i]].startedAt <= runs[open[j]].startedAt
    {
      var left := runs.Keys;
      open := [];
      while left != {}
        invariant left <= runs.Keys
        invariant Distinct(open) && forall id :: id in open <==>
          id in runs.Keys - left && (runs[id].status.Queued? || runs[id].status.Running?)
        decreases left
      {
        var id :| id in left;
        left := left - {id};
        if runs[id].status.Queued? || runs[id].status.Running? {
          open := open + [id];
        }
      }
      var found := open;
      open := Sort(found, OldestFirst(runs));
      SortSorted(found, OldestFirst(runs));
      SameMembers(found, OldestFirst(runs));
      SortKeepsDistinct(found, OldestFirst(runs), (id: RunId) => id);
      OldestIsFirst(runs, open);
    }

    /** One round of the reconciliation: false if the run is reported as failed. */
    method ReconcileOne(id: RunId, now: int, staleHours: int, message: string, dispatchFails: set<RunId>)
      returns (adopted: bool)
      requires id in runs
      modifies this`runs
      ensures Contents() == Reconciled(old(Contents()), id, now, staleHours, message)
      ensures adopted == ReportedResumed(old(Contents()), now, staleHours, dispatchFails)(id)
      // A run open for longer than the limit is failed with the message; any other is resumed.
      ensures now - old(runs)[id].startedAt > staleHours * 3_600_000 ==>
        !adopted && runs == old(runs)[id := FailedRun(old(runs)[id], message, now)]
      ensures now - old(runs)[id].startedAt <= staleHours * 3_600_000 ==>
        && Contents() == Resume(old(Contents()), id, now)
        && (adopted <==> runs[id].status == Failed || id !in dispatchFails)
    {
      if IsStale(runs[id].startedAt, now, staleHours) {
        FailRun(id, message, now);
        return false;
      }
      var _, sent := ResumeRun(id, now);
      return sent.None? || id !in dispatchFails;
    }

    /** The rounds, in the order given; what failed and what went through comes back in two lists. */
    method ReconcileRuns(open: seq<RunId>, now: int, staleHours: int, message: string, dispatchFails: set<RunId>)
      returns (resumed: seq<RunId>, failed: seq<RunId>)
      requires IsOpenList(Contents(), open)
      modifies this`runs
      ensures Contents() == ReconcileAll(old(Contents()), open, now, staleHours, message)
      ensures resumed == Filter(open, ReportedResumed(old(Contents()), now, staleHours, dispatchFails))
      ensures failed == Filter(open, Not(ReportedResumed(old(Contents()), now, staleHours, dispatchFails)))
    {
      ghost var before := Contents();
      ghost var reported := ReportedResumed(before, now, staleHours, dispatchFails);
      resumed, failed := [], [];
      for i := 0 to |open|
        invariant Contents() == ReconcileAll(before, open[..i], now, staleHours, message)
        invariant resumed == Filter(open[..i], reported) && failed == Filter(open[..i], Not(reported))
      {
        ReconcileRound(before, open, i, now, staleHours, message, dispatchFails);
        var adopted := ReconcileOne(open[i], now, staleHours, message, dispatchFails);
        FilterNext(open, i, reported);
        FilterNext(open, i, Not(reported));
        if adopted {
          resumed := resumed + [open[i]];
        } else {
          failed := failed + [open[i]];
        }
      }
      assert open[..|open|] == open;
    }

    /** Adopts or buries whatever the last tick left open. */
    method ReconcileStaleRuns(now: int, staleHours: int, message: string, dispatchFails: set<RunId>)
      returns (resumed: seq<RunId>, failed: seq<RunId>)
      modifies this`runs
      ensures exists open ::
        && IsOpenList(old(Contents()), open) && Sorted(open, OldestFirst(old(runs)))
        && Contents() == ReconcileAll(old(Contents()), open, now, staleHours, message)
        && resumed == Filter(open, ReportedResumed(old(Contents()), now, staleHours, dispatchFails))
        && failed == Filter(open, Not(ReportedResumed(old(Contents()), now, staleHours, dispatchFails)))
      // Reported as resumed are the open runs that are young enough, unless a dispatch failed; all others as failed.
      ensures forall id :: id in resumed <==>
        && id in old(runs) && old(runs)[id].status in {Queued, Running}
        && now - old(runs)[id].startedAt <= staleHours * 3_600_000
        && (|Replanned(old(Contents()), old(runs)[id])| > old(runs)[id].totalJobs || id !in dispatchFails)
      ensures forall id :: id in failed <==>
        id in old(runs) && old(runs)[id].status in {Queued, Running} && id !in resumed
    {
      var open := FindOpenRuns();
      resumed, failed := ReconcileRuns(open, now, staleHours, message, dispatchFails);
    }

    /** The guarded creation: the status of the row that was inserted, if one was. */
    method StartRun(id: RunId, site: SiteId, scope: RunScope, retried: RunId, scheduled: bool, now: int)
      returns (status: Option<Status>)
      modifies this`runs
      ensures Contents() == Start(old(Contents()), id, site, scope, retried, scheduled, now)
      ensures status.Some? <==> runs != old(runs)
      ensures status.Some? ==> id !in old(runs) && runs[id].status == status.value
      // Beside an active run of the site only a scheduled start leaves a row, and that one is skipped.
      ensures id !in old(runs) ==>
        var busy := exists other :: other in old(runs) && old(runs)[other].site == site
                                    && old(runs)[other].status in {Queued, Running, Paused};
        var plan := ExpandScope(old(Contents()), site, scope, retried);
        runs == if busy && scheduled then old(runs)[id := Run(
                     site, Skipped, FormatScopeLabel(scope), 0, 0, 0, now, Some(now), Some(now), None)]
                else if busy || plan == [] then old(runs)
                else old(runs)[id := Run(
                     site, Running, FormatScopeLabel(scope), |plan|, 0, 0, now, None, None, None)]
    {
      if id in runs {
        return None;
      }
      if exists other :: other in runs && ActiveRun(Contents(), site, other) {
        if !scheduled {
          return None;
        }
        status := Some(Skipped);
        runs := runs[id := Run(site, Skipped, FormatScopeLabel(scope), 0, 0, 0, now, Some(now), Some(now), None)];
      } else {
        var pairs := ExpandScope(Contents(), site, scope, retried);
        if |pairs| == 0 {
          return None;
        }
        status := Some(Running);
        runs := runs[id := Run(site, Running, FormatScopeLabel(scope), |pairs|, 0, 0, now, None, None, None)];
      }
    }

    /** The new status, or None if there is no such run or it does not allow the action. */
    method ControlRun(id: RunId, action: Control, now: int) returns (next: Option<Status>)
      modifies this`runs
      ensures next.Some? <==> id in old(runs) && ControlAllowed(old(runs)[id].status, action)
      ensures next.Some? ==>
        && runs == old(runs)[id := Controlled(old(runs)[id], action, now)]
        && next.value == runs[id].status
      ensures next.None? ==> runs == old(runs)
      // Pausing takes a queued or running run, resuming a paused one, stopping any that is not over.
      ensures next.Some? <==>
        && id in old(runs)
        && old(runs)[id].status
           in match action
              case Pause => {Queued, Running}
              case Unpause => {Paused}
              case Stop => {Queued, Running, Paused}
      ensures next.Some? ==>
        var run := old(runs)[id];
        runs[id] == match action
          case Pause => run.(status := Paused)
          case Unpause => run.(status := Running)
          case Stop => run.(status := Cancelled, finishedAt := Some(now),
                            error := Some(Stopped(run.completedJobs, run.totalJobs)))
    {
      if id !in runs || !ControlAllowed(runs[id].status, action) {
        return None;
      }
      var run := runs[id];
      match action {
        case Pause =>
          runs := runs[id := run.(status := Paused)];
        case Unpause =>
          runs := runs[id := run.(status := Running)];
        case Stop =>
          runs := runs[id := run.(
            status := Cancelled, finishedAt := Some(now), error := Some(Stopped(run.completedJobs, run.totalJobs)))];
      }
      next := Some(runs[id].status);
    }
  }

  /** The rounds before it leave a run, and what is reported about it, as the query found it. */
  lemma ReconcileRound(
    db: Db, open: seq<RunId>, i: nat, now: int, staleHours: int, message: string, dispatchFails: set<RunId>)
    requires IsOpenList(db, open) && i < |open|
    ensures var t := ReconcileAll(db, open[..i], now, staleHours, message);
      && open[i] in t.runs
      && ReportedResumed(t, now, staleHours, dispatchFails)(open[i])
         == ReportedResumed(db, now, staleHours, dispatchFails)(open[i])
      && ReconcileAll(db, open[..i + 1], now, staleHours, message)
         == Reconciled(t, open[i], now, staleHours, message)
  {
    ReconcileTouchesOnlyOpen(db, open[..i], now, staleHours, message);
    assert open[i] !in open[..i];
    assert open[..i + 1][..i] == open[..i];
  }

  method CountErrors(rows: seq<ResultRow>) returns (n: nat)
    ensures n == |Filter(rows, IsErrorRow)|
  {
    n := 0;
    for i := 0 to |rows|
      invariant n == |Filter(rows[..i], IsErrorRow)|
    {
      FilterNext(rows, i, IsErrorRow);
      if rows[i].outcome == Error {
        n := n + 1;
      }
    }
    assert rows[..|rows|] == rows;
  }

}
