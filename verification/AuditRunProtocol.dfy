/**
 * Runs of the audit database: any number of workers, cron ticks and operators, in any order.
 * finalizeRun, resumeRun, controlRun and the guarded creation read before they write; each is one step
 * here. Each round of reconcileStaleRuns is a step of its own, so anything may happen between its query
 * and its rounds.
 */
module AuditRunProtocol {
  import opened Sequences
  import opened ScopeLabels
  import opened AuditRuns
  import opened RunRows
  import opened RunResume

  datatype Step =
    | RecordStep(row: ResultRow)
    | FinalizeStep(id: RunId, now: int)
    | FailStep(id: RunId, message: string, now: int)
    | RoundStep(id: RunId, now: int, staleHours: int, message: string)
    | ControlStep(id: RunId, action: Control, now: int)
    | StartStep(id: RunId, site: SiteId, scope: RunScope, retried: RunId, scheduled: bool, now: int)
    | IngestStep(pages: seq<PageRow>)

  /** What the query of reconcileStaleRuns returns: each queued or running run, once. */
  ghost predicate IsOpenList(db: Db, open: seq<RunId>) {
    && Distinct(open)
    && forall id :: id in open <==> id in db.runs && (db.runs[id].status.Queued? || db.runs[id].status.Running?)
  }

  /** A worker always reports a failure for an error row and only for one (see AuditPage). */
  ghost function Next(db: Db, step: Step): Db {
    match step
    case RecordStep(row) => Record(db, row, row.outcome == Error).0
    case FinalizeStep(id, now) =>
      if id in db.runs then db.(runs := db.runs[id := Finalized(db.runs[id], now)]) else db
    case FailStep(id, message, now) =>
      if id in db.runs then db.(runs := db.runs[id := FailedRun(db.runs[id], message, now)]) else db
    case RoundStep(id, now, staleHours, message) => Reconciled(db, id, now, staleHours, message)
    case ControlStep(id, action, now) =>
      if id in db.runs then db.(runs := db.runs[id := Controlled(db.runs[id], action, now)]) else db
    case StartStep(id, site, scope, retried, scheduled, now) => Start(db, id, site, scope, retried, scheduled, now)
    case IngestStep(pages) => db.(pages := pages)
  }

  ghost function After(db: Db, steps: seq<Step>): Db
    decreases |steps|
  {
    if |steps| == 0 then db else After(Next(db, steps[0]), steps[1..])
  }

  // -------------------------------------------------------------------------------------------
  // Reconciling
  // -------------------------------------------------------------------------------------------

  lemma ReconciledFrame(db: Db, id: RunId, now: int, staleHours: int, message: string)
    ensures var t := Reconciled(db, id, now, staleHours, message);
      && t.runs.Keys == db.runs.Keys && t.results == db.results && t.pages == db.pages && t.latest == db.latest
      && (forall k :: k in db.runs && k != id ==> t.runs[k] == db.runs[k])
      && (forall k :: k in db.runs ==> t.runs[k].site == db.runs[k].site)
  {
  }

  /**
   * A round fails a run open for longer than the limit, with the message, if it is still queued or running,
   * and resumes any other.
   */
  lemma ReconciledIs(db: Db, id: RunId, now: int, staleHours: int, message: string)
    requires id in db.runs
    ensures var run := db.runs[id];
      Reconciled(db, id, now, staleHours, message)
      == if now - run.startedAt <= staleHours * 60 * 60 * 1000 then Resume(db, id, now)
         else if run.status in {Queued, Running} then
           db.(runs := db.runs[id := Run(
             run.site, Failed, run.scopeLabel, run.totalJobs, run.completedJobs, run.failedJobs, run.startedAt,
             Some(now), Some(now), Some(Message(message)))])
         else db
  {
  }

  /** A run that was not open, a paused one say, is left exactly as it was; so are all the rows. */
  lemma {:induction false} ReconcileTouchesOnlyOpen(
    db: Db, open: seq<RunId>, now: int, staleHours: int, message: string)
    ensures var t := ReconcileAll(db, open, now, staleHours, message);
      && t.runs.Keys == db.runs.Keys && t.results == db.results && t.pages == db.pages && t.latest == db.latest
      && (forall k :: k in db.runs && k !in open ==> t.runs[k] == db.runs[k])
  {
    if |open| > 0 {
      var n := |open| - 1;
      ReconcileTouchesOnlyOpen(db, open[..n], now, staleHours, message);
      ReconciledFrame(ReconcileAll(db, open[..n], now, staleHours, message), open[n], now, staleHours, message);
      assert open == open[..n] + [open[n]];
    }
  }

  /** Reconciling one run looks at its own row, the rows and the pages. */
  lemma ReconciledIsLocal(a: Db, b: Db, id: RunId, now: int, staleHours: int, message: string)
    requires a.results == b.results && a.pages == b.pages
    requires id in a.runs && id in b.runs && a.runs[id] == b.runs[id]
    ensures Reconciled(a, id, now, staleHours, message).runs[id] == Reconciled(b, id, now, staleHours, message).runs[id]
  {
  }

  /** Every open run is handled as if it were the only one. */
  lemma {:induction false} ReconcileEach(db: Db, open: seq<RunId>, now: int, staleHours: int, message: string, k: nat)
    requires Distinct(open) && k < |open| && forall id :: id in open ==> id in db.runs
    ensures open[k] in ReconcileAll(db, open, now, staleHours, message).runs
    ensures ReconcileAll(db, open, now, staleHours, message).runs[open[k]]
         == Reconciled(db, open[k], now, staleHours, message).runs[open[k]]
  {
    var n := |open| - 1;
    var t := ReconcileAll(db, open[..n], now, staleHours, message);
    ReconcileTouchesOnlyOpen(db, open[..n], now, staleHours, message);
    ReconciledFrame(t, open[n], now, staleHours, message);
    if k < n {
      ReconcileEach(db, open[..n], now, staleHours, message, k);
    } else {
      ReconciledIsLocal(t, db, open[n], now, staleHours, message);
    }
  }

  lemma ReconciledKeepsInv(db: Db, id: RunId, now: int, staleHours: int, message: string)
    requires Inv(db) && id in db.runs && Active(db.runs[id].status)
    ensures Inv(Reconciled(db, id, now, staleHours, message))
  {
    if IsStale(db.runs[id].startedAt, now, staleHours) {
      ReplacedRunKeepsInv(db, id, FailedRun(db.runs[id], message, now));
    } else {
      ResumeKeepsInv(db, id, now);
    }
  }

  lemma {:induction false} ReconcileAllKeepsInv(db: Db, open: seq<RunId>, now: int, staleHours: int, message: string)
    requires Inv(db) && Distinct(open)
    requires forall id :: id in open ==> id in db.runs && Active(db.runs[id].status)
    ensures Inv(ReconcileAll(db, open, now, staleHours, message))
  {
    if |open| > 0 {
      var n := |open| - 1;
      ReconcileAllKeepsInv(db, open[..n], now, staleHours, message);
      ReconcileTouchesOnlyOpen(db, open[..n], now, staleHours, message);
      assert open[n] !in open[..n];
      ReconciledKeepsInv(ReconcileAll(db, open[..n], now, staleHours, message), open[n], now, staleHours, message);
    }
  }

  // -------------------------------------------------------------------------------------------
  // Whole runs of the system
  // -------------------------------------------------------------------------------------------

  /** A new run starts with no rows, so with counters at zero. */
  lemma NewRunKeepsMatch(db: Db, id: RunId, run: Run)
    requires RowsMatch(db) && id !in db.runs && run.completedJobs == 0 && run.failedJobs == 0
    ensures RowsMatch(db.(runs := db.runs[id := run]))
  {
    FilterNone(db.results, OfRun(id));
    assert RowsOf(db.results, id) == [] && ErrorRows(db.results, id) == [];
  }

  lemma NewRunKeepsApart(db: Db, id: RunId, run: Run)
    requires AtMostOneActive(db) && id !in db.runs
    requires Active(run.status) ==> forall other :: other in db.runs ==> !ActiveRun(db, run.site, other)
    ensures AtMostOneActive(db.(runs := db.runs[id := run]))
  {
    var t := db.(runs := db.runs[id := run]);
    forall s, a | ActiveRun(t, s, a) ensures a == id || ActiveRun(db, s, a) {
    }
  }

  lemma StartKeepsMatch(db: Db, id: RunId, site: SiteId, scope: RunScope, retried: RunId, scheduled: bool, now: int)
    requires RowsMatch(db)
    ensures RowsMatch(Start(db, id, site, scope, retried, scheduled, now))
  {
    if id !in db.runs {
      NewRunKeepsMatch(
        db, id, NewRun(site, Skipped, scope, 0, now).(finishedAt := Some(now), completedAt := Some(now)));
      NewRunKeepsMatch(db, id, NewRun(site, Running, scope, |ExpandScope(db, site, scope, retried)|, now));
    }
  }

  lemma StartKeepsApart(db: Db, id: RunId, site: SiteId, scope: RunScope, retried: RunId, scheduled: bool, now: int)
    requires AtMostOneActive(db)
    ensures AtMostOneActive(Start(db, id, site, scope, retried, scheduled, now))
  {
    if id in db.runs {
    } else if exists other :: other in db.runs && ActiveRun(db, site, other) {
      NewRunKeepsApart(
        db, id, NewRun(site, Skipped, scope, 0, now).(finishedAt := Some(now), completedAt := Some(now)));
    } else {
      NewRunKeepsApart(db, id, NewRun(site, Running, scope, |ExpandScope(db, site, scope, retried)|, now));
    }
  }

  lemma FinalizedKeeps(run: Run, now: int)
    ensures var after := Finalized(run, now);
      && after.site == run.site && after.completedJobs == run.completedJobs && after.failedJobs == run.failedJobs
      && !Active(after.status)
  {
  }

  // -------------------------------------------------------------------------------------------
  // Rounds that come late
  // -------------------------------------------------------------------------------------------

  /** This round sets the run running, whatever its status: it is young enough and its scope has not grown. */
  predicate Reopens(db: Db, id: RunId, now: int, staleHours: int) {
    && id in db.runs && !IsStale(db.runs[id].startedAt, now, staleHours)
    && |Replanned(db, db.runs[id])| <= db.runs[id].totalJobs
  }

  /** A round that sets a run running while another run of the site is active. */
  ghost predicate Clashes(db: Db, step: Step) {
    step.RoundStep? && Reopens(db, step.id, step.now, step.staleHours)
    && exists other :: other != step.id && ActiveRun(db, db.runs[step.id].site, other)
  }

  /** A round that changes the status of a run that is over. */
  predicate Reverses(db: Db, step: Step, id: RunId) {
    && step.RoundStep? && step.id == id && id in db.runs
    && !IsStale(db.runs[id].startedAt, step.now, step.staleHours)
    && (|Replanned(db, db.runs[id])| <= db.runs[id].totalJobs || db.runs[id].status != Failed)
  }

  /** A round that finds its run still active does neither. */
  lemma TimelyRoundIsHarmless(db: Db, step: Step)
    requires AtMostOneActive(db) && step.RoundStep? && step.id in db.runs && Active(db.runs[step.id].status)
    ensures !Clashes(db, step)
    ensures forall id :: id in db.runs && Terminal(db.runs[id].status) ==> !Reverses(db, step, id)
  {
    assert ActiveRun(db, db.runs[step.id].site, step.id);
  }

  lemma RoundKeepsMatch(db: Db, id: RunId, now: int, staleHours: int, message: string)
    requires RowsMatch(db)
    ensures RowsMatch(Reconciled(db, id, now, staleHours, message))
  {
    if id in db.runs {
      if IsStale(db.runs[id].startedAt, now, staleHours) {
        ReplacedRunKeepsMatch(db, id, FailedRun(db.runs[id], message, now));
      } else {
        ResumeKeepsMatch(db, id, now);
      }
    }
  }

  lemma RoundStatus(db: Db, id: RunId, now: int, staleHours: int, message: string)
    requires id in db.runs
    ensures var t := Reconciled(db, id, now, staleHours, message);
      && t.runs.Keys == db.runs.Keys && t.runs[id].site == db.runs[id].site
      && (Reopens(db, id, now, staleHours) ==> t.runs[id].status == Running)
      && (!Reopens(db, id, now, staleHours) ==> (Active(t.runs[id].status) ==> Active(db.runs[id].status)))
      && (forall k :: k in db.runs && k != id ==> t.runs[k] == db.runs[k])
  {
  }

  lemma ClearRoundKeepsApart(db: Db, step: Step)
    requires AtMostOneActive(db) && step.RoundStep? && !Clashes(db, step)
    ensures AtMostOneActive(Next(db, step))
  {
    if step.id in db.runs {
      RoundStatus(db, step.id, step.now, step.staleHours, step.message);
      var t := Next(db, step);
      var run := t.runs[step.id];
      if Reopens(db, step.id, step.now, step.staleHours) {
        forall site, a | ActiveRun(t, site, a) ensures site == run.site ==> a == step.id {
          assert a != step.id ==> ActiveRun(db, site, a);
        }
        forall site, a | ActiveRun(t, site, a) && a != step.id ensures ActiveRun(db, site, a) {
        }
      } else {
        forall site, a | ActiveRun(t, site, a) ensures ActiveRun(db, site, a) {
        }
      }
    }
  }

  lemma ClashBreaksApart(db: Db, step: Step)
    requires Clashes(db, step)
    ensures !AtMostOneActive(Next(db, step))
  {
    RoundStatus(db, step.id, step.now, step.staleHours, step.message);
    var t, site := Next(db, step), db.runs[step.id].site;
    var other :| other != step.id && ActiveRun(db, site, other);
    assert ActiveRun(t, site, other) && ActiveRun(t, site, step.id);
  }

  // -------------------------------------------------------------------------------------------
  // Every step
  // -------------------------------------------------------------------------------------------

  lemma FinalizeKeepsMatch(db: Db, id: RunId, now: int)
    requires RowsMatch(db)
    ensures RowsMatch(Next(db, FinalizeStep(id, now)))
  {
    if id in db.runs {
      FinalizedKeeps(db.runs[id], now);
      ReplacedRunKeepsMatch(db, id, Finalized(db.runs[id], now));
    }
  }

  lemma FailKeepsMatch(db: Db, id: RunId, message: string, now: int)
    requires RowsMatch(db)
    ensures RowsMatch(Next(db, FailStep(id, message, now)))
  {
    if id in db.runs {
      ReplacedRunKeepsMatch(db, id, FailedRun(db.runs[id], message, now));
    }
  }

  lemma ControlKeepsMatch(db: Db, id: RunId, action: Control, now: int)
    requires RowsMatch(db)
    ensures RowsMatch(Next(db, ControlStep(id, action, now)))
  {
    if id in db.runs {
      ReplacedRunKeepsMatch(db, id, Controlled(db.runs[id], action, now));
    }
  }

  lemma IngestKeepsMatch(db: Db, pages: seq<PageRow>)
    requires RowsMatch(db)
    ensures RowsMatch(Next(db, IngestStep(pages)))
  {
  }

  /** Rows, counters and pointers stay in agreement, late rounds or not. */
  lemma StepKeepsMatch(db: Db, step: Step)
    requires RowsMatch(db)
    ensures RowsMatch(Next(db, step))
  {
    match step
    case RecordStep(row) => RecordKeepsMatch(db, row);
    case FinalizeStep(id, now) => FinalizeKeepsMatch(db, id, now);
    case FailStep(id, message, now) => FailKeepsMatch(db, id, message, now);
    case RoundStep(id, now, staleHours, message) => RoundKeepsMatch(db, id, now, staleHours, message);
    case ControlStep(id, action, now) => ControlKeepsMatch(db, id, action, now);
    case StartStep(id, site, scope, retried, scheduled, now) =>
      StartKeepsMatch(db, id, site, scope, retried, scheduled, now);
    case IngestStep(pages) => IngestKeepsMatch(db, pages);
  }

  lemma OtherStepKeepsApart(db: Db, step: Step)
    requires AtMostOneActive(db) && !step.RoundStep?
    ensures AtMostOneActive(Next(db, step))
  {
    match step
    case RecordStep(row) => RecordKeepsApart(db, row, row.outcome == Error);
    case FinalizeStep(id, now) =>
      if id in db.runs {
        FinalizedKeeps(db.runs[id], now);
        ReplacedRunKeepsApart(db, id, Finalized(db.runs[id], now));
      }
    case FailStep(id, message, now) =>
      if id in db.runs { ReplacedRunKeepsApart(db, id, FailedRun(db.runs[id], message, now)); }
    case ControlStep(id, action, now) =>
      if id in db.runs { ReplacedRunKeepsApart(db, id, Controlled(db.runs[id], action, now)); }
    case StartStep(id, site, scope, retried, scheduled, now) =>
      StartKeepsApart(db, id, site, scope, retried, scheduled, now);
    case IngestStep(pages) =>
      forall site, a | ActiveRun(Next(db, step), site, a) ensures ActiveRun(db, site, a) {
      }
  }

  /** A step keeps the invariant exactly when it is no round that reopens a run beside an active one. */
  lemma StepKeepsInvIff(db: Db, step: Step)
    requires Inv(db)
    ensures Inv(Next(db, step)) <==> !Clashes(db, step)
  {
    StepKeepsMatch(db, step);
    if Clashes(db, step) {
      ClashBreaksApart(db, step);
    } else if step.RoundStep? {
      ClearRoundKeepsApart(db, step);
    } else {
      OtherStepKeepsApart(db, step);
    }
  }

  ghost predicate AllClear(db: Db, steps: seq<Step>)
    decreases |steps|
  {
    |steps| == 0 || (!Clashes(db, steps[0]) && AllClear(Next(db, steps[0]), steps[1..]))
  }

  /**
   * In every reachable state: one row per (run, page, strategy), counters equal to the numbers of rows
   * and of error rows, and page pointers on the newest rows.
   */
  lemma {:induction false} EveryRunKeepsMatch(db: Db, steps: seq<Step>)
    requires RowsMatch(db)
    ensures RowsMatch(After(db, steps))
    decreases |steps|
  {
    if |steps| > 0 {
      StepKeepsMatch(db, steps[0]);
      EveryRunKeepsMatch(Next(db, steps[0]), steps[1..]);
    }
  }

  /** And as long as no round comes so late that it clashes, at most one active run per site. */
  lemma {:induction false} EveryRunKeepsInv(db: Db, steps: seq<Step>)
    requires Inv(db) && AllClear(db, steps)
    ensures Inv(After(db, steps))
    decreases |steps|
  {
    if |steps| > 0 {
      StepKeepsInvIff(db, steps[0]);
      EveryRunKeepsInv(Next(db, steps[0]), steps[1..]);
    }
  }

  ghost predicate InvThroughout(db: Db, steps: seq<Step>)
    decreases |steps|
  {
    Inv(db) && (|steps| > 0 ==> InvThroughout(Next(db, steps[0]), steps[1..]))
  }

  /** The condition is exact over whole runs: every state on the way keeps the invariant just when no round clashes. */
  lemma {:induction false} InvThroughoutIff(db: Db, steps: seq<Step>)
    requires Inv(db)
    ensures InvThroughout(db, steps) <==> AllClear(db, steps)
    decreases |steps|
  {
    if |steps| > 0 {
      StepKeepsInvIff(db, steps[0]);
      if !Clashes(db, steps[0]) {
        InvThroughoutIff(Next(db, steps[0]), steps[1..]);
      }
    }
  }

  /** The status of a run that is over changes exactly with a round that comes after its end. */
  lemma TerminalStaysIff(db: Db, step: Step, id: RunId)
    requires id in db.runs && Terminal(db.runs[id].status)
    ensures id in Next(db, step).runs
    ensures Next(db, step).runs[id].status == db.runs[id].status <==> !Reverses(db, step, id)
  {
  }

  ghost predicate NoneReverses(db: Db, steps: seq<Step>, id: RunId)
    decreases |steps|
  {
    |steps| == 0 || (!Reverses(db, steps[0], id) && NoneReverses(Next(db, steps[0]), steps[1..], id))
  }

  /** What is over stays over: without such a round a cancelled run never becomes completed, late deliveries or not. */
  lemma {:induction false} TerminalForever(db: Db, steps: seq<Step>, id: RunId)
    requires id in db.runs && Terminal(db.runs[id].status) && NoneReverses(db, steps, id)
    ensures id in After(db, steps).runs && After(db, steps).runs[id].status == db.runs[id].status
    decreases |steps|
  {
    if |steps| > 0 {
      TerminalStaysIff(db, steps[0], id);
      TerminalForever(Next(db, steps[0]), steps[1..], id);
    }
  }

  ghost predicate StatusThroughout(db: Db, steps: seq<Step>, id: RunId, status: Status)
    decreases |steps|
  {
    && id in db.runs && db.runs[id].status == status
    && (|steps| > 0 ==> StatusThroughout(Next(db, steps[0]), steps[1..], id, status))
  }

  /** Exactly then: a run that is over keeps its status all the way just when no round comes after its end. */
  lemma {:induction false} TerminalThroughoutIff(db: Db, steps: seq<Step>, id: RunId)
    requires id in db.runs && Terminal(db.runs[id].status)
    ensures StatusThroughout(db, steps, id, db.runs[id].status) <==> NoneReverses(db, steps, id)
    decreases |steps|
  {
    if |steps| > 0 {
      TerminalStaysIff(db, steps[0], id);
      if !Reverses(db, steps[0], id) {
        TerminalThroughoutIff(Next(db, steps[0]), steps[1..], id);
      }
    }
  }

  lemma StoppedAndReplaced(db: Db, id: RunId, other: RunId, scope: RunScope, retried: RunId, now: int)
    requires AtMostOneActive(db) && id in db.runs && Active(db.runs[id].status) && other !in db.runs
    requires ExpandScope(db, db.runs[id].site, scope, retried) != []
    ensures var t := Start(Next(db, ControlStep(id, Stop, now)), other, db.runs[id].site, scope, retried, false, now);
      && t.runs == db.runs[id := Controlled(db.runs[id], Stop, now)][
           other := NewRun(db.runs[id].site, Running, scope, |ExpandScope(db, db.runs[id].site, scope, retried)|, now)]
      && t.results == db.results && t.pages == db.pages
  {
    assert ActiveRun(db, db.runs[id].site, id);
    var u := Next(db, ControlStep(id, Stop, now));
    forall k | ActiveRun(u, db.runs[id].site, k) ensures k != id && ActiveRun(db, db.runs[id].site, k) {
    }
    assert ExpandScope(u, db.runs[id].site, scope, retried) == ExpandScope(db, db.runs[id].site, scope, retried);
  }

  /** Whether a round reopens a run does not depend on its status, or on other runs. */
  lemma ReopensStill(a: Db, b: Db, id: RunId, now: int, staleHours: int)
    requires a.results == b.results && a.pages == b.pages && id in a.runs && id in b.runs
    requires var r, u := a.runs[id], b.runs[id];
      r.site == u.site && r.scopeLabel == u.scopeLabel && r.totalJobs == u.totalJobs && r.startedAt == u.startedAt
    ensures Reopens(a, id, now, staleHours) <==> Reopens(b, id, now, staleHours)
  {
  }

  /**
   * Both happen: a run found open is stopped and the next one of its site started before its round comes;
   * the round then reverses the cancelled run, and sets it running beside the new one.
   */
  lemma LateRoundRevives(db: Db, t: Db, id: RunId, other: RunId, scope: RunScope, retried: RunId, round: Step)
    requires Inv(db) && id in db.runs && Active(db.runs[id].status) && round.RoundStep? && round.id == id
    requires Reopens(db, id, round.now, round.staleHours)
    requires other !in db.runs && ExpandScope(db, db.runs[id].site, scope, retried) != []
    requires var stopped := Next(db, ControlStep(id, Stop, round.now));
      t == Start(stopped, other, db.runs[id].site, scope, retried, false, round.now)
    ensures id in t.runs && t.runs[id].status == Cancelled
    ensures ActiveRun(t, db.runs[id].site, other)
    ensures Reverses(t, round, id) && Clashes(t, round)
  {
    StoppedAndReplaced(db, id, other, scope, retried, round.now);
    ReopensStill(db, t, id, round.now, round.staleHours);
    assert ActiveRun(t, t.runs[id].site, other);
  }

  // -------------------------------------------------------------------------------------------
  // A reconcile that nothing comes between
  // -------------------------------------------------------------------------------------------

  function Rounds(open: seq<RunId>, now: int, staleHours: int, message: string): seq<Step> {
    seq(|open|, i requires 0 <= i < |open| => RoundStep(open[i], now, staleHours, message))
  }

  lemma {:induction false} AfterLast(db: Db, steps: seq<Step>, last: Step)
    ensures After(db, steps + [last]) == Next(After(db, steps), last)
    ensures AllClear(db, steps) && !Clashes(After(db, steps), last) ==> AllClear(db, steps + [last])
    decreases |steps|
  {
    if |steps| > 0 {
      assert (steps + [last])[0] == steps[0] && (steps + [last])[1..] == steps[1..] + [last];
      AfterLast(Next(db, steps[0]), steps[1..], last);
    } else {
      assert steps + [last] == [last] && [last][1..] == [];
      assert After(Next(db, last), []) == Next(db, last);
      assert AllClear(Next(db, last), []);
    }
  }

  lemma {:induction false} NoneReversesLast(db: Db, steps: seq<Step>, last: Step, id: RunId)
    requires NoneReverses(db, steps, id) && !Reverses(After(db, steps), last, id)
    ensures NoneReverses(db, steps + [last], id)
    decreases |steps|
  {
    if |steps| > 0 {
      assert (steps + [last])[0] == steps[0] && (steps + [last])[1..] == steps[1..] + [last];
      NoneReversesLast(Next(db, steps[0]), steps[1..], last, id);
    } else {
      assert steps + [last] == [last] && [last][1..] == [];
      assert NoneReverses(Next(db, last), [], id);
    }
  }

  /** What the rounds before it leave of an open run and of the invariant. */
  lemma LastRound(db: Db, open: seq<RunId>, now: int, staleHours: int, message: string)
    requires Inv(db) && Distinct(open) && |open| > 0
    requires forall id :: id in open ==> id in db.runs && Active(db.runs[id].status)
    ensures var n := |open| - 1;
      var t := ReconcileAll(db, open[..n], now, staleHours, message);
      AtMostOneActive(t) && open[n] in t.runs && Active(t.runs[open[n]].status)
  {
    var n := |open| - 1;
    ReconcileTouchesOnlyOpen(db, open[..n], now, staleHours, message);
    ReconcileAllKeepsInv(db, open[..n], now, staleHours, message);
    assert open[n] !in open[..n];
  }

  lemma RoundsLast(open: seq<RunId>, now: int, staleHours: int, message: string)
    requires |open| > 0
    ensures var n := |open| - 1;
      Rounds(open, now, staleHours, message)
      == Rounds(open[..n], now, staleHours, message) + [RoundStep(open[n], now, staleHours, message)]
  {
  }

  /** The rounds over the open runs, in a row, are the reconcile of them all, and none of them clashes. */
  lemma {:induction false} RoundsInARow(db: Db, open: seq<RunId>, now: int, staleHours: int, message: string)
    requires Inv(db) && Distinct(open)
    requires forall id :: id in open ==> id in db.runs && Active(db.runs[id].status)
    ensures After(db, Rounds(open, now, staleHours, message)) == ReconcileAll(db, open, now, staleHours, message)
    ensures AllClear(db, Rounds(open, now, staleHours, message))
  {
    if |open| > 0 {
      var n := |open| - 1;
      var last := RoundStep(open[n], now, staleHours, message);
      RoundsInARow(db, open[..n], now, staleHours, message);
      LastRound(db, open, now, staleHours, message);
      TimelyRoundIsHarmless(ReconcileAll(db, open[..n], now, staleHours, message), last);
      RoundsLast(open, now, staleHours, message);
      AfterLast(db, Rounds(open[..n], now, staleHours, message), last);
    }
  }

  /** Nor does any of them touch a run that is over. */
  lemma {:induction false} RoundsReverseNothing(
    db: Db, open: seq<RunId>, now: int, staleHours: int, message: string, id: RunId)
    requires Inv(db) && Distinct(open)
    requires forall k :: k in open ==> k in db.runs && Active(db.runs[k].status)
    requires id in db.runs && Terminal(db.runs[id].status)
    ensures NoneReverses(db, Rounds(open, now, staleHours, message), id)
  {
    if |open| > 0 {
      var n := |open| - 1;
      RoundsReverseNothing(db, open[..n], now, staleHours, message, id);
      RoundsInARow(db, open[..n], now, staleHours, message);
      RoundsLast(open, now, staleHours, message);
      assert open[n] in open && open[n] != id;
      NoneReversesLast(
        db, Rounds(open[..n], now, staleHours, message), RoundStep(open[n], now, staleHours, message), id);
    }
  }

  /** resumeRun itself has no such guard: called on a finished run it reopens it, or fails it. */
  lemma ResumeHasNoStatusGuard(db: Db, id: RunId, now: int)
    requires id in db.runs
    ensures Resume(db, id, now).runs[id].status
         == if |Replanned(db, db.runs[id])| > db.runs[id].totalJobs then Failed else Running
  {
  }

  /** Pausing and resuming a running run restores it; stopping is allowed until the run is over, and ends it. */
  lemma Controls(run: Run, action: Control, now: int)
    ensures run.status.Running? ==> Controlled(Controlled(run, Pause, now), Unpause, now) == run
    ensures ControlAllowed(run.status, Stop) <==> !Terminal(run.status)
    ensures Terminal(run.status) ==> Controlled(run, action, now) == run
    ensures Terminal(Controlled(run, Stop, now).status)
  {
  }

  /** A run with a row for every job fails exactly when every row is an error. */
  lemma FinalizeFullRun(db: Db, id: RunId, now: int)
    requires CountersMatch(db) && id in db.runs && Active(db.runs[id].status)
    requires |RowsOf(db.results, id)| == db.runs[id].totalJobs > 0
    ensures Finalized(db.runs[id], now).status
         == if forall r :: r in db.results && r.run == id ==> r.outcome == Error then Failed else Completed
  {
    var rows := RowsOf(db.results, id);
    assert forall r :: r in rows <==> r in db.results && r.run == id;
    FilterFull(rows, IsErrorRow);
    if forall r :: r in rows ==> IsErrorRow(r) {
      FilterAll(rows, IsErrorRow);
    }
  }

  lemma {:induction false} FilterFull(rows: seq<ResultRow>, keep: ResultRow -> bool)
    ensures |Filter(rows, keep)| == |rows| ==> forall r :: r in rows ==> keep(r)
  {
    if |rows| > 0 {
      FilterFull(rows[1..], keep);
      assert rows == [rows[0]] + rows[1..];
    }
  }
}
