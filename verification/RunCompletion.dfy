/**
 * When a run reports that it is ready to finalize: exactly once, and never while a pair of its
 * scope has no row, as long as nothing that was measured leaves the scope.
 */
module RunCompletion {
  import opened Sequences
  import opened ScopeLabels
  import opened AuditRuns
  import opened RunRows
  import opened RunPlans
  import opened RunResume
  import opened AuditRunProtocol

  type Plan = set<(PageId, Strategy)>

  /** The run is committed to this plan, and so far nothing outside it was recorded. */
  ghost predicate Committed(db: Db, id: RunId, plan: Plan) {
    id in db.runs && Recorded(db, id) <= plan && db.runs[id].totalJobs == |plan|
  }

  /** This step resumes the run: a round of a reconcile finds it young enough and not grown. */
  ghost predicate Resumes(db: Db, id: RunId, step: Step) {
    step.RoundStep? && step.id == id && Reopens(db, id, step.now, step.staleHours)
  }

  /** Workers deliver pairs of the plan, and a resume finds every measured pair still in scope. */
  ghost predicate InScope(db: Db, id: RunId, plan: Plan, step: Step) {
    match step
    case RecordStep(row) => row.run == id ==> (row.page, row.strategy) in plan
    case RoundStep(_, _, _, _) => Resumes(db, id, step) ==> Recorded(db, id) <= PlanPairs(Replanned(db, db.runs[id]))
    case IngestStep(pages) => DistinctIds(pages)
    case _ => true
  }

  /** The plan a step leaves the run with: a resume commits to the scope as it is now. */
  ghost function PlanAfter(db: Db, id: RunId, plan: Plan, step: Step): Plan {
    if Resumes(db, id, step) then PlanPairs(Replanned(db, db.runs[id])) else plan
  }

  /** The delivery is written and tells its worker to finalize. */
  ghost predicate ReportsReady(db: Db, id: RunId, step: Step) {
    && step.RecordStep? && step.row.run == id
    && Record(db, step.row, step.row.outcome == Error).1 == Written(true)
  }

  // -------------------------------------------------------------------------------------------
  // One step
  // -------------------------------------------------------------------------------------------

  /** A delivery reports ready exactly when it gives the last missing pair of the plan its row. */
  lemma ReadyIffLastPair(db: Db, id: RunId, plan: Plan, step: Step)
    requires RowsMatch(db) && Committed(db, id, plan) && InScope(db, id, plan, step)
    requires step.RecordStep?
    ensures ReportsReady(db, id, step) <==> Recorded(db, id) != plan && Recorded(Next(db, step), id) == plan
  {
    var row := step.row;
    RecordGrows(db, row, row.outcome == Error);
    if row.run == id {
      CompletedIsRecorded(db, id);
      var pair := (row.page, row.strategy);
      if Record(db, row, row.outcome == Error).1.Written? {
        assert |Recorded(db, id) + {pair}| == |Recorded(db, id)| + 1;
        SubsetSize(Recorded(db, id) + {pair}, plan);
        RecordAnswer(db, row);
      }
    }
  }

  lemma RecordKeepsPlan(db: Db, id: RunId, plan: Plan, row: ResultRow)
    requires Committed(db, id, plan) && (row.run == id ==> (row.page, row.strategy) in plan)
    ensures Committed(Record(db, row, row.outcome == Error).0, id, plan)
  {
  }

  /** A resume that finds its measured pairs in scope commits to exactly the scope. */
  lemma ResumeCommits(run: Run, expanded: seq<AuditPair>, existing: seq<ResultRow>, id: RunId, now: int)
    requires DistinctPlan(expanded) && OneRowPerPair(existing) && forall r :: r in existing ==> r.run == id
    requires |expanded| <= run.totalJobs && PairsOf(existing) <= PlanPairs(expanded)
    ensures ResumedRun(run, expanded, existing, now).totalJobs == |PlanPairs(expanded)|
  {
    PlanCount(expanded);
    PairsCount(existing, id);
    SubsetSize(PairsOf(existing), PlanPairs(expanded));
  }

  lemma RoundKeepsPlan(db: Db, id: RunId, plan: Plan, step: Step)
    requires RowsMatch(db) && DistinctIds(db.pages) && Committed(db, id, plan) && InScope(db, id, plan, step)
    requires step.RoundStep?
    ensures Committed(Next(db, step), id, PlanAfter(db, id, plan, step))
  {
    ReconciledFrame(db, step.id, step.now, step.staleHours, step.message);
    if Resumes(db, id, step) {
      ReplannedIsDistinct(db, db.runs[id]);
      RunRowsAreDistinct(db.results, id);
      ResumeCommits(db.runs[id], Replanned(db, db.runs[id]), RowsOf(db.results, id), id, step.now);
    }
  }

  lemma StepKeepsPlan(db: Db, id: RunId, plan: Plan, step: Step)
    requires RowsMatch(db) && DistinctIds(db.pages) && Committed(db, id, plan) && InScope(db, id, plan, step)
    ensures Committed(Next(db, step), id, PlanAfter(db, id, plan, step))
  {
    match step
    case RecordStep(row) => RecordKeepsPlan(db, id, plan, row);
    case RoundStep(_, _, _, _) => RoundKeepsPlan(db, id, plan, step);
    case _ => OthersKeepPlan(db, id, plan, step);
  }

  lemma OthersKeepPlan(db: Db, id: RunId, plan: Plan, step: Step)
    requires Committed(db, id, plan) && !step.RecordStep? && !step.RoundStep?
    ensures Committed(Next(db, step), id, plan) && Recorded(Next(db, step), id) == Recorded(db, id)
  {
  }

  lemma StepKeepsPages(db: Db, id: RunId, plan: Plan, step: Step)
    requires DistinctIds(db.pages) && InScope(db, id, plan, step)
    ensures DistinctIds(Next(db, step).pages)
  {
    match step
    case RecordStep(row) => RecordFrame(db, row, row.outcome == Error);
    case RoundStep(run, now, staleHours, message) => ReconciledFrame(db, run, now, staleHours, message);
    case _ =>
  }

  // -------------------------------------------------------------------------------------------
  // Whole runs
  // -------------------------------------------------------------------------------------------

  ghost predicate AllInScope(db: Db, id: RunId, plan: Plan, steps: seq<Step>)
    decreases |steps|
  {
    |steps| == 0
    || (InScope(db, id, plan, steps[0])
        && AllInScope(Next(db, steps[0]), id, PlanAfter(db, id, plan, steps[0]), steps[1..]))
  }

  /** Whenever a delivery reports ready, every pair the run stands for has its row. */
  ghost predicate ReadyOnlyWhenDone(db: Db, id: RunId, plan: Plan, steps: seq<Step>)
    decreases |steps|
  {
    |steps| == 0
    || ((ReportsReady(db, id, steps[0]) ==> Recorded(Next(db, steps[0]), id) == plan)
        && ReadyOnlyWhenDone(Next(db, steps[0]), id, PlanAfter(db, id, plan, steps[0]), steps[1..]))
  }

  /**
   * Over every interleaving of deliveries, replays, crashes, resumes and sitemap changes in which
   * measured pairs stay in scope, a run is never reported ready with a pair of its scope missing.
   */
  lemma {:induction false} ReadyMeansDone(db: Db, id: RunId, plan: Plan, steps: seq<Step>)
    requires RowsMatch(db) && DistinctIds(db.pages) && Committed(db, id, plan) && AllInScope(db, id, plan, steps)
    ensures ReadyOnlyWhenDone(db, id, plan, steps)
    decreases |steps|
  {
    if |steps| > 0 {
      if steps[0].RecordStep? {
        ReadyIffLastPair(db, id, plan, steps[0]);
      }
      StepKeepsMatch(db, steps[0]);
      StepKeepsPages(db, id, plan, steps[0]);
      StepKeepsPlan(db, id, plan, steps[0]);
      ReadyMeansDone(Next(db, steps[0]), id, PlanAfter(db, id, plan, steps[0]), steps[1..]);
    }
  }

  /** How often a sequence of steps reports this run ready. */
  ghost function ReadyCount(db: Db, id: RunId, steps: seq<Step>): nat
    decreases |steps|
  {
    if |steps| == 0 then 0
    else (if ReportsReady(db, id, steps[0]) then 1 else 0) + ReadyCount(Next(db, steps[0]), id, steps[1..])
  }

  lemma RecordedAfter(db: Db, id: RunId, plan: Plan, step: Step)
    requires Committed(db, id, plan) && InScope(db, id, plan, step)
    ensures Recorded(db, id) <= Recorded(Next(db, step), id)
    ensures !step.RecordStep? ==> Recorded(Next(db, step), id) == Recorded(db, id)
  {
    match step
    case RecordStep(row) => RecordGrows(db, row, row.outcome == Error);
    case RoundStep(run, now, staleHours, message) => ReconciledFrame(db, run, now, staleHours, message);
    case _ => OthersKeepPlan(db, id, plan, step);
  }

  /** A complete run stays complete: a resume that finds its rows in scope can only commit to them. */
  lemma StaysComplete(db: Db, id: RunId, plan: Plan, step: Step)
    requires RowsMatch(db) && DistinctIds(db.pages) && Committed(db, id, plan) && InScope(db, id, plan, step)
    requires Recorded(db, id) == plan
    ensures Recorded(Next(db, step), id) == PlanAfter(db, id, plan, step) && !ReportsReady(db, id, step)
  {
    StepKeepsPlan(db, id, plan, step);
    RecordedAfter(db, id, plan, step);
    if step.RecordStep? {
      ReadyIffLastPair(db, id, plan, step);
    } else if Resumes(db, id, step) {
      ReplannedIsDistinct(db, db.runs[id]);
      PlanCount(Replanned(db, db.runs[id]));
      SubsetSize(plan, PlanPairs(Replanned(db, db.runs[id])));
    }
  }

  /**
   * Across resumes and sitemap changes too, as long as measured pairs stay in scope, a run reports
   * ready at most once, and not at all once it is complete.
   */
  lemma {:induction false} ReadyAtMostOnce(db: Db, id: RunId, plan: Plan, steps: seq<Step>)
    requires RowsMatch(db) && DistinctIds(db.pages) && Committed(db, id, plan) && AllInScope(db, id, plan, steps)
    ensures ReadyCount(db, id, steps) <= if Recorded(db, id) == plan then 0 else 1
    decreases |steps|
  {
    if |steps| > 0 {
      var step := steps[0];
      var t := Next(db, step);
      if Recorded(db, id) == plan {
        StaysComplete(db, id, plan, step);
      } else if step.RecordStep? {
        ReadyIffLastPair(db, id, plan, step);
      }
      StepKeepsMatch(db, step);
      StepKeepsPages(db, id, plan, step);
      StepKeepsPlan(db, id, plan, step);
      ReadyAtMostOnce(t, id, PlanAfter(db, id, plan, step), steps[1..]);
    }
  }

  /** A step that does not resume this run, and delivers nothing to it but pairs of its plan. */
  ghost predicate Undisturbed(id: RunId, plan: Plan, step: Step) {
    match step
    case RecordStep(row) => row.run == id ==> (row.page, row.strategy) in plan
    case RoundStep(run, _, _, _) => run != id
    case _ => true
  }

  ghost predicate AllUndisturbed(id: RunId, plan: Plan, steps: seq<Step>) {
    |steps| == 0 || (Undisturbed(id, plan, steps[0]) && AllUndisturbed(id, plan, steps[1..]))
  }

  lemma UndisturbedStep(db: Db, id: RunId, plan: Plan, step: Step)
    requires RowsMatch(db) && Committed(db, id, plan) && Undisturbed(id, plan, step)
    ensures Committed(Next(db, step), id, plan)
    ensures Recorded(db, id) <= Recorded(Next(db, step), id)
    ensures ReportsReady(db, id, step) <==> Recorded(db, id) != plan && Recorded(Next(db, step), id) == plan
  {
    match step
    case RecordStep(row) =>
      ReadyIffLastPair(db, id, plan, step);
      RecordKeepsPlan(db, id, plan, row);
      RecordGrows(db, row, row.outcome == Error);
    case RoundStep(run, now, staleHours, message) => ReconciledFrame(db, run, now, staleHours, message);
    case _ => OthersKeepPlan(db, id, plan, step);
  }

  /** Rows only accumulate, inside the plan. */
  lemma {:induction false} RecordedAccumulates(db: Db, id: RunId, plan: Plan, steps: seq<Step>)
    requires RowsMatch(db) && Committed(db, id, plan) && AllUndisturbed(id, plan, steps)
    ensures Recorded(db, id) <= Recorded(After(db, steps), id) <= plan
    decreases |steps|
  {
    if |steps| > 0 {
      UndisturbedStep(db, id, plan, steps[0]);
      StepKeepsMatch(db, steps[0]);
      RecordedAccumulates(Next(db, steps[0]), id, plan, steps[1..]);
    }
  }

  /** 1 if the plan gets complete between two states, else 0. */
  function Completes(before: Plan, after: Plan, plan: Plan): nat {
    if before != plan && after == plan then 1 else 0
  }

  lemma CompletesOnce(before: Plan, middle: Plan, after: Plan, plan: Plan)
    requires before <= middle <= after <= plan
    ensures Completes(before, after, plan) == Completes(before, middle, plan) + Completes(middle, after, plan)
  {
  }

  /**
   * Exactly-once completion. Under every interleaving of deliveries, duplicates, rolled-back
   * replays, controls and other runs' work, exactly one delivery reports the run ready if its plan
   * gets complete meanwhile, and none otherwise.
   */
  lemma {:induction false} ExactlyOneReady(db: Db, id: RunId, plan: Plan, steps: seq<Step>)
    requires RowsMatch(db) && Committed(db, id, plan) && AllUndisturbed(id, plan, steps)
    ensures ReadyCount(db, id, steps) == Completes(Recorded(db, id), Recorded(After(db, steps), id), plan)
    decreases |steps|
  {
    if |steps| > 0 {
      var t := Next(db, steps[0]);
      UndisturbedStep(db, id, plan, steps[0]);
      StepKeepsMatch(db, steps[0]);
      ExactlyOneReady(t, id, plan, steps[1..]);
      RecordedAccumulates(t, id, plan, steps[1..]);
      CompletesOnce(Recorded(db, id), Recorded(t, id), Recorded(After(t, steps[1..]), id), plan);
    }
  }

  /** A run that was started is committed to the pairs its scope expanded to. */
  lemma StartCommits(db: Db, id: RunId, site: SiteId, scope: RunScope, retried: RunId, scheduled: bool, now: int)
    requires RowsMatch(db) && DistinctIds(db.pages) && Distinct(scope.strategies) && id !in db.runs
    ensures var t := Start(db, id, site, scope, retried, scheduled, now);
      id in t.runs && t.runs[id].status == Running ==>
        Committed(t, id, PlanPairs(ExpandScope(db, site, scope, retried))) && Recorded(t, id) == {}
  {
    var t := Start(db, id, site, scope, retried, scheduled, now);
    ExpandScopeIsDistinct(db, site, scope, retried);
    PlanCount(ExpandScope(db, site, scope, retried));
    FilterNone(db.results, OfRun(id));
    if id in t.runs && t.runs[id].status == Running {
      assert t.runs[id].totalJobs == |ExpandScope(db, site, scope, retried)|;
      assert RowsOf(t.results, id) == [];
    }
  }
}
