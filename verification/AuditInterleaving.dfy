/**
 * A worker's step with everybody else at work between its statements (lib/workflows/auditRun.ts): other
 * deliveries, resumes, controls and ingests come before each attempt, and between an attempt that
 * throws and the error row the step then records. A transaction of auditPage that fails for reasons of
 * its own is an attempt that throws (a Blip); `lastOk` says whether the step's own one goes through.
 */
module AuditInterleaving {
  import opened Sequences
  import opened ScopeLabels
  import opened AuditRuns
  import opened RunRows
  import opened RunResume
  import opened AuditRunProtocol
  import opened AuditService

  /** auditOnePageStep from attempt i on; `gaps[i]` happens between attempt i and what follows it. */
  ghost function StepAmong(
    db: Db, run: RunId, page: PageId, strategy: Strategy,
    attempts: seq<Attempt>, gaps: seq<seq<Step>>, i: nat, max: nat, lastOk: bool): (Db, bool)
    requires 1 <= i <= max <= |attempts| < |gaps|
    decreases max - i, 1
  {
    var (t, outcome) := AuditPage(After(db, gaps[i - 1]), run, page, strategy, attempts[i - 1]);
    AfterAttempt(t, outcome, run, page, strategy, attempts, gaps, i, max, lastOk)
  }

  /** What follows attempt i. */
  ghost function AfterAttempt(
    t: Db, outcome: PageOutcome, run: RunId, page: PageId, strategy: Strategy, attempts: seq<Attempt>,
    gaps: seq<seq<Step>>, i: nat, max: nat, lastOk: bool): (Db, bool)
    requires 1 <= i <= max <= |attempts| < |gaps|
    decreases max - i, 0
  {
    if outcome.Returned? then (t, outcome.out == Written(true))
    else if (outcome.ThrewPermanent? || i >= max) && !lastOk then (After(t, gaps[i]), false)
    else if outcome.ThrewPermanent? || i >= max then
      var (u, out) := Record(After(t, gaps[i]), ErrorRow(run, page, strategy), true);
      (u, out == Written(true))
    else StepAmong(t, run, page, strategy, attempts, gaps, i + 1, max, lastOk)
  }

  /** The attempt ends the step by itself, with a row it writes. */
  predicate Settles(a: Attempt) {
    a.fetch.ContentFailure? || a.fetch.PermanentFailure? || (a.fetch.Answered? && !a.storage.Unreachable?)
  }

  /**
   * The state in which the step's row is written, or found to be there; None where a 403 or a failed
   * record ends the step.
   */
  ghost function SettlingState(db: Db, attempts: seq<Attempt>, gaps: seq<seq<Step>>, i: nat, max: nat, lastOk: bool)
    : Option<Db>
    requires 1 <= i <= max <= |attempts| < |gaps|
    decreases max - i
  {
    var s, a := After(db, gaps[i - 1]), attempts[i - 1];
    if a.fetch == PermanentFailure(Some(403)) then None
    else if Settles(a) then Some(s)
    else if a.fetch.NoApiKey? || i >= max then if lastOk then Some(After(s, gaps[i])) else None
    else SettlingState(s, attempts, gaps, i + 1, max, lastOk)
  }

  /** Nobody's ingest drops the page's row. */
  ghost predicate KeepsPage(page: PageId, steps: seq<Step>) {
    |steps| == 0 || ((steps[0].IngestStep? ==> HasPage(steps[0].pages, page)) && KeepsPage(page, steps[1..]))
  }

  ghost predicate AllKeepPage(page: PageId, gaps: seq<seq<Step>>) {
    forall i :: 0 <= i < |gaps| ==> KeepsPage(page, gaps[i])
  }

  /** No step removes a run, or a row. */
  lemma StepKeepsRows(db: Db, step: Step, run: RunId)
    requires run in db.runs
    ensures run in Next(db, step).runs && Recorded(db, run) <= Recorded(Next(db, step), run)
    ensures !step.IngestStep? ==> Next(db, step).pages == db.pages
  {
    match step
    case RecordStep(row) =>
      RecordGrows(db, row, row.outcome == Error);
      RecordFrame(db, row, row.outcome == Error);
    case RoundStep(id, now, staleHours, message) => ReconciledFrame(db, id, now, staleHours, message);
    case _ =>
  }

  lemma {:induction false} AfterKeeps(db: Db, steps: seq<Step>, run: RunId, page: PageId)
    requires run in db.runs && HasPage(db.pages, page) && KeepsPage(page, steps)
    ensures var t := After(db, steps);
      run in t.runs && HasPage(t.pages, page) && Recorded(db, run) <= Recorded(t, run)
    decreases |steps|
  {
    if |steps| > 0 {
      StepKeepsRows(db, steps[0], run);
      AfterKeeps(Next(db, steps[0]), steps[1..], run, page);
    }
  }

  /** What one delivery answers: ready, if the pair was owed and its row completes the run. */
  lemma DeliveryAnswer(db: Db, row: ResultRow)
    requires row.run in db.runs && HasPage(db.pages, row.page)
    ensures !Record(db, row, row.outcome == Error).1.Threw?
    ensures Record(db, row, row.outcome == Error).1 == Written(true)
      <==> (row.page, row.strategy) !in Recorded(db, row.run) && Completes(db.runs[row.run])
  {
  }

  lemma DeliveryLeavesRow(db: Db, row: ResultRow)
    requires row.run in db.runs && HasPage(db.pages, row.page)
    ensures var t := Record(db, row, row.outcome == Error).0;
      row.run in t.runs && HasPage(t.pages, row.page) && (row.page, row.strategy) in Recorded(t, row.run)
  {
    RecordGrows(db, row, row.outcome == Error);
  }

  /** A settling attempt, other than a 403, gives the answer of its own delivery. */
  lemma SettlingAnswer(s: Db, run: RunId, page: PageId, strategy: Strategy, a: Attempt)
    requires run in s.runs && HasPage(s.pages, page) && Settles(a) && a.fetch != PermanentFailure(Some(403))
    ensures var (_, outcome) := AuditPage(s, run, page, strategy, a);
      outcome.Returned?
      && (outcome.out == Written(true) <==> (page, strategy) !in Recorded(s, run) && Completes(s.runs[run]))
  {
    DeliveryAnswer(s, ErrorRow(run, page, strategy));
    if a.fetch.Answered? {
      DeliveryAnswer(s, ResultRow(run, page, strategy, a.fetch.outcome, a.storage.Kept?));
    }
  }

  /**
   * Whatever the others do meanwhile, a step tells the workflow to finalize exactly when, in the state
   * in which it settles, its pair is still owed and completes the run; never when a 403 or a failed record
   * of its own ended it.
   */
  lemma {:induction false} StepAmongReportsIff(
    db: Db, run: RunId, page: PageId, strategy: Strategy,
    attempts: seq<Attempt>, gaps: seq<seq<Step>>, i: nat, max: nat, lastOk: bool)
    requires run in db.runs && HasPage(db.pages, page) && AllKeepPage(page, gaps)
    requires 1 <= i <= max <= |attempts| < |gaps|
    ensures var settling := SettlingState(db, attempts, gaps, i, max, lastOk);
      && (settling.Some? ==> run in settling.value.runs)
      && (StepAmong(db, run, page, strategy, attempts, gaps, i, max, lastOk).1
          <==> settling.Some? && (page, strategy) !in Recorded(settling.value, run)
               && Completes(settling.value.runs[run]))
    decreases max - i
  {
    var a, s := attempts[i - 1], After(db, gaps[i - 1]);
    AfterKeeps(db, gaps[i - 1], run, page);
    if a.fetch == PermanentFailure(Some(403)) {
      ForbiddenReports(db, run, page, strategy, attempts, gaps, i, max, lastOk);
    } else if Settles(a) {
      SettlingAnswer(s, run, page, strategy, a);
    } else {
      UnsettledAttempt(s, run, page, strategy, a);
      if a.fetch.NoApiKey? || i >= max {
        AfterKeeps(s, gaps[i], run, page);
        DeliveryAnswer(After(s, gaps[i]), ErrorRow(run, page, strategy));
      } else {
        StepAmongReportsIff(s, run, page, strategy, attempts, gaps, i + 1, max, lastOk);
      }
    }
  }

  /** After a 403 the step's own record finds the row that auditPage wrote, whatever came in between. */
  lemma ForbiddenAmong(s: Db, run: RunId, page: PageId, strategy: Strategy, gap: seq<Step>)
    requires run in s.runs && HasPage(s.pages, page) && KeepsPage(page, gap)
    ensures var t := Record(s, ErrorRow(run, page, strategy), true).0;
      Record(After(t, gap), ErrorRow(run, page, strategy), true).1 == Replayed
      && !Record(s, ErrorRow(run, page, strategy), true).1.Threw?
  {
    var row := ErrorRow(run, page, strategy);
    DeliveryAnswer(s, row);
    DeliveryLeavesRow(s, row);
    AfterKeeps(Record(s, row, true).0, gap, run, page);
  }

  lemma ForbiddenReports(
    db: Db, run: RunId, page: PageId, strategy: Strategy,
    attempts: seq<Attempt>, gaps: seq<seq<Step>>, i: nat, max: nat, lastOk: bool)
    requires run in db.runs && HasPage(db.pages, page) && AllKeepPage(page, gaps)
    requires 1 <= i <= max <= |attempts| < |gaps| && attempts[i - 1].fetch == PermanentFailure(Some(403))
    ensures !StepAmong(db, run, page, strategy, attempts, gaps, i, max, lastOk).1
  {
    AfterKeeps(db, gaps[i - 1], run, page);
    ForbiddenAmong(After(db, gaps[i - 1]), run, page, strategy, gaps[i]);
  }

  lemma AttemptKeeps(s: Db, run: RunId, page: PageId, strategy: Strategy, a: Attempt)
    requires run in s.runs && HasPage(s.pages, page)
    ensures var (t, outcome) := AuditPage(s, run, page, strategy, a);
      && run in t.runs && HasPage(t.pages, page)
      && (outcome.Returned? ==> (page, strategy) in Recorded(t, run))
  {
    AuditPageDelivers(s, run, page, strategy, a);
    DeliveryRecords(s, AuditPage(s, run, page, strategy, a).0, run, page, strategy);
    if AuditPage(s, run, page, strategy, a).1.Returned? {
      ReturnedIsRecorded(s, run, page, strategy, a);
    }
  }

  lemma ErrorRowAfterGap(t: Db, run: RunId, page: PageId, strategy: Strategy, gap: seq<Step>)
    requires run in t.runs && HasPage(t.pages, page) && KeepsPage(page, gap)
    ensures (page, strategy) in Recorded(Record(After(t, gap), ErrorRow(run, page, strategy), true).0, run)
  {
    AfterKeeps(t, gap, run, page);
    DeliveryLeavesRow(After(t, gap), ErrorRow(run, page, strategy));
  }

  /** The step's own record fails, where no attempt wrote a row, and nobody else wrote one either. */
  ghost predicate LosesRow(
    db: Db, run: RunId, page: PageId, strategy: Strategy,
    attempts: seq<Attempt>, gaps: seq<seq<Step>>, i: nat, max: nat)
    requires 1 <= i <= max <= |attempts| < |gaps|
    decreases max - i
  {
    var s, a := After(db, gaps[i - 1]), attempts[i - 1];
    !Settles(a)
    && (if a.fetch.NoApiKey? || i >= max then (page, strategy) !in Recorded(After(s, gaps[i]), run)
        else LosesRow(s, run, page, strategy, attempts, gaps, i + 1, max))
  }

  lemma UnsettledAttempt(s: Db, run: RunId, page: PageId, strategy: Strategy, a: Attempt)
    requires run in s.runs && HasPage(s.pages, page)
    ensures var (t, outcome) := AuditPage(s, run, page, strategy, a);
      && (outcome.Returned? ==> Settles(a))
      && (!Settles(a) ==> t == s && (outcome.ThrewPermanent? <==> a.fetch.NoApiKey?))
      && (Settles(a) ==> (page, strategy) in Recorded(t, run) && !outcome.ThrewOther?)
  {
    if Settles(a) {
      DeliveryLeavesRow(s, ErrorRow(run, page, strategy));
      DeliveryAnswer(s, ErrorRow(run, page, strategy));
      if a.fetch.Answered? {
        DeliveryLeavesRow(s, ResultRow(run, page, strategy, a.fetch.outcome, a.storage.Kept?));
        DeliveryAnswer(s, ResultRow(run, page, strategy, a.fetch.outcome, a.storage.Kept?));
      }
    }
  }

  /**
   * Nor does interleaving lose the row: a step that gets its attempts leaves one for its pair exactly
   * unless its own last record fails and is the only one there would have been.
   */
  lemma {:induction false} StepAmongLeavesARowIff(
    db: Db, run: RunId, page: PageId, strategy: Strategy,
    attempts: seq<Attempt>, gaps: seq<seq<Step>>, i: nat, max: nat, lastOk: bool)
    requires run in db.runs && HasPage(db.pages, page) && AllKeepPage(page, gaps)
    requires 1 <= i <= max <= |attempts| < |gaps|
    ensures (page, strategy) in Recorded(StepAmong(db, run, page, strategy, attempts, gaps, i, max, lastOk).0, run)
      <==> lastOk || !LosesRow(db, run, page, strategy, attempts, gaps, i, max)
    decreases max - i, 1
  {
    var s := After(db, gaps[i - 1]);
    AfterKeeps(db, gaps[i - 1], run, page);
    AttemptKeeps(s, run, page, strategy, attempts[i - 1]);
    UnsettledAttempt(s, run, page, strategy, attempts[i - 1]);
    var (t, outcome) := AuditPage(s, run, page, strategy, attempts[i - 1]);
    AfterKeeps(t, gaps[i], run, page);
    AfterAttemptLeavesARow(t, outcome, run, page, strategy, attempts, gaps, i, max, lastOk);
  }

  lemma {:induction false} AfterAttemptLeavesARow(
    t: Db, outcome: PageOutcome, run: RunId, page: PageId, strategy: Strategy, attempts: seq<Attempt>,
    gaps: seq<seq<Step>>, i: nat, max: nat, lastOk: bool)
    requires run in t.runs && HasPage(t.pages, page) && AllKeepPage(page, gaps)
    requires 1 <= i <= max <= |attempts| < |gaps|
    requires outcome.Returned? ==> (page, strategy) in Recorded(t, run)
    ensures var after := AfterAttempt(t, outcome, run, page, strategy, attempts, gaps, i, max, lastOk).0;
      (page, strategy) in Recorded(after, run)
      <==> outcome.Returned? || lastOk
           || (if outcome.ThrewPermanent? || i >= max then (page, strategy) in Recorded(After(t, gaps[i]), run)
               else !LosesRow(t, run, page, strategy, attempts, gaps, i + 1, max))
    decreases max - i, 0
  {
    AfterKeeps(t, gaps[i], run, page);
    if outcome.ThrewPermanent? || (outcome.ThrewOther? && i >= max) {
      ErrorRowAfterGap(t, run, page, strategy, gaps[i]);
    } else if outcome.ThrewOther? {
      StepAmongLeavesARowIff(t, run, page, strategy, attempts, gaps, i + 1, max, lastOk);
    }
  }

  /** The state in which attempt k finds the tables, if the ones before it stored nothing. */
  ghost function Before(db: Db, gaps: seq<seq<Step>>, i: nat, k: nat): Db
    requires 1 <= i <= k <= |gaps|
    decreases k - i
  {
    if i == k then After(db, gaps[k - 1]) else Before(After(db, gaps[i - 1]), gaps, i + 1, k)
  }

  lemma {:induction false} RetriesAmong(
    db: Db, run: RunId, page: PageId, strategy: Strategy,
    attempts: seq<Attempt>, gaps: seq<seq<Step>>, i: nat, max: nat, lastOk: bool, k: nat)
    requires run in db.runs && HasPage(db.pages, page) && AllKeepPage(page, gaps)
    requires 1 <= i <= k <= max <= |attempts| < |gaps|
    requires forall j :: i - 1 <= j < k - 1 ==> Retries(attempts[j])
    ensures var s := Before(db, gaps, i, k);
      && run in s.runs && HasPage(s.pages, page)
      && StepAmong(db, run, page, strategy, attempts, gaps, i, max, lastOk)
         == (var (t, outcome) := AuditPage(s, run, page, strategy, attempts[k - 1]);
             AfterAttempt(t, outcome, run, page, strategy, attempts, gaps, k, max, lastOk))
    decreases k - i
  {
    AfterKeeps(db, gaps[i - 1], run, page);
    if i < k {
      RetriesStoreNothing(After(db, gaps[i - 1]), run, page, strategy, attempts[i - 1]);
      RetriesAmong(After(db, gaps[i - 1]), run, page, strategy, attempts, gaps, i + 1, max, lastOk, k);
    }
  }

  /**
   * Among others, too, the attempt that ends a step decides what it stores: the row of an answer that counts
   * goes into the tables as that attempt found them, ok exactly when the answer was; what else ends the step
   * leaves an error row, after the others' last steps if no attempt wrote one, and if that last record fails
   * the step stores nothing.
   */
  lemma StepAmongStoresAnswer(
    db: Db, run: RunId, page: PageId, strategy: Strategy,
    attempts: seq<Attempt>, gaps: seq<seq<Step>>, i: nat, max: nat, lastOk: bool, k: nat)
    requires run in db.runs && HasPage(db.pages, page) && AllKeepPage(page, gaps)
    requires 1 <= i <= k <= max <= |attempts| < |gaps| && (k == max || !Retries(attempts[k - 1]))
    requires forall j :: i - 1 <= j < k - 1 ==> Retries(attempts[j])
    ensures var last, s := attempts[k - 1], Before(db, gaps, i, k);
      var end := StepAmong(db, run, page, strategy, attempts, gaps, i, max, lastOk).0;
      && (last.fetch.Answered? && last.storage != Unreachable && (page, strategy) !in Recorded(s, run) ==>
            end.results
            == s.results + [ResultRow(run, page, strategy, last.fetch.outcome, last.storage == Kept)])
      && ((last.fetch.ContentFailure? || (last.fetch.PermanentFailure? && last.fetch.httpStatus != Some(403)))
          && (page, strategy) !in Recorded(s, run) ==>
            end.results == s.results + [ResultRow(run, page, strategy, Error, false)])
      && (last.fetch.NoApiKey? || Retries(last) ==>
            var t := After(s, gaps[k]);
            && (!lastOk ==> end == t)
            && (lastOk && (page, strategy) !in Recorded(t, run) ==>
                  end.results == t.results + [ResultRow(run, page, strategy, Error, false)]))
  {
    RetriesAmong(db, run, page, strategy, attempts, gaps, i, max, lastOk, k);
    var s, a := Before(db, gaps, i, k), attempts[k - 1];
    RetriesStoreNothing(s, run, page, strategy, a);
    if a.fetch.NoApiKey? || Retries(a) {
      AfterKeeps(s, gaps[k], run, page);
      UnsettledAttempt(s, run, page, strategy, a);
      RecordGrows(After(s, gaps[k]), ErrorRow(run, page, strategy), true);
      DeliveryAnswer(After(s, gaps[k]), ErrorRow(run, page, strategy));
    } else if (page, strategy) !in Recorded(s, run) {
      OutcomeIsStored(s, run, page, strategy, a);
    }
  }

  /** A 403 that ends the step has left its error row before the others' last steps; nothing is added after them. */
  lemma ForbiddenAmongStores(
    db: Db, run: RunId, page: PageId, strategy: Strategy,
    attempts: seq<Attempt>, gaps: seq<seq<Step>>, i: nat, max: nat, lastOk: bool, k: nat)
    requires run in db.runs && HasPage(db.pages, page) && AllKeepPage(page, gaps)
    requires 1 <= i <= k <= max <= |attempts| < |gaps| && attempts[k - 1].fetch == PermanentFailure(Some(403))
    requires forall j :: i - 1 <= j < k - 1 ==> Retries(attempts[j])
    ensures var s := Before(db, gaps, i, k);
      var t := Record(s, ResultRow(run, page, strategy, Error, false), true).0;
      StepAmong(db, run, page, strategy, attempts, gaps, i, max, lastOk).0 == After(t, gaps[k])
  {
    RetriesAmong(db, run, page, strategy, attempts, gaps, i, max, lastOk, k);
    ForbiddenAmong(Before(db, gaps, i, k), run, page, strategy, gaps[k]);
  }

  /** With nobody else at work, and a last record that goes through, it is the step of AuditService. */
  lemma {:induction false} StepAlone(
    db: Db, run: RunId, page: PageId, strategy: Strategy,
    attempts: seq<Attempt>, gaps: seq<seq<Step>>, i: nat, max: nat)
    requires 1 <= i <= max <= |attempts| < |gaps| && forall k :: 0 <= k < |gaps| ==> gaps[k] == []
    ensures StepAmong(db, run, page, strategy, attempts, gaps, i, max, true)
         == AuditStep(db, run, page, strategy, attempts, i, max)
    decreases max - i
  {
    var (t, outcome) := AuditPage(db, run, page, strategy, attempts[i - 1]);
    assert After(db, gaps[i - 1]) == db && After(t, gaps[i]) == t;
    if outcome.ThrewOther? && i < max {
      StepAlone(t, run, page, strategy, attempts, gaps, i + 1, max);
    }
  }
}
