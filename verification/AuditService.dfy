/**
 * The audit write path: measuring one (page, strategy), and the worker step that retries it until it
 * has a row (lib/services/audit.service.ts, lib/workflows/auditRun.ts).
 */
module AuditService {
  import opened Sequences
  import opened ScopeLabels
  import opened AuditRuns
  import opened RunRows

  // -------------------------------------------------------------------------------------------
  // One worker step
  // -------------------------------------------------------------------------------------------

  /** How PageSpeed, or getting to it, went. */
  datatype Fetch =
    | Answered(outcome: Outcome)
    | RetryableFailure
    | PermanentFailure(httpStatus: Option<nat>)
    | ContentFailure
    | NoApiKey
    | Blip

  /** How storing the raw JSON of an answer went. */
  datatype Storage = Kept | Misconfigured | Unreachable

  datatype Attempt = Attempt(fetch: Fetch, storage: Storage)

  datatype PageOutcome =
    | Returned(out: RecordOutcome)
    | ThrewPermanent
    | ThrewOther

  function ErrorRow(run: RunId, page: PageId, strategy: Strategy): ResultRow {
    ResultRow(run, page, strategy, Error, false)
  }

  /** What a failing recordAuditResult does to its caller. */
  function Surface(out: RecordOutcome): PageOutcome {
    if out.Threw? then ThrewOther else Returned(out)
  }

  /** auditPage: measure once and persist, or throw. An error row always counts as a failure. */
  function AuditPage(db: Db, run: RunId, page: PageId, strategy: Strategy, a: Attempt): (Db, PageOutcome) {
    match a.fetch
    case NoApiKey => (db, ThrewPermanent)
    case RetryableFailure => (db, ThrewOther)
    case Blip => (db, ThrewOther)
    case PermanentFailure(httpStatus) =>
      var (t, out) := Record(db, ErrorRow(run, page, strategy), true);
      if out.Threw? then (t, ThrewOther)
      else if httpStatus == Some(403) then (t, ThrewPermanent)
      else (t, Returned(out))
    case ContentFailure =>
      var (t, out) := Record(db, ErrorRow(run, page, strategy), true);
      (t, Surface(out))
    case Answered(outcome) =>
      if a.storage.Unreachable? then (db, ThrewOther)
      else
        var (t, out) := Record(db, ResultRow(run, page, strategy, outcome, a.storage.Kept?), outcome == Error);
        (t, Surface(out))
  }

  /** auditOnePageStep from attempt i on (counting from 1): the tables, and whether it finalizes. */
  function AuditStep(db: Db, run: RunId, page: PageId, strategy: Strategy, attempts: seq<Attempt>, i: nat, max: nat)
    : (Db, bool)
    requires 1 <= i
    decreases |attempts| + 1 - i
  {
    if i > |attempts| then (db, false)
    else
      var (t, outcome) := AuditPage(db, run, page, strategy, attempts[i - 1]);
      if outcome.Returned? then (t, outcome.out == Written(true))
      else if outcome.ThrewPermanent? || i >= max then
        var (u, out) := Record(t, ErrorRow(run, page, strategy), true);
        (u, out == Written(true))
      else AuditStep(t, run, page, strategy, attempts, i + 1, max)
  }

  // -------------------------------------------------------------------------------------------
  // What one attempt stores
  // -------------------------------------------------------------------------------------------

  /**
   * Nothing without an answer that counts: without a key, after a failure worth another attempt, or when
   * the evidence could not be stored, the tables stay as they are.
   */
  lemma NothingIsStored(db: Db, run: RunId, page: PageId, strategy: Strategy, a: Attempt)
    requires a.fetch.NoApiKey? || a.fetch.RetryableFailure? || a.fetch.Blip?
          || (a.fetch.Answered? && a.storage.Unreachable?)
    ensures AuditPage(db, run, page, strategy, a) == (db, if a.fetch.NoApiKey? then ThrewPermanent else ThrewOther)
  {
  }

  /**
   * Any other attempt on an owed pair adds one row: what PageSpeed answered, with its evidence if that was
   * kept, or an error row if PageSpeed gave none. The run's counters go up, failedJobs for an error row only;
   * no other run changes, and the page's pointer moves to the row.
   */
  lemma OutcomeIsStored(db: Db, run: RunId, page: PageId, strategy: Strategy, a: Attempt)
    requires run in db.runs && HasPage(db.pages, page) && (page, strategy) !in Recorded(db, run)
    requires a.fetch.PermanentFailure? || a.fetch.ContentFailure? || (a.fetch.Answered? && !a.storage.Unreachable?)
    ensures var (t, outcome) := AuditPage(db, run, page, strategy, a);
      var stored := if a.fetch.Answered? then a.fetch.outcome else Error;
      && t.results
         == db.results + [ResultRow(run, page, strategy, stored, a.fetch.Answered? && a.storage == Kept)]
      && t.runs == db.runs[run := db.runs[run].(
           completedJobs := db.runs[run].completedJobs + 1,
           failedJobs := db.runs[run].failedJobs + (if stored == Error then 1 else 0))]
      && t.pages == db.pages && t.latest == db.latest[(page, strategy) := |db.results|]
      && (outcome.ThrewPermanent? <==> a.fetch == PermanentFailure(Some(403))) && !outcome.ThrewOther?
  {
  }

  /** A worker either changes nothing or makes one delivery, failure flag and error row in step. */
  ghost predicate OneDelivery(db: Db, t: Db, run: RunId, page: PageId, strategy: Strategy) {
    t == db || exists row ::
      SameKey(row, ErrorRow(run, page, strategy)) && t == Record(db, row, row.outcome == Error).0
  }

  lemma AuditPageDelivers(db: Db, run: RunId, page: PageId, strategy: Strategy, a: Attempt)
    ensures OneDelivery(db, AuditPage(db, run, page, strategy, a).0, run, page, strategy)
  {
  }

  lemma DeliveryKeepsInv(db: Db, t: Db, run: RunId, page: PageId, strategy: Strategy)
    requires Inv(db) && OneDelivery(db, t, run, page, strategy)
    ensures Inv(t)
  {
    if t != db {
      var row :| SameKey(row, ErrorRow(run, page, strategy)) && t == Record(db, row, row.outcome == Error).0;
      RecordKeepsInv(db, row);
    }
  }

  lemma DeliveryRecords(db: Db, t: Db, run: RunId, page: PageId, strategy: Strategy)
    requires OneDelivery(db, t, run, page, strategy) && run in db.runs && HasPage(db.pages, page)
    ensures run in t.runs && t.pages == db.pages
    ensures Recorded(db, run) <= Recorded(t, run) <= Recorded(db, run) + {(page, strategy)}
  {
  }

  lemma ReturnedIsRecorded(db: Db, run: RunId, page: PageId, strategy: Strategy, a: Attempt)
    requires AuditPage(db, run, page, strategy, a).1.Returned?
    ensures (page, strategy) in Recorded(AuditPage(db, run, page, strategy, a).0, run)
  {
  }

  /** Every step of every worker is deliveries, so it keeps the invariant. */
  lemma {:induction false} AuditStepKeepsInv(
    db: Db, run: RunId, page: PageId, strategy: Strategy, attempts: seq<Attempt>, i: nat, max: nat)
    requires Inv(db) && 1 <= i
    ensures Inv(AuditStep(db, run, page, strategy, attempts, i, max).0)
    decreases |attempts| + 1 - i
  {
    if i <= |attempts| {
      var (t, outcome) := AuditPage(db, run, page, strategy, attempts[i - 1]);
      AuditPageDelivers(db, run, page, strategy, attempts[i - 1]);
      DeliveryKeepsInv(db, t, run, page, strategy);
      if outcome.ThrewPermanent? || (outcome.ThrewOther? && i >= max) {
        RecordKeepsInv(t, ErrorRow(run, page, strategy));
      } else if outcome.ThrewOther? {
        AuditStepKeepsInv(t, run, page, strategy, attempts, i + 1, max);
      }
    }
  }

  /**
   * Whatever PageSpeed does, a step that gets its attempts leaves a row for its pair and for no
   * other, so every job that will never run again is counted.
   */
  lemma {:induction false} StepLeavesARow(
    db: Db, run: RunId, page: PageId, strategy: Strategy, attempts: seq<Attempt>, i: nat, max: nat)
    requires run in db.runs && HasPage(db.pages, page) && 1 <= i <= max <= |attempts|
    ensures Recorded(AuditStep(db, run, page, strategy, attempts, i, max).0, run)
         == Recorded(db, run) + {(page, strategy)}
    decreases |attempts| + 1 - i
  {
    var (t, outcome) := AuditPage(db, run, page, strategy, attempts[i - 1]);
    AuditPageDelivers(db, run, page, strategy, attempts[i - 1]);
    DeliveryRecords(db, t, run, page, strategy);
    if outcome.Returned? {
      ReturnedIsRecorded(db, run, page, strategy, attempts[i - 1]);
    } else if outcome.ThrewPermanent? || i >= max {
      RecordGrows(t, ErrorRow(run, page, strategy), true);
    } else {
      StepLeavesARow(t, run, page, strategy, attempts, i + 1, max);
    }
  }

  /** An attempt that writes nothing and is worth another one. */
  predicate Retries(a: Attempt) {
    a.fetch.RetryableFailure? || a.fetch.Blip? || (a.fetch.Answered? && a.storage.Unreachable?)
  }

  /** The attempt that ends the step is a rejected key (HTTP 403). */
  predicate SettledByForbidden(attempts: seq<Attempt>, i: nat, max: nat)
    requires 1 <= i
    decreases |attempts| + 1 - i
  {
    i <= |attempts|
    && (attempts[i - 1].fetch == PermanentFailure(Some(403))
        || (Retries(attempts[i - 1]) && i < max && SettledByForbidden(attempts, i + 1, max)))
  }

  /** The attempt that ends the step: the first that is not worth another one, or the last. */
  lemma {:induction false} SomeAttemptEnds(attempts: seq<Attempt>, i: nat, max: nat) returns (k: nat)
    requires 1 <= i <= max <= |attempts|
    ensures i <= k <= max && (k == max || !Retries(attempts[k - 1]))
    ensures forall j :: i - 1 <= j < k - 1 ==> Retries(attempts[j])
    decreases max - i
  {
    k := i;
    if i < max && Retries(attempts[i - 1]) {
      k := SomeAttemptEnds(attempts, i + 1, max);
    }
  }

  lemma RetriesStoreNothing(db: Db, run: RunId, page: PageId, strategy: Strategy, a: Attempt)
    ensures Retries(a) <==>
      a.fetch.RetryableFailure? || a.fetch.Blip? || (a.fetch.Answered? && a.storage == Unreachable)
    ensures Retries(a) ==> AuditPage(db, run, page, strategy, a) == (db, ThrewOther)
  {
  }

  lemma StoredAtTheEnd(db: Db, run: RunId, page: PageId, strategy: Strategy, a: Attempt)
    requires run in db.runs && HasPage(db.pages, page) && (page, strategy) !in Recorded(db, run)
    ensures var (t, outcome) := AuditPage(db, run, page, strategy, a);
      var answered := a.fetch.Answered? && a.storage != Unreachable;
      var row := ResultRow(run, page, strategy, if answered then a.fetch.outcome else Error,
                           answered && a.storage == Kept);
      && (outcome.Returned? ==> t.results == db.results + [row])
      && (!outcome.Returned? ==>
            !answered && Record(t, ErrorRow(run, page, strategy), true).0.results == db.results + [row])
  {
    if a.fetch == PermanentFailure(Some(403)) {
      ErrorRowReplays(db, run, page, strategy);
    }
  }

  /**
   * A step on an owed pair stores what the attempt that ends it was answered, and an error row if it was
   * not: the row is ok exactly when that attempt was answered with a measurement that went well.
   */
  lemma {:induction false} StepStoresAnswer(
    db: Db, run: RunId, page: PageId, strategy: Strategy, attempts: seq<Attempt>, i: nat, max: nat, k: nat)
    requires run in db.runs && HasPage(db.pages, page) && (page, strategy) !in Recorded(db, run)
    requires 1 <= i <= k <= max <= |attempts| && (k == max || !Retries(attempts[k - 1]))
    requires forall j :: i - 1 <= j < k - 1 ==> Retries(attempts[j])
    ensures var last := attempts[k - 1];
      var answered := last.fetch.Answered? && last.storage != Unreachable;
      AuditStep(db, run, page, strategy, attempts, i, max).0.results
      == db.results + [ResultRow(run, page, strategy, if answered then last.fetch.outcome else Error,
                                 answered && last.storage == Kept)]
    decreases k - i
  {
    RetriesStoreNothing(db, run, page, strategy, attempts[i - 1]);
    if i < k {
      StepStoresAnswer(db, run, page, strategy, attempts, i + 1, max, k);
    } else {
      StoredAtTheEnd(db, run, page, strategy, attempts[i - 1]);
    }
  }

  /** A step that dies while its attempts are still worth another one has stored nothing and reports nothing. */
  lemma {:induction false} DyingStepIsSilent(
    db: Db, run: RunId, page: PageId, strategy: Strategy, attempts: seq<Attempt>, i: nat, max: nat)
    requires 1 <= i <= |attempts| + 1 && |attempts| < max
    requires forall j :: i - 1 <= j < |attempts| ==> Retries(attempts[j])
    ensures AuditStep(db, run, page, strategy, attempts, i, max) == (db, false)
    decreases |attempts| + 1 - i
  {
    if i <= |attempts| {
      RetriesStoreNothing(db, run, page, strategy, attempts[i - 1]);
      DyingStepIsSilent(db, run, page, strategy, attempts, i + 1, max);
    }
  }

  /** The pair's row, once written, completes the run. */
  predicate Completes(run: Run) {
    run.totalJobs > 0 && run.completedJobs + 1 >= run.totalJobs
  }

  lemma NewRowAnswer(db: Db, row: ResultRow)
    requires row.run in db.runs && HasPage(db.pages, row.page)
    requires (row.page, row.strategy) !in Recorded(db, row.run)
    ensures Record(db, row, row.outcome == Error).1 == Written(Completes(db.runs[row.run]))
  {
  }

  lemma ErrorRowReplays(db: Db, run: RunId, page: PageId, strategy: Strategy)
    requires run in db.runs && HasPage(db.pages, page)
    ensures var t := Record(db, ErrorRow(run, page, strategy), true).0;
      Record(t, ErrorRow(run, page, strategy), true) == (t, Replayed)
  {
    RecordGrows(db, ErrorRow(run, page, strategy), true);
  }

  /**
   * A rejected key loses the call to finalize, on whichever attempt it comes: the first record may
   * complete the run, but auditPage throws its answer away, and the step's own record is then a replay.
   */
  lemma {:induction false} ForbiddenNeverFinalizes(
    db: Db, run: RunId, page: PageId, strategy: Strategy, attempts: seq<Attempt>, i: nat, max: nat)
    requires run in db.runs && HasPage(db.pages, page) && 1 <= i && SettledByForbidden(attempts, i, max)
    ensures AuditStep(db, run, page, strategy, attempts, i, max)
         == (Record(db, ErrorRow(run, page, strategy), true).0, false)
    decreases |attempts| + 1 - i
  {
    if attempts[i - 1].fetch == PermanentFailure(Some(403)) {
      ErrorRowReplays(db, run, page, strategy);
    } else {
      ForbiddenNeverFinalizes(db, run, page, strategy, attempts, i + 1, max);
    }
  }

  /**
   * A step whose pair is still owed tells the workflow to finalize exactly when its row completes the
   * run, unless a rejected key ended it: then it never does.
   */
  lemma {:induction false} StepReportsIff(
    db: Db, run: RunId, page: PageId, strategy: Strategy, attempts: seq<Attempt>, i: nat, max: nat)
    requires run in db.runs && HasPage(db.pages, page) && 1 <= i <= max <= |attempts|
    requires (page, strategy) !in Recorded(db, run)
    ensures AuditStep(db, run, page, strategy, attempts, i, max).1
      <==> Completes(db.runs[run]) && !SettledByForbidden(attempts, i, max)
    decreases |attempts| + 1 - i
  {
    var a := attempts[i - 1];
    NewRowAnswer(db, ErrorRow(run, page, strategy));
    if a.fetch == PermanentFailure(Some(403)) {
      ErrorRowReplays(db, run, page, strategy);
    } else if Retries(a) && i < max {
      StepReportsIff(db, run, page, strategy, attempts, i + 1, max);
    } else if a.fetch.Answered? {
      NewRowAnswer(db, ResultRow(run, page, strategy, a.fetch.outcome, a.storage.Kept?));
    }
  }
}
