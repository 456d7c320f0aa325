# PageSpeed Auditor: a Dafny model

A model of the parts of the PageSpeed Auditor whose correctness depends on interleavings, on state that lives
across calls, or on algebra, with proofs about them. Paths in the table are relative to the repository root.

The database is plain state: maps and lists of rows. One transaction, or one SQL statement, is one step, and
everything around the steps (which request comes next, when a worker dies, what a third party answers) is
arbitrary. Code that updates state in place is a class or a method with loops, proved against a specification
function; the theorems are about those functions.

| Files | What they model |
|---|---|
| `AuditRuns`, `RunRows`, `RunPlans`, `RunResume`, `RunCompletion`, `AuditRunProtocol` | audit runs: recording, counters, finalizing, resuming, reconciling, controls |
| `AuditService`, `AuditInterleaving`, `AuditStore` | a worker's step with its retries, alone and among others; the tables of the audit side as a class |
| `ScopeLabels` | the label a run's scope is stored as |
| `Recommendations`, `RecommendationProtocol` | the claim protocol for AI recommendations |
| `Splice`, `AiSection` | the block of a markdown report that holds the recommendation |
| `RateLimiter`, `LimiterDrain`, `LoginLimiter` | the two fixed-window limiters |
| `Crawl`, `NormalizeUrl`, `Dedupe`, `SitemapPipeline` | sitemap crawl, canonical URLs, and the way from one to page rows |
| `Grouping`, `Ingest`, `IngestProgress`, `SiteStore` | pages, groups and aliases: ingest, rename, merge, move |
| `Psi`, `Prune`, `Extract`, `ResponseReading`, `Measurement` | what is read from a PageSpeed response, field by field, and pruning it |
| `Aggregates`, `Listing`, `GroupOrder` | group cards, the home screen, and orders chosen by hand |
| `Sequences`, `StableSort`, `Text`, `Arithmetic` | lists, one stable sort, the string operations used, quotients |

## Where code and comments differ

The model follows the code. Each difference in behaviour below is stated and proved; the last one is a comment only.

- `lib/services/run.service.ts:50-57` calls formatting and parsing a scope label a matched pair. They are one
  exactly for the scopes of `ScopeLabels.Representable`; a retry label always reads back as the whole site.
- `lib/services/run.service.ts:103-108` and `:420-427`: after a resume the total can be reached before the work is
  done, if a measured page has left the sitemap (`RunResume.ResumeIsExactIff`).
- `lib/services/run.service.ts:270-272` says that what is cancelled stays so, but `:553-567` resumes the runs an earlier
  query found open, and resumeRun does not look at the status: a run that ends in between is reopened (exactly when:
  `AuditRunProtocol.TerminalThroughoutIff`), even beside an active run of its site (`AuditRunProtocol.InvThroughoutIff`;
  an input for both: `AuditRunProtocol.LateRoundRevives`).
- `lib/workflows/auditRun.ts:72-95` records the error row of a rejected API key twice and loses the answer that
  says the run is complete (`AuditService.StepReportsIff`).
- `lib/report/aiSection.ts:24-28`: the sentinels are removed in one pass, so they can reassemble; and `:38-43`: a
  start sentinel without an end is never repaired and later costs text (`AiSection.UpsertTwice`).
- `lib/psi/rateLimiter.ts:7-15`: the upsert is atomic but the clock is read before it, so two processes either side
  of a boundary can be granted any number of permits (`RateLimiter.FlappingIsUnlimited`; exactly when, `RateLimiter.WindowBudgetIff`).
- `lib/sitemap/fetch.ts:87-94`: depth first, a document within `maxDepth` can be lost (`Crawl.DetourLosesPage`).
- `lib/sitemap/normalize.ts:80-96`: the extension is checked before slashes are stripped
  (`NormalizeUrl.IdempotentIff`).
- `lib/services/group.service.ts:9-32` does not look at aliases when it renames (`Grouping.RenameKeepsIff`).
- `lib/services/ingest.service.ts:170-181`: a root that cannot be fetched switches every page of the site off
  (`SitemapPipeline.UnreachableRootEmptiesSite`).
- `lib/psi/prune.ts:49-50`: the limit does not reach strings that are elements of a list (`Prune.ItemShortIff`).
- `lib/psi/extract.ts:211-214` says the first category is kept, but the key holds the category: the list has an audit
  once for each category it fails in (`Measurement.ExtractedHowOften`; an input: `Measurement.SharedAuditIsListedTwice`).
  Only the unique rows keep the first (`Measurement.FirstCategoryIsStored`).
- `app/actions/groups.ts:15-16` says an empty list clears every override; it clears none
  (`GroupOrder.EmptyReorderIsNoReset`).
- The comment at `lib/services/results.service.ts:178-179` says the list is in order of page count; `:266-281` sorts by priority
  and sitemap position.

## Model

| member | source | states |
|---|---|---|
| ScopeLabels.ScopeRoundTrip | lib/services/run.service.ts:70-97 | parse after format gives the scope back if and only if it is representable: not a retry, a trimmed non-empty ref that does not end like a strategy (no ref for the site), one or both strategies |
| ScopeLabels.RetryReadsAsSite | lib/services/run.service.ts:84-96 | every retry label, whatever its ref, decodes to the whole site |
| ScopeLabels.ParsedIsRepresentable | lib/services/run.service.ts:76-97 | any text at all parses to a scope that survives the round trip |
| ScopeLabels.LabelsAre | lib/services/run.service.ts:70-74 | the texts themselves: the kind, the ref after a colon, and one strategy in brackets |
| ScopeLabels.BlanksAreIgnored | lib/services/run.service.ts:76-82 | blanks around a label change nothing, and no label reads as an empty one |
| RunRows.RecordKeepsInv | lib/services/audit.service.ts:92-197 | one row per (run, page, strategy), counters equal to row and error counts, pointers on the newest rows: kept by every delivery, duplicate or not |
| RunRows.RecordGrows | lib/services/audit.service.ts:92-197 | a delivery adds its own pair to its run and touches no other run's pairs |
| RunResume.CompletedIsRecorded | lib/services/audit.service.ts:171-178 | in every state that keeps the invariant completedJobs is the number of distinct pairs recorded |
| RunPlans.ExpandScopeIsDistinct | lib/services/run.service.ts:314-351 | whatever the scope, no (page, strategy) is dispatched twice |
| RunPlans.ExpandScopeMembers | lib/services/run.service.ts:326-350 | the dispatched pairs are exactly the selected pages with each strategy; what each kind of scope selects is in the four rows below |
| RunPlans.GroupScopeMembers | lib/services/run.service.ts:331-332 | a group scope covers exactly the active pages of the site in the site's group whose slug is the ref |
| RunPlans.PagesScopeMembers | lib/services/run.service.ts:329-330 | a list scope covers exactly the pages whose id is one of the non-empty texts between the commas of the ref, active or not |
| RunPlans.PageScopeMembers | lib/services/run.service.ts:327-328 | a page scope covers exactly the page with that id, active or not |
| RunPlans.SiteScopeMembers | lib/services/run.service.ts:333 | a site scope covers exactly the site's active pages |
| RunPlans.StrategiesTakeTurns | lib/services/run.service.ts:348-350 | each covered page is dispatched with each strategy once, in the order of the scope, under its own url |
| RunPlans.RetryScopeIs | lib/services/run.service.ts:397-410 | a retry replays the error rows of that run whose page is active, in their order, each with its strategy and the active page's url |
| RunPlans.ExpandScopeInOrder | lib/services/run.service.ts:335-350 | of two dispatched pairs the page of the first is never after that of the second in sweep order |
| RunPlans.FailedPairsMembers | lib/services/run.service.ts:397-410 | a retry covers exactly the failed pairs whose page is still active |
| RunPlans.SweepOrderIsTotal | lib/services/run.service.ts:335-346 | priority, sitemap position and path, nulls last, form a total preorder |
| RunPlans.SweepOrderIs | lib/services/run.service.ts:341-345 | which of two pages comes first, key by key: lower priority or any at all, then the sitemap, then the path |
| RunPlans.PairKeyIsInjective | lib/services/run.service.ts:113 | the string keys of two different pairs differ, whatever the page id |
| RunPlans.MissingIsExact | lib/services/run.service.ts:120-126 | what is still owed is exactly the expanded scope less the recorded pairs, in scope order |
| RunPlans.MissingCount | lib/services/run.service.ts:120-126 | owed and recorded-in-scope add up to the scope; nothing is owed twice |
| RunPlans.ResumeNeverGrows | lib/services/run.service.ts:443-490 | a resume that is not refused never raises totalJobs and never dispatches more than was committed |
| RunResume.ResumeKeepsInv | lib/services/run.service.ts:474-490 | a resume restores counters that agree with the rows |
| RunResume.ResumeCanFinish | lib/services/run.service.ts:474-516 | recording everything a resume dispatched brings completedJobs to at least the new totalJobs |
| RunResume.ResumedRunIs | lib/services/run.service.ts:443-516 | the whole run row after a resume, refused or not, and exactly the pairs without a row as what is dispatched |
| RunResume.ResumeIsExactIff | lib/services/run.service.ts:456-490 | after a resume, no delivery reports ready early if and only if every recorded pair is still in scope or at most one pair is owed |
| RunResume.DeactivatedPageReadyEarly | lib/services/run.service.ts:482-485 | the failing case occurs: a measured page is deactivated, two pairs are owed, and the first delivery already reports ready |
| RunCompletion.ReadyIffLastPair | lib/services/audit.service.ts:183-187 | a delivery reports ready if and only if it gives the last missing pair of the plan its row |
| RunCompletion.ExactlyOneReady | lib/services/audit.service.ts:92-197 | over every interleaving of deliveries, duplicates, controls and other runs' work, exactly one delivery reports ready if the plan gets complete, none otherwise |
| RunCompletion.ReadyMeansDone | lib/services/run.service.ts:428-517 | over every run of deliveries, crashes, resumes and sitemap changes in which measured pairs stay in scope, ready means that every pair in scope has a row |
| RunCompletion.ReadyAtMostOnce | lib/services/run.service.ts:428-517 | over the same runs, resumes and sitemap changes included, a run reports ready at most once, and not at all once it is complete |
| RunCompletion.ResumeCommits | lib/services/run.service.ts:474-490 | a resume that finds its measured pairs in scope commits to exactly the scope |
| RunCompletion.StartCommits | lib/services/run.service.ts:220-233 | a started run is committed to the distinct pairs of its scope and has none recorded |
| AuditRunProtocol.EveryRunKeepsInv | lib/services/run.service.ts:193-571 | over every sequence of record, finalize, fail, reconcile round, control, guarded start and ingest in which no round reopens a run beside an active one: at most one active run per site, and counters and rows agree |
| AuditRunProtocol.EveryRunKeepsMatch | lib/services/audit.service.ts:92-197 | whatever the rounds do and whenever they come, rows are unique, counters agree with them and pointers are newest, in every reachable state |
| AuditRunProtocol.StepKeepsInvIff | lib/services/run.service.ts:553-567 | a step breaks one active run per site if and only if it is a round that sets a run running while another of its site is active |
| AuditRunProtocol.InvThroughoutIff | lib/services/run.service.ts:553-567 | over whole runs: every state on the way keeps the invariant if and only if no round does that |
| AuditRunProtocol.TerminalForever | lib/services/run.service.ts:270-275 | unless a reconcile round comes after the end and reverses it, a terminal status never changes again; cancelled never becomes completed |
| AuditRunProtocol.TerminalStaysIff | lib/services/run.service.ts:545-567 | a step changes a terminal status if and only if it is a round on that run, the run is younger than the stale limit, and its scope has not grown or it had not failed |
| AuditRunProtocol.TerminalThroughoutIff | lib/services/run.service.ts:545-567 | over whole runs: a terminal status stays all the way if and only if there is no such round |
| AuditRunProtocol.LateRoundRevives | lib/services/run.service.ts:545-567 | an input for both: a run found open is stopped and the next one of its site started before its round comes; the round reverses the cancelled run and sets it running beside the new one |
| AuditRunProtocol.RoundsInARow | lib/services/run.service.ts:553-567 | the rounds over the open runs, when nothing comes between them and the query, are the reconcile of the list, and none breaks one active run per site |
| AuditRunProtocol.RoundsReverseNothing | lib/services/run.service.ts:553-567 | nor does any of these rounds change the status of a run that is over |
| AuditRunProtocol.ReconcileTouchesOnlyOpen | lib/services/run.service.ts:539-571 | a reconcile leaves every run that was not queued or running, a paused one say, exactly as it was |
| AuditRunProtocol.ReconcileEach | lib/services/run.service.ts:553-567 | each open run is handled as if it were the only one |
| AuditRunProtocol.ReconciledIs | lib/services/run.service.ts:520-567 | a round fails a queued or running run open for more than so many hours, with the message, and resumes any that is not |
| AuditRunProtocol.FinalizeFullRun | lib/services/run.service.ts:277-292 | a run with a row for every job ends failed if and only if every row is an error |
| AuditRunProtocol.ResumeHasNoStatusGuard | lib/services/run.service.ts:428-490 | called on a finished run, resumeRun reopens it or fails it |
| AuditRunProtocol.Controls | lib/services/run.service.ts:636-688 | pause and resume cancel out on a running run; stop is allowed exactly until the run is over, and ends it |
| AuditService.AuditStepKeepsInv | lib/workflows/auditRun.ts:40-128 | whatever PageSpeed and the store do on each attempt, a worker keeps the invariant |
| AuditService.StepLeavesARow | lib/workflows/auditRun.ts:59-126 | with nobody else at work and its own last record going through, a step that gets its attempts leaves a row for its own pair and for no other |
| AuditService.OutcomeIsStored | lib/services/audit.service.ts:92-197 | an attempt on an owed pair that ends in a row adds exactly one: what PageSpeed answered, with its evidence if that was kept, else an error row; failedJobs rises for an error row only, and no other run changes |
| AuditService.NothingIsStored | lib/services/audit.service.ts:237-290 | without a key, after a retryable failure or when the evidence store is unreachable, nothing is written, and only the missing key is permanent |
| AuditService.StepStoresAnswer | lib/workflows/auditRun.ts:59-126 | the row of a step is what the attempt that ends it was answered: ok if and only if that was answered ok and could be stored, on whichever attempt |
| AuditService.SomeAttemptEnds | lib/workflows/auditRun.ts:59-126 | one of the attempts does end a step that gets its attempts: the first that is not worth another, or the last |
| AuditService.DyingStepIsSilent | lib/workflows/auditRun.ts:59-126 | a worker that dies between its attempts has stored nothing and does not call finalize |
| AuditInterleaving.StepAmongStoresAnswer | lib/workflows/auditRun.ts:59-126 | the same among any steps of others: which row goes into which tables, and none if the step's own last record fails |
| AuditInterleaving.ForbiddenAmongStores | lib/workflows/auditRun.ts:72-95 | a 403 leaves its error row before the others' last steps, and the step adds nothing after them |
| AuditService.StepReportsIff | lib/workflows/auditRun.ts:59-126 | with nobody else at work, for a pair still owed, a step tells the workflow to finalize if and only if its row completes the run and the attempt that ends the step is not a 403 |
| AuditInterleaving.StepAmongReportsIff | lib/workflows/auditRun.ts:59-126 | with any steps of the protocol before, between and after the attempts: a step tells the workflow to finalize if and only if it settles, and in the state in which it does its pair is still owed and completes the run; never after a 403 or a failed record of its own |
| AuditInterleaving.StepAmongLeavesARowIff | lib/workflows/auditRun.ts:59-126 | among others, and with a last record that may fail: the step leaves a row for its pair unless that record fails, no attempt settled and nobody else wrote one; and only then does it not |
| AuditInterleaving.StepAlone | lib/workflows/auditRun.ts:40-128 | without others, and with a last record that goes through, it is the step whose loop AuditStore proves |
| AuditService.ForbiddenNeverFinalizes | lib/workflows/auditRun.ts:72-95 | on whichever attempt the 403 comes, the tables are those of a single error-row delivery and the step never finalizes |
| AuditStore.Tables.RecordAuditResult | lib/services/audit.service.ts:43-197 | an unreachable store changes nothing; otherwise the tables and the answer are those of the atomic delivery, evidence kept or not |
| AuditStore.Tables.AuditPageOnce | lib/services/audit.service.ts:237-384 | one attempt does what its specification says on every outcome (what that stores: AuditService.OutcomeIsStored), failure flag and error row in step |
| AuditStore.Tables.AuditOnePage | lib/workflows/auditRun.ts:40-128 | the retry loop equals its recursive specification |
| AuditStore.Tables.FinalizeRun | lib/services/run.service.ts:263-299 | terminal runs are returned as they are, others closed, unknown ones refused; no other run changes |
| AuditStore.Tables.FailRun | lib/services/run.service.ts:301-307 | only a queued or running run is failed |
| AuditStore.Tables.ResumeRun | lib/services/run.service.ts:428-517 | rows, dispatched list and summary of a resume, or its refusal |
| AuditStore.Tables.FindOpenRuns | lib/services/run.service.ts:545-549 | each queued or running run once, oldest first, and no other |
| AuditStore.Tables.ReconcileStaleRuns | lib/services/run.service.ts:539-571 | the rounds over the open runs, oldest first, give the tables of the specification, and the two reported lists partition the open runs |
| AuditStore.Tables.StartRun | lib/workflows/planSweep.ts:19-57 | starts only when no run of the site is active; a planned sweep leaves a skipped row instead |
| AuditStore.Tables.ControlRun | lib/services/run.service.ts:636-688 | an action is refused exactly where the status does not allow it, and then changes nothing |
| Recommendations.RecommendationStore.Claim | lib/services/recommendation.service.ts:123-130 | a request gets a version if and only if no row has it; the loser of a race changes nothing |
| Recommendations.RecommendationStore.Publish | lib/services/recommendation.service.ts:142-173 | row, report and trim change together |
| Recommendations.RecommendationStore.Release | lib/services/recommendation.service.ts:184-191 | a failed generation frees its claim; a row that is gone is no error |
| Recommendations.RecommendationStore.GetOrCreateRecommendation | lib/services/recommendation.service.ts:93-193 | one undisturbed request: answered from the cache if and only if the newest row is complete with content and none is forced; refused if and only if that row is generating and younger than three minutes; else the next version is claimed, the model is shown the newest row's answer if that is complete, and its reply is published or the claim marked failed |
| RecommendationProtocol.LookStepIs | lib/services/recommendation.service.ts:98-116 | the same decision for a request among others: when it goes on to claim, and with which snapshot |
| RecommendationProtocol.ClaimedAlone | lib/services/recommendation.service.ts:123-130 | an undisturbed claim leaves a fresh generating row for the next version |
| RecommendationProtocol.GenerationEnds | lib/services/recommendation.service.ts:139-191 | what an answer, a failure and a crash each leave behind |
| RecommendationProtocol.ShownIsNewestCompleteIff | lib/services/recommendation.service.ts:133-134 | the model is shown the newest complete answer if and only if no failed or abandoned attempt came after it |
| Recommendations.PublishedIs | lib/services/recommendation.service.ts:143-170 | after a publish a row is there if and only if fewer than ten are newer, and only the published row has changed |
| Recommendations.TrimBound | lib/services/recommendation.service.ts:160-170 | at most KEEP_VERSIONS rows survive a trim of any table |
| Recommendations.PublishKeepsTop | lib/services/recommendation.service.ts:142-170 | the newest version survives every trim |
| RecommendationProtocol.EveryRunIsSingleFlight | lib/services/recommendation.service.ts:93-193 | over every run of any number of requests, crashed ones included, that meets the two timing hypotheses, whatever the answers say: one live generation at most, held by the newest version, consecutive versions, settled snapshots |
| RecommendationProtocol.SingleFlightThroughoutIff | lib/services/recommendation.service.ts:93-193 | the two timing hypotheses are exact over whole runs: every state on the way is single-flight if and only if every step is in time |
| RecommendationProtocol.ClaimKeepsInvIff | lib/services/recommendation.service.ts:123-130 | a claim keeps the invariant if and only if its snapshot is current or the version it claims is still there to refuse it |
| RecommendationProtocol.TickKeepsInvIff | lib/services/recommendation.service.ts:109-116 | the passing of time keeps it if and only if no live claim goes stale |
| RecommendationProtocol.ShortLagIsInTime | lib/services/recommendation.service.ts:123-130 | a snapshot at most KEEP_VERSIONS versions behind claims in time |
| RecommendationProtocol.EveryRunKeepsReport | lib/services/recommendation.service.ts:142-158 | if besides no answer holds an end sentinel once sanitized, the report shows the newest complete answer throughout |
| RecommendationProtocol.PublishKeepsReportIff | lib/services/recommendation.service.ts:142-158 | that condition is exact: publishing an answer keeps the report in step if and only if its sanitized text holds no end sentinel |
| RecommendationProtocol.FreshResultIsFine | lib/services/recommendation.service.ts:90-96 | a fresh result is such a starting state |
| RecommendationProtocol.TopNeverDecreases | lib/services/recommendation.service.ts:123-170 | the newest version never goes back, with no hypothesis on timing |
| RecommendationProtocol.PublishBoundsHistory | lib/services/recommendation.service.ts:160-170 | at most KEEP_VERSIONS rows after each publish, whatever the history |
| RecommendationProtocol.SlowGeneratorIsJoined | lib/services/recommendation.service.ts:109-116 | an input: a generator that outlives the stale limit is joined by a second one |
| RecommendationProtocol.LaggingSnapshotResurrects | lib/services/recommendation.service.ts:123-127 | an input: a snapshot from before the kept history re-inserts a trimmed version |
| AiSection.ExtractAfterUpsert | lib/report/aiSection.ts:20-67 | for a report whose block is closed or absent, extract after upsert gives the sanitized body (none for empty or placeholder) if and only if the sanitized body holds no end sentinel |
| AiSection.UpsertTwice | lib/report/aiSection.ts:45-55 | two upserts equal the second alone if and only if the report was well formed and the first sanitized body holds no end sentinel, whatever the second body is |
| AiSection.OutsideIsUntouched | lib/report/aiSection.ts:45-55 | for every report and body: the new block stands where the old one was, all other text is kept (all of it, without a block) and the result is well formed; a reader finds that text around the block if and only if the report was well formed and the sanitized body holds no end sentinel |
| AiSection.CutIsShorter | lib/report/aiSection.ts:58-67 | a body with an end sentinel comes back strictly shorter, and reads differently |
| AiSection.SanitizeIs | lib/report/aiSection.ts:24-36 | sanitizing is splitting at the start sentinels, joining, splitting what results at the end sentinels, joining, and trimming |
| AiSection.BlockIs | lib/report/aiSection.ts:20-55 | the text a report without a block gets, to the letter |
| AiSection.ReadsByHand | lib/report/aiSection.ts:58-67 | a block written by hand, with any case and spacing of the heading, reads as its trimmed body |
| AiSection.OtherHeadingStays | lib/report/aiSection.ts:64 | a text that does not start with that heading is left as it is |
| AiSection.PlaceholderReadsAsNone | lib/report/aiSection.ts:17-66 | the placeholder, to the letter, and an empty block read as no recommendation |
| AiSection.NestedSentinelReassembles | lib/report/aiSection.ts:29-36 | a sentinel wrapped around a sentinel survives sanitizing, wherever it is cut |
| AiSection.DanglingStartLosesText | lib/report/aiSection.ts:45-55 | with a start sentinel and no end, two generations delete everything after it |
| RateLimiter.PsiRateLimiter.TryAcquire | lib/psi/rateLimiter.ts:67-79 | granted if and only if fewer than max attempts are counted for the window |
| RateLimiter.GrantsAreCappedRuns | lib/psi/rateLimiter.ts:67-79 | from any row, the grants of any trace are exactly the lengths of its maximal runs of equal windows, each capped at max, the first by what the row has left; the same holds for the attempts of any one window |
| RateLimiter.WindowBudgetIff | lib/psi/rateLimiter.ts:57-79 | with no assumption on clocks, a window stays within max if and only if its own capped runs add up to no more; one run always does |
| RateLimiter.GrantsPerRun | lib/psi/rateLimiter.ts:57-79 | with no assumption on clocks: at most max grants per run of equal windows in commit order |
| RateLimiter.WindowBound | lib/psi/rateLimiter.ts:57-79 | with non-decreasing windows each window grants at most max, the first only what is left |
| RateLimiter.IntervalBound | lib/psi/rateLimiter.ts:57-79 | any interval of length T sees at most max * (T / windowMs + 2) grants |
| RateLimiter.FlappingIsUnlimited | lib/psi/rateLimiter.ts:68-76 | the monotone hypothesis is needed: alternating windows grant every attempt |
| LimiterDrain.NextAttemptIsNextWindow | lib/psi/rateLimiter.ts:82-103 | a denied caller's next attempt is in the following window for every jitter if and only if windowMs exceeds 149 |
| LimiterDrain.Turn | lib/psi/rateLimiter.ts:96-105 | one turn of the acquire loops keeps the account of permits, grants in time, or makes progress |
| LimiterDrain.AcquireAll | lib/psi/rateLimiter.ts:96-105 | whatever the jitter, N waiting callers all acquire within ceil(N / max) windows, permits already gone included, and the loops end |
| LoginLimiter.Decide | lib/auth/rate-limit.ts:43-50 | count and remaining make up max while allowed; a refused caller is given the rest of the window, and only such a caller |
| LoginLimiter.RemainingIsExact | lib/auth/rate-limit.ts:43-79 | exactly so many further attempts of the window are allowed as the decision says |
| LoginLimiter.WaitIsExact | lib/auth/rate-limit.ts:43-79 | a refused caller is allowed again if and only if it waits at least as long as told |
| LoginLimiter.RetryAfterMinutes | lib/auth/rate-limit.ts:53-55 | the least positive number of whole minutes that covers the wait |
| LoginLimiter.MemoryRateLimitStore.RecordHit | lib/auth/rate-limit.ts:67-80 | an expired window starts over and may trigger pruning, a live one counts on |
| LoginLimiter.MemoryRateLimitStore.Reset | lib/auth/rate-limit.ts:82-84 | forgets this key and no other |
| LoginLimiter.MemoryRateLimitStore.Prune | lib/auth/rate-limit.ts:92-97 | from 512 windows on, exactly the expired ones go |
| LoginLimiter.PruningIsInvisible | lib/auth/rate-limit.ts:67-97 | for every trace whose clock never steps back, the pruning store answers like one that never prunes |
| LoginLimiter.PruningIsInvisibleIff | lib/auth/rate-limit.ts:67-97 | with no assumption on the clock: it answers like one that never prunes if and only if no attempt reads a dropped window before its reset time |
| LoginLimiter.SteppingBackShows | lib/auth/rate-limit.ts:67-97 | an input: for any full store, a step back shows the difference |
| LoginLimiter.StoreStaysSmall | lib/auth/rate-limit.ts:86-97 | after opening a window there are fewer than 512, or none that has expired |
| LoginLimiter.KeysAreIndependent | lib/auth/rate-limit.ts:67-97 | of the pruning store: as long as the clock does not step back, what a key is told depends on its own window and events only |
| LoginLimiter.OwnEventsDecideIff | lib/auth/rate-limit.ts:67-97 | with no assumption on the clock: a key of the pruning store is told what its own window and events decide if and only if none of its attempts reads a dropped window before its reset time |
| LoginLimiter.SteppingBackMixesKeys | lib/auth/rate-limit.ts:67-97 | an input: in any full store, a step back lets one key's attempt change what another is told |
| LoginLimiter.PruningIsInvisibleToKey | lib/auth/rate-limit.ts:86-97 | under the same clock each key gets the answers of a store that never prunes |
| LoginLimiter.PruningIsInvisibleToKeyIff | lib/auth/rate-limit.ts:86-97 | with no assumption on the clock: a key gets them if and only if none of its own attempts reads a dropped window before its reset time |
| LoginLimiter.WindowAllowsMax | lib/auth/rate-limit.ts:43-97 | of the pruning store, whatever other keys do meanwhile: between resets a window lets through exactly its first max attempts, as long as the clock does not step back |
| LoginLimiter.BurstBound | lib/auth/rate-limit.ts:15-18 | of the pruning store, other keys' events included: over any interval a key gets at most max * (length / windowMs + 2) attempts, the boundary burst of the comment generalised |
| Crawl.Crawler.CrawlFrom | lib/sitemap/fetch.ts:87-138 | the recursive in-place crawl refines its specification and terminates on every web, cyclic or not |
| Crawl.CrawlAccounts | lib/sitemap/fetch.ts:73-142 | no URL twice, at most maxDocuments fetched, entries and errors are those of the visited documents in order, truncated only when the budget is spent |
| Crawl.EntriesAre | lib/sitemap/fetch.ts:126-133 | the entries of a urlset are exactly its urls with text in their loc, each as often and in the order it stands there, lastmod or not |
| Crawl.ChildrenAre | lib/sitemap/fetch.ts:113-120 | the children of an index are exactly its locs with text in them, in order |
| Crawl.CrawlReports | lib/sitemap/fetch.ts:97-138 | one error for each visited document that could not be fetched or read, and one fetch counted for each that answered |
| Crawl.CrawlReaches | lib/sitemap/fetch.ts:113-124 | nothing is visited or turned away that the root does not lead to |
| Crawl.CompleteIff | lib/sitemap/fetch.ts:87-94 | the visited set is exactly what is reachable if and only if every URL turned away, for depth or budget, was visited some other way |
| Crawl.LimitsAreEnough | lib/sitemap/fetch.ts:74-94 | a web of at most maxDocuments documents without longer simple paths than maxDepth is crawled in full, cyclic or not |
| Crawl.TooFarIsLost | lib/sitemap/fetch.ts:87-94 | a reachable document without a path of at most maxDepth links makes the crawl incomplete |
| Crawl.TooManyAreLost | lib/sitemap/fetch.ts:90-93 | so do more than maxDocuments reachable documents that can be fetched |
| Crawl.DetourLosesPage | lib/sitemap/fetch.ts:87-94 | a document two links from the root is lost under maxDepth 3 |
| NormalizeUrl.CanonicalIff | lib/sitemap/normalize.ts:53-99 | two accepted URLs normalize alike if and only if they differ at most in fragment, tracking parameters, trailing slashes, host case, default port and the order across keys |
| NormalizeUrl.AcceptedIs | lib/sitemap/normalize.ts:59-98 | the accepted URL part by part: host in lower case, default port and fragment gone, the parameters that do not track sorted by key with equal keys in order, the path without the slashes at its end |
| NormalizeUrl.RejectedIs | lib/sitemap/normalize.ts:66-82 | which URLs are rejected, and for which reason if several apply |
| NormalizeUrl.TrackingIs | lib/sitemap/normalize.ts:10-28 | a parameter tracks if and only if its key, in any case, starts with utm_ or is one of sixteen names |
| NormalizeUrl.AssetIff | lib/sitemap/normalize.ts:47-51 | a path is an asset's if and only if it ends, in any case, in one of the extensions |
| NormalizeUrl.ExtensionsAre | lib/sitemap/normalize.ts:31-35 | the twenty-six extensions and no other |
| NormalizeUrl.QueryCanonicalIff | lib/sitemap/normalize.ts:87-91 | the sorted query depends only on each key's own sequence of values (URLSearchParams sort, section 6.2 of the WHATWG URL Standard) |
| NormalizeUrl.StripIff | lib/sitemap/normalize.ts:93-96 | two paths strip alike if and only if they differ in trailing slashes only |
| NormalizeUrl.IdempotentIff | lib/sitemap/normalize.ts:53-99 | a normalized URL normalizes to itself if and only if its stripped path has no asset extension; else it is rejected |
| NormalizeUrl.SlashHidesAsset | lib/sitemap/normalize.ts:80-96 | every asset path with a slash added is accepted once and rejected the next time |
| NormalizeUrl.NoiseIsDropped | lib/sitemap/normalize.ts:84-91 | fragment, tracking parameter and swapped neighbours with different keys change neither result nor rejection |
| NormalizeUrl.UrlObject.NormalizeInPlace | lib/sitemap/normalize.ts:53-99 | editing the URL object field by field gives the canonical form or the rejection |
| NormalizeUrl.UrlObject.DropTracking | lib/sitemap/normalize.ts:87-89 | deleting by key over a snapshot leaves exactly the parameters that do not track |
| Dedupe.NormalizeAndDedupe | lib/sitemap/normalize.ts:107-137 | the accepted URLs in order of first appearance, each with its newest date; duplicates and rejections counted by reason |
| Dedupe.FirstAppearancesOrder | lib/sitemap/normalize.ts:111-136 | the order of two pages is that of their first entries |
| Dedupe.EveryEntryCounts | lib/sitemap/normalize.ts:107-137 | pages, duplicates and rejections add up to the entries |
| Dedupe.LocIs | lib/sitemap/normalize.ts:53-64 | blanks around a loc do not matter; it is unparseable if and only if it or the site's own URL does not parse |
| SitemapPipeline.IngestFrom | lib/services/ingest.service.ts:43-184 | crawl, dedupe and ingest together: after a complete crawl the active pages are exactly those some reachable document lists, and no page row is lost |
| SitemapPipeline.AcceptedIsInSitemap | lib/services/ingest.service.ts:51-52 | a complete crawl accepts exactly the pages of the sitemap |
| SitemapPipeline.UnreachableRootEmptiesSite | lib/services/ingest.service.ts:170-181 | a root that cannot be fetched switches every page off |
| Grouping.RenameKeepsIff | lib/services/group.service.ts:9-32 | a rename keeps the grouping consistent if and only if the new slug is no other group's alias and, if it is empty, nothing needs the old one |
| Grouping.RenameIs | lib/services/group.service.ts:9-32 | the whole state after a rename: new name and slug, marked as made by hand, the old slug an alias if a new one was given; and when it is refused |
| Grouping.MergeRedirects | lib/services/group.service.ts:34-69 | after a merge every slug that led to a source leads to the target and every other slug leads where it led |
| Grouping.MergeIs | lib/services/group.service.ts:34-69 | groups, pages and slugs after a merge: sources gone, their pages in the target, the target marked, nothing else changed |
| Grouping.MergeKeeps | lib/services/group.service.ts:34-69 | a merge keeps the grouping consistent and loses no alias and no page |
| Grouping.MoveKeeps | scripts/verify-ingest-invariants.ts:89-92 | moving one page by hand pins that page and disturbs nothing else |
| Grouping.MoveIs | scripts/verify-ingest-invariants.ts:89-92 | only this page's group and its mark change |
| Ingest.GroupingSurvivesEdits | lib/services/group.service.ts:9-69 | over any sequence of ingests, merges, moves and safe renames: aliases lead to live groups and contradict no live slug, no alias or page disappears, every page nobody moved is where its path leads |
| Ingest.NextIngestRespectsEdits | lib/services/ingest.service.ts:71-103 | after any such sequence the next ingest moves no known page and recreates no slug that was ever aliased |
| Ingest.NoAliasIsRecreated | lib/services/ingest.service.ts:89-98 | a group is only created for a slug that is needed and not aliased |
| Ingest.IngestKeeps | lib/services/ingest.service.ts:43-184 | an ingest keeps the grouping consistent |
| Ingest.IngestIsConservative | lib/services/ingest.service.ts:11-19 | the active pages are exactly the sitemap's, at its positions; no page is removed; hand-made choices stand |
| Ingest.IngestedPageIs | lib/services/ingest.service.ts:104-168 | the whole row of a listed page: valid date or none, position, active, the group its slug leads to by alias before group unless placed by hand |
| Ingest.UnlistedPageIs | lib/services/ingest.service.ts:170-181 | the whole row of a page that is not listed: switched off, and otherwise as it was |
| Ingest.NewGroupsAre | lib/services/ingest.service.ts:89-98 | old groups stay as they are; each new one is for a needed slug that led nowhere, with the derived name and not by hand |
| Ingest.ConsistentMeansNoRegrouping | lib/services/ingest.service.ts:152-159 | where the grouping is consistent no known page changes group |
| Ingest.IngestIsIdempotent | lib/services/ingest.service.ts:43-184 | the same sitemap again changes nothing, from any state |
| IngestProgress.SummaryAddsUp | lib/services/ingest.service.ts:140-163 | created, updated and reactivated add up to discovered |
| IngestProgress.SummaryIs | lib/services/ingest.service.ts:54-66 | each counter is the number of pages, or groups, whose rows before and after differ in that way |
| IngestProgress.ConsistentRegroupsNothing | lib/services/ingest.service.ts:153-158 | a consistent site's ingest reports no regrouped page |
| IngestProgress.UpsertedSoFar | lib/services/ingest.service.ts:112-168 | after k entries each page is as the sitemap lists it or as it was |
| SiteStore.SiteTables.IngestSitemap | lib/services/ingest.service.ts:43-184 | for every batch size of at least one the rows and all counters are those of the declarative specification |
| SiteStore.SiteTables.RenameGroup | lib/services/group.service.ts:9-32 | the transaction, or nothing when the group is missing or the slug is taken |
| SiteStore.SiteTables.MergeGroups | lib/services/group.service.ts:34-69 | the loop of alias upserts, repointing and deletes gives the merged rows and both counters, or nothing when the target is missing |
| Prune.TruncateItem | lib/psi/prune.ts:82-99 | the entry-by-entry loop equals its structural specification on any JSON |
| Prune.ValueIs | lib/psi/prune.ts:85-96 | what becomes of each kind of value: strings cut after 200 units and marked, lists cut to ten, everything else kept |
| Prune.ItemIs | lib/psi/prune.ts:82-99 | what becomes of an item: objects keep their keys, lists become objects keyed by position, other values stay |
| Prune.IndexKeyIs | lib/psi/prune.ts:85-86 | the key a list element gets is its position in decimal |
| Prune.ItemIdempotent | lib/psi/prune.ts:82-99 | truncating twice is truncating once, for any JSON, even where an array became an object |
| Prune.ItemShortIff | lib/psi/prune.ts:82-99 | a truncated item has no string over the limit (200 units and the ellipsis) if and only if no longer string is an element kept of a list, or the item itself |
| Prune.AuditShortIff | lib/psi/prune.ts:123-128 | the same of the details list an audit is stored with |
| Prune.StringsInListsAreKept | lib/psi/prune.ts:89-93 | the smallest failing case: a one-element list keeps its string whole |
| Prune.PruneResponse | lib/psi/prune.ts:107-141 | deleting and reassigning on the clone gives the pruned response |
| Prune.PrunedIs | lib/psi/prune.ts:107-141 | the whole pruned response: every field but the dropped keys and audits is as it was or a pruned audit |
| Prune.PrunedAuditIs | lib/psi/prune.ts:123-128 | of an audit only the list of details changes |
| Prune.CapIs | lib/psi/prune.ts:57-73 | the fourteen audits that keep thirty items; all others keep ten |
| Prune.DroppedAre | lib/psi/prune.ts:33-41 | the four audits and five keys that go |
| Prune.PruneIdempotent | lib/psi/prune.ts:107-141 | pruning a pruned response changes nothing |
| Measurement.PruningPreservesMeasurement | lib/psi/prune.ts:107-141 | extraction from the pruned response gives the same status, scores, lab and field data, and the original sorted audits less the dropped ids |
| ResponseReading.LabIs | lib/psi/extract.ts:48-69 | each of the seven lab metrics is the numeric value of the audit of its name |
| ResponseReading.ScoresAre | lib/psi/extract.ts:28-44 | each of the four scores is the nearest percentage of the category of its name |
| ResponseReading.RuntimeErrorLeavesNothing | lib/psi/extract.ts:243-263 | failed if and only if there is a runtime error, and then no score, metric, field data or audit |
| ResponseReading.HeaderIs | lib/psi/extract.ts:265-270 | version, fetch time, and the first of the displayed, final and requested URLs |
| ResponseReading.NoResultMeasuresNothing | lib/psi/extract.ts:33-69 | a response without a Lighthouse result is no error and measures nothing but field data |
| ResponseReading.MetricsAre | lib/psi/extract.ts:74-130 | which CrUX key feeds which metric, layout shift divided by a hundred, with bucket and distribution; and when a metric is missing |
| ResponseReading.BucketsAre | lib/psi/buckets.ts:41-55 | which words make which bucket, in any case, and no others |
| ResponseReading.FieldIs | lib/psi/extract.ts:87-130 | which of the two blocks is read, and how it is labelled |
| ResponseReading.ExtractedFieldIs | lib/psi/extract.ts:264-274 | a measurement's field data are read from the page's block and the origin's, in that order |
| ResponseReading.IssueIff | lib/psi/extract.ts:135-207 | a reference is an issue if and only if its audit was scored in one of three modes, below 0.9, and counts in that category |
| ResponseReading.IssueIs | lib/psi/extract.ts:208-232 | each field of an issue, the greatest positive saving without layout shift included |
| ResponseReading.FirstReferenceIsListed | lib/psi/extract.ts:211-214 | of several references of one category to an audit the first that is a failure is listed |
| ResponseReading.AuditsCome | lib/psi/extract.ts:177-237 | every listed issue comes from a reference of the category it names |
| ResponseReading.RefsAre | lib/psi/extract.ts:186-189 | under which key each category's references are read |
| ResponseReading.WorstComesFirst | lib/psi/extract.ts:236 | greater savings first, then lower scores |
| Measurement.PrunedListsAreShort | lib/psi/prune.ts:123-128 | no list of details keeps more than thirty items, and they are the first ones, truncated |
| Measurement.OneIssuePerCategory | lib/psi/extract.ts:188-233 | a category lists an audit exactly once if one of its references to it is a failure, else not at all |
| Measurement.AuditsAreWorstFirst | lib/psi/extract.ts:236 | the list is sorted by saving and score and holds failing audits only |
| Measurement.FirstCategoryIsStored | lib/services/audit.service.ts:138-156 | of an audit listed under several categories exactly the first category's issue becomes a row, despite the sort in between |
| Measurement.ExtractedHowOften | lib/psi/extract.ts:188-237 | the extracted list has an audit as often as there are categories it fails in, so at most once if and only if no two categories fail it |
| Measurement.SharedAuditIsListedTwice | lib/psi/extract.ts:208-219 | an input: a failing scored audit that accessibility and SEO both refer to is listed twice and stored once |
| Extract.ExtractAudits | lib/psi/extract.ts:177-238 | the loops with their seen set and the in-place sort equal the specification |
| Extract.ExtractField | lib/psi/extract.ts:98-130 | the loop over the raw metrics fills exactly the usable ones |
| Extract.PageDataIsThePages | lib/psi/extract.ts:87-110 | field data is labelled as the page's if and only if the page has some that is not a fallback, and then the origin's plays no part |
| Extract.PctIsNearest | lib/psi/extract.ts:28-31 | the stored score is the nearest whole percentage, in range for a score in range, and never reorders two scores |
| Extract.MaxPositive | lib/psi/extract.ts:171-174 | the greatest positive candidate, if there is one |
| Aggregates.MeanBounds | lib/services/results.service.ts:46-50 | a mean exists if and only if something was measured, and lies within the measured range |
| Aggregates.MeanIsNearest | lib/services/results.service.ts:46-50 | the mean is sum over number of what was measured, to the nearest whole number, halves up |
| Aggregates.AggregateIs | lib/services/results.service.ts:63-71 | each score of a card is the mean of that score over the rows that measured |
| Aggregates.AggregateIgnoresErrors | lib/services/results.service.ts:63-71 | error rows do not affect the aggregate |
| Aggregates.ComputeDistribution | lib/services/results.service.ts:83-94 | the counting loop equals the counts per band |
| Aggregates.DistributionIs | lib/services/results.service.ts:83-94 | who counts as pass (90 and up), average and fail (below 50), and that the rest is unaudited |
| Aggregates.DistributionAddsUpIff | lib/services/results.service.ts:73-82 | the four counts add up to the page count if and only if no more rows are measured than there are pages |
| Aggregates.WorstOf | lib/services/results.service.ts:97-111 | a measured row no other measured row is below, if any is measured |
| Aggregates.WorstIsFirst | lib/services/results.service.ts:105 | of equals the first is reported |
| Aggregates.WorstPerformance | lib/services/results.service.ts:97-111 | the loop reports that row's score and page |
| Listing.BucketPages | lib/services/results.service.ts:220-227 | each bucket is the filter of all pages by that group, in order |
| Listing.ListGroups | lib/services/results.service.ts:181-283 | the bucketed list equals filtering the pages for each group, sorted by the comparator |
| Listing.CardIs | lib/services/results.service.ts:229-263 | each field of a card, from its group, its pages and their rows |
| Listing.LatestRowsAre | lib/services/results.service.ts:208-233 | the rows are those the pages' pointers for the strategy asked for lead to, in the order of the pages |
| Listing.CompareIs | lib/services/results.service.ts:270-281 | which of two cards comes first, key by key |
| Listing.CardAddsUp | lib/services/results.service.ts:229-263 | pass, average, fail and unaudited add up to the page count on every card |
| Listing.PageCountsAddUp | lib/services/results.service.ts:195-256 | the cards' page counts add up to the active grouped pages |
| Listing.ComparatorIsWeakOrder | lib/services/results.service.ts:270-281 | the comparator is a strict weak order for every collation |
| Listing.Earliest | lib/services/results.service.ts:243-247 | the least sitemap position of the group's pages, if any has one |
| Listing.LastAttempt | lib/services/results.service.ts:236-241 | the latest of the rows' times, error rows included |
| GroupOrder.ChosenOrderIsShown | app/actions/groups.ts:59-76 | after setting priorities for distinct slugs the list is those groups in that order, then the rest in sitemap order |
| GroupOrder.EmptyReorderIsNoReset | app/actions/groups.ts:10-41 | reordering by the empty list changes nothing; setting priorities by it clears all |
| GroupOrder.ActionsAgreeIff | app/actions/groups.ts:18-76 | the two actions agree if and only if no group outside the list has a number |
| GroupOrder.GroupTable.SetGroupPriority | app/actions/groups.ts:63-70 | clearing and then writing one by one gives each group its last position in the list, or none |
| GroupOrder.PrioritiesAre | app/actions/groups.ts:18-76 | the whole row of each group after either action: the last position in the list, or none or the old number outside it |
| GroupOrder.GroupTable.ReorderGroups | app/actions/groups.ts:22-35 | only groups in the list change |

## Left out

- AuditStore.Tables.ResumeRun: reads and then writes; it is one step here, and so are FinalizeRun, ControlRun and the guarded start, because the repository takes no lock around them and states no promise for a race between two of them.
- AuditStore.Tables.ReconcileStaleRuns: the query and its rounds follow each other on one table; what may come between them is in AuditRunProtocol, where each round is a step, but the dispatches of a round are part of it.
- AuditStore.Tables.AuditOnePage: one worker's attempts run back to back on the tables; AuditInterleaving has the steps of others between them, on its specification.
- AuditService.StepLeavesARow: nobody else is at work and the step's own last record goes through; AuditInterleaving.StepAmongLeavesARowIff drops both. A 403 whose first record fails is an attempt that throws some other error.
- AuditService.StepReportsIff: the same, and AuditInterleaving.StepAmongReportsIff is the version among others.
- AuditStore.Tables.ControlRun: pausing, draining and counting the queue itself are not part of this model.
- RecommendationProtocol.EveryRunIsSingleFlight: the prompt, the provider and the page lookup are arbitrary inputs; a result deleted mid-generation is not modelled.
- LimiterDrain.AcquireAll: exact sleeps, one clock reading per turn and no new arrivals; aborting a wait is left out.
- Crawl.Crawler.CrawlFrom: siblings are fetched one after another (concurrency 1). With more, documents in flight are not yet counted, so the budget can be overrun by them.
- Crawl.LimitsAreEnough: fetching and XML parsing are an arbitrary function from URL to document.
- NormalizeUrl.CanonicalIff: URLs are their parsed components, and the parser is an arbitrary function; two hrefs are taken to be equal when their components are.
- NormalizeUrl.QueryCanonicalIff: keys are compared by code point, the standard compares code units; they differ for characters outside the basic plane.
- Grouping.RenameKeepsIff: one site; slugs of aliases are unique across sites in the schema, so two sites of a tenant can get in each other's way.
- SiteStore.SiteTables.IngestSitemap: the dry run and a crash between two batches are left out; new ids are counted up instead of drawn.
- Ingest.IngestIsIdempotent: deriveGroup and date parsing are arbitrary functions.
- Prune.ItemIdempotent: an entry named `__proto__`, which would set a prototype, is not modelled; strings are sequences of UTF-16 units.
- Prune.PruneResponse: the byte statistics are left out; nothing decides on them.
- Extract.ExtractAudits: scores and savings are real numbers, without rounding or NaN; keys inherited from Object.prototype are left out.
- Extract.ExtractField: categories are upper-cased for ASCII letters only.
- Listing.ListGroups: result rows are looked up by id; the dates are numbers; the tenant is one site.
- LoginLimiter.MemoryRateLimitStore.RecordHit: the key is any string; the prefix for the address is left out.
- HTTP, D1, SMTP, Slack, Google and Anthropic clients, encryption and sessions: foreign calls.
- Components, pages, charts and the tour: user interface.
- Authorization, tenants, accounts and invitations: guards of one query each.
- Cron phrases: their validity is decided by a library, and the round trip is over a finite set of phrases.
- Retention and the tenant client cache: one query by date, and a cache whose bound interleaved awaits break by design.
- Regression rules, formatting, estimates and badges: each is read off from one branch and keeps no state.
