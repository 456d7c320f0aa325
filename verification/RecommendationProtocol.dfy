/**
 * Any number of concurrent requests over one audit result: each reads, claims, generates and
 * publishes at its own pace, and may die at any point (lib/services/recommendation.service.ts).
 */
module RecommendationProtocol {
  import opened Sequences
  import opened AiSection
  import opened Recommendations

  type Caller = nat

  /** Where a request is. One that died leaves no trace here, only its rows. */
  datatype Phase =
    | Looked(seen: nat)
    | Live(version: nat)

  datatype State = State(now: int, rows: Table, report: string, callers: map<Caller, Phase>)

  datatype Step =
    | Tick(ms: nat)
    | LookStep(who: Caller, force: bool)
    | ClaimStep(who: Caller)
    | PublishStep(who: Caller, content: string)
    | ReleaseStep(who: Caller)
    | Crash(who: Caller)

  function Next(s: State, step: Step): State {
    match step
    case Tick(ms) => s.(now := s.now + ms)
    case LookStep(who, force) =>
      if who in s.callers then s
      else
        (match LookAt(s.rows, s.now, force)
         case Proceed(seen, _) => s.(callers := s.callers[who := Looked(seen)])
         case _ => s)
    case ClaimStep(who) =>
      if who !in s.callers || !s.callers[who].Looked? then s
      else
        var version := s.callers[who].seen + 1;
        if version in s.rows then s.(callers := s.callers - {who})
        else s.(rows := Claimed(s.rows, version, s.now), callers := s.callers[who := Live(version)])
    case PublishStep(who, content) =>
      if who !in s.callers || !s.callers[who].Live? || content == "" then s
      else
        var version := s.callers[who].version;
        if version !in s.rows then s.(callers := s.callers - {who})
        else State(s.now, Published(s.rows, version, content),
                   UpsertAiSection(s.report, content), s.callers - {who})
    case ReleaseStep(who) =>
      if who !in s.callers || !s.callers[who].Live? then s
      else s.(rows := Released(s.rows, s.callers[who].version), callers := s.callers - {who})
    case Crash(who) => s.(callers := s.callers - {who})
  }

  /** The run's states after each step. */
  function Run(s: State, steps: seq<Step>): State
    decreases |steps|
  {
    if |steps| == 0 then s else Run(Next(s, steps[0]), steps[1..])
  }

  ghost predicate IsLive(s: State, who: Caller) {
    who in s.callers && s.callers[who].Live?
  }

  ghost predicate HasLooked(s: State, who: Caller) {
    who in s.callers && s.callers[who].Looked?
  }

  ghost predicate NobodyGoesStale(s: State, ms: nat) {
    forall who :: IsLive(s, who) && s.callers[who].version in s.rows ==>
      s.now + ms - s.rows[s.callers[who].version].startedAt < STALE_GENERATING_MS
  }

  /**
   * What the protocol relies on. A live generator ends before its claim goes stale (the CLI
   * provider is killed after 120 s); and the version a request claims is the next one, or still
   * there to refuse it (ShortLagIsInTime says when).
   */
  ghost predicate InTime(s: State, step: Step) {
    match step
    case Tick(ms) => NobodyGoesStale(s, ms)
    case ClaimStep(who) =>
      HasLooked(s, who) ==> s.callers[who].seen == Top(s.rows.Keys) || s.callers[who].seen + 1 in s.rows
    case _ => true
  }

  ghost predicate AllInTime(s: State, steps: seq<Step>)
    decreases |steps|
  {
    |steps| == 0 || (InTime(s, steps[0]) && AllInTime(Next(s, steps[0]), steps[1..]))
  }

  /** What the report relies on besides: no answer smuggles an end sentinel into it. */
  ghost predicate AllClosable(steps: seq<Step>) {
    |steps| == 0 || ((steps[0].PublishStep? ==> Closable(steps[0].content)) && AllClosable(steps[1..]))
  }

  // -------------------------------------------------------------------------------------------
  // What every reachable state satisfies
  // -------------------------------------------------------------------------------------------

  /** The stored versions are consecutive, and the KEEP_VERSIONS newest ever claimed are all there. */
  ghost predicate Contiguous(rows: Table) {
    && 0 !in rows
    && (forall u, v :: u in rows && u <= v <= Top(rows.Keys) ==> v in rows)
    && (forall v :: 0 < v <= Top(rows.Keys) < v + KEEP_VERSIONS ==> v in rows)
  }

  /** Every live generator holds the newest version and a claim that is still fresh. */
  ghost predicate LiveIsNewest(s: State) {
    forall who :: IsLive(s, who) ==>
      var v := s.callers[who].version;
      && v == Top(s.rows.Keys) && v in s.rows && s.rows[v].status == Generating
      && s.now - s.rows[v].startedAt < STALE_GENERATING_MS
  }

  ghost predicate SingleFlight(s: State) {
    forall a, b :: IsLive(s, a) && IsLive(s, b) ==> a == b
  }

  /** A snapshot is of a version whose generation is over. */
  ghost predicate SnapshotsAreSettled(s: State) {
    && (forall who :: HasLooked(s, who) ==> s.callers[who].seen <= Top(s.rows.Keys))
    && (forall who, g :: HasLooked(s, who) && IsLive(s, g) ==> s.callers[who].seen < s.callers[g].version)
  }

  ghost predicate NewestComplete(rows: Table, v: nat) {
    v in rows && rows[v].status == Complete && forall w :: w in rows && w > v ==> rows[w].status != Complete
  }

  /** The report shows the newest complete answer. */
  ghost predicate ReportInStep(s: State) {
    && WellFormed(s.report)
    && forall v :: NewestComplete(s.rows, v) ==>
         ExtractAiSection(s.report) == Readable(Sanitize(s.rows[v].content))
  }

  ghost predicate Inv(s: State) {
    Contiguous(s.rows) && LiveIsNewest(s) && SingleFlight(s) && SnapshotsAreSettled(s)
  }

  /** A request that goes away takes nothing with it. */
  lemma LeavingKeepsInv(s: State, who: Caller)
    requires Inv(s)
    ensures Inv(s.(callers := s.callers - {who}))
  {
    var t := s.(callers := s.callers - {who});
    forall g | IsLive(t, g) ensures IsLive(s, g) && t.callers[g] == s.callers[g] {
    }
    forall g | HasLooked(t, g) ensures HasLooked(s, g) && t.callers[g] == s.callers[g] {
    }
  }

  /** A request that claims just above the newest version finds nobody live. */
  lemma ClaimIsNext(s: State, who: Caller)
    requires LiveIsNewest(s) && SnapshotsAreSettled(s)
    requires HasLooked(s, who) && s.callers[who].seen == Top(s.rows.Keys)
    ensures forall g :: !IsLive(s, g)
  {
  }

  lemma NextRowIsTop(rows: Table, row: Row)
    requires Contiguous(rows)
    ensures var v := Top(rows.Keys) + 1;
      Top(rows[v := row].Keys) == v && Contiguous(rows[v := row])
  {
    var v := Top(rows.Keys) + 1;
    assert rows[v := row].Keys == rows.Keys + {v};
  }

  lemma ClaimKeepsInv(s: State, who: Caller)
    requires Inv(s) && HasLooked(s, who)
    requires s.callers[who].seen == Top(s.rows.Keys) && s.callers[who].seen + 1 !in s.rows
    ensures Inv(Next(s, ClaimStep(who)))
  {
    ClaimIsNext(s, who);
    var v := Top(s.rows.Keys) + 1;
    var row := Row(Generating, "", s.now);
    var t := Next(s, ClaimStep(who));
    assert t == s.(rows := s.rows[v := row], callers := s.callers[who := Live(v)]);
    NextRowIsTop(s.rows, row);
    forall g | IsLive(t, g) ensures g == who {
      assert g != who ==> IsLive(s, g);
    }
    forall g | HasLooked(t, g) ensures t.callers[g].seen < v {
      assert HasLooked(s, g);
    }
  }

  lemma PublishKeepsInv(s: State, who: Caller, content: string)
    requires Inv(s) && IsLive(s, who)
    ensures s.callers[who].version in s.rows
    ensures Inv(State(s.now, Published(s.rows, s.callers[who].version, content),
                      UpsertAiSection(s.report, content), s.callers - {who}))
  {
    var v := s.callers[who].version;
    var t := State(s.now, Published(s.rows, v, content), UpsertAiSection(s.report, content), s.callers - {who});
    var done := s.rows[v := s.rows[v].(status := Complete, content := content)];
    assert done.Keys == s.rows.Keys;
    TrimKeepsRun(done);
    PublishKeepsTop(s.rows, v, content);
    forall g ensures !IsLive(t, g) {
      assert IsLive(t, g) ==> IsLive(s, g);
    }
    forall g | HasLooked(t, g) ensures t.callers[g].seen <= Top(t.rows.Keys) {
      assert HasLooked(s, g);
    }
  }

  /** Trimming a run of consecutive versions leaves a run. */
  lemma TrimKeepsRun(rows: Table)
    requires Contiguous(rows)
    ensures Contiguous(KeepNewest(rows))
    ensures Top(KeepNewest(rows).Keys) == Top(rows.Keys)
  {
    var top, kept := Top(rows.Keys), KeepNewest(rows);
    assert Newer(rows, top) == {};
    assert rows != map[] ==> top in kept;
    assert kept.Keys <= rows.Keys;
    forall u, v | u in kept && u <= v <= top ensures v in kept {
      assert v in rows;
      assert Newer(rows, v) <= Newer(rows, u);
      SubsetSize(Newer(rows, v), Newer(rows, u));
    }
    forall v | 0 < v <= top < v + KEEP_VERSIONS ensures v in kept {
      assert v in rows;
      NewerBound(rows, v, top);
    }
  }

  lemma {:induction false} NewerBound(rows: Table, v: nat, top: nat)
    requires v <= top && forall w :: w in rows ==> w <= top
    ensures |Newer(rows, v)| <= top - v
    decreases top - v
  {
    if v == top {
      assert Newer(rows, v) == {};
    } else {
      NewerBound(rows, v + 1, top);
      assert Newer(rows, v) <= Newer(rows, v + 1) + {v + 1};
      SubsetSize(Newer(rows, v), Newer(rows, v + 1) + {v + 1});
    }
  }

  lemma ReleaseKeepsInv(s: State, who: Caller)
    requires Inv(s) && IsLive(s, who)
    ensures Inv(s.(rows := Released(s.rows, s.callers[who].version), callers := s.callers - {who}))
  {
    var v := s.callers[who].version;
    var row := s.rows[v].(status := Failed);
    var t := s.(rows := s.rows[v := row], callers := s.callers - {who});
    assert t.rows.Keys == s.rows.Keys;
    forall g ensures !IsLive(t, g) {
      assert IsLive(t, g) ==> IsLive(s, g);
    }
    forall g | HasLooked(t, g) ensures t.callers[g].seen <= Top(t.rows.Keys) {
      assert HasLooked(s, g);
    }
  }

  lemma TickKeepsInv(s: State, ms: nat)
    requires Inv(s) && NobodyGoesStale(s, ms)
    ensures Inv(Next(s, Tick(ms)))
  {
    var t := Next(s, Tick(ms));
    assert LiveIsNewest(t) by {
      forall g | IsLive(t, g)
        ensures t.callers[g].version in t.rows
        ensures t.now - t.rows[t.callers[g].version].startedAt < STALE_GENERATING_MS
      {
        assert IsLive(s, g);
      }
    }
    assert forall g :: IsLive(t, g) == IsLive(s, g);
    assert forall g :: HasLooked(t, g) == HasLooked(s, g);
  }

  lemma LookStepKeepsInv(s: State, who: Caller, force: bool)
    requires Inv(s)
    ensures Inv(Next(s, LookStep(who, force)))
  {
  }

  lemma ClaimStepKeepsInv(s: State, who: Caller)
    requires Inv(s) && InTime(s, ClaimStep(who))
    ensures Inv(Next(s, ClaimStep(who)))
  {
    if HasLooked(s, who) {
      if s.callers[who].seen + 1 in s.rows {
        LeavingKeepsInv(s, who);
        assert Next(s, ClaimStep(who)) == s.(callers := s.callers - {who});
      } else {
        ClaimKeepsInv(s, who);
      }
    }
  }

  /** A request whose snapshot lags by at most KEEP_VERSIONS versions claims in time. */
  lemma ShortLagIsInTime(s: State, who: Caller)
    requires Inv(s)
    requires HasLooked(s, who) ==> Top(s.rows.Keys) - s.callers[who].seen <= KEEP_VERSIONS
    ensures InTime(s, ClaimStep(who))
  {
  }

  lemma LateClaimBreaksInv(s: State, who: Caller)
    requires Inv(s) && HasLooked(s, who) && !InTime(s, ClaimStep(who))
    ensures !LiveIsNewest(Next(s, ClaimStep(who)))
  {
    var t := Next(s, ClaimStep(who));
    var v := s.callers[who].seen + 1;
    assert t.rows.Keys == s.rows.Keys + {v};
    assert IsLive(t, who) && t.callers[who].version == v;
    assert Top(s.rows.Keys) in t.rows && v < Top(s.rows.Keys);
  }

  /** The timing of claims is exact: one keeps the invariant just when it is in time. */
  lemma ClaimKeepsInvIff(s: State, who: Caller)
    requires Inv(s)
    ensures Inv(Next(s, ClaimStep(who))) <==> InTime(s, ClaimStep(who))
  {
    if InTime(s, ClaimStep(who)) {
      ClaimStepKeepsInv(s, who);
    } else {
      LateClaimBreaksInv(s, who);
    }
  }

  lemma StaleTickBreaksInv(s: State, ms: nat)
    requires !NobodyGoesStale(s, ms)
    ensures !LiveIsNewest(Next(s, Tick(ms)))
  {
    var who :| IsLive(s, who) && s.callers[who].version in s.rows
      && s.now + ms - s.rows[s.callers[who].version].startedAt >= STALE_GENERATING_MS;
    assert IsLive(Next(s, Tick(ms)), who);
  }

  /** And so is that of generators: time may pass just when no live claim goes stale. */
  lemma TickKeepsInvIff(s: State, ms: nat)
    requires Inv(s)
    ensures Inv(Next(s, Tick(ms))) <==> NobodyGoesStale(s, ms)
  {
    if NobodyGoesStale(s, ms) {
      TickKeepsInv(s, ms);
    } else {
      StaleTickBreaksInv(s, ms);
    }
  }

  lemma PublishStepKeepsInv(s: State, who: Caller, content: string)
    requires Inv(s)
    ensures Inv(Next(s, PublishStep(who, content)))
  {
    if IsLive(s, who) && content != "" {
      PublishKeepsInv(s, who, content);
    }
  }

  lemma ReleaseStepKeepsInv(s: State, who: Caller)
    requires Inv(s)
    ensures Inv(Next(s, ReleaseStep(who)))
  {
    if IsLive(s, who) {
      ReleaseKeepsInv(s, who);
    }
  }

  lemma StepKeepsInv(s: State, step: Step)
    requires Inv(s) && InTime(s, step)
    ensures Inv(Next(s, step))
  {
    match step
    case Tick(ms) => TickKeepsInv(s, ms);
    case LookStep(who, force) => LookStepKeepsInv(s, who, force);
    case ClaimStep(who) => ClaimStepKeepsInv(s, who);
    case PublishStep(who, content) => PublishStepKeepsInv(s, who, content);
    case ReleaseStep(who) => ReleaseStepKeepsInv(s, who);
    case Crash(who) => LeavingKeepsInv(s, who);
  }

  /** The two timing hypotheses, and nothing else, decide whether a step keeps the invariant. */
  lemma StepKeepsInvIff(s: State, step: Step)
    requires Inv(s)
    ensures Inv(Next(s, step)) <==> InTime(s, step)
  {
    match step
    case Tick(ms) => TickKeepsInvIff(s, ms);
    case ClaimStep(who) => ClaimKeepsInvIff(s, who);
    case _ => StepKeepsInv(s, step);
  }

  // The report

  lemma AddedRowIsNotComplete(rows: Table, v: nat, row: Row)
    requires v !in rows && row.status != Complete
    ensures forall w: nat :: NewestComplete(rows[v := row], w) ==>
      NewestComplete(rows, w) && rows[v := row][w] == rows[w]
  {
  }

  lemma FailedRowWasNotComplete(rows: Table, v: nat, row: Row)
    requires v in rows && rows[v].status != Complete && row.status != Complete
    ensures forall w: nat :: NewestComplete(rows[v := row], w) ==>
      NewestComplete(rows, w) && rows[v := row][w] == rows[w]
  {
  }

  lemma PublishKeepsReport(s: State, who: Caller, content: string)
    requires Inv(s) && ReportInStep(s) && IsLive(s, who) && Closable(content)
    ensures s.callers[who].version in s.rows
    ensures ReportInStep(State(s.now, Published(s.rows, s.callers[who].version, content),
                               UpsertAiSection(s.report, content), s.callers - {who}))
  {
    var v := s.callers[who].version;
    ExtractAfterUpsert(s.report, content);
    OutsideIsUntouched(s.report, content);
    PublishKeepsTop(s.rows, v, content);
    OnlyNewest(Published(s.rows, v, content), v);
  }

  lemma OnlyNewest(rows: Table, v: nat)
    requires v == Top(rows.Keys) && v in rows && rows[v].status == Complete
    ensures forall w: nat :: NewestComplete(rows, w) ==> w == v
  {
  }

  /** With the same report, a state whose complete answers are old ones is in step if the old one was. */
  lemma SameReport(s: State, t: State)
    requires ReportInStep(s) && t.report == s.report
    requires forall w: nat :: NewestComplete(t.rows, w) ==> NewestComplete(s.rows, w) && t.rows[w] == s.rows[w]
    ensures ReportInStep(t)
  {
  }

  lemma ClaimStepKeepsReport(s: State, who: Caller)
    requires ReportInStep(s)
    ensures ReportInStep(Next(s, ClaimStep(who)))
  {
    if HasLooked(s, who) && s.callers[who].seen + 1 !in s.rows {
      AddedRowIsNotComplete(s.rows, s.callers[who].seen + 1, Row(Generating, "", s.now));
    }
    SameReport(s, Next(s, ClaimStep(who)));
  }

  lemma PublishStepKeepsReport(s: State, who: Caller, content: string)
    requires Inv(s) && ReportInStep(s) && Closable(content)
    ensures ReportInStep(Next(s, PublishStep(who, content)))
  {
    if IsLive(s, who) && content != "" {
      PublishKeepsReport(s, who, content);
    }
  }

  lemma ReleaseStepKeepsReport(s: State, who: Caller)
    requires Inv(s) && ReportInStep(s)
    ensures ReportInStep(Next(s, ReleaseStep(who)))
  {
    if IsLive(s, who) {
      var v := s.callers[who].version;
      FailedRowWasNotComplete(s.rows, v, s.rows[v].(status := Failed));
    }
    SameReport(s, Next(s, ReleaseStep(who)));
  }

  lemma StepKeepsReport(s: State, step: Step)
    requires Inv(s) && ReportInStep(s) && (step.PublishStep? ==> Closable(step.content))
    ensures ReportInStep(Next(s, step))
  {
    match step
    case Tick(_) =>
    case LookStep(_, _) =>
    case ClaimStep(who) => ClaimStepKeepsReport(s, who);
    case PublishStep(who, content) => PublishStepKeepsReport(s, who, content);
    case ReleaseStep(who) => ReleaseStepKeepsReport(s, who);
    case Crash(_) =>
  }

  /**
   * Over every run of any number of requests, crashes included, whatever the answers say: one live
   * generation at most, held by the newest version, and the stored versions form one run.
   */
  lemma {:induction false} EveryRunIsSingleFlight(s: State, steps: seq<Step>)
    requires Inv(s) && AllInTime(s, steps)
    ensures Inv(Run(s, steps))
    decreases |steps|
  {
    if |steps| > 0 {
      StepKeepsInv(s, steps[0]);
      EveryRunIsSingleFlight(Next(s, steps[0]), steps[1..]);
    }
  }

  ghost predicate InvThroughout(s: State, steps: seq<Step>)
    decreases |steps|
  {
    Inv(s) && (|steps| > 0 ==> InvThroughout(Next(s, steps[0]), steps[1..]))
  }

  /** The timing is exact over whole runs: every state on the way is single-flight just when every step is in time. */
  lemma {:induction false} SingleFlightThroughoutIff(s: State, steps: seq<Step>)
    requires Inv(s)
    ensures InvThroughout(s, steps) <==> AllInTime(s, steps)
    decreases |steps|
  {
    if |steps| > 0 {
      StepKeepsInvIff(s, steps[0]);
      if InTime(s, steps[0]) {
        SingleFlightThroughoutIff(Next(s, steps[0]), steps[1..]);
      }
    }
  }

  /** And if no answer holds an end sentinel, the report shows the newest complete answer throughout. */
  lemma {:induction false} EveryRunKeepsReport(s: State, steps: seq<Step>)
    requires Inv(s) && ReportInStep(s) && AllInTime(s, steps) && AllClosable(steps)
    ensures ReportInStep(Run(s, steps))
    decreases |steps|
  {
    if |steps| > 0 {
      StepKeepsInv(s, steps[0]);
      StepKeepsReport(s, steps[0]);
      EveryRunKeepsReport(Next(s, steps[0]), steps[1..]);
    }
  }

  lemma PublishedIsNewest(rows: Table, v: nat, content: string)
    requires v in rows && v == Top(rows.Keys)
    ensures NewestComplete(Published(rows, v, content), v) && Published(rows, v, content)[v].content == content
  {
    PublishKeepsTop(rows, v, content);
  }

  /** An answer with an end sentinel is not what a reader of the report gets. */
  lemma PublishBreaksReport(s: State, v: nat, content: string, callers: map<Caller, Phase>)
    requires WellFormed(s.report) && !Closable(content) && v in s.rows && v == Top(s.rows.Keys)
    ensures !ReportInStep(State(s.now, Published(s.rows, v, content), UpsertAiSection(s.report, content), callers))
  {
    ExtractAfterUpsert(s.report, content);
    PublishedIsNewest(s.rows, v, content);
  }

  lemma PublishIs(s: State, who: Caller, content: string)
    requires Inv(s) && IsLive(s, who) && content != ""
    ensures var v := s.callers[who].version;
      && v in s.rows && v == Top(s.rows.Keys)
      && Next(s, PublishStep(who, content))
         == State(s.now, Published(s.rows, v, content), UpsertAiSection(s.report, content), s.callers - {who})
  {
  }

  /** The condition on answers is exact: publishing one keeps the report in step just when it can close its block. */
  lemma PublishKeepsReportIff(s: State, who: Caller, content: string)
    requires Inv(s) && ReportInStep(s) && IsLive(s, who) && content != ""
    ensures ReportInStep(Next(s, PublishStep(who, content))) <==> Closable(content)
  {
    PublishIs(s, who, content);
    if Closable(content) {
      PublishKeepsReport(s, who, content);
    } else {
      PublishBreaksReport(s, s.callers[who].version, content, s.callers - {who});
    }
  }

  /** A result nobody asked about yet, with the report the audit wrote. */
  lemma FreshResultIsFine(now: int, report: string)
    requires WellFormed(report)
    ensures var s := State(now, map[], report, map[]); Inv(s) && ReportInStep(s)
  {
  }

  /** The newest version never goes back, whatever the timing: no hypothesis is needed. */
  lemma {:induction false} TopNeverDecreases(s: State, steps: seq<Step>)
    ensures Top(s.rows.Keys) <= Top(Run(s, steps).rows.Keys)
    decreases |steps|
  {
    if |steps| > 0 {
      var t := Next(s, steps[0]);
      assert Top(s.rows.Keys) <= Top(t.rows.Keys) by {
        match steps[0]
        case PublishStep(who, content) =>
          if IsLive(s, who) && s.callers[who].version in s.rows {
            PublishKeepsTop(s.rows, s.callers[who].version, content);
          }
        case _ =>
          assert s.rows.Keys <= t.rows.Keys;
      }
      TopNeverDecreases(t, steps[1..]);
    }
  }

  // -------------------------------------------------------------------------------------------
  // One request among the others
  // -------------------------------------------------------------------------------------------

  /**
   * A request that looks goes on to claim, with the newest version as its snapshot, unless that row is a
   * complete answer it may use, or is being generated and less than three minutes old.
   */
  lemma LookStepIs(s: State, who: Caller, force: bool)
    requires who !in s.callers
    ensures var top := Top(s.rows.Keys);
      var cached := !force && top in s.rows && s.rows[top].status == Complete && s.rows[top].content != "";
      var busy := top in s.rows && s.rows[top].status == Generating && s.now - s.rows[top].startedAt < 180_000;
      Next(s, LookStep(who, force))
      == if cached || busy then s else State(s.now, s.rows, s.report, s.callers[who := Looked(top)])
  {
  }

  /**
   * The model is shown the newest complete answer, or none if there is none, exactly when no failed or
   * abandoned attempt came after it: an answer below the newest row is never looked for.
   */
  lemma ShownIsNewestCompleteIff(rows: Table, now: int, force: bool, v: nat)
    requires NewestComplete(rows, v) && LookAt(rows, now, force).Proceed?
    ensures LookAt(rows, now, force).previous == Some(rows[v].content) <==> v == Top(rows.Keys)
  {
  }

  /** The claim of a request that nobody comes before leaves a fresh row, and the request live. */
  lemma ClaimedAlone(s: State, who: Caller, force: bool)
    requires who !in s.callers && Next(s, LookStep(who, force)) != s
    ensures var v := Top(s.rows.Keys) + 1;
      Next(Next(s, LookStep(who, force)), ClaimStep(who))
      == State(s.now, s.rows[v := Row(Generating, "", s.now)], s.report, s.callers[who := Live(v)])
  {
    LookStepIs(s, who, force);
    var t := Next(s, LookStep(who, force));
    assert t.callers[who := Live(t.callers[who].seen + 1)] == s.callers[who := Live(t.callers[who].seen + 1)];
  }

  /**
   * How a generation ends: with an answer, its row is complete, the report shows it, and the history is
   * trimmed; with a failure its row is failed; with a crash its row is left as the claim made it.
   */
  lemma GenerationEnds(s: State, who: Caller, content: string)
    requires IsLive(s, who) && s.callers[who].version in s.rows
    ensures var v := s.callers[who].version;
      && (content != "" ==>
            Next(s, PublishStep(who, content))
            == State(s.now, Published(s.rows, v, content), UpsertAiSection(s.report, content), s.callers - {who}))
      && Next(s, ReleaseStep(who))
         == State(s.now, s.rows[v := s.rows[v].(status := Failed)], s.report, s.callers - {who})
      && Next(s, Crash(who)) == State(s.now, s.rows, s.report, s.callers - {who})
  {
  }

  /** After each publish at most KEEP_VERSIONS rows remain, whatever the history. */
  lemma PublishBoundsHistory(s: State, who: Caller, content: string)
    requires IsLive(s, who) && content != "" && s.callers[who].version in s.rows
    ensures |Next(s, PublishStep(who, content)).rows| <= KEEP_VERSIONS
  {
    var v := s.callers[who].version;
    TrimBound(s.rows[v := s.rows[v].(status := Complete, content := content)]);
  }

  // -------------------------------------------------------------------------------------------
  // Why the two timing hypotheses are there
  // -------------------------------------------------------------------------------------------

  /** A generator that outlives STALE_GENERATING_MS is joined by a second one. */
  lemma SlowGeneratorIsJoined(s: State, slow: Caller, second: Caller, ms: nat)
    requires Inv(s) && IsLive(s, slow) && second !in s.callers
    requires s.now + ms - s.rows[s.callers[slow].version].startedAt >= STALE_GENERATING_MS
    ensures var t := Run(s, [Tick(ms), LookStep(second, false), ClaimStep(second)]);
      IsLive(t, slow) && IsLive(t, second) && !SingleFlight(t)
  {
    var s1 := Next(s, Tick(ms));
    var s2 := Next(s1, LookStep(second, false));
    assert s2.callers[second] == Looked(Top(s.rows.Keys));
    var s3 := Next(s2, ClaimStep(second));
    RunThree(s, Tick(ms), LookStep(second, false), ClaimStep(second));
    assert slow != second && IsLive(s3, slow) && IsLive(s3, second);
  }

  lemma RunThree(s: State, a: Step, b: Step, c: Step)
    ensures Run(s, [a, b, c]) == Next(Next(Next(s, a), b), c)
  {
    var s1, s2 := Next(s, a), Next(Next(s, a), b);
    assert [a, b, c][1..] == [b, c] && [b, c][1..] == [c] && [c][1..] == [];
    assert Run(s2, [c]) == Run(Next(s2, c), []);
    assert Run(s1, [b, c]) == Run(s2, [c]);
  }

  /** A snapshot older than the trimmed history re-inserts a version that was already dropped. */
  lemma LaggingSnapshotResurrects(s: State, who: Caller)
    requires Inv(s) && HasLooked(s, who)
    requires forall v :: v in s.rows ==> s.callers[who].seen + 1 < v
    requires s.rows != map[]
    ensures IsLive(Next(s, ClaimStep(who)), who)
    ensures Next(s, ClaimStep(who)).callers[who].version < Top(Next(s, ClaimStep(who)).rows.Keys)
    ensures !LiveIsNewest(Next(s, ClaimStep(who)))
  {
    var t := Next(s, ClaimStep(who));
    assert t.rows.Keys == s.rows.Keys + {s.callers[who].seen + 1};
    assert IsLive(t, who);
    assert Top(s.rows.Keys) in t.rows;
  }
}
