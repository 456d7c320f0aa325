/**
 * Callers waiting for the limiter in front of PageSpeed Insights: the acquire loops of
 * lib/psi/rateLimiter.ts, interleaved.
 */
module LimiterDrain {
  import opened Sequences
  import opened Arithmetic
  import opened RateLimiter

  type Caller = nat

  /** When a caller denied at `now` tries again. */
  function NextAttempt(now: Millis, windowMs: nat, jitter: nat): Millis
    requires windowMs > 0
  {
    now + (windowMs - now % windowMs) + jitter
  }

  const MAX_JITTER: nat := 149

  /** A denied caller lands in the very next window, whatever its jitter, just when windows outlast the jitter. */
  lemma NextAttemptIsNextWindow(windowMs: nat)
    requires windowMs > 0
    ensures windowMs > 149 <==>
      forall now: nat, jitter: nat {:trigger NextAttempt(now, windowMs, jitter)} ::
        jitter <= 149 ==> NextAttempt(now, windowMs, jitter) / windowMs == now / windowMs + 1
  {
    if windowMs > MAX_JITTER {
      forall now: nat, jitter: nat | jitter <= MAX_JITTER
        ensures NextAttempt(now, windowMs, jitter) / windowMs == now / windowMs + 1
      {
        LandsInWindow(now, windowMs, jitter);
      }
    } else {
      LandsLater(windowMs);
    }
  }

  lemma LandsInWindow(now: Millis, windowMs: nat, jitter: nat)
    requires jitter < windowMs
    ensures NextAttempt(now, windowMs, jitter) / windowMs == now / windowMs + 1
  {
    var q := now / windowMs;
    assert now == q * windowMs + now % windowMs;
    assert (q + 1) * windowMs == q * windowMs + windowMs;
    QuotientIs(NextAttempt(now, windowMs, jitter), windowMs, q + 1);
  }

  lemma LandsLater(windowMs: nat)
    requires 0 < windowMs <= MAX_JITTER
    ensures NextAttempt(0, windowMs, MAX_JITTER) / windowMs > 0 / windowMs + 1
  {
    var a := NextAttempt(0, windowMs, MAX_JITTER);
    assert 0 % windowMs == 0 && 0 / windowMs == 0;
    assert a == windowMs + MAX_JITTER >= 2 * windowMs;
    QuotientOrder(2 * windowMs, a, windowMs);
    QuotientIs(2 * windowMs, windowMs, 2);
  }

  /**
   * Callers looping in acquire, with the time each attempts next, while the earliest of them is in
   * `window`: every permit of the windows since `first` went to one of the `total` demands.
   */
  ghost predicate Draining(
    row: Option<Bucket>, waiting: map<Caller, Millis>, max: nat, windowMs: nat, total: nat, first: nat, window: nat)
    requires windowMs > 0
  {
    && first <= window
    && |waiting| + (window - first) * max + Min(Used(row, window * windowMs), max) == total
    && (row.None? || row.value.windowStart <= window * windowMs)
    && (forall c: nat :: c in waiting ==>
          waiting[c] / windowMs == window
          || (waiting[c] / windowMs == window + 1 && Used(row, window * windowMs) >= max))
  }

  ghost predicate Earliest(waiting: map<Caller, Millis>, c: Caller) {
    c in waiting && forall d: nat :: d in waiting ==> waiting[c] <= waiting[d]
  }

  /** The turn of the caller that wakes first. */
  function Attempt(
    row: Option<Bucket>, waiting: map<Caller, Millis>, max: nat, windowMs: nat, c: Caller, jitter: nat)
    : map<Caller, Millis>
    requires windowMs > 0 && c in waiting
  {
    if Used(row, WindowStart(waiting[c], windowMs)) < max then waiting - {c}
    else waiting[c := NextAttempt(waiting[c], windowMs, jitter)]
  }

  ghost function WindowAfter(waiting: map<Caller, Millis>, windowMs: nat, window: nat, c: Caller): nat
    requires windowMs > 0 && c in waiting
  {
    if waiting[c] / windowMs == window then window else window + 1
  }

  lemma {:induction false} SomeoneIsFirst(waiting: map<Caller, Millis>)
    requires |waiting| > 0
    ensures exists c :: Earliest(waiting, c)
    decreases |waiting|
  {
    var c :| c in waiting;
    var rest := waiting - {c};
    assert waiting.Keys == rest.Keys + {c};
    if |rest| == 0 {
      assert Earliest(waiting, c);
    } else {
      SomeoneIsFirst(rest);
      var d :| Earliest(rest, d);
      assert Earliest(waiting, if waiting[c] <= waiting[d] then c else d);
    }
  }

  /** Once everyone in a window has been denied, the next window opens with all its permits. */
  lemma WindowOpens(
    row: Option<Bucket>, waiting: map<Caller, Millis>, max: nat, windowMs: nat,
    total: nat, first: nat, window: nat, c: Caller)
    requires windowMs > 0 && Draining(row, waiting, max, windowMs, total, first, window)
    requires Earliest(waiting, c)
    ensures Draining(row, waiting, max, windowMs, total, first, WindowAfter(waiting, windowMs, window, c))
    ensures waiting[c] / windowMs == WindowAfter(waiting, windowMs, window, c)
  {
    if waiting[c] / windowMs != window {
      forall d: nat | d in waiting ensures waiting[d] / windowMs == window + 1 {
        QuotientOrder(waiting[c], waiting[d], windowMs);
      }
      StartOrder(window, window + 1, windowMs);
      assert (window + 1 - first) * max == (window - first) * max + max;
    }
  }

  lemma AttemptKeepsDraining(
    row: Option<Bucket>, waiting: map<Caller, Millis>, max: nat, windowMs: nat,
    total: nat, first: nat, window: nat, c: Caller, jitter: nat)
    requires windowMs > MAX_JITTER >= jitter && Draining(row, waiting, max, windowMs, total, first, window)
    requires c in waiting && waiting[c] / windowMs == window
    ensures Draining(Some(Upsert(row, window * windowMs)), Attempt(row, waiting, max, windowMs, c, jitter),
                     max, windowMs, total, first, window)
  {
    LandsInWindow(waiting[c], windowMs, jitter);
    var start := window * windowMs;
    assert WindowStart(waiting[c], windowMs) == start;
    assert Used(Some(Upsert(row, start)), start) == Used(row, start) + 1;
    if Used(row, start) < max {
      assert (waiting - {c}).Keys == waiting.Keys - {c};
    } else {
      var later := waiting[c := NextAttempt(waiting[c], windowMs, jitter)];
      assert later.Keys == waiting.Keys;
    }
  }

  /** ceil(total / max) windows. */
  function CeilDiv(total: nat, max: nat): nat
    requires max > 0
  {
    (total + max - 1) / max
  }

  /** A permit can only be taken in one of the first ceil(total / max) windows. */
  lemma GrantIsInTime(
    row: Option<Bucket>, waiting: map<Caller, Millis>, max: nat, windowMs: nat,
    total: nat, first: nat, window: nat)
    requires windowMs > 0 && Draining(row, waiting, max, windowMs, total, first, window)
    requires |waiting| > 0 && Used(row, window * windowMs) < max
    ensures first <= window < first + CeilDiv(total, max)
  {
    var i := window - first;
    assert (i + 1) * max == i * max + max;
    QuotientIs((i + 1) * max, max, i + 1);
    QuotientOrder((i + 1) * max, total + max - 1, max);
  }

  /** The callers whose next attempt falls in the row's window: they may still be denied there. */
  ghost function StillInWindow(row: Option<Bucket>, waiting: map<Caller, Millis>, windowMs: nat): set<Caller>
    requires windowMs > 0
  {
    set c | c in waiting && row.Some? && WindowStart(waiting[c], windowMs) == row.value.windowStart
  }

  /** A denied caller leaves the window. */
  lemma DenialIsProgress(row: Option<Bucket>, waiting: map<Caller, Millis>, windowMs: nat, c: Caller, jitter: nat)
    requires windowMs > MAX_JITTER >= jitter && c in waiting
    requires row.Some? && WindowStart(waiting[c], windowMs) == row.value.windowStart
    ensures var later := waiting[c := NextAttempt(waiting[c], windowMs, jitter)];
      |later| == |waiting| && |StillInWindow(Some(Upsert(row, row.value.windowStart)), later, windowMs)|
                              < |StillInWindow(row, waiting, windowMs)|
  {
    var later := waiting[c := NextAttempt(waiting[c], windowMs, jitter)];
    assert later.Keys == waiting.Keys;
    LandsInWindow(waiting[c], windowMs, jitter);
    StartOrder(waiting[c] / windowMs, waiting[c] / windowMs + 1, windowMs);
    var before := StillInWindow(row, waiting, windowMs);
    var after := StillInWindow(Some(Upsert(row, row.value.windowStart)), later, windowMs);
    assert after == before - {c};
  }

  /** Every permit was given after its caller asked and before the window `end`. */
  ghost predicate InTime(callers: map<Caller, Millis>, acquired: map<Caller, Millis>, windowMs: nat, end: nat)
    requires windowMs > 0
  {
    forall c: nat :: c in acquired ==> c in callers && callers[c] <= acquired[c] && acquired[c] / windowMs < end
  }

  ghost predicate NoneEarlier(callers: map<Caller, Millis>, waiting: map<Caller, Millis>) {
    forall c: nat :: c in waiting ==> c in callers && callers[c] <= waiting[c]
  }

  /** One turn of the merged loops: the invariant stays, a permit is in time, a denial is progress. */
  lemma Turn(
    row: Option<Bucket>, waiting: map<Caller, Millis>, max: nat, windowMs: nat,
    total: nat, first: nat, window: nat, c: Caller, jitter: nat)
    requires windowMs > MAX_JITTER >= jitter && max > 0 && Earliest(waiting, c)
    requires Draining(row, waiting, max, windowMs, total, first, window)
    ensures var start := WindowStart(waiting[c], windowMs);
      var next, left := Some(Upsert(row, start)), Attempt(row, waiting, max, windowMs, c, jitter);
      && Draining(next, left, max, windowMs, total, first, WindowAfter(waiting, windowMs, window, c))
      && (Used(row, start) < max ==>
            |left| < |waiting| && waiting[c] / windowMs < first + CeilDiv(total, max))
      && (Used(row, start) >= max ==>
            |left| == |waiting| && waiting[c] <= left[c]
            && |StillInWindow(next, left, windowMs)| < |StillInWindow(row, waiting, windowMs)|)
  {
    var here := WindowAfter(waiting, windowMs, window, c);
    WindowOpens(row, waiting, max, windowMs, total, first, window, c);
    AttemptKeepsDraining(row, waiting, max, windowMs, total, first, here, c, jitter);
    if Used(row, here * windowMs) < max {
      GrantIsInTime(row, waiting, max, windowMs, total, first, here);
      assert (waiting - {c}).Keys == waiting.Keys - {c};
    } else {
      DenialIsProgress(row, waiting, windowMs, c, jitter);
    }
  }

  method NextToWake(waiting: map<Caller, Millis>) returns (c: Caller)
    requires |waiting| > 0
    ensures Earliest(waiting, c)
  {
    SomeoneIsFirst(waiting);
    c :| c in waiting && forall d :: d in waiting ==> waiting[c] <= waiting[d];
  }

  /** One pass through a caller's acquire loop. */
  method AttemptNow(
    limiter: PsiRateLimiter, waiting: map<Caller, Millis>, acquired: map<Caller, Millis>, c: Caller, jitter: nat)
    returns (left: map<Caller, Millis>, granted: map<Caller, Millis>)
    requires limiter.windowMs > 0 && c in waiting
    modifies limiter
    ensures limiter.row == Some(Upsert(old(limiter.row), WindowStart(waiting[c], limiter.windowMs)))
    ensures left == Attempt(old(limiter.row), waiting, limiter.max, limiter.windowMs, c, jitter)
    ensures granted == if c in left then acquired else acquired[c := waiting[c]]
  {
    var ok := limiter.TryAcquire(waiting[c]);
    if ok {
      left, granted := waiting - {c}, acquired[c := waiting[c]];
    } else {
      left, granted := waiting[c := NextAttempt(waiting[c], limiter.windowMs, jitter)], acquired;
    }
  }

  /** The permits wanted of the windows from `first` on: those of the callers and those already gone. */
  ghost function Demand(row: Option<Bucket>, callers: map<Caller, Millis>, max: nat, windowMs: nat, first: nat): nat {
    |callers| + Min(Used(row, first * windowMs), max)
  }

  lemma DrainingStarts(row: Option<Bucket>, callers: map<Caller, Millis>, max: nat, windowMs: nat, first: nat)
    requires windowMs > 0 && forall c: nat :: c in callers ==> callers[c] / windowMs == first
    requires row.None? || row.value.windowStart <= first * windowMs
    ensures Draining(row, callers, max, windowMs, Demand(row, callers, max, windowMs, first), first, first)
  {
  }

  /** The bookkeeping of one turn. */
  lemma TurnAccounts(
    callers: map<Caller, Millis>, waiting: map<Caller, Millis>, acquired: map<Caller, Millis>,
    c: Caller, left: map<Caller, Millis>, windowMs: nat, end: nat)
    requires windowMs > 0 && c in waiting && InTime(callers, acquired, windowMs, end)
    requires waiting.Keys !! acquired.Keys && waiting.Keys + acquired.Keys == callers.Keys
    requires NoneEarlier(callers, waiting)
    requires left == waiting - {c} || (c in left && left == waiting[c := left[c]] && waiting[c] <= left[c])
    requires c !in left ==> waiting[c] / windowMs < end
    ensures var granted := if c in left then acquired else acquired[c := waiting[c]];
      && left.Keys !! granted.Keys && left.Keys + granted.Keys == callers.Keys
      && NoneEarlier(callers, left) && InTime(callers, granted, windowMs, end)
  {
  }

  /**
   * The acquire loops of a number of callers, interleaved: whoever wakes first attempts next. Their
   * first attempts fall in window `first`, where some permits may be gone already, and nobody else
   * arrives. All of them get through, in as few windows as their number allows.
   */
  method AcquireAll(limiter: PsiRateLimiter, callers: map<Caller, Millis>, ghost first: nat)
    returns (acquired: map<Caller, Millis>)
    requires limiter.max > 0 && limiter.windowMs > MAX_JITTER
    requires forall c: nat :: c in callers ==> callers[c] / limiter.windowMs == first
    requires limiter.row.None? || limiter.row.value.windowStart <= first * limiter.windowMs
    modifies limiter
    ensures acquired.Keys == callers.Keys
    ensures InTime(callers, acquired, limiter.windowMs,
      first + CeilDiv(Demand(old(limiter.row), callers, limiter.max, limiter.windowMs, first), limiter.max))
  {
    var waiting := callers;
    acquired := map[];
    ghost var total := Demand(limiter.row, callers, limiter.max, limiter.windowMs, first);
    ghost var end := first + CeilDiv(total, limiter.max);
    ghost var window := first;
    DrainingStarts(limiter.row, callers, limiter.max, limiter.windowMs, first);
    while |waiting| > 0
      invariant Draining(limiter.row, waiting, limiter.max, limiter.windowMs, total, first, window)
      invariant waiting.Keys !! acquired.Keys && waiting.Keys + acquired.Keys == callers.Keys
      invariant NoneEarlier(callers, waiting)
      invariant InTime(callers, acquired, limiter.windowMs, end)
      decreases |waiting|, |StillInWindow(limiter.row, waiting, limiter.windowMs)|
    {
      var c := NextToWake(waiting);
      var jitter :| 0 <= jitter <= MAX_JITTER;
      Turn(limiter.row, waiting, limiter.max, limiter.windowMs, total, first, window, c, jitter);
      window := WindowAfter(waiting, limiter.windowMs, window, c);
      ghost var left := Attempt(limiter.row, waiting, limiter.max, limiter.windowMs, c, jitter);
      TurnAccounts(callers, waiting, acquired, c, left, limiter.windowMs, end);
      waiting, acquired := AttemptNow(limiter, waiting, acquired, c, jitter);
    }
    assert waiting.Keys == {};
  }
}
