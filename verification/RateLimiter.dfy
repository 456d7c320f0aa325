/**
 * The fixed-window limiter in front of PageSpeed Insights (lib/psi/rateLimiter.ts). One bucket row
 * is shared by every caller. A caller reads its clock before its upsert commits, so the windows of a
 * trace, which is in commit order, need not be monotone.
 */
module RateLimiter {
  import opened Sequences
  import opened Arithmetic

  type Millis = nat

  datatype Bucket = Bucket(windowStart: Millis, count: nat)

  function WindowStart(now: Millis, windowMs: nat): Millis
    requires windowMs > 0
  {
    now / windowMs * windowMs
  }

  /** INSERT ... ON CONFLICT DO UPDATE. */
  function Upsert(row: Option<Bucket>, windowStart: Millis): Bucket {
    if row.Some? && row.value.windowStart == windowStart then Bucket(windowStart, row.value.count + 1)
    else Bucket(windowStart, 1)
  }

  class PsiRateLimiter {
    const max: nat
    const windowMs: nat
    var row: Option<Bucket>

    constructor (max: nat, windowMs: nat, row: Option<Bucket>)
      ensures this.max == max && this.windowMs == windowMs && this.row == row
    {
      this.max, this.windowMs, this.row := max, windowMs, row;
    }

    method TryAcquire(now: Millis) returns (ok: bool)
      requires windowMs > 0
      modifies this
      ensures row == Some(Upsert(old(row), WindowStart(now, windowMs)))
      ensures ok <==> Used(old(row), WindowStart(now, windowMs)) < max
      ensures var start := now / windowMs * windowMs;
        var used := if old(row).Some? && old(row).value.windowStart == start then old(row).value.count else 0;
        row == Some(Bucket(start, used + 1)) && (ok <==> used < max)
    {
      var windowStart := WindowStart(now, windowMs);
      if row.Some? && row.value.windowStart == windowStart {
        row := Some(row.value.(count := row.value.count + 1));
      } else {
        row := Some(Bucket(windowStart, 1));
      }
      ok := row.value.count <= max;
    }
  }

  /** The attempts already counted against a window. */
  function Used(row: Option<Bucket>, windowStart: Millis): nat {
    if row.Some? && row.value.windowStart == windowStart then row.value.count else 0
  }

  // -------------------------------------------------------------------------------------------
  // What a trace of upserts grants
  // -------------------------------------------------------------------------------------------

  /** Grants to the attempts of a trace of clock readings that satisfy `which`. */
  ghost function GrantsWhere(
    row: Option<Bucket>, trace: seq<Millis>, max: nat, windowMs: nat, which: Millis -> bool): nat
    requires windowMs > 0
    decreases |trace|
  {
    if |trace| == 0 then 0
    else
      var b := Upsert(row, WindowStart(trace[0], windowMs));
      (if b.count <= max && which(trace[0]) then 1 else 0) + GrantsWhere(Some(b), trace[1..], max, windowMs, which)
  }

  /** The number of leading attempts in the window that starts at `start`. */
  ghost function Streak(trace: seq<Millis>, start: Millis, windowMs: nat): nat
    requires windowMs > 0
  {
    if |trace| == 0 || WindowStart(trace[0], windowMs) != start then 0 else 1 + Streak(trace[1..], start, windowMs)
  }

  lemma {:induction false} StreakFits(trace: seq<Millis>, start: Millis, windowMs: nat)
    requires windowMs > 0
    ensures Streak(trace, start, windowMs) <= |trace|
    ensures |trace| > 0 && WindowStart(trace[0], windowMs) == start ==> Streak(trace, start, windowMs) > 0
  {
    if |trace| > 0 {
      StreakFits(trace[1..], start, windowMs);
    }
  }

  /** Whether an attempt is meant depends on its window alone. */
  ghost predicate ByWindow(which: Millis -> bool, windowMs: nat)
    requires windowMs > 0
  {
    forall s: nat, t: nat :: s / windowMs == t / windowMs ==> which(s) == which(t)
  }

  /** The lengths of those maximal runs of equal windows that are meant. */
  ghost function RunLengths(trace: seq<Millis>, windowMs: nat, which: Millis -> bool): seq<nat>
    requires windowMs > 0
    decreases |trace|
  {
    if |trace| == 0 then []
    else
      var n := Streak(trace, WindowStart(trace[0], windowMs), windowMs);
      StreakFits(trace, WindowStart(trace[0], windowMs), windowMs);
      (if which(trace[0]) then [n] else []) + RunLengths(trace[n..], windowMs, which)
  }

  /** Each run of equal windows yields its length, capped by `max`. */
  ghost function Capped(lengths: seq<nat>, max: nat): nat {
    if |lengths| == 0 then 0 else Min(lengths[0], max) + Capped(lengths[1..], max)
  }

  /** The same, where `used` permits are gone before the first run. */
  ghost function CappedAfter(used: nat, lengths: seq<nat>, max: nat): nat {
    if |lengths| == 0 then 0 else Min(lengths[0], max - Min(used, max)) + Capped(lengths[1..], max)
  }

  /** The permits the row has already given in the window of the first attempt, if that one is meant. */
  ghost function UsedBefore(row: Option<Bucket>, trace: seq<Millis>, windowMs: nat, which: Millis -> bool): nat
    requires windowMs > 0
  {
    if |trace| > 0 && which(trace[0]) then Used(row, WindowStart(trace[0], windowMs)) else 0
  }

  lemma SameWindow(s: Millis, t: Millis, windowMs: nat)
    requires windowMs > 0
    ensures WindowStart(s, windowMs) == WindowStart(t, windowMs) <==> s / windowMs == t / windowMs
  {
    StartOrder(s / windowMs, t / windowMs, windowMs);
  }

  /** One run: what it may still use, and a row in its window for whatever follows. */
  lemma {:induction false} OneRun(
    row: Option<Bucket>, trace: seq<Millis>, max: nat, windowMs: nat, first: Millis, which: Millis -> bool)
    requires windowMs > 0 && ByWindow(which, windowMs)
    ensures var start := WindowStart(first, windowMs); var n := Streak(trace, start, windowMs);
      && n <= |trace|
      && GrantsWhere(row, trace, max, windowMs, which)
         == (if which(first) then Min(n, max - Min(Used(row, start), max)) else 0)
            + GrantsWhere(
                if n == 0 then row else Some(Bucket(start, Used(row, start) + n)), trace[n..], max, windowMs, which)
    decreases |trace|
  {
    var start := WindowStart(first, windowMs);
    StreakFits(trace, start, windowMs);
    if Streak(trace, start, windowMs) > 0 {
      SameWindow(trace[0], first, windowMs);
      OneRun(Some(Upsert(row, start)), trace[1..], max, windowMs, first, which);
      var m := Streak(trace[1..], start, windowMs);
      assert trace[1..][m..] == trace[m + 1..];
    } else {
      assert trace[0..] == trace;
    }
  }

  lemma {:induction false} AfterStreak(trace: seq<Millis>, start: Millis, windowMs: nat)
    requires windowMs > 0
    ensures var n := Streak(trace, start, windowMs);
      n <= |trace| && (n < |trace| ==> WindowStart(trace[n], windowMs) != start)
  {
    if |trace| > 0 {
      AfterStreak(trace[1..], start, windowMs);
    }
  }

  /**
   * The grants are exactly the capped run lengths, the first run capped by what the row has left for
   * it: for all attempts, and for those of any one window.
   */
  lemma {:induction false} GrantsAreCappedRuns(
    row: Option<Bucket>, trace: seq<Millis>, max: nat, windowMs: nat, which: Millis -> bool)
    requires windowMs > 0 && ByWindow(which, windowMs)
    ensures GrantsWhere(row, trace, max, windowMs, which)
         == CappedAfter(UsedBefore(row, trace, windowMs, which), RunLengths(trace, windowMs, which), max)
    decreases |trace|
  {
    if |trace| > 0 {
      var start := WindowStart(trace[0], windowMs);
      var n := Streak(trace, start, windowMs);
      StreakFits(trace, start, windowMs);
      OneRun(row, trace, max, windowMs, trace[0], which);
      AfterStreak(trace, start, windowMs);
      var next, rest := Some(Bucket(start, Used(row, start) + n)), RunLengths(trace[n..], windowMs, which);
      GrantsAreCappedRuns(next, trace[n..], max, windowMs, which);
      assert UsedBefore(next, trace[n..], windowMs, which) == 0;
      FreshIsCapped(rest, max);
      if which(trace[0]) {
        assert ([n] + rest)[1..] == rest;
      } else {
        assert [] + rest == rest;
      }
    }
  }

  lemma FreshIsCapped(lengths: seq<nat>, max: nat)
    ensures CappedAfter(0, lengths, max) == Capped(lengths, max)
  {
  }

  /** A window keeps its budget exactly when its own runs, capped one by one, do: one run always does. */
  lemma WindowBudgetIff(row: Option<Bucket>, trace: seq<Millis>, max: nat, windowMs: nat, window: nat)
    requires windowMs > 0
    ensures var own := InWindow(window, windowMs);
      var runs := RunLengths(trace, windowMs, own);
      && GrantsWhere(row, trace, max, windowMs, own) == CappedAfter(UsedBefore(row, trace, windowMs, own), runs, max)
      && (GrantsWhere(row, trace, max, windowMs, own) <= max
          <==> CappedAfter(UsedBefore(row, trace, windowMs, own), runs, max) <= max)
      && (|runs| <= 1 ==> GrantsWhere(row, trace, max, windowMs, own) <= max)
  {
    GrantsAreCappedRuns(row, trace, max, windowMs, InWindow(window, windowMs));
  }

  lemma OneMore(max: nat, n: nat)
    ensures max * (n + 1) == max * n + max
  {
  }

  lemma {:induction false} CappedIsBounded(lengths: seq<nat>, max: nat)
    ensures Capped(lengths, max) <= max * |lengths|
  {
    if |lengths| > 0 {
      CappedIsBounded(lengths[1..], max);
      OneMore(max, |lengths[1..]|);
    }
  }

  lemma CappedAfterIsBounded(used: nat, lengths: seq<nat>, max: nat)
    ensures CappedAfter(used, lengths, max) <= max * |lengths|
  {
    if |lengths| > 0 {
      CappedIsBounded(lengths[1..], max);
      OneMore(max, |lengths[1..]|);
    }
  }

  const Any: Millis -> bool := _ => true

  /** With no assumption on clocks or on the row: at most `max` grants per run of equal windows. */
  lemma GrantsPerRun(row: Option<Bucket>, trace: seq<Millis>, max: nat, windowMs: nat)
    requires windowMs > 0
    ensures GrantsWhere(row, trace, max, windowMs, Any) <= max * |RunLengths(trace, windowMs, Any)|
  {
    GrantsAreCappedRuns(row, trace, max, windowMs, Any);
    CappedAfterIsBounded(UsedBefore(row, trace, windowMs, Any), RunLengths(trace, windowMs, Any), max);
  }

  // -------------------------------------------------------------------------------------------
  // Non-decreasing windows
  // -------------------------------------------------------------------------------------------

  ghost predicate NonDecreasing(trace: seq<Millis>, windowMs: nat)
    requires windowMs > 0
  {
    |trace| < 2 || (trace[0] / windowMs <= trace[1] / windowMs && NonDecreasing(trace[1..], windowMs))
  }

  function InWindow(window: nat, windowMs: nat): Millis -> bool
    requires windowMs > 0
  {
    (t: Millis) => t / windowMs == window
  }

  lemma StartOrder(a: nat, b: nat, windowMs: nat)
    requires windowMs > 0
    ensures a < b ==> a * windowMs < b * windowMs
    ensures a * windowMs == b * windowMs <==> a == b
  {
    assert (a + 1) * windowMs == a * windowMs + windowMs && (b + 1) * windowMs == b * windowMs + windowMs;
    if a < b {
      TimesOrder(a + 1, b, windowMs);
    } else if b < a {
      TimesOrder(b + 1, a, windowMs);
    }
  }

  /** Once the windows have moved past it, a window grants nothing more. */
  lemma {:induction false} PastWindowGrantsNothing(
    row: Option<Bucket>, trace: seq<Millis>, max: nat, windowMs: nat, window: nat)
    requires windowMs > 0 && NonDecreasing(trace, windowMs)
    requires |trace| > 0 ==> trace[0] / windowMs > window
    ensures GrantsWhere(row, trace, max, windowMs, InWindow(window, windowMs)) == 0
    decreases |trace|
  {
    if |trace| > 0 {
      var b := Upsert(row, WindowStart(trace[0], windowMs));
      PastWindowGrantsNothing(Some(b), trace[1..], max, windowMs, window);
    }
  }

  /** Each window grants at most `max`, and the first one only what the row has left for it. */
  lemma {:induction false} WindowBound(row: Option<Bucket>, trace: seq<Millis>, max: nat, windowMs: nat, window: nat)
    requires windowMs > 0 && NonDecreasing(trace, windowMs)
    ensures GrantsWhere(row, trace, max, windowMs, InWindow(window, windowMs)) <= max
    ensures |trace| > 0 && trace[0] / windowMs == window ==>
      GrantsWhere(row, trace, max, windowMs, InWindow(window, windowMs)) <= max - Min(Used(row, window * windowMs), max)
    decreases |trace|
  {
    if |trace| > 0 {
      var w := trace[0] / windowMs;
      var next := Some(Upsert(row, WindowStart(trace[0], windowMs)));
      if w > window {
        PastWindowGrantsNothing(row, trace, max, windowMs, window);
      } else if w == window && |trace| > 1 && trace[1] / windowMs > window {
        PastWindowGrantsNothing(next, trace[1..], max, windowMs, window);
      } else {
        WindowBound(next, trace[1..], max, windowMs, window);
      }
    }
  }

  lemma {:induction false} GrantsUnion(
    row: Option<Bucket>, trace: seq<Millis>, max: nat, windowMs: nat,
    p: Millis -> bool, q: Millis -> bool, r: Millis -> bool)
    requires windowMs > 0 && forall t: nat :: r(t) ==> p(t) || q(t)
    ensures GrantsWhere(row, trace, max, windowMs, r)
         <= GrantsWhere(row, trace, max, windowMs, p) + GrantsWhere(row, trace, max, windowMs, q)
    decreases |trace|
  {
    if |trace| > 0 {
      GrantsUnion(Some(Upsert(row, WindowStart(trace[0], windowMs))), trace[1..], max, windowMs, p, q, r);
    }
  }

  function InWindows(first: nat, n: nat, windowMs: nat): Millis -> bool
    requires windowMs > 0
  {
    (t: Millis) => first <= t / windowMs < first + n
  }

  lemma {:induction false} GrantsNowhere(
    row: Option<Bucket>, trace: seq<Millis>, max: nat, windowMs: nat, p: Millis -> bool)
    requires windowMs > 0 && forall t: nat :: !p(t)
    ensures GrantsWhere(row, trace, max, windowMs, p) == 0
    decreases |trace|
  {
    if |trace| > 0 {
      GrantsNowhere(Some(Upsert(row, WindowStart(trace[0], windowMs))), trace[1..], max, windowMs, p);
    }
  }

  lemma {:induction false} WindowsBound(
    row: Option<Bucket>, trace: seq<Millis>, max: nat, windowMs: nat, first: nat, n: nat)
    requires windowMs > 0 && NonDecreasing(trace, windowMs)
    ensures GrantsWhere(row, trace, max, windowMs, InWindows(first, n, windowMs)) <= max * n
  {
    if n == 0 {
      GrantsNowhere(row, trace, max, windowMs, InWindows(first, n, windowMs));
    } else {
      WindowsBound(row, trace, max, windowMs, first, n - 1);
      WindowBound(row, trace, max, windowMs, first + n - 1);
      GrantsUnion(row, trace, max, windowMs,
        InWindows(first, n - 1, windowMs), InWindow(first + n - 1, windowMs), InWindows(first, n, windowMs));
      assert max * n == max * (n - 1) + max;
    }
  }

  function InInterval(from: Millis, length: nat): Millis -> bool {
    (t: Millis) => from <= t <= from + length
  }

  /** An interval of length T sees at most max * (T / windowMs + 2) grants. */
  lemma IntervalBound(row: Option<Bucket>, trace: seq<Millis>, max: nat, windowMs: nat, from: Millis, length: nat)
    requires windowMs > 0 && NonDecreasing(trace, windowMs)
    ensures GrantsWhere(row, trace, max, windowMs, InInterval(from, length)) <= max * (length / windowMs + 2)
  {
    var first, n := from / windowMs, length / windowMs + 2;
    forall t: nat | InInterval(from, length)(t) ensures InWindows(first, n, windowMs)(t) {
      QuotientOrder(from, t, windowMs);
      QuotientOrder(t, from + length, windowMs);
      QuotientSum(from, length, windowMs);
    }
    WindowsBound(row, trace, max, windowMs, first, n);
    GrantsNowhere(row, trace, max, windowMs, _ => false);
    GrantsUnion(row, trace, max, windowMs, InWindows(first, n, windowMs), _ => false, InInterval(from, length));
  }

  // -------------------------------------------------------------------------------------------
  // Clocks that disagree
  // -------------------------------------------------------------------------------------------

  /** Two processes either side of a window boundary, committing in turn. */
  ghost function Flapping(n: nat, windowMs: nat): seq<Millis> {
    if n == 0 then [] else [windowMs, 0] + Flapping(n - 1, windowMs)
  }

  /** Every attempt of a flapping trace is granted, so a window can grant any number of permits. */
  lemma {:induction false} FlappingIsUnlimited(row: Option<Bucket>, n: nat, max: nat, windowMs: nat)
    requires windowMs > 0 && max > 0 && Used(row, windowMs) == 0
    ensures GrantsWhere(row, Flapping(n, windowMs), max, windowMs, InWindow(0, windowMs)) == n
    ensures GrantsWhere(row, Flapping(n, windowMs), max, windowMs, InWindow(1, windowMs)) == n
    decreases n
  {
    if n > 0 {
      var trace := Flapping(n, windowMs);
      assert windowMs / windowMs == 1 && 0 / windowMs == 0 && 1 * windowMs == windowMs;
      assert trace[1..][1..] == Flapping(n - 1, windowMs);
      FlappingIsUnlimited(Some(Bucket(0, 1)), n - 1, max, windowMs);
    }
  }
}
