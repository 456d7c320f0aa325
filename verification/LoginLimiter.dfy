/** The in-memory limiter behind the login form (lib/auth/rate-limit.ts). */
module LoginLimiter {
  import opened Sequences
  import opened Arithmetic

  type Key = string
  type Millis = int

  type Count = n: nat | n > 0 witness 1

  datatype Window = Window(count: Count, resetAt: Millis)

  type Windows = map<Key, Window>

  datatype Hit = Hit(count: nat, ttlMs: int)

  datatype Decision = Decision(allowed: bool, remaining: nat, retryAfterMs: nat)

  function Decide(hit: Hit, max: nat): (d: Decision)
    ensures d.allowed ==> hit.count + d.remaining == max && d.retryAfterMs == 0
    ensures !d.allowed ==> hit.count > max && d.remaining == 0
    ensures !d.allowed ==> d.retryAfterMs == if hit.ttlMs >= 0 then hit.ttlMs else 0
  {
    Decision(hit.count <= max,
             if hit.count <= max then max - hit.count else 0,
             if hit.count <= max || hit.ttlMs < 0 then 0 else hit.ttlMs)
  }

  /** The least positive number of whole minutes that covers the wait. */
  function RetryAfterMinutes(retryAfterMs: nat): (m: nat)
    ensures m >= 1 && m * 60_000 >= retryAfterMs
    ensures m > 1 ==> (m - 1) * 60_000 < retryAfterMs
  {
    var m := (retryAfterMs + 59_999) / 60_000;
    if m < 1 then 1 else m
  }

  // -------------------------------------------------------------------------------------------
  // The rule, on one window and on the whole store
  // -------------------------------------------------------------------------------------------

  predicate Expired(w: Option<Window>, t: Millis) {
    w.None? || w.value.resetAt <= t
  }

  function HitWindow(w: Option<Window>, windowMs: int, t: Millis): (Window, Hit) {
    if Expired(w, t) then (Window(1, t + windowMs), Hit(1, windowMs))
    else (w.value.(count := w.value.count + 1), Hit(w.value.count + 1, w.value.resetAt - t))
  }

  /** So many attempts of the window are still allowed as the decision on this one says. */
  lemma RemainingIsExact(w: Window, windowMs: int, t: Millis, n: nat, max: nat, ttlMs: int)
    requires t < w.resetAt && n > 0
    ensures var hit := HitWindow(Some(w), windowMs, t).1;
      Decide(hit, max).allowed ==> (Decide(Hit(hit.count + n, ttlMs), max).allowed <==> n <= Decide(hit, max).remaining)
  {
  }

  /** A refused caller who waits as long as told meets a new window, in which it is allowed; sooner it is refused. */
  lemma WaitIsExact(w: Window, windowMs: int, t: Millis, later: Millis, max: nat)
    requires t < w.resetAt && t <= later && max > 0
    ensures var (next, hit) := HitWindow(Some(w), windowMs, t);
      var d := Decide(hit, max);
      !d.allowed ==>
        (Decide(HitWindow(Some(next), windowMs, later).1, max).allowed <==> later >= t + d.retryAfterMs)
  {
  }

  function Lookup(windows: Windows, key: Key): Option<Window> {
    if key in windows then Some(windows[key]) else None
  }

  const PRUNE_AT: nat := 512

  function Live(windows: Windows, t: Millis): Windows {
    map k | k in windows && windows[k].resetAt > t :: windows[k]
  }

  /** The store after a hit; the check for expired windows runs only when a window was opened. */
  function HitStore(windows: Windows, key: Key, windowMs: int, t: Millis, pruning: bool): Windows {
    var after := windows[key := HitWindow(Lookup(windows, key), windowMs, t).0];
    if pruning && Expired(Lookup(windows, key), t) && |after| >= PRUNE_AT then Live(after, t) else after
  }

  class MemoryRateLimitStore {
    var windows: Windows

    constructor ()
      ensures windows == map[]
    {
      windows := map[];
    }

    method RecordHit(key: Key, windowMs: int, t: Millis) returns (hit: Hit)
      modifies this
      ensures windows == HitStore(old(windows), key, windowMs, t, true)
      ensures hit == HitWindow(Lookup(old(windows), key), windowMs, t).1
      // A window that has not run out counts on; otherwise a new one is opened, and may cost others theirs.
      ensures key in old(windows) && t < old(windows)[key].resetAt ==>
        var w := old(windows)[key];
        && hit == Hit(w.count + 1, w.resetAt - t)
        && windows == old(windows)[key := Window(w.count + 1, w.resetAt)]
      ensures key !in old(windows) || old(windows)[key].resetAt <= t ==>
        var after := old(windows)[key := Window(1, t + windowMs)];
        && hit == Hit(1, windowMs)
        && windows == if |after| < 512 then after else map k | k in after && t < after[k].resetAt :: after[k]
    {
      if key !in windows || windows[key].resetAt <= t {
        windows := windows[key := Window(1, t + windowMs)];
        Prune(t);
        return Hit(1, windowMs);
      }
      var existing := windows[key];
      windows := windows[key := existing.(count := existing.count + 1)];
      hit := Hit(existing.count + 1, existing.resetAt - t);
    }

    method Reset(key: Key)
      modifies this
      ensures windows == old(windows) - {key}
    {
      windows := windows - {key};
    }

    method Prune(t: Millis)
      modifies this
      ensures windows == if |old(windows)| < PRUNE_AT then old(windows) else Live(old(windows), t)
      ensures |old(windows)| < 512 ==> windows == old(windows)
      ensures |old(windows)| >= 512 ==>
        windows == map k | k in old(windows) && t < old(windows)[k].resetAt :: old(windows)[k]
    {
      if |windows| < PRUNE_AT {
        return;
      }
      ghost var before := windows;
      var todo := windows.Keys;
      while todo != {}
        invariant todo <= before.Keys
        invariant windows == map k | k in before && (k in todo || before[k].resetAt > t) :: before[k]
        decreases todo
      {
        var k :| k in todo;
        todo := todo - {k};
        if windows[k].resetAt <= t {
          windows := windows - {k};
        }
      }
    }
  }

  // -------------------------------------------------------------------------------------------
  // Traces
  // -------------------------------------------------------------------------------------------

  datatype Event = Attempt(key: Key, windowMs: int, now: Millis) | Clear(key: Key)

  function Next(windows: Windows, e: Event, pruning: bool): Windows {
    match e
    case Attempt(key, windowMs, now) => HitStore(windows, key, windowMs, now, pruning)
    case Clear(key) => windows - {key}
  }

  /** What each attempt of a trace is told; nothing for a reset. */
  function Replay(windows: Windows, trace: seq<Event>, pruning: bool): seq<Option<Hit>>
    decreases |trace|
  {
    if |trace| == 0 then []
    else
      var e := trace[0];
      var hit := if e.Clear? then None else Some(HitWindow(Lookup(windows, e.key), e.windowMs, e.now).1);
      [hit] + Replay(Next(windows, e, pruning), trace[1..], pruning)
  }

  /** No attempt is earlier than `t`, or than an attempt before it. */
  ghost predicate ClockFrom(t: Millis, trace: seq<Event>)
    decreases |trace|
  {
    |trace| == 0
    || (if trace[0].Clear? then ClockFrom(t, trace[1..])
        else t <= trace[0].now && ClockFrom(trace[0].now, trace[1..]))
  }

  /** What a pruned store may lack: windows that have run out by `t`. */
  ghost predicate LacksOnlyExpired(pruned: Windows, full: Windows, t: Millis) {
    && pruned.Keys <= full.Keys
    && (forall k :: k in pruned ==> pruned[k] == full[k])
    && (forall k :: k in full && k !in pruned ==> full[k].resetAt <= t)
  }

  /** On these keys the pruned store knows no window but those of the full one. */
  ghost predicate AgreesOn(pruned: Windows, full: Windows, mine: Key -> bool) {
    forall k :: k in pruned && mine(k) ==> k in full && pruned[k] == full[k]
  }

  function AnyKey(): Key -> bool {
    (k: Key) => true
  }

  function OnlyKey(key: Key): Key -> bool {
    (k: Key) => k == key
  }

  /** An attempt on a window that was dropped and has not run out by the attempt's clock. */
  predicate ReadsDropped(pruned: Windows, full: Windows, e: Event) {
    e.Attempt? && e.key in full && e.key !in pruned && e.now < full[e.key].resetAt
  }

  /** None of these keys' attempts reads a dropped window before its reset time. */
  ghost predicate NoneReadDropped(pruned: Windows, full: Windows, trace: seq<Event>, mine: Key -> bool)
    decreases |trace|
  {
    |trace| == 0
    || (!(mine(trace[0].key) && ReadsDropped(pruned, full, trace[0]))
        && NoneReadDropped(Next(pruned, trace[0], true), Next(full, trace[0], false), trace[1..], mine))
  }

  lemma HitsDiffer(pruned: Windows, full: Windows, key: Key, windowMs: int, t: Millis)
    requires AgreesOn(pruned, full, OnlyKey(key))
    ensures HitWindow(Lookup(pruned, key), windowMs, t).1 == HitWindow(Lookup(full, key), windowMs, t).1
      <==> !ReadsDropped(pruned, full, Attempt(key, windowMs, t))
  {
    assert OnlyKey(key)(key);
  }

  lemma AgreementStays(pruned: Windows, full: Windows, e: Event, mine: Key -> bool)
    requires AgreesOn(pruned, full, mine) && !(mine(e.key) && ReadsDropped(pruned, full, e))
    ensures AgreesOn(Next(pruned, e, true), Next(full, e, false), mine)
  {
  }

  /** Dropping windows shows in an answer exactly when an attempt reads a dropped one before its reset time. */
  lemma {:induction false} PruningIsInvisibleIff(pruned: Windows, full: Windows, trace: seq<Event>)
    requires AgreesOn(pruned, full, AnyKey())
    ensures Replay(pruned, trace, true) == Replay(full, trace, false)
      <==> NoneReadDropped(pruned, full, trace, AnyKey())
    decreases |trace|
  {
    if |trace| > 0 {
      var e := trace[0];
      if e.Attempt? {
        HitsDiffer(pruned, full, e.key, e.windowMs, e.now);
      }
      if !ReadsDropped(pruned, full, e) {
        AgreementStays(pruned, full, e, AnyKey());
        PruningIsInvisibleIff(Next(pruned, e, true), Next(full, e, false), trace[1..]);
        assert Replay(pruned, trace, true)[1..] == Replay(Next(pruned, e, true), trace[1..], true);
        assert Replay(full, trace, false)[1..] == Replay(Next(full, e, false), trace[1..], false);
      } else {
        assert Replay(pruned, trace, true)[0] != Replay(full, trace, false)[0];
      }
    }
  }

  lemma ExpiredStays(pruned: Windows, full: Windows, e: Event, t: Millis)
    requires LacksOnlyExpired(pruned, full, t) && e.Attempt? && t <= e.now
    ensures LacksOnlyExpired(Next(pruned, e, true), Next(full, e, false), e.now)
  {
  }

  lemma {:induction false} ClockReadsNoneDropped(
    pruned: Windows, full: Windows, trace: seq<Event>, mine: Key -> bool, t: Millis)
    requires LacksOnlyExpired(pruned, full, t) && ClockFrom(t, trace)
    ensures NoneReadDropped(pruned, full, trace, mine)
    decreases |trace|
  {
    if |trace| > 0 {
      var e := trace[0];
      if e.Attempt? {
        ExpiredStays(pruned, full, e, t);
      }
      ClockReadsNoneDropped(
        Next(pruned, e, true), Next(full, e, false), trace[1..], mine, if e.Clear? then t else e.now);
    }
  }

  /** As long as the clock does not step back, nobody can tell that expired windows are dropped. */
  lemma PruningIsInvisible(pruned: Windows, full: Windows, trace: seq<Event>, t: Millis)
    requires LacksOnlyExpired(pruned, full, t) && ClockFrom(t, trace)
    ensures Replay(pruned, trace, true) == Replay(full, trace, false)
  {
    ClockReadsNoneDropped(pruned, full, trace, AnyKey(), t);
    PruningIsInvisibleIff(pruned, full, trace);
  }

  lemma ReplayTwo(windows: Windows, first: Event, second: Event, pruning: bool)
    requires first.Attempt? && second.Attempt?
    ensures Replay(windows, [first, second], pruning) == [
        Some(HitWindow(Lookup(windows, first.key), first.windowMs, first.now).1),
        Some(HitWindow(Lookup(Next(windows, first, pruning), second.key), second.windowMs, second.now).1)]
  {
    assert [first, second][1..] == [second] && [second][1..] == [];
    assert Replay(Next(Next(windows, first, pruning), second, pruning), [], pruning) == [];
  }

  lemma DroppedOrKept(windows: Windows, a: Key, b: Key, windowMs: nat, t: Millis)
    requires a in windows && b !in windows && |windows| >= PRUNE_AT - 1 && windows[a].resetAt == t
    ensures Lookup(Next(windows, Attempt(b, windowMs, t), true), a) == None
    ensures Lookup(Next(windows, Attempt(b, windowMs, t), false), a) == Some(windows[a])
  {
  }

  /** A clock that steps back does show: a dropped window starts over while a kept one counts on. */
  lemma SteppingBackShows(windows: Windows, a: Key, b: Key, windowMs: nat, back: Millis)
    requires a in windows && b !in windows && |windows| >= PRUNE_AT - 1 && back < windows[a].resetAt
    ensures var trace := [Attempt(b, windowMs, windows[a].resetAt), Attempt(a, windowMs, back)];
      && Replay(windows, trace, true) == [Some(Hit(1, windowMs)), Some(Hit(1, windowMs))]
      && Replay(windows, trace, false)
         == [Some(Hit(1, windowMs)), Some(Hit(windows[a].count + 1, windows[a].resetAt - back))]
  {
    var t := windows[a].resetAt;
    DroppedOrKept(windows, a, b, windowMs, t);
    ReplayTwo(windows, Attempt(b, windowMs, t), Attempt(a, windowMs, back), true);
    ReplayTwo(windows, Attempt(b, windowMs, t), Attempt(a, windowMs, back), false);
  }

  /** Opening a window leaves fewer than the threshold, or nothing that has expired. */
  lemma StoreStaysSmall(windows: Windows, key: Key, windowMs: int, t: Millis)
    requires Expired(Lookup(windows, key), t)
    ensures var after := HitStore(windows, key, windowMs, t, true);
      |after| < PRUNE_AT || forall k :: k in after ==> after[k].resetAt > t
  {
  }

  // -------------------------------------------------------------------------------------------
  // One key at a time
  // -------------------------------------------------------------------------------------------

  function OfKey(key: Key): Event -> bool {
    (e: Event) => e.key == key
  }

  /** What the attempts of one key are told. */
  function HitsOf(windows: Windows, trace: seq<Event>, key: Key, pruning: bool): seq<Hit>
    decreases |trace|
  {
    if |trace| == 0 then []
    else
      var e := trace[0];
      var rest := HitsOf(Next(windows, e, pruning), trace[1..], key, pruning);
      if e.Attempt? && e.key == key then [HitWindow(Lookup(windows, key), e.windowMs, e.now).1] + rest else rest
  }

  /** The same for one key: other keys' early reads do not matter to it. */
  lemma {:induction false} PruningIsInvisibleToKeyIff(pruned: Windows, full: Windows, trace: seq<Event>, key: Key)
    requires AgreesOn(pruned, full, OnlyKey(key))
    ensures HitsOf(pruned, trace, key, true) == HitsOf(full, trace, key, false)
      <==> NoneReadDropped(pruned, full, trace, OnlyKey(key))
    decreases |trace|
  {
    if |trace| > 0 {
      var e := trace[0];
      if e.Attempt? && e.key == key {
        HitsDiffer(pruned, full, key, e.windowMs, e.now);
      }
      if !(e.key == key && ReadsDropped(pruned, full, e)) {
        AgreementStays(pruned, full, e, OnlyKey(key));
        PruningIsInvisibleToKeyIff(Next(pruned, e, true), Next(full, e, false), trace[1..], key);
        if e.Attempt? && e.key == key {
          assert HitsOf(pruned, trace, key, true)[1..] == HitsOf(Next(pruned, e, true), trace[1..], key, true);
          assert HitsOf(full, trace, key, false)[1..] == HitsOf(Next(full, e, false), trace[1..], key, false);
        }
      } else {
        assert HitsOf(pruned, trace, key, true)[0] != HitsOf(full, trace, key, false)[0];
      }
    }
  }

  /** What a key is told by the store is what one that never prunes would tell it. */
  lemma PruningIsInvisibleToKey(pruned: Windows, full: Windows, trace: seq<Event>, key: Key, t: Millis)
    requires LacksOnlyExpired(pruned, full, t) && ClockFrom(t, trace)
    ensures HitsOf(pruned, trace, key, true) == HitsOf(full, trace, key, false)
  {
    ClockReadsNoneDropped(pruned, full, trace, OnlyKey(key), t);
    PruningIsInvisibleToKeyIff(pruned, full, trace, key);
  }

  lemma {:induction false} OwnEventsDecide(windows: Windows, other: Windows, trace: seq<Event>, key: Key)
    requires Lookup(windows, key) == Lookup(other, key)
    ensures HitsOf(windows, trace, key, false) == HitsOf(other, Filter(trace, OfKey(key)), key, false)
    decreases |trace|
  {
    if |trace| > 0 {
      var e := trace[0];
      if e.key == key {
        OwnEventsDecide(Next(windows, e, false), Next(other, e, false), trace[1..], key);
        assert Filter(trace, OfKey(key))[1..] == Filter(trace[1..], OfKey(key));
      } else {
        OwnEventsDecide(Next(windows, e, false), other, trace[1..], key);
      }
    }
  }

  /**
   * A key is told what its own window and its own events decide, in a store that never prunes, exactly when none of
   * its attempts reads a dropped window before its reset time.
   */
  lemma OwnEventsDecideIff(windows: Windows, other: Windows, trace: seq<Event>, key: Key)
    requires Lookup(windows, key) == Lookup(other, key)
    ensures HitsOf(windows, trace, key, true) == HitsOf(other, Filter(trace, OfKey(key)), key, false)
      <==> NoneReadDropped(windows, windows, trace, OnlyKey(key))
  {
    PruningIsInvisibleToKeyIff(windows, windows, trace, key);
    OwnEventsDecide(windows, other, trace, key);
  }

  lemma {:induction false} FilterKeepsClock(trace: seq<Event>, key: Key, t: Millis, earlier: Millis)
    requires ClockFrom(t, trace) && earlier <= t
    ensures ClockFrom(earlier, Filter(trace, OfKey(key)))
    decreases |trace|
  {
    if |trace| > 0 {
      var e := trace[0];
      var now := if e.Clear? then t else e.now;
      if e.key == key {
        FilterKeepsClock(trace[1..], key, now, if e.Clear? then earlier else now);
        assert Filter(trace, OfKey(key))[1..] == Filter(trace[1..], OfKey(key));
      } else {
        FilterKeepsClock(trace[1..], key, now, earlier);
      }
    }
  }

  /** As long as the clock does not step back, what a key is told depends on its own window and its own events only. */
  lemma KeysAreIndependent(windows: Windows, other: Windows, trace: seq<Event>, key: Key, t: Millis)
    requires Lookup(windows, key) == Lookup(other, key) && ClockFrom(t, trace)
    ensures HitsOf(windows, trace, key, true) == HitsOf(other, Filter(trace, OfKey(key)), key, true)
  {
    FilterKeepsClock(trace, key, t, t);
    PruningIsInvisibleToKey(windows, windows, trace, key, t);
    PruningIsInvisibleToKey(other, other, Filter(trace, OfKey(key)), key, t);
    OwnEventsDecide(windows, other, trace, key);
  }

  lemma HitsOfOne(windows: Windows, e: Event, key: Key, w: Option<Window>)
    requires e.Attempt? && e.key == key && Lookup(windows, key) == w
    ensures HitsOf(windows, [e], key, true)
         == [if Expired(w, e.now) then Hit(1, e.windowMs) else Hit(w.value.count + 1, w.value.resetAt - e.now)]
  {
    assert HitsOf(Next(windows, e, true), [], key, true) == [];
  }

  lemma HitsAfterDrop(windows: Windows, other: Event, own: Event, key: Key)
    requires other.key != key && own.Attempt? && own.key == key && Lookup(Next(windows, other, true), key) == None
    ensures HitsOf(windows, [other, own], key, true) == [Hit(1, own.windowMs)]
  {
    assert [other, own][1..] == [own];
    HitsOfOne(Next(windows, other, true), own, key, None);
  }

  lemma ToldAfterDrop(windows: Windows, a: Key, b: Key, windowMs: nat, own: Event)
    requires a in windows && b !in windows && |windows| >= PRUNE_AT - 1 && own.Attempt? && own.key == a
    ensures HitsOf(windows, [Attempt(b, windowMs, windows[a].resetAt), own], a, true) == [Hit(1, own.windowMs)]
  {
    DroppedOrKept(windows, a, b, windowMs, windows[a].resetAt);
    HitsAfterDrop(windows, Attempt(b, windowMs, windows[a].resetAt), own, a);
  }

  /** A clock that steps back lets one key's attempt change what another is told, in any full store. */
  lemma SteppingBackMixesKeys(windows: Windows, a: Key, b: Key, windowMs: nat, own: Event)
    requires a in windows && b !in windows && |windows| >= PRUNE_AT - 1
    requires own.Attempt? && own.key == a && own.now < windows[a].resetAt
    ensures HitsOf(windows, [Attempt(b, windowMs, windows[a].resetAt), own], a, true) == [Hit(1, own.windowMs)]
    ensures HitsOf(windows, [own], a, true) == [Hit(windows[a].count + 1, windows[a].resetAt - own.now)]
  {
    ToldAfterDrop(windows, a, b, windowMs, own);
    HitsOfOne(windows, own, a, Some(windows[a]));
  }

  function AllowedAmong(hits: seq<Hit>, max: nat): nat {
    if |hits| == 0 then 0 else (if Decide(hits[0], max).allowed then 1 else 0) + AllowedAmong(hits[1..], max)
  }

  /** The key is not cleared, and attempts only before `end`. */
  ghost predicate WithinWindow(trace: seq<Event>, key: Key, end: Millis) {
    |trace| == 0
    || ((trace[0].key == key ==> trace[0].Attempt? && trace[0].now < end) && WithinWindow(trace[1..], key, end))
  }

  lemma {:induction false} RestOfWindow(windows: Windows, trace: seq<Event>, key: Key, max: nat)
    requires key in windows && WithinWindow(trace, key, windows[key].resetAt)
    ensures var hits := HitsOf(windows, trace, key, false);
      AllowedAmong(hits, max) == Min(|hits|, max - Min(windows[key].count, max))
    decreases |trace|
  {
    if |trace| > 0 {
      RestOfWindow(Next(windows, trace[0], false), trace[1..], key, max);
    }
  }

  lemma FirstAndRest(windows: Windows, first: Event, trace: seq<Event>, max: nat)
    requires first.Attempt? && Expired(Lookup(windows, first.key), first.now)
    requires WithinWindow(trace, first.key, first.now + first.windowMs)
    ensures var hits := HitsOf(windows, [first] + trace, first.key, false);
      AllowedAmong(hits, max) == Min(|hits|, max)
  {
    var next := Next(windows, first, false);
    assert ([first] + trace)[1..] == trace;
    assert next[first.key] == Window(1, first.now + first.windowMs);
    RestOfWindow(next, trace, first.key, max);
    assert HitsOf(windows, [first] + trace, first.key, false)
        == [Hit(1, first.windowMs)] + HitsOf(next, trace, first.key, false);
  }

  /** Between resets, whatever other keys do, a key's window lets through its first `max` attempts and no other. */
  lemma WindowAllowsMax(windows: Windows, first: Event, trace: seq<Event>, max: nat)
    requires first.Attempt? && Expired(Lookup(windows, first.key), first.now)
    requires WithinWindow(trace, first.key, first.now + first.windowMs) && ClockFrom(first.now, trace)
    ensures var hits := HitsOf(windows, [first] + trace, first.key, true);
      AllowedAmong(hits, max) == Min(|hits|, max)
  {
    assert ([first] + trace)[1..] == trace;
    FirstAndRest(windows, first, trace, max);
    PruningIsInvisibleToKey(windows, windows, [first] + trace, first.key, first.now);
  }

  // -------------------------------------------------------------------------------------------
  // Across windows
  // -------------------------------------------------------------------------------------------

  /** The key is not cleared, and its attempts, all under one window length, lie between `from` and `end`. */
  ghost predicate Attempts(trace: seq<Event>, key: Key, windowMs: int, from: Millis, end: Millis)
    decreases |trace|
  {
    from <= end
    && (|trace| == 0
        || (if trace[0].key != key then Attempts(trace[1..], key, windowMs, from, end)
            else trace[0].Attempt? && trace[0].windowMs == windowMs
                 && from <= trace[0].now && Attempts(trace[1..], key, windowMs, trace[0].now, end)))
  }

  /** A full allowance for each window that can open within `length`. */
  ghost function Openings(length: int, windowMs: nat, max: nat): nat
    requires windowMs > 0
    decreases length
  {
    if length < 0 then 0 else max + Openings(length - windowMs, windowMs, max)
  }

  lemma {:induction false} OpeningsGrow(a: int, b: int, windowMs: nat, max: nat)
    requires windowMs > 0 && a <= b
    ensures Openings(a, windowMs, max) <= Openings(b, windowMs, max)
    decreases b
  {
    if a >= 0 {
      OpeningsGrow(a - windowMs, b - windowMs, windowMs, max);
    }
  }

  lemma {:induction false} OpeningsCount(length: nat, windowMs: nat, max: nat)
    requires windowMs > 0
    ensures Openings(length, windowMs, max) == max * (length / windowMs + 1)
    decreases length
  {
    if length < windowMs {
      QuotientIs(length, windowMs, 0);
    } else {
      var q := (length - windowMs) / windowMs;
      OpeningsCount(length - windowMs, windowMs, max);
      assert length - windowMs == q * windowMs + (length - windowMs) % windowMs;
      assert (q + 1) * windowMs == q * windowMs + windowMs;
      QuotientIs(length, windowMs, q + 1);
      assert max * (q + 2) == max * (q + 1) + max;
    }
  }

  /** What is left of a window, and what the windows after it can let through. */
  ghost function Allowance(w: Option<Window>, windowMs: nat, from: Millis, end: Millis, max: nat): nat
    requires windowMs > 0
  {
    if Expired(w, from) then Openings(end - from, windowMs, max)
    else max - Min(w.value.count, max) + Openings(end - w.value.resetAt, windowMs, max)
  }

  /** Waiting does not add to an allowance. */
  lemma AllowanceShrinks(w: Option<Window>, windowMs: nat, from: Millis, later: Millis, end: Millis, max: nat)
    requires windowMs > 0 && from <= later <= end
    ensures Allowance(w, windowMs, later, end, max) <= Allowance(w, windowMs, from, end, max)
  {
    if Expired(w, from) {
      OpeningsGrow(end - later, end - from, windowMs, max);
    } else if Expired(w, later) {
      OpeningsGrow(end - later, end - w.value.resetAt, windowMs, max);
    }
  }

  lemma HitSpendsAllowance(w: Option<Window>, windowMs: nat, t: Millis, end: Millis, max: nat)
    requires windowMs > 0 && t <= end
    ensures var (next, hit) := HitWindow(w, windowMs, t);
      (if Decide(hit, max).allowed then 1 else 0) + Allowance(Some(next), windowMs, t, end, max)
      <= Allowance(w, windowMs, t, end, max)
  {
  }

  lemma {:induction false} AllowanceIsEnough(
    windows: Windows, trace: seq<Event>, key: Key, windowMs: nat, from: Millis, end: Millis, max: nat)
    requires windowMs > 0 && Attempts(trace, key, windowMs, from, end)
    ensures AllowedAmong(HitsOf(windows, trace, key, false), max)
         <= Allowance(Lookup(windows, key), windowMs, from, end, max)
    decreases |trace|
  {
    if |trace| > 0 {
      var e := trace[0];
      if e.key == key {
        AllowanceShrinks(Lookup(windows, key), windowMs, from, e.now, end, max);
        HitSpendsAllowance(Lookup(windows, key), windowMs, e.now, end, max);
        AllowanceIsEnough(Next(windows, e, false), trace[1..], key, windowMs, e.now, end, max);
      } else {
        AllowanceIsEnough(Next(windows, e, false), trace[1..], key, windowMs, from, end, max);
      }
    }
  }

  /** Over any interval a key gets at most one allowance for each window that fits, and two more: the boundary burst. */
  lemma BurstBound(windows: Windows, trace: seq<Event>, key: Key, windowMs: nat, from: Millis, end: Millis, max: nat)
    requires windowMs > 0 && Attempts(trace, key, windowMs, from, end) && ClockFrom(from, trace)
    ensures AllowedAmong(HitsOf(windows, trace, key, true), max) <= max * ((end - from) / windowMs + 2)
  {
    PruningIsInvisibleToKey(windows, windows, trace, key, from);
    AllowanceIsEnough(windows, trace, key, windowMs, from, end, max);
    OpeningsCount(end - from, windowMs, max);
    assert max * ((end - from) / windowMs + 2) == max + max * ((end - from) / windowMs + 1);
    var w := Lookup(windows, key);
    if !Expired(w, from) {
      OpeningsGrow(end - w.value.resetAt, end - from, windowMs, max);
    }
  }
}
