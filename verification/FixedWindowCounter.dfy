/** The rule engine's fixed-window counter (INCR, and EXPIRE on the first increment) against
    the sliding window it stands in for.

    The key names neither the rule nor its window, so rules with different windows and limits
    may count under one key: every check brings its own. */
module FixedWindow {
  import opened Prelude
  import opened EventWindows

  /** The stored counter.  It has no expiry when the EXPIRE after the first INCR was lost. */
  datatype Counter = Absent | Present(count: nat, expiry: Option<Time>)

  /** What a check at `now` finds in Redis. */
  function Current(c: Counter, now: Time): Counter {
    if c.Present? && c.expiry.Some? && c.expiry.value <= now then Absent else c
  }

  function Incr(c: Counter, now: Time): Counter {
    match Current(c, now)
    case Absent => Present(1, None)
    case Present(count, expiry) => Present(count + 1, expiry)
  }

  /** One check whose two commands both go through. */
  function Apply(c: Counter, now: Time, window: Time): Counter {
    var d := Incr(c, now);
    if d.count == 1 then d.(expiry := Some(now + window)) else d
  }

  /** The checks on one key, latest last, each with the window and limit of its rule. */
  datatype Checks = NoChecks | Next(before: Checks, now: Time, window: Time, limit: int)

  function TimesOf(h: Checks): Times {
    match h
    case NoChecks => Never
    case Next(before, now, _, _) => Then(TimesOf(before), now)
  }

  function Run(h: Checks): Counter {
    match h
    case NoChecks => Absent
    case Next(before, now, window, _) => Apply(Run(before), now, window)
  }

  predicate PositiveWindows(h: Checks) { h.Next? ==> h.window > 0.0 && PositiveWindows(h.before) }

  /** The clock does not run backwards, and windows are positive. */
  predicate Timely(h: Checks) { Ordered(TimesOf(h)) && PositiveWindows(h) }

  lemma NextIsTimely(h: Checks, now: Time, window: Time, limit: int)
    requires Timely(h) && window > 0.0 && (h.Next? ==> h.now <= now)
    ensures Timely(Next(h, now, window, limit))
  {
    assert h.Next? ==> TimesOf(h).now == h.now;
  }

  predicate Flagged(h: Checks)
    requires h.Next?
  {
    Run(h).Present? && Run(h).count > h.limit
  }

  /** The checks up to the one that created the key which the last check used. */
  function Creator(h: Checks): (k: Checks)
    requires h.Next?
    ensures k.Next?
  {
    if h.before.Next? && h.now < Creator(h.before).now + Creator(h.before).window then Creator(h.before) else h
  }

  /** How many events came at `lo` or later. */
  function CountFrom(h: Times, lo: Time): nat {
    match h
    case Never => 0
    case Then(before, now) => CountFrom(before, lo) + if lo <= now then 1 else 0
  }

  /** How many events lie strictly between the two times. */
  function CountBetween(h: Times, lo: Time, hi: Time): nat {
    match h
    case Never => 0
    case Then(before, now) => CountBetween(before, lo, hi) + if lo < now < hi then 1 else 0
  }

  /** How many events lie between the two times, both included. */
  function CountWithin(h: Times, lo: Time, hi: Time): nat {
    match h
    case Never => 0
    case Then(before, now) => CountWithin(before, lo, hi) + if lo <= now <= hi then 1 else 0
  }

  lemma {:induction false} NoneFrom(h: Times, lo: Time)
    requires Ordered(h) && (h.Then? ==> h.now < lo)
    ensures CountFrom(h, lo) == 0
  {
    if h.Then? { NoneFrom(h.before, lo); }
  }

  lemma {:induction false} CountSplits(h: Times, lo: Time, hi: Time)
    ensures lo < hi ==> CountAfter(h, lo) == CountBetween(h, lo, hi) + CountFrom(h, hi)
    ensures hi <= lo ==> CountFrom(h, hi) == CountWithin(h, hi, lo) + CountAfter(h, lo)
  {
    if h.Then? { CountSplits(h.before, lo, hi); }
  }

  /** What the counter computes, whatever rules share the key: the number of checks since the
      key was created.  It lives for the window of the rule that created it. */
  lemma {:induction false} CounterMeaning(h: Checks)
    requires Timely(h) && h.Next?
    ensures var key := Creator(h);
            && Run(h) == Present(CountFrom(TimesOf(h), key.now), Some(key.now + key.window))
            && key.now <= h.now < key.now + key.window && key.window > 0.0
            && CountFrom(TimesOf(h), key.now) >= 1
  {
    if h.before.Next? {
      CounterMeaning(h.before);
      var key := Creator(h.before);
      if key.now + key.window <= h.now { NoneFrom(TimesOf(h.before), h.now); }
    }
  }

  lemma {:induction false} CreatorIsCounted(h: Checks)
    requires Timely(h) && h.Next?
    ensures forall hi | Creator(h).now <= hi :: CountWithin(TimesOf(h), Creator(h).now, hi) >= 1
  {
    CounterMeaning(h);
    if h.before.Next? { CreatorIsCounted(h.before); }
  }

  /** The key is younger than the window of the rule that checks. */
  predicate YoungKey(h: Checks)
    requires h.Next?
  {
    h.now - Creator(h).now < h.window
  }

  /** Against the true window (now - w, now] of the checking rule: the counter reports no more
      than it exactly when the key is younger than that window.  Then it misses exactly the
      checks of the window that came before the key; otherwise it reports too much, exactly
      the checks since the key was created that have left the window. */
  lemma CountAgainstSliding(h: Checks)
    requires Timely(h) && h.Next?
    ensures var key, lo := Creator(h).now, h.now - h.window;
            var count, sliding := Run(h).count, CountAfter(TimesOf(h), lo);
            && Run(h).Present?
            && (count <= sliding <==> YoungKey(h))
            && (YoungKey(h) ==> sliding == count + CountBetween(TimesOf(h), lo, key))
            && (!YoungKey(h) ==> count == sliding + CountWithin(TimesOf(h), key, lo))
  {
    CounterMeaning(h);
    CreatorIsCounted(h);
    CountSplits(TimesOf(h), h.now - h.window, Creator(h).now);
  }

  /** So a check is flagged exactly when more than `limit` checks came since the key was
      created.  It is flagged falsely, or let through though over the limit, exactly when the
      limit lies between the two counts; the former needs an old key, the latter a young one. */
  lemma FlaggedExactly(h: Checks)
    requires Timely(h) && h.Next?
    ensures var count, sliding := CountFrom(TimesOf(h), Creator(h).now), CountAfter(TimesOf(h), h.now - h.window);
            && (Flagged(h) <==> count > h.limit)
            && (Flagged(h) && sliding <= h.limit <==> sliding <= h.limit < count)
            && (!Flagged(h) && sliding > h.limit <==> count <= h.limit < sliding)
            && (sliding <= h.limit < count ==> !YoungKey(h))
            && (count <= h.limit < sliding ==> YoungKey(h))
  {
    CounterMeaning(h);
    CountAgainstSliding(h);
  }

  /** A check flagged under a key younger than its own window always has more than `limit`
      checks in the true window. */
  lemma FlaggedIsTrulyOver(h: Checks)
    requires Timely(h) && h.Next? && Flagged(h) && YoungKey(h)
    ensures CountAfter(TimesOf(h), h.now - h.window) > h.limit
  {
    FlaggedExactly(h);
  }

  predicate OneWindow(h: Checks, window: Time) { h.Next? ==> h.window == window && OneWindow(h.before, window) }

  lemma {:induction false} CreatorWindow(h: Checks, window: Time)
    requires h.Next? && OneWindow(h, window)
    ensures Creator(h).window == window
  {
    if h.before.Next? { CreatorWindow(h.before, window); }
  }

  /** Which every key is when all rules on it have one window. */
  lemma OneWindowKeysAreYoung(h: Checks, window: Time)
    requires Timely(h) && h.Next? && OneWindow(h, window)
    ensures YoungKey(h)
  {
    CreatorWindow(h, window);
    CounterMeaning(h);
  }

  /** But not otherwise: a rule with a longer window makes one with a shorter window flag its
      second check ever, though nothing else lies in its window. */
  lemma LongerWindowFlagsFalsely(long: Time, short: Time, t: Time)
    requires 0.0 < short <= t < long
    ensures var h := Next(Next(NoChecks, 0.0, long, 1), t, short, 1);
            Timely(h) && Flagged(h) && CountAfter(TimesOf(h), h.now - h.window) == 1
  {
    var first := Next(NoChecks, 0.0, long, 1);
    NextIsTimely(NoChecks, 0.0, long, 1);
    NextIsTimely(first, t, short, 1);
    assert Run(first) == Present(1, Some(long));
    assert Run(Next(first, t, short, 1)) == Present(2, Some(long));
    assert TimesOf(first) == Then(Never, 0.0) && CountAfter(TimesOf(first), t - short) == 0;
  }

  // --- How much is let through --------------------------------------------------------

  /** Unflagged checks in the half-open interval [x, x + w) of rules with no higher limit. */
  function UnflaggedIn(h: Checks, limit: nat, x: Time, w: Time): nat {
    match h
    case NoChecks => 0
    case Next(before, now, _, own) =>
      UnflaggedIn(before, limit, x, w)
      + if x <= now < x + w && own <= limit && !Flagged(h) then 1 else 0
  }

  predicate WindowsAtLeast(h: Checks, w: Time) { h.Next? ==> h.window >= w && WindowsAtLeast(h.before, w) }

  lemma {:induction false} CreatorWindowAtLeast(h: Checks, w: Time)
    requires h.Next? && WindowsAtLeast(h, w)
    ensures Creator(h).window >= w
  {
    if h.before.Next? { CreatorWindowAtLeast(h.before, w); }
  }

  function Min(a: nat, b: nat): nat { if a < b then a else b }

  function LessOne(a: nat): nat { if a == 0 then 0 else a - 1 }

  /** How many checks of [x, x + w) can be unflagged when the current key was created by `key`
      and has counted `count`: keys created before x have spent at least one check. */
  function UnflaggedBound(key: Checks, count: nat, limit: nat, x: Time, w: Time): nat
    requires key.Next?
  {
    if key.now + key.window <= x then 0
    else if key.now < x then LessOne(Min(count, limit))
    else if key.now == x then Min(count, limit)
    else if key.now < x + w then LessOne(limit) + Min(count, limit)
    else LessOne(limit) + limit
  }

  lemma {:induction false} UnflaggedInvariant(h: Checks, limit: nat, x: Time, w: Time)
    requires Timely(h) && h.Next? && w > 0.0 && WindowsAtLeast(h, w)
    ensures Run(h).Present?
    ensures UnflaggedIn(h, limit, x, w) <= UnflaggedBound(Creator(h), Run(h).count, limit, x, w)
  {
    CounterMeaning(h);
    if h.before.Next? {
      UnflaggedInvariant(h.before, limit, x, w);
      CounterMeaning(h.before);
      CreatorWindowAtLeast(h.before, w);
    }
  }

  /** The price of the fixed window: as long as no rule on the key has a shorter window, an
      interval of one window length lets through up to 2 * limit - 1 checks, never more. */
  lemma UnflaggedAtMostTwiceLimit(h: Checks, limit: nat, x: Time, w: Time)
    requires Timely(h) && w > 0.0 && WindowsAtLeast(h, w)
    ensures UnflaggedIn(h, limit, x, w) <= if limit == 0 then 0 else 2 * limit - 1
  {
    if h.Next? { UnflaggedInvariant(h, limit, x, w); }
  }

  /** `n` more checks of one rule at `t`. */
  function Repeat(h: Checks, n: nat, t: Time, window: Time, limit: nat): (r: Checks)
    ensures n > 0 ==> r.Next? && r.now == t
    ensures n == 0 ==> r == h
  {
    if n == 0 then h else Next(Repeat(h, n - 1, t, window, limit), t, window, limit)
  }

  /** Checks while the key lives and stays within the limit are all unflagged. */
  lemma {:induction false} RepeatUnflagged(h: Checks, n: nat, t: Time, window: Time, limit: nat, x: Time)
    requires Timely(h) && h.Next? && h.now <= t && window > 0.0 && OneWindow(h, window) && x <= t < x + window
    requires Run(h).Present? && 1 <= Run(h).count && Run(h).count + n <= limit
    requires Run(h).expiry.Some? && t < Run(h).expiry.value
    ensures var r := Repeat(h, n, t, window, limit);
            && Timely(r) && r.Next? && OneWindow(r, window)
            && Run(r) == Present(Run(h).count + n, Run(h).expiry)
            && UnflaggedIn(r, limit, x, window) == UnflaggedIn(h, limit, x, window) + n
  {
    if n > 0 { RepeatUnflagged(h, n - 1, t, window, limit, x); }
  }

  /** One check that creates the key, `limit` - 1 more in the middle of its window, and `limit`
      at the moment it expires. */
  function Worst(window: Time, limit: nat): Checks
    requires limit >= 1
  {
    var first := Next(NoChecks, 0.0, window, limit);
    Repeat(Next(Repeat(first, limit - 1, window / 2.0, window, limit), window, window, limit), limit - 1, window, window, limit)
  }

  /** The bound is reached for every limit and every window, by one rule alone, from the middle
      of a key's life on. */
  lemma TwiceLimitIsReached(window: Time, limit: nat)
    requires window > 0.0 && limit >= 1
    ensures Timely(Worst(window, limit)) && OneWindow(Worst(window, limit), window)
    ensures UnflaggedIn(Worst(window, limit), limit, window / 2.0, window) == 2 * limit - 1
  {
    var x, first := window / 2.0, Next(NoChecks, 0.0, window, limit);
    assert Run(first) == Present(1, Some(window));
    assert UnflaggedIn(first, limit, x, window) == 0;
    var h := Repeat(first, limit - 1, x, window, limit);
    RepeatUnflagged(first, limit - 1, x, window, limit, x);
    var second := Next(h, window, window, limit);
    assert Run(second) == Present(1, Some(window + window));
    assert UnflaggedIn(second, limit, x, window) == limit;
    RepeatUnflagged(second, limit - 1, window, window, limit, x);
  }

  /** `n` rounds, each a check of a rule with the short window and limit 0, which creates the
      key, and one of a rule with the long window and limit 2 at the same moment. */
  function Rounds(n: nat, short: Time, long: Time): (h: Checks)
    ensures h.Next?
  {
    var t := if n == 0 then 0.0 else Rounds(n - 1, short, long).now + short;
    Next(Next(if n == 0 then NoChecks else Rounds(n - 1, short, long), t, short, 0), t, long, 2)
  }

  /** One round after a key that has expired. */
  lemma OneRound(h: Checks, t: Time, short: Time, long: Time, end: Time)
    requires Timely(h) && (h.Next? ==> h.now <= t) && 0.0 < short <= long && 0.0 <= t < end
    requires Current(Run(h), t) == Absent
    ensures var r := Next(Next(h, t, short, 0), t, long, 2);
            && Timely(r) && Run(r) == Present(2, Some(t + short))
            && UnflaggedIn(r, 2, 0.0, end) == UnflaggedIn(h, 2, 0.0, end) + 1
  {
    var mid := Next(h, t, short, 0);
    NextIsTimely(h, t, short, 0);
    NextIsTimely(mid, t, long, 2);
    assert Run(mid) == Present(1, Some(t + short));
    assert UnflaggedIn(mid, 2, 0.0, end) == UnflaggedIn(h, 2, 0.0, end);
  }

  lemma {:induction false} RoundsFacts(n: nat, short: Time, long: Time, end: Time)
    requires 0.0 < short <= long && Rounds(n, short, long).now < end
    ensures var h := Rounds(n, short, long);
            && Timely(h) && Run(h) == Present(2, Some(h.now + short)) && h.now >= 0.0
            && UnflaggedIn(h, 2, 0.0, end) == n + 1
  {
    if n == 0 {
      OneRound(NoChecks, 0.0, short, long, end);
    } else {
      var before := Rounds(n - 1, short, long);
      RoundsFacts(n - 1, short, long, end);
      OneRound(before, before.now + short, short, long, end);
    }
  }

  lemma {:induction false} RoundsEnd(n: nat, short: Time, long: Time)
    ensures Rounds(n, short, long).now == n as real * short
  {
    if n > 0 {
      RoundsEnd(n - 1, short, long);
      assert n as real == (n - 1) as real + 1.0;
    }
  }

  lemma PartsFit(n: nat, long: Time, short: Time)
    requires long > 0.0 && short == long / (n + 1) as real
    ensures 0.0 < short <= long && n as real * short < long
  {
    assert (n + 1) as real * short == long;
    assert (n + 1) as real * short == n as real * short + short;
    assert n as real * short >= 0.0;
  }

  /** A rule with a shorter window on the same key lifts every bound: within one of its own
      windows a rule with limit 2 lets through as many checks as you like. */
  lemma ShortWindowsLetMoreThrough(n: nat, long: Time, short: Time)
    requires long > 0.0 && short == long / (n + 1) as real
    ensures Timely(Rounds(n, short, long)) && UnflaggedIn(Rounds(n, short, long), 2, 0.0, long) == n + 1
  {
    PartsFit(n, long, short);
    RoundsEnd(n, short, long);
    RoundsFacts(n, short, long, long);
  }

  // --- The lost EXPIRE ------------------------------------------------------------------

  function RunFrom(c: Counter, h: Checks): Counter {
    match h
    case NoChecks => c
    case Next(before, now, window, _) => Apply(RunFrom(c, before), now, window)
  }

  /** If the process fails between INCR and EXPIRE the key never expires: the counter then
      counts for ever, and past the limit every check is flagged, however far apart. */
  lemma {:induction false} LostExpireCountsForEver(first: Time, h: Checks)
    ensures RunFrom(Incr(Absent, first), h) == Present(1 + Length(TimesOf(h)), None)
  {
    if h.Next? { LostExpireCountsForEver(first, h.before); }
  }
}
