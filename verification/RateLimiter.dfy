/** The gateway's rate limiter: a sorted set whose members are the request timestamps
    themselves, so two requests at one timestamp are one entry. */
module RateLimiting {
  import opened Prelude
  import opened EventWindows

  datatype ZSet = ZSet(stamps: set<Time>, expiry: Option<Time>)

  /** One attempt at `now`: trim, add, re-expire.  Rejected attempts are added as well. */
  function Apply(z: ZSet, now: Time, window: Time): ZSet {
    var current := if z.expiry.Some? && z.expiry.value <= now then {} else z.stamps;
    ZSet((set t | t in current && !(0.0 <= t <= now - window)) + {now}, Some(now + window + 10.0))
  }

  function Run(h: Times, window: Time): ZSet {
    match h
    case Never => ZSet({}, None)
    case Then(before, now) => Apply(Run(before, window), now, window)
  }

  /** The clock does not run backwards and starts after the epoch. */
  predicate WellTimed(h: Times) {
    h.Then? ==> WellTimed(h.before) && 0.0 <= h.now && (h.before.Then? ==> h.before.now <= h.now)
  }

  lemma {:induction false} RaisedBound(h: Times, a: Time, b: Time)
    requires WellTimed(h)
    ensures (set t | t in DistinctAfter(h, a) && !(0.0 <= t <= b)) == DistinctAfter(h, MaxReal(a, b))
  {
    if h.Then? { RaisedBound(h.before, a, b); }
  }

  lemma {:induction false} NoneAfter(h: Times, lo: Time)
    requires WellTimed(h) && (h.Then? ==> h.now <= lo)
    ensures DistinctAfter(h, lo) == {}
  {
    if h.Then? { NoneAfter(h.before, lo); }
  }

  /** The set holds exactly the distinct attempt timestamps of the window (now - w, now];
      the expiry of the key is never seen. */
  lemma {:induction false} HoldsTheWindow(h: Times, window: Time)
    requires WellTimed(h) && window > 0.0 && h.Then?
    ensures Run(h, window) == ZSet(DistinctAfter(h, h.now - window), Some(h.now + window + 10.0))
  {
    if h.before.Then? {
      HoldsTheWindow(h.before, window);
      RaisedBound(h.before, h.before.now - window, h.now - window);
      if h.before.now + window + 10.0 <= h.now { NoneAfter(h.before, h.now - window); }
    }
  }

  /** The decision on the last attempt. */
  predicate Admits(h: Times, window: Time, limit: int) {
    |Run(h, window).stamps| <= limit
  }

  lemma AdmitsExactly(h: Times, window: Time, limit: int)
    requires WellTimed(h) && window > 0.0 && h.Then?
    ensures Admits(h, window, limit) <==> |DistinctAfter(h, h.now - window)| <= limit
  {
    HoldsTheWindow(h, window);
  }

  /** The distinct timestamps in (x, x + w] at which an attempt was admitted. */
  function AdmittedIn(h: Times, window: Time, limit: int, x: Time): set<Time> {
    match h
    case Never => {}
    case Then(before, now) =>
      var earlier := AdmittedIn(before, window, limit, x);
      if x < now <= x + window && Admits(h, window, limit) then earlier + {now} else earlier
  }

  lemma {:induction false} AdmittedAreAttempts(h: Times, window: Time, limit: int, x: Time, lo: Time)
    requires lo <= x
    ensures AdmittedIn(h, window, limit, x) <= DistinctAfter(h, lo)
  {
    if h.Then? { AdmittedAreAttempts(h.before, window, limit, x, lo); }
  }

  /** Any window of length w, wherever it lies, admits at most `limit` distinct timestamps. */
  lemma {:induction false} WindowAdmitsAtMostLimit(h: Times, window: Time, limit: int, x: Time)
    requires WellTimed(h) && window > 0.0 && limit >= 0
    ensures |AdmittedIn(h, window, limit, x)| <= limit
  {
    if h.Then? {
      if x < h.now <= x + window && Admits(h, window, limit) {
        AdmitsExactly(h, window, limit);
        AdmittedAreAttempts(h, window, limit, x, h.now - window);
        SubsetSize(AdmittedIn(h, window, limit, x), DistinctAfter(h, h.now - window));
      } else {
        WindowAdmitsAtMostLimit(h.before, window, limit, x);
      }
    }
  }

  /** After a silent window any client is admitted again, if the limit admits anyone. */
  lemma SilenceReadmits(h: Times, window: Time, limit: int)
    requires WellTimed(h) && window > 0.0 && limit >= 1 && h.Then?
    requires h.before.Then? ==> h.before.now + window <= h.now
    ensures Admits(h, window, limit)
  {
    AdmitsExactly(h, window, limit);
    NoneAfter(h.before, h.now - window);
    assert DistinctAfter(h, h.now - window) == {h.now};
  }

  function Repeated(n: nat, t: Time): Times { if n == 0 then Never else Then(Repeated(n - 1, t), t) }

  lemma {:induction false} RepeatedFacts(n: nat, t: Time, lo: Time)
    requires 0.0 <= t
    ensures WellTimed(Repeated(n, t)) && DistinctAfter(Repeated(n, t), lo) <= {t}
  {
    if n > 0 { RepeatedFacts(n - 1, t, lo); }
  }

  /** Requests that share a timestamp share one entry, so any number of them at one instant
      is admitted. */
  lemma SameInstantCountsOnce(n: nat, t: Time, window: Time, limit: int)
    requires 0.0 <= t && window > 0.0 && limit >= 1 && n >= 1
    ensures Admits(Repeated(n, t), window, limit)
  {
    RepeatedFacts(n, t, t - window);
    AdmitsExactly(Repeated(n, t), window, limit);
    SubsetSize(DistinctAfter(Repeated(n, t), t - window), {t});
  }

  // --- Strictly increasing timestamps ---------------------------------------------------

  predicate StrictlyTimed(h: Times) {
    h.Then? ==> StrictlyTimed(h.before) && 0.0 <= h.now && (h.before.Then? ==> h.before.now < h.now)
  }

  /** The attempt `k` places before the last. */
  function Back(h: Times, k: nat): Time
    requires k < Length(h)
  {
    if k == 0 then h.now else Back(h.before, k - 1)
  }

  lemma {:induction false} StrictSize(h: Times, lo: Time, k: nat)
    requires StrictlyTimed(h)
    ensures WellTimed(h)
    ensures |DistinctAfter(h, lo)| > k <==> k < Length(h) && lo < Back(h, k)
    ensures forall t | t in DistinctAfter(h, lo) :: h.Then? && t <= h.now
  {
    if h.Then? {
      StrictSize(h.before, lo, if k == 0 then 0 else k - 1);
      if h.now <= lo {
        NoneAfter(h, lo);
        BackInPast(h, k);
      }
    }
  }

  lemma {:induction false} BackInPast(h: Times, k: nat)
    requires StrictlyTimed(h)
    ensures k < Length(h) ==> Back(h, k) <= h.now
  {
    if h.Then? && k > 0 { BackInPast(h.before, k - 1); }
  }

  // --- The rule in closed form ----------------------------------------------------------

  /** The attempts without those that repeat the timestamp before them. */
  function Once(h: Times): Times {
    match h
    case Never => Never
    case Then(before, now) =>
      if before.Then? && before.now == now then Once(before) else Then(Once(before), now)
  }

  /** Repeats change nothing. */
  lemma {:induction false} OnceFacts(h: Times, lo: Time)
    requires WellTimed(h)
    ensures StrictlyTimed(Once(h)) && DistinctAfter(Once(h), lo) == DistinctAfter(h, lo)
    ensures h.Then? ==> Once(h).Then? && Once(h).now == h.now
    ensures StrictlyTimed(h) ==> Once(h) == h
  {
    if h.Then? { OnceFacts(h.before, lo); }
  }

  /** An attempt is rejected exactly when the distinct timestamp `limit` places before it,
      admitted or not, is still in the window. */
  lemma RejectedExactly(h: Times, window: Time, limit: nat)
    requires WellTimed(h) && window > 0.0 && h.Then?
    ensures !Admits(h, window, limit) <==> limit < Length(Once(h)) && h.now - Back(Once(h), limit) < window
  {
    var d, lo := Once(h), h.now - window;
    OnceFacts(h, lo);
    assert |DistinctAfter(d, lo)| > limit <==> limit < Length(d) && lo < Back(d, limit) by { StrictSize(d, lo, limit); }
    assert Admits(h, window, limit) <==> |DistinctAfter(d, lo)| <= limit by { AdmitsExactly(h, window, limit); }
  }

  /** The client always sends faster than the limit allows. */
  predicate Overloading(h: Times, window: Time, limit: nat) {
    h.Then? ==> Overloading(h.before, window, limit) && (limit < Length(h) ==> h.now - Back(h, limit) < window)
  }

  function AdmittedCount(h: Times, window: Time, limit: nat): nat {
    match h
    case Never => 0
    case Then(before, _) => AdmittedCount(before, window, limit) + if Admits(h, window, limit) then 1 else 0
  }

  lemma {:induction false} OverloadAdmitsFirst(h: Times, window: Time, limit: nat)
    requires StrictlyTimed(h) && window > 0.0 && Overloading(h, window, limit)
    ensures AdmittedCount(h, window, limit) == if Length(h) <= limit then Length(h) else limit
  {
    if h.Then? {
      OverloadAdmitsFirst(h.before, window, limit);
      StrictSize(h, 0.0, 0);
      OnceFacts(h, 0.0);
      RejectedExactly(h, window, limit);
    }
  }

  /** Because rejected attempts count, a client that keeps sending too fast is admitted at its
      first `limit` distinct timestamps and never again, however often it repeats them. */
  lemma OverloadIsNeverReadmitted(h: Times, window: Time, limit: nat)
    requires WellTimed(h) && window > 0.0 && Overloading(Once(h), window, limit)
    ensures var n := Length(Once(h));
            && AdmittedCount(Once(h), window, limit) == (if n <= limit then n else limit)
            && (h.Then? ==> (Admits(h, window, limit) <==> n <= limit))
  {
    OnceFacts(h, 0.0);
    OverloadAdmitsFirst(Once(h), window, limit);
    if h.Then? { RejectedExactly(h, window, limit); }
  }

  // --- When a rejected client gets in again ---------------------------------------------

  /** A client that was rejected and tries again `wait` seconds later, with no attempt in
      between, is admitted exactly when the distinct timestamp `limit` - 1 places before the
      rejected one has left the window by then. */
  lemma ReadmittedExactly(h: Times, window: Time, limit: nat, wait: Time)
    requires WellTimed(h) && window > 0.0 && h.Then? && wait > 0.0 && !Admits(h, window, limit)
    ensures limit < Length(Once(h))
    ensures Admits(Then(h, h.now + wait), window, limit) <==>
              limit >= 1 && Back(Once(h), limit - 1) + window <= h.now + wait
  {
    RejectedExactly(h, window, limit);
    RejectedExactly(Then(h, h.now + wait), window, limit);
    assert Once(Then(h, h.now + wait)) == Then(Once(h), h.now + wait);
  }

  const RETRY_AFTER: Time := 1.0

  /** The advice to come back after one second is right exactly when at most one second of the
      window is left for that timestamp: always for windows of up to a second. */
  lemma RetryAfterSufficesExactly(h: Times, window: Time, limit: nat)
    requires WellTimed(h) && window > 0.0 && h.Then? && limit >= 1 && !Admits(h, window, limit)
    ensures limit < Length(Once(h))
    ensures Admits(Then(h, h.now + RETRY_AFTER), window, limit) <==>
              Back(Once(h), limit - 1) + window - h.now <= RETRY_AFTER
    ensures window <= RETRY_AFTER ==> Admits(Then(h, h.now + RETRY_AFTER), window, limit)
  {
    ReadmittedExactly(h, window, limit, RETRY_AFTER);
    OnceFacts(h, 0.0);
    BackInPast(Once(h), limit - 1);
  }

  /** `n` + 1 attempts, `step` apart. */
  function Evenly(n: nat, step: Time): (h: Times)
    ensures h.Then? && Length(h) == n + 1
  {
    if n == 0 then Then(Never, 0.0) else Then(Evenly(n - 1, step), Evenly(n - 1, step).now + step)
  }

  lemma {:induction false} EvenlyNow(n: nat, step: Time)
    ensures Evenly(n, step).now == n as real * step
  {
    if n > 0 {
      EvenlyNow(n - 1, step);
      assert n as real == (n - 1) as real + 1.0;
    }
  }

  lemma {:induction false} EvenlyFacts(n: nat, step: Time)
    requires step > 0.0
    ensures StrictlyTimed(Evenly(n, step)) && Back(Evenly(n, step), n) == 0.0
    ensures n >= 1 ==> Back(Evenly(n, step), n - 1) == step
  {
    if n > 0 { EvenlyFacts(n - 1, step); }
  }

  lemma StepFacts(n: nat, span: Time, step: Time)
    requires n >= 1 && span > 0.0 && step == span / n as real
    ensures step > 0.0 && n as real * step == span
  {
  }

  /** For every limit and every window of more than a second there is a client that follows the
      advice and is rejected again: it sends `limit` + 1 requests, evenly over all but the last
      second of the window. */
  lemma RetryAfterFails(limit: nat, window: Time, step: Time)
    requires limit >= 1 && window > RETRY_AFTER && step == (window - RETRY_AFTER) / limit as real
    ensures var h := Evenly(limit, step);
            && StrictlyTimed(h) && !Admits(h, window, limit)
            && !Admits(Then(h, h.now + RETRY_AFTER), window, limit)
  {
    var h := Evenly(limit, step);
    StepFacts(limit, window - RETRY_AFTER, step);
    EvenlyFacts(limit, step);
    StrictSize(h, 0.0, 0);
    OnceFacts(h, 0.0);
    EvenlyNow(limit, step);
    assert h.now == window - RETRY_AFTER;
    RejectedExactly(h, window, limit);
    RetryAfterSufficesExactly(h, window, limit);
  }

  // --- Windows that differ from call to call --------------------------------------------

  /** The requests of one client, latest last, each with the window its call named. */
  datatype Requests = NoRequests | Next(before: Requests, now: Time, window: Time)

  function TimesOf(r: Requests): Times {
    match r
    case NoRequests => Never
    case Next(before, now, _) => Then(TimesOf(before), now)
  }

  function RunRequests(r: Requests): ZSet {
    match r
    case NoRequests => ZSet({}, None)
    case Next(before, now, window) => Apply(RunRequests(before), now, window)
  }

  predicate PositiveWindows(r: Requests) { r.Next? ==> r.window > 0.0 && PositiveWindows(r.before) }

  /** The latest bound below which some request discarded timestamps: by trimming, or because
      the key had lapsed. */
  function Horizon(r: Requests): Time
    requires r.Next?
  {
    var bound := r.now - r.window;
    if r.before.NoRequests? then bound
    else
      var trimmed := MaxReal(Horizon(r.before), bound);
      if r.before.now + r.before.window + 10.0 <= r.now then MaxReal(trimmed, r.before.now) else trimmed
  }

  lemma {:induction false} HorizonInPast(r: Requests)
    requires WellTimed(TimesOf(r)) && PositiveWindows(r) && r.Next?
    ensures Horizon(r) < r.now
  {
    if r.before.Next? { HorizonInPast(r.before); }
  }

  /** For any mixture of windows the set holds exactly the distinct attempt timestamps beyond
      the horizon. */
  lemma {:induction false} HoldsBeyondHorizon(r: Requests)
    requires WellTimed(TimesOf(r)) && PositiveWindows(r) && r.Next?
    ensures RunRequests(r) == ZSet(DistinctAfter(TimesOf(r), Horizon(r)), Some(r.now + r.window + 10.0))
  {
    HorizonInPast(r);
    if r.before.Next? {
      HoldsBeyondHorizon(r.before);
      RaisedBound(TimesOf(r.before), Horizon(r.before), r.now - r.window);
      if r.before.now + r.before.window + 10.0 <= r.now { NoneAfter(TimesOf(r.before), Horizon(r)); }
    }
  }

  predicate SingleWindow(r: Requests, window: Time) { r.Next? ==> r.window == window && SingleWindow(r.before, window) }

  /** With one window per client the horizon is the start of the window, and what was said of
      single windows applies. */
  lemma {:induction false} SingleWindowExact(r: Requests, window: Time)
    requires WellTimed(TimesOf(r)) && window > 0.0 && SingleWindow(r, window)
    ensures RunRequests(r) == Run(TimesOf(r), window)
    ensures r.Next? ==> Horizon(r) == r.now - window
  {
    if r.Next? { SingleWindowExact(r.before, window); }
  }

  /** The limiter of one client in the form the program gives it.  `hasRedis` says whether a
      client object was configured, `up` whether the pipeline goes through. */
  class RateLimiter {
    const hasRedis: bool
    var stamps: set<Time>
    var expiry: Option<Time>
    ghost var requests: Requests

    ghost predicate Valid()
      reads this
    {
      WellTimed(TimesOf(requests)) && PositiveWindows(requests) && ZSet(stamps, expiry) == RunRequests(requests)
    }

    ghost predicate Timely(now: Time, window: Time)
      reads this
    {
      0.0 <= now && window > 0.0 && (requests.Next? ==> requests.now <= now)
    }

    constructor (hasRedis: bool)
      ensures Valid() && this.hasRedis == hasRedis && requests == NoRequests
    {
      this.hasRedis := hasRedis;
      stamps, expiry, requests := {}, None, NoRequests;
    }

    /** The pipeline: trim, add, count, re-expire. */
    method Record(now: Time, window: Time) returns (count: nat)
      requires Valid() && Timely(now, window)
      modifies this
      ensures Valid() && requests == Next(old(requests), now, window)
      ensures count == |DistinctAfter(TimesOf(requests), Horizon(requests))|
    {
      if expiry.Some? && expiry.value <= now { stamps := {}; }
      stamps := set t | t in stamps && !(0.0 <= t <= now - window);
      stamps := stamps + {now};
      count := |stamps|;
      expiry := Some(now + window + 10.0);
      requests := Next(requests, now, window);
      assert ZSet(stamps, expiry) == RunRequests(requests);
      HoldsBeyondHorizon(requests);
    }

    /** Without a working Redis everything is admitted.  Otherwise the decision counts the
        distinct timestamps beyond the horizon, and `retryAfter` is 1 whenever it is not 0: it
        is computed from the window's own length, not from the oldest entry. */
    method CheckRateLimit(now: Time, limit: int, window: Time, up: bool)
      returns (allowed: bool, remaining: int, retryAfter: int)
      requires Valid() && Timely(now, window)
      modifies this
      ensures Valid()
      ensures requests == if hasRedis && up then Next(old(requests), now, window) else old(requests)
      ensures !(hasRedis && up) ==> allowed && remaining == limit && retryAfter == 0
      ensures hasRedis && up ==>
                var count := |DistinctAfter(TimesOf(requests), Horizon(requests))|;
                && (allowed <==> count <= limit)
                && remaining == (if allowed then limit - count else 0)
                && retryAfter == (if allowed then 0 else 1) && retryAfter as real == (if allowed then 0.0 else RETRY_AFTER)
      ensures hasRedis && up && SingleWindow(requests, window) ==> (allowed <==> Admits(TimesOf(requests), window, limit))
    {
      if !hasRedis { return true, limit, 0; }
      if !up { return true, limit, 0; }
      var windowStart := now - window;
      var count := Record(now, window);
      HoldsBeyondHorizon(requests);
      if SingleWindow(requests, window) { SingleWindowExact(requests, window); }
      remaining := if limit - count > 0 then limit - count else 0;
      if count > limit {
        var untilReset := (window - (now - windowStart)).Floor;
        return false, 0, if untilReset > 1 then untilReset else 1;
      }
      return true, remaining, 0;
    }
  }
}
