/** The four counters side by side, on one history of one entity's events and one window. */
module FourCounters {
  import opened Prelude
  import opened EventWindows
  import VelocityCounters
  import VelocityAggregation
  import RateLimiting
  import FixedWindow

  /** The same events as the velocity counter sees them: one increment each. */
  function Increments(h: Times, window: Time): VelocityCounters.Calls {
    match h
    case Never => VelocityCounters.NoCalls
    case Then(before, now) =>
      VelocityCounters.Calls.Then(Increments(before, window), VelocityCounters.Op.Increment(now, window, Length(before)))
  }

  /** And as the fixed-window counter sees them: checks of one rule. */
  function ChecksOf(h: Times, window: Time): FixedWindow.Checks {
    match h
    case Never => FixedWindow.NoChecks
    case Then(before, now) => FixedWindow.Next(ChecksOf(before, window), now, window, 0)
  }

  lemma {:induction false} ChecksAreTimely(h: Times, window: Time)
    requires Ordered(h) && window > 0.0
    ensures FixedWindow.TimesOf(ChecksOf(h, window)) == h && FixedWindow.Timely(ChecksOf(h, window))
    ensures FixedWindow.OneWindow(ChecksOf(h, window), window)
  {
    if h.Then? { ChecksAreTimely(h.before, window); }
  }

  /** The times of a customer's transactions. */
  function TimesOf(h: VelocityAggregation.History): Times {
    match h
    case Start => Never
    case Then(before, txn) => Then(TimesOf(before), txn.at)
  }

  lemma {:induction false} IncrementsAreTimely(h: Times, window: Time)
    requires Ordered(h) && window > 0.0
    ensures VelocityCounters.WellTimed(Increments(h, window)) && VelocityCounters.SingleWindow(Increments(h, window), window)
    ensures forall e: Id :: e in VelocityCounters.Recorded(Increments(h, window)) <==> e < Length(h)
  {
    if h.Then? {
      IncrementsAreTimely(h.before, window);
      var before := VelocityCounters.Recorded(Increments(h.before, window));
      assert VelocityCounters.Recorded(Increments(h, window)) == before[Length(h.before) := h.now];
    }
  }

  lemma {:induction false} RecordedAfter(h: Times, window: Time, lo: Time)
    requires Ordered(h) && window > 0.0
    ensures |After(VelocityCounters.Recorded(Increments(h, window)), lo)| == CountAfter(h, lo)
  {
    if h.Then? {
      RecordedAfter(h.before, window, lo);
      IncrementsAreTimely(h.before, window);
      var before := VelocityCounters.Recorded(Increments(h.before, window));
      var id := Length(h.before);
      if lo < h.now {
        assert After(before[id := h.now], lo) == After(before, lo)[id := h.now];
      } else {
        assert After(before[id := h.now], lo) == After(before, lo);
      }
    }
  }

  lemma {:induction false} AggregatedAfter(h: VelocityAggregation.History, lo: Time)
    ensures VelocityAggregation.Count(VelocityAggregation.After(h, lo)) == CountAfter(TimesOf(h), lo)
    ensures VelocityAggregation.Ordered(h) <==> Ordered(TimesOf(h))
  {
    if h.Then? { AggregatedAfter(h.before, lo); }
  }

  /** No two of the later events share a time. */
  predicate DistinctTimes(h: Times, lo: Time) {
    h.Then? ==> DistinctTimes(h.before, lo) && (lo < h.now ==> h.now !in DistinctAfter(h.before, lo))
  }

  lemma {:induction false} DistinctAtMostAll(h: Times, lo: Time)
    ensures |DistinctAfter(h, lo)| <= CountAfter(h, lo)
    ensures |DistinctAfter(h, lo)| == CountAfter(h, lo) <==> DistinctTimes(h, lo)
  {
    if h.Then? { DistinctAtMostAll(h.before, lo); }
  }

  /** The true count of the window (now - w, now] at the last event. */
  function Sliding(h: Times, window: Time): nat
    requires h.Then?
  {
    CountAfter(h, h.now - window)
  }

  /** What each of the four reports at the last event. */
  function VelocityReport(h: Times, window: Time): nat { |VelocityCounters.Run(Increments(h, window)).scores| }

  function AggregateReport(h: VelocityAggregation.History, window: Time): nat {
    VelocityAggregation.ViewOf(VelocityAggregation.Run(h, window)).count
  }

  function LimiterReport(h: Times, window: Time): nat { |RateLimiting.Run(h, window).stamps| }

  function FixedReport(h: Times, window: Time): nat {
    var c := FixedWindow.Run(ChecksOf(h, window));
    if c.Present? then c.count else 0
  }

  lemma VelocityIsSliding(h: Times, window: Time)
    requires Ordered(h) && h.Then? && window > 0.0
    ensures VelocityReport(h, window) == Sliding(h, window)
  {
    IncrementsAreTimely(h, window);
    VelocityCounters.SingleWindowIsExact(Increments(h, window), window);
    RecordedAfter(h, window, h.now - window);
  }

  lemma AggregateIsSliding(h: VelocityAggregation.History, window: Time)
    requires VelocityAggregation.Ordered(h) && h.Then? && window > 0.0
    ensures Ordered(TimesOf(h)) && AggregateReport(h, window) == Sliding(TimesOf(h), window)
  {
    VelocityAggregation.SnapshotExactly(h, window);
    AggregatedAfter(h, h.txn.at - window);
  }

  predicate NoneBeforeKey(h: Times, window: Time)
    requires h.Then?
  {
    FixedWindow.CountBetween(h, h.now - window, FixedWindow.Creator(ChecksOf(h, window)).now) == 0
  }

  lemma FixedAgainstSliding(h: Times, window: Time)
    requires Ordered(h) && h.Then? && window > 0.0
    ensures FixedReport(h, window) <= Sliding(h, window)
    ensures FixedReport(h, window) == Sliding(h, window) <==> NoneBeforeKey(h, window)
  {
    ChecksAreTimely(h, window);
    FixedWindow.OneWindowKeysAreYoung(ChecksOf(h, window), window);
    FixedWindow.CountAgainstSliding(ChecksOf(h, window));
  }

  lemma LimiterAgainstSliding(h: Times, window: Time)
    requires RateLimiting.WellTimed(h) && h.Then? && window > 0.0
    ensures LimiterReport(h, window) <= Sliding(h, window)
    ensures LimiterReport(h, window) == Sliding(h, window) <==> DistinctTimes(h, h.now - window)
  {
    RateLimiting.HoldsTheWindow(h, window);
    DistinctAtMostAll(h, h.now - window);
  }

  /** On one history and one window: the velocity counter and the aggregator both report the
      true sliding count; the rate limiter reports it exactly when no two events of the window
      share a timestamp, and less otherwise; the fixed-window counter reports it exactly when no
      event of the window came before its key was created, and less otherwise. */
  lemma CountersCompared(h: VelocityAggregation.History, times: Times, window: Time)
    requires VelocityAggregation.Ordered(h) && h.Then? && window > 0.0
    requires times == TimesOf(h) && RateLimiting.WellTimed(times)
    ensures times.Then?
    ensures AggregateReport(h, window) == VelocityReport(times, window) == Sliding(times, window)
    ensures LimiterReport(times, window) <= Sliding(times, window)
    ensures LimiterReport(times, window) == Sliding(times, window) <==> DistinctTimes(times, times.now - window)
    ensures FixedReport(times, window) <= Sliding(times, window)
    ensures FixedReport(times, window) == Sliding(times, window) <==> NoneBeforeKey(times, window)
  {
    AggregateIsSliding(h, window);
    VelocityIsSliding(times, window);
    LimiterAgainstSliding(times, window);
    FixedAgainstSliding(times, window);
  }
}
