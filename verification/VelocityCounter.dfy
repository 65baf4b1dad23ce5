/** The shared velocity counter: a sorted set per entity whose key does not name the window. */
module VelocityCounters {
  import opened Prelude
  import opened EventWindows

  /** `Increment` records the event `id`, which is new. */
  datatype Op = Increment(now: Time, window: Time, id: Id) | GetCount(now: Time, window: Time)

  /** The calls on one entity so far. */
  datatype Calls = NoCalls | Then(before: Calls, op: Op)

  /** The sorted set of one entity: members with their scores, and the expiry of the key. */
  datatype ZSet = ZSet(scores: Events, expiry: Option<Time>)

  /** The members Redis still holds at `now`. */
  function Current(z: ZSet, now: Time): Events {
    if z.expiry.Some? && z.expiry.value <= now then map[] else z.scores
  }

  function Apply(z: ZSet, op: Op): ZSet {
    var kept := After(Current(z, op.now), op.now - op.window);
    match op
    case Increment(now, window, id) => ZSet(kept[id := now], Some(now + window + 60.0))
    case GetCount(_, _) => ZSet(kept, z.expiry)
  }

  function Run(calls: Calls): ZSet {
    match calls
    case NoCalls => ZSet(map[], None)
    case Then(before, op) => Apply(Run(before), op)
  }

  /** The events recorded so far. */
  function Recorded(calls: Calls): Events {
    match calls
    case NoCalls => map[]
    case Then(before, op) => if op.Increment? then Recorded(before)[op.id := op.now] else Recorded(before)
  }

  /** Windows are positive, the clock does not run backwards, identifiers are fresh. */
  predicate WellTimed(calls: Calls) {
    match calls
    case NoCalls => true
    case Then(before, op) =>
      && WellTimed(before) && op.window > 0.0
      && (before.Then? ==> before.op.now <= op.now)
      && (op.Increment? ==> op.id !in Recorded(before))
  }

  function LastIncrement(calls: Calls): Option<Op> {
    match calls
    case NoCalls => None
    case Then(before, op) => if op.Increment? then Some(op) else LastIncrement(before)
  }

  /** The key has lapsed by `now`: nothing was recorded for window + 60 seconds. */
  predicate Lapsed(calls: Calls, now: Time) {
    var last := LastIncrement(calls);
    last.Some? && last.value.now + last.value.window + 60.0 <= now
  }

  /** The latest bound below which some call has discarded events: the prune bounds of all
      calls, whatever their window, and the last recording before each lapse. */
  function Horizon(calls: Calls): Time
    requires calls.Then?
  {
    var before, op := calls.before, calls.op;
    var bound := op.now - op.window;
    var pruned := if before.Then? then MaxReal(Horizon(before), bound) else bound;
    if Lapsed(before, op.now) then MaxReal(pruned, LastIncrement(before).value.now) else pruned
  }

  lemma {:induction false} RecordedInPast(calls: Calls)
    requires WellTimed(calls)
    ensures LastIncrement(calls).None? ==> Recorded(calls) == map[] && Run(calls).expiry == None
    ensures LastIncrement(calls).Some? ==>
              var last := LastIncrement(calls).value;
              && calls.Then? && last.window > 0.0 && last.now <= calls.op.now
              && Run(calls).expiry == Some(last.now + last.window + 60.0)
              && forall e | e in Recorded(calls) :: Recorded(calls)[e] <= last.now
  {
    if calls.Then? { RecordedInPast(calls.before); }
  }

  lemma {:induction false} HorizonBelowNow(calls: Calls)
    requires WellTimed(calls) && calls.Then?
    ensures Horizon(calls) < calls.op.now
  {
    RecordedInPast(calls.before);
    if calls.before.Then? { HorizonBelowNow(calls.before); }
  }

  /** What a call keeps of the events recorded before it. */
  lemma KeptBeyondHorizon(calls: Calls, z: ZSet)
    requires WellTimed(calls) && calls.Then? && z == Run(calls.before)
    requires calls.before.Then? ==> z.scores == After(Recorded(calls.before), Horizon(calls.before))
    ensures After(Current(z, calls.op.now), calls.op.now - calls.op.window)
         == After(Recorded(calls.before), Horizon(calls))
  {
    RecordedInPast(calls.before);
    if calls.before.Then? && !Lapsed(calls.before, calls.op.now) {
      AfterAfter(Recorded(calls.before), Horizon(calls.before), calls.op.now - calls.op.window);
    }
  }

  /** For arbitrary mixtures of calls and windows, the set holds exactly the recorded events
      beyond the horizon. */
  lemma {:induction false} HoldsEventsBeyondHorizon(calls: Calls)
    requires WellTimed(calls) && calls.Then?
    ensures Run(calls).scores == After(Recorded(calls), Horizon(calls))
  {
    if calls.before.Then? { HoldsEventsBeyondHorizon(calls.before); }
    KeptBeyondHorizon(calls, Run(calls.before));
    HorizonBelowNow(calls);
    assert Run(calls) == Apply(Run(calls.before), calls.op);
  }

  /** The count never exceeds the number of events in the window, and misses some exactly
      when an earlier, shorter window or a lapse has discarded events the window covers. */
  lemma CountAgainstWindow(calls: Calls)
    requires WellTimed(calls) && calls.Then?
    ensures var start, events := calls.op.now - calls.op.window, Recorded(calls);
            && |Run(calls).scores| <= |After(events, start)|
            && (|Run(calls).scores| == |After(events, start)| <==>
                  forall e | e in events :: !(start < events[e] <= Horizon(calls)))
  {
    HoldsEventsBeyondHorizon(calls);
    AfterShrinks(Recorded(calls), calls.op.now - calls.op.window, Horizon(calls));
  }

  predicate SingleWindow(calls: Calls, window: Time) {
    calls.Then? ==> calls.op.window == window && SingleWindow(calls.before, window)
  }

  lemma {:induction false} LastIncrementWindow(calls: Calls, window: Time)
    requires SingleWindow(calls, window)
    ensures LastIncrement(calls).Some? ==> LastIncrement(calls).value.window == window
  {
    if calls.Then? && !calls.op.Increment? { LastIncrementWindow(calls.before, window); }
  }

  lemma {:induction false} SingleWindowHorizon(calls: Calls, window: Time)
    requires WellTimed(calls) && calls.Then? && SingleWindow(calls, window)
    ensures Horizon(calls) == calls.op.now - window
  {
    LastIncrementWindow(calls.before, window);
    if calls.before.Then? { SingleWindowHorizon(calls.before, window); }
  }

  /** With one window per entity the set holds exactly the window, so the count is exact;
      the expiry of the key is never seen. */
  lemma SingleWindowIsExact(calls: Calls, window: Time)
    requires WellTimed(calls) && calls.Then? && SingleWindow(calls, window)
    ensures Run(calls).scores == After(Recorded(calls), calls.op.now - window)
  {
    HoldsEventsBeyondHorizon(calls);
    SingleWindowHorizon(calls, window);
  }

  const MIXED := Calls.Then(Calls.Then(Calls.Then(NoCalls, Increment(0.0, 3600.0, 1)), GetCount(100.0, 60.0)), GetCount(100.0, 3600.0))

  /** Asking about a short window makes the long one forget. */
  lemma MixedWindowsUndercount()
    ensures WellTimed(MIXED) && |Run(MIXED).scores| < |After(Recorded(MIXED), MIXED.op.now - MIXED.op.window)|
  {
    var events := Recorded(MIXED);
    assert events == map[1 := 0.0];
    assert Horizon(MIXED) >= 40.0;
    CountAgainstWindow(MIXED);
    assert 1 in events;
  }

  /** The counter of one entity in the form the program gives it. */
  class VelocityCounter {
    var scores: Events
    var expiry: Option<Time>
    ghost var calls: Calls

    ghost predicate Valid()
      reads this
    {
      WellTimed(calls) && ZSet(scores, expiry) == Run(calls)
    }

    ghost predicate Timely(now: Time, window: Time)
      reads this
    {
      window > 0.0 && (calls.Then? ==> calls.op.now <= now)
    }

    constructor ()
      ensures Valid() && calls == NoCalls
    {
      scores, expiry, calls := map[], None, NoCalls;
    }

    /** Redis drops an expired key; then `ZREMRANGEBYSCORE key -inf bound`. */
    method Prune(now: Time, bound: Time)
      modifies this`scores
      ensures scores == After(Current(ZSet(old(scores), expiry), now), bound)
    {
      if expiry.Some? && expiry.value <= now { scores := map[]; }
      scores := map e | e in scores && bound < scores[e] :: scores[e];
    }

    method Increment(now: Time, window: Time, id: Id) returns (count: nat)
      requires Valid() && Timely(now, window) && id !in Recorded(calls)
      modifies this
      ensures Valid() && calls == Calls.Then(old(calls), Op.Increment(now, window, id))
      ensures count == |After(Recorded(calls), Horizon(calls))|
    {
      Prune(now, now - window);
      scores := scores[id := now];
      count := |scores|;
      expiry := Some(now + window + 60.0);
      calls := Calls.Then(calls, Op.Increment(now, window, id));
      assert ZSet(scores, expiry) == Run(calls);
      HoldsEventsBeyondHorizon(calls);
    }

    method GetCount(now: Time, window: Time) returns (count: nat)
      requires Valid() && Timely(now, window)
      modifies this
      ensures Valid() && calls == Calls.Then(old(calls), Op.GetCount(now, window))
      ensures count == |After(Recorded(calls), Horizon(calls))|
    {
      Prune(now, now - window);
      count := |(set e | e in scores && now - window <= scores[e])|;
      assert (set e | e in scores && now - window <= scores[e]) == scores.Keys;
      calls := Calls.Then(calls, Op.GetCount(now, window));
      HoldsEventsBeyondHorizon(calls);
    }

    method CheckThreshold(now: Time, window: Time, threshold: int) returns (exceeded: bool)
      requires Valid() && Timely(now, window)
      modifies this
      ensures Valid() && calls == Calls.Then(old(calls), Op.GetCount(now, window))
      ensures exceeded <==> |After(Recorded(calls), Horizon(calls))| >= threshold
    {
      var count := GetCount(now, window);
      exceeded := count >= threshold;
    }
  }
}
