/** The simple specification that the counters stand for: how many events are recent.  Events
    are known by their times alone, or each under its own identifier. */
module EventWindows {
  import opened Prelude

  /** The times of some events, latest last. */
  datatype Times = Never | Then(before: Times, now: Time)

  predicate Ordered(h: Times) {
    h.Then? ==> Ordered(h.before) && (h.before.Then? ==> h.before.now <= h.now)
  }

  /** How many events came later than `lo`: the sliding count when `lo` is now - window. */
  function CountAfter(h: Times, lo: Time): nat {
    match h
    case Never => 0
    case Then(before, now) => CountAfter(before, lo) + if lo < now then 1 else 0
  }

  /** The distinct times later than `lo`. */
  function DistinctAfter(h: Times, lo: Time): set<Time> {
    match h
    case Never => {}
    case Then(before, now) => if lo < now then DistinctAfter(before, lo) + {now} else DistinctAfter(before, lo)
  }

  function Length(h: Times): nat {
    match h
    case Never => 0
    case Then(before, _) => 1 + Length(before)
  }

  type Id = nat

  type Events = map<Id, Time>

  /** The events later than `lo`.  It is the simple specification of a sliding window: at
      `now`, the window (now - w, now] holds `After(events, now - w)`. */
  function After(events: Events, lo: Time): (r: Events)
    ensures forall e :: e in r <==> e in events && lo < events[e]
    ensures forall e | e in r :: r[e] == events[e]
  {
    map e | e in events && lo < events[e] :: events[e]
  }

  lemma AfterAfter(events: Events, a: Time, b: Time)
    ensures After(After(events, a), b) == After(events, MaxReal(a, b))
  {
  }

  /** Raising the bound never gains events, and loses some exactly when an event lies
      between the bounds. */
  lemma AfterShrinks(events: Events, a: Time, b: Time)
    requires a <= b
    ensures |After(events, b)| <= |After(events, a)|
    ensures |After(events, b)| == |After(events, a)| <==> forall e | e in events :: !(a < events[e] <= b)
  {
    var s, t := After(events, b).Keys, After(events, a).Keys;
    SubsetSize(s, t);
    assert |s| == |After(events, b)| && |t| == |After(events, a)|;
    if s == t {
      forall e | e in events ensures !(a < events[e] <= b) {
        assert e in s <==> e in t;
      }
    } else {
      var e :| e in t && e !in s;
      assert a < events[e] <= b;
    }
  }
}
