/** The stream processor's per-customer aggregates over four windows. */
module VelocityAggregation {
  import opened Prelude

  datatype Txn = Txn(at: Time, amount: real, merchant: string, country: string)

  /** Transactions of one customer, latest last. */
  datatype History = Start | Then(before: History, txn: Txn)

  predicate Ordered(h: History) {
    h.Then? ==> Ordered(h.before) && (h.before.Then? ==> h.before.txn.at <= h.txn.at)
  }

  predicate NonNegative(h: History) {
    h.Then? ==> NonNegative(h.before) && h.txn.amount >= 0.0
  }

  // --- What the keys of one window should mean --------------------------------------

  /** The transactions later than `lo`. */
  function After(h: History, lo: Time): History {
    match h
    case Start => Start
    case Then(before, txn) => if lo < txn.at then Then(After(before, lo), txn) else After(before, lo)
  }

  /** The longest suffix whose consecutive gaps are all shorter than `gap`. */
  function Burst(h: History, gap: Time): History {
    match h
    case Start => Start
    case Then(before, txn) =>
      if before.Then? && txn.at < before.txn.at + gap then Then(Burst(before, gap), txn) else Then(Start, txn)
  }

  function Count(h: History): nat {
    match h
    case Start => 0
    case Then(before, _) => 1 + Count(before)
  }

  function Sum(h: History): real {
    match h
    case Start => 0.0
    case Then(before, txn) => Sum(before) + txn.amount
  }

  function Merchants(h: History): set<string> {
    match h
    case Start => {}
    case Then(before, txn) => Merchants(before) + {txn.merchant}
  }

  function Countries(h: History): set<string> {
    match h
    case Start => {}
    case Then(before, txn) => Countries(before) + {txn.country}
  }

  /** The largest amount, or 0 when none is positive. */
  function Largest(h: History): real {
    match h
    case Start => 0.0
    case Then(before, txn) => MaxReal(Largest(before), txn.amount)
  }

  // --- What the program keeps -------------------------------------------------------

  /** The four keys of one window.  They are written in one pipeline with one time to live,
      so they expire together. */
  datatype Keys = Keys(txns: History, sum: real, merchants: set<string>, countries: set<string>, expiry: Option<Time>)

  const NO_KEYS := Keys(Start, 0.0, {}, {}, None)

  function Live(k: Keys, now: Time): Keys {
    if k.expiry.Some? && k.expiry.value <= now then NO_KEYS else k
  }

  /** One transaction on the keys of a window of `seconds`: only the sorted set is trimmed. */
  function Apply(k: Keys, seconds: Time, txn: Txn): Keys {
    var l := Live(k, txn.at);
    Keys(Then(After(l.txns, txn.at - seconds), txn), l.sum + txn.amount,
         l.merchants + {txn.merchant}, l.countries + {txn.country}, Some(txn.at + seconds + 10.0))
  }

  function Run(h: History, seconds: Time): Keys {
    match h
    case Start => NO_KEYS
    case Then(before, txn) => Apply(Run(before, seconds), seconds, txn)
  }

  lemma {:induction false} AfterAfter(h: History, a: Time, b: Time)
    ensures After(After(h, a), b) == After(h, MaxReal(a, b))
  {
    if h.Then? { AfterAfter(h.before, a, b); }
  }

  lemma {:induction false} AfterNone(h: History, lo: Time)
    requires Ordered(h) && (h.Then? ==> h.txn.at <= lo)
    ensures After(h, lo) == Start
  {
    if h.Then? { AfterNone(h.before, lo); }
  }

  /** The sorted set is exactly the window; the sum and the distinct sets range over the
      whole burst, because their keys are only ever dropped, never trimmed. */
  lemma {:induction false} KeysMeaning(h: History, seconds: Time)
    requires Ordered(h) && h.Then? && seconds > 0.0
    ensures var k, burst := Run(h, seconds), Burst(h, seconds + 10.0);
            && k.txns == After(h, h.txn.at - seconds)
            && k.sum == Sum(burst) && k.merchants == Merchants(burst) && k.countries == Countries(burst)
            && k.expiry == Some(h.txn.at + seconds + 10.0)
  {
    if h.before.Then? {
      KeysMeaning(h.before, seconds);
      AfterAfter(h.before, h.before.txn.at - seconds, h.txn.at - seconds);
      if h.before.txn.at + seconds + 10.0 <= h.txn.at { AfterNone(h.before, h.txn.at - seconds); }
    }
  }

  // --- Windows against bursts ---------------------------------------------------------

  /** `a` is a suffix of `b`. */
  predicate Suffix(a: History, b: History) {
    a.Start? || (b.Then? && a.txn == b.txn && Suffix(a.before, b.before))
  }

  lemma {:induction false} SuffixMonotone(a: History, b: History)
    requires Suffix(a, b)
    ensures Count(a) <= Count(b) && Merchants(a) <= Merchants(b) && Countries(a) <= Countries(b)
    ensures NonNegative(b) ==> 0.0 <= Sum(a) <= Sum(b)
    ensures 0.0 <= Largest(a) <= Largest(b)
  {
    if b.Then? { SuffixMonotone(if a.Start? then Start else a.before, b.before); }
  }

  lemma {:induction false} SuffixNonNegative(a: History, b: History)
    requires Suffix(a, b) && NonNegative(b)
    ensures NonNegative(a)
  {
    if a.Then? { SuffixNonNegative(a.before, b.before); }
  }

  /** A window that reaches back no further than `gap` before the last transaction lies
      inside the burst. */
  lemma {:induction false} WindowInBurst(h: History, lo: Time, gap: Time)
    requires Ordered(h) && (h.Then? ==> h.txn.at - gap <= lo)
    ensures Suffix(After(h, lo), Burst(h, gap))
  {
    if h.Then? && h.before.Then? {
      if h.txn.at <= lo {
        AfterNone(h, lo);
      } else if h.txn.at < h.before.txn.at + gap {
        WindowInBurst(h.before, lo, gap);
      } else {
        AfterNone(h.before, lo);
      }
    }
  }

  lemma {:induction false} WindowsNest(h: History, a: Time, b: Time)
    requires Ordered(h) && a >= b
    ensures Suffix(After(h, a), After(h, b))
  {
    if h.Then? {
      if a < h.txn.at { WindowsNest(h.before, a, b); } else { AfterNone(h, a); }
    }
  }

  lemma {:induction false} BurstsNest(h: History, a: Time, b: Time)
    requires a <= b
    ensures Suffix(Burst(h, a), Burst(h, b))
  {
    if h.Then? { BurstsNest(h.before, a, b); }
  }

  // --- The snapshot ---------------------------------------------------------------------

  datatype View = View(count: nat, sum: real, merchants: nat, countries: nat, largest: real)

  function ViewOf(k: Keys): View {
    View(Count(k.txns), k.sum, |k.merchants|, |k.countries|, Largest(k.txns))
  }

  predicate Below(a: View, b: View) {
    a.count <= b.count && a.sum <= b.sum && a.merchants <= b.merchants && a.countries <= b.countries && a.largest <= b.largest
  }

  /** What a snapshot shows for a window: count and maximum of (now - S, now], sum and
      distinct counts of the burst. */
  function Shown(h: History, seconds: Time): View
    requires h.Then?
  {
    var window, burst := After(h, h.txn.at - seconds), Burst(h, seconds + 10.0);
    View(Count(window), Sum(burst), |Merchants(burst)|, |Countries(burst)|, Largest(window))
  }

  lemma SnapshotExactly(h: History, seconds: Time)
    requires Ordered(h) && h.Then? && seconds > 0.0
    ensures ViewOf(Run(h, seconds)) == Shown(h, seconds)
  {
    KeysMeaning(h, seconds);
  }

  /** Sum and distinct counts are never below those of the true window when amounts are not
      negative. */
  lemma SnapshotAgainstWindow(h: History, seconds: Time)
    requires Ordered(h) && h.Then? && seconds > 0.0
    ensures var v, window := ViewOf(Run(h, seconds)), After(h, h.txn.at - seconds);
            && v.count == Count(window) && v.largest == Largest(window)
            && |Merchants(window)| <= v.merchants && |Countries(window)| <= v.countries
            && (NonNegative(h) ==> Sum(window) <= v.sum)
  {
    SnapshotExactly(h, seconds);
    var window, burst := After(h, h.txn.at - seconds), Burst(h, seconds + 10.0);
    WindowInBurst(h, h.txn.at - seconds, seconds + 10.0);
    SuffixMonotone(window, burst);
    SubsetSize(Merchants(window), Merchants(burst));
    SubsetSize(Countries(window), Countries(burst));
    if NonNegative(h) { BurstSuffix(h, seconds + 10.0); SuffixNonNegative(burst, h); }
  }

  /** The transactions at `lo` or earlier. */
  function UpTo(h: History, lo: Time): History {
    match h
    case Start => Start
    case Then(before, txn) => if lo < txn.at then UpTo(before, lo) else Then(UpTo(before, lo), txn)
  }

  /** The transactions of the burst that have left the window. */
  function AgedOut(h: History, seconds: Time): History
    requires h.Then?
  {
    UpTo(Burst(h, seconds + 10.0), h.txn.at - seconds)
  }

  lemma {:induction false} AfterAndUpTo(h: History, lo: Time)
    ensures Sum(h) == Sum(After(h, lo)) + Sum(UpTo(h, lo))
    ensures Merchants(h) == Merchants(After(h, lo)) + Merchants(UpTo(h, lo))
    ensures Countries(h) == Countries(After(h, lo)) + Countries(UpTo(h, lo))
    ensures UpTo(h, lo) == Start <==> After(h, lo) == h
  {
    if h.Then? {
      AfterAndUpTo(h.before, lo);
      AfterIsNoLonger(h.before, lo);
    }
  }

  lemma {:induction false} AfterIsNoLonger(h: History, lo: Time)
    ensures Count(After(h, lo)) <= Count(h)
  {
    if h.Then? { AfterIsNoLonger(h.before, lo); }
  }

  lemma {:induction false} WindowOfBurst(h: History, lo: Time, gap: Time)
    requires Ordered(h) && (h.Then? ==> h.txn.at - gap <= lo)
    ensures After(Burst(h, gap), lo) == After(h, lo)
  {
    if h.Then? && h.before.Then? {
      if h.txn.at < h.before.txn.at + gap { WindowOfBurst(h.before, lo, gap); } else { AfterNone(h.before, lo); }
    }
  }

  /** What a snapshot reports beyond the true window is exactly what has aged out of it. */
  lemma SnapshotExcess(h: History, seconds: Time)
    requires Ordered(h) && h.Then? && seconds > 0.0
    ensures var window, aged := After(h, h.txn.at - seconds), AgedOut(h, seconds);
            && Run(h, seconds).sum == Sum(window) + Sum(aged)
            && Run(h, seconds).merchants == Merchants(window) + Merchants(aged)
            && Run(h, seconds).countries == Countries(window) + Countries(aged)
            && (aged == Start <==> Burst(h, seconds + 10.0) == window)
  {
    KeysMeaning(h, seconds);
    AfterAndUpTo(Burst(h, seconds + 10.0), h.txn.at - seconds);
    WindowOfBurst(h, h.txn.at - seconds, seconds + 10.0);
  }

  predicate AllZero(h: History) { h.Then? ==> h.txn.amount == 0.0 && AllZero(h.before) }

  predicate Positive(h: History) { h.Then? ==> Positive(h.before) && h.txn.amount > 0.0 }

  lemma {:induction false} SumZero(h: History)
    requires NonNegative(h)
    ensures Sum(h) >= 0.0 && (Sum(h) == 0.0 <==> AllZero(h))
    ensures Positive(h) && AllZero(h) ==> h == Start
  {
    if h.Then? { SumZero(h.before); }
  }

  lemma {:induction false} UpToKeepsSigns(h: History, lo: Time)
    ensures NonNegative(h) ==> NonNegative(UpTo(h, lo))
    ensures Positive(h) ==> Positive(UpTo(h, lo)) && NonNegative(h)
  {
    if h.Then? { UpToKeepsSigns(h.before, lo); }
  }

  lemma {:induction false} BurstKeepsSigns(h: History, gap: Time)
    ensures NonNegative(h) ==> NonNegative(Burst(h, gap))
    ensures Positive(h) ==> Positive(Burst(h, gap))
  {
    if h.Then? && h.before.Then? { BurstKeepsSigns(h.before, gap); }
  }

  lemma AgedOutSigns(h: History, seconds: Time)
    requires h.Then?
    ensures NonNegative(h) ==> NonNegative(AgedOut(h, seconds))
    ensures Positive(h) ==> NonNegative(h) && Positive(AgedOut(h, seconds))
  {
    BurstKeepsSigns(h, seconds + 10.0);
    UpToKeepsSigns(Burst(h, seconds + 10.0), h.txn.at - seconds);
    UpToKeepsSigns(h, h.txn.at);
  }

  /** The sum is the window's exactly when nothing but zero amounts has aged out; for positive
      amounts, exactly when the burst is the window. */
  lemma SumIsWindowExactly(h: History, seconds: Time)
    requires Ordered(h) && NonNegative(h) && h.Then? && seconds > 0.0
    ensures var k, window := Run(h, seconds), After(h, h.txn.at - seconds);
            && (k.sum == Sum(window) <==> AllZero(AgedOut(h, seconds)))
            && (Positive(h) ==> (k.sum == Sum(window) <==> Burst(h, seconds + 10.0) == window))
  {
    SnapshotExcess(h, seconds);
    AgedOutSigns(h, seconds);
    SumZero(AgedOut(h, seconds));
  }

  /** And the distinct counts are the window's exactly when every merchant, or country, that
      aged out is still present. */
  lemma SnapshotIsWindowExactly(h: History, seconds: Time)
    requires Ordered(h) && h.Then? && seconds > 0.0
    ensures var v, window, aged := ViewOf(Run(h, seconds)), After(h, h.txn.at - seconds), AgedOut(h, seconds);
            && (NonNegative(h) ==> (v.sum == Sum(window) <==> AllZero(aged)))
            && (v.merchants == |Merchants(window)| <==> Merchants(aged) <= Merchants(window))
            && (v.countries == |Countries(window)| <==> Countries(aged) <= Countries(window))
  {
    var window, aged := After(h, h.txn.at - seconds), AgedOut(h, seconds);
    if NonNegative(h) { SumIsWindowExactly(h, seconds); }
    assert Run(h, seconds).merchants == Merchants(window) + Merchants(aged) by { SnapshotExcess(h, seconds); }
    assert Run(h, seconds).countries == Countries(window) + Countries(aged) by { SnapshotExcess(h, seconds); }
    UnionSize(Merchants(window), Merchants(aged));
    UnionSize(Countries(window), Countries(aged));
  }

  lemma {:induction false} BurstSuffix(h: History, gap: Time)
    ensures Suffix(Burst(h, gap), h)
  {
    if h.Then? && h.before.Then? { BurstSuffix(h.before, gap); }
  }

  /** A longer window never shows less, in any of its five figures. */
  lemma SnapshotsNest(h: History, short: Time, long: Time)
    requires Ordered(h) && NonNegative(h) && h.Then? && 0.0 < short <= long
    ensures Below(ViewOf(Run(h, short)), ViewOf(Run(h, long)))
  {
    SnapshotExactly(h, short);
    SnapshotExactly(h, long);
    WindowsMonotone(h, h.txn.at - short, h.txn.at - long);
    BurstsMonotone(h, short + 10.0, long + 10.0);
  }

  lemma WindowsMonotone(h: History, a: Time, b: Time)
    requires Ordered(h) && a >= b
    ensures Count(After(h, a)) <= Count(After(h, b)) && Largest(After(h, a)) <= Largest(After(h, b))
  {
    WindowsNest(h, a, b);
    SuffixMonotone(After(h, a), After(h, b));
  }

  lemma BurstsMonotone(h: History, short: Time, long: Time)
    requires NonNegative(h) && short <= long
    ensures var small, big := Burst(h, short), Burst(h, long);
            Sum(small) <= Sum(big) && |Merchants(small)| <= |Merchants(big)| && |Countries(small)| <= |Countries(big)|
  {
    var small, big := Burst(h, short), Burst(h, long);
    BurstsNest(h, short, long);
    BurstSuffix(h, long);
    SuffixNonNegative(big, h);
    SuffixMonotone(small, big);
    SubsetSize(Merchants(small), Merchants(big));
    SubsetSize(Countries(small), Countries(big));
  }

  /** `n` + 1 transactions of amount 1, one window length apart. */
  function Steady(n: nat, step: Time): (h: History)
    ensures h.Then?
  {
    if n == 0 then Then(Start, Txn(0.0, 1.0, "m", "c"))
    else Then(Steady(n - 1, step), Txn(Steady(n - 1, step).txn.at + step, 1.0, "m", "c"))
  }

  lemma {:induction false} SteadyFacts(n: nat, step: Time)
    requires step > 0.0
    ensures Ordered(Steady(n, step)) && NonNegative(Steady(n, step))
    ensures Burst(Steady(n, step), step + 10.0) == Steady(n, step)
    ensures Sum(Steady(n, step)) == (n + 1) as real
  {
    if n > 0 { SteadyFacts(n - 1, step); }
  }

  /** The reported sum is not bounded by what the window holds: one transaction in the
      window, and a sum as large as you like. */
  lemma SumOutgrowsWindow(n: nat, seconds: Time)
    requires seconds > 0.0
    ensures var v := ViewOf(Run(Steady(n, seconds), seconds));
            v.count == 1 && v.sum == (n + 1) as real && Ordered(Steady(n, seconds))
  {
    assert Ordered(Steady(n, seconds)) by { SteadyFacts(n, seconds); }
    SnapshotExactly(Steady(n, seconds), seconds);
    SteadyShown(n, seconds);
  }

  lemma SteadyShown(n: nat, step: Time)
    requires step > 0.0
    ensures Shown(Steady(n, step), step).count == 1 && Shown(Steady(n, step), step).sum == (n + 1) as real
  {
    SteadyWindow(n, step);
    assert Burst(Steady(n, step), step + 10.0) == Steady(n, step) by { SteadyFacts(n, step); }
    assert Sum(Steady(n, step)) == (n + 1) as real by { SteadyFacts(n, step); }
  }

  lemma SteadyWindow(n: nat, step: Time)
    requires step > 0.0
    ensures Count(After(Steady(n, step), Steady(n, step).txn.at - step)) == 1
  {
    var h := Steady(n, step);
    SteadyFacts(n, step);
    assert h.before.Then? ==> h.before.txn.at <= h.txn.at - step;
    AfterNone(h.before, h.txn.at - step);
  }

  /** The profile endpoint reads the keys at `now` without trimming them.  Trimming what it
      sees would give exactly the window (now - S, now], so it never under-counts, and
      over-counts only transactions that aged out since the last one. */
  lemma ProfileRead(h: History, seconds: Time, now: Time)
    requires Ordered(h) && h.Then? && seconds > 0.0 && h.txn.at <= now
    ensures var read := Live(Run(h, seconds), now);
            && After(read.txns, now - seconds) == After(h, now - seconds)
            && Count(After(h, now - seconds)) <= Count(read.txns) <= Count(After(h, h.txn.at - seconds))
            && (NonNegative(h) ==> Sum(After(h, now - seconds)) <= read.sum)
  {
    ReadTransactions(h, seconds, now);
    if NonNegative(h) { ReadSum(h, seconds, now); }
  }

  lemma ReadTransactions(h: History, seconds: Time, now: Time)
    requires Ordered(h) && h.Then? && seconds > 0.0 && h.txn.at <= now
    ensures var read := Live(Run(h, seconds), now);
            && After(read.txns, now - seconds) == After(h, now - seconds)
            && Count(After(h, now - seconds)) <= Count(read.txns) <= Count(After(h, h.txn.at - seconds))
  {
    KeysMeaning(h, seconds);
    WindowsMonotone(h, now - seconds, h.txn.at - seconds);
    AfterAfter(h, h.txn.at - seconds, now - seconds);
    if h.txn.at + seconds + 10.0 <= now { AfterNone(h, now - seconds); }
  }

  lemma ReadSum(h: History, seconds: Time, now: Time)
    requires Ordered(h) && NonNegative(h) && h.Then? && seconds > 0.0 && h.txn.at <= now
    ensures Sum(After(h, now - seconds)) <= Live(Run(h, seconds), now).sum
  {
    var window := After(h, h.txn.at - seconds);
    KeysMeaning(h, seconds);
    if h.txn.at + seconds + 10.0 <= now {
      AfterNone(h, now - seconds);
    } else {
      assert Sum(window) <= Run(h, seconds).sum by { SnapshotAgainstWindow(h, seconds); }
      WindowsNest(h, now - seconds, h.txn.at - seconds);
      AfterNonNegative(h, h.txn.at - seconds);
      SuffixMonotone(After(h, now - seconds), window);
    }
  }

  lemma {:induction false} AfterNonNegative(h: History, lo: Time)
    requires NonNegative(h)
    ensures NonNegative(After(h, lo))
  {
    if h.Then? { AfterNonNegative(h.before, lo); }
  }

  /** The amounts as `ZRANGE` lists them. */
  function Amounts(h: History): seq<real> {
    match h
    case Start => []
    case Then(before, txn) => Amounts(before) + [txn.amount]
  }

  lemma {:induction false} LargestIsMaximum(h: History)
    ensures Largest(h) >= 0.0 && (Largest(h) == 0.0 || Largest(h) in Amounts(h))
    ensures forall a | a in Amounts(h) :: a <= Largest(h)
  {
    if h.Then? { LargestIsMaximum(h.before); }
  }

  const SECONDS: seq<Time> := [60.0, 300.0, 3600.0, 86400.0]

  lemma WindowLengths()
    ensures |SECONDS| == 4 && SECONDS[0] == 60.0 && SECONDS[1] == 300.0 && SECONDS[2] == 3600.0 && SECONDS[3] == 86400.0
  {
  }

  /** The aggregator of one customer in the form the program gives it. */
  class VelocityAggregator {
    var keys: seq<Keys>
    ghost var history: History

    ghost predicate Valid()
      reads this
    {
      && Ordered(history) && |keys| == |SECONDS|
      && forall i | 0 <= i < |SECONDS| :: keys[i] == Run(history, SECONDS[i])
    }

    constructor ()
      ensures Valid() && history == Start
    {
      keys, history := [NO_KEYS, NO_KEYS, NO_KEYS, NO_KEYS], Start;
    }

    /** The running maximum starts at 0. */
    static method ParseMax(amounts: seq<real>) returns (max: real)
      ensures max >= 0.0 && (max == 0.0 || max in amounts)
      ensures forall a | a in amounts :: a <= max
    {
      max := 0.0;
      for i := 0 to |amounts|
        invariant max >= 0.0 && (max == 0.0 || max in amounts)
        invariant forall j | 0 <= j < i :: amounts[j] <= max
      {
        if amounts[i] > max { max := amounts[i]; }
      }
    }

    /** The writing pipeline. */
    method Record(txn: Txn)
      requires |keys| == |SECONDS|
      modifies this`keys
      ensures |keys| == |SECONDS|
      ensures forall i | 0 <= i < |SECONDS| :: keys[i] == Apply(old(keys)[i], SECONDS[i], txn)
    {
      for i := 0 to |SECONDS|
        invariant |keys| == |SECONDS|
        invariant forall j | 0 <= j < i :: keys[j] == Apply(old(keys)[j], SECONDS[j], txn)
        invariant forall j | i <= j < |SECONDS| :: keys[j] == old(keys)[j]
      {
        var live := Live(keys[i], txn.at);
        var trimmed := After(live.txns, txn.at - SECONDS[i]);
        var written := Keys(Then(trimmed, txn), live.sum + txn.amount, live.merchants + {txn.merchant},
                            live.countries + {txn.country}, Some(txn.at + SECONDS[i] + 10.0));
        keys := keys[i := written];
      }
    }

    /** The reading pipeline and the parsing of its results. */
    method Read() returns (views: seq<View>)
      requires |keys| == |SECONDS|
      ensures |views| == |SECONDS|
      ensures forall i | 0 <= i < |SECONDS| :: views[i] == ViewOf(keys[i])
    {
      views := [];
      for i := 0 to |SECONDS|
        invariant |views| == i
        invariant forall j | 0 <= j < i :: views[j] == ViewOf(keys[j])
      {
        var k := keys[i];
        var max := ParseMax(Amounts(k.txns));
        LargestIsMaximum(k.txns);
        views := views + [View(Count(k.txns), k.sum, |k.merchants|, |k.countries|, max)];
      }
    }

    /** Each of the four views shows the true count and maximum of its window, and the sum
        and distinct counts of its burst. */
    method ProcessTransaction(txn: Txn) returns (views: seq<View>)
      requires Valid() && (history.Then? ==> history.txn.at <= txn.at)
      modifies this
      ensures Valid() && history == Then(old(history), txn)
      ensures |views| == |SECONDS|
      ensures forall i | 0 <= i < |SECONDS| :: views[i] == Shown(history, SECONDS[i])
    {
      Record(txn);
      history := Then(history, txn);
      views := Read();
      forall i | 0 <= i < |SECONDS| ensures views[i] == Shown(history, SECONDS[i]) {
        SnapshotExactly(history, SECONDS[i]);
      }
    }

    /** The snapshot that is published: one minute, five minutes, an hour, a day. */
    method Snapshot(txn: Txn) returns (oneMinute: View, fiveMinutes: View, oneHour: View, oneDay: View)
      requires Valid() && (history.Then? ==> history.txn.at <= txn.at)
      modifies this
      ensures Valid() && history == Then(old(history), txn)
      ensures oneMinute == Shown(history, 60.0)
      ensures fiveMinutes == Shown(history, 300.0)
      ensures oneHour == Shown(history, 3600.0)
      ensures oneDay == Shown(history, 86400.0)
    {
      var views := ProcessTransaction(txn);
      WindowLengths();
      oneMinute, fiveMinutes, oneHour, oneDay := views[0], views[1], views[2], views[3];
    }
  }
}
