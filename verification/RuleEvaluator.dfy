/** The rule engine: conditions, the short-circuiting loop, and the velocity counters it
    moves while it runs. */
module RuleEvaluation {
  import opened Prelude
  import FixedWindow

  datatype Value = Num(n: real) | Str(s: string)

  /** The fields the transaction context has. */
  type Context = map<string, Value>

  datatype Condition =
    | Simple(field: Option<string>, operator: string, value: Option<Value>, valueField: Option<string>)
    | Velocity(entity: Option<string>, window: Time, limit: int)
    | Unknown

  datatype Rule = Rule(id: string, severity: string, contribution: real, condition: Condition)

  /** `Failed` stands for an exception, which the loop logs and skips. */
  datatype Outcome = Failed | NoMatch | Match

  predicate Critical(r: Rule) { r.severity == "CRITICAL" }

  // --- Conditions -------------------------------------------------------------------

  function Lookup(ctx: Context, field: string): Option<Value> {
    if field in ctx then Some(ctx[field]) else None
  }

  /** Order on strings by code point. */
  predicate StrLess(a: string, b: string) {
    if b == "" then false
    else if a == "" then true
    else a[0] < b[0] || (a[0] == b[0] && StrLess(a[1..], b[1..]))
  }

  predicate Less(a: Value, b: Value) {
    match (a, b)
    case (Num(x), Num(y)) => x < y
    case (Str(x), Str(y)) => StrLess(x, y)
    case _ => false
  }

  function Verdict(b: bool): Outcome { if b then Match else NoMatch }

  /** Ordering a number against a string raises; equality does not. */
  function Compare(operator: string, a: Value, b: Value): Outcome {
    if operator == "==" then Verdict(a == b)
    else if operator == "!=" then Verdict(a != b)
    else if operator !in [">", "<", ">=", "<="] then NoMatch
    else if a.Num? != b.Num? then Failed
    else if operator == ">" then Verdict(Less(b, a))
    else if operator == "<" then Verdict(Less(a, b))
    else if operator == ">=" then Verdict(!Less(a, b))
    else Verdict(!Less(b, a))
  }

  function EvalSimple(c: Condition, ctx: Context): Outcome
    requires c.Simple?
  {
    if c.field.None? then Failed
    else
      var actual := Lookup(ctx, c.field.value);
      var expected := if c.valueField.Some? then Lookup(ctx, c.valueField.value) else c.value;
      if actual.None? || expected.None? then NoMatch else Compare(c.operator, actual.value, expected.value)
  }

  /** The counter key names entity type and value only: no rule, no window. */
  datatype Key = Key(entity: string, value: Value)

  type Counters = map<Key, FixedWindow.Counter>

  function Stored(cs: Counters, k: Key): FixedWindow.Counter {
    if k in cs then cs[k] else FixedWindow.Absent
  }

  /** The key a rule counts under; none when it has no velocity condition, or the context has
      no value, or an empty or zero one. */
  function KeyOf(r: Rule, ctx: Context): Option<Key> {
    if !r.condition.Velocity? || r.condition.entity.None? then None
    else
      var v := Lookup(ctx, r.condition.entity.value);
      if v.None? || v.value == Str("") || v.value == Num(0.0) then None
      else Some(Key(r.condition.entity.value, v.value))
  }

  /** What Redis does during one check. */
  datatype Redis = Works | IncrFails | ExpireFails

  function EvalVelocity(r: Rule, ctx: Context, cs: Counters, now: Time, redis: Redis): (Outcome, Counters)
    requires r.condition.Velocity?
  {
    if r.condition.entity.None? then (Failed, cs)
    else if KeyOf(r, ctx).None? then (NoMatch, cs)
    else if redis.IncrFails? then (Failed, cs)
    else
      var k := KeyOf(r, ctx).value;
      var incremented := FixedWindow.Incr(Stored(cs, k), now);
      if redis.ExpireFails? && incremented.count == 1 then (Failed, cs[k := incremented])
      else
        var c := FixedWindow.Apply(Stored(cs, k), now, r.condition.window);
        (Verdict(c.count > r.condition.limit), cs[k := c])
  }

  function EvalRule(r: Rule, ctx: Context, cs: Counters, now: Time, redis: Redis): (Outcome, Counters) {
    match r.condition
    case Simple(_, _, _, _) => (EvalSimple(r.condition, ctx), cs)
    case Velocity(_, _, _) => EvalVelocity(r, ctx, cs, now, redis)
    case Unknown => (NoMatch, cs)
  }

  // --- The loop ---------------------------------------------------------------------

  datatype Judged = Judged(rule: Rule, outcome: Outcome)

  predicate Stops(j: Judged) { j.outcome.Match? && Critical(j.rule) }

  /** The rules that were judged, with their outcomes, and the counters afterwards: the walk
      ends with the first critical rule that matches. */
  function Walk(rules: seq<Rule>, ctx: Context, cs: Counters, now: Time, redis: seq<Redis>): (seq<Judged>, Counters)
    requires |redis| >= |rules|
  {
    if rules == [] then ([], cs)
    else
      var (o, cs1) := EvalRule(rules[0], ctx, cs, now, redis[0]);
      var j := Judged(rules[0], o);
      if Stops(j) then ([j], cs1)
      else
        var (js, cs2) := Walk(rules[1..], ctx, cs1, now, redis[1..]);
        ([j] + js, cs2)
  }

  function Triggered(js: seq<Judged>): seq<Rule> {
    if js == [] then []
    else if js[0].outcome.Match? then [js[0].rule] + Triggered(js[1..]) else Triggered(js[1..])
  }

  function Total(rules: seq<Rule>): real {
    if rules == [] then 0.0 else rules[0].contribution + Total(rules[1..])
  }

  function ScoreOf(triggered: seq<Rule>): real { MinReal(Total(triggered), 1.0) }

  datatype Result = Result(evaluated: nat, matched: nat, triggered: seq<Rule>, score: real)

  lemma {:induction false} TotalConcat(a: seq<Rule>, b: seq<Rule>)
    ensures Total(a + b) == Total(a) + Total(b)
  {
    if a == [] {
      assert a + b == b;
    } else {
      assert (a + b)[1..] == a[1..] + b;
      TotalConcat(a[1..], b);
    }
  }

  /** One turn of the loop. */
  lemma WalkTurn(rules: seq<Rule>, ctx: Context, cs: Counters, now: Time, redis: seq<Redis>)
    requires rules != [] && |redis| >= |rules|
    ensures var (o, cs1) := EvalRule(rules[0], ctx, cs, now, redis[0]);
            var walk, rest := Walk(rules, ctx, cs, now, redis), Walk(rules[1..], ctx, cs1, now, redis[1..]);
            if o.Match? && Critical(rules[0]) then
              walk.1 == cs1 && Triggered(walk.0) == [rules[0]]
            else
              && walk.1 == rest.1
              && Triggered(walk.0) == if o.Match? then [rules[0]] + Triggered(rest.0) else Triggered(rest.0)
  {
    var (o, cs1) := EvalRule(rules[0], ctx, cs, now, redis[0]);
    var j := Judged(rules[0], o);
    if Stops(j) {
      assert [j][1..] == [] && [rules[0]] + Triggered([]) == [rules[0]];
    } else {
      var js := Walk(rules[1..], ctx, cs1, now, redis[1..]).0;
      assert ([j] + js)[1..] == js;
    }
  }

  /** The loop from rule `i` on, with what it has gathered so far. */
  function Loop(rules: seq<Rule>, i: nat, ctx: Context, cs: Counters, now: Time, redis: seq<Redis>,
                triggered: seq<Rule>, total: real): (seq<Rule>, real, Counters)
    requires i <= |rules| <= |redis|
    decreases |rules| - i
  {
    if i == |rules| then (triggered, total, cs)
    else
      var r := rules[i];
      var (o, cs1) := EvalRule(r, ctx, cs, now, redis[i]);
      if !o.Match? then Loop(rules, i + 1, ctx, cs1, now, redis, triggered, total)
      else if Critical(r) then (triggered + [r], total + r.contribution, cs1)
      else Loop(rules, i + 1, ctx, cs1, now, redis, triggered + [r], total + r.contribution)
  }

  /** The gathering loop is the walk: it reports what the walk triggers and adds up exactly
      that. */
  lemma {:induction false} LoopIsWalk(rules: seq<Rule>, i: nat, ctx: Context, cs: Counters, now: Time, redis: seq<Redis>,
                                      triggered: seq<Rule>, total: real)
    requires i <= |rules| <= |redis| && total == Total(triggered)
    ensures var (reported, sum, after) := Loop(rules, i, ctx, cs, now, redis, triggered, total);
            var walk := Walk(rules[i..], ctx, cs, now, redis[i..]);
            && reported == triggered + Triggered(walk.0) && sum == Total(reported) && after == walk.1
    decreases |rules| - i
  {
    if i < |rules| {
      var r := rules[i];
      var (o, cs1) := EvalRule(r, ctx, cs, now, redis[i]);
      WalkTurn(rules[i..], ctx, cs, now, redis[i..]);
      assert rules[i..][1..] == rules[i + 1..] && redis[i..][1..] == redis[i + 1..];
      TotalConcat(triggered, [r]);
      if !o.Match? {
        LoopIsWalk(rules, i + 1, ctx, cs1, now, redis, triggered, total);
      } else if !Critical(r) {
        LoopIsWalk(rules, i + 1, ctx, cs1, now, redis, triggered + [r], total + r.contribution);
      }
    }
  }

  /** Raising rules are skipped, matching ones are added up, and the first critical match
      ends the evaluation. */
  lemma EvaluationMeaning(rules: seq<Rule>, ctx: Context, cs: Counters, now: Time, redis: seq<Redis>)
    requires |redis| >= |rules|
    ensures var (triggered, total, after) := Loop(rules, 0, ctx, cs, now, redis, [], 0.0);
            var (judged, counters) := Walk(rules, ctx, cs, now, redis);
            && triggered == Evaluated(judged) && after == counters
            && MinReal(total, 1.0) == ScoreOf(Evaluated(judged))
  {
    LoopIsWalk(rules, 0, ctx, cs, now, redis, [], 0.0);
    WalkStopsAtFirstCritical(rules, ctx, cs, now, redis);
    assert rules[0..] == rules && redis[0..] == redis;
  }

  class RuleEvaluator {
    const rules: seq<Rule>
    var counters: Counters

    constructor (rules: seq<Rule>)
      ensures this.rules == rules && counters == map[]
    {
      this.rules, counters := rules, map[];
    }

    /** INCR, then EXPIRE when the key is new.  A lost EXPIRE raises after the increment and
        leaves a counter that never expires. */
    method CheckVelocity(k: Key, window: Time, limit: int, now: Time, redis: Redis) returns (o: Outcome)
      modifies this`counters
      ensures redis.IncrFails? ==> o == Failed && counters == old(counters)
      ensures !redis.IncrFails? ==>
                var incremented := FixedWindow.Incr(Stored(old(counters), k), now);
                if redis.ExpireFails? && incremented.count == 1 then
                  o == Failed && counters == old(counters)[k := incremented]
                else
                  && counters == old(counters)[k := FixedWindow.Apply(Stored(old(counters), k), now, window)]
                  && o == Verdict(counters[k].count > limit)
    {
      if redis.IncrFails? { return Failed; }
      var c := FixedWindow.Incr(Stored(counters, k), now);
      counters := counters[k := c];
      if c.count == 1 {
        if redis.ExpireFails? { return Failed; }
        counters := counters[k := c.(expiry := Some(now + window))];
      }
      o := if c.count > limit then Match else NoMatch;
    }

    method EvaluateRule(r: Rule, ctx: Context, now: Time, redis: Redis) returns (o: Outcome)
      modifies this`counters
      ensures (o, counters) == EvalRule(r, ctx, old(counters), now, redis)
    {
      match r.condition
      case Simple(_, _, _, _) => o := EvalSimple(r.condition, ctx);
      case Velocity(entity, window, limit) =>
        if entity.None? { return Failed; }
        var v := Lookup(ctx, entity.value);
        if v.None? || v.value == Str("") || v.value == Num(0.0) { return NoMatch; }
        o := CheckVelocity(Key(entity.value, v.value), window, limit, now, redis);
      case Unknown => o := NoMatch;
    }

    method EvaluateTransaction(ctx: Context, now: Time, redis: seq<Redis>) returns (result: Result)
      requires |redis| >= |rules|
      modifies this`counters
      ensures var (judged, after) := Walk(rules, ctx, old(counters), now, redis);
              && counters == after
              && result == Result(|rules|, |Evaluated(judged)|, Evaluated(judged), ScoreOf(Evaluated(judged)))
      ensures forall i | 0 <= i < |result.triggered| - 1 :: result.triggered[i].severity != "CRITICAL"
      ensures (forall r | r in result.triggered :: r.severity != "CRITICAL") ==>
                forall r | r in rules && Numeric(r, ctx) :: r in result.triggered <==> NumbersMatch(r, ctx)
    {
      var triggered: seq<Rule>, total, matched, i := [], 0.0, 0, 0;
      while i < |rules|
        invariant 0 <= i <= |rules| && matched == |triggered|
        invariant Loop(rules, i, ctx, counters, now, redis, triggered, total)
               == Loop(rules, 0, ctx, old(counters), now, redis, [], 0.0)
      {
        var r := rules[i];
        var o := EvaluateRule(r, ctx, now, redis[i]);
        if o.Match? {
          triggered := triggered + [r];
          total := total + r.contribution;
          matched := matched + 1;
          if r.severity == "CRITICAL" { break; }
        }
        i := i + 1;
      }
      EvaluationMeaning(rules, ctx, old(counters), now, redis);
      NumericRulesTriggered(rules, ctx, old(counters), now, redis);
      CriticalIsLast(Walk(rules, ctx, old(counters), now, redis).0);
      result := Result(|rules|, matched, triggered, MinReal(total, 1.0));
    }
  }

  // --- What the loop computes ---------------------------------------------------------

  /** The judged rules up to and including the first that stops the walk. */
  function UpToStop(js: seq<Judged>): seq<Judged> {
    if js == [] then [] else if Stops(js[0]) then [js[0]] else [js[0]] + UpToStop(js[1..])
  }

  predicate NoStop(js: seq<Judged>) { forall i | 0 <= i < |js| :: !Stops(js[i]) }

  /** The outcome of a full evaluation once the rules' outcomes are fixed. */
  function Evaluated(js: seq<Judged>): seq<Rule> { Triggered(UpToStop(js)) }

  lemma {:induction false} NoStopEvaluatesAll(js: seq<Judged>)
    requires NoStop(js)
    ensures UpToStop(js) == js
  {
    if js != [] { NoStopEvaluatesAll(js[1..]); }
  }

  function Weight(j: Judged): real { if j.outcome.Match? then j.rule.contribution else 0.0 }

  function WeightOf(js: seq<Judged>): real {
    if js == [] then 0.0 else Weight(js[0]) + WeightOf(js[1..])
  }

  lemma {:induction false} TotalIsWeight(js: seq<Judged>)
    ensures Total(Triggered(js)) == WeightOf(js)
  {
    if js != [] {
      TotalIsWeight(js[1..]);
      if js[0].outcome.Match? { assert ([js[0].rule] + Triggered(js[1..]))[1..] == Triggered(js[1..]); }
    }
  }

  lemma {:induction false} WeightConcat(a: seq<Judged>, b: seq<Judged>)
    ensures WeightOf(a + b) == WeightOf(a) + WeightOf(b)
  {
    if a == [] {
      assert a + b == b;
    } else {
      assert (a + b)[1..] == a[1..] + b;
      WeightConcat(a[1..], b);
    }
  }

  lemma {:induction false} TriggeredConcat(a: seq<Judged>, b: seq<Judged>)
    ensures Triggered(a + b) == Triggered(a) + Triggered(b)
  {
    if a == [] {
      assert a + b == b;
    } else {
      assert (a + b)[1..] == a[1..] + b;
      TriggeredConcat(a[1..], b);
    }
  }

  lemma RemoveOne(js: seq<Judged>, i: nat)
    requires i < |js|
    ensures WeightOf(js) == Weight(js[i]) + WeightOf(js[..i] + js[i + 1..])
    ensures multiset(Triggered(js)) ==
              multiset(Triggered(js[..i] + js[i + 1..])) + if js[i].outcome.Match? then multiset{js[i].rule} else multiset{}
  {
    var front, back := js[..i], js[i..];
    assert js == front + back && back[0] == js[i] && back[1..] == js[i + 1..];
    WeightConcat(front, back);
    WeightConcat(front, back[1..]);
    TriggeredConcat(front, back);
    TriggeredConcat(front, back[1..]);
  }

  lemma {:induction false} PermutedWeight(a: seq<Judged>, b: seq<Judged>)
    requires multiset(a) == multiset(b)
    ensures WeightOf(a) == WeightOf(b) && multiset(Triggered(a)) == multiset(Triggered(b))
  {
    if a == [] {
      assert multiset(b) == multiset{};
      assert b == [];
    } else {
      assert a[0] in multiset(b);
      var i :| 0 <= i < |b| && b[i] == a[0];
      var rest := b[..i] + b[i + 1..];
      RestOfPermutation(a, b, i);
      PermutedWeight(a[1..], rest);
      RemoveOne(b, i);
      RemoveOne(a, 0);
      assert a[..0] + a[1..] == a[1..];
    }
  }

  /** Without a matching critical rule the order in which the database returns the rules
      changes neither the score nor which rules are reported. */
  lemma OrderDoesNotMatterWithoutStop(a: seq<Judged>, b: seq<Judged>)
    requires multiset(a) == multiset(b) && NoStop(a)
    ensures ScoreOf(Evaluated(a)) == ScoreOf(Evaluated(b))
    ensures multiset(Evaluated(a)) == multiset(Evaluated(b))
  {
    forall i | 0 <= i < |b| ensures !Stops(b[i]) {
      assert b[i] in multiset(b);
      assert b[i] in a;
    }
    NoStopEvaluatesAll(a);
    NoStopEvaluatesAll(b);
    PermutedWeight(a, b);
    TotalIsWeight(a);
    TotalIsWeight(b);
  }

  lemma {:induction false} TotalNonNegative(rules: seq<Rule>)
    requires forall i | 0 <= i < |rules| :: rules[i].contribution >= 0.0
    ensures Total(rules) >= 0.0
  {
    if rules != [] { TotalNonNegative(rules[1..]); }
  }

  lemma {:induction false} TriggeredAreJudged(js: seq<Judged>)
    ensures forall i | 0 <= i < |Triggered(js)| :: Judged(Triggered(js)[i], Match) in js
  {
    if js != [] {
      TriggeredAreJudged(js[1..]);
      assert forall j | j in js[1..] :: j in js;
      if js[0].outcome.Match? { assert js[0] == Judged(js[0].rule, Match); }
    }
  }

  /** With contributions that are not negative the score lies between 0 and 1. */
  lemma ScoreInUnitInterval(js: seq<Judged>)
    requires forall j | j in js :: j.rule.contribution >= 0.0
    ensures 0.0 <= ScoreOf(Evaluated(js)) <= 1.0
  {
    UpToStopIsPrefix(js);
    var upTo := UpToStop(js);
    TriggeredAreJudged(upTo);
    TotalNonNegative(Triggered(upTo));
  }

  lemma {:induction false} UpToStopIsPrefix(js: seq<Judged>)
    ensures UpToStop(js) <= js
    ensures forall j | j in UpToStop(js) :: j in js
  {
    if js != [] { UpToStopIsPrefix(js[1..]); }
  }

  /** A critical match puts a floor under the score in every order of the rules: the score is
      at least the smallest contribution of a matching critical rule, or 1. */
  lemma {:induction false} CriticalFloor(js: seq<Judged>, floor: real)
    requires !NoStop(js)
    requires forall j | j in js :: j.rule.contribution >= 0.0
    requires forall j | j in js && Stops(j) :: floor <= j.rule.contribution
    ensures MinReal(floor, 1.0) <= ScoreOf(Evaluated(js))
  {
    var i :| 0 <= i < |js| && Stops(js[i]);
    assert js[0] in js;
    if Stops(js[0]) {
      assert Triggered([js[0]]) == [js[0].rule] + Triggered([js[0]][1..]);
      assert Triggered([js[0]][1..]) == [];
      assert Total([js[0].rule]) == js[0].rule.contribution + Total([js[0].rule][1..]);
    } else {
      assert js[1..][i - 1] == js[i];
      CriticalFloor(js[1..], floor);
      TotalIsWeight(UpToStop(js));
      TotalIsWeight(UpToStop(js[1..]));
      assert UpToStop(js)[1..] == UpToStop(js[1..]);
    }
  }

  /** The walk judges a prefix of the rules, in order, and stops at the first critical match:
      it is its own `UpToStop`. */
  lemma {:induction false} WalkStopsAtFirstCritical(rules: seq<Rule>, ctx: Context, cs: Counters, now: Time, redis: seq<Redis>)
    requires |redis| >= |rules|
    ensures var js := Walk(rules, ctx, cs, now, redis).0;
            && |js| <= |rules| && (forall i | 0 <= i < |js| :: js[i].rule == rules[i])
            && UpToStop(js) == js && Evaluated(js) == Triggered(js)
            && (|js| < |rules| ==> !NoStop(js))
    decreases |rules|
  {
    if rules != [] {
      var (o, cs1) := EvalRule(rules[0], ctx, cs, now, redis[0]);
      var j := Judged(rules[0], o);
      if Stops(j) {
        assert Walk(rules, ctx, cs, now, redis).0[0] == j;
      } else {
        WalkStopsAtFirstCritical(rules[1..], ctx, cs1, now, redis[1..]);
        var js := Walk(rules[1..], ctx, cs1, now, redis[1..]).0;
        assert ([j] + js)[1..] == js;
        if !NoStop(js) {
          var i :| 0 <= i < |js| && Stops(js[i]);
          assert ([j] + js)[i + 1] == js[i];
        }
      }
    }
  }

  // --- What the loop does to the counters ------------------------------------------------

  /** How many of the judged rules counted under `k`. */
  function Touches(js: seq<Judged>, ctx: Context, k: Key): nat {
    if js == [] then 0 else Touches(js[1..], ctx, k) + if KeyOf(js[0].rule, ctx) == Some(k) then 1 else 0
  }

  function LiveCount(cs: Counters, k: Key, now: Time): nat {
    var c := FixedWindow.Current(Stored(cs, k), now);
    if c.Present? then c.count else 0
  }

  /** One transaction moves a counter once per judged velocity rule on its entity, not once:
      two rules on one entity reach a limit twice as fast as the transactions do. */
  lemma {:induction false} OneIncrementPerRule(rules: seq<Rule>, ctx: Context, cs: Counters, now: Time, redis: seq<Redis>, k: Key)
    requires |redis| >= |rules| && forall i | 0 <= i < |rules| :: redis[i] == Works
    requires forall i | 0 <= i < |rules| :: rules[i].condition.Velocity? ==> rules[i].condition.window > 0.0
    ensures var (js, cs1) := Walk(rules, ctx, cs, now, redis);
            LiveCount(cs1, k, now) == LiveCount(cs, k, now) + Touches(js, ctx, k)
    decreases |rules|
  {
    if rules != [] {
      var (o, cs1) := EvalRule(rules[0], ctx, cs, now, redis[0]);
      var j := Judged(rules[0], o);
      assert LiveCount(cs1, k, now) == LiveCount(cs, k, now) + if KeyOf(rules[0], ctx) == Some(k) then 1 else 0;
      if !Stops(j) {
        OneIncrementPerRule(rules[1..], ctx, cs1, now, redis[1..], k);
        var js := Walk(rules[1..], ctx, cs1, now, redis[1..]).0;
        assert ([j] + js)[1..] == js;
      }
    }
  }

  // --- What a condition decides ---------------------------------------------------------

  const ORDERINGS := {">", "<", ">=", "<="}

  /** The relation an operator stands for, on two numbers. */
  predicate Relates(operator: string, x: real, y: real) {
    || (operator == ">" && x > y) || (operator == "<" && x < y)
    || (operator == ">=" && x >= y) || (operator == "<=" && x <= y)
    || (operator == "==" && x == y) || (operator == "!=" && x != y)
  }

  /** The strings are equal up to `i`, and there `a` has the smaller character or has ended. */
  predicate FirstDifference(a: string, b: string, i: nat) {
    && i <= |a| && i < |b| && a[..i] == b[..i]
    && (i == |a| || a[i] < b[i])
  }

  /** The order on strings decides at the first difference; a proper prefix is smaller. */
  lemma {:induction false} StrLessExactly(a: string, b: string)
    ensures StrLess(a, b) <==> exists i :: 0 <= i && FirstDifference(a, b, i)
  {
    if b != "" {
      if a == "" {
        assert FirstDifference(a, b, 0);
      } else {
        StrLessExactly(a[1..], b[1..]);
        if a[0] < b[0] { assert FirstDifference(a, b, 0); }
        if a[0] == b[0] && StrLess(a[1..], b[1..]) {
          var i :| 0 <= i && FirstDifference(a[1..], b[1..], i);
          assert a[..i + 1] == [a[0]] + a[1..][..i] && b[..i + 1] == [b[0]] + b[1..][..i];
          assert FirstDifference(a, b, i + 1);
        }
        if i :| 0 <= i && FirstDifference(a, b, i) {
          if i > 0 {
            assert a[..i][0] == b[..i][0];
            assert a[1..][..i - 1] == a[..i][1..] && b[1..][..i - 1] == b[..i][1..];
            assert FirstDifference(a[1..], b[1..], i - 1);
          }
        }
      }
    }
  }

  lemma {:induction false} StrLessIsIrreflexive(a: string)
    ensures !StrLess(a, a)
  {
    if a != "" { StrLessIsIrreflexive(a[1..]); }
  }

  /** It is a strict total order. */
  lemma {:induction false} StrLessIsTotal(a: string, b: string)
    ensures StrLess(a, b) || StrLess(b, a) || a == b
    ensures !(StrLess(a, b) && StrLess(b, a)) && (a == b ==> !StrLess(a, b))
  {
    StrLessIsIrreflexive(a);
    if a != "" && b != "" {
      StrLessIsTotal(a[1..], b[1..]);
      if a[0] == b[0] && a[1..] == b[1..] { assert a == [a[0]] + a[1..] && b == [b[0]] + b[1..]; }
    }
  }

  lemma {:induction false} StrLessIsTransitive(a: string, b: string, c: string)
    requires StrLess(a, b) && StrLess(b, c)
    ensures StrLess(a, c)
  {
    if a != "" && a[0] == b[0] && b[0] == c[0] { StrLessIsTransitive(a[1..], b[1..], c[1..]); }
  }

  predicate StrRelates(operator: string, a: string, b: string) {
    || (operator == ">" && StrLess(b, a)) || (operator == "<" && StrLess(a, b))
    || (operator == ">=" && (StrLess(b, a) || a == b)) || (operator == "<=" && (StrLess(a, b) || a == b))
    || (operator == "==" && a == b) || (operator == "!=" && a != b)
  }

  /** What a condition compares its field with: a value of its own or another field. */
  function Expected(c: Condition, ctx: Context): Option<Value>
    requires c.Simple?
  {
    match c.valueField
    case Some(field) => if field in ctx then Some(ctx[field]) else None
    case None => c.value
  }

  /** For all contexts: two numbers match exactly when the relation holds of them, two strings
      exactly when it holds of them in their order; a missing field or value never matches, a
      condition without a field name raises, and so does ordering a number against a string,
      which are never equal.  An operator that is none of the six never matches. */
  lemma ConditionExactly(c: Condition, ctx: Context)
    requires c.Simple?
    ensures c.field.None? ==> EvalSimple(c, ctx) == Failed
    ensures c.field.Some? && (c.field.value !in ctx || Expected(c, ctx).None?) ==> EvalSimple(c, ctx) == NoMatch
    ensures c.field.Some? && c.field.value in ctx && Expected(c, ctx).Some? ==>
              match (ctx[c.field.value], Expected(c, ctx).value)
              case (Num(x), Num(y)) => EvalSimple(c, ctx) == if Relates(c.operator, x, y) then Match else NoMatch
              case (Str(a), Str(b)) => EvalSimple(c, ctx) == if StrRelates(c.operator, a, b) then Match else NoMatch
              case _ => EvalSimple(c, ctx) == if c.operator in ORDERINGS then Failed
                                              else if c.operator == "!=" then Match else NoMatch
  {
    if c.field.Some? && c.field.value in ctx && Expected(c, ctx).Some?
       && ctx[c.field.value].Str? && Expected(c, ctx).value.Str? {
      StrLessIsTotal(ctx[c.field.value].s, Expected(c, ctx).value.s);
    }
  }

  /** A velocity condition without an entity raises, one without a value never matches, and one
      for which Redis fails raises; the counter moves by one unless INCR itself failed, and it
      matches exactly when the count it then has exceeds the limit.  A condition of any other
      type never matches.  Nothing else touches a counter. */
  lemma VelocityExactly(r: Rule, ctx: Context, cs: Counters, now: Time, redis: Redis)
    ensures var (o, after) := EvalRule(r, ctx, cs, now, redis);
            match KeyOf(r, ctx)
            case None =>
              && after == cs
              && (r.condition.Unknown? ==> o == NoMatch)
              && (r.condition.Velocity? ==> o == if r.condition.entity.None? then Failed else NoMatch)
            case Some(k) =>
              var before := LiveCount(cs, k, now);
              && (redis.IncrFails? ==> o == Failed && after == cs)
              && (!redis.IncrFails? ==> k in after && after - {k} == cs - {k} && after[k].Present? && after[k].count == before + 1)
              && (redis.Works? || (redis.ExpireFails? && before > 0) ==>
                    o == if before + 1 > r.condition.limit then Match else NoMatch)
              && (redis.ExpireFails? && before == 0 && FixedWindow.Current(Stored(cs, k), now).Absent? ==>
                    o == Failed && after[k].expiry == None)
              && (redis.Works? && FixedWindow.Current(Stored(cs, k), now).Absent? ==>
                    after[k].expiry == Some(now + r.condition.window))
  {
  }

  /** A rule that compares two numbers in this context. */
  predicate Numeric(r: Rule, ctx: Context) {
    && r.condition.Simple? && r.condition.field.Some? && r.condition.field.value in ctx
    && ctx[r.condition.field.value].Num?
    && Expected(r.condition, ctx).Some? && Expected(r.condition, ctx).value.Num?
  }

  /** And the numbers satisfy its relation. */
  predicate NumbersMatch(r: Rule, ctx: Context)
    requires Numeric(r, ctx)
  {
    Relates(r.condition.operator, ctx[r.condition.field.value].n, Expected(r.condition, ctx).value.n)
  }

  lemma {:induction false} SimpleRulesJudged(rules: seq<Rule>, ctx: Context, cs: Counters, now: Time, redis: seq<Redis>)
    requires |redis| >= |rules|
    ensures var js := Walk(rules, ctx, cs, now, redis).0;
            |js| <= |rules| &&
            forall i | 0 <= i < |js| ::
              js[i].rule == rules[i]
              && (rules[i].condition.Simple? ==> js[i].outcome == EvalSimple(rules[i].condition, ctx))
    decreases |rules|
  {
    if rules != [] {
      var (o, cs1) := EvalRule(rules[0], ctx, cs, now, redis[0]);
      if !Stops(Judged(rules[0], o)) { SimpleRulesJudged(rules[1..], ctx, cs1, now, redis[1..]); }
    }
  }

  /** Among the judged rules a numeric one is triggered exactly when its numbers match; and when
      no critical rule is triggered, all rules are judged. */
  lemma NumericRulesTriggered(rules: seq<Rule>, ctx: Context, cs: Counters, now: Time, redis: seq<Redis>)
    requires |redis| >= |rules|
    ensures var js := Walk(rules, ctx, cs, now, redis).0;
            && |js| <= |rules|
            && (forall i | 0 <= i < |js| && Numeric(rules[i], ctx) ::
                  rules[i] in Evaluated(js) <==> NumbersMatch(rules[i], ctx))
            && ((forall r | r in Evaluated(js) :: r.severity != "CRITICAL") ==> |js| == |rules|)
  {
    var js := Walk(rules, ctx, cs, now, redis).0;
    WalkStopsAtFirstCritical(rules, ctx, cs, now, redis);
    SimpleRulesJudged(rules, ctx, cs, now, redis);
    forall i | 0 <= i < |js| && Numeric(rules[i], ctx)
      ensures rules[i] in Evaluated(js) <==> NumbersMatch(rules[i], ctx)
    {
      ConditionExactly(rules[i].condition, ctx);
      MatchesAreTriggered(js, rules[i]);
      assert js[i] == Judged(rules[i], EvalSimple(rules[i].condition, ctx));
    }
    if !NoStop(js) {
      var i :| 0 <= i < |js| && Stops(js[i]);
      MatchesAreTriggered(js, js[i].rule);
      assert js[i] == Judged(js[i].rule, Match);
    }
  }

  /** Only the last reported rule can be critical. */
  lemma {:induction false} CriticalIsLast(js: seq<Judged>)
    ensures forall i | 0 <= i < |Evaluated(js)| - 1 :: Evaluated(js)[i].severity != "CRITICAL"
  {
    if js != [] {
      if Stops(js[0]) {
        assert [js[0]][1..] == [];
        assert Triggered([js[0]]) == [js[0].rule] + Triggered([js[0]][1..]);
      } else {
        var rest := Evaluated(js[1..]);
        CriticalIsLast(js[1..]);
        assert UpToStop(js)[1..] == UpToStop(js[1..]);
        assert Evaluated(js) == if js[0].outcome.Match? then [js[0].rule] + rest else rest;
      }
    }
  }

  /** Two rules count under one key exactly when they are velocity rules on the same field, and
      the context has a value there that is neither empty nor zero; the key is that field with
      that value. */
  lemma KeyExactly(r: Rule, ctx: Context, k: Key)
    ensures KeyOf(r, ctx) == Some(k) <==>
              && r.condition.Velocity? && r.condition.entity == Some(k.entity)
              && k.entity in ctx && ctx[k.entity] == k.value && k.value != Str("") && k.value != Num(0.0)
  {
  }

  // --- The order in which the database returns the rules ----------------------------------

  /** The outcome a rule has on the counters as they are before the evaluation. */
  function JudgeAlone(r: Rule, ctx: Context, cs: Counters, now: Time): Judged {
    Judged(r, EvalRule(r, ctx, cs, now, Works).0)
  }

  function JudgeAll(rules: seq<Rule>, ctx: Context, cs: Counters, now: Time): seq<Judged> {
    if rules == [] then [] else [JudgeAlone(rules[0], ctx, cs, now)] + JudgeAll(rules[1..], ctx, cs, now)
  }

  predicate SameKey(a: Rule, b: Rule, ctx: Context) { KeyOf(a, ctx).Some? && KeyOf(a, ctx) == KeyOf(b, ctx) }

  /** No two of the rules count under one key. */
  predicate DistinctKeys(rules: seq<Rule>, ctx: Context) {
    forall r, s | r in rules && s in rules && SameKey(r, s, ctx) :: r == s && multiset(rules)[r] == 1
  }

  /** No rule is a critical one that matches on the counters as they are. */
  predicate NoneStops(rules: seq<Rule>, ctx: Context, cs: Counters, now: Time) {
    forall r | r in rules :: !Stops(JudgeAlone(r, ctx, cs, now))
  }

  /** What one rule leaves of the counter of `k`. */
  function Counted(cs: Counters, k: Key, r: Rule, now: Time): FixedWindow.Counter
    requires r.condition.Velocity?
  {
    FixedWindow.Apply(Stored(cs, k), now, r.condition.window)
  }

  /** `after` differs from `cs` exactly by one increment under the key of each rule. */
  ghost predicate Incremented(rules: seq<Rule>, ctx: Context, cs: Counters, now: Time, after: Counters) {
    && (forall r | r in rules && KeyOf(r, ctx).Some? ::
          var k := KeyOf(r, ctx).value; k in after && after[k] == Counted(cs, k, r, now))
    && (forall k | !Touched(rules, ctx, k) :: (k in after <==> k in cs) && (k in cs ==> after[k] == cs[k]))
  }

  predicate Touched(rules: seq<Rule>, ctx: Context, k: Key) { exists r | r in rules :: KeyOf(r, ctx) == Some(k) }

  /** Evaluating one rule concerns its own key only. */
  lemma OneRule(r: Rule, ctx: Context, cs: Counters, now: Time)
    ensures var after := EvalRule(r, ctx, cs, now, Works).1;
            match KeyOf(r, ctx)
            case None => after == cs
            case Some(k) => after == cs[k := Counted(cs, k, r, now)]
  {
  }

  lemma OtherKeysDoNotMatter(r: Rule, ctx: Context, cs: Counters, now: Time, k: Key, c: FixedWindow.Counter)
    requires KeyOf(r, ctx) != Some(k)
    ensures JudgeAlone(r, ctx, cs[k := c], now) == JudgeAlone(r, ctx, cs, now)
  {
    if KeyOf(r, ctx).Some? { assert Stored(cs[k := c], KeyOf(r, ctx).value) == Stored(cs, KeyOf(r, ctx).value); }
  }

  lemma {:induction false} JudgeAllAgrees(rules: seq<Rule>, ctx: Context, cs: Counters, now: Time, cs1: Counters)
    requires forall r | r in rules :: JudgeAlone(r, ctx, cs1, now) == JudgeAlone(r, ctx, cs, now)
    ensures JudgeAll(rules, ctx, cs1, now) == JudgeAll(rules, ctx, cs, now)
  {
    if rules != [] {
      assert forall r | r in rules[1..] :: r in rules;
      assert rules[0] in rules;
      JudgeAllAgrees(rules[1..], ctx, cs, now, cs1);
    }
  }

  /** The first rule leaves the outcomes of the others as they were. */
  lemma FirstRuleApart(rules: seq<Rule>, ctx: Context, cs: Counters, now: Time, cs1: Counters)
    requires rules != [] && DistinctKeys(rules, ctx) && cs1 == EvalRule(rules[0], ctx, cs, now, Works).1
    ensures DistinctKeys(rules[1..], ctx)
    ensures forall r | r in rules[1..] :: KeyOf(rules[0], ctx).Some? ==> KeyOf(r, ctx) != KeyOf(rules[0], ctx)
    ensures forall r | r in rules[1..] :: JudgeAlone(r, ctx, cs1, now) == JudgeAlone(r, ctx, cs, now)
  {
    OneRule(rules[0], ctx, cs, now);
    assert rules == [rules[0]] + rules[1..];
    assert multiset(rules) == multiset{rules[0]} + multiset(rules[1..]);
    assert rules[0] in rules && forall r | r in rules[1..] :: r in rules;
    forall r | r in rules[1..]
      ensures KeyOf(rules[0], ctx).Some? ==> KeyOf(r, ctx) != KeyOf(rules[0], ctx)
      ensures JudgeAlone(r, ctx, cs1, now) == JudgeAlone(r, ctx, cs, now)
    {
      assert r in multiset(rules[1..]);
      if SameKey(rules[0], r, ctx) { assert false; }
      if KeyOf(rules[0], ctx).Some? {
        var k := KeyOf(rules[0], ctx).value;
        OtherKeysDoNotMatter(r, ctx, cs, now, k, Counted(cs, k, rules[0], now));
      }
    }
  }

  lemma IncrementedByFirst(rules: seq<Rule>, ctx: Context, cs: Counters, now: Time, cs1: Counters, after: Counters)
    requires rules != [] && cs1 == EvalRule(rules[0], ctx, cs, now, Works).1
    requires forall r | r in rules[1..] :: KeyOf(rules[0], ctx).Some? ==> KeyOf(r, ctx) != KeyOf(rules[0], ctx)
    requires Incremented(rules[1..], ctx, cs1, now, after)
    ensures Incremented(rules, ctx, cs, now, after)
  {
    OneRule(rules[0], ctx, cs, now);
    forall r | r in rules && KeyOf(r, ctx).Some?
      ensures var k := KeyOf(r, ctx).value; k in after && after[k] == Counted(cs, k, r, now)
    {
      if r in rules[1..] {
        assert Stored(cs1, KeyOf(r, ctx).value) == Stored(cs, KeyOf(r, ctx).value);
      } else {
        assert r == rules[0];
        assert !Touched(rules[1..], ctx, KeyOf(r, ctx).value);
      }
    }
    forall k | !Touched(rules, ctx, k)
      ensures (k in after <==> k in cs) && (k in cs ==> after[k] == cs[k])
    {
      assert rules[0] in rules && KeyOf(rules[0], ctx) != Some(k);
      assert !Touched(rules[1..], ctx, k);
    }
  }

  /** While Redis works, no two rules share a key and none stops, every rule is judged as if it
      were alone, and each key is incremented once. */
  lemma {:induction false} WalkIsJudgeAll(rules: seq<Rule>, ctx: Context, cs: Counters, now: Time, redis: seq<Redis>)
    requires |redis| >= |rules| && forall i | 0 <= i < |rules| :: redis[i] == Works
    requires DistinctKeys(rules, ctx) && NoneStops(rules, ctx, cs, now)
    ensures Walk(rules, ctx, cs, now, redis).0 == JudgeAll(rules, ctx, cs, now)
    ensures Incremented(rules, ctx, cs, now, Walk(rules, ctx, cs, now, redis).1)
    decreases |rules|
  {
    if rules != [] {
      var cs1 := EvalRule(rules[0], ctx, cs, now, Works).1;
      FirstRuleApart(rules, ctx, cs, now, cs1);
      assert rules[0] in rules && forall r | r in rules[1..] :: r in rules;
      WalkIsJudgeAll(rules[1..], ctx, cs1, now, redis[1..]);
      JudgeAllAgrees(rules[1..], ctx, cs, now, cs1);
      IncrementedByFirst(rules, ctx, cs, now, cs1, Walk(rules[1..], ctx, cs1, now, redis[1..]).1);
    }
  }

  lemma {:induction false} JudgeAllOf(rules: seq<Rule>, ctx: Context, cs: Counters, now: Time)
    ensures |JudgeAll(rules, ctx, cs, now)| == |rules|
    ensures forall i | 0 <= i < |rules| :: JudgeAll(rules, ctx, cs, now)[i] == JudgeAlone(rules[i], ctx, cs, now)
  {
    if rules != [] { JudgeAllOf(rules[1..], ctx, cs, now); }
  }

  /** Judging one by one commutes with permuting. */
  lemma {:induction false} JudgeAllPermuted(a: seq<Rule>, b: seq<Rule>, ctx: Context, cs: Counters, now: Time)
    requires multiset(a) == multiset(b)
    ensures multiset(JudgeAll(a, ctx, cs, now)) == multiset(JudgeAll(b, ctx, cs, now))
  {
    if a == [] {
      assert |multiset(b)| == 0;
    } else {
      assert a[0] in multiset(b);
      var i :| 0 <= i < |b| && b[i] == a[0];
      RestOfPermutation(a, b, i);
      JudgeAllPermuted(a[1..], b[..i] + b[i + 1..], ctx, cs, now);
      JudgeAllWithout(b, i, ctx, cs, now);
    }
  }

  lemma JudgeAllWithout(b: seq<Rule>, i: nat, ctx: Context, cs: Counters, now: Time)
    requires i < |b|
    ensures multiset(JudgeAll(b, ctx, cs, now))
         == multiset{JudgeAlone(b[i], ctx, cs, now)} + multiset(JudgeAll(b[..i] + b[i + 1..], ctx, cs, now))
  {
    var front, tail, back := b[..i], b[i..], b[i + 1..];
    var f, j, k := JudgeAll(front, ctx, cs, now), JudgeAlone(b[i], ctx, cs, now), JudgeAll(back, ctx, cs, now);
    assert JudgeAll(tail, ctx, cs, now) == [j] + k by { assert tail[1..] == back && tail[0] == b[i]; }
    assert JudgeAll(b, ctx, cs, now) == f + ([j] + k) by {
      JudgeAllConcat(front, tail, ctx, cs, now);
      assert front + tail == b;
    }
    assert JudgeAll(front + back, ctx, cs, now) == f + k by { JudgeAllConcat(front, back, ctx, cs, now); }
  }

  lemma {:induction false} JudgeAllConcat(a: seq<Rule>, b: seq<Rule>, ctx: Context, cs: Counters, now: Time)
    ensures JudgeAll(a + b, ctx, cs, now) == JudgeAll(a, ctx, cs, now) + JudgeAll(b, ctx, cs, now)
  {
    if a == [] {
      assert a + b == b;
    } else {
      assert (a + b)[1..] == a[1..] + b;
      JudgeAllConcat(a[1..], b, ctx, cs, now);
    }
  }

  /** `Incremented` leaves one possibility, and knows the rules as a set. */
  lemma IncrementedIsUnique(a: seq<Rule>, b: seq<Rule>, ctx: Context, cs: Counters, now: Time, after: Counters, after': Counters)
    requires forall r :: r in a <==> r in b
    requires Incremented(a, ctx, cs, now, after) && Incremented(b, ctx, cs, now, after')
    ensures after == after'
  {
    forall k ensures (k in after <==> k in after') && (k in after ==> after[k] == after'[k]) {
      if Touched(a, ctx, k) {
        var r :| r in a && KeyOf(r, ctx) == Some(k);
        assert r in b;
      } else {
        assert !Touched(b, ctx, k);
      }
    }
  }

  lemma PermutedRules(a: seq<Rule>, b: seq<Rule>, ctx: Context)
    requires multiset(a) == multiset(b) && DistinctKeys(a, ctx)
    ensures (forall r :: r in a <==> r in b) && DistinctKeys(b, ctx)
  {
    forall r ensures r in a <==> r in b {
      assert r in a <==> r in multiset(a);
      assert r in b <==> r in multiset(b);
    }
  }

  /** The whole evaluation does not depend on the order of the rules: while Redis works, no two
      rules share a key and no critical rule matches, any permutation gives the same score, the
      same reported rules and the same counters. */
  lemma OrderDoesNotMatter(a: seq<Rule>, b: seq<Rule>, ctx: Context, cs: Counters, now: Time, redis: seq<Redis>)
    requires multiset(a) == multiset(b) && |redis| >= |a| == |b| && forall i | 0 <= i < |a| :: redis[i] == Works
    requires DistinctKeys(a, ctx) && NoneStops(a, ctx, cs, now)
    ensures var (ja, ca) := Walk(a, ctx, cs, now, redis);
            var (jb, cb) := Walk(b, ctx, cs, now, redis);
            && ScoreOf(Evaluated(ja)) == ScoreOf(Evaluated(jb))
            && multiset(Evaluated(ja)) == multiset(Evaluated(jb))
            && ca == cb
  {
    PermutedRules(a, b, ctx);
    WalkIsJudgeAll(a, ctx, cs, now, redis);
    WalkIsJudgeAll(b, ctx, cs, now, redis);
    JudgeAllPermuted(a, b, ctx, cs, now);
    JudgeAllOf(a, ctx, cs, now);
    OrderDoesNotMatterWithoutStop(JudgeAll(a, ctx, cs, now), JudgeAll(b, ctx, cs, now));
    IncrementedIsUnique(a, b, ctx, cs, now, Walk(a, ctx, cs, now, redis).1, Walk(b, ctx, cs, now, redis).1);
  }

  // --- When the order matters -----------------------------------------------------------

  /** How many of the rules count under `k`. */
  function Sharing(rules: seq<Rule>, ctx: Context, k: Key): nat {
    if rules == [] then 0 else Sharing(rules[1..], ctx, k) + if KeyOf(rules[0], ctx) == Some(k) then 1 else 0
  }

  lemma {:induction false} SharingConcat(a: seq<Rule>, b: seq<Rule>, ctx: Context, k: Key)
    ensures Sharing(a + b, ctx, k) == Sharing(a, ctx, k) + Sharing(b, ctx, k)
  {
    if a == [] {
      assert a + b == b;
    } else {
      assert (a + b)[1..] == a[1..] + b;
      SharingConcat(a[1..], b, ctx, k);
    }
  }

  lemma {:induction false} SharingPermuted(a: seq<Rule>, b: seq<Rule>, ctx: Context, k: Key)
    requires multiset(a) == multiset(b)
    ensures Sharing(a, ctx, k) == Sharing(b, ctx, k)
  {
    PermutedLength(a, b);
    if a != [] {
      assert a[0] in multiset(b);
      var i :| 0 <= i < |b| && b[i] == a[0];
      RestOfPermutation(a, b, i);
      SharingPermuted(a[1..], b[..i] + b[i + 1..], ctx, k);
      SharingConcat(b[..i], b[i + 1..], ctx, k);
      SharingConcat(b[..i], b[i..], ctx, k);
      assert b[..i] + b[i..] == b && b[i..][1..] == b[i + 1..];
    }
  }

  /** Rule number `i` is one of those that share its key, and no more share it up to there than
      in all. */
  lemma SharingPrefix(rules: seq<Rule>, i: nat, ctx: Context, k: Key)
    requires i < |rules| && KeyOf(rules[i], ctx) == Some(k)
    ensures 1 <= Sharing(rules[..i + 1], ctx, k) <= Sharing(rules, ctx, k)
  {
    SharingConcat(rules[..i + 1], rules[i + 1..], ctx, k);
    assert rules[..i + 1] + rules[i + 1..] == rules;
    SharingConcat(rules[..i], [rules[i]], ctx, k);
    assert rules[..i] + [rules[i]] == rules[..i + 1];
  }

  /** What rule number `i` makes of the counters when all before it are judged too: its own
      count is the live one plus the rules on its key up to itself. */
  function Sees(rules: seq<Rule>, i: nat, ctx: Context, cs: Counters, now: Time): Outcome
    requires i < |rules|
  {
    match KeyOf(rules[i], ctx)
    case None => JudgeAlone(rules[i], ctx, cs, now).outcome
    case Some(k) => Verdict(LiveCount(cs, k, now) + Sharing(rules[..i + 1], ctx, k) > rules[i].condition.limit)
  }

  predicate PositiveWindows(rules: seq<Rule>) {
    forall r | r in rules && r.condition.Velocity? :: r.condition.window > 0.0
  }

  predicate NoneCritical(rules: seq<Rule>) { forall r | r in rules :: !Critical(r) }

  lemma OneRuleCounts(r: Rule, ctx: Context, cs: Counters, now: Time)
    requires r.condition.Velocity? ==> r.condition.window > 0.0
    ensures var (o, cs1) := EvalRule(r, ctx, cs, now, Works);
            && (forall k :: LiveCount(cs1, k, now) == LiveCount(cs, k, now) + if KeyOf(r, ctx) == Some(k) then 1 else 0)
            && (KeyOf(r, ctx).Some? ==>
                  o == Verdict(LiveCount(cs, KeyOf(r, ctx).value, now) + 1 > r.condition.limit))
  {
    OneRule(r, ctx, cs, now);
  }

  lemma WithoutKeySame(r: Rule, ctx: Context, cs: Counters, cs1: Counters, now: Time)
    requires KeyOf(r, ctx).None?
    ensures JudgeAlone(r, ctx, cs1, now) == JudgeAlone(r, ctx, cs, now)
  {
  }

  lemma SeesLater(rules: seq<Rule>, i: nat, ctx: Context, cs: Counters, cs1: Counters, now: Time)
    requires 1 <= i < |rules| && (rules[0].condition.Velocity? ==> rules[0].condition.window > 0.0)
    requires cs1 == EvalRule(rules[0], ctx, cs, now, Works).1
    ensures Sees(rules[1..], i - 1, ctx, cs1, now) == Sees(rules, i, ctx, cs, now)
  {
    OneRuleCounts(rules[0], ctx, cs, now);
    assert rules[1..][i - 1] == rules[i] && rules[..i + 1][1..] == rules[1..][..i];
    if KeyOf(rules[i], ctx).None? { WithoutKeySame(rules[i], ctx, cs, cs1, now); }
  }

  lemma SeesFirst(rules: seq<Rule>, ctx: Context, cs: Counters, now: Time)
    requires rules != [] && (rules[0].condition.Velocity? ==> rules[0].condition.window > 0.0)
    ensures Sees(rules, 0, ctx, cs, now) == EvalRule(rules[0], ctx, cs, now, Works).0
  {
    OneRuleCounts(rules[0], ctx, cs, now);
    assert rules[..1][0] == rules[0] && rules[..1][1..] == [];
    if KeyOf(rules[0], ctx).Some? { assert Sharing(rules[..1], ctx, KeyOf(rules[0], ctx).value) == 1; }
  }

  /** Every judged outcome, when Redis works and no rule is critical. */
  lemma {:induction false} WalkOutcomes(rules: seq<Rule>, ctx: Context, cs: Counters, now: Time, redis: seq<Redis>)
    requires |redis| >= |rules| && forall i | 0 <= i < |rules| :: redis[i] == Works
    requires PositiveWindows(rules) && NoneCritical(rules)
    ensures var js := Walk(rules, ctx, cs, now, redis).0;
            |js| == |rules| && forall i | 0 <= i < |js| :: js[i] == Judged(rules[i], Sees(rules, i, ctx, cs, now))
    decreases |rules|
  {
    if rules != [] {
      var cs1 := EvalRule(rules[0], ctx, cs, now, Works).1;
      assert rules[0] in rules && forall r | r in rules[1..] :: r in rules;
      WalkOutcomes(rules[1..], ctx, cs1, now, redis[1..]);
      SeesFirst(rules, ctx, cs, now);
      var js, rest := Walk(rules, ctx, cs, now, redis).0, Walk(rules[1..], ctx, cs1, now, redis[1..]).0;
      assert js == [Judged(rules[0], Sees(rules, 0, ctx, cs, now))] + rest;
      forall i | 1 <= i < |js| ensures js[i] == Judged(rules[i], Sees(rules, i, ctx, cs, now)) {
        SeesLater(rules, i, ctx, cs, cs1, now);
        assert js[i] == rest[i - 1];
      }
    }
  }

  /** The limit of the rule does not lie among the counts it can see in some order. */
  predicate Decided(r: Rule, rules: seq<Rule>, ctx: Context, cs: Counters, now: Time) {
    KeyOf(r, ctx).Some? ==>
      var k := KeyOf(r, ctx).value;
      LiveCount(cs, k, now) + 1 > r.condition.limit
      || LiveCount(cs, k, now) + Sharing(rules, ctx, k) <= r.condition.limit
  }

  predicate AllDecided(rules: seq<Rule>, ctx: Context, cs: Counters, now: Time) {
    forall r | r in rules :: Decided(r, rules, ctx, cs, now)
  }

  function Reported(rules: seq<Rule>, ctx: Context, cs: Counters, now: Time, redis: seq<Redis>): seq<Rule>
    requires |redis| >= |rules|
  {
    Evaluated(Walk(rules, ctx, cs, now, redis).0)
  }

  lemma DecidedSeesAlone(rules: seq<Rule>, i: nat, ctx: Context, cs: Counters, now: Time)
    requires i < |rules| && PositiveWindows(rules) && Decided(rules[i], rules, ctx, cs, now)
    ensures Sees(rules, i, ctx, cs, now) == JudgeAlone(rules[i], ctx, cs, now).outcome
  {
    assert rules[i] in rules;
    OneRuleCounts(rules[i], ctx, cs, now);
    if KeyOf(rules[i], ctx).Some? { SharingPrefix(rules, i, ctx, KeyOf(rules[i], ctx).value); }
  }

  lemma DecidedWalk(rules: seq<Rule>, ctx: Context, cs: Counters, now: Time, redis: seq<Redis>)
    requires |redis| >= |rules| && forall i | 0 <= i < |rules| :: redis[i] == Works
    requires PositiveWindows(rules) && NoneCritical(rules) && AllDecided(rules, ctx, cs, now)
    ensures Walk(rules, ctx, cs, now, redis).0 == JudgeAll(rules, ctx, cs, now)
  {
    WalkOutcomes(rules, ctx, cs, now, redis);
    JudgeAllOf(rules, ctx, cs, now);
    var js, alone := Walk(rules, ctx, cs, now, redis).0, JudgeAll(rules, ctx, cs, now);
    forall i | 0 <= i < |js| ensures js[i] == alone[i] { DecidedSeesAlone(rules, i, ctx, cs, now); }
  }

  lemma PermutedPremises(a: seq<Rule>, b: seq<Rule>, ctx: Context, cs: Counters, now: Time)
    requires multiset(a) == multiset(b)
    ensures |a| == |b| && (forall r :: r in a <==> r in b)
    ensures PositiveWindows(a) <==> PositiveWindows(b)
    ensures NoneCritical(a) <==> NoneCritical(b)
    ensures AllDecided(a, ctx, cs, now) ==> AllDecided(b, ctx, cs, now)
  {
    PermutedLength(a, b);
    forall r ensures r in a <==> r in b {
      assert r in a <==> r in multiset(a);
      assert r in b <==> r in multiset(b);
    }
    forall r | r in b && AllDecided(a, ctx, cs, now) ensures Decided(r, b, ctx, cs, now) {
      if KeyOf(r, ctx).Some? { SharingPermuted(a, b, ctx, KeyOf(r, ctx).value); }
    }
  }

  /** Where every limit is decided beforehand no permutation reports anything else. */
  lemma DecidedOrderDoesNotMatter(a: seq<Rule>, b: seq<Rule>, ctx: Context, cs: Counters, now: Time, redis: seq<Redis>)
    requires multiset(a) == multiset(b) && |redis| >= |a| == |b| && forall i | 0 <= i < |a| :: redis[i] == Works
    requires PositiveWindows(a) && NoneCritical(a) && AllDecided(a, ctx, cs, now)
    ensures multiset(Reported(a, ctx, cs, now, redis)) == multiset(Reported(b, ctx, cs, now, redis))
    ensures ScoreOf(Reported(a, ctx, cs, now, redis)) == ScoreOf(Reported(b, ctx, cs, now, redis))
  {
    PermutedPremises(a, b, ctx, cs, now);
    DecidedWalk(a, ctx, cs, now, redis);
    DecidedWalk(b, ctx, cs, now, redis);
    JudgeAllPermuted(a, b, ctx, cs, now);
    JudgeAllOf(a, ctx, cs, now);
    assert NoStop(JudgeAll(a, ctx, cs, now));
    OrderDoesNotMatterWithoutStop(JudgeAll(a, ctx, cs, now), JudgeAll(b, ctx, cs, now));
  }

  lemma {:induction false} MatchesAreTriggered(js: seq<Judged>, r: Rule)
    ensures r in Triggered(js) <==> Judged(r, Match) in js
  {
    if js != [] {
      MatchesAreTriggered(js[1..], r);
      assert forall j :: j in js <==> j == js[0] || j in js[1..];
    }
  }

  /** A rule that occurs once is reported exactly when it matches where it stands. */
  lemma ReportedExactly(rules: seq<Rule>, i: nat, ctx: Context, cs: Counters, now: Time, redis: seq<Redis>)
    requires |redis| >= |rules| && forall j | 0 <= j < |rules| :: redis[j] == Works
    requires PositiveWindows(rules) && NoneCritical(rules)
    requires i < |rules| && forall j | 0 <= j < |rules| && j != i :: rules[j] != rules[i]
    ensures rules[i] in Reported(rules, ctx, cs, now, redis) <==> Sees(rules, i, ctx, cs, now) == Match
  {
    var js := Walk(rules, ctx, cs, now, redis).0;
    WalkOutcomes(rules, ctx, cs, now, redis);
    forall j | 0 <= j < |js| ensures !Stops(js[j]) { assert rules[j] in rules; }
    NoStopEvaluatesAll(js);
    MatchesAreTriggered(js, rules[i]);
    if Judged(rules[i], Match) in js {
      var j :| 0 <= j < |js| && js[j] == Judged(rules[i], Match);
      assert j == i;
    }
    if Sees(rules, i, ctx, cs, now) == Match { assert js[i] == Judged(rules[i], Match); }
  }

  /** A rule whose limit lies among the counts is not reported when it is placed first, and is
      reported when it is placed last. */
  lemma FirstAgainstLast(a: seq<Rule>, i: nat, ctx: Context, cs: Counters, now: Time, redis: seq<Redis>)
    returns (first: seq<Rule>, last: seq<Rule>)
    requires |redis| >= |a| && forall j | 0 <= j < |a| :: redis[j] == Works
    requires PositiveWindows(a) && NoneCritical(a)
    requires i < |a| && !Decided(a[i], a, ctx, cs, now) && multiset(a)[a[i]] == 1
    ensures multiset(first) == multiset(a) == multiset(last) && |first| == |a| == |last|
    ensures a[i] !in Reported(first, ctx, cs, now, redis) && a[i] in Reported(last, ctx, cs, now, redis)
  {
    var r, rest := a[i], a[..i] + a[i + 1..];
    var k := KeyOf(r, ctx).value;
    first, last := [r] + rest, rest + [r];
    assert a == a[..i] + ([r] + a[i + 1..]);
    assert multiset(a) == multiset(rest) + multiset{r};
    assert r !in multiset(rest);
    PermutedPremises(a, first, ctx, cs, now);
    PermutedPremises(a, last, ctx, cs, now);
    SharingPermuted(a, last, ctx, k);
    assert first[..1] == [r] && [r][1..] == [] && last[..|rest| + 1] == last;
    assert Sharing([r], ctx, k) == 1;
    forall j | 0 <= j < |rest| ensures rest[j] != r { assert rest[j] in multiset(rest); }
    ReportedExactly(first, 0, ctx, cs, now, redis);
    ReportedExactly(last, |rest|, ctx, cs, now, redis);
  }

  ghost predicate OrderNeverMatters(a: seq<Rule>, ctx: Context, cs: Counters, now: Time, redis: seq<Redis>)
    requires |redis| >= |a|
  {
    forall b: seq<Rule> | multiset(b) == multiset(a) && |b| == |a| ::
      multiset(Reported(b, ctx, cs, now, redis)) == multiset(Reported(a, ctx, cs, now, redis))
  }

  /** Exactly when the order of the rules matters: while Redis works, no rule is critical and no
      velocity rule is listed twice, every permutation reports the same rules if and only if
      each limit is decided beforehand, by the live count and the number of rules on its key. */
  lemma OrderMattersExactly(a: seq<Rule>, ctx: Context, cs: Counters, now: Time, redis: seq<Redis>)
    requires |redis| >= |a| && forall i | 0 <= i < |a| :: redis[i] == Works
    requires PositiveWindows(a) && NoneCritical(a)
    requires forall r | r in a && KeyOf(r, ctx).Some? :: multiset(a)[r] == 1
    ensures OrderNeverMatters(a, ctx, cs, now, redis) <==> AllDecided(a, ctx, cs, now)
  {
    if AllDecided(a, ctx, cs, now) {
      forall b: seq<Rule> | multiset(b) == multiset(a) && |b| == |a|
        ensures multiset(Reported(b, ctx, cs, now, redis)) == multiset(Reported(a, ctx, cs, now, redis))
      {
        DecidedOrderDoesNotMatter(a, b, ctx, cs, now, redis);
      }
    } else {
      var r :| r in a && !Decided(r, a, ctx, cs, now);
      var i :| 0 <= i < |a| && a[i] == r;
      var first, last := FirstAgainstLast(a, i, ctx, cs, now, redis);
      assert r !in multiset(Reported(first, ctx, cs, now, redis));
      assert r in multiset(Reported(last, ctx, cs, now, redis));
    }
  }

  const CARD: Context := map["card" := Str("x")]
  const STRICT := Rule("strict", "LOW", 0.25, Velocity(Some("card"), 60.0, 0))
  const LENIENT := Rule("lenient", "LOW", 0.25, Velocity(Some("card"), 60.0, 1))

  /** For instance, of two rules with limits 0 and 1 on one fresh key the second sees the count
      that the first has raised. */
  lemma SharedKeyMakesOrderMatter(redis: seq<Redis>)
    requires redis == [Works, Works]
    ensures !OrderNeverMatters([STRICT, LENIENT], CARD, map[], 0.0, redis)
    ensures ScoreOf(Evaluated(Walk([STRICT, LENIENT], CARD, map[], 0.0, redis).0)) == 0.5
    ensures ScoreOf(Evaluated(Walk([LENIENT, STRICT], CARD, map[], 0.0, redis).0)) == 0.25
  {
    var a, k := [STRICT, LENIENT], Key("card", Str("x"));
    assert a[1..] == [LENIENT] && [LENIENT][1..] == [];
    assert KeyOf(STRICT, CARD) == Some(k) && KeyOf(LENIENT, CARD) == Some(k);
    assert Sharing([LENIENT], CARD, k) == 1;
    assert Sharing(a, CARD, k) == 2;
    assert LENIENT in a && !Decided(LENIENT, a, CARD, map[], 0.0);
    OrderMattersExactly(a, CARD, map[], 0.0, redis);
    TwoRules(STRICT, LENIENT, redis);
    TwoRules(LENIENT, STRICT, redis);
  }

  lemma TwoRules(a: Rule, b: Rule, redis: seq<Redis>)
    requires a in {STRICT, LENIENT} && b in {STRICT, LENIENT} && redis == [Works, Works]
    ensures var first := if 1 > a.condition.limit then a.contribution else 0.0;
            var second := if 2 > b.condition.limit then b.contribution else 0.0;
            ScoreOf(Evaluated(Walk([a, b], CARD, map[], 0.0, redis).0)) == first + second
  {
    var k := Key("card", Str("x"));
    var cs1 := EvalRule(a, CARD, map[], 0.0, Works).1;
    assert Stored(cs1, k) == FixedWindow.Present(1, Some(60.0));
    assert [a, b][1..] == [b] && redis[1..] == [Works] && [b][1..] == [];
    var walk := Walk([a, b], CARD, map[], 0.0, redis).0;
    var ja, jb := Judged(a, Verdict(1 > a.condition.limit)), Judged(b, Verdict(2 > b.condition.limit));
    assert Walk([b], CARD, cs1, 0.0, [Works]).0 == [jb];
    assert walk == [ja, jb];
    NoStopEvaluatesAll(walk);
    TotalIsWeight(walk);
    assert WeightOf([ja, jb]) == Weight(ja) + WeightOf([jb]) by { assert [ja, jb][1..] == [jb]; }
    assert WeightOf([jb]) == Weight(jb) by { assert [jb][1..] == []; }
  }
}
