/** Score aggregation, the decision, and the orchestrator's loop around them. */
module ScoreAggregation {
  import opened Prelude

  datatype Weights = Weights(rule: real, ml: real, graph: real, history: real)

  datatype Thresholds = Thresholds(approve: real, review: real, highRisk: real)

  datatype Scores = Scores(rule: real, ml: real, graph: real, history: real)

  datatype Decision = Approve | Review | Decline | Block

  datatype Aggregate = Score(value: real) | ValueError

  /** The field constraints of the two configuration models. */
  predicate ValidWeights(w: Weights) {
    0.0 <= w.rule <= 1.0 && 0.0 <= w.ml <= 1.0 && 0.0 <= w.graph <= 1.0 && 0.0 <= w.history <= 1.0
  }

  predicate InUnit(x: real) { 0.0 <= x <= 1.0 }

  predicate ValidScores(s: Scores) { InUnit(s.rule) && InUnit(s.ml) && InUnit(s.graph) && InUnit(s.history) }

  function WeightSum(w: Weights): real { w.rule + w.ml + w.graph + w.history }

  function Dot(w: Weights, s: Scores): real {
    w.rule * s.rule + w.ml * s.ml + w.graph * s.graph + w.history * s.history
  }

  const TOLERANCE: real := 0.01

  function AggregateScores(s: Scores, w: Weights): Aggregate {
    if !ValidScores(s) then ValueError
    else if WeightSum(w) - 1.0 > TOLERANCE || 1.0 - WeightSum(w) > TOLERANCE then ValueError
    else Score(MaxReal(0.0, MinReal(1.0, Dot(w, s))))
  }

  function MakeDecision(score: real, t: Thresholds): Decision {
    if score <= t.approve then Approve
    else if score <= t.review then Review
    else if score <= t.highRisk then Decline
    else Block
  }

  /** How severe a decision is. */
  function Rank(d: Decision): nat {
    match d
    case Approve => 0
    case Review => 1
    case Decline => 2
    case Block => 3
  }

  predicate AtMost(a: Scores, b: Scores) {
    a.rule <= b.rule && a.ml <= b.ml && a.graph <= b.graph && a.history <= b.history
  }

  lemma MulMonotone(w: real, a: real, b: real) returns (p: real, q: real)
    requires w >= 0.0 && a <= b
    ensures p == w * a && q == w * b && p <= q
  {
    p, q := w * a, w * b;
    assert w * (b - a) >= 0.0;
  }

  lemma DotMonotone(w: Weights, a: Scores, b: Scores)
    requires ValidWeights(w) && AtMost(a, b)
    ensures Dot(w, a) <= Dot(w, b)
  {
    var p1, q1 := MulMonotone(w.rule, a.rule, b.rule);
    var p2, q2 := MulMonotone(w.ml, a.ml, b.ml);
    var p3, q3 := MulMonotone(w.graph, a.graph, b.graph);
    var p4, q4 := MulMonotone(w.history, a.history, b.history);
    assert Dot(w, a) == p1 + p2 + p3 + p4;
    assert Dot(w, b) == q1 + q2 + q3 + q4;
  }

  /** Raising any engine score never makes the decision more lenient, for any accepted
      weights and for thresholds in any order. */
  lemma DecisionIsMonotone(w: Weights, t: Thresholds, a: Scores, b: Scores)
    requires ValidWeights(w) && AtMost(a, b)
    requires AggregateScores(a, w).Score? && AggregateScores(b, w).Score?
    ensures Rank(MakeDecision(AggregateScores(a, w).value, t)) <= Rank(MakeDecision(AggregateScores(b, w).value, t))
  {
    DotMonotone(w, a, b);
  }

  predicate ValidThresholds(t: Thresholds) { InUnit(t.approve) && InUnit(t.review) && InUnit(t.highRisk) }

  /** Some score that aggregation can give leads to the decision. */
  ghost predicate Reachable(d: Decision, t: Thresholds) {
    exists s: real :: InUnit(s) && MakeDecision(s, t) == d
  }

  /** The decisions a set of thresholds can give: each is reachable by some score exactly when
      its threshold (1 for a block) exceeds all the earlier ones; approval always is. */
  lemma ReviewIsReachableExactly(t: Thresholds)
    requires ValidThresholds(t)
    ensures Reachable(Approve, t)
    ensures Reachable(Review, t) <==> t.approve < t.review
    ensures Reachable(Decline, t) <==> MaxReal(t.approve, t.review) < t.highRisk
    ensures Reachable(Block, t) <==> MaxReal(MaxReal(t.approve, t.review), t.highRisk) < 1.0
  {
    assert MakeDecision(0.0, t) == Approve;
    if t.approve < t.review { assert MakeDecision(t.review, t) == Review; }
    if MaxReal(t.approve, t.review) < t.highRisk { assert MakeDecision(t.highRisk, t) == Decline; }
    if MaxReal(MaxReal(t.approve, t.review), t.highRisk) < 1.0 { assert MakeDecision(1.0, t) == Block; }
  }

  function Abs(x: real): real { if x < 0.0 then -x else x }

  /** For all weights and scores: aggregation raises exactly when a score lies outside [0, 1] or
      the weights miss a sum of 1 by more than 0.01, and otherwise gives the weighted sum, cut
      off at 1; for accepted weights it is never negative. */
  lemma AggregateExactly(s: Scores, w: Weights)
    ensures AggregateScores(s, w).ValueError? <==>
              || !(0.0 <= s.rule <= 1.0 && 0.0 <= s.ml <= 1.0 && 0.0 <= s.graph <= 1.0 && 0.0 <= s.history <= 1.0)
              || Abs(w.rule + w.ml + w.graph + w.history - 1.0) > 0.01
    ensures AggregateScores(s, w).Score? && ValidWeights(w) ==>
              var sum := w.rule * s.rule + w.ml * s.ml + w.graph * s.graph + w.history * s.history;
              AggregateScores(s, w).value == (if sum > 1.0 then 1.0 else sum) && 0.0 <= sum <= 1.01
  {
    if AggregateScores(s, w).Score? && ValidWeights(w) {
      DotInRange(s, w);
      assert WeightSum(w) <= 1.01;
      assert Dot(w, s) == w.rule * s.rule + w.ml * s.ml + w.graph * s.graph + w.history * s.history;
    }
  }

  lemma PartInRange(w: real, x: real) returns (p: real)
    requires w >= 0.0 && 0.0 <= x <= 1.0
    ensures p == w * x && 0.0 <= p <= w
  {
    p := w * x;
    assert w * (1.0 - x) >= 0.0;
  }

  lemma DotInRange(s: Scores, w: Weights)
    requires ValidScores(s) && ValidWeights(w)
    ensures 0.0 <= Dot(w, s) <= WeightSum(w)
  {
    var p1 := PartInRange(w.rule, s.rule);
    var p2 := PartInRange(w.ml, s.ml);
    var p3 := PartInRange(w.graph, s.graph);
    var p4 := PartInRange(w.history, s.history);
    assert Dot(w, s) == p1 + p2 + p3 + p4;
  }

  /** For thresholds in any order: a decision is reached exactly when the score is above all the
      thresholds before it and not above its own. */
  lemma DecisionExactly(score: real, t: Thresholds)
    ensures MakeDecision(score, t) == Approve <==> score <= t.approve
    ensures MakeDecision(score, t) == Review <==> t.approve < score <= t.review
    ensures MakeDecision(score, t) == Decline <==> t.approve < score && t.review < score && score <= t.highRisk
    ensures MakeDecision(score, t) == Block <==> t.approve < score && t.review < score && t.highRisk < score
  {
  }

  // --- End to end -----------------------------------------------------------------------

  const SHIPPED_WEIGHTS := Weights(0.4, 0.4, 0.2, 0.0)

  const SHIPPED_THRESHOLDS := Thresholds(0.30, 0.60, 0.85)

  /** A call to an engine: its score, or 0 when the call fails in any way. */
  function Fallback(reply: Option<real>): real {
    match reply
    case None => 0.0
    case Some(score) => score
  }

  datatype Replies = Replies(rule: Option<real>, ml: Option<real>, graph: Option<real>)

  function ScoresOf(r: Replies): Scores { Scores(Fallback(r.rule), Fallback(r.ml), Fallback(r.graph), 0.0) }

  predicate ValidReplies(r: Replies) {
    InUnit(Fallback(r.rule)) && InUnit(Fallback(r.ml)) && InUnit(Fallback(r.graph))
  }

  datatype Verdict = Decided(score: real, decision: Decision) | Raised

  /** One transaction with the shipped configuration. */
  function Decide(r: Replies): Verdict {
    match AggregateScores(ScoresOf(r), SHIPPED_WEIGHTS)
    case ValueError => Raised
    case Score(value) => Decided(value, MakeDecision(value, SHIPPED_THRESHOLDS))
  }

  /** Deciding raises exactly when some engine answers outside [0, 1]; otherwise the score is
      the plain weighted sum, which needs no clamping. */
  lemma DecideExactly(r: Replies)
    ensures Decide(r).Raised? <==> !ValidReplies(r)
    ensures ValidReplies(r) ==>
              && Decide(r).score == 0.4 * Fallback(r.rule) + 0.4 * Fallback(r.ml) + 0.2 * Fallback(r.graph)
              && InUnit(Decide(r).score)
  {
    if ValidReplies(r) {
      assert Dot(SHIPPED_WEIGHTS, ScoresOf(r)) == 0.4 * Fallback(r.rule) + 0.4 * Fallback(r.ml) + 0.2 * Fallback(r.graph);
    }
  }

  /** The shipped decision at a score, in figures. */
  predicate ShippedAt(d: Decision, score: real) {
    && (d == Approve <==> score <= 0.30)
    && (d == Review <==> 0.30 < score <= 0.60)
    && (d == Decline <==> 0.60 < score <= 0.85)
    && (d == Block <==> score > 0.85)
  }

  lemma ShippedDecision(r: Replies)
    requires ValidReplies(r)
    ensures ShippedAt(Decide(r).decision, 0.4 * Fallback(r.rule) + 0.4 * Fallback(r.ml) + 0.2 * Fallback(r.graph))
  {
    DecideExactly(r);
  }

  /** An engine that was not reached counts as 0, one that was counts as what it said. */
  lemma RepliesCount(rule: Option<real>, ml: Option<real>, graph: Option<real>)
    ensures var s := ScoresOf(Replies(rule, ml, graph));
            && s.rule == (if rule.Some? then rule.value else 0.0) && s.ml == (if ml.Some? then ml.value else 0.0)
            && s.graph == (if graph.Some? then graph.value else 0.0) && s.history == 0.0
  {
  }

  /** Some valid replies with this score lead to the decision. */
  ghost predicate RuleReaches(d: Decision, x: real) {
    exists r :: ValidReplies(r) && Decide(r).decision == d && Fallback(r.rule) == x
  }

  ghost predicate MlReaches(d: Decision, x: real) {
    exists r :: ValidReplies(r) && Decide(r).decision == d && Fallback(r.ml) == x
  }

  ghost predicate GraphReaches(d: Decision, x: real) {
    exists r :: ValidReplies(r) && Decide(r).decision == d && Fallback(r.graph) == x
  }

  lemma Reached(rule: real, ml: real, graph: real)
    requires InUnit(rule) && InUnit(ml) && InUnit(graph)
    ensures var d := Decide(Replies(Some(rule), Some(ml), Some(graph))).decision;
            && ShippedAt(d, 0.4 * rule + 0.4 * ml + 0.2 * graph)
            && RuleReaches(d, rule) && MlReaches(d, ml) && GraphReaches(d, graph)
  {
    var r := Replies(Some(rule), Some(ml), Some(graph));
    ShippedDecision(r);
    assert ValidReplies(r) && Fallback(r.rule) == rule && Fallback(r.ml) == ml && Fallback(r.graph) == graph;
  }

  /** What a rule or model score still allows: an approval exactly up to 0.75, a review always,
      a decline exactly when it is not 0, a block exactly above 0.625. */
  lemma RuleReachExactly(x: real)
    requires InUnit(x)
    ensures RuleReaches(Approve, x) <==> x <= 0.75
    ensures RuleReaches(Review, x)
    ensures RuleReaches(Decline, x) <==> x > 0.0
    ensures RuleReaches(Block, x) <==> x > 0.625
  {
    forall r | ValidReplies(r) && Fallback(r.rule) == x
      ensures ShippedAt(Decide(r).decision, 0.4 * x + 0.4 * Fallback(r.ml) + 0.2 * Fallback(r.graph))
    {
      ShippedDecision(r);
    }
    Reached(x, 0.0, 0.0);
    Reached(x, 1.0, 1.0);
    Reached(x, 1.0 - x, 0.0);
    if x > 0.0 { Reached(x, if x <= 0.625 then 1.0 else 1.25 - x, 1.0); }
  }

  lemma MlReachExactly(x: real)
    requires InUnit(x)
    ensures MlReaches(Approve, x) <==> x <= 0.75
    ensures MlReaches(Review, x)
    ensures MlReaches(Decline, x) <==> x > 0.0
    ensures MlReaches(Block, x) <==> x > 0.625
  {
    forall r | ValidReplies(r) && Fallback(r.ml) == x
      ensures ShippedAt(Decide(r).decision, 0.4 * Fallback(r.rule) + 0.4 * x + 0.2 * Fallback(r.graph))
    {
      ShippedDecision(r);
    }
    Reached(0.0, x, 0.0);
    Reached(1.0, x, 1.0);
    Reached(1.0 - x, x, 0.0);
    if x > 0.0 { Reached(if x <= 0.625 then 1.0 else 1.25 - x, x, 1.0); }
  }

  /** A graph score allows everything but a block, which needs more than 0.25. */
  lemma GraphReachExactly(x: real)
    requires InUnit(x)
    ensures GraphReaches(Approve, x) && GraphReaches(Review, x) && GraphReaches(Decline, x)
    ensures GraphReaches(Block, x) <==> x > 0.25
  {
    forall r | ValidReplies(r) && Fallback(r.graph) == x
      ensures ShippedAt(Decide(r).decision, 0.4 * Fallback(r.rule) + 0.4 * Fallback(r.ml) + 0.2 * x)
    {
      ShippedDecision(r);
    }
    Reached(0.0, 0.0, x);
    Reached(0.5, 0.5, x);
    Reached(0.8, 0.8, x);
    Reached(1.0, 1.0, x);
  }

  predicate Blocks(r: Replies) { Decide(r).Decided? && Decide(r).decision == Block }

  /** What each engine has to say for a transaction to be blocked, exactly: a rule or model
      score can be part of a block if and only if it exceeds 0.625, a graph score if and only
      if it exceeds 0.25. */
  lemma BlockNeedsEveryEngine(x: real)
    requires InUnit(x)
    ensures (exists r :: Blocks(r) && Fallback(r.rule) == x) <==> x > 0.625
    ensures (exists r :: Blocks(r) && Fallback(r.ml) == x) <==> x > 0.625
    ensures (exists r :: Blocks(r) && Fallback(r.graph) == x) <==> x > 0.25
  {
    forall r | Blocks(r) ensures Fallback(r.rule) > 0.625 && Fallback(r.ml) > 0.625 && Fallback(r.graph) > 0.25 {
      BlockBounds(r);
    }
    DecideExactly(Replies(Some(x), Some(1.0), Some(1.0)));
    DecideExactly(Replies(Some(1.0), Some(x), Some(1.0)));
    DecideExactly(Replies(Some(1.0), Some(1.0), Some(x)));
    if x > 0.625 {
      assert Blocks(Replies(Some(x), Some(1.0), Some(1.0)));
      assert Blocks(Replies(Some(1.0), Some(x), Some(1.0)));
    }
    if x > 0.25 { assert Blocks(Replies(Some(1.0), Some(1.0), Some(x))); }
  }

  lemma BlockBounds(r: Replies)
    requires Blocks(r)
    ensures Fallback(r.rule) > 0.625 && Fallback(r.ml) > 0.625 && Fallback(r.graph) > 0.25
  {
    DecideExactly(r);
  }

  /** An engine whose call failed rules out a block; with two failed calls the transaction is
      never worse than reviewed; the graph engine alone can only approve. */
  lemma FailedEnginesLimitTheDecision(r: Replies)
    requires ValidReplies(r)
    ensures r.rule.None? || r.ml.None? || r.graph.None? ==> Rank(Decide(r).decision) <= Rank(Decline)
    ensures r.rule.None? && r.graph.None? ==> Rank(Decide(r).decision) <= Rank(Review)
    ensures r.ml.None? && r.graph.None? ==> Rank(Decide(r).decision) <= Rank(Review)
    ensures r.rule.None? && r.ml.None? ==> Decide(r).decision == Approve
  {
    DecideExactly(r);
  }

  // --- The consume loop -------------------------------------------------------------------

  /** The value of a message: not JSON, or without an object where the payload is looked up;
      an empty payload; or a transaction. */
  datatype Value = Malformed | Empty | Transaction(id: string)

  /** A message: its value, the engines' replies, whether the event can be published, and how
      many steps of the metrics go through before a Redis command fails, or the conversion of
      the amount, which comes after the first (four are enough for every metric). */
  datatype Message = Message(value: Value, replies: Replies, publishUp: bool, commands: nat)

  datatype Evaluated = Evaluated(txn: string, score: real, decision: Decision)

  /** The message makes the loop raise: the coroutine ends and is not restarted. */
  predicate Fatal(m: Message) {
    m.value.Malformed? || (m.value.Transaction? && (Decide(m.replies).Raised? || !m.publishUp))
  }

  /** The events published for `ms` before the first fatal message; empty payloads are
      skipped. */
  function Published(ms: seq<Message>): seq<Evaluated> {
    if ms == [] then []
    else if Fatal(ms[0]) then []
    else if ms[0].value.Empty? then Published(ms[1..])
    else
      var d := Decide(ms[0].replies);
      [Evaluated(ms[0].value.id, d.score * 100.0, d.decision)] + Published(ms[1..])
  }

  /** The counters behind the dashboard. */
  datatype Metrics = Metrics(total: nat, fraud: nat, blocked: nat)

  /** The commands in their order: total, volume, then blocked and fraud for a block, or
      fraud for a review.  A decline moves neither. */
  function Counted(m: Metrics, d: Decision, commands: nat): Metrics {
    var total := if commands >= 1 then m.total + 1 else m.total;
    match d
    case Block => Metrics(total, if commands >= 4 then m.fraud + 1 else m.fraud, if commands >= 3 then m.blocked + 1 else m.blocked)
    case Review => Metrics(total, if commands >= 3 then m.fraud + 1 else m.fraud, m.blocked)
    case _ => m.(total := total)
  }

  function MetricsAfter(m: Metrics, ms: seq<Message>): Metrics
    decreases |ms|
  {
    if ms == [] then m
    else if Fatal(ms[0]) then m
    else if ms[0].value.Empty? then MetricsAfter(m, ms[1..])
    else MetricsAfter(Counted(m, Decide(ms[0].replies).decision, ms[0].commands), ms[1..])
  }

  function DecidedAs(events: seq<Evaluated>, d: Decision): nat {
    if events == [] then 0 else DecidedAs(events[1..], d) + if events[0].decision == d then 1 else 0
  }

  /** While Redis works and amounts convert the counters agree with the published events: all
      of them, the blocked ones, and as fraud the blocked and reviewed ones, but not the
      declined. */
  lemma {:induction false} MetricsAgreeWithEvents(m: Metrics, ms: seq<Message>)
    requires forall i | 0 <= i < |ms| :: ms[i].commands >= 4
    ensures var t, events := MetricsAfter(m, ms), Published(ms);
            && t.total == m.total + |events| && t.blocked == m.blocked + DecidedAs(events, Block)
            && t.fraud == m.fraud + DecidedAs(events, Block) + DecidedAs(events, Review)
    decreases |ms|
  {
    if ms != [] && !Fatal(ms[0]) {
      if ms[0].value.Empty? {
        MetricsAgreeWithEvents(m, ms[1..]);
      } else {
        var d := Decide(ms[0].replies);
        MetricsAgreeWithEvents(Counted(m, d.decision, ms[0].commands), ms[1..]);
        var first, rest := Evaluated(ms[0].value.id, d.score * 100.0, d.decision), Published(ms[1..]);
        assert Published(ms) == [first] + rest && Published(ms)[1..] == rest;
      }
    }
  }

  /** Whatever Redis does, the counters never run ahead of the published events. */
  lemma {:induction false} MetricsNeverRunAhead(m: Metrics, ms: seq<Message>)
    ensures var t, events := MetricsAfter(m, ms), Published(ms);
            && m.total <= t.total <= m.total + |events|
            && t.blocked - m.blocked <= DecidedAs(events, Block)
            && t.fraud - m.fraud <= DecidedAs(events, Block) + DecidedAs(events, Review)
    decreases |ms|
  {
    if ms != [] && !Fatal(ms[0]) {
      if ms[0].value.Empty? {
        MetricsNeverRunAhead(m, ms[1..]);
      } else {
        var d := Decide(ms[0].replies);
        MetricsNeverRunAhead(Counted(m, d.decision, ms[0].commands), ms[1..]);
        var first, rest := Evaluated(ms[0].value.id, d.score * 100.0, d.decision), Published(ms[1..]);
        assert Published(ms) == [first] + rest && Published(ms)[1..] == rest;
      }
    }
  }

  /** Every event carries the decision for the score it carries. */
  lemma {:induction false} EventsAreShipped(ms: seq<Message>)
    ensures forall e | e in Published(ms) :: ShippedAt(e.decision, e.score / 100.0)
  {
    if ms != [] && !Fatal(ms[0]) {
      EventsAreShipped(ms[1..]);
      if ms[0].value.Transaction? {
        DecideExactly(ms[0].replies);
        ShippedDecision(ms[0].replies);
      }
    }
  }

  class OrchestratorApp {
    var published: seq<Evaluated>
    var totalTx: nat
    var fraudTx: nat
    var blockedTx: nat

    function Tally(): Metrics
      reads this
    {
      Metrics(totalTx, fraudTx, blockedTx)
    }

    constructor ()
      ensures published == [] && Tally() == Metrics(0, 0, 0)
    {
      published, totalTx, fraudTx, blockedTx := [], 0, 0, 0;
    }

    /** The metrics of one decision; the first command that fails ends the update, and the
        failure is logged and swallowed. */
    method Count(d: Decision, commands: nat)
      modifies this`totalTx, this`fraudTx, this`blockedTx
      ensures Tally() == Counted(old(Tally()), d, commands)
    {
      if commands < 1 { return; }
      totalTx := totalTx + 1;
      if commands < 3 { return; }
      if d.Block? {
        blockedTx := blockedTx + 1;
        if commands < 4 { return; }
        fraudTx := fraudTx + 1;
      } else if d.Review? {
        fraudTx := fraudTx + 1;
      }
    }

    /** One pass over the messages; `stopped` says whether an exception ended the loop. */
    method Consume(ms: seq<Message>) returns (stopped: bool)
      modifies this
      ensures published == old(published) + Published(ms)
      ensures forall e | e in published[|old(published)|..] :: ShippedAt(e.decision, e.score / 100.0)
      ensures Tally() == MetricsAfter(old(Tally()), ms)
      ensures stopped <==> exists i :: 0 <= i < |ms| && Fatal(ms[i])
    {
      EventsAreShipped(ms);
      var i := 0;
      while i < |ms|
        invariant 0 <= i <= |ms|
        invariant forall j | 0 <= j < i :: !Fatal(ms[j])
        invariant old(published) + Published(ms) == published + Published(ms[i..])
        invariant MetricsAfter(old(Tally()), ms) == MetricsAfter(Tally(), ms[i..])
      {
        var m := ms[i];
        assert ms[i..][1..] == ms[i + 1..];
        if m.value.Malformed? {
          assert Published(ms[i..]) == [];
          return true;
        }
        if m.value.Transaction? {
          var verdict := Decide(m.replies);
          if verdict.Raised? || !m.publishUp {
            assert Published(ms[i..]) == [];
            return true;
          }
          published := published + [Evaluated(m.value.id, verdict.score * 100.0, verdict.decision)];
          Count(verdict.decision, m.commands);
        }
        i := i + 1;
      }
      return false;
    }
  }

  lemma {:induction false} PublishedConcat(a: seq<Message>, b: seq<Message>)
    requires forall i | 0 <= i < |a| :: !Fatal(a[i])
    ensures Published(a + b) == Published(a) + Published(b)
  {
    if a == [] {
      assert a + b == b;
    } else {
      assert (a + b)[1..] == a[1..] + b;
      PublishedConcat(a[1..], b);
    }
  }

  /** What a subscriber may rely on: the event of a transaction carries its id, the weighted sum
      as a figure up to 100, and the decision for that sum; it comes after the events before
      it and before those after it, and empty payloads leave no event. */
  lemma PublishedExactly(before: seq<Message>, m: Message, later: seq<Message>)
    requires (forall i | 0 <= i < |before| :: !Fatal(before[i])) && !Fatal(m)
    ensures Published([]) == []
    ensures m.value.Empty? ==> Published(before + [m] + later) == Published(before) + Published(later)
    ensures m.value.Transaction? ==>
              var events := Published(before + [m] + later);
              && |events| == |Published(before)| + 1 + |Published(later)|
              && events[..|Published(before)|] == Published(before) && events[|Published(before)| + 1..] == Published(later)
              && Tells(events[|Published(before)|], m)
  {
    assert before + [m] + later == before + ([m] + later);
    PublishedConcat(before, [m] + later);
    assert ([m] + later)[1..] == later;
    if m.value.Transaction? {
      ShippedDecision(m.replies);
      DecideExactly(m.replies);
    }
  }

  /** The event tells the id, the score in percent and the decision of the message. */
  predicate Tells(e: Evaluated, m: Message) {
    && m.value.Transaction? && e.txn == m.value.id
    && e.score == 40.0 * Fallback(m.replies.rule) + 40.0 * Fallback(m.replies.ml) + 20.0 * Fallback(m.replies.graph)
    && ShippedAt(e.decision, e.score / 100.0)
  }

  /** A message ends the loop exactly when it is malformed, or is a transaction for which an
      engine answered outside [0, 1] or whose event cannot be published. */
  lemma FatalExactly(m: Message)
    ensures Fatal(m) <==>
              || m.value.Malformed?
              || (m.value.Transaction? &&
                    !(0.0 <= Fallback(m.replies.rule) <= 1.0 && 0.0 <= Fallback(m.replies.ml) <= 1.0
                      && 0.0 <= Fallback(m.replies.graph) <= 1.0 && m.publishUp))
  {
    DecideExactly(m.replies);
  }

  /** One malformed message, out-of-range engine score or failed publish silences the
      orchestrator: nothing after it is ever published. */
  lemma NothingAfterAFatalMessage(before: seq<Message>, bad: Message, later: seq<Message>)
    requires (forall i | 0 <= i < |before| :: !Fatal(before[i])) && Fatal(bad)
    ensures Published(before + [bad] + later) == Published(before)
  {
    assert before + [bad] + later == before + ([bad] + later);
    PublishedConcat(before, [bad] + later);
  }
}

/** The decision together with the engines behind it. */
module EndToEnd {
  import opened Prelude
  import opened ScoreAggregation
  import FraudGraph
  import RuleEvaluation

  /** A block means that the graph service found a pattern and that the contributions of the
      triggered rules exceed 0.625. */
  lemma BlockHasReasons(txns: seq<FraudGraph.Txn>, t: FraudGraph.Txn, judged: seq<RuleEvaluation.Judged>, ml: Option<real>)
    requires t in txns
    requires Blocks(Replies(Some(RuleEvaluation.ScoreOf(RuleEvaluation.Evaluated(judged))), ml,
                            Some(FraudGraph.Score(FraudGraph.Build(txns), t))))
    ensures FraudGraph.PatternsOf(FraudGraph.Build(txns), t) != []
    ensures RuleEvaluation.Total(RuleEvaluation.Evaluated(judged)) > 0.625
    ensures RuleEvaluation.Evaluated(judged) != []
  {
    BlockBounds(Replies(Some(RuleEvaluation.ScoreOf(RuleEvaluation.Evaluated(judged))), ml,
                        Some(FraudGraph.Score(FraudGraph.Build(txns), t))));
  }

  /** With rule contributions that are not negative and a model score in [0, 1] the
      orchestrator never raises, whatever the graph and the rules' outcomes. */
  lemma DecisionNeverRaises(txns: seq<FraudGraph.Txn>, t: FraudGraph.Txn, judged: seq<RuleEvaluation.Judged>, ml: Option<real>)
    requires t in txns && InUnit(Fallback(ml))
    requires forall j | j in judged :: j.rule.contribution >= 0.0
    ensures Decide(Replies(Some(RuleEvaluation.ScoreOf(RuleEvaluation.Evaluated(judged))), ml,
                           Some(FraudGraph.Score(FraudGraph.Build(txns), t)))).Decided?
  {
    RuleEvaluation.ScoreInUnitInterval(judged);
    FraudGraph.PossibleScores(txns, t);
    DecideExactly(Replies(Some(RuleEvaluation.ScoreOf(RuleEvaluation.Evaluated(judged))), ml,
                          Some(FraudGraph.Score(FraudGraph.Build(txns), t))));
  }
}
