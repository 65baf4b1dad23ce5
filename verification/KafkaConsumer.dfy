/** One message on its way through the consumer, as functions on protocol states, and the
    proof that each of them is a run of the delivery protocol.

    What the outside world answers is passed in: whether Redis, the dead-letter topic and
    the commit work, and what each handler attempt does. */
module ConsumerSpec {
  import opened Prelude
  import opened Backoff
  import opened ConsumerProtocol

  /** How a call of the outside world ends.  `Escapes` stands for what the code around the
      call does not catch: a cancellation, or an exception outside the kinds it names. */
  datatype Answer = Works | Fails | Escapes

  /** The outside world's answers while one message is processed.  `cancelled` says whether
      what escapes is a cancellation; one before an attempt can fall into the pause that comes
      first, and `cut` is then how long it lasted. */
  datatype Answers = Answers(check: Answer, handler: seq<Answer>, cut: Option<Time>, dlq: Answer, mark: Answer,
                             commit: Answer, freshId: EventId, shutdown: bool, cancelled: bool)

  /** The pause after failed attempt number `attempt` is cut short. */
  predicate CutShort(a: Answers, attempt: nat)
    requires 1 <= attempt < |a.handler|
  {
    a.handler[attempt].Escapes? && a.cut.Some? && 0.0 <= a.cut.value < Pause(attempt)
  }

  function PauseAfter(a: Answers, attempt: nat): (dt: Time)
    requires 1 <= attempt < |a.handler|
    ensures 0.0 <= dt <= Pause(attempt)
  {
    if CutShort(a, attempt) then a.cut.value else Pause(attempt)
  }

  /** What is missing from the pauses after `k` failures. */
  function Missing(a: Answers, k: nat, n: nat): Time
    requires k <= n <= |a.handler|
  {
    if 1 <= k < n then Pause(k) - PauseAfter(a, k) else 0.0
  }

  /** Handler attempts that fail before the first that does not, among the first `n`. */
  function Failures(handler: seq<Answer>, n: nat): (k: nat)
    requires n <= |handler|
    ensures k <= n
    ensures forall i | 0 <= i < k :: handler[i].Fails?
    ensures k < n ==> !handler[k].Fails?
  {
    if n == 0 then 0
    else
      var k := Failures(handler, n - 1);
      if k == n - 1 && handler[k].Fails? then n else k
  }

  lemma {:induction false} FailuresStop(handler: seq<Answer>, k: nat, n: nat)
    requires k < n <= |handler| && Failures(handler, k) == k && !handler[k].Fails?
    ensures Failures(handler, n) == k
  {
    if n > k + 1 { FailuresStop(handler, k, n - 1); }
  }

  function Slept(s: State, dt: Time): State {
    s.(now := s.now + dt, marks := Live(s.marks, s.now + dt))
  }

  /** The state after attempt number `attempt` failed and the pause before the next is over. */
  function Failed(c: Config, s: State, id: EventId, attempt: nat, a: Answers): State
    requires 1 <= attempt <= c.retries <= |a.handler|
  {
    var t := s.(hist := s.hist + [Called(id, false)]);
    if attempt < c.retries then Slept(t, PauseAfter(a, attempt)) else t
  }

  /** The state after handling goes on from attempt number `attempt`; where something escapes,
      control stays. */
  function Tried(c: Config, s: State, off: nat, id: EventId, attempt: nat, a: Answers): State
    requires 1 <= attempt <= c.retries + 1 && c.retries <= |a.handler|
    decreases c.retries + 1 - attempt
  {
    if attempt > c.retries then
      if a.dlq.Escapes? then s.(pc := Trying(off, id, attempt))
      else SentToDlq(s, off, DlqEntry(id, c.retries), a.dlq.Works?).(pc := Finished(off, id, false))
    else
      match a.handler[attempt - 1]
      case Works => s.(hist := s.hist + [Called(id, true)], pc := Finished(off, id, true))
      case Escapes => s.(pc := Trying(off, id, attempt))
      case Fails => Tried(c, Failed(c, s, id, attempt, a), off, id, attempt + 1, a)
  }

  function Marked(c: Config, s: State, id: EventId, up: bool): State {
    s.(marks := if c.dedup && up then s.marks[id := s.now + c.ttl] else s.marks)
  }

  /** The state after a commit attempt; a failed commit leaves control where it was. */
  function Committed(c: Config, s: State, up: bool): State {
    if c.autoCommit then s.(pc := Idle)
    else if up then s.(pc := Idle, committed := s.position)
    else s
  }

  /** The state after marking and committing an event that was tried. */
  function Concluded(c: Config, s: State, off: nat, id: EventId, a: Answers): State {
    if !s.pc.Finished? || (c.dedup && a.mark.Escapes?) then s
    else Committed(c, Marked(c, s, id, a.mark.Works?).(pc := Settling(off, id)), a.commit.Works?)
  }

  predicate SeenBefore(c: Config, s: State, id: EventId, a: Answers) { c.dedup && a.check.Works? && id in s.marks }

  /** The state after the record under `s.pc` was processed.  Control is idle exactly when
      nothing escaped. */
  function Processed(c: Config, s: State, a: Answers): State
    requires c.retries <= |a.handler|
  {
    match s.pc
    case BadValue(off) =>
      if a.dlq.Escapes? then s else SentToDlq(s, off, DlqEntry(a.freshId, 0), a.dlq.Works?).(pc := Idle)
    case Parsed(off, id) =>
      if c.dedup && a.check.Escapes? then s
      else if SeenBefore(c, s, id, a) then Committed(c, s.(pc := Duplicate(off, id)), a.commit.Works?)
      else Concluded(c, Tried(c, s.(pc := Idle), off, id, 1, a), off, id, a)
    case _ => s
  }

  function Entry(off: nat, r: Record): Pc {
    match r
    case Good(id) => Parsed(off, id)
    case Unparseable => BadValue(off)
    case Poison => Poisoned(off)
  }

  function Fetched(s: State): State
    requires s.position < |s.log|
  {
    s.(position := s.position + 1, pc := Entry(s.position, s.log[s.position]))
  }

  /** The state after one message arrived.  A shutdown request that came before it leaves it
      fetched but not processed. */
  function Received(c: Config, s: State, a: Answers): State
    requires s.position < |s.log| && c.retries <= |a.handler|
  {
    if a.shutdown then Fetched(s) else Processed(c, Fetched(s), a)
  }

  /** The state after the consume loop met the given answers.  It stops for good at the
      first message that arrives after a shutdown request or that raises. */
  function Consumed(c: Config, s: State, answers: seq<Answers>): State
    requires forall i | 0 <= i < |answers| :: c.retries <= |answers[i].handler|
    decreases |answers|
  {
    if answers == [] || s.position >= |s.log| || !s.pc.Idle? then s
    else Consumed(c, Received(c, s, answers[0]), answers[1..])
  }

  // --- What the functions mean ------------------------------------------------

  /** The history after `k` more failed handler calls. */
  function FailedCalls(h: seq<Effect>, id: EventId, k: nat): seq<Effect> {
    if k == 0 then h else FailedCalls(h, id, k - 1) + [Called(id, false)]
  }

  /** What follows `k` failures: a success, a dead-letter publish, or something that escapes. */
  function Ending(c: Config, off: nat, id: EventId, k: nat, a: Answers): (Pc, seq<Effect>)
    requires k <= c.retries <= |a.handler|
  {
    if k < c.retries then
      if a.handler[k].Works? then (Finished(off, id, true), [Called(id, true)]) else (Trying(off, id, k + 1), [])
    else if a.dlq.Escapes? then (Trying(off, id, k + 1), [])
    else (Finished(off, id, false), [DlqSent(off, id, a.dlq.Works?)])
  }

  /** The last turn of the attempts. */
  lemma TriedEnds(c: Config, s: State, off: nat, id: EventId, k: nat, a: Answers)
    requires k <= c.retries <= |a.handler| && (k < c.retries ==> !a.handler[k].Fails?)
    ensures var t := Tried(c, s, off, id, k + 1, a);
            && t.pc == Ending(c, off, id, k, a).0 && t.hist == s.hist + Ending(c, off, id, k, a).1
            && t.dlq == if k == c.retries && a.dlq.Works? then s.dlq + [DlqEntry(id, k)] else s.dlq
  {
    assert s.hist + [] == s.hist;
  }

  lemma {:induction false} TriedFrom(c: Config, s: State, off: nat, id: EventId, attempt: nat, a: Answers, h: seq<Effect>)
    requires 1 <= attempt <= c.retries + 1 && c.retries <= |a.handler|
    requires Failures(a.handler, attempt - 1) == attempt - 1
    requires s.hist == FailedCalls(h, id, attempt - 1)
    ensures var t, n, k := Tried(c, s, off, id, attempt, a), c.retries, Failures(a.handler, c.retries);
            && t.pc == Ending(c, off, id, k, a).0
            && t.hist == FailedCalls(h, id, k) + Ending(c, off, id, k, a).1
            && t.dlq == if k == n && a.dlq.Works? then s.dlq + [DlqEntry(id, n)] else s.dlq
    decreases c.retries + 1 - attempt
  {
    if attempt <= c.retries && a.handler[attempt - 1].Fails? {
      var t := Failed(c, s, id, attempt, a);
      assert t.hist == FailedCalls(h, id, attempt) && t.dlq == s.dlq;
      TriedFrom(c, t, off, id, attempt + 1, a, h);
      assert Tried(c, s, off, id, attempt, a) == Tried(c, t, off, id, attempt + 1, a);
    } else {
      if attempt <= c.retries { FailuresStop(a.handler, attempt - 1, c.retries); }
      TriedEnds(c, s, off, id, attempt - 1, a);
    }
  }

  lemma {:induction false} SleptFrom(c: Config, s: State, off: nat, id: EventId, attempt: nat, a: Answers)
    requires 1 <= attempt <= c.retries + 1 && c.retries <= |a.handler|
    requires Failures(a.handler, attempt - 1) == attempt - 1
    ensures var n, k := c.retries, Failures(a.handler, c.retries);
            Tried(c, s, off, id, attempt, a).now
            == s.now + TotalPause(if k < n || n == 0 then k else n - 1)
                     - TotalPause(if attempt <= n || n == 0 then attempt - 1 else n - 1)
                     - if attempt <= k then Missing(a, k, n) else 0.0
    decreases c.retries + 1 - attempt
  {
    if attempt <= c.retries {
      if a.handler[attempt - 1].Fails? {
        SleptFrom(c, Failed(c, s, id, attempt, a), off, id, attempt + 1, a);
      } else {
        FailuresStop(a.handler, attempt - 1, c.retries);
      }
    }
  }

  /** For every number of retries and every pattern of failures: the handler is called up
      to its first attempt that does not fail and at most `retries` times, the dead-letter
      topic is written exactly when all attempts failed, and the pauses add up in closed
      form, less what a cancellation cuts off the last of them. */
  lemma RetryOutcome(c: Config, s: State, off: nat, id: EventId, a: Answers)
    requires c.retries <= |a.handler|
    ensures var t, n, k := Tried(c, s, off, id, 1, a), c.retries, Failures(a.handler, c.retries);
            && t.pc == Ending(c, off, id, k, a).0
            && t.hist == FailedCalls(s.hist, id, k) + Ending(c, off, id, k, a).1
            && t.dlq == (if k == n && a.dlq.Works? then s.dlq + [DlqEntry(id, n)] else s.dlq)
            && t.now == s.now + 0.5 * (Pow2(if k < n || n == 0 then k else n - 1) - 1) as real - Missing(a, k, n)
  {
    TriedFrom(c, s, off, id, 1, a, s.hist);
    SleptFrom(c, s, off, id, 1, a);
    var n, k := c.retries, Failures(a.handler, c.retries);
    TotalPauseClosed(if k < n || n == 0 then k else n - 1);
  }

  lemma {:induction false} CallsOfFailedCalls(h: seq<Effect>, id: EventId, k: nat)
    ensures CallsOf(FailedCalls(h, id, k), id) == CallsOf(h, id) + k
  {
    if k > 0 {
      CallsOfFailedCalls(h, id, k - 1);
      assert FailedCalls(h, id, k)[..|FailedCalls(h, id, k)| - 1] == FailedCalls(h, id, k - 1);
    }
  }

  lemma CallsOfEnding(h: seq<Effect>, c: Config, off: nat, id: EventId, k: nat, a: Answers)
    requires k <= c.retries <= |a.handler|
    ensures CallsOf(h + Ending(c, off, id, k, a).1, id)
         == CallsOf(h, id) + if k < c.retries && a.handler[k].Works? then 1 else 0
  {
    var e := Ending(c, off, id, k, a).1;
    if e == [] {
      assert h + e == h;
    } else {
      assert (h + e)[..|h|] == h;
    }
  }

  /** The event is neither seen before nor cut off at the check, so its handling begins. */
  predicate Begins(c: Config, s: State, id: EventId, a: Answers) {
    !c.dedup || a.check.Fails? || (a.check.Works? && id !in s.marks)
  }

  /** What a delivered event does to the history, for every pattern of answers.  The handler
      is called exactly when there is no Redis client, the check fails, or no mark lives. */
  lemma DeliveryOutcome(c: Config, s: State, off: nat, id: EventId, a: Answers)
    requires c.retries <= |a.handler| && s.pc == Parsed(off, id)
    ensures var t, k := Processed(c, s, a), Failures(a.handler, c.retries);
            if Begins(c, s, id, a) then
              && t.hist == FailedCalls(s.hist, id, k) + Ending(c, off, id, k, a).1
              && CallsOf(t.hist, id) == CallsOf(s.hist, id) + k + (if k < c.retries && a.handler[k].Works? then 1 else 0)
            else
              && t.hist == s.hist && t.marks == s.marks
              && (c.autoCommit || t.committed == if a.check.Works? && a.commit.Works? then s.position else s.committed)
  {
    if !Begins(c, s, id, a) { return; }
    var k := Failures(a.handler, c.retries);
    var tried := Tried(c, s.(pc := Idle), off, id, 1, a);
    assert tried.hist == FailedCalls(s.hist, id, k) + Ending(c, off, id, k, a).1 by {
      RetryOutcome(c, s.(pc := Idle), off, id, a);
    }
    assert Processed(c, s, a).hist == tried.hist;
    CallsOfFailedCalls(s.hist, id, k);
    CallsOfEnding(FailedCalls(s.hist, id, k), c, off, id, k, a);
  }

  // --- What a delivery leaves behind ----------------------------------------------------

  /** The delivery gets through its attempts: one succeeds, or all fail and the dead-letter
      publish does not escape. */
  predicate Finishes(c: Config, a: Answers)
    requires c.retries <= |a.handler|
  {
    var k := Failures(a.handler, c.retries);
    if k < c.retries then a.handler[k].Works? else !a.dlq.Escapes?
  }

  /** `t` has the marks of `s` that are still alive, and nothing else but a mark of `id` until
      the given time, if any. */
  ghost predicate MarksAre(s: State, t: State, id: EventId, until: Option<Time>) {
    && (forall j :: j in t.marks <==> (until.Some? && j == id) || (j in s.marks && t.now < s.marks[j]))
    && (forall j | j in t.marks :: t.marks[j] == if until.Some? && j == id then until.value else s.marks[j])
  }

  /** Nothing that a delivery has no business with is touched. */
  predicate OthersKept(s: State, t: State) {
    t.log == s.log && t.position == s.position && t.dlqCommitted == s.dlqCommitted && t.replayer == s.replayer
  }

  lemma {:induction false} TriedKeepsRest(c: Config, s: State, off: nat, id: EventId, attempt: nat, a: Answers)
    requires 1 <= attempt <= c.retries + 1 && c.retries <= |a.handler| && MarksAlive(s)
    ensures var t := Tried(c, s, off, id, attempt, a);
            OthersKept(s, t) && t.committed == s.committed && s.now <= t.now && MarksAre(s, t, id, None)
    decreases c.retries + 1 - attempt
  {
    if attempt <= c.retries && a.handler[attempt - 1].Fails? {
      TriedKeepsRest(c, Failed(c, s, id, attempt, a), off, id, attempt + 1, a);
    }
  }

  /** Whatever the answers, a delivery that begins leaves: the moment its pauses lead to; a mark
      of the event exactly when it finished and Redis wrote it, until the time to live from
      then; the other marks that are still alive; and the committed offset moved exactly when
      everything before the commit went through.  Where something escaped, control tells. */
  lemma DeliveryLeaves(c: Config, s: State, off: nat, id: EventId, a: Answers)
    requires c.retries <= |a.handler| && s.pc == Parsed(off, id) && MarksAlive(s) && Begins(c, s, id, a)
    ensures var t, k, n := Processed(c, s, a), Failures(a.handler, c.retries), c.retries;
            var finished, marks := Finishes(c, a), c.dedup && a.mark.Works?;
            && OthersKept(s, t)
            && t.now == s.now + 0.5 * (Pow2(if k < n || n == 0 then k else n - 1) - 1) as real - Missing(a, k, n)
            && t.dlq == (if k == n && a.dlq.Works? then s.dlq + [DlqEntry(id, n)] else s.dlq)
            && MarksAre(s, t, id, if finished && marks then Some(t.now + c.ttl) else None)
            && t.committed == (if finished && !(c.dedup && a.mark.Escapes?) && !c.autoCommit && a.commit.Works?
                               then s.position else s.committed)
            && t.pc == (if !finished then Trying(off, id, k + 1)
                        else if c.dedup && a.mark.Escapes? then Finished(off, id, k < n)
                        else if c.autoCommit || a.commit.Works? then Idle
                        else Settling(off, id))
  {
    var s0 := s.(pc := Idle);
    RetryOutcome(c, s0, off, id, a);
    TriedKeepsRest(c, s0, off, id, 1, a);
  }

  /** One that does not begin leaves everything but control and the committed offset. */
  lemma SkippedDeliveryLeaves(c: Config, s: State, off: nat, id: EventId, a: Answers)
    requires c.retries <= |a.handler| && s.pc == Parsed(off, id) && !Begins(c, s, id, a)
    ensures var t, commits := Processed(c, s, a), a.check.Works? && (c.autoCommit || a.commit.Works?);
            && t == s.(pc := t.pc, committed := t.committed)
            && t.committed == (if commits && !c.autoCommit then s.position else s.committed)
            && t.pc == (if a.check.Escapes? then Parsed(off, id) else if commits then Idle else Duplicate(off, id))
  {
  }

  /** A record that cannot be parsed goes to the dead-letter topic under a fresh id, with no
      retries counted, and is not committed; poison leaves everything as it is. */
  lemma BadRecordLeaves(c: Config, s: State, a: Answers)
    requires c.retries <= |a.handler| && (s.pc.BadValue? || s.pc.Poisoned?)
    ensures var t := Processed(c, s, a);
            if s.pc.Poisoned? || a.dlq.Escapes? then t == s
            else t == s.(pc := Idle, hist := s.hist + [DlqSent(s.pc.off, a.freshId, a.dlq.Works?)],
                         dlq := if a.dlq.Works? then s.dlq + [DlqEntry(a.freshId, 0)] else s.dlq)
  {
  }

  /** The mark of `id` lives until `until` at least. */
  predicate MarkedTill(c: Config, s: State, id: EventId, until: Time) {
    until <= s.now + c.ttl && (s.now < until ==> id in s.marks && until <= s.marks[id])
  }

  lemma MarkedTillStep(c: Config, s: State, a: Action, id: EventId, until: Time)
    requires MarkedTill(c, s, id, until)
    ensures MarkedTill(c, Step(c, s, a), id, until)
  {
  }

  lemma {:induction false} MarkedTillRun(c: Config, s: State, run: seq<Action>, id: EventId, until: Time)
    requires MarkedTill(c, s, id, until)
    ensures MarkedTill(c, Exec(c, s, run), id, until)
  {
    if run != [] {
      MarkedTillRun(c, s, run[..|run| - 1], id, until);
      MarkedTillStep(c, Exec(c, s, run[..|run| - 1]), run[|run| - 1], id, until);
    }
  }

  /** So an event that was handled, or given up, and marked is not handled again: after any
      continuation whatsoever, a delivery before the time to live has passed, with a check that
      works, adds nothing to the history. */
  lemma HandledEventIsNotHandledAgain(c: Config, s: State, off: nat, id: EventId, a: Answers, meanwhile: seq<Action>, b: Answers)
    requires c.dedup && c.retries <= |a.handler| && c.retries <= |b.handler|
    requires s.pc == Parsed(off, id) && MarksAlive(s) && Begins(c, s, id, a) && Finishes(c, a) && a.mark.Works?
    requires var t := Processed(c, s, a);
             var again := Exec(c, t, meanwhile);
             && again.pc.Idle? && again.position < |again.log| && again.log[again.position] == Good(id)
             && again.now < t.now + c.ttl && b.check.Works?
    ensures var again := Exec(c, Processed(c, s, a), meanwhile);
            Processed(c, Fetched(again), b).hist == again.hist
  {
    var t := Processed(c, s, a);
    var again := Exec(c, t, meanwhile);
    DeliveryLeaves(c, s, off, id, a);
    MarkedTillRun(c, t, meanwhile, id, t.now + c.ttl);
    DeliveryOutcome(c, Fetched(again), again.position, id, b);
  }

  /** A record that arrives after a shutdown request is fetched and nothing else. */
  lemma ShutdownLeaves(c: Config, s: State, a: Answers)
    requires c.retries <= |a.handler| && a.shutdown && s.position < |s.log|
    ensures var t := Received(c, s, a);
            t == s.(position := s.position + 1, pc := t.pc) && !t.pc.Idle? && t.pc.off == s.position
  {
  }

  // --- Progress of the loop -------------------------------------------------------------

  /** Nothing escapes, every commit works, and nobody asks for a shutdown. */
  predicate Calm(c: Config, a: Answers) {
    && c.retries <= |a.handler| && (forall i | 0 <= i < |a.handler| :: !a.handler[i].Escapes?)
    && !a.check.Escapes? && !a.dlq.Escapes? && !a.mark.Escapes? && a.commit.Works? && !a.shutdown
  }

  function Min(a: nat, b: nat): nat { if a < b then a else b }

  lemma CalmReceive(c: Config, s: State, a: Answers)
    requires Calm(c, a) && MarksAlive(s) && c.ttl > 0.0
    requires s.pc.Idle? && s.position < |s.log| && s.log[s.position] != Poison
    ensures var t := Received(c, s, a);
            && t.pc.Idle? && t.position == s.position + 1 && t.log == s.log && MarksAlive(t)
            && (c.autoCommit || s.log[s.position].Unparseable? || t.committed == t.position)
            && (c.autoCommit || s.log[s.position].Good? || t.committed == s.committed)
  {
    var f := Fetched(s);
    match s.log[s.position]
    case Unparseable => BadRecordLeaves(c, f, a);
    case Good(id) =>
      if Begins(c, f, id, a) { DeliveryLeaves(c, f, s.position, id, a); } else { SkippedDeliveryLeaves(c, f, s.position, id, a); }
  }

  /** On calm answers the loop takes a record per answer as far as there are records, ends idle,
      and, after a record that could be parsed, has committed everything it took. */
  lemma {:induction false} LoopMakesProgress(c: Config, s: State, answers: seq<Answers>)
    requires s.pc.Idle? && s.position <= |s.log| && MarksAlive(s) && c.ttl > 0.0
    requires forall i | 0 <= i < |answers| :: c.retries <= |answers[i].handler|
    requires forall i | 0 <= i < |answers| :: Calm(c, answers[i])
    requires forall off | s.position <= off < |s.log| :: s.log[off] != Poison
    ensures var t, n := Consumed(c, s, answers), Min(|answers|, |s.log| - s.position);
            && t.pc.Idle? && t.position == s.position + n && t.log == s.log
            && (n > 0 && !c.autoCommit && s.log[s.position + n - 1].Good? ==> t.committed == t.position)
    decreases |answers|
  {
    if answers != [] && s.position < |s.log| {
      var t := Received(c, s, answers[0]);
      CalmReceive(c, s, answers[0]);
      LoopMakesProgress(c, t, answers[1..]);
    }
  }

  /** The loop takes its messages one after the other: what it does with the first ones does not
      depend on what comes after them, and one message is received or, when control is not
      idle or no record is left, nothing. */
  lemma {:induction false} LoopInPieces(c: Config, s: State, first: seq<Answers>, rest: seq<Answers>)
    requires forall i | 0 <= i < |first| :: c.retries <= |first[i].handler|
    requires forall i | 0 <= i < |rest| :: c.retries <= |rest[i].handler|
    ensures Consumed(c, s, first + rest) == Consumed(c, Consumed(c, s, first), rest)
    ensures |first| == 1 ==>
              Consumed(c, s, first) == if s.pc.Idle? && s.position < |s.log| then Received(c, s, first[0]) else s
    decreases |first|
  {
    if first == [] {
      assert first + rest == rest;
    } else if s.pc.Idle? && s.position < |s.log| {
      assert (first + rest)[1..] == first[1..] + rest;
      LoopInPieces(c, Received(c, s, first[0]), first[1..], rest);
    }
  }

  /** So at the end of a calm loop after an orderly past every record it took was handled or
      sent to the dead-letter topic: it does what it is for, and not just nothing wrong. */
  lemma LoopHandlesEverything(c: Config, before: seq<Action>, answers: seq<Answers>, off: nat)
    requires Reliable(c) && Orderly(c, before) && c.ttl > 0.0
    requires forall i | 0 <= i < |answers| :: c.retries <= |answers[i].handler|
    requires forall i | 0 <= i < |answers| :: Calm(c, answers[i])
    requires var s := Exec(c, INIT, before);
             && s.pc.Idle? && (forall o | s.position <= o < |s.log| :: s.log[o] != Poison)
             && s.position <= off < |s.log| && off < s.position + |answers|
    ensures var t := Consumed(c, Exec(c, INIT, before), answers);
            off < t.position <= |t.log| && Covered(t, off)
  {
    var s := Exec(c, INIT, before);
    assert MarksAlive(s) by { RunKeepsMarksAlive(c, before); }
    assert s.position <= |s.log| by { RunKeepsOrder(c, before); }
    var run := LoopAfter(c, before, answers);
    var t := Consumed(c, s, answers);
    assert t.pc.Idle? && off < t.position && t.log == s.log by { LoopMakesProgress(c, s, answers); }
    assert InOrder(t, {}) && Covering(t, {}) by { RunKeepsCovering(c, run); }
    assert off < Frontier(t) && off !in {};
  }

  // --- Every function is a run of the protocol ----------------------------------

  function TryRun(c: Config, attempt: nat, a: Answers): seq<Action>
    requires 1 <= attempt <= c.retries + 1 && c.retries <= |a.handler|
    decreases c.retries + 1 - attempt
  {
    if attempt > c.retries then
      if a.dlq.Escapes? then [] else [SendDlq(a.dlq.Works?)]
    else
      match a.handler[attempt - 1]
      case Works => [Attempt(true)]
      case Escapes => []
      case Fails =>
        if attempt < c.retries then [Attempt(false), Tick(PauseAfter(a, attempt))] + TryRun(c, attempt + 1, a)
        else [Attempt(false)] + TryRun(c, attempt + 1, a)
  }

  lemma {:induction false} TriedIsRun(c: Config, s: State, off: nat, id: EventId, attempt: nat, a: Answers)
    requires 1 <= attempt <= c.retries + 1 && c.retries <= |a.handler|
    ensures Exec(c, s.(pc := Trying(off, id, attempt)), TryRun(c, attempt, a)) == Tried(c, s, off, id, attempt, a)
    decreases c.retries + 1 - attempt
  {
    var s0 := s.(pc := Trying(off, id, attempt));
    if attempt > c.retries {
      ExecOne(c, s0, SendDlq(a.dlq.Works?));
    } else if a.handler[attempt - 1].Works? {
      ExecOne(c, s0, Attempt(true));
    } else if a.handler[attempt - 1].Fails? {
      var t := s.(hist := s.hist + [Called(id, false)]);
      ExecOne(c, s0, Attempt(false));
      var rest := TryRun(c, attempt + 1, a);
      if attempt < c.retries {
        var u := Slept(t, PauseAfter(a, attempt));
        ExecTwo(c, s0, Attempt(false), Tick(PauseAfter(a, attempt)));
        assert Exec(c, s0, [Attempt(false), Tick(PauseAfter(a, attempt))]) == u.(pc := Trying(off, id, attempt + 1));
        ExecConcat(c, s0, [Attempt(false), Tick(PauseAfter(a, attempt))], rest);
        TriedIsRun(c, u, off, id, attempt + 1, a);
      } else {
        assert Exec(c, s0, [Attempt(false)]) == t.(pc := Trying(off, id, attempt + 1));
        ExecConcat(c, s0, [Attempt(false)], rest);
        TriedIsRun(c, t, off, id, attempt + 1, a);
      }
    }
  }

  function CommitRun(c: Config, a: Answers): seq<Action> {
    if c.autoCommit || a.commit.Works? then [ConsumerProtocol.Commit] else []
  }

  lemma CommittedIsRun(c: Config, s: State, a: Answers)
    requires s.pc.Duplicate? || s.pc.Settling?
    ensures Exec(c, s, CommitRun(c, a)) == Committed(c, s, a.commit.Works?)
  {
    if CommitRun(c, a) != [] { ExecOne(c, s, ConsumerProtocol.Commit); }
  }

  function ConcludeRun(c: Config, s: State, a: Answers): seq<Action> {
    if !s.pc.Finished? || (c.dedup && a.mark.Escapes?) then [] else [Mark(a.mark.Works?)] + CommitRun(c, a)
  }

  lemma ConcludedIsRun(c: Config, s: State, off: nat, id: EventId, a: Answers)
    requires s.pc.Finished? ==> s.pc.off == off && s.pc.id == id
    ensures Exec(c, s, ConcludeRun(c, s, a)) == Concluded(c, s, off, id, a)
  {
    if ConcludeRun(c, s, a) != [] {
      var t := Marked(c, s, id, a.mark.Works?).(pc := Settling(off, id));
      ExecOne(c, s, Mark(a.mark.Works?));
      CommittedIsRun(c, t, a);
      ExecConcat(c, s, [Mark(a.mark.Works?)], CommitRun(c, a));
    }
  }

  function CheckRun(c: Config, a: Answers): seq<Action> {
    if c.dedup && a.check.Escapes? then [] else [Check(a.check.Works?)]
  }

  function ProcessRun(c: Config, s: State, a: Answers): seq<Action>
    requires c.retries <= |a.handler|
  {
    match s.pc
    case BadValue(_) => if a.dlq.Escapes? then [] else [SendBad(a.freshId, a.dlq.Works?)]
    case Parsed(off, id) =>
      if c.dedup && a.check.Escapes? then []
      else if SeenBefore(c, s, id, a) then CheckRun(c, a) + CommitRun(c, a)
      else CheckRun(c, a) + TryRun(c, 1, a) + ConcludeRun(c, Tried(c, s.(pc := Idle), off, id, 1, a), a)
    case _ => []
  }

  lemma HandledIsRun(c: Config, s: State, off: nat, id: EventId, a: Answers)
    requires c.retries <= |a.handler| && s.pc == Parsed(off, id)
    requires !(c.dedup && a.check.Escapes?) && !SeenBefore(c, s, id, a)
    ensures Exec(c, s, ProcessRun(c, s, a)) == Processed(c, s, a)
  {
    var first, tries := CheckRun(c, a), TryRun(c, 1, a);
    var s0, t := s.(pc := Idle), Tried(c, s.(pc := Idle), off, id, 1, a);
    assert Exec(c, s, first) == s0.(pc := Trying(off, id, 1)) by { ExecOne(c, s, Check(a.check.Works?)); }
    assert Exec(c, s, first + tries) == t by {
      ExecConcat(c, s, first, tries);
      TriedIsRun(c, s0, off, id, 1, a);
    }
    assert t.pc.Finished? ==> t.pc.off == off && t.pc.id == id by { TriedFrom(c, s0, off, id, 1, a, s.hist); }
    ExecConcat(c, s, first + tries, ConcludeRun(c, t, a));
    ConcludedIsRun(c, t, off, id, a);
  }

  lemma ProcessedIsRun(c: Config, s: State, a: Answers)
    requires c.retries <= |a.handler|
    ensures Exec(c, s, ProcessRun(c, s, a)) == Processed(c, s, a)
  {
    match s.pc
    case BadValue(off) => ExecOne(c, s, SendBad(a.freshId, a.dlq.Works?));
    case Parsed(off, id) =>
      if !(c.dedup && a.check.Escapes?) {
        if SeenBefore(c, s, id, a) {
          ExecOne(c, s, Check(true));
          ExecConcat(c, s, CheckRun(c, a), CommitRun(c, a));
          CommittedIsRun(c, s.(pc := Duplicate(off, id)), a);
        } else {
          HandledIsRun(c, s, off, id, a);
        }
      }
    case _ =>
  }

  function ReceiveRun(c: Config, s: State, a: Answers): seq<Action>
    requires s.position < |s.log| && c.retries <= |a.handler|
  {
    if a.shutdown then [Fetch] else [Fetch] + ProcessRun(c, Fetched(s), a)
  }

  lemma ReceivedIsRun(c: Config, s: State, a: Answers)
    requires s.position < |s.log| && c.retries <= |a.handler| && s.pc.Idle?
    ensures Exec(c, s, ReceiveRun(c, s, a)) == Received(c, s, a)
  {
    ExecOne(c, s, Fetch);
    assert Exec(c, s, [Fetch]) == Fetched(s);
    ExecConcat(c, s, [Fetch], ProcessRun(c, Fetched(s), a));
    ProcessedIsRun(c, Fetched(s), a);
  }

  function ConsumeRun(c: Config, s: State, answers: seq<Answers>): seq<Action>
    requires forall i | 0 <= i < |answers| :: c.retries <= |answers[i].handler|
    decreases |answers|
  {
    if answers == [] || s.position >= |s.log| || !s.pc.Idle? then []
    else ReceiveRun(c, s, answers[0]) + ConsumeRun(c, Received(c, s, answers[0]), answers[1..])
  }

  /** Whatever the consume loop meets, what it does is a run of the delivery protocol, so
      every theorem about runs is about the loop. */
  lemma {:induction false} ConsumedIsRun(c: Config, s: State, answers: seq<Answers>)
    requires forall i | 0 <= i < |answers| :: c.retries <= |answers[i].handler|
    ensures Exec(c, s, ConsumeRun(c, s, answers)) == Consumed(c, s, answers)
    decreases |answers|
  {
    if answers != [] && s.position < |s.log| && s.pc.Idle? {
      var t := Received(c, s, answers[0]);
      ReceivedIsRun(c, s, answers[0]);
      ExecConcat(c, s, ReceiveRun(c, s, answers[0]), ConsumeRun(c, t, answers[1..]));
      ConsumedIsRun(c, t, answers[1..]);
    }
  }

  lemma {:induction false} TryRunNeverReenters(c: Config, attempt: nat, a: Answers)
    requires 1 <= attempt <= c.retries + 1 && c.retries <= |a.handler|
    ensures Reenter !in TryRun(c, attempt, a)
    decreases c.retries + 1 - attempt
  {
    if attempt <= c.retries { TryRunNeverReenters(c, attempt + 1, a); }
  }

  lemma {:induction false} ConsumeRunNeverReenters(c: Config, s: State, answers: seq<Answers>)
    requires forall i | 0 <= i < |answers| :: c.retries <= |answers[i].handler|
    ensures Reenter !in ConsumeRun(c, s, answers)
    decreases |answers|
  {
    if answers != [] && s.position < |s.log| && s.pc.Idle? {
      TryRunNeverReenters(c, 1, answers[0]);
      assert Reenter !in ReceiveRun(c, s, answers[0]);
      ConsumeRunNeverReenters(c, Received(c, s, answers[0]), answers[1..]);
    }
  }

  /** A past followed by the loop is a past. */
  lemma LoopAfter(c: Config, before: seq<Action>, answers: seq<Answers>) returns (run: seq<Action>)
    requires forall i | 0 <= i < |answers| :: c.retries <= |answers[i].handler|
    ensures Exec(c, INIT, run) == Consumed(c, Exec(c, INIT, before), answers)
    ensures Abandoned(c, run) == Abandoned(c, before)
  {
    var s := Exec(c, INIT, before);
    var loop := ConsumeRun(c, s, answers);
    run := before + loop;
    ConsumedIsRun(c, s, answers);
    ExecConcat(c, INIT, before, loop);
    ConsumeRunNeverReenters(c, s, answers);
    AbandonedConcat(c, before, loop);
  }

  /** After any past, entering the loop with any answers commits only what was handled or sent
      to the dead-letter topic, except records abandoned by re-entries: the past ones, and the
      one left unfinished when the loop is entered now. */
  lemma LoopCommitsWhatIsCovered(c: Config, before: seq<Action>, answers: seq<Answers>, off: nat)
    requires Reliable(c) && forall i | 0 <= i < |answers| :: c.retries <= |answers[i].handler|
    requires off < Consumed(c, Step(c, Exec(c, INIT, before), Reenter), answers).committed
    ensures var s := Exec(c, INIT, before);
            var t := Consumed(c, Step(c, s, Reenter), answers);
            && off < |t.log|
            && (off in Abandoned(c, before) || (!s.pc.Idle? && off == s.pc.off) || Covered(t, off))
  {
    ExecSnoc(c, INIT, before, Reenter);
    AbandonedSnoc(c, before, Reenter);
    var run := LoopAfter(c, before + [Reenter], answers);
    CommittedIsCoveredOrAbandoned(c, run, off);
  }

  /** So a loop that is entered with no record unfinished, after an orderly past, keeps the
      promise of at-least-once delivery. */
  lemma LoopDeliversAtLeastOnce(c: Config, before: seq<Action>, answers: seq<Answers>)
    requires Reliable(c) && forall i | 0 <= i < |answers| :: c.retries <= |answers[i].handler|
    requires Orderly(c, before)
    ensures CommittedCovered(Consumed(c, Exec(c, INIT, before), answers))
  {
    var run := LoopAfter(c, before, answers);
    AtLeastOnce(c, run);
  }
}

/** The consumer in the form the program gives it. */
module KafkaConsumer {
  import opened Prelude
  import opened Backoff
  import opened ConsumerProtocol
  import opened ConsumerSpec

  class FraudKafkaConsumer {
    const config: Config
    var running: bool
    /** The partition, the client's position in it and the group's committed offset. */
    var log: seq<Record>
    var position: nat
    var committed: nat
    /** The duplicate marks in Redis with their expiry, and the clock. */
    var marks: map<EventId, Time>
    var now: Time
    /** The dead-letter topic. */
    var dlq: seq<DlqEntry>
    ghost var dlqCommitted: nat
    ghost var replayer: Replayer
    ghost var hist: seq<Effect>

    /** The protocol state when control stands at `pc`. */
    ghost function At(pc: Pc): State
      reads this
    {
      State(log, position, committed, pc, marks, now, dlq, dlqCommitted, replayer, hist)
    }

    constructor (config: Config)
      ensures this.config == config && !running && At(Idle) == INIT
    {
      this.config := config;
      running := false;
      log, position, committed, marks, now, dlq := [], 0, 0, map[], 0.0, [];
      dlqCommitted, replayer, hist := 0, Resting, [];
    }

    /** Starting creates a fresh client, which begins at the committed offset; a consumer that
        runs already is left alone.  If a broker cannot be reached it raises, and the consumer
        stays stopped. */
    method Start(brokersUp: bool) returns (raised: bool)
      modifies this`running, this`position
      ensures raised <==> !old(running) && !brokersUp
      ensures running <==> !raised
      ensures At(Idle) == if old(running) then old(At(Idle)) else Step(config, old(At(Idle)), Crash)
    {
      if running { return false; }
      position := committed;
      if !brokersUp { return true; }
      running := true;
      return false;
    }

    method Stop()
      modifies this`running
      ensures !running
    {
      running := false;
    }

    /** A failing check counts as "not seen": the consumer fails open. */
    method IsDuplicate(id: EventId, check: Answer) returns (duplicate: bool, escaped: bool)
      ensures duplicate <==> config.dedup && check.Works? && id in marks
      ensures escaped <==> config.dedup && check.Escapes?
    {
      if !config.dedup { return false, false; }
      match check
      case Works => return id in marks, false;
      case Fails => return false, false;
      case Escapes => return false, true;
    }

    method MarkProcessed(id: EventId, mark: Answer) returns (escaped: bool)
      modifies this`marks
      ensures escaped <==> config.dedup && mark.Escapes?
      ensures marks == if config.dedup && mark.Works? then old(marks)[id := now + config.ttl] else old(marks)
    {
      if !config.dedup { return false; }
      if mark.Works? { marks := marks[id := now + config.ttl]; }
      escaped := mark.Escapes?;
    }

    /** A Kafka error is logged and swallowed; anything else escapes. */
    method SendToDlq(off: nat, entry: DlqEntry, publish: Answer) returns (escaped: bool)
      modifies this`dlq, this`hist
      ensures escaped <==> publish.Escapes?
      ensures dlq == if publish.Works? then old(dlq) + [entry] else old(dlq)
      ensures hist == if escaped then old(hist) else old(hist) + [DlqSent(off, entry.id, publish.Works?)]
    {
      if publish.Escapes? { return true; }
      if publish.Works? { dlq := dlq + [entry]; }
      hist := hist + [DlqSent(off, entry.id, publish.Works?)];
      return false;
    }

    method Sleep(dt: Time)
      requires dt >= 0.0
      modifies this`now, this`marks
      ensures now == old(now) + dt && marks == Live(old(marks), now)
    {
      now := now + dt;
      var live := map id | id in marks && now < marks[id] :: marks[id];
      marks := live;
    }

    /** Records a failed attempt and pauses, unless it was the last. */
    method Fail(id: EventId, attempt: nat, a: Answers)
      requires 1 <= attempt <= config.retries <= |a.handler|
      modifies this`now, this`marks, this`hist
      ensures At(Idle) == Failed(config, old(At(Idle)), id, attempt, a)
    {
      hist := hist + [Called(id, false)];
      if attempt < config.retries {
        Sleep(PauseAfter(a, attempt));
      }
    }

    /** Calls the handler at most `config.retries` times, pausing between attempts but not
        after the last; when every attempt failed the event goes to the dead-letter topic. */
    method HandleWithRetry(off: nat, id: EventId, a: Answers) returns (escaped: bool, calls: nat, ghost pc: Pc)
      requires |a.handler| >= config.retries
      modifies this`now, this`marks, this`dlq, this`hist
      ensures At(pc) == Tried(config, old(At(Idle)), off, id, 1, a)
      ensures if escaped then pc.Trying? else pc.Finished?
      ensures pc.Finished? ==> pc.off == off && pc.id == id
      ensures var k := Failures(a.handler, config.retries);
              calls == if k < config.retries && !(k >= 1 && CutShort(a, k)) then k + 1 else k
    {
      calls := 0;
      for attempt := 1 to config.retries + 1
        invariant calls == attempt - 1
        invariant Failures(a.handler, attempt - 1) == attempt - 1
        invariant Tried(config, At(Idle), off, id, attempt, a) == Tried(config, old(At(Idle)), off, id, 1, a)
      {
        var begun := attempt == 1 || !CutShort(a, attempt - 1);
        if begun { calls := calls + 1; }
        if !a.handler[attempt - 1].Fails? {
          FailuresStop(a.handler, attempt - 1, config.retries);
          if a.handler[attempt - 1].Escapes? { return true, calls, Trying(off, id, attempt); }
          hist := hist + [Called(id, true)];
          return false, calls, Finished(off, id, true);
        }
        Fail(id, attempt, a);
      }
      escaped := SendToDlq(off, DlqEntry(id, config.retries), a.dlq);
      pc := if escaped then Trying(off, id, config.retries + 1) else Finished(off, id, false);
    }

    /** Nothing around a commit catches its failure. */
    method CommitOffsets(commit: Answer) returns (escaped: bool)
      modifies this`committed
      ensures escaped <==> !config.autoCommit && !commit.Works?
      ensures committed == if config.autoCommit || escaped then old(committed) else position
    {
      if !config.autoCommit {
        if !commit.Works? { return true; }
        committed := position;
      }
      return false;
    }

    /** Marks and commits an event that was handled or given up. */
    method Conclude(off: nat, id: EventId, a: Answers, ghost before: Pc) returns (escaped: bool, ghost pc: Pc)
      requires before.Finished? && before.off == off && before.id == id
      modifies this`marks, this`committed
      ensures At(pc) == Concluded(config, old(At(before)), off, id, a)
      ensures escaped <==> !pc.Idle?
    {
      pc := before;
      escaped := MarkProcessed(id, a.mark);
      if escaped { return; }
      pc := Settling(off, id);
      escaped := CommitOffsets(a.commit);
      if !escaped { pc := Idle; }
    }

    /** The part of `_process_message` that follows a successful parse. */
    method ProcessEvent(off: nat, id: EventId, a: Answers) returns (escaped: bool, ghost pc: Pc)
      requires |a.handler| >= config.retries
      modifies this`now, this`marks, this`dlq, this`hist, this`committed
      ensures At(pc) == Processed(config, old(At(Parsed(off, id))), a)
      ensures (escaped <==> !pc.Idle?) && !pc.Poisoned?
    {
      var duplicate;
      pc := Parsed(off, id);
      duplicate, escaped := IsDuplicate(id, a.check);
      if escaped { return; }
      if duplicate {
        pc := Duplicate(off, id);
        escaped := CommitOffsets(a.commit);
        if !escaped { pc := Idle; }
        return;
      }
      var calls;
      escaped, calls, pc := HandleWithRetry(off, id, a);
      if escaped { return; }
      escaped, pc := Conclude(off, id, a, pc);
    }

    method ProcessMessage(a: Answers) returns (escaped: bool, ghost pc: Pc)
      requires 1 <= position <= |log| && |a.handler| >= config.retries
      modifies this`now, this`marks, this`dlq, this`hist, this`committed
      ensures At(pc) == Processed(config, old(At(Entry(position - 1, log[position - 1]))), a)
      ensures (escaped <==> !pc.Idle?) && (pc.Poisoned? <==> log[position - 1] == Poison)
    {
      var off := position - 1;
      match log[off]
      case Poison => escaped, pc := true, Poisoned(off);
      case Unparseable =>
        escaped := SendToDlq(off, DlqEntry(a.freshId, 0), a.dlq);
        pc := if escaped then BadValue(off) else Idle;
      case Good(id) => escaped, pc := ProcessEvent(off, id, a);
    }

    /** The next message arrives; a consumer that was told to stop leaves it at that. */
    method Receive(a: Answers) returns (escaped: bool, ghost pc: Pc)
      requires running && position < |log| && |a.handler| >= config.retries
      modifies this
      ensures At(pc) == Received(config, old(At(Idle)), a)
      ensures position == old(position) + 1 && log == old(log) && running == !a.shutdown
      ensures running && !escaped <==> pc.Idle?
      ensures escaped ==> running && (pc.Poisoned? <==> log[position - 1] == Poison)
    {
      position := position + 1;
      pc := Entry(position - 1, log[position - 1]);
      escaped := false;
      if a.shutdown {
        running := false;
      } else {
        escaped, pc := ProcessMessage(a);
      }
    }

    /** The consume loop, one `Answers` per message that arrives.  It refuses to begin before
        `Start`.  What escapes ends it in the middle of a record with the consumer still
        running: a cancellation quietly, anything else as an exception.  The next call begins
        after that record, as `Reenter` does. */
    method Consume(answers: seq<Answers>) returns (raised: bool, taken: nat, ghost pc: Pc)
      requires position <= |log|
      requires forall i | 0 <= i < |answers| :: |answers[i].handler| >= config.retries
      modifies this
      ensures position <= |log| && taken <= |answers|
      ensures !old(running) ==> raised && taken == 0 && At(pc) == old(At(Idle)) && !running
      ensures old(running) ==> At(pc) == Consumed(config, old(At(Idle)), answers)
      ensures old(running) && (pc.Idle? || !running) ==> !raised
      ensures old(running) && running && !pc.Idle? ==>
                taken > 0 && (raised <==> pc.Poisoned? || !answers[taken - 1].cancelled)
    {
      taken, pc := 0, Idle;
      if !running { return true, taken, pc; }
      var escaped := false;
      while taken < |answers| && position < |log| && running && !escaped
        invariant 0 <= taken <= |answers| && position <= |log|
        invariant running && !escaped <==> pc.Idle?
        invariant escaped ==> running && taken > 0 && position > 0 && (pc.Poisoned? <==> log[position - 1] == Poison)
        invariant Consumed(config, At(pc), answers[taken..]) == Consumed(config, old(At(Idle)), answers)
      {
        assert pc == Idle && answers[taken..][1..] == answers[taken + 1..];
        escaped, pc := Receive(answers[taken]);
        taken := taken + 1;
      }
      raised := escaped && (log[position - 1] == Poison || !answers[taken - 1].cancelled);
    }
  }
}
