/** The delivery protocol of the event consumer as a state machine.

    One step is one externally visible action of the consumer (fetch, duplicate check,
    handler attempt, dead-letter publish, mark, commit), of the dead-letter replayer,
    of some other producer, or of the clock.  A crash may fall between any two of them.
    An action that is not possible in a state leaves the state as it is, so every
    sequence of actions is a run.

    The consume loop can also end in the middle of a record without a crash: on a
    cancellation, which it swallows, or on an exception that escapes.  The client and its
    position live on, and `Reenter` is the caller entering the loop again.
 */
module ConsumerProtocol {
  import opened Prelude

  type EventId = string

  /** A record as the consumer sees it.  `Poison` stands for a value whose processing raises
      an exception that nothing catches: null, or not UTF-8. */
  datatype Record = Good(id: EventId) | Unparseable | Poison

  datatype DlqEntry = DlqEntry(id: EventId, retryCount: nat)

  /** `dedup` says whether a Redis client was configured, and `sharedStore` whether some
      other consumer group marks events in the same Redis (the key names no group).  A
      consumer that was started always has a dead-letter handler. */
  datatype Config = Config(dedup: bool, sharedStore: bool, autoCommit: bool, retries: nat, ttl: Time)

  /** Where the consumer stands inside the processing of the record at `off`. */
  datatype Pc =
    | Idle
    | Poisoned(off: nat)
    | BadValue(off: nat)
    | Parsed(off: nat, id: EventId)
    | Duplicate(off: nat, id: EventId)
    | Trying(off: nat, id: EventId, attempt: nat)
    | Finished(off: nat, id: EventId, delivered: bool)
    | Settling(off: nat, id: EventId)

  datatype Replayer = Resting | Replaying(next: nat, end: nat)

  /** What the outside world has seen: handler calls and dead-letter publishes. */
  datatype Effect =
    | Called(id: EventId, ok: bool)
    | DlqSent(off: nat, id: EventId, ok: bool)

  datatype State = State(
    log: seq<Record>, position: nat, committed: nat, pc: Pc,
    marks: map<EventId, Time>, now: Time,
    dlq: seq<DlqEntry>, dlqCommitted: nat, replayer: Replayer,
    hist: seq<Effect>)

  datatype Action =
    | Produce(record: Record)
    | Tick(dt: Time)
    | Fetch
    | SendBad(freshId: EventId, up: bool)
    | Check(up: bool)
    | Attempt(ok: bool)
    | SendDlq(up: bool)
    | Mark(up: bool)
    | Commit
    | AutoCommit
    | ForeignMark(id: EventId)
    | Crash
    | Reenter
    | ReplayFetch(count: nat)
    | ReplayPublish(ok: bool)
    | ReplayCommit
    | ReplayCrash

  const INIT := State([], 0, 0, Idle, map[], 0.0, [], 0, Resting, [])

  /** The keys that survive until `now`: a key is gone once the clock reaches its expiry. */
  function Live(marks: map<EventId, Time>, now: Time): map<EventId, Time> {
    map id | id in marks && now < marks[id] :: marks[id]
  }

  function Step(c: Config, s: State, a: Action): State {
    match a
    case Produce(r) => s.(log := s.log + [r])
    case Tick(dt) =>
      if dt < 0.0 then s else s.(now := s.now + dt, marks := Live(s.marks, s.now + dt))
    case Crash => s.(pc := Idle, position := s.committed)
    case Reenter => s.(pc := Idle)
    case AutoCommit => if c.autoCommit then s.(committed := s.position) else s
    case ForeignMark(id) =>
      if c.dedup && c.sharedStore then s.(marks := s.marks[id := s.now + c.ttl]) else s
    case ReplayFetch(_) => ReplayStep(s, a)
    case ReplayPublish(_) => ReplayStep(s, a)
    case ReplayCommit => ReplayStep(s, a)
    case ReplayCrash => ReplayStep(s, a)
    case _ => ProcessStep(c, s, a)
  }

  /** The steps of `_process_message` and the helpers it calls. */
  function ProcessStep(c: Config, s: State, a: Action): State {
    match (a, s.pc)
    case (Fetch, Idle) =>
      if s.position < |s.log| then
        var off := s.position;
        s.(position := off + 1,
           pc := match s.log[off]
                 case Good(id) => Parsed(off, id)
                 case Unparseable => BadValue(off)
                 case Poison => Poisoned(off))
      else s
    case (SendBad(freshId, up), BadValue(off)) =>
      SentToDlq(s, off, DlqEntry(freshId, 0), up).(pc := Idle)
    case (Check(up), Parsed(off, id)) =>
      s.(pc := if c.dedup && up && id in s.marks then Duplicate(off, id) else Trying(off, id, 1))
    case (Attempt(ok), Trying(off, id, attempt)) =>
      if attempt <= c.retries then
        s.(pc := if ok then Finished(off, id, true) else Trying(off, id, attempt + 1),
           hist := s.hist + [Called(id, ok)])
      else s
    case (SendDlq(up), Trying(off, id, attempt)) =>
      if attempt <= c.retries then s else
        SentToDlq(s, off, DlqEntry(id, c.retries), up).(pc := Finished(off, id, false))
    case (Mark(up), Finished(off, id, _)) =>
      s.(pc := Settling(off, id),
         marks := if c.dedup && up then s.marks[id := s.now + c.ttl] else s.marks)
    case (Commit, Settling(_, _)) => CommitPosition(c, s)
    case (Commit, Duplicate(_, _)) => CommitPosition(c, s)
    case _ => s
  }

  /** A publish to the dead-letter topic; a Kafka error is logged and swallowed. */
  function SentToDlq(s: State, off: nat, entry: DlqEntry, up: bool): State {
    s.(dlq := if up then s.dlq + [entry] else s.dlq, hist := s.hist + [DlqSent(off, entry.id, up)])
  }

  function CommitPosition(c: Config, s: State): State {
    s.(pc := Idle, committed := if c.autoCommit then s.committed else s.position)
  }

  /** The steps of `DLQHandler.replay`: fetch a batch, republish record by record, commit. */
  function ReplayStep(s: State, a: Action): State {
    match (a, s.replayer)
    case (ReplayFetch(count), Resting) =>
      if s.dlqCommitted + count <= |s.dlq| then
        s.(replayer := Replaying(s.dlqCommitted, s.dlqCommitted + count))
      else s
    case (ReplayPublish(ok), Replaying(next, end)) =>
      if next < end && next < |s.dlq| then
        s.(replayer := Replaying(next + 1, end),
           log := if ok then s.log + [Good(s.dlq[next].id)] else s.log)
      else s
    case (ReplayCommit, Replaying(next, end)) =>
      if next == end then s.(replayer := Resting, dlqCommitted := end) else s
    case (ReplayCrash, _) => s.(replayer := Resting)
    case _ => s
  }

  function Exec(c: Config, s: State, run: seq<Action>): State {
    if run == [] then s
    else Step(c, Exec(c, s, run[..|run| - 1]), run[|run| - 1])
  }

  lemma {:induction false} ExecConcat(c: Config, s: State, a: seq<Action>, b: seq<Action>)
    ensures Exec(c, s, a + b) == Exec(c, Exec(c, s, a), b)
  {
    if b == [] {
      assert a + b == a;
    } else {
      ExecConcat(c, s, a, b[..|b| - 1]);
      assert (a + b)[..|a + b| - 1] == a + b[..|b| - 1];
    }
  }

  lemma ExecSnoc(c: Config, s: State, run: seq<Action>, a: Action)
    ensures Exec(c, s, run + [a]) == Step(c, Exec(c, s, run), a)
  {
    assert (run + [a])[..|run|] == run;
  }

  lemma ExecOne(c: Config, s: State, a: Action)
    ensures Exec(c, s, [a]) == Step(c, s, a)
  {
    assert [a][..0] == [];
  }

  lemma ExecTwo(c: Config, s: State, a1: Action, a2: Action)
    ensures Exec(c, s, [a1, a2]) == Step(c, Step(c, s, a1), a2)
  {
    ExecOne(c, s, a1);
    ExecSnoc(c, s, [a1], a2);
    assert [a1] + [a2] == [a1, a2];
  }

  lemma ExecThree(c: Config, s: State, a1: Action, a2: Action, a3: Action)
    ensures Exec(c, s, [a1, a2, a3]) == Step(c, Step(c, Step(c, s, a1), a2), a3)
  {
    ExecSnoc(c, s, [], a1);
    ExecSnoc(c, s, [a1], a2);
    ExecSnoc(c, s, [a1, a2], a3);
    assert [] + [a1] == [a1] && [a1] + [a2] == [a1, a2] && [a1, a2] + [a3] == [a1, a2, a3];
  }

  lemma ExecFour(c: Config, s: State, a1: Action, a2: Action, a3: Action, a4: Action)
    ensures Exec(c, s, [a1, a2, a3, a4]) == Step(c, Step(c, Step(c, Step(c, s, a1), a2), a3), a4)
  {
    ExecThree(c, s, a1, a2, a3);
    ExecSnoc(c, s, [a1, a2, a3], a4);
    assert [a1, a2, a3] + [a4] == [a1, a2, a3, a4];
  }

  lemma ExecFive(c: Config, s: State, a1: Action, a2: Action, a3: Action, a4: Action, a5: Action)
    ensures Exec(c, s, [a1, a2, a3, a4, a5]) == Step(c, Step(c, Step(c, Step(c, Step(c, s, a1), a2), a3), a4), a5)
  {
    ExecFour(c, s, a1, a2, a3, a4);
    ExecSnoc(c, s, [a1, a2, a3, a4], a5);
    assert [a1, a2, a3, a4] + [a5] == [a1, a2, a3, a4, a5];
  }

  // ---------------------------------------------------------------------------
  // At-least-once delivery
  // ---------------------------------------------------------------------------

  /** The handler succeeded for the event, or a dead-letter publish was attempted for it. */
  ghost predicate Settled(hist: seq<Effect>, id: EventId) {
    Called(id, true) in hist || exists off, ok :: DlqSent(off, id, ok) in hist
  }

  /** Nothing more is owed for the record at `off`.  A poison record never is covered. */
  ghost predicate Covered(s: State, off: nat)
    requires off < |s.log|
  {
    match s.log[off]
    case Good(id) => Settled(s.hist, id)
    case Unparseable => exists id, ok :: DlqSent(off, id, ok) in s.hist
    case Poison => false
  }

  ghost predicate CommittedCovered(s: State) {
    s.committed <= |s.log| && forall off | 0 <= off < s.committed :: Covered(s, off)
  }

  /** The first offset whose processing is not finished. */
  function Frontier(s: State): nat {
    if s.pc.Idle? then s.position else s.pc.off
  }

  /** The offsets are in order, and every poison record below the frontier was abandoned. */
  ghost predicate InOrder(s: State, abandoned: set<nat>) {
    && s.position <= |s.log|
    && s.committed <= Frontier(s)
    && (!s.pc.Idle? ==> s.position == s.pc.off + 1 && s.log[s.pc.off] == RecordOf(s.pc))
    && (forall off | 0 <= off < Frontier(s) && s.log[off] == Poison :: off in abandoned)
  }

  function RecordOf(pc: Pc): Record
    requires !pc.Idle?
  {
    if pc.Poisoned? then Poison else if pc.BadValue? then Unparseable else Good(pc.id)
  }

  /** Everything below the frontier is covered or was abandoned, and every event that is
      marked or about to be committed is settled. */
  ghost predicate Covering(s: State, abandoned: set<nat>)
    requires InOrder(s, abandoned)
  {
    && (s.pc.Duplicate? || s.pc.Finished? || s.pc.Settling? ==> Settled(s.hist, s.pc.id))
    && (forall id | id in s.marks :: Settled(s.hist, id))
    && (forall off | 0 <= off < Frontier(s) && off !in abandoned :: Covered(s, off))
  }

  /** The record that a step gives up unfinished while its offset counts as consumed. */
  function Abandons(s: State, a: Action): set<nat> {
    if a.Reenter? && !s.pc.Idle? then {s.pc.off} else {}
  }

  /** The offsets in the middle of which the loop was entered again. */
  function Abandoned(c: Config, run: seq<Action>): set<nat> {
    if run == [] then {}
    else Abandoned(c, run[..|run| - 1]) + Abandons(Exec(c, INIT, run[..|run| - 1]), run[|run| - 1])
  }

  /** The loop is only ever entered when no record is unfinished. */
  predicate Orderly(c: Config, run: seq<Action>) { Abandoned(c, run) == {} }

  lemma {:induction false} WithoutReentryOrderly(c: Config, run: seq<Action>)
    requires Reenter !in run
    ensures Orderly(c, run)
  {
    if run != [] { WithoutReentryOrderly(c, run[..|run| - 1]); }
  }

  lemma AbandonedSnoc(c: Config, run: seq<Action>, a: Action)
    ensures Abandoned(c, run + [a]) == Abandoned(c, run) + Abandons(Exec(c, INIT, run), a)
  {
    assert (run + [a])[..|run|] == run;
  }

  lemma {:induction false} AbandonedConcat(c: Config, a: seq<Action>, b: seq<Action>)
    requires Reenter !in b
    ensures Abandoned(c, a + b) == Abandoned(c, a)
  {
    if b == [] {
      assert a + b == a;
    } else {
      AbandonedConcat(c, a, b[..|b| - 1]);
      assert (a + b)[..|a + b| - 1] == a + b[..|b| - 1];
    }
  }

  lemma CoveredGrows(s: State, t: State, off: nat)
    requires off < |s.log| && s.log <= t.log && s.hist <= t.hist
    requires Covered(s, off)
    ensures Covered(t, off)
  {
    assert t.log[off] == s.log[off];
    forall e | e in s.hist ensures e in t.hist {
      var i :| 0 <= i < |s.hist| && s.hist[i] == e;
      assert t.hist[i] == e;
    }
  }

  lemma SettledGrows(h: seq<Effect>, g: seq<Effect>, id: EventId)
    requires Settled(h, id)
    ensures Settled(h + g, id)
  {
    if !(Called(id, true) in h) {
      var off, ok :| DlqSent(off, id, ok) in h;
      assert DlqSent(off, id, ok) in h + g;
    }
  }

  lemma StepKeepsOrder(c: Config, s: State, a: Action, abandoned: set<nat>)
    requires !c.autoCommit && InOrder(s, abandoned)
    ensures InOrder(Step(c, s, a), abandoned + Abandons(s, a))
  {
    var t := Step(c, s, a);
    assert s.log <= t.log;
  }

  lemma CoveringGrows(s: State, t: State, abandoned: set<nat>)
    requires InOrder(s, abandoned) && Covering(s, abandoned) && s.log <= t.log && s.hist <= t.hist
    ensures forall id | Settled(s.hist, id) :: Settled(t.hist, id)
    ensures forall off | 0 <= off < Frontier(s) && off !in abandoned :: Covered(t, off)
  {
    var g := t.hist[|s.hist|..];
    assert t.hist == s.hist + g;
    forall id | Settled(s.hist, id) ensures Settled(t.hist, id) { SettledGrows(s.hist, g, id); }
    forall off | 0 <= off < Frontier(s) && off !in abandoned ensures Covered(t, off) { CoveredGrows(s, t, off); }
  }

  lemma ProcessStepKeepsCovering(c: Config, s: State, a: Action, abandoned: set<nat>)
    requires !c.autoCommit && InOrder(s, abandoned) && Covering(s, abandoned)
    requires InOrder(ProcessStep(c, s, a), abandoned)
    ensures Covering(ProcessStep(c, s, a), abandoned)
  {
    var t := ProcessStep(c, s, a);
    CoveringGrows(s, t, abandoned);
    match (a, s.pc)
    case (SendBad(freshId, up), BadValue(off)) => assert DlqSent(off, freshId, up) in t.hist;
    case (SendDlq(up), Trying(off, id, _)) =>
      if t != s { assert DlqSent(off, id, up) in t.hist; }
    case (Attempt(ok), Trying(off, id, _)) =>
      if t != s && ok { assert Called(id, true) in t.hist; }
    case _ =>
  }

  lemma StepKeepsCovering(c: Config, s: State, a: Action, abandoned: set<nat>)
    requires Reliable(c)
    requires InOrder(s, abandoned) && Covering(s, abandoned)
    ensures var after := abandoned + Abandons(s, a);
            InOrder(Step(c, s, a), after) && Covering(Step(c, s, a), after)
  {
    StepKeepsOrder(c, s, a, abandoned);
    assert s.log <= Step(c, s, a).log && s.hist <= Step(c, s, a).hist;
    CoveringGrows(s, Step(c, s, a), abandoned);
    match a
    case Produce(_) =>
    case ReplayPublish(_) =>
    case Tick(_) =>
    case Crash =>
    case Reenter =>
    case AutoCommit =>
    case ForeignMark(_) =>
    case ReplayFetch(_) =>
    case ReplayCommit =>
    case ReplayCrash =>
    case _ =>
      assert abandoned + {} == abandoned;
      ProcessStepKeepsCovering(c, s, a, abandoned);
  }

  lemma {:induction false} RunKeepsOrder(c: Config, run: seq<Action>)
    requires !c.autoCommit
    ensures InOrder(Exec(c, INIT, run), Abandoned(c, run))
  {
    if run != [] {
      var before := run[..|run| - 1];
      RunKeepsOrder(c, before);
      StepKeepsOrder(c, Exec(c, INIT, before), run[|run| - 1], Abandoned(c, before));
    }
  }

  lemma {:induction false} RunKeepsCovering(c: Config, run: seq<Action>)
    requires Reliable(c)
    ensures InOrder(Exec(c, INIT, run), Abandoned(c, run)) && Covering(Exec(c, INIT, run), Abandoned(c, run))
  {
    if run != [] {
      var before := run[..|run| - 1];
      RunKeepsCovering(c, before);
      StepKeepsCovering(c, Exec(c, INIT, before), run[|run| - 1], Abandoned(c, before));
    }
  }

  /** Offsets are committed by hand, and no other group writes this group's marks. */
  predicate Reliable(c: Config) {
    !c.autoCommit && !(c.dedup && c.sharedStore)
  }

  /** In every run whatever lies below the committed offset was handled or sent to the
      dead-letter topic, except records in the middle of which the loop was entered again. */
  lemma CommittedIsCoveredOrAbandoned(c: Config, run: seq<Action>, off: nat)
    requires Reliable(c) && off < Exec(c, INIT, run).committed
    ensures off < |Exec(c, INIT, run).log|
    ensures off in Abandoned(c, run) || Covered(Exec(c, INIT, run), off)
  {
    RunKeepsCovering(c, run);
  }

  /** Nothing below the committed offset was skipped, in any orderly run. */
  lemma AtLeastOnce(c: Config, run: seq<Action>)
    requires Reliable(c) && Orderly(c, run)
    ensures CommittedCovered(Exec(c, INIT, run))
  {
    RunKeepsCovering(c, run);
  }

  const AUTO_LOSS: seq<Action> := [Produce(Good("e")), Fetch, AutoCommit, Crash]

  /** Auto-commit can acknowledge a record between its fetch and its processing. */
  lemma AutoCommitLosesARecord(c: Config)
    requires c.autoCommit
    ensures var s := Exec(c, INIT, AUTO_LOSS);
            s.committed == 1 && s.log == [Good("e")] && s.hist == [] && !CommittedCovered(s)
  {
    ExecFour(c, INIT, Produce(Good("e")), Fetch, AutoCommit, Crash);
    var s := Exec(c, INIT, AUTO_LOSS);
    assert s.log[0] == Good("e");
    assert !Covered(s, 0);
  }

  const FOREIGN_LOSS: seq<Action> := [Produce(Good("e")), ForeignMark("e"), Fetch, Check(true), Commit]

  /** A mark left by another consumer group makes this group skip the event. */
  lemma SharedStoreLosesARecord(c: Config)
    requires !c.autoCommit && c.dedup && c.sharedStore
    ensures var s := Exec(c, INIT, FOREIGN_LOSS);
            s.committed == 1 && s.log == [Good("e")] && s.hist == [] && !CommittedCovered(s)
  {
    ExecFive(c, INIT, Produce(Good("e")), ForeignMark("e"), Fetch, Check(true), Commit);
    var s := Exec(c, INIT, FOREIGN_LOSS);
    assert s.log[0] == Good("e");
    assert !Covered(s, 0);
  }

  const INTERRUPT: seq<Action> := [Fetch, Reenter, Produce(Good("f"))]
  const FINISH: seq<Action> := [Attempt(true), SendDlq(true), Mark(true), Commit]

  /** The record is fetched and left, the loop is entered again, and the next record, "f",
      is handled (or, without retries, sent to the dead-letter topic) and committed. */
  function ReentryRun(r: Record): seq<Action> { [Produce(r)] + INTERRUPT + [Fetch, Check(true)] + FINISH }

  lemma InterruptState(c: Config, r: Record)
    ensures Exec(c, INIT, [Produce(r)] + INTERRUPT + [Fetch, Check(true)])
         == INIT.(log := [r, Good("f")], position := 2, pc := Trying(1, "f", 1))
  {
    var s0 := INIT.(log := [r]);
    var s1 := INIT.(log := [r, Good("f")], position := 1);
    assert Exec(c, INIT, [Produce(r)]) == s0 by { ExecOne(c, INIT, Produce(r)); }
    assert Exec(c, s0, INTERRUPT) == s1 by { ExecThree(c, s0, Fetch, Reenter, Produce(Good("f"))); }
    ExecTwo(c, s1, Fetch, Check(true));
    ExecConcat(c, INIT, [Produce(r)], INTERRUPT);
    ExecConcat(c, INIT, [Produce(r)] + INTERRUPT, [Fetch, Check(true)]);
  }

  lemma HandOverState(c: Config, s: State)
    requires s.pc == Trying(1, "f", 1) && s.hist == []
    ensures var t := Exec(c, s, [Attempt(true), SendDlq(true)]);
            && t.pc == Finished(1, "f", c.retries >= 1) && t.log == s.log && t.position == s.position
            && t.hist == [if c.retries >= 1 then Called("f", true) else DlqSent(1, "f", true)]
  {
    ExecTwo(c, s, Attempt(true), SendDlq(true));
  }

  lemma FinishState(c: Config, s: State)
    requires !c.autoCommit && s.pc == Trying(1, "f", 1) && s.hist == []
    ensures var t := Exec(c, s, FINISH);
            && t.committed == s.position && t.log == s.log
            && t.hist == [if c.retries >= 1 then Called("f", true) else DlqSent(1, "f", true)]
  {
    var t := Exec(c, s, [Attempt(true), SendDlq(true)]);
    HandOverState(c, s);
    ExecTwo(c, t, Mark(true), Commit);
    ExecConcat(c, s, [Attempt(true), SendDlq(true)], [Mark(true), Commit]);
    assert [Attempt(true), SendDlq(true)] + [Mark(true), Commit] == FINISH;
  }

  /** Entering the loop again in the middle of a record loses it, whatever the record and the
      configuration: the next commit passes it, poison included. */
  lemma ReentryLosesARecord(c: Config, r: Record)
    requires !c.autoCommit && r != Good("f")
    ensures var s := Exec(c, INIT, ReentryRun(r));
            s.committed == 2 && s.log == [r, Good("f")] && |s.hist| == 1 && !Covered(s, 0) && !CommittedCovered(s)
  {
    InterruptState(c, r);
    var s := Exec(c, INIT, [Produce(r)] + INTERRUPT + [Fetch, Check(true)]);
    FinishState(c, s);
    ExecConcat(c, INIT, [Produce(r)] + INTERRUPT + [Fetch, Check(true)], FINISH);
    var t := Exec(c, INIT, ReentryRun(r));
    assert t.log[0] == r;
    assert !Covered(t, 0);
  }

  /** The runs a caller can cause: those who never enter the loop again in the middle of a
      record cause the orderly ones. */
  ghost predicate AlwaysCovered(c: Config, reenters: bool) {
    forall run: seq<Action> | reenters || Orderly(c, run) :: CommittedCovered(Exec(c, INIT, run))
  }

  /** Manual commit, a store of its own and a caller that does not enter the loop again in the
      middle of a record are exactly what at-least-once delivery needs. */
  lemma AtLeastOnceExactlyWhenReliable(c: Config, reenters: bool)
    ensures AlwaysCovered(c, reenters) <==> Reliable(c) && !reenters
  {
    if c.autoCommit {
      AutoCommitLosesARecord(c);
      WithoutReentryOrderly(c, AUTO_LOSS);
    } else if c.dedup && c.sharedStore {
      SharedStoreLosesARecord(c);
      WithoutReentryOrderly(c, FOREIGN_LOSS);
    } else if reenters {
      ReentryLosesARecord(c, Good("e"));
    } else {
      forall run: seq<Action> | Orderly(c, run) ensures CommittedCovered(Exec(c, INIT, run)) { AtLeastOnce(c, run); }
    }
  }

  /** A poison record stops the group: no commit passes its offset unless the loop was entered
      again after the exception it raised. */
  lemma PoisonIsNeverPassed(c: Config, run: seq<Action>, off: nat)
    requires !c.autoCommit
    requires off < |Exec(c, INIT, run).log| && Exec(c, INIT, run).log[off] == Poison
    ensures Exec(c, INIT, run).committed <= off || off in Abandoned(c, run)
  {
    RunKeepsOrder(c, run);
  }

  /** Every dead-letter publish that succeeded is in the dead-letter topic. */
  ghost predicate DlqHolds(s: State) {
    forall off, id | DlqSent(off, id, true) in s.hist :: InDlq(s, id)
  }

  ghost predicate InDlq(s: State, id: EventId) {
    exists n :: DlqEntry(id, n) in s.dlq
  }

  lemma {:induction false} RunKeepsDlq(c: Config, run: seq<Action>)
    ensures DlqHolds(Exec(c, INIT, run))
  {
    if run != [] {
      RunKeepsDlq(c, run[..|run| - 1]);
      var s, a := Exec(c, INIT, run[..|run| - 1]), run[|run| - 1];
      var t := Step(c, s, a);
      forall off, id | DlqSent(off, id, true) in t.hist ensures InDlq(t, id) {
        if DlqSent(off, id, true) in s.hist {
          assert InDlq(s, id);
          var n :| DlqEntry(id, n) in s.dlq;
          assert DlqEntry(id, n) in t.dlq;
        } else {
          var e := t.dlq[|t.dlq| - 1];
          assert DlqEntry(id, e.retryCount) in t.dlq;
        }
      }
    }
  }

  /** When no dead-letter publish fails, every committed record that was not abandoned was
      handled or is in the dead-letter topic. */
  lemma NothingIsLost(c: Config, run: seq<Action>, off: nat)
    requires Reliable(c)
    requires forall o, id :: DlqSent(o, id, false) !in Exec(c, INIT, run).hist
    requires off < Exec(c, INIT, run).committed && off !in Abandoned(c, run)
    ensures var s := Exec(c, INIT, run);
            && off < |s.log|
            && match s.log[off]
               case Good(id) => Called(id, true) in s.hist || InDlq(s, id)
               case Unparseable => exists id :: DlqSent(off, id, true) in s.hist && InDlq(s, id)
               case Poison => false
  {
    CommittedIsCoveredOrAbandoned(c, run, off);
    RunKeepsDlq(c, run);
    var s := Exec(c, INIT, run);
    assert Covered(s, off);
    match s.log[off]
    case Good(id) =>
      if !(Called(id, true) in s.hist) {
        var o, ok :| DlqSent(o, id, ok) in s.hist;
        assert DlqSent(o, id, true) in s.hist;
      }
    case Unparseable =>
      var id, ok :| DlqSent(off, id, ok) in s.hist;
      assert DlqSent(off, id, true) in s.hist && InDlq(s, id);
    case Poison =>
  }

  // ---------------------------------------------------------------------------
  // How often an event can be handled
  // ---------------------------------------------------------------------------

  /** Successful handler calls for `id`. */
  function Completions(h: seq<Effect>, id: EventId): nat {
    if h == [] then 0
    else Completions(h[..|h| - 1], id) + if h[|h| - 1] == Called(id, true) then 1 else 0
  }

  /** The mishaps that can let `id` be handled once more: a crash or re-entry between the
      handler's success and the mark, a failed duplicate check, a failed mark, a lapsed mark. */
  predicate Mishap(c: Config, s: State, a: Action, id: EventId) {
    match a
    case Crash => s.pc.Finished? && s.pc.id == id && s.pc.delivered
    case Reenter => s.pc.Finished? && s.pc.id == id && s.pc.delivered
    case Check(up) => !up && s.pc.Parsed? && s.pc.id == id
    case Mark(up) => !up && s.pc.Finished? && s.pc.id == id
    case Tick(_) => id in s.marks && id !in Step(c, s, a).marks
    case _ => false
  }

  function Mishaps(c: Config, run: seq<Action>, id: EventId): nat {
    if run == [] then 0
    else Mishaps(c, run[..|run| - 1], id)
         + if Mishap(c, Exec(c, INIT, run[..|run| - 1]), run[|run| - 1], id) then 1 else 0
  }

  /** 1 when `id` may still be handled without any further mishap. */
  function Credit(s: State, id: EventId): nat {
    if s.pc.Trying? && s.pc.id == id then 1
    else if s.pc.Finished? && s.pc.id == id && s.pc.delivered then 0
    else if id in s.marks then 0 else 1
  }

  lemma CompletionsOfStep(c: Config, s: State, a: Action, id: EventId)
    ensures Completions(Step(c, s, a).hist, id)
         == Completions(s.hist, id)
            + if a == Attempt(true) && s.pc.Trying? && s.pc.id == id && s.pc.attempt <= c.retries then 1 else 0
  {
    var t := Step(c, s, a);
    if t.hist != s.hist { assert t.hist[..|t.hist| - 1] == s.hist; }
  }

  lemma CreditOfStep(c: Config, s: State, a: Action, id: EventId)
    requires c.dedup
    ensures Credit(Step(c, s, a), id)
            + (if a == Attempt(true) && s.pc.Trying? && s.pc.id == id && s.pc.attempt <= c.retries then 1 else 0)
         <= Credit(s, id) + if Mishap(c, s, a, id) then 1 else 0
  {
    match a
    case Tick(_) =>
    case Crash =>
    case Reenter =>
    case Produce(_) =>
    case AutoCommit =>
    case ForeignMark(_) =>
    case ReplayFetch(_) =>
    case ReplayPublish(_) =>
    case ReplayCommit =>
    case ReplayCrash =>
    case _ => assert Step(c, s, a) == ProcessStep(c, s, a);
  }

  lemma {:induction false} CreditInvariant(c: Config, run: seq<Action>, id: EventId)
    requires c.dedup
    ensures Completions(Exec(c, INIT, run).hist, id) + Credit(Exec(c, INIT, run), id) <= 1 + Mishaps(c, run, id)
  {
    if run != [] {
      CreditInvariant(c, run[..|run| - 1], id);
      CompletionsOfStep(c, Exec(c, INIT, run[..|run| - 1]), run[|run| - 1], id);
      CreditOfStep(c, Exec(c, INIT, run[..|run| - 1]), run[|run| - 1], id);
    }
  }

  ghost predicate HandledBound(c: Config, run: seq<Action>, id: EventId) {
    Completions(Exec(c, INIT, run).hist, id) <= 1 + Mishaps(c, run, id)
  }

  /** However often an event is published, replayed or redelivered, each handling after
      the first is paid for by a mishap. */
  lemma HandledAtMostOncePlusMishaps(c: Config, run: seq<Action>, id: EventId)
    requires c.dedup
    ensures HandledBound(c, run, id)
  {
    CreditInvariant(c, run, id);
  }

  const CRASH_AFTER_SUCCESS: seq<Action> := [Fetch, Check(true), Attempt(true), Crash]

  function CrashLoop(n: nat): seq<Action> {
    if n == 0 then [Produce(Good("e"))] else CrashLoop(n - 1) + CRASH_AFTER_SUCCESS
  }

  function Cost(c: Config, s: State, a: Action, id: EventId): nat { if Mishap(c, s, a, id) then 1 else 0 }

  lemma MishapsSnoc(c: Config, run: seq<Action>, a: Action, id: EventId)
    ensures Mishaps(c, run + [a], id) == Mishaps(c, run, id) + Cost(c, Exec(c, INIT, run), a, id)
  {
    assert (run + [a])[..|run|] == run;
  }

  lemma MishapsTwo(c: Config, run: seq<Action>, a1: Action, a2: Action, id: EventId)
    ensures var s := Exec(c, INIT, run);
            Mishaps(c, run + [a1, a2], id) == Mishaps(c, run, id) + Cost(c, s, a1, id) + Cost(c, Step(c, s, a1), a2, id)
  {
    MishapsSnoc(c, run, a1, id);
    ExecSnoc(c, INIT, run, a1);
    MishapsSnoc(c, run + [a1], a2, id);
    assert run + [a1] + [a2] == run + [a1, a2];
  }

  lemma MishapsFour(c: Config, run: seq<Action>, a1: Action, a2: Action, a3: Action, a4: Action, id: EventId)
    ensures var s0 := Exec(c, INIT, run);
            var s1 := Step(c, s0, a1);
            var s2 := Step(c, s1, a2);
            var s3 := Step(c, s2, a3);
            Mishaps(c, run + [a1, a2, a3, a4], id)
              == Mishaps(c, run, id) + Cost(c, s0, a1, id) + Cost(c, s1, a2, id) + Cost(c, s2, a3, id) + Cost(c, s3, a4, id)
  {
    var s0 := Exec(c, INIT, run);
    MishapsTwo(c, run, a1, a2, id);
    assert Exec(c, INIT, run + [a1, a2]) == Step(c, Step(c, s0, a1), a2) by {
      ExecTwo(c, s0, a1, a2);
      ExecConcat(c, INIT, run, [a1, a2]);
    }
    MishapsTwo(c, run + [a1, a2], a3, a4, id);
    assert run + [a1, a2] + [a3, a4] == run + [a1, a2, a3, a4];
  }

  /** The states of one delivery up to the handler's success. */
  lemma SuccessStates(c: Config, s: State, s1: State, s2: State, s3: State, id: EventId)
    requires s.pc == Idle && s.position == 0 && s.log == [Good(id)] && s.marks == map[] && c.retries >= 1
    requires s1 == Step(c, s, Fetch) && s2 == Step(c, s1, Check(true)) && s3 == Step(c, s2, Attempt(true))
    ensures s1 == s.(position := 1, pc := Parsed(0, id)) && s2 == s1.(pc := Trying(0, id, 1))
    ensures s3 == s2.(pc := Finished(0, id, true), hist := s.hist + [Called(id, true)])
  {
  }

  lemma OneMore(h: seq<Effect>, id: EventId)
    ensures Completions(h + [Called(id, true)], id) == Completions(h, id) + 1
  {
    assert (h + [Called(id, true)])[..|h|] == h;
  }

  lemma {:induction false} CrashLoopState(c: Config, n: nat)
    requires c.dedup && c.retries >= 1
    ensures var s := Exec(c, INIT, CrashLoop(n));
            && s.pc == Idle && s.position == s.committed == 0 && s.log == [Good("e")] && s.marks == map[]
            && Completions(s.hist, "e") == n && Mishaps(c, CrashLoop(n), "e") == n
  {
    if n == 0 {
      ExecOne(c, INIT, Produce(Good("e")));
      MishapsSnoc(c, [], Produce(Good("e")), "e");
      assert [] + [Produce(Good("e"))] == CrashLoop(0);
    } else {
      CrashLoopState(c, n - 1);
      var s := Exec(c, INIT, CrashLoop(n - 1));
      CrashOnce(c, CrashLoop(n - 1), s);
    }
  }

  lemma CrashOnce(c: Config, run: seq<Action>, s: State)
    requires c.dedup && c.retries >= 1 && s == Exec(c, INIT, run)
    requires s.pc == Idle && s.position == s.committed == 0 && s.log == [Good("e")] && s.marks == map[]
    ensures Exec(c, INIT, run + CRASH_AFTER_SUCCESS) == s.(hist := s.hist + [Called("e", true)])
    ensures Completions(s.hist + [Called("e", true)], "e") == Completions(s.hist, "e") + 1
    ensures Mishaps(c, run + CRASH_AFTER_SUCCESS, "e") == Mishaps(c, run, "e") + 1
  {
    var s1 := Step(c, s, Fetch);
    var s2 := Step(c, s1, Check(true));
    var s3 := Step(c, s2, Attempt(true));
    SuccessStates(c, s, s1, s2, s3, "e");
    ExecConcat(c, INIT, run, CRASH_AFTER_SUCCESS);
    ExecFour(c, s, Fetch, Check(true), Attempt(true), Crash);
    MishapsFour(c, run, Fetch, Check(true), Attempt(true), Crash, "e");
    OneMore(s.hist, "e");
  }

  const MARKED_SUCCESS: seq<Action> := [Fetch, Check(true), Attempt(true), Mark(true)]

  lemma SucceedOnce(c: Config, run: seq<Action>, s: State)
    requires c.dedup && c.retries >= 1 && s == Exec(c, INIT, run)
    requires s.pc == Idle && s.position == s.committed == 0 && s.log == [Good("e")] && s.marks == map[]
    ensures Completions(Exec(c, INIT, run + MARKED_SUCCESS).hist, "e") == Completions(s.hist, "e") + 1
    ensures Mishaps(c, run + MARKED_SUCCESS, "e") == Mishaps(c, run, "e")
  {
    var s1 := Step(c, s, Fetch);
    var s2 := Step(c, s1, Check(true));
    var s3 := Step(c, s2, Attempt(true));
    SuccessStates(c, s, s1, s2, s3, "e");
    assert Exec(c, INIT, run + MARKED_SUCCESS).hist == s.hist + [Called("e", true)] by {
      ExecConcat(c, INIT, run, MARKED_SUCCESS);
      ExecFour(c, s, Fetch, Check(true), Attempt(true), Mark(true));
    }
    MishapsFour(c, run, Fetch, Check(true), Attempt(true), Mark(true), "e");
    OneMore(s.hist, "e");
  }

  /** The bound is sharp: `n` crashes between success and mark give `n` + 1 handlings. */
  lemma HandledBoundIsSharp(c: Config, n: nat)
    requires c.dedup && c.retries >= 1
    ensures var run := CrashLoop(n) + MARKED_SUCCESS;
            Completions(Exec(c, INIT, run).hist, "e") == n + 1 && Mishaps(c, run, "e") == n
  {
    CrashLoopState(c, n);
    SucceedOnce(c, CrashLoop(n), Exec(c, INIT, CrashLoop(n)));
  }

  lemma {:induction false} NoRetriesNoCalls(c: Config, run: seq<Action>, id: EventId)
    requires c.retries == 0
    ensures Completions(Exec(c, INIT, run).hist, id) == 0
    ensures Exec(c, INIT, run).pc.Trying? ==> Exec(c, INIT, run).pc.attempt == 1
  {
    if run != [] {
      NoRetriesNoCalls(c, run[..|run| - 1], id);
      CompletionsOfStep(c, Exec(c, INIT, run[..|run| - 1]), run[|run| - 1], id);
    }
  }

  /** One pass of the consumer over a record whose handler succeeds at once. */
  function Deliver(up: bool): seq<Action> { [Fetch, Check(up), Attempt(true), Mark(true), Commit] }

  lemma DeliverHandles(c: Config, s: State, id: EventId, up: bool)
    requires s.pc.Idle? && s.position < |s.log| && s.log[s.position] == Good(id)
    requires c.retries >= 1 && !(c.dedup && up && id in s.marks)
    ensures var t := Exec(c, s, Deliver(up));
            && t.pc.Idle? && t.position == s.position + 1 && t.log == s.log
            && t.hist == s.hist + [Called(id, true)]
            && (!c.autoCommit ==> t.committed == t.position)
  {
    ExecFive(c, s, Fetch, Check(up), Attempt(true), Mark(true), Commit);
  }

  lemma DeliverSkips(c: Config, s: State, id: EventId)
    requires s.pc.Idle? && s.position < |s.log| && s.log[s.position] == Good(id)
    requires c.dedup && id in s.marks
    ensures var t := Exec(c, s, Deliver(true));
            && t.pc.Idle? && t.position == s.position + 1 && t.log == s.log
            && t.hist == s.hist
            && (!c.autoCommit ==> t.committed == t.position)
  {
    ExecFive(c, s, Fetch, Check(true), Attempt(true), Mark(true), Commit);
  }

  const TWO_COPIES: seq<Action> := [Produce(Good("e")), Produce(Good("e"))]

  lemma TwoCopiesPublished(c: Config)
    ensures var s := Exec(c, INIT, TWO_COPIES);
            s.pc.Idle? && s.position == 0 && s.log == [Good("e"), Good("e")] && s.hist == []
  {
    ExecSnoc(c, INIT, [], Produce(Good("e")));
    ExecSnoc(c, INIT, [Produce(Good("e"))], Produce(Good("e")));
    assert [] + [Produce(Good("e"))] == [Produce(Good("e"))];
    assert [Produce(Good("e"))] + [Produce(Good("e"))] == TWO_COPIES;
  }

  /** Without a Redis client two copies of one event are both handled, with no mishap. */
  lemma WithoutRedisTwiceHandled(c: Config)
    requires !c.dedup && c.retries >= 1
    ensures var run := TWO_COPIES + Deliver(true) + Deliver(true);
            Completions(Exec(c, INIT, run).hist, "e") == 2 && Mishaps(c, run, "e") == 0
  {
    var run := TWO_COPIES + Deliver(true) + Deliver(true);
    assert Exec(c, INIT, run).hist == [Called("e", true), Called("e", true)] by {
      TwoCopiesPublished(c);
      DeliverHandles(c, Exec(c, INIT, TWO_COPIES), "e", true);
      ExecConcat(c, INIT, TWO_COPIES, Deliver(true));
      DeliverHandles(c, Exec(c, INIT, TWO_COPIES + Deliver(true)), "e", true);
      ExecConcat(c, INIT, TWO_COPIES + Deliver(true), Deliver(true));
    }
    var h := [Called("e", true), Called("e", true)];
    assert h[..1] == [Called("e", true)] && h[..1][..0] == [];
    QuietRunsHaveNoMishap(c, run, "e");
  }

  lemma {:induction false} QuietRunsHaveNoMishap(c: Config, run: seq<Action>, id: EventId)
    requires forall i | 0 <= i < |run| :: run[i] != Crash && run[i] != Reenter && !run[i].Tick? && run[i] != Check(false) && run[i] != Mark(false)
    ensures Mishaps(c, run, id) == 0
  {
    if run != [] {
      QuietRunsHaveNoMishap(c, run[..|run| - 1], id);
    }
  }

  /** The bound holds in every run exactly when a Redis client is configured (or the
      handler is configured never to be called). */
  lemma HandledBoundExactlyWithRedis(c: Config)
    ensures (forall run: seq<Action>, id: EventId :: HandledBound(c, run, id)) <==> (c.dedup || c.retries == 0)
  {
    if c.dedup {
      forall run: seq<Action>, id: EventId ensures HandledBound(c, run, id) {
        HandledAtMostOncePlusMishaps(c, run, id);
      }
    } else if c.retries == 0 {
      forall run: seq<Action>, id: EventId ensures HandledBound(c, run, id) { NoRetriesNoCalls(c, run, id); }
    } else {
      WithoutRedisTwiceHandled(c);
      assert !HandledBound(c, TWO_COPIES + Deliver(true) + Deliver(true), "e");
    }
  }

  // ---------------------------------------------------------------------------
  // Dead-letter replay against the duplicate check
  // ---------------------------------------------------------------------------

  predicate MarksBounded(c: Config, s: State) {
    forall id | id in s.marks :: s.marks[id] <= s.now + c.ttl
  }

  /** `id` is marked until `until` at least, and no handler attempt for it is under way. */
  predicate Shadowed(s: State, id: EventId, until: Time) {
    && id in s.marks && until <= s.marks[id]
    && !(s.pc.Trying? && s.pc.id == id)
  }

  /** No duplicate check for `id` fails along the run. */
  predicate ChecksUp(c: Config, s: State, run: seq<Action>, id: EventId) {
    run == [] ||
    (ChecksUp(c, s, run[..|run| - 1], id) &&
     var t := Exec(c, s, run[..|run| - 1]);
     !(run[|run| - 1] == Check(false) && t.pc.Parsed? && t.pc.id == id))
  }

  lemma {:induction false} ClockIsMonotone(c: Config, s: State, run: seq<Action>)
    ensures s.now <= Exec(c, s, run).now
  {
    if run != [] { ClockIsMonotone(c, s, run[..|run| - 1]); }
  }

  lemma {:induction false} MarksStayBounded(c: Config, run: seq<Action>)
    ensures MarksBounded(c, Exec(c, INIT, run))
  {
    if run != [] {
      MarksStayBounded(c, run[..|run| - 1]);
      MarksBoundedStep(c, Exec(c, INIT, run[..|run| - 1]), run[|run| - 1]);
    }
  }

  function CallsOf(h: seq<Effect>, id: EventId): nat {
    if h == [] then 0
    else CallsOf(h[..|h| - 1], id) + if h[|h| - 1].Called? && h[|h| - 1].id == id then 1 else 0
  }

  lemma ShadowedStep(c: Config, s: State, a: Action, id: EventId, until: Time)
    requires c.dedup && MarksBounded(c, s) && Shadowed(s, id, until)
    requires !(a == Check(false) && s.pc.Parsed? && s.pc.id == id) && Step(c, s, a).now < until
    ensures Shadowed(Step(c, s, a), id, until)
    ensures CallsOf(Step(c, s, a).hist, id) == CallsOf(s.hist, id)
  {
    var t := Step(c, s, a);
    if t.hist != s.hist { assert t.hist[..|t.hist| - 1] == s.hist; }
  }

  /** Redis holds no mark whose time has come. */
  predicate MarksAlive(s: State) { forall id | id in s.marks :: s.now < s.marks[id] }

  lemma {:induction false} RunKeepsMarksAlive(c: Config, run: seq<Action>)
    requires c.ttl > 0.0
    ensures MarksAlive(Exec(c, INIT, run))
  {
    if run != [] {
      RunKeepsMarksAlive(c, run[..|run| - 1]);
      MarksAliveStep(c, Exec(c, INIT, run[..|run| - 1]), run[|run| - 1]);
    }
  }

  lemma MarksAliveStep(c: Config, s: State, a: Action)
    requires MarksAlive(s) && c.ttl > 0.0
    ensures MarksAlive(Step(c, s, a))
  {
    var t := Step(c, s, a);
    forall id | id in t.marks ensures t.now < t.marks[id] {}
  }

  lemma MarksBoundedStep(c: Config, s: State, a: Action)
    requires MarksBounded(c, s)
    ensures MarksBounded(c, Step(c, s, a))
  {
    var t := Step(c, s, a);
    forall id | id in t.marks ensures t.marks[id] <= t.now + c.ttl {}
  }

  lemma {:induction false} ShadowedRun(c: Config, s: State, run: seq<Action>, id: EventId, until: Time)
    requires c.dedup && MarksBounded(c, s) && Shadowed(s, id, until)
    requires ChecksUp(c, s, run, id) && Exec(c, s, run).now < until
    ensures var t := Exec(c, s, run);
            Shadowed(t, id, until) && MarksBounded(c, t) && CallsOf(t.hist, id) == CallsOf(s.hist, id)
  {
    if run != [] {
      var t, a := Exec(c, s, run[..|run| - 1]), run[|run| - 1];
      assert t.now <= Exec(c, s, run).now;
      ShadowedRun(c, s, run[..|run| - 1], id, until);
      ShadowedStep(c, t, a, id, until);
      MarksBoundedStep(c, t, a);
    }
  }

  /** Replaying a handler-exhausted event while its mark lives is a silent no-op: however
      many times it is replayed, published or redelivered after the state `s0` in which it
      was marked, the handler never sees it before the mark would lapse. */
  lemma ReplayWithinTtlNeverReachesHandler(c: Config, before: seq<Action>, after: seq<Action>, id: EventId)
    requires c.dedup
    requires var s0 := Exec(c, INIT, before);
             && s0.pc.Settling? && s0.pc.id == id && id in s0.marks
             && ChecksUp(c, s0, after, id)
             && Exec(c, s0, after).now < s0.marks[id]
    ensures CallsOf(Exec(c, INIT, before + after).hist, id) == CallsOf(Exec(c, INIT, before).hist, id)
  {
    var s0 := Exec(c, INIT, before);
    MarksStayBounded(c, before);
    ShadowedRun(c, s0, after, id, s0.marks[id]);
    ExecConcat(c, INIT, before, after);
  }

  /** A redelivered event reaches the handler exactly when its mark has lapsed, there is
      no Redis client, or the check fails; otherwise it is committed unseen. */
  lemma RedeliveryReachesHandlerExactly(c: Config, s: State, id: EventId, up: bool)
    requires s.pc.Idle? && s.position < |s.log| && s.log[s.position] == Good(id) && c.retries >= 1
    ensures var t := Exec(c, s, Deliver(up));
            && (CallsOf(t.hist, id) == CallsOf(s.hist, id) + 1 <==> (!c.dedup || !up || id !in s.marks))
            && (CallsOf(t.hist, id) == CallsOf(s.hist, id) <==> (c.dedup && up && id in s.marks))
            && t.pc.Idle? && t.position == s.position + 1
            && (!c.autoCommit ==> t.committed == t.position)
  {
    if c.dedup && up && id in s.marks {
      DeliverSkips(c, s, id);
    } else {
      DeliverHandles(c, s, id, up);
      assert (s.hist + [Called(id, true)])[..|s.hist|] == s.hist;
    }
  }
}
