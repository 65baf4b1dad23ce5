/** Replaying the dead-letter topic into the original topic. */
module DlqReplay {
  import opened ConsumerProtocol

  /** What the batch fetched at `start` puts back: the entries whose republish succeeded. */
  function Republished(dlq: seq<DlqEntry>, start: nat, oks: seq<bool>): seq<Record>
    requires start + |oks| <= |dlq|
  {
    if oks == [] then []
    else
      var n := |oks| - 1;
      var before := Republished(dlq, start, oks[..n]);
      if oks[n] then before + [Good(dlq[start + n].id)] else before
  }

  function Count(oks: seq<bool>, value: bool): nat {
    if oks == [] then 0 else Count(oks[..|oks| - 1], value) + if oks[|oks| - 1] == value then 1 else 0
  }

  /** Every fetched record is either replayed or failed. */
  lemma {:induction false} ReplayedPlusFailed(dlq: seq<DlqEntry>, start: nat, oks: seq<bool>)
    requires start + |oks| <= |dlq|
    ensures |Republished(dlq, start, oks)| == Count(oks, true)
    ensures Count(oks, true) + Count(oks, false) == |oks|
  {
    if oks != [] { ReplayedPlusFailed(dlq, start, oks[..|oks| - 1]); }
  }

  /** Which record it is: the one at `start` + `i`, if its republish succeeded, comes back right
      after the successes before it. */
  lemma {:induction false} RepublishedExactly(dlq: seq<DlqEntry>, start: nat, oks: seq<bool>, i: nat)
    requires start + |oks| <= |dlq| && i < |oks| && oks[i]
    ensures Count(oks[..i], true) < |Republished(dlq, start, oks)|
    ensures Republished(dlq, start, oks)[Count(oks[..i], true)] == Good(dlq[start + i].id)
  {
    var n := |oks| - 1;
    ReplayedPlusFailed(dlq, start, oks[..n]);
    if i == n {
      assert oks[..i] == oks[..n];
    } else {
      RepublishedExactly(dlq, start, oks[..n], i);
      assert oks[..n][..i] == oks[..i];
    }
  }

  /** The dead-letter handler of one topic, with the two topics it moves records between. */
  class DLQHandler {
    var dlqTopic: seq<DlqEntry>
    var dlqCommitted: nat
    var originalTopic: seq<Record>

    predicate Valid()
      reads this
    {
      dlqCommitted <= |dlqTopic|
    }

    /** Republishes the batch that was fetched and commits past all of it, the records whose
        republish failed (`oks` false) included; `replayed` counts the successes.  A commit
        that fails raises: the records are back in the original topic and stay in this one. */
    method Replay(oks: seq<bool>, batchSize: nat, commitUp: bool) returns (replayed: nat, raised: bool)
      requires Valid() && |oks| <= batchSize && dlqCommitted + |oks| <= |dlqTopic|
      modifies this`dlqCommitted, this`originalTopic
      ensures Valid() && dlqCommitted == if commitUp then old(dlqCommitted) + |oks| else old(dlqCommitted)
      ensures originalTopic == old(originalTopic) + Republished(dlqTopic, old(dlqCommitted), oks)
      ensures replayed == Count(oks, true) == |originalTopic| - |old(originalTopic)|
      ensures |oks| == replayed + Count(oks, false)
      ensures raised <==> !commitUp
    {
      replayed := 0;
      for i := 0 to |oks|
        invariant originalTopic == old(originalTopic) + Republished(dlqTopic, old(dlqCommitted), oks[..i])
        invariant replayed == Count(oks[..i], true) && dlqCommitted == old(dlqCommitted)
      {
        assert oks[..i + 1][..i] == oks[..i];
        if oks[i] {
          originalTopic := originalTopic + [Good(dlqTopic[dlqCommitted + i].id)];
          replayed := replayed + 1;
        }
      }
      assert oks[..|oks|] == oks;
      ReplayedPlusFailed(dlqTopic, dlqCommitted, oks);
      if !commitUp { return replayed, true; }
      dlqCommitted := dlqCommitted + |oks|;
      raised := false;
    }
  }

  // --- Replay as a run of the delivery protocol ---------------------------------

  function Publishes(oks: seq<bool>): seq<Action> {
    if oks == [] then [] else Publishes(oks[..|oks| - 1]) + [ReplayPublish(oks[|oks| - 1])]
  }

  function RoundRun(oks: seq<bool>): seq<Action> {
    [ReplayFetch(|oks|)] + Publishes(oks) + [ReplayCommit]
  }

  /** A round whose commit fails. */
  function UncommittedRun(oks: seq<bool>): seq<Action> {
    [ReplayFetch(|oks|)] + Publishes(oks) + [ReplayCrash]
  }

  function DrainRun(rounds: seq<seq<bool>>): seq<Action> {
    if rounds == [] then [] else DrainRun(rounds[..|rounds| - 1]) + RoundRun(rounds[|rounds| - 1])
  }

  function Flatten(rounds: seq<seq<bool>>): seq<bool> {
    if rounds == [] then [] else Flatten(rounds[..|rounds| - 1]) + rounds[|rounds| - 1]
  }

  lemma {:induction false} RepublishedConcat(dlq: seq<DlqEntry>, start: nat, o1: seq<bool>, o2: seq<bool>)
    requires start + |o1| + |o2| <= |dlq|
    ensures Republished(dlq, start, o1 + o2) == Republished(dlq, start, o1) + Republished(dlq, start + |o1|, o2)
  {
    if o2 == [] {
      assert o1 + o2 == o1;
    } else {
      RepublishedConcat(dlq, start, o1, o2[..|o2| - 1]);
      assert (o1 + o2)[..|o1 + o2| - 1] == o1 + o2[..|o2| - 1];
    }
  }

  /** `s` with `|oks|` more dead-letter records consumed. */
  function Advanced(s: State, oks: seq<bool>): State
    requires s.dlqCommitted + |oks| <= |s.dlq|
  {
    s.(dlqCommitted := s.dlqCommitted + |oks|, log := s.log + Republished(s.dlq, s.dlqCommitted, oks))
  }

  lemma AdvancedTwice(s: State, o1: seq<bool>, o2: seq<bool>)
    requires s.dlqCommitted + |o1| + |o2| <= |s.dlq|
    ensures Advanced(Advanced(s, o1), o2) == Advanced(s, o1 + o2)
  {
    RepublishedConcat(s.dlq, s.dlqCommitted, o1, o2);
  }

  lemma PublishStep(c: Config, s: State, next: nat, end: nat, ok: bool)
    requires s.replayer == Replaying(next, end) && next < end <= |s.dlq|
    ensures Step(c, s, ReplayPublish(ok))
         == s.(replayer := Replaying(next + 1, end), log := if ok then s.log + [Good(s.dlq[next].id)] else s.log)
  {
  }

  lemma {:induction false} PublishesRun(c: Config, s: State, start: nat, end: nat, oks: seq<bool>)
    requires s.replayer == Replaying(start, end) && start + |oks| <= end <= |s.dlq|
    ensures Exec(c, s, Publishes(oks))
         == s.(replayer := Replaying(start + |oks|, end), log := s.log + Republished(s.dlq, start, oks))
  {
    if oks == [] {
      assert s.log + [] == s.log;
    } else {
      var n := |oks| - 1;
      var before := s.(replayer := Replaying(start + n, end), log := s.log + Republished(s.dlq, start, oks[..n]));
      assert Exec(c, s, Publishes(oks[..n])) == before by { PublishesRun(c, s, start, end, oks[..n]); }
      ExecSnoc(c, s, Publishes(oks[..n]), ReplayPublish(oks[n]));
      PublishStep(c, before, start + n, end, oks[n]);
    }
  }

  lemma RoundStates(c: Config, s: State, oks: seq<bool>) returns (t: State)
    requires s.replayer == Resting && s.dlqCommitted + |oks| <= |s.dlq|
    ensures t == s.(replayer := Replaying(s.dlqCommitted + |oks|, s.dlqCommitted + |oks|), log := Advanced(s, oks).log)
    ensures Exec(c, s, [ReplayFetch(|oks|)] + Publishes(oks)) == t
  {
    var next := s.dlqCommitted + |oks|;
    var s1 := s.(replayer := Replaying(s.dlqCommitted, next));
    t := s1.(replayer := Replaying(next, next), log := Advanced(s, oks).log);
    assert Exec(c, s, [ReplayFetch(|oks|)]) == s1 by { ExecOne(c, s, ReplayFetch(|oks|)); }
    ExecConcat(c, s, [ReplayFetch(|oks|)], Publishes(oks));
    PublishesRun(c, s1, s.dlqCommitted, next, oks);
  }

  lemma RoundEffect(c: Config, s: State, oks: seq<bool>)
    requires s.replayer == Resting && s.dlqCommitted + |oks| <= |s.dlq|
    ensures Exec(c, s, RoundRun(oks)) == Advanced(s, oks)
    ensures Exec(c, s, UncommittedRun(oks)) == Advanced(s, oks).(dlqCommitted := s.dlqCommitted)
  {
    var t := RoundStates(c, s, oks);
    ExecSnoc(c, s, [ReplayFetch(|oks|)] + Publishes(oks), ReplayCommit);
    ExecSnoc(c, s, [ReplayFetch(|oks|)] + Publishes(oks), ReplayCrash);
  }

  /** After a round whose commit failed the next round puts the same records back again. */
  lemma FailedCommitRepublishes(c: Config, s: State, oks: seq<bool>, again: seq<bool>)
    requires s.replayer == Resting && s.dlqCommitted + |oks| <= |s.dlq| && |again| == |oks|
    ensures Exec(c, s, UncommittedRun(oks) + RoundRun(again)).log
         == s.log + Republished(s.dlq, s.dlqCommitted, oks) + Republished(s.dlq, s.dlqCommitted, again)
  {
    var t := Advanced(s, oks).(dlqCommitted := s.dlqCommitted);
    ExecConcat(c, s, UncommittedRun(oks), RoundRun(again));
    RoundEffect(c, s, oks);
    RoundEffect(c, t, again);
  }

  /** Repeated rounds move through the dead-letter topic in order and put back exactly the
      successful records. */
  lemma {:induction false} RoundsAdvance(c: Config, s: State, rounds: seq<seq<bool>>)
    requires s.replayer == Resting && s.dlqCommitted + |Flatten(rounds)| <= |s.dlq|
    ensures Exec(c, s, DrainRun(rounds)) == Advanced(s, Flatten(rounds))
  {
    if rounds == [] {
      assert s.log + [] == s.log;
    } else {
      var init, last := rounds[..|rounds| - 1], rounds[|rounds| - 1];
      calc {
        Exec(c, s, DrainRun(rounds));
        { ExecConcat(c, s, DrainRun(init), RoundRun(last)); }
        Exec(c, Exec(c, s, DrainRun(init)), RoundRun(last));
        { RoundsAdvance(c, s, init); }
        Exec(c, Advanced(s, Flatten(init)), RoundRun(last));
        { RoundEffect(c, Advanced(s, Flatten(init)), last); }
        Advanced(Advanced(s, Flatten(init)), last);
        { AdvancedTwice(s, Flatten(init), last); }
        Advanced(s, Flatten(rounds));
      }
    }
  }

  /** Once the rounds have fetched as many records as were left, the topic is drained: each
      record is back in the original topic or counted as failed, and none is left to retry. */
  lemma RoundsDrain(c: Config, s: State, rounds: seq<seq<bool>>)
    requires s.replayer == Resting && s.dlqCommitted + |Flatten(rounds)| == |s.dlq|
    ensures var t, oks := Exec(c, s, DrainRun(rounds)), Flatten(rounds);
            && t.dlqCommitted == |t.dlq| == |s.dlq|
            && |t.log| - |s.log| + Count(oks, false) == |s.dlq| - s.dlqCommitted
            && s.log <= t.log
  {
    RoundsAdvance(c, s, rounds);
    ReplayedPlusFailed(s.dlq, s.dlqCommitted, Flatten(rounds));
  }
}

/** A handler-exhausted event on its way through the dead-letter topic and back. */
module ReplayedEvent {
  import opened Prelude
  import opened Backoff
  import opened ConsumerProtocol
  import opened ConsumerSpec
  import opened DlqReplay

  /** The event gets past the duplicate check, every attempt fails, and the dead-letter publish
      and the mark work; the check may fail, and the commit may. */
  predicate Exhausts(c: Config, s: State, id: EventId, a: Answers) {
    && c.retries <= |a.handler| && (forall i | 0 <= i < c.retries :: a.handler[i].Fails?)
    && Begins(c, s, id, a) && a.dlq.Works? && a.mark.Works?
  }

  lemma ExhaustedEventIsMarked(c: Config, s: State, id: EventId, a: Answers)
    requires c.dedup && Exhausts(c, s, id, a)
    requires s.pc.Idle? && s.position < |s.log| && s.log[s.position] == Good(id)
    ensures var t := Processed(c, Fetched(s), a);
            && t.position == s.position + 1 && t.log == s.log
            && (t.pc.Idle? <==> c.autoCommit || a.commit.Works?)
            && t.dlq == s.dlq + [DlqEntry(id, c.retries)]
            && t.dlqCommitted == s.dlqCommitted && t.replayer == s.replayer
            && t.hist == FailedCalls(s.hist, id, c.retries) + [DlqSent(s.position, id, true)]
            && id in t.marks && t.marks[id] == t.now + c.ttl
  {
    var f := Fetched(s).(pc := Idle);
    RetryOutcome(c, f, s.position, id, a);
    TriedKeeps(c, f, s.position, id, 1, a);
  }

  /** Trying touches neither the partition nor the offsets nor the replayer. */
  lemma {:induction false} TriedKeeps(c: Config, s: State, off: nat, id: EventId, attempt: nat, a: Answers)
    requires 1 <= attempt <= c.retries + 1 && c.retries <= |a.handler|
    ensures var t := Tried(c, s, off, id, attempt, a);
            && t.log == s.log && t.position == s.position && t.committed == s.committed
            && t.dlqCommitted == s.dlqCommitted && t.replayer == s.replayer
    decreases c.retries + 1 - attempt
  {
    if attempt <= c.retries && a.handler[attempt - 1].Fails? {
      TriedKeeps(c, Failed(c, s, id, attempt, a), off, id, attempt + 1, a);
    }
  }

  /** The mark of `id` is written anew by this step. */
  predicate Marks(s: State, a: Action, id: EventId) {
    (a == Mark(true) && s.pc.Finished? && s.pc.id == id) || a == ForeignMark(id)
  }

  predicate NeverMarked(c: Config, s: State, run: seq<Action>, id: EventId) {
    run == [] ||
    (NeverMarked(c, s, run[..|run| - 1], id) && !Marks(Exec(c, s, run[..|run| - 1]), run[|run| - 1], id))
  }

  /** The mark of `id` is there exactly until `until`. */
  predicate MarkedUntil(s: State, id: EventId, until: Time) {
    && (id in s.marks <==> s.now < until)
    && (id in s.marks ==> s.marks[id] == until)
  }

  lemma MarkedUntilStep(c: Config, s: State, a: Action, id: EventId, until: Time)
    requires MarkedUntil(s, id, until) && !Marks(s, a, id)
    ensures MarkedUntil(Step(c, s, a), id, until)
  {
  }

  lemma {:induction false} MarkedUntilRun(c: Config, s: State, run: seq<Action>, id: EventId, until: Time)
    requires MarkedUntil(s, id, until) && NeverMarked(c, s, run, id)
    ensures MarkedUntil(Exec(c, s, run), id, until)
  {
    if run != [] {
      MarkedUntilRun(c, s, run[..|run| - 1], id, until);
      MarkedUntilStep(c, Exec(c, s, run[..|run| - 1]), run[|run| - 1], id, until);
    }
  }

  /** The event is exhausted; then anything happens, its replay included, that does not mark it
      anew; then the consumer meets it again.  Its handling begins exactly when the time to
      live has passed since the mark or the duplicate check fails; otherwise the replay is
      swallowed without a trace. */
  lemma ReplayIsSwallowedWithinTtl(c: Config, s: State, id: EventId, a: Answers, meanwhile: seq<Action>, b: Answers)
    requires c.dedup && c.ttl > 0.0 && Exhausts(c, s, id, a) && c.retries <= |b.handler| && !b.check.Escapes?
    requires s.pc.Idle? && s.position < |s.log| && s.log[s.position] == Good(id)
    requires var exhausted := Processed(c, Fetched(s), a);
             var again := Exec(c, exhausted, meanwhile);
             && NeverMarked(c, exhausted, meanwhile, id)
             && again.pc.Idle? && again.position < |again.log| && again.log[again.position] == Good(id)
    ensures var exhausted := Processed(c, Fetched(s), a);
            var again := Exec(c, exhausted, meanwhile);
            var t, k := Processed(c, Fetched(again), b), Failures(b.handler, c.retries);
            if b.check.Works? && again.now < exhausted.now + c.ttl then t.hist == again.hist && t.marks == again.marks
            else t.hist == FailedCalls(again.hist, id, k) + Ending(c, again.position, id, k, b).1
  {
    var exhausted := Processed(c, Fetched(s), a);
    var again := Exec(c, exhausted, meanwhile);
    ExhaustedEventIsMarked(c, s, id, a);
    MarkedUntilRun(c, exhausted, meanwhile, id, exhausted.now + c.ttl);
    DeliveryOutcome(c, Fetched(again), again.position, id, b);
  }

  /** One way for it to come back: the records before its dead letter are replayed or fail,
      its own republish works, and the event is the last record of the original topic. */
  lemma ReplayBringsItBack(c: Config, s: State, id: EventId, a: Answers, oks: seq<bool>)
    requires c.dedup && Exhausts(c, s, id, a) && s.replayer.Resting?
    requires s.pc.Idle? && s.position < |s.log| && s.log[s.position] == Good(id)
    requires |oks| > 0 && s.dlqCommitted + |oks| == |s.dlq| + 1
    ensures var exhausted := Processed(c, Fetched(s), a);
            var t := Exec(c, exhausted, RoundRun(oks));
            && t.dlqCommitted == |t.dlq| && NeverMarked(c, exhausted, RoundRun(oks), id)
            && (oks[|oks| - 1] ==> |t.log| > 0 && t.log[|t.log| - 1] == Good(id))
  {
    var exhausted := Processed(c, Fetched(s), a);
    ExhaustedEventIsMarked(c, s, id, a);
    RoundEffect(c, exhausted, oks);
    assert forall x | x in Publishes(oks) :: x.ReplayPublish? by { PublishesOnlyPublish(oks); }
    ReplayNeverMarks(c, exhausted, RoundRun(oks), id);
  }

  lemma {:induction false} PublishesOnlyPublish(oks: seq<bool>)
    ensures forall x | x in Publishes(oks) :: x.ReplayPublish?
  {
    if oks != [] { PublishesOnlyPublish(oks[..|oks| - 1]); }
  }

  lemma {:induction false} ReplayNeverMarks(c: Config, s: State, run: seq<Action>, id: EventId)
    requires forall x | x in run :: !x.Mark? && !x.ForeignMark?
    ensures NeverMarked(c, s, run, id)
  {
    if run != [] { ReplayNeverMarks(c, s, run[..|run| - 1], id); }
  }
}
