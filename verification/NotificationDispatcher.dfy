/** Notification dispatch: a duplicate check that reads and then writes, and the loop over
    the channels. */
module NotificationDispatch {
  import opened Prelude

  const DEDUP_SECONDS: Time := 86400.0

  // --- One alert among several workers --------------------------------------------------

  /** Where a worker stands with the alert: before the check, between reading and writing the
      key, or past the write with the channels from `next` on still to serve. */
  datatype Pc = Idle | Checked | At(next: nat)

  /** What a channel, known by its place in the list, was handed and answered. */
  datatype Handed = Handed(channel: nat, accepted: bool)

  /** One (recipient, alert) pair, which every redelivery sends to the same list of channels.
      `passes` counts the writes since the key was last absent, `handed` what the channels
      were given.  A crash is the death of a worker or an exception that ends its dispatch. */
  datatype State = State(channels: nat, now: Time, key: Option<Time>, workers: seq<Pc>, passes: nat, handed: seq<Handed>)

  datatype Action =
    | Tick(dt: Time)
    | Read(worker: nat)
    | Write(worker: nat)
    | Hand(worker: nat, accepted: bool)
    | Crash(worker: nat)

  function Initial(m: nat, channels: nat): State { State(channels, 0.0, None, seq(m, _ => Idle), 0, []) }

  function Step(s: State, a: Action): State {
    match a
    case Tick(dt) =>
      if dt < 0.0 then s
      else if s.key.Some? && s.key.value <= s.now + dt then s.(now := s.now + dt, key := None, passes := 0)
      else s.(now := s.now + dt)
    case Read(w) =>
      if w < |s.workers| && s.workers[w].Idle? && s.key.None? then s.(workers := s.workers[w := Checked]) else s
    case Write(w) =>
      if w < |s.workers| && s.workers[w].Checked? then
        s.(workers := s.workers[w := At(0)], key := Some(s.now + DEDUP_SECONDS), passes := s.passes + 1)
      else s
    case Hand(w, accepted) =>
      if w < |s.workers| && s.workers[w].At? && s.workers[w].next < s.channels then
        var next := s.workers[w].next;
        s.(workers := s.workers[w := if next + 1 == s.channels then Idle else At(next + 1)],
           handed := s.handed + [Handed(next, accepted)])
      else s
    case Crash(w) =>
      if w < |s.workers| then s.(workers := s.workers[w := Idle]) else s
  }

  function Exec(s: State, run: seq<Action>): State {
    if run == [] then s else Step(Exec(s, run[..|run| - 1]), run[|run| - 1])
  }

  lemma {:induction false} ExecConcat(s: State, a: seq<Action>, b: seq<Action>)
    ensures Exec(s, a + b) == Exec(Exec(s, a), b)
  {
    if b == [] {
      assert a + b == a;
    } else {
      ExecConcat(s, a, b[..|b| - 1]);
      assert (a + b)[..|a + b| - 1] == a + b[..|b| - 1];
    }
  }

  lemma ExecOne(s: State, a: Action)
    ensures Exec(s, [a]) == Step(s, a)
  {
    assert [a][..0] == [];
  }

  lemma ExecTwo(s: State, a1: Action, a2: Action)
    ensures Exec(s, [a1, a2]) == Step(Step(s, a1), a2)
  {
    ExecOne(s, a1);
    assert [a1, a2][..1] == [a1];
  }

  lemma ExecFour(s: State, a1: Action, a2: Action, a3: Action, a4: Action)
    ensures Exec(s, [a1, a2, a3, a4]) == Step(Step(Step(Step(s, a1), a2), a3), a4)
  {
    ExecTwo(s, a1, a2);
    ExecTwo(Exec(s, [a1, a2]), a3, a4);
    ExecConcat(s, [a1, a2], [a3, a4]);
    assert [a1, a2] + [a3, a4] == [a1, a2, a3, a4];
  }

  /** Worker positions to be counted: between read and write, or past the write with channel
      `ch` still to serve. */
  datatype Place = Checking | Owing(ch: nat)

  predicate Stands(pc: Pc, place: Place) {
    match place
    case Checking => pc.Checked?
    case Owing(ch) => pc.At? && pc.next <= ch
  }

  function Standing(ws: seq<Pc>, place: Place): nat {
    if ws == [] then 0 else Standing(ws[..|ws| - 1], place) + if Stands(ws[|ws| - 1], place) then 1 else 0
  }

  lemma {:induction false} StandingUpdate(ws: seq<Pc>, w: nat, to: Pc, place: Place)
    requires w < |ws|
    ensures Standing(ws[w := to], place)
         == Standing(ws, place) - (if Stands(ws[w], place) then 1 else 0) + if Stands(to, place) then 1 else 0
  {
    var init := ws[..|ws| - 1];
    if w == |ws| - 1 {
      assert ws[w := to][..w] == init;
    } else {
      StandingUpdate(init, w, to, place);
      assert ws[w := to][..|ws| - 1] == init[w := to];
    }
  }

  lemma {:induction false} StandingAtMostAll(ws: seq<Pc>, place: Place)
    ensures Standing(ws, place) <= |ws|
  {
    if ws != [] { StandingAtMostAll(ws[..|ws| - 1], place); }
  }

  lemma {:induction false} NobodyStands(ws: seq<Pc>, place: Place)
    ensures Standing(ws, place) == 0 <==> forall w | 0 <= w < |ws| :: !Stands(ws[w], place)
  {
    if ws != [] {
      var init := ws[..|ws| - 1];
      NobodyStands(init, place);
      assert forall w | 0 <= w < |init| :: init[w] == ws[w];
    }
  }

  predicate Inv(m: nat, s: State) {
    && |s.workers| == m
    && (s.key.None? ==> s.passes == 0)
    && (s.key.Some? ==> s.passes + Standing(s.workers, Checking) <= m)
  }

  lemma StepKeepsInv(m: nat, s: State, a: Action)
    requires Inv(m, s)
    ensures Inv(m, Step(s, a))
  {
    StandingAtMostAll(s.workers, Checking);
    if !a.Tick? && a.worker < |s.workers| {
      var to := Step(s, a).workers[a.worker];
      assert Step(s, a).workers == s.workers[a.worker := to];
      StandingUpdate(s.workers, a.worker, to, Checking);
      StandingAtMostAll(Step(s, a).workers, Checking);
    }
  }

  lemma {:induction false} RunKeepsInv(m: nat, channels: nat, run: seq<Action>)
    ensures Inv(m, Exec(Initial(m, channels), run))
  {
    if run != [] {
      RunKeepsInv(m, channels, run[..|run| - 1]);
      StepKeepsInv(m, Exec(Initial(m, channels), run[..|run| - 1]), run[|run| - 1]);
    }
  }

  /** During one lifetime of the key at most as many dispatches pass as there are workers,
      crashes and redeliveries included. */
  lemma AtMostOnePassPerWorker(m: nat, channels: nat, run: seq<Action>)
    ensures Exec(Initial(m, channels), run).passes <= m
  {
    RunKeepsInv(m, channels, run);
  }

  /** So the pass is exclusive exactly when a single worker serves the queue. */
  lemma ExclusiveExactlyForOneWorker(m: nat, channels: nat)
    ensures (forall run: seq<Action> :: Exec(Initial(m, channels), run).passes <= 1) <==> m <= 1
  {
    if m <= 1 {
      forall run: seq<Action> ensures Exec(Initial(m, channels), run).passes <= 1 {
        AtMostOnePassPerWorker(m, channels, run);
      }
    } else {
      var race := [Read(0), Read(1), Write(0), Write(1)];
      ExecFour(Initial(m, channels), Read(0), Read(1), Write(0), Write(1));
      assert Exec(Initial(m, channels), race).passes == 2;
    }
  }

  // --- What becomes of a pass -----------------------------------------------------------

  /** The worker writes the key in this step. */
  predicate Passes(s: State, a: Action) { a.Write? && a.worker < |s.workers| && s.workers[a.worker].Checked? }

  /** The worker crashes past the write and before channel `ch` was handed anything. */
  predicate Loses(s: State, a: Action, ch: nat) {
    a.Crash? && a.worker < |s.workers| && Stands(s.workers[a.worker], Owing(ch))
  }

  function PassesIn(s: State, run: seq<Action>): nat {
    if run == [] then 0
    else PassesIn(s, run[..|run| - 1]) + if Passes(Exec(s, run[..|run| - 1]), run[|run| - 1]) then 1 else 0
  }

  function LossesIn(s: State, run: seq<Action>, ch: nat): nat {
    if run == [] then 0
    else LossesIn(s, run[..|run| - 1], ch) + if Loses(Exec(s, run[..|run| - 1]), run[|run| - 1], ch) then 1 else 0
  }

  /** How often channel `ch` accepted, or refused, what it was handed. */
  function Times(handed: seq<Handed>, ch: nat, accepted: bool): nat {
    if handed == [] then 0
    else Times(handed[..|handed| - 1], ch, accepted) + if handed[|handed| - 1] == Handed(ch, accepted) then 1 else 0
  }

  lemma TimesSnoc(handed: seq<Handed>, h: Handed, ch: nat, accepted: bool)
    ensures Times(handed + [h], ch, accepted) == Times(handed, ch, accepted) + if h == Handed(ch, accepted) then 1 else 0
  {
    assert (handed + [h])[..|handed|] == handed;
  }

  function Answered(s: State, ch: nat): nat { Times(s.handed, ch, true) + Times(s.handed, ch, false) }

  lemma AccountOfStep(s: State, a: Action, ch: nat)
    requires ch < s.channels
    ensures Answered(Step(s, a), ch) + Standing(Step(s, a).workers, Owing(ch)) + (if Loses(s, a, ch) then 1 else 0)
         == Answered(s, ch) + Standing(s.workers, Owing(ch)) + if Passes(s, a) then 1 else 0
  {
    if !a.Tick? && a.worker < |s.workers| {
      var to := Step(s, a).workers[a.worker];
      assert Step(s, a).workers == s.workers[a.worker := to];
      StandingUpdate(s.workers, a.worker, to, Owing(ch));
      if Step(s, a).handed != s.handed {
        TimesSnoc(s.handed, Handed(s.workers[a.worker].next, a.accepted), ch, true);
        TimesSnoc(s.handed, Handed(s.workers[a.worker].next, a.accepted), ch, false);
      }
    }
  }

  lemma {:induction false} ChannelsStay(s: State, run: seq<Action>)
    ensures Exec(s, run).channels == s.channels
  {
    if run != [] { ChannelsStay(s, run[..|run| - 1]); }
  }

  lemma InitialOwesNothing(m: nat, channels: nat, ch: nat)
    ensures Standing(Initial(m, channels).workers, Owing(ch)) == 0
  {
    NobodyStands(Initial(m, channels).workers, Owing(ch));
  }

  /** In every run of any number of workers, for each channel: every pass was accepted, was
      refused, is still on its way to the channel, or was lost to a crash before it. */
  lemma {:induction false} EveryPassIsAccountedFor(m: nat, channels: nat, run: seq<Action>, ch: nat)
    requires ch < channels
    ensures var s, start := Exec(Initial(m, channels), run), Initial(m, channels);
            PassesIn(start, run) == Answered(s, ch) + Standing(s.workers, Owing(ch)) + LossesIn(start, run, ch)
  {
    if run == [] {
      InitialOwesNothing(m, channels, ch);
    } else {
      EveryPassIsAccountedFor(m, channels, run[..|run| - 1], ch);
      ChannelsStay(Initial(m, channels), run[..|run| - 1]);
      AccountOfStep(Exec(Initial(m, channels), run[..|run| - 1]), run[|run| - 1], ch);
    }
  }

  predicate NobodyOwes(s: State, ch: nat) { forall w | 0 <= w < |s.workers| :: !Stands(s.workers[w], Owing(ch)) }

  /** So once no dispatch is on its way to a channel, the channel accepted every pass exactly
      when it refused none and no worker crashed before it, and it accepted nothing exactly
      when each pass was refused by it or lost before it. */
  lemma AlertIsLostExactly(m: nat, channels: nat, run: seq<Action>, ch: nat)
    requires ch < channels && NobodyOwes(Exec(Initial(m, channels), run), ch)
    ensures var s, start := Exec(Initial(m, channels), run), Initial(m, channels);
            var accepted, refused, lost := Times(s.handed, ch, true), Times(s.handed, ch, false), LossesIn(start, run, ch);
            && (accepted == PassesIn(start, run) <==> refused == 0 && lost == 0)
            && (accepted == 0 <==> refused + lost == PassesIn(start, run))
  {
    EveryPassIsAccountedFor(m, channels, run, ch);
    NobodyStands(Exec(Initial(m, channels), run).workers, Owing(ch));
  }

  predicate NobodyInside(s: State) { forall w | 0 <= w < |s.workers| :: s.workers[w].Idle? }

  /** While the key lives and nobody is inside, no redelivery hands a channel anything. */
  lemma {:induction false} LiveKeySendsNothing(s: State, run: seq<Action>)
    requires s.key.Some? && NobodyInside(s) && Exec(s, run).now < s.key.value
    ensures var t := Exec(s, run); t.handed == s.handed && t.key == s.key && NobodyInside(t) && s.now <= t.now
  {
    if run != [] {
      var before := run[..|run| - 1];
      assert Exec(s, before).now <= Exec(s, run).now;
      LiveKeySendsNothing(s, before);
    }
  }

  /** After any run that leaves nobody inside, what was refused or lost stays so for as long as
      the key lives, whatever comes. */
  lemma CrashAfterWriteLosesTheAlert(m: nat, channels: nat, run: seq<Action>, later: seq<Action>, ch: nat)
    requires ch < channels
    requires var s := Exec(Initial(m, channels), run);
             s.key.Some? && NobodyInside(s) && Exec(s, later).now < s.key.value
    ensures var start, t := Initial(m, channels), Exec(Initial(m, channels), run + later);
            Times(t.handed, ch, true) == PassesIn(start, run) - Times(t.handed, ch, false) - LossesIn(start, run, ch)
  {
    var s := Exec(Initial(m, channels), run);
    ExecConcat(Initial(m, channels), run, later);
    LiveKeySendsNothing(s, later);
    EveryPassIsAccountedFor(m, channels, run, ch);
    NobodyStands(s.workers, Owing(ch));
  }

  // --- What one dispatch settles for the life of the key --------------------------------

  function Hands(w: nat, oks: seq<bool>): seq<Action> {
    if oks == [] then [] else Hands(w, oks[..|oks| - 1]) + [Hand(w, oks[|oks| - 1])]
  }

  /** The first |oks| channels with their answers. */
  function HandedTo(oks: seq<bool>): seq<Handed> {
    if oks == [] then [] else HandedTo(oks[..|oks| - 1]) + [Handed(|oks| - 1, oks[|oks| - 1])]
  }

  lemma Overwrite(ws: seq<Pc>, w: nat, x: Pc, y: Pc)
    requires w < |ws|
    ensures ws[w := x][w := y] == ws[w := y]
    ensures ws[w] == y ==> ws[w := y] == ws
  {
  }

  lemma HandStep(s: State, w: nat, i: nat, ok: bool)
    requires w < |s.workers| && s.workers[w] == At(i) && i < s.channels
    ensures Step(s, Hand(w, ok))
         == s.(workers := s.workers[w := Reached(i + 1, s.channels)], handed := s.handed + [Handed(i, ok)])
  {
  }

  /** Where a worker stands that has served the channels below `next`. */
  function Reached(next: nat, channels: nat): Pc { if next == channels then Idle else At(next) }

  lemma {:induction false} HandsRun(s: State, w: nat, oks: seq<bool>)
    requires w < |s.workers| && s.workers[w] == At(0) && |oks| <= s.channels && s.channels >= 1
    ensures Exec(s, Hands(w, oks))
         == s.(workers := s.workers[w := Reached(|oks|, s.channels)], handed := s.handed + HandedTo(oks))
  {
    if oks == [] {
      Overwrite(s.workers, w, At(0), At(0));
      assert s.handed + [] == s.handed;
    } else {
      var init, ok := oks[..|oks| - 1], oks[|oks| - 1];
      var before := s.(workers := s.workers[w := At(|init|)], handed := s.handed + HandedTo(init));
      assert Exec(s, Hands(w, init)) == before by { HandsRun(s, w, init); }
      ExecConcat(s, Hands(w, init), [Hand(w, ok)]);
      ExecOne(before, Hand(w, ok));
      HandStep(before, w, |init|, ok);
      Overwrite(s.workers, w, At(|init|), Reached(|oks|, s.channels));
      assert (s.handed + HandedTo(init)) + [Handed(|init|, ok)] == s.handed + HandedTo(oks);
    }
  }

  /** An idle worker that finds no key passes. */
  lemma PassState(s: State, w: nat)
    requires w < |s.workers| && s.workers[w].Idle? && s.key.None?
    ensures Exec(s, [Read(w), Write(w)])
         == s.(workers := s.workers[w := At(0)], key := Some(s.now + DEDUP_SECONDS), passes := s.passes + 1)
  {
    ExecTwo(s, Read(w), Write(w));
    Overwrite(s.workers, w, Checked, At(0));
  }

  /** A dispatch that serves the first |oks| channels and then crashes; one that serves them
      all has nothing left to crash. */
  function FirstDispatch(w: nat, oks: seq<bool>): seq<Action> {
    [Read(w), Write(w)] + Hands(w, oks) + [Crash(w)]
  }

  /** Whatever the channels answered the first worker that passed, and wherever it crashed,
      decides what the recipient gets for 24 hours: no run of any workers hands the channels
      anything more. */
  lemma FirstDispatchDecides(m: nat, channels: nat, w: nat, oks: seq<bool>, later: seq<Action>)
    requires w < m && |oks| <= channels && channels >= 1
    requires Exec(Initial(m, channels), FirstDispatch(w, oks) + later).now < 86400.0
    ensures Exec(Initial(m, channels), FirstDispatch(w, oks) + later).handed == HandedTo(oks)
  {
    var s0 := Initial(m, channels);
    InitialIsIdle(m, channels);
    FirstDispatchState(s0, w, oks);
    assert [] + HandedTo(oks) == HandedTo(oks);
    ExecConcat(s0, FirstDispatch(w, oks), later);
    LiveKeySendsNothing(Exec(s0, FirstDispatch(w, oks)), later);
  }

  lemma {:induction false} InitialIsIdle(m: nat, channels: nat)
    ensures NobodyInside(Initial(m, channels)) && Initial(m, channels).key == None
  {
  }

  /** A dispatch by an idle worker that finds no key, among workers that are all idle. */
  lemma FirstDispatchState(s: State, w: nat, oks: seq<bool>)
    requires NobodyInside(s) && s.key.None? && w < |s.workers| && |oks| <= s.channels && s.channels >= 1
    ensures var t := Exec(s, FirstDispatch(w, oks));
            && NobodyInside(t) && t.key == Some(s.now + DEDUP_SECONDS) && t.now == s.now
            && t.handed == s.handed + HandedTo(oks) && t.channels == s.channels && |t.workers| == |s.workers|
  {
    var s1 := s.(workers := s.workers[w := At(0)], key := Some(s.now + DEDUP_SECONDS), passes := s.passes + 1);
    var s2 := s1.(workers := s1.workers[w := Reached(|oks|, s.channels)], handed := s1.handed + HandedTo(oks));
    assert Exec(s, [Read(w), Write(w)]) == s1 by { PassState(s, w); }
    assert Exec(s, [Read(w), Write(w)] + Hands(w, oks)) == s2 by {
      HandsRun(s1, w, oks);
      ExecConcat(s, [Read(w), Write(w)], Hands(w, oks));
    }
    ExecConcat(s, [Read(w), Write(w)] + Hands(w, oks), [Crash(w)]);
    ExecOne(s2, Crash(w));
  }

  /** When the 24 hours are over, and not before, the alert can be dispatched again. */
  lemma AfterTheDayItIsSentAgain(m: nat, channels: nat, w: nat, oks: seq<bool>, wait: Time, v: nat, again: seq<bool>)
    requires w < m && v < m && |oks| <= channels && |again| <= channels && channels >= 1 && wait >= 0.0
    ensures Exec(Initial(m, channels), FirstDispatch(w, oks) + [Tick(wait)] + FirstDispatch(v, again)).handed
         == if wait < 86400.0 then HandedTo(oks) else HandedTo(oks) + HandedTo(again)
  {
    var s0 := Initial(m, channels);
    InitialIsIdle(m, channels);
    FirstDispatchState(s0, w, oks);
    assert [] + HandedTo(oks) == HandedTo(oks);
    var s1 := Exec(s0, FirstDispatch(w, oks));
    var s2 := Step(s1, Tick(wait));
    ExecOne(s1, Tick(wait));
    ExecConcat(s0, FirstDispatch(w, oks), [Tick(wait)]);
    ExecConcat(s0, FirstDispatch(w, oks) + [Tick(wait)], FirstDispatch(v, again));
    if wait < 86400.0 {
      DispatchNeverTicks(s2, v, again);
      LiveKeySendsNothing(s2, FirstDispatch(v, again));
    } else {
      FirstDispatchState(s2, v, again);
    }
  }

  lemma {:induction false} NoTicksNoTime(s: State, run: seq<Action>)
    requires forall a | a in run :: !a.Tick?
    ensures Exec(s, run).now == s.now
  {
    if run != [] { NoTicksNoTime(s, run[..|run| - 1]); }
  }

  lemma {:induction false} HandsOnlyHands(w: nat, oks: seq<bool>)
    ensures forall a | a in Hands(w, oks) :: a.Hand?
  {
    if oks != [] { HandsOnlyHands(w, oks[..|oks| - 1]); }
  }

  lemma DispatchNeverTicks(s: State, w: nat, oks: seq<bool>)
    ensures Exec(s, FirstDispatch(w, oks)).now == s.now
  {
    HandsOnlyHands(w, oks);
    NoTicksNoTime(s, FirstDispatch(w, oks));
  }

  /** A crash right after the write: nobody is handed anything. */
  lemma TheLossIsReachable(m: nat, channels: nat, w: nat, later: seq<Action>)
    requires w < m && channels >= 1
    requires Exec(Initial(m, channels), FirstDispatch(w, []) + later).now < 86400.0
    ensures Exec(Initial(m, channels), FirstDispatch(w, []) + later).handed == []
  {
    FirstDispatchDecides(m, channels, w, [], later);
  }

  lemma {:induction false} RefusedByAll(oks: seq<bool>, ch: nat)
    requires forall i | 0 <= i < |oks| :: !oks[i]
    ensures Times(HandedTo(oks), ch, true) == 0
    ensures Times(HandedTo(oks), ch, false) == if ch < |oks| then 1 else 0
  {
    if oks != [] {
      RefusedByAll(oks[..|oks| - 1], ch);
      TimesSnoc(HandedTo(oks[..|oks| - 1]), Handed(|oks| - 1, false), ch, true);
      TimesSnoc(HandedTo(oks[..|oks| - 1]), Handed(|oks| - 1, false), ch, false);
    }
  }

  /** No crash is needed: channels that all refuse lose the alert as well. */
  lemma RefusalLosesTheAlert(m: nat, channels: nat, w: nat, oks: seq<bool>, later: seq<Action>, ch: nat)
    requires w < m && |oks| == channels >= 1 && (forall i | 0 <= i < |oks| :: !oks[i]) && ch < channels
    requires Exec(Initial(m, channels), FirstDispatch(w, oks) + later).now < 86400.0
    ensures var t := Exec(Initial(m, channels), FirstDispatch(w, oks) + later);
            Times(t.handed, ch, true) == 0 && Times(t.handed, ch, false) == 1
  {
    FirstDispatchDecides(m, channels, w, oks, later);
    RefusedByAll(oks, ch);
  }

  // --- One dispatch ------------------------------------------------------------------------

  datatype Status = PENDING | SENT | FAILED

  /** A delivery attempt says SUCCESS where its notification says SENT. */
  datatype Attempt = Attempt(status: AttemptStatus, error: Option<string>)

  datatype AttemptStatus = AttemptPending | SUCCESS | AttemptFailed

  /** A notification row with its delivery attempt, which is stored by the second commit. */
  datatype Notification = Notification(channel: string, status: Status, error: Option<string>, attempt: Option<Attempt>)

  datatype Delivery = Accepted | Refused | Raises(error: string)

  /** The outside world's answers for one channel: the two commits and the channel itself. */
  datatype Answer = Answer(firstCommit: bool, delivery: Delivery, secondCommit: bool)

  function Channels(severity: string): seq<string> {
    if severity == "CRITICAL" then ["email", "sms", "slack", "webhook"]
    else if severity == "HIGH" then ["email", "slack", "webhook"]
    else if severity == "MEDIUM" then ["email", "webhook"]
    else ["email"]
  }

  /** Which channels an alert goes to: e-mail first and always, SMS for critical ones only, Slack
      from HIGH and the webhook from MEDIUM on, each once. */
  lemma ChannelsExactly(severity: string)
    ensures var cs := Channels(severity);
            && |cs| >= 1 && cs[0] == "email"
            && (forall c | c in cs :: c in {"email", "sms", "slack", "webhook"})
            && ("sms" in cs <==> severity == "CRITICAL")
            && ("slack" in cs <==> severity in {"CRITICAL", "HIGH"})
            && ("webhook" in cs <==> severity in {"CRITICAL", "HIGH", "MEDIUM"})
            && (forall i, j | 0 <= i < j < |cs| :: cs[i] != cs[j])
  {
    var cs := Channels(severity);
    assert cs[0] == "email";
    if severity == "CRITICAL" { assert cs[1] == "sms" && cs[2] == "slack" && cs[3] == "webhook"; }
    if severity == "HIGH" { assert cs[1] == "slack" && cs[2] == "webhook"; }
    if severity == "MEDIUM" { assert cs[1] == "webhook"; }
  }

  predicate Commits(a: Answer) { a.firstCommit && a.secondCommit }

  /** A finished row: nothing is pending, row and attempt tell the same story, and an error is
      recorded exactly for a channel that raised. */
  predicate Tells(r: Notification, channel: string, d: Delivery) {
    && r.channel == channel && r.status != PENDING && r.attempt.Some? && r.attempt.value.status != AttemptPending
    && (r.status == SENT <==> d.Accepted?)
    && (r.status == SENT <==> r.attempt.value.status == SUCCESS)
    && r.error == r.attempt.value.error == if d.Raises? then Some(d.error) else None
  }

  /** The three branches of a delivery, as the row they leave. */
  function Final(channel: string, d: Delivery): Notification {
    match d
    case Accepted => Notification(channel, SENT, None, Some(Attempt(SUCCESS, None)))
    case Refused => Notification(channel, FAILED, None, Some(Attempt(AttemptFailed, None)))
    case Raises(error) => Notification(channel, FAILED, Some(error), Some(Attempt(AttemptFailed, Some(error))))
  }

  /** The rows stored for the first `n` channels when all their commits succeed. */
  function Rows(channels: seq<string>, answers: seq<Answer>, n: nat): seq<Notification>
    requires n <= |channels| <= |answers|
  {
    if n == 0 then [] else Rows(channels, answers, n - 1) + [Final(channels[n - 1], answers[n - 1].delivery)]
  }

  /** Rows of a completed dispatch are final, in the order of the channels, and each tells what
      happened on its channel. */
  lemma {:induction false} RowsAreFinal(channels: seq<string>, answers: seq<Answer>, n: nat)
    requires n <= |channels| <= |answers|
    ensures |Rows(channels, answers, n)| == n
    ensures forall i | 0 <= i < n :: Tells(Rows(channels, answers, n)[i], channels[i], answers[i].delivery)
  {
    if n > 0 { RowsAreFinal(channels, answers, n - 1); }
  }

  // --- One dispatch as a run of the protocol ----------------------------------------------

  /** What the channels from number `i` on are handed: up to a failing first commit, which comes
      before the channel, or a failing second one, which comes after it. */
  function Deliveries(answers: seq<Answer>, i: nat, n: nat): seq<Handed>
    requires i <= n <= |answers|
    decreases n - i
  {
    if i == n || !answers[i].firstCommit then []
    else if !answers[i].secondCommit then [Handed(i, answers[i].delivery.Accepted?)]
    else [Handed(i, answers[i].delivery.Accepted?)] + Deliveries(answers, i + 1, n)
  }

  /** Of the deliveries from channel `i` on: number `k` was handed the message, and this is what
      it answered. */
  predicate Told(d: seq<Handed>, answers: seq<Answer>, i: nat, k: nat)
    requires i <= k < i + |d| <= |answers|
  {
    d[k - i] == Handed(k, answers[k].delivery == Accepted) && answers[k].firstCommit
  }

  /** What a recipient gets from one dispatch: the channels in order, each with its own answer,
      up to the first commit that fails, where the channel still counts if it was its second. */
  lemma {:induction false} DeliveriesExactly(answers: seq<Answer>, i: nat, n: nat)
    requires i <= n <= |answers|
    ensures var d := Deliveries(answers, i, n);
            && i + |d| <= n
            && (forall k | i <= k < i + |d| :: Told(d, answers, i, k))
            && (forall k | i <= k < i + |d| - 1 :: answers[k].secondCommit)
            && (i + |d| < n ==>
                  (|d| > 0 && !answers[i + |d| - 1].secondCommit) || !answers[i + |d|].firstCommit)
    decreases n - i
  {
    if i < n && Commits(answers[i]) {
      DeliveriesExactly(answers, i + 1, n);
      var d, rest := Deliveries(answers, i, n), Deliveries(answers, i + 1, n);
      assert d == [Handed(i, answers[i].delivery.Accepted?)] + rest;
      forall k | i <= k < i + |d| ensures Told(d, answers, i, k) {
        if k > i { assert Told(rest, answers, i + 1, k); }
      }
    }
  }

  function ServeRun(w: nat, answers: seq<Answer>, i: nat, n: nat): seq<Action>
    requires i <= n <= |answers|
    decreases n - i
  {
    if i == n then []
    else if !answers[i].firstCommit then [Crash(w)]
    else if !answers[i].secondCommit then [Hand(w, answers[i].delivery.Accepted?), Crash(w)]
    else [Hand(w, answers[i].delivery.Accepted?)] + ServeRun(w, answers, i + 1, n)
  }

  function DispatchRun(s: State, w: nat, getUp: bool, setUp: bool, answers: seq<Answer>): seq<Action>
    requires s.channels <= |answers|
  {
    if !getUp then []
    else if s.key.Some? then [Read(w)]
    else if !setUp then [Read(w), Crash(w)]
    else [Read(w), Write(w)] + ServeRun(w, answers, 0, s.channels)
  }

  /** The state after channel `i` was handed the delivery. */
  function After(s: State, w: nat, answers: seq<Answer>, i: nat): State
    requires w < |s.workers| && i < s.channels <= |answers|
  {
    s.(workers := s.workers[w := Reached(i + 1, s.channels)], handed := s.handed + [Handed(i, answers[i].delivery.Accepted?)])
  }

  /** A channel at which a commit fails. */
  lemma StopIsRun(s: State, w: nat, answers: seq<Answer>, i: nat)
    requires w < |s.workers| && i < s.channels <= |answers| && s.workers[w] == At(i) && !Commits(answers[i])
    ensures Exec(s, ServeRun(w, answers, i, s.channels))
         == s.(workers := s.workers[w := Idle], handed := s.handed + Deliveries(answers, i, s.channels))
  {
    if answers[i].firstCommit {
      ExecTwo(s, Hand(w, answers[i].delivery.Accepted?), Crash(w));
      HandStep(s, w, i, answers[i].delivery.Accepted?);
      Overwrite(s.workers, w, Reached(i + 1, s.channels), Idle);
    } else {
      ExecOne(s, Crash(w));
      assert s.handed + [] == s.handed;
    }
  }

  lemma HandIsRun(s: State, w: nat, answers: seq<Answer>, i: nat)
    requires w < |s.workers| && i < s.channels <= |answers| && s.workers[w] == At(i) && Commits(answers[i])
    ensures Exec(s, ServeRun(w, answers, i, s.channels))
         == Exec(After(s, w, answers, i), ServeRun(w, answers, i + 1, s.channels))
  {
    var hand := Hand(w, answers[i].delivery.Accepted?);
    ExecOne(s, hand);
    HandStep(s, w, i, answers[i].delivery.Accepted?);
    ExecConcat(s, [hand], ServeRun(w, answers, i + 1, s.channels));
  }

  lemma DeliveriesFrom(answers: seq<Answer>, i: nat, n: nat, handed: seq<Handed>)
    requires i < n <= |answers| && Commits(answers[i])
    ensures handed + Deliveries(answers, i, n)
         == handed + [Handed(i, answers[i].delivery.Accepted?)] + Deliveries(answers, i + 1, n)
  {
  }

  lemma {:induction false} ServeIsRun(s: State, w: nat, answers: seq<Answer>, i: nat)
    requires w < |s.workers| && i <= s.channels <= |answers|
    requires s.workers[w] == Reached(i, s.channels)
    ensures Exec(s, ServeRun(w, answers, i, s.channels))
         == s.(workers := s.workers[w := Idle], handed := s.handed + Deliveries(answers, i, s.channels))
    decreases s.channels - i
  {
    if i == s.channels {
      Overwrite(s.workers, w, Idle, Idle);
      assert s.handed + [] == s.handed;
    } else if !Commits(answers[i]) {
      StopIsRun(s, w, answers, i);
    } else {
      var t := After(s, w, answers, i);
      HandIsRun(s, w, answers, i);
      ServeIsRun(t, w, answers, i + 1);
      Overwrite(s.workers, w, Reached(i + 1, s.channels), Idle);
      DeliveriesFrom(answers, i, s.channels, s.handed);
    }
  }

  /** A dispatch by an idle worker, taken as a whole. */
  function AfterDispatch(s: State, getUp: bool, setUp: bool, answers: seq<Answer>): State
    requires s.channels <= |answers|
  {
    if !getUp || s.key.Some? || !setUp then s
    else s.(key := Some(s.now + DEDUP_SECONDS), passes := s.passes + 1,
            handed := s.handed + Deliveries(answers, 0, s.channels))
  }

  lemma PassingDispatchIsRun(s: State, w: nat, answers: seq<Answer>)
    requires w < |s.workers| && s.workers[w].Idle? && 1 <= s.channels <= |answers| && s.key.None?
    ensures Exec(s, DispatchRun(s, w, true, true, answers)) == AfterDispatch(s, true, true, answers)
  {
    var t := s.(workers := s.workers[w := At(0)], key := Some(s.now + DEDUP_SECONDS), passes := s.passes + 1);
    assert Exec(s, [Read(w), Write(w)]) == t by { PassState(s, w); }
    ExecConcat(s, [Read(w), Write(w)], ServeRun(w, answers, 0, s.channels));
    ServeIsRun(t, w, answers, 0);
    assert t.workers[w := Idle] == s.workers by {
      Overwrite(s.workers, w, At(0), Idle);
      Overwrite(s.workers, w, Idle, Idle);
    }
  }

  lemma DispatchIsRun(s: State, w: nat, getUp: bool, setUp: bool, answers: seq<Answer>)
    requires w < |s.workers| && s.workers[w].Idle? && 1 <= s.channels <= |answers|
    ensures Exec(s, DispatchRun(s, w, getUp, setUp, answers)) == AfterDispatch(s, getUp, setUp, answers)
  {
    if getUp && s.key.Some? {
      ExecOne(s, Read(w));
    } else if getUp && !setUp {
      ExecTwo(s, Read(w), Crash(w));
      Overwrite(s.workers, w, Checked, Idle);
      Overwrite(s.workers, w, Idle, Idle);
    } else if getUp {
      PassingDispatchIsRun(s, w, answers);
    }
  }

  datatype DispatchResult = Skipped | Dispatched | Raised

  class NotificationDispatcher {
    var dedup: map<(string, string), Time>
    var rows: seq<Notification>
    /** What the channels were handed for each alert. */
    var outbox: map<(string, string), seq<Handed>>

    constructor ()
      ensures dedup == map[] && rows == [] && outbox == map[]
    {
      dedup, rows, outbox := map[], [], map[];
    }

    function LiveKey(k: (string, string), now: Time): Option<Time>
      reads this`dedup
    {
      if k in dedup && now < dedup[k] then Some(dedup[k]) else None
    }

    function HandedFor(k: (string, string)): seq<Handed>
      reads this`outbox
    {
      if k in outbox then outbox[k] else []
    }

    /** Channel number `i`: a PENDING row, the delivery, and the two statuses it leaves; the
        attempt is stored together with the final row.  A failing commit raises. */
    method Serve(k: (string, string), i: nat, channel: string, a: Answer) returns (raised: bool)
      modifies this`rows, this`outbox
      ensures raised <==> !Commits(a)
      ensures rows == if !a.firstCommit then old(rows)
                      else old(rows) + [if raised then Notification(channel, PENDING, None, None) else Final(channel, a.delivery)]
      ensures outbox == if !a.firstCommit then old(outbox)
                        else old(outbox)[k := old(HandedFor(k)) + [Handed(i, a.delivery.Accepted?)]]
    {
      if !a.firstCommit { return true; }
      var stored, row := rows, Notification(channel, PENDING, None, None);
      rows := stored + [row];
      var attempt := Attempt(AttemptPending, None);
      outbox := outbox[k := HandedFor(k) + [Handed(i, a.delivery.Accepted?)]];
      match a.delivery {
        case Accepted =>
          row := row.(status := SENT);
          attempt := attempt.(status := SUCCESS);
        case Refused =>
          row := row.(status := FAILED);
          attempt := attempt.(status := AttemptFailed);
        case Raises(error) =>
          row := row.(status := FAILED, error := Some(error));
          attempt := Attempt(AttemptFailed, Some(error));
      }
      if !a.secondCommit { return true; }
      rows := stored + [row.(attempt := Some(attempt))];
      return false;
    }

    /** The channels in order, up to a failing commit. */
    method ServeAll(k: (string, string), severity: string, answers: seq<Answer>) returns (result: DispatchResult)
      requires |answers| >= |Channels(severity)|
      modifies this`rows, this`outbox
      ensures exists n :: 0 <= n <= |Channels(severity)| && Served(old(rows), severity, answers, n, result)
      ensures HandedFor(k) == old(HandedFor(k)) + Deliveries(answers, 0, |Channels(severity)|)
      ensures outbox - {k} == old(outbox) - {k}
    {
      var channels := Channels(severity);
      for i := 0 to |channels|
        invariant rows == old(rows) + Rows(channels, answers, i)
        invariant forall j | 0 <= j < i :: Commits(answers[j])
        invariant HandedFor(k) + Deliveries(answers, i, |channels|) == old(HandedFor(k)) + Deliveries(answers, 0, |channels|)
        invariant outbox - {k} == old(outbox) - {k}
      {
        if Commits(answers[i]) { DeliveriesFrom(answers, i, |channels|, HandedFor(k)); }
        var raised := Serve(k, i, channels[i], answers[i]);
        if raised {
          assert Served(old(rows), severity, answers, i, Raised);
          return Raised;
        }
      }
      assert Served(old(rows), severity, answers, |channels|, Dispatched);
      return Dispatched;
    }

    /** A live key skips the alert and changes nothing; a failing Redis raises and changes
        nothing.  Otherwise the key is written first and the channels are served in order, up
        to a failing commit, which raises.

        For a protocol state `s` of this alert that agrees with the dispatcher, and any idle
        worker `w` in it, the dispatch is a run of the protocol. */
    method Dispatch(recipient: string, alert: string, severity: string, now: Time, getUp: bool, setUp: bool, answers: seq<Answer>,
                    ghost s: State, ghost w: nat)
      returns (result: DispatchResult)
      requires |answers| >= |Channels(severity)|
      requires s.channels == |Channels(severity)| && s.now == now && w < |s.workers| && s.workers[w].Idle?
      requires s.key == LiveKey((recipient, alert), now) && s.handed == HandedFor((recipient, alert))
      modifies this
      ensures var live := old(LiveKey((recipient, alert), now)).Some?;
              if !getUp || live || !setUp then
                && dedup == old(dedup) && rows == old(rows) && outbox == old(outbox)
                && result == if getUp && live then Skipped else Raised
              else
                && dedup == old(dedup)[(recipient, alert) := now + DEDUP_SECONDS]
                && exists n :: 0 <= n <= |Channels(severity)| && Served(old(rows), severity, answers, n, result)
      ensures outbox - {(recipient, alert)} == old(outbox) - {(recipient, alert)}
      ensures var t := Exec(s, DispatchRun(s, w, getUp, setUp, answers));
              && t.key == LiveKey((recipient, alert), now) && t.handed == HandedFor((recipient, alert))
              && t.workers == s.workers && t.now == s.now
    {
      var k := (recipient, alert);
      DispatchIsRun(s, w, getUp, setUp, answers);
      if !getUp { return Raised; }
      if k in dedup && now < dedup[k] { return Skipped; }
      if !setUp { return Raised; }
      dedup := dedup[k := now + DEDUP_SECONDS];
      result := ServeAll(k, severity, answers);
    }

    /** The first `n` channels were served.  All of them: the dispatch returns.  Otherwise a
        commit of the next one failed, which leaves at most one PENDING row. */
    ghost predicate Served(before: seq<Notification>, severity: string, answers: seq<Answer>, n: nat, result: DispatchResult)
      requires n <= |Channels(severity)| <= |answers|
      reads this`rows
    {
      var channels := Channels(severity);
      var stored := before + Rows(channels, answers, n);
      && (forall j | 0 <= j < n :: Commits(answers[j]))
      && if n == |channels| then result == Dispatched && rows == stored
         else
           && result == Raised && !Commits(answers[n])
           && rows == if answers[n].firstCommit then stored + [Notification(channels[n], PENDING, None, None)] else stored
    }
  }
}
