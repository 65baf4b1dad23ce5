/** The lease lock as a state machine: one Redis key, one clock, any number of lock
    instances, and the scripts they send.

    An action that is not possible in a state leaves the state as it is, so every sequence
    of actions is a run. */
module LeaseLock {
  import opened Prelude

  type Client = nat

  type Token = nat

  datatype Entry = Entry(token: Token, expiry: Time)

  /** `token` is the instance's `_lock_token`, `inside` whether its holder is in the
      critical section, `lease` the end of the last lease Redis granted it. */
  datatype Instance = Instance(token: Option<Token>, inside: bool, lease: Time)

  datatype State = State(now: Time, key: Option<Entry>, clients: map<Client, Instance>, used: set<Token>)

  datatype Action =
    | Tick(dt: Time)
    | TryAcquire(client: Client, token: Token, ttl: Time)
    | Extend(client: Client, seconds: Time)
    | Leave(client: Client)
    | Release(client: Client)

  const FRESH := Instance(None, false, 0.0)

  const INIT := State(0.0, None, map[], {})

  function Of(s: State, c: Client): Instance {
    if c in s.clients then s.clients[c] else FRESH
  }

  /** The value that `GET` sees: a key is gone once the clock reaches its expiry. */
  function LiveKey(key: Option<Entry>, now: Time): Option<Entry> {
    if key.Some? && now < key.value.expiry then key else None
  }

  /** `SET key token EX ttl NX`.  Every acquire call draws a token never used before. */
  function TryAcquired(s: State, c: Client, token: Token, ttl: Time): State {
    if LiveKey(s.key, s.now).Some? || token in s.used || ttl <= 0.0 then s
    else s.(key := Some(Entry(token, s.now + ttl)), used := s.used + {token},
            clients := s.clients[c := Instance(Some(token), true, s.now + ttl)])
  }

  predicate Holds(s: State, c: Client) {
    var k := LiveKey(s.key, s.now);
    k.Some? && Of(s, c).token == Some(k.value.token)
  }

  /** The extension script: `PEXPIRE` when the stored value is the caller's token.  An
      extension that is not positive deletes the key and still reports success. */
  function Extended(s: State, c: Client, seconds: Time): State {
    if !Holds(s, c) then s
    else s.(key := if seconds <= 0.0 then None else Some(Entry(s.key.value.token, s.now + seconds)),
            clients := s.clients[c := Of(s, c).(lease := s.now + seconds)])
  }

  /** The release script: `DEL` when the stored value is the caller's token; the instance
      forgets its token either way. */
  function Released(s: State, c: Client): State {
    if Of(s, c).token.None? then s
    else s.(key := if Holds(s, c) then None else s.key,
            clients := s.clients[c := Of(s, c).(token := None, inside := false)])
  }

  function Step(s: State, a: Action): State {
    match a
    case Tick(dt) => if dt < 0.0 then s else s.(now := s.now + dt)
    case TryAcquire(c, token, ttl) => TryAcquired(s, c, token, ttl)
    case Extend(c, seconds) => Extended(s, c, seconds)
    case Leave(c) => if c in s.clients then s.(clients := s.clients[c := s.clients[c].(inside := false)]) else s
    case Release(c) => Released(s, c)
  }

  function Exec(s: State, run: seq<Action>): State {
    if run == [] then s else Step(Exec(s, run[..|run| - 1]), run[|run| - 1])
  }

  lemma {:induction false} ExecConcat(s: State, a: seq<Action>, b: seq<Action>)
    ensures Exec(s, a + b) == Exec(Exec(s, a), b)
  {
    if b == [] {
      assert a + b == a;
    } else {
      ExecConcat(s, a, b[..|b| - 1]);
      assert (a + b)[..|a + b| - 1] == a + b[..|b| - 1];
    }
  }

  lemma ExecOne(s: State, a: Action)
    ensures Exec(s, [a]) == Step(s, a)
  {
    assert [a][..0] == [];
  }

  // --- Safety ---------------------------------------------------------------------

  /** Tokens are never shared, the stored token was once drawn, an instance with a token and
      an unexpired lease is the one whose entry, with that very expiry, is stored, and a
      client inside keeps its token. */
  predicate Inv(s: State) {
    && (s.key.Some? ==> s.key.value.token in s.used)
    && (forall c | c in s.clients && s.clients[c].token.Some? :: s.clients[c].token.value in s.used)
    && (forall c, d | c in s.clients && d in s.clients && c != d && s.clients[c].token.Some? ::
          s.clients[c].token != s.clients[d].token)
    && (forall c | c in s.clients && s.clients[c].token.Some? && s.key.Some?
                   && s.key.value.token == s.clients[c].token.value :: s.key.value.expiry == s.clients[c].lease)
    && (forall c | c in s.clients && s.clients[c].token.Some? && s.now < s.clients[c].lease ::
          s.key == Some(Entry(s.clients[c].token.value, s.clients[c].lease)))
    && (forall c | c in s.clients && s.clients[c].inside :: s.clients[c].token.Some?)
  }

  lemma StepKeepsInv(s: State, a: Action)
    requires Inv(s)
    ensures Inv(Step(s, a))
  {
    match a
    case TryAcquire(c, token, ttl) =>
      forall d | d in s.clients && s.clients[d].token.Some? && s.now < s.clients[d].lease
        ensures LiveKey(s.key, s.now).Some? {}
    case _ =>
  }

  lemma {:induction false} RunKeepsInv(run: seq<Action>)
    ensures Inv(Exec(INIT, run))
  {
    if run != [] {
      RunKeepsInv(run[..|run| - 1]);
      StepKeepsInv(Exec(INIT, run[..|run| - 1]), run[|run| - 1]);
    }
  }

  /** In every run at most one instance's token equals the live stored value. */
  lemma HolderIsUnique(run: seq<Action>, c: Client, d: Client)
    requires Holds(Exec(INIT, run), c) && Holds(Exec(INIT, run), d)
    ensures c == d
  {
    RunKeepsInv(run);
  }

  /** Two clients are inside the critical section together only if one of them has stayed
      beyond its own lease.  So if everybody leaves in time, the section is exclusive. */
  lemma MutualExclusion(run: seq<Action>, c: Client, d: Client)
    requires var s := Exec(INIT, run); c != d && Of(s, c).inside && Of(s, d).inside
    ensures var s := Exec(INIT, run); Of(s, c).lease <= s.now || Of(s, d).lease <= s.now
  {
    RunKeepsInv(run);
  }

  /** Every client inside at any moment of the run is still within its lease. */
  ghost predicate Punctual(run: seq<Action>) {
    forall n, c | 0 <= n <= |run| :: Of(Exec(INIT, run[..n]), c).inside ==>
      Exec(INIT, run[..n]).now < Of(Exec(INIT, run[..n]), c).lease
  }

  lemma PunctualRunsAreExclusive(run: seq<Action>, n: nat, c: Client, d: Client)
    requires Punctual(run) && n <= |run|
    requires Of(Exec(INIT, run[..n]), c).inside && Of(Exec(INIT, run[..n]), d).inside
    ensures c == d
  {
    if c != d { MutualExclusion(run[..n], c, d); }
  }

  /** The premise cannot be dropped: in every reachable state with somebody inside and no live
      key, the next acquire by another client puts two inside. */
  lemma OverstayingBreaksExclusion(run: seq<Action>, c: Client, d: Client, token: Token, ttl: Time)
    requires var s := Exec(INIT, run);
             && Of(s, c).inside && LiveKey(s.key, s.now).None?
             && c != d && token !in s.used && ttl > 0.0
    ensures var t := Exec(INIT, run + [TryAcquire(d, token, ttl)]);
            Of(t, c).inside && Of(t, d).inside && Holds(t, d)
  {
    assert (run + [TryAcquire(d, token, ttl)])[..|run|] == run;
  }

  /** And every client inside its lease comes into such a state by staying until it ends. */
  lemma StayingTooLongFreesTheKey(run: seq<Action>, c: Client)
    requires var s := Exec(INIT, run); Of(s, c).inside && s.now < Of(s, c).lease
    ensures var s := Exec(INIT, run);
            var t := Exec(INIT, run + [Tick(Of(s, c).lease - s.now)]);
            Of(t, c).inside && LiveKey(t.key, t.now).None?
  {
    var s := Exec(INIT, run);
    RunKeepsInv(run);
    assert (run + [Tick(Of(s, c).lease - s.now)])[..|run|] == run;
  }

  /** Whatever another instance sends (a late release, a late extension, a failed acquire),
      a holder keeps the key with the same expiry. */
  lemma OthersNeverTouchTheHolder(run: seq<Action>, a: Action, holder: Client)
    requires Holds(Exec(INIT, run), holder)
    requires a.Tick? || a.client != holder
    ensures var s, t := Exec(INIT, run), Step(Exec(INIT, run), a);
            && t.key == s.key && Of(t, holder) == Of(s, holder)
            && (t.now < s.key.value.expiry ==> Holds(t, holder))
  {
    RunKeepsInv(run);
  }

  /** An acquire with a fresh token succeeds exactly when no live key is stored; one that
      finds the key taken changes nothing at all. */
  lemma AcquireSucceedsExactlyWhenFree(run: seq<Action>, c: Client, token: Token, ttl: Time)
    requires token !in Exec(INIT, run).used && ttl > 0.0
    ensures var s, t := Exec(INIT, run), Step(Exec(INIT, run), TryAcquire(c, token, ttl));
            && (LiveKey(s.key, s.now).None? <==> Of(t, c).token == Some(token))
            && (LiveKey(s.key, s.now).None? ==> Holds(t, c) && Of(t, c).inside && Of(t, c).lease == s.now + ttl)
            && (LiveKey(s.key, s.now).Some? ==> t == s)
  {
    RunKeepsInv(run);
  }

  /** A lease that nobody extends ends by itself: however its holder fails, once the stored
      expiry has passed any instance can acquire. */
  lemma LapsedLeaseIsFree(run: seq<Action>, wait: Time, c: Client, token: Token, ttl: Time)
    requires var s := Exec(INIT, run);
             wait >= 0.0 && ttl > 0.0 && token !in s.used && (s.key.Some? ==> s.key.value.expiry <= s.now + wait)
    ensures Holds(Exec(INIT, run + [Tick(wait), TryAcquire(c, token, ttl)]), c)
  {
    var r := run + [Tick(wait), TryAcquire(c, token, ttl)];
    assert r[..|r| - 1] == run + [Tick(wait)];
    assert (run + [Tick(wait)])[..|run|] == run;
  }

  /** A holder's release frees the key at once; anyone else's leaves it as it is. */
  lemma ReleaseFreesExactly(run: seq<Action>, c: Client)
    ensures var s, t := Exec(INIT, run), Step(Exec(INIT, run), Release(c));
            && (Holds(s, c) ==> t.key == None)
            && (!Holds(s, c) ==> t.key == s.key)
            && Of(t, c).token == None && !Holds(t, c)
            && forall d | d != c :: Of(t, d) == Of(s, d)
  {
    RunKeepsInv(run);
  }

  /** A holder's extension starts the given period anew, counted from now; a period that is not
      positive gives the key up; anyone else's changes nothing. */
  lemma ExtendRenewsExactly(run: seq<Action>, c: Client, seconds: Time)
    ensures var s, t := Exec(INIT, run), Step(Exec(INIT, run), Extend(c, seconds));
            && (Holds(s, c) && seconds > 0.0 ==>
                  Holds(t, c) && t.key.value.expiry == s.now + seconds && Of(t, c).lease == s.now + seconds)
            && (Holds(s, c) && seconds <= 0.0 ==> t.key == None)
            && (!Holds(s, c) ==> t == s)
            && t.now == s.now && Of(t, c).token == Of(s, c).token
  {
    RunKeepsInv(run);
  }

  /** `is_locked` means holding exactly while the instance's own lease lasts: in every run an
      instance holds the lock if and only if it keeps a token and its lease (the last acquire
      or successful extension) has not ended, which it can tell without asking Redis. */
  lemma HoldsExactly(run: seq<Action>, c: Client)
    ensures var s := Exec(INIT, run);
            Holds(s, c) <==> Of(s, c).token.Some? && s.now < Of(s, c).lease
  {
    RunKeepsInv(run);
  }

  /** So a holder reports `is_locked`, and an instance that reports it without holding is one
      whose lease has ended. */
  lemma HoldingImpliesIsLocked(run: seq<Action>, c: Client)
    ensures var s := Exec(INIT, run);
            && (Holds(s, c) ==> Of(s, c).token.Some?)
            && (Of(s, c).token.Some? && !Holds(s, c) <==> Of(s, c).token.Some? && Of(s, c).lease <= s.now)
  {
    HoldsExactly(run, c);
  }

  /** Every holder that does nothing comes to report `is_locked` without holding. */
  lemma IsLockedDoesNotImplyHolding(run: seq<Action>, c: Client, wait: Time)
    requires var s := Exec(INIT, run); Holds(s, c) && Of(s, c).lease <= s.now + wait
    ensures var t := Exec(INIT, run + [Tick(wait)]);
            Of(t, c).token.Some? && !Holds(t, c)
  {
    HoldsExactly(run, c);
    HoldsExactly(run + [Tick(wait)], c);
    assert (run + [Tick(wait)])[..|run|] == run;
  }
}

/** A lock instance in the form the program gives it, over the shared world of the key, the
    clock and the other instances. */
module DistributedLocks {
  import opened Prelude
  import opened LeaseLock

  class RedisServer {
    var world: State

    constructor ()
      ensures world == INIT
    {
      world := INIT;
    }
  }

  /** What an acquire call sends when, after each failed attempt, the others act and the
      retry interval passes; it makes one attempt per element of `others`. */
  function AcquireRun(s: State, me: Client, token: Token, ttl: Time, interval: Time, others: seq<seq<Action>>): seq<Action>
    decreases |others|
  {
    if others == [] then []
    else if LiveKey(s.key, s.now).None? then [TryAcquire(me, token, ttl)]
    else
      var pause := others[0] + [Tick(interval)];
      [TryAcquire(me, token, ttl)] + pause + AcquireRun(Exec(s, pause), me, token, ttl, interval, others[1..])
  }

  /** The others never act as `me` and never draw `token`. */
  predicate Foreign(me: Client, token: Token, actions: seq<Action>) {
    forall i | 0 <= i < |actions| ::
      actions[i].Tick? || (actions[i].client != me && (actions[i].TryAcquire? ==> actions[i].token != token))
  }

  lemma {:induction false} ForeignRunKeepsMe(s: State, me: Client, token: Token, actions: seq<Action>)
    requires Foreign(me, token, actions)
    ensures Of(Exec(s, actions), me) == Of(s, me)
    ensures token !in s.used ==> token !in Exec(s, actions).used
  {
    if actions != [] { ForeignRunKeepsMe(s, me, token, actions[..|actions| - 1]); }
  }

  lemma AcquireRunUnfolds(s: State, me: Client, token: Token, ttl: Time, interval: Time, others: seq<seq<Action>>)
    requires others != [] && LiveKey(s.key, s.now).Some?
    ensures var t := Exec(s, others[0] + [Tick(interval)]);
            Exec(s, AcquireRun(s, me, token, ttl, interval, others))
            == Exec(t, AcquireRun(t, me, token, ttl, interval, others[1..]))
  {
    var first, pause := [TryAcquire(me, token, ttl)], others[0] + [Tick(interval)];
    var rest := AcquireRun(Exec(s, pause), me, token, ttl, interval, others[1..]);
    ExecOne(s, TryAcquire(me, token, ttl));
    ExecConcat(s, first, pause);
    ExecConcat(s, first + pause, rest);
  }

  /** The world after the first `i` blocks of the others' actions, each with its pause, when
      this call has changed nothing. */
  function Waited(s: State, interval: Time, others: seq<seq<Action>>, i: nat): State
    requires i <= |others|
  {
    if i == 0 then s else Exec(Waited(s, interval, others, i - 1), others[i - 1] + [Tick(interval)])
  }

  /** Attempt number `i` (from 0) finds no live key. */
  predicate FreeAt(s: State, interval: Time, others: seq<seq<Action>>, i: nat)
    requires i <= |others|
  {
    var w := Waited(s, interval, others, i);
    w.key.None? || w.key.value.expiry <= w.now
  }

  /** Attempt number `i` is the first that finds no live key. */
  predicate FirstFreeAt(s: State, interval: Time, others: seq<seq<Action>>, i: nat)
    requires i <= |others|
  {
    FreeAt(s, interval, others, i) && NoneFreeBefore(s, interval, others, i)
  }

  /** Some attempt finds no live key. */
  predicate SomeFree(s: State, interval: Time, others: seq<seq<Action>>) {
    exists i :: 0 <= i < |others| && FreeAt(s, interval, others, i)
  }

  lemma FreeAtOnce(s: State, interval: Time, others: seq<seq<Action>>)
    requires |others| > 0 && LiveKey(s.key, s.now).None?
    ensures SomeFree(s, interval, others)
  {
    assert FreeAt(s, interval, others, 0);
  }

  predicate NoneFreeBefore(s: State, interval: Time, others: seq<seq<Action>>, i: nat)
    requires i <= |others|
  {
    forall j | 0 <= j < i :: !FreeAt(s, interval, others, j)
  }

  /** As long as no attempt has found the key free, what the call has sent has changed nothing. */
  lemma {:induction false} AcquireRunReaches(s: State, me: Client, token: Token, ttl: Time, interval: Time,
                                             others: seq<seq<Action>>, i: nat)
    requires i <= |others| && NoneFreeBefore(s, interval, others, i)
    ensures var w := Waited(s, interval, others, i);
            Exec(s, AcquireRun(s, me, token, ttl, interval, others))
            == Exec(w, AcquireRun(w, me, token, ttl, interval, others[i..]))
  {
    if i == 0 {
      assert others[0..] == others;
    } else {
      var w, rest := Waited(s, interval, others, i - 1), others[i - 1..];
      assert rest[0] == others[i - 1] && rest[1..] == others[i..];
      AcquireRunReaches(s, me, token, ttl, interval, others, i - 1);
      assert LiveKey(w.key, w.now).Some? by { assert !FreeAt(s, interval, others, i - 1); }
      AcquireRunUnfolds(w, me, token, ttl, interval, rest);
    }
  }

  /** So the call ends in the world with its entry at the first free attempt, or in the world
      after all pauses. */
  lemma AcquireRunEnds(s: State, me: Client, token: Token, ttl: Time, interval: Time, others: seq<seq<Action>>, i: nat)
    requires i <= |others| && NoneFreeBefore(s, interval, others, i) && ttl > 0.0
    requires i < |others| ==> FreeAt(s, interval, others, i) && token !in Waited(s, interval, others, i).used
    ensures var w := Waited(s, interval, others, i);
            Exec(s, AcquireRun(s, me, token, ttl, interval, others))
            == if i < |others| then WithEntry(w, me, token, ttl) else w
    ensures SomeFree(s, interval, others) <==> i < |others|
    ensures i < |others| ==> FirstFreeAt(s, interval, others, i)
  {
    AcquireRunReaches(s, me, token, ttl, interval, others, i);
    if i < |others| { ExecOne(Waited(s, interval, others, i), TryAcquire(me, token, ttl)); }
  }

  /** The world with this call's entry: the key and the lease run for the time to live. */
  function WithEntry(w: State, me: Client, token: Token, ttl: Time): State {
    w.(key := Some(Entry(token, w.now + ttl)), used := w.used + {token},
       clients := w.clients[me := Instance(Some(token), true, w.now + ttl)])
  }

  class DistributedLock {
    const redis: RedisServer
    const me: Client
    const ttlSeconds: Time
    const retryCount: nat
    const retryInterval: Time
    var lockToken: Option<Token>

    ghost predicate Valid()
      reads this, redis
    {
      lockToken == Of(redis.world, me).token && ttlSeconds > 0.0 && retryInterval >= 0.0
    }

    constructor (redis: RedisServer, me: Client, ttlSeconds: Time, retryCount: nat, retryInterval: Time)
      requires ttlSeconds > 0.0 && retryInterval >= 0.0 && me !in redis.world.clients
      ensures Valid() && this.redis == redis && this.me == me && lockToken == None
      ensures this.ttlSeconds == ttlSeconds && this.retryCount == retryCount && this.retryInterval == retryInterval
    {
      this.redis, this.me, this.ttlSeconds := redis, me, ttlSeconds;
      this.retryCount, this.retryInterval := retryCount, retryInterval;
      lockToken := None;
    }

    /** One `SET NX EX`. */
    method TrySet(token: Token) returns (acquired: bool)
      requires Valid() && token !in redis.world.used
      modifies this`lockToken, redis
      ensures Valid()
      ensures acquired <==> old(LiveKey(redis.world.key, redis.world.now)).None?
      ensures redis.world == if acquired then WithEntry(old(redis.world), me, token, ttlSeconds) else old(redis.world)
      ensures lockToken == if acquired then Some(token) else old(lockToken)
    {
      acquired := LiveKey(redis.world.key, redis.world.now).None?;
      if acquired {
        redis.world := TryAcquired(redis.world, me, token, ttlSeconds);
        lockToken := Some(token);
      }
    }

    /** The others act, and the retry interval passes. */
    method Sleep(actions: seq<Action>, ghost token: Token)
      requires Valid() && token !in redis.world.used && Foreign(me, token, actions)
      modifies redis
      ensures Valid() && token !in redis.world.used && lockToken == old(lockToken)
      ensures redis.world == Exec(old(redis.world), actions + [Tick(retryInterval)])
    {
      ForeignRunKeepsMe(redis.world, me, token, actions + [Tick(retryInterval)]);
      redis.world := Exec(redis.world, actions + [Tick(retryInterval)]);
    }

    /** One fresh token per call and `retryCount` attempts; `others` says what the others do
        after each failed one.  The call acquires exactly when one of its attempts finds no
        live key, at the first such attempt, number `at`.  A call that gives up leaves the
        instance as it was, and its token is stored nowhere. */
    method Acquire(token: Token, others: seq<seq<Action>>) returns (acquired: bool, ghost at: nat)
      requires Valid() && token !in redis.world.used && |others| == retryCount
      requires forall i | 0 <= i < |others| :: Foreign(me, token, others[i])
      modifies this`lockToken, redis
      ensures Valid() && at <= |others|
      ensures acquired <==> SomeFree(old(redis.world), retryInterval, others)
      ensures acquired ==> at < |others| && FirstFreeAt(old(redis.world), retryInterval, others, at)
      ensures redis.world == var w := Waited(old(redis.world), retryInterval, others, at);
                             if acquired then WithEntry(w, me, token, ttlSeconds) else w
      ensures !acquired ==> at == |others| && lockToken == old(lockToken) && token !in redis.world.used
      ensures acquired ==> lockToken == Some(token) && redis.world.key == Some(Entry(token, redis.world.now + ttlSeconds))
      ensures redis.world == Exec(old(redis.world), AcquireRun(old(redis.world), me, token, ttlSeconds, retryInterval, others))
      ensures retryCount > 0 && old(LiveKey(redis.world.key, redis.world.now)).None? ==> acquired
    {
      ghost var start := redis.world;
      if retryCount > 0 && LiveKey(start.key, start.now).None? { FreeAtOnce(start, retryInterval, others); }
      at := 0;
      for attempt := 0 to |others|
        invariant at == attempt
        invariant Valid() && token !in redis.world.used && lockToken == old(lockToken)
        invariant redis.world == Waited(start, retryInterval, others, attempt)
        invariant NoneFreeBefore(start, retryInterval, others, attempt)
      {
        acquired := TrySet(token);
        assert acquired <==> FreeAt(start, retryInterval, others, attempt);
        if acquired {
          AcquireRunEnds(start, me, token, ttlSeconds, retryInterval, others, attempt);
          return;
        }
        Sleep(others[attempt], token);
        at := at + 1;
      }
      AcquireRunEnds(start, me, token, ttlSeconds, retryInterval, others, |others|);
      acquired := false;
    }

    /** Deletes the key exactly when this instance holds the lock, and forgets the token. */
    method Release() returns (released: bool)
      requires Valid()
      modifies this`lockToken, redis
      ensures Valid() && lockToken == None
      ensures released <==> old(Holds(redis.world, me))
      ensures redis.world == Step(old(redis.world), LeaseLock.Release(me))
      ensures redis.world.key == if released then None else old(redis.world.key)
    {
      if lockToken.None? { return false; }
      var k := LiveKey(redis.world.key, redis.world.now);
      released := k.Some? && k.value.token == lockToken.value;
      redis.world := Released(redis.world, me);
      lockToken := None;
    }

    /** A missing or zero extension means the original time to live. */
    function Period(additionalSeconds: Option<int>): Time {
      if additionalSeconds.Some? && additionalSeconds.value != 0 then additionalSeconds.value as real else ttlSeconds
    }

    /** Starts the period anew exactly when this instance holds the lock. */
    method Extend(additionalSeconds: Option<int>) returns (extended: bool)
      requires Valid()
      modifies redis
      ensures Valid() && lockToken == old(lockToken)
      ensures extended <==> old(Holds(redis.world, me))
      ensures redis.world == Step(old(redis.world), LeaseLock.Extend(me, Period(additionalSeconds)))
      ensures !extended ==> redis.world == old(redis.world)
      ensures extended && (additionalSeconds.None? || additionalSeconds.value == 0) ==>
                redis.world.key == Some(Entry(lockToken.value, old(redis.world).now + ttlSeconds))
      ensures extended && additionalSeconds.Some? && additionalSeconds.value > 0 ==>
                redis.world.key == Some(Entry(lockToken.value, old(redis.world).now + additionalSeconds.value as real))
      ensures extended && additionalSeconds.Some? && additionalSeconds.value < 0 ==> redis.world.key == None
    {
      if lockToken.None? { return false; }
      var k := LiveKey(redis.world.key, redis.world.now);
      extended := k.Some? && k.value.token == lockToken.value;
      redis.world := Extended(redis.world, me, Period(additionalSeconds));
    }

    predicate IsLocked()
      reads this
    {
      lockToken.Some?
    }
  }
}
