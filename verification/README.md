# Fraud platform: a verified model of its protocols and counters

This project models the parts of the fraud platform where a step-by-step argument is needed
and proves what they guarantee over every run:

- the Kafka consumer with its duplicate check, retries, dead-letter topic, offset commits and
  replay, under crashes between any two steps (`ConsumerProtocol`, `KafkaConsumer`,
  `DlqReplay`, `Backoff`, `EventEnvelope`);
- the Redis lease lock for any number of instances (`LeaseLock`);
- the four rate and velocity counters against the plain count of recent events
  (`VelocityCounter`, `RateLimiter`, `VelocityAggregator`, `FixedWindowCounter`,
  `EventWindows`), and against each other (`FourCounters`);
- the fraud-ring graph with its queries and score (`FraudGraph`);
- the rule loop and the velocity counters it moves (`RuleEvaluator`);
- score aggregation, the decision and the orchestrator's loop (`ScoreAggregator`);
- notification dispatch with a check-then-set duplicate key (`NotificationDispatcher`).

`dafny verify dfyconfig.toml` checks everything.

## How the model is built

Redis, Kafka and Neo4j are small abstract state machines: maps with expiry, logs with offsets,
sets of edges. Code that works by changing state is a class whose methods are proved equal to
functions on states. For the consumer, each of those functions is in turn proved to be a run of
the delivery protocol, so the theorems about all runs are theorems about the loop. A run is a
sequence of actions; an action that is not possible in a state leaves it unchanged. The answers
of the outside world (does Redis respond, does the handler succeed, does the commit go through)
are parameters.

Assumptions:

- The clock does not run backwards and is shared with Redis. A key is gone once the clock
  reaches its expiry. Times are real numbers.
- Event identifiers that a program draws, lock tokens and sorted-set members are fresh.
- Pipelines are atomic. A snapshot's reading pipeline sees the same moment as its writing one.
- HyperLogLogs are exact sets. Windows are positive. A duplicate mark with a time to live that
  is not positive is stored and dropped at the next tick; a lock with such a time to live is
  refused.
- Amounts and scores are reals. Floating point differs at boundaries: 0.4 + 0.2 exceeds 0.60
  there and equals it here.
- One sequential consumer reads one partition. `commit()` commits the current position,
  including earlier records that could not be parsed.
- A value that is null or not UTF-8 raises an exception that `_process_message` does not catch.
  Such a record is called poison.
- A crash ends the client; its successor begins at the committed offset. A cancellation, or an
  exception that escapes from `consume`, does not: the client keeps its position, and a caller
  who enters `consume` again continues after the record that was under way. Such a re-entry is
  an action of the protocol, and the records it leaves behind are called abandoned.
- `start` always installs a dead-letter handler before `consume` may run.
- Every redelivery of an alert has the same severity, so it goes to the same channels.
- MERGE keeps at most one edge per pair of nodes, and a Cypher match never uses one relationship
  twice.

## Where the code and its documentation disagree

The model follows the code. The theorems make these differences precise:

- The architecture documents promise exactly-once handling. The code gives at-least-once, and
  that only with manual commit, a Redis that no other group writes, and a caller that does not
  enter `consume` again in the middle of a record (`AtLeastOnceExactlyWhenReliable`); the number
  of handlings is bounded by named mishaps (`HandledAtMostOncePlusMishaps`).
- Replaying a dead-letter event whose duplicate mark still lives does nothing
  (`ReplayIsSwallowedWithinTtl`), since exhausted events are marked too. A record whose republish
  fails is committed past and never offered again (`Replay`).
- `publish_with_retry` sleeps once more after the last failure; the consumer does not.
- The velocity counter's key does not name the window, so asking about a short window empties a
  long one (`MixedWindowsUndercount`).
- The rate limiter documents `retry_after` as the seconds to the reset; it is always 1, and
  `RetryAfterSufficesExactly` says when that is enough. It counts distinct timestamps, rejected
  attempts included.
- The aggregator's "window" sum and distinct counts range over a whole burst of transactions
  (`SnapshotExactly`, `SumOutgrowsWindow`); `SnapshotIsWindowExactly` says when that is the window.
- The rule engine's counter is a fixed window, and lets 2 * limit - 1 checks through within one
  window length (`TwiceLimitIsReached`), never more as long as no rule on its key has a shorter
  window (`UnflaggedAtMostTwiceLimit`, `ShortWindowsLetMoreThrough`). The key names neither the
  rule nor the window, so rules with different windows can also flag falsely; exactly when is
  said by `CountAgainstSliding` and `FlaggedExactly`.
- `is_locked` is documented as "currently holds the lock" but only says that a token is kept; the
  two agree exactly until the instance's lease ends (`HoldsExactly`).
- The dispatcher writes its duplicate key before it sends. So what a channel refuses, or does not
  get because of a crash or exception before it, is not sent again while the key lives, and the
  channels before the crash have their message (`AlertIsLostExactly`, `FirstDispatchDecides`).

## Model

| member | source | states |
|---|---|---|
| ConsumerProtocol.AtLeastOnceExactlyWhenReliable | shared/fraud_common/kafka_utils.py:588-732 | Each record below the committed offset was handled or had a dead-letter publish attempted, in every run a caller can cause (crashes anywhere, redelivery, replay, other producers), if and only if offsets are committed by hand, no other group writes the duplicate marks, and the caller does not enter the loop again on the same client in the middle of a record |
| ConsumerProtocol.CommittedIsCoveredOrAbandoned | shared/fraud_common/kafka_utils.py:588-732 | With manual commit and a store of its own, in every run, re-entries included, a record below the committed offset was handled, sent to the dead-letter topic, or abandoned by a re-entry in its middle |
| ConsumerProtocol.AtLeastOnce | shared/fraud_common/kafka_utils.py:634-685 | The sufficient direction, over every run without such a re-entry |
| ConsumerProtocol.StepKeepsOrder | shared/fraud_common/kafka_utils.py:634-685 | Every step keeps committed <= frontier <= position, and every poison record below the frontier was abandoned by a re-entry |
| ConsumerProtocol.StepKeepsCovering | shared/fraud_common/kafka_utils.py:665-685 | Every step keeps: each marked event was handled or sent to the dead-letter topic, and so was each record below the frontier that no re-entry abandoned |
| ConsumerProtocol.RunKeepsCovering | shared/fraud_common/kafka_utils.py:634-768 | Both invariants hold in every reachable state |
| ConsumerProtocol.AutoCommitLosesARecord | shared/fraud_common/kafka_utils.py:683-685 | With auto-commit a four-step run commits a record that nothing ever processed |
| ConsumerProtocol.SharedStoreLosesARecord | shared/fraud_common/kafka_utils.py:736-746 | The duplicate key names no consumer group: a mark left by another group makes this one commit an event unseen |
| ConsumerProtocol.ReentryLosesARecord | shared/fraud_common/kafka_utils.py:618-625 | A cancellation or an escaped exception ends the loop in the middle of a record with the consumer still running; entering it again loses that record, whatever it is (poison included) and whatever the configuration with manual commit |
| ConsumerProtocol.PoisonIsNeverPassed | shared/fraud_common/kafka_utils.py:640-663 | With manual commit no commit ever passes the offset of a poison record, unless the loop was entered again after the exception that the record raised |
| ConsumerProtocol.RunKeepsDlq | shared/fraud_common/kafka_utils.py:377-393 | In every run each dead-letter publish that succeeded is in the dead-letter topic |
| ConsumerProtocol.NothingIsLost | shared/fraud_common/kafka_utils.py:634-732 | If no dead-letter publish failed, every committed record that no re-entry abandoned was handled or is in the dead-letter topic, unparseable records included |
| ConsumerProtocol.CreditOfStep | shared/fraud_common/kafka_utils.py:665-685 | One step never creates permission to handle an event except through a crash or re-entry after success, a failed check, a failed mark or a lapsed mark |
| ConsumerProtocol.HandledAtMostOncePlusMishaps | shared/fraud_common/kafka_utils.py:665-685 | With Redis, successful handlings of an event are at most 1 plus those mishaps, however often it is published, replayed or redelivered |
| ConsumerProtocol.CrashLoopState | shared/fraud_common/kafka_utils.py:677-685 | A crash between success and mark repeated n times leaves n handlings, n mishaps and the offset uncommitted |
| ConsumerProtocol.HandledBoundIsSharp | shared/fraud_common/kafka_utils.py:677-685 | For every n there is a run with n mishaps and n + 1 handlings |
| ConsumerProtocol.WithoutRedisTwiceHandled | shared/fraud_common/kafka_utils.py:742-743 | Without Redis two copies of one event are both handled though nothing went wrong |
| ConsumerProtocol.HandledBoundExactlyWithRedis | shared/fraud_common/kafka_utils.py:736-768 | The bound holds for every run and event if and only if Redis is configured or the handler is never called |
| ConsumerProtocol.MarksStayBounded | shared/fraud_common/kafka_utils.py:756-762 | In every run no mark outlives the present by more than the configured time to live |
| ConsumerProtocol.RunKeepsMarksAlive | shared/fraud_common/kafka_utils.py:756-762 | In every run with a positive time to live no mark outlives its expiry |
| ConsumerProtocol.ReplayWithinTtlNeverReachesHandler | shared/fraud_common/kafka_utils.py:395-457 | After an event is marked, no continuation of the run without a failed check calls the handler for it before the mark's expiry, whatever is replayed, published or crashed |
| ConsumerProtocol.RedeliveryReachesHandlerExactly | shared/fraud_common/kafka_utils.py:665-685 | For a delivery whose first attempt and commit go through: the event reaches the handler if and only if its mark lapsed, Redis is absent or the check fails; in both cases its offset is committed |
| ConsumerSpec.RetryOutcome | shared/fraud_common/kafka_utils.py:698-732 | For every number of retries and pattern of successes, failures and escapes: calls up to the first attempt that does not fail and at most `retries`, a dead-letter publish with that retry count exactly when all fail, total pause 0.5 * (2^k - 1) with k = retries - 1 on exhaustion, less what a cancellation cuts off the last pause |
| ConsumerSpec.DeliveryOutcome | shared/fraud_common/kafka_utils.py:665-732 | For every pattern of answers: handling begins if and only if Redis is absent, the check fails or no mark lives; the number of calls and the whole history it then leaves; otherwise history and marks stay and the offset is committed if check and commit work |
| ConsumerSpec.DeliveryLeaves | shared/fraud_common/kafka_utils.py:677-732 | Everything a delivery that begins leaves behind, for every pattern of answers: a mark of the event until the time to live from then, exactly when the delivery finished and Redis wrote it, and besides exactly the old marks still alive; the dead-letter entry; the moment; the committed offset and where control stands for every answer of mark and commit |
| ConsumerSpec.SkippedDeliveryLeaves | shared/fraud_common/kafka_utils.py:665-675 | A delivery that does not begin changes nothing but control and the committed offset |
| ConsumerSpec.BadRecordLeaves | shared/fraud_common/kafka_utils.py:640-663 | An unparseable record goes to the dead-letter topic under a fresh id with retry count 0 and is not committed; poison changes nothing |
| ConsumerSpec.HandledEventIsNotHandledAgain | shared/fraud_common/kafka_utils.py:665-685 | After a delivery that finished and was marked, and any continuation whatsoever, a delivery of the event before the time to live has passed, with a working check, adds nothing to the history |
| ConsumerSpec.ShutdownLeaves | shared/fraud_common/kafka_utils.py:618-620 | A record that arrives after a shutdown request is fetched and nothing else |
| ConsumerSpec.LoopMakesProgress | shared/fraud_common/kafka_utils.py:616-625 | While nothing escapes, commits work and no record is poison, the loop takes one record per answer as far as there are records, ends idle, and has committed all it took after a record that could be parsed |
| ConsumerSpec.LoopInPieces | shared/fraud_common/kafka_utils.py:618-621 | What the loop does with its first messages does not depend on the later ones; one message is received exactly when control is idle and a record is left |
| ConsumerSpec.LoopHandlesEverything | shared/fraud_common/kafka_utils.py:588-685 | At the end of such a loop, after any orderly past, every record it took was handled or sent to the dead-letter topic |
| ConsumerSpec.TriedIsRun | shared/fraud_common/kafka_utils.py:687-732 | The retry loop is a run of the delivery protocol |
| ConsumerSpec.ProcessedIsRun | shared/fraud_common/kafka_utils.py:634-685 | Processing one message is a run of the delivery protocol |
| ConsumerSpec.ConsumedIsRun | shared/fraud_common/kafka_utils.py:618-621 | The consume loop over any answers is a run of the delivery protocol |
| ConsumerSpec.LoopCommitsWhatIsCovered | shared/fraud_common/kafka_utils.py:588-685 | Whatever happened before and whatever the loop meets, what it leaves committed was handled, sent to the dead-letter topic, or abandoned by a re-entry, at this entry or an earlier one |
| ConsumerSpec.LoopDeliversAtLeastOnce | shared/fraud_common/kafka_utils.py:588-685 | After any past without such re-entries, the state the loop leaves satisfies at-least-once delivery |
| KafkaConsumer.FraudKafkaConsumer.Start | shared/fraud_common/kafka_utils.py:531-566 | A stopped consumer gets a fresh client that begins at the committed offset, or raises and stays stopped when a broker cannot be reached; a running one is left alone |
| KafkaConsumer.FraudKafkaConsumer.IsDuplicate | shared/fraud_common/kafka_utils.py:736-754 | True exactly when Redis is configured, answers, and holds a live mark; fails open; only a cancellation escapes |
| KafkaConsumer.FraudKafkaConsumer.MarkProcessed | shared/fraud_common/kafka_utils.py:756-768 | Writes one mark with the full time to live, or nothing when Redis is absent or fails; only a cancellation escapes |
| KafkaConsumer.FraudKafkaConsumer.SendToDlq | shared/fraud_common/kafka_utils.py:376-393 | Appends the entry when the publish succeeds; a Kafka error is swallowed; anything else escapes and leaves no trace |
| KafkaConsumer.FraudKafkaConsumer.Fail | shared/fraud_common/kafka_utils.py:705-717 | A failed attempt is followed by its pause, unless it was the last; a cancellation can cut the pause short |
| KafkaConsumer.FraudKafkaConsumer.HandleWithRetry | shared/fraud_common/kafka_utils.py:687-732 | The whole new state is the specified one; the number of attempts begun; something escapes exactly when control does not reach the end |
| KafkaConsumer.FraudKafkaConsumer.CommitOffsets | shared/fraud_common/kafka_utils.py:683-685 | Commits the position by hand and lets a failure escape; does nothing under auto-commit |
| KafkaConsumer.FraudKafkaConsumer.Conclude | shared/fraud_common/kafka_utils.py:680-685 | Marks, then commits; what escapes leaves control before the step it came from; `DeliveryLeaves` says what that means for marks and offset |
| KafkaConsumer.FraudKafkaConsumer.ProcessEvent | shared/fraud_common/kafka_utils.py:665-685 | The new state is the one that `DeliveryOutcome`, `DeliveryLeaves` and `SkippedDeliveryLeaves` describe; something escapes exactly when control does not return to idle |
| KafkaConsumer.FraudKafkaConsumer.ProcessMessage | shared/fraud_common/kafka_utils.py:634-685 | The same for parseable records, and `BadRecordLeaves` for unparseable and poison ones |
| KafkaConsumer.FraudKafkaConsumer.Receive | shared/fraud_common/kafka_utils.py:618-621 | A message that arrives after a shutdown request is fetched and not processed |
| KafkaConsumer.FraudKafkaConsumer.Consume | shared/fraud_common/kafka_utils.py:588-625 | Refuses to begin before start; otherwise ends in the specified state for every sequence of answers, so it refines the protocol; a cancellation ends it quietly, anything else that escapes is raised, and in both cases the consumer keeps running |
| Backoff.TotalPauseClosed | shared/fraud_common/kafka_utils.py:290-301 | The pauses after the first n failures add up to 0.5 * (2^n - 1) seconds |
| Backoff.FraudKafkaProducer.Publish | shared/fraud_common/kafka_utils.py:215-259 | Appends the message exactly when the producer is started and the broker accepts; which failures may be retried |
| Backoff.FraudKafkaProducer.PublishWithRetry | shared/fraud_common/kafka_utils.py:283-310 | Calls, total sleep and result for every failure pattern: stops at the first success or other error; on exhaustion has slept 0.5 * (2^n - 1) and raises the last error; the topic grows by at most one |
| DlqReplay.DLQHandler.Replay | shared/fraud_common/kafka_utils.py:425-467 | Puts back exactly the records whose republish succeeded, in order; replayed + failed = fetched; the committed position moves past both, or stays when the commit raises |
| DlqReplay.ReplayedPlusFailed | shared/fraud_common/kafka_utils.py:425-457 | Every fetched record is counted once, as replayed or as failed |
| DlqReplay.RepublishedExactly | shared/fraud_common/kafka_utils.py:429-450 | The record whose republish succeeded comes back under its own event id, right after the successes before it |
| DlqReplay.RoundEffect | shared/fraud_common/kafka_utils.py:427-457 | One replay, with its commit or without, has as a run of the protocol exactly the effect of the method |
| DlqReplay.FailedCommitRepublishes | shared/fraud_common/kafka_utils.py:427-457 | After a replay whose commit failed the next one puts the same records back a second time |
| DlqReplay.RoundsAdvance | shared/fraud_common/kafka_utils.py:395-467 | Any number of replays in any batch sizes equals one replay of the concatenated outcomes |
| DlqReplay.RoundsDrain | shared/fraud_common/kafka_utils.py:395-467 | Enough replays drain the topic: what is not back in the original topic failed and is not offered again |
| ReplayedEvent.ExhaustedEventIsMarked | shared/fraud_common/kafka_utils.py:677-681 | An event whose attempts all failed ends in the dead-letter topic and is marked as processed, after a failed duplicate check and before a failed commit too |
| ReplayedEvent.ReplayIsSwallowedWithinTtl | shared/fraud_common/kafka_utils.py:395-467 | An exhausted event that is met again after any continuation that does not mark it anew begins handling if and only if the time to live has passed since its mark or the check fails; otherwise neither history nor marks change |
| ReplayedEvent.ReplayBringsItBack | shared/fraud_common/kafka_utils.py:427-457 | Replaying the whole dead-letter topic, whatever waits before the event, is such a continuation, and brings the event back to the end of the original topic if its own republish works |
| EventEnvelope.EnvelopeRoundTrip | shared/fraud_common/kafka_utils.py:92-122 | Decoding an encoded envelope gives its normal form; normalising is idempotent and invisible to encoding |
| EventEnvelope.DecodingIsStable | shared/fraud_common/kafka_utils.py:106-122 | A JSON value decodes if and only if it is an object with the four required keys, and then encoding and decoding again gives its normal form |
| EventEnvelope.WireForm | shared/fraud_common/kafka_utils.py:92-122 | Which key carries which field in both directions, the defaults, and which error a value gives: TypeError for what is no object, otherwise the first missing one of the four keys in the order of the constructor call |
| EventEnvelope.DeadLetterCarries | shared/fraud_common/kafka_utils.py:363-375 | The encoded dead letter names topic, error, attempts and moment, carries the whole encoded event, and shares its correlation id, or its event id |
| EventEnvelope.DlqRoundTrip | shared/fraud_common/kafka_utils.py:363-447 | Wrapping for the dead-letter topic and unwrapping on replay gives the normalised event, for every payload |
| EventEnvelope.UnwrapExactly | shared/fraud_common/kafka_utils.py:432-447 | A record is replayed if and only if what it wraps, or the record itself if it wraps nothing, is an object with a type and a source; a missing event id or timestamp is made afresh, every other field is kept |
| EventEnvelope.ReplayKeepsEventId | shared/fraud_common/kafka_utils.py:432-449 | The consumer decodes the same event id from the replayed record |
| EventEnvelope.KeyRoundTrip | shared/fraud_common/kafka_utils.py:726-732 | A key that is not empty survives dead-lettering and replay; a missing one becomes the event id |
| LeaseLock.StepKeepsInv | shared/fraud_common/redis_utils.py:477-614 | Every step keeps: tokens are distinct, and an instance with a token and an unexpired lease owns the stored entry with that very expiry |
| LeaseLock.HolderIsUnique | shared/fraud_common/redis_utils.py:477-552 | In every run at most one instance's token equals the live stored value |
| LeaseLock.HoldsExactly | shared/fraud_common/redis_utils.py:512-614 | In every run an instance holds the lock if and only if it keeps a token and its lease, from the last acquire or successful extension, has not ended |
| LeaseLock.MutualExclusion | shared/fraud_common/redis_utils.py:512-628 | Two clients are inside together only if one has stayed beyond its own lease |
| LeaseLock.PunctualRunsAreExclusive | shared/fraud_common/redis_utils.py:512-628 | If every client leaves before its lease ends, no two are ever inside together |
| LeaseLock.OverstayingBreaksExclusion | shared/fraud_common/redis_utils.py:523-528 | From every reachable state with somebody inside and no live key, the next acquire by another client puts two inside |
| LeaseLock.StayingTooLongFreesTheKey | shared/fraud_common/redis_utils.py:523-528 | Every client inside its lease comes into such a state by staying until the lease ends |
| LeaseLock.OthersNeverTouchTheHolder | shared/fraud_common/redis_utils.py:477-492 | A stale release, a stale extension or a failed acquire by anyone else leaves the holder's key and expiry alone, in every run |
| LeaseLock.AcquireSucceedsExactlyWhenFree | shared/fraud_common/redis_utils.py:520-537 | One attempt succeeds if and only if no live key is stored, and otherwise changes nothing |
| LeaseLock.LapsedLeaseIsFree | shared/fraud_common/redis_utils.py:523-528 | Once the stored expiry has passed any instance can acquire, whatever became of the holder |
| LeaseLock.ReleaseFreesExactly | shared/fraud_common/redis_utils.py:477-483 | A holder's release frees the key at once, anyone else's leaves it; the token is forgotten and no other instance changes |
| LeaseLock.ExtendRenewsExactly | shared/fraud_common/redis_utils.py:486-492 | A holder's extension runs for exactly the given seconds from now, one that is not positive gives the key up, anyone else's changes nothing |
| LeaseLock.HoldingImpliesIsLocked | shared/fraud_common/redis_utils.py:611-614 | In every run a holder reports `is_locked`, and an instance reports it without holding if and only if it has a token whose lease has ended |
| LeaseLock.IsLockedDoesNotImplyHolding | shared/fraud_common/redis_utils.py:611-614 | From every reachable state, a holder that does nothing until its lease ends reports `is_locked` without holding |
| DistributedLocks.DistributedLock.TrySet | shared/fraud_common/redis_utils.py:523-537 | One attempt stores the token for the time to live if and only if no live key is stored, and otherwise changes nothing |
| DistributedLocks.DistributedLock.Acquire | shared/fraud_common/redis_utils.py:512-552 | With others acting between attempts: acquires if and only if some attempt finds no live key, in the world after the others' actions and pauses up to it, and then at the first such attempt, with this call's token and a full lease; otherwise the world is that after all pauses and the old token is kept; a free key and one attempt always suffice; the world moves by a run of the lock protocol |
| DistributedLocks.DistributedLock.Release | shared/fraud_common/redis_utils.py:554-579 | True exactly when this instance held; the key is deleted exactly then; the token is forgotten either way |
| DistributedLocks.DistributedLock.Extend | shared/fraud_common/redis_utils.py:581-609 | True exactly when this instance held; then the key expires the given seconds from now, or the original time to live for a missing or zero argument; a negative one deletes it; otherwise nothing changes |
| VelocityCounters.HoldsEventsBeyondHorizon | shared/fraud_common/redis_utils.py:333-416 | For any mixture of calls and windows the set holds exactly the recorded events later than the horizon, the latest bound at which anything was discarded |
| VelocityCounters.CountAgainstWindow | shared/fraud_common/redis_utils.py:381-416 | The count never exceeds the true window count, and equals it if and only if no event lies between the window's start and the horizon |
| VelocityCounters.SingleWindowHorizon | shared/fraud_common/redis_utils.py:357-368 | With a single window the horizon is the window's own start, so the expiry at window + 60 is never observable |
| VelocityCounters.SingleWindowIsExact | shared/fraud_common/redis_utils.py:337-416 | With one window per entity the set is exactly the window |
| VelocityCounters.MixedWindowsUndercount | shared/fraud_common/redis_utils.py:333-335 | A query for 60 seconds makes a later query for 3600 seconds miss an event |
| VelocityCounters.VelocityCounter.Increment | shared/fraud_common/redis_utils.py:337-379 | Returns the number of recorded events beyond the horizon, the new one included |
| VelocityCounters.VelocityCounter.GetCount | shared/fraud_common/redis_utils.py:381-416 | Returns the number of recorded events beyond the horizon |
| VelocityCounters.VelocityCounter.CheckThreshold | shared/fraud_common/redis_utils.py:418-447 | True if and only if that number reaches the threshold |
| RateLimiting.HoldsTheWindow | services/api-gateway/app/middleware/rate_limiter.py:68-82 | The sorted set is exactly the set of distinct attempt timestamps in (now - w, now], rejected attempts included |
| RateLimiting.WindowAdmitsAtMostLimit | services/api-gateway/app/middleware/rate_limiter.py:84-97 | Any interval of one window length admits at most `limit` distinct timestamps |
| RateLimiting.SilenceReadmits | services/api-gateway/app/middleware/rate_limiter.py:75-97 | After a silent window a client is admitted, if the limit admits anyone |
| RateLimiting.SameInstantCountsOnce | services/api-gateway/app/middleware/rate_limiter.py:77-79 | Any number of requests at one timestamp is admitted |
| RateLimiting.RejectedExactly | services/api-gateway/app/middleware/rate_limiter.py:87-95 | For all histories, repeated timestamps included: an attempt is rejected if and only if the distinct timestamp `limit` places before it is still in the window |
| RateLimiting.OverloadIsNeverReadmitted | services/api-gateway/app/middleware/rate_limiter.py:77-95 | A client that keeps sending too fast is admitted at its first `limit` distinct timestamps and never again, however often it repeats them |
| RateLimiting.ReadmittedExactly | services/api-gateway/app/middleware/rate_limiter.py:73-97 | A rejected client that tries again after any wait is admitted if and only if the distinct timestamp `limit` - 1 places before the rejected one has left the window by then |
| RateLimiting.RetryAfterSufficesExactly | services/api-gateway/app/middleware/rate_limiter.py:87-95 | Following the advice to retry after one second works if and only if at most a second of the window is left for that timestamp; always for windows up to a second |
| RateLimiting.RetryAfterFails | services/api-gateway/app/middleware/rate_limiter.py:87-95 | For every limit and every window longer than a second there is a client that follows the advice and is rejected again |
| RateLimiting.HoldsBeyondHorizon | services/api-gateway/app/middleware/rate_limiter.py:68-82 | When calls for one client name different windows, the set is exactly the distinct timestamps later than the latest bound at which any call discarded some |
| RateLimiting.SingleWindowExact | services/api-gateway/app/middleware/rate_limiter.py:68-82 | With one window per client that bound is the start of the window |
| RateLimiting.RateLimiter.CheckRateLimit | services/api-gateway/app/middleware/rate_limiter.py:42-102 | Admits exactly when at most `limit` distinct timestamps lie beyond the horizon, which for a single window is the window; the remaining quota; `retry_after` is 1 on rejection; everything is admitted when Redis is absent or fails |
| FixedWindow.CounterMeaning | services/rule-engine/redis_client.py:22-38 | Whatever rules, windows and limits share the key, the count is exactly the number of checks since the key was created, and the key lives for the window of the rule that created it |
| FixedWindow.CountAgainstSliding | services/rule-engine/redis_client.py:22-38 | The count is at most that of the checking rule's own sliding window if and only if the key is younger than that window; then it misses exactly the window's checks before the key, otherwise it exceeds by exactly the checks since the key that have left the window |
| FixedWindow.FlaggedExactly | services/rule-engine/redis_client.py:22-38 | A check is flagged if and only if more than `limit` checks came since the key was created; it is flagged falsely, or passes though over its limit, exactly when the limit lies between the two counts |
| FixedWindow.FlaggedIsTrulyOver | services/rule-engine/redis_client.py:22-38 | A check flagged under a key younger than its own window has more than `limit` checks in the true sliding window |
| FixedWindow.OneWindowKeysAreYoung | services/rule-engine/redis_client.py:22-38 | Which every key is when all rules on it have one window |
| FixedWindow.LongerWindowFlagsFalsely | services/rule-engine/redis_client.py:22-38 | With a longer window on the same key it fails: for all windows long > short, a second check with limit 1, alone in its own window, is flagged |
| FixedWindow.UnflaggedAtMostTwiceLimit | services/rule-engine/redis_client.py:22-38 | As long as no rule on the key has a window shorter than w, any half-open interval of length w holds at most 2 * limit - 1 unflagged checks of rules with that limit or less (none for limit 0) |
| FixedWindow.TwiceLimitIsReached | services/rule-engine/redis_client.py:22-38 | For every limit and window there is a history of one rule that reaches that bound, in the interval from the middle of a key's life on |
| FixedWindow.ShortWindowsLetMoreThrough | services/rule-engine/redis_client.py:22-38 | A rule with a shorter window on the same key lifts the bound: for every n there is a history with n + 1 unflagged checks of a rule with limit 2 within its own window |
| FixedWindow.LostExpireCountsForEver | services/rule-engine/redis_client.py:32-36 | If EXPIRE is lost after the first INCR the counter never resets |
| VelocityAggregation.KeysMeaning | services/stream-processor/app/velocity/aggregator.py:59-80 | The sorted set is the true window; sum, merchants and countries are those of the longest suffix whose gaps are all below the window plus ten seconds |
| VelocityAggregation.SnapshotExactly | services/stream-processor/app/velocity/aggregator.py:82-133 | All five figures of a snapshot in those terms |
| VelocityAggregation.SnapshotAgainstWindow | services/stream-processor/app/velocity/aggregator.py:57-133 | Count and maximum are exact; distinct counts, and for non-negative amounts the sum, are never below the window's |
| VelocityAggregation.SnapshotExcess | services/stream-processor/app/velocity/aggregator.py:59-80 | What sum, merchants and countries report beyond the true window is exactly what has aged out of it within the burst |
| VelocityAggregation.SumIsWindowExactly | services/stream-processor/app/velocity/aggregator.py:68-70 | For non-negative amounts the reported sum is the window's if and only if only zero amounts aged out; for positive amounts, if and only if the burst is the window |
| VelocityAggregation.SnapshotIsWindowExactly | services/stream-processor/app/velocity/aggregator.py:59-133 | The sum is the window's if and only if only zero amounts aged out; the distinct counts are if and only if every merchant, or country, that aged out is still in the window |
| VelocityAggregation.WindowInBurst | services/stream-processor/app/velocity/aggregator.py:64-78 | The true window is a suffix of the burst |
| VelocityAggregation.SnapshotsNest | services/stream-processor/app/velocity/aggregator.py:57-133 | With non-negative amounts all five figures are non-decreasing in the window |
| VelocityAggregation.SumOutgrowsWindow | services/stream-processor/app/velocity/aggregator.py:68-70 | For every n and window there is a history with one transaction in the window and a reported sum of n + 1 |
| VelocityAggregation.LargestIsMaximum | services/stream-processor/app/velocity/aggregator.py:98-109 | The maximum figure is 0 or one of the amounts, and no amount exceeds it |
| VelocityAggregation.ProfileRead | services/customer-profile/app/api/endpoints.py:55-69 | Reading the keys unpruned at a later time under-counts nothing, over-counts only transactions that aged out since the last one, and its sum is at least the window's |
| VelocityAggregation.VelocityAggregator.ParseMax | services/stream-processor/app/velocity/aggregator.py:98-109 | Returns the larger of 0 and the largest listed amount |
| VelocityAggregation.VelocityAggregator.Record | services/stream-processor/app/velocity/aggregator.py:59-80 | The pipeline updates the keys of all four windows and of no other |
| VelocityAggregation.VelocityAggregator.Read | services/stream-processor/app/velocity/aggregator.py:82-133 | One view per window, read from its own keys |
| VelocityAggregation.VelocityAggregator.ProcessTransaction | services/stream-processor/app/velocity/aggregator.py:48-133 | Each of the four views is what `SnapshotExactly` states of the whole history |
| VelocityAggregation.VelocityAggregator.Snapshot | services/stream-processor/app/velocity/aggregator.py:111-133 | The four published sets of figures are those of 60, 300, 3600 and 86400 seconds |
| FourCounters.CountersCompared | services/stream-processor/app/velocity/aggregator.py:62-85 | On one history and one window: velocity counter and aggregator report the sliding count; the rate limiter does if and only if no two events of the window share a timestamp, the fixed-window counter if and only if no event of the window precedes its key; both report less otherwise |
| FraudGraph.RingExactly | services/graph-analysis/app/neo4j_client.py:75-87 | The computed ring is the set of cards that the four-edge path pattern reaches |
| FraudGraph.EdgesOfBuild | services/graph-analysis/app/neo4j_client.py:15-35 | The edges of a reachable graph are exactly the pairs its transactions name |
| FraudGraph.ScoreNeverFalls | services/graph-analysis/app/service.py:44-98 | For a fixed card, device and address neither the ring nor the score ever shrinks as transactions arrive |
| FraudGraph.OrderAndRepetitionDoNotMatter | services/graph-analysis/app/neo4j_client.py:18-35 | Edges, ring and score depend only on the set of transactions added |
| FraudGraph.RingIsSymmetric | services/graph-analysis/app/neo4j_client.py:75-87 | One card is in another's ring if and only if the reverse holds |
| FraudGraph.SharingAndClusterForceRing | services/graph-analysis/app/service.py:49-98 | In every reachable graph, if both the device and the address signal fire for an added transaction then so does the ring |
| FraudGraph.PossibleScores | services/graph-analysis/app/service.py:49-98 | So the score 0.7 never occurs, and the score is 1 exactly when device and address both fire |
| FraudGraph.ScoresExactly | services/graph-analysis/app/service.py:49-98 | A score occurs for some added transaction if and only if it is one of the seven 0, 0.3, 0.4, 0.5, 0.8, 0.9 and 1 |
| FraudGraph.ScoreOfTransactions | services/graph-analysis/app/neo4j_client.py:49-87 | The score depends on the transactions alone: another card on the device, another device at the address, and a card linked by two bridged devices |
| FraudGraph.ScoreSaysExactly | services/graph-analysis/app/service.py:49-98 | For every added transaction the score is 0.4 if and only if only its device is shared, 0.3 if and only if only its address is, 0.5 if and only if it is only in a ring, 0.8 and 0.9 for address or device with a ring, 1 for device and address, 0 for none |
| FraudGraph.QueriesExactly | services/graph-analysis/app/neo4j_client.py:49-73 | The cards on a device and the devices at an address are exactly those that some transaction names there |
| FraudGraph.PatternsExactly | services/graph-analysis/app/service.py:51-98 | Each kind of pattern is reported exactly when its signal fires, once, with exactly the entities behind it; a shared device is of high severity from four cards on |
| FraudGraph.Neo4jClient.AddTransactionToGraph | services/graph-analysis/app/neo4j_client.py:15-47 | Merges two edges and records the transaction |
| FraudGraph.Assess | services/graph-analysis/app/service.py:49-110 | Score, patterns and entity count are those of the graph queried; `ScoreSaysExactly` and `PatternsExactly` say which those are |
| FraudGraph.AnalyzeGraph | services/graph-analysis/app/service.py:18-110 | Writes before it queries; the score says, as in `ScoreSaysExactly`, which signals fire among the transactions with this one; empty when the write fails, raises without a write for a bad timestamp and with it when a query fails, and never reports 0.7 |
| RuleEvaluation.EvaluationMeaning | services/rule-engine/evaluator.py:13-46 | The accumulating loop reports exactly the matched rules up to and including the first critical match, skips raising ones, and scores the sum capped at 1 |
| RuleEvaluation.LoopIsWalk | services/rule-engine/evaluator.py:19-43 | From any intermediate state the loop goes on as the recursive walk does |
| RuleEvaluation.WalkStopsAtFirstCritical | services/rule-engine/evaluator.py:41-43 | The judged rules are a prefix of the rules, in order, shortened only by a critical match |
| RuleEvaluation.ConditionExactly | services/rule-engine/evaluator.py:58-89 | For all contexts: two numbers match if and only if the operator's relation holds of them, two strings if and only if it holds in their order; a missing field or value does not match; a missing field name, and ordering a number against a string, raise; other operators never match |
| RuleEvaluation.StrLessExactly | services/rule-engine/evaluator.py:75-86 | The order on strings decides at the first difference, a proper prefix being smaller |
| RuleEvaluation.StrLessIsTotal | services/rule-engine/evaluator.py:75-86 | Of two strings exactly one is smaller, unless they are equal |
| RuleEvaluation.StrLessIsTransitive | services/rule-engine/evaluator.py:75-86 | The order on strings is transitive |
| RuleEvaluation.VelocityExactly | services/rule-engine/evaluator.py:91-105 | A velocity condition without an entity raises, without a value does not match; the counter moves by one unless INCR fails, and it matches if and only if the count then exceeds the limit; a lost EXPIRE raises and leaves no expiry; unknown conditions never match |
| RuleEvaluation.KeyExactly | services/rule-engine/redis_client.py:27-27 | Rules count under one key if and only if they name the same field and the context has a value there that is neither empty nor zero |
| RuleEvaluation.NumericRulesTriggered | services/rule-engine/evaluator.py:19-43 | A judged rule that compares numbers is triggered if and only if they satisfy its relation, and all rules are judged unless a critical one is triggered |
| RuleEvaluation.CriticalIsLast | services/rule-engine/evaluator.py:41-43 | Only the last reported rule can be critical |
| RuleEvaluation.PermutedWeight | services/rule-engine/evaluator.py:38-39 | Permuting judged rules changes neither the sum of contributions nor the multiset of matches |
| RuleEvaluation.OrderDoesNotMatterWithoutStop | services/rule-engine/evaluator.py:38-45 | With outcomes fixed and no critical match, any order of the judged rules gives the same score and the same reported rules |
| RuleEvaluation.OrderDoesNotMatter | services/rule-engine/db.py:28-48 | While Redis works, no two rules share a counter and no critical rule matches, any permutation of the rules gives the same score, the same reported rules and the same counters |
| RuleEvaluation.WalkIsJudgeAll | services/rule-engine/evaluator.py:19-39 | Under those conditions each rule is judged as if it were alone and each counter moves once |
| RuleEvaluation.WalkOutcomes | services/rule-engine/evaluator.py:19-39 | While Redis works and no rule is critical, shared counters included, a velocity rule matches if and only if the live count plus the rules on its counter up to itself exceeds its limit |
| RuleEvaluation.OrderMattersExactly | services/rule-engine/db.py:28-48 | With no velocity rule listed twice, every permutation reports the same rules if and only if for each velocity rule live count + 1 exceeds its limit or live count + rules on its counter does not |
| RuleEvaluation.DecidedOrderDoesNotMatter | services/rule-engine/evaluator.py:19-45 | Under that condition the score does not depend on the order either |
| RuleEvaluation.SharedKeyMakesOrderMatter | services/rule-engine/redis_client.py:27-38 | An instance of it: rules with limits 0 and 1 on one fresh counter score 0.5 in one order and 0.25 in the other |
| RuleEvaluation.CriticalFloor | services/rule-engine/evaluator.py:41-45 | With a critical match and non-negative contributions the score is, in every order, at least the smallest critical contribution or 1 |
| RuleEvaluation.ScoreInUnitInterval | services/rule-engine/evaluator.py:45-45 | Non-negative contributions give a score in [0, 1] |
| RuleEvaluation.OneIncrementPerRule | services/rule-engine/evaluator.py:91-105 | One transaction moves a counter once per judged velocity rule on its entity |
| RuleEvaluation.RuleEvaluator.CheckVelocity | services/rule-engine/redis_client.py:22-38 | The counter after INCR and EXPIRE, and after either of them fails |
| RuleEvaluation.RuleEvaluator.EvaluateRule | services/rule-engine/evaluator.py:48-105 | Outcome and counters for simple, velocity and unknown conditions, raising included, which `ConditionExactly` and `VelocityExactly` say in full |
| RuleEvaluation.RuleEvaluator.EvaluateTransaction | services/rule-engine/evaluator.py:13-46 | The loop's result and counters are those of the walk; only the last reported rule is critical, and if none is, every rule that compares numbers is reported if and only if they satisfy its relation |
| ScoreAggregation.DecisionIsMonotone | services/fraud-orchestrator/app/orchestrator/score_aggregator.py:69-148 | Raising any engine score never makes the decision more lenient, for all accepted weights and thresholds in any order |
| ScoreAggregation.AggregateExactly | services/fraud-orchestrator/app/orchestrator/score_aggregator.py:69-114 | For all scores and weights: raises if and only if a score lies outside [0, 1] or the weights miss 1 by more than 0.01; otherwise, for accepted weights, the weighted sum cut off at 1 |
| ScoreAggregation.DecisionExactly | services/fraud-orchestrator/app/orchestrator/score_aggregator.py:141-148 | For thresholds in any order, each decision is reached if and only if the score is above all earlier thresholds and not above its own |
| ScoreAggregation.ReviewIsReachableExactly | services/fraud-orchestrator/app/orchestrator/score_aggregator.py:141-148 | For thresholds and scores in [0, 1]: REVIEW, DECLINE and BLOCK are reachable if and only if their threshold (1 for BLOCK) exceeds all earlier ones; APPROVE always is |
| ScoreAggregation.DecideExactly | services/fraud-orchestrator/app/main.py:72-86 | With the shipped weights deciding raises exactly when an engine answers outside [0, 1], and otherwise the score is the plain weighted sum |
| ScoreAggregation.ShippedDecision | services/fraud-orchestrator/app/main.py:76-86 | For all valid replies with x = 0.4 rule + 0.4 ml + 0.2 graph: APPROVE iff x <= 0.30, REVIEW iff 0.30 < x <= 0.60, DECLINE iff 0.60 < x <= 0.85, BLOCK iff x > 0.85 |
| ScoreAggregation.RuleReachExactly | services/fraud-orchestrator/app/main.py:76-86 | A rule score allows APPROVE iff it is at most 0.75, REVIEW always, DECLINE iff it is not 0, BLOCK iff it exceeds 0.625 |
| ScoreAggregation.MlReachExactly | services/fraud-orchestrator/app/main.py:76-86 | The same for a model score |
| ScoreAggregation.GraphReachExactly | services/fraud-orchestrator/app/main.py:76-86 | A graph score allows every decision but BLOCK, which it allows iff it exceeds 0.25 |
| ScoreAggregation.BlockNeedsEveryEngine | services/fraud-orchestrator/app/main.py:78-88 | Exactly the rule and model scores above 0.625 and graph scores above 0.25 can be part of a BLOCK |
| ScoreAggregation.FailedEnginesLimitTheDecision | services/fraud-orchestrator/app/grpc_clients/clients.py:46-86 | A failed engine rules out BLOCK; rule or model alone is at most REVIEW; graph alone is APPROVE |
| ScoreAggregation.RepliesCount | services/fraud-orchestrator/app/grpc_clients/clients.py:46-86 | An engine that was not reached counts as 0, one that answered as its answer, the history always as 0 |
| ScoreAggregation.MetricsAgreeWithEvents | services/fraud-orchestrator/app/main.py:109-119 | While Redis works and every amount converts, the counters equal the numbers of published, blocked, and blocked or reviewed events; declined ones are not counted as fraud |
| ScoreAggregation.MetricsNeverRunAhead | services/fraud-orchestrator/app/main.py:109-121 | With Redis failing between any two commands, or an amount that does not convert, no counter exceeds its number of published events |
| ScoreAggregation.OrchestratorApp.Count | services/fraud-orchestrator/app/main.py:109-121 | The metrics after the commands that went through |
| ScoreAggregation.OrchestratorApp.Consume | services/fraud-orchestrator/app/main.py:56-124 | Publishes up to the first fatal message, and stops exactly if there is one; every event carries the shipped decision for the score it carries |
| ScoreAggregation.NothingAfterAFatalMessage | services/fraud-orchestrator/app/main.py:121-124 | One malformed value, out-of-range score or failed publish ends the loop: nothing later is published |
| ScoreAggregation.PublishedExactly | services/fraud-orchestrator/app/main.py:88-104 | The event of a transaction, in its place among the others, carries its id, 40 rule + 40 ml + 20 graph, and the decision for that; an empty payload leaves no event |
| ScoreAggregation.FatalExactly | services/fraud-orchestrator/app/main.py:59-124 | A message ends the loop if and only if it is malformed, or an engine answered outside [0, 1], or its event cannot be published |
| EndToEnd.BlockHasReasons | services/fraud-orchestrator/app/main.py:72-88 | A BLOCK means the graph service reported a pattern and the triggered rules' contributions exceed 0.625 |
| EndToEnd.DecisionNeverRaises | services/fraud-orchestrator/app/main.py:72-86 | With non-negative contributions and a model score in [0, 1] aggregation never raises, for every graph and rule outcome |
| NotificationDispatch.StepKeepsInv | services/notification-service/app/dispatcher.py:30-36 | Every step of every worker keeps: passes in this key lifetime plus workers between read and write are at most the workers |
| NotificationDispatch.AtMostOnePassPerWorker | services/notification-service/app/dispatcher.py:30-36 | In every run of m workers at most m dispatches of an alert pass per key lifetime |
| NotificationDispatch.ExclusiveExactlyForOneWorker | services/notification-service/app/dispatcher.py:30-36 | The pass is exclusive in every run if and only if there is at most one worker |
| NotificationDispatch.EveryPassIsAccountedFor | services/notification-service/app/dispatcher.py:30-104 | In every run of any number of workers, for each channel: passes = accepted by it + refused by it + still on their way to it + lost to a crash before it |
| NotificationDispatch.AlertIsLostExactly | services/notification-service/app/dispatcher.py:30-104 | Once no dispatch is on its way to a channel, the channel accepted every pass if and only if it refused none and no worker crashed before it; it accepted nothing if and only if each pass was refused by it or lost before it |
| NotificationDispatch.CrashAfterWriteLosesTheAlert | services/notification-service/app/dispatcher.py:36-104 | After any run that leaves nobody inside, what a channel refused or never got stays so for as long as the key lives, whatever comes |
| NotificationDispatch.FirstDispatchDecides | services/notification-service/app/dispatcher.py:30-104 | Whatever the channels answered the first worker that passed, and after however many of them it crashed, is all the recipient gets for 24 hours, in every run of any workers that follows |
| NotificationDispatch.AfterTheDayItIsSentAgain | services/notification-service/app/dispatcher.py:30-36 | A second dispatch hands nothing out before 86400 seconds have passed, and everything after |
| NotificationDispatch.TheLossIsReachable | services/notification-service/app/dispatcher.py:30-52 | In particular a crash right after the write: no channel is handed anything |
| NotificationDispatch.RefusalLosesTheAlert | services/notification-service/app/dispatcher.py:89-104 | And without any crash: channels that all refuse, once each, and are never asked again within 24 hours |
| NotificationDispatch.DeliveriesExactly | services/notification-service/app/dispatcher.py:52-102 | One dispatch hands the message to the channels in order, each with its own answer, up to the first failing commit; the channel counts if that was its second |
| NotificationDispatch.ChannelsExactly | services/notification-service/app/dispatcher.py:39-45 | E-mail first and always, SMS for CRITICAL only, Slack from HIGH on, the webhook from MEDIUM on, each once |
| NotificationDispatch.DispatchIsRun | services/notification-service/app/dispatcher.py:24-104 | One dispatch by an idle worker is a run of the protocol: up to a failing Redis, a live key, or a commit that fails before or after a channel was handed the message |
| NotificationDispatch.NotificationDispatcher.Dispatch | services/notification-service/app/dispatcher.py:24-104 | Skips exactly on a live key; raises without a change when Redis fails; otherwise writes the key and leaves one final row per channel in order, up to a failing commit, which raises and leaves at most one PENDING row; key and messages handed out are those of the protocol run, for every protocol state that agrees with the dispatcher |
| NotificationDispatch.NotificationDispatcher.ServeAll | services/notification-service/app/dispatcher.py:52-104 | The rows, and the messages handed to the channels, up to a failing commit; other alerts are untouched |
| NotificationDispatch.NotificationDispatcher.Serve | services/notification-service/app/dispatcher.py:52-102 | One channel from PENDING to the row its delivery calls for, status and attempt set separately; the message is handed out exactly if the first commit succeeds; raises exactly when a commit fails |
| NotificationDispatch.RowsAreFinal | services/notification-service/app/dispatcher.py:89-104 | After a normal return every row is SENT or FAILED, its attempt says the same, it is SENT exactly when the channel accepted, and it carries an error exactly when the channel raised |

## Left out

- Several partitions or topics per consumer, group rebalancing and log retention; a restarted consumer begins at the committed offset.
- FraudGraph.AnalyzeGraph: texts, severities other than that of device sharing, confidences and edge counts of patterns are left out.
- RuleEvaluation.RuleEvaluator.EvaluateRule: values are numbers and strings; a boolean compares as the number 0 or 1; lists, nested messages and descriptions are left out.
- ScoreAggregation.OrchestratorApp.Consume: the volume counter and the other fields of the event are left out; an offset that the client auto-commits is not part of this model.
- NotificationDispatch.NotificationDispatcher.Dispatch: message texts and timestamps of rows are left out; a channel that raises counts as refusing, and a Redis write that fails as not done.
- DlqReplay.DLQHandler.Replay: the batch that the broker returns is a parameter; an entry that cannot be unwrapped counts as one whose republish failed.
- JSON text and UTF-8 encoding: values are structured; event ids are strings where they serve as keys.
- Pipelines that fail half way, other than INCR and EXPIRE of the rule engine, which are two commands.
- The text form `amount:uuid` of sorted-set members: members are structured, so no entry of `parse_max` fails to parse.
- Network delay of lock commands: a lease begins when Redis executes the command.
- HyperLogLog error, clock skew between hosts and floating-point rounding.
- Key caching, connection pools, start and stop of clients other than the flags of producer and consumer.
- `ThresholdEvaluator`, alert and case management, dashboards, the SSE queues, JWT, hashing and the machine-learning service.
