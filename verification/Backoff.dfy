/** The exponential back-off shared by the producer and the consumer, and the producer's
    retry loop. */
module Backoff {
  import opened Prelude

  const BASE_SECONDS: Time := 0.5

  function Pow2(n: nat): (p: nat)
    ensures p >= 1
  {
    if n == 0 then 1 else 2 * Pow2(n - 1)
  }

  /** The pause after failed attempt number `attempt`. */
  function Pause(attempt: nat): Time
    requires attempt >= 1
  {
    BASE_SECONDS * Pow2(attempt - 1) as real
  }

  /** The pauses after attempts 1 to `count` together. */
  function TotalPause(count: nat): Time {
    if count == 0 then 0.0 else TotalPause(count - 1) + Pause(count)
  }

  lemma {:induction false} TotalPauseClosed(count: nat)
    ensures TotalPause(count) == 0.5 * (Pow2(count) - 1) as real
  {
    if count > 0 { TotalPauseClosed(count - 1); }
  }

  /** How one `publish` call ends: sent, failed in a way worth retrying (a Kafka or OS
      error), or failed with any other exception. */
  datatype PublishOutcome = Sent | Transient(error: string) | Fatal(error: string)

  datatype PublishResult = Published | Raised(error: string) | RaisedNone

  /** How many of the first `n` outcomes are transient before the first that is not. */
  function Transients(outcomes: seq<PublishOutcome>, n: nat): (k: nat)
    requires n <= |outcomes|
    ensures k <= n
    ensures forall i | 0 <= i < k :: outcomes[i].Transient?
    ensures k < n ==> !outcomes[k].Transient?
  {
    if n == 0 then 0
    else
      var k := Transients(outcomes, n - 1);
      if k == n - 1 && outcomes[k].Transient? then n else k
  }

  class FraudKafkaProducer {
    var started: bool
    /** The messages the broker has accepted, in order. */
    var topic: seq<string>

    constructor ()
      ensures !started && topic == []
    {
      started, topic := false, [];
    }

    method Start()
      modifies this`started
      ensures started
    {
      started := true;
    }

    method Stop()
      modifies this`started
      ensures !started
    {
      started := false;
    }

    method Publish(message: string, outcome: PublishOutcome) returns (result: PublishResult, retryable: bool)
      modifies this`topic
      ensures topic == if started && outcome.Sent? then old(topic) + [message] else old(topic)
      ensures result.Published? <==> started && outcome.Sent?
      ensures retryable <==> started && outcome.Transient?
      ensures started && !outcome.Sent? ==> result == Raised(outcome.error)
      ensures !started ==> result == Raised("not started")
    {
      if !started { return Raised("not started"), false; }
      match outcome
      case Sent =>
        topic := topic + [message];
        return Published, false;
      case Transient(error) => return Raised(error), true;
      case Fatal(error) => return Raised(error), false;
    }

    /** Retries transient failures at most `maxRetries` times.  The pause after the last
        failure is still slept before the last error is raised again. */
    method PublishWithRetry(message: string, outcomes: seq<PublishOutcome>, maxRetries: nat)
      returns (result: PublishResult, calls: nat, slept: Time)
      requires |outcomes| >= maxRetries
      modifies this`topic
      ensures var k := Transients(outcomes, maxRetries);
              && (topic == if result.Published? then old(topic) + [message] else old(topic))
              && (started && k < maxRetries ==>
                   && calls == k + 1 && slept == 0.5 * (Pow2(k) - 1) as real
                   && result == if outcomes[k].Sent? then Published else Raised(outcomes[k].error))
              && (started && 1 <= maxRetries == k ==>
                   && calls == maxRetries && slept == 0.5 * (Pow2(maxRetries) - 1) as real
                   && result == Raised(outcomes[maxRetries - 1].error))
      ensures maxRetries == 0 ==> result == RaisedNone && calls == 0
      ensures !started && maxRetries > 0 ==> result == Raised("not started") && calls == 1 && slept == 0.0
    {
      result, calls, slept := RaisedNone, 0, 0.0;
      for attempt := 1 to maxRetries + 1
        invariant calls == attempt - 1 && slept == TotalPause(attempt - 1)
        invariant topic == old(topic)
        invariant attempt > 1 ==> started
        invariant Transients(outcomes, attempt - 1) == attempt - 1
        invariant result == if attempt == 1 then RaisedNone else Raised(outcomes[attempt - 2].error)
      {
        var r, retryable := Publish(message, outcomes[attempt - 1]);
        calls := calls + 1;
        if !retryable {
          TotalPauseClosed(attempt - 1);
          if started { TransientsStop(outcomes, attempt - 1, maxRetries); }
          return r, calls, slept;
        }
        result := r;
        slept := slept + Pause(attempt);
      }
      TotalPauseClosed(maxRetries);
    }
  }

  lemma {:induction false} TransientsStop(outcomes: seq<PublishOutcome>, k: nat, n: nat)
    requires k < n <= |outcomes|
    requires Transients(outcomes, k) == k && !outcomes[k].Transient?
    ensures Transients(outcomes, n) == k
  {
    if n > k + 1 { TransientsStop(outcomes, k, n - 1); }
  }
}
