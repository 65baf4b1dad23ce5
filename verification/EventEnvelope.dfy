/** The event envelope, its wire form, and the dead-letter wrapper, over JSON values. */
module EventEnvelope {
  import opened Prelude

  datatype Json =
    | JNull
    | JBool(b: bool)
    | JNum(n: real)
    | JStr(s: string)
    | JArr(items: seq<Json>)
    | JObj(fields: map<string, Json>)

  /** The fields are whatever JSON value was found: decoding does not check types.  An
      absent correlation id is `JNull`. */
  datatype Envelope = Envelope(
    eventType: Json, sourceService: Json, payload: Json,
    eventId: Json, correlationId: Json, timestamp: Json)

  datatype DecodeError = TypeError | KeyError(key: string) | AttributeError

  datatype Decoded = Ok(envelope: Envelope) | Err(error: DecodeError)

  /** Encoding replaces an absent correlation id by the event id. */
  function ToDict(e: Envelope): Json {
    JObj(map["event_type" := e.eventType, "source_service" := e.sourceService,
             "payload" := e.payload, "event_id" := e.eventId,
             "correlation_id" := if e.correlationId.JNull? then e.eventId else e.correlationId,
             "timestamp" := e.timestamp])
  }

  function Get(fields: map<string, Json>, key: string, default: Json): Json {
    if key in fields then fields[key] else default
  }

  /** Fields are looked up in the order of the constructor call, so the first missing one
      is the one reported. */
  function FromJson(j: Json): Decoded {
    if !j.JObj? then Err(TypeError)
    else if "event_id" !in j.fields then Err(KeyError("event_id"))
    else if "event_type" !in j.fields then Err(KeyError("event_type"))
    else if "source_service" !in j.fields then Err(KeyError("source_service"))
    else if "timestamp" !in j.fields then Err(KeyError("timestamp"))
    else Ok(Envelope(j.fields["event_type"], j.fields["source_service"],
                     Get(j.fields, "payload", JObj(map[])), j.fields["event_id"],
                     Get(j.fields, "correlation_id", JNull), j.fields["timestamp"]))
  }

  function Normalise(e: Envelope): Envelope {
    if e.correlationId.JNull? then e.(correlationId := e.eventId) else e
  }

  /** Decoding an encoded envelope gives its normal form, and encoding sees no difference
      between an envelope and its normal form. */
  lemma EnvelopeRoundTrip(e: Envelope)
    ensures FromJson(ToDict(e)) == Ok(Normalise(e))
    ensures Normalise(Normalise(e)) == Normalise(e)
    ensures ToDict(Normalise(e)) == ToDict(e)
  {
    if e.correlationId.JNull? {
      assert Normalise(e).correlationId == e.eventId;
    }
  }

  /** A value decodes exactly when it is an object with the four required keys, and what it
      decodes to re-encodes to an object that decodes to the same normal form. */
  lemma DecodingIsStable(j: Json)
    ensures FromJson(j).Ok? <==>
              j.JObj? && {"event_id", "event_type", "source_service", "timestamp"} <= j.fields.Keys
    ensures FromJson(j).Ok? ==>
              FromJson(ToDict(FromJson(j).envelope)) == Ok(Normalise(FromJson(j).envelope))
  {
    if FromJson(j).Ok? { EnvelopeRoundTrip(FromJson(j).envelope); }
  }

  /** The wire form: which key carries what, in both directions, and which error a value gives
      that does not decode: not an object, or the first required key that is missing. */
  lemma WireForm(e: Envelope, j: Json)
    ensures var fields := ToDict(e).fields;
            && ToDict(e).JObj?
            && fields.Keys == {"event_type", "source_service", "payload", "event_id", "correlation_id", "timestamp"}
            && fields["event_type"] == e.eventType && fields["source_service"] == e.sourceService
            && fields["payload"] == e.payload && fields["event_id"] == e.eventId && fields["timestamp"] == e.timestamp
            && fields["correlation_id"] == (if e.correlationId == JNull then e.eventId else e.correlationId)
    ensures FromJson(j).Ok? ==>
              var d := FromJson(j).envelope;
              && d.eventType == j.fields["event_type"] && d.sourceService == j.fields["source_service"]
              && d.eventId == j.fields["event_id"] && d.timestamp == j.fields["timestamp"]
              && d.payload == (if "payload" in j.fields then j.fields["payload"] else JObj(map[]))
              && d.correlationId == (if "correlation_id" in j.fields then j.fields["correlation_id"] else JNull)
    ensures FromJson(j) == Err(TypeError) <==> !j.JObj?
    ensures forall k | k in REQUIRED && FromJson(j) == Err(KeyError(k)) :: j.JObj? && k !in j.fields
    ensures forall i, l | 0 <= l < i < 4 && FromJson(j) == Err(KeyError(REQUIRED[i])) :: REQUIRED[l] in j.fields
  {
    assert REQUIRED[0] == "event_id" && REQUIRED[1] == "event_type";
    assert REQUIRED[2] == "source_service" && REQUIRED[3] == "timestamp";
  }

  const REQUIRED: seq<string> := ["event_id", "event_type", "source_service", "timestamp"]

  // --- The dead-letter wrapper -----------------------------------------------------

  predicate Truthy(j: Json) {
    match j
    case JNull => false
    case JBool(b) => b
    case JNum(n) => n != 0.0
    case JStr(s) => s != ""
    case JArr(items) => items != []
    case JObj(fields) => fields != map[]
  }

  /** `id` and `at` stand for the fresh event id and the clock. */
  function Wrap(topic: string, e: Envelope, error: string, retries: nat, id: string, at: string): Envelope {
    Envelope(JStr("dlq.entry"), JStr("dlq-handler"),
             JObj(map["original_topic" := JStr(topic), "original_event" := ToDict(e),
                      "error_message" := JStr(error), "retry_count" := JNum(retries as real),
                      "failed_at" := JStr(at)]),
             JStr(id), if Truthy(e.correlationId) then e.correlationId else e.eventId, JStr(at))
  }

  /** What the replayer extracts from a record of the dead-letter topic. */
  function Unwrap(wrapper: Json, freshId: string, at: string): Decoded {
    if !wrapper.JObj? then Err(AttributeError) else
    var payload := Get(wrapper.fields, "payload", JObj(map[]));
    if !payload.JObj? then Err(AttributeError) else
    var original := Get(payload.fields, "original_event", wrapper);
    if !original.JObj? then Err(AttributeError)
    else if "event_type" !in original.fields then Err(KeyError("event_type"))
    else if "source_service" !in original.fields then Err(KeyError("source_service"))
    else Ok(Envelope(original.fields["event_type"], original.fields["source_service"],
                     Get(original.fields, "payload", JObj(map[])),
                     Get(original.fields, "event_id", JStr(freshId)),
                     Get(original.fields, "correlation_id", JNull),
                     Get(original.fields, "timestamp", JStr(at))))
  }

  /** What whoever reads the dead-letter topic may rely on: the encoded entry names the original
      topic, the error, the number of attempts and the moment, carries the whole encoded event,
      and shares its correlation id, or its event id where it has none that counts. */
  lemma DeadLetterCarries(topic: string, e: Envelope, error: string, retries: nat, id: string, at: string)
    ensures var entry := ToDict(Wrap(topic, e, error, retries, id, at));
            var payload := entry.fields["payload"];
            && entry.fields["event_type"] == JStr("dlq.entry") && entry.fields["source_service"] == JStr("dlq-handler")
            && entry.fields["event_id"] == JStr(id) && entry.fields["timestamp"] == JStr(at)
            && entry.fields["correlation_id"] == (if Truthy(e.correlationId) then e.correlationId
                                                  else if e.eventId == JNull then JStr(id) else e.eventId)
            && payload.JObj? && payload.fields.Keys == {"original_topic", "original_event", "error_message", "retry_count", "failed_at"}
            && payload.fields["original_topic"] == JStr(topic) && payload.fields["original_event"] == ToDict(e)
            && payload.fields["error_message"] == JStr(error) && payload.fields["retry_count"] == JNum(retries as real)
            && payload.fields["failed_at"] == JStr(at)
  {
    WireForm(Wrap(topic, e, error, retries, id, at), JNull);
  }

  /** Wrapping for the dead-letter topic and unwrapping on replay gives back the normalised
      event, whatever its payload is, another dead-letter entry included. */
  lemma DlqRoundTrip(topic: string, e: Envelope, error: string, retries: nat, id: string, at: string,
                     freshId: string, replayedAt: string)
    ensures Unwrap(ToDict(Wrap(topic, e, error, retries, id, at)), freshId, replayedAt) == Ok(Normalise(e))
  {
    var w := Wrap(topic, e, error, retries, id, at);
    assert ToDict(w).fields["payload"] == w.payload;
    assert w.payload.fields["original_event"] == ToDict(e);
  }

  /** The consumer that meets the replayed event again decodes the same event id, so the
      duplicate mark of the first delivery still names it. */
  lemma ReplayKeepsEventId(topic: string, e: Envelope, error: string, retries: nat, id: string, at: string,
                           freshId: string, replayedAt: string)
    ensures var replayed := Unwrap(ToDict(Wrap(topic, e, error, retries, id, at)), freshId, replayedAt);
            && replayed.Ok?
            && FromJson(ToDict(replayed.envelope)) == Ok(Normalise(e))
            && FromJson(ToDict(replayed.envelope)).envelope.eventId == e.eventId
  {
    DlqRoundTrip(topic, e, error, retries, id, at, freshId, replayedAt);
    EnvelopeRoundTrip(e);
    EnvelopeRoundTrip(Normalise(e));
  }

  /** What the replayer looks at: the wrapped event, or the record itself if it wraps none. */
  function Original(wrapper: Json): Option<Json> {
    if !wrapper.JObj? then None
    else if "payload" !in wrapper.fields then Some(wrapper)
    else if !wrapper.fields["payload"].JObj? then None
    else if "original_event" in wrapper.fields["payload"].fields then Some(wrapper.fields["payload"].fields["original_event"])
    else Some(wrapper)
  }

  /** A record is replayed exactly when what it wraps is an object with a type and a source; a
      missing event id or timestamp is filled in afresh, and every other field is kept. */
  lemma UnwrapExactly(wrapper: Json, freshId: string, at: string)
    ensures Unwrap(wrapper, freshId, at).Ok? <==>
              Original(wrapper).Some? && Original(wrapper).value.JObj?
              && {"event_type", "source_service"} <= Original(wrapper).value.fields.Keys
    ensures Unwrap(wrapper, freshId, at).Ok? ==>
              var fields, e := Original(wrapper).value.fields, Unwrap(wrapper, freshId, at).envelope;
              && e.eventType == fields["event_type"] && e.sourceService == fields["source_service"]
              && e.eventId == (if "event_id" in fields then fields["event_id"] else JStr(freshId))
              && e.timestamp == (if "timestamp" in fields then fields["timestamp"] else JStr(at))
              && e.payload == (if "payload" in fields then fields["payload"] else JObj(map[]))
              && e.correlationId == (if "correlation_id" in fields then fields["correlation_id"] else JNull)
  {
  }

  // --- Partition keys ----------------------------------------------------------------

  /** The key under which the consumer files a failed event, and the key the replayer then
      uses.  An empty key counts as missing. */
  function DlqKey(messageKey: Option<string>, eventId: string): string {
    if messageKey.Some? && messageKey.value != "" then messageKey.value else eventId
  }

  function ReplayKey(recordKey: string, eventId: string): string {
    if recordKey != "" then recordKey else eventId
  }

  lemma KeyRoundTrip(messageKey: Option<string>, eventId: string)
    ensures ReplayKey(DlqKey(messageKey, eventId), eventId)
         == if messageKey.Some? && messageKey.value != "" then messageKey.value else eventId
  {
  }
}
