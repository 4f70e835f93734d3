/**
 * `AnthropicProvider::stream` (services/proxy/anthropic.rs): the typed view of one Messages-API
 * stream event, what each event kind makes the proxy emit, and the frame decoder the session
 * driver runs. Only the last `data: ` line of a frame is decoded, and a payload that does not
 * decode is skipped without a word.
 */
module AnthropicStream {
  import opened Wrappers
  import Json
  import Text
  import Sse
  import opened Proxy
  import Driver

  /** `AnthropicDelta`: both fields optional. */
  datatype Delta = Delta(deltaType: Option<string>, text: Option<string>)

  /** `AnthropicError`: both fields required. */
  datatype ApiError = ApiError(errorType: string, message: string)

  /** `AnthropicEvent`: the event's `type` is required, everything else optional. */
  datatype StreamEvent = StreamEvent(
    eventType: string,
    delta: Option<Delta>,
    message: Option<Json.Json>,
    usage: Option<Json.Json>,
    error: Option<ApiError>,
    index: Option<Json.U32>)

  const TextBlockDelta: string := "content_block_delta"
  const TextDeltaType: string := "text_delta"
  const ErrorType: string := "error"

  // ---------------------------------------------------------------------------------------
  // The typed view (serde's derived `Deserialize`) and its inverse
  // ---------------------------------------------------------------------------------------

  function DeltaOf(j: Json.Json): (r: Result<Delta, string>)
    ensures r.Success? ==> j.JObj?
  {
    if !j.JObj? then Failure("invalid type: expected struct AnthropicDelta")
    else
      var deltaType :- Json.OptionalString(j.fields, "type");
      var text :- Json.OptionalString(j.fields, "text");
      Success(Delta(deltaType, text))
  }

  function ApiErrorOf(j: Json.Json): (r: Result<ApiError, string>)
    ensures r.Success? ==> && j.JObj? && "type" in j.fields && "message" in j.fields
                           && j.fields["type"] == Json.JStr(r.value.errorType)
                           && j.fields["message"] == Json.JStr(r.value.message)
  {
    if !j.JObj? then Failure("invalid type: expected struct AnthropicError")
    else
      var errorType :- Json.PresentString(j.fields, "type");
      var message :- Json.PresentString(j.fields, "message");
      var errorTypeValue :- Json.Required(errorType, "type");
      var messageValue :- Json.Required(message, "message");
      Success(ApiError(errorTypeValue, messageValue))
  }

  /** An `Option<AnthropicDelta>` field: absent or `null` is `None`, otherwise it must be a delta. */
  function OptionalDelta(m: map<string, Json.Json>, name: string): (r: Result<Option<Delta>, string>)
    ensures r == Success(None) <==> Json.Absent(m, name)
  {
    if Json.Absent(m, name) then Success(None)
    else
      var d :- DeltaOf(m[name]);
      Success(Some(d))
  }

  function OptionalApiError(m: map<string, Json.Json>, name: string): (r: Result<Option<ApiError>, string>)
    ensures r == Success(None) <==> Json.Absent(m, name)
  {
    if Json.Absent(m, name) then Success(None)
    else
      var e :- ApiErrorOf(m[name]);
      Success(Some(e))
  }

  /**
   * `serde_json::from_str::<AnthropicEvent>` once the text is parsed: an object with a string
   * `type`; keys the struct does not name are ignored.
   */
  function EventOf(j: Json.Json): (r: Result<StreamEvent, string>)
    ensures r.Success? ==> j.JObj? && "type" in j.fields && j.fields["type"] == Json.JStr(r.value.eventType)
    ensures r.Success? ==> r.value.message != Some(Json.JNull) && r.value.usage != Some(Json.JNull)
  {
    if !j.JObj? then Failure("invalid type: expected struct AnthropicEvent")
    else
      var m := j.fields;
      var eventType :- Json.PresentString(m, "type");
      var delta :- OptionalDelta(m, "delta");
      var error :- OptionalApiError(m, "error");
      var index :- Json.OptionalUnsigned(m, "index", 0x1_0000_0000);
      var index32: Option<Json.U32> := if index.Some? then Some(index.value) else None;
      var eventTypeValue :- Json.Required(eventType, "type");
      Success(StreamEvent(eventTypeValue, delta, Json.OptionalValue(m, "message"), Json.OptionalValue(m, "usage"), error, index32))
  }

  function DeltaJson(d: Delta): Json.Json {
    Json.JObj(Json.Put(Json.Put(map[], "type", Json.OptStr(d.deltaType)), "text", Json.OptStr(d.text)))
  }

  function ApiErrorJson(e: ApiError): Json.Json {
    Json.JObj(map["type" := Json.JStr(e.errorType), "message" := Json.JStr(e.message)])
  }

  /** The event as the API would write it, leaving out the fields that are `None`. */
  function EventJson(ev: StreamEvent): Json.Json {
    var m := map["type" := Json.JStr(ev.eventType)];
    var m := Json.Put(m, "delta", if ev.delta.Some? then Some(DeltaJson(ev.delta.value)) else None);
    var m := Json.Put(m, "message", ev.message);
    var m := Json.Put(m, "usage", ev.usage);
    var m := Json.Put(m, "error", if ev.error.Some? then Some(ApiErrorJson(ev.error.value)) else None);
    var m := Json.Put(m, "index", if ev.index.Some? then Some(Json.JInt(ev.index.value)) else None);
    Json.JObj(m)
  }

  /** The events the typed view can produce: an `Option<Value>` is never `Some(null)`. */
  predicate Representable(ev: StreamEvent) {
    ev.message != Some(Json.JNull) && ev.usage != Some(Json.JNull)
  }

  lemma DeltaRoundTrip(d: Delta)
    ensures DeltaOf(DeltaJson(d)) == Success(d)
  {
  }

  /** Where each field of an event ends up in its JSON. */
  lemma EventJsonFields(ev: StreamEvent)
    ensures var m := EventJson(ev).fields;
            && "type" in m && m["type"] == Json.JStr(ev.eventType)
            && (ev.delta.None? ==> "delta" !in m)
            && (ev.delta.Some? ==> "delta" in m && m["delta"] == DeltaJson(ev.delta.value))
            && (ev.message.None? ==> "message" !in m)
            && (ev.message.Some? ==> "message" in m && m["message"] == ev.message.value)
            && (ev.usage.None? ==> "usage" !in m)
            && (ev.usage.Some? ==> "usage" in m && m["usage"] == ev.usage.value)
            && (ev.error.None? ==> "error" !in m)
            && (ev.error.Some? ==> "error" in m && m["error"] == ApiErrorJson(ev.error.value))
            && (ev.index.None? ==> "index" !in m)
            && (ev.index.Some? ==> "index" in m && m["index"] == Json.JInt(ev.index.value))
  {
  }

  /** Reading an event back from its JSON gives the event: the view loses nothing it keeps. */
  lemma EventRoundTrip(ev: StreamEvent)
    requires Representable(ev)
    ensures EventOf(EventJson(ev)) == Success(ev)
  {
    var m := EventJson(ev).fields;
    EventJsonFields(ev);
    if ev.delta.Some? {
      DeltaRoundTrip(ev.delta.value);
    }
    assert OptionalDelta(m, "delta") == Success(ev.delta);
    assert OptionalApiError(m, "error") == Success(ev.error);
    assert Json.OptionalUnsigned(m, "index", 0x1_0000_0000) == Success(if ev.index.Some? then Some(ev.index.value as nat) else None);
    assert Json.OptionalValue(m, "message") == ev.message;
    assert Json.OptionalValue(m, "usage") == ev.usage;
  }

  /** Keys the struct does not name make no difference to the view. */
  lemma UnknownKeysIgnored(m: map<string, Json.Json>, key: string, v: Json.Json)
    requires key !in {"type", "delta", "message", "usage", "error", "index"}
    ensures EventOf(Json.JObj(m[key := v])) == EventOf(Json.JObj(m))
  {
    var m2 := m[key := v];
    assert forall name | name in {"type", "delta", "message", "usage", "error", "index"} ::
      (name in m2 <==> name in m) && (name in m ==> m2[name] == m[name]);
  }

  // ---------------------------------------------------------------------------------------
  // What each event emits (anthropic.rs:118-170)
  // ---------------------------------------------------------------------------------------

  /** The message of an `error` event. */
  function ErrorMessage(e: ApiError): string {
    "API Error Event: [" + e.errorType + "] " + e.message
  }

  /** The message names the error's type in brackets after a fixed prefix, and ends with its message. */
  lemma ErrorMessageParts(e: ApiError)
    ensures var r := ErrorMessage(e);
            && |r| == 20 + |e.errorType| + |e.message|
            && r[..18] == "API Error Event: [" && r[18..18 + |e.errorType|] == e.errorType
            && r[|r| - |e.message|..] == e.message
  {
  }

  /** A `content_block_delta` carrying a `text_delta` with text. */
  predicate IsTextDelta(ev: StreamEvent) {
    && ev.eventType == TextBlockDelta
    && ev.delta.Some? && ev.delta.value.deltaType == Some(TextDeltaType)
    && ev.delta.value.text.Some?
  }

  /**
   * The dispatch on the event's type: a text delta emits its text as one chunk (even when it is
   * empty), an `error` event with error details emits one error, and every other event
   * (`message_start`, `message_delta`, `message_stop`, `ping`, unknown types) emits nothing.
   */
  function EventNotices(ev: StreamEvent): (r: seq<Notice>)
    ensures |r| <= 1
    ensures r != [] && r[0].Chunk? ==> IsTextDelta(ev) && Unenvelope(r[0].data) == ev.delta.value.text
    ensures r != [] && r[0].Error? ==> ev.eventType == ErrorType && ev.error.Some?
                                       && r[0].message == ErrorMessage(ev.error.value)
  {
    if IsTextDelta(ev) then
      EnvelopeRoundTrip(ev.delta.value.text.value);
      [Chunk(Envelope(ev.delta.value.text.value))]
    else if ev.eventType == ErrorType && ev.error.Some? then [Error(ErrorMessage(ev.error.value))]
    else []
  }

  /** Exactly text deltas and `error` events with details emit something. */
  lemma EventNoticesExactly(ev: StreamEvent)
    ensures EventNotices(ev) != [] <==> IsTextDelta(ev) || (ev.eventType == ErrorType && ev.error.Some?)
  {
  }

  /** The event kinds the dispatch lists without an emit, and unknown kinds, emit nothing. */
  lemma OtherKindsSilent(ev: StreamEvent)
    requires ev.eventType != TextBlockDelta && ev.eventType != ErrorType
    ensures EventNotices(ev) == []
  {
  }

  /** A delta of another type, or a text delta without text, emits nothing. */
  lemma NonTextDeltaSilent(ev: StreamEvent)
    requires ev.eventType == TextBlockDelta
    requires ev.delta.None? || ev.delta.value.deltaType != Some(TextDeltaType) || ev.delta.value.text.None?
    ensures EventNotices(ev) == []
  {
  }

  // ---------------------------------------------------------------------------------------
  // The frame decoder
  // ---------------------------------------------------------------------------------------

  /** One payload: parsed and viewed as an event; anything that does not decode emits nothing. */
  function PayloadNotices(parse: Json.Parser, payload: string): (r: seq<Notice>)
    ensures |r| <= 1
    ensures r != [] ==> parse(payload).Success? && EventOf(parse(payload).value).Success?
  {
    match parse(payload)
    case Failure(_) => []
    case Success(j) =>
      match EventOf(j)
      case Failure(_) => []
      case Success(ev) => EventNotices(ev)
  }

  /** The events of one trimmed frame: those of its last data line, or none when it has none. */
  function FrameNotices(parse: Json.Parser, frame: string): (r: seq<Notice>)
    ensures |r| <= 1
  {
    var payload := Sse.LastDataPayload(Text.Lines(frame));
    if payload == [] then [] else PayloadNotices(parse, payload)
  }

  function Decoder(parse: Json.Parser): Driver.Decoder {
    frame => FrameNotices(parse, frame)
  }

  /** `AnthropicProvider::stream`: the key is sent as it is, in the `x-api-key` header. */
  function Stream(parse: Json.Parser, apiKey: string, reply: Driver.Reply, w: Window): (r: Driver.Run)
    ensures w.log <= r.window.log
  {
    Driver.Stream("Anthropic", Decoder(parse), apiKey, reply, w)
  }

  // ---------------------------------------------------------------------------------------
  // Properties
  // ---------------------------------------------------------------------------------------

  /** Last data line wins: the frame decodes the last of its data payloads, or emits nothing without one. */
  lemma LastDataLineWins(parse: Json.Parser, frame: string)
    ensures var all := Sse.DataPayloads(Text.Lines(frame));
            FrameNotices(parse, frame)
            == if all == [] || all[|all| - 1] == [] then [] else PayloadNotices(parse, all[|all| - 1])
  {
    FrameNoticesOfLastPayload(parse, frame);
    LastPayloadWins(parse, Text.Lines(frame));
  }

  lemma FrameNoticesOfLastPayload(parse: Json.Parser, frame: string)
    ensures var payload := Sse.LastDataPayload(Text.Lines(frame));
            FrameNotices(parse, frame) == if payload == [] then [] else PayloadNotices(parse, payload)
  {
  }

  lemma LastPayloadWins(parse: Json.Parser, lines: seq<string>)
    ensures var all := Sse.DataPayloads(lines);
            var payload := Sse.LastDataPayload(lines);
            (if payload == [] then [] else PayloadNotices(parse, payload))
            == if all == [] || all[|all| - 1] == [] then [] else PayloadNotices(parse, all[|all| - 1])
  {
    Sse.DecodeLastPayload(lines, payload => PayloadNotices(parse, payload));
  }

  /** A payload that is not JSON, or not an event, is dropped: no chunk and no error. */
  lemma UndecodablePayloadSilent(parse: Json.Parser, payload: string)
    requires parse(payload).Failure? || EventOf(parse(payload).value).Failure?
    ensures PayloadNotices(parse, payload) == []
  {
  }

  /**
   * Any payload the typed view reads as a text delta reaches the UI as one chunk from which the
   * UI reads back exactly its text, whatever else the payload's JSON holds.
   */
  lemma TextDeltaFidelity(parse: Json.Parser, payload: string, ev: StreamEvent)
    requires parse(payload).Success? && EventOf(parse(payload).value) == Success(ev)
    requires IsTextDelta(ev)
    ensures PayloadNotices(parse, payload) == [Chunk(Envelope(ev.delta.value.text.value))]
    ensures Unenvelope(PayloadNotices(parse, payload)[0].data) == ev.delta.value.text
  {
    EnvelopeRoundTrip(ev.delta.value.text.value);
  }

  /** The canonical JSON of a text delta is read back as that delta and so emits its text. */
  lemma CanonicalTextDeltaRead(parse: Json.Parser, payload: string, ev: StreamEvent)
    requires Representable(ev) && IsTextDelta(ev)
    requires parse(payload) == Success(EventJson(ev))
    ensures PayloadNotices(parse, payload) == [Chunk(Envelope(ev.delta.value.text.value))]
  {
    EventRoundTrip(ev);
    TextDeltaFidelity(parse, payload, ev);
  }

  /** The error event the API sends when it is overloaded. */
  const OverloadedJson: Json.Json := Json.JObj(map[
    "type" := Json.JStr("error"),
    "error" := Json.JObj(map["type" := Json.JStr("overloaded_error"), "message" := Json.JStr("Overloaded")])])

  /** An overloaded error event from the API becomes the error `API Error Event: [overloaded_error] Overloaded`. */
  lemma OverloadedErrorEvent(parse: Json.Parser, payload: string)
    requires parse(payload) == Success(OverloadedJson)
    ensures PayloadNotices(parse, payload) == [Error("API Error Event: [overloaded_error] Overloaded")]
  {
    OverloadedView();
    OverloadedMessage();
  }

  lemma OverloadedView()
    ensures EventOf(OverloadedJson)
            == Success(StreamEvent("error", None, None, None, Some(ApiError("overloaded_error", "Overloaded")), None))
  {
    var m := OverloadedJson.fields;
    assert OptionalApiError(m, "error") == Success(Some(ApiError("overloaded_error", "Overloaded")));
  }

  lemma OverloadedMessage()
    ensures ErrorMessage(ApiError("overloaded_error", "Overloaded")) == "API Error Event: [overloaded_error] Overloaded"
  {
  }

  /** A key that is no valid header value fails before anything is sent, and nothing is emitted. */
  lemma InvalidKeyRejected(parse: Json.Parser, apiKey: string, reply: Driver.Reply, w: Window)
    requires !Driver.IsHeaderValue(apiKey)
    ensures Stream(parse, apiKey, reply, w)
            == Driver.Run(w, Fail(ApiKey(Driver.InvalidKeyMessage("Anthropic"))))
  {
  }
}
