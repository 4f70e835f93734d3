/**
 * `OpenAIProvider::stream` (services/proxy/openai.rs): the typed view of one chat-completion
 * chunk, the chunks its choices emit, and the frame decoder the session driver runs. Every
 * `data: ` line of a frame is decoded in order; `[DONE]` is skipped, and a payload that does not
 * decode emits an error and the stream goes on.
 */
module OpenAIStream {
  import opened Wrappers
  import Json
  import Text
  import Sse
  import opened Proxy
  import Driver

  /** `OpenAIDelta`: both fields optional. */
  datatype Delta = Delta(role: Option<string>, content: Option<string>)

  /** `OpenAIChoice`: `index` and `delta` are required. */
  datatype Choice = Choice(index: Json.U32, delta: Delta, logprobs: Option<Json.Json>, finishReason: Option<string>)

  /** `OpenAIChatCompletionChunk`: everything but `system_fingerprint` is required. */
  datatype Completion = Completion(
    id: string,
    objectType: string,
    created: Json.U64,
    model: string,
    systemFingerprint: Option<string>,
    choices: seq<Choice>)

  const Done: string := "[DONE]"

  // ---------------------------------------------------------------------------------------
  // The typed view (serde's derived `Deserialize`) and its inverse
  // ---------------------------------------------------------------------------------------

  function DeltaOf(j: Json.Json): (r: Result<Delta, string>)
    ensures r.Success? ==> j.JObj?
  {
    if !j.JObj? then Failure("invalid type: expected struct OpenAIDelta")
    else
      var role :- Json.OptionalString(j.fields, "role");
      var content :- Json.OptionalString(j.fields, "content");
      Success(Delta(role, content))
  }

  /** The first phase for the `delta` field: `None` when absent; a present value, `null` included, must be a delta. */
  function PresentDelta(m: map<string, Json.Json>): (r: Result<Option<Delta>, string>)
    ensures r == Success(None) <==> "delta" !in m
  {
    if "delta" !in m then Success(None)
    else
      var d :- DeltaOf(m["delta"]);
      Success(Some(d))
  }

  /**
   * A choice: every present field is read first, then `index` and `delta` are required, so a
   * fault in a present field is reported before a missing one.
   */
  function ChoiceOf(j: Json.Json): (r: Result<Choice, string>)
    ensures r.Success? ==> j.JObj? && "index" in j.fields && "delta" in j.fields
  {
    if !j.JObj? then Failure("invalid type: expected struct OpenAIChoice")
    else
      var m := j.fields;
      var index :- Json.PresentUnsigned(m, "index", 0x1_0000_0000);
      var delta :- PresentDelta(m);
      var finishReason :- Json.OptionalString(m, "finish_reason");
      var indexValue :- Json.Required(index, "index");
      var deltaValue :- Json.Required(delta, "delta");
      Success(Choice(indexValue, deltaValue, Json.OptionalValue(m, "logprobs"), finishReason))
  }

  /** A `Vec<OpenAIChoice>`: every element must be a choice, and their order is kept. */
  function ChoicesOf(items: seq<Json.Json>): (r: Result<seq<Choice>, string>)
    ensures r.Success? ==> |r.value| == |items|
  {
    if items == [] then Success([])
    else
      var first :- ChoiceOf(items[0]);
      var rest :- ChoicesOf(items[1..]);
      Success([first] + rest)
  }

  /** What serde's map visitor holds for a chunk once every present key is read: absent keys are `None`. */
  datatype CompletionFields = CompletionFields(
    id: Option<string>,
    objectType: Option<string>,
    created: Option<Json.U64>,
    model: Option<string>,
    systemFingerprint: Option<string>,
    choices: Option<seq<Choice>>)

  /** The first phase for a chunk: each present key's value must have its field's type. */
  function CompletionFieldsOf(m: map<string, Json.Json>): (r: Result<CompletionFields, string>)
    ensures r.Success? ==> && (r.value.id.Some? <==> "id" in m)
                           && (r.value.objectType.Some? <==> "object" in m)
                           && (r.value.created.Some? <==> "created" in m)
                           && (r.value.model.Some? <==> "model" in m)
                           && (r.value.choices.Some? <==> "choices" in m)
    ensures r.Success? && r.value.choices.Some? ==>
              m["choices"].JArr? && |m["choices"].items| == |r.value.choices.value|
  {
    var id :- Json.PresentString(m, "id");
    var objectType :- Json.PresentString(m, "object");
    var created :- Json.PresentUnsigned(m, "created", 0x1_0000_0000_0000_0000);
    var created64: Option<Json.U64> := if created.Some? then Some(created.value) else None;
    var model :- Json.PresentString(m, "model");
    var fingerprint :- Json.OptionalString(m, "system_fingerprint");
    var choices :-
      if "choices" !in m then Success(None)
      else if !m["choices"].JArr? then Failure(Json.InvalidType("choices", "a sequence"))
      else
        var cs :- ChoicesOf(m["choices"].items);
        Success(Some(cs));
    Success(CompletionFields(id, objectType, created64, model, fingerprint, choices))
  }

  /**
   * `serde_json::from_str::<OpenAIChatCompletionChunk>` once the text is parsed: the present
   * fields first, then the required ones that are missing, in declaration order.
   */
  function CompletionOf(j: Json.Json): (r: Result<Completion, string>)
    ensures r.Success? ==> && j.JObj?
                           && "id" in j.fields && "object" in j.fields && "created" in j.fields
                           && "model" in j.fields && "choices" in j.fields
                           && j.fields["choices"].JArr? && |j.fields["choices"].items| == |r.value.choices|
  {
    if !j.JObj? then Failure("invalid type: expected struct OpenAIChatCompletionChunk")
    else
      var f :- CompletionFieldsOf(j.fields);
      var id :- Json.Required(f.id, "id");
      var objectType :- Json.Required(f.objectType, "object");
      var created :- Json.Required(f.created, "created");
      var model :- Json.Required(f.model, "model");
      var choices :- Json.Required(f.choices, "choices");
      Success(Completion(id, objectType, created, model, f.systemFingerprint, choices))
  }

  function DeltaJson(d: Delta): Json.Json {
    Json.JObj(Json.Put(Json.Put(map[], "role", Json.OptStr(d.role)), "content", Json.OptStr(d.content)))
  }

  function ChoiceJson(c: Choice): Json.Json {
    var m := map["index" := Json.JInt(c.index), "delta" := DeltaJson(c.delta)];
    Json.JObj(Json.Put(Json.Put(m, "logprobs", c.logprobs), "finish_reason", Json.OptStr(c.finishReason)))
  }

  function ChoicesJson(cs: seq<Choice>): (r: seq<Json.Json>)
    ensures |r| == |cs|
  {
    if cs == [] then [] else [ChoiceJson(cs[0])] + ChoicesJson(cs[1..])
  }

  /** The chunk as the API would write it, leaving out the fields that are `None`. */
  function CompletionJson(c: Completion): Json.Json {
    var m := map[
      "id" := Json.JStr(c.id),
      "object" := Json.JStr(c.objectType),
      "created" := Json.JInt(c.created),
      "model" := Json.JStr(c.model),
      "choices" := Json.JArr(ChoicesJson(c.choices))];
    Json.JObj(Json.Put(m, "system_fingerprint", Json.OptStr(c.systemFingerprint)))
  }

  /** The chunks the typed view can produce: an `Option<Value>` is never `Some(null)`. */
  predicate Representable(c: Completion) {
    forall k :: 0 <= k < |c.choices| ==> c.choices[k].logprobs != Some(Json.JNull)
  }

  lemma ChoiceRoundTrip(c: Choice)
    requires c.logprobs != Some(Json.JNull)
    ensures ChoiceOf(ChoiceJson(c)) == Success(c)
  {
    var m := ChoiceJson(c).fields;
    assert m["delta"] == DeltaJson(c.delta);
    assert DeltaOf(DeltaJson(c.delta)) == Success(c.delta);
    assert Json.OptionalValue(m, "logprobs") == c.logprobs;
  }

  lemma {:induction false} ChoicesRoundTrip(cs: seq<Choice>)
    requires forall k :: 0 <= k < |cs| ==> cs[k].logprobs != Some(Json.JNull)
    ensures ChoicesOf(ChoicesJson(cs)) == Success(cs)
    decreases |cs|
  {
    if cs != [] {
      var items := ChoicesJson(cs);
      assert items[0] == ChoiceJson(cs[0]) && items[1..] == ChoicesJson(cs[1..]);
      ChoiceRoundTrip(cs[0]);
      ChoicesRoundTrip(cs[1..]);
      assert [cs[0]] + cs[1..] == cs;
    }
  }

  /** Reading a chunk back from its JSON gives the chunk: the view loses nothing it keeps. */
  lemma CompletionRoundTrip(c: Completion)
    requires Representable(c)
    ensures CompletionOf(CompletionJson(c)) == Success(c)
  {
    var m := CompletionJson(c).fields;
    CompletionJsonFields(c);
    ChoicesRoundTrip(c.choices);
    assert ChoicesOf(m["choices"].items) == Success(c.choices);
  }

  /** The fields of a chunk's JSON read back as the chunk's own fields. */
  lemma CompletionJsonFields(c: Completion)
    ensures var m := CompletionJson(c).fields;
            && Json.PresentString(m, "id") == Success(Some(c.id))
            && Json.PresentString(m, "object") == Success(Some(c.objectType))
            && Json.PresentUnsigned(m, "created", 0x1_0000_0000_0000_0000) == Success(Some(c.created as nat))
            && Json.PresentString(m, "model") == Success(Some(c.model))
            && Json.OptionalString(m, "system_fingerprint") == Success(c.systemFingerprint)
            && "choices" in m && m["choices"] == Json.JArr(ChoicesJson(c.choices))
  {
  }

  // ---------------------------------------------------------------------------------------
  // What a chunk emits (openai.rs:121-140)
  // ---------------------------------------------------------------------------------------

  /** The texts that reach the UI: each choice's content, in order, when present and not empty. */
  function Contents(choices: seq<Choice>): (r: seq<string>)
    ensures forall k :: 0 <= k < |r| ==> r[k] != []
  {
    if choices == [] then []
    else
      var c := choices[0].delta.content;
      (if c.Some? && c.value != [] then [c.value] else []) + Contents(choices[1..])
  }

  /** The text of every choice that has content, empty or not, concatenated. */
  function AllText(choices: seq<Choice>): string {
    if choices == [] then "" else choices[0].delta.content.GetOr("") + AllText(choices[1..])
  }

  /**
   * One chunk per choice with non-empty content, in order; the finish reason, the role and the
   * other fields emit nothing.
   */
  function ChoiceNotices(choices: seq<Choice>): (r: seq<Notice>)
    ensures |r| == |Contents(choices)|
  {
    if choices == [] then []
    else
      var c := choices[0].delta.content;
      if c.Some? && c.value != [] then [Chunk(Envelope(c.value))] + ChoiceNotices(choices[1..])
      else ChoiceNotices(choices[1..])
  }

  /** Notice k is a chunk from which the UI reads back text k, for every k. */
  predicate Carries(r: seq<Notice>, texts: seq<string>) {
    |r| == |texts| && forall k :: 0 <= k < |r| ==> r[k].Chunk? && Unenvelope(r[k].data) == Some(texts[k])
  }

  lemma CarriesCons(n: Notice, r: seq<Notice>, t: string, texts: seq<string>)
    requires n.Chunk? && Unenvelope(n.data) == Some(t) && Carries(r, texts)
    ensures Carries([n] + r, [t] + texts)
  {
    forall k | 1 <= k < |r| + 1
      ensures ([n] + r)[k] == r[k - 1] && ([t] + texts)[k] == texts[k - 1]
    {
    }
  }

  /** The k-th chunk of a chunk's notices carries exactly the k-th non-empty content. */
  lemma {:induction false} ChoiceNoticesCarryContents(choices: seq<Choice>)
    ensures Carries(ChoiceNotices(choices), Contents(choices))
    decreases |choices|
  {
    if choices != [] {
      ChoiceNoticesCarryContents(choices[1..]);
      var c := choices[0].delta.content;
      if c.Some? && c.value != [] {
        EnvelopeRoundTrip(c.value);
        CarriesCons(Chunk(Envelope(c.value)), ChoiceNotices(choices[1..]), c.value, Contents(choices[1..]));
      }
    }
  }

  /** Skipping empty contents loses no text: the chunk texts put together are all the content. */
  lemma {:induction false} ContentsKeepAllText(choices: seq<Choice>)
    ensures Text.Concat(Contents(choices)) == AllText(choices)
    decreases |choices|
  {
    if choices != [] {
      ContentsKeepAllText(choices[1..]);
      var c := choices[0].delta.content;
      if c.Some? && c.value != [] {
        assert Contents(choices)[1..] == Contents(choices[1..]);
      } else {
        assert Contents(choices) == Contents(choices[1..]);
        assert c.GetOr("") == [];
      }
    }
  }

  /** Only the content matters: changing a choice's index, role, log-probabilities or finish reason emits the same. */
  lemma {:induction false} OnlyContentMatters(a: seq<Choice>, b: seq<Choice>)
    requires |a| == |b|
    requires forall k :: 0 <= k < |a| ==> a[k].delta.content == b[k].delta.content
    ensures ChoiceNotices(a) == ChoiceNotices(b)
    decreases |a|
  {
    if a != [] {
      OnlyContentMatters(a[1..], b[1..]);
    }
  }

  // ---------------------------------------------------------------------------------------
  // The frame decoder
  // ---------------------------------------------------------------------------------------

  /** The error text of a payload that does not decode: the fixed prefix, then the detail, which the UI can read back. */
  function ParseMessage(detail: string): (r: string)
    ensures |r| == 29 + |detail| && r[29..] == detail
    ensures r[..29] == "Failed to parse OpenAI JSON: "
  {
    "Failed to parse OpenAI JSON: " + detail
  }

  /**
   * One data payload: `[DONE]` (surrounding whitespace allowed) emits nothing; a payload that
   * does not parse, or is no completion chunk, emits one error; otherwise the choices' chunks.
   */
  function PayloadNotices(parse: Json.Parser, payload: string): (r: seq<Notice>)
    ensures Text.Trim(payload) == Done ==> r == []
    ensures Text.Trim(payload) != Done && parse(payload).Failure? ==> r == [Error(ParseMessage(parse(payload).error))]
  {
    if Text.Trim(payload) == Done then []
    else
      match parse(payload)
      case Failure(e) => [Error(ParseMessage(e))]
      case Success(j) => ChunkNotices(j)
  }

  /** A parsed payload: one error when it is no completion chunk, otherwise its choices' chunks. */
  function ChunkNotices(j: Json.Json): seq<Notice> {
    match CompletionOf(j)
    case Failure(e) => [Error(ParseMessage(e))]
    case Success(c) => ChoiceNotices(c.choices)
  }

  /**
   * A payload that parses: when it is no completion chunk, it emits exactly one error with the
   * view's fault; when it is one, it emits one chunk per non-empty content, each reading back as
   * that content, in order.
   */
  lemma ViewOutcome(parse: Json.Parser, payload: string)
    requires Text.Trim(payload) != Done && parse(payload).Success?
    ensures CompletionOf(parse(payload).value).Failure? ==>
              PayloadNotices(parse, payload) == [Error(ParseMessage(CompletionOf(parse(payload).value).error))]
    ensures CompletionOf(parse(payload).value).Success? ==>
              Carries(PayloadNotices(parse, payload), Contents(CompletionOf(parse(payload).value).value.choices))
  {
    var v := CompletionOf(parse(payload).value);
    if v.Success? {
      assert PayloadNotices(parse, payload) == ChoiceNotices(v.value.choices);
      ChoiceNoticesCarryContents(v.value.choices);
    }
  }

  /** The payloads of a frame, in order: `continue` after `[DONE]` goes on with the next line. */
  function PayloadsNotices(parse: Json.Parser, payloads: seq<string>): seq<Notice> {
    if payloads == [] then [] else PayloadNotices(parse, payloads[0]) + PayloadsNotices(parse, payloads[1..])
  }

  /** A frame's payloads emit nothing exactly when none of them emits anything. */
  lemma {:induction false} PayloadsSilent(parse: Json.Parser, payloads: seq<string>)
    ensures PayloadsNotices(parse, payloads) == [] <==> forall k :: 0 <= k < |payloads| ==> PayloadNotices(parse, payloads[k]) == []
    decreases |payloads|
  {
    if payloads != [] {
      var first, rest := PayloadNotices(parse, payloads[0]), PayloadsNotices(parse, payloads[1..]);
      assert PayloadsNotices(parse, payloads) == first + rest;
      PayloadsSilent(parse, payloads[1..]);
      if first == [] {
        assert PayloadsNotices(parse, payloads) == rest;
        assert forall k :: 1 <= k < |payloads| ==> payloads[1..][k - 1] == payloads[k];
      } else {
        assert |PayloadsNotices(parse, payloads)| > 0;
      }
    }
  }

  /**
   * The events of a frame line by line, as the loop at openai.rs:105-151 visits them: a line
   * starting with `data: ` emits what the rest of the line emits, any other line nothing.
   */
  function LineNotices(parse: Json.Parser, lines: seq<string>): seq<Notice> {
    if lines == [] then []
    else
      var line := lines[0];
      (if |line| >= 6 && line[..6] == Sse.DataPrefix then PayloadNotices(parse, line[6..]) else [])
      + LineNotices(parse, lines[1..])
  }

  /** Decoding the data payloads in order is decoding every data line in order. */
  lemma {:induction false} LineNoticesArePayloadsNotices(parse: Json.Parser, lines: seq<string>)
    ensures LineNotices(parse, lines) == PayloadsNotices(parse, Sse.DataPayloads(lines))
    decreases |lines|
  {
    if lines != [] {
      LineNoticesArePayloadsNotices(parse, lines[1..]);
      var line := lines[0];
      var rest := Sse.DataPayloads(lines[1..]);
      assert Sse.DataPayloads(lines) == Sse.Payloads(line) + rest;
      if Sse.DataPayload(line).Some? {
        var p := Sse.DataPayload(line).value;
        assert line == Sse.DataPrefix + p;
        assert line[6..] == p;
        assert ([p] + rest)[0] == p && ([p] + rest)[1..] == rest;
      } else {
        assert Sse.Payloads(line) + rest == rest;
      }
    }
  }

  /** The events of one trimmed frame: every data line's, in line order. */
  function FrameNotices(parse: Json.Parser, frame: string): (r: seq<Notice>)
    ensures r == LineNotices(parse, Text.Lines(frame))
  {
    LineNoticesArePayloadsNotices(parse, Text.Lines(frame));
    PayloadsNotices(parse, Sse.DataPayloads(Text.Lines(frame)))
  }

  function Decoder(parse: Json.Parser): Driver.Decoder {
    frame => FrameNotices(parse, frame)
  }

  /** The `Authorization` header value built from the key. */
  function Credential(apiKey: string): string {
    "Bearer " + apiKey
  }

  /** `OpenAIProvider::stream`. */
  function Stream(parse: Json.Parser, apiKey: string, reply: Driver.Reply, w: Window): (r: Driver.Run)
    ensures w.log <= r.window.log
  {
    Driver.Stream("OpenAI", Decoder(parse), Credential(apiKey), reply, w)
  }

  // ---------------------------------------------------------------------------------------
  // Properties
  // ---------------------------------------------------------------------------------------

  lemma {:induction false} PayloadsNoticesAppend(parse: Json.Parser, a: seq<string>, b: seq<string>)
    ensures PayloadsNotices(parse, a + b) == PayloadsNotices(parse, a) + PayloadsNotices(parse, b)
    decreases |a|
  {
    if a == [] {
      assert a + b == b;
    } else {
      var first := PayloadNotices(parse, a[0]);
      assert (a + b)[0] == a[0];
      assert (a + b)[1..] == a[1..] + b;
      assert PayloadsNotices(parse, a + b) == first + PayloadsNotices(parse, a[1..] + b);
      PayloadsNoticesAppend(parse, a[1..], b);
      assert first + (PayloadsNotices(parse, a[1..]) + PayloadsNotices(parse, b))
          == (first + PayloadsNotices(parse, a[1..])) + PayloadsNotices(parse, b);
    }
  }

  /** `[DONE]` does not end the frame: the data lines after it are still decoded. */
  lemma DoneDoesNotStop(parse: Json.Parser, before: seq<string>, done: string, after: seq<string>)
    requires Text.Trim(done) == Done
    ensures PayloadsNotices(parse, before + [done] + after)
            == PayloadsNotices(parse, before) + PayloadsNotices(parse, after)
  {
    PayloadsNoticesAppend(parse, before + [done], after);
    PayloadsNoticesAppend(parse, before, [done]);
    SkippedPayload(parse, done);
  }

  lemma SkippedPayload(parse: Json.Parser, done: string)
    requires Text.Trim(done) == Done
    ensures PayloadsNotices(parse, [done]) == []
  {
    assert [done][1..] == [];
  }

  /** Every data line counts: two frames' worth of lines decode to both frames' events. */
  lemma AllDataLines(parse: Json.Parser, a: seq<string>, b: seq<string>)
    ensures PayloadsNotices(parse, Sse.DataPayloads(a + b))
            == PayloadsNotices(parse, Sse.DataPayloads(a)) + PayloadsNotices(parse, Sse.DataPayloads(b))
  {
    Sse.DataPayloadsAppend(a, b);
    PayloadsNoticesAppend(parse, Sse.DataPayloads(a), Sse.DataPayloads(b));
  }

  /**
   * A chunk the typed view accepts, whatever else its JSON holds (`null` optional fields, keys
   * the struct does not name), reaches the UI as its non-empty contents, each one read back
   * exactly, and together they are all of its text.
   */
  lemma ChunkFidelity(parse: Json.Parser, payload: string, c: Completion)
    requires Text.Trim(payload) != Done
    requires parse(payload).Success? && CompletionOf(parse(payload).value) == Success(c)
    ensures Carries(PayloadNotices(parse, payload), Contents(c.choices))
    ensures Text.Concat(Contents(c.choices)) == AllText(c.choices)
  {
    ViewOutcome(parse, payload);
    ContentsKeepAllText(c.choices);
  }

  /** The chunk as the API writes it is decoded: its JSON reads back as the chunk itself. */
  lemma CanonicalChunkRead(parse: Json.Parser, payload: string, c: Completion)
    requires Text.Trim(payload) != Done && Representable(c)
    requires parse(payload) == Success(CompletionJson(c))
    ensures Carries(PayloadNotices(parse, payload), Contents(c.choices))
  {
    CompletionRoundTrip(c);
    ViewOutcome(parse, payload);
  }

  /** Keys the chunk struct does not name (`service_tier`, `usage`, ...) make no difference to the view. */
  lemma UnknownKeysIgnored(m: map<string, Json.Json>, key: string, v: Json.Json)
    requires key !in {"id", "object", "created", "model", "system_fingerprint", "choices"}
    ensures CompletionOf(Json.JObj(m[key := v])) == CompletionOf(Json.JObj(m))
  {
    var m2 := m[key := v];
    assert forall name | name in {"id", "object", "created", "model", "system_fingerprint", "choices"} ::
      (name in m2 <==> name in m) && (name in m ==> m2[name] == m[name]);
    assert CompletionFieldsOf(m2) == CompletionFieldsOf(m);
  }

  /** Keys a choice does not name make no difference to it. */
  lemma ChoiceUnknownKeysIgnored(m: map<string, Json.Json>, key: string, v: Json.Json)
    requires key !in {"index", "delta", "logprobs", "finish_reason"}
    ensures ChoiceOf(Json.JObj(m[key := v])) == ChoiceOf(Json.JObj(m))
  {
    var m2 := m[key := v];
    assert forall name | name in {"index", "delta", "logprobs", "finish_reason"} ::
      (name in m2 <==> name in m) && (name in m ==> m2[name] == m[name]);
  }

  /** `"logprobs": null` and `"finish_reason": null`, as the API sends them, read as if the key were absent. */
  lemma ChoiceNullIsAbsent(m: map<string, Json.Json>, key: string)
    requires key == "logprobs" || key == "finish_reason"
    ensures ChoiceOf(Json.JObj(m[key := Json.JNull])) == ChoiceOf(Json.JObj(m - {key}))
  {
    var m1, m2 := m[key := Json.JNull], m - {key};
    assert forall name | name in {"index", "delta", "logprobs", "finish_reason"} && name != key ::
      (name in m1 <==> name in m2) && (name in m2 ==> m1[name] == m2[name]);
    assert Json.OptionalValue(m1, "logprobs") == Json.OptionalValue(m2, "logprobs");
    assert Json.OptionalString(m1, "finish_reason") == Json.OptionalString(m2, "finish_reason");
  }

  /**
   * A chunk without an `id` whose present fields all read is no completion chunk: the payload
   * emits one parse error naming the missing `id`.
   */
  lemma MissingIdReported(parse: Json.Parser, payload: string, m: map<string, Json.Json>)
    requires Text.Trim(payload) != Done && "id" !in m
    requires CompletionFieldsOf(m).Success?
    requires parse(payload) == Success(Json.JObj(m))
    ensures PayloadNotices(parse, payload) == [Error(ParseMessage(Json.MissingField("id")))]
  {
  }

  /**
   * Present fields are read before missing ones are looked for: `{"choices":5}` lacks `id`,
   * `object`, `created` and `model`, but its error is the `choices` value's type.
   */
  lemma InvalidFieldReportedFirst(parse: Json.Parser, payload: string)
    requires Text.Trim(payload) != Done
    requires parse(payload) == Success(Json.JObj(map["choices" := Json.JInt(5)]))
    ensures PayloadNotices(parse, payload) == [Error(ParseMessage(Json.InvalidType("choices", "a sequence")))]
  {
    var m := map["choices" := Json.JInt(5)];
    assert CompletionFieldsOf(m) == Failure(Json.InvalidType("choices", "a sequence"));
    assert CompletionOf(Json.JObj(m)) == Failure(Json.InvalidType("choices", "a sequence"));
  }

  /**
   * The bare delta `{"choices":[{"delta":{"content":"Hi"}}]}` lacks the required `id`,
   * `object`, `created`, `model` and `index`. The choice inside `choices` is read first, so it
   * emits one parse error naming the choice's missing `index`, and no chunk.
   */
  lemma BareDeltaRejected(parse: Json.Parser, payload: string)
    requires Text.Trim(payload) != Done
    requires parse(payload) == Success(Json.JObj(map["choices" := Json.JArr([
      Json.JObj(map["delta" := Json.JObj(map["content" := Json.JStr("Hi")])])])]))
    ensures PayloadNotices(parse, payload) == [Error(ParseMessage(Json.MissingField("index")))]
  {
    BareChunkRejected();
    ViewOutcome(parse, payload);
  }

  /** The choice `{"delta":{"content":"Hi"}}` has no `index`. */
  lemma BareChoiceRejected()
    ensures ChoiceOf(Json.JObj(map["delta" := Json.JObj(map["content" := Json.JStr("Hi")])]))
            == Failure(Json.MissingField("index"))
  {
  }

  /** The chunk holding only that choice fails on the choice's missing `index`. */
  lemma BareChunkRejected()
    ensures CompletionOf(Json.JObj(map["choices" := Json.JArr([
              Json.JObj(map["delta" := Json.JObj(map["content" := Json.JStr("Hi")])])])]))
            == Failure(Json.MissingField("index"))
  {
    var choice := Json.JObj(map["delta" := Json.JObj(map["content" := Json.JStr("Hi")])]);
    BareChoiceRejected();
    assert ChoicesOf([choice]) == Failure(Json.MissingField("index"));
    var m := map["choices" := Json.JArr([choice])];
    assert CompletionFieldsOf(m) == Failure(Json.MissingField("index"));
  }

  /** The `Bearer ` prefix is a valid header value, so the header is valid exactly when the key is. */
  lemma CredentialValid(apiKey: string)
    ensures Driver.IsHeaderValue(Credential(apiKey)) <==> Driver.IsHeaderValue(apiKey)
  {
    var c := Credential(apiKey);
    assert forall k :: 0 <= k < |apiKey| ==> c[k + 7] == apiKey[k];
    if Driver.IsHeaderValue(apiKey) {
      forall k | 0 <= k < |c| ensures c[k] == '\t' || (c[k] as int >= 0x20 && c[k] as int != 0x7F) {
        if k >= 7 {
          assert c[k] == apiKey[k - 7];
        }
      }
    }
  }
}
