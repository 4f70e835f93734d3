# Streaming response normaliser of the robin desktop app, in Dafny

The desktop app forwards a chat request to Anthropic's Messages API or OpenAI's Chat Completions
API and turns each provider's server-sent-event stream into one uniform stream of UI events:

- `ai-stream-chunk` carries `0:<JSON string>\n`;
- `ai-stream-error` carries a message;
- `ai-stream-end` marks a successful end.

This project models that normaliser as pure functions and proves what it promises. It also models
the small registry of running MCP services.

Modules, one per file:

- `Wrappers` (wrappers.dfy): `Option`, `Result` and `Outcome`.
- `Text` (text.dfy): the Rust `str` operations the code relies on. These are `trim` (with the exact Unicode White_Space set), `lines`, `strip_prefix`, and decimal rendering.
- `Json` (json.dfy): JSON values, and serde's rules for reading struct fields. It also has the string quoting that `serde_json::to_string` applies (section 7 of RFC 8259), with its inverse. Parsing JSON text is a parameter `Parser`, so every property holds whatever the parser returns.
- `Frames` (frames.dfy): the buffer that cuts decoded text into frames at each blank line `"\n\n"`.
- `Sse` (sse.dfy): which `data: ` lines of a frame are decoded. OpenAI decodes all of them; Anthropic decodes only the last.
- `Proxy` (proxy.dfy), from services/proxy/mod.rs:
  - the event names and the chunk envelope;
  - `ProxyError`;
  - the UI window as an append-only event log that may fail at one chosen emission;
  - API-key loading, `get_provider`, and the debug-log key redaction.
- `Driver` (driver.dfy): the session loop that both providers' `stream` methods implement in the same shape. It covers:
  - the header check and a failed send;
  - the non-success status;
  - per-chunk UTF-8 failures and read failures;
  - frame draining, and `End`.

  It is written once, over a frame decoder.
- `AnthropicStream` (anthropic.rs) and `OpenAIStream` (openai.rs): each provider's typed event view, what each event emits, and its frame decoder.
- `Dispatch` (dispatch.dfy): the `ProxyProvider` trait dispatch.
- `Registry` (registry.dfy): `ServiceManager` of services/mcp/service.rs.

The transport is a list of items. Each item is a chunk already decoded as UTF-8, a chunk that is
not valid UTF-8, or a read error. The UI window is a log plus an optional position at which
`Window::emit` fails. With these inputs, each session is a total function from inputs to the
final log and the returned `Result`.

Behaviours of the code worth knowing:

- OpenAI decodes every `data: ` line of a frame in order (openai.rs:105-106). Anthropic keeps only the last one (anthropic.rs:104-109).
- A payload that fails to parse emits an `ai-stream-error` for OpenAI (openai.rs:142-148). For Anthropic it is skipped without an event (anthropic.rs:170-172).
- A failed emit is not swallowed. Every emit is followed by `?`, so it ends the session with `ProxyError::Emit`.
- On a non-success status the body is read, and its text goes into the error message (anthropic.rs:75-82).
- The bare delta `{"choices":[{"delta":{"content":"Hi"}}]}` fails the typed view, because `id`, `object`, `created`, `model` and `index` are required (openai.rs:24-46). It therefore emits a parse error naming the choice's missing `index`, not a chunk (`OpenAIStream.BareDeltaRejected`).
- serde's derived `Deserialize` reads a struct in two phases. Every present key's value is read first, and a fault there is reported at once, even from inside a nested struct. Only then are required fields that never appeared reported as missing, in declaration order. The typed views here follow the same two phases.
- `load_api_key` computes the redacted key on every call where the key is set, whatever the log level. So the byte slicing at mod.rs:70-71 can panic the call itself (see Findings).

## Model

| member | source | states |
|---|---|---|
| Text.Trim | src-tauri/src/services/proxy/anthropic.rs:101 | `str::trim`: the result is a slice of the input, everything cut off at either end is Unicode whitespace, and the result neither starts nor ends with whitespace |
| Text.Lines | src-tauri/src/services/proxy/anthropic.rs:105 | `str::lines`: no line contains a line feed, and there are never more lines than characters |
| Text.LinesJoin | src-tauri/src/services/proxy/openai.rs:105 | for text without carriage returns that does not end in a line feed, the lines joined with `'\n'` give the text back: splitting into lines loses nothing |
| Text.StripPrefix | src-tauri/src/services/proxy/anthropic.rs:106 | `strip_prefix` succeeds exactly when the text starts with the prefix, and then the text is the prefix followed by the result |
| Text.Decimal | src-tauri/src/services/proxy/anthropic.rs:79-82 | the status code is rendered as a non-empty string of digits without a leading zero whose value is the code |
| Json.PresentString | src-tauri/src/services/proxy/anthropic.rs:44-49 | first phase of a `String` field: nothing when the key is absent; otherwise it reads successfully exactly when the value is a string, and yields that string |
| Json.Required | src-tauri/src/services/proxy/openai.rs:24-36 | second phase: a required field no key supplied fails with ``missing field `name` ``; a supplied one is passed on unchanged |
| Json.OptionalString | src-tauri/src/services/proxy/anthropic.rs:37-42 | an `Option<String>` field is `None` exactly when the key is absent or `null`, and fails exactly when the value is present and not a string |
| Json.OptionalValue | src-tauri/src/services/proxy/anthropic.rs:29-31 | an `Option<Value>` field never fails; it is `None` exactly when absent or `null`, otherwise the value itself, never `Some(null)` |
| Json.PresentUnsigned | src-tauri/src/services/proxy/openai.rs:30 | first phase of a `u64`/`u32` field: nothing when the key is absent; otherwise it succeeds exactly when the value is an integer in range, and yields it |
| Json.OptionalUnsigned | src-tauri/src/services/proxy/anthropic.rs:33-34 | an `Option<u32>` field is `None` exactly when absent or `null`; otherwise it succeeds exactly on an integer in range |
| Json.Quote | src-tauri/src/services/proxy/anthropic.rs:129-131 | `serde_json::to_string` of a `String` is a double-quoted literal with no raw control character |
| Json.EscapeCharRoundTrip | src-tauri/src/services/proxy/anthropic.rs:129-131 | the escape written for any character decodes back to that character, whatever follows it |
| Json.ControlEscapeRoundTrip | src-tauri/src/services/proxy/openai.rs:124-126 | a control character without a short escape is written as `\u00` and two lower-case hex digits, and decodes back |
| Json.EscapeRoundTrip | src-tauri/src/services/proxy/openai.rs:124-126 | decoding the escaped text gives the original text |
| Json.QuoteRoundTrip | src-tauri/src/services/proxy/anthropic.rs:129-134 | reading the quoted literal back gives exactly the original text |
| Json.QuoteInjective | src-tauri/src/services/proxy/openai.rs:124-130 | different texts never produce the same chunk literal |
| Frames.FirstDelimiter | src-tauri/src/services/proxy/anthropic.rs:100 | `buffer.find("\n\n")`: the position found starts a blank line and none starts earlier; no position exactly when the buffer has no blank line |
| Frames.FindDelimiter | src-tauri/src/services/proxy/openai.rs:101 | the left-to-right scan returns the first blank line, and nothing exactly when there is none |
| Frames.Drain | src-tauri/src/services/proxy/anthropic.rs:100-103 | the text the inner loop keeps is a suffix of the buffer: what follows the last frame it cut |
| Frames.Trimmed | src-tauri/src/services/proxy/anthropic.rs:101 | frame k the decoder sees is raw frame k with its surrounding whitespace trimmed, one for one |
| Frames.DrainSpec | src-tauri/src/services/proxy/anthropic.rs:100-103 | the frames cut off, each followed by its delimiter, and then the kept rest put together give the buffer back; no frame holds a delimiter or ends in a line feed; the rest holds no delimiter |
| Frames.DrainUnique | src-tauri/src/services/proxy/openai.rs:101-103 | any way of writing the buffer as such frames plus a delimiter-free rest is the split the loop finds, so a frame is always the text before the first remaining delimiter |
| Frames.CutFrame | src-tauri/src/services/proxy/anthropic.rs:100-102 | the text before the first delimiter is a frame, and the buffer is that frame, `"\n\n"`, and the text after it |
| Frames.FirstDelimiterAfterRawFrame | src-tauri/src/services/proxy/anthropic.rs:100 | after a frame and its delimiter, the first delimiter found is the one directly after the frame |
| Frames.DrainBuffer | src-tauri/src/services/proxy/anthropic.rs:100-103 | the inner `while let` loop yields exactly the trimmed frames and the kept rest of the split above |
| Frames.DrainStep | src-tauri/src/services/proxy/openai.rs:101-103 | one pass cuts the trimmed text before the first delimiter and continues after the delimiter |
| Frames.DrainAppend | src-tauri/src/services/proxy/anthropic.rs:98-103 | appending two texts one after the other cuts the same frames, and keeps the same rest, as appending them at once |
| Frames.FramesAppend | src-tauri/src/services/proxy/openai.rs:99-103 | the same for the trimmed frames the decoders receive |
| Sse.DataPayload | src-tauri/src/services/proxy/anthropic.rs:106 | a line has a payload exactly when it starts with `data: `, and the line is that prefix followed by the payload |
| Sse.DataPayloads | src-tauri/src/services/proxy/openai.rs:105-106 | at most one payload per line, and none at all exactly when no line is a data line |
| Sse.DataPayloadsAppend | src-tauri/src/services/proxy/openai.rs:105-106 | the data payloads of two runs of lines are those of the first followed by those of the second: none is reordered or lost |
| Sse.LastDataPayloadFromIsLast | src-tauri/src/services/proxy/anthropic.rs:104-109 | the overwriting loop ends with the last data payload, or its starting value when there is no data line |
| Sse.LastDataPayload | src-tauri/src/services/proxy/anthropic.rs:104-114 | Anthropic's `data_line` is the last of the payloads OpenAI would decode from the same lines, or empty when there is none |
| Proxy.EventName | src-tauri/src/services/proxy/mod.rs:19-21 | each of the three event names is used exactly for its kind of event |
| Proxy.Envelope | src-tauri/src/services/proxy/anthropic.rs:132-135 | the chunk data starts with `0:`, ends with a line feed, and holds the quoted text in between |
| Proxy.EnvelopeRoundTrip | src-tauri/src/services/proxy/openai.rs:124-130 | the UI reads back from a chunk exactly the text that went into it |
| Proxy.Emit | src-tauri/src/services/proxy/mod.rs:103-126 | an emit fails exactly when the window fails at this emission, and then appends nothing and returns the helper's `Emit` error; otherwise it appends the event |
| Proxy.EmitAll | src-tauri/src/services/proxy/openai.rs:121-131 | emitting events in order, each with `?`, succeeds exactly when the window does not fail during them, and then appends all of them; the log only grows |
| Proxy.EmitAllFailure | src-tauri/src/services/proxy/openai.rs:121-131 | when the window fails at the k-th event, exactly the k events before it are in the log and the error names the failing event's kind |
| Proxy.EmitAllAppend | src-tauri/src/services/proxy/openai.rs:121-140 | emitting two runs of events is emitting the first and then, unless that failed, the second |
| Proxy.KeyName | src-tauri/src/services/proxy/mod.rs:55-64 | there is a key variable exactly for the names `anthropic` and `openai` |
| Proxy.LoadApiKey | src-tauri/src/services/proxy/mod.rs:53-84 | corrected `load_api_key`, whose redaction cannot panic. An unsupported name fails with `Unsupported provider: <name>` before any lookup. A set variable's value is returned unchanged. An unset one fails with an `ApiKey` error naming the variable |
| Proxy.LoadApiKeyReadsOneVariable | src-tauri/src/services/proxy/mod.rs:68 | the result depends on the provider's one variable only |
| Proxy.KeyNamesDiffer | src-tauri/src/services/proxy/mod.rs:56-57 | the two providers read different variables |
| Proxy.GetProvider | src-tauri/src/services/proxy/mod.rs:87-98 | corrected `get_provider`. It succeeds exactly for a supported name whose variable is set. The key is that variable's value, and the kind is Anthropic exactly for `anthropic`. Any failure is `load_api_key`'s |
| Proxy.LoadApiKeyAsWritten | src-tauri/src/services/proxy/mod.rs:53-84 | as written: the call panics exactly when the key is set and its byte-offset redaction panics; otherwise it returns what the corrected `load_api_key` returns |
| Proxy.GetProviderAsWritten | src-tauri/src/services/proxy/mod.rs:87-88 | as written: `get_provider` panics exactly when the `load_api_key` it calls first panics; otherwise it returns what the corrected one returns |
| Proxy.GetProviderPanicsOnWideKey | src-tauri/src/services/proxy/mod.rs:68-74 | with `ANTHROPIC_API_KEY` set to six `é`, `get_provider("anthropic")` as written panics, where the corrected code returns the Anthropic provider with that key |
| Proxy.LoadApiKeyAsWrittenAgreesOnAscii | src-tauri/src/services/proxy/mod.rs:68-76 | with an ASCII key, `load_api_key` as written never panics and returns what the corrected one does |
| Proxy.AsciiByteLength | src-tauri/src/services/proxy/mod.rs:70-71 | an ASCII key's byte length is its character count, and every byte offset up to it is a character boundary at that same index |
| Proxy.RedactAsWritten | src-tauri/src/services/proxy/mod.rs:70-74 | as written: a key of at most ten bytes is replaced by the fixed text. A longer key panics exactly when byte offset 5 or byte offset `len - 5` is not a character boundary; otherwise it shows the text before the first and after the second around `...` |
| Proxy.RedactAsWrittenPanicsOffCharBoundary | src-tauri/src/services/proxy/mod.rs:70-71 | a key of six `é` is 12 bytes long and byte 5 is no character boundary, so the slice panics, where the intended redaction gives the fixed text |
| Proxy.Redact | src-tauri/src/services/proxy/mod.rs:70-74 | a key longer than ten characters is shown as its first five characters, `...`, and its last five; a shorter key is replaced by the fixed text |
| Proxy.RedactRevealsOnlyEnds | src-tauri/src/services/proxy/mod.rs:70-71 | two long keys that agree on their first and last five characters are redacted identically, so nothing else of a key reaches the log |
| Proxy.RedactAsWrittenAgreesOnAscii | src-tauri/src/services/proxy/mod.rs:70-74 | on ASCII keys the code as written redacts exactly as intended |
| Driver.FramesEvents | src-tauri/src/services/proxy/anthropic.rs:100-174 | the events decoded from frames never include `End` |
| Driver.FramesEventsAppend | src-tauri/src/services/proxy/openai.rs:101-152 | the events of two runs of frames are those of the first followed by those of the second |
| Driver.Attempt | src-tauri/src/services/proxy/anthropic.rs:94-187 | the events one stream item makes the loop emit never include `End` |
| Driver.StatusMessage | src-tauri/src/services/proxy/anthropic.rs:75-82 | the status error starts with the provider's name and ends with the body text, or with `Failed to read error body` when the body could not be read |
| Driver.Carry | src-tauri/src/services/proxy/anthropic.rs:97-103 | after a decoded chunk, the kept buffer holds no blank line; after anything else, the buffer is unchanged |
| Driver.Step | src-tauri/src/services/proxy/anthropic.rs:93-189 | one item goes on exactly when it is no read error and no emit fails, and then appends exactly its events and keeps the drained buffer; otherwise the session stops with an error after a prefix of those events |
| Driver.Finish | src-tauri/src/services/proxy/anthropic.rs:192-194 | after the last item, `End` is appended and `Ok` returned, or the end emit fails and nothing is appended |
| Driver.Loop | src-tauri/src/services/proxy/openai.rs:93-172 | the loop only ever appends to the window |
| Driver.Stream | src-tauri/src/services/proxy/anthropic.rs:53-195 | a session only ever appends to the window |
| Driver.LoopTerminalOnce | src-tauri/src/services/proxy/anthropic.rs:92-194 | the loop returns `Ok` exactly when it emitted `End`, and no event follows an `End` |
| Driver.TerminalOnce | src-tauri/src/services/proxy/openai.rs:56-173 | a whole session returns `Ok` exactly when it emitted `End`, and `End` is its last event |
| Driver.NonSuccessStatus | src-tauri/src/services/proxy/anthropic.rs:73-85 | a non-success status emits exactly one error, naming the status and the body or the unread-body text, and returns `Status(code)`; if that emit fails, nothing is emitted and the emit error is returned |
| Driver.FirstReadFailure | src-tauri/src/services/proxy/anthropic.rs:183-188 | no position exactly when no read fails; otherwise the position of a read failure with none before it |
| Driver.ReliableStep | src-tauri/src/services/proxy/openai.rs:94-167 | with a window that accepts every emit, one item appends its events, and then a read error stops with `Http` while anything else goes on with the drained buffer |
| Driver.LoopOutcome | src-tauri/src/services/proxy/anthropic.rs:183-194 | with a window that accepts every emit, the loop returns `Ok` with `End` last exactly when no read fails; otherwise `Http` for the first read failure, whose error event is the last one emitted |
| Driver.ReadFailureStops | src-tauri/src/services/proxy/openai.rs:161-166 | items after a read failure are never read: they make no difference |
| Driver.UndecodableDropped | src-tauri/src/services/proxy/anthropic.rs:176-180 | a chunk that is not UTF-8 emits one error and is dropped; the buffer is carried over unchanged and the loop goes on |
| Driver.StepDelivery | src-tauri/src/services/proxy/mod.rs:103-126 | one item on a failing window: the log is the reliable log cut before the failing emit and the error is `Emit`; otherwise both windows take the same step |
| Driver.LoopDelivery | src-tauri/src/services/proxy/anthropic.rs:92-194 | a failed emit aborts the loop and loses nothing else: the log is the reliable run's log cut just before the failing emission and the error is `Emit`; a window that does not fail sees exactly the reliable run |
| Driver.StreamAccepted | src-tauri/src/services/proxy/anthropic.rs:86-90 | a valid key header and a success status run the loop on an empty buffer |
| Driver.Delivery | src-tauri/src/services/proxy/openai.rs:56-173 | the same abort-without-loss relation for a whole session |
| Driver.EarlyDelivery | src-tauri/src/services/proxy/anthropic.rs:59-85 | the same for sessions that end before the loop |
| Driver.AttemptJoin | src-tauri/src/services/proxy/anthropic.rs:97-103 | two decoded chunks in a row emit the same events as one chunk holding both texts |
| Driver.CarryJoin | src-tauri/src/services/proxy/openai.rs:98-103 | and they leave the same buffer behind |
| Driver.StepsJoin | src-tauri/src/services/proxy/anthropic.rs:94-103 | two decoded chunks take the same pass, window and outcome included, as one chunk holding both texts |
| Driver.SplitInvariance | src-tauri/src/services/proxy/openai.rs:93-103 | chunk-boundary independence: re-cutting the decoded text between two chunks changes nothing in the session, whatever surrounds them and whatever the window does |
| Driver.WholeStream | src-tauri/src/services/proxy/anthropic.rs:92-194 | decoded chunks on a reliable window emit the events of the frames of the whole text, then `End`, and return `Ok`; text after the last delimiter is never decoded |
| Driver.WholeSession | src-tauri/src/services/proxy/openai.rs:56-173 | an accepted session of decoded chunks on a reliable window emits the events of all frames of the concatenated text, then `End`, and returns `Ok` |
| AnthropicStream.DeltaOf | src-tauri/src/services/proxy/anthropic.rs:37-42 | a delta is read only from an object |
| AnthropicStream.ApiErrorOf | src-tauri/src/services/proxy/anthropic.rs:44-49 | an error detail is read only from an object whose `type` and `message` are the strings it holds |
| AnthropicStream.OptionalDelta | src-tauri/src/services/proxy/anthropic.rs:28 | the `delta` field is `None` exactly when absent or `null` |
| AnthropicStream.OptionalApiError | src-tauri/src/services/proxy/anthropic.rs:32 | the `error` field is `None` exactly when absent or `null` |
| AnthropicStream.EventOf | src-tauri/src/services/proxy/anthropic.rs:24-35 | an event is read only from an object whose `type` is its string event type, and its `message` and `usage` are never `Some(null)` |
| AnthropicStream.DeltaRoundTrip | src-tauri/src/services/proxy/anthropic.rs:37-42 | reading a delta back from its JSON gives the delta |
| AnthropicStream.EventRoundTrip | src-tauri/src/services/proxy/anthropic.rs:24-49 | reading an event back from its JSON gives the event: the view loses nothing it keeps |
| AnthropicStream.UnknownKeysIgnored | src-tauri/src/services/proxy/anthropic.rs:24-35 | keys the struct does not name make no difference to the view |
| AnthropicStream.ErrorMessageParts | src-tauri/src/services/proxy/anthropic.rs:153-158 | the error event's message names the error's type in brackets after the fixed prefix and ends with its message |
| AnthropicStream.EventNotices | src-tauri/src/services/proxy/anthropic.rs:119-168 | an event emits at most one notice: a chunk only for a text delta, reading back as its text, and an error only for an `error` event with details, reading `API Error Event: [type] message` |
| AnthropicStream.EventNoticesExactly | src-tauri/src/services/proxy/anthropic.rs:119-168 | an event emits something exactly when it is a text delta with text or an `error` event with details |
| AnthropicStream.OtherKindsSilent | src-tauri/src/services/proxy/anthropic.rs:140-167 | `message_start`, `message_delta`, `message_stop`, `ping` and unknown types emit nothing |
| AnthropicStream.NonTextDeltaSilent | src-tauri/src/services/proxy/anthropic.rs:123-139 | a `content_block_delta` without a `text_delta` carrying text emits nothing |
| AnthropicStream.PayloadNotices | src-tauri/src/services/proxy/anthropic.rs:116-172 | a payload emits at most one notice, and one only when it parses and reads as an event |
| AnthropicStream.FrameNotices | src-tauri/src/services/proxy/anthropic.rs:104-172 | a frame emits at most one notice |
| AnthropicStream.Stream | src-tauri/src/services/proxy/anthropic.rs:53-195 | an Anthropic session only ever appends to the window |
| AnthropicStream.LastDataLineWins | src-tauri/src/services/proxy/anthropic.rs:104-114 | a frame emits what its last data payload emits, and nothing when it has no data line or the last payload is empty |
| AnthropicStream.UndecodablePayloadSilent | src-tauri/src/services/proxy/anthropic.rs:170-172 | a payload that is not JSON, or not an event, emits nothing |
| AnthropicStream.TextDeltaFidelity | src-tauri/src/services/proxy/anthropic.rs:123-138 | any payload the typed view reads as a text delta, whatever else its JSON holds, reaches the UI as exactly one chunk from which the UI reads back its text |
| AnthropicStream.CanonicalTextDeltaRead | src-tauri/src/services/proxy/anthropic.rs:123-138 | the JSON of a text delta as the API writes it emits exactly that delta's text as one chunk |
| AnthropicStream.OverloadedErrorEvent | src-tauri/src/services/proxy/anthropic.rs:153-162 | an `overloaded_error` event emits the one error `API Error Event: [overloaded_error] Overloaded` |
| AnthropicStream.InvalidKeyRejected | src-tauri/src/services/proxy/anthropic.rs:59-64 | a key that is no valid header value fails with `ApiKey` before anything is sent, and nothing is emitted |
| OpenAIStream.DeltaOf | src-tauri/src/services/proxy/openai.rs:48-52 | a delta is read only from an object |
| OpenAIStream.ChoiceOf | src-tauri/src/services/proxy/openai.rs:38-46 | a choice is read only from an object holding `index` and `delta` |
| OpenAIStream.ChoicesOf | src-tauri/src/services/proxy/openai.rs:35 | the choices array gives one choice per element |
| OpenAIStream.CompletionOf | src-tauri/src/services/proxy/openai.rs:24-36 | a chunk is read only from an object holding `id`, `object`, `created`, `model` and a `choices` array, with one choice per element |
| OpenAIStream.ChoiceRoundTrip | src-tauri/src/services/proxy/openai.rs:38-52 | reading a choice back from its JSON gives the choice |
| OpenAIStream.ChoicesRoundTrip | src-tauri/src/services/proxy/openai.rs:35 | reading the choices back gives the same choices in the same order |
| OpenAIStream.CompletionRoundTrip | src-tauri/src/services/proxy/openai.rs:24-52 | reading a chunk back from its JSON gives the chunk: the view loses nothing it keeps |
| OpenAIStream.Contents | src-tauri/src/services/proxy/openai.rs:122-123 | the contents that reach the UI are never empty |
| OpenAIStream.ChoiceNotices | src-tauri/src/services/proxy/openai.rs:121-140 | a chunk's choices emit one notice per non-empty content |
| OpenAIStream.ChoiceNoticesCarryContents | src-tauri/src/services/proxy/openai.rs:121-131 | notice k is a chunk from which the UI reads back the k-th non-empty content |
| OpenAIStream.ContentsKeepAllText | src-tauri/src/services/proxy/openai.rs:122-123 | skipping empty contents loses no text: the chunk texts put together are all the content |
| OpenAIStream.OnlyContentMatters | src-tauri/src/services/proxy/openai.rs:121-140 | index, role, log-probabilities and finish reason never change what is emitted |
| OpenAIStream.CompletionFieldsOf | src-tauri/src/services/proxy/openai.rs:24-36 | first phase of a chunk: it succeeds only when every present field has its type, and it records which required keys were present |
| OpenAIStream.ParseMessage | src-tauri/src/services/proxy/openai.rs:142-147 | the parse error is the fixed prefix `Failed to parse OpenAI JSON: ` followed by the detail, which can be read back |
| OpenAIStream.PayloadNotices | src-tauri/src/services/proxy/openai.rs:107-148 | `[DONE]`, whitespace allowed around it, emits nothing. A payload that does not parse emits exactly `Failed to parse OpenAI JSON: <error>` |
| OpenAIStream.ViewOutcome | src-tauri/src/services/proxy/openai.rs:112-148 | a parsed payload the typed view rejects emits exactly one error carrying the view's fault. One it accepts emits one chunk per non-empty content, in order, each read back as that content |
| OpenAIStream.PayloadsSilent | src-tauri/src/services/proxy/openai.rs:105-151 | a frame's payloads emit nothing exactly when none of them emits anything |
| OpenAIStream.LineNoticesArePayloadsNotices | src-tauri/src/services/proxy/openai.rs:105-151 | decoding the data payloads in order is the same as visiting every line and decoding each `data: ` line's remainder |
| OpenAIStream.FrameNotices | src-tauri/src/services/proxy/openai.rs:102-151 | a frame emits, line by line in order, what each `data: ` line's payload emits, and nothing for any other line |
| OpenAIStream.Stream | src-tauri/src/services/proxy/openai.rs:56-173 | an OpenAI session only ever appends to the window |
| OpenAIStream.PayloadsNoticesAppend | src-tauri/src/services/proxy/openai.rs:105-151 | the payloads of two runs of lines emit those of the first followed by those of the second |
| OpenAIStream.DoneDoesNotStop | src-tauri/src/services/proxy/openai.rs:107-110 | `[DONE]` does not end the frame: the data lines after it are still decoded |
| OpenAIStream.AllDataLines | src-tauri/src/services/proxy/openai.rs:105-106 | every data line counts: two runs of lines emit both runs' events in order |
| OpenAIStream.ChunkFidelity | src-tauri/src/services/proxy/openai.rs:112-131 | any payload the typed view accepts emits the chunk's non-empty contents in order, each read back exactly, and together they are all of its text. This holds whatever else its JSON holds |
| OpenAIStream.CanonicalChunkRead | src-tauri/src/services/proxy/openai.rs:112-131 | a chunk written as the API writes it is read back and emits its contents |
| OpenAIStream.UnknownKeysIgnored | src-tauri/src/services/proxy/openai.rs:24-36 | keys the chunk struct does not name, such as `service_tier`, make no difference to the view |
| OpenAIStream.ChoiceUnknownKeysIgnored | src-tauri/src/services/proxy/openai.rs:38-46 | keys a choice does not name make no difference to it |
| OpenAIStream.ChoiceNullIsAbsent | src-tauri/src/services/proxy/openai.rs:43-45 | `"logprobs": null` and `"finish_reason": null`, as the API sends them, read the same as an absent key |
| OpenAIStream.MissingIdReported | src-tauri/src/services/proxy/openai.rs:142-148 | an object without `id` whose present fields all read emits one parse error naming the missing `id` |
| OpenAIStream.InvalidFieldReportedFirst | src-tauri/src/services/proxy/openai.rs:142-148 | `{"choices":5}` lacks four required fields, but the error it emits is the `choices` value's type, because present values are read first |
| OpenAIStream.BareDeltaRejected | src-tauri/src/services/proxy/openai.rs:112-148 | a bare `{"choices":[{"delta":{"content":"Hi"}}]}` emits exactly one parse error, naming the choice's missing `index`, and no chunk |
| OpenAIStream.CredentialValid | src-tauri/src/services/proxy/openai.rs:61-65 | the `Bearer ` header is valid exactly when the key is |
| Dispatch.ProviderStream | src-tauri/src/services/proxy/mod.rs:45-50 | streaming through the boxed provider only ever appends to the window |
| Dispatch.ProviderTerminalOnce | src-tauri/src/services/proxy/mod.rs:45-50 | whichever provider streams, it returns `Ok` exactly when it emitted `End`, and `End` is its last event |
| Dispatch.ProviderSelected | src-tauri/src/services/proxy/mod.rs:87-98 | an accepted name streams through the provider it names, holding the key from that provider's variable |
| Registry.AddService | src-tauri/src/services/mcp/service.rs:14-16 | the name is registered with the new handle, and every other entry is kept |
| Registry.GetService | src-tauri/src/services/mcp/service.rs:18-20 | a handle is found exactly when the name is registered, and it is that name's handle |
| Registry.RemoveService | src-tauri/src/services/mcp/service.rs:26-28 | the name is no longer registered, the handle taken is what `get_service` would have found, and other entries are kept |
| Registry.ListServices | src-tauri/src/services/mcp/service.rs:22-24 | every registered name exactly once, and nothing else |
| Registry.GetAfterAdd | src-tauri/src/services/mcp/service.rs:14-20 | after adding, the name finds the new handle, even when it was taken before |
| Registry.AddReplaces | src-tauri/src/services/mcp/service.rs:14-16 | adding twice under one name keeps only the second handle |
| Registry.GetAfterRemove | src-tauri/src/services/mcp/service.rs:18-28 | after removing, the name finds nothing |
| Registry.RemoveAbsent | src-tauri/src/services/mcp/service.rs:26-28 | removing an unregistered name returns nothing and changes nothing |
| Registry.OthersUnchanged | src-tauri/src/services/mcp/service.rs:14-28 | adding or removing one name leaves every other name's lookup as it was |
| Registry.RemoveUndoesAdd | src-tauri/src/services/mcp/service.rs:14-28 | removing what was just added under a fresh name restores the registry and returns the handle |

## Left out

- Building the HTTP request is not modelled: the URL, the content-type and `anthropic-version` headers, and the forwarded body. What the send returns is the `Reply` parameter: a transport error, or a status, reason phrase, body text and stream items.
- Parsing JSON text is not modelled. It is the `Parser` parameter, so every property holds for any parser.
- serde's error texts are approximated. A missing field is ``missing field `name` `` and a wrong type is a fixed text; serde's ` at line L column C` suffix is not modelled. Both phases of serde's reading are modelled.
- OpenAIStream.PayloadNotices: the detail after `Failed to parse OpenAI JSON: ` can name a different fault than serde's. `serde_json::from_str` parses and reads the struct in one pass, so it reports the first fault in the text, whether syntax or type: `{"id": 5, "object":` cut short is reported as the type fault on `id`. The model parses first and reads the typed view second, so it reports any syntax fault first, then type faults in declaration order, since a map has no key order. Which payloads emit an error, and that they emit exactly one, is the same.
- serde's reading of a struct given as a JSON array is left out.
- A JSON object is a map, so it cannot hold a repeated key. serde's ``duplicate field `id` `` error for a named field written twice is therefore left out; serde ignores repeated unknown keys, as the map does.
- Each chunk's UTF-8 decoding is an input. An item arrives decoded, or undecodable with the decoder's error text. So a character split across two network chunks is an undecodable chunk, just as `String::from_utf8` makes it.
- Proxy.EmitFailure: the `tauri::Error` cause after `Failed to emit … event: ` is not modelled. The message stops before the cause.
- Driver.ReadMessage and `ProxyError::Http` carry the transport's error text as an opaque string. The `reqwest::Error` value itself is not modelled.
- `ProxyError::Parse` from `serde_json::to_string(&text)` is not modelled. Serialising a `String` never fails, so that `?` never returns.
- Proxy.LoadApiKey: `env::var`'s second error, `NotUnicode`, is not modelled. The environment is a map from names to strings. Loading `.env` through `dotenv` happens before the map is built.
- Logging is not modelled (`debug!`, `info!`, `warn!`, `error!`). The one effect of logging that matters, computing the redacted key, is modelled by `Proxy.LoadApiKeyAsWritten`.
- The canonical reason phrase of a status code is an input (`reason`), not a table.
- Concurrency and async scheduling are out of scope. This includes the `Mutex` around `ServiceManager`.
- Registry.ListServices returns the names in an order it picks freely. `HashMap` key order is unspecified, so the contract states membership and uniqueness, not order.
- The MCP service handles are a type parameter. Starting, stopping and calling tools are out of scope (commands/mcp_commands.rs), as are errors.rs, lib.rs and proxy_commands.rs.

## Findings

| source | as written | input that shows it | evidently intended | confidence | as-written member | corrected member |
|---|---|---|---|---|---|---|
| src-tauri/src/services/proxy/mod.rs:70-71 | the key is redacted whenever it is set, before `debug!` and whatever the log level: when its byte length exceeds 10 it is sliced with `&key[..5]` and `&key[key.len() - 5..]` at byte offsets | `ANTHROPIC_API_KEY` set to six `é` characters: 12 bytes, and byte 5 is inside the third `é`, so `load_api_key("anthropic")`, and with it `get_provider("anthropic")`, panics | show the first and last five characters of a key longer than ten characters, and never panic | not executed; certain for such keys, but real API keys are ASCII, where the two agree (`Proxy.RedactAsWrittenAgreesOnAscii`, `Proxy.LoadApiKeyAsWrittenAgreesOnAscii`) | Proxy.RedactAsWritten, Proxy.RedactAsWrittenPanicsOffCharBoundary, Proxy.LoadApiKeyAsWritten, Proxy.GetProviderAsWritten, Proxy.GetProviderPanicsOnWideKey | Proxy.Redact, Proxy.RedactRevealsOnlyEnds, Proxy.LoadApiKey, Proxy.GetProvider |
