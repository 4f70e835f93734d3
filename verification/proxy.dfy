/**
 * The proxy service's shared pieces (services/proxy/mod.rs): the three UI event names and the
 * emit helpers, the chunk wire format, the error type, API-key loading with its log redaction,
 * and the provider dispatch of `get_provider`.
 */
module Proxy {
  import opened Wrappers
  import Json

  // ---------------------------------------------------------------------------------------
  // Events and the window they are emitted to
  // ---------------------------------------------------------------------------------------

  const ChunkEventName: string := "ai-stream-chunk"
  const ErrorEventName: string := "ai-stream-error"
  const EndEventName: string := "ai-stream-end"

  /** What the UI receives: a chunk of wire text, an error message, or the end of the stream. */
  datatype Event = Chunk(data: string) | Error(message: string) | End

  /** An event a provider decoder may produce: never `End`, which only the session driver emits. */
  type Notice = e: Event | !e.End? witness Error("")

  /** The name `emit_chunk`, `emit_error` and `emit_end` emit under; it tells the three apart. */
  function EventName(e: Event): (name: string)
    ensures name == ChunkEventName <==> e.Chunk?
    ensures name == ErrorEventName <==> e.Error?
    ensures name == EndEventName <==> e.End?
  {
    match e
    case Chunk(_) => ChunkEventName
    case Error(_) => ErrorEventName
    case End => EndEventName
  }

  /** The chunk wire format shared with the UI: `"0:"`, the text as a JSON string, a line feed. */
  function Envelope(text: string): (data: string)
    ensures |data| >= 5 && data[..2] == "0:" && data[|data| - 1] == '\n'
    ensures data[2..|data| - 1] == Json.Quote(text)
  {
    "0:" + Json.Quote(text) + "\n"
  }

  /** What the UI reads back out of a chunk's data. */
  function Unenvelope(data: string): Option<string> {
    if |data| >= 3 && data[..2] == "0:" && data[|data| - 1] == '\n' then Json.Unquote(data[2..|data| - 1])
    else None
  }

  /** Text fidelity: the UI recovers exactly the text that went into a chunk. */
  lemma EnvelopeRoundTrip(text: string)
    ensures Unenvelope(Envelope(text)) == Some(text)
  {
    Json.QuoteRoundTrip(text);
  }

  /** `ProxyError`, without the foreign error values some variants wrap. */
  datatype ProxyError =
    | ApiKey(message: string)
    | Http(detail: string)
    | Status(code: nat)
    | EmitFailed(message: string)

  /**
   * The Tauri window as an append-only event log. `Window::emit` fails for the emission made
   * when the log has length `failAt` (the window went away); `None` means every emit succeeds.
   */
  datatype Window = Window(log: seq<Event>, failAt: Option<nat>)

  /** The window after an emit, and the error if the emit failed. */
  datatype Emitted = Emitted(window: Window, failure: Option<ProxyError>)

  /** The error the emit helpers map a failed `Window::emit` to (the foreign cause is not modelled). */
  function EmitFailure(e: Event): ProxyError {
    match e
    case Chunk(_) => EmitFailed("Failed to emit chunk event")
    case Error(_) => EmitFailed("Failed to emit error event")
    case End => EmitFailed("Failed to emit end event")
  }

  /** The emission made by `emit_chunk`, `emit_error` or `emit_end`: appended, or failed with nothing appended. */
  function Emit(w: Window, e: Event): (r: Emitted)
    ensures r.window.failAt == w.failAt
    ensures r.failure.None? <==> w.failAt != Some(|w.log|)
    ensures r.failure.None? ==> r.window.log == w.log + [e]
    ensures r.failure.Some? ==> r.window == w && r.failure.value == EmitFailure(e)
  {
    if w.failAt == Some(|w.log|) then Emitted(w, Some(EmitFailure(e)))
    else Emitted(w.(log := w.log + [e]), None)
  }

  /** The window fails on one of the next `n` emissions. */
  predicate FailsWithin(w: Window, n: nat) {
    w.failAt.Some? && |w.log| <= w.failAt.value < |w.log| + n
  }

  /**
   * Emitting `es` in order, each with `?`: all are appended, or a failing emission stops the
   * rest (`EmitAllFailure` says which one, and what is in the log then).
   */
  function EmitAll(w: Window, es: seq<Event>): (r: Emitted)
    ensures r.window.failAt == w.failAt
    ensures r.failure.None? <==> !FailsWithin(w, |es|)
    ensures r.failure.None? ==> r.window.log == w.log + es
    ensures w.log <= r.window.log <= w.log + es
    decreases |es|
  {
    if es == [] then Emitted(w, None)
    else
      var first := Emit(w, es[0]);
      if first.failure.Some? then first
      else
        assert w.log + [es[0]] + es[1..] == w.log + es;
        EmitAll(first.window, es[1..])
  }

  /**
   * The first failing emission stops the rest: when the window fails at the `k`-th of the
   * events, exactly the `k` events before it are in the log and the error names the failing one.
   */
  lemma {:induction false} EmitAllFailure(w: Window, es: seq<Event>)
    requires FailsWithin(w, |es|)
    ensures var r := EmitAll(w, es);
            var k := w.failAt.value - |w.log|;
            r.window.log == w.log + es[..k] && r.failure == Some(EmitFailure(es[k]))
    decreases |es|
  {
    var first := Emit(w, es[0]);
    if first.failure.None? {
      EmitAllFailure(first.window, es[1..]);
      var k := w.failAt.value - |w.log|;
      assert (w.log + [es[0]]) + es[1..][..k - 1] == w.log + es[..k];
    }
  }

  /** Emitting `a + b` is emitting `a` and then, unless that failed, `b`. */
  lemma {:induction false} EmitAllAppend(w: Window, a: seq<Event>, b: seq<Event>)
    ensures EmitAll(w, a + b) == (var r := EmitAll(w, a); if r.failure.Some? then r else EmitAll(r.window, b))
    decreases |a|
  {
    if a == [] {
      assert a + b == b;
    } else {
      assert (a + b)[0] == a[0];
      assert (a + b)[1..] == a[1..] + b;
      var first := Emit(w, a[0]);
      if first.failure.None? {
        EmitAllAppend(first.window, a[1..], b);
      }
    }
  }

  // ---------------------------------------------------------------------------------------
  // API keys and providers
  // ---------------------------------------------------------------------------------------

  /** The providers `get_provider` knows. */
  datatype ProviderKind = Anthropic | OpenAI

  /** The environment variable holding a provider's API key, for the supported provider names. */
  function KeyName(provider: string): (r: Option<string>)
    ensures r.Some? <==> provider == "anthropic" || provider == "openai"
  {
    if provider == "anthropic" then Some("ANTHROPIC_API_KEY")
    else if provider == "openai" then Some("OPENAI_API_KEY")
    else None
  }

  /**
   * `load_api_key` with the environment (after `.env` loading) as a map, and with the corrected
   * redaction `Redact`, which cannot panic: an unsupported name fails before any lookup;
   * otherwise the variable's value is returned unchanged, or an `ApiKey` error naming the
   * variable when it is not set. `LoadApiKeyAsWritten` is the code as written.
   */
  function LoadApiKey(provider: string, env: map<string, string>): (r: Result<string, ProxyError>)
    ensures KeyName(provider).None? ==> r == Failure(ApiKey("Unsupported provider: " + provider))
    ensures KeyName(provider).Some? && KeyName(provider).value in env ==>
              r == Success(env[KeyName(provider).value])
    ensures KeyName(provider).Some? && KeyName(provider).value !in env ==>
              r == Failure(ApiKey("Failed to load " + KeyName(provider).value + ": environment variable not found"))
  {
    match KeyName(provider)
    case None => Failure(ApiKey("Unsupported provider: " + provider))
    case Some(keyName) =>
      if keyName in env then Success(env[keyName])
      else Failure(ApiKey("Failed to load " + keyName + ": environment variable not found"))
  }

  /** `load_api_key` looks up one variable only: environments that agree on it give the same result. */
  lemma LoadApiKeyReadsOneVariable(provider: string, env1: map<string, string>, env2: map<string, string>)
    requires KeyName(provider).None? ||
             (var k := KeyName(provider).value; (k in env1 <==> k in env2) && (k in env1 ==> env1[k] == env2[k]))
    ensures LoadApiKey(provider, env1) == LoadApiKey(provider, env2)
  {
  }

  /** The two providers read different variables. */
  lemma KeyNamesDiffer()
    ensures KeyName("anthropic") != KeyName("openai")
  {
    assert "ANTHROPIC_API_KEY"[0] != "OPENAI_API_KEY"[0];
  }

  /** A provider implementation holding its key, what `get_provider` boxes. */
  datatype Provider = Provider(kind: ProviderKind, apiKey: string)

  /**
   * `get_provider`: loads the key first, so an unsupported name fails inside `load_api_key`
   * (the dispatch's own fallback arm is never reached); a supported name gives its variant.
   */
  function GetProvider(provider: string, env: map<string, string>): (r: Result<Provider, ProxyError>)
    ensures r.Success? <==> KeyName(provider).Some? && KeyName(provider).value in env
    ensures r.Success? ==> r.value.apiKey == env[KeyName(provider).value]
    ensures r.Success? ==> (r.value.kind == Anthropic <==> provider == "anthropic")
    ensures r.Failure? ==> r == LoadApiKey(provider, env).PropagateFailure()
  {
    var key :- LoadApiKey(provider, env);
    if provider == "anthropic" then Success(Provider(Anthropic, key))
    else if provider == "openai" then Success(Provider(OpenAI, key))
    else Failure(ApiKey("Unsupported provider: " + provider))
  }

  // ---------------------------------------------------------------------------------------
  // Key redaction for the debug log
  // ---------------------------------------------------------------------------------------

  const TooShortToRedact: string := "Key too short to redact safely"

  /** The number of bytes UTF-8 uses for `c`. */
  function Utf8Length(c: char): (n: nat)
    ensures 1 <= n <= 4
  {
    var v := c as int;
    if v < 0x80 then 1 else if v < 0x800 then 2 else if v < 0x1_0000 then 3 else 4
  }

  /** `str::len`: the length of `s` in UTF-8 bytes. */
  function ByteLength(s: string): (n: nat)
    ensures n >= |s|
  {
    if s == [] then 0 else Utf8Length(s[0]) + ByteLength(s[1..])
  }

  /** The character index at byte offset `b` of `s`, when `b` is a character boundary. */
  function CharIndexAt(s: string, b: nat): (r: Option<nat>)
    ensures r.Some? ==> r.value <= |s|
    decreases |s|
  {
    if b == 0 then Some(0)
    else if s == [] || Utf8Length(s[0]) > b then None
    else
      match CharIndexAt(s[1..], b - Utf8Length(s[0]))
      case Some(i) => Some(i + 1)
      case None => None
  }

  /**
   * The redaction at mod.rs:70-74 as written: `key.len()` counts bytes and `&key[..5]`,
   * `&key[len - 5..]` slice at byte offsets, which panics (`None` here) off a character boundary.
   */
  function RedactAsWritten(key: string): (r: Option<string>)
    ensures ByteLength(key) <= 10 ==> r == Some(TooShortToRedact)
    ensures ByteLength(key) > 10 ==>
              (r.None? <==> CharIndexAt(key, 5).None? || CharIndexAt(key, ByteLength(key) - 5).None?)
    ensures ByteLength(key) > 10 && r.Some? ==>
              r.value == key[..CharIndexAt(key, 5).value] + "..."
                         + key[CharIndexAt(key, ByteLength(key) - 5).value..]
  {
    var len := ByteLength(key);
    if len > 10 then
      match (CharIndexAt(key, 5), CharIndexAt(key, len - 5))
      case (Some(i), Some(j)) => Some(key[..i] + "..." + key[j..])
      case _ => None
    else Some(TooShortToRedact)
  }

  /**
   * The redaction as intended, in characters: a key longer than ten characters shows only its
   * first five and last five around `"..."`; a shorter key is replaced by a fixed text.
   */
  function Redact(key: string): (r: string)
    ensures |key| > 10 ==> |r| == 13 && r[..5] == key[..5] && r[5..8] == "..." && r[8..] == key[|key| - 5..]
    ensures |key| <= 10 ==> r == TooShortToRedact
  {
    if |key| > 10 then key[..5] + "..." + key[|key| - 5..] else TooShortToRedact
  }

  /** The redaction reveals nothing of a long key but its first and last five characters. */
  lemma RedactRevealsOnlyEnds(k1: string, k2: string)
    requires |k1| > 10 && |k2| > 10
    requires k1[..5] == k2[..5] && k1[|k1| - 5..] == k2[|k2| - 5..]
    ensures Redact(k1) == Redact(k2)
  {
  }

  predicate IsAscii(s: string) {
    forall k :: 0 <= k < |s| ==> (s[k] as int) < 0x80
  }

  lemma {:induction false} AsciiByteLength(s: string)
    requires IsAscii(s)
    ensures ByteLength(s) == |s|
    ensures forall b :: 0 <= b <= |s| ==> CharIndexAt(s, b) == Some(b)
    decreases |s|
  {
    if s != [] {
      assert IsAscii(s[1..]) by { assert forall k :: 0 <= k < |s| - 1 ==> s[1..][k] == s[k + 1]; }
      AsciiByteLength(s[1..]);
      assert Utf8Length(s[0]) == 1;
      forall b | 1 <= b <= |s| ensures CharIndexAt(s, b) == Some(b) {
        assert CharIndexAt(s[1..], b - 1) == Some(b - 1);
      }
    }
  }

  /** For an ASCII key, which is what API keys are, the code as written redacts as intended. */
  lemma RedactAsWrittenAgreesOnAscii(key: string)
    requires IsAscii(key)
    ensures RedactAsWritten(key) == Some(Redact(key))
  {
    AsciiByteLength(key);
  }

  /**
   * A key of six `é` is 12 bytes long, so the code slices it, but byte 5 falls inside the third
   * `é`: `&key[..5]` panics, where the intended redaction replaces the key by the fixed text.
   */
  lemma RedactAsWrittenPanicsOffCharBoundary()
    ensures RedactAsWritten("\U{E9}\U{E9}\U{E9}\U{E9}\U{E9}\U{E9}") == None
    ensures Redact("\U{E9}\U{E9}\U{E9}\U{E9}\U{E9}\U{E9}") == TooShortToRedact
  {
    var key := "\U{E9}\U{E9}\U{E9}\U{E9}\U{E9}\U{E9}";
    assert Utf8Length('\U{E9}') == 2;
    assert ByteLength(key[5..]) == 2;
    assert ByteLength(key[4..]) == 4;
    assert ByteLength(key[3..]) == 6;
    assert ByteLength(key[2..]) == 8;
    assert ByteLength(key[1..]) == 10;
    assert ByteLength(key) == 12;
    assert CharIndexAt(key[2..], 1) == None;
    assert CharIndexAt(key[1..], 3) == None;
    assert CharIndexAt(key, 5) == None;
  }

  // ---------------------------------------------------------------------------------------
  // Key loading as written: the redaction runs on every key that is set
  // ---------------------------------------------------------------------------------------

  /**
   * `load_api_key` as written: `redacted` is computed before `debug!` and whether or not debug
   * logging is on, so a set key whose byte slicing panics panics the call (`None` here). When
   * it does not panic, it returns what the corrected `LoadApiKey` returns.
   */
  function LoadApiKeyAsWritten(provider: string, env: map<string, string>): (r: Option<Result<string, ProxyError>>)
    ensures r.None? <==> KeyName(provider).Some? && KeyName(provider).value in env
                         && RedactAsWritten(env[KeyName(provider).value]).None?
    ensures r.Some? ==> r.value == LoadApiKey(provider, env)
  {
    match KeyName(provider)
    case None => Some(Failure(ApiKey("Unsupported provider: " + provider)))
    case Some(keyName) =>
      if keyName !in env then Some(Failure(ApiKey("Failed to load " + keyName + ": environment variable not found")))
      else if RedactAsWritten(env[keyName]).None? then None
      else Some(Success(env[keyName]))
  }

  /** `get_provider` as written: it panics exactly when the `load_api_key` it calls first panics. */
  function GetProviderAsWritten(provider: string, env: map<string, string>): (r: Option<Result<Provider, ProxyError>>)
    ensures r.None? <==> LoadApiKeyAsWritten(provider, env).None?
    ensures r.Some? ==> r.value == GetProvider(provider, env)
  {
    match LoadApiKeyAsWritten(provider, env)
    case None => None
    case Some(_) => Some(GetProvider(provider, env))
  }

  /** An `ANTHROPIC_API_KEY` of six `é` makes `get_provider("anthropic")` panic, where the corrected code returns the provider. */
  lemma GetProviderPanicsOnWideKey()
    ensures var env := map["ANTHROPIC_API_KEY" := "\U{E9}\U{E9}\U{E9}\U{E9}\U{E9}\U{E9}"];
            && GetProviderAsWritten("anthropic", env).None?
            && GetProvider("anthropic", env) == Success(Provider(Anthropic, env["ANTHROPIC_API_KEY"]))
  {
    RedactAsWrittenPanicsOffCharBoundary();
  }

  /** With an ASCII key, which is what API keys are, `load_api_key` as written never panics and agrees with the corrected one. */
  lemma LoadApiKeyAsWrittenAgreesOnAscii(provider: string, env: map<string, string>)
    requires KeyName(provider).Some? && KeyName(provider).value in env ==> IsAscii(env[KeyName(provider).value])
    ensures LoadApiKeyAsWritten(provider, env) == Some(LoadApiKey(provider, env))
  {
    if KeyName(provider).Some? && KeyName(provider).value in env {
      RedactAsWrittenAgreesOnAscii(env[KeyName(provider).value]);
    }
  }
}
