/**
 * The session driver that both `AnthropicProvider::stream` (anthropic.rs:53-195) and
 * `OpenAIProvider::stream` (openai.rs:56-173) implement in the same shape. It is written once
 * here, over the provider's frame decoder; the provider modules instantiate it.
 *
 * The transport is a list of items: a chunk already run through `String::from_utf8` (decoded
 * or not), or a read error. The window is the append-only event log of module Proxy.
 */
module Driver {
  import opened Wrappers
  import Text
  import Frames
  import opened Proxy

  /** One item of `response.bytes_stream()`, with the chunk's UTF-8 decoding already applied. */
  datatype Item =
    | Decoded(text: string)         // a chunk that is valid UTF-8
    | Undecodable(detail: string)   // a chunk that is not; `detail` is the decoder's error text
    | ReadFailed(detail: string)    // the transport failed to produce the next chunk

  /** An HTTP status code, as `reqwest::StatusCode` holds one. */
  type StatusCode = c: nat | 100 <= c < 1000 witness 200

  /** What sending the request gave: a transport error, or a status with its body and chunks. */
  datatype Reply =
    | SendFailed(detail: string)
    | Reply(code: StatusCode, reason: Option<string>, body: Option<string>, items: seq<Item>)

  /** The window after the session, and what `stream` returned. */
  datatype Run = Run(window: Window, outcome: Outcome<ProxyError>)

  /** A provider's decoder: the events one (trimmed) frame produces, in order. */
  type Decoder = string -> seq<Notice>

  /** `StatusCode::is_success`. */
  predicate IsSuccess(code: StatusCode) {
    200 <= code < 300
  }

  /** `HeaderValue::from_str` accepts tabs and every character from space up, except DEL. */
  predicate IsHeaderValue(s: string) {
    forall k :: 0 <= k < |s| ==> s[k] == '\t' || (s[k] as int >= 0x20 && s[k] as int != 0x7F)
  }

  /** `StatusCode`'s `Display`: the code and its canonical reason phrase. */
  function StatusText(code: StatusCode, reason: Option<string>): string {
    Text.Decimal(code) + " " + reason.GetOr("<unknown status code>")
  }

  /** The error of a non-success status: it names the provider and the status, and ends with the body, or a fixed text when it could not be read. */
  function StatusMessage(providerName: string, code: StatusCode, reason: Option<string>, body: Option<string>): (r: string)
    ensures |providerName| <= |r| && r[..|providerName|] == providerName
    ensures var tail := body.GetOr("Failed to read error body"); |tail| <= |r| && r[|r| - |tail|..] == tail
  {
    providerName + " API request failed with status " + StatusText(code, reason) + ": "
    + body.GetOr("Failed to read error body")
  }

  /** The message of `ApiKey` when the key is no valid header value (`InvalidHeaderValue`'s own text). */
  function InvalidKeyMessage(providerName: string): string {
    "Invalid " + providerName + " API key format: failed to parse header value"
  }

  function Utf8Message(detail: string): string {
    "Failed to decode chunk as UTF-8: " + detail
  }

  function ReadMessage(detail: string): string {
    "Error reading stream chunk: " + detail
  }

  /** The events of a run of frames, frame by frame in order. None of them is `End`. */
  function FramesEvents(decode: Decoder, frames: seq<string>): (r: seq<Event>)
    ensures forall k :: 0 <= k < |r| ==> !r[k].End?
  {
    if frames == [] then [] else decode(frames[0]) + FramesEvents(decode, frames[1..])
  }

  lemma {:induction false} FramesEventsAppend(decode: Decoder, a: seq<string>, b: seq<string>)
    ensures FramesEvents(decode, a + b) == FramesEvents(decode, a) + FramesEvents(decode, b)
    decreases |a|
  {
    if a == [] {
      assert a + b == b;
    } else {
      assert (a + b)[0] == a[0];
      assert (a + b)[1..] == a[1..] + b;
      FramesEventsAppend(decode, a[1..], b);
    }
  }

  /** The events one item makes the loop emit, in order, before it moves on or stops. */
  function Attempt(decode: Decoder, item: Item, buffer: string): (es: seq<Event>)
    ensures forall k :: 0 <= k < |es| ==> !es[k].End?
  {
    match item
    case Decoded(text) => FramesEvents(decode, Frames.Frames(buffer + text))
    case Undecodable(detail) => [Error(Utf8Message(detail))]
    case ReadFailed(detail) => [Error(ReadMessage(detail))]
  }

  /** The buffer after an item: a decoded chunk is appended and drained, anything else leaves it as it was. */
  function Carry(item: Item, buffer: string): (r: string)
    ensures !item.Decoded? ==> r == buffer
    ensures item.Decoded? ==> !Frames.HasDelimiter(r)
  {
    if item.Decoded? then
      Frames.DrainSpec(buffer + item.text);
      Frames.Drain(buffer + item.text).rest
    else buffer
  }

  /** What one pass of the loop decides: stop with a run, or go on with a buffer and a window. */
  datatype Next = Stop(run: Run) | Go(buffer: string, window: Window)

  /**
   * One pass of the `while let` loop for one item: emit its events, each with `?`; a failed
   * emit stops with that error, a read error stops with `Http` after its event, and otherwise
   * the loop goes on with the new buffer.
   */
  function Step(decode: Decoder, item: Item, buffer: string, w: Window): (n: Next)
    ensures n.Go? ==> n.window == w.(log := w.log + Attempt(decode, item, buffer))
                      && n.buffer == Carry(item, buffer)
                      && !item.ReadFailed?
    ensures n.Stop? ==> && n.run.outcome.Fail?
                        && n.run.window.failAt == w.failAt
                        && w.log <= n.run.window.log <= w.log + Attempt(decode, item, buffer)
    ensures n.Go? <==> !item.ReadFailed? && !FailsWithin(w, |Attempt(decode, item, buffer)|)
  {
    var out := EmitAll(w, Attempt(decode, item, buffer));
    if out.failure.Some? then Stop(Run(out.window, Fail(out.failure.value)))
    else if item.ReadFailed? then Stop(Run(out.window, Fail(Http(item.detail))))
    else Go(Carry(item, buffer), out.window)
  }

  /** After the last item: `emit_end(&window)?` and `Ok(())`. */
  function Finish(w: Window): (r: Run)
    ensures w.failAt != Some(|w.log|) ==> r == Run(w.(log := w.log + [End]), Pass)
    ensures w.failAt == Some(|w.log|) ==> r == Run(w, Fail(EmitFailed("Failed to emit end event")))
  {
    var out := Emit(w, End);
    Run(out.window, if out.failure.Some? then Fail(out.failure.value) else Pass)
  }

  /**
   * The `while let Some(item) = stream.next().await` loop, with `buffer` the text not yet cut
   * into frames. Events are only ever appended to the window.
   */
  function Loop(decode: Decoder, items: seq<Item>, buffer: string, w: Window): (r: Run)
    ensures w.log <= r.window.log
    ensures r.window.failAt == w.failAt
    decreases |items|
  {
    if items == [] then Finish(w)
    else
      match Step(decode, items[0], buffer, w)
      case Stop(r) => r
      case Go(rest, next) => Loop(decode, items[1..], rest, next)
  }

  /** A stop before any item is read: the window after one emit, and `error` unless the emit failed. */
  function Stopped(out: Emitted, error: ProxyError): Run {
    Run(out.window, Fail(if out.failure.Some? then out.failure.value else error))
  }

  /**
   * One provider's `stream`: `providerName` names the provider in messages and `credential` is the
   * header value built from its key. An invalid header value or a failed send returns an error
   * with no event; a non-success status emits one error and returns `Status`; otherwise the loop runs.
   */
  function Stream(providerName: string, decode: Decoder, credential: string, reply: Reply, w: Window): (r: Run)
    ensures w.log <= r.window.log
    ensures r.window.failAt == w.failAt
  {
    if !IsHeaderValue(credential) then
      Run(w, Fail(ApiKey(InvalidKeyMessage(providerName))))
    else
      match reply
      case SendFailed(detail) => Run(w, Fail(Http(detail)))
      case Reply(code, reason, body, items) =>
        if !IsSuccess(code) then Stopped(Emit(w, Error(StatusMessage(providerName, code, reason, body))), Status(code))
        else Loop(decode, items, "", w)
  }

  // ---------------------------------------------------------------------------------------
  // Properties
  // ---------------------------------------------------------------------------------------

  /** The events a run added to the window. */
  function Added(w: Window, r: Run): seq<Event>
    requires w.log <= r.window.log
  {
    r.window.log[|w.log|..]
  }

  lemma AddedThrough(w: Window, mid: Window, r: Run)
    requires w.log <= mid.log <= r.window.log
    ensures Added(w, r) == mid.log[|w.log|..] + r.window.log[|mid.log|..]
  {
    var all := r.window.log;
    assert all[|w.log|..] == all[|w.log|..|mid.log|] + all[|mid.log|..];
    assert all[|w.log|..|mid.log|] == mid.log[|w.log|..];
  }

  /** `End` is the last event of `es` and appears nowhere else. */
  predicate EndOnlyLast(es: seq<Event>) {
    forall k :: 0 <= k < |es| - 1 ==> !es[k].End?
  }

  /**
   * Terminal once, for the loop: the run returns `Ok` exactly when it emitted `End`, and no
   * event ever follows an `End`.
   */
  lemma {:induction false} LoopTerminalOnce(decode: Decoder, items: seq<Item>, buffer: string, w: Window)
    ensures var r := Loop(decode, items, buffer, w);
            && (r.outcome.Pass? <==> End in Added(w, r))
            && EndOnlyLast(Added(w, r))
    decreases |items|
  {
    var r := Loop(decode, items, buffer, w);
    if items != [] {
      var es := Attempt(decode, items[0], buffer);
      match Step(decode, items[0], buffer, w) {
        case Stop(run) =>
          assert r == run;
          NoEndBeforeStop(w, run, es);
        case Go(rest, next) =>
          LoopTerminalOnce(decode, items[1..], rest, next);
          NoEndBeforeGo(w, next, r, es);
      }
    }
  }

  /** A run stopped part-way through emitting events without `End` has emitted no `End`. */
  lemma NoEndBeforeStop(w: Window, run: Run, es: seq<Event>)
    requires w.log <= run.window.log <= w.log + es
    requires forall k :: 0 <= k < |es| ==> !es[k].End?
    ensures End !in Added(w, run) && EndOnlyLast(Added(w, run))
  {
    forall k | 0 <= k < |Added(w, run)| ensures Added(w, run)[k] == es[k] {
      assert run.window.log[|w.log| + k] == (w.log + es)[|w.log| + k];
    }
  }

  /** Events without `End` in front of a terminal-once tail keep it terminal-once. */
  lemma NoEndBeforeGo(w: Window, next: Window, r: Run, es: seq<Event>)
    requires next.log == w.log + es && next.log <= r.window.log
    requires forall k :: 0 <= k < |es| ==> !es[k].End?
    requires EndOnlyLast(Added(next, r))
    ensures End in Added(w, r) <==> End in Added(next, r)
    ensures EndOnlyLast(Added(w, r))
  {
    AddedThrough(w, next, r);
    assert next.log[|w.log|..] == es;
  }

  /**
   * Terminal once, for a whole session: `stream` returns `Ok` exactly when it emitted `End`,
   * and `End` is never followed by another event.
   */
  lemma TerminalOnce(providerName: string, decode: Decoder, credential: string, reply: Reply, w: Window)
    ensures var r := Stream(providerName, decode, credential, reply, w);
            && (r.outcome.Pass? <==> End in Added(w, r))
            && EndOnlyLast(Added(w, r))
  {
    if IsHeaderValue(credential) && reply.Reply? && IsSuccess(reply.code) {
      LoopTerminalOnce(decode, reply.items, "", w);
    }
  }

  /**
   * A non-success status emits exactly one error, naming the status and the body (or saying the
   * body could not be read), no chunk and no end, and returns `Status(code)`; nothing is read.
   * If that one emit fails, the emit error is returned instead.
   */
  lemma NonSuccessStatus(providerName: string, decode: Decoder, credential: string, code: StatusCode,
                         reason: Option<string>, body: Option<string>, items: seq<Item>, w: Window)
    requires IsHeaderValue(credential) && !IsSuccess(code)
    ensures var r := Stream(providerName, decode, credential, Reply(code, reason, body, items), w);
            && (w.failAt != Some(|w.log|) ==>
                  Added(w, r) == [Error(StatusMessage(providerName, code, reason, body))] && r.outcome == Fail(Status(code)))
            && (w.failAt == Some(|w.log|) ==>
                  Added(w, r) == [] && r.outcome == Fail(EmitFailed("Failed to emit error event")))
  {
  }

  predicate NoReadFailure(items: seq<Item>) {
    forall k :: 0 <= k < |items| ==> !items[k].ReadFailed?
  }

  /** The position of the first read failure, if any. */
  function FirstReadFailure(items: seq<Item>): (r: Option<nat>)
    ensures r.None? <==> NoReadFailure(items)
    ensures r.Some? ==> r.value < |items| && items[r.value].ReadFailed? && NoReadFailure(items[..r.value])
  {
    if items == [] then None
    else if items[0].ReadFailed? then Some(0)
    else
      match FirstReadFailure(items[1..])
      case None =>
        assert forall k :: 1 <= k < |items| ==> items[k] == items[1..][k - 1];
        None
      case Some(k) =>
        assert items[..k + 1] == [items[0]] + items[1..][..k];
        Some(k + 1)
  }

  /** `log` is not empty and ends with `e`. */
  predicate EndsWith(log: seq<Event>, e: Event) {
    log != [] && log[|log| - 1] == e
  }

  /** With a window that accepts every emit, one pass appends the item's events and stops only at a read failure. */
  lemma ReliableStep(decode: Decoder, items: seq<Item>, buffer: string, w: Window)
    requires items != [] && w.failAt.None?
    ensures var es := Attempt(decode, items[0], buffer);
            var next := w.(log := w.log + es);
            Loop(decode, items, buffer, w)
            == if items[0].ReadFailed? then Run(next, Fail(Http(items[0].detail)))
               else Loop(decode, items[1..], Carry(items[0], buffer), next)
  {
  }

  /**
   * With a window that accepts every emit: the loop returns `Ok`, with `End` as its last event,
   * exactly when no read fails; otherwise it returns `Http` for the first read failure, whose
   * error event is the last one emitted.
   */
  lemma {:induction false} LoopOutcome(decode: Decoder, items: seq<Item>, buffer: string, w: Window)
    requires w.failAt.None?
    ensures var r := Loop(decode, items, buffer, w);
            var first := FirstReadFailure(items);
            && (first.None? ==> r.outcome == Pass && EndsWith(r.window.log, End))
            && (first.Some? ==>
                  && r.outcome == Fail(Http(items[first.value].detail))
                  && EndsWith(r.window.log, Error(ReadMessage(items[first.value].detail))))
    decreases |items|
  {
    if items != [] {
      ReliableStep(decode, items, buffer, w);
      var next := w.(log := w.log + Attempt(decode, items[0], buffer));
      if !items[0].ReadFailed? {
        var first := FirstReadFailure(items[1..]);
        assert first.Some? ==> items[first.value + 1] == items[1..][first.value];
        LoopOutcome(decode, items[1..], Carry(items[0], buffer), next);
      }
    }
  }

  /** Nothing after a read failure is read: the items behind it make no difference. */
  lemma {:induction false} ReadFailureStops(decode: Decoder, items: seq<Item>, detail: string, later: seq<Item>,
                                            buffer: string, w: Window)
    ensures Loop(decode, items + [ReadFailed(detail)] + later, buffer, w)
            == Loop(decode, items + [ReadFailed(detail)], buffer, w)
    decreases |items|
  {
    var long := items + [ReadFailed(detail)] + later;
    var short := items + [ReadFailed(detail)];
    if items == [] {
      assert long[0] == short[0] == ReadFailed(detail);
    } else {
      assert long[0] == short[0] == items[0];
      assert long[1..] == items[1..] + [ReadFailed(detail)] + later;
      assert short[1..] == items[1..] + [ReadFailed(detail)];
      match Step(decode, items[0], buffer, w) {
        case Stop(run) =>
        case Go(rest, next) => ReadFailureStops(decode, items[1..], detail, later, rest, next);
      }
    }
  }

  /** An undecodable chunk emits one error and is dropped: the buffer is carried over unchanged. */
  lemma UndecodableDropped(decode: Decoder, detail: string, later: seq<Item>, buffer: string, w: Window)
    requires w.failAt != Some(|w.log|)
    ensures Loop(decode, [Undecodable(detail)] + later, buffer, w)
            == Loop(decode, later, buffer, w.(log := w.log + [Error(Utf8Message(detail))]))
  {
    assert ([Undecodable(detail)] + later)[1..] == later;
  }

  /** The window that accepts every emit. */
  function Reliable(w: Window): Window {
    w.(failAt := None)
  }

  /**
   * One pass with a window that may fail, against the same pass with a reliable window: the
   * failing emission stops the pass with the log cut just before it; otherwise both agree.
   */
  lemma StepDelivery(decode: Decoder, item: Item, buffer: string, w: Window)
    ensures var es := Attempt(decode, item, buffer);
            var n := Step(decode, item, buffer, w);
            var ideal := Step(decode, item, buffer, Reliable(w));
            if FailsWithin(w, |es|) then
              && n.Stop? && n.run.window.log == (w.log + es)[..w.failAt.value]
              && n.run.outcome.error.EmitFailed?
            else if ideal.Stop? then
              && ideal.run.window.log == w.log + es
              && n == Stop(Run(ideal.run.window.(failAt := w.failAt), ideal.run.outcome))
            else
              n == Go(ideal.buffer, ideal.window.(failAt := w.failAt))
  {
    var es := Attempt(decode, item, buffer);
    if FailsWithin(w, |es|) {
      EmitAllFailure(w, es);
      assert (w.log + es)[..w.failAt.value] == w.log + es[..w.failAt.value - |w.log|];
    }
  }

  /**
   * How a run `r` from window `w` relates to the run `ideal` from the reliable window: if `w`
   * fails on one of the emissions of `ideal`, `r` holds the log cut just before it and returns
   * the emit error; otherwise `r` is `ideal`.
   */
  predicate Delivered(w: Window, ideal: Run, r: Run)
    requires w.log <= ideal.window.log
  {
    if FailsWithin(w, |ideal.window.log| - |w.log|) then
      && r.window.log == ideal.window.log[..w.failAt.value]
      && r.outcome.Fail? && r.outcome.error.EmitFailed?
    else
      r == Run(ideal.window.(failAt := w.failAt), ideal.outcome)
  }

  /**
   * A failed emit aborts the stream and loses nothing else: the log is the reliable window's
   * log cut just before the failing emission, and the run returns the emit error. A window
   * that does not fail during the run sees exactly the reliable run.
   */
  lemma {:induction false} LoopDelivery(decode: Decoder, items: seq<Item>, buffer: string, w: Window)
    ensures var ideal := Loop(decode, items, buffer, Reliable(w));
            var r := Loop(decode, items, buffer, w);
            Delivered(w, ideal, r)
    decreases |items|
  {
    if items != [] {
      var es := Attempt(decode, items[0], buffer);
      var ideal := Loop(decode, items, buffer, Reliable(w));
      ReliableStep(decode, items, buffer, Reliable(w));
      StepDelivery(decode, items[0], buffer, w);
      if FailsWithin(w, |es|) {
        assert w.log + es <= ideal.window.log;
      } else if !items[0].ReadFailed? {
        var next := w.(log := w.log + es);
        LoopDelivery(decode, items[1..], Carry(items[0], buffer), next);
        assert Reliable(next) == Reliable(w).(log := w.log + es);
      }
    }
  }

  /** An accepted request with a success status runs the loop on an empty buffer. */
  lemma StreamAccepted(providerName: string, decode: Decoder, credential: string, reply: Reply, w: Window)
    requires IsHeaderValue(credential) && reply.Reply? && IsSuccess(reply.code)
    ensures Stream(providerName, decode, credential, reply, w) == Loop(decode, reply.items, "", w)
  {
  }

  /** The same for a whole session, including the error emitted for a non-success status. */
  lemma Delivery(providerName: string, decode: Decoder, credential: string, reply: Reply, w: Window)
    ensures var ideal := Stream(providerName, decode, credential, reply, Reliable(w));
            var r := Stream(providerName, decode, credential, reply, w);
            Delivered(w, ideal, r)
  {
    if IsHeaderValue(credential) && reply.Reply? && IsSuccess(reply.code) {
      StreamAccepted(providerName, decode, credential, reply, w);
      StreamAccepted(providerName, decode, credential, reply, Reliable(w));
      LoopDelivery(decode, reply.items, "", w);
    } else {
      EarlyDelivery(providerName, decode, credential, reply, w);
    }
  }

  /** `Delivery` for a session that never reaches the loop. */
  lemma EarlyDelivery(providerName: string, decode: Decoder, credential: string, reply: Reply, w: Window)
    requires !(IsHeaderValue(credential) && reply.Reply? && IsSuccess(reply.code))
    ensures var ideal := Stream(providerName, decode, credential, reply, Reliable(w));
            var r := Stream(providerName, decode, credential, reply, w);
            Delivered(w, ideal, r)
  {
  }

  /** Two decoded chunks in a row emit the events of one chunk holding both texts ... */
  lemma AttemptJoin(decode: Decoder, a: string, b: string, buffer: string)
    ensures Attempt(decode, Decoded(a + b), buffer)
            == Attempt(decode, Decoded(a), buffer) + Attempt(decode, Decoded(b), Carry(Decoded(a), buffer))
  {
    var rest := Carry(Decoded(a), buffer);
    assert buffer + (a + b) == (buffer + a) + b;
    Frames.FramesAppend(buffer + a, b);
    FramesEventsAppend(decode, Frames.Frames(buffer + a), Frames.Frames(rest + b));
  }

  /** ... and leave the same buffer behind. */
  lemma CarryJoin(a: string, b: string, buffer: string)
    ensures Carry(Decoded(a + b), buffer) == Carry(Decoded(b), Carry(Decoded(a), buffer))
  {
    var s := buffer + a;
    assert buffer + (a + b) == s + b;
    Frames.DrainAppend(s, b);
    assert Carry(Decoded(a), buffer) == Frames.Drain(s).rest;
    assert Carry(Decoded(a + b), buffer) == Frames.Drain(s + b).rest;
  }

  /** Two decoded chunks in a row take the same pass as one chunk holding both texts. */
  lemma StepsJoin(decode: Decoder, a: string, b: string, buffer: string, w: Window)
    ensures Step(decode, Decoded(a + b), buffer, w)
            == match Step(decode, Decoded(a), buffer, w)
               case Stop(r) => Stop(r)
               case Go(rest, next) => Step(decode, Decoded(b), rest, next)
  {
    var e1 := Attempt(decode, Decoded(a), buffer);
    var e2 := Attempt(decode, Decoded(b), Carry(Decoded(a), buffer));
    AttemptJoin(decode, a, b, buffer);
    CarryJoin(a, b, buffer);
    EmitAllAppend(w, e1, e2);
  }

  /**
   * Chunk-boundary independence: two decoded chunks in a row produce the same session as one
   * chunk holding both texts, whatever comes before or after them and whatever the window does.
   */
  lemma {:induction false} SplitInvariance(decode: Decoder, before: seq<Item>, a: string, b: string,
                                           after: seq<Item>, buffer: string, w: Window)
    ensures Loop(decode, before + [Decoded(a), Decoded(b)] + after, buffer, w)
            == Loop(decode, before + [Decoded(a + b)] + after, buffer, w)
    decreases |before|
  {
    var two := before + [Decoded(a), Decoded(b)] + after;
    var one := before + [Decoded(a + b)] + after;
    if before == [] {
      assert two[0] == Decoded(a) && two[1..] == [Decoded(b)] + after;
      assert ([Decoded(b)] + after)[0] == Decoded(b) && ([Decoded(b)] + after)[1..] == after;
      assert one[0] == Decoded(a + b) && one[1..] == after;
      StepsJoin(decode, a, b, buffer, w);
    } else {
      assert two[0] == one[0] == before[0];
      assert two[1..] == before[1..] + [Decoded(a), Decoded(b)] + after;
      assert one[1..] == before[1..] + [Decoded(a + b)] + after;
      match Step(decode, before[0], buffer, w) {
        case Stop(r) =>
        case Go(rest, next) => SplitInvariance(decode, before[1..], a, b, after, rest, next);
      }
    }
  }

  predicate AllDecoded(items: seq<Item>) {
    forall k :: 0 <= k < |items| ==> items[k].Decoded?
  }

  /** The text of decoded chunks, in the order they were received. */
  function Received(items: seq<Item>): string
    requires AllDecoded(items)
  {
    if items == [] then "" else items[0].text + Received(items[1..])
  }

  /**
   * A stream of decoded chunks, with a reliable window and a buffer the loop has drained,
   * emits the events of the frames of the whole text, however it was cut into chunks, and
   * then one `End`; text after the last delimiter is never decoded.
   */
  lemma {:induction false} WholeStream(decode: Decoder, items: seq<Item>, buffer: string, w: Window)
    requires AllDecoded(items) && w.failAt.None? && !Frames.HasDelimiter(buffer)
    ensures Loop(decode, items, buffer, w)
            == Run(Window(w.log + FramesEvents(decode, Frames.Frames(buffer + Received(items))) + [End], None), Pass)
    decreases |items|
  {
    if items == [] {
      assert buffer + Received(items) == buffer;
      assert Frames.Frames(buffer) == [];
    } else {
      var text := items[0].text;
      var rest := Carry(items[0], buffer);
      var es := Attempt(decode, items[0], buffer);
      ReliableStep(decode, items, buffer, w);
      Frames.DrainSpec(buffer + text);
      assert AllDecoded(items[1..]) by {
        assert forall k :: 0 <= k < |items| - 1 ==> items[1..][k] == items[k + 1];
      }
      WholeStream(decode, items[1..], rest, w.(log := w.log + es));
      var more := FramesEvents(decode, Frames.Frames(rest + Received(items[1..])));
      WholeText(decode, buffer, text, Received(items[1..]));
      ReceivedCons(buffer, items);
      calc {
        Loop(decode, items, buffer, w);
        Loop(decode, items[1..], rest, w.(log := w.log + es));
        Run(Window((w.log + es) + more + [End], None), Pass);
        { Frames.AppendAssoc(w.log, es, more); }
        Run(Window(w.log + (es + more) + [End], None), Pass);
        Run(Window(w.log + FramesEvents(decode, Frames.Frames(buffer + Received(items))) + [End], None), Pass);
      }
    }
  }

  lemma ReceivedCons(buffer: string, items: seq<Item>)
    requires AllDecoded(items) && items != []
    ensures buffer + Received(items) == (buffer + items[0].text) + Received(items[1..])
  {
  }

  /** The events of the frames of `buffer + text + more`: those of the first chunk, then those of what it left with `more`. */
  lemma WholeText(decode: Decoder, buffer: string, text: string, more: string)
    ensures FramesEvents(decode, Frames.Frames((buffer + text) + more))
            == Attempt(decode, Decoded(text), buffer)
               + FramesEvents(decode, Frames.Frames(Carry(Decoded(text), buffer) + more))
  {
    Frames.FramesAppend(buffer + text, more);
    FramesEventsAppend(decode, Frames.Frames(buffer + text), Frames.Frames(Carry(Decoded(text), buffer) + more));
  }

  /**
   * A whole session that is accepted and delivers only decodable chunks to a reliable window:
   * the events of all frames of the concatenated text, then `End`, and `Ok`.
   */
  lemma WholeSession(providerName: string, decode: Decoder, credential: string, code: StatusCode,
                     reason: Option<string>, body: Option<string>, items: seq<Item>, w: Window)
    requires IsHeaderValue(credential) && IsSuccess(code) && AllDecoded(items) && w.failAt.None?
    ensures Stream(providerName, decode, credential, Reply(code, reason, body, items), w)
            == Run(Window(w.log + FramesEvents(decode, Frames.Frames(Received(items))) + [End], None), Pass)
  {
    assert "" + Received(items) == Received(items);
    assert Frames.FirstDelimiter("").None?;
    StreamAccepted(providerName, decode, credential, Reply(code, reason, body, items), w);
    WholeStream(decode, items, "", w);
  }
}
