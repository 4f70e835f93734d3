/**
 * The data-line extractor: which `data: ` lines of a frame reach a provider decoder.
 * The two providers differ: OpenAI decodes every data line in order (openai.rs:105-106),
 * Anthropic only the last one (anthropic.rs:104-114).
 */
module Sse {
  import opened Wrappers
  import Text

  const DataPrefix: string := "data: "

  /** `line.strip_prefix("data: ")`: the payload of a data line. */
  function DataPayload(line: string): (r: Option<string>)
    ensures r.Some? <==> |line| >= 6 && line[..6] == DataPrefix
    ensures r.Some? ==> line == DataPrefix + r.value
  {
    Text.StripPrefix(line, DataPrefix)
  }

  /** The payload of every data line, in line order; other lines are skipped. */
  function DataPayloads(lines: seq<string>): (r: seq<string>)
    ensures |r| <= |lines|
    ensures r == [] <==> forall k {:trigger DataPayload(lines[k])} :: 0 <= k < |lines| ==> DataPayload(lines[k]).None?
  {
    if lines == [] then []
    else
      assert forall k :: 1 <= k < |lines| ==> lines[1..][k - 1] == lines[k];
      Payloads(lines[0]) + DataPayloads(lines[1..])
  }

  /** The payload of one line, if it is a data line. */
  function Payloads(line: string): (r: seq<string>)
    ensures |r| <= 1
  {
    if DataPayload(line).Some? then [DataPayload(line).value] else []
  }

  /** The data lines of `a + b` are those of `a` followed by those of `b`: nothing is reordered or lost. */
  lemma {:induction false} DataPayloadsAppend(a: seq<string>, b: seq<string>)
    ensures DataPayloads(a + b) == DataPayloads(a) + DataPayloads(b)
    decreases |a|
  {
    if a == [] {
      assert a + b == b;
    } else {
      assert (a + b)[0] == a[0];
      assert (a + b)[1..] == a[1..] + b;
      DataPayloadsAppend(a[1..], b);
      var p := Payloads(a[0]);
      assert p + (DataPayloads(a[1..]) + DataPayloads(b)) == (p + DataPayloads(a[1..])) + DataPayloads(b);
    }
  }

  /** The loop of anthropic.rs:104-109: `data_line` starts as `current` and every data line overwrites it. */
  function LastDataPayloadFrom(lines: seq<string>, current: string): string
    decreases |lines|
  {
    if lines == [] then current
    else
      var next := if DataPayload(lines[0]).Some? then DataPayload(lines[0]).value else current;
      LastDataPayloadFrom(lines[1..], next)
  }

  /**
   * Last data line wins: the payload Anthropic decodes from a frame's lines is the last of all
   * the data payloads OpenAI would decode from the same lines, or empty when the frame has no
   * data line (and is then skipped).
   */
  function LastDataPayload(lines: seq<string>): (r: string)
    ensures var all := DataPayloads(lines);
            r == if all == [] then "" else all[|all| - 1]
  {
    LastDataPayloadFromIsLast(lines, "");
    LastDataPayloadFrom(lines, "")
  }

  /**
   * Decoding the last data payload, and skipping an empty one, decodes the last of all data
   * payloads, whatever the decoder.
   */
  lemma DecodeLastPayload<T>(lines: seq<string>, decode: string -> seq<T>)
    ensures var all := DataPayloads(lines);
            var payload := LastDataPayload(lines);
            (if payload == [] then [] else decode(payload))
            == if all == [] || all[|all| - 1] == [] then [] else decode(all[|all| - 1])
  {
  }

  lemma {:induction false} LastDataPayloadFromIsLast(lines: seq<string>, current: string)
    ensures var all := DataPayloads(lines);
            LastDataPayloadFrom(lines, current) == if all == [] then current else all[|all| - 1]
    decreases |lines|
  {
    if lines != [] {
      var next := if DataPayload(lines[0]).Some? then DataPayload(lines[0]).value else current;
      LastDataPayloadFromIsLast(lines[1..], next);
    }
  }
}
