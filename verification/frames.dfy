/**
 * The frame splitter of both provider streams (anthropic.rs:98-103, openai.rs:99-103): decoded
 * text is appended to a buffer and, while the buffer holds a blank line `"\n\n"`, the text
 * before the first one is cut off as a frame (trimmed) and the text after it is kept.
 */
module Frames {
  import opened Wrappers
  import Text

  /** A blank-line delimiter starts at index `i` of `s`. */
  predicate DelimiterAt(s: string, i: int) {
    0 <= i && i + 1 < |s| && s[i] == '\n' && s[i + 1] == '\n'
  }


  /** The first delimiter at or after index `from`. */
  function FindFrom(s: string, from: nat): (r: Option<nat>)
    ensures r.Some? ==> from <= r.value && DelimiterAt(s, r.value)
    ensures forall j :: from <= j && (r.None? || j < r.value) ==> !DelimiterAt(s, j)
    decreases |s| - from
  {
    if from + 1 >= |s| then None
    else if s[from] == '\n' && s[from + 1] == '\n' then Some(from)
    else FindFrom(s, from + 1)
  }

  /** `buffer.find("\n\n")`: where the first delimiter starts, if there is one. */
  function FirstDelimiter(s: string): (r: Option<nat>)
    ensures r.Some? ==> DelimiterAt(s, r.value) && forall j :: 0 <= j < r.value ==> !DelimiterAt(s, j)
    ensures r.None? ==> forall j :: !DelimiterAt(s, j)
  {
    FindFrom(s, 0)
  }

  /** `s` holds a blank-line delimiter somewhere. */
  predicate HasDelimiter(s: string) {
    FirstDelimiter(s).Some?
  }

  /** The loop behind `buffer.find("\n\n")`, scanning left to right: it finds the first delimiter. */
  method FindDelimiter(s: string) returns (pos: Option<nat>)
    ensures pos == FirstDelimiter(s)
  {
    var i := 0;
    while i + 1 < |s|
      invariant FindFrom(s, i) == FirstDelimiter(s)
    {
      if s[i] == '\n' && s[i + 1] == '\n' {
        return Some(i);
      }
      i := i + 1;
    }
    return None;
  }

  /**
   * A piece of the buffer that ends up cut off as one frame: it holds no delimiter and does not
   * end with a line feed (otherwise the delimiter would have started one character earlier).
   */
  predicate IsRawFrame(f: string) {
    !HasDelimiter(f) && (f == [] || f[|f| - 1] != '\n')
  }

  /** The raw frames, each followed by its delimiter, glued back together. */
  function Joined(raw: seq<string>): string {
    if raw == [] then "" else raw[0] + "\n\n" + Joined(raw[1..])
  }

  /** What one pass of the inner loop leaves: the untrimmed frames cut off, and the kept rest. */
  datatype Split = Split(raw: seq<string>, rest: string)

  /**
   * The inner `while let Some(pos) = buffer.find("\n\n")` loop over a buffer `s`: the frames
   * it cuts off, untrimmed and in order, and the text it keeps.
   */
  function Drain(s: string): (r: Split)
    ensures |r.rest| <= |s| && r.rest == s[|s| - |r.rest|..]
    decreases |s|
  {
    match FirstDelimiter(s)
    case None => Split([], s)
    case Some(p) =>
      var tail := Drain(s[p + 2..]);
      assert s[p + 2..][|s| - (p + 2) - |tail.rest|..] == s[|s| - |tail.rest|..];
      Split([s[..p]] + tail.raw, tail.rest)
  }

  /**
   * What `Drain` leaves: the frames and the rest put back together give `s`; each frame is a raw
   * frame and the rest holds no delimiter, so the loop has drained everything it can.
   */
  lemma {:induction false} DrainSpec(s: string)
    ensures var r := Drain(s);
            && s == Joined(r.raw) + r.rest
            && (forall k :: 0 <= k < |r.raw| ==> IsRawFrame(r.raw[k]))
            && !HasDelimiter(r.rest)
    decreases |s|
  {
    match FirstDelimiter(s)
    case None =>
    case Some(p) =>
      DrainSpec(s[p + 2..]);
      ConsFrame(s, p, Drain(s[p + 2..]));
  }

  /** Putting the frame before the first delimiter in front of a valid split of what follows it. */
  lemma ConsFrame(s: string, p: nat, tail: Split)
    requires FirstDelimiter(s) == Some(p)
    requires s[p + 2..] == Joined(tail.raw) + tail.rest
    requires forall k :: 0 <= k < |tail.raw| ==> IsRawFrame(tail.raw[k])
    ensures s == Joined([s[..p]] + tail.raw) + tail.rest
    ensures forall k :: 0 <= k < |tail.raw| + 1 ==> IsRawFrame(([s[..p]] + tail.raw)[k])
  {
    CutFrame(s, p);
    JoinedCons(s[..p], tail.raw);
    var raw := [s[..p]] + tail.raw;
    forall k | 0 <= k < |raw| ensures IsRawFrame(raw[k]) {
      if k > 0 {
        assert raw[k] == tail.raw[k - 1];
      }
    }
  }

  /** The text before the first delimiter is a raw frame, and the delimiter separates it from the rest. */
  lemma CutFrame(s: string, p: nat)
    requires FirstDelimiter(s) == Some(p)
    ensures IsRawFrame(s[..p])
    ensures s == s[..p] + "\n\n" + s[p + 2..]
  {
    var head := s[..p];
    if HasDelimiter(head) {
      assert DelimiterAt(s, FirstDelimiter(head).value);
    }
    if head != [] {
      assert !DelimiterAt(s, p - 1);
    }
    assert s[p..p + 2] == "\n\n";
    assert s == s[..p] + s[p..p + 2] + s[p + 2..];
  }

  lemma JoinedCons(f: string, raw: seq<string>)
    ensures Joined([f] + raw) == f + "\n\n" + Joined(raw)
  {
    assert ([f] + raw)[1..] == raw;
  }

  /** Each raw frame trimmed, as `buffer[..pos].trim()`: the frames the decoders see. */
  function Trimmed(raw: seq<string>): (r: seq<string>)
    ensures |r| == |raw|
    ensures forall k :: 0 <= k < |r| ==> r[k] == Text.Trim(raw[k])
  {
    if raw == [] then []
    else
      var tail := Trimmed(raw[1..]);
      assert forall k :: 1 <= k < |raw| ==> tail[k - 1] == Text.Trim(raw[k]) by {
        forall k | 1 <= k < |raw| ensures tail[k - 1] == Text.Trim(raw[k]) {
          assert raw[1..][k - 1] == raw[k];
        }
      }
      [Text.Trim(raw[0])] + tail
  }

  /** The frames cut off from buffer `s`, in buffer order. */
  function Frames(s: string): seq<string> {
    Trimmed(Drain(s).raw)
  }

  /**
   * The inner loop as the source writes it: find the first delimiter, cut off the trimmed frame
   * before it, keep the text after it, and repeat. It yields exactly the frames and rest of `Drain`.
   */
  method DrainBuffer(buffer: string) returns (frames: seq<string>, rest: string)
    ensures frames == Frames(buffer)
    ensures rest == Drain(buffer).rest
  {
    frames := [];
    rest := buffer;
    var pos := FindDelimiter(rest);
    while pos.Some?
      invariant pos == FirstDelimiter(rest)
      invariant frames + Frames(rest) == Frames(buffer)
      invariant Drain(rest).rest == Drain(buffer).rest
      decreases |rest|
    {
      var p := pos.value;
      DrainStep(rest, p);
      AppendAssoc(frames, [Text.Trim(rest[..p])], Frames(rest[p + 2..]));
      frames := frames + [Text.Trim(rest[..p])];
      rest := rest[p + 2..];
      pos := FindDelimiter(rest);
    }
    DrainDone(rest);
  }

  lemma AppendAssoc<T>(a: seq<T>, b: seq<T>, c: seq<T>)
    ensures (a + b) + c == a + (b + c)
  {
  }

  /** With no delimiter left, the loop cuts nothing and keeps the whole buffer. */
  lemma DrainDone(s: string)
    requires FirstDelimiter(s).None?
    ensures Frames(s) == [] && Drain(s).rest == s
  {
  }

  /** One pass of the inner loop: the frame before the first delimiter, then the frames after it. */
  lemma DrainStep(s: string, p: nat)
    requires FirstDelimiter(s) == Some(p)
    ensures Frames(s) == [Text.Trim(s[..p])] + Frames(s[p + 2..])
    ensures Drain(s).rest == Drain(s[p + 2..]).rest
  {
    assert Drain(s).raw == [s[..p]] + Drain(s[p + 2..]).raw;
    TrimmedAppend([s[..p]], Drain(s[p + 2..]).raw);
  }

  lemma {:induction false} JoinedAppend(a: seq<string>, b: seq<string>)
    ensures Joined(a + b) == Joined(a) + Joined(b)
    decreases |a|
  {
    if a != [] {
      assert (a + b)[1..] == a[1..] + b;
      JoinedAppend(a[1..], b);
      calc {
        Joined(a + b);
        a[0] + "\n\n" + Joined(a[1..] + b);
        a[0] + "\n\n" + (Joined(a[1..]) + Joined(b));
        (a[0] + "\n\n" + Joined(a[1..])) + Joined(b);
      }
    } else {
      assert a + b == b;
    }
  }

  lemma {:induction false} TrimmedAppend(a: seq<string>, b: seq<string>)
    ensures Trimmed(a + b) == Trimmed(a) + Trimmed(b)
    decreases |a|
  {
    if a == [] {
      assert a + b == b;
    } else {
      assert (a + b)[0] == a[0];
      assert (a + b)[1..] == a[1..] + b;
      TrimmedAppend(a[1..], b);
    }
  }

  /** A raw frame followed by its delimiter: the first delimiter is the one right after the frame. */
  lemma FirstDelimiterAfterRawFrame(f: string, tail: string)
    requires IsRawFrame(f)
    ensures FirstDelimiter(f + "\n\n" + tail) == Some(|f|)
  {
    var s := f + "\n\n" + tail;
    assert DelimiterAt(s, |f|);
    forall j | 0 <= j < |f| ensures !DelimiterAt(s, j) {
      if j + 1 < |f| {
        assert !DelimiterAt(f, j);
      }
    }
    var r := FirstDelimiter(s);
    assert r.Some? && r.value <= |f|;
  }

  /**
   * The split is unique: any way of writing `s` as raw frames with delimiters followed by a rest
   * without a delimiter is the one `Drain` finds. So every frame is the text before the first
   * remaining delimiter, and nothing else.
   */
  lemma {:induction false} DrainUnique(raw: seq<string>, rest: string)
    requires forall k :: 0 <= k < |raw| ==> IsRawFrame(raw[k])
    requires !HasDelimiter(rest)
    ensures Drain(Joined(raw) + rest) == Split(raw, rest)
    decreases |raw|
  {
    if raw == [] {
      assert Joined(raw) + rest == rest;
    } else {
      var tail := Joined(raw[1..]) + rest;
      assert Joined(raw) + rest == raw[0] + "\n\n" + tail;
      DrainUnique(raw[1..], rest);
      DrainCons(raw[0], tail);
      assert [raw[0]] + raw[1..] == raw;
    }
  }

  /** Draining a raw frame, its delimiter and a tail cuts that frame, then drains the tail. */
  lemma DrainCons(f: string, tail: string)
    requires IsRawFrame(f)
    ensures Drain(f + "\n\n" + tail) == Split([f] + Drain(tail).raw, Drain(tail).rest)
  {
    var s := f + "\n\n" + tail;
    FirstDelimiterAfterRawFrame(f, tail);
    assert s[|f| + 2..] == tail;
    assert s[..|f|] == f;
  }

  /**
   * Appending in two steps cuts the same frames as appending at once: the frames of `s + t` are
   * the frames of `s` followed by the frames of what `s` left over with `t` appended.
   */
  lemma DrainAppend(s: string, t: string)
    ensures Drain(s + t).raw == Drain(s).raw + Drain(Drain(s).rest + t).raw
    ensures Drain(s + t).rest == Drain(Drain(s).rest + t).rest
  {
    var d1 := Drain(s);
    var d2 := Drain(d1.rest + t);
    DrainSpec(s);
    DrainSpec(d1.rest + t);
    JoinedAfter(d1.raw, d1.rest, t, d2.raw, d2.rest);
    RawFramesAppend(d1.raw, d2.raw);
    DrainUnique(d1.raw + d2.raw, d2.rest);
  }

  lemma JoinedAfter(raw1: seq<string>, rest1: string, t: string, raw2: seq<string>, rest2: string)
    requires rest1 + t == Joined(raw2) + rest2
    ensures Joined(raw1) + rest1 + t == Joined(raw1 + raw2) + rest2
  {
    JoinedAppend(raw1, raw2);
    calc {
      Joined(raw1) + rest1 + t;
      Joined(raw1) + (rest1 + t);
      Joined(raw1) + (Joined(raw2) + rest2);
      Joined(raw1 + raw2) + rest2;
    }
  }

  lemma RawFramesAppend(a: seq<string>, b: seq<string>)
    requires forall k :: 0 <= k < |a| ==> IsRawFrame(a[k])
    requires forall k :: 0 <= k < |b| ==> IsRawFrame(b[k])
    ensures forall k :: 0 <= k < |a + b| ==> IsRawFrame((a + b)[k])
  {
    forall k | 0 <= k < |a + b| ensures IsRawFrame((a + b)[k]) {
      if k >= |a| {
        assert (a + b)[k] == b[k - |a|];
      }
    }
  }

  /** The same for the trimmed frames the decoders receive. */
  lemma FramesAppend(s: string, t: string)
    ensures Frames(s + t) == Frames(s) + Frames(Drain(s).rest + t)
  {
    DrainAppend(s, t);
    TrimmedAppend(Drain(s).raw, Drain(Drain(s).rest + t).raw);
  }
}
