/**
 * The handful of Rust `str` operations the stream normaliser relies on:
 * `trim`, `lines`, `strip_prefix` and decimal rendering of integers.
 * Strings are sequences of Unicode scalar values, like Rust's `str`.
 */
module Text {
  import opened Wrappers

  /** The Unicode White_Space property, which `char::is_whitespace` (and so `str::trim`) tests. */
  predicate IsWhitespace(c: char) {
    var n := c as int;
    || (0x09 <= n <= 0x0D) || n == 0x20 || n == 0x85 || n == 0xA0 || n == 0x1680
    || (0x2000 <= n <= 0x200A) || n == 0x2028 || n == 0x2029 || n == 0x202F
    || n == 0x205F || n == 0x3000
  }

  /** `s` with its leading whitespace removed: a suffix of `s` that starts with a non-blank. */
  function TrimStart(s: string): (r: string)
    ensures |r| <= |s| && r == s[|s| - |r|..]
    ensures forall i :: 0 <= i < |s| - |r| ==> IsWhitespace(s[i])
    ensures r == [] || !IsWhitespace(r[0])
    decreases |s|
  {
    if s != [] && IsWhitespace(s[0]) then TrimStart(s[1..]) else s
  }

  /** `s` with its trailing whitespace removed: a prefix of `s` that ends with a non-blank. */
  function TrimEnd(s: string): (r: string)
    ensures |r| <= |s| && r == s[..|r|]
    ensures forall i :: |r| <= i < |s| ==> IsWhitespace(s[i])
    ensures r == [] || !IsWhitespace(r[|r| - 1])
    decreases |s|
  {
    if s != [] && IsWhitespace(s[|s| - 1]) then TrimEnd(s[..|s| - 1]) else s
  }

  /**
   * Rust's `str::trim`: the slice `s[i..j]` left after removing whitespace at both ends.
   * Everything cut off is whitespace and what is kept neither starts nor ends with it.
   */
  function Trim(s: string): (r: string)
    ensures exists i, j :: 0 <= i <= j <= |s| && r == s[i..j]
                          && (forall k :: 0 <= k < i ==> IsWhitespace(s[k]))
                          && (forall k :: j <= k < |s| ==> IsWhitespace(s[k]))
    ensures r == [] || (!IsWhitespace(r[0]) && !IsWhitespace(r[|r| - 1]))
  {
    var t := TrimStart(s);
    var r := TrimEnd(t);
    var i := |s| - |t|;
    assert r == s[i..i + |r|];
    r
  }

  /** The index of the first occurrence of `c` in `s`, if any. */
  function IndexOf(s: string, c: char): (r: Option<nat>)
    ensures r.Some? ==> r.value < |s| && s[r.value] == c && c !in s[..r.value]
    ensures r.None? ==> c !in s
    decreases |s|
  {
    if s == [] then None
    else if s[0] == c then Some(0)
    else
      match IndexOf(s[1..], c)
      case None => None
      case Some(i) => assert s[..i + 1] == [s[0]] + s[1..][..i]; Some(i + 1)
  }

  /** Drops one trailing carriage return, as `str::lines` does for a `"\r\n"` line ending. */
  function StripCr(line: string): string {
    if line != [] && line[|line| - 1] == '\r' then line[..|line| - 1] else line
  }

  /**
   * Rust's `str::lines`: the pieces between `'\n'` characters, each with a `"\r"` before its
   * `'\n'` removed; a final line ending is optional and the empty string has no lines.
   */
  function Lines(s: string): (r: seq<string>)
    ensures forall k :: 0 <= k < |r| ==> '\n' !in r[k]
    ensures |r| <= |s|
    decreases |s|
  {
    if s == [] then []
    else
      match IndexOf(s, '\n')
      case None => [s]
      case Some(i) => [StripCr(s[..i])] + Lines(s[i + 1..])
  }

  /** The texts put together in order. */
  function Concat(texts: seq<string>): string {
    if texts == [] then "" else texts[0] + Concat(texts[1..])
  }

  /** The lines joined back together with a `'\n'` between neighbours. */
  function JoinLines(lines: seq<string>): string {
    if lines == [] then ""
    else if |lines| == 1 then lines[0]
    else lines[0] + "\n" + JoinLines(lines[1..])
  }

  /**
   * For text without carriage returns that does not end in a line feed, `Lines` loses nothing:
   * joining the lines with `'\n'` gives the text back.
   */
  lemma {:induction false} LinesJoin(s: string)
    requires '\r' !in s
    requires s == [] || s[|s| - 1] != '\n'
    ensures JoinLines(Lines(s)) == s
    decreases |s|
  {
    if s != [] {
      match IndexOf(s, '\n')
      case None =>
      case Some(i) =>
        var head, tail := s[..i], s[i + 1..];
        SplitAtNewline(s, i);
        LinesJoin(tail);
        assert Lines(s) == [head] + Lines(tail);
        assert Lines(tail) != [];
    }
  }

  /** Cutting text without carriage returns at a line feed that is not its last character. */
  lemma SplitAtNewline(s: string, i: nat)
    requires '\r' !in s && i < |s| - 1 && s[i] == '\n'
    ensures '\r' !in s[..i] && '\r' !in s[i + 1..]
    ensures StripCr(s[..i]) == s[..i]
    ensures s[i + 1..] != [] && s[i + 1..][|s[i + 1..]| - 1] == s[|s| - 1]
    ensures s == s[..i] + "\n" + s[i + 1..]
  {
    var head, tail := s[..i], s[i + 1..];
    assert forall k :: 0 <= k < |head| ==> head[k] == s[k];
    assert forall k :: 0 <= k < |tail| ==> tail[k] == s[i + 1 + k];
  }

  /** Rust's `str::strip_prefix`: what follows `prefix` when `s` starts with it. */
  function StripPrefix(s: string, prefix: string): (r: Option<string>)
    ensures r.Some? <==> |prefix| <= |s| && s[..|prefix|] == prefix
    ensures r.Some? ==> s == prefix + r.value
  {
    if |prefix| <= |s| && s[..|prefix|] == prefix then Some(s[|prefix|..]) else None
  }

  /** The decimal digit for `d`. */
  function Digit(d: nat): (c: char)
    requires d < 10
    ensures '0' <= c <= '9'
    ensures c as int - '0' as int == d
  {
    ['0', '1', '2', '3', '4', '5', '6', '7', '8', '9'][d]
  }

  /** The decimal rendering of `n`, as Rust's `Display` for unsigned integers (no sign, no padding). */
  function Decimal(n: nat): (r: string)
    ensures r != []
    ensures forall k :: 0 <= k < |r| ==> '0' <= r[k] <= '9'
    ensures DecimalValue(r) == n
    ensures |r| > 1 ==> r[0] != '0'
    decreases n
  {
    if n < 10 then [Digit(n)]
    else
      var r := Decimal(n / 10) + [Digit(n % 10)];
      assert r[..|r| - 1] == Decimal(n / 10);
      r
  }

  /** The value of a string of decimal digits. */
  function DecimalValue(s: string): int
    decreases |s|
  {
    if s == [] then 0 else 10 * DecimalValue(s[..|s| - 1]) + (s[|s| - 1] as int - '0' as int)
  }
}
