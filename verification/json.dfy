/**
 * JSON values as the providers' typed structs see them, serde's conventions for reading a
 * struct field out of a JSON object, and the string quoting `serde_json::to_string` applies
 * to a Rust `String` (section 7 of RFC 8259).
 *
 * Parsing JSON text is not modelled: the parser is a parameter of type `Parser` wherever a
 * payload is decoded, so every property holds whatever the parser returns.
 */
module Json {
  import opened Wrappers

  /** A parsed JSON value. Object keys are unique, so an object is a map. */
  datatype Json =
    | JNull
    | JBool(b: bool)
    | JInt(i: int)      // a number written without fraction or exponent
    | JFrac             // a number written with a fraction or exponent; its value plays no role here
    | JStr(s: string)
    | JArr(items: seq<Json>)
    | JObj(fields: map<string, Json>)

  /** `serde_json::from_str` up to the typed view: JSON text to a value, or the parser's error text. */
  type Parser = string -> Result<Json, string>

  type U32 = n: nat | n < 0x1_0000_0000
  type U64 = n: nat | n < 0x1_0000_0000_0000_0000

  // ---------------------------------------------------------------------------------------
  // Struct fields, the way serde's derived `Deserialize` reads them (unknown keys are ignored).
  // ---------------------------------------------------------------------------------------

  function MissingField(name: string): string {
    "missing field `" + name + "`"
  }

  function InvalidType(name: string, expected: string): string {
    "invalid type for field `" + name + "`, expected " + expected
  }

  /** An `Option<_>` field reads as `None` when the key is absent or its value is `null`. */
  predicate Absent(m: map<string, Json>, name: string) {
    name !in m || m[name] == JNull
  }

  /**
   * serde's derived `Deserialize` reads a struct in two phases: first every present key, whose
   * value must have the field's type, then the required fields that were absent, in declaration
   * order. `PresentString` is the first phase for a `String` field: `None` when the key is absent.
   */
  function PresentString(m: map<string, Json>, name: string): (r: Result<Option<string>, string>)
    ensures r == Success(None) <==> name !in m
    ensures r.Success? <==> name !in m || m[name].JStr?
    ensures r.Success? && r.value.Some? ==> m[name] == JStr(r.value.value)
  {
    if name !in m then Success(None)
    else if m[name].JStr? then Success(Some(m[name].s))
    else Failure(InvalidType(name, "a string"))
  }

  /** The second phase: a required field that no key supplied is reported as missing. */
  function Required<T>(v: Option<T>, name: string): (r: Result<T, string>)
    ensures r.Success? <==> v.Some?
    ensures r.Success? ==> r.value == v.value
    ensures r.Failure? ==> r.error == MissingField(name)
  {
    if v.Some? then Success(v.value) else Failure(MissingField(name))
  }

  /** An `Option<String>` field: absent or `null` is `None`, a string is `Some`, anything else fails. */
  function OptionalString(m: map<string, Json>, name: string): (r: Result<Option<string>, string>)
    ensures r.Success? <==> Absent(m, name) || m[name].JStr?
    ensures r == Success(None) <==> Absent(m, name)
    ensures r.Success? && r.value.Some? ==> m[name] == JStr(r.value.value)
  {
    if Absent(m, name) then Success(None)
    else if m[name].JStr? then Success(Some(m[name].s))
    else Failure(InvalidType(name, "a string"))
  }

  /** An `Option<Value>` field never fails: absent or `null` is `None`, anything else is kept. */
  function OptionalValue(m: map<string, Json>, name: string): (r: Option<Json>)
    ensures r.None? <==> Absent(m, name)
    ensures r.Some? ==> r.value == m[name] && r.value != JNull
  {
    if Absent(m, name) then None else Some(m[name])
  }

  /** The first phase for an unsigned integer field below `limit` (`u32`, `u64`): an integer literal in range. */
  function PresentUnsigned(m: map<string, Json>, name: string, limit: nat): (r: Result<Option<nat>, string>)
    ensures r == Success(None) <==> name !in m
    ensures r.Success? <==> name !in m || (m[name].JInt? && 0 <= m[name].i < limit)
    ensures r.Success? && r.value.Some? ==> m[name] == JInt(r.value.value) && r.value.value < limit
  {
    if name !in m then Success(None)
    else if m[name].JInt? && 0 <= m[name].i < limit then Success(Some(m[name].i))
    else Failure(InvalidType(name, "an unsigned integer in range"))
  }

  /** An `Option<u32>`-like field: absent or `null` is `None`, otherwise an integer literal in range. */
  function OptionalUnsigned(m: map<string, Json>, name: string, limit: nat): (r: Result<Option<nat>, string>)
    ensures r == Success(None) <==> Absent(m, name)
    ensures r.Success? && r.value.Some? ==> m[name] == JInt(r.value.value) && r.value.value < limit
    ensures !Absent(m, name) ==> (r.Success? <==> m[name].JInt? && 0 <= m[name].i < limit)
  {
    if Absent(m, name) then Success(None)
    else if m[name].JInt? && 0 <= m[name].i < limit then Success(Some(m[name].i))
    else Failure(InvalidType(name, "an unsigned integer in range"))
  }

  /** The inverse of the optional-field readers: add `name` only when there is a value. */
  function Put(m: map<string, Json>, name: string, v: Option<Json>): map<string, Json> {
    if v.Some? then m[name := v.value] else m
  }

  function OptStr(s: Option<string>): Option<Json> {
    if s.Some? then Some(JStr(s.value)) else None
  }

  function OptNat(n: Option<nat>): Option<Json> {
    if n.Some? then Some(JInt(n.value)) else None
  }

  // ---------------------------------------------------------------------------------------
  // String quoting (serde_json's serializer) and its inverse.
  // ---------------------------------------------------------------------------------------

  function HexDigit(d: nat): (c: char)
    requires d < 16
    ensures HexValue(c) == Some(d)
  {
    "0123456789abcdef"[d]
  }

  /** The value of one hexadecimal digit of either case. */
  function HexValue(c: char): (r: Option<nat>)
    ensures r.Some? ==> r.value < 16
  {
    if '0' <= c <= '9' then Some(c as int - '0' as int)
    else if 'a' <= c <= 'f' then Some(c as int - 'a' as int + 10)
    else if 'A' <= c <= 'F' then Some(c as int - 'A' as int + 10)
    else None
  }

  /** The value of four hexadecimal digits, most significant first. */
  function Hex4(s: string): (r: Option<nat>)
    requires |s| == 4
    ensures r.Some? ==> r.value < 0x1_0000
  {
    var a, b, c, d := HexValue(s[0]), HexValue(s[1]), HexValue(s[2]), HexValue(s[3]);
    if a.None? || b.None? || c.None? || d.None? then None
    else Some(a.value * 0x1000 + b.value * 0x100 + c.value * 0x10 + d.value)
  }

  /**
   * How serde_json writes one character inside a string literal: `"` and `\` get a backslash,
   * the control characters with a short form use it, the other control characters become
   * `\u00XX` with lower-case hex digits, and everything else is copied unchanged.
   */
  function EscapeChar(c: char): (r: string)
    ensures r != []
    ensures forall k :: 0 <= k < |r| ==> r[k] as int >= 0x20
  {
    if c == '"' then "\\\""
    else if c == '\\' then "\\\\"
    else if c == '\n' then "\\n"
    else if c == '\r' then "\\r"
    else if c == '\t' then "\\t"
    else if c == '\U{8}' then "\\b"
    else if c == '\U{C}' then "\\f"
    else if (c as int) < 0x20 then "\\u00" + [HexDigit(c as int / 16), HexDigit(c as int % 16)]
    else [c]
  }

  function Escape(s: string): (r: string)
    ensures forall k :: 0 <= k < |r| ==> r[k] as int >= 0x20
    decreases |s|
  {
    if s == [] then "" else EscapeChar(s[0]) + Escape(s[1..])
  }

  /**
   * `serde_json::to_string` of a Rust `String`: the escaped text between double quotes.
   * It never fails, and the result holds no raw control character.
   */
  function Quote(s: string): (r: string)
    ensures |r| >= 2 && r[0] == '"' && r[|r| - 1] == '"'
    ensures forall k :: 0 <= k < |r| ==> r[k] as int >= 0x20
  {
    "\"" + Escape(s) + "\""
  }

  function Cons(c: char, rest: Option<string>): Option<string> {
    if rest.Some? then Some([c] + rest.value) else None
  }

  /** The one-letter escapes of RFC 8259, section 7. */
  function ShortEscape(e: char): Option<char> {
    if e == '"' then Some('"')
    else if e == '\\' then Some('\\')
    else if e == '/' then Some('/')
    else if e == 'b' then Some('\U{8}')
    else if e == 'f' then Some('\U{C}')
    else if e == 'n' then Some('\n')
    else if e == 'r' then Some('\r')
    else if e == 't' then Some('\t')
    else None
  }

  /**
   * Reads the inside of a JSON string literal: escapes are decoded, while an unescaped `"` or
   * control character is an error. A `\u` escape naming a surrogate (half of a pair) is refused.
   */
  function Unescape(s: string): Option<string>
    decreases |s|
  {
    if s == [] then Some("")
    else if s[0] == '\\' then
      if |s| < 2 then None
      else if ShortEscape(s[1]).Some? then Cons(ShortEscape(s[1]).value, Unescape(s[2..]))
      else if s[1] == 'u' && |s| >= 6 then
        match Hex4(s[2..6])
        case Some(n) =>
          if n < 0xD800 || 0xE000 <= n then Cons(n as char, Unescape(s[6..])) else None
        case None => None
      else None
    else if s[0] == '"' || (s[0] as int) < 0x20 then None
    else Cons(s[0], Unescape(s[1..]))
  }

  /** Reads a JSON string literal back into the text it denotes. */
  function Unquote(s: string): Option<string> {
    if |s| >= 2 && s[0] == '"' && s[|s| - 1] == '"' then Unescape(s[1..|s| - 1]) else None
  }

  lemma EscapeCharRoundTrip(c: char, t: string)
    ensures Unescape(EscapeChar(c) + t) == Cons(c, Unescape(t))
  {
    var e := EscapeChar(c);
    if |e| == 2 {
      assert (e + t)[2..] == t;
    } else if |e| == 6 {
      ControlEscapeRoundTrip(c, t);
    } else {
      assert (e + t)[1..] == t;
    }
  }

  /** A control character without a short form comes back from its `\u00XX` escape. */
  lemma ControlEscapeRoundTrip(c: char, t: string)
    requires (c as int) < 0x20 && ShortEscape(EscapeChar(c)[1]).None?
    ensures EscapeChar(c) == "\\u00" + [HexDigit(c as int / 16), HexDigit(c as int % 16)]
    ensures Unescape(EscapeChar(c) + t) == Cons(c, Unescape(t))
  {
    var s := EscapeChar(c) + t;
    assert s[6..] == t;
    assert Hex4(s[2..6]) == Some(c as int);
  }

  lemma {:induction false} EscapeRoundTrip(s: string)
    ensures Unescape(Escape(s)) == Some(s)
    decreases |s|
  {
    if s != [] {
      EscapeRoundTrip(s[1..]);
      EscapeCharRoundTrip(s[0], Escape(s[1..]));
      assert [s[0]] + s[1..] == s;
    }
  }

  /** Quoting loses nothing: reading the quoted literal back gives the original text. */
  lemma QuoteRoundTrip(s: string)
    ensures Unquote(Quote(s)) == Some(s)
  {
    var q := Quote(s);
    assert q[1..|q| - 1] == Escape(s);
    EscapeRoundTrip(s);
  }

  /** Different texts are quoted differently. */
  lemma QuoteInjective(s: string, t: string)
    requires Quote(s) == Quote(t)
    ensures s == t
  {
    QuoteRoundTrip(s);
    QuoteRoundTrip(t);
  }
}
