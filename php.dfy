/** The parts of the PHP runtime that the oauth1 command relies on:
    byte strings, the values `json_decode` produces, the `empty` test,
    property access on decoded objects, string coercion, `strpos`,
    `trim` and `implode`. */
module Php {

  /** PHP strings are byte strings; each byte is held in a char below 256. */
  type Byte = c: char | c as int < 256
  type Bytes = seq<Byte>

  datatype Option<+T> = None | Some(value: T) {
    /** PHP's null coerces to the given default where a string is expected. */
    function GetOr(default: T): T {
      if Some? then value else default
    }
  }

  /** The result of a call that may throw an Exception: its value, or the
      exception's message. */
  datatype Result<+T> = Ok(value: T) | Thrown(message: Bytes)

  /** A value produced by `json_decode` without the associative flag:
      JSON objects become objects, JSON arrays become arrays. */
  datatype Json =
    | JNull
    | JBool(b: bool)
    | JInt(i: int)
    | JString(s: Bytes)
    | JArray(items: seq<Json>)
    | JObject(props: map<Bytes, Json>)

  /** PHP's `empty`: null, false, 0, "", "0" and the empty array are
      empty; an object never is. */
  predicate Empty(v: Json) {
    match v
    case JNull => true
    case JBool(b) => !b
    case JInt(i) => i == 0
    case JString(s) => s == [] || s == "0"
    case JArray(items) => items == []
    case JObject(_) => false
  }

  /** `$v->name`: the property of an object, or null when `v` is not an
      object or has no such property. */
  function Property(v: Json, name: Bytes): Json {
    if v.JObject? && name in v.props then v.props[name] else JNull
  }

  function Digit(d: nat): Byte
    requires d < 10
  {
    (48 + d) as char
  }

  function Natural(n: nat): Bytes
    decreases n
  {
    if n < 10 then [Digit(n)] else Natural(n / 10) + [Digit(n % 10)]
  }

  /** Decimal notation of an integer, as PHP converts an int to a string. */
  function Decimal(i: int): Bytes {
    if i < 0 then "-" + Natural(-i) else Natural(i)
  }

  /** The string a string function such as `strpos` receives for a value
      in coercive mode (PHP 8): scalars are converted, and None stands for
      the TypeError raised for an array or an object. */
  function ToPhpString(v: Json): (r: Option<Bytes>)
    ensures r.None? <==> v.JArray? || v.JObject?
    ensures v.JString? ==> r == Some(v.s)
    ensures v.JNull? ==> r == Some([])
  {
    match v
    case JNull => Some([])
    case JBool(b) => Some(if b then "1" else [])
    case JInt(i) => Some(Decimal(i))
    case JString(s) => Some(s)
    case JArray(_) => None
    case JObject(_) => None
  }

  /** `strpos($haystack, $needle)` for a one-byte needle: the index of the
      first occurrence, or None where PHP returns false. */
  function StrPos(haystack: Bytes, needle: Byte): (r: Option<nat>)
    ensures r.None? <==> needle !in haystack
    ensures r.Some? ==> r.value < |haystack| && haystack[r.value] == needle
    ensures r.Some? ==> needle !in haystack[..r.value]
  {
    if haystack == [] then None
    else if haystack[0] == needle then Some(0)
    else
      match StrPos(haystack[1..], needle)
      case None => None
      case Some(i) =>
        assert haystack[..i + 1] == [haystack[0]] + haystack[1..][..i];
        Some(i + 1)
  }

  /** The bytes PHP's `trim` strips by default: space, tab, newline,
      carriage return, NUL and vertical tab. */
  predicate IsTrimmable(c: Byte) {
    c == ' ' || c == '\t' || c == '\n' || c == '\r' || c == '\0' || c as int == 11
  }

  predicate AllTrimmable(s: Bytes) {
    forall k :: 0 <= k < |s| ==> IsTrimmable(s[k])
  }

  /** `ltrim($s)`: what is left of `s` after its trimmable prefix. */
  function TrimStart(s: Bytes): Bytes
    decreases |s|
  {
    if s != [] && IsTrimmable(s[0]) then TrimStart(s[1..]) else s
  }

  /** `rtrim($s)`: what is left of `s` before its trimmable suffix. */
  function TrimEnd(s: Bytes): Bytes
    decreases |s|
  {
    if s != [] && IsTrimmable(s[|s| - 1]) then TrimEnd(s[..|s| - 1]) else s
  }

  /** `trim($s)`. */
  function Trim(s: Bytes): Bytes {
    TrimEnd(TrimStart(s))
  }

  /** `ltrim` drops a prefix of trimmable bytes and stops at the first
      byte that is not trimmable. */
  lemma {:induction false} TrimStartDrops(s: Bytes)
    ensures var r := TrimStart(s);
      && |r| <= |s| && r == s[|s| - |r|..]
      && AllTrimmable(s[..|s| - |r|])
      && (r == [] || !IsTrimmable(r[0]))
    decreases |s|
  {
    if s != [] && IsTrimmable(s[0]) {
      TrimStartDrops(s[1..]);
      var r := TrimStart(s[1..]);
      assert s[..|s| - |r|] == [s[0]] + s[1..][..|s| - 1 - |r|];
    }
  }

  /** `rtrim` drops a suffix of trimmable bytes and stops at the last
      byte that is not trimmable. */
  lemma {:induction false} TrimEndDrops(s: Bytes)
    ensures var r := TrimEnd(s);
      && |r| <= |s| && r == s[..|r|]
      && AllTrimmable(s[|r|..])
      && (r == [] || !IsTrimmable(r[|r| - 1]))
    decreases |s|
  {
    if s != [] && IsTrimmable(s[|s| - 1]) {
      TrimEndDrops(s[..|s| - 1]);
      var r := TrimEnd(s[..|s| - 1]);
      assert s[|r|..] == s[..|s| - 1][|r|..] + [s[|s| - 1]];
    }
  }

  /** `trim` removes a trimmable prefix and a trimmable suffix, and what
      it leaves neither starts nor ends with a trimmable byte. */
  lemma TrimShape(s: Bytes)
    ensures var r := Trim(s);
      && (r == [] || (!IsTrimmable(r[0]) && !IsTrimmable(r[|r| - 1])))
      && exists i :: 0 <= i <= |s| - |r| && r == s[i..i + |r|] && AllTrimmable(s[..i]) && AllTrimmable(s[i + |r|..])
  {
    TrimEnds(s);
    TrimSlice(s);
    TrimSuffix(s);
    TrimStartDrops(s);
    var i := |s| - |TrimStart(s)|;
    assert AllTrimmable(s[..i]);
  }

  lemma TrimSlice(s: Bytes)
    ensures var r := Trim(s); var i := |s| - |TrimStart(s)|;
      0 <= i && i + |r| <= |s| && r == s[i..i + |r|]
  {
    TrimStartDrops(s);
    TrimEndDrops(TrimStart(s));
  }

  lemma TrimSuffix(s: Bytes)
    ensures var r := Trim(s); var i := |s| - |TrimStart(s)|;
      0 <= i && i + |r| <= |s| && AllTrimmable(s[i + |r|..])
  {
    var t := TrimStart(s);
    var r := TrimEnd(t);
    TrimStartDrops(s);
    TrimEndDrops(t);
    assert t[|r|..] == s[|s| - |t| + |r|..];
  }

  lemma TrimEnds(s: Bytes)
    ensures var r := Trim(s); r == [] || (!IsTrimmable(r[0]) && !IsTrimmable(r[|r| - 1]))
  {
    var t := TrimStart(s);
    var r := TrimEnd(t);
    TrimStartDrops(s);
    TrimEndDrops(t);
    assert r != [] ==> r[0] == t[0];
  }

  /** `implode($glue, $pieces)`. */
  function Implode(glue: Bytes, pieces: seq<Bytes>): Bytes
    decreases |pieces|
  {
    if |pieces| == 0 then []
    else if |pieces| == 1 then pieces[0]
    else pieces[0] + glue + Implode(glue, pieces[1..])
  }
}
