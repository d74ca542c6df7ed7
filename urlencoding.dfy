/** PHP's `urlencode` (form encoding, as the URL builder uses it), the
    matching `urldecode`, and a form-query parser used to read an encoded
    query string back. */
module UrlEncoding {
  import opened Php

  /** The bytes `urlencode` leaves alone: ASCII letters, digits, `-`, `_`
      and `.`. Everything else, `~` and `*` included, is escaped. */
  predicate IsUnreserved(c: Byte) {
    ('A' <= c <= 'Z') || ('a' <= c <= 'z') || ('0' <= c <= '9') || c == '-' || c == '_' || c == '.'
  }

  predicate IsUpperHex(c: Byte) {
    ('0' <= c <= '9') || ('A' <= c <= 'F')
  }

  predicate IsHex(c: Byte) {
    IsUpperHex(c) || ('a' <= c <= 'f')
  }

  /** The upper-case hexadecimal digit for `n`. */
  function HexDigit(n: nat): (c: Byte)
    requires n < 16
    ensures IsUpperHex(c)
  {
    if n < 10 then (48 + n) as char else (55 + n) as char
  }

  /** The value of a hexadecimal digit of either case. */
  function HexValue(c: Byte): (n: nat)
    requires IsHex(c)
    ensures n < 16
    ensures IsUpperHex(c) ==> HexDigit(n) == c
  {
    if '0' <= c <= '9' then c as int - 48
    else if 'A' <= c <= 'F' then c as int - 55
    else c as int - 87
  }

  /** The encoding of one byte: itself, `+` for a space, or `%XX`. */
  function EncodeByte(c: Byte): Bytes {
    if IsUnreserved(c) then [c]
    else if c == ' ' then ['+']
    else ['%', HexDigit(c as int / 16), HexDigit(c as int % 16)]
  }

  /** `urlencode($s)`: the encodings of the bytes of `s`, in order. */
  function UrlEncode(s: Bytes): Bytes
    decreases |s|
  {
    if s == [] then [] else EncodeByte(s[0]) + UrlEncode(s[1..])
  }

  /** `urlencode` as a loop over the input that appends to the output. */
  method EncodeBytes(s: Bytes) returns (r: Bytes)
    ensures r == UrlEncode(s)
  {
    r := [];
    var i := 0;
    while i < |s|
      invariant 0 <= i <= |s|
      invariant r == UrlEncode(s[..i])
    {
      var c := s[i];
      if IsUnreserved(c) {
        r := r + [c];
      } else if c == ' ' {
        r := r + ['+'];
      } else {
        r := r + ['%', HexDigit(c as int / 16), HexDigit(c as int % 16)];
      }
      EncodeStep(s, i);
      i := i + 1;
    }
    assert s[..i] == s;
  }

  /** Encoding one more byte of `s` appends that byte's encoding. */
  lemma EncodeStep(s: Bytes, i: nat)
    requires i < |s|
    ensures UrlEncode(s[..i + 1]) == UrlEncode(s[..i]) + EncodeByte(s[i])
  {
    assert s[..i + 1] == s[..i] + [s[i]];
    UrlEncodeAppend(s[..i], [s[i]]);
  }

  lemma {:induction false} UrlEncodeAppend(a: Bytes, b: Bytes)
    ensures UrlEncode(a + b) == UrlEncode(a) + UrlEncode(b)
    decreases |a|
  {
    if a == [] {
      assert a + b == b;
    } else {
      assert (a + b)[1..] == a[1..] + b;
      UrlEncodeAppend(a[1..], b);
    }
  }

  /** A byte that may appear in `urlencode` output. */
  predicate IsEncodedByte(c: Byte) {
    IsUnreserved(c) || c == '+' || c == '%'
  }

  /** The output of `urlencode` holds only letters, digits, `-`, `_`, `.`,
      `+` and `%`; in particular no `&`, `=`, `,` or `?`. */
  lemma {:induction false} UrlEncodeAlphabet(s: Bytes)
    ensures forall k :: 0 <= k < |UrlEncode(s)| ==> IsEncodedByte(UrlEncode(s)[k])
    ensures '&' !in UrlEncode(s) && '=' !in UrlEncode(s) && ',' !in UrlEncode(s) && '?' !in UrlEncode(s)
    decreases |s|
  {
    if s != [] {
      UrlEncodeAlphabet(s[1..]);
      var e, t := EncodeByte(s[0]), UrlEncode(s[1..]);
      assert UrlEncode(s) == e + t;
      assert forall k :: 0 <= k < |e| ==> IsEncodedByte(e[k]);
      forall k | 0 <= k < |e + t| ensures IsEncodedByte((e + t)[k]) {
        if k >= |e| {
          assert (e + t)[k] == t[k - |e|];
        }
      }
    }
  }

  /** Form-encoded text: unreserved bytes, `+`, and `%` followed by two
      upper-case hexadecimal digits. */
  predicate IsFormEncoded(t: Bytes)
    decreases |t|
  {
    || t == []
    || ((IsUnreserved(t[0]) || t[0] == '+') && IsFormEncoded(t[1..]))
    || (|t| >= 3 && t[0] == '%' && IsUpperHex(t[1]) && IsUpperHex(t[2]) && IsFormEncoded(t[3..]))
  }

  lemma {:induction false} UrlEncodeIsFormEncoded(s: Bytes)
    ensures IsFormEncoded(UrlEncode(s))
    decreases |s|
  {
    if s != [] {
      UrlEncodeIsFormEncoded(s[1..]);
      var e, t := EncodeByte(s[0]), UrlEncode(s[1..]);
      if |e| == 1 {
        assert (e + t)[1..] == t;
      } else {
        assert (e + t)[3..] == t;
      }
    }
  }

  /** `urldecode($t)`: `+` becomes a space, `%` with two hexadecimal
      digits becomes the byte they spell, every other byte stays. */
  function UrlDecode(t: Bytes): Bytes
    decreases |t|
  {
    if t == [] then []
    else if t[0] == '+' then [' '] + UrlDecode(t[1..])
    else if |t| >= 3 && t[0] == '%' && IsHex(t[1]) && IsHex(t[2]) then
      var hi, lo := HexValue(t[1]), HexValue(t[2]);
      assert 16 * hi + lo < 256;
      [(16 * hi + lo) as char] + UrlDecode(t[3..])
    else [t[0]] + UrlDecode(t[1..])
  }

  lemma DecodeEncodedByte(c: Byte, rest: Bytes)
    ensures UrlDecode(EncodeByte(c) + rest) == [c] + UrlDecode(rest)
  {
    var t := EncodeByte(c) + rest;
    if IsUnreserved(c) || c == ' ' {
      assert t[1..] == rest;
    } else {
      var n := c as int;
      assert t[1] == HexDigit(n / 16) && t[2] == HexDigit(n % 16);
      assert HexValue(HexDigit(n / 16)) == n / 16;
      assert HexValue(HexDigit(n % 16)) == n % 16;
      assert t[3..] == rest;
    }
  }

  /** Decoding the output of `urlencode` gives back its input. */
  lemma {:induction false} UrlDecodeEncode(s: Bytes)
    ensures UrlDecode(UrlEncode(s)) == s
    decreases |s|
  {
    if s != [] {
      UrlDecodeEncode(s[1..]);
      DecodeEncodedByte(s[0], UrlEncode(s[1..]));
    }
  }

  /** `urlencode` is one-to-one: distinct inputs have distinct encodings. */
  lemma UrlEncodeInjective(a: Bytes, b: Bytes)
    requires UrlEncode(a) == UrlEncode(b)
    ensures a == b
  {
    UrlDecodeEncode(a);
    UrlDecodeEncode(b);
  }

  /** Text made only of unreserved bytes. */
  predicate IsPlain(s: Bytes) {
    forall k :: 0 <= k < |s| ==> IsUnreserved(s[k])
  }

  /** Plain text is its own encoding and its own decoding, and holds
      neither `&` nor `=`. */
  lemma {:induction false} PlainText(s: Bytes)
    requires IsPlain(s)
    ensures UrlEncode(s) == s && UrlDecode(s) == s
    ensures '&' !in s && '=' !in s
    decreases |s|
  {
    if s != [] {
      assert IsPlain(s[1..]) by {
        assert forall k :: 0 <= k < |s[1..]| ==> s[1..][k] == s[k + 1];
      }
      PlainText(s[1..]);
      assert s == [s[0]] + s[1..];
    }
  }

  /** The encodings of each of `pieces`, in order. */
  function EncodeEach(pieces: seq<Bytes>): (r: seq<Bytes>)
    ensures |r| == |pieces|
    decreases |pieces|
  {
    if pieces == [] then [] else [UrlEncode(pieces[0])] + EncodeEach(pieces[1..])
  }

  /** Encoding a comma-joined list encodes each comma as `%2C`: the result
      is the encoded pieces joined by `%2C`. */
  lemma {:induction false} UrlEncodeImplode(pieces: seq<Bytes>)
    ensures UrlEncode(Implode(",", pieces)) == Implode("%2C", EncodeEach(pieces))
    decreases |pieces|
  {
    if |pieces| > 1 {
      UrlEncodeImplode(pieces[1..]);
      var rest := Implode(",", pieces[1..]);
      UrlEncodeAppend(pieces[0] + ",", rest);
      UrlEncodeAppend(pieces[0], ",");
      assert UrlEncode(",") == "%2C";
      assert EncodeEach(pieces)[1..] == EncodeEach(pieces[1..]);
    }
  }

  /** `s` split at every occurrence of `d`; there is always at least one
      part. */
  function Split(s: Bytes, d: Byte): (parts: seq<Bytes>)
    ensures |parts| >= 1
    ensures d !in parts[0]
    decreases |s|
  {
    if s == [] then [[]]
    else
      var rest := Split(s[1..], d);
      if s[0] == d then [[]] + rest else [[s[0]] + rest[0]] + rest[1..]
  }

  lemma {:induction false} SplitWithout(s: Bytes, d: Byte)
    requires d !in s
    ensures Split(s, d) == [s]
    decreases |s|
  {
    if s != [] {
      SplitWithout(s[1..], d);
      assert s[0] != d && [s[0]] + s[1..] == s;
    }
  }

  lemma {:induction false} SplitAt(a: Bytes, d: Byte, b: Bytes)
    requires d !in a
    ensures Split(a + [d] + b, d) == [a] + Split(b, d)
    decreases |a|
  {
    if a == [] {
      assert (a + [d] + b)[1..] == b;
    } else {
      var s := a + [d] + b;
      assert s[0] == a[0] != d;
      assert s[1..] == a[1..] + [d] + b;
      SplitAt(a[1..], d, b);
      assert [a[0]] + a[1..] == a;
    }
  }

  /** One `name=value` piece of a query, split at its first `=`; a piece
      without `=` is a name with an empty value. */
  function NameValue(piece: Bytes): (Bytes, Bytes) {
    match StrPos(piece, '=')
    case None => (piece, [])
    case Some(i) => (piece[..i], piece[i + 1..])
  }

  function DecodePairs(pieces: seq<Bytes>): (r: seq<(Bytes, Bytes)>)
    ensures |r| == |pieces|
    decreases |pieces|
  {
    if pieces == [] then []
    else
      var (name, value) := NameValue(pieces[0]);
      [(UrlDecode(name), UrlDecode(value))] + DecodePairs(pieces[1..])
  }

  /** The decoded `name=value` pairs of a query string, in order, as a form
      parser reads them. */
  function ParseQuery(q: Bytes): seq<(Bytes, Bytes)> {
    DecodePairs(Split(q, '&'))
  }

  lemma NameValueAt(name: Bytes, value: Bytes)
    requires '=' !in name
    ensures NameValue(name + "=" + value) == (name, value)
  {
    var piece := name + "=" + value;
    assert piece[|name|] == '=';
    var i := StrPos(piece, '=').value;
    assert piece[..|name|] == name;
    assert i == |name|;
    assert piece[i + 1..] == value;
  }
}
