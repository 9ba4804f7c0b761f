/**
 * `encodeURIComponent` and `decodeURIComponent` (section 19.2.6 of
 * ECMA-262): percent-encoding of UTF-8 bytes. Encoding is total on strings
 * of Unicode scalar values; decoding is partial, a malformed escape or an
 * invalid UTF-8 sequence being a `URIError`.
 */
module UriCodec {
  import opened Wrappers

  /** The message of the `URIError` that `decodeURIComponent` throws. */
  const URI_MALFORMED: string := "URI malformed"

  /** The characters `encodeURIComponent` leaves as they are. */
  predicate Unreserved(c: char) {
    ('A' <= c <= 'Z') || ('a' <= c <= 'z') || ('0' <= c <= '9') ||
    c == '-' || c == '_' || c == '.' || c == '!' || c == '~' || c == '*' ||
    c == '\'' || c == '(' || c == ')'
  }

  /** The upper-case hexadecimal digit for `v`. */
  function HexDigit(v: int): (c: char)
    requires 0 <= v < 16
    ensures Unreserved(c)
  {
    if v < 10 then ('0' as int + v) as char else ('A' as int + v - 10) as char
  }

  /** The value of a hexadecimal digit of either case. */
  function HexValue(c: char): Option<int> {
    if '0' <= c <= '9' then Some(c as int - '0' as int)
    else if 'A' <= c <= 'F' then Some(c as int - 'A' as int + 10)
    else if 'a' <= c <= 'f' then Some(c as int - 'a' as int + 10)
    else None
  }

  lemma HexRoundTrip(v: int)
    requires 0 <= v < 16
    ensures HexValue(HexDigit(v)) == Some(v)
  {
  }

  /** The UTF-8 encoding of one scalar value, as byte values. */
  function Utf8(c: char): (bytes: seq<int>)
    ensures 1 <= |bytes| <= 4
    ensures forall i :: 0 <= i < |bytes| ==> 0 <= bytes[i] < 256
  {
    var n := c as int;
    if n < 0x80 then [n]
    else if n < 0x800 then [0xC0 + n / 64, 0x80 + n % 64]
    else if n < 0x10000 then [0xE0 + n / 4096, 0x80 + (n / 64) % 64, 0x80 + n % 64]
    else [0xF0 + n / 262144, 0x80 + (n / 4096) % 64, 0x80 + (n / 64) % 64, 0x80 + n % 64]
  }

  /** Text made only of unreserved characters and `%`. */
  predicate AllEncoded(t: string) {
    forall i :: 0 <= i < |t| ==> Unreserved(t[i]) || t[i] == '%'
  }

  lemma AllEncodedAppend(a: string, b: string)
    requires AllEncoded(a) && AllEncoded(b)
    ensures AllEncoded(a + b)
  {
    assert forall i :: |a| <= i < |a + b| ==> (a + b)[i] == b[i - |a|];
  }

  /** One byte written as `%HH`. */
  function HexPair(b: int): (p: string)
    requires 0 <= b < 256
    ensures |p| == 3 && p[0] == '%' && Unreserved(p[1]) && Unreserved(p[2])
  {
    ['%', HexDigit(b / 16), HexDigit(b % 16)]
  }

  /** Each byte written as `%HH`. */
  function Escape(bytes: seq<int>): (r: string)
    requires forall i :: 0 <= i < |bytes| ==> 0 <= bytes[i] < 256
    ensures |r| == 3 * |bytes|
    ensures bytes != [] ==> r[0] == '%'
  {
    if bytes == [] then [] else HexPair(bytes[0]) + Escape(bytes[1..])
  }

  /** Escapes are written with `%` and hexadecimal digits only, and end in a digit. */
  lemma {:induction false} EscapeAlphabet(bytes: seq<int>)
    requires forall i :: 0 <= i < |bytes| ==> 0 <= bytes[i] < 256
    ensures AllEncoded(Escape(bytes))
    ensures bytes != [] ==> Unreserved(Escape(bytes)[|Escape(bytes)| - 1])
  {
    if bytes != [] {
      var head := HexPair(bytes[0]);
      var tail := Escape(bytes[1..]);
      EscapeAlphabet(bytes[1..]);
      assert Escape(bytes) == head + tail;
      AllEncodedAppend(head, tail);
    }
  }

  /** One character as `encodeURIComponent` writes it: itself, or its UTF-8 bytes escaped. */
  function EncodeChar(c: char): (h: string)
    ensures h != [] && Unreserved(h[|h| - 1])
    ensures Unreserved(c) ==> h == [c]
    ensures !Unreserved(c) ==> h[0] == '%'
    ensures AllEncoded(h)
  {
    if Unreserved(c) then [c]
    else
      EscapeAlphabet(Utf8(c));
      Escape(Utf8(c))
  }

  /** `encodeURIComponent(s)`. */
  function Encode(s: string): (r: string)
    ensures AllEncoded(r)
    ensures |r| >= |s|
  {
    if s == [] then []
    else
      var head := EncodeChar(s[0]);
      var tail := Encode(s[1..]);
      var r := head + tail;
      AllEncodedAppend(head, tail);
      r
  }

  /** The encoding of non-empty text ends in an unreserved character. */
  lemma {:induction false} EncodeEndsUnreserved(s: string)
    requires s != []
    ensures Encode(s) != [] && Unreserved(Encode(s)[|Encode(s)| - 1])
  {
    var head := EncodeChar(s[0]);
    var tail := Encode(s[1..]);
    var r := head + tail;
    assert Encode(s) == r;
    if s[1..] == [] {
      assert tail == [];
      assert r[|r| - 1] == head[|head| - 1];
    } else {
      EncodeEndsUnreserved(s[1..]);
      assert r[|r| - 1] == tail[|tail| - 1];
    }
  }

  /** The byte written as `%HH` at position `i` of `s`, if there is one. */
  function ByteAt(s: string, i: nat): (b: Option<int>)
    ensures b.Some? ==> 0 <= b.value < 256 && i + 3 <= |s|
  {
    if i + 3 <= |s| && s[i] == '%' && HexValue(s[i + 1]).Some? && HexValue(s[i + 2]).Some?
    then Some(HexValue(s[i + 1]).value * 16 + HexValue(s[i + 2]).value)
    else None
  }

  /** The payload bits of a continuation byte `10xxxxxx` written at position `i`. */
  function ContinuationAt(s: string, i: nat): (x: Option<int>)
    ensures x.Some? ==> 0 <= x.value < 64 && i + 3 <= |s|
  {
    var b := ByteAt(s, i);
    if b.Some? && 0x80 <= b.value < 0xC0 then Some(b.value - 0x80) else None
  }

  /** A code point in the range of `char`. */
  predicate IsScalar(n: int) {
    (0 <= n < 0xD800) || (0xE000 <= n < 0x110000)
  }

  /**
   * The character that the escapes at the start of `s` decode to, with the
   * length of text they occupy; `None` for a malformed escape, a missing
   * continuation, an overlong form, a surrogate or a value beyond U+10FFFF.
   */
  function DecodeOne(s: string): (r: Option<(char, nat)>)
    ensures r.Some? ==> 3 <= r.value.1 <= |s|
  {
    var lead := ByteAt(s, 0);
    if lead.None? then None
    else
      var b0 := lead.value;
      if b0 < 0x80 then Some((b0 as char, 3))
      else if 0xC0 <= b0 < 0xE0 then
        var x1 := ContinuationAt(s, 3);
        if x1.None? then None
        else
          var cp := (b0 - 0xC0) * 64 + x1.value;
          if 0x80 <= cp then Some((cp as char, 6)) else None
      else if 0xE0 <= b0 < 0xF0 then
        var x1, x2 := ContinuationAt(s, 3), ContinuationAt(s, 6);
        if x1.None? || x2.None? then None
        else
          var cp := (b0 - 0xE0) * 4096 + x1.value * 64 + x2.value;
          if 0x800 <= cp && IsScalar(cp) then Some((cp as char, 9)) else None
      else if 0xF0 <= b0 < 0xF8 then
        var x1, x2, x3 := ContinuationAt(s, 3), ContinuationAt(s, 6), ContinuationAt(s, 9);
        if x1.None? || x2.None? || x3.None? then None
        else
          var cp := (b0 - 0xF0) * 262144 + x1.value * 4096 + x2.value * 64 + x3.value;
          if 0x10000 <= cp < 0x110000 then Some((cp as char, 12)) else None
      else None
  }

  /** `decodeURIComponent(s)`: `None` where it throws. */
  function Decode(s: string): (r: Option<string>)
    decreases |s|
  {
    if s == [] then Some([])
    else if s[0] != '%' then
      var rest := Decode(s[1..]);
      if rest.None? then None else Some([s[0]] + rest.value)
    else
      var one := DecodeOne(s);
      if one.None? then None
      else
        var rest := Decode(s[one.value.1..]);
        if rest.None? then None else Some([one.value.0] + rest.value)
  }

  /** Text without escapes decodes to itself. */
  lemma {:induction false} DecodeWithoutEscapes(s: string)
    requires '%' !in s
    ensures Decode(s) == Some(s)
  {
    if s != [] {
      DecodeWithoutEscapes(s[1..]);
      assert [s[0]] + s[1..] == s;
    }
  }

  /** Text of unreserved characters is encoded as itself. */
  lemma {:induction false} EncodeUnreserved(s: string)
    requires forall i :: 0 <= i < |s| ==> Unreserved(s[i])
    ensures Encode(s) == s
  {
    if s != [] {
      EncodeUnreserved(s[1..]);
      assert [s[0]] + s[1..] == s;
    }
  }

  /** Past a three-character head, bytes read as they do in what follows it. */
  lemma ByteAtAfter(head: string, tail: string, i: nat)
    requires |head| == 3
    ensures ByteAt(head + tail, 3 + i) == ByteAt(tail, i)
  {
    var s := head + tail;
    if i + 3 <= |tail| {
      assert s[3 + i] == tail[i] && s[4 + i] == tail[i + 1] && s[5 + i] == tail[i + 2];
    }
  }

  /** One byte written as `%HH` reads back as that byte. */
  lemma ByteAtEscapeHead(b: int, rest: string)
    requires 0 <= b < 256
    ensures ByteAt(HexPair(b) + rest, 0) == Some(b)
  {
    HexRoundTrip(b / 16);
    HexRoundTrip(b % 16);
  }

  /** `Escape` writes the first byte, then the rest. */
  lemma EscapeCons(bytes: seq<int>, rest: string)
    requires forall i :: 0 <= i < |bytes| ==> 0 <= bytes[i] < 256
    requires bytes != []
    ensures Escape(bytes) + rest == HexPair(bytes[0]) + (Escape(bytes[1..]) + rest)
  {
    assert Escape(bytes) == HexPair(bytes[0]) + Escape(bytes[1..]);
    AppendAssociates(HexPair(bytes[0]), Escape(bytes[1..]), rest);
  }

  lemma AppendAssociates(a: string, b: string, c: string)
    ensures (a + b) + c == a + (b + c)
  {
  }

  /** The `j`-th escape of `Escape(bytes)`, whatever follows, reads back as `bytes[j]`. */
  lemma {:induction false} ByteAtEscape(bytes: seq<int>, rest: string, j: nat)
    requires forall i :: 0 <= i < |bytes| ==> 0 <= bytes[i] < 256
    requires j < |bytes|
    ensures ByteAt(Escape(bytes) + rest, 3 * j) == Some(bytes[j])
  {
    var b := bytes[0];
    var head := HexPair(b);
    var tail := Escape(bytes[1..]) + rest;
    EscapeCons(bytes, rest);
    if j == 0 {
      ByteAtEscapeHead(b, tail);
    } else {
      calc {
        ByteAt(Escape(bytes) + rest, 3 * j);
        ByteAt(head + tail, 3 + 3 * (j - 1));
        { ByteAtAfter(head, tail, 3 * (j - 1)); }
        ByteAt(tail, 3 * (j - 1));
        { ByteAtEscape(bytes[1..], rest, j - 1); }
        Some(bytes[1..][j - 1]);
      }
    }
  }

  /** The escapes of one character's UTF-8 bytes decode to that character. */
  lemma DecodeOneEscape(c: char, rest: string)
    ensures DecodeOne(Escape(Utf8(c)) + rest) == Some((c, 3 * |Utf8(c)|))
  {
    var n := c as int;
    if n < 0x80 {
      DecodeOneByte(c, rest);
    } else if n < 0x800 {
      DecodeTwoBytes(c, rest);
    } else if n < 0x10000 {
      DecodeThreeBytes(c, rest);
    } else {
      DecodeFourBytes(c, rest);
    }
  }

  lemma DecodeOneByte(c: char, rest: string)
    requires c as int < 0x80
    ensures DecodeOne(Escape(Utf8(c)) + rest) == Some((c, 3))
  {
    var bytes := Utf8(c);
    assert bytes == [c as int];
    ByteAtEscape(bytes, rest, 0);
  }

  lemma DecodeTwoBytes(c: char, rest: string)
    requires 0x80 <= c as int < 0x800
    ensures DecodeOne(Escape(Utf8(c)) + rest) == Some((c, 6))
  {
    var n := c as int;
    var bytes := Utf8(c);
    assert bytes == [0xC0 + n / 64, 0x80 + n % 64];
    ByteAtEscape(bytes, rest, 0);
    ByteAtEscape(bytes, rest, 1);
    DecodeTwo(Escape(bytes) + rest, n);
  }

  lemma DecodeThreeBytes(c: char, rest: string)
    requires 0x800 <= c as int < 0x10000
    ensures DecodeOne(Escape(Utf8(c)) + rest) == Some((c, 9))
  {
    var n := c as int;
    var bytes := Utf8(c);
    assert bytes == [0xE0 + n / 4096, 0x80 + (n / 64) % 64, 0x80 + n % 64];
    ByteAtEscape(bytes, rest, 0);
    ByteAtEscape(bytes, rest, 1);
    ByteAtEscape(bytes, rest, 2);
    DecodeThree(Escape(bytes) + rest, n);
  }

  lemma DecodeFourBytes(c: char, rest: string)
    requires 0x10000 <= c as int
    ensures DecodeOne(Escape(Utf8(c)) + rest) == Some((c, 12))
  {
    var n := c as int;
    var bytes := Utf8(c);
    assert bytes == [0xF0 + n / 262144, 0x80 + (n / 4096) % 64, 0x80 + (n / 64) % 64, 0x80 + n % 64];
    ByteAtEscape(bytes, rest, 0);
    ByteAtEscape(bytes, rest, 1);
    ByteAtEscape(bytes, rest, 2);
    ByteAtEscape(bytes, rest, 3);
    DecodeFour(Escape(bytes) + rest, n);
  }

  lemma DecodeTwo(s: string, n: int)
    requires 0x80 <= n < 0x800
    requires ByteAt(s, 0) == Some(0xC0 + n / 64) && ByteAt(s, 3) == Some(0x80 + n % 64)
    ensures DecodeOne(s) == Some((n as char, 6))
  {
    assert ContinuationAt(s, 3) == Some(n % 64);
    assert (0xC0 + n / 64 - 0xC0) * 64 + n % 64 == n;
  }

  lemma DecodeThree(s: string, n: int)
    requires 0x800 <= n < 0x10000 && IsScalar(n)
    requires ByteAt(s, 0) == Some(0xE0 + n / 4096)
    requires ByteAt(s, 3) == Some(0x80 + (n / 64) % 64) && ByteAt(s, 6) == Some(0x80 + n % 64)
    ensures DecodeOne(s) == Some((n as char, 9))
  {
    assert ContinuationAt(s, 3) == Some((n / 64) % 64);
    assert ContinuationAt(s, 6) == Some(n % 64);
    ThreeByteSplit(n);
  }

  lemma ThreeByteSplit(n: nat)
    requires n < 0x10000
    ensures (n / 4096) * 4096 + ((n / 64) % 64) * 64 + n % 64 == n
  {
    var a := n / 64;
    assert n == 64 * a + n % 64;
    assert a == 64 * (a / 64) + a % 64;
    assert a / 64 == n / 4096;
  }

  lemma DecodeFour(s: string, n: int)
    requires 0x10000 <= n < 0x110000
    requires ByteAt(s, 0) == Some(0xF0 + n / 262144)
    requires ByteAt(s, 3) == Some(0x80 + (n / 4096) % 64)
    requires ByteAt(s, 6) == Some(0x80 + (n / 64) % 64) && ByteAt(s, 9) == Some(0x80 + n % 64)
    ensures DecodeOne(s) == Some((n as char, 12))
  {
    assert ContinuationAt(s, 3) == Some((n / 4096) % 64);
    assert ContinuationAt(s, 6) == Some((n / 64) % 64);
    assert ContinuationAt(s, 9) == Some(n % 64);
    FourByteSplit(n);
  }

  lemma FourByteSplit(n: nat)
    ensures (n / 262144) * 262144 + ((n / 4096) % 64) * 4096 + ((n / 64) % 64) * 64 + n % 64 == n
  {
    var a := n / 64;
    var b := a / 64;
    assert n == 64 * a + n % 64;
    assert a == 64 * b + a % 64;
    assert b == n / 4096;
    assert b == 64 * (b / 64) + b % 64;
    assert b / 64 == n / 262144;
  }

  /** `decodeURIComponent(encodeURIComponent(s)) === s` for every string. */
  lemma {:induction false} DecodeEncode(s: string)
    ensures Decode(Encode(s)) == Some(s)
  {
    if s != [] {
      var tail := Encode(s[1..]);
      DecodeEncode(s[1..]);
      if Unreserved(s[0]) {
        assert Encode(s) == [s[0]] + tail;
        assert (Encode(s))[1..] == tail;
      } else {
        var head := Escape(Utf8(s[0]));
        assert Encode(s) == head + tail;
        DecodeOneEscape(s[0], tail);
        assert (head + tail)[|head|..] == tail;
      }
      assert [s[0]] + s[1..] == s;
    }
  }
}
