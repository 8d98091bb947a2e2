/**
 * Percent-encoding of a route parameter: `encodeURIComponent` as ECMAScript defines it, and
 * the decoding that `URLSearchParams` applies to a query value (the
 * application/x-www-form-urlencoded parser of the WHATWG URL standard).
 */
module UriComponent {

  type Byte = b: int | 0 <= b < 256

  /** The characters `encodeURIComponent` copies unchanged: ASCII letters, digits and "-_.!~*'()". */
  predicate Unreserved(c: char) {
    ('A' <= c <= 'Z') || ('a' <= c <= 'z') || ('0' <= c <= '9') || c in "-_.!~*'()"
  }

  /** The upper-case hexadecimal digit for `n`. */
  function HexDigit(n: int): (c: char)
    requires 0 <= n < 16
    ensures Unreserved(c)
  {
    if n < 10 then (48 + n) as char else (55 + n) as char
  }

  /** The value of a hexadecimal digit of either case, or -1 for any other character. */
  function HexValue(c: char): (v: int)
    ensures -1 <= v < 16
  {
    if '0' <= c <= '9' then c as int - 48
    else if 'A' <= c <= 'F' then c as int - 55
    else if 'a' <= c <= 'f' then c as int - 87
    else -1
  }

  /** The UTF-8 encoding of one Unicode scalar value. */
  function Utf8(c: char): (bytes: seq<Byte>)
    ensures 1 <= |bytes| <= 4
    ensures |bytes| == 1 <==> c as int < 0x80
    ensures |bytes| == 1 ==> bytes[0] == c as int
  {
    var cp := c as int;
    if cp < 0x80 then [cp]
    else if cp < 0x800 then [0xC0 + cp / 64, 0x80 + cp % 64]
    else if cp < 0x10000 then [0xE0 + cp / 4096, 0x80 + cp / 64 % 64, 0x80 + cp % 64]
    else [0xF0 + cp / 262144, 0x80 + cp / 4096 % 64, 0x80 + cp / 64 % 64, 0x80 + cp % 64]
  }

  /** The UTF-8 encoding of a string. */
  function Utf8Bytes(s: string): seq<Byte>
  {
    if s == [] then [] else Utf8(s[0]) + Utf8Bytes(s[1..])
  }

  /** "%XY" for each byte, as `encodeURIComponent` writes an escaped byte. */
  function PercentEscape(bytes: seq<Byte>): string
  {
    if bytes == [] then []
    else ['%', HexDigit(bytes[0] / 16), HexDigit(bytes[0] % 16)] + PercentEscape(bytes[1..])
  }

  /** One character of `encodeURIComponent`'s output. */
  function EncodeChar(c: char): string
  {
    if Unreserved(c) then [c] else PercentEscape(Utf8(c))
  }

  /** `encodeURIComponent(s)`: it emits only unreserved characters and '%', and at least one
      character for each character of `s`. */
  function Encode(s: string): (r: string)
    ensures AllEncoded(r)
    ensures |s| <= |r|
  {
    if s == [] then []
    else
      PercentEscapeAlphabet(Utf8(s[0]));
      AllEncodedConcat(EncodeChar(s[0]), Encode(s[1..]));
      EncodeChar(s[0]) + Encode(s[1..])
  }

  /**
   * The bytes of a query value after '+' becomes a space and every "%XY" with two hexadecimal
   * digits becomes the byte XY; any other character contributes its own UTF-8 bytes. The URL
   * standard does this on the UTF-8 bytes of the value; since '%', '+' and the hexadecimal digits
   * are ASCII and no multi-byte UTF-8 sequence holds an ASCII byte, reading characters is the same.
   */
  function FormDecodeBytes(s: string): seq<Byte>
  {
    if s == [] then []
    else if s[0] == '%' && |s| >= 3 && HexValue(s[1]) >= 0 && HexValue(s[2]) >= 0 then
      [HexValue(s[1]) * 16 + HexValue(s[2])] + FormDecodeBytes(s[3..])
    else if s[0] == '+' then [0x20] + FormDecodeBytes(s[1..])
    else Utf8(s[0]) + FormDecodeBytes(s[1..])
  }

  /** A UTF-8 continuation byte. */
  predicate IsContinuation(b: Byte) {
    0x80 <= b < 0xC0
  }

  const ReplacementCharacter: char := 0xFFFD as char

  /** The character at the start of `bytes` and the number of bytes it takes. */
  function DecodeFirst(bytes: seq<Byte>): (r: (char, nat))
    requires |bytes| > 0
    ensures 1 <= r.1 <= |bytes|
  {
    var b0: int := bytes[0];
    if b0 < 0x80 then (b0 as char, 1)
    else if 0xC2 <= b0 < 0xE0 && |bytes| >= 2 && IsContinuation(bytes[1]) then
      var b1: int := bytes[1];
      (((b0 - 0xC0) * 64 + (b1 - 0x80)) as char, 2)
    else if 0xE0 <= b0 < 0xF0 && |bytes| >= 3 && IsContinuation(bytes[1]) && IsContinuation(bytes[2]) then
      var b1: int, b2: int := bytes[1], bytes[2];
      var cp := (b0 - 0xE0) * 4096 + (b1 - 0x80) * 64 + (b2 - 0x80);
      if 0x800 <= cp && !(0xD800 <= cp < 0xE000) then (cp as char, 3) else (ReplacementCharacter, 1)
    else if 0xF0 <= b0 < 0xF5 && |bytes| >= 4 && IsContinuation(bytes[1]) && IsContinuation(bytes[2])
      && IsContinuation(bytes[3]) then
      var b1: int, b2: int, b3: int := bytes[1], bytes[2], bytes[3];
      var cp := (b0 - 0xF0) * 262144 + (b1 - 0x80) * 4096 + (b2 - 0x80) * 64 + (b3 - 0x80);
      if 0x10000 <= cp < 0x110000 then (cp as char, 4) else (ReplacementCharacter, 1)
    else (ReplacementCharacter, 1)
  }

  /** UTF-8 decoding; an ill-formed byte becomes U+FFFD. */
  function Utf8Decode(bytes: seq<Byte>): string
    decreases |bytes|
  {
    if bytes == [] then []
    else
      var (c, n) := DecodeFirst(bytes);
      [c] + Utf8Decode(bytes[n..])
  }

  /** The string `URLSearchParams` yields for an encoded name or value. */
  function Decode(s: string): string
  {
    Utf8Decode(FormDecodeBytes(s))
  }

  // ----- encoding's alphabet -----

  /** A character `encodeURIComponent` can emit. */
  predicate EncodedChar(c: char) {
    Unreserved(c) || c == '%'
  }

  /** Every character of `s` is one `encodeURIComponent` can emit. */
  ghost predicate AllEncoded(s: string) {
    forall i :: 0 <= i < |s| ==> EncodedChar(s[i])
  }

  lemma AllEncodedConcat(a: string, b: string)
    requires AllEncoded(a) && AllEncoded(b)
    ensures AllEncoded(a + b)
  {
    forall i | 0 <= i < |a + b| ensures EncodedChar((a + b)[i]) {
      if i >= |a| {
        assert (a + b)[i] == b[i - |a|];
      }
    }
  }

  lemma {:induction false} PercentEscapeAlphabet(bytes: seq<Byte>)
    ensures AllEncoded(PercentEscape(bytes))
    decreases |bytes|
  {
    if bytes != [] {
      PercentEscapeAlphabet(bytes[1..]);
      var b := bytes[0];
      AllEncodedConcat(['%', HexDigit(b / 16), HexDigit(b % 16)], PercentEscape(bytes[1..]));
    }
  }

  /** An encoded string holds none of the delimiters of a route: '&', '=', '+', '#' and '?'. */
  lemma EncodeHasNoDelimiter(s: string)
    ensures '&' !in Encode(s) && '=' !in Encode(s) && '+' !in Encode(s)
    ensures '#' !in Encode(s) && '?' !in Encode(s)
  {
    var r := Encode(s);
    forall i | 0 <= i < |r|
      ensures r[i] != '&' && r[i] != '=' && r[i] != '+' && r[i] != '#' && r[i] != '?'
    {
      assert EncodedChar(r[i]);
    }
  }

  /** A string of unreserved characters is its own encoding. */
  lemma {:induction false} EncodeUnreserved(s: string)
    requires forall i :: 0 <= i < |s| ==> Unreserved(s[i])
    ensures Encode(s) == s
    decreases |s|
  {
    if s != [] {
      EncodeUnreserved(s[1..]);
    }
  }

  // ----- decoding undoes encoding -----

  lemma HexRoundTrip(n: int)
    requires 0 <= n < 16
    ensures HexValue(HexDigit(n)) == n
  {
  }

  lemma {:induction false} FormDecodeEscaped(bytes: seq<Byte>, rest: string)
    ensures FormDecodeBytes(PercentEscape(bytes) + rest) == bytes + FormDecodeBytes(rest)
    decreases |bytes|
  {
    if bytes != [] {
      var b := bytes[0];
      HexRoundTrip(b / 16);
      HexRoundTrip(b % 16);
      var tail := PercentEscape(bytes[1..]) + rest;
      var s := PercentEscape(bytes) + rest;
      assert s == ['%', HexDigit(b / 16), HexDigit(b % 16)] + tail;
      assert s[0] == '%' && |s| >= 3;
      assert s[1] == HexDigit(b / 16) && s[2] == HexDigit(b % 16);
      assert s[3..] == tail;
      assert HexValue(s[1]) * 16 + HexValue(s[2]) == b;
      FormDecodeEscaped(bytes[1..], rest);
      assert FormDecodeBytes(s) == [b] + FormDecodeBytes(tail);
      assert bytes == [b] + bytes[1..];
      assert FormDecodeBytes(tail) == bytes[1..] + FormDecodeBytes(rest);
    } else {
      assert PercentEscape(bytes) + rest == rest;
    }
  }

  lemma FormDecodeEncodedChar(c: char, rest: string)
    ensures FormDecodeBytes(EncodeChar(c) + rest) == Utf8(c) + FormDecodeBytes(rest)
  {
    if Unreserved(c) {
      assert (EncodeChar(c) + rest)[1..] == rest;
    } else {
      FormDecodeEscaped(Utf8(c), rest);
    }
  }

  /** Form-decoding an encoded string yields the UTF-8 bytes of the original. */
  lemma {:induction false} FormDecodeEncode(s: string)
    ensures FormDecodeBytes(Encode(s)) == Utf8Bytes(s)
    decreases |s|
  {
    if s != [] {
      FormDecodeEncodedChar(s[0], Encode(s[1..]));
      FormDecodeEncode(s[1..]);
    }
  }

  lemma DivMod64(x: int)
    requires 0 <= x
    ensures x == x / 64 * 64 + x % 64 && 0 <= x % 64 < 64
  {
  }

  lemma DecodeThree(cp: int)
    requires 0x800 <= cp < 0x10000
    ensures (cp / 4096) * 4096 + (cp / 64 % 64) * 64 + cp % 64 == cp
    ensures cp / 4096 < 16
  {
    var a := cp / 64;
    DivMod64(cp);
    DivMod64(a);
    assert cp / 4096 == a / 64;
  }

  lemma DecodeFour(cp: int)
    requires 0x10000 <= cp < 0x110000
    ensures (cp / 262144) * 262144 + (cp / 4096 % 64) * 4096 + (cp / 64 % 64) * 64 + cp % 64 == cp
    ensures cp / 262144 < 5
  {
    var a := cp / 64;
    var b := a / 64;
    DivMod64(cp);
    DivMod64(a);
    DivMod64(b);
    assert cp / 4096 == b;
    assert cp / 262144 == b / 64;
  }

  /** The first character decoded from a character's UTF-8 bytes is that character. */
  lemma DecodeFirstUtf8(c: char, rest: seq<Byte>)
    ensures DecodeFirst(Utf8(c) + rest) == (c, |Utf8(c)|)
  {
    var cp := c as int;
    var bytes := Utf8(c) + rest;
    if cp < 0x80 {
    } else if cp < 0x800 {
      DivMod64(cp);
      assert bytes[0] == 0xC0 + cp / 64 && bytes[1] == 0x80 + cp % 64;
    } else if cp < 0x10000 {
      DecodeThree(cp);
      assert bytes[0] == 0xE0 + cp / 4096;
      assert bytes[1] == 0x80 + cp / 64 % 64 && bytes[2] == 0x80 + cp % 64;
    } else {
      DecodeFour(cp);
      assert bytes[0] == 0xF0 + cp / 262144;
      assert bytes[1] == 0x80 + cp / 4096 % 64;
      assert bytes[2] == 0x80 + cp / 64 % 64 && bytes[3] == 0x80 + cp % 64;
    }
  }

  /** UTF-8 decoding undoes UTF-8 encoding. */
  lemma {:induction false} Utf8RoundTrip(s: string)
    ensures Utf8Decode(Utf8Bytes(s)) == s
    decreases |s|
  {
    if s != [] {
      var bytes := Utf8Bytes(s);
      DecodeFirstUtf8(s[0], Utf8Bytes(s[1..]));
      assert bytes[|Utf8(s[0])|..] == Utf8Bytes(s[1..]);
      Utf8RoundTrip(s[1..]);
    }
  }

  /** A value written with `encodeURIComponent` reads back unchanged from the query string. */
  lemma RoundTrip(s: string)
    ensures Decode(Encode(s)) == s
  {
    FormDecodeEncode(s);
    Utf8RoundTrip(s);
  }

  /** `encodeURIComponent` is injective: two hints never share an encoding. */
  lemma EncodeInjective(s: string, t: string)
    ensures Encode(s) == Encode(t) <==> s == t
  {
    RoundTrip(s);
    RoundTrip(t);
  }
}
