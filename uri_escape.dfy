/** Uri.EscapeDataString: every character outside the unreserved set of
    section 2.3 of RFC 3986 is written as the percent-encoded octets
    (section 2.1) of its UTF-8 encoding (section 3 of RFC 3629), with
    upper-case hexadecimal digits. */
module UriEscape {
  import opened Base

  predicate IsUnreserved(c: char)
  {
    ('A' <= c <= 'Z') || ('a' <= c <= 'z') || ('0' <= c <= '9') || c == '-' || c == '.' || c == '_' || c == '~'
  }

  /** The UTF-8 octets of one Unicode scalar value. */
  function Utf8(c: char): (bytes: seq<byte>)
    ensures 1 <= |bytes| <= 4
  {
    var n := c as int;
    if n < 0x80 then [n]
    else if n < 0x800 then [0xC0 + n / 0x40, 0x80 + n % 0x40]
    else if n < 0x1_0000 then [0xE0 + n / 0x1000, 0x80 + n / 0x40 % 0x40, 0x80 + n % 0x40]
    else [0xF0 + n / 0x4_0000, 0x80 + n / 0x1000 % 0x40, 0x80 + n / 0x40 % 0x40, 0x80 + n % 0x40]
  }

  function Utf8Bytes(s: string): seq<byte>
  {
    if s == [] then [] else Utf8(s[0]) + Utf8Bytes(s[1..])
  }

  predicate IsUpperHex(c: char) { ('0' <= c <= '9') || ('A' <= c <= 'F') }

  function HexDigit(n: nat): (c: char)
    requires n < 16
    ensures IsUpperHex(c)
  {
    if n < 10 then ('0' as int + n) as char else ('A' as int + n - 10) as char
  }

  function HexValue(c: char): (n: nat)
    requires IsUpperHex(c)
    ensures n < 16 && HexDigit(n) == c
  {
    if c <= '9' then c as int - '0' as int else c as int - 'A' as int + 10
  }

  /** "%XY" for one octet. */
  function PercentEncode(b: byte): (t: string)
    ensures |t| == 3 && t[0] == '%' && IsUpperHex(t[1]) && IsUpperHex(t[2])
  {
    ['%', HexDigit(b / 16), HexDigit(b % 16)]
  }

  function PercentEncodeAll(bytes: seq<byte>): string
  {
    if bytes == [] then [] else PercentEncode(bytes[0]) + PercentEncodeAll(bytes[1..])
  }

  function EscapeChar(c: char): string
  {
    if IsUnreserved(c) then [c] else PercentEncodeAll(Utf8(c))
  }

  /** Uri.EscapeDataString */
  function EscapeDataString(s: string): string
  {
    if s == [] then [] else EscapeChar(s[0]) + EscapeDataString(s[1..])
  }

  /** What may appear in an escaped string: unreserved characters, "%" and
      the hexadecimal digits that follow it. */
  predicate IsEscapedText(t: string)
  {
    forall i :: 0 <= i < |t| ==> IsUnreserved(t[i]) || t[i] == '%'
  }

  /** Percent-decoding into octets: "%XY" is one octet, any other character
      stands for its own code. */
  function Unescape(t: string): seq<int>
  {
    if t == [] then []
    else if t[0] == '%' && |t| >= 3 && IsUpperHex(t[1]) && IsUpperHex(t[2]) then
      [16 * HexValue(t[1]) + HexValue(t[2])] + Unescape(t[3..])
    else [t[0] as int] + Unescape(t[1..])
  }

  lemma HexRoundTrip(n: nat)
    requires n < 16
    ensures HexValue(HexDigit(n)) == n
  {
  }

  /** Decoding a run of percent-encoded octets gives the octets back. */
  lemma {:induction false} UnescapePercent(bytes: seq<byte>, rest: string)
    ensures Unescape(PercentEncodeAll(bytes) + rest) == bytes + Unescape(rest)
  {
    if bytes != [] {
      var b := bytes[0];
      var tail := PercentEncodeAll(bytes[1..]) + rest;
      var t := PercentEncode(b) + tail;
      assert PercentEncodeAll(bytes) + rest == t;
      HexRoundTrip(b / 16);
      HexRoundTrip(b % 16);
      assert t[3..] == tail;
      assert 16 * (b / 16) + b % 16 == b;
      assert t[0] == '%' && t[1] == HexDigit(b / 16) && t[2] == HexDigit(b % 16);
      assert Unescape(t) == [b] + Unescape(tail);
      UnescapePercent(bytes[1..], rest);
      assert Unescape(PercentEncodeAll(bytes) + rest) == [b] + (bytes[1..] + Unescape(rest));
      assert bytes == [b] + bytes[1..];
    } else {
      assert PercentEncodeAll(bytes) + rest == rest;
    }
  }

  lemma UnescapeChar(c: char, rest: string)
    ensures Unescape(EscapeChar(c) + rest) == Utf8(c) + Unescape(rest)
  {
    if IsUnreserved(c) {
      assert ([c] + rest)[1..] == rest;
    } else {
      UnescapePercent(Utf8(c), rest);
    }
  }

  /** Percent-decoding an escaped string gives back the UTF-8 encoding of
      the original: nothing is lost or merged by the escaping. */
  lemma {:induction false} UnescapeEscape(s: string)
    ensures Unescape(EscapeDataString(s)) == Utf8Bytes(s)
  {
    if s != [] {
      UnescapeEscape(s[1..]);
      UnescapeChar(s[0], EscapeDataString(s[1..]));
    }
  }

  lemma {:induction false} PercentEncodeAllEscaped(bytes: seq<byte>)
    ensures IsEscapedText(PercentEncodeAll(bytes))
  {
    if bytes != [] {
      PercentEncodeAllEscaped(bytes[1..]);
      var t := PercentEncodeAll(bytes);
      var rest := PercentEncodeAll(bytes[1..]);
      assert t == PercentEncode(bytes[0]) + rest;
      forall i | 0 <= i < |t|
        ensures IsUnreserved(t[i]) || t[i] == '%'
      {
        if i >= 3 {
          assert t[i] == rest[i - 3];
        }
      }
    }
  }

  /** The escaped text holds only unreserved characters and "%": in
      particular no "&", "=", "'" or space that would end or split a query
      parameter. */
  lemma {:induction false} EscapedAlphabet(s: string)
    ensures IsEscapedText(EscapeDataString(s))
  {
    if s != [] {
      EscapedAlphabet(s[1..]);
      var head := EscapeChar(s[0]);
      var rest := EscapeDataString(s[1..]);
      if !IsUnreserved(s[0]) {
        PercentEncodeAllEscaped(Utf8(s[0]));
      }
      var t := head + rest;
      forall i | 0 <= i < |t|
        ensures IsUnreserved(t[i]) || t[i] == '%'
      {
        if i >= |head| {
          assert t[i] == rest[i - |head|];
        }
      }
    }
  }

  /** The scalar value UTF-8 octets of one character stand for. */
  function DecodeScalar(bytes: seq<byte>): int
    requires 1 <= |bytes| <= 4
  {
    if |bytes| == 1 then bytes[0]
    else if |bytes| == 2 then (bytes[0] as int - 0xC0) * 0x40 + (bytes[1] as int - 0x80)
    else if |bytes| == 3 then (bytes[0] as int - 0xE0) * 0x1000 + (bytes[1] as int - 0x80) * 0x40 + (bytes[2] as int - 0x80)
    else (bytes[0] as int - 0xF0) * 0x4_0000 + (bytes[1] as int - 0x80) * 0x1000 + (bytes[2] as int - 0x80) * 0x40 + (bytes[3] as int - 0x80)
  }

  /** How many octets a character whose encoding starts with `lead` takes. */
  function SequenceLength(lead: byte): nat
  {
    if lead < 0x80 then 1 else if lead < 0xE0 then 2 else if lead < 0xF0 then 3 else 4
  }

  /** The six-bit groups of a number, from the lowest. */
  lemma SixBitGroups(n: nat)
    ensures n == n / 0x40 * 0x40 + n % 0x40
    ensures n == n / 0x1000 * 0x1000 + n / 0x40 % 0x40 * 0x40 + n % 0x40
    ensures n == n / 0x4_0000 * 0x4_0000 + n / 0x1000 % 0x40 * 0x1000 + n / 0x40 % 0x40 * 0x40 + n % 0x40
  {
    var a, r0 := n / 0x40, n % 0x40;
    var b, r1 := a / 0x40, a % 0x40;
    var c, r2 := b / 0x40, b % 0x40;
    assert n == 0x1000 * b + (0x40 * r1 + r0);
    assert n / 0x1000 == b;
    assert n == 0x4_0000 * c + (0x1000 * r2 + 0x40 * r1 + r0);
    assert n / 0x4_0000 == c;
  }

  lemma Utf8Decodes(c: char)
    ensures |Utf8(c)| == SequenceLength(Utf8(c)[0])
    ensures DecodeScalar(Utf8(c)) == c as int
  {
    SixBitGroups(c as int);
  }

  /** Different strings have different UTF-8 encodings. */
  lemma {:induction false} Utf8BytesInjective(s: string, t: string)
    requires Utf8Bytes(s) == Utf8Bytes(t)
    ensures s == t
  {
    if s != [] && t != [] {
      var a, b := Utf8(s[0]), Utf8(t[0]);
      Utf8Decodes(s[0]);
      Utf8Decodes(t[0]);
      assert a[0] == Utf8Bytes(s)[0] == b[0];
      assert a == Utf8Bytes(s)[..|a|] && b == Utf8Bytes(t)[..|b|];
      assert s[0] == t[0];
      assert Utf8Bytes(s[1..]) == Utf8Bytes(s)[|a|..] == Utf8Bytes(t)[|b|..] == Utf8Bytes(t[1..]);
      Utf8BytesInjective(s[1..], t[1..]);
    }
  }

  /** Different strings escape differently, so the query parameter names the
      filter it was built from. */
  lemma EscapeInjective(s: string, t: string)
    requires EscapeDataString(s) == EscapeDataString(t)
    ensures s == t
  {
    UnescapeEscape(s);
    UnescapeEscape(t);
    Utf8BytesInjective(s, t);
  }
}
