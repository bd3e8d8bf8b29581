/**
 * encodeURIComponent and its inverse decodeURIComponent (ECMA-262, sections
 * 19.2.6.4 and 19.2.6.5): every character outside the unreserved set is
 * written as the percent-escaped bytes of its UTF-8 encoding (RFC 3629,
 * section 3), with upper-case hexadecimal digits.
 */
module Uri {
  import opened Wrappers

  /** The characters encodeURIComponent leaves as they are. */
  predicate Unreserved(c: char) {
    ('A' <= c <= 'Z') || ('a' <= c <= 'z') || ('0' <= c <= '9')
    || c == '-' || c == '_' || c == '.' || c == '!' || c == '~' || c == '*' || c == '\'' || c == '(' || c == ')'
  }

  predicate IsHexDigit(c: char) {
    ('0' <= c <= '9') || ('A' <= c <= 'F') || ('a' <= c <= 'f')
  }

  /** The upper-case hexadecimal digit of n. */
  function HexDigit(n: nat): (c: char)
    requires n < 16
    ensures IsHexDigit(c) && Unreserved(c)
  {
    if n < 10 then ('0' as int + n) as char else ('A' as int + n - 10) as char
  }

  function HexValue(c: char): (n: nat)
    requires IsHexDigit(c)
    ensures n < 16
  {
    if '0' <= c <= '9' then c as int - '0' as int
    else if 'A' <= c <= 'F' then c as int - 'A' as int + 10
    else c as int - 'a' as int + 10
  }

  lemma HexRoundTrip(n: nat)
    requires n < 16
    ensures HexValue(HexDigit(n)) == n
  {
  }

  type Byte = b: int | 0 <= b < 256

  /** The UTF-8 encoding of a Unicode scalar value. */
  function Utf8(c: char): (bytes: seq<Byte>)
    ensures 1 <= |bytes| <= 4
  {
    var n := c as int;
    if n < 0x80 then [n]
    else if n < 0x800 then [0xC0 + n / 64, 0x80 + n % 64]
    else if n < 0x10000 then [0xE0 + n / 4096, 0x80 + (n / 64) % 64, 0x80 + n % 64]
    else [0xF0 + n / 262144, 0x80 + (n / 4096) % 64, 0x80 + (n / 64) % 64, 0x80 + n % 64]
  }

  /** One byte as %XY. */
  function Escape(b: Byte): (r: string)
    ensures |r| == 3 && r[0] == '%' && IsHexDigit(r[1]) && IsHexDigit(r[2])
  {
    ['%', HexDigit(b / 16), HexDigit(b % 16)]
  }

  function EscapeAll(bytes: seq<Byte>): (r: string)
    ensures |r| == 3 * |bytes|
    ensures forall k | 0 <= k < |r| :: r[k] == '%' || Unreserved(r[k])
  {
    if bytes == [] then [] else Escape(bytes[0]) + EscapeAll(bytes[1..])
  }

  function EncodeChar(c: char): (r: string)
    ensures forall k | 0 <= k < |r| :: r[k] == '%' || Unreserved(r[k])
  {
    if Unreserved(c) then [c] else EscapeAll(Utf8(c))
  }

  /** encodeURIComponent. The result holds only unreserved characters and
      '%': no '&', '=', '?', '#', '/', '+' or space survives. */
  function EncodeUriComponent(s: string): (r: string)
    ensures forall k | 0 <= k < |r| :: r[k] == '%' || Unreserved(r[k])
  {
    if s == [] then [] else EncodeChar(s[0]) + EncodeUriComponent(s[1..])
  }

  // ---------------------------------------------------------------------------
  // Decoding
  // ---------------------------------------------------------------------------

  /** The byte of a leading %XY. */
  function ReadByte(s: string): Option<Byte>
  {
    if |s| >= 3 && s[0] == '%' && IsHexDigit(s[1]) && IsHexDigit(s[2])
    then Some(HexValue(s[1]) * 16 + HexValue(s[2]))
    else None
  }

  /** The n leading escaped bytes of s. */
  function ReadBytes(s: string, n: nat): (r: Option<seq<Byte>>)
    ensures r.Some? ==> |r.value| == n && |s| >= 3 * n
  {
    if n == 0 then Some([])
    else match ReadByte(s)
      case None => None
      case Some(b) =>
        match ReadBytes(s[3..], n - 1)
        case None => None
        case Some(bs) => Some([b] + bs)
  }

  /** The length of the UTF-8 sequence a lead byte starts, 0 when it cannot
      start one. */
  function SequenceLength(b: Byte): nat {
    if b < 0x80 then 1
    else if 0xC2 <= b < 0xE0 then 2
    else if 0xE0 <= b < 0xF0 then 3
    else if 0xF0 <= b < 0xF5 then 4
    else 0
  }

  predicate IsContinuation(b: Byte) {
    0x80 <= b < 0xC0
  }

  predicate IsScalar(n: int) {
    (0 <= n < 0xD800) || (0xE000 <= n < 0x110000)
  }

  /** The scalar value a well-formed, shortest UTF-8 sequence denotes. */
  function DecodeUtf8(bytes: seq<Byte>): Option<char> {
    if |bytes| == 1 && bytes[0] < 0x80 then Some(bytes[0] as char)
    else if |bytes| == 2 && IsContinuation(bytes[1]) then
      var n := Payload(bytes[0], 0xC0) * 64 + Payload(bytes[1], 0x80);
      if 0x80 <= n < 0x800 then Some(n as char) else None
    else if |bytes| == 3 && IsContinuation(bytes[1]) && IsContinuation(bytes[2]) then
      var n := Payload(bytes[0], 0xE0) * 4096 + Payload(bytes[1], 0x80) * 64 + Payload(bytes[2], 0x80);
      if 0x800 <= n < 0x10000 && IsScalar(n) then Some(n as char) else None
    else if |bytes| == 4 && IsContinuation(bytes[1]) && IsContinuation(bytes[2]) && IsContinuation(bytes[3]) then
      var n := Payload(bytes[0], 0xF0) * 262144 + Payload(bytes[1], 0x80) * 4096
        + Payload(bytes[2], 0x80) * 64 + Payload(bytes[3], 0x80);
      if 0x10000 <= n < 0x110000 then Some(n as char) else None
    else None
  }

  /** The bits of a byte below its marker bits. */
  function Payload(b: Byte, marker: int): int {
    b as int - marker
  }

  /** The first character of a percent-encoded string and how many input
      characters it takes. */
  function ReadChar(s: string): (r: Option<(char, nat)>)
    requires s != []
    ensures r.Some? ==> 1 <= r.value.1 <= |s|
  {
    if s[0] != '%' then Some((s[0], 1))
    else match ReadByte(s)
      case None => None
      case Some(lead) =>
        var n := SequenceLength(lead);
        if n == 0 then None
        else match ReadBytes(s, n)
          case None => None
          case Some(bytes) =>
            match DecodeUtf8(bytes)
            case None => None
            case Some(c) => Some((c, 3 * n))
  }

  /** decodeURIComponent; None stands for the URIError it throws. */
  function DecodeUriComponent(s: string): (r: Option<string>)
    ensures r.Some? ==> |r.value| <= |s|
    decreases |s|
  {
    if s == [] then Some([])
    else match ReadChar(s)
      case None => None
      case Some((c, k)) =>
        match DecodeUriComponent(s[k..])
        case None => None
        case Some(r) => Some([c] + r)
  }

  /** Text without a '%' decodes to itself. */
  lemma {:induction false} PlainTextDecodes(s: string)
    requires forall k | 0 <= k < |s| :: s[k] != '%'
    ensures DecodeUriComponent(s) == Some(s)
  {
    if s != [] {
      assert ReadChar(s) == Some((s[0], 1));
      assert forall k | 0 <= k < |s[1..]| :: s[1..][k] == s[k + 1];
      PlainTextDecodes(s[1..]);
      assert [s[0]] + s[1..] == s;
    }
  }

  // ---------------------------------------------------------------------------
  // Round trip
  // ---------------------------------------------------------------------------

  lemma ReadEscape(b: Byte, rest: string)
    ensures ReadByte(Escape(b) + rest) == Some(b)
  {
    var s := Escape(b) + rest;
    assert s[..3] == Escape(b);
    HexRoundTrip(b / 16);
    HexRoundTrip(b % 16);
  }

  lemma {:induction false} ReadEscapes(bytes: seq<Byte>, rest: string)
    ensures ReadBytes(EscapeAll(bytes) + rest, |bytes|) == Some(bytes)
  {
    if bytes != [] {
      var s := EscapeAll(bytes) + rest;
      assert s == Escape(bytes[0]) + (EscapeAll(bytes[1..]) + rest);
      ReadEscape(bytes[0], EscapeAll(bytes[1..]) + rest);
      assert s[3..] == EscapeAll(bytes[1..]) + rest;
      ReadEscapes(bytes[1..], rest);
      assert [bytes[0]] + bytes[1..] == bytes;
    }
  }

  /** UTF-8 decoding inverts UTF-8 encoding, and the lead byte announces the
      length of the sequence. */
  lemma Utf8RoundTrip(c: char)
    ensures SequenceLength(Utf8(c)[0]) == |Utf8(c)|
    ensures DecodeUtf8(Utf8(c)) == Some(c)
  {
    var n := c as int;
    if n < 0x80 {
    } else if n < 0x800 {
      assert n == (n / 64) * 64 + n % 64;
    } else if n < 0x10000 {
      var q := n / 64;
      assert n == q * 64 + n % 64;
      assert q == (q / 64) * 64 + q % 64;
      assert q / 64 == n / 4096;
    } else {
      var q := n / 64;
      var q2 := q / 64;
      assert n == q * 64 + n % 64;
      assert q == q2 * 64 + q % 64;
      assert q2 == (q2 / 64) * 64 + q2 % 64;
      assert q2 == n / 4096;
      assert q2 / 64 == n / 262144;
    }
  }

  /** Decoding reads back each encoded character. */
  lemma ReadEncodedChar(c: char, rest: string)
    ensures EncodeChar(c) + rest != []
    ensures ReadChar(EncodeChar(c) + rest) == Some((c, |EncodeChar(c)|))
  {
    var s := EncodeChar(c) + rest;
    if Unreserved(c) {
      assert s[0] == c;
    } else {
      var bytes := Utf8(c);
      Utf8RoundTrip(c);
      assert EscapeAll(bytes) == Escape(bytes[0]) + EscapeAll(bytes[1..]);
      assert s == Escape(bytes[0]) + (EscapeAll(bytes[1..]) + rest);
      ReadEscape(bytes[0], EscapeAll(bytes[1..]) + rest);
      ReadEscapes(bytes, rest);
    }
  }

  /** Decoding the encoding of any string gives that string back. */
  lemma {:induction false} DecodeEncode(s: string)
    ensures DecodeUriComponent(EncodeUriComponent(s)) == Some(s)
  {
    if s != [] {
      var e := EncodeUriComponent(s);
      var head := EncodeChar(s[0]);
      var tail := EncodeUriComponent(s[1..]);
      assert e == head + tail;
      ReadEncodedChar(s[0], tail);
      assert e[|head|..] == tail;
      DecodeEncode(s[1..]);
      assert [s[0]] + s[1..] == s;
    }
  }
}
