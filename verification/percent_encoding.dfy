/** `encodeURIComponent` as the percent-encoding of section 2.1 of RFC 3986
    applied to the UTF-8 bytes (RFC 3629) of every character outside the
    unescaped set, together with its inverse `decodeURIComponent`. The
    round trip is what makes the fallback mail link carry its subject and
    body intact. */
module PercentEncoding {
  import opened Wrappers

  /** A byte value. */
  type Byte = b: int | 0 <= b < 256

  /** The characters `encodeURIComponent` copies through: the unreserved
      set of section 2.3 of RFC 3986 (letters, digits, `-`, `.`, `_`, `~`)
      plus the sub-delimiters `!`, `'`, `(`, `)` and `*`. */
  predicate Unescaped(c: char) {
    || ('A' <= c <= 'Z') || ('a' <= c <= 'z') || ('0' <= c <= '9')
    || c == '-' || c == '_' || c == '.' || c == '!' || c == '~'
    || c == '*' || c == '\'' || c == '(' || c == ')'
  }

  /** An upper-case hexadecimal digit, as the encoder emits them. */
  predicate IsUpperHex(c: char) {
    ('0' <= c <= '9') || ('A' <= c <= 'F')
  }

  /** The digit for `d`, upper case as section 2.1 of RFC 3986 recommends. */
  function HexDigit(d: int): (c: char)
    requires 0 <= d < 16
    ensures IsUpperHex(c)
  {
    if d < 10 then ('0' as int + d) as char else ('A' as int + d - 10) as char
  }

  /** The value of a hexadecimal digit of either case. */
  function HexValue(c: char): (r: Option<int>)
    ensures r.Some? <==> IsUpperHex(c) || ('a' <= c <= 'f')
    ensures r.Some? ==> 0 <= r.value < 16
  {
    if '0' <= c <= '9' then Some(c as int - '0' as int)
    else if 'A' <= c <= 'F' then Some(c as int - 'A' as int + 10)
    else if 'a' <= c <= 'f' then Some(c as int - 'a' as int + 10)
    else None
  }

  lemma HexDigitValue(d: int)
    requires 0 <= d < 16
    ensures HexValue(HexDigit(d)) == Some(d)
  {
  }

  /** The UTF-8 encoding of a Unicode scalar value: one byte below 0x80,
      then two, three or four bytes, each continuation carrying six bits. */
  function Utf8(c: char): (bs: seq<Byte>)
    ensures 1 <= |bs| <= 4
    ensures |bs| == LeadLength(bs[0])
    ensures forall i :: 1 <= i < |bs| ==> 0x80 <= bs[i] < 0xC0
  {
    var cp := c as int;
    var q1, r0 := cp / 64, cp % 64;
    var q2, r1 := q1 / 64, q1 % 64;
    var q3, r2 := q2 / 64, q2 % 64;
    if cp < 0x80 then [cp]
    else if cp < 0x800 then [0xC0 + q1, 0x80 + r0]
    else if cp < 0x10000 then [0xE0 + q2, 0x80 + r1, 0x80 + r0]
    else [0xF0 + q3, 0x80 + r2, 0x80 + r1, 0x80 + r0]
  }

  /** The sequence length announced by a leading byte, or 0 when the byte
      cannot start a sequence. */
  function LeadLength(b: Byte): nat {
    if b < 0x80 then 1
    else if 0xC0 <= b < 0xE0 then 2
    else if 0xE0 <= b < 0xF0 then 3
    else if 0xF0 <= b < 0xF8 then 4
    else 0
  }

  /** Whether `cp` is a Unicode scalar value (a code point that is not a
      surrogate). */
  predicate IsScalar(cp: int) {
    (0 <= cp < 0xD800) || (0xE000 <= cp < 0x11_0000)
  }

  /** The smallest code point that needs `n` bytes; longer ("overlong")
      forms are refused, as `decodeURIComponent` refuses them. */
  function MinCodePoint(n: nat): int {
    if n <= 1 then 0 else if n == 2 then 0x80 else if n == 3 then 0x800 else 0x10000
  }

  /** Decodes one complete UTF-8 sequence. */
  function DecodeUtf8(bs: seq<Byte>): (r: Option<char>)
    ensures r.Some? ==> 1 <= |bs| <= 4 && LeadLength(bs[0]) == |bs|
  {
    if |bs| == 0 || LeadLength(bs[0]) != |bs| then None
    else if exists i :: 1 <= i < |bs| && !(0x80 <= bs[i] < 0xC0) then None
    else
      var b0: int, b1: int, b2: int, b3: int :=
        bs[0], if |bs| > 1 then bs[1] else 0x80, if |bs| > 2 then bs[2] else 0x80, if |bs| > 3 then bs[3] else 0x80;
      var cp: int :=
        if |bs| == 1 then b0
        else if |bs| == 2 then (b0 - 0xC0) * 64 + (b1 - 0x80)
        else if |bs| == 3 then ((b0 - 0xE0) * 64 + (b1 - 0x80)) * 64 + (b2 - 0x80)
        else (((b0 - 0xF0) * 64 + (b1 - 0x80)) * 64 + (b2 - 0x80)) * 64 + (b3 - 0x80);
      if IsScalar(cp) && cp >= MinCodePoint(|bs|) then Some(cp as char) else None
  }

  /** Decoding the UTF-8 encoding of a character gives the character back. */
  lemma Utf8RoundTrip(c: char)
    ensures DecodeUtf8(Utf8(c)) == Some(c)
  {
    var cp := c as int;
    var q1, r0 := cp / 64, cp % 64;
    var q2, r1 := q1 / 64, q1 % 64;
    var q3, r2 := q2 / 64, q2 % 64;
    assert cp == q1 * 64 + r0;
    assert q1 == q2 * 64 + r1;
    assert q2 == q3 * 64 + r2;
  }

  /** `%XY` for one byte. */
  function PctByte(b: Byte): (r: string)
    ensures |r| == 3 && r[0] == '%' && IsUpperHex(r[1]) && IsUpperHex(r[2])
  {
    ['%', HexDigit(b / 16), HexDigit(b % 16)]
  }

  /** `%XY` for every byte of `bs`, in order. */
  function PctBytes(bs: seq<Byte>): (r: string)
    ensures |r| == 3 * |bs|
    ensures forall i :: 0 <= i < |r| ==> r[i] == '%' || IsUpperHex(r[i])
    ensures bs != [] ==> r[0] == '%'
  {
    if bs == [] then [] else PctByte(bs[0]) + PctBytes(bs[1..])
  }

  /** A character of the encoder's output alphabet. */
  predicate EncodedChar(c: char) {
    Unescaped(c) || c == '%' || IsUpperHex(c)
  }

  /** The encoding of one character. */
  function EncodeChar(c: char): (r: string)
    ensures 1 <= |r|
    ensures forall i :: 0 <= i < |r| ==> EncodedChar(r[i])
  {
    if Unescaped(c) then [c] else PctBytes(Utf8(c))
  }

  /** `encodeURIComponent(s)`. Every character of the result is unescaped,
      `%` or a hexadecimal digit, so none of the delimiters `?`, `&`, `=`
      and `#` can appear in it. */
  function Encode(s: string): (r: string)
    ensures |s| <= |r| <= 12 * |s|
    ensures forall i :: 0 <= i < |r| ==> EncodedChar(r[i])
  {
    if s == [] then [] else EncodeChar(s[0]) + Encode(s[1..])
  }

  /** Reads `n` consecutive `%XY` triplets. */
  function ReadBytes(s: string, n: nat): (r: Option<seq<Byte>>)
    ensures r.Some? ==> |r.value| == n
  {
    if n == 0 then Some([])
    else if |s| < 3 || s[0] != '%' then None
    else
      match (HexValue(s[1]), HexValue(s[2]), ReadBytes(s[3..], n - 1))
      case (Some(hi), Some(lo), Some(rest)) => Some([hi * 16 + lo] + rest)
      case _ => None
  }

  lemma {:induction false} ReadPctBytes(bs: seq<Byte>, tail: string)
    ensures ReadBytes(PctBytes(bs) + tail, |bs|) == Some(bs)
  {
    if bs != [] {
      var b := bs[0];
      var s := PctBytes(bs) + tail;
      var rest := PctBytes(bs[1..]) + tail;
      assert s == PctByte(b) + rest;
      assert s[1] == HexDigit(b / 16) && s[2] == HexDigit(b % 16) && s[3..] == rest;
      HexDigitValue(b / 16);
      HexDigitValue(b % 16);
      ReadPctBytes(bs[1..], tail);
      assert [b] + bs[1..] == bs;
    }
  }

  /** `decodeURIComponent(s)`: `None` where that throws a URIError. */
  function Decode(s: string): (r: Option<string>)
    decreases |s|
  {
    if s == [] then Some([])
    else if s[0] != '%' then
      match Decode(s[1..])
      case Some(rest) => Some([s[0]] + rest)
      case None => None
    else if |s| < 3 then None
    else
      match ReadBytes(s, 1)
      case None => None
      case Some(lead) =>
        var n := LeadLength(lead[0]);
        if n == 0 || |s| < 3 * n then None
        else
          match (ReadBytes(s, n), Decode(s[3 * n..]))
          case (Some(bs), Some(rest)) =>
            (match DecodeUtf8(bs)
             case Some(c) => Some([c] + rest)
             case None => None)
          case _ => None
  }

  /** One step of `Decode` over a percent-encoded character. */
  lemma DecodeEscapedStep(s: string, bs: seq<Byte>, c: char)
    requires |s| >= 3 && s[0] == '%'
    requires 1 <= |bs| && ReadBytes(s, 1) == Some(bs[..1]) && LeadLength(bs[0]) == |bs|
    requires |s| >= 3 * |bs| && ReadBytes(s, |bs|) == Some(bs)
    requires DecodeUtf8(bs) == Some(c)
    ensures Decode(s) ==
      (match Decode(s[3 * |bs|..]) case Some(rest) => Some([c] + rest) case None => None)
  {
  }

  /** Decoding the encoding of one character, followed by anything. */
  lemma {:induction false} DecodeEncodedChar(c: char, tail: string)
    ensures Decode(EncodeChar(c) + tail) ==
      (match Decode(tail) case Some(rest) => Some([c] + rest) case None => None)
  {
    var s := EncodeChar(c) + tail;
    if Unescaped(c) {
      assert s[0] == c && s[1..] == tail;
    } else {
      var bs := Utf8(c);
      EscapedReads(bs, tail);
      Utf8RoundTrip(c);
      DecodeEscapedStep(PctBytes(bs) + tail, bs, c);
    }
  }

  /** The triplets of an escaped character read back as its bytes, the
      first one alone too, and leave the rest of the input. */
  lemma {:induction false} EscapedReads(bs: seq<Byte>, tail: string)
    requires 1 <= |bs|
    ensures var s := PctBytes(bs) + tail;
      && |s| >= 3 * |bs| && s[0] == '%'
      && ReadBytes(s, 1) == Some(bs[..1])
      && ReadBytes(s, |bs|) == Some(bs)
      && s[3 * |bs|..] == tail
  {
    var s := PctBytes(bs) + tail;
    assert bs == bs[..1] + bs[1..];
    PctBytesAppend(bs[..1], bs[1..]);
    assert s == PctBytes(bs[..1]) + (PctBytes(bs[1..]) + tail);
    ReadPctBytes(bs[..1], PctBytes(bs[1..]) + tail);
    ReadPctBytes(bs, tail);
  }

  lemma {:induction false} PctBytesAppend(a: seq<Byte>, b: seq<Byte>)
    ensures PctBytes(a + b) == PctBytes(a) + PctBytes(b)
  {
    if a != [] {
      assert (a + b)[0] == a[0];
      assert (a + b)[1..] == a[1..] + b;
      PctBytesAppend(a[1..], b);
    } else {
      assert a + b == b;
    }
  }

  /** `decodeURIComponent(encodeURIComponent(s)) == s`. */
  lemma {:induction false} DecodeEncode(s: string)
    ensures Decode(Encode(s)) == Some(s)
  {
    if s != [] {
      DecodeEncodedChar(s[0], Encode(s[1..]));
      DecodeEncode(s[1..]);
      assert [s[0]] + s[1..] == s;
    }
  }

  /** Distinct strings have distinct encodings. */
  lemma EncodeInjective(a: string, b: string)
    requires Encode(a) == Encode(b)
    ensures a == b
  {
    DecodeEncode(a);
    DecodeEncode(b);
  }
}
