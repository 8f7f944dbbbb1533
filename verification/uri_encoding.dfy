/**
 * `encodeURIComponent` (ECMA-262 section 19.2.6.4): every code point outside the
 * unreserved set is written as the percent-encoded bytes of its UTF-8 form
 * (section 2.1 of RFC 3986, upper-case hexadecimal), and a percent-decoder that
 * undoes it.
 */
module UriEncoding {
  import opened Wrappers

  /** The characters `encodeURIComponent` leaves alone: letters, digits and `-_.!~*'()`. */
  predicate Unreserved(c: char) {
    || ('A' <= c <= 'Z') || ('a' <= c <= 'z') || ('0' <= c <= '9')
    || c == '-' || c == '_' || c == '.' || c == '!' || c == '~' || c == '*' || c == '\'' || c == '(' || c == ')'
  }

  /** A byte value. */
  predicate IsByte(b: int) { 0 <= b < 256 }

  /** The UTF-8 encoding of one code point (RFC 3629). */
  function Utf8(c: char): (bs: seq<int>)
    ensures 1 <= |bs| <= 4
    ensures forall k :: 0 <= k < |bs| ==> IsByte(bs[k])
  {
    var n := c as int;
    if n < 0x80 then [n]
    else if n < 0x800 then [0xC0 + n / 64, 0x80 + n % 64]
    else if n < 0x10000 then [0xE0 + n / 4096, 0x80 + (n / 64) % 64, 0x80 + n % 64]
    else [0xF0 + n / 262144, 0x80 + (n / 4096) % 64, 0x80 + (n / 64) % 64, 0x80 + n % 64]
  }

  const HexDigits := "0123456789ABCDEF"

  /** `%XY` for one byte. */
  function PercentByte(b: int): string
    requires IsByte(b)
  {
    ['%', HexDigits[b / 16], HexDigits[b % 16]]
  }

  function PercentBytes(bs: seq<int>): (r: string)
    requires forall k :: 0 <= k < |bs| ==> IsByte(bs[k])
    ensures |r| == 3 * |bs|
  {
    if |bs| == 0 then "" else PercentByte(bs[0]) + PercentBytes(bs[1..])
  }

  function EncodeChar(c: char): string {
    if Unreserved(c) then [c] else PercentBytes(Utf8(c))
  }

  /** A character that can appear in an encoded component: unreserved, or the `%` of an escape. */
  predicate Encoded(c: char) { Unreserved(c) || c == '%' }

  lemma PercentBytesEncoded(bs: seq<int>)
    requires forall k :: 0 <= k < |bs| ==> IsByte(bs[k])
    ensures forall k :: 0 <= k < |PercentBytes(bs)| ==> Encoded(PercentBytes(bs)[k])
  {
    if |bs| > 0 {
      PercentBytesEncoded(bs[1..]);
      var p := PercentByte(bs[0]);
      assert Unreserved(p[1]) && Unreserved(p[2]);
    }
  }

  /** `encodeURIComponent`: the result holds no reserved character such as `&`, `=`, `?` or `#`. */
  function EncodeURIComponent(s: string): (r: string)
    ensures forall k :: 0 <= k < |r| ==> Encoded(r[k])
    ensures (forall k :: 0 <= k < |s| ==> Unreserved(s[k])) ==> r == s
  {
    if |s| == 0 then ""
    else
      var head := EncodeChar(s[0]);
      assert !Unreserved(s[0]) ==> forall k :: 0 <= k < |head| ==> Encoded(head[k]) by {
        if !Unreserved(s[0]) { PercentBytesEncoded(Utf8(s[0])); }
      }
      assert s == [s[0]] + s[1..];
      head + EncodeURIComponent(s[1..])
  }

  /** The value of a hexadecimal digit, either case. */
  function HexValue(c: char): Option<int> {
    if '0' <= c <= '9' then Some(c as int - '0' as int)
    else if 'A' <= c <= 'F' then Some(c as int - 'A' as int + 10)
    else if 'a' <= c <= 'f' then Some(c as int - 'a' as int + 10)
    else None
  }

  /** The byte of a leading `%XY` escape. */
  function ReadByte(s: string): Option<int> {
    if |s| >= 3 && s[0] == '%' && HexValue(s[1]).Some? && HexValue(s[2]).Some? then
      Some(HexValue(s[1]).value * 16 + HexValue(s[2]).value)
    else None
  }

  /** The bytes of `n` leading escapes. */
  function ReadBytes(s: string, n: nat): Option<seq<int>>
    decreases n
  {
    if n == 0 then Some([])
    else
      match ReadByte(s)
      case None => None
      case Some(b) =>
        match ReadBytes(s[3..], n - 1)
        case None => None
        case Some(bs) => Some([b] + bs)
  }

  /** How many bytes a UTF-8 sequence has, read from its first byte; 0 for a byte that cannot start one. */
  function SequenceLength(b0: int): nat {
    if 0 <= b0 < 0x80 then 1
    else if 0xC0 <= b0 < 0xE0 then 2
    else if 0xE0 <= b0 < 0xF0 then 3
    else if 0xF0 <= b0 < 0xF8 then 4
    else 0
  }

  /** The code point a UTF-8 sequence of one to four bytes stands for. */
  function CodePoint(bs: seq<int>): int
    requires 1 <= |bs| <= 4
  {
    if |bs| == 1 then bs[0]
    else if |bs| == 2 then (bs[0] - 0xC0) * 64 + (bs[1] - 0x80)
    else if |bs| == 3 then (bs[0] - 0xE0) * 4096 + (bs[1] - 0x80) * 64 + (bs[2] - 0x80)
    else (bs[0] - 0xF0) * 262144 + (bs[1] - 0x80) * 4096 + (bs[2] - 0x80) * 64 + (bs[3] - 0x80)
  }

  predicate IsScalar(cp: int) {
    (0 <= cp < 0xD800) || (0xE000 <= cp < 0x110000)
  }

  /** Percent-decoding back to code points; `None` for a malformed escape. */
  function PercentDecode(s: string): Option<string>
    decreases |s|
  {
    if |s| == 0 then Some("")
    else if s[0] != '%' then
      match PercentDecode(s[1..])
      case None => None
      case Some(rest) => Some([s[0]] + rest)
    else
      match ReadByte(s)
      case None => None
      case Some(b0) =>
        var n := SequenceLength(b0);
        if n == 0 || |s| < 3 * n then None
        else
          match ReadBytes(s, n)
          case None => None
          case Some(bs) =>
            if |bs| != n || !IsScalar(CodePoint(bs)) then None
            else
              match PercentDecode(s[3 * n..])
              case None => None
              case Some(rest) => Some([CodePoint(bs) as char] + rest)
  }

  lemma HexDigitValue(d: int)
    requires 0 <= d < 16
    ensures HexValue(HexDigits[d]) == Some(d)
  {
  }

  lemma ReadPercentByte(b: int, rest: string)
    requires IsByte(b)
    ensures ReadByte(PercentByte(b) + rest) == Some(b)
  {
    HexDigitValue(b / 16);
    HexDigitValue(b % 16);
  }

  lemma {:induction false} ReadPercentBytes(bs: seq<int>, rest: string)
    requires forall k :: 0 <= k < |bs| ==> IsByte(bs[k])
    ensures ReadBytes(PercentBytes(bs) + rest, |bs|) == Some(bs)
  {
    if |bs| > 0 {
      var s := PercentBytes(bs) + rest;
      ReadPercentByte(bs[0], PercentBytes(bs[1..]) + rest);
      assert s == PercentByte(bs[0]) + (PercentBytes(bs[1..]) + rest);
      assert s[3..] == PercentBytes(bs[1..]) + rest;
      ReadPercentBytes(bs[1..], rest);
      assert bs == [bs[0]] + bs[1..];
    }
  }

  /** The UTF-8 form of a code point announces its own length and decodes back to the code point. */
  lemma Utf8Decodes(c: char)
    ensures SequenceLength(Utf8(c)[0]) == |Utf8(c)|
    ensures CodePoint(Utf8(c)) == c as int
  {
    var n := c as int;
    if n < 0x80 {
    } else if n < 0x800 {
      assert n == (n / 64) * 64 + n % 64;
    } else if n < 0x10000 {
      assert n / 64 == (n / 4096) * 64 + (n / 64) % 64;
      assert n == (n / 64) * 64 + n % 64;
    } else {
      assert n / 4096 == (n / 262144) * 64 + (n / 4096) % 64;
      assert n / 64 == (n / 4096) * 64 + (n / 64) % 64;
      assert n == (n / 64) * 64 + n % 64;
    }
  }

  /** Decoding the escapes of a code point followed by more text yields the code point first. */
  lemma DecodeEscapedChar(c: char, rest: string)
    ensures PercentDecode(PercentBytes(Utf8(c)) + rest) ==
      match PercentDecode(rest)
      case None => None
      case Some(r) => Some([c] + r)
  {
    var bs := Utf8(c);
    var s := PercentBytes(bs) + rest;
    ReadPercentBytes(bs, rest);
    ReadPercentByte(bs[0], PercentBytes(bs[1..]) + rest);
    assert s == PercentByte(bs[0]) + (PercentBytes(bs[1..]) + rest);
    assert s[0] == '%';
    Utf8Decodes(c);
    assert IsScalar(CodePoint(bs));
    assert s[3 * |bs|..] == rest;
    assert CodePoint(bs) as char == c;
  }

  /** Decoding an encoded character followed by more text yields the character first. */
  lemma DecodeEncodedChar(c: char, rest: string)
    ensures PercentDecode(EncodeChar(c) + rest) ==
      match PercentDecode(rest)
      case None => None
      case Some(r) => Some([c] + r)
  {
    if Unreserved(c) {
      assert (EncodeChar(c) + rest)[1..] == rest;
    } else {
      DecodeEscapedChar(c, rest);
    }
  }

  /** Percent-decoding undoes `encodeURIComponent` on every string. */
  lemma {:induction false} DecodeEncode(s: string)
    ensures PercentDecode(EncodeURIComponent(s)) == Some(s)
  {
    if |s| > 0 {
      DecodeEncode(s[1..]);
      DecodeEncodedChar(s[0], EncodeURIComponent(s[1..]));
      assert s == [s[0]] + s[1..];
    }
  }
}
