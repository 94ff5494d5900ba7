/** The \uXXXX literals of lib/cJSON.c, and UTF-8. */
module Utf16 {
  import opened Bytes

  /** What one escape turns into: the bytes written and the input bytes consumed; Bad is the `goto fail`. */
  datatype Literal = Bad | Good(bytes: seq<byte>, used: nat)

  predicate IsHex(b: byte) {
    DIGIT_0 <= b <= DIGIT_9 || UPPER_A <= b <= UPPER_F || LOWER_A <= b <= LOWER_F
  }

  function HexValue(b: byte): (d: nat)
    requires IsHex(b)
    ensures d < 16
  {
    if b <= DIGIT_9 then b - DIGIT_0 else if b <= UPPER_F then 10 + b - UPPER_A else 10 + b - LOWER_A
  }

  /** `parse_hex4` (lib/cJSON.c:652-685): four hexadecimal digits, or 0 when one of them is not one. */
  function Hex4(s: seq<byte>, i: nat): (h: nat)
    requires i + 4 <= |s|
    ensures h < 0x10000
  {
    if IsHex(s[i]) && IsHex(s[i + 1]) && IsHex(s[i + 2]) && IsHex(s[i + 3]) then
      ((HexValue(s[i]) * 16 + HexValue(s[i + 1])) * 16 + HexValue(s[i + 2])) * 16 + HexValue(s[i + 3])
    else 0
  }

  /** A Unicode scalar value. */
  predicate IsScalar(c: nat) {
    c < 0xD800 || 0xE000 <= c < 0x110000
  }

  type Scalar = c: nat | IsScalar(c)

  /** Section 3 of RFC 3629. */
  function Utf8(c: nat): (t: seq<byte>)
    requires c < 0x110000
    ensures 1 <= |t| <= 4
  {
    if c < 0x80 then [c]
    else if c < 0x800 then [0xC0 + c / 64, 0x80 + c % 64]
    else if c < 0x10000 then [0xE0 + c / 4096, 0x80 + c / 64 % 64, 0x80 + c % 64]
    else [0xF0 + c / 262144, 0x80 + c / 4096 % 64, 0x80 + c / 64 % 64, 0x80 + c % 64]
  }

  /** Section 2.2 of RFC 2781: the code point of a surrogate pair. */
  function PairValue(high: nat, low: nat): (c: nat)
    requires 0xD800 <= high <= 0xDBFF && 0xDC00 <= low <= 0xDFFF
    ensures 0x10000 <= c < 0x110000
  {
    0x10000 + (high - 0xD800) * 1024 + (low - 0xDC00)
  }

  /** The literal that starts at the backslash `s[p]` of a string whose closing quote is `s[end]`
      (lib/cJSON.c:689-812). */
  function ReadLiteral(s: seq<byte>, p: nat, end: nat): (r: Literal)
    requires p < end <= |s|
    ensures r.Good? ==> 1 <= |r.bytes| <= 4 && (r.used == 6 || r.used == 12) && p + r.used <= end
  {
    if end - p < 6 then Bad
    else
      var first := Hex4(s, p + 2);
      if 0xDC00 <= first <= 0xDFFF then Bad
      else if 0xD800 <= first <= 0xDBFF then
        if end - (p + 6) < 6 then Bad
        else if s[p + 6] != BACKSLASH || s[p + 7] != LOWER_U then Bad
        else
          var second := Hex4(s, p + 8);
          if second < 0xDC00 || second > 0xDFFF then Bad else Good(Utf8(PairValue(first, second)), 12)
      else Good(Utf8(first), 6)
  }
}
