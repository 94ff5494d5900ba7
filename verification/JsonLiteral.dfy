/** The string literals that `parse_string` of lib/cJSON.c reads, and what they mean, by the parts they consist of. */
module JsonLiteral {
  import opened Bytes
  import opened Options
  import opened Utf16
  import opened JsonGrammar

  /** A part of a literal, and the bytes that it stands for. */
  datatype Part = Part(text: seq<byte>, bytes: seq<byte>)

  /** `t` encodes the code point `c` as section 3 of RFC 3629 has it: the lead byte tells the length, the other
      bytes start with the bits 10, and the remaining bits together are `c`. */
  predicate Encodes(c: nat, t: seq<byte>) {
    if c < 0x80 then t == [c]
    else if c < 0x800 then |t| == 2 && t[0] / 32 == 6 && Follows(t, 1) && c == Bits(t, 0, 32) * 64 + Bits(t, 1, 64)
    else if c < 0x10000 then
      |t| == 3 && t[0] / 16 == 14 && Follows(t, 1) && Follows(t, 2)
      && c == Bits(t, 0, 16) * 4096 + Bits(t, 1, 64) * 64 + Bits(t, 2, 64)
    else
      |t| == 4 && t[0] / 8 == 30 && Follows(t, 1) && Follows(t, 2) && Follows(t, 3)
      && c == Bits(t, 0, 8) * 262144 + Bits(t, 1, 64) * 4096 + Bits(t, 2, 64) * 64 + Bits(t, 3, 64)
  }

  predicate Follows(t: seq<byte>, k: nat) {
    k < |t| && 128 <= t[k] < 192
  }

  function Bits(t: seq<byte>, k: nat, m: nat): nat
    requires k < |t| && m > 0
  {
    t[k] % m
  }

  /** The byte `b` is the hexadecimal digit for `d`, in either case. */
  predicate HexFor(b: byte, d: int) {
    (0 <= d < 10 && b == 48 + d) || (10 <= d < 16 && (b == 65 + (d - 10) || b == 97 + (d - 10)))
  }

  /** Four bytes stand for the code unit `u`. Bytes that are not four hexadecimal digits stand for 0. */
  ghost predicate UnitFor(t: seq<byte>, u: int) {
    |t| == 4 &&
    ((exists a, b, c, d :: HexFor(t[0], a) && HexFor(t[1], b) && HexFor(t[2], c) && HexFor(t[3], d)
                           && u == 4096 * a + 256 * b + 16 * c + d)
     || (u == 0 && exists k :: 0 <= k < 4 && forall d :: !HexFor(t[k], d)))
  }

  /** The one-character escapes. */
  predicate EscapeFor(c: byte, b: byte) {
    (c == b && (c == 34 || c == 92 || c == 47))
    || (c == 98 && b == 8) || (c == 102 && b == 12) || (c == 110 && b == 10) || (c == 114 && b == 13)
    || (c == 116 && b == 9)
  }

  ghost predicate IsPart(p: Part) {
    var t := p.text;
    (|t| == 1 && t[0] != 92 && p.bytes == t)
    || (|t| == 2 && t[0] == 92 && |p.bytes| == 1 && EscapeFor(t[1], p.bytes[0]))
    || (|t| == 6 && t[..2] == [92, 117] &&
        exists u: nat :: UnitFor(t[2..6], u) && (u < 0xD800 || u > 0xDFFF) && Encodes(u, p.bytes))
    || (|t| == 12 && t[..2] == [92, 117] && t[6..8] == [92, 117] &&
        exists u: nat, w: nat :: UnitFor(t[2..6], u) && UnitFor(t[8..12], w)
                                 && 0xD800 <= u <= 0xDBFF && 0xDC00 <= w <= 0xDFFF
                                 && Encodes(0x10000 + (u - 0xD800) * 1024 + (w - 0xDC00), p.bytes))
  }

  function PartsText(parts: seq<Part>): seq<byte> {
    if parts == [] then [] else parts[0].text + PartsText(parts[1..])
  }

  function PartsBytes(parts: seq<Part>): seq<byte> {
    if parts == [] then [] else parts[0].bytes + PartsBytes(parts[1..])
  }

  ghost predicate AllParts(parts: seq<Part>) {
    forall k :: 0 <= k < |parts| ==> IsPart(parts[k])
  }

  /** No quote in `t` ends the literal: each is behind a backslash that no other backslash escapes. */
  predicate Shielded(t: seq<byte>) {
    t == [] ||
    if t[0] == 92 then |t| > 1 && Shielded(t[2..]) else t[0] != 34 && Shielded(t[1..])
  }

  /** The parts fill the room between the quotes, or the last one is an escaped quote that takes the closing quote
      along; they mean `t`. */
  ghost predicate PartsMean(parts: seq<Part>, inner: seq<byte>, t: CString) {
    AllParts(parts) && t == UpToNul(PartsBytes(parts)) &&
    (inner == PartsText(parts)
     || (inner + [34] == PartsText(parts) && parts != [] && parts[|parts| - 1].text == [92, 34]))
  }

  /** A literal stands at `off` and ends at `end`, and `t` is what it means to C: its parts lie between the quotes,
      or the last one is an escaped quote that takes the closing quote along; that happens only behind a malformed
      \\u escape, which stands for U+0000 and so ends `t`. */
  ghost predicate LiteralAt(s: seq<byte>, off: nat, t: CString, end: nat) {
    off + 2 <= end <= |s| && s[off] == 34 && s[end - 1] == 34 &&
    var inner := s[off + 1..end - 1];
    Shielded(inner) && exists parts: seq<Part> :: PartsMean(parts, inner, t)
  }

  // ---- the first pass -------------------------------------------------

  lemma {:induction false} ClosesAt(s: seq<byte>, i: nat, close: nat)
    requires i <= close < |s| && s[close] == 34 && Shielded(s[i..close])
    ensures CloseQuote(s, i) == Some(close)
    decreases close - i
  {
    if i < close {
      var t := s[i..close];
      assert t[0] == s[i];
      if s[i] == 92 {
        assert t[2..] == s[i + 2..close];
        ClosesAt(s, i + 2, close);
      } else {
        assert t[1..] == s[i + 1..close];
        ClosesAt(s, i + 1, close);
      }
    }
  }

  lemma {:induction false} ClosedIs(s: seq<byte>, i: nat)
    requires i <= |s| && CloseQuote(s, i).Some?
    ensures Shielded(s[i..CloseQuote(s, i).value])
    decreases |s| - i
  {
    var close := CloseQuote(s, i).value;
    if i < close {
      var t := s[i..close];
      assert t[0] == s[i];
      if s[i] == 92 {
        ClosedIs(s, i + 2);
        assert t[2..] == s[i + 2..close];
      } else {
        ClosedIs(s, i + 1);
        assert t[1..] == s[i + 1..close];
      }
    }
  }

  // ---- code points ----------------------------------------------------

  lemma Splits(x: nat, y: nat)
    requires y < 64
    ensures (x * 64 + y) / 64 == x && (x * 64 + y) % 64 == y
  {
  }

  lemma Joins(c: nat)
    ensures c == c / 64 * 64 + c % 64 && c / 4096 == c / 64 / 64 && c / 262144 == c / 4096 / 64
  {
  }

  lemma EncodesTwo(c: nat)
    requires 0x80 <= c < 0x800
    ensures Encodes(c, Utf8(c))
  {
    Joins(c);
    assert Follows(Utf8(c), 1);
    assert Bits(Utf8(c), 0, 32) == c / 64 && Bits(Utf8(c), 1, 64) == c % 64;
  }

  lemma EncodesThree(c: nat)
    requires 0x800 <= c < 0x10000
    ensures Encodes(c, Utf8(c))
  {
    Joins(c);
    Joins(c / 64);
    var t := Utf8(c);
    assert Follows(t, 1) && Follows(t, 2);
    assert Bits(t, 0, 16) == c / 4096 && Bits(t, 1, 64) == c / 64 % 64 && Bits(t, 2, 64) == c % 64;
    hide Bits;
  }

  lemma EncodesFour(c: nat)
    requires 0x10000 <= c < 0x110000
    ensures Encodes(c, Utf8(c))
  {
    Joins(c);
    Joins(c / 64);
    Joins(c / 4096);
    var t := Utf8(c);
    assert Follows(t, 1) && Follows(t, 2) && Follows(t, 3);
    assert Bits(t, 0, 8) == c / 262144 && Bits(t, 1, 64) == c / 4096 % 64;
    assert Bits(t, 2, 64) == c / 64 % 64 && Bits(t, 3, 64) == c % 64;
    hide Bits;
  }

  lemma Utf8Encodes(c: nat)
    requires c < 0x110000
    ensures Encodes(c, Utf8(c))
  {
    if c >= 0x80 {
      hide Encodes;
      hide Utf8;
      if c < 0x800 { EncodesTwo(c); } else if c < 0x10000 { EncodesThree(c); } else { EncodesFour(c); }
    }
  }

  lemma TwoBytes(c: nat, t: seq<byte>)
    requires 0x80 <= c < 0x800 && Encodes(c, t)
    ensures t == Utf8(c)
  {
    Splits(Bits(t, 0, 32), Bits(t, 1, 64));
  }

  lemma ThreeBytes(c: nat, t: seq<byte>)
    requires 0x800 <= c < 0x10000 && Encodes(c, t)
    ensures t == Utf8(c)
  {
    Splits(Bits(t, 0, 16) * 64 + Bits(t, 1, 64), Bits(t, 2, 64));
    Splits(Bits(t, 0, 16), Bits(t, 1, 64));
    Joins(c);
  }

  lemma FourParts(c: nat, t: seq<byte>, w: nat, x: nat, y: nat, z: nat)
    requires 0x10000 <= c < 0x110000 && Encodes(c, t)
    requires w == Bits(t, 0, 8) && x == Bits(t, 1, 64) && y == Bits(t, 2, 64) && z == Bits(t, 3, 64)
    ensures |t| == 4 && t[0] == 0xF0 + w && t[1] == 0x80 + x && t[2] == 0x80 + y && t[3] == 0x80 + z
    ensures c == ((w * 64 + x) * 64 + y) * 64 + z && x < 64 && y < 64 && z < 64
  {
  }

  lemma FourBytes(c: nat, t: seq<byte>)
    requires 0x10000 <= c < 0x110000 && Encodes(c, t)
    ensures t == Utf8(c)
  {
    var w, x, y, z := Bits(t, 0, 8), Bits(t, 1, 64), Bits(t, 2, 64), Bits(t, 3, 64);
    FourParts(c, t, w, x, y, z);
    hide Encodes;
    hide Bits;
    Splits((w * 64 + x) * 64 + y, z);
    Splits(w * 64 + x, y);
    Splits(w, x);
    Joins(c);
  }

  lemma OneEncoding(c: nat, t: seq<byte>)
    requires c < 0x110000 && Encodes(c, t)
    ensures t == Utf8(c)
  {
    hide Utf8;
    if c < 0x80 {
      assert Utf8(c) == [c] by { OneByte(c); }
    } else {
      hide Encodes;
      if c < 0x800 { TwoBytes(c, t); } else if c < 0x10000 { ThreeBytes(c, t); } else { FourBytes(c, t); }
    }
  }

  lemma OneByte(c: nat)
    requires c < 0x80
    ensures Utf8(c) == [c]
  {
  }

  lemma HexIs(b: byte)
    ensures IsHex(b) ==> HexFor(b, HexValue(b))
    ensures forall d :: HexFor(b, d) ==> IsHex(b) && d == HexValue(b)
  {
  }

  lemma Hex4Is(s: seq<byte>, i: nat, t: seq<byte>)
    requires i + 4 <= |s| && t == s[i..i + 4]
    ensures UnitFor(t, Hex4(s, i))
    ensures forall u :: UnitFor(t, u) ==> u == Hex4(s, i)
  {
    HexIs(t[0]);
    HexIs(t[1]);
    HexIs(t[2]);
    HexIs(t[3]);
  }

  // ---- the second pass ------------------------------------------------

  lemma Slice(s: seq<byte>, p: nat, n: nat, i: nat, j: nat)
    requires p + n <= |s| && i <= j <= n
    ensures s[p..p + n][i..j] == s[p + i..p + j]
  {
    var t := s[p..p + n];
    assert forall k :: i <= k < j ==> t[k] == s[p + k];
    forall k | 0 <= k < j - i ensures t[i..j][k] == s[p + i..p + j][k] { assert t[i + k] == s[p + (i + k)]; }
  }

  /** A part of six or twelve bytes is read as a \u escape. */
  lemma UnicodePart(s: seq<byte>, p: nat, end: nat, part: Part)
    requires IsPart(part) && At(s, p, part.text) && p + |part.text| <= end <= |s| && |part.text| >= 6
    ensures s[p] == 92 && s[p + 1] == 117 && ReadLiteral(s, p, end) == Good(part.bytes, |part.text|)
  {
    var t := part.text;
    hide Hex4;
    hide Utf8;
    hide Encodes;
    hide UnitFor;
    AtEach(s, p, t);
    assert t[0] == t[..2][0] && t[1] == t[..2][1];
    Slice(s, p, |t|, 2, 6);
    Hex4Is(s, p + 2, t[2..6]);
    if |t| == 6 {
      var u: nat :| UnitFor(t[2..6], u) && (u < 0xD800 || u > 0xDFFF) && Encodes(u, part.bytes);
      OneEncoding(u, part.bytes);
    } else {
      Slice(s, p, |t|, 8, 12);
      assert t[6] == t[6..8][0] && t[7] == t[6..8][1];
      Hex4Is(s, p + 8, t[8..12]);
      var u: nat, w: nat :| UnitFor(t[2..6], u) && UnitFor(t[8..12], w)
                            && 0xD800 <= u <= 0xDBFF && 0xDC00 <= w <= 0xDFFF
                            && Encodes(0x10000 + (u - 0xD800) * 1024 + (w - 0xDC00), part.bytes);
      OneEncoding(PairValue(u, w), part.bytes);
    }
  }

  lemma MarkAt(s: seq<byte>, p: nat)
    requires p + 2 <= |s| && s[p] == 92 && s[p + 1] == 117
    ensures s[p..p + 2] == [92, 117]
  {
  }

  /** What is read as a \u escape is a part. */
  lemma ReadPart(s: seq<byte>, p: nat, end: nat)
    requires p < end <= |s| && ReadLiteral(s, p, end).Good? && s[p] == 92 && s[p + 1] == 117
    ensures var r := ReadLiteral(s, p, end); IsPart(Part(s[p..p + r.used], r.bytes))
  {
    hide Hex4;
    hide Utf8;
    hide Encodes;
    hide UnitFor;
    var r := ReadLiteral(s, p, end);
    var t := s[p..p + r.used];
    var u := Hex4(s, p + 2);
    Slice(s, p, r.used, 0, 2);
    Slice(s, p, r.used, 2, 6);
    MarkAt(s, p);
    Hex4Is(s, p + 2, t[2..6]);
    if r.used == 6 {
      Utf8Encodes(u);
    } else {
      var w := Hex4(s, p + 8);
      Slice(s, p, r.used, 6, 8);
      Slice(s, p, r.used, 8, 12);
      MarkAt(s, p + 6);
      Hex4Is(s, p + 8, t[8..12]);
      Utf8Encodes(PairValue(u, w));
      assert UnitFor(t[2..6], u) && UnitFor(t[8..12], w);
      assert Encodes(0x10000 + (u - 0xD800) * 1024 + (w - 0xDC00), r.bytes);
    }
  }

  /** The second pass steps over one part. */
  lemma DecodePart(s: seq<byte>, p: nat, end: nat, out: seq<byte>, part: Part)
    requires IsPart(part) && At(s, p, part.text) && p < end < |s|
    requires p + |part.text| <= end || (part.text == [92, 34] && p + 1 == end)
    ensures Decode(s, p, end, out) == Decode(s, p + |part.text|, end, out + part.bytes)
  {
    hide ReadLiteral;
    AtEach(s, p, part.text);
    assert s[p] == part.text[0];
    if |part.text| >= 6 {
      UnicodePart(s, p, end, part);
      hide IsPart;
    } else if |part.text| == 2 {
      assert s[p + 1] == part.text[1];
      assert part.bytes == [part.bytes[0]];
      assert SimpleEscape(s[p + 1]) == Some(part.bytes[0]);
    } else {
      assert part.bytes == [s[p]];
    }
  }

  /** The parts from `p` on end at `end`, or one byte behind it with an escaped quote. */
  ghost predicate PartsEnd(s: seq<byte>, p: nat, end: nat, parts: seq<Part>) {
    AllParts(parts) && At(s, p, PartsText(parts)) &&
    (p + |PartsText(parts)| == end ||
     (p + |PartsText(parts)| == end + 1 && parts != [] && parts[|parts| - 1].text == [92, 34]))
  }

  lemma FirstPart(s: seq<byte>, p: nat, end: nat, parts: seq<Part>)
    requires PartsEnd(s, p, end, parts) && p <= end < |s| && parts != []
    ensures var first, q := parts[0], p + |parts[0].text|;
            IsPart(first) && At(s, p, first.text) && p < end && p < q
            && (q <= end || (first.text == [92, 34] && p + 1 == end && parts[1..] == []))
            && (q <= end ==> PartsEnd(s, q, end, parts[1..]))
  {
    hide IsPart;
    hide At;
    var first, rest := parts[0], parts[1..];
    AtSplit(s, p, first.text, PartsText(rest));
    PartLength(first);
    if rest != [] {
      assert rest[|rest| - 1] == parts[|parts| - 1];
      LastLength(rest);
    }
  }

  lemma {:induction false} DecodeParts(s: seq<byte>, p: nat, end: nat, out: seq<byte>, parts: seq<Part>)
    requires PartsEnd(s, p, end, parts) && p <= end < |s|
    ensures var r := Decode(s, p, end, out); r.Parsed? && r.value == out + PartsBytes(parts)
    decreases parts
  {
    hide Decode;
    hide IsPart;
    hide At;
    if parts == [] {
      DecodeStops(s, p, end, out);
    } else {
      var first, rest := parts[0], parts[1..];
      FirstPart(s, p, end, parts);
      hide PartsEnd;
      DecodePart(s, p, end, out, first);
      if p + |first.text| > end {
        DecodeStops(s, p + |first.text|, end, out + first.bytes);
      } else {
        DecodeParts(s, p + |first.text|, end, out + first.bytes, rest);
      }
    }
  }

  lemma PartLength(part: Part)
    requires IsPart(part)
    ensures |part.text| > 0
  {
  }

  lemma {:induction false} LastLength(parts: seq<Part>)
    requires parts != []
    ensures |PartsText(parts)| >= |parts[|parts| - 1].text|
  {
    if |parts| > 1 { LastLength(parts[1..]); }
  }

  lemma DecodeStops(s: seq<byte>, p: nat, end: nat, out: seq<byte>)
    requires end <= p && end < |s|
    ensures Decode(s, p, end, out) == Parsed(out, p)
  {
  }

  /** What the second pass accepts consists of parts. */
  lemma {:induction false} DecodedParts(s: seq<byte>, p: nat, end: nat, out: seq<byte>) returns (parts: seq<Part>)
    requires p <= end < |s| && s[end] == 34 && Decode(s, p, end, out).Parsed?
    ensures AllParts(parts) && Decode(s, p, end, out).value == out + PartsBytes(parts)
    ensures PartsText(parts) == s[p..end] ||
            (PartsText(parts) == s[p..end + 1] && parts != [] && parts[|parts| - 1].text == [92, 34])
    decreases end - p
  {
    hide IsPart;
    hide ReadLiteral;
    parts := [];
    if p < end {
      var part := PartAt(s, p, end, out);
      var q := p + |part.text|;
      if q <= end {
        parts := DecodedParts(s, q, end, out + part.bytes);
        assert PartsText(parts) == s[q..end] ==> s[p..end] == part.text + PartsText(parts);
        assert PartsText(parts) == s[q..end + 1] ==> s[p..end + 1] == part.text + PartsText(parts);
        assert out + part.bytes + PartsBytes(parts) == out + (part.bytes + PartsBytes(parts));
      } else {
        DecodeStops(s, q, end, out + part.bytes);
      }
      parts := [part] + parts;
      assert parts[1..] == parts[1..];
    }
  }

  lemma PartAt(s: seq<byte>, p: nat, end: nat, out: seq<byte>) returns (part: Part)
    requires p < end < |s| && s[end] == 34 && Decode(s, p, end, out).Parsed?
    ensures IsPart(part) && p + |part.text| <= |s| && |part.text| > 0 && s[p..p + |part.text|] == part.text
    ensures p + |part.text| <= end || (part.text == [92, 34] && p + 1 == end)
    ensures Decode(s, p, end, out) == Decode(s, p + |part.text|, end, out + part.bytes)
  {
    hide ReadLiteral;
    if s[p] != 92 {
      part := Part([s[p]], [s[p]]);
    } else if s[p + 1] == 117 {
      var r := ReadLiteral(s, p, end);
      ReadPart(s, p, end);
      part := Part(s[p..p + r.used], r.bytes);
      hide IsPart;
    } else {
      part := Part([92, s[p + 1]], [SimpleEscape(s[p + 1]).value]);
    }
  }

  // ---- the literal ----------------------------------------------------

  lemma LiteralSound(s: seq<byte>, off: nat, t: CString, end: nat)
    requires Terminated(s) && off < |s| && ParseString(s, off) == Parsed(t, end)
    ensures LiteralAt(s, off, t, end)
  {
    hide Terminated;
    hide Shielded;
    hide AllParts;
    hide Decode;
    hide UpToNul;
    hide PartsText;
    hide PartsBytes;
    var close := CloseQuote(s, off + 1).value;
    hide CloseQuote;
    ClosedIs(s, off + 1);
    var parts := DecodedParts(s, off + 1, close, []);
    assert [] + PartsBytes(parts) == PartsBytes(parts);
    assert s[off + 1..close] + [34] == s[off + 1..end];
    assert PartsMean(parts, s[off + 1..close], t);
  }

  lemma LiteralComplete(s: seq<byte>, off: nat, t: CString, end: nat)
    requires Terminated(s) && LiteralAt(s, off, t, end)
    ensures ParseString(s, off) == Parsed(t, end)
  {
    hide Terminated;
    hide Shielded;
    hide AllParts;
    hide Decode;
    hide UpToNul;
    hide PartsText;
    hide PartsBytes;
    var close := end - 1;
    ClosesAt(s, off + 1, close);
    hide CloseQuote;
    var parts: seq<Part> :| PartsMean(parts, s[off + 1..close], t);
    assert s[off + 1..close] + [34] == s[off + 1..end];
    DecodeParts(s, off + 1, close, [], parts);
    assert [] + PartsBytes(parts) == PartsBytes(parts);
  }

  /** `parse_string` accepts exactly the literals, and gives what they mean. */
  lemma ParsesLiterals(s: seq<byte>, off: nat, t: CString, end: nat)
    requires Terminated(s) && off < |s|
    ensures ParseString(s, off) == Parsed(t, end) <==> LiteralAt(s, off, t, end)
  {
    hide *;
    if ParseString(s, off) == Parsed(t, end) { LiteralSound(s, off, t, end); }
    if LiteralAt(s, off, t, end) { LiteralComplete(s, off, t, end); }
  }

  lemma HalfUnit(p: Part)
    requires p == Part([92, 117, 48, 48, 48, 92], [0])
    ensures IsPart(p)
  {
    var t := p.text[2..6];
    assert t == [48, 48, 48, 92];
    forall d ensures !HexFor(t[3], d) { assert t[3] == 92; }
    assert UnitFor(t, 0) && Encodes(0, [0]);
    assert p.text[..2] == [92, 117];
  }

  lemma TwoParts(a: Part, b: Part)
    ensures PartsText([a, b]) == a.text + b.text && PartsBytes([a, b]) == a.bytes + b.bytes
  {
    var parts := [a, b];
    assert parts[1..] == [b] && [b][1..] == [];
    assert PartsText([b]) == b.text + [] && PartsBytes([b]) == b.bytes + [];
  }

  lemma ShieldedByte(b: byte, t: seq<byte>)
    requires b != 34 && b != 92 && Shielded(t)
    ensures Shielded([b] + t)
  {
    assert ([b] + t)[1..] == t;
  }

  lemma ShieldedPair(b: byte, t: seq<byte>)
    requires Shielded(t)
    ensures Shielded([92, b] + t)
  {
    assert ([92, b] + t)[2..] == t;
  }

  lemma HalfUnitIsShielded(inner: seq<byte>)
    requires inner == [92, 117, 48, 48, 48, 92, 92]
    ensures Shielded(inner)
  {
    ShieldedPair(92, []);
    ShieldedByte(48, [92, 92] + []);
    ShieldedByte(48, [48] + ([92, 92] + []));
    ShieldedByte(48, [48] + ([48] + ([92, 92] + [])));
    ShieldedPair(117, [48] + ([48] + ([48] + ([92, 92] + []))));
    assert inner == [92, 117] + ([48] + ([48] + ([48] + ([92, 92] + []))));
  }

  lemma QuotePart(p: Part)
    requires p == Part([92, 34], [34])
    ensures IsPart(p)
  {
    assert EscapeFor(34, 34);
  }

  lemma NothingBeforeNul(t: seq<byte>)
    requires t != [] && t[0] == 0
    ensures UpToNul(t) == []
  {
  }

  lemma HalfUnitMeans(inner: seq<byte>)
    requires inner == [92, 117, 48, 48, 48, 92, 92]
    ensures exists parts :: PartsMean(parts, inner, [])
  {
    hide IsPart;
    hide PartsText;
    hide PartsBytes;
    hide UpToNul;
    var unit, quote := Part([92, 117, 48, 48, 48, 92], [0]), Part([92, 34], [34]);
    HalfUnit(unit);
    QuotePart(quote);
    TwoParts(unit, quote);
    NothingBeforeNul(unit.bytes + quote.bytes);
    assert inner + [34] == unit.text + quote.text;
    assert PartsMean([unit, quote], inner, []);
  }

  /** Such a literal is a quote, \u000, two backslashes and a quote: the escape takes the first backslash, and the
      second one escapes the closing quote. It stands for the empty string. */
  lemma QuoteTakenAlong(s: seq<byte>)
    requires s == [34, 92, 117, 48, 48, 48, 92, 92, 34, 0]
    ensures Terminated(s) && ParseString(s, 0) == Parsed([], 9)
  {
    assert s[..|s| - 1] == [34, 92, 117, 48, 48, 48, 92, 92, 34];
    assert Terminated(s);
    hide Terminated;
    hide PartsMean;
    hide Shielded;
    hide ParseString;
    var inner := s[1..8];
    assert inner == [92, 117, 48, 48, 48, 92, 92];
    HalfUnitIsShielded(inner);
    HalfUnitMeans(inner);
    LiteralComplete(s, 0, [], 9);
  }
}
