/** The two passes of `parse_string`, over a buffer sized by the first one (lib/cJSON.c:652-963). */
module JsonStringParser {
  import opened Bytes
  import opened Options
  import opened JsonValue
  import opened Utf16
  import G = JsonGrammar

  // ---- escapes --------------------------------------------------------

  /** `parse_hex4` (lib/cJSON.c:652-685). */
  method ParseHex4(s: seq<byte>, at: nat) returns (h: nat)
    requires at + 4 <= |s|
    ensures h == Hex4(s, at)
  {
    h := 0;
    for i := 0 to 4
      invariant (i > 0 ==> IsHex(s[at])) && (i > 1 ==> IsHex(s[at + 1])) && (i > 2 ==> IsHex(s[at + 2]))
      invariant i == 0 ==> h == 0
      invariant i == 1 ==> h == HexValue(s[at]) * 16
      invariant i == 2 ==> h == (HexValue(s[at]) * 16 + HexValue(s[at + 1])) * 16
      invariant i == 3 ==> h == ((HexValue(s[at]) * 16 + HexValue(s[at + 1])) * 16 + HexValue(s[at + 2])) * 16
      invariant i == 4 ==> h == Hex4(s, at)
    {
      var c := s[at + i];
      if DIGIT_0 <= c <= DIGIT_9 {
        h := h + (c - DIGIT_0);
      } else if UPPER_A <= c <= UPPER_F {
        h := h + (10 + c - UPPER_A);
      } else if LOWER_A <= c <= LOWER_F {
        h := h + (10 + c - LOWER_A);
      } else {
        return 0;
      }
      if i < 3 {
        h := h * 16;
      }
    }
  }

  /** `utf16_literal_to_utf8` (lib/cJSON.c:689-812): writes the UTF-8 bytes at `out` and returns how much input it
      used, 0 on failure. Shifts and masks of the unsigned code point are written as arithmetic. */
  method Utf16LiteralToUtf8(s: seq<byte>, p: nat, end: nat, output: array<byte>, out: nat)
    returns (used: nat, next: nat)
    requires p < end <= |s|
    requires ReadLiteral(s, p, end).Good? ==> out + |ReadLiteral(s, p, end).bytes| <= output.Length
    requires out <= output.Length
    modifies output
    ensures ReadLiteral(s, p, end).Bad? ==> used == 0 && next == out && output[..] == old(output[..])
    ensures ReadLiteral(s, p, end).Good? ==>
      used == ReadLiteral(s, p, end).used && next == out + |ReadLiteral(s, p, end).bytes|
      && output[..next] == old(output[..out]) + ReadLiteral(s, p, end).bytes
  {
    hide Utf8;
    hide Hex4;
    used, next := 0, out;
    if end - p < 6 { return; }
    var first := ParseHex4(s, p + 2);
    if 0xDC00 <= first <= 0xDFFF { return; }
    var code := first;
    var length := 6;
    if 0xD800 <= first <= 0xDBFF {
      if end - (p + 6) < 6 { return; }
      if s[p + 6] != BACKSLASH || s[p + 7] != LOWER_U { return; }
      var second := ParseHex4(s, p + 8);
      if second < 0xDC00 || second > 0xDFFF { return; }
      code := 0x10000 + first % 1024 * 1024 + second % 1024;
      assert code == PairValue(first, second);
      length := 12;
    }
    assert ReadLiteral(s, p, end) == Good(Utf8(code), length);
    next := WriteUtf8(code, output, out);
    used := length;
  }

  lemma Utf8Bytes(code: nat)
    requires code < 0x110000
    ensures var t := Utf8(code);
      if code < 0x80 then |t| == 1 && t[0] == code
      else if code < 0x800 then |t| == 2 && t[0] == 0xC0 + code / 64 && t[1] == 0x80 + code % 64
      else if code < 0x10000 then
        |t| == 3 && t[0] == 0xE0 + code / 4096 && t[1] == 0x80 + code / 64 % 64 && t[2] == 0x80 + code % 64
      else
        |t| == 4 && t[0] == 0xF0 + code / 262144 && t[1] == 0x80 + code / 4096 % 64 &&
        t[2] == 0x80 + code / 64 % 64 && t[3] == 0x80 + code % 64
  {
  }

  /** The encoding half of `utf16_literal_to_utf8` (lib/cJSON.c:755-806): continuation bytes last to first. */
  method WriteUtf8(code: nat, output: array<byte>, out: nat) returns (next: nat)
    requires code < 0x110000 && out + |Utf8(code)| <= output.Length
    modifies output
    ensures next == out + |Utf8(code)| && output[..next] == old(output[..out]) + Utf8(code)
  {
    Utf8Bytes(code);
    hide Utf8;
    var codepoint := code;
    var mark := 0;
    var length := 1;
    if codepoint < 0x80 {
    } else if codepoint < 0x800 {
      length, mark := 2, 0xC0;
    } else if codepoint < 0x10000 {
      length, mark := 3, 0xE0;
    } else {
      length, mark := 4, 0xF0;
    }
    var position := length - 1;
    while position > 0
      invariant 0 <= position < length
      invariant codepoint == if position == length - 1 then code else if position == length - 2 then code / 64
                             else if position == length - 3 then code / 4096 else code / 262144
      invariant output[..out] == old(output[..out])
      invariant forall k :: position < k < length ==> output[out + k] == Utf8(code)[k]
    {
      output[out + position] := 0x80 + codepoint % 64;
      codepoint := codepoint / 64;
      position := position - 1;
    }
    if length > 1 {
      output[out] := mark + codepoint;
    } else {
      output[out] := codepoint;
    }
    next := out + length;
    assert output[..next] == output[..out] + output[out..next];
    assert output[out..next] == Utf8(code);
  }

  // ---- room for the output ---------------------------------------------

  /** How many escapes of the first pass, from `i` on, start before `p`. */
  function StartsBefore(s: seq<byte>, i: nat, p: nat): nat
    decreases |s| - i
  {
    if i >= p || i >= |s| || s[i] == QUOTE then 0
    else if s[i] == BACKSLASH then 1 + StartsBefore(s, i + 2, p)
    else StartsBefore(s, i + 1, p)
  }

  /** Escapes of the first pass never start on two neighbouring bytes, and only on backslashes. */
  lemma {:induction false} StartsStep(s: seq<byte>, i: nat, p: nat)
    requires i <= p
    ensures StartsBefore(s, i, p) <= StartsBefore(s, i, p + 1) <= StartsBefore(s, i, p) + 1
    ensures p < |s| && s[p] != BACKSLASH ==> StartsBefore(s, i, p + 1) == StartsBefore(s, i, p)
    ensures StartsBefore(s, i, p + 2) <= StartsBefore(s, i, p) + 1
    decreases p - i
  {
    if i < p && i < |s| && s[i] != QUOTE {
      var next := if s[i] == BACKSLASH then i + 2 else i + 1;
      if next <= p { StartsStep(s, next, p); }
    }
    StartsAtMost(s, p + 1, p + 2);
    StartsAtMost(s, p + 2, p + 2);
  }

  lemma {:induction false} StartsAtMost(s: seq<byte>, i: nat, p: nat)
    requires p <= i + 1
    ensures StartsBefore(s, i, p) <= 1
    ensures p <= i ==> StartsBefore(s, i, p) == 0
  {
  }

  lemma {:induction false} StartsWindow(s: seq<byte>, i: nat, p: nat, n: nat)
    requires i <= p
    ensures StartsBefore(s, i, p) <= StartsBefore(s, i, p + 2 * n) <= StartsBefore(s, i, p) + n
    decreases n
  {
    if n > 0 {
      StartsWindow(s, i, p, n - 1);
      StartsStep(s, i, p + 2 * (n - 1));
      StartsStep(s, i, p + 2 * (n - 1) + 1);
    }
  }

  /** The escapes that start before the closing quote are all that the first pass counts. */
  lemma {:induction false} StartsAreSkipped(s: seq<byte>, i: nat, end: nat)
    requires i <= |s| && G.CloseQuote(s, i) == Some(end)
    ensures StartsBefore(s, i, end) == G.Skipped(s, i, end)
    decreases |s| - i
  {
    if s[i] == QUOTE {
    } else if s[i] == BACKSLASH {
      StartsAreSkipped(s, i + 2, end);
    } else {
      StartsAreSkipped(s, i + 1, end);
    }
  }

  /** What is left for the input from `p` on never shrinks below what was left at the closing quote. */
  lemma {:induction false} RoomGrows(s: seq<byte>, i: nat, p: nat, end: nat)
    requires i <= p <= end
    ensures p - StartsBefore(s, i, p) <= end - StartsBefore(s, i, end)
    decreases end - p
  {
    if p < end {
      StartsStep(s, i, p);
      RoomGrows(s, i, p + 1, end);
    }
  }

  /** How much a step of the second pass writes and consumes. */
  predicate Fits(s: seq<byte>, start: nat, p: nat, end: nat, out: nat) {
    start <= p && if p <= end then out + StartsBefore(s, start, p) <= p - start
                  else p == end + 1 && out + StartsBefore(s, start, end) <= end - start + 1
  }

  lemma FitsWithin(s: seq<byte>, start: nat, p: nat, end: nat, out: nat)
    requires Fits(s, start, p, end, out) && start <= end
    ensures out + StartsBefore(s, start, end) <= end - start + 1
  {
    if p <= end { RoomGrows(s, start, p, end); }
  }

  lemma PlainFits(s: seq<byte>, start: nat, p: nat, end: nat, out: nat)
    requires Fits(s, start, p, end, out) && p < end < |s| && s[p] != BACKSLASH
    ensures Fits(s, start, p + 1, end, out + 1)
  {
    StartsStep(s, start, p);
  }

  lemma EscapeFits(s: seq<byte>, start: nat, p: nat, end: nat, out: nat)
    requires Fits(s, start, p, end, out) && p < end < |s|
    ensures Fits(s, start, p + 2, end, out + 1)
  {
    StartsStep(s, start, p);
  }

  lemma LiteralFits(s: seq<byte>, start: nat, p: nat, end: nat, out: nat)
    requires Fits(s, start, p, end, out) && p < end < |s| && ReadLiteral(s, p, end).Good?
    ensures var r := ReadLiteral(s, p, end); Fits(s, start, p + r.used, end, out + |r.bytes|)
  {
    StartsWindow(s, start, p, 3);
    StartsWindow(s, start, p, 6);
  }

  // ---- the two passes ---------------------------------------------------

  /** First pass (lib/cJSON.c:829-860): the closing quote and the number of escapes in front of it. */
  method FindEnd(s: seq<byte>, start: nat) returns (found: bool, end: nat, skipped: nat)
    requires start <= |s|
    ensures found == G.CloseQuote(s, start).Some?
    ensures found ==> G.CloseQuote(s, start) == Some(end) && skipped == G.Skipped(s, start, end)
  {
    end, skipped := start, 0;
    while end < |s| && s[end] != QUOTE
      invariant start <= end <= |s|
      invariant G.CloseQuote(s, start) == G.CloseQuote(s, end)
      invariant G.CloseQuote(s, start).Some? ==>
        var e := G.CloseQuote(s, start).value; G.Skipped(s, start, e) == skipped + G.Skipped(s, end, e)
    {
      if s[end] == BACKSLASH {
        if end + 1 >= |s| {
          return false, end, skipped;
        }
        skipped := skipped + 1;
        end := end + 1;
      }
      end := end + 1;
    }
    found := end < |s|;
  }

  /** Second pass (lib/cJSON.c:873-940) into a buffer of the size the first pass computed: every write is in
      bounds, and the output is what `Decode` describes. */
  method DecodeString(s: seq<byte>, start: nat, end: nat, output: array<byte>) returns (ok: bool, p: nat, out: nat)
    requires start <= end < |s| && G.CloseQuote(s, start) == Some(end)
    requires output.Length == Size(s, start, end)
    modifies output
    ensures ok == G.Decode(s, start, end, []).Parsed?
    ensures ok ==> out < output.Length && G.Decode(s, start, end, []).value == output[..out] && output[out] == 0
    ensures !ok ==> p == G.Decode(s, start, end, []).off
  {
    hide Fits;
    hide ReadLiteral;
    hide G.Decode;
    hide G.CloseQuote;
    hide G.Skipped;
    hide G.SimpleEscape;
    hide StartsBefore;
    StartFits(s, start, end);
    p, out := start, 0;
    while p < end
      invariant start <= p && Fits(s, start, p, end, out) && out < output.Length
      invariant G.Decode(s, start, end, []) == G.Decode(s, p, end, output[..out])
      decreases end - p
    {
      DecodeStep(s, p, end, output[..out]);
      if s[p] != BACKSLASH {
        PlainRoom(s, start, p, end, out);
        output[out] := s[p];
        assert output[..out + 1] == output[..out] + [s[p]];
        p, out := p + 1, out + 1;
      } else if s[p + 1] == LOWER_U {
        if ReadLiteral(s, p, end).Good? {
          LiteralRoom(s, start, p, end, out);
        }
        var used, next := Utf16LiteralToUtf8(s, p, end, output, out);
        if used == 0 {
          return false, p, out;
        }
        p, out := p + used, next;
      } else {
        match G.SimpleEscape(s[p + 1])
        case None =>
          return false, p, out;
        case Some(b) =>
          EscapeRoom(s, start, p, end, out);
          output[out] := b;
          assert output[..out + 1] == output[..out] + [b];
          p, out := p + 2, out + 1;
      }
    }
    DecodeEnd(s, p, end, output[..out]);
    output[out] := 0;
    ok := true;
  }

  // ---- one step of the second pass --------------------------------------

  lemma DecodeStep(s: seq<byte>, p: nat, end: nat, out: seq<byte>)
    requires p < end < |s|
    ensures G.Decode(s, p, end, out) ==
      if s[p] != BACKSLASH then G.Decode(s, p + 1, end, out + [s[p]])
      else if s[p + 1] == LOWER_U then
        match ReadLiteral(s, p, end)
        case Bad => G.Failed(p)
        case Good(bytes, used) => G.Decode(s, p + used, end, out + bytes)
      else
        match G.SimpleEscape(s[p + 1])
        case None => G.Failed(p)
        case Some(b) => G.Decode(s, p + 2, end, out + [b])
    ensures ReadLiteral(s, p, end).Good? ==> ReadLiteral(s, p, end).used > 0
  {
    hide G.SimpleEscape;
  }

  lemma DecodeEnd(s: seq<byte>, p: nat, end: nat, out: seq<byte>)
    requires end <= p && end < |s|
    ensures G.Decode(s, p, end, out) == G.Parsed(out, p)
  {
  }

  /** The size of the output (lib/cJSON.c:864). */
  function Size(s: seq<byte>, start: nat, end: nat): int
    requires start <= end < |s| && G.CloseQuote(s, start) == Some(end)
  {
    (end - (start - 1)) - G.Skipped(s, start, end) + 1
  }

  lemma StartFits(s: seq<byte>, start: nat, end: nat)
    requires start <= end < |s| && G.CloseQuote(s, start) == Some(end)
    ensures Fits(s, start, start, end, 0) && 0 < Size(s, start, end)
  {
    StartsAreSkipped(s, start, end);
    FitsWithin(s, start, start, end, 0);
  }

  lemma PlainRoom(s: seq<byte>, start: nat, p: nat, end: nat, out: nat)
    requires start <= end < |s| && G.CloseQuote(s, start) == Some(end)
    requires Fits(s, start, p, end, out) && p < end && s[p] != BACKSLASH
    ensures Fits(s, start, p + 1, end, out + 1) && out + 1 < Size(s, start, end)
  {
    StartsAreSkipped(s, start, end);
    PlainFits(s, start, p, end, out);
    FitsWithin(s, start, p + 1, end, out + 1);
  }

  lemma EscapeRoom(s: seq<byte>, start: nat, p: nat, end: nat, out: nat)
    requires start <= end < |s| && G.CloseQuote(s, start) == Some(end)
    requires Fits(s, start, p, end, out) && p < end
    ensures Fits(s, start, p + 2, end, out + 1) && out + 1 < Size(s, start, end)
  {
    StartsAreSkipped(s, start, end);
    EscapeFits(s, start, p, end, out);
    FitsWithin(s, start, p + 2, end, out + 1);
  }

  lemma LiteralRoom(s: seq<byte>, start: nat, p: nat, end: nat, out: nat)
    requires start <= end < |s| && G.CloseQuote(s, start) == Some(end)
    requires Fits(s, start, p, end, out) && p < end && ReadLiteral(s, p, end).Good?
    ensures var r := ReadLiteral(s, p, end);
      Fits(s, start, p + r.used, end, out + |r.bytes|) && out + |r.bytes| < Size(s, start, end)
  {
    StartsAreSkipped(s, start, end);
    LiteralFits(s, start, p, end, out);
    FitsWithin(s, start, p + ReadLiteral(s, p, end).used, end, out + |ReadLiteral(s, p, end).bytes|);
  }
}
