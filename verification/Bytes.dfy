/** Bytes and C strings, as lib/cJSON.c handles them. */
module Bytes {

  /** An `unsigned char`. */
  type byte = b: int | 0 <= b < 256

  const BACKSPACE: byte := 8
  const TAB: byte := 9
  const NEWLINE: byte := 10
  const FORM_FEED: byte := 12
  const RETURN: byte := 13
  const SPACE: byte := 32
  const QUOTE: byte := 34        // "
  const STAR: byte := 42         // *
  const PLUS: byte := 43         // +
  const COMMA: byte := 44        // ,
  const MINUS: byte := 45        // -
  const DOT: byte := 46          // .
  const SLASH: byte := 47        // /
  const DIGIT_0: byte := 48
  const DIGIT_9: byte := 57
  const COLON: byte := 58        // :
  const UPPER_A: byte := 65
  const UPPER_E: byte := 69
  const UPPER_F: byte := 70
  const UPPER_Z: byte := 90
  const LEFT_BRACKET: byte := 91
  const BACKSLASH: byte := 92
  const RIGHT_BRACKET: byte := 93
  const LOWER_A: byte := 97
  const LOWER_B: byte := 98
  const LOWER_E: byte := 101
  const LOWER_F: byte := 102
  const LOWER_N: byte := 110
  const LOWER_R: byte := 114
  const LOWER_T: byte := 116
  const LOWER_U: byte := 117
  const LEFT_BRACE: byte := 123
  const RIGHT_BRACE: byte := 125

  predicate NoNul(s: seq<byte>) {
    forall i :: 0 <= i < |s| ==> s[i] != 0
  }

  /** The contents of a NUL-terminated string, without its terminator. */
  type CString = s: seq<byte> | NoNul(s)

  /** The byte that C reads at index `i` of the string `s`: the terminator when `i` is at its end. */
  function CharAt(s: CString, i: nat): byte {
    if i < |s| then s[i] else 0
  }

  /** The C string at the start of a buffer: everything before the first NUL. */
  function UpToNul(s: seq<byte>): (r: CString)
    ensures r <= s
    ensures NoNul(s) ==> r == s
    ensures |r| < |s| ==> s[|r|] == 0
  {
    if s == [] || s[0] == 0 then []
    else
      assert s == [s[0]] + s[1..];
      [s[0]] + UpToNul(s[1..])
  }

  /** `t` occurs in `s` at offset `off`. */
  predicate At(s: seq<byte>, off: nat, t: seq<byte>) {
    off + |t| <= |s| && s[off..off + |t|] == t
  }

  lemma AtSplit(s: seq<byte>, off: nat, a: seq<byte>, b: seq<byte>)
    requires At(s, off, a + b)
    ensures At(s, off, a) && At(s, off + |a|, b)
  {
    assert s[off..off + |a|] == (a + b)[..|a|];
    assert s[off + |a|..off + |a| + |b|] == (a + b)[|a|..];
  }

  lemma AtEach(s: seq<byte>, off: nat, t: seq<byte>)
    requires At(s, off, t)
    ensures forall k :: 0 <= k < |t| ==> s[off + k] == t[k]
  {
    forall k | 0 <= k < |t| ensures s[off + k] == t[k] {
      assert s[off..off + |t|][k] == s[off + k];
    }
  }

  lemma AtFirst(s: seq<byte>, off: nat, t: seq<byte>)
    requires At(s, off, t) && t != []
    ensures off < |s| && s[off] == t[0] && At(s, off + 1, t[1..])
  {
    assert t == [t[0]] + t[1..];
    AtSplit(s, off, [t[0]], t[1..]);
    assert s[off..off + 1][0] == t[0];
  }
}
