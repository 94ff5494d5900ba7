/** `cJSON_Minify` (lib/cJSON.c:3102-3206): in place, and what it does to formatted text. */
module JsonMinify {
  import opened Sequences
  import opened Bytes
  import opened JsonValue
  import opened JsonText

  // ---- what it computes -------------------------------------------------

  /** Behind the line comment whose text starts at `i`: after its newline, or at the end (lib/cJSON.c:3102-3114). */
  function AfterLine(s: CString, i: nat): (r: nat)
    requires i <= |s|
    ensures i <= r <= |s|
    decreases |s| - i
  {
    if i == |s| then i else if s[i] == NEWLINE then i + 1 else AfterLine(s, i + 1)
  }

  /** Behind the block comment whose text starts at `i` (lib/cJSON.c:3116-3128). */
  function AfterBlock(s: CString, i: nat): (r: nat)
    requires i <= |s|
    ensures i <= r <= |s|
    decreases |s| - i
  {
    if i == |s| then i
    else if s[i] == STAR && CharAt(s, i + 1) == SLASH then i + 2
    else AfterBlock(s, i + 1)
  }

  predicate Dropped(b: byte) {
    b == SPACE || b == TAB || b == RETURN || b == NEWLINE
  }

  /** The minified text of s[i..], read outside of strings (lib/cJSON.c:3166-3202). */
  function Minified(s: CString, i: nat): (r: seq<byte>)
    requires i <= |s|
    ensures |r| <= |s| - i
    decreases |s| - i
  {
    if i == |s| then []
    else if Dropped(s[i]) then Minified(s, i + 1)
    else if s[i] == SLASH then
      if CharAt(s, i + 1) == SLASH then Minified(s, AfterLine(s, i + 2))
      else if CharAt(s, i + 1) == STAR then Minified(s, AfterBlock(s, i + 2))
      else Minified(s, i + 1)
    else if s[i] == QUOTE then [QUOTE] + InString(s, i + 1)
    else [s[i]] + Minified(s, i + 1)
  }

  /** The minified text of s[i..], read inside a string (lib/cJSON.c:3130-3155). */
  function InString(s: CString, i: nat): (r: seq<byte>)
    requires i <= |s|
    ensures |r| <= |s| - i
    decreases |s| - i
  {
    if i == |s| then []
    else if s[i] == QUOTE then [QUOTE] + Minified(s, i + 1)
    else if s[i] == BACKSLASH && CharAt(s, i + 1) == QUOTE then [BACKSLASH, QUOTE] + InString(s, i + 2)
    else [s[i]] + InString(s, i + 1)
  }

  // ---- the code ---------------------------------------------------------

  /** The unread part of the text is still in place behind the write position. */
  ghost predicate Unread(json: array<byte>, text: CString, i: nat, into: nat)
    reads json
  {
    into <= i <= |text| < json.Length && json[|text|] == 0 && forall k :: i <= k < |text| ==> json[k] == text[k]
  }

  method SkipOnelineComment(json: array<byte>, ghost text: CString, i: nat) returns (next: nat)
    requires i + 2 <= |text| && Unread(json, text, i, 0)
    ensures next == AfterLine(text, i + 2)
  {
    next := i + 2;
    while json[next] != 0
      invariant i + 2 <= next <= |text| && AfterLine(text, i + 2) == AfterLine(text, next)
      decreases |text| - next
    {
      if json[next] == NEWLINE {
        return next + 1;
      }
      next := next + 1;
    }
  }

  method SkipMultilineComment(json: array<byte>, ghost text: CString, i: nat) returns (next: nat)
    requires i + 2 <= |text| && Unread(json, text, i, 0)
    ensures next == AfterBlock(text, i + 2)
  {
    next := i + 2;
    while json[next] != 0
      invariant i + 2 <= next <= |text| && AfterBlock(text, i + 2) == AfterBlock(text, next)
      decreases |text| - next
    {
      if json[next] == STAR && json[next + 1] == SLASH {
        return next + 2;
      }
      next := next + 1;
    }
  }

  lemma Reads(json: array<byte>, text: CString, i: nat, into: nat)
    requires Unread(json, text, i, into)
    ensures into <= i <= |text| < json.Length && json[i] == CharAt(text, i)
    ensures i < |text| ==> json[i + 1] == CharAt(text, i + 1)
    ensures forall k :: i <= k <= |text| ==> Unread(json, text, k, into)
  {
  }

  /** Copies one byte from the read to the write position. */
  method CopyByte(json: array<byte>, ghost text: CString, i: nat, into: nat)
    requires i < |text| && Unread(json, text, i, into)
    modifies json
    ensures Unread(json, text, i + 1, into + 1) && json[..into + 1] == old(json[..into]) + [text[i]]
    ensures forall k :: |text| < k < json.Length ==> json[k] == old(json[k])
  {
    json[into] := json[i];
  }

  /** `minify_string`: copies the string that starts at `i` down to `into`. */
  method MinifyString(json: array<byte>, ghost text: CString, i: nat, into: nat) returns (next: nat, nextInto: nat)
    requires i < |text| && text[i] == QUOTE && Unread(json, text, i, into)
    modifies json
    ensures i < next && Unread(json, text, next, nextInto)
    ensures json[..nextInto] + Minified(text, next) == old(json[..into]) + Minified(text, i)
    ensures forall k :: |text| < k < json.Length ==> json[k] == old(json[k])
  {
    hide Unread;
    hide Minified;
    hide InString;
    Reads(json, text, i, into);
    ghost var goal := json[..into] + Minified(text, i);
    QuoteMinified(text, i);
    Regroup(json[..into], [QUOTE], InString(text, i + 1));
    CopyByte(json, text, i, into);
    next, nextInto := i + 1, into + 1;
    Reads(json, text, next, nextInto);
    while json[next] != 0
      invariant i < next <= |text| < json.Length && nextInto <= next && Unread(json, text, next, nextInto)
      invariant json[..nextInto] + InString(text, next) == goal
      invariant forall k :: |text| < k < json.Length ==> json[k] == old(json[k])
      invariant json[next] == CharAt(text, next)
      decreases |text| - next
    {
      Reads(json, text, next, nextInto);
      InStringStep(text, next);
      if json[next] == QUOTE {
        Regroup(json[..nextInto], [QUOTE], Minified(text, next + 1));
        CopyByte(json, text, next, nextInto);
        return next + 1, nextInto + 1;
      } else if json[next] == BACKSLASH && json[next + 1] == QUOTE {
        next, nextInto := CopyEscapedQuote(json, text, next, nextInto);
      } else {
        next, nextInto := CopyPlain(json, text, next, nextInto);
      }
      Reads(json, text, next, nextInto);
    }
    InStringEnd(text);
  }

  /** Any other byte of a string (lib/cJSON.c:3156). */
  method CopyPlain(json: array<byte>, ghost text: CString, i: nat, into: nat) returns (next: nat, nextInto: nat)
    requires i < |text| && text[i] != QUOTE && !(text[i] == BACKSLASH && CharAt(text, i + 1) == QUOTE)
    requires Unread(json, text, i, into)
    modifies json
    ensures next == i + 1 && nextInto == into + 1 && Unread(json, text, next, nextInto)
    ensures json[..nextInto] + InString(text, next) == old(json[..into]) + InString(text, i)
    ensures forall k :: |text| < k < json.Length ==> json[k] == old(json[k])
  {
    hide Unread;
    hide InString;
    Reads(json, text, i, into);
    InStringStep(text, i);
    Regroup(json[..into], [text[i]], InString(text, i + 1));
    CopyByte(json, text, i, into);
    next, nextInto := i + 1, into + 1;
  }

  /** A backslash and the quote behind it (lib/cJSON.c:3147-3152). */
  method CopyEscapedQuote(json: array<byte>, ghost text: CString, i: nat, into: nat) returns (next: nat, nextInto: nat)
    requires i + 1 < |text| && text[i] == BACKSLASH && text[i + 1] == QUOTE && Unread(json, text, i, into)
    modifies json
    ensures next == i + 2 && nextInto == into + 2 && Unread(json, text, next, nextInto)
    ensures json[..nextInto] + InString(text, next) == old(json[..into]) + InString(text, i)
    ensures forall k :: |text| < k < json.Length ==> json[k] == old(json[k])
  {
    hide Unread;
    hide InString;
    Reads(json, text, i, into);
    EscapedPair(json[..into], text, i);
    CopyByte(json, text, i, into);
    CopyByte(json, text, i + 1, into + 1);
    next, nextInto := i + 2, into + 2;
  }

  lemma QuoteMinified(text: CString, i: nat)
    requires i < |text| && text[i] == QUOTE
    ensures Minified(text, i) == [QUOTE] + InString(text, i + 1)
  {
  }

  lemma InStringStep(text: CString, i: nat)
    requires i < |text|
    ensures InString(text, i) ==
      if text[i] == QUOTE then [QUOTE] + Minified(text, i + 1)
      else if text[i] == BACKSLASH && CharAt(text, i + 1) == QUOTE then [BACKSLASH, QUOTE] + InString(text, i + 2)
      else [text[i]] + InString(text, i + 1)
  {
  }

  lemma InStringEnd(text: CString)
    ensures InString(text, |text|) == [] == Minified(text, |text|)
  {
  }

  lemma EscapedPair(before: seq<byte>, text: CString, i: nat)
    requires i + 1 < |text| && text[i] == BACKSLASH && text[i + 1] == QUOTE
    ensures before + [text[i]] + [text[i + 1]] + InString(text, i + 2) == before + InString(text, i)
  {
    assert [text[i]] + [text[i + 1]] == [BACKSLASH, QUOTE];
    assert before + [text[i]] + [text[i + 1]] + InString(text, i + 2)
      == before + ([text[i]] + [text[i + 1]] + InString(text, i + 2));
  }

  /** `cJSON_Minify`: the buffer then holds the minified text and its terminator. */
  method Minify(json: array<byte>, ghost text: CString)
    requires |text| < json.Length && json[..|text|] == text && json[|text|] == 0
    modifies json
    ensures var m := Minified(text, 0); json[..|m|] == m && json[|m|] == 0
    ensures forall k :: |text| < k < json.Length ==> json[k] == old(json[k])
  {
    hide Unread;
    hide AfterLine;
    hide AfterBlock;
    hide InString;
    ghost var goal := Minified(text, 0);
    var i: nat, into: nat := 0, 0;
    Start(json, text);
    Reads(json, text, i, into);
    assert json[..0] + goal == goal;
    while json[i] != 0
      invariant into <= i <= |text| < json.Length && Unread(json, text, i, into)
      invariant json[..into] + Minified(text, i) == goal
      invariant forall k :: |text| < k < json.Length ==> json[k] == old(json[k])
      invariant json[i] == CharAt(text, i)
      decreases |text| - i
    {
      Reads(json, text, i, into);
      UnreadAt(json, text, i, into);
      if json[i] == SPACE || json[i] == TAB || json[i] == RETURN || json[i] == NEWLINE {
        i := i + 1;
      } else if json[i] == SLASH {
        if json[i + 1] == SLASH {
          i := SkipOnelineComment(json, text, i);
        } else if json[i + 1] == STAR {
          i := SkipMultilineComment(json, text, i);
        } else {
          i := i + 1;
        }
      } else if json[i] == QUOTE {
        i, into := MinifyString(json, text, i, into);
      } else {
        Regroup(json[..into], [text[i]], Minified(text, i + 1));
        CopyByte(json, text, i, into);
        i, into := i + 1, into + 1;
      }
      Reads(json, text, i, into);
    }
    assert json[..into] == goal;
    json[into] := 0;
    assert json[..into] == goal;
  }

  lemma Start(json: array<byte>, text: CString)
    requires |text| < json.Length && json[..|text|] == text && json[|text|] == 0
    ensures Unread(json, text, 0, 0)
  {
    forall k | 0 <= k < |text| ensures json[k] == text[k] {
      assert json[..|text|][k] == json[k];
    }
  }

  lemma UnreadAt(json: array<byte>, text: CString, i: nat, into: nat)
    requires Unread(json, text, i, into)
    ensures Unread(json, text, i, 0)
  {
  }
}
