/** What `cJSON_Minify` (lib/cJSON.c:3102-3206) keeps of any text, stated by the pieces that the text consists of. */
module JsonMinifyTokens {
  import opened Bytes
  import opened JsonMinify

  /** A piece of text: white space, a slash alone, a comment, a string, or any other byte. */
  datatype Token = Blank(b: byte) | Slash | Line(body: seq<byte>) | Block(body: seq<byte>) | Quoted(body: seq<byte>)
    | Other(b: byte)

  /** What is left at the end when a comment or a string is not closed. */
  datatype Tail = Nothing | OpenLine(body: seq<byte>) | OpenBlock(body: seq<byte>) | OpenString(body: seq<byte>)

  function TokenText(t: Token): seq<byte> {
    match t
    case Blank(b) => [b]
    case Slash => [47]
    case Line(body) => [47, 47] + body + [10]
    case Block(body) => [47, 42] + body + [42, 47]
    case Quoted(body) => [34] + body + [34]
    case Other(b) => [b]
  }

  function TailText(t: Tail): seq<byte> {
    match t
    case Nothing => []
    case OpenLine(body) => [47, 47] + body
    case OpenBlock(body) => [47, 42] + body
    case OpenString(body) => [34] + body
  }

  /** Strings and other bytes are kept. */
  function TokenKept(t: Token): seq<byte> {
    match t
    case Quoted(body) => [34] + body + [34]
    case Other(b) => [b]
    case _ => []
  }

  function TailKept(t: Tail): seq<byte> {
    match t
    case OpenString(body) => [34] + body
    case _ => []
  }

  /** Behind every star is no slash. */
  predicate NoBlockEnd(body: seq<byte>) {
    forall k :: 0 <= k < |body| - 1 && body[k] == 42 ==> body[k + 1] != 47
  }

  /** Every quote is right behind a backslash. */
  predicate NoStringEnd(body: seq<byte>) {
    forall k :: 0 <= k < |body| && body[k] == 34 ==> k > 0 && body[k - 1] == 92
  }

  /** `rest` is the text behind the token. */
  predicate IsToken(t: Token, rest: seq<byte>) {
    match t
    case Blank(b) => b == 32 || b == 9 || b == 10 || b == 13
    case Slash => rest == [] || (rest[0] != 47 && rest[0] != 42)
    case Line(body) => 10 !in body
    case Block(body) => NoBlockEnd(body)
    case Quoted(body) => NoStringEnd(body) && (body == [] || body[|body| - 1] != 92)
    case Other(b) => b != 32 && b != 9 && b != 10 && b != 13 && b != 34 && b != 47
  }

  predicate IsTail(t: Tail) {
    match t
    case Nothing => true
    case OpenLine(body) => 10 !in body
    case OpenBlock(body) => NoBlockEnd(body)
    case OpenString(body) => NoStringEnd(body)
  }

  function Text(tokens: seq<Token>, tail: Tail): seq<byte> {
    if tokens == [] then TailText(tail) else TokenText(tokens[0]) + Text(tokens[1..], tail)
  }

  function Kept(tokens: seq<Token>, tail: Tail): seq<byte> {
    if tokens == [] then TailKept(tail) else TokenKept(tokens[0]) + Kept(tokens[1..], tail)
  }

  predicate WellFormed(tokens: seq<Token>, tail: Tail) {
    if tokens == [] then IsTail(tail)
    else IsToken(tokens[0], Text(tokens[1..], tail)) && WellFormed(tokens[1..], tail)
  }

  // ---- single pieces --------------------------------------------------

  lemma {:induction false} LineEnds(s: CString, i: nat, e: nat)
    requires i <= e <= |s| && (forall k :: i <= k < e ==> s[k] != 10) && (e < |s| ==> s[e] == 10)
    ensures AfterLine(s, i) == if e < |s| then e + 1 else e
    decreases e - i
  {
    if i < e { LineEnds(s, i + 1, e); }
  }

  lemma {:induction false} BlockEnds(s: CString, i: nat, e: nat)
    requires i <= e <= |s| && forall k :: i <= k < e - 1 && s[k] == 42 ==> s[k + 1] != 47
    requires e < |s| ==> e + 1 < |s| && s[e] == 42 && s[e + 1] == 47
    ensures AfterBlock(s, i) == if e < |s| then e + 2 else e
    decreases e - i
  {
    if i < e { BlockEnds(s, i + 1, e); }
  }

  /** The quotes of s[i..e] are right behind backslashes of s[i..e]. */
  predicate QuotesEscaped(s: seq<byte>, i: nat, e: nat)
    requires e <= |s|
  {
    forall k :: i <= k < e && s[k] == 34 ==> k > i && s[k - 1] == 92
  }

  lemma QuotesLater(s: CString, i: nat, e: nat)
    requires i < e <= |s| && QuotesEscaped(s, i, e) && (e < |s| ==> s[e - 1] != 92)
    ensures s[i] != 34
    ensures if s[i] == 92 && CharAt(s, i + 1) == 34 then i + 2 <= e && QuotesEscaped(s, i + 2, e)
            else QuotesEscaped(s, i + 1, e)
  {
    assert e == |s| ==> CharAt(s, e) == 0;
  }

  /** Inside a string, up to its closing quote or the end. */
  lemma {:induction false} StringEnds(s: CString, i: nat, e: nat)
    requires i <= e <= |s| && QuotesEscaped(s, i, e)
    requires e < |s| ==> s[e] == 34 && (e > i ==> s[e - 1] != 92)
    ensures InString(s, i) == s[i..e] + if e < |s| then [34] + Minified(s, e + 1) else []
    decreases e - i
  {
    hide Minified;
    hide InString;
    if i < e {
      QuotesLater(s, i, e);
      InStringStep(s, i);
      hide QuotesEscaped;
      if s[i] == 92 && CharAt(s, i + 1) == 34 {
        StringEnds(s, i + 2, e);
        assert s[i..e] == [92, 34] + s[i + 2..e];
      } else {
        StringEnds(s, i + 1, e);
        assert s[i..e] == [s[i]] + s[i + 1..e];
      }
    } else if e < |s| {
      InStringStep(s, e);
      assert s[e..e] == [];
    } else {
      InStringEnd(s);
      assert s[e..e] + [] == [];
    }
  }

  lemma LineMinified(s: CString, p: nat, body: seq<byte>)
    requires 10 !in body && At(s, p, [47, 47] + body + [10])
    ensures Minified(s, p) == Minified(s, p + |body| + 3)
  {
    var text := [47, 47] + body + [10];
    AtEach(s, p, text);
    assert s[p] == text[0] && s[p + 1] == text[1] && s[p + 2 + |body|] == text[2 + |body|];
    BodyAt(s, p, text, body, 2);
    LineEnds(s, p + 2, p + 2 + |body|);
    hide AfterLine;
  }

  lemma BlockMinified(s: CString, p: nat, body: seq<byte>)
    requires NoBlockEnd(body) && At(s, p, [47, 42] + body + [42, 47])
    ensures Minified(s, p) == Minified(s, p + |body| + 4)
  {
    var text := [47, 42] + body + [42, 47];
    AtEach(s, p, text);
    var e := 2 + |body|;
    assert s[p] == text[0] && s[p + 1] == text[1] && s[p + e] == text[e] && s[p + (e + 1)] == text[e + 1];
    BodyAt(s, p, text, body, 2);
    BlockEnds(s, p + 2, p + e);
    hide AfterBlock;
  }

  lemma BodyCopied(s: CString, p: nat, body: seq<byte>, e: nat)
    requires NoStringEnd(body) && (body == [] || body[|body| - 1] != 92)
    requires At(s, p, [34] + body + [34]) && e == p + 1 + |body|
    ensures e < |s| && s[p] == 34 && InString(s, p + 1) == body + [34] + Minified(s, e + 1)
  {
    var text := [34] + body + [34];
    AtEach(s, p, text);
    assert s[p] == text[0] && s[p + (e - p)] == text[e - p];
    BodyAt(s, p, text, body, 1);
    hide At;
    StringEnds(s, p + 1, e);
    assert s[p + 1..e] == body;
    hide InString;
    hide Minified;
  }

  lemma QuotedMinified(s: CString, p: nat, body: seq<byte>)
    requires NoStringEnd(body) && (body == [] || body[|body| - 1] != 92) && At(s, p, [34] + body + [34])
    ensures Minified(s, p) == [34] + body + [34] + Minified(s, p + |body| + 2)
  {
    hide At;
    hide NoStringEnd;
    hide InString;
    hide Minified;
    var e := p + 1 + |body|;
    BodyCopied(s, p, body, e);
    QuoteMinified(s, p);
    var rest := Minified(s, e + 1);
    assert [34] + (body + [34] + rest) == [34] + body + [34] + rest;
  }

  lemma ByteMinified(s: CString, p: nat, t: Token, rest: seq<byte>)
    requires IsToken(t, rest) && (t.Blank? || t.Slash? || t.Other?)
    requires At(s, p, TokenText(t) + rest) && p + |TokenText(t) + rest| == |s|
    ensures Minified(s, p) == TokenKept(t) + Minified(s, p + 1)
  {
    var text := TokenText(t);
    AtSplit(s, p, text, rest);
    AtEach(s, p, text);
    AtEach(s, p + 1, rest);
    assert s[p] == text[0];
    assert rest != [] ==> s[p + 1 + 0] == rest[0];
    hide At;
    hide AfterLine;
    hide AfterBlock;
    hide InString;
  }

  /** One token is read, and what it keeps is written. */
  lemma TokenMinified(s: CString, p: nat, t: Token, rest: seq<byte>)
    requires IsToken(t, rest) && At(s, p, TokenText(t) + rest) && p + |TokenText(t) + rest| == |s|
    ensures Minified(s, p) == TokenKept(t) + Minified(s, p + |TokenText(t)|)
  {
    hide Minified;
    AtSplit(s, p, TokenText(t), rest);
    hide At;
    match t
    case Line(body) => LineMinified(s, p, body);
    case Block(body) => BlockMinified(s, p, body);
    case Quoted(body) => QuotedMinified(s, p, body);
    case _ => ByteMinified(s, p, t, rest);
  }

  lemma BodyAt(s: seq<byte>, p: nat, text: seq<byte>, body: seq<byte>, n: nat)
    requires n + |body| <= |text| && text[n..n + |body|] == body && p + |text| <= |s|
    requires forall k :: 0 <= k < |text| ==> s[p + k] == text[k]
    ensures forall k :: p + n <= k < p + n + |body| ==> s[k] == body[k - p - n]
  {
    forall k | p + n <= k < p + n + |body| ensures s[k] == body[k - p - n] {
      assert s[p + (k - p)] == text[k - p] == text[n..n + |body|][k - p - n];
    }
  }

  lemma OpenLineMinified(s: CString, p: nat, body: seq<byte>)
    requires 10 !in body && p <= |s| && s[p..] == [47, 47] + body
    ensures Minified(s, p) == []
  {
    var text := [47, 47] + body;
    assert forall k :: 0 <= k < |text| ==> s[p + k] == s[p..][k] == text[k];
    assert s[p] == text[0] && s[p + 1] == text[1];
    BodyAt(s, p, text, body, 2);
    LineEnds(s, p + 2, |s|);
    hide AfterLine;
  }

  lemma OpenBlockMinified(s: CString, p: nat, body: seq<byte>)
    requires NoBlockEnd(body) && p <= |s| && s[p..] == [47, 42] + body
    ensures Minified(s, p) == []
  {
    var text := [47, 42] + body;
    assert forall k :: 0 <= k < |text| ==> s[p + k] == s[p..][k] == text[k];
    assert s[p] == text[0] && s[p + 1] == text[1];
    BodyAt(s, p, text, body, 2);
    BlockEnds(s, p + 2, |s|);
    hide AfterBlock;
  }

  lemma OpenStringMinified(s: CString, p: nat, body: seq<byte>)
    requires NoStringEnd(body) && p <= |s| && s[p..] == [34] + body
    ensures Minified(s, p) == [34] + body
  {
    var text := [34] + body;
    assert forall k :: 0 <= k < |text| ==> s[p + k] == s[p..][k] == text[k];
    assert s[p] == text[0];
    BodyAt(s, p, text, body, 1);
    StringEnds(s, p + 1, |s|);
    assert s[p + 1..|s|] == body;
    hide InString;
    hide Minified;
    QuoteMinified(s, p);
  }

  /** A comment that is not closed is dropped, a string that is not closed is kept. */
  lemma TailMinified(s: CString, p: nat, t: Tail)
    requires IsTail(t) && p <= |s| && s[p..] == TailText(t)
    ensures Minified(s, p) == TailKept(t)
  {
    hide InString;
    match t
    case Nothing =>
    case OpenLine(body) => OpenLineMinified(s, p, body);
    case OpenBlock(body) => OpenBlockMinified(s, p, body);
    case OpenString(body) => OpenStringMinified(s, p, body);
  }

  lemma {:induction false} TokensMinified(s: CString, p: nat, tokens: seq<Token>, tail: Tail)
    requires WellFormed(tokens, tail) && p <= |s| && s[p..] == Text(tokens, tail)
    ensures Minified(s, p) == Kept(tokens, tail)
    decreases tokens
  {
    hide Minified;
    hide IsToken;
    if tokens == [] {
      TailMinified(s, p, tail);
    } else {
      var first, rest := tokens[0], Text(tokens[1..], tail);
      var q := p + |TokenText(first)|;
      assert s[p..p + |TokenText(first) + rest|] == TokenText(first) + rest;
      TokenMinified(s, p, first, rest);
      assert s[q..] == s[p..][q - p..];
      TokensMinified(s, q, tokens[1..], tail);
    }
  }

  /** Minifying keeps the strings and the other bytes of a text, in order, and nothing else. */
  lemma MinifyKeeps(s: CString, tokens: seq<Token>, tail: Tail)
    requires WellFormed(tokens, tail) && s == Text(tokens, tail)
    ensures Minified(s, 0) == Kept(tokens, tail)
  {
    assert s[0..] == s;
    TokensMinified(s, 0, tokens, tail);
  }

  // ---- every text consists of such pieces -------------------------------

  lemma {:induction false} LineEnd(s: CString, i: nat) returns (e: nat)
    requires i <= |s|
    ensures i <= e <= |s| && 10 !in s[i..e] && (e < |s| ==> s[e] == 10)
    decreases |s| - i
  {
    e := i;
    if i < |s| && s[i] != 10 {
      e := LineEnd(s, i + 1);
      assert s[i..e] == [s[i]] + s[i + 1..e];
    }
  }

  lemma {:induction false} BlockEnd(s: CString, i: nat) returns (e: nat)
    requires i <= |s|
    ensures i <= e <= |s| && NoBlockEnd(s[i..e]) && (e < |s| ==> e + 1 < |s| && s[e] == 42 && s[e + 1] == 47)
    decreases |s| - i
  {
    e := i;
    if i < |s| && !(s[i] == 42 && CharAt(s, i + 1) == 47) {
      e := BlockEnd(s, i + 1);
      assert s[i..e] == [s[i]] + s[i + 1..e];
    }
  }

  /** The first quote from `i` on that is not right behind a backslash of the string. */
  lemma {:induction false} StringEnd(s: CString, i: nat, k: nat) returns (e: nat)
    requires i <= k <= |s| && NoStringEnd(s[i..k])
    ensures k <= e <= |s| && NoStringEnd(s[i..e]) && (e < |s| ==> s[e] == 34 && (e > i ==> s[e - 1] != 92))
    decreases |s| - k
  {
    e := k;
    if k < |s| && !(s[k] == 34 && (k > i ==> s[k - 1] != 92)) {
      assert s[i..k + 1] == s[i..k] + [s[k]];
      assert k > i ==> s[i..k][k - 1 - i] == s[k - 1];
      e := StringEnd(s, i, k + 1);
    }
  }

  /** The text from `p` on is `tail`, or starts with `t` and goes on at `q`. */
  predicate Starts(s: CString, p: nat, t: Token, tail: Tail, q: nat) {
    p < q <= |s| && IsTail(tail) &&
    if tail != Nothing then s[p..] == TailText(tail) else IsToken(t, s[q..]) && s[p..q] == TokenText(t)
  }

  lemma FirstLine(s: CString, p: nat) returns (t: Token, tail: Tail, q: nat)
    requires p + 1 < |s| && s[p] == 47 && s[p + 1] == 47
    ensures Starts(s, p, t, tail, q)
  {
    var e := LineEnd(s, p + 2);
    var body := s[p + 2..e];
    assert s[p..e] == [47, 47] + body;
    t, tail, q := Line(body), Nothing, e + 1;
    if e == |s| { tail, q := OpenLine(body), e; } else { assert s[p..e + 1] == s[p..e] + [10]; }
  }

  lemma FirstBlock(s: CString, p: nat) returns (t: Token, tail: Tail, q: nat)
    requires p + 1 < |s| && s[p] == 47 && s[p + 1] == 42
    ensures Starts(s, p, t, tail, q)
  {
    var e := BlockEnd(s, p + 2);
    var body := s[p + 2..e];
    assert s[p..e] == [47, 42] + body;
    hide NoBlockEnd;
    t, tail, q := Block(body), Nothing, e + 2;
    if e == |s| { tail, q := OpenBlock(body), e; } else { assert s[p..e + 2] == s[p..e] + [42, 47]; }
  }

  lemma FirstString(s: CString, p: nat) returns (t: Token, tail: Tail, q: nat)
    requires p < |s| && s[p] == 34
    ensures Starts(s, p, t, tail, q)
  {
    var e := StringEnd(s, p + 1, p + 1);
    var body := s[p + 1..e];
    assert s[p..e] == [34] + body;
    hide NoStringEnd;
    t, tail, q := Quoted(body), Nothing, e + 1;
    if e == |s| { tail, q := OpenString(body), e; } else { assert s[p..e + 1] == s[p..e] + [34]; }
  }

  /** The first token of a text, or its tail. */
  lemma FirstToken(s: CString, p: nat) returns (t: Token, tail: Tail, q: nat)
    requires p < |s|
    ensures Starts(s, p, t, tail, q)
  {
    t, tail, q := Slash, Nothing, p + 1;
    var b, c := s[p], CharAt(s, p + 1);
    if b == 47 && c == 47 {
      t, tail, q := FirstLine(s, p);
    } else if b == 47 && c == 42 {
      t, tail, q := FirstBlock(s, p);
    } else if b == 34 {
      t, tail, q := FirstString(s, p);
    } else if b == 32 || b == 9 || b == 10 || b == 13 {
      t := Blank(b);
    } else if b != 47 {
      t := Other(b);
    }
  }

  lemma {:induction false} TokensFrom(s: CString, p: nat) returns (tokens: seq<Token>, tail: Tail)
    requires p <= |s|
    ensures WellFormed(tokens, tail) && Text(tokens, tail) == s[p..]
    decreases |s| - p
  {
    hide IsToken;
    hide IsTail;
    tokens, tail := [], Nothing;
    assert IsTail(Nothing) by { NothingIsTail(); }
    if p < |s| {
      var t, end, q := FirstToken(s, p);
      if end != Nothing {
        tail := end;
      } else {
        var more;
        more, tail := TokensFrom(s, q);
        tokens := [t] + more;
        assert tokens[1..] == more;
        assert s[p..] == s[p..q] + s[q..];
      }
    }
  }

  lemma NothingIsTail()
    ensures IsTail(Nothing)
  {
  }

  /** Every C string consists of such pieces, so MinifyKeeps speaks of every text. */
  lemma EveryText(s: CString) returns (tokens: seq<Token>, tail: Tail)
    ensures WellFormed(tokens, tail) && Text(tokens, tail) == s
  {
    tokens, tail := TokensFrom(s, 0);
    assert s[0..] == s;
  }
}
