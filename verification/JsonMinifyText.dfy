/** What minifying does to formatted text: it gives the unformatted text, or it does not, and exactly when. */
module JsonMinifyText {
  import opened Sequences
  import opened Bytes
  import opened JsonValue
  import opened JsonText
  import opened JsonMinify
  import R = JsonRoundTrip

  /** How a value fares: Clean values are minified as intended; after a Spill the minifier still believes to be
      inside a string; a Broken value comes out wrong whatever follows. */
  datatype Fate = Clean | Spill | Broken

  predicate EndsInBackslash(s: CString) {
    s != [] && s[|s| - 1] == BACKSLASH
  }

  function FateOf(v: Value): Fate {
    match v
    case Str(s) => if EndsInBackslash(s) then Spill else Clean
    case Arr(items) => ItemsFate(items, 0)
    case Obj(members) => MembersFate(members, 0)
    case _ => Clean
  }

  function ItemsFate(items: seq<Value>, i: nat): Fate
    decreases items, |items| - i
  {
    if i >= |items| then Clean
    else if FateOf(items[i]) == Clean then ItemsFate(items, i + 1)
    else if FateOf(items[i]) == Spill && i + 1 == |items| then Spill
    else Broken
  }

  function MembersFate(members: seq<Member>, i: nat): Fate
    decreases members, |members| - i
  {
    if i >= |members| then Clean
    else if EndsInBackslash(members[i].key) || FateOf(members[i].value) != Clean then Broken
    else MembersFate(members, i + 1)
  }

  /** `m`, the minified rest of `s` from where the text of a value starts, against the unformatted text `t` of
      that value; `q` is where the formatted text ends. */
  ghost predicate Meets(m: seq<byte>, t: seq<byte>, s: CString, q: nat, fate: Fate) {
    match fate
    case Clean => q <= |s| && m == t + Minified(s, q)
    case Spill => q <= |s| && m == t + InString(s, q)
    case Broken => !(t <= m)
  }

  // ---- pieces of text ---------------------------------------------------

  predicate Plain(t: seq<byte>) {
    forall i :: 0 <= i < |t| ==> !Dropped(t[i]) && t[i] != SLASH && t[i] != QUOTE
  }

  predicate Gap(t: seq<byte>) {
    forall i :: 0 <= i < |t| ==> Dropped(t[i])
  }

  lemma {:induction false} MinifyPlain(s: CString, p: nat, t: seq<byte>)
    requires At(s, p, t) && Plain(t)
    ensures Minified(s, p) == t + Minified(s, p + |t|)
    decreases |t|
  {
    hide At;
    hide Minified;
    if t != [] {
      AtFirst(s, p, t);
      MinifyPlain(s, p + 1, t[1..]);
      OneMinified(s, p);
      assert t == [t[0]] + t[1..];
      Regroup([t[0]], t[1..], Minified(s, p + |t|));
    }
  }

  lemma OneMinified(s: CString, p: nat)
    requires p < |s| && Plain([s[p]])
    ensures Minified(s, p) == [s[p]] + Minified(s, p + 1)
  {
    assert [s[p]][0] == s[p];
  }

  lemma {:induction false} MinifyGap(s: CString, p: nat, t: seq<byte>)
    requires At(s, p, t) && Gap(t)
    ensures Minified(s, p) == Minified(s, p + |t|)
    decreases |t|
  {
    if t != [] {
      AtFirst(s, p, t);
      MinifyGap(s, p + 1, t[1..]);
    }
  }

  /** Inside a string, an escaped byte is copied, unless it is a backslash right in front of a quote. */
  lemma CopyEscape(s: CString, p: nat, b: byte)
    requires At(s, p, Escape(b)) && (b == BACKSLASH ==> CharAt(s, p + 2) != QUOTE)
    ensures InString(s, p) == Escape(b) + InString(s, p + |Escape(b)|)
  {
    hide InString;
    hide Minified;
    hide At;
    AtEach(s, p, Escape(b));
    EscapeInside(s, p, b);
    var e := Escape(b);
    if |e| == 6 {
      EscapeTail(b);
      CopyLongEscape(s, p, e);
    } else {
      assert s[p] == e[0] && (|e| == 2 ==> s[p + 1] == e[1]);
      InStringStep(s, p);
      if |e| == 2 && b != QUOTE {
        InStringStep(s, p + 1);
        assert InString(s, p) == [s[p]] + ([s[p + 1]] + InString(s, p + 2));
      }
    }
  }

  lemma CopyLongEscape(s: CString, p: nat, e: seq<byte>)
    requires |e| == 6 && p + 6 <= |s| && forall k :: 0 <= k < 6 ==> s[p + k] == e[k]
    requires e[0] != QUOTE && forall k :: 0 < k < 6 ==> e[k] != QUOTE && e[k] != BACKSLASH
    ensures InString(s, p) == e + InString(s, p + 6)
  {
    hide InString;
    hide Minified;
    forall k | p <= k < p + 6 ensures s[k] == e[k - p] {
      assert s[p + (k - p)] == e[k - p];
    }
    CopyPlainInString(s, p, 6);
    assert s[p..p + 6] == e;
  }

  /** A \\u escape has no quote, and no backslash but its first byte. */
  lemma EscapeTail(b: byte)
    ensures |Escape(b)| == 6 ==> Escape(b)[0] != QUOTE && forall k :: 0 < k < 6 ==>
            Escape(b)[k] != QUOTE && Escape(b)[k] != BACKSLASH
  {
  }

  lemma EscapeInside(s: CString, p: nat, b: byte)
    requires At(s, p, Escape(b))
    ensures p + |Escape(b)| <= |s|
  {
  }

  lemma {:induction false} CopyPlainInString(s: CString, p: nat, n: nat)
    requires p + n <= |s| && forall k :: p < k < p + n ==> s[k] != QUOTE && s[k] != BACKSLASH
    requires n > 0 ==> s[p] != QUOTE && (n == 1 ==> s[p] != BACKSLASH)
    ensures InString(s, p) == s[p..p + n] + InString(s, p + n)
    decreases n
  {
    hide Minified;
    hide InString;
    if n > 0 {
      CopyPlainInString(s, p + 1, n - 1);
      CopyOne(s, p);
      SliceFirst(s, p, n);
      Regroup([s[p]], s[p + 1..p + n], InString(s, p + n));
    }
  }

  lemma CopyOne(s: CString, p: nat)
    requires p < |s| && s[p] != QUOTE && (s[p] == BACKSLASH ==> CharAt(s, p + 1) != QUOTE)
    ensures InString(s, p) == [s[p]] + InString(s, p + 1)
  {
    hide Minified;
  }

  lemma SliceFirst(s: seq<byte>, p: nat, n: nat)
    requires n > 0 && p + n <= |s|
    ensures s[p..p + n] == [s[p]] + s[p + 1..p + n]
  {
  }

  /** The first byte of an escape is never a quote. */
  lemma EscapeStart(b: byte)
    ensures |Escape(b)| > 0 && Escape(b)[0] != QUOTE
  {
  }

  /** How the minifier goes on at `q`, depending on where it believes to be. */
  function Onward(s: CString, q: nat, spill: bool): seq<byte>
    requires q <= |s|
  {
    if spill then InString(s, q) else Minified(s, q)
  }

  /** The contents of a string and its closing quote, from index `i` of the string on. */
  lemma {:induction false} MinifyContents(s: CString, p: nat, t: CString, i: nat)
    requires i <= |t| && At(s, p, EscapeFrom(t, i)) && At(s, p + |EscapeFrom(t, i)|, [QUOTE])
    ensures var q := p + |EscapeFrom(t, i)| + 1;
            q <= |s| && InString(s, p) == EscapeFrom(t, i) + ([QUOTE] + Onward(s, q, i < |t| && EndsInBackslash(t)))
    decreases |t| - i
  {
    hide InString;
    hide Minified;
    hide At;
    hide Escape;
    hide EscapeFrom;
    hide EndsInBackslash;
    var e := EscapeFrom(t, i);
    EscapesFrom(t, i);
    AtFirst(s, p + |e|, [QUOTE]);
    if i == |t| {
      ClosingQuote(s, p);
    } else {
      var rest := EscapeFrom(t, i + 1);
      AtSplit(s, p, Escape(t[i]), rest);
      if i + 1 == |t| && t[i] == BACKSLASH {
        ClosingLength(t);
        NoSpill(t, i);
        LastBackslash(s, p);
      } else {
        MinifyContents(s, p + |Escape(t[i])|, t, i + 1);
        NoQuoteNext(s, p, t, i);
        CopyEscape(s, p, t[i]);
        NoSpill(t, i);
        Regroup(Escape(t[i]), rest, [QUOTE] + Onward(s, p + |e| + 1, EndsInBackslash(t)));
      }
    }
  }

  lemma EscapesFrom(t: CString, i: nat)
    requires i <= |t|
    ensures EscapeFrom(t, i) == if i == |t| then [] else Escape(t[i]) + EscapeFrom(t, i + 1)
    ensures i + 1 == |t| ==> EscapeFrom(t, i + 1) == []
  {
    hide Escape;
  }

  /** The last byte decides. */
  lemma NoSpill(t: CString, i: nat)
    requires i < |t|
    ensures i + 1 == |t| ==> EndsInBackslash(t) == (t[i] == BACKSLASH)
  {
  }

  lemma ClosingQuote(s: CString, p: nat)
    requires p < |s| && s[p] == QUOTE
    ensures InString(s, p) == EscapeFrom([], 0) + ([QUOTE] + Minified(s, p + 1))
    ensures forall t: CString :: EscapeFrom(t, |t|) == []
  {
  }

  lemma ClosingLength(t: CString)
    ensures |Escape(BACKSLASH)| == 2 && EscapeFrom(t, |t|) == []
  {
  }

  /** A backslash that is not the last byte is not followed by a quote once it is escaped. */
  lemma NoQuoteNext(s: CString, p: nat, t: CString, i: nat)
    requires i < |t| && At(s, p, EscapeFrom(t, i)) && (i + 1 == |t| ==> t[i] != BACKSLASH)
    ensures t[i] == BACKSLASH ==> CharAt(s, p + 2) != QUOTE
  {
    hide At;
    if t[i] == BACKSLASH {
      AtSplit(s, p, Escape(t[i]), EscapeFrom(t, i + 1));
      AtSplit(s, p + 2, Escape(t[i + 1]), EscapeFrom(t, i + 2));
      EscapeStart(t[i + 1]);
      AtFirst(s, p + 2, Escape(t[i + 1]));
    }
  }

  /** An escaped backslash in front of the closing quote: the quote is taken for an escaped one. */
  lemma LastBackslash(s: CString, p: nat)
    requires At(s, p, Escape(BACKSLASH)) && At(s, p + 2, [QUOTE])
    ensures p + 3 <= |s| && |Escape(BACKSLASH)| == 2
    ensures InString(s, p) == Escape(BACKSLASH) + ([QUOTE] + InString(s, p + 3))
  {
    AtEach(s, p, Escape(BACKSLASH));
    AtFirst(s, p + 2, [QUOTE]);
    assert s[p] == BACKSLASH && s[p + 1] == BACKSLASH;
    assert InString(s, p) == [BACKSLASH] + InString(s, p + 1);
    assert InString(s, p + 1) == [BACKSLASH, QUOTE] + InString(s, p + 3);
    assert [BACKSLASH] + ([BACKSLASH, QUOTE] + InString(s, p + 3))
      == [BACKSLASH, BACKSLASH] + ([QUOTE] + InString(s, p + 3));
  }

  lemma MinifyString(s: CString, p: nat, t: CString)
    requires At(s, p, StringText(t))
    ensures Meets(Minified(s, p), StringText(t), s, p + |StringText(t)|, if EndsInBackslash(t) then Spill else Clean)
  {
    hide At;
    hide EscapeFrom;
    hide InString;
    var e := EscapeFrom(t, 0);
    assert StringText(t) == [QUOTE] + (e + [QUOTE]);
    AtSplit(s, p, [QUOTE], e + [QUOTE]);
    AtFirst(s, p, [QUOTE]);
    AtSplit(s, p + 1, e, [QUOTE]);
    MinifyContents(s, p + 1, t, 0);
    var rest := Onward(s, p + |StringText(t)|, EndsInBackslash(t));
    assert [QUOTE] + (e + ([QUOTE] + rest)) == StringText(t) + rest;
  }

  // ---- composing ----------------------------------------------------------

  /** Text in front that is minified as intended does not change the fate of what follows. */
  lemma InFront(m: seq<byte>, a: seq<byte>, rest: seq<byte>, t: seq<byte>, s: CString, q: nat, fate: Fate)
    requires m == a + rest && Meets(rest, t, s, q, fate)
    ensures Meets(m, a + t, s, q, fate)
  {
    hide Minified;
    hide InString;
    match fate
    case Clean => Regroup(a, t, Minified(s, q));
    case Spill => Regroup(a, t, InString(s, q));
    case Broken =>
      if a + t <= a + rest { PrefixBehind(a, t, rest); }
  }

  lemma PrefixBehind(a: seq<byte>, t: seq<byte>, rest: seq<byte>)
    requires a + t <= a + rest
    ensures t <= rest
  {
    forall k | 0 <= k < |t| ensures t[k] == rest[k] {
      assert (a + t)[|a| + k] == (a + rest)[|a| + k];
    }
  }

  lemma PrefixPart(t: seq<byte>, more: seq<byte>, m: seq<byte>)
    requires t + more <= m
    ensures t <= m
  {
    forall k | 0 <= k < |t| ensures t[k] == m[k] {
      assert (t + more)[k] == m[k];
    }
  }

  lemma SameByte(front: seq<byte>, x: seq<byte>, y: seq<byte>)
    requires front + y <= front + x && y != []
    ensures x != [] && x[0] == y[0]
  {
    PrefixBehind(front, y, x);
  }

  /** A text that came out wrong stays wrong with more text behind it. */
  lemma StillBroken(m: seq<byte>, t: seq<byte>, more: seq<byte>)
    requires !(t <= m)
    ensures !(t + more <= m)
  {
    if t + more <= m { PrefixPart(t, more, m); }
  }

  /** A wrong byte in the middle. */
  lemma WrongByte(m: seq<byte>, t: seq<byte>, front: seq<byte>, x: seq<byte>, y: seq<byte>)
    requires m == front + x && t == front + y && y != [] && (x == [] || x[0] != y[0])
    ensures !(t <= m)
  {
    if t <= m { SameByte(front, x, y); }
  }

  /** A closing bracket or comma is copied in either state. */
  lemma CopyEither(s: CString, q: nat, c: byte, spill: bool)
    requires q < |s| && s[q] == c && c != QUOTE && c != BACKSLASH && c != SLASH && (spill || !Dropped(c))
    ensures Onward(s, q, spill) == [c] + Onward(s, q + 1, spill)
  {
  }

  // ---- values -------------------------------------------------------------

  lemma NumberIsPlain(n: real)
    requires Printable(Number(n))
    ensures Plain(NumberText(n))
  {
    R.NumberTextBytes(n);
  }

  lemma LeafText(v: Value, depth: nat)
    requires Printable(v) && !v.Arr? && !v.Obj?
    ensures Text(v, true, depth) == Text(v, false, depth)
    ensures !v.Str? ==> Plain(Text(v, true, depth)) && FateOf(v) == Clean
  {
    if v.Number? { NumberIsPlain(v.n); }
  }

  lemma {:induction false} MinifyText(s: CString, p: nat, v: Value, depth: nat)
    requires Printable(v) && At(s, p, Text(v, true, depth))
    ensures Meets(Minified(s, p), Text(v, false, depth), s, p + |Text(v, true, depth)|, FateOf(v))
    decreases v, 1
  {
    hide At;
    hide Minified;
    hide InString;
    match v
    case Str(t) => MinifyString(s, p, t);
    case Arr(items) => MinifyArray(s, p, v, depth);
    case Obj(members) => MinifyObject(s, p, v, depth);
    case _ =>
      LeafText(v, depth);
      MinifyPlain(s, p, Text(v, true, depth));
      AtEnd(s, p, Text(v, true, depth));
  }

  lemma AtEnd(s: seq<byte>, p: nat, t: seq<byte>)
    requires At(s, p, t)
    ensures p + |t| <= |s|
  {
  }

  lemma {:induction false} MinifyArray(s: CString, p: nat, v: Value, depth: nat)
    requires Printable(v) && v.Arr? && At(s, p, Text(v, true, depth))
    ensures Meets(Minified(s, p), Text(v, false, depth), s, p + |Text(v, true, depth)|, FateOf(v))
    decreases v, 0
  {
    hide At;
    hide Minified;
    hide InString;
    hide Meets;
    hide Text;
    hide ItemsText;
    hide Printable;
    var items := v.items;
    R.ArrayTextShape(items, true, depth);
    R.ArrayTextShape(items, false, depth);
    var inner := ItemsText(items, 0, true, depth + 1);
    var wanted := ItemsText(items, 0, false, depth + 1);
    AtSplit(s, p, [LEFT_BRACKET], inner + [RIGHT_BRACKET]);
    AtSplit(s, p + 1, inner, [RIGHT_BRACKET]);
    AtFirst(s, p + 1 + |inner|, [RIGHT_BRACKET]);
    MinifyItems(s, p + 1, items, 0, depth + 1);
    ClosedBy(Minified(s, p + 1), wanted, s, p + 1 + |inner|, ItemsFate(items, 0));
    PlainByte(LEFT_BRACKET);
    MinifyPlain(s, p, [LEFT_BRACKET]);
    InFront(Minified(s, p), [LEFT_BRACKET], Minified(s, p + 1), wanted + [RIGHT_BRACKET], s,
      p + |Text(v, true, depth)|, FateOf(v));
  }

  lemma PlainByte(c: byte)
    requires !Dropped(c) && c != SLASH && c != QUOTE
    ensures Plain([c])
  {
  }

  /** The closing bracket of an array keeps its fate. */
  lemma ClosedBy(m: seq<byte>, t: seq<byte>, s: CString, q: nat, fate: Fate)
    requires Meets(m, t, s, q, fate) && q < |s| && s[q] == RIGHT_BRACKET
    ensures Meets(m, t + [RIGHT_BRACKET], s, q + 1, fate)
  {
    hide Minified;
    hide InString;
    if fate == Broken {
      StillBroken(m, t, [RIGHT_BRACKET]);
    } else {
      CopyEither(s, q, RIGHT_BRACKET, fate == Spill);
      Regroup(t, [RIGHT_BRACKET], Onward(s, q + 1, fate == Spill));
    }
  }

  lemma {:induction false} MinifyItems(s: CString, p: nat, items: seq<Value>, i: nat, depth: nat)
    requires i <= |items| && forall k :: 0 <= k < |items| ==> Printable(items[k])
    requires At(s, p, ItemsText(items, i, true, depth))
    ensures Meets(Minified(s, p), ItemsText(items, i, false, depth), s, p + |ItemsText(items, i, true, depth)|,
            ItemsFate(items, i))
    decreases items, |items| - i
  {
    hide At;
    hide Minified;
    hide InString;
    hide Meets;
    hide Text;
    hide ItemsText;
    hide Printable;
    if i == |items| {
      R.EmptyItemsText(items, true, depth);
      R.EmptyItemsText(items, false, depth);
      NothingMeets(s, p);
    } else {
      R.ItemsTextShape(items, i, true, depth);
      R.ItemsTextShape(items, i, false, depth);
      var more := i + 1 < |items|;
      var text, wanted := Text(items[i], true, depth), Text(items[i], false, depth);
      var rest, wantedRest := ItemsText(items, i + 1, true, depth), ItemsText(items, i + 1, false, depth);
      AtSplit(s, p, text, ItemSeparator(true, more) + rest);
      AtSplit(s, p + |text|, ItemSeparator(true, more), rest);
      MinifyText(s, p, items[i], depth);
      MinifyItems(s, p + |text| + |ItemSeparator(true, more)|, items, i + 1, depth);
      if more { R.ItemsTextShape(items, i + 1, false, depth); R.TextStart(items[i + 1], false, depth); }
      ItemJoined(Minified(s, p), wanted, wantedRest, s, p + |text|, |rest|, more, FateOf(items[i]),
        ItemsFate(items, i + 1));
      assert !more ==> ItemsFate(items, i + 1) == Clean;
    }
  }

  lemma NothingMeets(s: CString, p: nat)
    requires At(s, p, [])
    ensures Meets(Minified(s, p), [], s, p, Clean)
  {
    assert [] + Minified(s, p) == Minified(s, p);
  }

  /** One item, its separator, and the items behind it. */
  lemma ItemJoined(m: seq<byte>, t: seq<byte>, rest: seq<byte>, s: CString, q: nat, n: nat, more: bool, fate: Fate,
                   restFate: Fate)
    requires Meets(m, t, s, q, fate) && At(s, q, ItemSeparator(true, more))
    requires q + |ItemSeparator(true, more)| <= |s|
    requires Meets(Minified(s, q + |ItemSeparator(true, more)|), rest, s, q + |ItemSeparator(true, more)| + n, restFate)
    requires if more then rest != [] && rest[0] > SPACE else rest == [] && n == 0 && restFate == Clean
    ensures Meets(m, t + (ItemSeparator(false, more) + rest), s, q + |ItemSeparator(true, more)| + n,
                  if fate == Clean then restFate else if fate == Spill && !more then Spill else Broken)
  {
    hide At;
    hide Minified;
    hide InString;
    if !more {
      assert t + ([] + rest) == t;
    } else if fate == Broken {
      StillBroken(m, t, [COMMA] + rest);
    } else {
      AtFirst(s, q, [COMMA, SPACE]);
      AtFirst(s, q + 1, [COMMA, SPACE][1..]);
      CopyEither(s, q, COMMA, fate == Spill);
      if fate == Clean {
        SkipOne(s, q + 1);
        InFront(Minified(s, q), [COMMA], Minified(s, q + 2), rest, s, q + 2 + n, restFate);
        InFront(m, t, Minified(s, q), [COMMA] + rest, s, q + 2 + n, restFate);
      } else {
        CopyEither(s, q + 1, SPACE, true);
        Regroup(t, [COMMA], InString(s, q + 1));
        Regroup(t, [COMMA], rest);
        WrongByte(m, t + ([COMMA] + rest), t + [COMMA], InString(s, q + 1), rest);
      }
    }
  }

  lemma SkipOne(s: CString, q: nat)
    requires q < |s| && Dropped(s[q])
    ensures Minified(s, q) == Minified(s, q + 1)
  {
  }

  lemma {:induction false} MinifyObject(s: CString, p: nat, v: Value, depth: nat)
    requires Printable(v) && v.Obj? && At(s, p, Text(v, true, depth))
    ensures Meets(Minified(s, p), Text(v, false, depth), s, p + |Text(v, true, depth)|, FateOf(v))
    decreases v, 0
  {
    hide At;
    hide Minified;
    hide InString;
    hide Meets;
    hide Text;
    hide MembersText;
    hide ObjectTail;
    hide Printable;
    var members := v.members;
    R.ObjectTextShape(members, true, depth);
    R.ObjectTextShape(members, false, depth);
    var inner := MembersText(members, 0, true, depth + 1);
    var tail := ObjectTail(true, depth);
    var wanted := MembersText(members, 0, false, depth + 1) + ObjectTail(false, depth);
    AtSplit(s, p, [LEFT_BRACE, NEWLINE], inner + tail);
    AtSplit(s, p + 2, inner, tail);
    AtFirst(s, p, [LEFT_BRACE, NEWLINE]);
    AtFirst(s, p + 1, [LEFT_BRACE, NEWLINE][1..]);
    MinifyMembers(s, p + 2, members, 0, depth + 1, depth);
    SkipOne(s, p + 1);
    CopyEither(s, p, LEFT_BRACE, false);
    InFront(Minified(s, p), [LEFT_BRACE], Minified(s, p + 2), wanted, s, p + |Text(v, true, depth)|, FateOf(v));
  }

  /** The tail of an object. */
  lemma MinifyTail(s: CString, p: nat, depth: nat)
    requires At(s, p, ObjectTail(true, depth))
    ensures Meets(Minified(s, p), ObjectTail(false, depth), s, p + |ObjectTail(true, depth)|, Clean)
  {
    hide At;
    hide InString;
    hide Minified;
    AtSplit(s, p, Tabs(depth), [RIGHT_BRACE]);
    MinifyGap(s, p, Tabs(depth));
    AtFirst(s, p + depth, [RIGHT_BRACE]);
    CopyEither(s, p + depth, RIGHT_BRACE, false);
  }

  /** The members from index `i` on, together with the tail of their object. */
  lemma {:induction false} MinifyMembers(s: CString, p: nat, members: seq<Member>, i: nat, depth: nat, outer: nat)
    requires i <= |members| && forall k :: 0 <= k < |members| ==> Printable(members[k].value)
    requires At(s, p, MembersText(members, i, true, depth))
    requires At(s, p + |MembersText(members, i, true, depth)|, ObjectTail(true, outer))
    ensures Meets(Minified(s, p), MembersText(members, i, false, depth) + ObjectTail(false, outer), s,
                  p + |MembersText(members, i, true, depth)| + |ObjectTail(true, outer)|, MembersFate(members, i))
    decreases members, |members| - i
  {
    hide At;
    hide Minified;
    hide InString;
    hide Meets;
    hide Text;
    hide StringText;
    hide MembersText;
    hide ObjectTail;
    hide Printable;
    hide FateOf;
    if i == |members| {
      R.EmptyMembersText(members, true, depth);
      R.EmptyMembersText(members, false, depth);
      MinifyTail(s, p, outer);
      assert [] + ObjectTail(false, outer) == ObjectTail(false, outer);
    } else {
      var m, more := members[i], i + 1 < |members|;
      var rest := MembersText(members, i + 1, true, depth);
      var wantedRest := MembersText(members, i + 1, false, depth) + ObjectTail(false, outer);
      var q := p + depth + |StringText(m.key)| + 2 + |Text(m.value, true, depth)|;
      var e := p + |MembersText(members, i, true, depth)| + |ObjectTail(true, outer)|;
      MemberAt(s, p, members, i, depth);
      MinifyString(s, p + depth, m.key);
      MinifyText(s, p + depth + |StringText(m.key)| + 2, m.value, depth);
      MinifyMembers(s, q + |MemberSeparator(true, more)|, members, i + 1, depth, outer);
      RestStart(members, i + 1, depth, outer);
      SeparatorJoined(Minified(s, q - |Text(m.value, true, depth)|), Text(m.value, false, depth), wantedRest, s, q, e,
                      more, FateOf(m.value), MembersFate(members, i + 1));
      KeyJoined(s, p + depth, m.key, m.value, depth, MemberSeparator(false, more) + wantedRest, e, more,
                if FateOf(m.value) == Clean then MembersFate(members, i + 1) else Broken);
      MemberWanted(members, i, depth, outer);
    }
  }

  lemma MemberParts(members: seq<Member>, i: nat, depth: nat)
    requires i < |members| && forall k :: 0 <= k < |members| ==> Printable(members[k].value)
    ensures var m, rest := members[i], MembersText(members, i + 1, true, depth);
            MembersText(members, i, true, depth) == Tabs(depth) + (StringText(m.key) + ([COLON, TAB]
              + (Text(m.value, true, depth) + (MemberSeparator(true, i + 1 < |members|) + rest))))
  {
    hide Text;
    hide StringText;
    hide MemberSeparator;
  }

  lemma SixParts(s: CString, p: nat, a: CString, b: CString, c: CString, d: CString, e: CString, f: CString)
    requires At(s, p, a + (b + (c + (d + (e + f)))))
    ensures var q := p + |a| + |b| + |c| + |d|;
            At(s, p, a) && At(s, p + |a|, b) && At(s, p + |a| + |b|, c) && At(s, p + |a| + |b| + |c|, d) &&
              At(s, q, e) && At(s, q + |e|, f)
  {
    hide At;
    AtSplit(s, p, a, b + (c + (d + (e + f))));
    AtSplit(s, p + |a|, b, c + (d + (e + f)));
    AtSplit(s, p + |a| + |b|, c, d + (e + f));
    AtSplit(s, p + |a| + |b| + |c|, d, e + f);
    AtSplit(s, p + |a| + |b| + |c| + |d|, e, f);
  }

  /** Where the parts of a formatted member are, behind its indentation. */
  lemma MemberAt(s: CString, p: nat, members: seq<Member>, i: nat, depth: nat)
    requires i < |members| && forall k :: 0 <= k < |members| ==> Printable(members[k].value)
    requires At(s, p, MembersText(members, i, true, depth))
    ensures var m, more := members[i], i + 1 < |members|;
            var c := p + depth + |StringText(m.key)|;
            var q := c + 2 + |Text(m.value, true, depth)|;
            var sep := MemberSeparator(true, more);
            p + depth <= |s| && Minified(s, p) == Minified(s, p + depth)
            && At(s, p + depth, StringText(m.key)) && At(s, c, [COLON, TAB]) && At(s, c + 2, Text(m.value, true, depth))
            && At(s, q, sep) && At(s, q + |sep|, MembersText(members, i + 1, true, depth))
            && q + |sep| + |MembersText(members, i + 1, true, depth)| == p + |MembersText(members, i, true, depth)|
  {
    hide At;
    hide Minified;
    hide Text;
    hide StringText;
    hide MemberSeparator;
    var m, more := members[i], i + 1 < |members|;
    MemberParts(members, i, depth);
    SixParts(s, p, Tabs(depth), StringText(m.key), [COLON, TAB], Text(m.value, true, depth),
      MemberSeparator(true, more),
             MembersText(members, i + 1, true, depth));
    hide MembersText;
    MinifyGap(s, p, Tabs(depth));
    AtEnd(s, p, Tabs(depth));
  }

  /** The unformatted text of the members from index `i` on. */
  lemma MemberWanted(members: seq<Member>, i: nat, depth: nat, outer: nat)
    requires i < |members| && forall k :: 0 <= k < |members| ==> Printable(members[k].value)
    ensures var m := members[i];
            MembersText(members, i, false, depth) + ObjectTail(false, outer)
            == StringText(m.key) + ([COLON] + (Text(m.value, false, depth)
               + (MemberSeparator(false, i + 1 < |members|)
                 + (MembersText(members, i + 1, false, depth) + ObjectTail(false, outer)))))
  {
    hide Text;
    hide StringText;
    hide MemberSeparator;
    hide ObjectTail;
    var m := members[i];
    var rest, tail := MembersText(members, i + 1, false, depth), ObjectTail(false, outer);
    var sep, text := MemberSeparator(false, i + 1 < |members|), Text(m.value, false, depth);
    assert MembersText(members, i, false, depth) == [] + (StringText(m.key) + ([COLON] + (text + (sep + rest))));
    Regroup(sep, rest, tail);
    Regroup(text, sep + rest, tail);
    Regroup([COLON], text + (sep + rest), tail);
    Regroup(StringText(m.key), [COLON] + (text + (sep + rest)), tail);
  }

  /** What the unformatted text goes on with behind a member. */
  lemma RestStart(members: seq<Member>, i: nat, depth: nat, outer: nat)
    requires i <= |members| && forall k :: 0 <= k < |members| ==> Printable(members[k].value)
    ensures var t := MembersText(members, i, false, depth) + ObjectTail(false, outer);
            t != [] && t[0] == if i < |members| then QUOTE else RIGHT_BRACE
  {
    hide Text;
    if i < |members| { MemberWanted(members, i, depth, outer); }
  }

  /** A member's value, the separator, and what follows. */
  lemma SeparatorJoined(m: seq<byte>, t: seq<byte>, rest: seq<byte>, s: CString, q: nat, e: nat, more: bool,
                        fate: Fate, restFate: Fate)
    requires Meets(m, t, s, q, fate) && At(s, q, MemberSeparator(true, more))
    requires q + |MemberSeparator(true, more)| <= |s|
    requires Meets(Minified(s, q + |MemberSeparator(true, more)|), rest, s, e, restFate)
    requires rest != [] && rest[0] == (if more then QUOTE else RIGHT_BRACE)
    ensures Meets(m, t + (MemberSeparator(false, more) + rest), s, e, if fate == Clean then restFate else Broken)
  {
    hide At;
    hide Minified;
    hide InString;
    if fate == Broken {
      StillBroken(m, t, MemberSeparator(false, more) + rest);
    } else if fate == Clean {
      CleanSeparator(m, t, rest, s, q, e, more, restFate);
    } else {
      SpilledSeparator(m, t, rest, s, q, more);
    }
  }

  lemma Separators()
    ensures MemberSeparator(true, true) == [COMMA, NEWLINE] && MemberSeparator(true, false) == [NEWLINE]
    ensures MemberSeparator(false, true) == [COMMA] && MemberSeparator(false, false) == []
  {
  }

  lemma CleanSeparator(m: seq<byte>, t: seq<byte>, rest: seq<byte>, s: CString, q: nat, e: nat, more: bool,
                       restFate: Fate)
    requires At(s, q, MemberSeparator(true, more)) && q + |MemberSeparator(true, more)| <= |s| &&
             m == t + Minified(s, q)
    requires Meets(Minified(s, q + |MemberSeparator(true, more)|), rest, s, e, restFate)
    ensures Meets(m, t + (MemberSeparator(false, more) + rest), s, e, restFate)
  {
    hide At;
    hide Minified;
    hide InString;
    hide Meets;
    Separators();
    var wanted := MemberSeparator(false, more) + rest;
    if more {
      AtFirst(s, q, [COMMA, NEWLINE]);
      AtFirst(s, q + 1, [COMMA, NEWLINE][1..]);
      CopyEither(s, q, COMMA, false);
      SkipOne(s, q + 1);
      InFront(Minified(s, q), [COMMA], Minified(s, q + 2), rest, s, e, restFate);
    } else {
      AtFirst(s, q, [NEWLINE]);
      SkipOne(s, q);
      assert wanted == rest;
    }
    InFront(m, t, Minified(s, q), wanted, s, e, restFate);
  }

  lemma SpilledSeparator(m: seq<byte>, t: seq<byte>, rest: seq<byte>, s: CString, q: nat, more: bool)
    requires At(s, q, MemberSeparator(true, more)) && q + |MemberSeparator(true, more)| <= |s| &&
             m == t + InString(s, q)
    requires rest != [] && rest[0] == (if more then QUOTE else RIGHT_BRACE)
    ensures !(t + (MemberSeparator(false, more) + rest) <= m)
  {
    hide At;
    hide Minified;
    hide InString;
    Separators();
    if more {
      AtFirst(s, q, [COMMA, NEWLINE]);
      AtFirst(s, q + 1, [COMMA, NEWLINE][1..]);
      CopyEither(s, q, COMMA, true);
      CopyEither(s, q + 1, NEWLINE, true);
      Regroup(t, [COMMA], InString(s, q + 1));
      Regroup(t, [COMMA], rest);
      WrongByte(m, t + ([COMMA] + rest), t + [COMMA], InString(s, q + 1), rest);
    } else {
      AtFirst(s, q, [NEWLINE]);
      CopyEither(s, q, NEWLINE, true);
      assert [] + rest == rest;
      WrongByte(m, t + rest, t, InString(s, q), rest);
    }
  }

  /** A key, its colon, and the value with all that follows. */
  lemma KeyJoined(s: CString, p: nat, key: CString, v: Value, depth: nat, behind: seq<byte>, e: nat, more: bool,
                  fate: Fate)
    requires Printable(v) && At(s, p, StringText(key)) && At(s, p + |StringText(key)|, [COLON, TAB])
    requires p + |StringText(key)| + 2 <= |s|
    requires Meets(Minified(s, p), StringText(key), s, p + |StringText(key)|, if EndsInBackslash(key) then Spill
             else Clean)
    requires Meets(Minified(s, p + |StringText(key)| + 2), Text(v, false, depth) + behind, s, e, fate)
    ensures Meets(Minified(s, p), StringText(key) + ([COLON] + (Text(v, false, depth) + behind)), s, e,
                  if EndsInBackslash(key) then Broken else fate)
  {
    hide At;
    hide Minified;
    hide InString;
    hide Text;
    hide StringText;
    hide EndsInBackslash;
    var c := p + |StringText(key)|;
    var wanted := Text(v, false, depth) + behind;
    AtFirst(s, c, [COLON, TAB]);
    AtFirst(s, c + 1, [COLON, TAB][1..]);
    R.TextStart(v, false, depth);
    CopyEither(s, c, COLON, EndsInBackslash(key));
    if EndsInBackslash(key) {
      CopyEither(s, c + 1, TAB, true);
      Regroup(StringText(key), [COLON], InString(s, c + 1));
      Regroup(StringText(key), [COLON], wanted);
      WrongByte(Minified(s, p), StringText(key) + ([COLON] + wanted), StringText(key) + [COLON], InString(s, c + 1),
        wanted);
    } else {
      SkipOne(s, c + 1);
      InFront(Minified(s, c), [COLON], Minified(s, c + 2), wanted, s, e, fate);
      InFront(Minified(s, p), StringText(key), Minified(s, c), [COLON] + wanted, s, e, fate);
    }
  }

  // ---- the result -----------------------------------------------------------

  /** No string and no key ends in a backslash. */
  predicate NoTrailingBackslash(v: Value) {
    match v
    case Str(s) => !EndsInBackslash(s)
    case Arr(items) => forall i :: 0 <= i < |items| ==> NoTrailingBackslash(items[i])
    case Obj(members) =>
      forall i :: 0 <= i < |members| ==> !EndsInBackslash(members[i].key) && NoTrailingBackslash(members[i].value)
    case _ => true
  }

  lemma {:induction false} CleanMeansNoTrailing(v: Value)
    ensures FateOf(v) == Clean <==> NoTrailingBackslash(v)
    decreases v, 1
  {
    match v
    case Arr(items) =>
      forall i | 0 <= i < |items| ensures FateOf(items[i]) == Clean <==> NoTrailingBackslash(items[i]) {
        CleanMeansNoTrailing(items[i]);
      }
      CleanItems(items, 0);
    case Obj(members) =>
      forall i | 0 <= i < |members|
        ensures FateOf(members[i].value) == Clean <==> NoTrailingBackslash(members[i].value)
      {
        CleanMeansNoTrailing(members[i].value);
      }
      CleanMembers(members, 0);
    case _ =>
  }

  lemma {:induction false} CleanItems(items: seq<Value>, i: nat)
    requires i <= |items|
    ensures ItemsFate(items, i) == Clean <==> forall k :: i <= k < |items| ==> FateOf(items[k]) == Clean
    decreases |items| - i
  {
    if i < |items| { CleanItems(items, i + 1); }
  }

  lemma {:induction false} CleanMembers(members: seq<Member>, i: nat)
    requires i <= |members|
    ensures MembersFate(members, i) == Clean <==>
            forall k :: i <= k < |members| ==> !EndsInBackslash(members[k].key) && FateOf(members[k].value) == Clean
    decreases |members| - i
  {
    if i < |members| { CleanMembers(members, i + 1); }
  }

  /** A string may end in a backslash only as the very last leaf of the value, inside arrays alone. */
  predicate MinifySafe(v: Value) {
    match v
    case Arr(items) =>
      forall i :: 0 <= i < |items| ==> if i + 1 < |items| then NoTrailingBackslash(items[i]) else MinifySafe(items[i])
    case Obj(members) => NoTrailingBackslash(v)
    case _ => true
  }

  lemma {:induction false} SafeMeansNotBroken(v: Value)
    ensures FateOf(v) != Broken <==> MinifySafe(v)
  {
    match v
    case Arr(items) =>
      forall i | 0 <= i < |items|
        ensures (FateOf(items[i]) == Clean <==> NoTrailingBackslash(items[i])) &&
                (FateOf(items[i]) != Broken <==> MinifySafe(items[i]))
      {
        CleanMeansNoTrailing(items[i]);
        SafeMeansNotBroken(items[i]);
      }
      SafeItems(items, 0);
    case Obj(members) =>
      CleanMeansNoTrailing(v);
      ObjectFate(members, 0);
    case _ =>
  }

  lemma {:induction false} SafeItems(items: seq<Value>, i: nat)
    requires i <= |items|
    ensures ItemsFate(items, i) != Broken <==>
            forall k :: i <= k < |items| ==>
              if k + 1 < |items| then FateOf(items[k]) == Clean else FateOf(items[k]) != Broken
    decreases |items| - i
  {
    if i < |items| { SafeItems(items, i + 1); }
  }

  lemma {:induction false} ObjectFate(members: seq<Member>, i: nat)
    ensures MembersFate(members, i) != Spill
    decreases |members| - i
  {
    if i < |members| { ObjectFate(members, i + 1); }
  }

  /** Minifying formatted text gives the unformatted text byte for byte exactly when the value is MinifySafe. */
  lemma MinifyUndoesFormatting(v: Value)
    requires Printable(v)
    ensures Minified(Text(v, true, 0), 0) == Text(v, false, 0) <==> MinifySafe(v)
  {
    hide Text;
    hide Minified;
    hide InString;
    hide FateOf;
    hide MinifySafe;
    var s := Text(v, true, 0);
    assert s[0..|s|] == s;
    MinifyText(s, 0, v, 0);
    Finished(s);
    assert Text(v, false, 0) + [] == Text(v, false, 0);
    SafeMeansNotBroken(v);
  }

  lemma Finished(s: CString)
    ensures Minified(s, |s|) == [] && InString(s, |s|) == []
  {
  }

  /** In particular for every value in which no string or key ends in a backslash. */
  lemma MinifyUndoesFormattingWithoutBackslashes(v: Value)
    requires Printable(v) && NoTrailingBackslash(v)
    ensures Minified(Text(v, true, 0), 0) == Text(v, false, 0)
  {
    CleanMeansNoTrailing(v);
    SafeMeansNotBroken(v);
    MinifyUndoesFormatting(v);
  }

  /** And not for every value: ["\\",null] keeps the space behind its comma. */
  lemma MinifyCanFail()
    ensures var v := Arr([Str([BACKSLASH]), Null]); Minified(Text(v, true, 0), 0) != Text(v, false, 0)
  {
    var v := Arr([Str([BACKSLASH]), Null]);
    assert !NoTrailingBackslash(v.items[0]);
    MinifyUndoesFormatting(v);
  }
}
