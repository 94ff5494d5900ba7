/** Parsing undoes printing. */
module JsonRoundTrip {
  import opened Bytes
  import opened Options
  import opened JsonValue
  import opened JsonText
  import opened Utf16
  import opened JsonGrammar

  // ---- white space ----------------------------------------------------

  predicate White(w: seq<byte>) {
    forall i :: 0 <= i < |w| ==> w[i] <= SPACE
  }

  lemma WhiteEmpty()
    ensures White([])
  {
  }

  lemma {:induction false} SkipOver(s: seq<byte>, off: nat, w: seq<byte>)
    requires At(s, off, w) && White(w) && off + |w| < |s| && s[off + |w|] > SPACE
    ensures SkipTo(s, off) == off + |w| && Skip(s, off) == off + |w|
    decreases |w|
  {
    if w != [] {
      AtFirst(s, off, w);
      SkipOver(s, off + 1, w[1..]);
    }
  }

  // ---- strings --------------------------------------------------------

  lemma HexDigitValue(d: nat)
    requires d < 16
    ensures IsHex(HexDigit(d)) && HexValue(HexDigit(d)) == d
  {
  }

  /** The first pass steps over one escaped byte. */
  lemma CloseQuoteEscape(s: seq<byte>, p: nat, b: byte)
    requires At(s, p, Escape(b)) && p + |Escape(b)| < |s|
    ensures CloseQuote(s, p) == CloseQuote(s, p + |Escape(b)|)
  {
    AtEach(s, p, Escape(b));
    var e := Escape(b);
    if |e| == 6 {
      HexDigitValue(b / 16);
      HexDigitValue(b % 16);
      assert s[p] == e[0] && s[p + 2] == e[2] && s[p + 3] == e[3] && s[p + 4] == e[4] && s[p + 5] == e[5];
      assert CloseQuote(s, p) == CloseQuote(s, p + 2) == CloseQuote(s, p + 3);
      assert CloseQuote(s, p + 3) == CloseQuote(s, p + 4) == CloseQuote(s, p + 5) == CloseQuote(s, p + 6);
    } else {
      assert s[p] == e[0];
    }
  }

  /** The second pass turns one escaped byte back into that byte. */
  lemma DecodeEscape(s: seq<byte>, p: nat, end: nat, out: seq<byte>, b: byte)
    requires end < |s| && At(s, p, Escape(b)) && p + |Escape(b)| <= end && b != 0
    ensures Decode(s, p, end, out) == Decode(s, p + |Escape(b)|, end, out + [b])
  {
    AtEach(s, p, Escape(b));
    var e := Escape(b);
    assert s[p] == e[0];
    if |e| == 6 {
      HexDigitValue(b / 16);
      HexDigitValue(b % 16);
      assert s[p + 1] == e[1] && s[p + 2] == e[2] && s[p + 3] == e[3] && s[p + 4] == e[4] && s[p + 5] == e[5];
      assert Hex4(s, p + 2) == b;
      assert ReadLiteral(s, p, end) == Good([b], 6);
    } else if |e| == 2 {
      assert s[p + 1] == e[1];
    }
  }

  lemma {:induction false} CloseQuoteText(s: seq<byte>, p: nat, t: CString, i: nat)
    requires i <= |t| && At(s, p, EscapeFrom(t, i)) && At(s, p + |EscapeFrom(t, i)|, [QUOTE])
    ensures CloseQuote(s, p) == Some(p + |EscapeFrom(t, i)|)
    decreases |t| - i
  {
    if i < |t| {
      AtSplit(s, p, Escape(t[i]), EscapeFrom(t, i + 1));
      CloseQuoteEscape(s, p, t[i]);
      CloseQuoteText(s, p + |Escape(t[i])|, t, i + 1);
    } else {
      AtFirst(s, p, [QUOTE]);
    }
  }

  lemma {:induction false} DecodeText(s: seq<byte>, p: nat, end: nat, t: CString, i: nat)
    requires i <= |t| && At(s, p, EscapeFrom(t, i)) && end == p + |EscapeFrom(t, i)| < |s|
    ensures Decode(s, p, end, t[..i]) == Parsed(t, end)
    decreases |t| - i
  {
    if i < |t| {
      AtSplit(s, p, Escape(t[i]), EscapeFrom(t, i + 1));
      DecodeEscape(s, p, end, t[..i], t[i]);
      assert t[..i] + [t[i]] == t[..i + 1];
      DecodeText(s, p + |Escape(t[i])|, end, t, i + 1);
    } else {
      assert t[..i] == t;
    }
  }

  /** `parse_string` reads back what `print_string_ptr` writes, for every C string. */
  lemma ParseStringText(s: seq<byte>, off: nat, t: CString)
    requires Terminated(s) && At(s, off, StringText(t))
    ensures off < |s| && s[off] == QUOTE
    ensures ParseString(s, off) == Parsed(t, off + |StringText(t)|)
  {
    hide At;
    hide CloseQuote;
    hide Decode;
    hide EscapeFrom;
    var e := EscapeFrom(t, 0);
    assert StringText(t) == [QUOTE] + (e + [QUOTE]);
    AtSplit(s, off, [QUOTE], e + [QUOTE]);
    AtFirst(s, off, [QUOTE]);
    AtSplit(s, off + 1, e, [QUOTE]);
    CloseQuoteText(s, off + 1, t, 0);
    AtFirst(s, off + 1 + |e|, [QUOTE]);
    assert t[..0] == [];
    DecodeText(s, off + 1, off + 1 + |e|, t, 0);
    StringParsed(s, off, off + 1 + |e|, t);
  }

  // ---- numbers --------------------------------------------------------

  lemma {:induction false} NumberEndAt(s: seq<byte>, off: nat, n: nat, end: nat)
    requires off + n <= end < |s| && end - off <= 63
    requires forall i :: off + n <= i < end ==> IsNumberByte(s[i])
    requires !IsNumberByte(s[end])
    ensures NumberEnd(s, off, n) == end
    decreases 63 - n
  {
    if off + n < end {
      NumberEndAt(s, off, n + 1, end);
    }
  }

  lemma {:induction false} DigitsEndAt(t: seq<byte>, i: nat)
    requires i <= |t| && forall k :: i <= k < |t| ==> IsDigit(t[k])
    ensures DigitsEnd(t, i) == |t|
    decreases |t| - i
  {
    if i < |t| {
      DigitsEndAt(t, i + 1);
    }
  }

  lemma {:induction false} ReadDigitsOfDigits(t: seq<byte>, i: nat, j: nat, n: nat)
    requires i + |Digits(n)| == j <= |t| && t[i..j] == Digits(n)
    requires forall k :: i <= k < j ==> IsDigit(t[k])
    ensures ReadDigits(t, i, j, 0) == n
    decreases n
  {
    assert t[j - 1] == t[i..j][j - 1 - i];
    if n >= 10 {
      assert t[i..j - 1] == t[i..j][..j - 1 - i] == Digits(n / 10);
      ReadDigitsOfDigits(t, i, j - 1, n / 10);
    } else {
      assert ReadDigits(t, i, i, 0) == 0;
      assert j - 1 == i;
    }
  }

  function IntPow10(k: nat): nat {
    if k == 0 then 1 else 10 * IntPow10(k - 1)
  }

  lemma {:induction false} DigitsLength(n: nat, k: nat)
    requires n < IntPow10(k) && k >= 1
    ensures |Digits(n)| <= k
    decreases k
  {
    if n >= 10 {
      assert IntPow10(1) == 10;
      assert IntPow10(k) == 10 * IntPow10(k - 1);
      DigitsLength(n / 10, k - 1);
    }
  }

  lemma PrintableLength(n: real)
    requires Printable(Number(n))
    ensures |NumberText(n)| <= 16
  {
    var m: nat := if n < 0.0 then -n.Floor else n.Floor;
    assert IntPow10(15) == 1000000000000000 by {
      assert IntPow10(5) == 100000;
      assert IntPow10(8) == 1000 * IntPow10(5);
      assert IntPow10(10) == 100 * IntPow10(8);
      assert IntPow10(13) == 1000 * IntPow10(10);
      assert IntPow10(15) == 100 * IntPow10(13);
    }
    DigitsLength(m, 15);
  }

  /** The parts of a printed number: its sign, and its digits up to the end. */
  lemma NumberParts(n: real)
    requires Printable(Number(n))
    ensures var t, first, m: nat := NumberText(n), if n < 0.0 then 1 else 0, if n < 0.0 then -n.Floor else n.Floor;
      t[first..] == Digits(m) && first < |t| && IsSign(t, 0) == (n < 0.0) && (n < 0.0 ==> t[0] == MINUS) &&
      DigitsEnd(t, first) == |t| && ReadDigits(t, first, |t|, 0) == m &&
        n == if n < 0.0 then -(m as real) else m as real
  {
    var t := NumberText(n);
    var first := if n < 0.0 then 1 else 0;
    var m: nat := if n < 0.0 then -n.Floor else n.Floor;
    assert t[first..] == Digits(m);
    forall k | first <= k < |t| ensures IsDigit(t[k]) {
      assert t[k] == Digits(m)[k - first];
    }
    DigitsEndAt(t, first);
    assert t[first..|t|] == Digits(m);
    ReadDigitsOfDigits(t, first, |t|, m);
    assert !IsDigit(MINUS) && IsSign(t, 0) == (n < 0.0);
  }

  /** `strtod` reads back every printed number, in full. */
  lemma StrtodText(n: real)
    requires Printable(Number(n))
    ensures Strtod(NumberText(n)) == (n, |NumberText(n)|)
  {
    hide NumberText;
    hide Digits;
    hide DigitsEnd;
    hide ReadDigits;
    NumberParts(n);
  }

  lemma ParseNumberText(s: seq<byte>, off: nat, n: real)
    requires Terminated(s) && Printable(Number(n)) && At(s, off, NumberText(n))
    requires off + |NumberText(n)| < |s| && !IsNumberByte(s[off + |NumberText(n)|])
    ensures StartsNumber(s[off])
    ensures ParseNumber(s, off) == Parsed(Number(n), off + |NumberText(n)|)
  {
    var t := NumberText(n);
    var end := off + |t|;
    PrintableLength(n);
    forall i | off <= i < end ensures IsNumberByte(s[i]) {
      assert s[i] == s[off..end][i - off];
      NumberTextBytes(n);
    }
    NumberTextBytes(n);
    assert s[off] == s[off..end][0];
    NumberEndAt(s, off, 0, end);
    StrtodText(n);
  }

  lemma NumberTextBytes(n: real)
    requires Printable(Number(n))
    ensures |NumberText(n)| > 0 && StartsNumber(NumberText(n)[0])
    ensures forall i :: 0 <= i < |NumberText(n)| ==> IsNumberByte(NumberText(n)[i])
  {
  }

  // ---- values ---------------------------------------------------------

  lemma NotKeyword(s: seq<byte>, off: nat)
    requires off < |s| && s[off] != LOWER_N && s[off] != LOWER_F && s[off] != LOWER_T
    ensures !At(s, off, NULL_TEXT) && !At(s, off, FALSE_TEXT) && !At(s, off, TRUE_TEXT)
  {
    if At(s, off, NULL_TEXT) { AtFirst(s, off, NULL_TEXT); }
    if At(s, off, FALSE_TEXT) { AtFirst(s, off, FALSE_TEXT); }
    if At(s, off, TRUE_TEXT) { AtFirst(s, off, TRUE_TEXT); }
  }

  /** No value starts with white space, a closing bracket or the byte order mark. */
  lemma TextStart(v: Value, format: bool, depth: nat)
    requires Printable(v)
    ensures var t := Text(v, format, depth);
            |t| > 0 && SPACE < t[0] < 0x80 && t[0] != RIGHT_BRACKET && t[0] != RIGHT_BRACE
  {
    if v.Number? { NumberTextBytes(v.n); }
  }

  /** The result that parsing the text of `v` at `off` must have: the value itself as long as the
      nesting limit allows it, a failure otherwise. */
  ghost predicate ParsesTo(r: Outcome<Value>, v: Value, end: nat, withinLimit: bool) {
    if withinLimit then r == Parsed(v, end) else r.Failed?
  }

  lemma {:induction false} ParseText(s: seq<byte>, off: nat, v: Value, format: bool, printDepth: nat, depth: nat)
    requires Terminated(s) && Printable(v) && At(s, off, Text(v, format, printDepth))
    requires off + |Text(v, format, printDepth)| < |s|
    requires !IsNumberByte(s[off + |Text(v, format, printDepth)|])
    requires depth <= NESTING_LIMIT
    ensures ParsesTo(ParseValue(s, off, depth), v, off + |Text(v, format, printDepth)|,
            depth + Height(v) <= NESTING_LIMIT)
    decreases v, 2
  {
    hide NoNul;
    hide ParseArray;
    hide ParseObject;
    hide ParseNumber;
    hide ParseString;
    var t := Text(v, format, printDepth);
    TextStart(v, format, printDepth);
    AtFirst(s, off, t);
    match v
    case Null =>
    case False =>
      if At(s, off, NULL_TEXT) { AtFirst(s, off, NULL_TEXT); }
    case True =>
      if At(s, off, NULL_TEXT) { AtFirst(s, off, NULL_TEXT); }
      if At(s, off, FALSE_TEXT) { AtFirst(s, off, FALSE_TEXT); }
    case Number(n) =>
      NumberTextBytes(n);
      NotKeyword(s, off);
      ParseNumberText(s, off, n);
    case Str(x) =>
      NotKeyword(s, off);
      ParseStringText(s, off, x);
    case Arr(items) =>
      NotKeyword(s, off);
      ParseArrayText(s, off, v, format, printDepth, depth);
    case Obj(members) =>
      NotKeyword(s, off);
      ParseObjectText(s, off, v, format, printDepth, depth);
  }

  lemma ItemsTextShape(items: seq<Value>, i: nat, format: bool, printDepth: nat)
    requires i < |items| && forall k :: 0 <= k < |items| ==> Printable(items[k])
    ensures ItemsText(items, i, format, printDepth)
         == Text(items[i], format, printDepth)
            + (ItemSeparator(format, i + 1 < |items|) + ItemsText(items, i + 1, format, printDepth))
    ensures i + 1 == |items| ==> ItemsText(items, i + 1, format, printDepth) == []
  {
    hide Text;
    hide ItemSeparator;
  }

  /** What follows the text of an item. */
  lemma ItemEnds(s: seq<byte>, q: nat, sep: seq<byte>, rest: seq<byte>, format: bool, more: bool)
    requires sep == ItemSeparator(format, more) && (!more ==> rest == [])
    requires At(s, q, sep) && At(s, q + |sep| + |rest|, [RIGHT_BRACKET])
    ensures q < |s| && s[q] == if more then COMMA else RIGHT_BRACKET
  {
    hide At;
    if more { AtFirst(s, q, sep); } else { AtFirst(s, q, [RIGHT_BRACKET]); }
  }

  /** White space in front of item `i` leads to it, and its text to a comma or the closing bracket. */
  lemma ItemSkips(s: seq<byte>, off: nat, gap: seq<byte>, items: seq<Value>, i: nat, format: bool, printDepth: nat)
    requires i < |items| && forall k :: 0 <= k < |items| ==> Printable(items[k])
    requires White(gap) && At(s, off + 1, gap)
    requires At(s, off + 1 + |gap|, ItemsText(items, i, format, printDepth))
    requires At(s, off + 1 + |gap| + |ItemsText(items, i, format, printDepth)|, [RIGHT_BRACKET])
    ensures var p := off + 1 + |gap|;
            var q := p + |Text(items[i], format, printDepth)|;
            var more := i + 1 < |items|;
            var sep := ItemSeparator(format, more);
            off + 1 < |s| && Skip(s, off + 1) == p && At(s, p, Text(items[i], format, printDepth))
            && q < |s| && s[q] == (if more then COMMA else RIGHT_BRACKET) && Skip(s, q) == q
            && At(s, q, sep) && At(s, q + |sep|, ItemsText(items, i + 1, format, printDepth))
            && q + |sep| + |ItemsText(items, i + 1, format, printDepth)|
              == p + |ItemsText(items, i, format, printDepth)|
  {
    hide At;
    hide Skip;
    hide Text;
    hide ItemsText;
    hide Printable;
    hide White;
    hide ItemSeparator;
    ItemsTextShape(items, i, format, printDepth);
    WhiteEmpty();
    var p := off + 1 + |gap|;
    var text := Text(items[i], format, printDepth);
    var more := i + 1 < |items|;
    var sep := ItemSeparator(format, more);
    var rest := ItemsText(items, i + 1, format, printDepth);
    var q := p + |text|;
    AtSplit(s, p, text, sep + rest);
    AtSplit(s, q, sep, rest);
    TextStart(items[i], format, printDepth);
    AtFirst(s, p, text);
    SkipOver(s, off + 1, gap);
    ItemEnds(s, q, sep, rest, format, more);
    AtEmpty(s, q);
    SkipOver(s, q, []);
  }

  lemma {:induction false} ParseItemsText(s: seq<byte>, off: nat, gap: seq<byte>, items: seq<Value>, i: nat,
                                          format: bool, printDepth: nat, depth: nat)
    requires Terminated(s) && i < |items| && forall k :: 0 <= k < |items| ==> Printable(items[k])
    requires White(gap) && At(s, off + 1, gap)
    requires At(s, off + 1 + |gap|, ItemsText(items, i, format, printDepth))
    requires At(s, off + 1 + |gap| + |ItemsText(items, i, format, printDepth)|, [RIGHT_BRACKET])
    requires depth <= NESTING_LIMIT
    ensures off + 1 < |s|
    ensures ParsesTo(ParseItems(s, off, depth, items[..i]), Arr(items),
                     off + 1 + |gap| + |ItemsText(items, i, format, printDepth)| + 1,
                     depth + ItemsHeight(items, i) <= NESTING_LIMIT)
    decreases items, |items| - i
  {
    hide NoNul;
    hide At;
    hide ParseValue;
    hide Skip;
    hide Text;
    hide ItemsText;
    hide Printable;
    hide Terminated;
    var p := off + 1 + |gap|;
    var q := p + |Text(items[i], format, printDepth)|;
    var sep := ItemSeparator(format, i + 1 < |items|);
    ItemSkips(s, off, gap, items, i, format, printDepth);
    ParseText(s, p, items[i], format, printDepth, depth);
    if depth + Height(items[i]) <= NESTING_LIMIT {
      assert ParseItem(s, off, depth) == Parsed(items[i], q);
      assert items[..i] + [items[i]] == items[..i + 1];
      if i + 1 < |items| {
        AtFirst(s, q, sep);
        ParseItemsText(s, q, sep[1..], items, i + 1, format, printDepth, depth);
      } else {
        assert items[..i + 1] == items;
        EmptyItemsText(items, format, printDepth);
      }
    } else {
      assert ParseItem(s, off, depth).Failed?;
    }
  }

  lemma EmptyItemsText(items: seq<Value>, format: bool, printDepth: nat)
    requires forall k :: 0 <= k < |items| ==> Printable(items[k])
    ensures ItemsText(items, |items|, format, printDepth) == []
  {
  }

  lemma AtEmpty(s: seq<byte>, off: nat)
    requires off <= |s|
    ensures At(s, off, [])
  {
  }

  lemma {:induction false} ParseArrayText(s: seq<byte>, off: nat, v: Value, format: bool, printDepth: nat, depth: nat)
    requires Terminated(s) && Printable(v) && v.Arr? && At(s, off, Text(v, format, printDepth))
    requires off + |Text(v, format, printDepth)| < |s|
    requires depth <= NESTING_LIMIT && s[off] == LEFT_BRACKET
    ensures ParsesTo(ParseArray(s, off, depth), v, off + |Text(v, format, printDepth)|,
            depth + Height(v) <= NESTING_LIMIT)
    decreases v, 0
  {
    hide NoNul;
    hide At;
    hide ParseItems;
    hide Skip;
    hide ItemsText;
    hide Terminated;
    hide Printable;
    var items := v.items;
    ArrayTextShape(items, format, printDepth);
    hide Text;
    var inner := ItemsText(items, 0, format, printDepth + 1);
    AtSplit(s, off, [LEFT_BRACKET], inner + [RIGHT_BRACKET]);
    AtSplit(s, off + 1, inner, [RIGHT_BRACKET]);
    AtFirst(s, off + 1 + |inner|, [RIGHT_BRACKET]);
    AtEmpty(s, off + 1);
    if items == [] {
      EmptyItemsText(items, format, printDepth + 1);
      SkipOver(s, off + 1, []);
    } else {
      ItemsStart(s, off + 1, items, format, printDepth + 1);
      SkipOver(s, off + 1, []);
      if depth < NESTING_LIMIT {
        ParseItemsText(s, off, [], items, 0, format, printDepth + 1, depth + 1);
        assert items[..0] == [];
      }
    }
  }

  lemma ArrayTextShape(items: seq<Value>, format: bool, printDepth: nat)
    requires Printable(Arr(items))
    ensures forall k :: 0 <= k < |items| ==> Printable(items[k])
    ensures Text(Arr(items), format, printDepth)
            == [LEFT_BRACKET] + (ItemsText(items, 0, format, printDepth + 1) + [RIGHT_BRACKET])
  {
    hide ItemsText;
  }

  lemma ObjectTextShape(members: seq<Member>, format: bool, printDepth: nat)
    requires Printable(Obj(members))
    ensures forall k :: 0 <= k < |members| ==> Printable(members[k].value)
    ensures Text(Obj(members), format, printDepth)
         == ObjectHead(format) + (MembersText(members, 0, format, printDepth + 1) + ObjectTail(format, printDepth))
    ensures members == [] ==> MembersText(members, 0, format, printDepth + 1) == []
  {
    if members != [] { hide MembersText; }
    hide ObjectHead;
    hide ObjectTail;
  }

  lemma ObjectHeadShape(format: bool)
    ensures var head := ObjectHead(format); |head| > 0 && head[0] == LEFT_BRACE && White(head[1..])
  {
  }

  lemma ItemsStart(s: seq<byte>, off: nat, items: seq<Value>, format: bool, printDepth: nat)
    requires |items| > 0 && forall k :: 0 <= k < |items| ==> Printable(items[k])
    requires At(s, off, ItemsText(items, 0, format, printDepth))
    ensures off < |s| && s[off] > SPACE && s[off] != RIGHT_BRACKET
  {
    hide At;
    hide Text;
    var text := Text(items[0], format, printDepth);
    TextStart(items[0], format, printDepth);
    AtSplit(s, off, text, ItemSeparator(format, 1 < |items|) + ItemsText(items, 1, format, printDepth));
    AtFirst(s, off, text);
  }

  lemma ObjectSplit(s: seq<byte>, off: nat, members: seq<Member>, format: bool, printDepth: nat)
    requires Printable(Obj(members)) && At(s, off, Text(Obj(members), format, printDepth))
    ensures forall k :: 0 <= k < |members| ==> Printable(members[k].value)
    ensures var head := ObjectHead(format);
            var inner := MembersText(members, 0, format, printDepth + 1);
            |head| > 0 && White(head[1..]) && At(s, off + 1, head[1..])
            && At(s, off + |head|, inner) && At(s, off + |head| + |inner|, ObjectTail(format, printDepth))
            && |Text(Obj(members), format, printDepth)| == |head| + |inner| + |ObjectTail(format, printDepth)|
            && (members == [] ==> inner == [])
  {
    hide At;
    hide Printable;
    hide ObjectTail;
    hide MembersText;
    ObjectTextShape(members, format, printDepth);
    hide Text;
    ObjectHeadShape(format);
    hide ObjectHead;
    hide White;
    var head := ObjectHead(format);
    var inner := MembersText(members, 0, format, printDepth + 1);
    var tail := ObjectTail(format, printDepth);
    AtSplit(s, off, head, inner + tail);
    AtSplit(s, off + |head|, inner, tail);
    AtFirst(s, off, head);
  }

  /** Starting the member loop just in front of the key or in front of the white space before it is the same. */
  lemma SameMembers(s: seq<byte>, a: nat, b: nat, depth: nat, done: seq<Member>)
    requires Terminated(s) && a + 1 < |s| && b + 1 < |s| && Skip(s, a + 1) == Skip(s, b + 1)
    ensures ParseMembers(s, a, depth, done) == ParseMembers(s, b, depth, done)
  {
    hide NoNul;
    hide ParseValue;
    hide ParseString;
    hide SkipTo;
  }

  /** `parse_object` on an object that has members is its member loop. */
  lemma ObjectStep(s: seq<byte>, off: nat, depth: nat)
    requires Terminated(s) && off + 1 < |s| && s[off] == LEFT_BRACE && s[Skip(s, off + 1)] == QUOTE
    ensures depth < NESTING_LIMIT ==> ParseObject(s, off, depth) == ParseMembers(s, off, depth + 1, [])
    ensures depth >= NESTING_LIMIT ==> ParseObject(s, off, depth).Failed?
  {
    hide ParseMembers;
    var p := Skip(s, off + 1);
    AtEmpty(s, p);
    WhiteEmpty();
    SkipOver(s, p, []);
    SameMembers(s, off, p - 1, depth + 1, []);
  }

  lemma ParseEmptyObject(s: seq<byte>, off: nat, format: bool, printDepth: nat, depth: nat)
    requires Terminated(s) && At(s, off, Text(Obj([]), format, printDepth))
    requires off + |Text(Obj([]), format, printDepth)| < |s|
    requires depth <= NESTING_LIMIT && s[off] == LEFT_BRACE
    ensures ParsesTo(ParseObject(s, off, depth), Obj([]), off + |Text(Obj([]), format, printDepth)|,
            depth < NESTING_LIMIT)
  {
    hide At;
    hide ParseMembers;
    hide Skip;
    ObjectSplit(s, off, [], format, printDepth);
    TailSkips(s, off + 1, ObjectHead(format)[1..], format, printDepth);
  }

  lemma {:induction false} ParseObjectText(s: seq<byte>, off: nat, v: Value, format: bool, printDepth: nat, depth: nat)
    requires Terminated(s) && Printable(v) && v.Obj? && At(s, off, Text(v, format, printDepth))
    requires off + |Text(v, format, printDepth)| < |s|
    requires depth <= NESTING_LIMIT && s[off] == LEFT_BRACE
    ensures ParsesTo(ParseObject(s, off, depth), v, off + |Text(v, format, printDepth)|,
            depth + Height(v) <= NESTING_LIMIT)
    decreases v, 1
  {
    hide At;
    hide NoNul;
    hide Terminated;
    hide ParseObject;
    hide ParseMembers;
    hide ParsesTo;
    hide Skip;
    hide ObjectTail;
    hide ObjectHead;
    hide White;
    hide MembersText;
    hide MembersHeight;
    hide Text;
    hide Height;
    var members := v.members;
    ObjectHeight(members);
    if members == [] {
      ParseEmptyObject(s, off, format, printDepth, depth);
    } else {
      ParseFilledObject(s, off, v, format, printDepth, depth);
    }
  }

  lemma {:induction false} ParseFilledObject(s: seq<byte>, off: nat, v: Value, format: bool, printDepth: nat,
                                             depth: nat)
    requires Terminated(s) && Printable(v) && v.Obj? && v.members != [] && At(s, off, Text(v, format, printDepth))
    requires off + |Text(v, format, printDepth)| < |s|
    requires depth <= NESTING_LIMIT && s[off] == LEFT_BRACE
    ensures ParsesTo(ParseObject(s, off, depth), v, off + |Text(v, format, printDepth)|,
            depth + Height(v) <= NESTING_LIMIT)
    decreases v, 0
  {
    hide At;
    hide NoNul;
    hide Terminated;
    hide ParseObject;
    hide ParseMembers;
    hide Skip;
    hide ObjectTail;
    hide ObjectHead;
    hide White;
    hide MembersText;
    hide MembersHeight;
    hide Text;
    hide Height;
    var members := v.members;
    ObjectHeight(members);
    ObjectSplit(s, off, members, format, printDepth);
    var gap := ObjectHead(format)[1..];
    MembersSkips(s, off, gap, members, 0, format, printDepth + 1);
    ObjectStep(s, off, depth);
    if depth < NESTING_LIMIT {
      ParseMembersText(s, off, gap, members, 0, format, printDepth + 1, printDepth, depth + 1);
      assert members[..0] == [];
    }
  }

  lemma ObjectHeight(members: seq<Member>)
    ensures Height(Obj(members)) == 1 + MembersHeight(members, 0)
    ensures members == [] ==> Height(Obj(members)) == 1
  {
  }

  lemma AtJoin(s: seq<byte>, off: nat, a: seq<byte>, b: seq<byte>)
    requires At(s, off, a) && At(s, off + |a|, b)
    ensures At(s, off, a + b)
  {
    assert s[off..off + |a + b|] == s[off..off + |a|] + s[off + |a|..off + |a| + |b|];
  }

  /** White space in front of the tail of an object leads to its closing brace. */
  lemma TailSkips(s: seq<byte>, off: nat, gap: seq<byte>, format: bool, printDepth: nat)
    requires White(gap) && At(s, off, gap) && At(s, off + |gap|, ObjectTail(format, printDepth))
    ensures var e := off + |gap| + |ObjectTail(format, printDepth)| - 1;
            e < |s| && s[e] == RIGHT_BRACE && Skip(s, off) == e
  {
    hide At;
    hide Skip;
    var tabs := if format then Tabs(printDepth) else [];
    AtSplit(s, off + |gap|, tabs, [RIGHT_BRACE]);
    AtFirst(s, off + |gap| + |tabs|, [RIGHT_BRACE]);
    AtJoin(s, off, gap, tabs);
    SkipOver(s, off, gap + tabs);
  }

  /** What follows the key of member `i`. */
  function AfterKey(members: seq<Member>, i: nat, format: bool, printDepth: nat): CString
    requires i < |members| && forall k :: 0 <= k < |members| ==> Printable(members[k].value)
  {
    KeySeparator(format) + (Text(members[i].value, format, printDepth)
    + (MemberSeparator(format, i + 1 < |members|) + MembersText(members, i + 1, format, printDepth)))
  }

  lemma QuoteFirst(s: seq<byte>, off: nat, key: CString)
    requires At(s, off, StringText(key))
    ensures off < |s| && s[off] == QUOTE
  {
    AtFirst(s, off, StringText(key));
  }

  /** White space in front of a member leads to the quote of its key. */
  lemma MembersSkips(s: seq<byte>, off: nat, gap: seq<byte>, members: seq<Member>, i: nat, format: bool,
                     printDepth: nat)
    requires i < |members| && forall k :: 0 <= k < |members| ==> Printable(members[k].value)
    requires White(gap) && At(s, off + 1, gap)
    requires At(s, off + 1 + |gap|, MembersText(members, i, format, printDepth))
    ensures var p := off + 1 + |gap| + |Indent(format, printDepth)|;
            p < |s| && Skip(s, off + 1) == p && s[p] == QUOTE
            && At(s, p, StringText(members[i].key))
            && At(s, p + |StringText(members[i].key)|, AfterKey(members, i, format, printDepth))
            && p + |StringText(members[i].key)| + |AfterKey(members, i, format, printDepth)|
               == off + 1 + |gap| + |MembersText(members, i, format, printDepth)|
  {
    hide At;
    hide Skip;
    hide Text;
    hide MembersText;
    hide AfterKey;
    hide StringText;
    hide Printable;
    hide White;
    hide Indent;
    var indent := Indent(format, printDepth);
    var key := StringText(members[i].key);
    var rest := AfterKey(members, i, format, printDepth);
    MembersTextShape(members, i, format, printDepth);
    AtSplit(s, off + 1 + |gap|, indent, key + rest);
    AtSplit(s, off + 1 + |gap| + |indent|, key, rest);
    QuoteFirst(s, off + 1 + |gap| + |indent|, members[i].key);
    AtJoin(s, off + 1, gap, indent);
    WhiteJoin(gap, indent, format, printDepth);
    SkipOver(s, off + 1, gap + indent);
  }

  lemma MembersTextShape(members: seq<Member>, i: nat, format: bool, printDepth: nat)
    requires i < |members| && forall k :: 0 <= k < |members| ==> Printable(members[k].value)
    ensures MembersText(members, i, format, printDepth)
         == Indent(format, printDepth) + (StringText(members[i].key) + AfterKey(members, i, format, printDepth))
  {
    hide Text;
    hide KeySeparator;
    hide MemberSeparator;
    hide StringText;
  }

  lemma WhiteJoin(gap: seq<byte>, indent: seq<byte>, format: bool, printDepth: nat)
    requires White(gap) && indent == Indent(format, printDepth)
    ensures White(gap + indent)
  {
  }

  lemma MemberParses(s: seq<byte>, off: nat, depth: nat, m: Member, p: nat, q: nat)
    requires Terminated(s) && off + 1 < |s|
    requires ParseString(s, Skip(s, off + 1)) == Parsed(m.key, p)
    requires s[Skip(s, p)] == COLON && ParseValue(s, Skip(s, Skip(s, p) + 1), depth) == Parsed(m.value, q)
    ensures ParseMember(s, off, depth) == Parsed(m, Skip(s, q))
  {
    hide ParseValue;
    hide ParseString;
    hide SkipTo;
    assert Member(m.key, m.value) == m;
  }

  lemma MemberFails(s: seq<byte>, off: nat, depth: nat, key: CString, p: nat)
    requires Terminated(s) && off + 1 < |s|
    requires ParseString(s, Skip(s, off + 1)) == Parsed(key, p)
    requires s[Skip(s, p)] == COLON && ParseValue(s, Skip(s, Skip(s, p) + 1), depth).Failed?
    ensures ParseMember(s, off, depth).Failed?
  {
    hide ParseValue;
    hide ParseString;
    hide SkipTo;
  }

  /** The key of member `i` is followed by a colon, and the colon leads to the value. */
  lemma ColonSkips(s: seq<byte>, c: nat, members: seq<Member>, i: nat, format: bool, printDepth: nat)
    requires i < |members| && forall k :: 0 <= k < |members| ==> Printable(members[k].value)
    requires At(s, c, AfterKey(members, i, format, printDepth))
    ensures var x := c + |KeySeparator(format)|;
            var q := x + |Text(members[i].value, format, printDepth)|;
            var sep := MemberSeparator(format, i + 1 < |members|);
            c + 1 < |s| && Skip(s, c) == c && s[c] == COLON && Skip(s, c + 1) == x
            && At(s, x, Text(members[i].value, format, printDepth)) && At(s, q, sep)
            && At(s, q + |sep|, MembersText(members, i + 1, format, printDepth))
            && q + |sep| + |MembersText(members, i + 1, format, printDepth)|
              == c + |AfterKey(members, i, format, printDepth)|
  {
    hide At;
    hide Skip;
    hide Text;
    hide MemberSeparator;
    hide MembersText;
    var colon := KeySeparator(format);
    var text := Text(members[i].value, format, printDepth);
    var sep := MemberSeparator(format, i + 1 < |members|);
    var rest := MembersText(members, i + 1, format, printDepth);
    AtSplit(s, c, colon, text + (sep + rest));
    AtFirst(s, c, colon);
    AtEmpty(s, c);
    SkipOver(s, c, []);
    var x := c + |colon|;
    AtSplit(s, x, text, sep + rest);
    AtSplit(s, x + |text|, sep, rest);
    TextStart(members[i].value, format, printDepth);
    AtFirst(s, x, text);
    SkipOver(s, c + 1, colon[1..]);
  }

  lemma EmptyMembersText(members: seq<Member>, format: bool, printDepth: nat)
    requires forall k :: 0 <= k < |members| ==> Printable(members[k].value)
    ensures MembersText(members, |members|, format, printDepth) == []
  {
  }

  /** What follows the text of a member's value. */
  lemma MemberEnds(s: seq<byte>, q: nat, members: seq<Member>, i: nat, format: bool, printDepth: nat, outer: nat)
    requires i < |members| && forall k :: 0 <= k < |members| ==> Printable(members[k].value)
    requires var sep := MemberSeparator(format, i + 1 < |members|);
             At(s, q, sep) && At(s, q + |sep| + |MembersText(members, i + 1, format, printDepth)|,
               ObjectTail(format, outer))
    ensures q < |s| && s[q] == if i + 1 < |members| then COMMA else if format then NEWLINE else RIGHT_BRACE
  {
    hide At;
    var sep := MemberSeparator(format, i + 1 < |members|);
    if sep != [] {
      AtFirst(s, q, sep);
    } else {
      EmptyMembersText(members, format, printDepth);
      AtFirst(s, q, ObjectTail(format, outer));
    }
  }

  lemma {:induction false} ParseMembersText(s: seq<byte>, off: nat, gap: seq<byte>, members: seq<Member>, i: nat,
                                            format: bool, printDepth: nat, outer: nat, depth: nat)
    requires Terminated(s) && i < |members| && forall k :: 0 <= k < |members| ==> Printable(members[k].value)
    requires White(gap) && At(s, off + 1, gap)
    requires At(s, off + 1 + |gap|, MembersText(members, i, format, printDepth))
    requires At(s, off + 1 + |gap| + |MembersText(members, i, format, printDepth)|, ObjectTail(format, outer))
    requires depth <= NESTING_LIMIT
    ensures off + 1 < |s|
    ensures ParsesTo(ParseMembers(s, off, depth, members[..i]), Obj(members),
                     off + 1 + |gap| + |MembersText(members, i, format, printDepth)| + |ObjectTail(format, outer)|,
                     depth + MembersHeight(members, i) <= NESTING_LIMIT)
    decreases members, |members| - i
  {
    hide NoNul;
    hide At;
    hide ParseMember;
    hide ParseValue;
    hide ParseString;
    hide Skip;
    hide SkipTo;
    hide Text;
    hide StringText;
    hide Indent;
    hide KeySeparator;
    hide MembersText;
    hide ObjectTail;
    hide Terminated;
    hide Printable;
    hide MemberSeparator;
    hide White;
    hide Height;
    var m := members[i];
    var p := off + 1 + |gap| + |Indent(format, printDepth)|;
    var c := p + |StringText(m.key)|;
    var q := c + |KeySeparator(format)| + |Text(m.value, format, printDepth)|;
    var more := i + 1 < |members|;
    var sep := MemberSeparator(format, more);
    var rest := MembersText(members, i + 1, format, printDepth);
    var tail := ObjectTail(format, outer);
    MembersSkips(s, off, gap, members, i, format, printDepth);
    ParseStringText(s, p, m.key);
    ColonSkips(s, c, members, i, format, printDepth);
    MemberEnds(s, q, members, i, format, printDepth, outer);
    ParseText(s, c + |KeySeparator(format)|, m.value, format, printDepth, depth);
    SeparatorShape(format, more);
    if depth + Height(m.value) <= NESTING_LIMIT {
      MemberParses(s, off, depth, m, c, q);
      assert members[..i] + [m] == members[..i + 1];
      if more {
        AtFirst(s, q, sep);
        AtEmpty(s, q);
        SkipOver(s, q, []);
        ParseMembersText(s, q, sep[1..], members, i + 1, format, printDepth, outer, depth);
      } else {
        assert members[..i + 1] == members;
        EmptyMembersText(members, format, printDepth);
        TailSkips(s, q, sep, format, outer);
      }
    } else {
      MemberFails(s, off, depth, m.key, c);
    }
  }

  /** What comes between two members, and after the last one. */
  lemma SeparatorShape(format: bool, more: bool)
    ensures var sep := MemberSeparator(format, more);
            White([]) && (more ==> sep != [] && sep[0] == COMMA && White(sep[1..])) && (!more ==> White(sep))
  {
  }

  // ---- whole texts ----------------------------------------------------

  /** Parsing what was printed, formatted or not, gives back the value exactly when it is nested at most
      NESTING_LIMIT deep; the parse then ends at the terminator, whether or not that is required. */
  lemma ParseUndoesPrint(v: Value, format: bool, requireEnd: bool)
    requires Printable(v)
    ensures Height(v) <= NESTING_LIMIT ==> Parse(Text(v, format, 0), requireEnd) == Parsed(v, |Text(v, format, 0)|)
    ensures Height(v) > NESTING_LIMIT ==> Parse(Text(v, format, 0), requireEnd).Failed?
  {
    hide ParseValue;
    hide SkipTo;
    hide Text;
    var t := Text(v, format, 0);
    var s := t + [0];
    assert Terminated(s) by { assert s[..|s| - 1] == t; }
    assert At(s, 0, t) by { assert s[0..|t|] == t; }
    TextStart(v, format, 0);
    assert SkipBom(s) == 0 by { assert 4 < |s| ==> s[..3][0] == t[0]; }
    AtEmpty(s, 0);
    SkipOver(s, 0, []);
    ParseText(s, 0, v, format, 0, 0);
    SkipTerminator(s);
  }

  /** At the terminator, skipping white space steps over it and back. */
  lemma SkipTerminator(s: seq<byte>)
    requires Terminated(s)
    ensures Skip(s, |s| - 1) == |s| - 1
  {
    assert SkipTo(s, |s| - 1) == SkipTo(s, |s|);
  }
}
