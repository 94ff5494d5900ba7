/** The texts that lib/cJSON.c reads, and what they mean: a grammar over the places in a text, on its own. The
    parser accepts exactly these texts, and gives exactly their meaning. */
module JsonDocument {
  import opened Bytes
  import opened Options
  import opened JsonValue
  import opened JsonText
  import opened Utf16
  import opened JsonGrammar
  import opened JsonRoundTrip
  import opened JsonNumber
  import opened JsonLiteral

  // ---- the grammar ----------------------------------------------------

  /** `text` stands at `off` and ends at `end`. */
  predicate Is(s: seq<byte>, off: nat, text: seq<byte>, end: nat) {
    At(s, off, text) && end == off + |text|
  }

  /** Between `p` and `a` are only blanks and control characters. */
  predicate Gap(s: seq<byte>, p: nat, a: nat) {
    p <= a <= |s| && forall k :: p <= k < a ==> s[k] <= 32
  }

  predicate ByteAt(s: seq<byte>, c: nat, b: byte) {
    c < |s| && s[c] == b
  }

  /** A number, as long as it goes. */
  ghost predicate NumberAt(s: seq<byte>, off: nat, n: real, end: nat) {
    off < |s| && (s[off] == 45 || 48 <= s[off] <= 57) &&
    (exists p :: SpelledAt(s, off, p) && end == off + |SpellingText(p)| && Means(p, n)) &&
    forall p :: SpelledAt(s, off, p) ==> off + |SpellingText(p)| <= end
  }

  /** The text of `v` stands at `off` and ends at `end`. */
  ghost predicate ValueAt(s: seq<byte>, off: nat, v: Value, end: nat)
    requires Terminated(s)
    decreases v, 0
  {
    match v
    case Null => Is(s, off, [110, 117, 108, 108], end)
    case False => Is(s, off, [102, 97, 108, 115, 101], end)
    case True => Is(s, off, [116, 114, 117, 101], end)
    case Number(n) => NumberAt(s, off, n, end)
    case Str(t) => LiteralAt(s, off, t, end)
    case Arr(items) =>
      ByteAt(s, off, 91) &&
      if items == [] then EmptyAt(s, off + 1, 93, end) else ItemsAt(s, off + 1, items, 0, end)
    case Obj(members) =>
      ByteAt(s, off, 123) &&
      if members == [] then EmptyAt(s, off + 1, 125, end) else MembersAt(s, off + 1, members, 0, end)
  }

  ghost predicate EmptyAt(s: seq<byte>, p: nat, close: byte, end: nat) {
    exists c: nat :: Gap(s, p, c) && ByteAt(s, c, close) && end == c + 1
  }

  /** A value with white space around it, up to `c`. */
  ghost predicate ItemAt(s: seq<byte>, p: nat, v: Value, c: nat)
    requires Terminated(s)
    decreases v, 1
  {
    exists a: nat, b: nat :: Gap(s, p, a) && ValueAt(s, a, v, b) && Gap(s, b, c)
  }

  /** The items from `i` on with commas between them, and the bracket that closes the array. */
  ghost predicate ItemsAt(s: seq<byte>, p: nat, items: seq<Value>, i: nat, end: nat)
    requires Terminated(s)
    decreases items, |items| - i
  {
    i < |items| &&
    exists c: nat :: ItemAt(s, p, items[i], c) &&
                     if i + 1 == |items| then ByteAt(s, c, 93) && end == c + 1
                     else ByteAt(s, c, 44) && ItemsAt(s, c + 1, items, i + 1, end)
  }

  /** A key with white space around it, up to the colon. */
  ghost predicate KeyAt(s: seq<byte>, p: nat, key: CString, c: nat)
    requires Terminated(s)
  {
    ByteAt(s, c, 58) && exists a: nat, b: nat :: Gap(s, p, a) && LiteralAt(s, a, key, b) && Gap(s, b, c)
  }

  ghost predicate MemberAt(s: seq<byte>, p: nat, m: Member, c: nat)
    requires Terminated(s)
    decreases m, 2
  {
    exists k: nat :: KeyAt(s, p, m.key, k) && ItemAt(s, k + 1, m.value, c)
  }

  ghost predicate MembersAt(s: seq<byte>, p: nat, members: seq<Member>, i: nat, end: nat)
    requires Terminated(s)
    decreases members, |members| - i
  {
    i < |members| &&
    exists c: nat :: MemberAt(s, p, members[i], c) &&
                     if i + 1 == |members| then ByteAt(s, c, 125) && end == c + 1
                     else ByteAt(s, c, 44) && MembersAt(s, c + 1, members, i + 1, end)
  }

  /** The end of a byte order mark at the start. */
  function BomEnd(s: seq<byte>): nat {
    if At(s, 0, [0xEF, 0xBB, 0xBF]) then 3 else 0
  }

  /** A whole text: a byte order mark that is not part of it, white space and a value; with nothing but white space
      behind the value if the end is required. */
  ghost predicate DocumentIs(text: CString, requireEnd: bool, v: Value, end: nat) {
    var s := text + [0];
    assert Terminated(s) by { assert s[..|s| - 1] == text; }
    Height(v) <= 1000 &&
    exists a: nat, b: nat :: Gap(s, BomEnd(s), a) && ValueAt(s, a, v, b) &&
                   if requireEnd then Gap(s, b, |text|) && end == |text| else end == b
  }

  // ---- numbers and white space ----------------------------------------

  lemma SkipGap(s: seq<byte>, p: nat)
    requires p < |s|
    ensures Gap(s, p, Skip(s, p))
  {
  }

  lemma {:induction false} GapSkips(s: seq<byte>, p: nat, a: nat)
    requires Gap(s, p, a) && a < |s| && s[a] > 32
    ensures SkipTo(s, p) == a && Skip(s, p) == a
    decreases a - p
  {
    if p < a { GapSkips(s, p + 1, a); }
  }

  lemma NumberIs(s: seq<byte>, off: nat)
    requires Terminated(s) && off < |s| && (s[off] == 45 || 48 <= s[off] <= 57)
    ensures var r := ParseNumber(s, off);
            r.Parsed? ==> r.value.Number? && NumberAt(s, off, r.value.n, r.off)
    ensures forall n, end :: NumberAt(s, off, n, end) ==> ParseNumber(s, off) == Parsed(Number(n), end)
  {
    hide ParseNumber;
    hide Means;
    hide SpellingText;
    hide Terminated;
    ParseNumberMeans(s, off);
    forall n, end | NumberAt(s, off, n, end) ensures ParseNumber(s, off) == Parsed(Number(n), end) {
      var p :| SpelledAt(s, off, p) && end == off + |SpellingText(p)| && Means(p, n);
      var r := ParseNumber(s, off);
      var q :| SpelledAt(s, off, q) && r.off == off + |SpellingText(q)| && Means(q, r.value.n);
      SameSpelling(s, off, p, q);
      OneMeaning(p, n, r.value.n);
    }
  }

  lemma SameSpelling(s: seq<byte>, off: nat, p: Spelling, q: Spelling)
    requires SpelledAt(s, off, p) && SpelledAt(s, off, q) && |SpellingText(p)| == |SpellingText(q)|
    ensures p == q
  {
    assert SpellingText(p) == SpellingText(q);
    SpellingFound(p);
    SpellingFound(q);
  }

  lemma GapsJoin(s: seq<byte>, p: nat, a: nat, b: nat)
    requires Gap(s, p, a) && Gap(s, a, b)
    ensures Gap(s, p, b)
  {
  }

  /** No value starts with white space or a closing bracket, and none is empty. */
  lemma ValueStarts(s: seq<byte>, off: nat, v: Value, end: nat)
    requires Terminated(s) && ValueAt(s, off, v, end)
    ensures off < |s| && 32 < s[off] < 128 && s[off] != 93 && s[off] != 125
  {
    hide Terminated;
    hide Parse;
    hide ItemsAt;
    hide MembersAt;
    match v
    case Null => AtFirst(s, off, [110, 117, 108, 108]);
    case False => AtFirst(s, off, [102, 97, 108, 115, 101]);
    case True => AtFirst(s, off, [116, 114, 117, 101]);
    case _ =>
  }

  // ---- everything that is parsed is in the grammar --------------------

  lemma {:induction false} ValueSound(s: seq<byte>, off: nat, depth: nat)
    requires Terminated(s) && off < |s| && depth <= NESTING_LIMIT
    ensures var r := ParseValue(s, off, depth);
            r.Parsed? ==> ValueAt(s, off, r.value, r.off) && depth + Height(r.value) <= NESTING_LIMIT
    decreases |s| - off, 1
  {
    hide Terminated;
    hide ParseNumber;
    hide ParseString;
    hide ParseArray;
    hide ParseObject;
    hide ItemsAt;
    hide MembersAt;
    hide NumberAt;
    hide EmptyAt;
    hide At;
    hide LiteralAt;
    if s[off] == QUOTE {
      NotKeyword(s, off);
      var r := ParseString(s, off);
      if r.Parsed? { ParsesLiterals(s, off, r.value, r.off); }
    } else if StartsNumber(s[off]) {
      NotKeyword(s, off);
      NumberIs(s, off);
    } else if s[off] == LEFT_BRACKET {
      NotKeyword(s, off);
      ArraySound(s, off, depth);
    } else if s[off] == LEFT_BRACE {
      NotKeyword(s, off);
      ObjectSound(s, off, depth);
    }
  }

  /** `parse_array` step by step. */
  lemma ArrayIs(s: seq<byte>, off: nat, depth: nat)
    requires Terminated(s) && off + 1 < |s| && s[off] == LEFT_BRACKET
    ensures var p := Skip(s, off + 1);
            ParseArray(s, off, depth) ==
            if depth >= NESTING_LIMIT then Failed(off)
            else if s[p] == RIGHT_BRACKET then Parsed(Arr([]), p + 1)
            else ParseItems(s, p - 1, depth + 1, [])
  {
    hide Terminated;
    hide ParseItems;
    hide Skip;
  }

  lemma ItemsAreArray(s: seq<byte>, off: nat, items: seq<Value>, end: nat)
    requires Terminated(s) && ByteAt(s, off, 91)
    requires if items == [] then EmptyAt(s, off + 1, 93, end) else ItemsAt(s, off + 1, items, 0, end)
    ensures ValueAt(s, off, Arr(items), end) && Height(Arr(items)) == 1 + ItemsHeight(items, 0)
  {
    hide Terminated;
    hide ItemsAt;
    hide EmptyAt;
  }

  lemma {:induction false} ArraySound(s: seq<byte>, off: nat, depth: nat)
    requires Terminated(s) && off < |s| && depth <= NESTING_LIMIT && s[off] == LEFT_BRACKET
    ensures var r := ParseArray(s, off, depth);
            r.Parsed? ==>
              r.value.Arr? && ValueAt(s, off, r.value, r.off) && depth + Height(r.value) <= NESTING_LIMIT
    decreases |s| - off, 0, 2
  {
    hide Terminated;
    hide ParseArray;
    hide ParseItems;
    hide Skip;
    hide Gap;
    hide ValueAt;
    hide ItemsAt;
    hide EmptyAt;
    hide Height;
    SentinelIs(s);
    ArrayIs(s, off, depth);
    if depth < NESTING_LIMIT {
      var p := Skip(s, off + 1);
      SkipGap(s, off + 1);
      if s[p] == RIGHT_BRACKET {
        EmptyIs(s, off + 1, 93, p);
        ItemsAreArray(s, off, [], p + 1);
      } else {
        var r := ParseItems(s, p - 1, depth + 1, []);
        ItemsSound(s, p - 1, depth + 1, []);
        if r.Parsed? {
          ItemsEarlier(s, off + 1, p, r.value.items, 0, r.off);
          NoEmptyItems(s, off + 1, r.value.items, r.off);
          ItemsAreArray(s, off, r.value.items, r.off);
        }
      }
    }
  }

  lemma NoEmptyItems(s: seq<byte>, p: nat, items: seq<Value>, end: nat)
    requires Terminated(s) && ItemsAt(s, p, items, 0, end)
    ensures items != []
  {
  }

  lemma ItemsEarlier(s: seq<byte>, p: nat, q: nat, items: seq<Value>, i: nat, end: nat)
    requires Terminated(s) && Gap(s, p, q) && ItemsAt(s, q, items, i, end)
    ensures ItemsAt(s, p, items, i, end)
  {
    hide Terminated;
    hide Gap;
    hide ValueAt;
    var c: nat :| ItemAt(s, q, items[i], c) && if i + 1 == |items| then ByteAt(s, c, 93) && end == c + 1
                                                else ByteAt(s, c, 44) && ItemsAt(s, c + 1, items, i + 1, end);
    ItemEarlier(s, p, q, items[i], c);
  }

  lemma ItemEarlier(s: seq<byte>, p: nat, q: nat, v: Value, c: nat)
    requires Terminated(s) && Gap(s, p, q) && ItemAt(s, q, v, c)
    ensures ItemAt(s, p, v, c)
  {
    hide Terminated;
    hide Gap;
    hide ValueAt;
    var a: nat, b: nat :| Gap(s, q, a) && ValueAt(s, a, v, b) && Gap(s, b, c);
    GapsJoin(s, p, q, a);
  }

  lemma {:induction false} ItemSound(s: seq<byte>, off: nat, depth: nat)
    requires Terminated(s) && off + 1 < |s| && depth <= NESTING_LIMIT
    ensures var r := ParseItem(s, off, depth);
            r.Parsed? ==> ItemAt(s, off + 1, r.value, r.off) && depth + Height(r.value) <= NESTING_LIMIT
    decreases |s| - off, 0, 0
  {
    hide Terminated;
    hide ParseValue;
    hide ValueAt;
    hide Skip;
    hide Gap;
    hide Height;
    var a := Skip(s, off + 1);
    ValueSound(s, a, depth);
    SkipGap(s, off + 1);
    var r := ParseValue(s, a, depth);
    if r.Parsed? { SkipGap(s, r.off); }
  }

  lemma {:induction false} ItemsSound(s: seq<byte>, off: nat, depth: nat, done: seq<Value>)
    requires Terminated(s) && off + 1 < |s| && depth <= NESTING_LIMIT
    ensures var r := ParseItems(s, off, depth, done);
            r.Parsed? ==>
              r.value.Arr? && done <= r.value.items && ItemsAt(s, off + 1, r.value.items, |done|, r.off)
              && depth + ItemsHeight(r.value.items, |done|) <= NESTING_LIMIT
    decreases |s| - off, 0, 1
  {
    hide Terminated;
    hide ParseItem;
    hide ItemAt;
    hide Height;
    ItemSound(s, off, depth);
    var item := ParseItem(s, off, depth);
    var r := ParseItems(s, off, depth, done);
    if item.Parsed? && r.Parsed? {
      if s[item.off] == COMMA {
        ItemsSound(s, item.off, depth, done + [item.value]);
      }
      assert r.value.items[|done|] == item.value;
      hide ItemsAt;
    }
  }

  /** `parse_object` step by step. */
  lemma ObjectIs(s: seq<byte>, off: nat, depth: nat)
    requires Terminated(s) && off + 1 < |s| && s[off] == LEFT_BRACE
    ensures var p := Skip(s, off + 1);
            ParseObject(s, off, depth) ==
            if depth >= NESTING_LIMIT then Failed(off)
            else if s[p] == RIGHT_BRACE then Parsed(Obj([]), p + 1)
            else ParseMembers(s, p - 1, depth + 1, [])
  {
    hide Terminated;
    hide ParseMembers;
    hide Skip;
  }

  lemma MembersAreObject(s: seq<byte>, off: nat, members: seq<Member>, end: nat)
    requires Terminated(s) && ByteAt(s, off, 123)
    requires if members == [] then EmptyAt(s, off + 1, 125, end) else MembersAt(s, off + 1, members, 0, end)
    ensures ValueAt(s, off, Obj(members), end) && Height(Obj(members)) == 1 + MembersHeight(members, 0)
  {
    hide Terminated;
    hide MembersAt;
    hide EmptyAt;
    ObjectHeight(members);
  }

  lemma EmptyIs(s: seq<byte>, p: nat, close: byte, c: nat)
    requires Gap(s, p, c) && ByteAt(s, c, close)
    ensures EmptyAt(s, p, close, c + 1)
  {
  }

  lemma {:induction false} ObjectSound(s: seq<byte>, off: nat, depth: nat)
    requires Terminated(s) && off < |s| && depth <= NESTING_LIMIT && s[off] == LEFT_BRACE
    ensures var r := ParseObject(s, off, depth);
            r.Parsed? ==>
              r.value.Obj? && ValueAt(s, off, r.value, r.off) && depth + Height(r.value) <= NESTING_LIMIT
    decreases |s| - off, 0, 2
  {
    hide Terminated;
    hide ParseObject;
    hide ParseMembers;
    hide Skip;
    hide Gap;
    hide ValueAt;
    hide MembersAt;
    hide EmptyAt;
    hide Height;
    SentinelIs(s);
    ObjectIs(s, off, depth);
    if depth < NESTING_LIMIT {
      var p := Skip(s, off + 1);
      SkipGap(s, off + 1);
      if s[p] == RIGHT_BRACE {
        EmptyIs(s, off + 1, 125, p);
        MembersAreObject(s, off, [], p + 1);
      } else {
        var r := ParseMembers(s, p - 1, depth + 1, []);
        MembersSound(s, p - 1, depth + 1, []);
        if r.Parsed? {
          MembersEarlier(s, off + 1, p, r.value.members, 0, r.off);
          NoEmptyMembers(s, off + 1, r.value.members, r.off);
          MembersAreObject(s, off, r.value.members, r.off);
        }
      }
    }
  }

  lemma NoEmptyMembers(s: seq<byte>, p: nat, members: seq<Member>, end: nat)
    requires Terminated(s) && MembersAt(s, p, members, 0, end)
    ensures members != []
  {
  }

  lemma KeyEarlier(s: seq<byte>, p: nat, q: nat, key: CString, c: nat)
    requires Terminated(s) && Gap(s, p, q) && KeyAt(s, q, key, c)
    ensures KeyAt(s, p, key, c)
  {
    hide Terminated;
    hide Gap;
    hide LiteralAt;
    var a: nat, b: nat :| Gap(s, q, a) && LiteralAt(s, a, key, b) && Gap(s, b, c);
    GapsJoin(s, p, q, a);
  }

  lemma MemberEarlier(s: seq<byte>, p: nat, q: nat, m: Member, c: nat)
    requires Terminated(s) && Gap(s, p, q) && MemberAt(s, q, m, c)
    ensures MemberAt(s, p, m, c)
  {
    hide Terminated;
    hide Gap;
    hide ItemAt;
    hide KeyAt;
    var k: nat :| KeyAt(s, q, m.key, k) && ItemAt(s, k + 1, m.value, c);
    KeyEarlier(s, p, q, m.key, k);
  }

  lemma MembersEarlier(s: seq<byte>, p: nat, q: nat, members: seq<Member>, i: nat, end: nat)
    requires Terminated(s) && Gap(s, p, q) && MembersAt(s, q, members, i, end)
    ensures MembersAt(s, p, members, i, end)
  {
    hide Terminated;
    hide Gap;
    hide ItemAt;
    hide KeyAt;
    var c: nat :| MemberAt(s, q, members[i], c) && if i + 1 == |members| then ByteAt(s, c, 125) && end == c + 1
                  else ByteAt(s, c, 44) && MembersAt(s, c + 1, members, i + 1, end);
    MemberEarlier(s, p, q, members[i], c);
  }

  lemma KeySound(s: seq<byte>, off: nat)
    requires Terminated(s) && off + 1 < |s|
    ensures var r := ParseString(s, Skip(s, off + 1));
            r.Parsed? && s[Skip(s, r.off)] == COLON ==>
              Skip(s, r.off) + 1 < |s| && KeyAt(s, off + 1, r.value, Skip(s, r.off))
  {
    hide Terminated;
    hide ParseString;
    hide LiteralAt;
    hide Skip;
    hide Gap;
    var a := Skip(s, off + 1);
    SkipGap(s, off + 1);
    var r := ParseString(s, a);
    if r.Parsed? {
      SkipGap(s, r.off);
      ParsesLiterals(s, a, r.value, r.off);
      SentinelIs(s);
    }
  }

  lemma {:induction false} MemberSound(s: seq<byte>, off: nat, depth: nat)
    requires Terminated(s) && off + 1 < |s| && depth <= NESTING_LIMIT
    ensures var r := ParseMember(s, off, depth);
            r.Parsed? ==> MemberAt(s, off + 1, r.value, r.off) && depth + Height(r.value.value) <= NESTING_LIMIT
    decreases |s| - off, 0, 0
  {
    hide Terminated;
    hide ParseValue;
    hide ParseString;
    hide ValueAt;
    hide KeyAt;
    hide Skip;
    hide Gap;
    hide Height;
    KeySound(s, off);
    var key := ParseString(s, Skip(s, off + 1));
    if key.Parsed? && s[Skip(s, key.off)] == COLON {
      var k := Skip(s, key.off);
      SkipGap(s, k + 1);
      var d := Skip(s, k + 1);
      ValueSound(s, d, depth);
      var r := ParseValue(s, d, depth);
      if r.Parsed? {
        SkipGap(s, r.off);
        assert ItemAt(s, k + 1, r.value, Skip(s, r.off));
      }
    }
  }

  lemma SentinelIs(s: seq<byte>)
    requires Terminated(s)
    ensures s[|s| - 1] == 0
  {
  }

  lemma {:induction false} MembersSound(s: seq<byte>, off: nat, depth: nat, done: seq<Member>)
    requires Terminated(s) && off + 1 < |s| && depth <= NESTING_LIMIT
    ensures var r := ParseMembers(s, off, depth, done);
            r.Parsed? ==>
              r.value.Obj? && done <= r.value.members && MembersAt(s, off + 1, r.value.members, |done|, r.off)
              && depth + MembersHeight(r.value.members, |done|) <= NESTING_LIMIT
    decreases |s| - off, 0, 1
  {
    hide Terminated;
    hide ParseMember;
    hide MemberAt;
    hide Height;
    MemberSound(s, off, depth);
    var member := ParseMember(s, off, depth);
    var r := ParseMembers(s, off, depth, done);
    if member.Parsed? && r.Parsed? {
      if s[member.off] == COMMA {
        MembersSound(s, member.off, depth, done + [member.value]);
      }
      assert r.value.members[|done|] == member.value;
    }
  }

  // ---- everything in the grammar is parsed ----------------------------

  lemma {:induction false} ValueComplete(s: seq<byte>, off: nat, v: Value, end: nat, depth: nat)
    requires Terminated(s) && ValueAt(s, off, v, end) && depth + Height(v) <= NESTING_LIMIT
    ensures off < |s| && ParseValue(s, off, depth) == Parsed(v, end)
    decreases v, 0
  {
    hide Terminated;
    hide ParseNumber;
    hide ParseString;
    hide ParseArray;
    hide ParseObject;
    hide ItemsAt;
    hide MembersAt;
    hide NumberAt;
    hide EmptyAt;
    hide At;
    hide LiteralAt;
    ValueStarts(s, off, v, end);
    match v
    case Null =>
    case False => AtFirst(s, off, FALSE_TEXT); if At(s, off, NULL_TEXT) { AtFirst(s, off, NULL_TEXT); }
    case True =>
      AtFirst(s, off, TRUE_TEXT);
      if At(s, off, NULL_TEXT) { AtFirst(s, off, NULL_TEXT); }
      if At(s, off, FALSE_TEXT) { AtFirst(s, off, FALSE_TEXT); }
    case Number(n) =>
      NumberStarts(s, off, n, end);
      NotKeyword(s, off);
      NumberIs(s, off);
    case Str(t) =>
      StringStarts(s, off, t, end);
      ParsesLiterals(s, off, t, end);
      NotKeyword(s, off);
    case Arr(items) =>
      NotKeyword(s, off);
      ArrayComplete(s, off, items, end, depth);
    case Obj(members) =>
      NotKeyword(s, off);
      ObjectComplete(s, off, members, end, depth);
  }

  lemma NumberStarts(s: seq<byte>, off: nat, n: real, end: nat)
    requires NumberAt(s, off, n, end)
    ensures off < |s| && (s[off] == 45 || 48 <= s[off] <= 57)
  {
  }

  lemma StringStarts(s: seq<byte>, off: nat, t: CString, end: nat)
    requires Terminated(s) && LiteralAt(s, off, t, end)
    ensures off < |s| && s[off] == 34
  {
  }

  lemma EmptyArrayComplete(s: seq<byte>, off: nat, end: nat, depth: nat)
    requires Terminated(s) && ByteAt(s, off, 91) && EmptyAt(s, off + 1, 93, end) && depth < NESTING_LIMIT
    ensures ParseArray(s, off, depth) == Parsed(Arr([]), end)
  {
    hide Terminated;
    hide ParseArray;
    hide ParseItems;
    hide Skip;
    hide Gap;
    var c: nat :| Gap(s, off + 1, c) && ByteAt(s, c, 93) && end == c + 1;
    SentinelIs(s);
    ArrayIs(s, off, depth);
    GapSkips(s, off + 1, c);
  }

  lemma {:induction false} ArrayComplete(s: seq<byte>, off: nat, items: seq<Value>, end: nat, depth: nat)
    requires Terminated(s) && ByteAt(s, off, 91) && depth + Height(Arr(items)) <= NESTING_LIMIT
    requires if items == [] then EmptyAt(s, off + 1, 93, end) else ItemsAt(s, off + 1, items, 0, end)
    ensures ParseArray(s, off, depth) == Parsed(Arr(items), end)
    decreases items, |items| + 1
  {
    hide Terminated;
    hide ParseArray;
    hide ParseItems;
    hide Skip;
    hide Gap;
    hide ItemsAt;
    hide EmptyAt;
    SentinelIs(s);
    if items == [] {
      EmptyArrayComplete(s, off, end, depth);
    } else {
      var p := ItemsStartAt(s, off + 1, items, 0, end);
      GapSkips(s, off + 1, p);
      GapBounds(s, off + 1, p);
      ArrayIs(s, off, depth);
      ItemsComplete(s, p - 1, items, 0, end, depth + 1);
      assert items[..0] == [];
    }
  }

  /** Where the first item is. */
  lemma ItemsStartAt(s: seq<byte>, p: nat, items: seq<Value>, i: nat, end: nat) returns (a: nat)
    requires Terminated(s) && ItemsAt(s, p, items, i, end)
    ensures Gap(s, p, a) && a < |s| && s[a] > 32 && s[a] != 93 && ItemsAt(s, a, items, i, end)
  {
    hide Terminated;
    hide ValueAt;
    var c: nat :| ItemAt(s, p, items[i], c) && if i + 1 == |items| then ByteAt(s, c, 93) && end == c + 1
                                                else ByteAt(s, c, 44) && ItemsAt(s, c + 1, items, i + 1, end);
    a := ItemStartAt(s, p, items[i], c);
  }

  lemma ItemStartAt(s: seq<byte>, p: nat, v: Value, c: nat) returns (a: nat)
    requires Terminated(s) && ItemAt(s, p, v, c)
    ensures Gap(s, p, a) && a < |s| && s[a] > 32 && s[a] != 93 && ItemAt(s, a, v, c)
  {
    hide Terminated;
    hide ValueAt;
    var a', b: nat :| Gap(s, p, a') && ValueAt(s, a', v, b) && Gap(s, b, c);
    a := a';
    ValueStarts(s, a, v, b);
    assert Gap(s, a, a);
  }

  lemma {:induction false} ItemComplete(s: seq<byte>, off: nat, v: Value, c: nat, depth: nat)
    requires Terminated(s) && ItemAt(s, off + 1, v, c) && c < |s| && s[c] > 32 && depth + Height(v) <= NESTING_LIMIT
    ensures off + 1 < |s| && ParseItem(s, off, depth) == Parsed(v, c)
    decreases v, 1
  {
    hide Terminated;
    hide ValueAt;
    hide ParseValue;
    hide Skip;
    hide Gap;
    hide Height;
    var a: nat, b: nat :| Gap(s, off + 1, a) && ValueAt(s, a, v, b) && Gap(s, b, c);
    GapBounds(s, off + 1, a);
    ValueStarts(s, a, v, b);
    GapSkips(s, off + 1, a);
    ValueComplete(s, a, v, b, depth);
    GapSkips(s, b, c);
  }

  lemma GapBounds(s: seq<byte>, p: nat, a: nat)
    requires Gap(s, p, a)
    ensures p <= a <= |s|
  {
  }

  lemma {:induction false} ItemsComplete(s: seq<byte>, off: nat, items: seq<Value>, i: nat, end: nat, depth: nat)
    requires Terminated(s) && ItemsAt(s, off + 1, items, i, end) && depth + ItemsHeight(items, i) <= NESTING_LIMIT
    ensures off + 1 < |s| && ParseItems(s, off, depth, items[..i]) == Parsed(Arr(items), end)
    decreases items, |items| - i
  {
    hide Terminated;
    hide ParseItem;
    hide ItemAt;
    hide Height;
    var c: nat :| ItemAt(s, off + 1, items[i], c) && if i + 1 == |items| then ByteAt(s, c, 93) && end == c + 1
                                                      else ByteAt(s, c, 44) && ItemsAt(s, c + 1, items, i + 1, end);
    ItemComplete(s, off, items[i], c, depth);
    assert items[..i] + [items[i]] == items[..i + 1];
    if i + 1 == |items| {
      assert items[..i + 1] == items;
    } else {
      ItemsComplete(s, c, items, i + 1, end, depth);
    }
    hide ItemsAt;
  }

  lemma EmptyObjectComplete(s: seq<byte>, off: nat, end: nat, depth: nat)
    requires Terminated(s) && ByteAt(s, off, 123) && EmptyAt(s, off + 1, 125, end) && depth < NESTING_LIMIT
    ensures ParseObject(s, off, depth) == Parsed(Obj([]), end)
  {
    hide Terminated;
    hide ParseObject;
    hide ParseMembers;
    hide Skip;
    hide Gap;
    var c: nat :| Gap(s, off + 1, c) && ByteAt(s, c, 125) && end == c + 1;
    SentinelIs(s);
    ObjectIs(s, off, depth);
    GapSkips(s, off + 1, c);
  }

  lemma {:induction false} ObjectComplete(s: seq<byte>, off: nat, members: seq<Member>, end: nat, depth: nat)
    requires Terminated(s) && ByteAt(s, off, 123) && depth + Height(Obj(members)) <= NESTING_LIMIT
    requires if members == [] then EmptyAt(s, off + 1, 125, end) else MembersAt(s, off + 1, members, 0, end)
    ensures ParseObject(s, off, depth) == Parsed(Obj(members), end)
    decreases members, |members| + 1
  {
    hide Terminated;
    hide ParseObject;
    hide ParseMembers;
    hide Skip;
    hide Gap;
    hide MembersAt;
    hide EmptyAt;
    hide Height;
    ObjectHeight(members);
    if members == [] {
      EmptyObjectComplete(s, off, end, depth);
    } else {
      var p := MembersStartAt(s, off + 1, members, 0, end);
      GapSkips(s, off + 1, p);
      SentinelIs(s);
      GapBounds(s, off + 1, p);
      ObjectStep(s, off, depth);
      MembersComplete(s, off, members, 0, end, depth + 1);
      assert members[..0] == [];
    }
  }

  lemma MembersStartAt(s: seq<byte>, p: nat, members: seq<Member>, i: nat, end: nat) returns (a: nat)
    requires Terminated(s) && MembersAt(s, p, members, i, end)
    ensures Gap(s, p, a) && a < |s| && s[a] == 34 && MembersAt(s, a, members, i, end)
  {
    hide Terminated;
    hide ItemAt;
    hide KeyAt;
    var c: nat :| MemberAt(s, p, members[i], c) && if i + 1 == |members| then ByteAt(s, c, 125) && end == c + 1
                  else ByteAt(s, c, 44) && MembersAt(s, c + 1, members, i + 1, end);
    a := MemberStartAt(s, p, members[i], c);
  }

  lemma MemberStartAt(s: seq<byte>, p: nat, m: Member, c: nat) returns (a: nat)
    requires Terminated(s) && MemberAt(s, p, m, c)
    ensures Gap(s, p, a) && a < |s| && s[a] == 34 && MemberAt(s, a, m, c)
  {
    hide Terminated;
    hide ItemAt;
    hide KeyAt;
    hide Gap;
    var k: nat :| KeyAt(s, p, m.key, k) && ItemAt(s, k + 1, m.value, c);
    a := KeyStartAt(s, p, m.key, k);
    assert KeyAt(s, a, m.key, k);
  }

  lemma KeyStartAt(s: seq<byte>, p: nat, key: CString, c: nat) returns (a: nat)
    requires Terminated(s) && KeyAt(s, p, key, c)
    ensures Gap(s, p, a) && a < |s| && s[a] == 34 && KeyAt(s, a, key, c)
  {
    hide Terminated;
    hide LiteralAt;
    var a', b: nat :| Gap(s, p, a') && LiteralAt(s, a', key, b) && Gap(s, b, c);
    a := a';
    StringStarts(s, a, key, b);
    assert Gap(s, a, a);
  }

  lemma ColonIs(s: seq<byte>, p: nat, key: CString, k: nat)
    requires Terminated(s) && KeyAt(s, p, key, k)
    ensures k < |s| && s[k] == COLON
  {
  }

  lemma KeyComplete(s: seq<byte>, off: nat, key: CString, k: nat)
    requires Terminated(s) && KeyAt(s, off + 1, key, k)
    ensures off + 1 < |s| && Skip(s, off + 1) < |s|
    ensures var r := ParseString(s, Skip(s, off + 1)); r.Parsed? && r.value == key && Skip(s, r.off) == k
  {
    hide Terminated;
    hide ParseString;
    hide LiteralAt;
    hide Skip;
    hide Gap;
    var a: nat, b: nat :| Gap(s, off + 1, a) && LiteralAt(s, a, key, b) && Gap(s, b, k);
    GapBounds(s, off + 1, a);
    StringStarts(s, a, key, b);
    ParsesLiterals(s, a, key, b);
    GapSkips(s, off + 1, a);
    GapSkips(s, b, k);
  }

  lemma {:induction false} MemberComplete(s: seq<byte>, off: nat, m: Member, c: nat, depth: nat)
    requires Terminated(s) && MemberAt(s, off + 1, m, c)
    requires c < |s| && s[c] > 32 && depth + Height(m.value) <= NESTING_LIMIT
    ensures off + 1 < |s| && ParseMember(s, off, depth) == Parsed(m, c)
    decreases m, 2
  {
    hide Terminated;
    hide ItemAt;
    hide KeyAt;
    hide ParseValue;
    hide ParseString;
    hide Skip;
    hide Gap;
    hide Height;
    var k: nat :| KeyAt(s, off + 1, m.key, k) && ItemAt(s, k + 1, m.value, c);
    ColonIs(s, off + 1, m.key, k);
    KeyComplete(s, off, m.key, k);
    ItemComplete(s, k, m.value, c, depth);
    assert Member(m.key, m.value) == m;
  }

  lemma {:induction false} MembersComplete(s: seq<byte>, off: nat, members: seq<Member>, i: nat, end: nat, depth: nat)
    requires Terminated(s) && MembersAt(s, off + 1, members, i, end)
    requires depth + MembersHeight(members, i) <= NESTING_LIMIT
    ensures off + 1 < |s| && ParseMembers(s, off, depth, members[..i]) == Parsed(Obj(members), end)
    decreases members, |members| - i
  {
    hide Terminated;
    hide ParseMember;
    hide MemberAt;
    hide Height;
    var c: nat :| MemberAt(s, off + 1, members[i], c) && if i + 1 == |members| then ByteAt(s, c, 125) && end == c + 1
                  else ByteAt(s, c, 44) && MembersAt(s, c + 1, members, i + 1, end);
    MemberComplete(s, off, members[i], c, depth);
    assert members[..i] + [members[i]] == members[..i + 1];
    if i + 1 == |members| {
      assert members[..i + 1] == members;
    } else {
      MembersComplete(s, c, members, i + 1, end, depth);
    }
    hide MembersAt;
  }

  // ---- whole texts ----------------------------------------------------

  /** The parser accepts a text with a value and an end exactly when the grammar says so. */
  lemma ParsesExactly(text: CString, requireEnd: bool, v: Value, end: nat)
    ensures Parse(text, requireEnd) == Parsed(v, end) <==> DocumentIs(text, requireEnd, v, end)
  {
    if DocumentIs(text, requireEnd, v, end) { DocumentParses(text, requireEnd, v, end); }
    if Parse(text, requireEnd) == Parsed(v, end) { ParsedIsDocument(text, requireEnd, v, end); }
  }

  /** Where the parser starts differs only for a text that is nothing but a byte order mark. */
  lemma BomIs(s: seq<byte>)
    requires Terminated(s)
    ensures |s| != 4 ==> SkipBom(s) == BomEnd(s) < |s|
    ensures |s| == 4 ==> SkipBom(s) == 0 && (BomEnd(s) == 3 ==> s[0] == 0xEF && s[3] == 0)
    ensures |s| < 4 ==> BomEnd(s) == 0
  {
    if At(s, 0, [0xEF, 0xBB, 0xBF]) { AtFirst(s, 0, [0xEF, 0xBB, 0xBF]); }
  }

  /** A text that is nothing but a byte order mark has no value anywhere. */
  lemma OnlyBom(s: seq<byte>, a: nat, v: Value, b: nat)
    requires Terminated(s) && |s| == 4 && BomEnd(s) == 3
    ensures !ValueAt(s, a, v, b)
  {
    AtEach(s, 0, [0xEF, 0xBB, 0xBF]);
    assert s[0 + 0] == 0xEF && s[0 + 1] == 0xBB && s[0 + 2] == 0xBF && s[3] == 0;
    hide ValueAt;
    hide At;
    if ValueAt(s, a, v, b) { ValueStarts(s, a, v, b); }
  }

  lemma ParsedIsDocument(text: CString, requireEnd: bool, v: Value, end: nat)
    requires Parse(text, requireEnd) == Parsed(v, end)
    ensures DocumentIs(text, requireEnd, v, end)
  {
    hide ParseValue;
    hide ValueAt;
    hide Height;
    hide At;
    hide Skip;
    hide SkipBom;
    var s := text + [0];
    assert Terminated(s) by { assert s[..|s| - 1] == text; }
    hide Terminated;
    hide Gap;
    hide BomEnd;
    var o := SkipBom(s);
    var a := Skip(s, o);
    BomIs(s);
    SkipGap(s, o);
    ValueSound(s, a, 0);
    var r := ParseValue(s, a, 0);
    if |s| == 4 && BomEnd(s) == 3 { OnlyBom(s, a, v, r.off); }
    if requireEnd {
      SkipGap(s, r.off);
    }
  }

  lemma DocumentParses(text: CString, requireEnd: bool, v: Value, end: nat)
    requires DocumentIs(text, requireEnd, v, end)
    ensures Parse(text, requireEnd) == Parsed(v, end)
  {
    hide ParseValue;
    hide ValueAt;
    hide Height;
    hide At;
    hide Skip;
    hide SkipBom;
    var s := text + [0];
    assert Terminated(s) by { assert s[..|s| - 1] == text; }
    hide Terminated;
    hide BomEnd;
    BomIs(s);
    var o := BomEnd(s);
    var a: nat, b: nat :| Gap(s, o, a) && ValueAt(s, a, v, b) && if requireEnd then Gap(s, b, |text|) && end == |text|
                          else end == b;
    if |s| == 4 && BomEnd(s) == 3 { OnlyBom(s, a, v, b); }
    ValueStarts(s, a, v, b);
    GapSkips(s, o, a);
    ValueComplete(s, a, v, b, 0);
    if requireEnd {
      GapToEnd(s, b);
    }
  }

  lemma {:induction false} GapToEnd(s: seq<byte>, p: nat)
    requires |s| > 0 && s[|s| - 1] == 0 && Gap(s, p, |s| - 1)
    ensures Skip(s, p) == |s| - 1
    decreases |s| - p
  {
    if p < |s| - 1 {
      GapToEnd(s, p + 1);
    } else {
      assert SkipTo(s, p) == SkipTo(s, p + 1);
    }
  }
}
