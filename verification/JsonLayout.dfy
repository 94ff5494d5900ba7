/** How the text of a value is laid out (lib/cJSON.c:965-1097, 1691-1761, 1893-2033), byte by byte. */
module JsonLayout {
  import opened Bytes
  import opened JsonValue
  import opened JsonText
  import opened JsonRoundTrip
  import opened JsonNumber
  import opened JsonLiteral

  /** The texts in order, with `sep` between them. */
  function Joined(texts: seq<seq<byte>>, sep: seq<byte>): seq<byte> {
    if texts == [] then [] else if |texts| == 1 then texts[0] else texts[0] + (sep + Joined(texts[1..], sep))
  }

  function ItemTexts(items: seq<Value>, format: bool, depth: nat): seq<seq<byte>>
    requires forall k :: 0 <= k < |items| ==> Printable(items[k])
  {
    seq(|items|, k requires 0 <= k < |items| => Text(items[k], format, depth))
  }

  lemma {:induction false} ItemsJoined(items: seq<Value>, i: nat, format: bool, depth: nat)
    requires i <= |items| && forall k :: 0 <= k < |items| ==> Printable(items[k])
    ensures ItemsText(items, i, format, depth)
         == Joined(ItemTexts(items, format, depth)[i..], if format then [44, 32] else [44])
    decreases |items| - i
  {
    hide Text;
    var texts := ItemTexts(items, format, depth);
    if i < |items| {
      ItemsJoined(items, i + 1, format, depth);
      assert texts[i..][1..] == texts[i + 1..];
      assert texts[i] + [] == texts[i];
      if i + 1 == |items| { assert ItemsText(items, i + 1, format, depth) == []; }
    }
  }

  /** An array: its items in brackets, with a comma between them, and a space behind the comma in formatted text. */
  lemma ArrayLayout(items: seq<Value>, format: bool, depth: nat)
    requires Printable(Arr(items))
    ensures Text(Arr(items), format, depth)
         == [91] + Joined(ItemTexts(items, format, depth + 1), if format then [44, 32] else [44]) + [93]
  {
    ArrayTextShape(items, format, depth);
    hide Text;
    ItemsJoined(items, 0, format, depth + 1);
    var texts := ItemTexts(items, format, depth + 1);
    assert texts[0..] == texts;
  }

  /** The text of one member: in formatted text it is indented, and a tabulator follows the colon. */
  function MemberText(m: Member, format: bool, depth: nat): seq<byte>
    requires Printable(m.value)
  {
    (if format then seq(depth, _ => 9) else [])
    + (StringText(m.key) + ((if format then [58, 9] else [58]) + Text(m.value, format, depth)))
  }

  function MemberTexts(members: seq<Member>, format: bool, depth: nat): seq<seq<byte>>
    requires forall k :: 0 <= k < |members| ==> Printable(members[k].value)
  {
    seq(|members|, k requires 0 <= k < |members| => MemberText(members[k], format, depth))
  }

  lemma {:induction false} MembersJoined(members: seq<Member>, i: nat, format: bool, depth: nat)
    requires i < |members| && forall k :: 0 <= k < |members| ==> Printable(members[k].value)
    ensures MembersText(members, i, format, depth)
         == Joined(MemberTexts(members, format, depth)[i..], if format then [44, 10] else [44])
            + if format then [10] else []
    decreases |members| - i
  {
    hide Text;
    hide StringText;
    var texts := MemberTexts(members, format, depth);
    var sep, last: seq<byte> := if format then [44, 10] else [44], if format then [10] else [];
    var text := texts[i];
    var rest := MembersText(members, i + 1, format, depth);
    MemberJoins(members, i, format, depth, rest);
    hide MembersText;
    hide MemberText;
    hide MemberTexts;
    if i + 1 < |members| {
      MembersJoined(members, i + 1, format, depth);
      assert texts[i..][1..] == texts[i + 1..];
      var more := Joined(texts[i + 1..], sep);
      assert text + (sep + (more + last)) == text + (sep + more) + last;
    } else {
      NoMembersText(members, format, depth);
      assert texts[i..] == [text];
      assert last + [] == last;
    }
  }

  lemma NoMembersText(members: seq<Member>, format: bool, depth: nat)
    requires forall k :: 0 <= k < |members| ==> Printable(members[k].value)
    ensures MembersText(members, |members|, format, depth) == []
  {
  }

  lemma MemberJoins(members: seq<Member>, i: nat, format: bool, depth: nat, rest: seq<byte>)
    requires i < |members| && forall k :: 0 <= k < |members| ==> Printable(members[k].value)
    requires rest == MembersText(members, i + 1, format, depth)
    ensures var sep := if i + 1 < |members| then if format then [44, 10] else [44] else if format then [10] else [];
            MembersText(members, i, format, depth) == MemberText(members[i], format, depth) + (sep + rest)
  {
    hide Text;
    hide StringText;
    hide MembersText;
    MembersTextShape(members, i, format, depth);
    var a: seq<byte> := if format then seq(depth, _ => 9) else [];
    var sep := MemberSeparator(format, i + 1 < |members|);
    var key, colon, value := StringText(members[i].key), KeySeparator(format), Text(members[i].value, format, depth);
    assert Indent(format, depth) == a;
    assert a + (key + (colon + (value + (sep + rest)))) == a + (key + (colon + value)) + (sep + rest);
  }

  /** An object in unformatted text: its members in braces, with a comma between them. */
  lemma ObjectLayout(members: seq<Member>, depth: nat)
    requires Printable(Obj(members))
    ensures Text(Obj(members), false, depth) == [123] + Joined(MemberTexts(members, false, depth + 1), [44]) + [125]
  {
    ObjectTextShape(members, false, depth);
    hide Text;
    var texts := MemberTexts(members, false, depth + 1);
    if members != [] {
      hide MembersText;
      MembersJoined(members, 0, false, depth + 1);
      assert texts[0..] == texts;
    }
  }

  /** In formatted text every member has a line of its own, and the closing brace is indented like the object. */
  lemma FormattedObjectLayout(members: seq<Member>, depth: nat)
    requires Printable(Obj(members))
    ensures Text(Obj(members), true, depth)
         == [123, 10] + Joined(MemberTexts(members, true, depth + 1), [44, 10])
            + (if members == [] then [] else [10]) + seq(depth, _ => 9) + [125]
  {
    ObjectTextShape(members, true, depth);
    hide Text;
    var texts := MemberTexts(members, true, depth + 1);
    var tabs: seq<byte> := seq(depth, _ => 9);
    var inner := Joined(texts, [44, 10]);
    assert ObjectTail(true, depth) == tabs + [125];
    hide ObjectTail;
    if members != [] {
      hide MembersText;
      MembersJoined(members, 0, true, depth + 1);
      assert texts[0..] == texts;
      hide Joined;
      assert [123, 10] + (inner + [10] + (tabs + [125])) == [123, 10] + inner + [10] + tabs + [125];
    }
  }

  // ---- strings and numbers --------------------------------------------

  /** A byte of a string is one part of the literal, which stands for that byte: itself, a short escape, or a \u
      escape with small letters. */
  lemma EscapeLayout(b: byte)
    requires b != 0
    ensures IsPart(Part(Escape(b), [b]))
    ensures |Escape(b)| == 1 <==> b >= 32 && b != 34 && b != 92
    ensures |Escape(b)| == 2 <==> b in {34, 92, 8, 9, 10, 12, 13}
    ensures |Escape(b)| == 6 ==> forall k :: 2 <= k < 6 ==> !(65 <= Escape(b)[k] <= 70)
  {
    var t := Escape(b);
    if |t| == 6 {
      var high, low := b / 16, b % 16;
      assert HexFor(t[2], 0) && HexFor(t[3], 0) && HexFor(t[4], high) && HexFor(t[5], low);
      assert t[2..6] == [t[2], t[3], t[4], t[5]];
      assert UnitFor(t[2..6], b);
      assert Encodes(b, [b]);
    }
  }

  /** A string is its bytes between quotes, each in its own part. */
  lemma {:induction false} StringLayout(s: CString, i: nat)
    requires i <= |s|
    ensures EscapeFrom(s, i) == PartsText(StringParts(s[i..])) && AllParts(StringParts(s[i..]))
    ensures PartsBytes(StringParts(s[i..])) == s[i..]
    decreases |s| - i
  {
    if i < |s| {
      EscapeLayout(s[i]);
      StringLayout(s, i + 1);
      assert StringParts(s[i..])[1..] == StringParts(s[i + 1..]);
      assert s[i..] == [s[i]] + s[i + 1..];
      hide Escape;
      hide IsPart;
    }
  }

  function StringParts(s: seq<byte>): seq<Part> {
    seq(|s|, k requires 0 <= k < |s| => Part(Escape(s[k]), [s[k]]))
  }

  /** A whole number is its decimal digits without leading zeros, behind a minus sign if it is negative. */
  lemma NumberLayout(n: real) returns (digits: seq<byte>)
    requires Printable(Number(n))
    ensures AllDigits(digits) && |digits| > 0 && (|digits| > 1 ==> digits[0] != 48)
    ensures if n < 0.0 then NumberText(n) == [45] + digits && n == -(Decimal(digits) as real)
            else NumberText(n) == digits && n == Decimal(digits) as real
  {
    var m: nat := if n < 0.0 then -n.Floor else n.Floor;
    digits := Digits(m);
    DigitsSpell(m);
  }

  lemma LiteralLayout(format: bool, depth: nat)
    ensures Text(Null, format, depth) == [110, 117, 108, 108]
    ensures Text(False, format, depth) == [102, 97, 108, 115, 101]
    ensures Text(True, format, depth) == [116, 114, 117, 101]
  {
  }
}
