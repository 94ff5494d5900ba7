/** The recursive-descent parser of lib/cJSON.c over a `parse_buffer`, building linked trees of items. */
module JsonParser {
  import opened Bytes
  import opened JsonValue
  import opened JsonText
  import opened JsonItem
  import opened Options
  import opened JsonList
  import opened JsonBuild
  import opened JsonStringParser
  import G = JsonGrammar

  /** An item nothing has been parsed into yet. */
  ghost predicate Blank(item: Item)
    reads item`child, item`kids, item`repr
  {
    item.child == null && item.kids == [] && item.repr == {item}
  }

  /** `parse_buffer` (lib/cJSON.c:303-310) over a NUL-terminated text. */
  class ParseBuffer {
    const content: seq<byte>
    var offset: nat
    var depth: nat

    constructor (text: CString)
      ensures content == text + [0] && offset == 0 && depth == 0
      ensures Readable()
    {
      content := text + [0];
      offset, depth := 0, 0;
      new;
      assert content[..|content| - 1] == text;
    }

    /** The text ends in its terminator, and the position is inside it. */
    predicate Readable()
      reads this`offset
    {
      G.Terminated(content) && offset < |content|
    }

    /** `buffer_skip_whitespace` (lib/cJSON.c:1128-1151). */
    method SkipWhitespace()
      requires Readable()
      modifies this`offset
      ensures offset == G.Skip(content, old(offset)) && Readable()
    {
      while offset < |content| && content[offset] <= SPACE
        invariant old(offset) <= offset <= |content|
        invariant G.SkipTo(content, old(offset)) == G.SkipTo(content, offset)
      {
        offset := offset + 1;
      }
      if offset == |content| {
        offset := offset - 1;
      }
    }

    /** `skip_utf8_bom` (lib/cJSON.c:1154-1168). */
    method SkipUtf8Bom()
      requires Readable() && offset == 0
      modifies this`offset
      ensures offset == G.SkipBom(content) && Readable()
    {
      if 4 < |content| && content[..3] == [0xEF, 0xBB, 0xBF] {
        offset := 3;
      }
    }

    /** The copy loop of `parse_number` (lib/cJSON.c:338-370): at most 63 bytes and a terminator. */
    method CopyNumber(number: array<byte>) returns (n: nat)
      requires Readable() && number.Length == 64
      modifies number
      ensures n < number.Length && number[n] == 0
      ensures number[..n] == content[offset..G.NumberEnd(content, offset, 0)]
    {
      hide G.Terminated;
      ghost var tail := content[offset..];
      n := 0;
      while n < 63 && offset + n < |content| && G.IsNumberByte(content[offset + n])
        invariant 0 <= n <= 63 && offset + n <= |content|
        invariant number[..n] == tail[..n]
        invariant G.NumberEnd(content, offset, 0) == G.NumberEnd(content, offset, n)
      {
        number[n] := content[offset + n];
        OneMore(number[..], tail, n);
        n := n + 1;
      }
      number[n] := 0;
      assert number[..n] == tail[..n] == content[offset..offset + n];
    }

    /** `parse_number` (lib/cJSON.c:321-399). */
    method ParseNumber(item: Item) returns (ok: bool)
      requires Readable() && Blank(item)
      modifies this`offset, item`kind, item`valuedouble, item`val
      ensures ok == G.ParseNumber(content, old(offset)).Parsed?
      ensures offset == G.ParseNumber(content, old(offset)).off
      ensures ok ==> Readable() && item.Valid() && item.val == G.ParseNumber(content, old(offset)).value
    {
      hide G.Strtod;
      var number := new byte[64];
      var n := CopyNumber(number);
      var (value, used) := G.Strtod(number[..n]);
      ghost var result := G.ParseNumber(content, offset);
      assert result == if used == 0 then G.Failed(offset) else G.Parsed(Number(value), offset + used);
      hide G.ParseNumber;
      if used == 0 {
        return false;
      }
      item.valuedouble, item.kind, item.val := value, NumberKind, Number(value);
      offset := offset + used;
      return true;
    }

    /** `parse_string` (lib/cJSON.c:815-963). */
    method ParseString(item: Item) returns (ok: bool)
      requires Readable() && Blank(item)
      modifies this`offset, item`kind, item`valuestring, item`val
      ensures ok == G.ParseString(content, old(offset)).Parsed?
      ensures offset == G.ParseString(content, old(offset)).off
      ensures ok ==> Readable() && item.Valid() && item.val == Str(G.ParseString(content, old(offset)).value)
      ensures ok ==> item.valuestring == Some(G.ParseString(content, old(offset)).value)
    {
      var start := offset + 1;
      if content[offset] != QUOTE {
        offset := start;
        return false;
      }
      var found, end, skipped := FindEnd(content, start);
      if !found {
        offset := start;
        return false;
      }
      var allocationLength := end - offset - skipped;
      Room(start, end);
      var output := new byte[allocationLength + 1];
      var decoded, p, out := DecodeString(content, start, end, output);
      if !decoded {
        offset := p;
        return false;
      }
      var text := UpToNul(output[..out]);
      item.kind, item.valuestring, item.val := StringKind, Some(text), Str(text);
      offset := end + 1;
      return true;
    }

    /** The buffer of the first pass has a non-negative size. */
    lemma Room(start: nat, end: nat)
      requires start <= |content| && G.CloseQuote(content, start) == Some(end)
      ensures G.Skipped(content, start, end) <= end - start
    {
      StartsAreSkipped(content, start, end);
      RoomGrows(content, start, start, end);
    }

    /** `parse_value` (lib/cJSON.c:1426-1494). */
    method ParseValue(item: Item) returns (ok: bool)
      requires Readable() && Blank(item)
      modifies this`offset, this`depth
      modifies item`child, item`kind, item`valuestring, item`valuedouble, item`kids, item`repr, item`val
      ensures ok == G.ParseValue(content, old(offset), old(depth)).Parsed?
      ensures offset == G.ParseValue(content, old(offset), old(depth)).off
      ensures ok ==> Readable() && depth == old(depth) && item.Valid() && fresh(item.repr - {item})
      ensures ok ==> item.val == G.ParseValue(content, old(offset), old(depth)).value
      decreases |content| - offset, 3
    {
      if At(content, offset, NULL_TEXT) {
        item.kind, item.val := NullKind, Null;
        offset := offset + 4;
        return true;
      }
      if At(content, offset, FALSE_TEXT) {
        item.kind, item.val := FalseKind, False;
        offset := offset + 5;
        return true;
      }
      if At(content, offset, TRUE_TEXT) {
        item.kind, item.val := TrueKind, True;
        offset := offset + 4;
        return true;
      }
      if content[offset] == QUOTE {
        ok := ParseString(item);
      } else if G.StartsNumber(content[offset]) {
        ok := ParseNumber(item);
      } else if content[offset] == LEFT_BRACKET {
        ok := ParseArray(item);
      } else if content[offset] == LEFT_BRACE {
        ok := ParseObject(item);
      } else {
        ok := false;
      }
    }

    lemma NotAtEnd()
      requires Readable() && content[offset] != 0
      ensures offset + 1 < |content|
    {
    }

    /** `parse_array` (lib/cJSON.c:1581-1688). */
    method ParseArray(item: Item) returns (ok: bool)
      requires Readable() && Blank(item) && content[offset] == LEFT_BRACKET
      modifies this`offset, this`depth, item`child, item`kind, item`kids, item`repr, item`val
      ensures ok == G.ParseArray(content, old(offset), old(depth)).Parsed?
      ensures offset == G.ParseArray(content, old(offset), old(depth)).off
      ensures ok ==> Readable() && depth == old(depth) && item.Valid() && fresh(item.repr - {item})
      ensures ok ==> item.val == G.ParseArray(content, old(offset), old(depth)).value
      decreases |content| - offset, 2
    {
      hide G.ParseItems;
      hide G.Terminated;
      hide Growing;
      hide Forest;
      hide Linked;
      hide Chain;
      hide ItemsMatch;
      hide Item.Valid;
      if depth >= NESTING_LIMIT { return false; }
      NotAtEnd();
      depth := depth + 1;
      offset := offset + 1;
      SkipWhitespace();
      var head: Item? := null;
      var last: Item? := null;
      ghost var values: seq<Value> := [];
      NothingYet(item);
      EmptyMatch();
      if content[offset] != RIGHT_BRACKET {
        offset := offset - 1;
        ok, head, last, values := ParseItems(item);
        if !ok { return; }
      }
      depth := depth - 1;
      GrowingDistinct(item);
      FinishArray(item, head, last, values);
      offset := offset + 1;
      return true;
    }

    /** One turn of the item loop (lib/cJSON.c:1645-1654). */
    method ParseItem(item: Item) returns (ok: bool)
      requires G.Terminated(content) && offset + 1 < |content| && Blank(item)
      modifies this`offset, this`depth
      modifies item`child, item`kind, item`valuestring, item`valuedouble, item`kids, item`repr, item`val
      ensures ok == G.ParseItem(content, old(offset), old(depth)).Parsed?
      ensures offset == G.ParseItem(content, old(offset), old(depth)).off
      ensures ok ==> Readable() && depth == old(depth) && item.Valid() && fresh(item.repr - {item})
      ensures ok ==> item.val == G.ParseItem(content, old(offset), old(depth)).value
      decreases |content| - offset, 0
    {
      hide G.ParseValue;
      offset := offset + 1;
      SkipWhitespace();
      ok := ParseValue(item);
      if ok { SkipWhitespace(); }
    }

    /** The item loop of `parse_array` (lib/cJSON.c:1621-1663), starting just in front of the first item. */
    method ParseItems(item: Item) returns (ok: bool, head: Item?, last: Item?, ghost values: seq<Value>)
      requires G.Terminated(content) && offset + 1 < |content| && item.kids == [] && item.repr == {item}
      modifies this`offset, this`depth, item`kids, item`repr
      ensures ok == G.ParseItems(content, old(offset), old(depth), []).Parsed?
      ensures ok ==> G.ParseItems(content, old(offset), old(depth), []) == G.Parsed(Arr(values), offset + 1)
      ensures !ok ==> offset == G.ParseItems(content, old(offset), old(depth), []).off
      ensures ok ==> Readable() && depth == old(depth)
      ensures ok ==> item in item.repr && fresh(item.repr - {item}) && Growing(item) && ItemsMatch(item.kids, values)
      ensures ok ==> item.kids != [] && head == item.kids[0] && last == item.kids[|item.kids| - 1]
      decreases |content| - offset, 1
    {
      hide G.ParseItem;
      hide G.Terminated;
      hide Growing;
      hide Forest;
      hide Chain;
      hide ItemsMatch;
      hide Item.Valid;
      head, last, values := null, null, [];
      NothingYet(item);
      EmptyMatch();
      var more := true;
      while more
        invariant G.Terminated(content) && offset < |content| && (more ==> offset + 1 < |content|)
        invariant old(offset) <= offset && depth == old(depth)
        invariant item in item.repr && fresh(item.repr - {item}) && Growing(item) && ItemsMatch(item.kids, values)
        invariant if item.kids == [] then head == null && more
                  else head == item.kids[0] && last == item.kids[|item.kids| - 1]
        invariant G.ParseItems(content, old(offset), old(depth), []) ==
                  if more then G.ParseItems(content, offset, depth, values)
                  else if content[offset] == RIGHT_BRACKET then G.Parsed(Arr(values), offset + 1) else G.Failed(offset)
        decreases more, |content| - offset
      {
        var newItem := new Item();
        GrowingDistinct(item);
        head := LinkNew(item, head, last, newItem);
        last := newItem;
        ok := ParseItem(newItem);
        if !ok { return; }
        MatchAppended(item.kids, values, newItem);
        Enter(item, newItem);
        values := values + [newItem.val];
        more := offset < |content| && content[offset] == COMMA;
        if more { NotAtEnd(); }
      }
      ok := offset < |content| && content[offset] == RIGHT_BRACKET;
    }

    /** `parse_object` (lib/cJSON.c:1764-1890). */
    method ParseObject(item: Item) returns (ok: bool)
      requires Readable() && Blank(item) && content[offset] == LEFT_BRACE
      modifies this`offset, this`depth, item`child, item`kind, item`kids, item`repr, item`val
      ensures ok == G.ParseObject(content, old(offset), old(depth)).Parsed?
      ensures offset == G.ParseObject(content, old(offset), old(depth)).off
      ensures ok ==> Readable() && depth == old(depth) && item.Valid() && fresh(item.repr - {item})
      ensures ok ==> item.val == G.ParseObject(content, old(offset), old(depth)).value
      decreases |content| - offset, 2
    {
      hide G.ParseMembers;
      hide G.Terminated;
      hide Growing;
      hide Forest;
      hide Linked;
      hide Chain;
      hide MembersMatch;
      hide Item.Valid;
      if depth >= NESTING_LIMIT { return false; }
      NotAtEnd();
      depth := depth + 1;
      offset := offset + 1;
      SkipWhitespace();
      var head: Item? := null;
      var last: Item? := null;
      ghost var members: seq<Member> := [];
      NothingYet(item);
      EmptyMatch();
      if content[offset] != RIGHT_BRACE {
        offset := offset - 1;
        ok, head, last, members := ParseMembers(item);
        if !ok { return; }
      }
      depth := depth - 1;
      GrowingDistinct(item);
      FinishObject(item, head, last, members);
      offset := offset + 1;
      return true;
    }

    /** One turn of the member loop: key, colon and value (lib/cJSON.c:1827-1857). */
    method ParseMember(item: Item) returns (ok: bool)
      requires G.Terminated(content) && offset + 1 < |content| && Blank(item)
      modifies this`offset, this`depth
      modifies item`child, item`kind, item`valuestring, item`valuedouble, item`key, item`kids, item`repr, item`val
      ensures ok == G.ParseMember(content, old(offset), old(depth)).Parsed?
      ensures offset == G.ParseMember(content, old(offset), old(depth)).off
      ensures ok ==> Readable() && depth == old(depth) && item.Valid() && fresh(item.repr - {item}) && item.key.Some?
      ensures ok ==> Member(item.key.value, item.val) == G.ParseMember(content, old(offset), old(depth)).value
      decreases |content| - offset, 0
    {
      hide G.ParseValue;
      hide G.ParseString;
      hide G.Terminated;
      hide G.Skip;
      hide Item.Valid;
      offset := offset + 1;
      SkipWhitespace();
      ok := ParseString(item);
      if !ok { return; }
      SkipWhitespace();
      item.key, item.valuestring := item.valuestring, None;
      if !(offset < |content| && content[offset] == COLON) { return false; }
      NotAtEnd();
      offset := offset + 1;
      SkipWhitespace();
      ok := ParseValue(item);
      if ok { SkipWhitespace(); }
    }

    /** The member loop of `parse_object` (lib/cJSON.c:1803-1866), starting just in front of the first member. */
    method ParseMembers(item: Item) returns (ok: bool, head: Item?, last: Item?, ghost members: seq<Member>)
      requires G.Terminated(content) && offset + 1 < |content| && item.kids == [] && item.repr == {item}
      modifies this`offset, this`depth, item`kids, item`repr
      ensures ok == G.ParseMembers(content, old(offset), old(depth), []).Parsed?
      ensures ok ==> G.ParseMembers(content, old(offset), old(depth), []) == G.Parsed(Obj(members), offset + 1)
      ensures !ok ==> offset == G.ParseMembers(content, old(offset), old(depth), []).off
      ensures ok ==> Readable() && depth == old(depth)
      ensures ok ==> item in item.repr && fresh(item.repr - {item}) && Growing(item) && MembersMatch(item.kids, members)
      ensures ok ==> item.kids != [] && head == item.kids[0] && last == item.kids[|item.kids| - 1]
      decreases |content| - offset, 1
    {
      hide G.ParseMember;
      hide G.Terminated;
      hide Growing;
      hide Forest;
      hide Chain;
      hide MembersMatch;
      hide Item.Valid;
      head, last, members := null, null, [];
      NothingYet(item);
      EmptyMatch();
      var more := true;
      while more
        invariant G.Terminated(content) && offset < |content| && (more ==> offset + 1 < |content|)
        invariant old(offset) <= offset && depth == old(depth)
        invariant item in item.repr && fresh(item.repr - {item}) && Growing(item) && MembersMatch(item.kids, members)
        invariant if item.kids == [] then head == null && more
                  else head == item.kids[0] && last == item.kids[|item.kids| - 1]
        invariant G.ParseMembers(content, old(offset), old(depth), []) ==
                  if more then G.ParseMembers(content, offset, depth, members)
                  else if content[offset] == RIGHT_BRACE then G.Parsed(Obj(members), offset + 1) else G.Failed(offset)
        decreases more, |content| - offset
      {
        var newItem := new Item();
        GrowingDistinct(item);
        head := LinkNew(item, head, last, newItem);
        last := newItem;
        ok := ParseMember(newItem);
        if !ok { return; }
        MembersAppended(item.kids, members, newItem);
        Enter(item, newItem);
        members := members + [Member(newItem.key.value, newItem.val)];
        more := offset < |content| && content[offset] == COMMA;
        if more { NotAtEnd(); }
      }
      ok := offset < |content| && content[offset] == RIGHT_BRACE;
    }
  }

  /** `cJSON_ParseWithOpts` (lib/cJSON.c:1170-1272): the tree, or null, and the offset reported to the caller. */
  method ParseWithOpts(text: CString, requireEnd: bool) returns (item: Item?, end: nat)
    ensures item != null <==> G.Parse(text, requireEnd).Parsed?
    ensures end == G.Parse(text, requireEnd).off
    ensures item != null ==> fresh(item.repr) && item.Valid() && item.val == G.Parse(text, requireEnd).value
    ensures item != null ==> item.next == null && item.prev == null && item.key == None
  {
    hide G.ParseValue;
    hide G.Terminated;
    hide Item.Valid;
    var buffer := new ParseBuffer(text);
    var root := new Item();
    buffer.SkipUtf8Bom();
    buffer.SkipWhitespace();
    var ok := buffer.ParseValue(root);
    if ok && requireEnd {
      buffer.SkipWhitespace();
      ok := buffer.content[buffer.offset] == 0;
    }
    if !ok {
      return null, if buffer.offset < |buffer.content| then buffer.offset else |buffer.content| - 1;
    }
    return root, buffer.offset;
  }

  lemma OneMore(copy: seq<byte>, s: seq<byte>, n: nat)
    requires n < |copy| && n < |s| && copy[..n] == s[..n] && copy[n] == s[n]
    ensures copy[..n + 1] == s[..n + 1]
  {
    assert copy[..n + 1] == copy[..n] + [copy[n]];
  }
}
