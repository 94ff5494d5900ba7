/** The printer of lib/cJSON.c over a `printbuffer` that grows, or must not. */
module JsonPrinter {
  import opened Sequences
  import opened Bytes
  import opened JsonValue
  import opened JsonText
  import opened JsonItem
  import opened Options
  import opened JsonList
  import opened JsonBuild

  const INT_MAX := 0x7FFFFFFF

  /** `printbuffer` (lib/cJSON.c:454-463). `length` may be less than the size of a caller's array. */
  class PrintBuffer {
    var buffer: array<byte>
    var length: nat
    var offset: nat
    var depth: nat
    const noalloc: bool
    const format: bool
    const canReallocate: bool

    /** The position is inside the buffer; a buffer that grows by copying is not empty. */
    predicate Valid()
      reads this`buffer, this`length, this`offset
    {
      length <= buffer.Length && length <= INT_MAX && (offset < length || (offset == 0 && length == 0)) &&
      (noalloc || canReallocate || length > 0)
    }

    /** The text printed so far. */
    ghost function Printed(): seq<byte>
      reads this`buffer, this`offset, buffer
      requires offset <= buffer.Length
    {
      buffer[..offset]
    }

    /** The largest text, with its two spare bytes, that this buffer can ever hold. */
    function Capacity(): nat
      reads this`length
    {
      if noalloc then length else INT_MAX
    }

    /** The buffer starts with `t`, terminated; the position may lag behind. */
    ghost predicate Ends(t: seq<byte>)
      reads this`buffer, this`length, this`offset, buffer
    {
      offset <= |t| < length <= buffer.Length && buffer[..|t|] == t && buffer[|t|] == 0
    }

    constructor (buffer: array<byte>, length: nat, noalloc: bool, format: bool, canReallocate: bool)
      requires length <= buffer.Length && length <= INT_MAX && (noalloc || canReallocate || length > 0)
      ensures this.buffer == buffer && this.length == length && this.noalloc == noalloc && this.format == format
      ensures offset == 0 && depth == 0 && Valid()
    {
      this.buffer, this.length, this.offset, this.depth := buffer, length, 0, 0;
      this.noalloc, this.format, this.canReallocate := noalloc, format, canReallocate;
    }

    /** `ensure` (lib/cJSON.c:466-554). It succeeds exactly when the bytes fit into the capacity, and growing
        keeps what was printed. */
    method Ensure(needed: nat) returns (ok: bool)
      requires Valid()
      modifies this`buffer, this`length
      ensures Valid() && ok == (offset + needed + 1 <= Capacity())
      ensures ok ==> offset + needed + 1 <= length
      ensures Printed() == old(Printed())
      ensures noalloc ==> buffer == old(buffer) && length == old(length)
      ensures buffer == old(buffer) || fresh(buffer)
      ensures Capacity() == old(Capacity())
    {
      if length > 0 && offset >= length { return false; }
      if needed > INT_MAX { return false; }
      var total := needed + offset + 1;
      if total <= length { return true; }
      if noalloc { return false; }
      var newSize;
      if total > INT_MAX / 2 {
        if total <= INT_MAX {
          newSize := INT_MAX;
        } else {
          return false;
        }
      } else {
        newSize := total * 2;
      }
      var source := buffer;
      var newBuffer := Copy(source, if canReallocate then length else offset + 1, newSize);
      assert newBuffer[..offset] == source[..offset];
      buffer, length := newBuffer, newSize;
      return true;
    }

    /** A new allocation that starts with the first `keep` bytes of the old one (lib/cJSON.c:518-548). */
    static method Copy(source: array<byte>, keep: nat, size: nat) returns (target: array<byte>)
      requires keep <= source.Length && keep <= size
      ensures fresh(target) && target.Length == size
      ensures forall i :: 0 <= i < keep ==> target[i] == source[i]
    {
      target := new byte[size];
      for i := 0 to keep
        invariant forall k :: 0 <= k < i ==> target[k] == source[k]
      {
        target[i] := source[i];
      }
    }

    /** `update_offset` (lib/cJSON.c:557-569). */
    method UpdateOffset(ghost before: seq<byte>, ghost t: CString)
      requires Valid() && Ends(before + t) && |before| <= offset
      modifies this`offset
      ensures Valid() && Printed() == before + t
    {
      ghost var text := before + t;
      while buffer[offset] != 0
        invariant |before| <= offset <= |text|
        decreases |text| - offset
      {
        offset := offset + 1;
      }
    }

    /** Writes bytes at the position, as the `strcpy` calls and the `*output_pointer++` sequences do. */
    method Store(t: seq<byte>)
      requires Valid() && offset + |t| <= length
      modifies buffer
      ensures buffer[..offset + |t|] == old(Printed()) + t
      ensures forall k :: offset + |t| <= k < buffer.Length ==> buffer[k] == old(buffer[k])
    {
      for i := 0 to |t|
        invariant buffer[..offset + i] == old(Printed()) + t[..i]
        invariant forall k :: offset + i <= k < buffer.Length ==> buffer[k] == old(buffer[k])
      {
        buffer[offset + i] := t[i];
        assert buffer[..offset + i + 1] == buffer[..offset + i] + [t[i]];
        assert old(Printed()) + t[..i] + [t[i]] == old(Printed()) + t[..i + 1];
      }
      assert t[..|t|] == t;
    }

    /** What every print step respects, whether it succeeds or not: a buffer that must not grow stays the same,
        and nothing behind its length is written. */
    twostate predicate Kept()
      reads this, buffer
    {
      (buffer == old(buffer) || fresh(buffer)) && length <= buffer.Length &&
      (noalloc ==> buffer == old(buffer) && length == old(length)
                   && forall i :: length <= i < buffer.Length ==> buffer[i] == old(buffer[i]))
    }

    /** Prints a whole leaf: the text and its terminator (lib/cJSON.c:1509-1540, 623-646). */
    method PrintLeaf(t: CString) returns (ok: bool)
      requires Valid()
      modifies this`buffer, this`length, buffer
      ensures ok == (offset + |t| + 2 <= Capacity())
      ensures Capacity() == old(Capacity())
      ensures ok ==> Valid() && Ends(old(Printed()) + t)
      ensures Kept()
    {
      ok := Ensure(|t| + 1);
      if ok {
        Store(t + [0]);
        assert buffer[..offset + |t|] == buffer[..offset + |t| + 1][..offset + |t|];
        assert buffer[offset + |t|] == buffer[..offset + |t| + 1][offset + |t|];
      }
    }

    // ---- strings ------------------------------------------------------

    /** How many extra characters the escapes need (lib/cJSON.c:997-1021). */
    method CountEscapes(s: CString) returns (extra: nat)
      ensures |s| + extra == |EscapeFrom(s, 0)|
      ensures extra == 0 ==> EscapeFrom(s, 0) == s
    {
      hide Escape;
      extra := 0;
      var i := 0;
      while i < |s|
        invariant 0 <= i <= |s|
        invariant i + extra + |EscapeFrom(s, i)| == |EscapeFrom(s, 0)|
        invariant extra == 0 ==> EscapeFrom(s, 0) == s[..i] + EscapeFrom(s, i)
      {
        var c := s[i];
        EscapeLength(c);
        Regroup(s[..i], Escape(c), EscapeFrom(s, i + 1));
        if c == QUOTE || c == BACKSLASH || c == BACKSPACE || c == FORM_FEED || c == NEWLINE || c == RETURN || c == TAB {
          extra := extra + 1;
        } else if c < 32 {
          extra := extra + 5;
        }
        i := i + 1;
        assert s[..i] == s[..i - 1] + [c];
      }
      assert s[..i] == s;
    }

    /** `print_string_ptr` (lib/cJSON.c:966-1104): the closing quote and the terminator are written last. */
    method PrintString(s: CString) returns (ok: bool)
      requires Valid()
      modifies this`buffer, this`length, buffer
      ensures ok == (offset + |StringText(s)| + 2 <= Capacity())
      ensures Capacity() == old(Capacity())
      ensures ok ==> Valid() && Ends(old(Printed()) + StringText(s))
      ensures Kept()
    {
      hide EscapeFrom;
      hide NoNul;
      var extra := CountEscapes(s);
      var outputLength := |s| + extra;
      ok := Ensure(outputLength + 3);
      if !ok { return; }
      ghost var start := Printed();
      FillString(s, extra);
      assert start + ([QUOTE] + EscapeFrom(s, 0)) + [QUOTE] == start + StringText(s);
      hide StringText;
      CloseString(start + StringText(s), offset + outputLength + 1);
    }

    /** The opening quote and the contents: a plain copy when nothing needs an escape. */
    method FillString(s: CString, extra: nat)
      requires Valid() && |s| + extra == |EscapeFrom(s, 0)| && (extra == 0 ==> EscapeFrom(s, 0) == s)
      requires offset + |EscapeFrom(s, 0)| + 4 <= length
      modifies buffer
      ensures buffer[..offset + 1 + |EscapeFrom(s, 0)|] == old(Printed()) + ([QUOTE] + EscapeFrom(s, 0))
      ensures forall k :: length <= k < buffer.Length ==> buffer[k] == old(buffer[k])
    {
      hide EscapeFrom;
      hide NoNul;
      if extra == 0 {
        Store([QUOTE] + s);
      } else {
        CopyEscaped(s);
      }
    }

    /** Writes one byte of a string at `p`, escaped if need be (lib/cJSON.c:1050-1097). The `sprintf` of a \\u escape
        also writes a terminator, which the next byte overwrites. */
    method PutEscaped(c: byte, p: nat) returns (next: nat)
      requires length <= buffer.Length && p + |Escape(c)| < length
      modifies buffer
      ensures next == p + |Escape(c)| && buffer[..next] == old(buffer[..p]) + Escape(c)
      ensures forall k :: length <= k < buffer.Length ==> buffer[k] == old(buffer[k])
    {
      if c > 31 && c != QUOTE && c != BACKSLASH {
        buffer[p] := c;
        next := p + 1;
      } else {
        buffer[p] := BACKSLASH;
        next := p + 2;
        if c == BACKSLASH { buffer[p + 1] := BACKSLASH; }
        else if c == QUOTE { buffer[p + 1] := QUOTE; }
        else if c == BACKSPACE { buffer[p + 1] := LOWER_B; }
        else if c == FORM_FEED { buffer[p + 1] := LOWER_F; }
        else if c == NEWLINE { buffer[p + 1] := LOWER_N; }
        else if c == RETURN { buffer[p + 1] := LOWER_R; }
        else if c == TAB { buffer[p + 1] := LOWER_T; }
        else {
          buffer[p + 1], buffer[p + 2], buffer[p + 3] := LOWER_U, DIGIT_0, DIGIT_0;
          buffer[p + 4], buffer[p + 5], buffer[p + 6] := HexDigit(c / 16), HexDigit(c % 16), 0;
          next := p + 6;
        }
      }
    }

    /** The copy loop of `print_string_ptr` (lib/cJSON.c:1043-1098). */
    method CopyEscaped(s: CString)
      requires Valid() && offset + |EscapeFrom(s, 0)| + 4 <= length
      modifies buffer
      ensures buffer[..offset + 1 + |EscapeFrom(s, 0)|] == old(Printed()) + ([QUOTE] + EscapeFrom(s, 0))
      ensures forall k :: length <= k < buffer.Length ==> buffer[k] == old(buffer[k])
    {
      hide Escape;
      hide NoNul;
      ghost var start := Printed();
      buffer[offset] := QUOTE;
      var p := offset + 1;
      ghost var done: seq<byte> := [QUOTE];
      assert buffer[..p] == start + done;
      for i := 0 to |s|
        invariant p == offset + |done|
        invariant done + EscapeFrom(s, i) == [QUOTE] + EscapeFrom(s, 0)
        invariant buffer[..p] == start + done
        invariant forall k :: length <= k < buffer.Length ==> buffer[k] == old(buffer[k])
      {
        assert done + EscapeFrom(s, i) == done + Escape(s[i]) + EscapeFrom(s, i + 1);
        p := PutEscaped(s[i], p);
        assert start + done + Escape(s[i]) == start + (done + Escape(s[i]));
        done := done + Escape(s[i]);
      }
      assert done + [] == done;
    }

    /** Closes a string: the quote and the terminator. */
    method CloseString(ghost t: seq<byte>, e: nat)
      requires Valid() && t != [] && offset <= e && e + 2 <= length
      requires buffer[..e] + [QUOTE] == t
      modifies buffer
      ensures Ends(t)
      ensures forall k :: length <= k < buffer.Length ==> buffer[k] == old(buffer[k])
    {
      buffer[e] := QUOTE;
      buffer[e + 1] := 0;
      assert buffer[..e + 1] == old(buffer[..e]) + [QUOTE];
    }

    // ---- values -------------------------------------------------------

    /** Adds `t` to the text; room for `spare` more bytes is demanded, and a terminator may be written into it. */
    method Append(t: CString, spare: nat, terminate: bool) returns (ok: bool)
      requires Valid() && (terminate ==> spare > 0)
      modifies this`buffer, this`length, this`offset, buffer
      ensures ok == (old(offset) + |t| + spare + 1 <= Capacity())
      ensures Capacity() == old(Capacity())
      ensures ok ==> Valid() && Printed() == old(Printed()) + t
      ensures Kept()
    {
      ok := Ensure(|t| + spare);
      if ok {
        Store(if terminate then t + [0] else t);
        ghost var e := offset + |t|;
        assert buffer[..e] == buffer[..offset + |if terminate then t + [0] else t|][..e];
        offset := offset + |t|;
      }
    }

    /** `print_number` (lib/cJSON.c:579-649) of a whole number: the position moves behind the text, but not over the
        terminator. */
    method PrintNumber(d: real) returns (ok: bool)
      requires Valid() && Printable(Number(d))
      modifies this`buffer, this`length, this`offset, buffer
      ensures ok == (old(offset) + |NumberText(d)| + 2 <= Capacity())
      ensures Capacity() == old(Capacity())
      ensures ok ==> Valid() && offset == old(offset) + |NumberText(d)| && Ends(old(Printed()) + NumberText(d))
      ensures Kept()
    {
      ghost var before := Printed();
      var numberBuffer := NumberText(d);
      ok := PrintLeaf(numberBuffer);
      if ok {
        assert |before + numberBuffer| == offset + |numberBuffer|;
        offset := offset + |numberBuffer|;
      }
    }

    /** `print_value` (lib/cJSON.c:1497-1578): succeeds exactly when the text and two more bytes fit. */
    method PrintValue(item: Item) returns (ok: bool)
      requires Valid() && item.Valid() && Printable(item.val)
      modifies this`buffer, this`length, this`offset, this`depth, buffer
      ensures ok == (old(offset) + |Text(item.val, format, old(depth))| + 2 <= Capacity())
      ensures Capacity() == old(Capacity())
      ensures ok ==>
              Valid() && depth == old(depth) && old(offset) <= offset &&
                Ends(old(Printed()) + Text(item.val, format, old(depth)))
      ensures Kept()
      decreases item.repr, 3
    {
      match item.kind
      case NullKind => ok := PrintLeaf(NULL_TEXT);
      case FalseKind => ok := PrintLeaf(FALSE_TEXT);
      case TrueKind => ok := PrintLeaf(TRUE_TEXT);
      case NumberKind => ok := PrintNumber(item.valuedouble);
      case StringKind => ok := PrintString(item.valuestring.value);
      case ArrayKind => ok := PrintArray(item);
      case ObjectKind => ok := PrintObject(item);
    }

    /** `print_array` (lib/cJSON.c:1691-1761). */
    method PrintArray(item: Item) returns (ok: bool)
      requires Valid() && item.Valid() && item.kind == ArrayKind && Printable(item.val)
      modifies this`buffer, this`length, this`offset, this`depth, buffer
      ensures ok == (old(offset) + |Text(item.val, format, old(depth))| + 2 <= Capacity())
      ensures Capacity() == old(Capacity())
      ensures ok ==>
              Valid() && depth == old(depth) && old(offset) <= offset &&
                Ends(old(Printed()) + Text(item.val, format, old(depth)))
      ensures Kept()
      decreases item.repr, 2
    {
      hide Text;
      hide ItemsText;
      hide Item.Valid;
      hide Printable;
      hide Ends;
      ArrayText(item, Printed(), format, depth);
      ok := Append([LEFT_BRACKET], 0, false);
      if !ok { return; }
      depth := depth + 1;
      ok := PrintItems(item);
      if !ok { return; }
      ok := PrintLeaf([RIGHT_BRACKET]);
      depth := depth - 1;
    }

    /** The element loop of `print_array` (lib/cJSON.c:1716-1747). */
    method PrintItems(item: Item) returns (ok: bool)
      requires Valid() && item.Valid() && item.kind == ArrayKind && Printable(item.val)
      modifies this`buffer, this`length, this`offset, this`depth, buffer
      ensures var text := ItemsText(item.val.items, 0, format, old(depth));
              ok == (item.val.items == [] || old(offset) + |text| + 2 <= Capacity())
      ensures Capacity() == old(Capacity())
      ensures ok ==> Valid() && depth == old(depth)
      ensures ok ==> Printed() == old(Printed()) + ItemsText(item.val.items, 0, format, old(depth))
      ensures Kept()
      decreases item.repr, 1
    {
      hide Item.Valid;
      hide Text;
      hide ItemsText;
      FirstKid(item);
      ok := true;
      var current := item.child;
      ghost var i := 0;
      ArrayLength(item);
      ghost var items := item.val.items;
      ghost var text := old(Printed()) + ItemsText(items, 0, format, depth);
      while current != null
        invariant 0 <= i <= |items| && ok && item.Valid()
        invariant current == if i < |items| then item.kids[i] else null
        invariant Valid() && depth == old(depth) && Printed() + ItemsText(items, i, format, depth) == text
        invariant i > 0 ==> offset + 2 <= Capacity()
        invariant Capacity() == old(Capacity()) && Kept()
        decreases |items| - i
      {
        KidAt(item, i);
        ItemsSplit(Printed(), items, i, format, depth);
        ok := PrintItem(current, current.next != null);
        if !ok { return; }
        current := current.next;
        i := i + 1;
      }
      NoItemsLeft(items, i, format, depth);
    }

    /** One element and the separator behind it (lib/cJSON.c:1718-1744). */
    method PrintItem(item: Item, more: bool) returns (ok: bool)
      requires Valid() && item.Valid() && Printable(item.val)
      modifies this`buffer, this`length, this`offset, this`depth, buffer
      ensures var text := Text(item.val, format, old(depth)) + ItemSeparator(format, more);
              ok == (old(offset) + |text| + 2 <= Capacity()) &&
              (ok ==> Valid() && depth == old(depth) && Printed() == old(Printed()) + text)
      ensures Capacity() == old(Capacity())
      ensures Kept()
      decreases item.repr, 4
    {
      hide Item.Valid;
      hide Text;
      ghost var before := Printed();
      ghost var text := Text(item.val, format, depth);
      ok := PrintValue(item);
      if !ok { return; }
      UpdateOffset(before, text);
      if more {
        ok := Append(ItemSeparator(format, true), 1, true);
        assert before + text + ItemSeparator(format, true) == before + (text + ItemSeparator(format, true));
      }
    }

    /** `print_object` (lib/cJSON.c:1893-2027). */
    method PrintObject(item: Item) returns (ok: bool)
      requires Valid() && item.Valid() && item.kind == ObjectKind && Printable(item.val)
      modifies this`buffer, this`length, this`offset, this`depth, buffer
      ensures ok == (old(offset) + |Text(item.val, format, old(depth))| + 2 <= Capacity())
      ensures Capacity() == old(Capacity())
      ensures ok ==>
              Valid() && depth == old(depth) && old(offset) <= offset &&
                Ends(old(Printed()) + Text(item.val, format, old(depth)))
      ensures Kept()
      decreases item.repr, 2
    {
      hide Text;
      hide MembersText;
      hide ObjectHead;
      hide ObjectTail;
      hide Item.Valid;
      hide Printable;
      hide Ends;
      ObjectText(item, Printed(), format, depth);
      ok := Append(ObjectHead(format), 1, false);
      if !ok { return; }
      depth := depth + 1;
      ok := PrintMembers(item);
      if !ok { return; }
      ok := PrintLeaf(ObjectTail(format, depth - 1));
      depth := depth - 1;
    }

    /** The member loop of `print_object` (lib/cJSON.c:1924-2002). */
    method PrintMembers(item: Item) returns (ok: bool)
      requires Valid() && item.Valid() && item.kind == ObjectKind && Printable(item.val)
      modifies this`buffer, this`length, this`offset, this`depth, buffer
      ensures var text := MembersText(item.val.members, 0, format, old(depth));
              ok == (item.val.members == [] || old(offset) + |text| + 2 <= Capacity())
      ensures Capacity() == old(Capacity())
      ensures ok ==> Valid() && depth == old(depth)
      ensures ok ==> Printed() == old(Printed()) + MembersText(item.val.members, 0, format, old(depth))
      ensures Kept()
      decreases item.repr, 1
    {
      hide Item.Valid;
      hide MembersText;
      hide MemberText;
      FirstKid(item);
      ok := true;
      var current := item.child;
      ghost var i := 0;
      ObjectLength(item);
      ghost var members := item.val.members;
      ghost var text := old(Printed()) + MembersText(members, 0, format, depth);
      while current != null
        invariant 0 <= i <= |members| && ok && item.Valid()
        invariant current == if i < |members| then item.kids[i] else null
        invariant Valid() && depth == old(depth) && Printed() + MembersText(members, i, format, depth) == text
        invariant i > 0 ==> offset + 2 <= Capacity()
        invariant Capacity() == old(Capacity()) && Kept()
        decreases |members| - i
      {
        KidAt(item, i);
        MembersSplit(Printed(), members, i, format, depth);
        ok := PrintMember(current, current.next != null);
        if !ok { return; }
        current := current.next;
        i := i + 1;
      }
      NoMembersLeft(members, i, format, depth);
    }

    /** One member: indentation, key, colon, value and separator (lib/cJSON.c:1926-1999). */
    method PrintMember(item: Item, more: bool) returns (ok: bool)
      requires Valid() && item.Valid() && Printable(item.val) && item.key.Some?
      modifies this`buffer, this`length, this`offset, this`depth, buffer
      ensures var text := MemberText(Member(item.key.value, item.val), format, old(depth), more);
              ok == (old(offset) + |text| + 2 <= Capacity()) &&
              (ok ==> Valid() && depth == old(depth) && Printed() == old(Printed()) + text)
      ensures Capacity() == old(Capacity())
      ensures Kept()
      decreases item.repr, 4
    {
      hide Item.Valid;
      hide Text;
      hide StringText;
      hide Indent;
      hide KeySeparator;
      hide MemberSeparator;
      ok := PrintKey(item.key.value);
      if !ok { return; }
      ghost var before := Printed();
      ghost var text := Text(item.val, format, depth);
      ok := PrintValue(item);
      if !ok { return; }
      UpdateOffset(before, text);
      ok := Append(MemberSeparator(format, more), 1, true);
    }

    /** Indentation, key and colon (lib/cJSON.c:1926-1968). */
    method PrintKey(key: CString) returns (ok: bool)
      requires Valid()
      modifies this`buffer, this`length, this`offset, buffer
      ensures var text := KeyText(key, format, depth);
              ok == (old(offset) + |text| + 1 <= Capacity()) && (ok ==> Valid() && Printed() == old(Printed()) + text)
      ensures Capacity() == old(Capacity())
      ensures Kept()
    {
      hide StringText;
      hide Indent;
      ok := true;
      if format {
        ok := Append(Indent(format, depth), 0, false);
        if !ok { return; }
      }
      NoIndent(format, depth);
      ghost var before := Printed();
      ok := PrintString(key);
      if !ok { return; }
      UpdateOffset(before, StringText(key));
      ok := Append(KeySeparator(format), 0, false);
    }
  }

  // ---- entry points -----------------------------------------------------

  /** `print` (lib/cJSON.c:1288-1360), behind `cJSON_Print` and `cJSON_PrintUnformatted`: a buffer of exactly the
      text and its terminator, whenever text and spare bytes fit an `int`. */
  method Print(item: Item, format: bool, canReallocate: bool) returns (printed: array?<byte>)
    requires item.Valid() && Printable(item.val)
    ensures printed != null <==> |Text(item.val, format, 0)| + 2 <= 2147483647
    ensures printed != null ==> fresh(printed) && printed[..] == Text(item.val, format, 0) + [0]
  {
    hide Text;
    hide Item.Valid;
    hide Printable;
    ghost var text := Text(item.val, format, 0);
    var start := new byte[256];
    var p := new PrintBuffer(start, 256, false, format, canReallocate);
    assert p.Printed() == [];
    var ok := p.PrintValue(item);
    if !ok { return null; }
    assert [] + text == text;
    p.UpdateOffset([], text);
    var size := p.offset + 1;
    var result := PrintBuffer.Copy(p.buffer, size, size);
    result[p.offset] := 0;
    assert result[..p.offset] == p.buffer[..p.offset];
    assert result[..] == result[..p.offset] + [0];
    return result;
  }

  /** `cJSON_PrintPreallocated` (lib/cJSON.c:1405-1423): it succeeds exactly when the length allows for the text
      and two more bytes, and never writes past the length. */
  method PrintPreallocated(item: Item, buffer: array<byte>, length: int, format: bool) returns (ok: bool)
    requires item.Valid() && Printable(item.val) && length <= buffer.Length && length <= INT_MAX
    modifies buffer
    ensures ok == (|Text(item.val, format, 0)| + 2 <= length)
    ensures ok ==> buffer[..|Text(item.val, format, 0)| + 1] == Text(item.val, format, 0) + [0]
    ensures forall i :: 0 <= i < buffer.Length && length <= i ==> buffer[i] == old(buffer[i])
  {
    hide Text;
    hide Item.Valid;
    hide Printable;
    if length < 0 { return false; }
    var p := new PrintBuffer(buffer, length, true, format, true);
    ok := p.PrintValue(item);
    if ok {
      ghost var n := |Text(item.val, format, 0)|;
      assert buffer[..n + 1] == buffer[..n] + [buffer[n]];
    }
  }

  // ---- shapes of the text -----------------------------------------------

  lemma ArrayText(item: Item, before: seq<byte>, format: bool, depth: nat)
    requires item.Valid() && item.kind == ArrayKind && Printable(item.val)
    ensures item.val.Arr?
    ensures forall k :: 0 <= k < |item.val.items| ==> Printable(item.val.items[k])
    ensures var inner := ItemsText(item.val.items, 0, format, depth + 1);
            before + [LEFT_BRACKET] + inner + [RIGHT_BRACKET] == before + Text(item.val, format, depth)
            && |Text(item.val, format, depth)| == |inner| + 2
    ensures item.val.items == [] ==> ItemsText(item.val.items, 0, format, depth + 1) == []
  {
    hide Forest;
    hide Linked;
    hide Text;
    hide ItemsText;
    ArrayParts(item.val.items, before, format, depth);
  }

  lemma ArrayParts(items: seq<Value>, before: seq<byte>, format: bool, depth: nat)
    requires forall k :: 0 <= k < |items| ==> Printable(items[k])
    ensures var inner := ItemsText(items, 0, format, depth + 1);
            before + [LEFT_BRACKET] + inner + [RIGHT_BRACKET] == before + Text(Arr(items), format, depth)
            && |Text(Arr(items), format, depth)| == |inner| + 2
    ensures items == [] ==> ItemsText(items, 0, format, depth + 1) == []
  {
  }

  lemma ArrayLength(item: Item)
    requires item.Valid() && item.kind == ArrayKind
    ensures item.val.Arr? && |item.kids| == |item.val.items|
    ensures forall i :: 0 <= i < |item.kids| ==> item.kids[i].val == item.val.items[i]
  {
  }

  lemma ItemsSplit(before: seq<byte>, items: seq<Value>, i: nat, format: bool, depth: nat)
    requires i < |items| && forall k :: 0 <= k < |items| ==> Printable(items[k])
    ensures var text := Text(items[i], format, depth) + ItemSeparator(format, i + 1 < |items|);
            before + text + ItemsText(items, i + 1, format, depth) == before + ItemsText(items, i, format, depth)
  {
    hide Text;
  }

  lemma NoItemsLeft(items: seq<Value>, i: nat, format: bool, depth: nat)
    requires i >= |items| && forall k :: 0 <= k < |items| ==> Printable(items[k])
    ensures ItemsText(items, i, format, depth) == []
  {
  }

  /** The text in front of a member's value, and the text of a whole member. */
  function KeyText(key: CString, format: bool, depth: nat): CString {
    Indent(format, depth) + StringText(key) + KeySeparator(format)
  }

  function MemberText(m: Member, format: bool, depth: nat, more: bool): CString
    requires Printable(m.value)
  {
    KeyText(m.key, format, depth) + Text(m.value, format, depth) + MemberSeparator(format, more)
  }

  lemma NoIndent(format: bool, depth: nat)
    ensures !format ==> Indent(format, depth) == []
  {
  }

  lemma ObjectText(item: Item, before: seq<byte>, format: bool, depth: nat)
    requires item.Valid() && item.kind == ObjectKind && Printable(item.val)
    ensures item.val.Obj?
    ensures forall k :: 0 <= k < |item.val.members| ==> Printable(item.val.members[k].value)
    ensures var inner := MembersText(item.val.members, 0, format, depth + 1);
            before + ObjectHead(format) + inner + ObjectTail(format, depth) == before + Text(item.val, format, depth)
            && |Text(item.val, format, depth)| == |ObjectHead(format)| + |inner| + |ObjectTail(format, depth)|
    ensures item.val.members == [] ==> MembersText(item.val.members, 0, format, depth + 1) == []
    ensures |ObjectHead(format)| >= 1 && |ObjectTail(format, depth)| >= 1
  {
    hide Forest;
    hide Linked;
    hide Text;
    hide MembersText;
    hide ObjectHead;
    hide ObjectTail;
    var members := item.val.members;
    ObjectParts(members, format, depth);
    Regroup(before + ObjectHead(format), MembersText(members, 0, format, depth + 1), ObjectTail(format, depth));
    Regroup(before, ObjectHead(format), MembersText(members, 0, format, depth + 1) + ObjectTail(format, depth));
    Regroup(ObjectHead(format), MembersText(members, 0, format, depth + 1), ObjectTail(format, depth));
  }

  lemma ObjectParts(members: seq<Member>, format: bool, depth: nat)
    requires forall k :: 0 <= k < |members| ==> Printable(members[k].value)
    ensures Text(Obj(members), format, depth)
            == ObjectHead(format) + MembersText(members, 0, format, depth + 1) + ObjectTail(format, depth)
    ensures members == [] ==> MembersText(members, 0, format, depth + 1) == []
    ensures |ObjectHead(format)| >= 1 && |ObjectTail(format, depth)| >= 1
  {
  }

  lemma ObjectLength(item: Item)
    requires item.Valid() && item.kind == ObjectKind
    ensures item.val.Obj? && |item.kids| == |item.val.members|
    ensures forall i :: 0 <= i < |item.kids| ==>
      item.kids[i].key.Some? && item.val.members[i] == Member(item.kids[i].key.value, item.kids[i].val)
  {
  }

  lemma MembersSplit(before: seq<byte>, members: seq<Member>, i: nat, format: bool, depth: nat)
    requires i < |members| && forall k :: 0 <= k < |members| ==> Printable(members[k].value)
    ensures var text := MemberText(members[i], format, depth, i + 1 < |members|);
            before + text + MembersText(members, i + 1, format, depth)
              == before + MembersText(members, i, format, depth)
  {
    hide Text;
    hide StringText;
    hide Indent;
    hide KeySeparator;
    hide MemberSeparator;
  }

  lemma NoMembersLeft(members: seq<Member>, i: nat, format: bool, depth: nat)
    requires i >= |members| && forall k :: 0 <= k < |members| ==> Printable(members[k].value)
    ensures MembersText(members, i, format, depth) == []
  {
  }

  lemma EscapeLength(b: byte)
    ensures var special := b == QUOTE || b == BACKSLASH || b == BACKSPACE || b == FORM_FEED || b == NEWLINE ||
            b == RETURN || b == TAB;
            |Escape(b)| == (if special then 2 else if b < 32 then 6 else 1) &&
            (!special && b >= 32 ==> Escape(b) == [b])
  {
  }
}
