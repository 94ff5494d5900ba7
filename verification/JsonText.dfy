/** The text that the printer of lib/cJSON.c produces, as a function of the value. */
module JsonText {
  import opened Bytes
  import opened JsonValue

  const NULL_TEXT: seq<byte> := [LOWER_N, LOWER_U, 108, 108]
  const FALSE_TEXT: seq<byte> := [LOWER_F, LOWER_A, 108, 115, LOWER_E]
  const TRUE_TEXT: seq<byte> := [LOWER_T, LOWER_R, LOWER_U, LOWER_E]

  /** The decimal digits of `n`, without leading zeros. */
  function Digits(n: nat): (t: CString)
    ensures |t| >= 1
    ensures forall i :: 0 <= i < |t| ==> DIGIT_0 <= t[i] <= DIGIT_9
  {
    if n < 10 then [DIGIT_0 + n] else Digits(n / 10) + [DIGIT_0 + n % 10]
  }

  /** `%1.15g` of a whole number below 10^15 in absolute value (lib/cJSON.c:602-605). */
  function NumberText(n: real): CString {
    if n < 0.0 then [MINUS] + Digits(-n.Floor) else Digits(n.Floor)
  }

  /** A hexadecimal digit as `%x` writes it. */
  function HexDigit(d: nat): byte
    requires d < 16
  {
    if d < 10 then DIGIT_0 + d else LOWER_A + (d - 10)
  }

  /** How one byte of a string is written (lib/cJSON.c:1050-1097). */
  function Escape(b: byte): (t: seq<byte>)
    ensures b != 0 ==> NoNul(t)
  {
    if b > 31 && b != QUOTE && b != BACKSLASH then [b]
    else if b == BACKSLASH then [BACKSLASH, BACKSLASH]
    else if b == QUOTE then [BACKSLASH, QUOTE]
    else if b == BACKSPACE then [BACKSLASH, LOWER_B]
    else if b == FORM_FEED then [BACKSLASH, LOWER_F]
    else if b == NEWLINE then [BACKSLASH, LOWER_N]
    else if b == RETURN then [BACKSLASH, LOWER_R]
    else if b == TAB then [BACKSLASH, LOWER_T]
    else [BACKSLASH, LOWER_U, DIGIT_0, DIGIT_0, HexDigit(b / 16), HexDigit(b % 16)]
  }

  function EscapeFrom(s: CString, i: nat): CString
    decreases |s| - i
  {
    if i >= |s| then [] else Escape(s[i]) + EscapeFrom(s, i + 1)
  }

  function StringText(s: CString): CString {
    [QUOTE] + EscapeFrom(s, 0) + [QUOTE]
  }

  function Tabs(n: nat): (t: CString)
    ensures |t| == n
  {
    seq(n, _ => TAB)
  }

  /** The text of `v`, printed with `depth` containers open around it. */
  function Text(v: Value, format: bool, depth: nat): CString
    requires Printable(v)
  {
    match v
    case Null => NULL_TEXT
    case False => FALSE_TEXT
    case True => TRUE_TEXT
    case Number(n) => NumberText(n)
    case Str(s) => StringText(s)
    case Arr(items) => [LEFT_BRACKET] + ItemsText(items, 0, format, depth + 1) + [RIGHT_BRACKET]
    case Obj(members) =>
      ObjectHead(format) + MembersText(members, 0, format, depth + 1) + ObjectTail(format, depth)
  }

  function ObjectHead(format: bool): CString {
    if format then [LEFT_BRACE, NEWLINE] else [LEFT_BRACE]
  }

  function ObjectTail(format: bool, depth: nat): CString {
    (if format then Tabs(depth) else []) + [RIGHT_BRACE]
  }

  /** What follows an array item, and what follows an object member. */
  function ItemSeparator(format: bool, more: bool): CString {
    if !more then [] else if format then [COMMA, SPACE] else [COMMA]
  }

  function MemberSeparator(format: bool, more: bool): CString {
    (if more then [COMMA] else []) + (if format then [NEWLINE] else [])
  }

  function Indent(format: bool, depth: nat): CString {
    if format then Tabs(depth) else []
  }

  function KeySeparator(format: bool): CString {
    if format then [COLON, TAB] else [COLON]
  }

  /** The items from index `i` on, with their separators; `depth` already counts the array itself. */
  function ItemsText(items: seq<Value>, i: nat, format: bool, depth: nat): CString
    requires forall k :: 0 <= k < |items| ==> Printable(items[k])
    decreases items, |items| - i
  {
    if i >= |items| then []
    else
      Text(items[i], format, depth) + (ItemSeparator(format, i + 1 < |items|) + ItemsText(items, i + 1, format, depth))
  }

  lemma CStringsJoin(a: CString, b: CString)
    ensures NoNul(a + b)
  {
  }

  /** The members from index `i` on, with indentation and separators. */
  function MembersText(members: seq<Member>, i: nat, format: bool, depth: nat): CString
    requires forall k :: 0 <= k < |members| ==> Printable(members[k].value)
    decreases members, |members| - i
  {
    if i >= |members| then []
    else
      var text, sep := Text(members[i].value, format, depth), MemberSeparator(format, i + 1 < |members|);
      var rest := MembersText(members, i + 1, format, depth);
      CStringsJoin(sep, rest);
      CStringsJoin(text, sep + rest);
      CStringsJoin(KeySeparator(format), text + (sep + rest));
      CStringsJoin(StringText(members[i].key), KeySeparator(format) + (text + (sep + rest)));
      CStringsJoin(Indent(format, depth), StringText(members[i].key) + (KeySeparator(format) + (text + (sep + rest))));
      Indent(format, depth) + (StringText(members[i].key)
        + (KeySeparator(format) + (Text(members[i].value, format, depth)
      + (MemberSeparator(format, i + 1 < |members|) + MembersText(members, i + 1, format, depth)))))
  }
}
