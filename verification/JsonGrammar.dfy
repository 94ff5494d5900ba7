/** What the parser of lib/cJSON.c computes, as functions of the text and the position in it.
    The text always ends in its NUL terminator, as `cJSON_ParseWithOpts` arranges (lib/cJSON.c:1180-1184). */
module JsonGrammar {
  import opened Bytes
  import opened Options
  import opened JsonValue
  import opened JsonText
  import opened Utf16

  /** A C string together with its terminator. */
  predicate Terminated(s: seq<byte>) {
    |s| > 0 && s[|s| - 1] == 0 && NoNul(s[..|s| - 1])
  }

  /** The outcome of a parse function and the offset it leaves behind. */
  datatype Outcome<+T> = Parsed(value: T, off: nat) | Failed(off: nat)

  // ---- white space ----------------------------------------------------

  /** The first offset at or after `off` that holds no white space, or the length. */
  function SkipTo(s: seq<byte>, off: nat): (r: nat)
    requires off <= |s|
    ensures off <= r <= |s|
    ensures r < |s| ==> s[r] > SPACE
    ensures forall i :: off <= i < r ==> s[i] <= SPACE
    decreases |s| - off
  {
    if off < |s| && s[off] <= SPACE then SkipTo(s, off + 1) else off
  }

  /** `buffer_skip_whitespace` (lib/cJSON.c:1128-1151): it steps back when it runs off the end. */
  function Skip(s: seq<byte>, off: nat): (r: nat)
    requires off < |s|
    ensures off <= r < |s|
  {
    var r := SkipTo(s, off);
    if r == |s| then r - 1 else r
  }

  // ---- numbers --------------------------------------------------------

  predicate IsDigit(b: byte) {
    DIGIT_0 <= b <= DIGIT_9
  }

  predicate IsNumberByte(b: byte) {
    IsDigit(b) || b == PLUS || b == MINUS || b == LOWER_E || b == UPPER_E || b == DOT
  }

  /** The end of the run of number bytes that `parse_number` copies: at most 63 of them, `n` so far. */
  function NumberEnd(s: seq<byte>, off: nat, n: nat): (r: nat)
    requires off + n <= |s| && n <= 63
    ensures off + n <= r <= |s| && r <= off + 63
    ensures forall i :: off + n <= i < r ==> IsNumberByte(s[i])
    decreases 63 - n
  {
    if n < 63 && off + n < |s| && IsNumberByte(s[off + n]) then NumberEnd(s, off, n + 1) else off + n
  }

  function DigitsEnd(t: seq<byte>, i: nat): (r: nat)
    requires i <= |t|
    ensures i <= r <= |t|
    ensures forall k :: i <= k < r ==> IsDigit(t[k])
    ensures r < |t| ==> !IsDigit(t[r])
    decreases |t| - i
  {
    if i < |t| && IsDigit(t[i]) then DigitsEnd(t, i + 1) else i
  }

  /** The digits t[i..j] read after the digits of `acc`. */
  function ReadDigits(t: seq<byte>, i: nat, j: nat, acc: nat): nat
    requires i <= j <= |t|
    requires forall k :: i <= k < j ==> IsDigit(t[k])
  {
    if j == i then acc
    else
      assert IsDigit(t[j - 1]);
      ReadDigits(t, i, j - 1, acc) * 10 + (t[j - 1] - DIGIT_0)
  }

  function Pow10(e: int): real
    decreases if e < 0 then -e else e
  {
    if e == 0 then 1.0 else if e > 0 then Pow10(e - 1) * 10.0 else Pow10(e + 1) / 10.0
  }

  function Scale(m: real, e: int): real {
    m * Pow10(e)
  }

  predicate IsSign(t: seq<byte>, i: nat) {
    i < |t| && (t[i] == PLUS || t[i] == MINUS)
  }

  /** The decimal exponent at `i`, if there is one: its value and its end. */
  function ReadExponent(t: seq<byte>, i: nat): (r: (int, nat))
    requires i <= |t|
    ensures i <= r.1 <= |t|
  {
    if i < |t| && (t[i] == LOWER_E || t[i] == UPPER_E) then
      var c := if IsSign(t, i + 1) then i + 2 else i + 1;
      var d := DigitsEnd(t, c);
      if d == c then (0, i)
      else
        var e: int := ReadDigits(t, c, d, 0);
        (if t[i + 1] == MINUS then -e else e, d)
    else (0, i)
  }

  /** The C library's `strtod` on number bytes, over the reals: the value, and how many bytes it used. */
  function Strtod(t: seq<byte>): (r: (real, nat))
    ensures r.1 <= |t|
  {
    var first := if IsSign(t, 0) then 1 else 0;
    var whole := DigitsEnd(t, first);
    var dot := whole < |t| && t[whole] == DOT;
    var end := if dot then DigitsEnd(t, whole + 1) else whole;
    var fraction := if dot then end - (whole + 1) else 0;
    if whole - first + fraction == 0 then (0.0, 0)
    else
      var w := ReadDigits(t, first, whole, 0);
      var m := if dot then ReadDigits(t, whole + 1, end, w) else w;
      var signed := if first == 1 && t[0] == MINUS then -(m as real) else m as real;
      var (e, used) := ReadExponent(t, end);
      (Scale(signed, e - fraction), used)
  }

  /** `parse_number` (lib/cJSON.c:321-399). */
  function ParseNumber(s: seq<byte>, off: nat): (r: Outcome<Value>)
    requires Terminated(s) && off < |s|
    ensures r.Parsed? ==> off < r.off < |s|
    ensures r.Failed? ==> r.off == off
  {
    var end := NumberEnd(s, off, 0);
    var (value, used) := Strtod(s[off..end]);
    if used == 0 then Failed(off)
    else
      assert IsNumberByte(s[off + used - 1]);
      Parsed(Number(value), off + used)
  }

  // ---- strings --------------------------------------------------------

  /** First pass of `parse_string`: the offset of the closing quote (lib/cJSON.c:834-857). */
  function CloseQuote(s: seq<byte>, i: nat): (r: Option<nat>)
    requires i <= |s|
    ensures r.Some? ==> i <= r.value < |s| && s[r.value] == QUOTE
    decreases |s| - i
  {
    if i == |s| then None
    else if s[i] == QUOTE then Some(i)
    else if s[i] == BACKSLASH then if i + 1 >= |s| then None else CloseQuote(s, i + 2)
    else CloseQuote(s, i + 1)
  }

  /** How many escapes the first pass counts on its way from `i` to the closing quote. */
  function Skipped(s: seq<byte>, i: nat, end: nat): nat
    requires i <= |s| && CloseQuote(s, i) == Some(end)
    decreases |s| - i
  {
    if s[i] == QUOTE then 0 else if s[i] == BACKSLASH then 1 + Skipped(s, i + 2, end) else Skipped(s, i + 1, end)
  }

  /** The byte of a one-character escape. */
  function SimpleEscape(b: byte): Option<byte> {
    if b == LOWER_B then Some(BACKSPACE)
    else if b == LOWER_F then Some(FORM_FEED)
    else if b == LOWER_N then Some(NEWLINE)
    else if b == LOWER_R then Some(RETURN)
    else if b == LOWER_T then Some(TAB)
    else if b == QUOTE || b == BACKSLASH || b == SLASH then Some(b)
    else None
  }

  /** Second pass of `parse_string`: the bytes decoded from `p` on, after `out` (lib/cJSON.c:873-937). */
  function Decode(s: seq<byte>, p: nat, end: nat, out: seq<byte>): (r: Outcome<seq<byte>>)
    requires end < |s|
    ensures r.Failed? ==> r.off < end
    decreases end - p
  {
    if p >= end then Parsed(out, p)
    else if s[p] != BACKSLASH then Decode(s, p + 1, end, out + [s[p]])
    else if s[p + 1] == LOWER_U then
      match ReadLiteral(s, p, end)
      case Bad => Failed(p)
      case Good(bytes, used) => Decode(s, p + used, end, out + bytes)
    else
      match SimpleEscape(s[p + 1])
      case None => Failed(p)
      case Some(b) => Decode(s, p + 2, end, out + [b])
  }

  /** `parse_string` (lib/cJSON.c:815-963); the value is what C sees of the output, up to its first NUL. */
  function ParseString(s: seq<byte>, off: nat): (r: Outcome<CString>)
    requires Terminated(s) && off < |s|
    ensures r.Parsed? ==> off < r.off < |s|
    ensures r.Failed? ==> off < r.off <= |s|
  {
    if s[off] != QUOTE then Failed(off + 1)
    else
      match CloseQuote(s, off + 1)
      case None => Failed(off + 1)
      case Some(end) =>
        assert end != |s| - 1;
        DecodeBounds(s, off + 1, end, []);
        match Decode(s, off + 1, end, [])
        case Failed(p) => Failed(p)
        case Parsed(out, _) => Parsed(UpToNul(out), end + 1)
  }

  lemma DecodeBounds(s: seq<byte>, p: nat, end: nat, out: seq<byte>)
    requires end < |s|
    ensures Decode(s, p, end, out).off >= p
    decreases end - p
  {
  }

  /** A string literal whose content has no NUL. */
  lemma StringParsed(s: seq<byte>, off: nat, end: nat, out: seq<byte>)
    requires Terminated(s) && off < |s| && s[off] == QUOTE && end < |s|
    requires CloseQuote(s, off + 1) == Some(end) && Decode(s, off + 1, end, []) == Parsed(out, end) && NoNul(out)
    ensures ParseString(s, off) == Parsed(out, end + 1)
  {
    hide CloseQuote;
    hide Decode;
    hide Terminated;
  }

  // ---- values ---------------------------------------------------------

  predicate StartsNumber(b: byte) {
    b == MINUS || IsDigit(b)
  }

  /** `parse_value` at `off`, with `depth` containers open around it (lib/cJSON.c:1426-1494). */
  function ParseValue(s: seq<byte>, off: nat, depth: nat): (r: Outcome<Value>)
    requires Terminated(s) && off < |s|
    ensures r.Parsed? ==> off < r.off < |s|
    ensures r.Failed? ==> off <= r.off <= |s|
    decreases |s| - off, 1
  {
    if At(s, off, NULL_TEXT) then
      assert s[off + 3] == NULL_TEXT[3];
      Parsed(Null, off + 4)
    else if At(s, off, FALSE_TEXT) then
      assert s[off + 4] == FALSE_TEXT[4];
      Parsed(False, off + 5)
    else if At(s, off, TRUE_TEXT) then
      assert s[off + 3] == TRUE_TEXT[3];
      Parsed(True, off + 4)
    else if s[off] == QUOTE then
      match ParseString(s, off)
      case Failed(p) => Failed(p)
      case Parsed(t, p) => Parsed(Str(t), p)
    else if StartsNumber(s[off]) then ParseNumber(s, off)
    else if s[off] == LEFT_BRACKET then ParseArray(s, off, depth)
    else if s[off] == LEFT_BRACE then ParseObject(s, off, depth)
    else Failed(off)
  }

  /** `parse_array` (lib/cJSON.c:1581-1688). */
  function ParseArray(s: seq<byte>, off: nat, depth: nat): (r: Outcome<Value>)
    requires Terminated(s) && off < |s| && s[off] == LEFT_BRACKET
    ensures r.Parsed? ==> off < r.off < |s|
    ensures r.Failed? ==> off <= r.off <= |s|
    decreases |s| - off, 0, 2
  {
    if depth >= NESTING_LIMIT then Failed(off)
    else
      var p := Skip(s, off + 1);
      if s[p] == RIGHT_BRACKET then Parsed(Arr([]), p + 1) else ParseItems(s, p - 1, depth + 1, [])
  }

  /** One turn of the item loop: the item behind `off`, and the offset of what follows it. */
  function ParseItem(s: seq<byte>, off: nat, depth: nat): (r: Outcome<Value>)
    requires Terminated(s) && off + 1 < |s|
    ensures r.Parsed? ==> off < r.off < |s|
    ensures r.Failed? ==> off <= r.off <= |s|
    decreases |s| - off, 0, 0
  {
    match ParseValue(s, Skip(s, off + 1), depth)
    case Failed(p) => Failed(p)
    case Parsed(v, p) => Parsed(v, Skip(s, p))
  }

  /** The item loop of `parse_array`: `off` is just in front of the next item, `done` are the items so far. */
  function ParseItems(s: seq<byte>, off: nat, depth: nat, done: seq<Value>): (r: Outcome<Value>)
    requires Terminated(s) && off + 1 < |s|
    ensures r.Parsed? ==> off < r.off < |s|
    ensures r.Failed? ==> off <= r.off <= |s|
    decreases |s| - off, 0, 1
  {
    match ParseItem(s, off, depth)
    case Failed(p) => Failed(p)
    case Parsed(v, q) =>
      if s[q] == COMMA then ParseItems(s, q, depth, done + [v])
      else if s[q] == RIGHT_BRACKET then Parsed(Arr(done + [v]), q + 1)
      else Failed(q)
  }

  /** `parse_object` (lib/cJSON.c:1764-1890). */
  function ParseObject(s: seq<byte>, off: nat, depth: nat): (r: Outcome<Value>)
    requires Terminated(s) && off < |s| && s[off] == LEFT_BRACE
    ensures r.Parsed? ==> off < r.off < |s|
    ensures r.Failed? ==> off <= r.off <= |s|
    decreases |s| - off, 0, 2
  {
    if depth >= NESTING_LIMIT then Failed(off)
    else
      var p := Skip(s, off + 1);
      if s[p] == RIGHT_BRACE then Parsed(Obj([]), p + 1) else ParseMembers(s, p - 1, depth + 1, [])
  }

  /** One turn of the member loop: the key, the colon and the value behind `off`, and the offset of what follows. */
  function ParseMember(s: seq<byte>, off: nat, depth: nat): (r: Outcome<Member>)
    requires Terminated(s) && off + 1 < |s|
    ensures r.Parsed? ==> off < r.off < |s|
    ensures r.Failed? ==> off <= r.off <= |s|
    decreases |s| - off, 0, 0
  {
    match ParseString(s, Skip(s, off + 1))
    case Failed(p) => Failed(p)
    case Parsed(key, p) =>
      var c := Skip(s, p);
      if s[c] != COLON then Failed(c)
      else
        match ParseValue(s, Skip(s, c + 1), depth)
        case Failed(q) => Failed(q)
        case Parsed(v, q) => Parsed(Member(key, v), Skip(s, q))
  }

  /** The member loop of `parse_object`. */
  function ParseMembers(s: seq<byte>, off: nat, depth: nat, done: seq<Member>): (r: Outcome<Value>)
    requires Terminated(s) && off + 1 < |s|
    ensures r.Parsed? ==> off < r.off < |s|
    ensures r.Failed? ==> off <= r.off <= |s|
    decreases |s| - off, 0, 1
  {
    match ParseMember(s, off, depth)
    case Failed(p) => Failed(p)
    case Parsed(m, e) =>
      if s[e] == COMMA then ParseMembers(s, e, depth, done + [m])
      else if s[e] == RIGHT_BRACE then Parsed(Obj(done + [m]), e + 1)
      else Failed(e)
  }

  // ---- whole texts ----------------------------------------------------

  /** `skip_utf8_bom` (lib/cJSON.c:1154-1168). */
  function SkipBom(s: seq<byte>): (r: nat)
    requires |s| > 0
    ensures r < |s|
  {
    if 4 < |s| && s[..3] == [0xEF, 0xBB, 0xBF] then 3 else 0
  }

  /** `cJSON_ParseWithOpts` on the C string `text` (lib/cJSON.c:1170-1272): the value, and the offset
      reported through `return_parse_end`. */
  function Parse(text: CString, requireEnd: bool): Outcome<Value> {
    var s := text + [0];
    assert Terminated(s) by { assert s[..|s| - 1] == text; }
    match ParseValue(s, Skip(s, SkipBom(s)), 0)
    case Failed(p) => Failed(ErrorPosition(s, p))
    case Parsed(v, p) =>
      if !requireEnd then Parsed(v, p)
      else
        var q := Skip(s, p);
        if s[q] != 0 then Failed(q) else Parsed(v, q)
  }

  /** The position stored for `cJSON_GetErrorPtr` (lib/cJSON.c:1254-1261). */
  function ErrorPosition(s: seq<byte>, p: nat): nat
    requires |s| > 0
  {
    if p < |s| then p else |s| - 1
  }
}
