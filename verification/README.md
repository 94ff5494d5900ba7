# Verification of Hamlib's algorithmic core

A Dafny model of six parts of Hamlib, with proofs of what they promise. Each part has a specification written as
functions (a grammar, a published standard, a left-to-right scan, a state machine) and the code itself, written as
classes, arrays and loops in the order of the C source and proved against that specification. The main theorems are
then lemmas about the specification.

- **cJSON** (`lib/cJSON.c`). `JsonValue`, `JsonText` and `JsonGrammar` say what values, texts and the parser's language
  are. `JsonItem` is the node with its `next`, `prev` and `child` pointers; `JsonParser` and `JsonStringParser` are the
  parser over a buffer, `JsonPrinter` the printer over a growing or fixed buffer, `JsonMinify` the minifier in place,
  `JsonList` and `JsonBuild` the list operations and constructors, `JsonEdit` editing by index or key, `JsonPath` the
  same at any depth of a tree, `JsonCompare` the comparison. `JsonRun` is any program that calls these, within the
  limits named below. `JsonRoundTrip`, `JsonUnicode`, `JsonMinifyText` and `JsonEquality` hold the theorems about
  values and texts. `JsonDocument`, `JsonLiteral` and `JsonNumber` are a grammar of texts and their meaning that does
  not follow the parser, with the proof that the parser accepts exactly these texts; `JsonLayout`, `JsonMinifyTokens`
  `JsonCallMeaning` and `JsonRunMeaning` say byte by byte, index by index and tree by tree what printing, minifying,
  editing and whole calls of a run give.
- **AES** (`security/aes.c`). `Field` and `AesSpec` are FIPS-197; `AesTables` generates the tables, `AesKeys` both key
  schedules, `Aes` the table rounds; `AesSBox` and `AesVectors` derive the S-box and the examples of FIPS-197. Words
  have 32 bits although the source uses `unsigned long`: every table entry and every result of `GET_UINT32` is put
  together from four bytes, `ROTR8` masks what it shifts left, and all that follows is exclusive or, shifting right
  and masking, so the words of the source stay below 2^32.
- **SHA-256** (`security/sha256.c`). `Sha256Spec` is FIPS 180-2; `Sha256Code` keeps words in 64 bits, of which only the
  low 32 follow the standard; `Sha256Stream` is the streaming interface; `Sha256Roots` and `Sha256Vectors` derive the
  constants and the examples of FIPS 180-2.
- **The encrypted container** (`security/AESStringCrypt.c`). `Chaining` is cipher block chaining for any block cipher,
  `StringCryptSpec` the container, `StringCryptMeaning` the same container spelled out byte by byte, `StringCrypt` the
  code on top of AES and SHA-256.
- **getopt** (`lib/getopt.c`). `GetoptSpec` is a scan of the arguments that permutes nothing; `Getopt` is the permuting
  scanner over its global variables, and a whole run of it; `GetoptReports` says what each call reports.
- **microHam** (`src/microham.c`). `MicroHamFrames` and `MicroHamMessages` are the frames, the decoder and the messages;
  `MicroHamDevice` and `MicroHamReceiver` the writers and the reader over their globals; `MicroHamThreads` the two
  threads under the mutex; `MicroHamBounds` the bound on the control string, `MicroHamBytes` the bytes on the wire.
- **Arithmetic**. `Locator` (`src/locator.c`) and `Calibration` (`src/cal.c`), over reals.

`dafny verify dfyconfig.toml` checks everything.

## Where the code does not do what one would expect

- `cJSON_Minify` looks one character ahead for an escaped quote, so it takes the end of a string that ends in a
  backslash for an escaped quote. Minifying formatted text therefore gives the unformatted text exactly under the
  condition of `JsonMinifyText.MinifyUndoesFormatting`, and `JsonMinifyText.MinifyCanFail` shows an input.
- `add_item_to_array` does not clear the `next` of the item that it appends: the list is complete afterwards exactly
  when the list was empty or that pointer was NULL already (`JsonList.AddItemToArray`, and
  `JsonList.InsertItemInArray` for a position behind the end).
  `JsonBuild.AppendingCanFail` is a call that leaves it incomplete.
- `parse_string` takes a \u escape with bad hexadecimal digits for U+0000, which ends the C string, and its two passes
  may then disagree about where escapes start, so that a last escaped quote takes the closing quote along
  (`JsonLiteral.ParsesLiterals`, `JsonLiteral.QuoteTakenAlong`).
- `compare_double` is not transitive (`JsonEquality.SameNumberIsNotTransitive`), so the comparison is an equivalence
  only over numbers on which that function is one (`JsonEquality.TransitiveExactlyOver`); and a tree with two unequal
  members under one key does not equal its own copy (`JsonEquality.EqualToItself`, `JsonEquality.EqualToItselfCanFail`).
- `parseFrame` does not check the length of a control string: more than 256 bytes overrun it
  (`MicroHamBounds.RunFitsExactly`, `MicroHamBounds.StreamFits`).
- The second frame of a WinKey byte is meant as a no-op, but the decoder reads it as the start or end of a control
  string, and a control string of one byte is never ended. `MicroHamMessages.MessageIsRead` says exactly which messages
  are read back.
- The guard against equal raw values in `rig_raw2val` is never needed (`Calibration.GuardUnreachable`).
- The comment in `src/microham.c` says that flags are not passed on; the decoder here still reports them as events, so
  that the theorems can speak about the status byte.

## Model

| member | source | states |
|---|---|---|
| JsonRoundTrip.ParseStringText | lib/cJSON.c:815-963 | For every C string, the string parser at its printed literal gives back that string and stops right behind the literal |
| JsonRoundTrip.StrtodText | lib/cJSON.c:321-399 | The number reader gives back every whole number below 10^15 from its printed digits, and uses all of them |
| JsonRoundTrip.ParseNumberText | lib/cJSON.c:321-399 | parse_number at the text of a number gives that number and the offset behind it, whatever non-number byte follows |
| JsonRoundTrip.TextStart | lib/cJSON.c:1426-1494 | No printed value is empty or starts with white space, a closing bracket or the byte order mark, so skipping never eats into it |
| JsonRoundTrip.ParseText | lib/cJSON.c:1426-2027 | At any offset, print depth and parse depth: the value parser at a printed value gives that value and the offset behind it when depth plus nesting stay within the limit, and fails otherwise |
| JsonRoundTrip.ParseItemsText | lib/cJSON.c:1645-1654 | The item loop on the printed rest of an array collects exactly the remaining items, in order |
| JsonRoundTrip.ParseMembersText | lib/cJSON.c:1827-1857 | The member loop on the printed rest of an object collects exactly the remaining members, keys and order included |
| JsonRoundTrip.ParseUndoesPrint | lib/cJSON.c:1170-1272 | Parsing the formatted or unformatted text of any value gives that value, ending at the terminator, exactly when it is nested at most 1000 deep; otherwise it fails; with or without require_null_terminated |
| JsonUnicode.ReadSpelling | lib/cJSON.c:689-812 | A \uXXXX literal, or a surrogate pair of them, in either case of hexadecimal digits, reads as the UTF-8 of its scalar and consumes exactly the literal |
| JsonUnicode.ParseSpelledString | lib/cJSON.c:815-963 | A string written entirely as \u literals of non-zero scalars parses to the concatenation of their UTF-8 forms |
| JsonUnicode.Utf8RoundTrip | lib/cJSON.c:755-806 | The UTF-8 encoding loses nothing: reading the payload bits back gives the scalar, for every code point |
| JsonNumber.StrtodSound | lib/cJSON.c:321-399 | What the number reader uses of any text is a number text, sign, digits, point, digits, exponent, and the value is what that text spells: 10 to the number of fraction digits times it is the signed number that both digit strings write together, times 10 to the exponent |
| JsonNumber.StrtodLongest | lib/cJSON.c:372-376 | It uses at least every number text that the text starts with |
| JsonNumber.SpellingFound | lib/cJSON.c:338-376 | A number text is used up, and there is one way to cut it into its parts |
| JsonNumber.OneMeaning | lib/cJSON.c:372-376 | A number text spells one number only |
| JsonNumber.ParseNumberMeans | lib/cJSON.c:321-399 | parse_number reads the longest number text of at most 63 bytes and gives its meaning, and fails only where there is none |
| JsonNumber.ParseNumberSpelled | lib/cJSON.c:321-399 | Every number text of at most 63 bytes that no number byte follows parses to its meaning |
| JsonNumber.WithPoint | lib/cJSON.c:321-399 | The text 1.5 parses to one and a half |
| JsonNumber.WithExponent | lib/cJSON.c:321-399 | So does the text 15e-1 |
| JsonNumber.DigitsSpell | lib/cJSON.c:602-605 | The digits that the printer writes spell the number, without a leading zero |
| JsonLiteral.ParsesLiterals | lib/cJSON.c:815-963 | The string parser accepts exactly the literals that consist of plain bytes, the eight short escapes, \u escapes and surrogate pairs between a quote and the first quote that is not shielded, and gives the bytes of the parts in order, up to the first NUL; escapes with bad hexadecimal digits stand for U+0000, and only a last escaped quote may reach into the closing quote |
| JsonLiteral.QuoteTakenAlong | lib/cJSON.c:834-937 | Such a literal: a quote, \u000, two backslashes and a quote is accepted as the empty string |
| JsonLiteral.Utf8Encodes | lib/cJSON.c:755-806 | A \u escape gives the encoding of section 3 of RFC 3629: length in the lead byte, 10 in front of the other bytes, and the payload bits are the code point |
| JsonLiteral.OneEncoding | lib/cJSON.c:755-806 | No other bytes encode the code point |
| JsonDocument.ParsesExactly | lib/cJSON.c:1170-1272 | The parser gives a value and an end for a text if and only if the grammar of texts does: byte order mark, white space, a value nested at most 1000 deep, and nothing but white space behind it if the end is required |
| JsonDocument.ValueSound | lib/cJSON.c:1426-1494 | Everything that is parsed is the text of the value that it gives: keywords, the longest number, a literal, or items and members with their commas, colons, brackets and white space |
| JsonDocument.ValueComplete | lib/cJSON.c:1426-1494 | Every text of a value, within the nesting limit, parses to that value and ends where the text does |
| JsonDocument.NumberIs | lib/cJSON.c:321-399 | The number rule of the grammar is what parse_number does, both ways |
| JsonDocument.ItemsSound | lib/cJSON.c:1621-1663 | The item loop reads items with one comma between them and the closing bracket, nothing else |
| JsonDocument.ItemsComplete | lib/cJSON.c:1621-1663 | All such items are read, in order |
| JsonDocument.MembersSound | lib/cJSON.c:1803-1866 | The member loop reads keys, colons and values with one comma between them and the closing brace, nothing else |
| JsonDocument.MembersComplete | lib/cJSON.c:1803-1866 | All such members are read, in order |
| JsonLayout.ArrayLayout | lib/cJSON.c:1691-1761 | The text of an array is its items' texts in brackets with a comma between them, and a space behind each comma in formatted text |
| JsonLayout.ObjectLayout | lib/cJSON.c:1893-2027 | The unformatted text of an object is its members' texts in braces with a comma between them |
| JsonLayout.FormattedObjectLayout | lib/cJSON.c:1893-2027 | In formatted text every member has a line of its own, indented by one tabulator for each open container and with a tabulator behind the colon, and the closing brace is indented like the object |
| JsonLayout.EscapeLayout | lib/cJSON.c:1050-1097 | A byte is written as one part of a literal that stands for it: itself, one of seven short escapes, or a \u escape with small hexadecimal letters |
| JsonLayout.StringLayout | lib/cJSON.c:966-1104 | The text of a string consists of one such part for each byte, in order |
| JsonLayout.NumberLayout | lib/cJSON.c:602-605 | A whole number is its digits without leading zeros, behind a minus sign if it is negative |
| JsonStringParser.ParseHex4 | lib/cJSON.c:652-685 | Four hexadecimal digits give their value, anything else gives 0 |
| JsonStringParser.Utf16LiteralToUtf8 | lib/cJSON.c:689-812 | Fails without writing exactly when the literal is malformed; otherwise writes the UTF-8 bytes at the output position and reports the length of the literal |
| JsonStringParser.WriteUtf8 | lib/cJSON.c:755-806 | The backward loop over continuation bytes and the lead byte mark together write the UTF-8 form, keeping what was written before |
| JsonStringParser.StartsAreSkipped | lib/cJSON.c:834-857 | The escapes that start before the closing quote are exactly the ones that the first pass counts |
| JsonStringParser.LiteralFits | lib/cJSON.c:912-925 | A \u literal never writes more than its span minus the escapes that the first pass saw start in it, also when the passes disagree about escape boundaries |
| JsonStringParser.FindEnd | lib/cJSON.c:829-860 | The first pass finds the closing quote, or reports that there is none, and counts the escapes on the way |
| JsonStringParser.DecodeString | lib/cJSON.c:873-940 | In a buffer of the size that the first pass computed, on every input: all writes are in bounds, the output is the decoded text and its terminator, and a failure stops at the offending escape |
| JsonParser.ParseBuffer.SkipWhitespace | lib/cJSON.c:1128-1151 | Moves to the first byte above 32, stepping back by one at the end, and stays inside the text |
| JsonParser.ParseBuffer.SkipUtf8Bom | lib/cJSON.c:1154-1168 | Skips the byte order mark exactly when it is there and more text follows |
| JsonParser.ParseBuffer.CopyNumber | lib/cJSON.c:338-370 | Copies the longest run of number bytes, at most 63, with a terminator |
| JsonParser.ParseBuffer.ParseNumber | lib/cJSON.c:321-399 | Succeeds, moves and sets the item as the grammar's number rule says |
| JsonParser.ParseBuffer.ParseString | lib/cJSON.c:815-963 | Succeeds, moves and sets the item as the grammar's string rule says |
| JsonParser.ParseBuffer.ParseValue | lib/cJSON.c:1426-1494 | On every NUL-terminated text and depth: terminates, never leaves the text, succeeds exactly when the grammar does, ends at its offset, and then the item is a well-formed tree for its value |
| JsonParser.ParseBuffer.ParseArray | lib/cJSON.c:1581-1688 | As ParseValue for arrays: the new items form a complete doubly linked list in input order, and the nesting limit is enforced and released |
| JsonParser.ParseBuffer.ParseItems | lib/cJSON.c:1621-1663 | The item loop: each turn moves strictly forward, and the list grows by the parsed item |
| JsonParser.ParseBuffer.ParseObject | lib/cJSON.c:1764-1890 | As ParseValue for objects, keys included |
| JsonParser.ParseBuffer.ParseMembers | lib/cJSON.c:1803-1866 | The member loop: each turn moves strictly forward, and the list grows by the parsed member |
| JsonParser.ParseBuffer.ParseMember | lib/cJSON.c:1827-1857 | Key, colon and value are read as the grammar's member rule says; the key moves from the item's string to its name |
| JsonParser.ParseWithOpts | lib/cJSON.c:1170-1272 | Returns a fresh well-formed tree for the grammar's value or null, and the parse end or error position; the tree is in no list |
| JsonItem.Item.constructor | lib/cJSON.c:251-261 | A new item has no links, children, string or key |
| JsonList.ForestKept | lib/cJSON.c:2146-2148 | Relinking the children of an item leaves the trees below them well formed |
| JsonList.GetArrayItem | lib/cJSON.c:2053-2071 | The child at the index, or null behind the end |
| JsonList.AddItemToArray | lib/cJSON.c:2171-2203 | Appends to the sequence of children; refuses to add an item to itself; the list stays complete exactly when it was empty or the new item's own next was NULL |
| JsonList.DetachItemViaPointer | lib/cJSON.c:2429-2465 | Takes the child out of the sequence, leaving a complete list and a whole, unlinked tree |
| JsonList.LinkPast | lib/cJSON.c:2437-2462 | The pointer changes of detaching, for head, middle, tail and only child, give the complete list of the remaining children |
| JsonList.InsertItemInArray | lib/cJSON.c:2510-2541 | Refuses negative positions, inserts in front of the child at the position, or appends behind the end; the list is complete exactly when it inserts in front of a child, the list was empty or the new item's own next was NULL |
| JsonList.LinkBefore | lib/cJSON.c:2527-2538 | The pointer changes of inserting give the complete list with the item in its place, a new head included |
| JsonList.InsertedLinks | lib/cJSON.c:2527-2538 | The links around an inserted item and all old links make the complete list of the longer sequence |
| JsonList.ReplaceItemViaPointer | lib/cJSON.c:2543-2595 | Replaces the child in the sequence, keeps all others, and leaves the old one whole and unlinked; replacing an item by itself changes nothing |
| JsonList.LinkInstead | lib/cJSON.c:2556-2591 | The pointer changes of replacing, an only child included, give the complete list with the replacement |
| JsonBuild.LinkNew | lib/cJSON.c:1631-1643 | A list under construction grows by the new item at its end |
| JsonBuild.CloseList | lib/cJSON.c:1668-1671 | Setting the head's prev completes the list |
| JsonBuild.FinishArray | lib/cJSON.c:1668-1674 | A finished chain of items becomes the well-formed array of their values |
| JsonBuild.FinishObject | lib/cJSON.c:1871-1877 | A finished chain of members becomes the well-formed object of their keys and values |
| JsonBuild.CreateDoubleArray | lib/cJSON.c:2911-2953 | The array item stands for the given numbers in order, in a complete list, and is in no list itself |
| JsonBuild.AppendFromAnother | lib/cJSON.c:2171-2203 | An item that is still in another list, in front of a sibling, is appended to a non-empty list but never leaves it complete |
| JsonBuild.AppendingCanFail | lib/cJSON.c:2171-2203 | Such an input: the first of two numbers, appended to another list of one number, leaves that list incomplete |
| JsonBuild.Duplicate | lib/cJSON.c:3001-3100 | A deep copy is a fresh, disjoint, well-formed tree for the same value with the same key; a shallow one has no children |
| JsonBuild.DuplicateChildren | lib/cJSON.c:3055-3088 | The children of the copy are fresh copies in the same order, in a complete list |
| JsonPrinter.PrintBuffer.Ensure | lib/cJSON.c:466-554 | Succeeds exactly when the bytes fit into what the buffer may grow to; the printed text survives every growth; a buffer that must not grow is left alone |
| JsonPrinter.PrintBuffer.UpdateOffset | lib/cJSON.c:557-569 | Moves the position behind the text that the buffer holds up to its terminator |
| JsonPrinter.PrintBuffer.CountEscapes | lib/cJSON.c:997-1021 | The count is exactly how much longer the escaped text is; 0 means that nothing needs an escape |
| JsonPrinter.PrintBuffer.CopyEscaped | lib/cJSON.c:1043-1098 | The escaped copy of the string, inside the room that was ensured |
| JsonPrinter.PrintBuffer.PrintString | lib/cJSON.c:966-1104 | Succeeds exactly when the literal and two bytes fit; the text grows by the literal |
| JsonPrinter.PrintBuffer.PrintNumber | lib/cJSON.c:579-649 | Succeeds exactly when the digits and two bytes fit, and alone among the leaves moves the position behind its text, onto the terminator |
| JsonPrinter.PrintBuffer.PrintValue | lib/cJSON.c:1497-1578 | Succeeds exactly when the text of the value and two bytes fit; the text grows by it; nothing behind a fixed buffer's length is written, also on failure |
| JsonPrinter.PrintBuffer.PrintArray | lib/cJSON.c:1691-1761 | As PrintValue for arrays, with the separators of both formats |
| JsonPrinter.PrintBuffer.PrintObject | lib/cJSON.c:1893-2027 | As PrintValue for objects, with indentation, keys and separators of both formats |
| JsonPrinter.PrintBuffer.PrintMembers | lib/cJSON.c:1924-2002 | The member loop adds exactly the text of the remaining members, or fails exactly when it does not fit |
| JsonPrinter.Print | lib/cJSON.c:1288-1360 | A fresh buffer of exactly the text and its terminator, whenever text and two bytes fit an int, with and without realloc |
| JsonPrinter.PrintPreallocated | lib/cJSON.c:1405-1423 | Succeeds exactly when the length is at least the text length plus 2; then the buffer holds text and terminator; bytes from the length on never change, even on failure |
| JsonMinify.SkipOnelineComment | lib/cJSON.c:3102-3114 | Stops behind the newline, or at the end |
| JsonMinify.SkipMultilineComment | lib/cJSON.c:3116-3128 | Stops behind the end of the comment, or at the end |
| JsonMinify.MinifyString | lib/cJSON.c:3130-3155 | Copies down up to the first quote not preceded by a backslash, never overtaking what is still to be read |
| JsonMinify.Minify | lib/cJSON.c:3157-3206 | In place, for every C string: the buffer then starts with the minified text and its terminator, and nothing behind the old terminator changes |
| JsonMinifyText.MinifyText | lib/cJSON.c:3157-3206 | What minifying makes of the formatted text of a value in front of any rest: its unformatted text and the rest minified from inside or outside a string, or a text that is already wrong |
| JsonMinifyText.MinifyUndoesFormatting | lib/cJSON.c:3157-3206 | Minifying the formatted text gives the unformatted text byte for byte if and only if no string or key ends in a backslash except possibly the very last leaf inside arrays alone |
| JsonMinifyText.MinifyUndoesFormattingWithoutBackslashes | lib/cJSON.c:3130-3155 | In particular for every value in which no string or key ends in a backslash |
| JsonMinifyText.MinifyCanFail | lib/cJSON.c:3147-3152 | The array of a backslash string and null is not minified to its unformatted text |
| JsonMinifyTokens.MinifyKeeps | lib/cJSON.c:3102-3206 | For every text: the strings and the bytes outside of strings are kept in order; white space, line and block comments and lone slashes are dropped; a comment or string that is not closed goes on to the end |
| JsonMinifyTokens.EveryText | lib/cJSON.c:3157-3206 | Every text consists of such pieces, so the last statement is about all texts |
| JsonEdit.AddItemToObject | lib/cJSON.c:2227-2265 | Gives the item the key and appends it to an object or an array; the list is complete exactly when it was empty or the item's own next was NULL |
| JsonEdit.DetachItemFromArray | lib/cJSON.c:2467-2475 | Takes out the child at the index of an array or object, or answers null and changes nothing |
| JsonEdit.DetachItemFromObject | lib/cJSON.c:2482-2496 | Takes out the first member with the key under the case mode, or answers null and changes nothing |
| JsonEdit.ReplaceItemInArray | lib/cJSON.c:2597-2607 | Replaces the child at the index of an array or object, which then has the key of the replacement, or refuses and changes nothing |
| JsonEdit.ReplaceItemInObject | lib/cJSON.c:2609-2629 | Replaces the first member with the key under the case mode, or refuses and leaves the object as it was; the replacement has the key either way |
| JsonPath.ValueAtIs | lib/cJSON.c:2053-2119 | An edit at a place changes the value at that place and at no other place that is not above or below it |
| JsonPath.StillAround | lib/cJSON.c:2146-2203 | When only the nodes of one child have changed, the tree around it is whole apart from that child |
| JsonPath.Refresh | lib/cJSON.c:2146-2203 | With the changed child the tree is whole again, and stands for its value with the child's new value |
| JsonPath.GiveAt | lib/cJSON.c:2171-2629 | Adding, inserting and replacing on a container: accepted or refused as said, with the value that says so, and the item untouched when refused |
| JsonPath.TakeAt | lib/cJSON.c:2467-2496 | Detaching from a container: the part is a whole tree in no list, and the rest is whole without it |
| JsonPath.GiveBelow | lib/cJSON.c:2171-2629 | The same at any depth of a tree: the whole tree stays well formed and stands for its old value with the edit at that place |
| JsonPath.TakeBelow | lib/cJSON.c:2467-2496 | The same at any depth: part and whole tree are well formed and share no nodes, and every tree above has lost the part |
| JsonPath.NodeAt | lib/cJSON.c:2053-2071 | Walking down by indices gives the whole tree for the value at that place |
| JsonPath.KeyUnused | lib/cJSON.c:2171-2629 | A call that can do without a key gives the same whatever key the item has, as items of arrays may |
| JsonCallMeaning.AddingIs | lib/cJSON.c:2171-2265 | Adding puts the entry behind all others, under the given key or its own in an object |
| JsonCallMeaning.InsertingIs | lib/cJSON.c:2510-2541 | Inserting puts the entry in front of the index, or behind all others when the index is too large; a negative index is refused |
| JsonCallMeaning.ReplacingIs | lib/cJSON.c:2597-2607 | Replacing by index changes that entry alone, or nothing |
| JsonCallMeaning.ReplacingNamedIs | lib/cJSON.c:2609-2629 | Replacing by key changes the first entry of that key alone, which has the given key then, or nothing |
| JsonCallMeaning.DetachingIs | lib/cJSON.c:2467-2475 | Detaching by index takes out that entry and hands out its value, or changes nothing |
| JsonCallMeaning.DetachingNamedIs | lib/cJSON.c:2482-2496 | Detaching by key takes out the first entry of that key and hands out its value, or changes nothing |
| JsonCallMeaning.SameKeyIs | lib/cJSON.c:134-156 | Keys are the same if they are equal, or without case if they have the same length and the same letters up to the case of ASCII |
| JsonCallMeaning.SameNumberIs | lib/cJSON.c:572-576 | compare_double allows a difference of one part in 2^52 of the number that is larger in size |
| JsonRun.Program.Run | lib/cJSON.c:2171-2629 | Any run of parsing, creating, copying, deleting, adding, inserting, detaching and replacing, by index or key, at any depth of the trees, leaves disjoint whole trees that stand for what the same edits of values give |
| JsonRun.Program.Execute | lib/cJSON.c:2171-2629 | Each of these calls does to the trees in memory what it does to values |
| JsonRun.Program.Give | lib/cJSON.c:2171-2629 | Giving a tree to a container anywhere in another one, among any other trees; refused, it is still there, with its new key if it got one |
| JsonRun.Program.Take | lib/cJSON.c:2467-2496 | Detaching a part anywhere in a tree makes it a tree of its own, among any other trees |
| JsonRunMeaning.ParsingIs | lib/cJSON.c:1170-1272 | Parsing in a run adds a tree for the value that the grammar gives the text, or nothing if it gives none |
| JsonRunMeaning.CreatingIs | lib/cJSON.c:2911-2953 | Creating adds the array of the numbers, in order |
| JsonRunMeaning.CopyingIs | lib/cJSON.c:3001-3100 | Copying adds a tree for the value at the place and changes no other |
| JsonRunMeaning.DeletingIs | lib/cJSON.c:251-283 | Deleting takes one tree away and leaves the others in order |
| JsonRunMeaning.GivingIs | lib/cJSON.c:2171-2629 | Giving a tree away takes it off the program's trees and changes one other, at the place alone; refused, every value stays |
| JsonRunMeaning.TakingIs | lib/cJSON.c:2467-2496 | Taking a part out adds it as a tree and changes the tree that had it, at the place alone, or nothing |
| JsonRun.EveryListIsComplete | lib/cJSON.c:2140-2203 | In every tree of a run, and below it, each child list is complete: next and prev are inverse, the head's prev is the tail and the tail's next is NULL |
| JsonEquality.Find | lib/cJSON.c:2083-2119 | The first member from an index on whose key is the same in the given case mode, or the number of members |
| JsonEquality.SameWholeNumber | lib/cJSON.c:572-576 | compare_double is exact equality on whole numbers below 10^15 |
| JsonEquality.SameNumberIsNotTransitive | lib/cJSON.c:572-576 | On arbitrary numbers it is not transitive: three numbers show it |
| JsonEquality.EqualIsSymmetric | lib/cJSON.c:3308-3437 | The comparison is symmetric, for all values and both case modes, duplicate keys included |
| JsonEquality.WholeNumbersAreSeparate | lib/cJSON.c:572-576 | compare_double tells any two whole numbers below 10^15 apart, and so is transitive on them |
| JsonEquality.EqualIsTransitive | lib/cJSON.c:3308-3437 | The comparison is transitive on all values over any numbers on which compare_double is, in both case modes, duplicate keys included |
| JsonEquality.TransitiveExactlyOver | lib/cJSON.c:3308-3437 | For any set of numbers: the comparison is transitive on all values over them exactly when compare_double is on the numbers |
| JsonEquality.EqualIsMapEquality | lib/cJSON.c:3308-3437 | With distinct keys under the case mode, and over any numbers that compare_double tells apart, the comparison holds exactly when the values are equal once objects are read as maps |
| JsonEquality.MapEqualityExactlyOver | lib/cJSON.c:3308-3437 | For any set of numbers: the comparison is equality of maps on all values over them with distinct keys exactly when compare_double tells the numbers apart |
| JsonEquality.EqualToItself | lib/cJSON.c:3308-3437 | Over any numbers on which compare_double is transitive, a value equals a copy of itself exactly when members of one object with the same key have equal values |
| JsonEquality.CoherenceExactlyOver | lib/cJSON.c:3308-3437 | For any set of numbers: that condition decides the comparison with a copy, for all values over them, exactly when compare_double is transitive on the numbers |
| JsonEquality.CoherentEqualsItself | lib/cJSON.c:3308-3437 | With any numbers, a value whose members under one key have equal values equals a copy of itself |
| JsonEquality.EqualToItselfCanFail | lib/cJSON.c:3398-3412 | Such an input: an object with true and false under one key does not equal its own copy, in either case mode |
| JsonEquality.EqualsDuplicate | lib/cJSON.c:3001-3100 | With distinct keys every value, with any numbers, equals its duplicate |
| JsonEquality.PrintableIsTransitive | lib/cJSON.c:3308-3437 | The comparison is transitive on all values with whole numbers below 10^15 |
| JsonEquality.PrintableIsMapEquality | lib/cJSON.c:3308-3437 | With distinct keys, the comparison is equality of maps on all values with whole numbers below 10^15 |
| JsonEquality.PrintableEqualsItself | lib/cJSON.c:3308-3437 | A value with whole numbers below 10^15 equals a copy of itself exactly when members of one object with the same key have equal values |
| JsonCompare.CaseInsensitiveStrcmp | lib/cJSON.c:134-156 | Zero exactly when the strings agree up to the case of ASCII letters |
| JsonCompare.GetObjectItem | lib/cJSON.c:2083-2119 | The first child with the key under the case mode, or null |
| JsonCompare.Compare | lib/cJSON.c:3308-3437 | On trees in memory that are the same, disjoint, or one of them a subtree of the other: true exactly for the same node or equal values |
| JsonCompare.Apart | lib/cJSON.c:3374-3391 | Children of two different such trees are again different such trees, so the test for the same node never answers inside a comparison |
| JsonCompare.CompareArrays | lib/cJSON.c:3369-3392 | The two cursors decide equality of the item lists, a longer list included |
| JsonCompare.CompareObjects | lib/cJSON.c:3398-3412 | One pass decides whether every member has an equal under its key in the other object |
| Field.XtimeIs | security/aes.c:63-63 | The XTIME macro on a byte is multiplication by x, written in a linear form |
| Field.MulLinear | security/aes.c:63-64 | Multiplication in GF(2^8) distributes over addition |
| Field.MulPowers | security/aes.c:64-64 | Powers of the generator multiply by adding exponents |
| Field.NoShortCycle | security/aes.c:73-79 | No power of the generator below 255 is 1, so it has order 255 |
| Field.HasLog | security/aes.c:73-79 | Every non-zero byte is a power of the generator |
| Field.InverseIs | security/aes.c:95-95 | Whatever multiplies a byte to 1 is its inverse |
| AesSpec.SBoxUndone | security/aes.c:88-105 | The S-box and its inverse undo each other, both ways, on every byte |
| AesSpec.MixColumnUndone | security/aes.c:113-129 | InvMixColumns undoes MixColumns on every column |
| AesSpec.InverseMixLinear | security/aes.c:557-580 | InvMixColumns distributes over the addition of round keys |
| AesSpec.RoundsUndone | security/aes.c:684-764 | After j rounds the equivalent inverse cipher is where encryption was j rounds before its end, for every schedule |
| AesSpec.InverseCipherUndoes | security/aes.c:594-770 | The equivalent inverse cipher with the reversed schedule undoes the cipher, for every schedule and state |
| AesTables.FillLogarithms | security/aes.c:73-79 | pow holds the powers of the generator and log an exponent for every non-zero byte, 255 for 1 |
| AesTables.MulMacro | security/aes.c:64-64 | MUL on the tables is multiplication in GF(2^8), zero included |
| AesTables.AffineSteps | security/aes.c:97-101 | The rotate-and-add steps are the affine transformation of section 5.1.1 of FIPS-197 |
| AesTables.NextSBox | security/aes.c:95-101 | The entry is the S-box value: inverse by logarithm, then the affine transformation |
| AesTables.FillSBoxes | security/aes.c:88-105 | FSb is the S-box and RSb its inverse, on all 256 entries |
| AesTables.FillRcon | security/aes.c:81-86 | RCON holds the round constants of section 5.2 of FIPS-197 |
| AesTables.TurnIsRotr8 | security/aes.c:60-61 | ROTR8 of a packed column moves its rows down by one |
| AesTables.Tables.GenTables | security/aes.c:66-137 | After table generation all of FSb, RSb, FT0-3, RT0-3 and RCON hold what FIPS-197 prescribes |
| AesTables.Tables.FillForward | security/aes.c:111-122 | The next FT entries are SubBytes and MixColumns of one byte, turned for each row |
| AesTables.Tables.FillReverse | security/aes.c:124-135 | The next RT entries are InvSubBytes and InvMixColumns of one byte, turned for each row |
| AesTables.Tables.FillKeyTables | security/aes.c:537-548 | KT0-3 hold InvMixColumns of one byte, since RT undoes FSb; the other tables stay right |
| Aes.ForwardColumn | security/aes.c:605-628 | MixColumns of substituted bytes is the sum of four table words |
| Aes.ForwardRound | security/aes.c:605-628 | AES_FROUND is AddRoundKey after MixColumns after ShiftRows after SubBytes |
| Aes.LastForwardRound | security/aes.c:656-674 | The last round is AddRoundKey after ShiftRows after SubBytes |
| Aes.ReverseRound | security/aes.c:695-718 | AES_RROUND is AddRoundKey after InvMixColumns after InvShiftRows after InvSubBytes |
| Aes.LastReverseRound | security/aes.c:746-764 | The last round of decryption is AddRoundKey after InvShiftRows after InvSubBytes |
| Aes.GetUint32 | security/aes.c:410-416 | Four bytes read as a big-endian word |
| Aes.PutUint32 | security/aes.c:418-424 | A word written as four big-endian bytes, all others kept |
| Aes.Encrypt | security/aes.c:594-680 | For 10, 12 and 14 rounds: the output block is the cipher of section 5.1 of FIPS-197 on the input block, also in place; bytes behind it are kept |
| Aes.Decrypt | security/aes.c:684-770 | For 10, 12 and 14 rounds: the output block is the equivalent inverse cipher of section 5.3.5 on the input block, also in place |
| AesKeys.RotatedWord | security/aes.c:475-479 | The first assignment of each turn stores the next expanded word, with RotWord, SubWord and Rcon |
| AesKeys.SubstitutedWord | security/aes.c:521-525 | The middle assignment for 256 bits stores the next expanded word, with SubWord |
| AesKeys.ChainWord | security/aes.c:481-483 | The other assignments store the next expanded word |
| AesKeys.Expand128 | security/aes.c:473-484 | 44 words of the expanded key |
| AesKeys.Expand192 | security/aes.c:490-503 | 54 words of the expanded key, of which 52 are used |
| AesKeys.Expand256 | security/aes.c:509-530 | 64 words of the expanded key, of which 60 are used |
| AesKeys.InvertedIs | security/aes.c:561-564 | The four KT lookups give InvMixColumns of the word |
| AesKeys.SetDecryptionKey | security/aes.c:550-587 | drk is the schedule reversed with InvMixColumns on the inner keys; all pointer steps stay inside both arrays |
| AesKeys.SetEncryptionKey | security/aes.c:460-533 | erk is the key schedule of section 5.2 of FIPS-197 for each of the three key sizes |
| AesKeys.SetKey | security/aes.c:437-590 | Fails exactly for other key sizes, leaving the context alone; otherwise both schedules are in place and the tables are right, on the first call and on later ones |
| AesKeys.DecryptUndoesEncrypt | security/aes.c:594-770 | For every key of 128, 192 or 256 bits and every block, decrypting with the separately built schedule undoes encrypting |
| AesKeys.EncryptWithKey | security/aes.c:594-680 | With a key that has been set, aes_encrypt computes the block cipher of that key and keeps the context ready |
| AesKeys.DecryptWithKey | security/aes.c:684-770 | With a key that has been set, aes_decrypt computes its inverse and keeps the context ready |
| AesSBox.TableHolds | security/aes.c:88-105 | The S-box has the 256 values of figure 7 of FIPS-197 |
| AesVectors.ShiftRowsMoves | security/aes.c:605-628 | In a round, byte 4c + r of the block comes from byte 4((c + r) mod 4) + r |
| AesVectors.Keys128 | security/aes.c:473-484 | The round keys of appendix C.1 of FIPS-197, all eleven, for its key of 128 bits |
| AesVectors.Vector128 | security/aes.c:594-770 | Appendix C.1 of FIPS-197: the example block under the example key of 128 bits encrypts to the ciphertext given there and decrypts back |
| AesVectors.Vector192 | security/aes.c:594-770 | Appendix C.2 of FIPS-197: the same for the key of 192 bits |
| AesVectors.Vector256 | security/aes.c:594-770 | Appendix C.3 of FIPS-197: the same for the key of 256 bits |
| Sha256Code.LoPlus | security/sha256.c:90-101 | Adding unsigned long values adds their low 32 bits modulo 2^32 |
| Sha256Code.S0Agrees | security/sha256.c:81-81 | The macro S0 on an unsigned long agrees in its low 32 bits with the standard's function, whatever the upper bits |
| Sha256Code.S1Agrees | security/sha256.c:82-82 | The macro S1 on an unsigned long agrees in its low 32 bits with the standard's function, whatever the upper bits |
| Sha256Code.S2Agrees | security/sha256.c:84-84 | The macro S2 on an unsigned long agrees in its low 32 bits with the standard's function, whatever the upper bits |
| Sha256Code.S3Agrees | security/sha256.c:85-85 | The macro S3 on an unsigned long agrees in its low 32 bits with the standard's function, whatever the upper bits |
| Sha256Code.F0Agrees | security/sha256.c:87-87 | F0 agrees with Maj in the low 32 bits |
| Sha256Code.F1Agrees | security/sha256.c:88-88 | F1 agrees with Ch in the low 32 bits |
| Sha256Code.RoundAgrees | security/sha256.c:96-101 | The P macro is one round of section 6.2.2 of FIPS 180-2 with the registers renamed |
| Sha256Code.R | security/sha256.c:90-94 | The R macro stores the next word of the message schedule |
| Sha256Code.EightRounds | security/sha256.c:112-119 | Eight lines of the unrolled rounds are eight rounds, and the registers have their roles back |
| Sha256Code.LoadBlock | security/sha256.c:61-76 | The first sixteen words are the block in big-endian order |
| Sha256Code.Process | security/sha256.c:56-185 | The state becomes the compression of the old state and the block |
| Sha256Stream.Sha256Context.Starts | security/sha256.c:41-54 | The context stands for the empty message |
| Sha256Stream.Sha256Context.Update | security/sha256.c:187-226 | The context then stands for the old message followed by the input, for every length below 2^32 and every fill of the buffer |
| Sha256Stream.Sha256Context.Count | security/sha256.c:196-202 | The two counters add the length with the carry |
| Sha256Stream.Sha256Context.Absorb | security/sha256.c:204-225 | Whole blocks are processed and the rest is buffered, whatever the buffer held |
| Sha256Stream.Sha256Context.ProcessInput | security/sha256.c:214-219 | The loop over whole blocks of the input leaves less than one block |
| Sha256Stream.Sha256Context.LengthBytes | security/sha256.c:242-247 | The eight length bytes are the bit length, most significant first |
| Sha256Stream.Sha256Context.Finish | security/sha256.c:236-263 | The digest is that of sections 5.1.1 and 6.2.2 of FIPS 180-2 for the message, below 2^61 bytes |
| Sha256Stream.PaddedIs | security/sha256.c:249-253 | The two updates of sha256_finish append exactly the padding of the standard |
| Sha256Stream.DigestOfPieces | security/sha256.c:187-263 | However a message is cut into updates, the digest is that of the concatenation |
| Sha256Spec.PaddingIs | security/sha256.c:228-254 | The padding of any message: 0x80, fewer than 64 zeros, and the length in bits modulo 2^64, highest byte first, up to whole blocks |
| Sha256Roots.ConstantIs | security/sha256.c:112-183 | Each round constant is the first 32 bits of the fractional part of the cube root of its prime, for all 64 primes in order |
| Sha256Roots.InitialIs | security/sha256.c:45-53 | The initial values are the first 32 bits of the fractional parts of the square roots of the first eight primes |
| Sha256Vectors.DigestOfAbc | security/sha256.c:56-263 | Appendix B.1 of FIPS 180-2: the digest of abc |
| Sha256Vectors.DigestOfTwoBlocks | security/sha256.c:56-263 | Appendix B.2 of FIPS 180-2: the digest of the message of 56 letters, two blocks with the padding |
| Chaining.XorTwiceIs | security/AESStringCrypt.c:309-316 | Adding the previous block twice gives the block back |
| Chaining.UnchainedChained | security/AESStringCrypt.c:290-338 | For any block cipher and its inverse, and whatever fills up the last block, unchaining the chained blocks gives the plaintext back at the front |
| Chaining.UnchainedAppended | security/AESStringCrypt.c:479-520 | One more block of ciphertext adds one more block of plaintext, chained to the block before |
| StringCryptSpec.OpeningUndoesClosing | security/AESStringCrypt.c:73-542 | For every password, IV and plaintext of any length, the container is accepted under the same password and opens to exactly the plaintext |
| StringCryptSpec.ContainerParts | security/AESStringCrypt.c:96-109 | Header, size byte, IV, text and HMAC lie where the reader looks for them |
| StringCrypt.HashWithPassword | security/AESStringCrypt.c:259-265 | One round hashes the digest and the password together |
| StringCrypt.DeriveKey | security/AESStringCrypt.c:251-266 | The key is the IV and zeros, hashed 8192 times with the password |
| StringCrypt.FillPads | security/AESStringCrypt.c:278-285 | ipad and opad are the key filled up with zeros and masked, as in section 2 of RFC 2104 |
| StringCrypt.FinishHmac | security/AESStringCrypt.c:340-347 | The hash of a text fed in pieces ends as the one-shot HMAC of section 2 of RFC 2104 |
| StringCrypt.EncryptNext | security/AESStringCrypt.c:303-337 | One block is chained, encrypted in place, hashed, written and becomes the next IV |
| StringCrypt.EncryptAll | security/AESStringCrypt.c:290-338 | The loop writes and hashes the chained blocks of the whole plaintext, a short last block filled up with what the buffer held |
| StringCrypt.CryptString | security/AESStringCrypt.c:73-352 | The ciphertext is the container for password, IV and plaintext, 53 + 16*ceil(n/16) bytes long; nothing behind it is written |
| StringCrypt.DecryptNext | security/AESStringCrypt.c:481-500 | One block is hashed, decrypted in place and unchained, and becomes the next IV |
| StringCrypt.DecryptAll | security/AESStringCrypt.c:479-520 | The loop recovers the plaintext block by block, the last one cut to its size, inside the output buffer, and hashes all ciphertext blocks |
| StringCrypt.DecryptString | security/AESStringCrypt.c:378-542 | Answers with the plaintext exactly for containers with the right header, whole blocks and matching HMAC, and with an error for all others |
| StringCryptMeaning.TagIs | security/AESStringCrypt.c:278-347 | The HMAC of a text is Sha256(o + Sha256(i + text)) for the key filled up to 64 bytes with zeros and masked with 0x5C and 0x36 |
| StringCryptMeaning.KeyIs | security/AESStringCrypt.c:251-266 | The key is the last of 8193 digests: the IV and 16 zeros, and then 8192 times the hash of the one before with the password |
| StringCryptMeaning.TextIs | security/AESStringCrypt.c:290-338 | Each block of the text is the encryption of the plaintext block added to the block before it, the IV for the first one; the last block is filled up arbitrarily |
| StringCryptMeaning.ContainerMeans | security/AESStringCrypt.c:73-352 | What is written is A, E, S, 0, the length modulo 16, the IV, such a text and the HMAC of the text |
| StringCryptMeaning.AcceptedMeans | security/AESStringCrypt.c:378-542 | A container is accepted if and only if it has the header, whole blocks and, as its last 32 bytes, the HMAC of its text under the key of its IV and the password |
| StringCryptMeaning.OpenedMeans | security/AESStringCrypt.c:479-520 | The plaintext of an accepted container is, block by block, the decrypted block added to the block before it, cut to its size |
| GetoptSpec.MatchIsUnique | lib/getopt.c:462-497 | At most one outcome meets the rule for long names: exact matches first, else the only abbreviated option |
| GetoptSpec.MatchLongIs | lib/getopt.c:462-497 | The search meets that rule, for every list of options, duplicates included |
| GetoptSpec.Skip | lib/getopt.c:363-372 | The first element from an index on that is an option, and only non-options before it |
| GetoptSpec.NextStep | lib/getopt.c:300-694 | Every call moves forward: to a later element, or to fewer characters of the same one |
| GetoptSpec.ScanPartitions | lib/getopt.c:244-298 | The elements that a scan takes and those it passes by are an interleaving of all elements, both in their original order |
| GetoptSpec.PassedAreNonOptions | lib/getopt.c:377-398 | What is passed by is a run of non-options and then the arguments from some element on: none when the last step took nothing, and all those behind the double dash when the last step took a double dash |
| GetoptReports.LongReports | lib/getopt.c:499-563 | Behind the dashes, name or name=a of an option that is found: a is the argument and one element is taken; without =a, a required argument is the next element and two are taken, or the report is : or ? at the end; an argument that is not allowed gives ?; the report is the value, or 0 and a store to the flag, with the index |
| GetoptReports.UnknownReports | lib/getopt.c:489-591 | A name that abbreviates more than one option, or none, gives ? and takes the element, except where getopt_long_only goes on to the short options |
| GetoptReports.ShortReports | lib/getopt.c:593-693 | A declared short option, with what follows it in its element: a flag is reported and the rest of the element is left; a required argument is the rest, or the next element, or missing, which gives : or ? and names the option; an optional one is the rest or nothing |
| GetoptReports.IllegalReports | lib/getopt.c:603-625 | A character that is not declared, or a colon, gives ? and is named, and the scan goes on behind it |
| GetoptReports.ClusterReports | lib/getopt.c:593-693 | A cluster of flags is reported as one event for each character, in order |
| GetoptReports.EndReports | lib/getopt.c:377-413 | The scan ends when no option is left or at the double dash, which is taken |
| GetoptReports.EveryCall | lib/getopt.c:300-694 | Every call comes to the text of an option or to the end, so these statements cover all calls |
| Getopt.Scanner.constructor | lib/getopt.c:84-121 | A scanner in front of its first call, for the given ARGV |
| Getopt.Scanner.Exchange | lib/getopt.c:221-242 | The blocks of non-options and of later options change places, keeping their order; the bounds follow |
| Getopt.Scanner.PassNonOptions | lib/getopt.c:346-375 | The skipped non-options are gathered in one block that ends at the next option |
| Getopt.Scanner.EndAtDashes | lib/getopt.c:382-398 | The double dash is taken as an option and everything behind it is passed by |
| Getopt.Scanner.Finish | lib/getopt.c:403-413 | At the end ARGV is the taken elements followed by the passed ones, and optind lies between them |
| Getopt.Scanner.Advance | lib/getopt.c:344-439 | Ends exactly where the scan ends, or stands in front of the next option with the right text left |
| Getopt.Scanner.LongAt | lib/getopt.c:448-591 | A long option is decoded as the scan says, or left for the short options exactly in the long_only case |
| Getopt.Scanner.TakeLong | lib/getopt.c:499-563 | Argument in the same or the next element, missing or not allowed, flag or value, as the scan says |
| Getopt.Scanner.ShortAt | lib/getopt.c:593-693 | The next option character with no, optional or required argument, or illegal, as the scan says |
| Getopt.Scanner.GetOpt | lib/getopt.c:300-694 | Each call reports what the next step of the left-to-right scan of the original ARGV reports, and keeps ARGV arranged |
| Getopt.FindLong | lib/getopt.c:449-488 | The loop over the long options with its flags finds the match |
| Getopt.MyIndex | lib/getopt.c:170-186 | The place of the first occurrence of the character |
| Getopt.CopyDown | lib/getopt.c:188-200 | Copying to lower places of the same array is not disturbed by overlap |
| Getopt.EventsAreNotEof | lib/getopt.c:300-694 | Unless a long option without a flag has the value -1, or the option characters include 255 where char is signed, no option is reported as -1 |
| Getopt.Run | lib/getopt.c:300-694 | Calls until -1 report exactly the results and arguments of the scan, up to the first option that has the value -1 itself; without such an option they report all of it and leave ARGV as program name, taken elements, passed elements, with optind at the first passed one |
| MicroHamFrames.FrameIsRead | src/microham.c:842-861 | From any state and after any bytes, a well-formed frame is read as that frame and nothing else |
| MicroHamFrames.UnitIsRead | src/microham.c:405-512 | Each write of the writers is read back: its radio, WinKey and status bytes in order, and its effect on the control string |
| MicroHamFrames.UnitsAreRead | src/microham.c:405-512 | The reader in any state gets all events of any run of writes, in order |
| MicroHamMessages.PttIsSet | src/microham.c:1243-1250 | Setting or clearing the PTT bit changes that bit alone |
| MicroHamMessages.ControlGrows | src/microham.c:466-495 | After k bytes of a control string the reader holds exactly its first k bytes, and passes it on after the last |
| MicroHamMessages.WkeyTouches | src/microham.c:624-636 | Every WinKey byte starts or ends a control string, because of its no-op frame |
| MicroHamMessages.MessageIsRead | src/microham.c:666-722 | Between control strings, a message is read with exactly its own control string if and only if it is no WinKey message with bytes and no control string shorter than two bytes |
| MicroHamMessages.ControlsAreRead | src/microham.c:400-512 | In any run of such messages every control string is read back, in order |
| MicroHamBounds.MessageMidway | src/microham.c:466-495 | Between messages a started control string has one byte; this says, for every message and after each of its units, whether one is started and how many bytes it has |
| MicroHamBounds.RunFits | src/microham.c:402-403 | Reading any run of whole messages whose control strings have at most 256 bytes, WinKey bytes and one-byte control strings included, never overruns the control string, at any byte |
| MicroHamBounds.RunIsReadable | src/microham.c:402-403 | So the array of 256 bytes is large enough at every byte of a run whose control strings have at most 256 |
| MicroHamBounds.LongOverruns | src/microham.c:466-495 | In any run of whole messages, a control string of more than 256 bytes overruns it at some unit |
| MicroHamBounds.RunFitsExactly | src/microham.c:402-403 | Any run of whole messages is read without an overrun exactly when none of its control strings has more than 256 bytes |
| MicroHamBounds.StreamFits | src/microham.c:400-512 | What the two threads write in any interleaving is read without an overrun, at any byte, if no message sent or begun is a control string of more than 256 bytes, and is overrun if any whole message is one |
| MicroHamBytes.FlagsAre | src/microham.c:571-600 | The four bytes of a status frame, as numbers |
| MicroHamBytes.RadioIs | src/microham.c:535-556 | The four bytes of a radio frame, as numbers, top bits in the header |
| MicroHamBytes.WkeyIs | src/microham.c:611-652 | The twelve bytes of a WinKey byte, as numbers |
| MicroHamBytes.ControlIs | src/microham.c:672-716 | The eight bytes of a control byte, as numbers |
| MicroHamBytes.FrameMeans | src/microham.c:405-512 | Any frame, by the bits of its header and its place in the sequence: the radio byte, and the shared byte as flags, control byte, WinKey or PS/2 byte, or nothing |
| MicroHamBytes.StrayByte | src/microham.c:842-861 | Bytes that belong to no frame are ignored, and a byte below 128 always starts a frame |
| MicroHamDevice.Device.WriteRadio | src/microham.c:520-564 | One frame for each byte, with the status byte in it, in order |
| MicroHamDevice.Device.WriteFlags | src/microham.c:571-600 | One status frame |
| MicroHamDevice.Device.WriteWkey | src/microham.c:607-659 | Three frames for each byte: status, no-op and the byte |
| MicroHamDevice.Device.WriteControl | src/microham.c:666-722 | Two frames for each byte: status and the byte, the first and the last not marked valid |
| MicroHamDevice.Device.SetPtt | src/microham.c:1233-1253 | Sets the PTT bit alone and writes a status frame, or does nothing while PTT is not open |
| MicroHamDevice.Device.GetPtt | src/microham.c:1256-1268 | Reports the PTT bit |
| MicroHamReceiver.SocketsAre | src/microham.c:430-511 | Radio bytes go to the radio socket, WinKey bytes to the WinKey socket, flags and PS/2 bytes to none |
| MicroHamReceiver.Receiver.TakeControl | src/microham.c:466-495 | The control byte starts, ends or continues the control string in the array |
| MicroHamReceiver.Receiver.ParseFrame | src/microham.c:405-512 | The frame changes the globals and the sockets as the decoder says |
| MicroHamReceiver.Receiver.ReadByte | src/microham.c:842-861 | One byte changes the frame buffer and, when it completes a frame, everything else, as the decoder says |
| MicroHamReceiver.Receiver.ReadAll | src/microham.c:840-862 | So does a run of bytes, as long as the control string fits its array |
| MicroHamThreads.StepKeepsGood | src/microham.c:520-722 | Every step of either thread keeps the lock discipline, the wholeness of messages and the stream |
| MicroHamThreads.StreamIsWholeMessages | src/microham.c:531-563 | For any interleaving the stream is a concatenation of whole messages, and of the beginning of one while the lock is held |
| MicroHamThreads.StreamIsReadBack | src/microham.c:837-863 | Read back, the stream of any interleaving gives every event in order, and every control string if all messages allow it |
| MicroHamThreads.FlagFrameSettles | src/microham.c:1233-1253 | When the flag frame of uh_set_ptt is written, no other thread holds a frame with the old bit |
| MicroHamThreads.SettledRun | src/microham.c:520-722 | From a settled state, every unit that any interleaving writes has the settled PTT bit, until uh_set_ptt is called |
| MicroHamThreads.PttHolds | src/microham.c:1233-1268 | After the flag frame of uh_set_ptt(p), in any interleaving and until the next uh_set_ptt, every frame with the status byte has the PTT bit p, and uh_get_ptt reports p |
| Locator.Ordinate | src/locator.c:481-508 | The centre of the square named by the digits, or a failure exactly when a character is out of range |
| Locator.Locator2Longlat | src/locator.c:452-514 | Longitude and latitude of the centre, for one to six pairs; longer locators are cut, shorter or malformed ones refused |
| Locator.DigitBounds | src/locator.c:576-580 | Taking a digit leaves less than a square, and the digit is in range |
| Locator.ExtractTail | src/locator.c:574-583 | Taking digits out of what they add up to gives them back, as long as less than a square is added |
| Locator.ShiftedIs | src/locator.c:571-572 | From -90 to below 90 - 1e-6, fmod leaves the distance from -90 and the guard |
| Locator.PutDigits | src/locator.c:566-584 | Writes the digits of one ordinate in every other place and leaves the rest |
| Locator.Longlat2Locator | src/locator.c:546-589 | Refuses other pair counts without writing; otherwise writes the generated digits of both ordinates and the terminator, and nothing more |
| Locator.LocatorRoundTrip | src/locator.c:452-589 | For every valid locator of one to six pairs, converting there and back at the same pair count gives it in upper case |
| Locator.CentreIsNear | src/locator.c:546-589 | For every ordinate from -90 to below 90 - 1e-6, all generated digits are in range and the centre of their square is within half a square and 1e-6 |
| Locator.PairsAre | src/locator.c:464-478 | At most six pairs count, and there has to be one |
| Locator.DigitsAre | src/locator.c:481-486 | The first character of a pair is for the longitude, the second one for the latitude |
| Locator.TextIs | src/locator.c:566-584 | The same when writing |
| Locator.DistanceIs | src/locator.c:572-572 | From -90 to below 89.999999, fmod leaves the distance from the south pole and 1e-6 |
| Locator.CentreIs | src/locator.c:481-508 | The centre in degrees, digit by digit, for each number of pairs: 10, 1, 1/24, 1/240, 1/5760 and 1/57600 for the digits, and half a square |
| Locator.CharactersAre | src/locator.c:488-493 | 0, A and a are the digit 0, the next character is one more, and pairs take turns between letters and digits |
| Locator.AcceptedAre | src/locator.c:495-498 | The characters of a pair: A to R in the first one, digits in every second one, A to X in the others, in either case |
| Locator.FmodIs | src/locator.c:572-572 | fmod leaves a remainder with the sign of the number, smaller than a half circle, that differs by whole half circles |
| Calibration.Raw2ValFloat | src/cal.c:140-184 | The value of the piecewise-linear function of the table |
| Calibration.Raw2Val | src/cal.c:61-117 | The same for a table of integers |
| Calibration.Raw2ValCheap | src/cal.c:104-110 | The value of its integer variant, with the division of C |
| Calibration.GuardUnreachable | src/cal.c:98-102 | For every table, sorted or not, the two points of the interpolation have different raw values around the given one |
| Calibration.ValueBracketed | src/cal.c:80-116 | With a rising table the value lies between those of the points around it, and meets the lower one at its raw value |
| Calibration.ValueRises | src/cal.c:61-117 | With a rising table a larger raw value never gives a smaller value |
| Calibration.IntValueIsClose | src/cal.c:104-116 | For every table the integer variant is less than 1 away from the real one |
| Calibration.IntValueRises | src/cal.c:104-110 | With a rising table the integer variant does not fall either |
| Calibration.OnTheLine | src/cal.c:80-116 | For every table, the value is the first point's below it, and between two points it is on their straight line: (value - v0) * (r1 - r0) == (x - r0) * (v1 - v0) |
| Calibration.OutsideTheLine | src/cal.c:72-75 | With no point above, the value is the last point's, or the raw value itself without any points |
| Calibration.IntOnTheLine | src/cal.c:104-110 | What the integer variant takes off the value of the point above is the exact fraction cut toward zero |

## Left out

- NULL arguments, allocation failure and allocator hooks: every pointer argument is given and every allocation succeeds.
- Raw items, reference items, constant keys and case folding beyond ASCII in cJSON.
- Printing numbers that are not whole or not below 10^15 in absolute value, and the rounding of `strtod` to a `double`: number texts are read as exact reals, and the locale's decimal point is a dot.
- Where a failing parse reports its error: the position is modelled as the code has it, and not stated in any other way.
- `cJSON_ParseWithLength` on buffers without a terminator, `cJSON_PrintBuffered`, the `cJSON_Is*` and `cJSON_Add<type>ToObject` wrappers, and the other `Create*Array` functions, whose loops are that of `cJSON_CreateDoubleArray`.
- JsonRun.Program.Run: a tree that is given to a container is one of its own and not part of another; detaching or replacing under a key is on objects, since items of an array may have any key; and an item without a key does not become a member.
- JsonCompare.Compare: two trees that share nodes without one being a subtree of the other are not modelled.
- JsonRoundTrip.ParseUndoesPrint: numbers are whole and below 10^15, where printing them does not round.
- JsonMinifyText.MinifyUndoesFormatting: numbers are whole and below 10^15, as for the printer.
- JsonPrinter.PrintBuffer.PrintValue: numbers are whole and below 10^15, as for the text.
- JsonStringParser.WriteUtf8: shifts and masks of the code point are written as division and remainder.
- Passwords of 2^32 bytes or more, and containers above the 2^61 bytes that the hash allows.
- The counters of `sha256_context` are unbounded numbers with an explicit wrap at 2^32 for the lower one; the upper one cannot overflow below 2^61 bytes.
- Where the IV and the first contents of the block buffer of `AESStringCrypt` come from: both are arbitrary inputs.
- StringCrypt.DecryptString: behind a correct header a size byte above 16, for which the source copies bytes that it never set, is not modelled; `AESStringCrypt` writes none.
- The tables of `security/aes.c` under FIXED_TABLES, which are constants instead of generated.
- Error messages of getopt, the modes REQUIRE_ORDER and RETURN_IN_ORDER (so `optstring` does not start with `-` or `+`), GETOPT_COMPAT, and calls after the first EOF.
- Getopt.Run: after an option with the value -1 the run is over, as a caller cannot tell it from EOF.
- microHam device discovery, sockets, `select`, time, partial writes and failed writes; one `write` is one step, and the status byte is read once for it.
- MicroHamReceiver.Receiver.ReadAll: the control string has to fit its 256 bytes; MicroHamBounds.StreamFits says when it does, for everything that the writers send.
- Rounding of `float` and `double` in locator and calibration, overflow of `int` in the integer variant, and great-circle distance and bearing.
- Everything else in Hamlib: rig, rotator and amplifier back ends, port and operating-system calls, configuration and caches.
