# cpptoml in Dafny

A model of cpptoml, the single-header TOML reader, and of the `escape_string` helper of its
`parse_stdin` demo, with proofs about the model.

## What the model covers

- **Document model** (module `Document`, `document.dfy`). A TOML node is a datatype `Value`.
  - The leaf kinds are string, 64-bit integer, float (kept as its token text), boolean and `datetime`.
  - The other kinds are `array`, `table` and `table_array`.
  - A `Table` maps keys to nodes.
  - The table operations are `insert`, `contains`, `get`, the typed getters (`get_table`, `get_array`, `get_table_array`) and `get_as<T>`.
  - Qualified keys (`a.b.c`) go through `split` and `resolve_qualified`.
  - Each exception the library throws (`std::out_of_range`) is an `Err` result.
- **Printing** (module `Printer`). This covers `operator<<` for `datetime`, `value<T>::print`, `array::print`, `table::print` with its tab indentation, and `table_array::print`.
- **Lexical scanners** (modules `Lexer` and `Scalars`). Each one works on one line and a column in it:
  - whitespace;
  - `eol_or_comment`;
  - bare and quoted keys;
  - escape codes and single-line strings;
  - the per-line step of multi-line strings;
  - numbers with the `_` rule and the int64 range;
  - booleans;
  - the fixed-width date format.

  Each scanner that loops in the source is a method with that loop. It is proved equal to a reference function, and the properties are lemmas about that function. `parse_bool` and the end-of-line test have no loop, so they are functions only.
- **Value parser** (module `Values`). Reference functions over the whole input cover `parse_value`, `parse_string`, `parse_multiline_string`, `parse_array`, `parse_value_array<T>`, `parse_object_array`, `parse_inline_table` and `parse_key_value`.
  - A value can run over several lines.
  - A position is therefore a cursor: the line number (`line_number_`, counting from 1) and a column.
- **Headers** (module `Headers`). `[a.b]` and `[[a.b]]` walk the tree one name segment at a time.
  - The parser's current table (the `curr_table` pointer) is a path from the root.
  - Each step of the path is either "the table under key k" or "the last table of the table array under key k".
- **Line driver** (module `Structure`). `parse()` reads lines one at a time:
  - blank and comment lines are skipped;
  - a `[` line is a header and resets the current table to the root;
  - any other line is a key/value pair followed by nothing but a comment.
- **The parser object** (module `Parsing`, class `Parser`). It has the fields of `class parser`: the input lines, `line_` and `line_number_`.
  - Its methods read further lines where the source calls `std::getline`.
  - Each method is proved equal to the reference function at the cursor it starts from.
  - On an error, each method is proved to report the number of lines read so far.
- **Properties** (modules `Properties` and `RoundTrip`). These modules hold the lemmas that relate several operations:
  - arrays are homogeneous;
  - duplicate keys are rejected;
  - blank lines are skipped;
  - headers behave as described in the Headers section;
  - multi-line strings behave as the source describes;
  - printed integers, booleans and dates parse back as themselves;
  - escaped strings decode back to the original.
- **`escape_string`** (module `Escape`). Every `\` and `"` gets a backslash in front of it.

Errors are a `ParseError(kind, line)`: the kind of `throw_parse_exception` and `line_number_` at the throw.

In a few places the source reads outside the line, which is undefined behaviour in C++. The model picks a defined outcome for each:
- `=` is missing after a key at the end of a line, or a line ends inside `{`. The source dereferences `end`. The model reads the missing character as one that matches nothing. This gives the error the source reports for a non-matching character.
- A `[a` header has no closing `]`. The source steps past `end` and goes on scanning (include/cpptoml.h:859-861). The model stops with `UnterminatedTableName`, a kind of its own that the source never throws.
- A bare key is empty (nothing stands before its `=`). The source moves `key_end` one position before the start of the range (include/cpptoml.h:993-996). The model reads that character. A non-blank one gives the empty key `""`, as the source does. A blank one would make the source walk further back, and at the start of the line there is no character at all. In both cases the model stops with `EmptyBareKey`, another kind of its own.

## Model

| member | source | states |
|---|---|---|
| Document.IsValue | include/cpptoml.h:123-126 | `is_value` holds exactly for the leaves: every node that is not an array, a table or a table array |
| Document.As | include/cpptoml.h:259-265 | `as<T>` gives the node exactly when it is a leaf of kind T, and nothing otherwise |
| Document.ArrayAt | include/cpptoml.h:300-303 | `at(i)` gives element i exactly when i is in range, and otherwise fails with out_of_range |
| Document.ArrayOf | include/cpptoml.h:309-321 | `array_of<T>` keeps the length and converts each element to itself if it has kind T, otherwise to nothing |
| Document.NestedArray | include/cpptoml.h:327-340 | `nested_array` keeps the length and gives each element's values exactly when that element is an array |
| Document.IsEmpty | include/cpptoml.h:432-435 | `empty` holds exactly when the table is the empty map |
| Document.Contains | include/cpptoml.h:440-443 | `contains` holds only in a table that is not empty (it is key presence, the same condition under which `get` succeeds) |
| Document.Get | include/cpptoml.h:459-462 | `get` succeeds exactly when the key is present, gives the stored node, and fails with out_of_range otherwise |
| Document.GetTable | include/cpptoml.h:481-486 | `get_table` gives a table exactly when the key is present and holds a table |
| Document.GetArray | include/cpptoml.h:502-507 | `get_array` gives values exactly when the key is present and holds an array |
| Document.GetTableArray | include/cpptoml.h:522-527 | `get_table_array` gives tables exactly when the key is present and holds a table array |
| Document.GetAs | include/cpptoml.h:545-559 | `get_as<T>` answers nothing for a missing key and for a key of another kind, and otherwise gives the stored node |
| Document.Insert | include/cpptoml.h:585-599 | `insert` adds the key (replacing an existing entry), stores v under it, and leaves every other entry unchanged |
| Document.InsertFresh | include/cpptoml.h:585-599 | inserting a new key strictly grows the key set and overwrites no entry |
| Document.InsertWellFormed | include/cpptoml.h:585-599 | inserting a well-formed node keeps every table array of the tree non-empty |
| Document.PartsCount | include/cpptoml.h:609-622 | splitting gives one more part than there are separators |
| Document.PartsHaveNoSeparator | include/cpptoml.h:609-622 | no part of a split contains the separator |
| Document.PartsJoin | include/cpptoml.h:609-622 | joining the parts with the separator gives the input back |
| Document.PartsAtFirst | include/cpptoml.h:609-622 | a split is the text before the first separator followed by the split of the rest |
| Document.PartsWithoutSeparator | include/cpptoml.h:609-622 | text without the separator splits into itself alone |
| Document.Find | include/cpptoml.h:615 | `std::string::find` gives the first index of the character at or after p, or nothing if there is none |
| Document.SplitStep | include/cpptoml.h:615-619 | one pass of the split loop takes off exactly the next part |
| Document.Split | include/cpptoml.h:609-622 | the split loop returns exactly the parts of the reference split |
| Document.ResolveQualified | include/cpptoml.h:629-654 | the resolution loop finds exactly the node the qualified key names, and nothing where the source returns false or throws |
| Document.ContainsQualified | include/cpptoml.h:450-453 | true exactly when every prefix part names a table and the last part is a key of the table reached |
| Document.GetQualified | include/cpptoml.h:471-476 | succeeds with the named node exactly when the key resolves, and fails with out_of_range otherwise |
| Document.GetTableQualified | include/cpptoml.h:492-497 | gives a table exactly when the qualified key names a table |
| Document.GetArrayQualified | include/cpptoml.h:512-517 | gives values exactly when the qualified key names an array |
| Document.GetTableArrayQualified | include/cpptoml.h:533-539 | gives tables exactly when the qualified key names a table array |
| Document.GetQualifiedAs | include/cpptoml.h:566-580 | never fails: answers nothing when the key does not resolve or names another kind, and otherwise gives the node |
| Document.UnqualifiedLookup | include/cpptoml.h:629-654 | a key without a dot is looked up exactly as `get` would look it up |
| Document.ReachAppend | include/cpptoml.h:637-647 | walking a prefix `a + b` walks `a` and then walks `b` from the table reached |
| Document.LookupDescends | include/cpptoml.h:629-654 | `head.rest` is `rest` looked up in the table `head` names, and nothing when `head` names no table |
| TablePath.ReplaceChild | include/cpptoml.h:585-599 | replacing the child under one step keeps the keys and every other entry; under a key the entry becomes the new table, under a table array only its last table is replaced |
| TablePath.UpdateAt | include/cpptoml.h:757 | writing a table back at a path: afterwards the path leads to exactly the new table; for a non-empty path the root keeps its keys and every root entry off the path is unchanged |
| TablePath.UpdateAtSame | include/cpptoml.h:757 | writing back the table found at a path leaves the tree unchanged |
| TablePath.PathAppend | include/cpptoml.h:797-837 | a path is walked piecewise: `a + b` is valid iff `a` is and `b` is valid from where `a` ends, and it leads to the same table |
| TablePath.Descend | include/cpptoml.h:812-831 | one more segment is valid exactly when its step can be taken from the current table, and it leads to that child |
| TablePath.ValidPrefix | include/cpptoml.h:797-837 | every prefix of a valid path is valid |
| TablePath.UpdateWellFormed | include/cpptoml.h:757 | replacing a table inside a well-formed tree with a well-formed table keeps the tree well formed |
| TablePath.ChildWellFormed | include/cpptoml.h:818-821 | the table below one step of a well-formed table is well formed |
| TablePath.TableAtWellFormed | include/cpptoml.h:818-821 | every table along a valid path of a well-formed tree is well formed, so `back()` is never taken on an empty table array |
| KeyOrder.BelowTotal | include/cpptoml.h:658-680 | the order the printer writes keys in is total |
| KeyOrder.BelowAntisymmetric | include/cpptoml.h:658-680 | the key order is antisymmetric |
| KeyOrder.BelowTransitive | include/cpptoml.h:658-680 | the key order is transitive |
| KeyOrder.FirstExists | include/cpptoml.h:658-680 | every non-empty set of keys has a least key |
| KeyOrder.First | include/cpptoml.h:658-680 | the chosen key belongs to the set and comes no later than any key of it |
| KeyOrder.Sorted | include/cpptoml.h:658-680 | every key of the table is listed exactly once, in strictly increasing order |
| Printer.NatText | include/cpptoml.h:75-105 | the decimal text of a natural number is non-empty, all digits, with no leading zero |
| Printer.IntText | include/cpptoml.h:240-255 | the text of an integer is non-empty and made of digits and a minus sign |
| Printer.Pad | include/cpptoml.h:80-83 | `setw` with fill `0` makes the text at least w long and keeps its last character |
| Printer.Field | include/cpptoml.h:80-83 | a zero-padded field is at least its width long |
| Printer.DateTimeText | include/cpptoml.h:75-105 | a printed date is always at least 20 characters long: 19 for the date and time, at least one for the zone |
| Printer.HeadZoneNoDot | include/cpptoml.h:81-100 | neither the date/time fields nor the zone of a printed date contain a `.` |
| Printer.ZoneLast | include/cpptoml.h:90-100 | the zone ends in `Z` exactly when both offsets are zero |
| Printer.DateTimeTextFormat | include/cpptoml.h:75-105 | a printed date ends in `Z` iff both offsets are zero, and has a `.` iff the microsecond count is positive |
| Printer.Repeat | include/cpptoml.h:667 | n copies of one character: the indent of n tabs for depth n (and the `'0'` fill of `setw`) |
| Printer.PrintValue | include/cpptoml.h:240-255 | printing a node writes exactly its reference text, whatever its kind |
| Printer.PrintArray | include/cpptoml.h:342-353 | an array prints as `[ `, its elements separated by `, `, then ` ]` |
| Printer.PrintTable | include/cpptoml.h:656-681 | printing a table writes exactly the reference text of its entries, in key order |
| Printer.PrintEntries | include/cpptoml.h:658-680 | the entry loop writes the entries named by the key list, one after another |
| Printer.EntriesStep | include/cpptoml.h:658-680 | the text of the entries from i on is entry i followed by the entries after it |
| Printer.PrintEntry | include/cpptoml.h:660-679 | one entry: a table array through its own print, a table as `key = ` and a newline followed by the table one tab deeper, any other node as `key = value` on its own line |
| Printer.PrintTableArray | include/cpptoml.h:685-693 | a table array prints a `[[key]]` line before each of its tables |
| Printer.FractionQuirk | include/cpptoml.h:85-88 | the fraction `.5`, which the parser reads as 5 microseconds, prints as `.000005` |
| Printer.OffsetQuirk | include/cpptoml.h:90-98 | a zero hour offset with a positive minute offset prints with a minus sign |
| Escape.Escaped | parse_stdin.cpp:6-19 | escaping never shortens a string, and the last character of the input stays the last character of the output |
| Escape.EscapedAppend | parse_stdin.cpp:8-18 | escaping `s + [c]` is the escape of `s` followed by the escape of `c` |
| Escape.EscapeString | parse_stdin.cpp:6-19 | the loop yields the escape of the whole input, character by character |
| Escape.EscapedLength | parse_stdin.cpp:6-19 | the output is longer than the input by the number of `\` and `"` characters |
| Escape.EscapedPlain | parse_stdin.cpp:15-16 | a string with no `\` and no `"` is returned unchanged |
| Escape.EscapedInjective | parse_stdin.cpp:11-16 | different strings never escape to the same text |
| RoundTrip.EscapeRoundTrip | parse_stdin.cpp:6-19 | `"` + `escape_string(s)` + `"` read by the basic-string scanner gives back exactly `s` |
| RoundTrip.EscapedBody | include/cpptoml.h:1232-1256 | the escaped text of `s` before a `"` decodes as a string body to `s` |
| RoundTrip.EscapeCharRead | include/cpptoml.h:1258-1299 | one escaped character decodes back to that character |
| Lexer.SkipWs | include/cpptoml.h:1645-1650 | the first position at or after i that is not a space or tab |
| Lexer.FindEnd | include/cpptoml.h:1411-1414 | the first position at or after i holding a stop character, with none before it, or the end of the line: the end of a boolean token (stops: space, tab, `#`), and by the same scan the look-ahead bound of an array element at cpptoml.h:1528-1531 (stops: `,`, `]`, `#`) |
| Lexer.ConsumeWhitespace | include/cpptoml.h:1645-1650 | the loop stops at the first non-blank position |
| Lexer.TrimBack | include/cpptoml.h:1652-1657 | walking down from `back` stops on a non-blank or at `front`, and everything skipped is blank |
| Lexer.ConsumeBackwardsWhitespace | include/cpptoml.h:1652-1657 | the backwards loop stops where `TrimBack` says |
| Lexer.EolOrComment | include/cpptoml.h:1659-1665 | no error exactly at the end of the line or on a `#`; otherwise a trailing-character error |
| Lexer.Unescaped | include/cpptoml.h:1265-1293 | exactly the codes b t n f r " and backslash have a meaning; `"` and backslash stand for themselves, the five letters for control characters below space |
| Lexer.EscapeCode | include/cpptoml.h:1258-1299 | succeeds exactly for the codes b t n f r " and backslash, gives their characters and consumes two characters; anything else, or a backslash at the end of the line, is an invalid escape |
| Lexer.LiteralBody | include/cpptoml.h:1237-1255 | a string body ends right after its closing delimiter; it fails only with an unterminated string or an invalid escape |
| Lexer.LiteralSpec | include/cpptoml.h:1232-1256 | a single-line string consumes at least its two delimiters |
| Lexer.StringLiteral | include/cpptoml.h:1232-1256 | the scanning loop computes exactly the reference single-line string |
| Lexer.LiteralVerbatim | include/cpptoml.h:1244-1253 | a `'` string is the verbatim text up to the next `'` |
| Lexer.LiteralUnterminated | include/cpptoml.h:1237-1255 | a string whose delimiter does not occur again on the line is an error |
| Lexer.KeyEnd | include/cpptoml.h:985 | the first position at or after i holding the key's terminator (`=` in a pair, `]` or `.` in a header) |
| Lexer.BareKeySpec | include/cpptoml.h:990-1024 | an accepted bare key has trailing blanks trimmed and contains no `#`, blank or bracket; the errors are exactly those four kinds |
| Lexer.BareKeyAccepts | include/cpptoml.h:990-1024 | a run of key characters followed by blanks is accepted as exactly that run |
| Lexer.ParseBareKey | include/cpptoml.h:990-1024 | the trimming and checking loops compute exactly the reference bare key |
| Lexer.KeySpec | include/cpptoml.h:975-988 | a key never moves the cursor backwards, and a non-empty key consumes input |
| Lexer.ParseKey | include/cpptoml.h:975-988 | `parse_key` with `parse_quoted_key` computes exactly the reference key |
| Lexer.BareKeyStops | include/cpptoml.h:985-986 | a bare key stops on its terminator or at the end of the line |
| Lexer.LineChars | include/cpptoml.h:1170-1204 | a line of a multi-line string closes only after three delimiters, and fails only on an invalid escape |
| Lexer.HandleLineSpec | include/cpptoml.h:1156-1205 | the closing position of a line is after the three delimiters |
| Lexer.HandleLine | include/cpptoml.h:1156-1205 | the `handle_line` loop computes exactly the reference line outcome |
| Lexer.LiteralLineOpen | include/cpptoml.h:1170-1204 | in a `'''` string a line without `'''` is taken verbatim and keeps the string open |
| Lexer.LiteralLineCloses | include/cpptoml.h:1170-1204 | in a `'''` string the text before the first `'''` is taken verbatim and the string closes after it |
| Scalars.DigitsValueBound | include/cpptoml.h:1447-1456 | n digits have a value below 10^n |
| Scalars.RunEnd | include/cpptoml.h:1318-1327 | the end of the run of digits and underscores that starts at c |
| Scalars.DigitGroups | include/cpptoml.h:1315-1331 | an accepted digit run is non-empty; a rejected one is a malformed number |
| Scalars.BadUnderscore | include/cpptoml.h:1321-1326 | an underscore not followed by a digit makes the number malformed |
| Scalars.EatNumbers | include/cpptoml.h:1315-1331 | the `eat_numbers` loop computes exactly the reference digit-group scan |
| Scalars.GoodGroups | include/cpptoml.h:1315-1331 | a run ending on a digit, with every underscore between two digits, is accepted up to its end |
| Scalars.SignEnd | include/cpptoml.h:1307-1311 | an optional `+` or `-` is stepped over |
| Scalars.Strip | include/cpptoml.h:1367-1368 | removing underscores leaves no underscore and does not lengthen the text |
| Scalars.Stoll | include/cpptoml.h:1364-1384 | an integer conversion that succeeds is inside the int64 range |
| Scalars.FloatTail | include/cpptoml.h:1336-1357 | the float part consumes at least one character; its errors are a malformed number or missing digits |
| Scalars.NumberSpec | include/cpptoml.h:1301-1362 | a number gives an int64 or a float whose text is the token with underscores stripped; its errors are a malformed number or missing digits |
| Scalars.ParseFloatTail | include/cpptoml.h:1336-1357 | the float branch computes exactly the reference float part |
| Scalars.ParseNumber | include/cpptoml.h:1301-1362 | `parse_number` computes exactly the reference number |
| Scalars.NumberNeedsGroups | include/cpptoml.h:1315-1331 | a mantissa that is not valid digit groups is a malformed number |
| Scalars.NumberIntShape | include/cpptoml.h:1333-1372 | an integer result is a sign and valid digit groups with nothing float-like after them, and its value is the signed value of the stripped digits |
| Scalars.NumberFloatPath | include/cpptoml.h:1336-1357 | a `.`, `e` or `E` right after the digit groups gives a float or an error, never an integer |
| Scalars.ParseBool | include/cpptoml.h:1408-1423 | succeeds exactly when the token is `true` or `false` and gives that boolean; otherwise an invalid-boolean error |
| Scalars.BoolBeforeComma | include/cpptoml.h:1411-1422 | `true,` is not a boolean, because the token runs up to a blank or `#` |
| Scalars.DateEnd | include/cpptoml.h:1425-1433 | the end of the run of characters `find_end_of_date` accepts |
| Scalars.LooksLikeDate | include/cpptoml.h:1674-1685 | the fallback `is_date` holds only for a run of at least 20 date characters with `-`, `-`, `T`, `:`, `:` at offsets 4, 7, 10, 13 and 16 |
| Scalars.DigitRunEnd | include/cpptoml.h:1476-1477 | the end of the run of digits starting at p |
| Scalars.FractionEnd | include/cpptoml.h:1473-1477 | the fraction ends at or after where it starts |
| Scalars.ZoneSpec | include/cpptoml.h:1479-1502 | a zone that is neither `Z` nor `±HH:MM` ending the date is a malformed date |
| Scalars.DateSpec | include/cpptoml.h:1435-1505 | an accepted date is a date value that ends exactly at the end of the date run; every failure is a malformed date |
| Scalars.EatDigits | include/cpptoml.h:1447-1456 | succeeds exactly when n digits are there, and gives their value |
| Scalars.Eat | include/cpptoml.h:1440-1445 | succeeds exactly when the expected character is there, and steps over it |
| Scalars.EatDatePart | include/cpptoml.h:1460-1464 | succeeds exactly on `YYYY-MM-DD` and gives the three fields |
| Scalars.EatTimePart | include/cpptoml.h:1465-1470 | succeeds exactly on `THH:MM:SS` and gives the three fields |
| Scalars.EatFraction | include/cpptoml.h:1472-1477 | the fraction loop reads all fraction digits as one integer, with no truncation |
| Scalars.ParseZone | include/cpptoml.h:1479-1502 | the zone code computes exactly the reference zone |
| Scalars.ParseDate | include/cpptoml.h:1435-1505 | `parse_date` computes exactly the reference date |
| Scalars.DateFieldRanges | include/cpptoml.h:1435-1505 | a parsed date has fields within their printed widths, a non-negative fraction, and two offsets of one sign |
| Scalars.NumberType | include/cpptoml.h:1097-1117 | the number look-ahead answers integer or float |
| Scalars.FloatLookaheadIsFloat | include/cpptoml.h:1097-1117 | when the look-ahead says float and the number parses, the value is a float |
| Scalars.DigitsThenNotDate | include/cpptoml.h:1425-1433 | digits followed by a character that cannot continue a date are not looked ahead as a date |
| Scalars.DetermineValueType | include/cpptoml.h:1067-1095 | fails exactly when nothing starts a value; a string starts with a quote; a date looks like a date; a boolean starts with t/f; an array with `[`; an inline table with `{` |
| Scalars.ExponentLooksInteger | include/cpptoml.h:1097-1117 | any digit run followed by `e` or `E` is looked ahead as an integer, although it parses as a float |
| Scalars.UnderscoreLooksInteger | include/cpptoml.h:1097-1117 | any digit run followed by `_` is looked ahead as an integer, even when a fraction follows |
| Scalars.GroupedFractionQuirk | include/cpptoml.h:1097-1117 | `1_0.5` is looked ahead as an integer but parses as the float `10.5` |
| RoundTrip.NatTextValue | include/cpptoml.h:75-105 | the printed digits of n read back as n |
| RoundTrip.NatTextLength | include/cpptoml.h:81-83 | a number below 10^w prints in at most w digits |
| RoundTrip.LeadingZeros | include/cpptoml.h:1447-1456 | leading zeros do not change the value of a digit run |
| RoundTrip.FieldValue | include/cpptoml.h:81-83 | a zero-padded field is all digits, reads back as its number, and has its exact width when the number fits |
| RoundTrip.IntRoundTrip | include/cpptoml.h:1301-1384 | a printed int64 followed by a non-number character parses back to the same integer and ends right after its text |
| RoundTrip.BoolRoundTrip | include/cpptoml.h:1408-1423 | a printed boolean followed by a blank, a `#` or the end of the line parses back to the same boolean |
| RoundTrip.DateRoundTrip | include/cpptoml.h:1435-1505 | a printable date, printed and followed by a non-date character, parses back to the same date |
| RoundTrip.DateFromParts | include/cpptoml.h:1435-1505 | a head, fraction and zone that read as the fields of dt make `parse_date` give dt |
| RoundTrip.ZoneScan | include/cpptoml.h:1479-1502 | the printed zone reads back as the two offsets |
| RoundTrip.OffsetRead | include/cpptoml.h:1485-1495 | `±HH:MM` reads as the two offsets, both negated after `-` |
| RoundTrip.FractionScan | include/cpptoml.h:1473-1477 | the printed fraction reads back as the microsecond count |
| RoundTrip.HeadScan | include/cpptoml.h:1460-1470 | the printed `YYYY-MM-DDTHH:MM:SS` reads back field by field |
| RoundTrip.DateEndOfText | include/cpptoml.h:1425-1433 | `find_end_of_date` stops right after a printed date |
| Values.SkipBlanks | include/cpptoml.h:1645-1650 | blank-skipping stays on the line and stops at the first non-blank |
| Values.SkipWsComments | include/cpptoml.h:1630-1643 | stops on a character that is neither blank nor `#`, reading further lines; running out of lines is an unclosed-array error on the last line |
| Values.SkipWsCommentsBlanks | include/cpptoml.h:1630-1643 | blanks in front of the cursor do not change where the skip ends |
| Values.MultilineLines | include/cpptoml.h:1212-1229 | the string closes at least three columns into a later line; running out of lines is an unterminated-string error |
| Values.MultilineSpec | include/cpptoml.h:1142-1230 | a multi-line string gives a string value and moves forward; errors are reported at or after its first line |
| Values.StringSpec | include/cpptoml.h:1119-1141 | a string gives a string value and moves forward |
| Values.TablesOf | include/cpptoml.h:1546-1548 | the tables held by an array of inline tables, one per element |
| Values.Separator | include/cpptoml.h:1566-1570 | after an element: a `,` moves on to the next element, anything else stops on a character that is not `,` |
| Values.ValueSpec | include/cpptoml.h:1043-1065 | a value is well formed and moves the cursor forward; errors are reported at or after its line |
| Values.ScalarSpec | include/cpptoml.h:1049-1057 | a string, date, number or boolean value is well formed and moves forward |
| Values.ArraySpec | include/cpptoml.h:1507-1553 | an array gives an array or a table array (for inline tables) and moves forward |
| Values.ArrayBody | include/cpptoml.h:1528-1551 | the body after the first element's look-ahead gives an array or a table array |
| Values.ValueElems | include/cpptoml.h:1554-1575 | every element of a scalar array has the array's kind |
| Values.ValueNext | include/cpptoml.h:1566-1574 | every element after a separator has the array's kind |
| Values.ValueElemsStep | include/cpptoml.h:1559-1570 | a `]` ends the scalar array; otherwise one element is read, checked against the kind, and the separator decides what follows |
| Values.ValueNextStep | include/cpptoml.h:1566-1574 | after a scalar element the separator leads to the next element, or its character is stepped over |
| Values.ObjectElems | include/cpptoml.h:1576-1603 | every element of an array of arrays is an array or, for an inner `[{…}]`, a table array; every element of an array of inline tables is a table, and the array is non-empty unless it starts with `]` |
| Values.ObjectNext | include/cpptoml.h:1590-1603 | the elements after a separator have the right kind |
| Values.ObjectElemsStep | include/cpptoml.h:1586-1596 | one element is parsed and the separator decides what follows |
| Values.ObjectElemsEnd | include/cpptoml.h:1584-1602 | with no element starting, a `]` ends the array and any other character is an error |
| Values.ObjectNextStep | include/cpptoml.h:1590-1603 | after an element the separator leads to the next element, or the array must end with `]` |
| Values.ObjectSpec | include/cpptoml.h:1589 | a `[` element is an array, a `{` element is an inline table |
| Values.InlineTableSpec | include/cpptoml.h:1605-1628 | an inline table is a well-formed table value |
| Values.InlineEntries | include/cpptoml.h:1609-1618 | each pass adds at least one new key to the table |
| Values.InlineNext | include/cpptoml.h:1619-1627 | after a pair, `,` goes on and `}` ends the table, which keeps all keys read so far |
| Values.InlineEntriesStep | include/cpptoml.h:1610-1618 | a `{` or `,` at the end of the line is an unterminated inline table; otherwise one key/value pair is read |
| Values.InlineNextStep | include/cpptoml.h:1619-1627 | a `,` starts the next pass, a `}` ends the table, anything else is an error |
| Values.KeyPart | include/cpptoml.h:960-969 | an accepted key is new to the table and is followed by `=` |
| Values.KeyValueSpec | include/cpptoml.h:957-972 | a key/value pair strictly adds keys and keeps every existing entry unchanged |
| Headers.Enter | include/cpptoml.h:812-824 | an existing table is entered, a table array is entered at its last table, and a value is an error; the tree is unchanged |
| Headers.Attach | include/cpptoml.h:826-831 | inserting into the current table and moving down into what was inserted; below the root, the root keeps its keys and every entry off the current path |
| Headers.SegmentEnd | include/cpptoml.h:832-835 | after a segment: blanks, at most one `.`, blanks |
| Headers.TableSegment | include/cpptoml.h:805-831 | a segment moves one step down, to the child named by the segment; an existing entry is entered with the tree unchanged, and an absent key is inserted into the current table as a new empty table, every other entry of that table kept; below the root, the root keeps its keys and every entry off the current path |
| Headers.TableNameLoop | include/cpptoml.h:797-837 | the segment loop stops on `]` or at the end of the line, and remembers whether it created a table |
| Headers.SingleTableSpec | include/cpptoml.h:789-862 | an accepted `[a.b]` header gives a well-formed tree with a valid current path |
| Headers.TableArraySegment | include/cpptoml.h:869-941 | a segment moves one step down, to the child named by the segment; the last segment leaves the current table at a new empty table appended to the table array |
| Headers.TableArraySegmentTree | include/cpptoml.h:891-941 | an earlier `[[a.b]]` segment enters an existing entry with the tree unchanged or inserts an empty table into the current table; the last pushes an empty table onto the existing table array or inserts an array of one table; the current table keeps its other entries, and below the root the root keeps its keys and every entry off the current path |
| Headers.TableArrayNameLoop | include/cpptoml.h:869-941 | the segment loop stops on `]` or at the end of the line |
| Headers.TableArraySpec | include/cpptoml.h:864-955 | an accepted `[[a.b]]` header gives a well-formed tree with a valid current path |
| Headers.HeaderSpec | include/cpptoml.h:776-787 | an accepted header gives a well-formed tree with a valid current path |
| Headers.TableNameLoopPath | include/cpptoml.h:797-837 | the segment loop adds the header's segment names, in order, to the current path |
| Headers.TableArrayNameLoopPath | include/cpptoml.h:869-941 | the segment loop adds the header's segment names, in order, to the current path |
| Headers.TableArrayNameLoopLast | include/cpptoml.h:898-941 | when the loop stops on `]`, the current table is the new empty table appended to the last segment's table array |
| Headers.SingleTableCurrent | include/cpptoml.h:789-862 | after `[a.b]` the current table is the one reached from the root by the names `a`, `b` |
| Headers.TableArrayCurrent | include/cpptoml.h:864-955 | after `[[a.b]]` the current table is reached from the root by the names `a`, `b`, and it is the new empty last table of the array `b` |
| Headers.HeaderCurrent | include/cpptoml.h:776-787 | after any accepted header the current path names exactly the header's segments, read after `[` or `[[` |
| Headers.HeaderNamesExample | include/cpptoml.h:797-837 | the header `[a . b]` names the segments `a` and `b`: blanks around the `.` are skipped |
| Structure.LineSpec | include/cpptoml.h:742-761 | one line keeps the tree well formed and reads at least that line; an error is reported on a line after it |
| Structure.LinesSpec | include/cpptoml.h:736-763 | the remaining lines give a well-formed root, or an error on a line not yet read |
| Structure.ParseSpec | include/cpptoml.h:736-763 | a whole parse gives a well-formed root, or an error on a line of the input |
| Parsing.Raise | include/cpptoml.h:770-773 | a line-local error kind becomes a parse error with the given line number |
| Parsing.PrependAllStep | include/cpptoml.h:1561-1563 | putting elements in front one at a time is putting them all in front |
| Parsing.Parser.constructor | include/cpptoml.h:726-728 | a new parser has read no line |
| Parsing.Parser.SkipWhitespaceAndComments | include/cpptoml.h:1630-1643 | the method equals the reference skip; an error carries the number of lines read |
| Parsing.Parser.ParseString | include/cpptoml.h:1119-1141 | the method equals the reference string parse |
| Parsing.Parser.ParseMultilineString | include/cpptoml.h:1142-1230 | the line-reading method equals the reference multi-line string |
| Parsing.Parser.ParseValue | include/cpptoml.h:1043-1065 | the method equals the reference value |
| Parsing.Parser.ParseArray | include/cpptoml.h:1507-1553 | the method equals the reference array |
| Parsing.Parser.ParseSeparator | include/cpptoml.h:1566-1570 | the method equals the reference separator step |
| Parsing.Parser.ParseValueArray | include/cpptoml.h:1554-1575 | the element loop equals the reference scalar array |
| Parsing.Parser.ValueElement | include/cpptoml.h:1560-1570 | one pass: an error is the array's error, and success is one element of the array's kind in front of what the separator leads to |
| Parsing.Parser.ParseObjectArray | include/cpptoml.h:1576-1603 | the element loop equals the reference array of arrays or of inline tables |
| Parsing.Parser.ObjectElement | include/cpptoml.h:1589-1596 | one pass: an error is the array's error, and success is one element in front of what the separator leads to |
| Parsing.Parser.ParseObject | include/cpptoml.h:1589 | the element parser equals the reference: an array on `[`, an inline table on `{` |
| Parsing.Parser.ParseInlineTable | include/cpptoml.h:1605-1628 | the method equals the reference inline table |
| Parsing.Parser.InlinePairs | include/cpptoml.h:1609-1618 | the pair loop stops at the first pair with no `,` after it, with the table the reference reads so far |
| Parsing.Parser.InlinePair | include/cpptoml.h:1610-1615 | one pass: an error is the table's error, and success leaves what the reference does next |
| Parsing.Parser.ParseKeyValue | include/cpptoml.h:957-972 | the method equals the reference key/value pair |
| Parsing.Parser.ParseTable | include/cpptoml.h:776-787 | the method equals the reference header, with the error on the current line |
| Parsing.Parser.ParseSingleTable | include/cpptoml.h:789-862 | the method equals the reference `[a.b]` header |
| Parsing.Parser.TableName | include/cpptoml.h:797-837 | the segment loop equals the reference loop from the root |
| Parsing.Parser.ParseTableArray | include/cpptoml.h:864-955 | the method equals the reference `[[a.b]]` header |
| Parsing.Parser.TableArrayName | include/cpptoml.h:869-941 | the segment loop equals the reference loop from the root |
| Parsing.Parser.Parse | include/cpptoml.h:736-763 | the line loop equals the reference parse of the whole input; on success every line has been read and the parser stands on the last one, and an error carries the number of lines read |
| Parsing.Parser.ParseLine | include/cpptoml.h:742-761 | one line read and parsed as the reference line step; on success the line counter is where that step ends and the current line is the input line it names; an error carries the line number |
| Properties.ArrayBodyHomogeneous | include/cpptoml.h:1522-1552 | every array the element loops build is homogeneous |
| Properties.ArrayHomogeneous | include/cpptoml.h:1507-1553 | every accepted array is homogeneous: all elements of one kind, or all arrays |
| Properties.ArrayOpens | include/cpptoml.h:1516-1526 | `[` followed, possibly on later lines, by `]` is the empty array; anything else is the array body |
| Properties.BoolFirstArrayRejected | include/cpptoml.h:1533-1551 | an array whose first element looks like a boolean is rejected as unparsable |
| Properties.LooksBoolean | include/cpptoml.h:1067-1095 | a token starting with t or f is looked ahead as a boolean |
| Properties.DuplicateKeyRejected | include/cpptoml.h:964-965 | a key already present in the target table is a duplicate-key error on that line |
| Properties.KeyValueAddsOneEntry | include/cpptoml.h:957-972 | a key/value pair adds exactly its key with the parsed value to the table |
| Properties.DuplicateKeyLine | include/cpptoml.h:756-758 | a line whose key is already in the current table fails on that line |
| Properties.InlineDuplicateKey | include/cpptoml.h:1617 | an inline table rejects a key it already holds |
| Properties.BlankLineSkipped | include/cpptoml.h:747-749 | a blank or comment line changes nothing |
| Properties.CommentsOnlyDocument | include/cpptoml.h:742-762 | when only blank and comment lines are left, the result is the tree built so far |
| Properties.CommentsOnlyParse | include/cpptoml.h:736-763 | a document of blank and comment lines is the empty table |
| Properties.HeaderIgnoresCurrent | include/cpptoml.h:750-753 | a header line does the same whatever the current table was, because the walk restarts at the root |
| Properties.ExistingPathKeepsTree | include/cpptoml.h:797-837 | a header whose segments all exist leaves the tree unchanged |
| Properties.TableWalkKeepsRoot | include/cpptoml.h:797-837 | below the first segment, the `[a.b]` walk keeps the root's keys and every root entry other than the one it went through |
| Properties.TableHeaderKeepsRoot | include/cpptoml.h:797-837 | the `[a.b]` walk from the root keeps every root key, adds at most the first segment's name, and leaves every other root entry unchanged |
| Properties.TableArrayWalkKeepsRoot | include/cpptoml.h:869-941 | below the first segment, the `[[a.b]]` walk keeps the root's keys and every root entry other than the one it went through |
| Properties.TableArrayHeaderKeepsRoot | include/cpptoml.h:869-941 | the `[[a.b]]` walk from the root keeps every root key, adds at most the first segment's name, and leaves every other root entry unchanged |
| Properties.ExistingTableHeader | include/cpptoml.h:838-853 | a header that creates nothing keeps the tree and needs a non-empty table without values; an empty table or one with values is a redefinition |
| Properties.TableArrayAppends | include/cpptoml.h:891-930 | the last segment of `[[x]]` appends one empty table to an existing table array, creates an array of one table for an absent key, and fails on any other kind |
| Properties.LiteralThreeLines | include/cpptoml.h:1142-1230 | a `'''` string over three lines is the rest of the first line, the middle line and a newline, and the last line up to `'''` |
| Properties.LiteralNeverClosed | include/cpptoml.h:1212-1229 | a `'''` string never closed is an error on the last line |
| Properties.BasicLineContinues | include/cpptoml.h:1170-1204 | a `"""` line without backslash or triple that ends in a backslash continues without a newline |
| Properties.BasicLineCloses | include/cpptoml.h:1170-1204 | a `"""` line without backslash closes after its first triple |
| Properties.BasicContinuation | include/cpptoml.h:1156-1229 | a line-ending backslash drops the newline and the next line's leading blanks |

## Left out

- `parse_file` and the `std::istream`/`std::getline` plumbing (include/cpptoml.h:1702-1709) are file I/O. The input is the sequence of lines `getline` would deliver.
- Float conversion with `std::stold` and printing of doubles (include/cpptoml.h:1386-1406) are floating point. A float is carried as its underscore-stripped token text, and the float range error is not modelled.
- The `std::regex` branch of `is_date` is a library call. The model uses the fallback pattern check (include/cpptoml.h:1681-1684).
- The `shared_ptr` ownership and aliasing of the tree is not modelled. The tree is a value and `curr_table` is a path from the root. `insert` and `push_back` build a new tree instead of changing shared tables in place.
- The `unordered_map` iteration order of `table::print` is unspecified. The printer writes keys in sorted order.
- Error message texts (`std::to_string`, `what()`) are left out. An error is its kind and its line number.
- Dereferencing the iterator at the end of a line is undefined in the source. The model reads it as a non-matching character.
- Headers.SingleTableSpec: for an unterminated `[a` header the source steps past the end of the line (include/cpptoml.h:859-861). The model reports `UnterminatedTableName` instead, a kind the source never throws.
- Lexer.BareKeySpec: for an empty bare-key range the source reads one position before the range (include/cpptoml.h:993-996). The model reads that character: a non-blank one gives `""`, and a blank one (where the source would walk on backwards) or none at the start of the line gives `EmptyBareKey`, a kind the source never throws.
- The `datetime` fields are 32-bit `int` in the source. The model's integers are unbounded, so a fraction of more than nine digits does not overflow.
- The demo programs (`build_toml.cpp`, `parse.cpp`, `examples/parse_override.cpp`) and the rest of `parse_stdin.cpp` are not part of this model. They print JSON to stdout and are written against an older API.
- RoundTrip.DateRoundTrip: only dates that are `Printable` round trip. These are dates whose fields fit their widths and whose offsets share the sign the printer writes. The two quirks in `Printer` show the dates that do not.
