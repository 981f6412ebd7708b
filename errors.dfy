/**
 * The `parse_exception`s (cpptoml.h:703-714) that `class parser` throws. The
 * message text is not modelled; each throw site is one kind, and every parse
 * error carries the line number the parser had reached when it was raised.
 *
 * Two kinds are the model's own: the source never throws them. They stand for
 * two reads outside the line that are undefined in the source.
 */
module Errors {

  datatype ErrorKind =
    | UnexpectedEndOfTable            // 782: header line ends right after '['
    | EmptyTableName                  // 794: `[]`
    | EmptyTableNameComponent         // 806: `[a..b]`, `[.a]`
    | KeyIsValue                      // 823, 917: a header segment names a non-table
    | TableRedefinition               // 854: `[x]` where x is empty or holds values
    | UnterminatedTableName           // model's own: `[a` with no `]`; 859-861 step past the end
    | EmptyTableArrayName             // 869: `[[]]`
    | EmptyTableArrayNameComponent    // 880: `[[a..b]]`
    | NotTableArray                   // 900: `[[x]]` where x is not a table array
    | UnterminatedTableArrayName      // 947, 950: `[[a]` or `[[a`
    | DuplicateKey                    // 965: key already in the current table
    | MissingEquals                   // 967: no `=` after the key
    | BareKeyHash                     // 1001: `#` inside a bare key
    | BareKeyWhitespace               // 1009: space or tab inside a bare key
    | BareKeyBracket                  // 1018: `[` or `]` inside a bare key
    | EmptyBareKey                    // model's own: empty key range; 993-995 read before its start
    | InvalidValueType                // 1094: no value kind starts with this character
    | UnterminatedMultilineString     // 1229: end of input inside `"""` or `'''`
    | UnterminatedString              // 1255: end of line inside a string
    | InvalidEscape                   // 1263, 1295: unknown escape code or `\` at end of line
    | MalformedNumber                 // 1325, 1330, 1381: bad digit groups, or int64 overflow
    | FloatMissingDigits              // 1342: nothing after `.`, `e` or `E`
    | InvalidBoolean                  // 1422
    | MalformedDate                   // 1443, 1453, 1481, 1502
    | UnparsableArray                 // 1550: array whose first element is a boolean
    | HeterogeneousArray              // 1565
    | UnexpectedCharInArray           // 1587: element of an array of arrays or inline tables
    | UnterminatedArray               // 1600
    | UnterminatedInlineTable         // 1614, 1622
    | UnclosedArray                   // 1637: end of input inside an array
    | TrailingCharacter               // 1663: text after a value or header

  /** `parse_exception` with the line number appended by `throw_parse_exception` (cpptoml.h:771-774). */
  datatype ParseError = ParseError(kind: ErrorKind, line: nat)
}
