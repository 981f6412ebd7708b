/**
 * The value grammar of `class parser` (cpptoml.h:736-1643) as reference functions
 * over the whole input. A value may run over several lines (multi-line strings,
 * arrays), so a position is a cursor: the number of the line being read
 * (`line_number_`, counting from 1) and a column in that line. Each function
 * returns the value and the cursor after it, or the error `throw_parse_exception`
 * raises, with the line number current at the throw.
 *
 * The parser methods that read the input line by line are proved equal to these
 * functions (module Parsing).
 */
module Values {
  import opened Wrappers
  import opened Errors
  import opened Document
  import opened Lexer
  import opened Scalars

  /** A reading position: line `ln` of the input (1-based) and column `pos` in it. */
  datatype Cursor = Cursor(ln: nat, pos: nat)

  /** The cursor is on a line of the input, at a character of it or at its end. */
  predicate Valid(input: seq<string>, c: Cursor)
  {
    0 < c.ln <= |input| && c.pos <= |input[c.ln - 1]|
  }

  /** The text of the cursor's line. */
  function LineAt(input: seq<string>, c: Cursor): string
    requires 0 < c.ln <= |input|
  {
    input[c.ln - 1]
  }

  /** `a` is strictly earlier in the input than `b`. */
  predicate Before(a: Cursor, b: Cursor)
  {
    a.ln < b.ln || (a.ln == b.ln && a.pos < b.pos)
  }

  predicate AtOrBefore(a: Cursor, b: Cursor)
  {
    a == b || Before(a, b)
  }

  /** Moving forward in the input shrinks the termination measure of the value functions. */
  lemma Progress(input: seq<string>, c: Cursor, d: Cursor)
    requires Valid(input, c) && Valid(input, d) && AtOrBefore(c, d)
    ensures |input| - d.ln < |input| - c.ln ||
      (|input| - d.ln == |input| - c.ln && |LineAt(input, d)| - d.pos <= |LineAt(input, c)| - c.pos)
    ensures Before(c, d) ==> (|input| - d.ln < |input| - c.ln ||
      (|input| - d.ln == |input| - c.ln && |LineAt(input, d)| - d.pos < |LineAt(input, c)| - c.pos))
  {
  }

  /** `throw_parse_exception` on line `ln`. */
  function Fail<T>(kind: ErrorKind, ln: nat): Result<T, ParseError>
  {
    Err(ParseError(kind, ln))
  }

  /** The result of a scanner that works inside line `ln`. */
  function OnLine<T>(r: Result<(T, nat), ErrorKind>, ln: nat): Result<(T, Cursor), ParseError>
  {
    match r
    case Ok((x, p)) => Ok((x, Cursor(ln, p)))
    case Err(k) => Fail(k, ln)
  }

  /** `consume_whitespace` at a cursor: the blanks on its line are stepped over. */
  function SkipBlanks(input: seq<string>, c: Cursor): (r: Cursor)
    requires Valid(input, c)
    ensures Valid(input, r) && r.ln == c.ln && c.pos <= r.pos
    ensures r.pos == SkipWs(LineAt(input, c), c.pos)
  {
    Cursor(c.ln, SkipWs(LineAt(input, c), c.pos))
  }

  // ---------------------------------------------------------------------------
  // Blank lines and comments inside values (cpptoml.h:1630-1643)
  // ---------------------------------------------------------------------------

  /**
   * `skip_whitespace_and_comments`: the first character at or after `c` that is
   * neither blank nor the start of a comment, reading further lines as needed.
   * Running out of lines is an `Unclosed array` error on the last line.
   */
  function SkipWsComments(input: seq<string>, c: Cursor): (r: Result<Cursor, ParseError>)
    requires Valid(input, c)
    ensures r.Ok? ==> Valid(input, r.value) && AtOrBefore(c, r.value)
    ensures r.Ok? ==> r.value.pos < |LineAt(input, r.value)|
    ensures r.Ok? ==> var ch := LineAt(input, r.value)[r.value.pos]; !IsWs(ch) && ch != '#'
    ensures r.Err? ==> r.error == ParseError(UnclosedArray, |input|)
    decreases |input| - c.ln
  {
    var line := LineAt(input, c);
    var j := SkipWs(line, c.pos);
    if j < |line| && line[j] != '#' then Ok(Cursor(c.ln, j))
    else if c.ln == |input| then Fail(UnclosedArray, c.ln)
    else SkipWsComments(input, Cursor(c.ln + 1, 0))
  }

  /** Blanks in front of the cursor do not change where the skip ends. */
  lemma SkipWsCommentsBlanks(input: seq<string>, c: Cursor)
    requires Valid(input, c)
    ensures SkipWsComments(input, c) == SkipWsComments(input, SkipBlanks(input, c))
  {
  }

  // ---------------------------------------------------------------------------
  // Strings (cpptoml.h:1119-1230)
  // ---------------------------------------------------------------------------

  /** `text` in front of the text of a multi-line result. */
  function PrependText(text: string, r: Result<(string, Cursor), ParseError>): Result<(string, Cursor), ParseError>
  {
    match r
    case Err(e) => Err(e)
    case Ok((s, d)) => Ok((text + s, d))
  }

  /**
   * The line loop of `parse_multiline_string` (cpptoml.h:1212-1229) from line `n`:
   * each line goes through `handle_line`; a line that leaves the string open
   * contributes its text and a newline, unless it ended in a line-ending
   * backslash. Running out of lines is an error on the last line.
   */
  function MultilineLines(input: seq<string>, n: nat, delim: char, consuming: bool): (r: Result<(string, Cursor), ParseError>)
    requires 0 < n
    ensures r.Ok? ==> Valid(input, r.value.1) && n <= r.value.1.ln && r.value.1.pos >= 3
    ensures r.Err? ==> n <= r.error.line <= |input| || r.error == ParseError(UnterminatedMultilineString, |input|)
    decreases |input| + 1 - n
  {
    if n > |input| then Fail(UnterminatedMultilineString, |input|)
    else
      match HandleLineSpec(input[n - 1], 0, delim, consuming)
      case Err(k) => Fail(k, n)
      case Ok(Closed(t, p)) => Ok((t, Cursor(n, p)))
      case Ok(Open(t, cont)) =>
        PrependText(t + (if cont then "" else "\n"), MultilineLines(input, n + 1, delim, cont))
  }

  /** A text result as a string value. */
  function AsStr(r: Result<(string, Cursor), ParseError>): Result<(Value, Cursor), ParseError>
  {
    match r
    case Err(e) => Err(e)
    case Ok((s, d)) => Ok((Str(s), d))
  }

  /**
   * `parse_multiline_string` (cpptoml.h:1143-1230) with `c` just after the opening
   * delimiters: the rest of the opening line contributes its text with no
   * newline after it, then the following lines are read.
   */
  function MultilineSpec(input: seq<string>, c: Cursor, delim: char): (r: Result<(Value, Cursor), ParseError>)
    requires Valid(input, c)
    ensures r.Ok? ==> Valid(input, r.value.1) && Before(c, r.value.1) && r.value.0.Str?
    ensures r.Err? ==> c.ln <= r.error.line <= |input|
  {
    match HandleLineSpec(LineAt(input, c), c.pos, delim, false)
    case Err(k) => Fail(k, c.ln)
    case Ok(Closed(t, p)) => Ok((Str(t), Cursor(c.ln, p)))
    case Ok(Open(t, cont)) => AsStr(PrependText(t, MultilineLines(input, c.ln + 1, delim, cont)))
  }

  /**
   * `parse_string` (cpptoml.h:1119-1141) with `c` on the opening `"` or `'`: three
   * delimiters in a row open a multi-line string, anything else is a single-line
   * literal.
   */
  function StringSpec(input: seq<string>, c: Cursor): (r: Result<(Value, Cursor), ParseError>)
    requires Valid(input, c) && c.pos < |LineAt(input, c)|
    ensures r.Ok? ==> Valid(input, r.value.1) && Before(c, r.value.1) && r.value.0.Str?
    ensures r.Err? ==> c.ln <= r.error.line <= |input|
  {
    var line := LineAt(input, c);
    var delim := line[c.pos];
    if c.pos + 2 < |line| && line[c.pos + 1] == delim && line[c.pos + 2] == delim then
      MultilineSpec(input, Cursor(c.ln, c.pos + 3), delim)
    else
      match LiteralSpec(line, c.pos, delim)
      case Err(k) => Fail(k, c.ln)
      case Ok((s, p)) => Ok((Str(s), Cursor(c.ln, p)))
  }

  // ---------------------------------------------------------------------------
  // Values, arrays and inline tables (cpptoml.h:957-972, 1043-1065, 1507-1628)
  // ---------------------------------------------------------------------------

  /** The `value<T>` an array of look-ahead type `t` must hold (the template argument of `parse_value_array`). */
  function ElemKind(t: ValueType): Kind
    requires t == StringType || t == IntType || t == FloatType || t == DateType
  {
    match t
    case StringType => StringKind
    case IntType => IntKind
    case FloatType => FloatKind
    case DateType => DateKind
  }

  /** `v` in front of the elements of an array result. */
  function PrependValue(v: Value, r: Result<(seq<Value>, Cursor), ParseError>): Result<(seq<Value>, Cursor), ParseError>
  {
    match r
    case Err(e) => Err(e)
    case Ok((vs, d)) => Ok(([v] + vs, d))
  }

  /** The tables held by a sequence of inline-table values. */
  function TablesOf(vs: seq<Value>): (ts: seq<Table>)
    requires forall i | 0 <= i < |vs| :: vs[i].TableVal?
    ensures |ts| == |vs| && forall i | 0 <= i < |vs| :: TableVal(ts[i]) == vs[i]
  {
    seq(|vs|, i requires 0 <= i < |vs| => vs[i].table)
  }

  /** What follows an array element: a `,` and the next element's cursor, or the first other character. */
  datatype Sep = Next(at: Cursor) | Stop(at: Cursor)

  /**
   * The step shared by both array loops after an element (cpptoml.h:1566-1571 and
   * 1590-1596): skip blanks and comments; unless a `,` follows, stop on the
   * character found; otherwise step over it and skip again.
   */
  function Separator(input: seq<string>, d: Cursor): (r: Result<Sep, ParseError>)
    requires Valid(input, d)
    ensures r.Ok? ==> Valid(input, r.value.at) && r.value.at.pos < |LineAt(input, r.value.at)|
    ensures r.Ok? && r.value.Next? ==> Before(d, r.value.at)
    ensures r.Ok? && r.value.Stop? ==> AtOrBefore(d, r.value.at) && LineAt(input, r.value.at)[r.value.at.pos] != ','
    ensures r.Err? ==> r.error == ParseError(UnclosedArray, |input|)
  {
    match SkipWsComments(input, d)
    case Err(e) => Err(e)
    case Ok(s) =>
      if LineAt(input, s)[s.pos] != ',' then Ok(Stop(s))
      else
        match SkipWsComments(input, Cursor(s.ln, s.pos + 1))
        case Err(e) => Err(e)
        case Ok(s2) => Ok(Next(s2))
  }

  /**
   * `parse_value` (cpptoml.h:1043-1065): the look-ahead of `determine_value_type`
   * over the rest of the line picks the parser.
   */
  function ValueSpec(input: seq<string>, c: Cursor): (r: Result<(Value, Cursor), ParseError>)
    requires Valid(input, c)
    ensures r.Ok? ==> Valid(input, r.value.1) && Before(c, r.value.1) && WellFormed(r.value.0)
    ensures r.Err? ==> c.ln <= r.error.line <= |input|
    decreases |input| - c.ln, |LineAt(input, c)| - c.pos, 3
  {
    var line := LineAt(input, c);
    match DetermineValueType(line, c.pos, |line|)
    case Err(k) => Fail(k, c.ln)
    case Ok(ArrayType) => ArraySpec(input, c)
    case Ok(InlineTableType) => InlineTableSpec(input, c)
    case Ok(t) => ScalarSpec(input, c, t)
  }

  /** The scalar branches of `parse_value`: strings, dates, numbers and booleans. */
  function ScalarSpec(input: seq<string>, c: Cursor, t: ValueType): (r: Result<(Value, Cursor), ParseError>)
    requires Valid(input, c) && t != ArrayType && t != InlineTableType
    requires DetermineValueType(LineAt(input, c), c.pos, |LineAt(input, c)|) == Ok(t)
    ensures r.Ok? ==> Valid(input, r.value.1) && Before(c, r.value.1) && WellFormed(r.value.0)
    ensures r.Err? ==> c.ln <= r.error.line <= |input|
  {
    var line := LineAt(input, c);
    match t
    case StringType => StringSpec(input, c)
    case DateType => OnLine(DateSpec(line, c.pos), c.ln)
    case IntType => OnLine(NumberSpec(line, c.pos), c.ln)
    case FloatType => OnLine(NumberSpec(line, c.pos), c.ln)
    case BoolType => OnLine(ParseBool(line, c.pos), c.ln)
  }

  /**
   * `parse_array` (cpptoml.h:1507-1553) with `c` on the `[`: an empty array, or an
   * array whose kind is fixed by a look-ahead at its first element, bounded by the
   * next `,`, `]` or `#`. A first element that looks like a boolean has no array
   * parser.
   */
  function ArraySpec(input: seq<string>, c: Cursor): (r: Result<(Value, Cursor), ParseError>)
    requires Valid(input, c) && c.pos < |LineAt(input, c)| && LineAt(input, c)[c.pos] == '['
    ensures r.Ok? ==> Valid(input, r.value.1) && Before(c, r.value.1) && WellFormed(r.value.0)
    ensures r.Ok? ==> r.value.0.Array? || r.value.0.TableArray?
    ensures r.Err? ==> c.ln <= r.error.line <= |input|
    decreases |input| - c.ln, |LineAt(input, c)| - c.pos, 2
  {
    match SkipWsComments(input, Cursor(c.ln, c.pos + 1))
    case Err(e) => Err(e)
    case Ok(s) =>
      var line := LineAt(input, s);
      if line[s.pos] == ']' then Ok((Array([]), Cursor(s.ln, s.pos + 1)))
      else
        Progress(input, c, s);
        ArrayBody(input, s)
  }

  /**
   * The rest of `parse_array` with `s` on the first element: the look-ahead up to
   * the next `,`, `]` or `#` picks the element parser.
   */
  function ArrayBody(input: seq<string>, s: Cursor): (r: Result<(Value, Cursor), ParseError>)
    requires Valid(input, s) && s.pos < |LineAt(input, s)|
    ensures r.Ok? ==> Valid(input, r.value.1) && Before(s, r.value.1) && WellFormed(r.value.0)
    ensures r.Ok? ==> r.value.0.Array? || r.value.0.TableArray?
    ensures r.Err? ==> s.ln <= r.error.line <= |input|
    decreases |input| - s.ln, |LineAt(input, s)| - s.pos, 5
  {
    hide DetermineValueType, ObjectElems, ValueElems;
    var line := LineAt(input, s);
    match DetermineValueType(line, s.pos, FindEnd(line, s.pos, ",]#"))
    case Err(k) => Fail(k, s.ln)
    case Ok(BoolType) => Fail(UnparsableArray, s.ln)
    case Ok(ArrayType) =>
      (match ObjectElems(input, s, '[')
       case Err(e) => Err(e)
       case Ok((vs, d)) => Ok((Array(vs), d)))
    case Ok(InlineTableType) =>
      (match ObjectElems(input, s, '{')
       case Err(e) => Err(e)
       case Ok((vs, d)) => Ok((TableArray(TablesOf(vs)), d)))
    case Ok(t) =>
      match ValueElems(input, s, ElemKind(t))
      case Err(e) => Err(e)
      case Ok((vs, d)) => Ok((Array(vs), d))
  }

  /**
   * The loop of `parse_value_array<T>` (cpptoml.h:1555-1575) with `c` on an
   * element or on the closing `]`: every element must be a `value<T>` of the
   * array's kind. When no `,` follows an element, the character after it is
   * stepped over, whatever it is.
   */
  function ValueElems(input: seq<string>, c: Cursor, kind: Kind): (r: Result<(seq<Value>, Cursor), ParseError>)
    requires Valid(input, c) && c.pos < |LineAt(input, c)|
    ensures r.Ok? ==> Valid(input, r.value.1) && Before(c, r.value.1)
    ensures r.Err? ==> c.ln <= r.error.line <= |input|
    ensures r.Ok? ==> forall i | 0 <= i < |r.value.0| :: HasKind(r.value.0[i], kind)
    decreases |input| - c.ln, |LineAt(input, c)| - c.pos, 4
  {
    hide ValueSpec, ValueNext;
    if LineAt(input, c)[c.pos] == ']' then Ok(([], Cursor(c.ln, c.pos + 1)))
    else
      match ValueSpec(input, c)
      case Err(e) => Err(e)
      case Ok((v, d)) =>
        if !HasKind(v, kind) then Fail(HeterogeneousArray, d.ln)
        else
          Progress(input, c, d);
          PrependValue(v, ValueNext(input, d, kind))
  }

  /**
   * After an element of `parse_value_array` (cpptoml.h:1566-1571), `d` just past it:
   * a `,` leads to the next element; otherwise the character found is stepped
   * over, whatever it is.
   */
  function ValueNext(input: seq<string>, d: Cursor, kind: Kind): (r: Result<(seq<Value>, Cursor), ParseError>)
    requires Valid(input, d)
    ensures r.Ok? ==> Valid(input, r.value.1) && Before(d, r.value.1)
    ensures r.Err? ==> d.ln <= r.error.line <= |input|
    ensures r.Ok? ==> forall i | 0 <= i < |r.value.0| :: HasKind(r.value.0[i], kind)
    decreases |input| - d.ln, |LineAt(input, d)| - d.pos, 5
  {
    match Separator(input, d)
    case Err(e) => Err(e)
    case Ok(Stop(s)) => Ok(([], Cursor(s.ln, s.pos + 1)))
    case Ok(Next(s)) =>
      Progress(input, d, s);
      ValueElems(input, s, kind)
  }

  /** One pass of the loop of `parse_value_array`, up to the separator after the element. */
  lemma ValueElemsStep(input: seq<string>, c: Cursor, kind: Kind)
    requires Valid(input, c) && c.pos < |LineAt(input, c)|
    ensures LineAt(input, c)[c.pos] == ']' ==> ValueElems(input, c, kind) == Ok(([], Cursor(c.ln, c.pos + 1)))
    ensures var v := ValueSpec(input, c);
      LineAt(input, c)[c.pos] != ']' && v.Err? ==> ValueElems(input, c, kind) == Err(v.error)
    ensures var v := ValueSpec(input, c);
      LineAt(input, c)[c.pos] != ']' && v.Ok? && !HasKind(v.value.0, kind) ==>
        ValueElems(input, c, kind) == Fail(HeterogeneousArray, v.value.1.ln)
    ensures var v := ValueSpec(input, c);
      LineAt(input, c)[c.pos] != ']' && v.Ok? && HasKind(v.value.0, kind) ==>
        ValueElems(input, c, kind) == PrependValue(v.value.0, ValueNext(input, v.value.1, kind))
  {
  }

  /** The three ways the separator after an element of `parse_value_array` can go. */
  lemma ValueNextStep(input: seq<string>, d: Cursor, kind: Kind)
    requires Valid(input, d)
    ensures match Separator(input, d)
      case Err(e) => ValueNext(input, d, kind) == Err(e)
      case Ok(Stop(s)) => ValueNext(input, d, kind) == Ok(([], Cursor(s.ln, s.pos + 1)))
      case Ok(Next(s)) => ValueNext(input, d, kind) == ValueElems(input, s, kind)
  {
  }

  /**
   * The loop of `parse_object_array` (cpptoml.h:1577-1603) with `c` on an element
   * or on the closing `]`: every element must start with `delim` (`[` for an
   * array of arrays, `{` for an array of inline tables), and the array must end
   * with `]`.
   */
  function ObjectElems(input: seq<string>, c: Cursor, delim: char): (r: Result<(seq<Value>, Cursor), ParseError>)
    requires Valid(input, c) && c.pos < |LineAt(input, c)| && (delim == '[' || delim == '{')
    ensures r.Ok? ==> Valid(input, r.value.1) && Before(c, r.value.1)
    ensures r.Err? ==> c.ln <= r.error.line <= |input|
    ensures r.Ok? ==> forall i | 0 <= i < |r.value.0| ::
      WellFormed(r.value.0[i]) && (if delim == '[' then r.value.0[i].Array? || r.value.0[i].TableArray? else r.value.0[i].TableVal?)
    ensures r.Ok? && LineAt(input, c)[c.pos] != ']' ==> |r.value.0| > 0
    decreases |input| - c.ln, |LineAt(input, c)| - c.pos, 4
  {
    hide ObjectSpec, ObjectNext;
    var line := LineAt(input, c);
    if line[c.pos] == ']' then Ok(([], Cursor(c.ln, c.pos + 1)))
    else if line[c.pos] != delim then Fail(UnexpectedCharInArray, c.ln)
    else
      match ObjectSpec(input, c)
      case Err(e) => Err(e)
      case Ok((v, d)) =>
        Progress(input, c, d);
        PrependValue(v, ObjectNext(input, d, delim))
  }

  /**
   * After an element of `parse_object_array` (cpptoml.h:1590-1600), `d` just past
   * it: a `,` leads to the next element; otherwise the array must end with `]`.
   */
  function ObjectNext(input: seq<string>, d: Cursor, delim: char): (r: Result<(seq<Value>, Cursor), ParseError>)
    requires Valid(input, d) && (delim == '[' || delim == '{')
    ensures r.Ok? ==> Valid(input, r.value.1) && Before(d, r.value.1)
    ensures r.Err? ==> d.ln <= r.error.line <= |input|
    ensures r.Ok? ==> forall i | 0 <= i < |r.value.0| ::
      WellFormed(r.value.0[i]) && (if delim == '[' then r.value.0[i].Array? || r.value.0[i].TableArray? else r.value.0[i].TableVal?)
    decreases |input| - d.ln, |LineAt(input, d)| - d.pos, 5
  {
    hide Separator, ObjectSpec;
    match Separator(input, d)
    case Err(e) => Err(e)
    case Ok(Stop(s)) =>
      if LineAt(input, s)[s.pos] != ']' then Fail(UnterminatedArray, s.ln)
      else Ok(([], Cursor(s.ln, s.pos + 1)))
    case Ok(Next(s)) =>
      Progress(input, d, s);
      ObjectElems(input, s, delim)
  }

  /** One pass of the loop of `parse_object_array`, up to the separator after the element. */
  lemma ObjectElemsStep(input: seq<string>, c: Cursor, delim: char)
    requires Valid(input, c) && c.pos < |LineAt(input, c)| && (delim == '[' || delim == '{')
    requires LineAt(input, c)[c.pos] == delim
    ensures var v := ObjectSpec(input, c);
      v.Err? ==> ObjectElems(input, c, delim) == Err(v.error)
    ensures var v := ObjectSpec(input, c);
      v.Ok? ==> ObjectElems(input, c, delim) == PrependValue(v.value.0, ObjectNext(input, v.value.1, delim))
  {
  }

  /** No element starts at `c`: the array ends on a `]`, any other character is an error. */
  lemma ObjectElemsEnd(input: seq<string>, c: Cursor, delim: char)
    requires Valid(input, c) && c.pos < |LineAt(input, c)| && (delim == '[' || delim == '{')
    requires LineAt(input, c)[c.pos] != delim
    ensures ObjectElems(input, c, delim) ==
      if LineAt(input, c)[c.pos] == ']' then Ok(([], Cursor(c.ln, c.pos + 1))) else Fail(UnexpectedCharInArray, c.ln)
  {
  }

  /** The three ways the separator after an element of `parse_object_array` can go. */
  lemma ObjectNextStep(input: seq<string>, d: Cursor, delim: char)
    requires Valid(input, d) && (delim == '[' || delim == '{')
    ensures match Separator(input, d)
      case Err(e) => ObjectNext(input, d, delim) == Err(e)
      case Ok(Stop(s)) =>
        ObjectNext(input, d, delim) ==
          if LineAt(input, s)[s.pos] != ']' then Fail(UnterminatedArray, s.ln) else Ok(([], Cursor(s.ln, s.pos + 1)))
      case Ok(Next(s)) => ObjectNext(input, d, delim) == ObjectElems(input, s, delim)
  {
  }

  /** The element parser `parse_object_array` is given: `parse_array` on a `[`, `parse_inline_table` on a `{`. */
  function ObjectSpec(input: seq<string>, c: Cursor): (r: Result<(Value, Cursor), ParseError>)
    requires Valid(input, c) && c.pos < |LineAt(input, c)| && LineAt(input, c)[c.pos] in "[{"
    ensures r.Ok? ==> Valid(input, r.value.1) && Before(c, r.value.1)
    ensures r.Ok? ==> WellFormed(r.value.0)
    ensures r.Ok? ==> if LineAt(input, c)[c.pos] == '[' then r.value.0.Array? || r.value.0.TableArray? else r.value.0.TableVal?
    ensures r.Err? ==> c.ln <= r.error.line <= |input|
    decreases |input| - c.ln, |LineAt(input, c)| - c.pos, 3
  {
    if LineAt(input, c)[c.pos] == '[' then ArraySpec(input, c) else InlineTableSpec(input, c)
  }

  /** A table result as a table value. */
  function AsTable(r: Result<(Table, Cursor), ParseError>): Result<(Value, Cursor), ParseError>
  {
    match r
    case Err(e) => Err(e)
    case Ok((t, d)) => Ok((TableVal(t), d))
  }

  /** `parse_inline_table` (cpptoml.h:1605-1628) with `c` on the `{`. */
  function InlineTableSpec(input: seq<string>, c: Cursor): (r: Result<(Value, Cursor), ParseError>)
    requires Valid(input, c) && c.pos < |LineAt(input, c)| && LineAt(input, c)[c.pos] == '{'
    ensures r.Ok? ==> Valid(input, r.value.1) && Before(c, r.value.1) && WellFormed(r.value.0) && r.value.0.TableVal?
    ensures r.Err? ==> c.ln <= r.error.line <= |input|
    decreases |input| - c.ln, |LineAt(input, c)| - c.pos, 2
  {
    AsTable(InlineEntries(input, c, EmptyTable))
  }

  /**
   * The `do ... while (*it == ',')` loop of `parse_inline_table` with `c` on the
   * `{` or on a `,`: step over it, read one key/value pair into `t`; a `,` after it
   * repeats, a `}` ends the table.
   */
  function InlineEntries(input: seq<string>, c: Cursor, t: Table): (r: Result<(Table, Cursor), ParseError>)
    requires Valid(input, c) && c.pos < |LineAt(input, c)| && WellFormedTable(t)
    ensures r.Ok? ==> Valid(input, r.value.1) && Before(c, r.value.1) && WellFormedTable(r.value.0)
    ensures r.Ok? ==> t.entries.Keys < r.value.0.entries.Keys
    ensures r.Err? ==> c.ln <= r.error.line <= |input|
    decreases |input| - c.ln, |LineAt(input, c)| - c.pos, 1
  {
    var line := LineAt(input, c);
    if c.pos + 1 == |line| then Fail(UnterminatedInlineTable, c.ln)
    else
      var k := Cursor(c.ln, SkipWs(line, c.pos + 1));
      Progress(input, c, k);
      match KeyValueSpec(input, k, t)
      case Err(e) => Err(e)
      case Ok((t2, d)) =>
        Progress(input, c, d);
        InlineNext(input, d, t2)
  }

  /**
   * The end of one pass of the inline-table loop, `d` after a key/value pair: a
   * `,` starts the next pass, a `}` ends the table, anything else is an error.
   */
  function InlineNext(input: seq<string>, d: Cursor, t: Table): (r: Result<(Table, Cursor), ParseError>)
    requires Valid(input, d) && WellFormedTable(t)
    ensures r.Ok? ==> Valid(input, r.value.1) && Before(d, r.value.1) && WellFormedTable(r.value.0)
    ensures r.Ok? ==> t.entries.Keys <= r.value.0.entries.Keys
    ensures r.Err? ==> d.ln <= r.error.line <= |input|
    decreases |input| - d.ln, |LineAt(input, d)| - d.pos, 2
  {
    var line := LineAt(input, d);
    var e := SkipWs(line, d.pos);
    if e < |line| && line[e] == ',' then
      Progress(input, d, Cursor(d.ln, e));
      InlineEntries(input, Cursor(d.ln, e), t)
    else if e == |line| || line[e] != '}' then Fail(UnterminatedInlineTable, d.ln)
    else Ok((t, Cursor(d.ln, SkipWs(line, e + 1))))
  }

  /** What one pass of the inline-table loop does before the `,` or `}` is looked for. */
  lemma InlineEntriesStep(input: seq<string>, c: Cursor, t: Table)
    requires Valid(input, c) && c.pos < |LineAt(input, c)| && WellFormedTable(t)
    ensures c.pos + 1 == |LineAt(input, c)| ==> InlineEntries(input, c, t) == Fail(UnterminatedInlineTable, c.ln)
    ensures c.pos + 1 < |LineAt(input, c)| ==>
      var k := Cursor(c.ln, SkipWs(LineAt(input, c), c.pos + 1));
      Valid(input, k) && Before(c, k) &&
      InlineEntries(input, c, t) ==
        match KeyValueSpec(input, k, t)
        case Err(e) => Err(e)
        case Ok((t2, d)) => InlineNext(input, d, t2)
  {
    hide KeyValueSpec, InlineNext;
    var line := LineAt(input, c);
    if c.pos + 1 < |line| {
      Progress(input, c, Cursor(c.ln, SkipWs(line, c.pos + 1)));
    }
  }

  /** The three ways one pass of the inline-table loop can end. */
  lemma InlineNextStep(input: seq<string>, d: Cursor, t: Table)
    requires Valid(input, d) && WellFormedTable(t)
    ensures var line := LineAt(input, d);
      var e := SkipWs(line, d.pos);
      if e < |line| && line[e] == ',' then
        InlineNext(input, d, t) == InlineEntries(input, Cursor(d.ln, e), t) && AtOrBefore(d, Cursor(d.ln, e))
      else if e == |line| || line[e] != '}' then
        InlineNext(input, d, t) == Fail(UnterminatedInlineTable, d.ln)
      else
        InlineNext(input, d, t) == Ok((t, Cursor(d.ln, SkipWs(line, e + 1))))
  {
  }

  /**
   * The part of `parse_key_value` (cpptoml.h:957-972) before the value, inside one
   * line: a key ended by `=`, which must be new to `t`, then the `=` and the blanks
   * after it. The key is checked against `t` before the `=` is looked for.
   */
  function KeyPart(line: string, i: nat, t: Table): (r: Result<(string, nat), ErrorKind>)
    requires i <= |line|
    ensures r.Ok? ==> r.value.0 !in t.entries && i < r.value.1 <= |line|
  {
    match KeySpec(line, i, ValueKey)
    case Err(k) => Err(k)
    case Ok((key, p)) =>
      if Contains(t, key) then Err(DuplicateKey)
      else if p == |line| || line[p] != '=' then Err(MissingEquals)
      else Ok((key, SkipWs(line, p + 1)))
  }

  /**
   * `parse_key_value` (cpptoml.h:957-972) into table `t`: the key and `=`, then a
   * value, which may run over several lines; the blanks after the value are
   * consumed.
   */
  function KeyValueSpec(input: seq<string>, c: Cursor, t: Table): (r: Result<(Table, Cursor), ParseError>)
    requires Valid(input, c) && WellFormedTable(t)
    ensures r.Ok? ==> Valid(input, r.value.1) && Before(c, r.value.1) && WellFormedTable(r.value.0)
    ensures r.Ok? ==> t.entries.Keys < r.value.0.entries.Keys
    ensures r.Ok? ==> forall k | k in t.entries :: r.value.0.entries[k] == t.entries[k]
    ensures r.Err? ==> c.ln <= r.error.line <= |input|
    decreases |input| - c.ln, |LineAt(input, c)| - c.pos, 0
  {
    hide KeyPart, ValueSpec;
    match KeyPart(LineAt(input, c), c.pos, t)
    case Err(k) => Fail(k, c.ln)
    case Ok((key, p)) =>
      Progress(input, c, Cursor(c.ln, p));
      match ValueSpec(input, Cursor(c.ln, p))
      case Err(e) => Err(e)
      case Ok((v, d)) =>
        InsertWellFormed(t, key, v);
        InsertFresh(t, key, v);
        Ok((Insert(t, key, v), SkipBlanks(input, d)))
  }
}
