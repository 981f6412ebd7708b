/**
 * `class parser` (cpptoml.h:719-1666) as a Dafny class. Its state is the input
 * (the lines `std::getline` delivers), the line being read (`line_`) and the
 * number of lines read so far (`line_number_`). The iterator `it` that the
 * source passes by reference is a column of `line` going in, and comes back as
 * a cursor: the line the parser stands on and the column in it.
 *
 * Every method is proved equal to the reference function of module Values,
 * Headers or Structure at the cursor it starts from, and on success it leaves
 * the parser on the line of the cursor it returns. Each method hides the bodies
 * of the reference functions whose results it only takes from a callee's
 * contract.
 */
module Parsing {
  import opened Wrappers
  import opened Errors
  import opened Document
  import opened TablePath
  import opened Lexer
  import opened Scalars
  import opened Values
  import opened Headers
  import opened Structure

  /** A line-local error kind, thrown on line `ln`. */
  function Raise<T>(r: Result<T, ErrorKind>, ln: nat): (s: Result<T, ParseError>)
    ensures s.Ok? <==> r.Ok?
    ensures s.Ok? ==> s.value == r.value
    ensures s.Err? ==> s.error == ParseError(r.error, ln)
  {
    match r
    case Ok(x) => Ok(x)
    case Err(k) => Err(ParseError(k, ln))
  }

  /** `vs` in front of the elements of an array result. */
  function PrependAll(vs: seq<Value>, r: Result<(seq<Value>, Cursor), ParseError>): Result<(seq<Value>, Cursor), ParseError>
  {
    match r
    case Err(e) => Err(e)
    case Ok((ws, d)) => Ok((vs + ws, d))
  }

  lemma PrependAllNil(r: Result<(seq<Value>, Cursor), ParseError>)
    ensures PrependAll([], r) == r
  {
    if r.Ok? {
      assert [] + r.value.0 == r.value.0;
    }
  }

  lemma PrependAllStep(vs: seq<Value>, v: Value, r: Result<(seq<Value>, Cursor), ParseError>)
    ensures PrependAll(vs, PrependValue(v, r)) == PrependAll(vs + [v], r)
  {
    if r.Ok? {
      assert vs + ([v] + r.value.0) == (vs + [v]) + r.value.0;
    }
  }

  lemma PrependTextTwice(a: string, b: string, r: Result<(string, Cursor), ParseError>)
    ensures PrependText(a, PrependText(b, r)) == PrependText(a + b, r)
  {
    if r.Ok? {
      assert a + (b + r.value.0) == (a + b) + r.value.0;
    }
  }

  class Parser {
    /** The lines of the input stream, without their line ends. */
    const input: seq<string>
    /** `line_`. */
    var line: string
    /** `line_number_`. */
    var lineNumber: nat

    /** `parser(std::istream&)` (cpptoml.h:726-728): nothing read yet. */
    constructor (input: seq<string>)
      ensures this.input == input && line == "" && lineNumber == 0
    {
      this.input := input;
      line := "";
      lineNumber := 0;
    }

    /** Some line has been read and `line` holds it. */
    ghost predicate Valid()
      reads this
    {
      0 < lineNumber <= |input| && line == input[lineNumber - 1]
    }

    /** The parser stands on the line of cursor `c`. */
    ghost predicate On(c: Cursor)
      reads this
    {
      Valid() && lineNumber == c.ln
    }

    // -------------------------------------------------------------------------
    // Values (cpptoml.h:1043-1230, 1507-1643)
    // -------------------------------------------------------------------------

    /** `skip_whitespace_and_comments` (cpptoml.h:1630-1643). */
    method SkipWhitespaceAndComments(start: nat) returns (r: Result<Cursor, ParseError>)
      requires Valid() && start <= |line|
      modifies this
      ensures r == SkipWsComments(input, Cursor(old(lineNumber), start))
      ensures r.Ok? ==> On(r.value)
      ensures r.Err? ==> r.error.line == lineNumber
    {
      ghost var c0 := Cursor(lineNumber, start);
      var it: nat := ConsumeWhitespace(line, start);
      SkipWsCommentsBlanks(input, c0);
      while (it == |line| || line[it] == '#') && lineNumber < |input|
        invariant Valid() && it <= |line| && (it == |line| || !IsWs(line[it]))
        invariant SkipWsComments(input, c0) == SkipWsComments(input, Cursor(lineNumber, it))
        decreases |input| - lineNumber
      {
        lineNumber := lineNumber + 1;
        line := input[lineNumber - 1];
        it := ConsumeWhitespace(line, 0);
        SkipWsCommentsBlanks(input, Cursor(lineNumber, 0));
      }
      if it == |line| || line[it] == '#' {
        r := Fail(UnclosedArray, lineNumber);
      } else {
        r := Ok(Cursor(lineNumber, it));
      }
    }

    /** `parse_string` (cpptoml.h:1119-1141), `it` on the opening quote. */
    method ParseString(it: nat) returns (r: Result<(Value, Cursor), ParseError>)
      requires Valid() && it < |line|
      modifies this
      ensures r == StringSpec(input, Cursor(old(lineNumber), it))
      ensures r.Ok? ==> On(r.value.1)
      ensures r.Err? ==> r.error.line == lineNumber
    {
      hide LiteralSpec, MultilineSpec;
      var delim := line[it];
      if it + 2 < |line| && line[it + 1] == delim && line[it + 2] == delim {
        r := ParseMultilineString(it + 3, delim);
      } else {
        var s := StringLiteral(line, it, delim);
        if s.Err? {
          return Fail(s.error, lineNumber);
        }
        r := Ok((Str(s.value.0), Cursor(lineNumber, s.value.1)));
      }
    }

    /** `parse_multiline_string` (cpptoml.h:1142-1230), `it` just after the opening delimiters. */
    method ParseMultilineString(it: nat, delim: char) returns (r: Result<(Value, Cursor), ParseError>)
      requires Valid() && it <= |line|
      modifies this
      ensures r == MultilineSpec(input, Cursor(old(lineNumber), it), delim)
      ensures r.Ok? ==> On(r.value.1)
      ensures r.Err? ==> r.error.line == lineNumber
    {
      hide HandleLineSpec;
      ghost var c0 := Cursor(lineNumber, it);
      var h := HandleLine(line, it, delim, false);
      if h.Err? {
        return Fail(h.error, lineNumber);
      }
      if h.value.Closed? {
        return Ok((Str(h.value.text), Cursor(lineNumber, h.value.pos)));
      }
      var text := h.value.text;
      var consuming := h.value.continued;
      while lineNumber < |input|
        invariant Valid()
        invariant MultilineSpec(input, c0, delim) == AsStr(PrependText(text, MultilineLines(input, lineNumber + 1, delim, consuming)))
        decreases |input| - lineNumber
      {
        lineNumber := lineNumber + 1;
        line := input[lineNumber - 1];
        h := HandleLine(line, 0, delim, consuming);
        if h.Err? {
          return Fail(h.error, lineNumber);
        }
        if h.value.Closed? {
          return Ok((Str(text + h.value.text), Cursor(lineNumber, h.value.pos)));
        }
        var more := h.value.text + (if h.value.continued then "" else "\n");
        PrependTextTwice(text, more, MultilineLines(input, lineNumber + 1, delim, h.value.continued));
        text := text + more;
        consuming := h.value.continued;
      }
      r := Fail(UnterminatedMultilineString, lineNumber);
    }

    /** `parse_value` (cpptoml.h:1043-1065). */
    method ParseValue(it: nat) returns (r: Result<(Value, Cursor), ParseError>)
      requires Valid() && it <= |line|
      modifies this
      ensures r == ValueSpec(input, Cursor(old(lineNumber), it))
      ensures r.Ok? ==> On(r.value.1)
      ensures r.Err? ==> r.error.line == lineNumber
      decreases |input| - lineNumber, |line| - it, 3
    {
      hide DetermineValueType, StringSpec, DateSpec, NumberSpec, ParseBool, ArraySpec, InlineTableSpec;
      match DetermineValueType(line, it, |line|)
      case Err(k) =>
        r := Fail(k, lineNumber);
      case Ok(StringType) =>
        r := ParseString(it);
      case Ok(DateType) =>
        var d := ParseDate(line, it);
        r := OnLine(d, lineNumber);
      case Ok(IntType) =>
        var n := ParseNumber(line, it);
        r := OnLine(n, lineNumber);
      case Ok(FloatType) =>
        var n := ParseNumber(line, it);
        r := OnLine(n, lineNumber);
      case Ok(BoolType) =>
        r := OnLine(ParseBool(line, it), lineNumber);
      case Ok(ArrayType) =>
        r := ParseArray(it);
      case Ok(InlineTableType) =>
        r := ParseInlineTable(it);
    }

    /** `parse_array` (cpptoml.h:1507-1553), `it` on the `[`. */
    method ParseArray(it: nat) returns (r: Result<(Value, Cursor), ParseError>)
      requires Valid() && it < |line| && line[it] == '['
      modifies this
      ensures r == ArraySpec(input, Cursor(old(lineNumber), it))
      ensures r.Ok? ==> On(r.value.1)
      ensures r.Err? ==> r.error.line == lineNumber
      decreases |input| - lineNumber, |line| - it, 2
    {
      hide SkipWsComments, DetermineValueType, ValueElems, ObjectElems, TablesOf;
      ghost var c0 := Cursor(lineNumber, it);
      var s := SkipWhitespaceAndComments(it + 1);
      if s.Err? {
        return Err(s.error);
      }
      var pos := s.value.pos;
      if line[pos] == ']' {
        return Ok((Array([]), Cursor(lineNumber, pos + 1)));
      }
      Progress(input, c0, s.value);
      match DetermineValueType(line, pos, FindEnd(line, pos, ",]#"))
      case Err(k) =>
        r := Fail(k, lineNumber);
      case Ok(BoolType) =>
        r := Fail(UnparsableArray, lineNumber);
      case Ok(ArrayType) =>
        var o := ParseObjectArray(pos, '[');
        if o.Err? {
          return Err(o.error);
        }
        r := Ok((Array(o.value.0), o.value.1));
      case Ok(InlineTableType) =>
        var o := ParseObjectArray(pos, '{');
        if o.Err? {
          return Err(o.error);
        }
        r := Ok((TableArray(TablesOf(o.value.0)), o.value.1));
      case Ok(t) =>
        var o := ParseValueArray(pos, ElemKind(t));
        if o.Err? {
          return Err(o.error);
        }
        r := Ok((Array(o.value.0), o.value.1));
    }

    /**
     * The step after an array element, shared by `parse_value_array` and
     * `parse_object_array` (cpptoml.h:1565-1570, 1590-1596): blanks and comments,
     * then either a `,` and more blanks and comments, or the character found.
     */
    method ParseSeparator(d: nat) returns (r: Result<Sep, ParseError>)
      requires Valid() && d <= |line|
      modifies this
      ensures r == Separator(input, Cursor(old(lineNumber), d))
      ensures r.Ok? ==> On(r.value.at)
      ensures r.Err? ==> r.error.line == lineNumber
    {
      hide SkipWsComments;
      var s := SkipWhitespaceAndComments(d);
      if s.Err? {
        return Err(s.error);
      }
      if line[s.value.pos] != ',' {
        return Ok(Stop(s.value));
      }
      s := SkipWhitespaceAndComments(s.value.pos + 1);
      if s.Err? {
        return Err(s.error);
      }
      r := Ok(Next(s.value));
    }

    /** `parse_value_array<T>` (cpptoml.h:1554-1575), `it` on the first element. */
    method ParseValueArray(it: nat, kind: Kind) returns (r: Result<(seq<Value>, Cursor), ParseError>)
      requires Valid() && it < |line|
      modifies this
      ensures r == ValueElems(input, Cursor(old(lineNumber), it), kind)
      ensures r.Ok? ==> On(r.value.1)
      ensures r.Err? ==> r.error.line == lineNumber
      decreases |input| - lineNumber, |line| - it, 5
    {
      hide ValueSpec, Separator, ValueElems, ValueNext;
      ghost var c0 := Cursor(lineNumber, it);
      var arr: seq<Value> := [];
      var pos: nat := it;
      PrependAllNil(ValueElems(input, c0, kind));
      while line[pos] != ']'
        invariant Valid() && pos < |line| && AtOrBefore(c0, Cursor(lineNumber, pos))
        invariant ValueElems(input, c0, kind) == PrependAll(arr, ValueElems(input, Cursor(lineNumber, pos), kind))
        decreases |input| - lineNumber, |line| - pos
      {
        Progress(input, c0, Cursor(lineNumber, pos));
        var e := ValueElement(pos, kind);
        if e.Err? {
          return Err(e.error);
        }
        var (v, d, sep) := e.value;
        ValueNextStep(input, d, kind);
        PrependAllStep(arr, v, ValueNext(input, d, kind));
        arr := arr + [v];
        pos := sep.at.pos;
        if sep.Stop? {
          assert arr + [] == arr;
          return Ok((arr, Cursor(lineNumber, pos + 1)));
        }
      }
      ValueElemsStep(input, Cursor(lineNumber, pos), kind);
      assert arr + [] == arr;
      r := Ok((arr, Cursor(lineNumber, pos + 1)));
    }

    /**
     * One pass of the loop of `parse_value_array` (cpptoml.h:1560-1570), `it` on an
     * element: the element, which must have the array's kind, the cursor after
     * it and the separator found there.
     */
    method ValueElement(it: nat, kind: Kind) returns (r: Result<(Value, Cursor, Sep), ParseError>)
      requires Valid() && it < |line| && line[it] != ']'
      modifies this
      ensures r.Err? ==> ValueElems(input, Cursor(old(lineNumber), it), kind) == Err(r.error)
      ensures r.Err? ==> r.error.line == lineNumber
      ensures r.Ok? ==> On(r.value.2.at) && Values.Valid(input, r.value.1) && Before(Cursor(old(lineNumber), it), r.value.1)
      ensures r.Ok? ==> HasKind(r.value.0, kind) && Separator(input, r.value.1) == Ok(r.value.2)
      ensures r.Ok? ==> ValueElems(input, Cursor(old(lineNumber), it), kind) == PrependValue(r.value.0, ValueNext(input, r.value.1, kind))
      decreases |input| - lineNumber, |line| - it, 4
    {
      hide ValueSpec, Separator, ValueElems, ValueNext;
      ValueElemsStep(input, Cursor(lineNumber, it), kind);
      var v := ParseValue(it);
      if v.Err? {
        return Err(v.error);
      }
      if !HasKind(v.value.0, kind) {
        return Fail(HeterogeneousArray, lineNumber);
      }
      var d := v.value.1;
      ValueNextStep(input, d, kind);
      var s := ParseSeparator(d.pos);
      if s.Err? {
        return Err(s.error);
      }
      r := Ok((v.value.0, d, s.value));
    }

    /**
     * `parse_object_array` (cpptoml.h:1576-1603), `it` on the first element; the
     * element parser is `parse_array` when `delim` is `[` and `parse_inline_table`
     * when it is `{`.
     */
    method ParseObjectArray(it: nat, delim: char) returns (r: Result<(seq<Value>, Cursor), ParseError>)
      requires Valid() && it < |line| && (delim == '[' || delim == '{')
      modifies this
      ensures r == ObjectElems(input, Cursor(old(lineNumber), it), delim)
      ensures r.Ok? ==> On(r.value.1)
      ensures r.Err? ==> r.error.line == lineNumber
      decreases |input| - lineNumber, |line| - it, 5
    {
      hide ObjectSpec, Separator, ObjectElems, ObjectNext;
      ghost var c0 := Cursor(lineNumber, it);
      var arr: seq<Value> := [];
      var pos: nat := it;
      PrependAllNil(ObjectElems(input, c0, delim));
      while line[pos] != ']'
        invariant Valid() && pos < |line| && AtOrBefore(c0, Cursor(lineNumber, pos))
        invariant ObjectElems(input, c0, delim) == PrependAll(arr, ObjectElems(input, Cursor(lineNumber, pos), delim))
        decreases |input| - lineNumber, |line| - pos
      {
        ghost var c := Cursor(lineNumber, pos);
        if line[pos] != delim {
          ObjectElemsEnd(input, c, delim);
          return Fail(UnexpectedCharInArray, lineNumber);
        }
        Progress(input, c0, c);
        var e := ObjectElement(pos, delim);
        if e.Err? {
          return Err(e.error);
        }
        var (v, d, sep) := e.value;
        ObjectNextStep(input, d, delim);
        PrependAllStep(arr, v, ObjectNext(input, d, delim));
        arr := arr + [v];
        pos := sep.at.pos;
        if sep.Stop? {
          if line[pos] != ']' {
            return Fail(UnterminatedArray, lineNumber);
          }
          assert arr + [] == arr;
          return Ok((arr, Cursor(lineNumber, pos + 1)));
        }
      }
      ObjectElemsEnd(input, Cursor(lineNumber, pos), delim);
      assert arr + [] == arr;
      r := Ok((arr, Cursor(lineNumber, pos + 1)));
    }

    /**
     * One pass of the loop of `parse_object_array` (cpptoml.h:1589-1596), `it` on
     * an element: the element, the cursor after it and the separator found there.
     */
    method ObjectElement(it: nat, delim: char) returns (r: Result<(Value, Cursor, Sep), ParseError>)
      requires Valid() && it < |line| && (delim == '[' || delim == '{') && line[it] == delim
      modifies this
      ensures r.Err? ==> ObjectElems(input, Cursor(old(lineNumber), it), delim) == Err(r.error)
      ensures r.Err? ==> r.error.line == lineNumber
      ensures r.Ok? ==> On(r.value.2.at) && Values.Valid(input, r.value.1) && Before(Cursor(old(lineNumber), it), r.value.1)
      ensures r.Ok? ==> Separator(input, r.value.1) == Ok(r.value.2)
      ensures r.Ok? ==> ObjectElems(input, Cursor(old(lineNumber), it), delim) == PrependValue(r.value.0, ObjectNext(input, r.value.1, delim))
      decreases |input| - lineNumber, |line| - it, 4
    {
      hide ObjectSpec, Separator, ObjectElems, ObjectNext;
      ghost var c := Cursor(lineNumber, it);
      ObjectElemsStep(input, c, delim);
      var v := ParseObject(it);
      if v.Err? {
        return Err(v.error);
      }
      var d := v.value.1;
      ObjectNextStep(input, d, delim);
      var s := ParseSeparator(d.pos);
      if s.Err? {
        return Err(s.error);
      }
      r := Ok((v.value.0, d, s.value));
    }

    /** The element parser `parse_object_array` calls through its member pointer (cpptoml.h:1589). */
    method ParseObject(it: nat) returns (r: Result<(Value, Cursor), ParseError>)
      requires Valid() && it < |line| && line[it] in "[{"
      modifies this
      ensures r == ObjectSpec(input, Cursor(old(lineNumber), it))
      ensures r.Ok? ==> On(r.value.1)
      ensures r.Err? ==> r.error.line == lineNumber
      decreases |input| - lineNumber, |line| - it, 3
    {
      hide ArraySpec, InlineTableSpec;
      if line[it] == '[' {
        r := ParseArray(it);
      } else {
        r := ParseInlineTable(it);
      }
    }

    /** `parse_inline_table` (cpptoml.h:1605-1628), `it` on the `{`. */
    method ParseInlineTable(it: nat) returns (r: Result<(Value, Cursor), ParseError>)
      requires Valid() && it < |line| && line[it] == '{'
      modifies this
      ensures r == InlineTableSpec(input, Cursor(old(lineNumber), it))
      ensures r.Ok? ==> On(r.value.1)
      ensures r.Err? ==> r.error.line == lineNumber
      decreases |input| - lineNumber, |line| - it, 2
    {
      hide InlineEntries, InlineNext, SkipWs;
      var pairs := InlinePairs(it);
      if pairs.Err? {
        return Err(pairs.error);
      }
      var (tbl, d, pos) := pairs.value;
      InlineNextStep(input, d, tbl);
      if pos == |line| || line[pos] != '}' {
        return Fail(UnterminatedInlineTable, lineNumber);
      }
      pos := ConsumeWhitespace(line, pos + 1);
      r := Ok((TableVal(tbl), Cursor(lineNumber, pos)));
    }

    /**
     * The `do ... while` loop of `parse_inline_table` (cpptoml.h:1609-1618) from
     * the `{` at `it`. It stops after the first key/value pair that no `,`
     * follows, with the table read so far, the cursor after that pair and the
     * first non-blank position after it.
     */
    method InlinePairs(it: nat) returns (r: Result<(Table, Cursor, nat), ParseError>)
      requires Valid() && it < |line|
      modifies this
      ensures r.Err? ==> InlineEntries(input, Cursor(old(lineNumber), it), EmptyTable) == Err(r.error)
      ensures r.Ok? ==> On(r.value.1) && Values.Valid(input, r.value.1) && WellFormedTable(r.value.0)
      ensures r.Err? ==> r.error.line == lineNumber
      ensures r.Ok? ==> InlineEntries(input, Cursor(old(lineNumber), it), EmptyTable) == InlineNext(input, r.value.1, r.value.0)
      ensures r.Ok? ==> r.value.2 == SkipWs(line, r.value.1.pos) && !(r.value.2 < |line| && line[r.value.2] == ',')
      ensures r.Err? ==> r.error.line == lineNumber
      decreases |input| - lineNumber, |line| - it, 1
    {
      hide KeyValueSpec, InlineEntries, InlineNext, SkipWs;
      ghost var c0 := Cursor(lineNumber, it);
      var tbl := EmptyTable;
      var pos: nat := it;
      while true
        invariant Valid() && pos < |line| && AtOrBefore(c0, Cursor(lineNumber, pos)) && WellFormedTable(tbl)
        invariant InlineEntries(input, c0, EmptyTable) == InlineEntries(input, Cursor(lineNumber, pos), tbl)
        decreases |input| - lineNumber, |line| - pos
      {
        ghost var c := Cursor(lineNumber, pos);
        var kv := InlinePair(pos, tbl);
        if kv.Err? {
          return Err(kv.error);
        }
        tbl := kv.value.0;
        InlineNextStep(input, kv.value.1, tbl);
        pos := ConsumeWhitespace(line, kv.value.1.pos);
        if pos == |line| || line[pos] != ',' {
          return Ok((tbl, kv.value.1, pos));
        }
        Progress(input, c, Cursor(lineNumber, pos));
      }
    }

    /**
     * One pass of the loop of `parse_inline_table` (cpptoml.h:1610-1615), `it` on
     * the `{` or a `,`: step over it and read one key/value pair into `t`.
     */
    method InlinePair(it: nat, t: Table) returns (r: Result<(Table, Cursor), ParseError>)
      requires Valid() && it < |line| && WellFormedTable(t)
      modifies this
      ensures r.Err? ==> InlineEntries(input, Cursor(old(lineNumber), it), t) == Err(r.error)
      ensures r.Err? ==> r.error.line == lineNumber
      ensures r.Ok? ==> On(r.value.1) && Values.Valid(input, r.value.1) && Before(Cursor(old(lineNumber), it), r.value.1)
      ensures r.Ok? ==> WellFormedTable(r.value.0)
      ensures r.Ok? ==> InlineEntries(input, Cursor(old(lineNumber), it), t) == InlineNext(input, r.value.1, r.value.0)
      decreases |input| - lineNumber, |line| - it, 0
    {
      hide KeyValueSpec, InlineEntries, InlineNext, SkipWs;
      ghost var c := Cursor(lineNumber, it);
      InlineEntriesStep(input, c, t);
      if it + 1 == |line| {
        return Fail(UnterminatedInlineTable, lineNumber);
      }
      var pos := ConsumeWhitespace(line, it + 1);
      var kv := ParseKeyValue(pos, t);
      if kv.Err? {
        return Err(kv.error);
      }
      r := kv;
    }

    /** `parse_key_value` (cpptoml.h:957-972) into table `t`, which comes back with the new entry. */
    method ParseKeyValue(it: nat, t: Table) returns (r: Result<(Table, Cursor), ParseError>)
      requires Valid() && it <= |line| && WellFormedTable(t)
      modifies this
      ensures r == KeyValueSpec(input, Cursor(old(lineNumber), it), t)
      ensures r.Ok? ==> On(r.value.1)
      ensures r.Err? ==> r.error.line == lineNumber
      decreases |input| - lineNumber, |line| - it, 0
    {
      hide KeySpec, ValueSpec;
      ghost var c0 := Cursor(lineNumber, it);
      var k := ParseKey(line, it, ValueKey);
      if k.Err? {
        return Fail(k.error, lineNumber);
      }
      var key := k.value.0;
      if Contains(t, key) {
        return Fail(DuplicateKey, lineNumber);
      }
      var p := k.value.1;
      if p == |line| || line[p] != '=' {
        return Fail(MissingEquals, lineNumber);
      }
      var pos := ConsumeWhitespace(line, p + 1);
      Progress(input, c0, Cursor(lineNumber, pos));
      var v := ParseValue(pos);
      if v.Err? {
        return Err(v.error);
      }
      pos := ConsumeWhitespace(line, v.value.1.pos);
      r := Ok((Insert(t, key, v.value.0), Cursor(lineNumber, pos)));
    }

    // -------------------------------------------------------------------------
    // Table headers (cpptoml.h:776-955)
    // -------------------------------------------------------------------------

    /** `parse_table` (cpptoml.h:776-787), `it` on the `[`; the walk starts at `root`. */
    method ParseTable(it: nat, root: Table) returns (r: Result<Doc, ParseError>)
      requires Valid() && it < |line| && WellFormedTable(root)
      ensures r == Raise(HeaderSpec(line, it, root), lineNumber)
    {
      hide TableArraySpec, SingleTableSpec;
      if it + 1 == |line| {
        return Fail(UnexpectedEndOfTable, lineNumber);
      }
      if line[it + 1] == '[' {
        r := ParseTableArray(it + 2, root);
      } else {
        r := ParseSingleTable(it + 1, root);
      }
    }

    /** `parse_single_table` (cpptoml.h:789-862), `it` just after the `[`. */
    method ParseSingleTable(it: nat, root: Table) returns (r: Result<Doc, ParseError>)
      requires Valid() && it <= |line| && WellFormedTable(root)
      ensures r == Raise(SingleTableSpec(line, it, root), lineNumber)
    {
      hide EolOrComment, HoldsValue, IsEmpty, TableNameLoop;
      if it == |line| || line[it] == ']' {
        return Fail(EmptyTableName, lineNumber);
      }
      var name := TableName(it, root);
      if name.Err? {
        return Fail(name.error, lineNumber);
      }
      var (d, inserted, pos) := name.value;
      if !inserted && (IsEmpty(Current(d)) || HoldsValue(Current(d))) {
        return Fail(TableRedefinition, lineNumber);
      }
      if pos == |line| {
        return Fail(UnterminatedTableName, lineNumber);
      }
      pos := ConsumeWhitespace(line, pos + 1);
      var e := EolOrComment(line, pos);
      if e.Some? {
        return Fail(e.value, lineNumber);
      }
      r := Ok(d);
    }

    /**
     * The segment loop of `parse_single_table` (cpptoml.h:797-837): the table
     * reached, whether some segment was created, and where the loop stopped.
     */
    method TableName(it: nat, root: Table) returns (r: Result<(Doc, bool, nat), ErrorKind>)
      requires it <= |line| && WellFormedTable(root)
      ensures r == TableNameLoop(line, it, Doc(root, []), false)
    {
      hide KeySpec, TableSegment;
      var d := Doc(root, []);
      var inserted := false;
      var pos: nat := it;
      while pos < |line| && line[pos] != ']'
        invariant pos <= |line| && DocValid(d)
        invariant TableNameLoop(line, it, Doc(root, []), false) == TableNameLoop(line, pos, d, inserted)
        decreases |line| - pos
      {
        var k := ParseKey(line, pos, HeaderKey);
        if k.Err? {
          return Err(k.error);
        }
        var part := k.value.0;
        if part == "" {
          return Err(EmptyTableNameComponent);
        }
        inserted := inserted || part !in Current(d).entries;
        var next := TableSegment(d, part);
        if next.Err? {
          return Err(next.error);
        }
        d := next.value;
        var p := k.value.1;
        pos := ConsumeWhitespace(line, p);
        if pos < |line| && line[pos] == '.' {
          pos := pos + 1;
        }
        pos := ConsumeWhitespace(line, pos);
        assert pos == SegmentEnd(line, p);
      }
      r := Ok((d, inserted, pos));
    }

    /** `parse_table_array` (cpptoml.h:864-955), `it` just after the `[[`. */
    method ParseTableArray(it: nat, root: Table) returns (r: Result<Doc, ParseError>)
      requires Valid() && it <= |line| && WellFormedTable(root)
      ensures r == Raise(TableArraySpec(line, it, root), lineNumber)
    {
      hide EolOrComment, TableArrayNameLoop;
      if it == |line| || line[it] == ']' {
        return Fail(EmptyTableArrayName, lineNumber);
      }
      var name := TableArrayName(it, root);
      if name.Err? {
        return Fail(name.error, lineNumber);
      }
      var (d, pos) := name.value;
      if pos == |line| || pos + 1 == |line| {
        return Fail(UnterminatedTableArrayName, lineNumber);
      }
      pos := ConsumeWhitespace(line, pos + 2);
      var e := EolOrComment(line, pos);
      if e.Some? {
        return Fail(e.value, lineNumber);
      }
      r := Ok(d);
    }

    /** The segment loop of `parse_table_array` (cpptoml.h:869-941). */
    method TableArrayName(it: nat, root: Table) returns (r: Result<(Doc, nat), ErrorKind>)
      requires it <= |line| && WellFormedTable(root)
      ensures r == TableArrayNameLoop(line, it, Doc(root, []))
    {
      hide KeySpec, TableArraySegment;
      var d := Doc(root, []);
      var pos: nat := it;
      while pos < |line| && line[pos] != ']'
        invariant pos <= |line| && DocValid(d)
        invariant TableArrayNameLoop(line, it, Doc(root, [])) == TableArrayNameLoop(line, pos, d)
        decreases |line| - pos
      {
        var k := ParseKey(line, pos, HeaderKey);
        if k.Err? {
          return Err(k.error);
        }
        var part := k.value.0;
        if part == "" {
          return Err(EmptyTableArrayNameComponent);
        }
        var p := k.value.1;
        pos := ConsumeWhitespace(line, p);
        if pos < |line| && line[pos] == '.' {
          pos := pos + 1;
        }
        pos := ConsumeWhitespace(line, pos);
        assert pos == SegmentEnd(line, p);
        var next := TableArraySegment(d, part, pos < |line| && line[pos] == ']');
        if next.Err? {
          return Err(next.error);
        }
        d := next.value;
      }
      r := Ok((d, pos));
    }

    // -------------------------------------------------------------------------
    // The line driver (cpptoml.h:736-763)
    // -------------------------------------------------------------------------

    /** `parse()`: the root table of the whole input, or the first error. */
    method Parse() returns (r: Result<Table, ParseError>)
      requires lineNumber == 0
      modifies this
      ensures r == ParseSpec(input)
      ensures r.Ok? ==> lineNumber == |input|
      ensures r.Ok? && |input| > 0 ==> Valid()
      ensures r.Err? ==> r.error.line == lineNumber
    {
      hide LineSpec;
      var root := EmptyTable;
      var current: seq<Step> := [];
      while lineNumber < |input|
        invariant lineNumber <= |input| && DocValid(Doc(root, current))
        invariant lineNumber > 0 ==> Valid()
        invariant ParseSpec(input) == LinesSpec(input, lineNumber, Doc(root, current))
        decreases |input| - lineNumber
      {
        var next := ParseLine(root, current);
        if next.Err? {
          return Err(next.error);
        }
        root, current := next.value.root, next.value.current;
      }
      r := Ok(root);
    }

    /** The body of the loop of `parse()` (cpptoml.h:742-761): the next line is read and parsed. */
    method ParseLine(root: Table, current: seq<Step>) returns (r: Result<Doc, ParseError>)
      requires lineNumber < |input| && DocValid(Doc(root, current))
      modifies this
      ensures LineSpec(input, old(lineNumber), Doc(root, current)).Err? ==> r == Err(LineSpec(input, old(lineNumber), Doc(root, current)).error)
      ensures LineSpec(input, old(lineNumber), Doc(root, current)).Ok? ==> r == Ok(LineSpec(input, old(lineNumber), Doc(root, current)).value.0) && lineNumber == LineSpec(input, old(lineNumber), Doc(root, current)).value.1
      ensures r.Err? ==> r.error.line == lineNumber
      ensures r.Ok? ==> Valid()
    {
      hide HeaderSpec, KeyValueSpec;
      lineNumber := lineNumber + 1;
      line := input[lineNumber - 1];
      var it := ConsumeWhitespace(line, 0);
      if it == |line| || line[it] == '#' {
        return Ok(Doc(root, current));
      }
      if line[it] == '[' {
        r := ParseTable(it, root);
        return;
      }
      TableAtWellFormed(root, current);
      var kv := ParseKeyValue(it, TableAt(root, current));
      if kv.Err? {
        return Err(kv.error);
      }
      UpdateWellFormed(root, current, kv.value.0);
      var pos := ConsumeWhitespace(line, kv.value.1.pos);
      var e := EolOrComment(line, pos);
      if e.Some? {
        return Fail(e.value, lineNumber);
      }
      r := Ok(Doc(UpdateAt(root, current, kv.value.0), current));
    }
  }
}
