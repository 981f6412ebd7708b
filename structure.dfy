/**
 * The line driver of `parser::parse` (cpptoml.h:736-763) as reference functions:
 * lines are read one at a time; blank and comment lines are skipped, a line
 * starting with `[` is a table header, which first resets the current table to
 * the root, and any other line is a key/value pair for the current table,
 * followed by nothing but a comment. A value may consume further lines, and the
 * driver carries on after the last line the value used.
 */
module Structure {
  import opened Wrappers
  import opened Errors
  import opened Document
  import opened TablePath
  import opened Lexer
  import opened Values
  import opened Headers

  /**
   * One pass of the loop of `parse()`: line `n + 1` is read with tree and current
   * table `d`. The result is the new tree and current table and the number of
   * lines read so far, or the first error.
   */
  function LineSpec(input: seq<string>, n: nat, d: Doc): (r: Result<(Doc, nat), ParseError>)
    requires n < |input| && DocValid(d)
    ensures r.Ok? ==> DocValid(r.value.0) && n < r.value.1 <= |input|
    ensures r.Err? ==> n < r.error.line <= |input|
  {
    hide HeaderSpec, KeyValueSpec, EolOrComment;
    var line := input[n];
    var i := SkipWs(line, 0);
    if i == |line| || line[i] == '#' then Ok((d, n + 1))
    else if line[i] == '[' then
      match HeaderSpec(line, i, d.root)
      case Err(k) => Fail(k, n + 1)
      case Ok(d2) => Ok((d2, n + 1))
    else
      TableAtWellFormed(d.root, d.current);
      match KeyValueSpec(input, Cursor(n + 1, i), Current(d))
      case Err(e) => Err(e)
      case Ok((t, c)) =>
        UpdateWellFormed(d.root, d.current, t);
        var rest := LineAt(input, c);
        match EolOrComment(rest, SkipWs(rest, c.pos))
        case Some(k) => Fail(k, c.ln)
        case None => Ok((Doc(UpdateAt(d.root, d.current, t), d.current), c.ln))
  }

  /**
   * `parse()` after `n` lines have been read, with tree and current table `d`:
   * the finished root table, or the first error.
   */
  function LinesSpec(input: seq<string>, n: nat, d: Doc): (r: Result<Table, ParseError>)
    requires n <= |input| && DocValid(d)
    ensures r.Ok? ==> WellFormedTable(r.value)
    ensures r.Err? ==> n < r.error.line <= |input|
    decreases |input| - n
  {
    if n == |input| then Ok(d.root)
    else
      match LineSpec(input, n, d)
      case Err(e) => Err(e)
      case Ok((d2, m)) => LinesSpec(input, m, d2)
  }

  /** `parser(input).parse()`: an empty root and no line read yet. */
  function ParseSpec(input: seq<string>): (r: Result<Table, ParseError>)
    ensures r.Ok? ==> WellFormedTable(r.value)
    ensures r.Err? ==> 0 < r.error.line <= |input|
  {
    LinesSpec(input, 0, Doc(EmptyTable, []))
  }
}
