/**
 * The scanners of `class parser` that work inside a single line (cpptoml.h):
 * whitespace, keys, escape codes, single-line string literals and the handling of
 * one line of a multi-line string. A position is an index into the line; the
 * line's end is `|line|`.
 *
 * Where the source dereferences the end iterator (undefined behaviour) the model
 * mostly reads it as a character that matches nothing, like the string's
 * terminating NUL. An empty bare key reads before its range instead; see
 * `BareKeySpec`.
 */
module Lexer {
  import opened Wrappers
  import opened Errors

  /** The whitespace of `consume_whitespace` (cpptoml.h:1645-1650). */
  predicate IsWs(c: char) { c == ' ' || c == '\t' }

  /** `is_number` (cpptoml.h:1668-1671). */
  predicate IsDigit(c: char) { '0' <= c <= '9' }

  /** The first position at or after `i` that holds no whitespace. */
  function SkipWs(line: string, i: nat): (j: nat)
    requires i <= |line|
    ensures i <= j <= |line|
    ensures forall k | i <= k < j :: IsWs(line[k])
    ensures j == |line| || !IsWs(line[j])
    decreases |line| - i
  {
    if i < |line| && IsWs(line[i]) then SkipWs(line, i + 1) else i
  }

  /**
   * The `std::find_if` the scanners run over the rest of a line: the first
   * position at or after `i` that holds one of `stops`, or the end of the line.
   */
  function FindEnd(line: string, i: nat, stops: string): (r: nat)
    requires i <= |line|
    ensures i <= r <= |line|
    ensures forall k | i <= k < r :: line[k] !in stops
    ensures r == |line| || line[r] in stops
    decreases |line| - i
  {
    if i == |line| || line[i] in stops then i else FindEnd(line, i + 1, stops)
  }

  /** `consume_whitespace` (cpptoml.h:1645-1650). */
  method ConsumeWhitespace(line: string, i: nat) returns (j: nat)
    requires i <= |line|
    ensures j == SkipWs(line, i)
  {
    j := i;
    while j < |line| && IsWs(line[j])
      invariant i <= j <= |line|
      invariant SkipWs(line, i) == SkipWs(line, j)
    {
      j := j + 1;
    }
  }

  /** The position `consume_backwards_whitespace` stops at, walking down from `back` but never past `front`. */
  function TrimBack(line: string, front: nat, back: nat): (r: nat)
    requires front <= back < |line|
    ensures front <= r <= back
    ensures forall k | r < k <= back :: IsWs(line[k])
    ensures r == front || !IsWs(line[r])
    decreases back - front
  {
    if back != front && IsWs(line[back]) then TrimBack(line, front, back - 1) else back
  }

  /** `consume_backwards_whitespace` (cpptoml.h:1652-1657). */
  method ConsumeBackwardsWhitespace(line: string, front: nat, back: nat) returns (r: nat)
    requires front <= back < |line|
    ensures r == TrimBack(line, front, back)
  {
    r := back;
    while r != front && IsWs(line[r])
      invariant front <= r <= back
      invariant TrimBack(line, front, back) == TrimBack(line, front, r)
    {
      r := r - 1;
    }
  }

  /** `eol_or_comment` (cpptoml.h:1659-1665): nothing but a comment may follow. */
  function EolOrComment(line: string, i: nat): (r: Option<ErrorKind>)
    requires i <= |line|
    ensures r.None? <==> i == |line| || line[i] == '#'
    ensures r.Some? ==> r.value == TrailingCharacter
  {
    if i < |line| && line[i] != '#' then Some(TrailingCharacter) else None
  }

  // ---------------------------------------------------------------------------
  // Escape codes and single-line strings (cpptoml.h:1232-1299)
  // ---------------------------------------------------------------------------

  /** The character each escape code of `parse_escape_code` stands for. */
  function Unescaped(code: char): (r: Option<char>)
    ensures r.Some? <==> code in "btnfr\"\\"
    ensures r.Some? ==> (r.value == code <==> code == '"' || code == '\\')
    ensures r.Some? && r.value != code ==> r.value < ' '
  {
    if code == 'b' then Some(8 as char)
    else if code == 't' then Some('\t')
    else if code == 'n' then Some('\n')
    else if code == 'f' then Some(12 as char)
    else if code == 'r' then Some('\r')
    else if code == '"' then Some('"')
    else if code == '\\' then Some('\\')
    else None
  }

  /**
   * `parse_escape_code` (cpptoml.h:1258-1299), `i` at the backslash: exactly the
   * codes b t n f r " and backslash are accepted, and two characters are consumed.
   */
  function EscapeCode(line: string, i: nat): (r: Result<(char, nat), ErrorKind>)
    requires i < |line|
    ensures r.Ok? <==> i + 1 < |line| && line[i + 1] in "btnfr\"\\"
    ensures r.Ok? ==> r.value.1 == i + 2 && Some(r.value.0) == Unescaped(line[i + 1])
    ensures r.Err? ==> r.error == InvalidEscape
  {
    if i + 1 == |line| then Err(InvalidEscape)
    else match Unescaped(line[i + 1])
      case None => Err(InvalidEscape)
      case Some(c) => Ok((c, i + 2))
  }

  /** `text` in front of the decoded part of a scanning result. */
  function Prepend(text: string, r: Result<(string, nat), ErrorKind>): Result<(string, nat), ErrorKind>
  {
    match r
    case Err(e) => Err(e)
    case Ok((s, p)) => Ok((text + s, p))
  }

  /**
   * The body of a single-line string from `j` (just after the opening delimiter):
   * its decoded text and the position after the closing delimiter. Escapes are
   * decoded only between double quotes.
   */
  function LiteralBody(line: string, j: nat, delim: char): (r: Result<(string, nat), ErrorKind>)
    requires j <= |line|
    ensures r.Ok? ==> j < r.value.1 <= |line| && line[r.value.1 - 1] == delim
    ensures r.Err? ==> r.error in {UnterminatedString, InvalidEscape}
    decreases |line| - j
  {
    if j == |line| then Err(UnterminatedString)
    else if delim == '"' && line[j] == '\\' then
      match EscapeCode(line, j)
      case Err(e) => Err(e)
      case Ok((c, k)) => Prepend([c], LiteralBody(line, k, delim))
    else if line[j] == delim then Ok(("", j + 1))
    else Prepend([line[j]], LiteralBody(line, j + 1, delim))
  }

  /** `string_literal` with `i` on the opening delimiter: the body, then the whitespace after it. */
  function LiteralSpec(line: string, i: nat, delim: char): (r: Result<(string, nat), ErrorKind>)
    requires i < |line|
    ensures r.Ok? ==> i + 2 <= r.value.1 <= |line|
  {
    match LiteralBody(line, i + 1, delim)
    case Err(e) => Err(e)
    case Ok((s, p)) => Ok((s, SkipWs(line, p)))
  }

  /** `string_literal` (cpptoml.h:1232-1256). */
  method StringLiteral(line: string, i: nat, delim: char) returns (r: Result<(string, nat), ErrorKind>)
    requires i < |line|
    ensures r == LiteralSpec(line, i, delim)
  {
    var j := i + 1;
    var val := "";
    PrependNil(LiteralBody(line, j, delim));
    while j < |line|
      invariant i + 1 <= j <= |line|
      invariant LiteralBody(line, i + 1, delim) == Prepend(val, LiteralBody(line, j, delim))
      decreases |line| - j
    {
      if delim == '"' && line[j] == '\\' {
        var e := EscapeCode(line, j);
        if e.Err? {
          return Err(e.error);
        }
        PrependTwice(val, [e.value.0], LiteralBody(line, e.value.1, delim));
        val := val + [e.value.0];
        j := e.value.1;
      } else if line[j] == delim {
        assert val + "" == val;
        var k := ConsumeWhitespace(line, j + 1);
        return Ok((val, k));
      } else {
        PrependTwice(val, [line[j]], LiteralBody(line, j + 1, delim));
        val := val + [line[j]];
        j := j + 1;
      }
    }
    r := Err(UnterminatedString);
  }

  lemma PrependNil(r: Result<(string, nat), ErrorKind>)
    ensures Prepend("", r) == r
  {
    match r
    case Err(_) =>
    case Ok((s, p)) => assert "" + s == s;
  }

  lemma PrependTwice(a: string, b: string, r: Result<(string, nat), ErrorKind>)
    ensures Prepend(a, Prepend(b, r)) == Prepend(a + b, r)
  {
    match r
    case Err(_) =>
    case Ok((s, p)) => assert a + (b + s) == (a + b) + s;
  }

  /** A literal string (single quotes) is the verbatim text up to the next single quote. */
  lemma {:induction false} LiteralVerbatim(line: string, j: nat, k: nat)
    requires j <= k < |line| && line[k] == '\'' && '\'' !in line[j..k]
    ensures LiteralBody(line, j, '\'') == Ok((line[j..k], k + 1))
    decreases k - j
  {
    if j < k {
      assert line[j] == line[j..k][0];
      assert line[j + 1..k] == line[j..k][1..];
      assert line[j] != '\'';
      LiteralVerbatim(line, j + 1, k);
      assert [line[j]] + line[j + 1..k] == line[j..k];
    } else {
      assert line[j..k] == "";
    }
  }

  /** A string whose delimiter does not occur again on the line is unterminated. */
  lemma {:induction false} LiteralUnterminated(line: string, j: nat, delim: char)
    requires j <= |line| && delim !in line[j..]
    ensures LiteralBody(line, j, delim).Err?
    decreases |line| - j
  {
    if j < |line| {
      assert line[j] == line[j..][0];
      assert line[j + 1..] == line[j..][1..];
      if delim == '"' && line[j] == '\\' {
        var e := EscapeCode(line, j);
        if e.Ok? {
          assert line[e.value.1..] == line[j + 1..][1..];
          LiteralUnterminated(line, e.value.1, delim);
        }
      } else {
        LiteralUnterminated(line, j + 1, delim);
      }
    }
  }

  // ---------------------------------------------------------------------------
  // Keys (cpptoml.h:975-1030)
  // ---------------------------------------------------------------------------

  /** A bare key is ended by `=` on a key/value line and by `.` or `]` in a table header. */
  datatype KeyContext = ValueKey | HeaderKey

  predicate EndsKey(ctx: KeyContext, c: char)
  {
    match ctx
    case ValueKey => c == '='
    case HeaderKey => c == '.' || c == ']'
  }

  /** The `std::find_if` of `parse_key`: the first position at or after `i` that ends a bare key. */
  function KeyEnd(line: string, i: nat, ctx: KeyContext): (r: nat)
    requires i <= |line|
    ensures i <= r <= |line|
    ensures forall k | i <= k < r :: !EndsKey(ctx, line[k])
    ensures r == |line| || EndsKey(ctx, line[r])
    decreases |line| - i
  {
    if i == |line| || EndsKey(ctx, line[i]) then i else KeyEnd(line, i + 1, ctx)
  }

  /** The characters a bare key may not contain. */
  predicate BareKeyChar(c: char)
  {
    c != '#' && !IsWs(c) && c != '[' && c != ']'
  }

  /**
   * `parse_bare_key` (cpptoml.h:990-1024) on the range `start..stop`: trailing
   * whitespace is trimmed, and the key must not contain `#`, whitespace or brackets.
   */
  function BareKeySpec(line: string, start: nat, stop: nat): (r: Result<(string, nat), ErrorKind>)
    requires start <= stop <= |line|
    ensures r.Ok? ==> r.value.1 == stop
    ensures r.Ok? ==> forall k | 0 <= k < |r.value.0| :: BareKeyChar(r.value.0[k])
    ensures r.Ok? && start < stop ==>
      0 < |r.value.0| && start + |r.value.0| <= stop && r.value.0 == line[start..start + |r.value.0|] &&
      forall k | start + |r.value.0| <= k < stop :: IsWs(line[k])
    ensures r.Err? ==> r.error in {BareKeyHash, BareKeyWhitespace, BareKeyBracket, EmptyBareKey}
  {
    if start == stop then
      // The source steps one before the range; only a non-blank character there is defined.
      if start > 0 && !IsWs(line[start - 1]) then Ok(("", stop)) else Err(EmptyBareKey)
    else
      var keyEnd := TrimBack(line, start, stop - 1) + 1;
      var key := line[start..keyEnd];
      if '#' in key then Err(BareKeyHash)
      else if ' ' in key || '\t' in key then Err(BareKeyWhitespace)
      else if '[' in key || ']' in key then Err(BareKeyBracket)
      else Ok((key, stop))
  }

  /** A range that is a non-empty run of key characters followed by blanks gives exactly that run. */
  lemma BareKeyAccepts(line: string, start: nat, n: nat, stop: nat)
    requires start < start + n <= stop <= |line|
    requires forall k | start <= k < start + n :: BareKeyChar(line[k])
    requires forall k | start + n <= k < stop :: IsWs(line[k])
    ensures BareKeySpec(line, start, stop) == Ok((line[start..start + n], stop))
  {
    var keyEnd := TrimBack(line, start, stop - 1) + 1;
    assert keyEnd == start + n by {
      assert !IsWs(line[start + n - 1]);
    }
    var key := line[start..keyEnd];
    assert forall k | 0 <= k < |key| :: BareKeyChar(key[k]);
  }

  /** `parse_bare_key` (cpptoml.h:990-1024). */
  method ParseBareKey(line: string, start: nat, stop: nat) returns (r: Result<(string, nat), ErrorKind>)
    requires start <= stop <= |line|
    ensures r == BareKeySpec(line, start, stop)
  {
    if start == stop {
      if start > 0 && !IsWs(line[start - 1]) {
        return Ok(("", stop));
      }
      return Err(EmptyBareKey);
    }
    var back := ConsumeBackwardsWhitespace(line, start, stop - 1);
    var key := line[start..back + 1];
    if '#' in key {
      r := Err(BareKeyHash);
    } else if ' ' in key || '\t' in key {
      r := Err(BareKeyWhitespace);
    } else if '[' in key || ']' in key {
      r := Err(BareKeyBracket);
    } else {
      r := Ok((key, stop));
    }
  }

  /** `parse_key`: a quoted key is a basic string literal, anything else a bare key. */
  function KeySpec(line: string, i: nat, ctx: KeyContext): (r: Result<(string, nat), ErrorKind>)
    requires i <= |line|
    ensures r.Ok? ==> i <= r.value.1 <= |line|
    ensures r.Ok? && r.value.0 != "" ==> i < r.value.1
  {
    var j := SkipWs(line, i);
    if j < |line| && line[j] == '"' then LiteralSpec(line, j, '"')
    else BareKeySpec(line, j, KeyEnd(line, j, ctx))
  }

  /** `parse_key` (cpptoml.h:975-988) and `parse_quoted_key` (cpptoml.h:1026-1030). */
  method ParseKey(line: string, i: nat, ctx: KeyContext) returns (r: Result<(string, nat), ErrorKind>)
    requires i <= |line|
    ensures r == KeySpec(line, i, ctx)
  {
    var j := ConsumeWhitespace(line, i);
    if j < |line| && line[j] == '"' {
      r := StringLiteral(line, j, '"');
    } else {
      r := ParseBareKey(line, j, KeyEnd(line, j, ctx));
    }
  }

  /** A bare key stops at its terminator, or at the end of the line. */
  lemma BareKeyStops(line: string, i: nat, ctx: KeyContext)
    requires i <= |line|
    requires var j := SkipWs(line, i); j == |line| || line[j] != '"'
    ensures var r := KeySpec(line, i, ctx);
      r.Ok? ==> r.value.1 == |line| || EndsKey(ctx, line[r.value.1])
  {
  }

  // ---------------------------------------------------------------------------
  // One line of a multi-line string (the `handle_line` lambda, cpptoml.h:1156-1205)
  // ---------------------------------------------------------------------------

  /**
   * What one line contributes: either the string closes on it (the text before
   * the closing delimiters and the position after them), or it stays open (the
   * text, and whether the line ended in a line-ending backslash).
   */
  datatype LineOutcome = Open(text: string, continued: bool) | Closed(text: string, pos: nat)

  /** `text` in front of the text of a line outcome. */
  function PrependLine(text: string, r: Result<LineOutcome, ErrorKind>): Result<LineOutcome, ErrorKind>
  {
    match r
    case Err(e) => Err(e)
    case Ok(Open(t, c)) => Ok(Open(text + t, c))
    case Ok(Closed(t, p)) => Ok(Closed(text + t, p))
  }

  predicate TripleAt(line: string, j: nat, delim: char)
    requires j <= |line|
  {
    |line| - j >= 3 && line[j] == delim && line[j + 1] == delim && line[j + 2] == delim
  }

  /** The `while` loop of `handle_line`, from position `j`. */
  function LineChars(line: string, j: nat, delim: char): (r: Result<LineOutcome, ErrorKind>)
    requires j <= |line|
    ensures r.Ok? && r.value.Closed? ==> j + 3 <= r.value.pos <= |line|
    ensures r.Err? ==> r.error == InvalidEscape
    decreases |line| - j
  {
    if j == |line| then Ok(Open("", false))
    else if delim == '"' && line[j] == '\\' then
      if j + 1 == |line| then Ok(Open("", true))
      else match EscapeCode(line, j)
        case Err(e) => Err(e)
        case Ok((c, k)) => PrependLine([c], LineChars(line, k, delim))
    else if TripleAt(line, j, delim) then Ok(Closed("", j + 3))
    else PrependLine([line[j]], LineChars(line, j + 1, delim))
  }

  /**
   * `handle_line` from position `i`: after a line-ending backslash (`consuming`)
   * leading whitespace is dropped, and a line of nothing but whitespace keeps
   * the backslash in force.
   */
  function HandleLineSpec(line: string, i: nat, delim: char, consuming: bool): (r: Result<LineOutcome, ErrorKind>)
    requires i <= |line|
    ensures r.Ok? && r.value.Closed? ==> i + 3 <= r.value.pos <= |line|
  {
    if consuming then
      var j := SkipWs(line, i);
      if j == |line| then Ok(Open("", true)) else LineChars(line, j, delim)
    else LineChars(line, i, delim)
  }

  /** The `handle_line` lambda of `parse_multiline_string` (cpptoml.h:1156-1205). */
  method HandleLine(line: string, i: nat, delim: char, consuming: bool) returns (r: Result<LineOutcome, ErrorKind>)
    requires i <= |line|
    ensures r == HandleLineSpec(line, i, delim, consuming)
  {
    var j := i;
    if consuming {
      j := ConsumeWhitespace(line, i);
      if j == |line| {
        return Ok(Open("", true));
      }
    }
    var text := "";
    PrependLineNil(LineChars(line, j, delim));
    while j < |line|
      invariant i <= j <= |line|
      invariant HandleLineSpec(line, i, delim, consuming) == PrependLine(text, LineChars(line, j, delim))
      decreases |line| - j
    {
      if delim == '"' && line[j] == '\\' {
        if j + 1 == |line| {
          assert text + "" == text;
          return Ok(Open(text, true));
        }
        var e := EscapeCode(line, j);
        if e.Err? {
          return Err(e.error);
        }
        PrependLineTwice(text, [e.value.0], LineChars(line, e.value.1, delim));
        text := text + [e.value.0];
        j := e.value.1;
      } else if TripleAt(line, j, delim) {
        assert text + "" == text;
        return Ok(Closed(text, j + 3));
      } else {
        PrependLineTwice(text, [line[j]], LineChars(line, j + 1, delim));
        text := text + [line[j]];
        j := j + 1;
      }
    }
    assert text + "" == text;
    r := Ok(Open(text, false));
  }

  lemma PrependLineNil(r: Result<LineOutcome, ErrorKind>)
    ensures PrependLine("", r) == r
  {
    match r
    case Err(_) =>
    case Ok(Open(t, _)) => assert "" + t == t;
    case Ok(Closed(t, _)) => assert "" + t == t;
  }

  lemma PrependLineTwice(a: string, b: string, r: Result<LineOutcome, ErrorKind>)
    ensures PrependLine(a, PrependLine(b, r)) == PrependLine(a + b, r)
  {
    match r
    case Err(_) =>
    case Ok(Open(t, _)) => assert a + (b + t) == (a + b) + t;
    case Ok(Closed(t, _)) => assert a + (b + t) == (a + b) + t;
  }

  /** No closing delimiter starts at a position in `from..to`. */
  predicate NoTriple(line: string, from: nat, to: nat, delim: char)
    requires to <= |line|
  {
    forall k | from <= k < to :: !TripleAt(line, k, delim)
  }

  /** In a `'''` string a line without `'''` contributes its text verbatim and keeps the string open. */
  lemma {:induction false} LiteralLineOpen(line: string, j: nat)
    requires j <= |line| && NoTriple(line, j, |line|, '\'')
    ensures LineChars(line, j, '\'') == Ok(Open(line[j..], false))
    decreases |line| - j
  {
    if j < |line| {
      assert !TripleAt(line, j, '\'');
      LiteralLineOpen(line, j + 1);
      assert [line[j]] + line[j + 1..] == line[j..];
    } else {
      assert line[j..] == "";
    }
  }

  /** In a `'''` string the text before the first `'''` is taken verbatim and the string closes after it. */
  lemma {:induction false} LiteralLineCloses(line: string, j: nat, k: nat)
    requires j <= k <= |line| && TripleAt(line, k, '\'') && NoTriple(line, j, k, '\'')
    ensures LineChars(line, j, '\'') == Ok(Closed(line[j..k], k + 3))
    decreases k - j
  {
    if j < k {
      assert !TripleAt(line, j, '\'');
      LiteralLineCloses(line, j + 1, k);
      assert [line[j]] + line[j + 1..k] == line[j..k];
    } else {
      assert line[j..k] == "";
    }
  }
}
