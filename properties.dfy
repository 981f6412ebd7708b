/**
 * Properties of the parser that relate several of its steps: arrays are
 * homogeneous, a key cannot be given twice in one table, a header starts from
 * the root and only creates what is missing, `[[a]]` appends exactly one table,
 * and the newline rules of multi-line literal strings.
 */
module Properties {
  import opened Wrappers
  import opened Errors
  import opened Document
  import opened TablePath
  import opened Lexer
  import opened Scalars
  import opened Values
  import opened Headers
  import opened Structure

  // ---------------------------------------------------------------------------
  // Arrays (cpptoml.h:1507-1603)
  // ---------------------------------------------------------------------------

  /** Every element is a `value<T>` of kind `k`. */
  predicate AllOfKind(vs: seq<Value>, k: Kind)
  {
    forall i | 0 <= i < |vs| :: HasKind(vs[i], k)
  }

  /**
   * The elements of an array all have one scalar kind, or are all arrays (an
   * array of arrays may mix the kinds of its inner arrays).
   */
  predicate Homogeneous(vs: seq<Value>)
  {
    (exists k :: AllOfKind(vs, k)) ||
    (forall i | 0 <= i < |vs| :: vs[i].Array? || vs[i].TableArray?)
  }

  /** The element loops of `parse_array` only build homogeneous arrays. */
  lemma ArrayBodyHomogeneous(input: seq<string>, s: Cursor)
    requires Valid(input, s) && s.pos < |LineAt(input, s)|
    ensures var r := ArrayBody(input, s);
      r.Ok? && r.value.0.Array? ==> Homogeneous(r.value.0.values)
  {
    hide ValueElems, ObjectElems;
    var line := LineAt(input, s);
    match DetermineValueType(line, s.pos, FindEnd(line, s.pos, ",]#"))
    case Err(_) =>
    case Ok(t) =>
      if t !in {BoolType, ArrayType, InlineTableType} {
        var r := ValueElems(input, s, ElemKind(t));
        if r.Ok? {
          assert AllOfKind(r.value.0, ElemKind(t));
        }
      }
  }

  /** Every array `parse_array` accepts is homogeneous. */
  lemma ArrayHomogeneous(input: seq<string>, c: Cursor)
    requires Valid(input, c) && c.pos < |LineAt(input, c)| && LineAt(input, c)[c.pos] == '['
    ensures var r := ArraySpec(input, c);
      r.Ok? && r.value.0.Array? ==> Homogeneous(r.value.0.values)
  {
    hide ArrayBody, ValueSpec, InlineTableSpec, ObjectElems, ValueElems, SkipWsComments, WellFormed;
    var s := SkipWsComments(input, Cursor(c.ln, c.pos + 1));
    if s.Ok? {
      ArrayOpens(input, c, s.value);
      hide ArraySpec;
      if LineAt(input, s.value)[s.value.pos] != ']' {
        ArrayBodyHomogeneous(input, s.value);
      }
    } else {
      assert ArraySpec(input, c).Err?;
    }
  }

  /**
   * After the `[` and any blanks, comments and line breaks, a `]` ends an empty
   * array and anything else is the first element, handed to the element loops.
   */
  lemma ArrayOpens(input: seq<string>, c: Cursor, s: Cursor)
    requires Valid(input, c) && c.pos < |LineAt(input, c)| && LineAt(input, c)[c.pos] == '['
    requires SkipWsComments(input, Cursor(c.ln, c.pos + 1)) == Ok(s)
    ensures Valid(input, s) && s.pos < |LineAt(input, s)|
    ensures LineAt(input, s)[s.pos] == ']' ==> ArraySpec(input, c) == Ok((Array([]), Cursor(s.ln, s.pos + 1)))
    ensures LineAt(input, s)[s.pos] != ']' ==> ArraySpec(input, c) == ArrayBody(input, s)
  {
    hide ArrayBody, SkipWsComments, ValueSpec, InlineTableSpec, ObjectElems, ValueElems;
  }

  /**
   * An array whose first element starts with `t` or `f` is rejected, since
   * `parse_array` has no branch for arrays of booleans. With `ArrayOpens`, this
   * is the fate of `[true, false]` and of `[` then `false` on a later line.
   */
  lemma BoolFirstArrayRejected(input: seq<string>, s: Cursor)
    requires Valid(input, s) && s.pos < |LineAt(input, s)|
    requires LineAt(input, s)[s.pos] == 't' || LineAt(input, s)[s.pos] == 'f'
    ensures ArrayBody(input, s) == Fail(UnparsableArray, s.ln)
  {
    var line := LineAt(input, s);
    LooksBoolean(line, s.pos, FindEnd(line, s.pos, ",]#"));
    hide ValueElems, ObjectElems, DetermineValueType;
  }

  /** A token starting with `t` or `f` is looked ahead as a boolean. */
  lemma LooksBoolean(line: string, i: nat, bound: nat)
    requires i < bound <= |line| && (line[i] == 't' || line[i] == 'f')
    ensures DetermineValueType(line, i, bound) == Ok(BoolType)
  {
    assert DateEnd(line, i, bound) == i;
  }

  // ---------------------------------------------------------------------------
  // Key/value pairs (cpptoml.h:957-972)
  // ---------------------------------------------------------------------------

  /** A key the table already holds is the duplicate-key error, on the line of the key. */
  lemma DuplicateKeyRejected(input: seq<string>, c: Cursor, t: Table, key: string, p: nat)
    requires Valid(input, c) && WellFormedTable(t)
    requires KeySpec(LineAt(input, c), c.pos, ValueKey) == Ok((key, p)) && key in t.entries
    ensures KeyValueSpec(input, c, t) == Fail(DuplicateKey, c.ln)
  {
  }

  /** A key/value pair adds exactly its key, with the value parsed after the `=`, and nothing else. */
  lemma KeyValueAddsOneEntry(input: seq<string>, c: Cursor, t: Table)
    requires Valid(input, c) && WellFormedTable(t)
    ensures var r := KeyValueSpec(input, c, t);
      var k := KeyPart(LineAt(input, c), c.pos, t);
      r.Ok? ==> k.Ok? && r.value.0 == Insert(t, k.value.0, ValueSpec(input, Cursor(c.ln, k.value.1)).value.0)
  {
  }
  /**
   * A key given twice in one table is rejected on the line of the second one, at
   * the top level and under a header alike.
   */
  lemma DuplicateKeyLine(input: seq<string>, n: nat, d: Doc, key: string, p: nat)
    requires n < |input| && DocValid(d)
    requires var i := SkipWs(input[n], 0); i < |input[n]| && input[n][i] != '#' && input[n][i] != '['
    requires KeySpec(input[n], SkipWs(input[n], 0), ValueKey) == Ok((key, p)) && key in Current(d).entries
    ensures LineSpec(input, n, d) == Fail(DuplicateKey, n + 1)
  {
    TableAtWellFormed(d.root, d.current);
    DuplicateKeyRejected(input, Cursor(n + 1, SkipWs(input[n], 0)), Current(d), key, p);
  }

  /** Inline tables reuse `parse_key_value`, so a key repeated inside one is rejected too. */
  lemma InlineDuplicateKey(input: seq<string>, c: Cursor, t: Table, key: string, p: nat)
    requires Valid(input, c) && c.pos + 1 < |LineAt(input, c)| && WellFormedTable(t)
    requires var line := LineAt(input, c);
      KeySpec(line, SkipWs(line, c.pos + 1), ValueKey) == Ok((key, p)) && key in t.entries
    ensures InlineEntries(input, c, t) == Fail(DuplicateKey, c.ln)
  {
    hide InlineEntries, InlineNext, KeyValueSpec, KeySpec;
    InlineEntriesStep(input, c, t);
    DuplicateKeyRejected(input, Cursor(c.ln, SkipWs(LineAt(input, c), c.pos + 1)), t, key, p);
  }

  // ---------------------------------------------------------------------------
  // The line driver (cpptoml.h:736-763)
  // ---------------------------------------------------------------------------

  /** A blank or comment line changes nothing. */
  lemma BlankLineSkipped(input: seq<string>, n: nat, d: Doc)
    requires n < |input| && DocValid(d)
    requires var i := SkipWs(input[n], 0); i == |input[n]| || input[n][i] == '#'
    ensures LinesSpec(input, n, d) == LinesSpec(input, n + 1, d)
  {
  }

  /** Lines `n` onwards are all blank or comments. */
  predicate OnlyComments(input: seq<string>, n: nat)
  {
    forall j | n <= j < |input| :: var i := SkipWs(input[j], 0); i == |input[j]| || input[j][i] == '#'
  }

  /** A document of blank and comment lines is the empty table. */
  lemma {:induction false} CommentsOnlyDocument(input: seq<string>, n: nat, d: Doc)
    requires n <= |input| && DocValid(d) && OnlyComments(input, n)
    ensures LinesSpec(input, n, d) == Ok(d.root)
    decreases |input| - n
  {
    if n < |input| {
      BlankLineSkipped(input, n, d);
      CommentsOnlyDocument(input, n + 1, d);
    }
  }

  /** `parse()` of blank and comment lines only is the empty root table. */
  lemma CommentsOnlyParse(input: seq<string>)
    requires OnlyComments(input, 0)
    ensures ParseSpec(input) == Ok(EmptyTable)
  {
    CommentsOnlyDocument(input, 0, Doc(EmptyTable, []));
  }

  /**
   * A header line does not depend on the current table: `parse_table` starts
   * its walk at the root.
   */
  lemma HeaderIgnoresCurrent(input: seq<string>, n: nat, root: Table, p1: seq<Step>, p2: seq<Step>)
    requires n < |input| && DocValid(Doc(root, p1)) && DocValid(Doc(root, p2))
    requires var i := SkipWs(input[n], 0); i < |input[n]| && input[n][i] == '['
    ensures LineSpec(input, n, Doc(root, p1)) == LineSpec(input, n, Doc(root, p2))
  {
  }

  // ---------------------------------------------------------------------------
  // Headers (cpptoml.h:789-955)
  // ---------------------------------------------------------------------------

  /** A header whose segments all exist already walks the tree without changing it. */
  lemma {:induction false} ExistingPathKeepsTree(line: string, i: nat, d: Doc)
    requires i <= |line| && DocValid(d)
    ensures var r := TableNameLoop(line, i, d, false);
      r.Ok? && !r.value.1 ==> r.value.0.root == d.root
    decreases |line| - i
  {
    if i < |line| && line[i] != ']' {
      match KeySpec(line, i, HeaderKey)
      case Err(_) =>
      case Ok((part, p)) =>
        if part != "" && part in Current(d).entries {
          var next := TableSegment(d, part);
          if next.Ok? {
            ExistingPathKeepsTree(line, SegmentEnd(line, p), next.value);
          }
        }
    }
  }

  /**
   * Below the first segment a `[a.b]` walk changes nothing at the root but the
   * entry it went down through: the root keeps its keys and every other entry.
   */
  lemma {:induction false} TableWalkKeepsRoot(line: string, i: nat, d: Doc, inserted: bool)
    requires i <= |line| && DocValid(d) && d.current != []
    ensures var r := TableNameLoop(line, i, d, inserted);
      r.Ok? ==> r.value.0.root.entries.Keys == d.root.entries.Keys
    ensures var r := TableNameLoop(line, i, d, inserted);
      r.Ok? ==> forall k | k in d.root.entries && k != d.current[0].k :: r.value.0.root.entries[k] == d.root.entries[k]
    decreases |line| - i
  {
    hide KeySpec, TableSegment, SegmentEnd;
    if i < |line| && line[i] != ']' {
      match KeySpec(line, i, HeaderKey)
      case Err(_) =>
      case Ok((part, p)) =>
        if part != "" {
          var next := TableSegment(d, part);
          if next.Ok? {
            assert next.value.current[0].k == d.current[0].k by {
              assert PathKeys(next.value.current)[0] == (PathKeys(d.current) + [part])[0];
            }
            TableWalkKeepsRoot(line, SegmentEnd(line, p), next.value, inserted || part !in Current(d).entries);
          }
        }
    }
  }

  /**
   * `[a.b]` starts at the root and only adds: the root keeps every key, gains at
   * most the first segment's name, and every root entry other than the first
   * segment's is left as it was.
   */
  lemma TableHeaderKeepsRoot(line: string, i: nat, root: Table)
    requires i <= |line| && WellFormedTable(root)
    ensures var r := TableNameLoop(line, i, Doc(root, []), false);
      r.Ok? ==> root.entries.Keys <= r.value.0.root.entries.Keys
    ensures var r := TableNameLoop(line, i, Doc(root, []), false); var names := HeaderNames(line, i);
      r.Ok? ==> forall k | k in r.value.0.root.entries && k !in root.entries :: names != [] && k == names[0]
    ensures var r := TableNameLoop(line, i, Doc(root, []), false); var names := HeaderNames(line, i);
      r.Ok? ==> forall k | k in root.entries && (names == [] || k != names[0]) :: r.value.0.root.entries[k] == root.entries[k]
  {
    hide KeySpec, TableSegment, SegmentEnd;
    var d := Doc(root, []);
    if i < |line| && line[i] != ']' {
      match KeySpec(line, i, HeaderKey)
      case Err(_) =>
      case Ok((part, p)) =>
        if part != "" {
          var next := TableSegment(d, part);
          if next.Ok? {
            assert TableNameLoop(line, i, d, false) == TableNameLoop(line, SegmentEnd(line, p), next.value, part !in root.entries);
            assert HeaderNames(line, i)[0] == part;
            hide TableNameLoop, HeaderNames;
            assert next.value.root == TableAt(next.value.root, []);
            assert next.value.current[0].k == part by {
              assert PathKeys(next.value.current)[0] == (PathKeys(d.current) + [part])[0];
            }
            TableWalkKeepsRoot(line, SegmentEnd(line, p), next.value, part !in root.entries);
          }
        }
    }
  }

  /** The same for `[[a.b]]`: below the first segment the root keeps its keys and every other entry. */
  lemma {:induction false} TableArrayWalkKeepsRoot(line: string, i: nat, d: Doc)
    requires i <= |line| && DocValid(d) && d.current != []
    ensures var r := TableArrayNameLoop(line, i, d);
      r.Ok? ==> r.value.0.root.entries.Keys == d.root.entries.Keys
    ensures var r := TableArrayNameLoop(line, i, d);
      r.Ok? ==> forall k | k in d.root.entries && k != d.current[0].k :: r.value.0.root.entries[k] == d.root.entries[k]
    decreases |line| - i
  {
    hide KeySpec, TableArraySegment, SegmentEnd;
    if i < |line| && line[i] != ']' {
      match KeySpec(line, i, HeaderKey)
      case Err(_) =>
      case Ok((part, p)) =>
        if part != "" {
          var j := SegmentEnd(line, p);
          var last := j < |line| && line[j] == ']';
          var next := TableArraySegment(d, part, last);
          if next.Ok? {
            TableArraySegmentTree(d, part, last);
            assert next.value.current[0].k == d.current[0].k by {
              assert PathKeys(next.value.current)[0] == (PathKeys(d.current) + [part])[0];
            }
            TableArrayWalkKeepsRoot(line, j, next.value);
          }
        }
    }
  }

  /**
   * `[[a.b]]` starts at the root and only adds: the root keeps every key, gains
   * at most the first segment's name, and every root entry other than the first
   * segment's is left as it was.
   */
  lemma TableArrayHeaderKeepsRoot(line: string, i: nat, root: Table)
    requires i <= |line| && WellFormedTable(root)
    ensures var r := TableArrayNameLoop(line, i, Doc(root, []));
      r.Ok? ==> root.entries.Keys <= r.value.0.root.entries.Keys
    ensures var r := TableArrayNameLoop(line, i, Doc(root, [])); var names := HeaderNames(line, i);
      r.Ok? ==> forall k | k in r.value.0.root.entries && k !in root.entries :: names != [] && k == names[0]
    ensures var r := TableArrayNameLoop(line, i, Doc(root, [])); var names := HeaderNames(line, i);
      r.Ok? ==> forall k | k in root.entries && (names == [] || k != names[0]) :: r.value.0.root.entries[k] == root.entries[k]
  {
    hide KeySpec, TableArraySegment, SegmentEnd;
    var d := Doc(root, []);
    if i < |line| && line[i] != ']' {
      match KeySpec(line, i, HeaderKey)
      case Err(_) =>
      case Ok((part, p)) =>
        if part != "" {
          var j := SegmentEnd(line, p);
          var last := j < |line| && line[j] == ']';
          var next := TableArraySegment(d, part, last);
          if next.Ok? {
            assert TableArrayNameLoop(line, i, d) == TableArrayNameLoop(line, j, next.value);
            assert HeaderNames(line, i)[0] == part;
            hide TableArrayNameLoop, HeaderNames;
            TableArraySegmentTree(d, part, last);
            assert next.value.root == TableAt(next.value.root, []);
            assert next.value.current[0].k == part by {
              assert PathKeys(next.value.current)[0] == (PathKeys(d.current) + [part])[0];
            }
            TableArrayWalkKeepsRoot(line, j, next.value);
          }
        }
    }
  }

  /**
   * `[a.b]` naming a table that already exists is accepted only when that table
   * has sub-tables and no values of its own, and then leaves the tree as it was.
   */
  lemma ExistingTableHeader(line: string, i: nat, root: Table)
    requires i <= |line| && WellFormedTable(root)
    ensures var r := TableNameLoop(line, i, Doc(root, []), false);
      var h := SingleTableSpec(line, i, root);
      r.Ok? && !r.value.1 && h.Ok? ==> h.value.root == root && !IsEmpty(Current(h.value)) && !HoldsValue(Current(h.value))
    ensures var r := TableNameLoop(line, i, Doc(root, []), false);
      i < |line| && line[i] != ']' && r.Ok? && !r.value.1 && (IsEmpty(Current(r.value.0)) || HoldsValue(Current(r.value.0))) ==>
        SingleTableSpec(line, i, root) == Err(TableRedefinition)
  {
    ExistingPathKeepsTree(line, i, Doc(root, []));
  }

  /**
   * The last segment of `[[a.b]]` appends one empty table to the table array it
   * names, or creates the array with that one table, and makes it the current
   * table; every other entry of the enclosing table is kept.
   */
  lemma TableArrayAppends(d: Doc, part: string)
    requires DocValid(d)
    ensures var r := TableArraySegment(d, part, true);
      part in Current(d).entries && Current(d).entries[part].TableArray? ==>
        r.Ok? && ValidPath(r.value.root, d.current) &&
        TableAt(r.value.root, d.current) == Insert(Current(d), part, TableArray(Current(d).entries[part].tables + [EmptyTable]))
    ensures var r := TableArraySegment(d, part, true);
      part !in Current(d).entries ==>
        r.Ok? && ValidPath(r.value.root, d.current) &&
        TableAt(r.value.root, d.current) == Insert(Current(d), part, TableArray([EmptyTable]))
    ensures var r := TableArraySegment(d, part, true);
      part in Current(d).entries && !Current(d).entries[part].TableArray? ==> r == Err(NotTableArray)
  {
  }

  // ---------------------------------------------------------------------------
  // Multi-line literal strings (cpptoml.h:1142-1230)
  // ---------------------------------------------------------------------------

  /**
   * A `'''` string over three lines: the rest of the opening line is taken with
   * no newline after it, a middle line is taken with its newline, and the
   * closing line up to the `'''`.
   */
  lemma LiteralThreeLines(input: seq<string>, c: Cursor, k: nat)
    requires Valid(input, c) && c.ln + 2 <= |input|
    requires NoTriple(LineAt(input, c), c.pos, |LineAt(input, c)|, '\'')
    requires NoTriple(input[c.ln], 0, |input[c.ln]|, '\'')
    requires k <= |input[c.ln + 1]| && TripleAt(input[c.ln + 1], k, '\'') && NoTriple(input[c.ln + 1], 0, k, '\'')
    ensures MultilineSpec(input, c, '\'') ==
      Ok((Str(LineAt(input, c)[c.pos..] + input[c.ln] + "\n" + input[c.ln + 1][..k]), Cursor(c.ln + 2, k + 3)))
  {
    var rest, mid, last := LineAt(input, c)[c.pos..], input[c.ln], input[c.ln + 1][..k];
    LiteralLineOpen(LineAt(input, c), c.pos);
    LiteralLineOpen(mid, 0);
    LiteralLineCloses(input[c.ln + 1], 0, k);
    assert mid[0..] == mid;
    assert input[c.ln + 1][0..k] == last;
    assert MultilineLines(input, c.ln + 2, '\'', false) == Ok((last, Cursor(c.ln + 2, k + 3)));
    assert MultilineLines(input, c.ln + 1, '\'', false) == Ok((mid + "\n" + last, Cursor(c.ln + 2, k + 3)));
    assert rest + (mid + "\n" + last) == rest + mid + "\n" + last;
  }

  /** A `'''` string that no line closes is an error on the last line. */
  lemma {:induction false} LiteralNeverClosed(input: seq<string>, n: nat)
    requires 0 < n && forall j | n - 1 <= j < |input| :: NoTriple(input[j], 0, |input[j]|, '\'')
    ensures MultilineLines(input, n, '\'', false) == Fail(UnterminatedMultilineString, |input|)
    decreases |input| + 1 - n
  {
    if n <= |input| {
      LiteralLineOpen(input[n - 1], 0);
      LiteralNeverClosed(input, n + 1);
    }
  }

  // ---------------------------------------------------------------------------
  // Multi-line basic strings and the line-ending backslash (cpptoml.h:1156-1205)
  // ---------------------------------------------------------------------------

  /** No backslash at a position in `from..to`. */
  predicate NoBackslash(line: string, from: nat, to: nat)
    requires to <= |line|
  {
    forall m | from <= m < to :: line[m] != '\\'
  }

  /** In a `"""` string a line ending in a backslash, with no other escape, keeps its text and drops the newline. */
  lemma {:induction false} BasicLineContinues(line: string, j: nat)
    requires j < |line| && line[|line| - 1] == '\\'
    requires NoBackslash(line, j, |line| - 1) && NoTriple(line, j, |line| - 1, '"')
    ensures LineChars(line, j, '"') == Ok(Open(line[j..|line| - 1], true))
    decreases |line| - j
  {
    if j + 1 < |line| {
      assert !TripleAt(line, j, '"');
      BasicLineContinues(line, j + 1);
      assert [line[j]] + line[j + 1..|line| - 1] == line[j..|line| - 1];
    } else {
      assert line[j..|line| - 1] == "";
    }
  }

  /** In a `"""` string with no escape before the first `"""`, the text up to it is taken verbatim. */
  lemma {:induction false} BasicLineCloses(line: string, j: nat, k: nat)
    requires j <= k <= |line| && TripleAt(line, k, '"')
    requires NoBackslash(line, j, k) && NoTriple(line, j, k, '"')
    ensures LineChars(line, j, '"') == Ok(Closed(line[j..k], k + 3))
    decreases k - j
  {
    if j < k {
      assert !TripleAt(line, j, '"');
      BasicLineCloses(line, j + 1, k);
      assert [line[j]] + line[j + 1..k] == line[j..k];
    } else {
      assert line[j..k] == "";
    }
  }

  /**
   * A `"""` string whose opening line ends in a backslash continues on the next
   * line with no newline in between and with that line's leading blanks dropped.
   */
  lemma BasicContinuation(input: seq<string>, c: Cursor, k: nat)
    requires Valid(input, c) && c.ln < |input|
    requires var line := LineAt(input, c);
      c.pos < |line| && line[|line| - 1] == '\\' &&
      NoBackslash(line, c.pos, |line| - 1) && NoTriple(line, c.pos, |line| - 1, '"')
    requires var next := input[c.ln]; var b := SkipWs(next, 0);
      b <= k <= |next| && TripleAt(next, k, '"') && NoBackslash(next, b, k) && NoTriple(next, b, k, '"')
    ensures var line, next := LineAt(input, c), input[c.ln];
      MultilineSpec(input, c, '"') ==
        Ok((Str(line[c.pos..|line| - 1] + next[SkipWs(next, 0)..k]), Cursor(c.ln + 1, k + 3)))
  {
    var line, next := LineAt(input, c), input[c.ln];
    BasicLineContinues(line, c.pos);
    BasicLineCloses(next, SkipWs(next, 0), k);
    assert MultilineLines(input, c.ln + 1, '"', true) == Ok((next[SkipWs(next, 0)..k], Cursor(c.ln + 1, k + 3)));
    assert line[c.pos..|line| - 1] + "" == line[c.pos..|line| - 1];
  }
}
