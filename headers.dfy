/**
 * Table headers (cpptoml.h:776-955). A header line `[a.b]` or `[[a.b]]` walks the
 * tree from the root one name segment at a time, creating the tables it does not
 * find, and leaves the parser's current table at the last one. The tree is a
 * value here, so the walk carries the root together with the path to the
 * current table (the `curr_table` pointer of the source).
 */
module Headers {
  import opened Wrappers
  import opened Errors
  import opened Document
  import opened TablePath
  import opened Lexer

  /** The parser's tree and its current table, given as a path from the root. */
  datatype Doc = Doc(root: Table, current: seq<Step>)

  /** The root is well formed and the current path leads to a table of it. */
  predicate DocValid(d: Doc)
  {
    WellFormedTable(d.root) && ValidPath(d.root, d.current)
  }

  /** The table `curr_table` points to. */
  function Current(d: Doc): Table
    requires ValidPath(d.root, d.current)
  {
    TableAt(d.root, d.current)
  }

  /** Some entry of `t` is a `value<T>` (the `any_of(..., is_value)` of cpptoml.h:850-851). */
  predicate HoldsValue(t: Table)
  {
    exists k | k in t.entries :: IsValue(t.entries[k])
  }

  /**
   * Descending into the existing entry `part` of the current table: a table is
   * entered, a table array is entered at its last table, anything else is the
   * "already exists as a value" error.
   */
  function Enter(d: Doc, part: string): (r: Result<Doc, ErrorKind>)
    requires DocValid(d) && part in Current(d).entries
    ensures var v := Current(d).entries[part];
      r.Err? <==> !(v.TableVal? || v.TableArray?)
    ensures r.Err? ==> r.error == KeyIsValue
    ensures r.Ok? ==> DocValid(r.value) && r.value.root == d.root
    ensures r.Ok? ==> r.value.current == d.current + [if Current(d).entries[part].TableVal? then Key(part) else LastOf(part)]
  {
    var cur := Current(d);
    TableAtWellFormed(d.root, d.current);
    assert WellFormed(cur.entries[part]);
    match cur.entries[part]
    case TableVal(_) =>
      Descend(d.root, d.current, Key(part));
      Ok(Doc(d.root, d.current + [Key(part)]))
    case TableArray(_) =>
      Descend(d.root, d.current, LastOf(part));
      Ok(Doc(d.root, d.current + [LastOf(part)]))
    case _ => Err(KeyIsValue)
  }

  /**
   * `curr_table->insert(part, v)` followed by moving `curr_table` one `step` down
   * into what was inserted.
   */
  function Attach(d: Doc, part: string, v: Value, step: Step): (r: Doc)
    requires DocValid(d) && WellFormed(v) && step.k == part
    requires CanStep(Insert(Current(d), part, v), step)
    ensures DocValid(r) && r.current == d.current + [step]
    ensures ValidPath(r.root, d.current) && TableAt(r.root, d.current) == Insert(Current(d), part, v)
    ensures Current(r) == Child(Insert(Current(d), part, v), step)
    ensures d.current != [] ==> r.root.entries.Keys == d.root.entries.Keys
    ensures d.current != [] ==> forall k | k in d.root.entries && k != d.current[0].k :: r.root.entries[k] == d.root.entries[k]
  {
    var sub := Insert(Current(d), part, v);
    TableAtWellFormed(d.root, d.current);
    InsertWellFormed(Current(d), part, v);
    UpdateWellFormed(d.root, d.current, sub);
    var root := UpdateAt(d.root, d.current, sub);
    Descend(root, d.current, step);
    Doc(root, d.current + [step])
  }

  /** The position after a name segment: blanks, at most one `.`, blanks (cpptoml.h:829-832, 884-887). */
  function SegmentEnd(line: string, p: nat): (r: nat)
    requires p <= |line|
    ensures p <= r <= |line|
  {
    var j := SkipWs(line, p);
    SkipWs(line, if j < |line| && line[j] == '.' then j + 1 else j)
  }

  /**
   * The name segments of a header read from `i`, up to the `]` or the end of the
   * line: the names the segment loops of cpptoml.h:797-837 and 869-941 walk down.
   */
  function HeaderNames(line: string, i: nat): seq<string>
    requires i <= |line|
    decreases |line| - i
  {
    if i == |line| || line[i] == ']' then []
    else
      match KeySpec(line, i, HeaderKey)
      case Err(_) => []
      case Ok((part, p)) => if part == "" then [] else [part] + HeaderNames(line, SegmentEnd(line, p))
  }

  // ---------------------------------------------------------------------------
  // [a.b] (cpptoml.h:789-862)
  // ---------------------------------------------------------------------------

  /** One segment of `[a.b]`: enter the entry `part`, or create an empty table for it. */
  function TableSegment(d: Doc, part: string): (r: Result<Doc, ErrorKind>)
    requires DocValid(d)
    ensures r.Ok? ==> DocValid(r.value) && |r.value.current| == |d.current| + 1
    ensures r.Ok? ==> PathKeys(r.value.current) == PathKeys(d.current) + [part]
    ensures part !in Current(d).entries ==> r.Ok? && Current(r.value) == EmptyTable
    ensures r.Ok? ==> ValidPath(r.value.root, d.current)
    ensures r.Ok? ==> TableAt(r.value.root, d.current) == if part in Current(d).entries then Current(d) else Insert(Current(d), part, TableVal(EmptyTable))
    ensures r.Ok? && part in Current(d).entries ==> r.value.root == d.root
    ensures r.Ok? && d.current != [] ==> r.value.root.entries.Keys == d.root.entries.Keys
    ensures r.Ok? && d.current != [] ==> forall k | k in d.root.entries && k != d.current[0].k :: r.value.root.entries[k] == d.root.entries[k]
  {
    var cur := Current(d);
    if part in cur.entries then
      var r := Enter(d, part);
      if r.Ok? then PathKeysStep(d.current, r.value.current[|d.current|]); r else r
    else
      PathKeysStep(d.current, Key(part));
      Ok(Attach(d, part, TableVal(EmptyTable), Key(part)))
  }

  /**
   * The segment loop of `parse_single_table` from `i`: it runs up to a `]` or the
   * end of the line and reports whether some segment was newly created.
   */
  function TableNameLoop(line: string, i: nat, d: Doc, inserted: bool): (r: Result<(Doc, bool, nat), ErrorKind>)
    requires i <= |line| && DocValid(d)
    ensures r.Ok? ==> DocValid(r.value.0) && i <= r.value.2 <= |line|
    ensures r.Ok? ==> r.value.2 == |line| || line[r.value.2] == ']'
    ensures r.Ok? && inserted ==> r.value.1
    decreases |line| - i
  {
    if i == |line| || line[i] == ']' then Ok((d, inserted, i))
    else
      match KeySpec(line, i, HeaderKey)
      case Err(k) => Err(k)
      case Ok((part, p)) =>
        if part == "" then Err(EmptyTableNameComponent)
        else
          match TableSegment(d, part)
          case Err(k) => Err(k)
          case Ok(d2) => TableNameLoop(line, SegmentEnd(line, p), d2, inserted || part !in Current(d).entries)
  }

  /**
   * `parse_single_table` with `i` just after the `[`. When no segment was created,
   * the table reached must be non-empty and hold no `value<T>`, or the header
   * redefines it.
   */
  function SingleTableSpec(line: string, i: nat, root: Table): (r: Result<Doc, ErrorKind>)
    requires i <= |line| && WellFormedTable(root)
    ensures r.Ok? ==> DocValid(r.value)
  {
    if i == |line| || line[i] == ']' then Err(EmptyTableName)
    else
      match TableNameLoop(line, i, Doc(root, []), false)
      case Err(k) => Err(k)
      case Ok((d, inserted, j)) =>
        if !inserted && (IsEmpty(Current(d)) || HoldsValue(Current(d))) then Err(TableRedefinition)
        else if j == |line| then Err(UnterminatedTableName)
        else
          match EolOrComment(line, SkipWs(line, j + 1))
          case Some(k) => Err(k)
          case None => Ok(d)
  }

  // ---------------------------------------------------------------------------
  // [[a.b]] (cpptoml.h:864-955)
  // ---------------------------------------------------------------------------

  /**
   * One segment of `[[a.b]]`. The last segment (the one followed by `]`) appends a
   * new empty table to the table array it names, creating the array when the key
   * is absent; an earlier segment is entered, or created as an empty table.
   */
  function TableArraySegment(d: Doc, part: string, last: bool): (r: Result<Doc, ErrorKind>)
    requires DocValid(d)
    ensures r.Ok? ==> DocValid(r.value) && |r.value.current| == |d.current| + 1
    ensures r.Ok? && last ==> Current(r.value) == EmptyTable && r.value.current == d.current + [LastOf(part)]
    ensures r.Ok? ==> PathKeys(r.value.current) == PathKeys(d.current) + [part]
  {
    var cur := Current(d);
    PathKeysStep(d.current, Key(part));
    PathKeysStep(d.current, LastOf(part));
    if part in cur.entries then
      if last then
        match cur.entries[part]
        case TableArray(ts) =>
          TableAtWellFormed(d.root, d.current);
          assert WellFormed(cur.entries[part]);
          assert forall i | 0 <= i < |ts + [EmptyTable]| :: (ts + [EmptyTable])[i] == if i < |ts| then ts[i] else EmptyTable;
          Ok(Attach(d, part, TableArray(ts + [EmptyTable]), LastOf(part)))
        case _ => Err(NotTableArray)
      else Enter(d, part)
    else if last then Ok(Attach(d, part, TableArray([EmptyTable]), LastOf(part)))
    else Ok(Attach(d, part, TableVal(EmptyTable), Key(part)))
  }

  /**
   * What one segment of `[[a.b]]` does to the tree: an earlier segment enters an
   * existing entry or inserts an empty table into the current table; the last
   * segment pushes an empty table onto the table array it names, new or
   * existing. The root keeps its keys and every entry off the current path.
   */
  lemma TableArraySegmentTree(d: Doc, part: string, last: bool)
    requires DocValid(d)
    ensures var r := TableArraySegment(d, part, last);
      r.Ok? ==> ValidPath(r.value.root, d.current)
    ensures var r := TableArraySegment(d, part, last);
      r.Ok? && !last ==> TableAt(r.value.root, d.current) == if part in Current(d).entries then Current(d) else Insert(Current(d), part, TableVal(EmptyTable))
    ensures var r := TableArraySegment(d, part, last);
      r.Ok? && !last && part in Current(d).entries ==> r.value.root == d.root
    ensures var r := TableArraySegment(d, part, last);
      r.Ok? && last && part in Current(d).entries ==> Current(d).entries[part].TableArray?
    ensures var r := TableArraySegment(d, part, last);
      r.Ok? && last && part in Current(d).entries ==>
        TableAt(r.value.root, d.current) == Insert(Current(d), part, TableArray(Current(d).entries[part].tables + [EmptyTable]))
    ensures var r := TableArraySegment(d, part, last);
      r.Ok? && last && part !in Current(d).entries ==> TableAt(r.value.root, d.current) == Insert(Current(d), part, TableArray([EmptyTable]))
    ensures var r := TableArraySegment(d, part, last);
      r.Ok? && d.current != [] ==> r.value.root.entries.Keys == d.root.entries.Keys
    ensures var r := TableArraySegment(d, part, last);
      r.Ok? && d.current != [] ==> forall k | k in d.root.entries && k != d.current[0].k :: r.value.root.entries[k] == d.root.entries[k]
  {
  }

  /** The segment loop of `parse_table_array` from `i`. */
  function TableArrayNameLoop(line: string, i: nat, d: Doc): (r: Result<(Doc, nat), ErrorKind>)
    requires i <= |line| && DocValid(d)
    ensures r.Ok? ==> DocValid(r.value.0) && i <= r.value.1 <= |line|
    ensures r.Ok? ==> r.value.1 == |line| || line[r.value.1] == ']'
    decreases |line| - i
  {
    if i == |line| || line[i] == ']' then Ok((d, i))
    else
      match KeySpec(line, i, HeaderKey)
      case Err(k) => Err(k)
      case Ok((part, p)) =>
        if part == "" then Err(EmptyTableArrayNameComponent)
        else
          var j := SegmentEnd(line, p);
          match TableArraySegment(d, part, j < |line| && line[j] == ']')
          case Err(k) => Err(k)
          case Ok(d2) => TableArrayNameLoop(line, j, d2)
  }

  /**
   * `parse_table_array` with `i` just after the `[[`. The two characters after
   * the name are stepped over without looking at the second one.
   */
  function TableArraySpec(line: string, i: nat, root: Table): (r: Result<Doc, ErrorKind>)
    requires i <= |line| && WellFormedTable(root)
    ensures r.Ok? ==> DocValid(r.value)
  {
    if i == |line| || line[i] == ']' then Err(EmptyTableArrayName)
    else
      match TableArrayNameLoop(line, i, Doc(root, []))
      case Err(k) => Err(k)
      case Ok((d, j)) =>
        if j == |line| || j + 1 == |line| then Err(UnterminatedTableArrayName)
        else
          match EolOrComment(line, SkipWs(line, j + 2))
          case Some(k) => Err(k)
          case None => Ok(d)
  }

  /** `parse_table` (cpptoml.h:776-787) with `i` on the `[`; the walk starts at the root. */
  function HeaderSpec(line: string, i: nat, root: Table): (r: Result<Doc, ErrorKind>)
    requires i < |line| && WellFormedTable(root)
    ensures r.Ok? ==> DocValid(r.value)
  {
    if i + 1 == |line| then Err(UnexpectedEndOfTable)
    else if line[i + 1] == '[' then TableArraySpec(line, i + 2, root)
    else SingleTableSpec(line, i + 1, root)
  }

  // ---------------------------------------------------------------------------
  // Which table a header makes current
  // ---------------------------------------------------------------------------

  /** The `[a.b]` segment loop moves the current table down exactly the header's names. */
  lemma {:induction false} TableNameLoopPath(line: string, i: nat, d: Doc, inserted: bool)
    requires i <= |line| && DocValid(d)
    ensures var r := TableNameLoop(line, i, d, inserted);
      r.Ok? ==> PathKeys(r.value.0.current) == PathKeys(d.current) + HeaderNames(line, i)
    decreases |line| - i
  {
    hide KeySpec, TableSegment, SegmentEnd;
    if i < |line| && line[i] != ']' {
      match KeySpec(line, i, HeaderKey)
      case Err(_) =>
      case Ok((part, p)) =>
        var d2 := TableSegment(d, part);
        if part != "" && d2.Ok? {
          var j := SegmentEnd(line, p);
          TableNameLoopPath(line, j, d2.value, inserted || part !in Current(d).entries);
          assert PathKeys(d.current) + [part] + HeaderNames(line, j) == PathKeys(d.current) + ([part] + HeaderNames(line, j));
        }
    }
  }

  /** The `[[a.b]]` segment loop moves the current table down exactly the header's names. */
  lemma {:induction false} TableArrayNameLoopPath(line: string, i: nat, d: Doc)
    requires i <= |line| && DocValid(d)
    ensures var r := TableArrayNameLoop(line, i, d);
      r.Ok? ==> PathKeys(r.value.0.current) == PathKeys(d.current) + HeaderNames(line, i)
    decreases |line| - i
  {
    hide KeySpec, TableArraySegment, SegmentEnd;
    if i < |line| && line[i] != ']' {
      match KeySpec(line, i, HeaderKey)
      case Err(_) =>
      case Ok((part, p)) =>
        var j := SegmentEnd(line, p);
        var d2 := TableArraySegment(d, part, j < |line| && line[j] == ']');
        if part != "" && d2.Ok? {
          TableArrayNameLoopPath(line, j, d2.value);
          assert PathKeys(d.current) + [part] + HeaderNames(line, j) == PathKeys(d.current) + ([part] + HeaderNames(line, j));
        }
    }
  }

  /**
   * When the `[[a.b]]` loop reads at least one segment and stops on a `]`, the
   * last segment was the one followed by `]`: it appended a new empty table and
   * the loop leaves that last table of the array current.
   */
  lemma {:induction false} TableArrayNameLoopLast(line: string, i: nat, d: Doc)
    requires i < |line| && line[i] != ']' && DocValid(d)
    ensures var r := TableArrayNameLoop(line, i, d);
      r.Ok? && r.value.1 < |line| ==>
        |r.value.0.current| > 0 && r.value.0.current[|r.value.0.current| - 1].LastOf? && Current(r.value.0) == EmptyTable
    decreases |line| - i
  {
    hide KeySpec, TableArraySegment, SegmentEnd;
    match KeySpec(line, i, HeaderKey)
    case Err(_) =>
    case Ok((part, p)) =>
      var j := SegmentEnd(line, p);
      var d2 := TableArraySegment(d, part, j < |line| && line[j] == ']');
      if part != "" && d2.Ok? && j < |line| && line[j] != ']' {
        TableArrayNameLoopLast(line, j, d2.value);
      }
  }

  /** After `[a.b]` the current table is the one the header's names lead to from the root. */
  lemma SingleTableCurrent(line: string, i: nat, root: Table)
    requires i <= |line| && WellFormedTable(root)
    ensures var r := SingleTableSpec(line, i, root);
      r.Ok? ==> PathKeys(r.value.current) == HeaderNames(line, i)
  {
    var r := SingleTableSpec(line, i, root);
    if r.Ok? {
      var l := TableNameLoop(line, i, Doc(root, []), false);
      assert l.Ok? && r.value == l.value.0;
      hide SingleTableSpec, TableNameLoop, HeaderNames, IsEmpty, HoldsValue, Current, EolOrComment, SkipWs;
      TableNameLoopPath(line, i, Doc(root, []), false);
      assert PathKeys([]) == [];
    }
  }

  /**
   * After `[[a.b]]` the current table is the one the header's names lead to, and
   * it is the new empty table appended last to the array the final name names.
   */
  lemma TableArrayCurrent(line: string, i: nat, root: Table)
    requires i <= |line| && WellFormedTable(root)
    ensures var r := TableArraySpec(line, i, root);
      r.Ok? ==> PathKeys(r.value.current) == HeaderNames(line, i)
    ensures var r := TableArraySpec(line, i, root);
      r.Ok? ==> |r.value.current| > 0 && r.value.current[|r.value.current| - 1].LastOf? && Current(r.value) == EmptyTable
  {
    var r := TableArraySpec(line, i, root);
    if r.Ok? {
      var l := TableArrayNameLoop(line, i, Doc(root, []));
      assert l.Ok? && r.value == l.value.0 && l.value.1 < |line| && i < |line| && line[i] != ']';
      hide TableArraySpec, TableArrayNameLoop, HeaderNames, Current, EolOrComment, SkipWs;
      TableArrayNameLoopPath(line, i, Doc(root, []));
      TableArrayNameLoopLast(line, i, Doc(root, []));
      var d := l.value.0;
      assert |d.current| > 0 && d.current[|d.current| - 1].LastOf? && Current(d) == EmptyTable;
      assert PathKeys([]) == [];
    }
  }

  /** The names of `[a . b]` are `a` and `b`: blanks around the dot are skipped. */
  lemma HeaderNamesExample()
    ensures HeaderNames("[a . b]", 1) == ["a", "b"]
  {
    var line := "[a . b]";
    ExampleFirstSegment(line);
    ExampleSecondSegment(line);
    hide KeySpec, SegmentEnd;
    assert HeaderNames(line, 6) == [];
    assert HeaderNames(line, 5) == ["b"];
  }

  lemma ExampleFirstSegment(line: string)
    requires line == "[a . b]"
    ensures KeySpec(line, 1, HeaderKey) == Ok(("a", 3)) && SegmentEnd(line, 3) == 5
  {
    assert KeyEnd(line, 3, HeaderKey) == 3 && KeyEnd(line, 2, HeaderKey) == 3;
    assert SkipWs(line, 1) == 1 && KeyEnd(line, 1, HeaderKey) == 3;
    BareKeyAccepts(line, 1, 1, 3);
    assert line[1..2] == "a";
    assert line[3] == '.' && SkipWs(line, 3) == 3;
    assert SkipWs(line, 5) == 5 && SkipWs(line, 4) == 5;
  }

  lemma ExampleSecondSegment(line: string)
    requires line == "[a . b]"
    ensures KeySpec(line, 5, HeaderKey) == Ok(("b", 6)) && SegmentEnd(line, 6) == 6
  {
    assert SkipWs(line, 5) == 5 && KeyEnd(line, 5, HeaderKey) == 6;
    BareKeyAccepts(line, 5, 1, 6);
    assert line[5..6] == "b";
    assert line[6] == ']' && SkipWs(line, 6) == 6;
  }

  /** `parse_table`: the current table afterwards is named by the header's segments. */
  lemma HeaderCurrent(line: string, i: nat, root: Table)
    requires i < |line| && WellFormedTable(root)
    ensures var r := HeaderSpec(line, i, root);
      r.Ok? ==> i + 1 < |line| && PathKeys(r.value.current) == HeaderNames(line, if line[i + 1] == '[' then i + 2 else i + 1)
  {
    hide TableArraySpec, SingleTableSpec, HeaderNames;
    if i + 1 < |line| {
      if line[i + 1] == '[' {
        TableArrayCurrent(line, i + 2, root);
      } else {
        SingleTableCurrent(line, i + 1, root);
      }
    }
  }
}
