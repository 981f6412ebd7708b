/**
 * The parser's `curr_table` pointer (cpptoml.h:740, moved at 752-757, 816-836
 * and 891-941) as a path from the root
 * table. Because tables are values here, "insert into the current table" is an
 * update of the root along that path.
 */
module TablePath {
  import opened Document

  /** One descent: into the table under `k`, or into the last table of the table array under `k`. */
  datatype Step = Key(k: string) | LastOf(k: string)

  /** The step can be taken from `t`. */
  predicate CanStep(t: Table, s: Step)
  {
    s.k in t.entries &&
    match s
    case Key(k) => t.entries[k].TableVal?
    case LastOf(k) => t.entries[k].TableArray? && |t.entries[k].tables| > 0
  }

  /** The table one step below `t`. */
  function Child(t: Table, s: Step): Table
    requires CanStep(t, s)
  {
    match s
    case Key(k) => t.entries[k].table
    case LastOf(k) => t.entries[k].tables[|t.entries[k].tables| - 1]
  }

  /** Every step of `path` can be taken, starting at `t`. */
  predicate ValidPath(t: Table, path: seq<Step>)
    decreases |path|
  {
    path == [] || (CanStep(t, path[0]) && ValidPath(Child(t, path[0]), path[1..]))
  }

  /** The table `path` leads to. */
  function TableAt(t: Table, path: seq<Step>): Table
    requires ValidPath(t, path)
    decreases |path|
  {
    if path == [] then t else TableAt(Child(t, path[0]), path[1..])
  }

  /** `t` with the child under step `s` replaced by `sub`. */
  function ReplaceChild(t: Table, s: Step, sub: Table): (r: Table)
    requires CanStep(t, s)
    ensures CanStep(r, s) && Child(r, s) == sub
    ensures r.entries.Keys == t.entries.Keys
    ensures forall k | k in t.entries && k != s.k :: r.entries[k] == t.entries[k]
    ensures s.Key? ==> r.entries[s.k] == TableVal(sub)
    ensures s.LastOf? ==> r.entries[s.k].TableArray?
    ensures s.LastOf? ==> r.entries[s.k].tables == t.entries[s.k].tables[|t.entries[s.k].tables| - 1 := sub]
  {
    match s
    case Key(k) => Table(t.entries[k := TableVal(sub)])
    case LastOf(k) =>
      var ts := t.entries[k].tables;
      Table(t.entries[k := TableArray(ts[|ts| - 1 := sub])])
  }

  /** `t` with the table at `path` replaced by `sub`; everything off the path is kept. */
  function UpdateAt(t: Table, path: seq<Step>, sub: Table): (r: Table)
    requires ValidPath(t, path)
    ensures ValidPath(r, path) && TableAt(r, path) == sub
    ensures path != [] ==> r.entries.Keys == t.entries.Keys
    ensures path != [] ==> forall k | k in t.entries && k != path[0].k :: r.entries[k] == t.entries[k]
    decreases |path|
  {
    if path == [] then sub
    else ReplaceChild(t, path[0], UpdateAt(Child(t, path[0]), path[1..], sub))
  }

  /** Writing back the table found at `path` changes nothing. */
  lemma {:induction false} UpdateAtSame(t: Table, path: seq<Step>)
    requires ValidPath(t, path)
    ensures UpdateAt(t, path, TableAt(t, path)) == t
    decreases |path|
  {
    if path != [] {
      UpdateAtSame(Child(t, path[0]), path[1..]);
      var s := path[0];
      match s
      case Key(k) =>
        assert t.entries[k] == TableVal(Child(t, s));
        assert ReplaceChild(t, s, Child(t, s)).entries == t.entries;
      case LastOf(k) =>
        var ts := t.entries[k].tables;
        assert ts[|ts| - 1 := Child(t, s)] == ts;
        assert ReplaceChild(t, s, Child(t, s)).entries == t.entries;
    }
  }

  /** A path is walked piecewise: `a + b` is `a`, then `b` from where `a` ends. */
  lemma {:induction false} PathAppend(t: Table, a: seq<Step>, b: seq<Step>)
    ensures ValidPath(t, a + b) <==> ValidPath(t, a) && ValidPath(TableAt(t, a), b)
    ensures ValidPath(t, a + b) ==> TableAt(t, a + b) == TableAt(TableAt(t, a), b)
    decreases |a|
  {
    if a == [] {
      assert a + b == b;
    } else {
      assert (a + b)[0] == a[0] && (a + b)[1..] == a[1..] + b;
      if CanStep(t, a[0]) {
        PathAppend(Child(t, a[0]), a[1..], b);
      }
    }
  }

  /** Extending the current path by one step, as the header parser does. */
  lemma Descend(t: Table, path: seq<Step>, s: Step)
    requires ValidPath(t, path)
    ensures ValidPath(t, path + [s]) <==> CanStep(TableAt(t, path), s)
    ensures ValidPath(t, path + [s]) ==> TableAt(t, path + [s]) == Child(TableAt(t, path), s)
  {
    PathAppend(t, path, [s]);
    assert [s][1..] == [];
  }

  /** A prefix of a valid path is valid. */
  lemma ValidPrefix(t: Table, path: seq<Step>, n: nat)
    requires ValidPath(t, path) && n <= |path|
    ensures ValidPath(t, path[..n])
  {
    assert path == path[..n] + path[n..];
    PathAppend(t, path[..n], path[n..]);
  }

  /** Replacing the table at the end of a path keeps the tree well formed when the new table is. */
  lemma {:induction false} UpdateWellFormed(t: Table, path: seq<Step>, sub: Table)
    requires WellFormedTable(t) && ValidPath(t, path) && WellFormedTable(sub)
    ensures WellFormedTable(UpdateAt(t, path, sub))
    decreases |path|
  {
    if path != [] {
      var s := path[0];
      ChildWellFormed(t, s);
      UpdateWellFormed(Child(t, s), path[1..], sub);
      var r := UpdateAt(t, path, sub);
      forall k | k in r.entries
        ensures WellFormed(r.entries[k])
      {
        if k == s.k {
          match s
          case Key(_) =>
          case LastOf(_) =>
            var ts := t.entries[k].tables;
            assert WellFormed(t.entries[k]);
            assert r.entries[k] == TableArray(ts[|ts| - 1 := UpdateAt(Child(t, s), path[1..], sub)]);
        }
      }
    }
  }

  /** The table below a step of a well-formed table is well formed. */
  lemma ChildWellFormed(t: Table, s: Step)
    requires WellFormedTable(t) && CanStep(t, s)
    ensures WellFormedTable(Child(t, s))
  {
    assert WellFormed(t.entries[s.k]);
  }

  /** Every table along a valid path of a well-formed tree is well formed. */
  lemma {:induction false} TableAtWellFormed(t: Table, path: seq<Step>)
    requires WellFormedTable(t) && ValidPath(t, path)
    ensures WellFormedTable(TableAt(t, path))
    decreases |path|
  {
    if path != [] {
      ChildWellFormed(t, path[0]);
      TableAtWellFormed(Child(t, path[0]), path[1..]);
    }
  }

  /** The keys the steps of a path name, in order. */
  function PathKeys(path: seq<Step>): seq<string>
  {
    seq(|path|, i requires 0 <= i < |path| => path[i].k)
  }

  /** One more step adds its key at the end. */
  lemma PathKeysStep(path: seq<Step>, s: Step)
    ensures PathKeys(path + [s]) == PathKeys(path) + [s.k]
  {
    assert forall i | 0 <= i < |path| :: (path + [s])[i] == path[i];
  }
}
