/**
 * The TOML document model of cpptoml.h: the `datetime` record, the closed set of
 * value kinds (`value<T>`, `array`, `table`, `table_array`) as one datatype, and the
 * read and insert operations of `table` and `array`.
 */
module Document {
  import opened Wrappers

  /** `struct datetime` (cpptoml.h:62-73); every field defaults to 0. */
  datatype DateTime = DateTime(
    year: int, month: int, day: int,
    hour: int, minute: int, second: int,
    microsecond: int, hourOffset: int, minuteOffset: int)

  /**
   * One node of the tree. The five leaf kinds are the `value<T>` instances that
   * `valid_value` admits; a float is carried as its underscore-stripped token text
   * because the conversion to `double` is not modelled.
   */
  datatype Value =
    | Str(s: string)
    | Int(i: int)
    | Float(text: string)
    | Bool(b: bool)
    | Date(dt: DateTime)
    | Array(values: seq<Value>)
    | TableVal(table: Table)
    | TableArray(tables: seq<Table>)

  /** `class table`: a map from key to node. */
  datatype Table = Table(entries: map<string, Value>)

  const EmptyTable := Table(map[])

  /** The five `value<T>` kinds, the template arguments of `as<T>` and `get_as<T>`. */
  datatype Kind = StringKind | IntKind | FloatKind | BoolKind | DateKind

  /** `base::is_value` (cpptoml.h:123-126, 219-222): true for leaves only, not for arrays. */
  function IsValue(v: Value): (r: bool)
    ensures r <==> !(v.Array? || v.TableVal? || v.TableArray?)
  {
    v.Str? || v.Int? || v.Float? || v.Bool? || v.Date?
  }

  /** Whether `v` is a `value<T>` for the `T` that `k` names (the `dynamic_pointer_cast` of `as<T>`). */
  predicate HasKind(v: Value, k: Kind)
  {
    match k
    case StringKind => v.Str?
    case IntKind => v.Int?
    case FloatKind => v.Float?
    case BoolKind => v.Bool?
    case DateKind => v.Date?
  }

  /** `base::as<T>` (cpptoml.h:259-265): the node itself when it has kind `k`, else nothing. */
  function As(v: Value, k: Kind): (r: Option<Value>)
    ensures r.Some? <==> IsValue(v) && HasKind(v, k)
    ensures r.Some? ==> r.value == v
  {
    if HasKind(v, k) then Some(v) else None
  }

  /**
   * Every table array in the tree is non-empty. The parser only builds such trees,
   * which is what makes `table_array::get().back()` (cpptoml.h:818-821) safe.
   */
  predicate WellFormed(v: Value)
    decreases v, 1
  {
    match v
    case Array(vs) => forall i | 0 <= i < |vs| :: WellFormed(vs[i])
    case TableVal(t) => WellFormedTable(t)
    case TableArray(ts) => |ts| > 0 && forall i | 0 <= i < |ts| :: WellFormedTable(ts[i])
    case _ => true
  }

  predicate WellFormedTable(t: Table)
    decreases t, 0
  {
    forall k | k in t.entries :: WellFormed(t.entries[k])
  }

  // ---------------------------------------------------------------------------
  // array (cpptoml.h:267-357)
  // ---------------------------------------------------------------------------

  datatype LookupError = OutOfRange

  /** `array::at` (cpptoml.h:300-303): `std::vector::at` throws `out_of_range` past the end. */
  function ArrayAt(vs: seq<Value>, idx: int): (r: Result<Value, LookupError>)
    ensures r.Ok? <==> 0 <= idx < |vs|
    ensures r.Ok? ==> r.value == vs[idx]
  {
    if 0 <= idx < |vs| then Ok(vs[idx]) else Err(OutOfRange)
  }

  /** `array::array_of<T>` (cpptoml.h:309-321): each element converted by `as<T>`. */
  function ArrayOf(vs: seq<Value>, k: Kind): (r: seq<Option<Value>>)
    ensures |r| == |vs|
    ensures forall i | 0 <= i < |vs| :: (r[i].Some? <==> HasKind(vs[i], k)) && (r[i].Some? ==> r[i].value == vs[i])
  {
    seq(|vs|, i requires 0 <= i < |vs| => As(vs[i], k))
  }

  /** `array::nested_array` (cpptoml.h:327-340): each element as an array, or nothing. */
  function NestedArray(vs: seq<Value>): (r: seq<Option<seq<Value>>>)
    ensures |r| == |vs|
    ensures forall i | 0 <= i < |vs| :: (r[i].Some? <==> vs[i].Array?) && (r[i].Some? ==> r[i].value == vs[i].values)
  {
    seq(|vs|, i requires 0 <= i < |vs| => if vs[i].Array? then Some(vs[i].values) else None)
  }

  // ---------------------------------------------------------------------------
  // table (cpptoml.h:390-683): single-key operations
  // ---------------------------------------------------------------------------

  /** `table::empty` (cpptoml.h:432-435). */
  function IsEmpty(t: Table): (r: bool)
    ensures r <==> t.entries == map[]
  {
    |t.entries| == 0
  }

  /** `table::contains` (cpptoml.h:440-443). */
  function Contains(t: Table, key: string): (r: bool)
    ensures r ==> !IsEmpty(t)
  {
    key in t.entries
  }

  /** `table::get` (cpptoml.h:459-462): `unordered_map::at` throws `out_of_range` on a missing key. */
  function Get(t: Table, key: string): (r: Result<Value, LookupError>)
    ensures r.Ok? <==> Contains(t, key)
    ensures r.Ok? ==> r.value == t.entries[key]
  {
    if key in t.entries then Ok(t.entries[key]) else Err(OutOfRange)
  }

  /** `table::get_table` (cpptoml.h:481-486). */
  function GetTable(t: Table, key: string): (r: Option<Table>)
    ensures r.Some? <==> Contains(t, key) && t.entries[key].TableVal?
    ensures r.Some? ==> TableVal(r.value) == t.entries[key]
  {
    if key in t.entries && t.entries[key].TableVal? then Some(t.entries[key].table) else None
  }

  /** `table::get_array` (cpptoml.h:502-507). */
  function GetArray(t: Table, key: string): (r: Option<seq<Value>>)
    ensures r.Some? <==> Contains(t, key) && t.entries[key].Array?
    ensures r.Some? ==> Array(r.value) == t.entries[key]
  {
    if key in t.entries && t.entries[key].Array? then Some(t.entries[key].values) else None
  }

  /** `table::get_table_array` (cpptoml.h:522-527). */
  function GetTableArray(t: Table, key: string): (r: Option<seq<Table>>)
    ensures r.Some? <==> Contains(t, key) && t.entries[key].TableArray?
    ensures r.Some? ==> TableArray(r.value) == t.entries[key]
  {
    if key in t.entries && t.entries[key].TableArray? then Some(t.entries[key].tables) else None
  }

  /**
   * `table::get_as<T>` (cpptoml.h:545-559): the `out_of_range` of a missing key is
   * caught, so a missing key and a key of another kind both give nothing.
   */
  function GetAs(t: Table, key: string, k: Kind): (r: Option<Value>)
    ensures r.Some? <==> Contains(t, key) && HasKind(t.entries[key], k)
    ensures r.Some? ==> r.value == t.entries[key]
  {
    match Get(t, key)
    case Err(_) => None
    case Ok(v) => As(v, k)
  }

  /**
   * `table::insert` (cpptoml.h:585-599): `map_[key] = value`, which replaces an
   * existing entry. Key uniqueness is the parser's business, not the table's.
   */
  function Insert(t: Table, key: string, v: Value): (r: Table)
    ensures r.entries.Keys == t.entries.Keys + {key}
    ensures Get(r, key) == Ok(v)
    ensures forall k | k in t.entries && k != key :: r.entries[k] == t.entries[k]
  {
    Table(t.entries[key := v])
  }

  /** Inserting under a new key adds that key and overwrites nothing. */
  lemma InsertFresh(t: Table, key: string, v: Value)
    requires key !in t.entries
    ensures t.entries.Keys < Insert(t, key, v).entries.Keys
    ensures forall k | k in t.entries :: Insert(t, key, v).entries[k] == t.entries[k]
  {
    assert key in Insert(t, key, v).entries.Keys - t.entries.Keys;
  }

  /** Inserting a well-formed node into a well-formed table keeps it well formed. */
  lemma InsertWellFormed(t: Table, key: string, v: Value)
    requires WellFormedTable(t) && WellFormed(v)
    ensures WellFormedTable(Insert(t, key, v))
  {
  }

  // ---------------------------------------------------------------------------
  // split (cpptoml.h:609-622)
  // ---------------------------------------------------------------------------

  /** Number of occurrences of `c` in `s`. */
  function Count(s: string, c: char): nat
  {
    if s == [] then 0 else (if s[0] == c then 1 else 0) + Count(s[1..], c)
  }

  /** The parts joined back with the separator between each pair. */
  function Join(parts: seq<string>, sep: char): string
    requires |parts| > 0
  {
    if |parts| == 1 then parts[0] else parts[0] + [sep] + Join(parts[1..], sep)
  }

  /** Reference definition of breaking `s` at every occurrence of `sep`. */
  function Parts(s: string, sep: char): (r: seq<string>)
    ensures |r| > 0
  {
    if s == [] then [""]
    else
      var rest := Parts(s[1..], sep);
      if s[0] == sep then [""] + rest else [[s[0]] + rest[0]] + rest[1..]
  }

  /** Split yields one more part than there are separators. */
  lemma {:induction false} PartsCount(s: string, sep: char)
    ensures |Parts(s, sep)| == Count(s, sep) + 1
  {
    if s != [] {
      PartsCount(s[1..], sep);
    }
  }

  /** No part contains the separator. */
  lemma {:induction false} PartsHaveNoSeparator(s: string, sep: char)
    ensures forall i | 0 <= i < |Parts(s, sep)| :: sep !in Parts(s, sep)[i]
  {
    if s != [] {
      PartsHaveNoSeparator(s[1..], sep);
      var rest := Parts(s[1..], sep);
      if s[0] != sep {
        assert sep !in rest[0];
        assert forall i | 1 <= i < |Parts(s, sep)| :: Parts(s, sep)[i] == rest[i];
      }
    }
  }

  /** Joining the parts with the separator gives the input back. */
  lemma {:induction false} PartsJoin(s: string, sep: char)
    ensures Join(Parts(s, sep), sep) == s
  {
    if s != [] {
      PartsJoin(s[1..], sep);
      var rest := Parts(s[1..], sep);
      if s[0] == sep {
        assert Parts(s, sep)[1..] == rest;
        assert s == [sep] + s[1..];
      } else {
        var r := Parts(s, sep);
        assert r[1..] == rest[1..];
        if |rest| == 1 {
          assert s == [s[0]] + rest[0];
        } else {
          assert Join(rest, sep) == rest[0] + [sep] + Join(rest[1..], sep);
          assert s == [s[0]] + s[1..];
        }
      }
    }
  }

  /** Splitting at the first separator: the head part, then the parts of what follows it. */
  lemma {:induction false} PartsAtFirst(s: string, sep: char, q: nat)
    requires q < |s| && s[q] == sep && sep !in s[..q]
    ensures Parts(s, sep) == [s[..q]] + Parts(s[q + 1..], sep)
  {
    if q > 0 {
      assert s[1..][q - 1] == sep && s[1..][..q - 1] == s[..q][1..];
      PartsAtFirst(s[1..], sep, q - 1);
      assert s[1..][q..] == s[q + 1..];
      assert [s[0]] + s[1..][..q - 1] == s[..q];
    } else {
      assert s[1..] == s[q + 1..];
    }
  }

  /** A string without the separator is a single part. */
  lemma {:induction false} PartsWithoutSeparator(s: string, sep: char)
    requires sep !in s
    ensures Parts(s, sep) == [s]
  {
    if s != [] {
      assert sep !in s[1..];
      PartsWithoutSeparator(s[1..], sep);
      assert [s[0]] + s[1..] == s;
    }
  }

  /** `std::string::find(c, p)`: the first index at or after `p` holding `c`. */
  function Find(s: string, c: char, p: nat): (r: Option<nat>)
    requires p <= |s|
    ensures r.Some? ==> p <= r.value < |s| && s[r.value] == c && c !in s[p..r.value]
    ensures r.None? ==> c !in s[p..]
    decreases |s| - p
  {
    if p == |s| then None
    else if s[p] == c then Some(p)
    else
      var r := Find(s, c, p + 1);
      assert r.Some? ==> s[p..r.value] == [s[p]] + s[p + 1..r.value];
      assert s[p..] == [s[p]] + s[p + 1..];
      r
  }

  /** One step of `split`: the part before the separator found at `at`, then the rest. */
  lemma SplitStep(value: string, separator: char, p: nat, at: nat)
    requires p <= at < |value| && value[at] == separator && separator !in value[p..at]
    ensures Parts(value[p..], separator) == [value[p..at]] + Parts(value[at + 1..], separator)
  {
    assert value[p..][at - p] == separator;
    assert value[p..][..at - p] == value[p..at];
    PartsAtFirst(value[p..], separator, at - p);
    assert value[p..][at - p + 1..] == value[at + 1..];
  }

  /** `table::split` (cpptoml.h:609-622). */
  method Split(value: string, separator: char) returns (result: seq<string>)
    ensures result == Parts(value, separator)
  {
    result := [];
    var p := 0;
    var q := Find(value, separator, p);
    while q.Some?
      invariant p <= |value|
      invariant q == Find(value, separator, p)
      invariant Parts(value, separator) == result + Parts(value[p..], separator)
      decreases |value| - p
    {
      var at := q.value;
      SplitStep(value, separator, p, at);
      result := result + [value[p..at]];
      p := at + 1;
      q := Find(value, separator, p);
    }
    PartsWithoutSeparator(value[p..], separator);
    result := result + [value[p..]];
  }

  // ---------------------------------------------------------------------------
  // Qualified keys (cpptoml.h:450-580, 624-654)
  // ---------------------------------------------------------------------------

  /** The table reached from `t` by `get_table` on each of `prefix`, if every step succeeds. */
  function Reach(t: Table, prefix: seq<string>): Option<Table>
    decreases |prefix|
  {
    if prefix == [] then Some(t)
    else match GetTable(t, prefix[0])
      case None => None
      case Some(sub) => Reach(sub, prefix[1..])
  }

  /** What `resolve_qualified` finds for already split parts. */
  function Resolve(t: Table, parts: seq<string>): Option<Value>
    requires |parts| > 0
  {
    match Reach(t, parts[..|parts| - 1])
    case None => None
    case Some(last) =>
      var k := parts[|parts| - 1];
      if k in last.entries then Some(last.entries[k]) else None
  }

  /** The node a qualified key names (none when `resolve_qualified` would fail). */
  function Lookup(t: Table, key: string): Option<Value>
  {
    Resolve(t, Parts(key, '.'))
  }

  /**
   * `table::resolve_qualified` (cpptoml.h:629-654), both modes at once: `None` where
   * the bool mode returns false and the pointer mode throws `out_of_range`.
   */
  method ResolveQualified(t: Table, key: string) returns (r: Option<Value>)
    ensures r == Lookup(t, key)
  {
    var parts := Split(key, '.');
    var lastKey := parts[|parts| - 1];
    var prefix := parts[..|parts| - 1];
    var table := t;
    var i := 0;
    while i < |prefix|
      invariant 0 <= i <= |prefix|
      invariant Reach(t, prefix) == Reach(table, prefix[i..])
    {
      assert prefix[i..][1..] == prefix[i + 1..];
      var next := GetTable(table, prefix[i]);
      if next.None? {
        return None;
      }
      table := next.value;
      i := i + 1;
    }
    assert prefix[i..] == [];
    if lastKey in table.entries {
      r := Some(table.entries[lastKey]);
    } else {
      r := None;
    }
  }

  /** `table::contains_qualified` (cpptoml.h:450-453). */
  method ContainsQualified(t: Table, key: string) returns (b: bool)
    ensures b <==> Lookup(t, key).Some?
  {
    var r := ResolveQualified(t, key);
    b := r.Some?;
  }

  /** `table::get_qualified` (cpptoml.h:471-476): throws `out_of_range` when the key does not resolve. */
  method GetQualified(t: Table, key: string) returns (r: Result<Value, LookupError>)
    ensures r.Ok? <==> Lookup(t, key).Some?
    ensures r.Ok? ==> r.value == Lookup(t, key).value
  {
    var found := ResolveQualified(t, key);
    if found.None? {
      return Err(OutOfRange);
    }
    r := Ok(found.value);
  }

  /** `table::get_table_qualified` (cpptoml.h:492-497). */
  method GetTableQualified(t: Table, key: string) returns (r: Option<Table>)
    ensures r.Some? <==> Lookup(t, key).Some? && Lookup(t, key).value.TableVal?
    ensures r.Some? ==> TableVal(r.value) == Lookup(t, key).value
  {
    var found := ResolveQualified(t, key);
    if found.Some? && found.value.TableVal? {
      r := Some(found.value.table);
    } else {
      r := None;
    }
  }

  /** `table::get_array_qualified` (cpptoml.h:512-517). */
  method GetArrayQualified(t: Table, key: string) returns (r: Option<seq<Value>>)
    ensures r.Some? <==> Lookup(t, key).Some? && Lookup(t, key).value.Array?
    ensures r.Some? ==> Array(r.value) == Lookup(t, key).value
  {
    var found := ResolveQualified(t, key);
    if found.Some? && found.value.Array? {
      r := Some(found.value.values);
    } else {
      r := None;
    }
  }

  /** `table::get_table_array_qualified` (cpptoml.h:533-539). */
  method GetTableArrayQualified(t: Table, key: string) returns (r: Option<seq<Table>>)
    ensures r.Some? <==> Lookup(t, key).Some? && Lookup(t, key).value.TableArray?
    ensures r.Some? ==> TableArray(r.value) == Lookup(t, key).value
  {
    var found := ResolveQualified(t, key);
    if found.Some? && found.value.TableArray? {
      r := Some(found.value.tables);
    } else {
      r := None;
    }
  }

  /**
   * `table::get_qualified_as<T>` (cpptoml.h:566-580): the `out_of_range` of
   * `get_qualified` is caught, so this never fails; it answers nothing instead.
   */
  method GetQualifiedAs(t: Table, key: string, k: Kind) returns (r: Option<Value>)
    ensures r.Some? <==> Lookup(t, key).Some? && HasKind(Lookup(t, key).value, k)
    ensures r.Some? ==> r.value == Lookup(t, key).value
  {
    var got := GetQualified(t, key);
    match got
    case Err(_) => r := None;
    case Ok(v) => r := As(v, k);
  }

  // ---------------------------------------------------------------------------
  // Properties of qualified lookup
  // ---------------------------------------------------------------------------

  /** A key without a dot is looked up exactly as `get` would. */
  lemma UnqualifiedLookup(t: Table, key: string)
    requires '.' !in key
    ensures Lookup(t, key) == (if key in t.entries then Some(t.entries[key]) else None)
  {
    PartsWithoutSeparator(key, '.');
    var parts := Parts(key, '.');
    assert parts[..|parts| - 1] == [];
  }

  /** Reaching through a first step and then the rest. */
  lemma {:induction false} ReachAppend(t: Table, a: seq<string>, b: seq<string>)
    ensures Reach(t, a + b) == match Reach(t, a) case None => None case Some(m) => Reach(m, b)
    decreases |a|
  {
    if a == [] {
      assert a + b == b;
    } else {
      assert (a + b)[1..] == a[1..] + b;
      match GetTable(t, a[0])
      case None =>
      case Some(sub) => ReachAppend(sub, a[1..], b);
    }
  }

  /**
   * Qualified lookup composes: `head.rest` is `rest` looked up in the table that
   * `head` names, and nothing when `head` names no table.
   */
  lemma LookupDescends(t: Table, head: string, rest: string)
    requires '.' !in head
    ensures Lookup(t, head + "." + rest) ==
      match GetTable(t, head) case None => None case Some(sub) => Lookup(sub, rest)
  {
    var key := head + "." + rest;
    assert key[|head|] == '.' && key[..|head|] == head && key[|head| + 1..] == rest;
    PartsAtFirst(key, '.', |head|);
    var parts := Parts(key, '.');
    var tail := Parts(rest, '.');
    assert parts == [head] + tail;
    assert parts[..|parts| - 1] == [head] + tail[..|tail| - 1];
    ReachAppend(t, [head], tail[..|tail| - 1]);
    assert [head][1..] == [];
  }
}
