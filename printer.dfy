/**
 * Tree-to-text: `operator<<` for `datetime` (cpptoml.h:75-105) and the `print`
 * members of `value<T>`, `array`, `table` and `table_array` (cpptoml.h:240-255,
 * 342-353, 376-379, 603-606, 656-693). Each printing loop is a method proved
 * equal to a recursive text function.
 */
module Printer {
  import opened Document
  import opened KeyOrder
  import opened Lexer

  function DigitChar(d: nat): (c: char)
    requires d < 10
    ensures IsDigit(c)
  {
    "0123456789"[d]
  }

  /** The decimal digits of `n`, most significant first, without leading zeros. */
  function NatText(n: nat): (r: string)
    ensures |r| > 0 && forall k | 0 <= k < |r| :: IsDigit(r[k])
    ensures |r| > 1 ==> r[0] != '0'
  {
    if n < 10 then [DigitChar(n)] else NatText(n / 10) + [DigitChar(n % 10)]
  }

  /** `ostream << n` for an integer: a minus sign for negative numbers, then the digits. */
  function IntText(n: int): (r: string)
    ensures |r| > 0 && forall k | 0 <= k < |r| :: IsDigit(r[k]) || r[k] == '-'
  {
    if n < 0 then "-" + NatText(-n) else NatText(n)
  }

  /** `n` copies of `c`: the `'0'` fill of `setw` and the `'\t'` indent of `table::print`. */
  function Repeat(c: char, n: nat): (r: string)
    ensures |r| == n && forall k | 0 <= k < n :: r[k] == c
  {
    if n == 0 then "" else Repeat(c, n - 1) + [c]
  }

  /** `setw(w)` with fill `'0'` and the default right alignment: zeros in front up to width `w`. */
  function Pad(s: string, w: nat): (r: string)
    ensures |r| == if |s| < w then w else |s|
    ensures |s| > 0 ==> r[|r| - 1] == s[|s| - 1]
  {
    if |s| < w then Repeat('0', w - |s|) + s else s
  }

  function Abs(n: int): nat
  {
    if n < 0 then -n else n
  }

  /** One fixed-width field: `setw(w) << n` with fill `'0'`. */
  function Field(n: int, w: nat): (r: string)
    ensures |r| >= w
  {
    Pad(IntText(n), w)
  }

  /** The zone of `operator<<`: `Z`, or a sign (`+` only when the hour offset is positive) and `HH:MM`. */
  function ZoneText(h: int, m: int): string
  {
    if h != 0 || m != 0 then
      (if h > 0 then "+" else "-") + Field(Abs(h), 2) + ":" + Field(Abs(m), 2)
    else "Z"
  }

  /** `YYYY-MM-DDTHH:MM:SS`, each field zero-padded to its width. */
  function HeadText(dt: DateTime): string
  {
    Field(dt.year, 4) + "-" + Field(dt.month, 2) + "-" + Field(dt.day, 2) + "T" +
    Field(dt.hour, 2) + ":" + Field(dt.minute, 2) + ":" + Field(dt.second, 2)
  }

  /** The fraction: `.` and six digits, only for a positive microsecond count. */
  function FractionText(micro: int): string
  {
    if micro > 0 then "." + Field(micro, 6) else ""
  }

  /** `operator<<(ostream&, const datetime&)` (cpptoml.h:75-105). */
  function DateTimeText(dt: DateTime): (r: string)
    ensures |r| >= 20
  {
    HeadText(dt) + FractionText(dt.microsecond) + ZoneText(dt.hourOffset, dt.minuteOffset)
  }

  /** No field contains a `.`. */
  lemma FieldNoDot(n: int, w: nat)
    ensures '.' !in Field(n, w)
  {
    var t := IntText(n);
    var r := Field(n, w);
    if |t| < w {
      assert r == Repeat('0', w - |t|) + t;
      forall k | 0 <= k < |r|
        ensures r[k] != '.'
      {
        if k >= w - |t| {
          assert r[k] == t[k - (w - |t|)];
        }
      }
    }
  }

  lemma NoDotConcat(a: string, b: string)
    requires '.' !in a && '.' !in b
    ensures '.' !in a + b
  {
  }

  /** Neither the head nor the zone of a printed date contains a `.`. */
  lemma HeadZoneNoDot(dt: DateTime)
    ensures '.' !in HeadText(dt) && '.' !in ZoneText(dt.hourOffset, dt.minuteOffset)
  {
    var y, mo, d := Field(dt.year, 4), Field(dt.month, 2), Field(dt.day, 2);
    var h, mi, sc := Field(dt.hour, 2), Field(dt.minute, 2), Field(dt.second, 2);
    FieldNoDot(dt.year, 4);
    FieldNoDot(dt.month, 2);
    FieldNoDot(dt.day, 2);
    FieldNoDot(dt.hour, 2);
    FieldNoDot(dt.minute, 2);
    FieldNoDot(dt.second, 2);
    NoDotConcat(y, "-");
    NoDotConcat(y + "-", mo);
    NoDotConcat(y + "-" + mo, "-");
    NoDotConcat(y + "-" + mo + "-", d);
    NoDotConcat(y + "-" + mo + "-" + d, "T");
    NoDotConcat(y + "-" + mo + "-" + d + "T", h);
    NoDotConcat(y + "-" + mo + "-" + d + "T" + h, ":");
    NoDotConcat(y + "-" + mo + "-" + d + "T" + h + ":", mi);
    NoDotConcat(y + "-" + mo + "-" + d + "T" + h + ":" + mi, ":");
    NoDotConcat(y + "-" + mo + "-" + d + "T" + h + ":" + mi + ":", sc);
    if dt.hourOffset != 0 || dt.minuteOffset != 0 {
      var sign := if dt.hourOffset > 0 then "+" else "-";
      var hh, mm := Field(Abs(dt.hourOffset), 2), Field(Abs(dt.minuteOffset), 2);
      FieldNoDot(Abs(dt.hourOffset), 2);
      FieldNoDot(Abs(dt.minuteOffset), 2);
      NoDotConcat(sign, hh);
      NoDotConcat(sign + hh, ":");
      NoDotConcat(sign + hh + ":", mm);
    }
  }

  /** The zone ends in `Z` exactly when both offsets are zero. */
  lemma ZoneLast(h: int, m: int)
    ensures var z := ZoneText(h, m); |z| > 0 && (z[|z| - 1] == 'Z' <==> h == 0 && m == 0)
  {
    if h != 0 || m != 0 {
      var mm := Field(Abs(m), 2);
      var t := NatText(Abs(m));
      assert IntText(Abs(m)) == t;
      assert mm[|mm| - 1] == t[|t| - 1];
      var z := ZoneText(h, m);
      assert z[|z| - 1] == mm[|mm| - 1];
    }
  }

  /** A text made of a dot-free head, an optional `.`-led part and a dot-free tail. */
  lemma ThreeParts(head: string, frac: string, zone: string)
    requires '.' !in head && '.' !in zone && |zone| > 0 && (frac == "" || frac[0] == '.')
    ensures var r := head + frac + zone; |r| > 0 && r[|r| - 1] == zone[|zone| - 1]
    ensures '.' in head + frac + zone <==> frac != ""
  {
    var r := head + frac + zone;
    if frac != "" {
      assert r[|head|] == '.';
    } else {
      assert r == head + zone;
      NoDotConcat(head, zone);
    }
  }

  /**
   * The printed date ends in `Z` exactly when both offsets are zero, and holds a
   * `.` exactly when the microsecond count is positive.
   */
  lemma DateTimeTextFormat(dt: DateTime)
    ensures var r := DateTimeText(dt); |r| > 0 && (r[|r| - 1] == 'Z' <==> dt.hourOffset == 0 && dt.minuteOffset == 0)
    ensures '.' in DateTimeText(dt) <==> dt.microsecond > 0
  {
    HeadZoneNoDot(dt);
    ZoneLast(dt.hourOffset, dt.minuteOffset);
    ThreeParts(HeadText(dt), FractionText(dt.microsecond), ZoneText(dt.hourOffset, dt.minuteOffset));
  }

  /**
   * `base::print(ostream&)` for each kind: `value<T>::print` writes the value
   * itself (a string without quotes), an array goes through `array::print`, and a
   * table or table array prints at depth 0 (cpptoml.h:376-379, 603-606).
   */
  function ValueText(v: Value): string
    decreases v, 2
  {
    match v
    case Str(s) => s
    case Int(i) => IntText(i)
    case Float(t) => t
    case Bool(b) => if b then "true" else "false"
    case Date(dt) => DateTimeText(dt)
    case Array(vs) => "[ " + ElementsText(vs) + " ]"
    case TableVal(t) => TableText(t, 0)
    case TableArray(ts) => TableArrayText(ts, 0, "")
  }

  /** The elements of an array separated by `", "`. */
  function ElementsText(vs: seq<Value>): string
    decreases vs, 0
  {
    if vs == [] then ""
    else if |vs| == 1 then ValueText(vs[0])
    else ValueText(vs[0]) + ", " + ElementsText(vs[1..])
  }

  /** One entry of `table::print` (cpptoml.h:658-679). */
  function EntryText(key: string, v: Value, depth: nat): string
    decreases v, 3
  {
    if v.TableArray? then TableArrayText(v.tables, depth, key)
    else if v.TableVal? then Repeat('\t', depth) + key + " = " + "\n" + TableText(v.table, depth + 1)
    else Repeat('\t', depth) + key + " = " + ValueText(v) + "\n"
  }

  /** The entries of `t` named by `keys`, one after another. */
  function EntriesText(t: Table, keys: seq<string>, depth: nat): string
    requires forall i | 0 <= i < |keys| :: keys[i] in t.entries
    decreases t, 1, |keys|
  {
    if keys == [] then "" else EntryText(keys[0], t.entries[keys[0]], depth) + EntriesText(t, keys[1..], depth)
  }

  /** `table::print(ostream&, size_t)`, with the keys in `Sorted` order. */
  function TableText(t: Table, depth: nat): string
    decreases t, 2
  {
    EntriesText(t, Sorted(t.entries.Keys), depth)
  }

  /** `table_array::print` (cpptoml.h:685-693): a `[[key]]` line before each table. */
  function TableArrayText(ts: seq<Table>, depth: nat, key: string): string
    decreases ts, 0
  {
    if ts == [] then ""
    else Repeat('\t', depth) + "[[" + key + "]]\n" + TableText(ts[0], depth + 1) + TableArrayText(ts[1..], depth, key)
  }

  // ---------------------------------------------------------------------------
  // The printing loops
  // ---------------------------------------------------------------------------

  /** `value<T>::print` and `base::print` (cpptoml.h:240-255, 342-353, 376-379, 603-606). */
  method PrintValue(v: Value) returns (out: string)
    ensures out == ValueText(v)
    decreases v, 2
  {
    match v
    case Array(vs) =>
      out := PrintArray(vs);
    case TableVal(t) =>
      out := PrintTable(t, 0);
    case TableArray(ts) =>
      out := PrintTableArray(ts, 0, "");
    case _ =>
      out := ValueText(v);
  }

  /** `array::print` (cpptoml.h:342-353). */
  method PrintArray(vs: seq<Value>) returns (out: string)
    ensures out == "[ " + ElementsText(vs) + " ]"
    decreases vs, 1
  {
    out := "[ ";
    var i := 0;
    while i < |vs|
      invariant 0 <= i <= |vs|
      invariant i < |vs| ==> out + ElementsText(vs[i..]) == "[ " + ElementsText(vs)
      invariant i == |vs| ==> out == "[ " + ElementsText(vs)
    {
      var text := PrintValue(vs[i]);
      assert vs[i..][1..] == vs[i + 1..];
      out := out + text;
      if i + 1 < |vs| {
        out := out + ", ";
      }
      i := i + 1;
    }
    if vs == [] {
      assert out == "[ " + ElementsText(vs);
    }
    out := out + " ]";
  }

  /** `table::print(ostream&, size_t)` (cpptoml.h:656-681). */
  method PrintTable(t: Table, depth: nat) returns (out: string)
    ensures out == TableText(t, depth)
    decreases t, 2
  {
    out := PrintEntries(t, Sorted(t.entries.Keys), depth);
  }

  /** The loop of `table::print` over the entries named by `keys` (cpptoml.h:658-680). */
  method PrintEntries(t: Table, keys: seq<string>, depth: nat) returns (out: string)
    requires forall j | 0 <= j < |keys| :: keys[j] in t.entries
    ensures out == EntriesText(t, keys, depth)
    decreases t, 1
  {
    assert keys[0..] == keys;
    out := "";
    var i := 0;
    while i < |keys|
      invariant 0 <= i <= |keys|
      invariant out + EntriesText(t, keys[i..], depth) == EntriesText(t, keys, depth)
    {
      var text := PrintEntry(keys[i], t.entries[keys[i]], depth);
      EntriesStep(t, keys, i, depth);
      out := out + text;
      i := i + 1;
    }
    assert keys[i..] == [];
    assert out + "" == out;
  }

  lemma EntriesStep(t: Table, keys: seq<string>, i: nat, depth: nat)
    requires i < |keys| && forall j | 0 <= j < |keys| :: keys[j] in t.entries
    ensures EntriesText(t, keys[i..], depth)
         == EntryText(keys[i], t.entries[keys[i]], depth) + EntriesText(t, keys[i + 1..], depth)
  {
    assert keys[i..][1..] == keys[i + 1..];
  }

  /** The body of the loop of `table::print` (cpptoml.h:660-679). */
  method PrintEntry(key: string, v: Value, depth: nat) returns (out: string)
    ensures out == EntryText(key, v, depth)
    decreases v, 3
  {
    if v.TableArray? {
      out := PrintTableArray(v.tables, depth, key);
    } else if v.TableVal? {
      var text := PrintTable(v.table, depth + 1);
      out := Repeat('\t', depth) + key + " = " + "\n" + text;
    } else {
      var text := PrintValue(v);
      out := Repeat('\t', depth) + key + " = " + text + "\n";
    }
  }

  /** `table_array::print` (cpptoml.h:685-693). */
  method PrintTableArray(ts: seq<Table>, depth: nat, key: string) returns (out: string)
    ensures out == TableArrayText(ts, depth, key)
    decreases ts, 1
  {
    hide Repeat, TableText;
    out := "";
    var i := 0;
    while i < |ts|
      invariant 0 <= i <= |ts|
      invariant out + TableArrayText(ts[i..], depth, key) == TableArrayText(ts, depth, key)
    {
      var text := PrintTable(ts[i], depth + 1);
      var piece := Repeat('\t', depth) + "[[" + key + "]]\n" + text;
      var rest := TableArrayText(ts[i + 1..], depth, key);
      assert ts[i..][1..] == ts[i + 1..];
      assert TableArrayText(ts[i..], depth, key) == piece + rest;
      assert (out + piece) + rest == out + (piece + rest);
      out := out + piece;
      i := i + 1;
    }
    assert ts[i..] == [];
  }

  // ---------------------------------------------------------------------------
  // Properties of the printed text
  // ---------------------------------------------------------------------------

  /** `.5` seconds, which parsing reads as five microseconds, prints as `.000005`. */
  lemma FractionQuirk()
    ensures FractionText(5) == ".000005"
  {
    assert Repeat('0', 5) == "00000";
  }

  /** A positive minute offset under a zero hour offset prints with a minus sign. */
  lemma OffsetQuirk()
    ensures ZoneText(0, 30) == "-00:30"
  {
    assert NatText(30) == "30";
    assert Pad(NatText(0), 2) == "00";
  }
}
