/**
 * The scanners of `class parser` for scalar values (cpptoml.h:1067-1117,
 * 1301-1505, 1681-1684): numbers, booleans, dates, and the look-ahead that picks
 * the kind of the next value. All of them work on one line.
 */
module Scalars {
  import opened Wrappers
  import opened Errors
  import opened Document
  import opened Lexer

  /** The numeric value of a digit character. */
  function DigitValue(c: char): int
  {
    c as int - '0' as int
  }

  /** A run of digits read left to right, as the source accumulates `10 * val + digit`. */
  function DigitsValue(s: string): int
    decreases |s|
  {
    if s == [] then 0 else 10 * DigitsValue(s[..|s| - 1]) + DigitValue(s[|s| - 1])
  }

  predicate AllDigits(s: string)
  {
    forall k | 0 <= k < |s| :: IsDigit(s[k])
  }

  /** A run of `n` digits has a value in `0 .. 10^n - 1`. */
  lemma {:induction false} DigitsValueBound(s: string)
    requires AllDigits(s)
    ensures 0 <= DigitsValue(s) < Pow10(|s|)
    decreases |s|
  {
    if s != [] {
      assert AllDigits(s[..|s| - 1]);
      DigitsValueBound(s[..|s| - 1]);
    }
  }

  function Pow10(n: nat): (r: nat)
    ensures r > 0
  {
    if n == 0 then 1 else 10 * Pow10(n - 1)
  }

  // ---------------------------------------------------------------------------
  // Numbers (cpptoml.h:1301-1406)
  // ---------------------------------------------------------------------------

  predicate IsDigitOrUnderscore(c: char) { IsDigit(c) || c == '_' }

  /** The end of the run of digits and underscores that starts at `c`. */
  function RunEnd(line: string, c: nat): (r: nat)
    requires c <= |line|
    ensures c <= r <= |line|
    ensures forall k | c <= k < r :: IsDigitOrUnderscore(line[k])
    ensures r == |line| || !IsDigitOrUnderscore(line[r])
    decreases |line| - c
  {
    if c < |line| && IsDigitOrUnderscore(line[c]) then RunEnd(line, c + 1) else c
  }

  /** Digit groups: non-empty, and every underscore sits between two digits. */
  predicate ValidGroups(s: string)
  {
    |s| > 0 && IsDigit(s[0]) && IsDigit(s[|s| - 1]) &&
    forall k | 0 <= k < |s| :: IsDigit(s[k]) || (s[k] == '_' && 0 < k < |s| - 1 && IsDigit(s[k - 1]) && IsDigit(s[k + 1]))
  }

  /** What `eat_numbers` accepts from `c`: the position after a valid run of digit groups. */
  function DigitGroups(line: string, c: nat): (r: Result<nat, ErrorKind>)
    requires c <= |line|
    ensures r.Ok? ==> c < r.value <= |line|
    ensures r.Err? ==> r.error == MalformedNumber
  {
    var e := RunEnd(line, c);
    if ValidGroups(line[c..e]) then Ok(e) else Err(MalformedNumber)
  }

  /** An underscore at `d` that is not followed by a digit spoils the run it belongs to. */
  lemma BadUnderscore(line: string, c: nat, d: nat)
    requires c < d < |line| && line[d] == '_'
    requires forall k | c <= k < d :: IsDigitOrUnderscore(line[k])
    requires d + 1 == |line| || !IsDigit(line[d + 1])
    ensures DigitGroups(line, c) == Err(MalformedNumber)
  {
    var e := RunEnd(line, c);
    assert e > d;
    var s := line[c..e];
    if e == d + 1 {
      assert s[|s| - 1] == '_';
    } else {
      assert s[d - c] == '_' && s[d - c + 1] == line[d + 1];
    }
  }

  /** The `eat_numbers` lambda of `parse_number` (cpptoml.h:1315-1331). */
  method EatNumbers(line: string, c: nat) returns (r: Result<nat, ErrorKind>)
    requires c <= |line|
    ensures r == DigitGroups(line, c)
  {
    var k := c;
    while k < |line| && IsDigit(line[k])
      invariant c <= k <= |line|
      invariant forall m | c <= m < k :: IsDigitOrUnderscore(line[m])
      invariant k > c ==> IsDigit(line[k - 1]) || (line[k - 1] == '_' && k < |line| && IsDigit(line[k]))
      invariant k > c && IsDigit(line[k - 1]) ==> k == |line| || line[k] != '_'
      invariant forall m | c <= m < k && line[m] == '_' :: c < m && m + 1 < |line| && IsDigit(line[m - 1]) && IsDigit(line[m + 1])
      decreases |line| - k
    {
      k := k + 1;
      if k < |line| && line[k] == '_' {
        k := k + 1;
        if k == |line| || !IsDigit(line[k]) {
          BadUnderscore(line, c, k - 1);
          return Err(MalformedNumber);
        }
      }
    }
    if k == c {
      assert |line[c..RunEnd(line, c)]| == 0 || !IsDigit(line[c..RunEnd(line, c)][0]);
      return Err(MalformedNumber);
    }
    GoodGroups(line, c, k);
    r := Ok(k);
  }

  /** A run that ends on a digit, not followed by an underscore, with every underscore between two digits, is accepted. */
  lemma GoodGroups(line: string, c: nat, k: nat)
    requires c < k <= |line| && IsDigit(line[k - 1])
    requires k == |line| || !IsDigitOrUnderscore(line[k])
    requires forall m | c <= m < k :: IsDigitOrUnderscore(line[m])
    requires forall m | c <= m < k && line[m] == '_' :: c < m && m + 1 < |line| && IsDigit(line[m - 1]) && IsDigit(line[m + 1])
    ensures DigitGroups(line, c) == Ok(k)
  {
    assert RunEnd(line, c) == k;
    var s := line[c..k];
    assert forall m | 0 <= m < |s| :: s[m] == line[c + m];
  }

  /** The `eat_sign` lambda: an optional `+` or `-`. */
  function SignEnd(line: string, i: nat): (r: nat)
    requires i <= |line|
    ensures i <= r <= i + 1 && r <= |line|
    ensures r == i + 1 <==> i < |line| && (line[i] == '+' || line[i] == '-')
  {
    if i < |line| && (line[i] == '+' || line[i] == '-') then i + 1 else i
  }

  /** The string with every underscore removed (the `erase(remove(...))` of `parse_int`). */
  function Strip(s: string): (r: string)
    ensures '_' !in r
    ensures |r| <= |s|
  {
    if s == [] then [] else (if s[0] == '_' then [] else [s[0]]) + Strip(s[1..])
  }

  const MinInt64: int := -0x8000_0000_0000_0000
  const MaxInt64: int := 0x7FFF_FFFF_FFFF_FFFF

  /** `std::stoll` of a sign and a non-empty run of digits: the value, if it fits in 64 bits. */
  function Stoll(sign: string, digits: string): (r: Option<int>)
    ensures r.Some? ==> MinInt64 <= r.value <= MaxInt64
  {
    var v := if sign == "-" then -DigitsValue(digits) else DigitsValue(digits);
    if MinInt64 <= v <= MaxInt64 then Some(v) else None
  }

  /**
   * The float part that starts at `e1` on a `.`, `e` or `E`: at least one more
   * character, digit groups (after a sign for an exponent), and after a `.`
   * fraction an optional exponent. The result is the end of the float.
   */
  function FloatTail(line: string, e1: nat): (r: Result<nat, ErrorKind>)
    requires e1 < |line| && (line[e1] == '.' || line[e1] == 'e' || line[e1] == 'E')
    ensures r.Ok? ==> e1 < r.value <= |line|
    ensures r.Err? ==> r.error in {MalformedNumber, FloatMissingDigits}
  {
    var isExp := line[e1] != '.';
    var p := e1 + 1;
    if p == |line| then Err(FloatMissingDigits)
    else
      var e2 :- DigitGroups(line, if isExp then SignEnd(line, p) else p);
      if !isExp && e2 < |line| && (line[e2] == 'e' || line[e2] == 'E') then
        DigitGroups(line, SignEnd(line, e2 + 1))
      else Ok(e2)
  }

  /**
   * `parse_number` (cpptoml.h:1301-1362) with `parse_int` and `parse_float`: a
   * sign, digit groups, and then either the end of an integer or a float's
   * fraction and/or exponent. Integers convert to int64; a float keeps its
   * underscore-stripped text.
   */
  function NumberSpec(line: string, i: nat): (r: Result<(Value, nat), ErrorKind>)
    requires i <= |line|
    ensures r.Ok? ==> i < r.value.1 <= |line|
    ensures r.Ok? ==> r.value.0.Int? || r.value.0.Float?
    ensures r.Ok? && r.value.0.Int? ==> MinInt64 <= r.value.0.i <= MaxInt64
    ensures r.Ok? && r.value.0.Float? ==> r.value.0.text == Strip(line[i..r.value.1])
    ensures r.Err? ==> r.error in {MalformedNumber, FloatMissingDigits}
  {
    var m := SignEnd(line, i);
    var e1 :- DigitGroups(line, m);
    if e1 < |line| && (line[e1] == '.' || line[e1] == 'e' || line[e1] == 'E') then
      var e3 :- FloatTail(line, e1);
      Ok((Float(Strip(line[i..e3])), e3))
    else
      match Stoll(line[i..m], Strip(line[m..e1]))
      case None => Err(MalformedNumber)
      case Some(v) => Ok((Int(v), e1))
  }

  /** The float branch of `parse_number` (cpptoml.h:1336-1357). */
  method ParseFloatTail(line: string, e1: nat) returns (r: Result<nat, ErrorKind>)
    requires e1 < |line| && (line[e1] == '.' || line[e1] == 'e' || line[e1] == 'E')
    ensures r == FloatTail(line, e1)
  {
    var isExp := line[e1] == 'e' || line[e1] == 'E';
    var c := e1 + 1;
    if c == |line| {
      return Err(FloatMissingDigits);
    }
    if isExp {
      c := SignEnd(line, c);
    }
    r := EatNumbers(line, c);
    if r.Ok? && !isExp && r.value < |line| && (line[r.value] == 'e' || line[r.value] == 'E') {
      r := EatNumbers(line, SignEnd(line, r.value + 1));
    }
  }

  /** `parse_number` (cpptoml.h:1301-1362). */
  method ParseNumber(line: string, i: nat) returns (r: Result<(Value, nat), ErrorKind>)
    requires i <= |line|
    ensures r == NumberSpec(line, i)
  {
    var m := SignEnd(line, i);
    var eaten := EatNumbers(line, m);
    if eaten.Err? {
      return Err(eaten.error);
    }
    var c := eaten.value;
    if c < |line| && (line[c] == '.' || line[c] == 'e' || line[c] == 'E') {
      var tail := ParseFloatTail(line, c);
      if tail.Err? {
        return Err(tail.error);
      }
      r := Ok((Float(Strip(line[i..tail.value])), tail.value));
    } else {
      var v := Stoll(line[i..m], Strip(line[m..c]));
      if v.None? {
        return Err(MalformedNumber);
      }
      r := Ok((Int(v.value), c));
    }
  }

  /**
   * The mantissa must be digit groups: an underscore that is not between two
   * digits, or no digit at all, is a malformed number.
   */
  lemma NumberNeedsGroups(line: string, i: nat)
    requires i <= |line|
    requires var m := SignEnd(line, i); !ValidGroups(line[m..RunEnd(line, m)])
    ensures NumberSpec(line, i) == Err(MalformedNumber)
  {
  }

  /** An integer result is a sign and one run of digit groups with nothing float-like after it. */
  lemma NumberIntShape(line: string, i: nat)
    requires i <= |line| && NumberSpec(line, i).Ok? && NumberSpec(line, i).value.0.Int?
    ensures var (v, j) := NumberSpec(line, i).value; var m := SignEnd(line, i);
      ValidGroups(line[m..j]) && (j == |line| || !(IsDigitOrUnderscore(line[j]) || line[j] in ".eE")) &&
      v.i == (if m > i && line[i] == '-' then -DigitsValue(Strip(line[m..j])) else DigitsValue(Strip(line[m..j])))
  {
    var m := SignEnd(line, i);
    assert m > i ==> line[i..m] == [line[i]];
  }

  /** A `.`, `e` or `E` straight after the leading digit groups makes the token a float, or an error. */
  lemma NumberFloatPath(line: string, i: nat)
    requires i <= |line|
    requires var m := SignEnd(line, i); var e := RunEnd(line, m);
      ValidGroups(line[m..e]) && e < |line| && line[e] in ".eE"
    ensures NumberSpec(line, i).Err? || NumberSpec(line, i).value.0.Float?
  {
  }

  // ---------------------------------------------------------------------------
  // Booleans (cpptoml.h:1408-1423)
  // ---------------------------------------------------------------------------

  /** `parse_bool` (cpptoml.h:1408-1423): the token must be exactly `true` or `false`. */
  function ParseBool(line: string, i: nat): (r: Result<(Value, nat), ErrorKind>)
    requires i <= |line|
    ensures r.Ok? <==> line[i..FindEnd(line, i, " \t#")] == "true" || line[i..FindEnd(line, i, " \t#")] == "false"
    ensures r.Ok? ==> r.value == (Bool(line[i..FindEnd(line, i, " \t#")] == "true"), FindEnd(line, i, " \t#"))
    ensures r.Err? ==> r.error == InvalidBoolean
  {
    var stop := FindEnd(line, i, " \t#");
    var v := line[i..stop];
    if v == "true" then Ok((Bool(true), stop))
    else if v == "false" then Ok((Bool(false), stop))
    else Err(InvalidBoolean)
  }

  /** A boolean followed by a comma is not a boolean: the token runs on to the next blank or `#`. */
  lemma BoolBeforeComma()
    ensures ParseBool("true, false", 0) == Err(InvalidBoolean)
  {
    assert FindEnd("true, false", 0, " \t#") == 5 by {
      assert "true, false"[5] == ' ';
    }
    assert "true, false"[0..5] == "true,";
  }

  // ---------------------------------------------------------------------------
  // Dates (cpptoml.h:1425-1505, 1674-1685)
  // ---------------------------------------------------------------------------

  /** The characters `find_end_of_date` lets through. */
  predicate IsDateChar(c: char)
  {
    IsDigit(c) || c == 'T' || c == 'Z' || c == ':' || c == '-' || c == '+' || c == '.'
  }

  /** `find_end_of_date` (cpptoml.h:1425-1433) on `i..bound`. */
  function DateEnd(line: string, i: nat, bound: nat): (r: nat)
    requires i <= bound <= |line|
    ensures i <= r <= bound
    ensures forall k | i <= k < r :: IsDateChar(line[k])
    ensures r == bound || !IsDateChar(line[r])
    decreases bound - i
  {
    if i == bound || !IsDateChar(line[i]) then i else DateEnd(line, i + 1, bound)
  }

  /** The non-regex `is_date` (cpptoml.h:1674-1685): a long enough run with `-`, `-`, `T`, `:`, `:` in place. */
  function LooksLikeDate(line: string, i: nat, bound: nat): (r: bool)
    requires i <= bound <= |line|
    ensures r ==> i + 20 <= bound && forall k | i <= k < i + 20 :: IsDateChar(line[k])
    ensures r ==> line[i + 4] == '-' && line[i + 7] == '-' && line[i + 10] == 'T' && line[i + 13] == ':' && line[i + 16] == ':'
  {
    var m := line[i..DateEnd(line, i, bound)];
    |m| >= 20 && m[4] == '-' && m[7] == '-' && m[10] == 'T' && m[13] == ':' && m[16] == ':'
  }

  /** `n` digits at `p`, all before the end of the date at `e`. */
  predicate DigitsAt(line: string, p: nat, n: nat, e: nat)
    requires e <= |line|
  {
    p + n <= e && forall k | p <= k < p + n :: IsDigit(line[k])
  }

  /** The character `c` at `p`, before the end of the date at `e` (the `eat` lambda). */
  predicate CharAt(line: string, p: nat, c: char, e: nat)
    requires e <= |line|
  {
    p < e && line[p] == c
  }

  /** `YYYY-MM-DD` at `i`, before the end of the date at `e`. */
  predicate DatePartAt(line: string, i: nat, e: nat)
    requires e <= |line|
  {
    DigitsAt(line, i, 4, e) && CharAt(line, i + 4, '-', e) && DigitsAt(line, i + 5, 2, e) &&
    CharAt(line, i + 7, '-', e) && DigitsAt(line, i + 8, 2, e)
  }

  /** `THH:MM:SS` at `i`, before the end of the date at `e`. */
  predicate TimePartAt(line: string, i: nat, e: nat)
    requires e <= |line|
  {
    CharAt(line, i, 'T', e) && DigitsAt(line, i + 1, 2, e) && CharAt(line, i + 3, ':', e) &&
    DigitsAt(line, i + 4, 2, e) && CharAt(line, i + 6, ':', e) && DigitsAt(line, i + 7, 2, e)
  }

  /** The value of the `n` digits at `p`. */
  function Num(line: string, p: nat, n: nat): int
    requires p + n <= |line|
  {
    DigitsValue(line[p..p + n])
  }

  /** The end of the run of digits that starts at `p`, not past `e`. */
  function DigitRunEnd(line: string, p: nat, e: nat): (r: nat)
    requires p <= e <= |line|
    ensures p <= r <= e
    ensures forall k | p <= k < r :: IsDigit(line[k])
    ensures r == e || !IsDigit(line[r])
    decreases e - p
  {
    if p == e || !IsDigit(line[p]) then p else DigitRunEnd(line, p + 1, e)
  }

  /** Where an optional `.` and fraction digits at `p` end. */
  function FractionEnd(line: string, p: nat, e: nat): (q: nat)
    requires p <= e <= |line|
    ensures p <= q <= e
  {
    if p < e && line[p] == '.' then DigitRunEnd(line, p + 1, e) else p
  }

  /** The fraction digits at `p`, read as one integer; 0 without a `.`. */
  function FractionValue(line: string, p: nat, e: nat): int
    requires p <= e <= |line|
  {
    if p < e && line[p] == '.' then DigitsValue(line[p + 1..FractionEnd(line, p, e)]) else 0
  }

  /** `±HH:MM` at `q`, before the end of the date at `e`. */
  predicate OffsetAt(line: string, q: nat, e: nat)
    requires e <= |line|
  {
    DigitsAt(line, q + 1, 2, e) && CharAt(line, q + 3, ':', e) && DigitsAt(line, q + 4, 2, e)
  }

  /** The zone at `q`, which must end exactly at the end of the date: `Z`, or `±HH:MM` as signed offsets. */
  function ZoneSpec(line: string, q: nat, e: nat): (r: Result<(int, int), ErrorKind>)
    requires q <= e <= |line|
    ensures r.Err? ==> r.error == MalformedDate
  {
    if q == e then Err(MalformedDate)
    else if line[q] == '+' || line[q] == '-' then
      if OffsetAt(line, q, e) && q + 6 == e then
        var h := Num(line, q + 1, 2);
        var m := Num(line, q + 4, 2);
        if line[q] == '+' then Ok((h, m)) else Ok((-h, -m))
      else Err(MalformedDate)
    else if line[q] == 'Z' && q + 1 == e then Ok((0, 0))
    else Err(MalformedDate)
  }

  /**
   * `parse_date` (cpptoml.h:1435-1505): the fixed `YYYY-MM-DDTHH:MM:SS` head, an
   * optional `.` and any number of fraction digits read as one integer, then `Z`
   * or `±HH:MM`, and nothing else before the end of the date run.
   */
  function DateSpec(line: string, i: nat): (r: Result<(Value, nat), ErrorKind>)
    requires i <= |line|
    ensures r.Ok? ==> r.value.0.Date? && i < r.value.1 == DateEnd(line, i, |line|)
    ensures r.Err? ==> r.error == MalformedDate
  {
    var e := DateEnd(line, i, |line|);
    if !(DatePartAt(line, i, e) && TimePartAt(line, i + 10, e)) then Err(MalformedDate)
    else
      var q := FractionEnd(line, i + 19, e);
      match ZoneSpec(line, q, e)
      case Err(k) => Err(k)
      case Ok((h, m)) =>
        Ok((Date(DateTime(Num(line, i, 4), Num(line, i + 5, 2), Num(line, i + 8, 2),
          Num(line, i + 11, 2), Num(line, i + 14, 2), Num(line, i + 17, 2),
          FractionValue(line, i + 19, e), h, m)), e))
  }

  /** The `eat_digits` lambda of `parse_date` (cpptoml.h:1447-1456). */
  method EatDigits(line: string, p: nat, n: nat, e: nat) returns (r: Result<(int, nat), ErrorKind>)
    requires p <= e <= |line|
    ensures r.Ok? <==> DigitsAt(line, p, n, e)
    ensures r.Ok? ==> r.value == (Num(line, p, n), p + n)
    ensures r.Err? ==> r.error == MalformedDate
  {
    var val := 0;
    for k := 0 to n
      invariant DigitsAt(line, p, k, e)
      invariant val == DigitsValue(line[p..p + k])
    {
      if p + k == e || !IsDigit(line[p + k]) {
        return Err(MalformedDate);
      }
      assert line[p..p + k + 1][..k] == line[p..p + k];
      val := 10 * val + DigitValue(line[p + k]);
    }
    r := Ok((val, p + n));
  }

  /** The `eat` lambda of `parse_date` (cpptoml.h:1440-1445). */
  function Eat(line: string, p: nat, c: char, e: nat): (r: Result<nat, ErrorKind>)
    requires e <= |line|
    ensures r.Ok? <==> CharAt(line, p, c, e)
    ensures r.Ok? ==> r.value == p + 1
    ensures r.Err? ==> r.error == MalformedDate
  {
    if p < e && line[p] == c then Ok(p + 1) else Err(MalformedDate)
  }

  /** The year, month and day of `parse_date` (cpptoml.h:1460-1464). */
  method EatDatePart(line: string, i: nat, e: nat) returns (r: Result<(int, int, int), ErrorKind>)
    requires i <= e <= |line|
    ensures r.Ok? <==> DatePartAt(line, i, e)
    ensures r.Ok? ==> r.value == (Num(line, i, 4), Num(line, i + 5, 2), Num(line, i + 8, 2))
  {
    var y := EatDigits(line, i, 4, e);
    if y.Err? { return Err(MalformedDate); }
    var c := Eat(line, i + 4, '-', e);
    if c.Err? { return Err(MalformedDate); }
    var mo := EatDigits(line, i + 5, 2, e);
    if mo.Err? { return Err(MalformedDate); }
    c := Eat(line, i + 7, '-', e);
    if c.Err? { return Err(MalformedDate); }
    var d := EatDigits(line, i + 8, 2, e);
    if d.Err? { return Err(MalformedDate); }
    r := Ok((y.value.0, mo.value.0, d.value.0));
  }

  /** The hour, minute and second of `parse_date` (cpptoml.h:1465-1470). */
  method EatTimePart(line: string, i: nat, e: nat) returns (r: Result<(int, int, int), ErrorKind>)
    requires i <= e <= |line|
    ensures r.Ok? <==> TimePartAt(line, i, e)
    ensures r.Ok? ==> r.value == (Num(line, i + 1, 2), Num(line, i + 4, 2), Num(line, i + 7, 2))
  {
    var c := Eat(line, i, 'T', e);
    if c.Err? { return Err(MalformedDate); }
    var h := EatDigits(line, i + 1, 2, e);
    if h.Err? { return Err(MalformedDate); }
    c := Eat(line, i + 3, ':', e);
    if c.Err? { return Err(MalformedDate); }
    var m := EatDigits(line, i + 4, 2, e);
    if m.Err? { return Err(MalformedDate); }
    c := Eat(line, i + 6, ':', e);
    if c.Err? { return Err(MalformedDate); }
    var s := EatDigits(line, i + 7, 2, e);
    if s.Err? { return Err(MalformedDate); }
    r := Ok((h.value.0, m.value.0, s.value.0));
  }

  /** The fraction loop of `parse_date` (cpptoml.h:1472-1477). */
  method EatFraction(line: string, p: nat, e: nat) returns (micro: int, q: nat)
    requires p <= e <= |line|
    ensures q == FractionEnd(line, p, e) && micro == FractionValue(line, p, e)
  {
    micro, q := 0, p;
    if p < e && line[p] == '.' {
      q := p + 1;
      while q < e && IsDigit(line[q])
        invariant p + 1 <= q <= e
        invariant forall k | p + 1 <= k < q :: IsDigit(line[k])
        invariant micro == DigitsValue(line[p + 1..q])
        invariant DigitRunEnd(line, p + 1, e) == DigitRunEnd(line, q, e)
        decreases e - q
      {
        ghost var run := line[p + 1..q + 1];
        assert run[..|run| - 1] == line[p + 1..q] && run[|run| - 1] == line[q];
        micro := 10 * micro + DigitValue(line[q]);
        q := q + 1;
      }
    }
  }

  /** The zone and the final end check of `parse_date` (cpptoml.h:1479-1502). */
  method ParseZone(line: string, q: nat, e: nat) returns (r: Result<(int, int), ErrorKind>)
    requires q <= e <= |line|
    ensures r == ZoneSpec(line, q, e)
  {
    if q == e {
      return Err(MalformedDate);
    }
    var p := q;
    var hoff, moff := 0, 0;
    if line[q] == '+' || line[q] == '-' {
      var plus := line[q] == '+';
      var h := EatDigits(line, q + 1, 2, e);
      if h.Err? { return Err(MalformedDate); }
      var c := Eat(line, q + 3, ':', e);
      if c.Err? { return Err(MalformedDate); }
      var m := EatDigits(line, q + 4, 2, e);
      if m.Err? { return Err(MalformedDate); }
      hoff, moff := if plus then h.value.0 else -h.value.0, if plus then m.value.0 else -m.value.0;
      p := q + 6;
    } else if line[q] == 'Z' {
      p := q + 1;
    }
    if p != e {
      return Err(MalformedDate);
    }
    r := Ok((hoff, moff));
  }

  /** `parse_date` (cpptoml.h:1435-1505). */
  method ParseDate(line: string, i: nat) returns (r: Result<(Value, nat), ErrorKind>)
    requires i <= |line|
    ensures r == DateSpec(line, i)
  {
    var e := DateEnd(line, i, |line|);
    var date := EatDatePart(line, i, e);
    if date.Err? {
      return Err(MalformedDate);
    }
    assert i + 10 <= e;
    var time := EatTimePart(line, i + 10, e);
    if time.Err? {
      return Err(MalformedDate);
    }
    var micro, q := EatFraction(line, i + 19, e);
    var zone := ParseZone(line, q, e);
    if zone.Err? {
      return Err(zone.error);
    }
    var (year, month, day) := date.value;
    var (hour, minute, second) := time.value;
    r := Ok((Date(DateTime(year, month, day, hour, minute, second, micro, zone.value.0, zone.value.1)), e));
  }

  /**
   * What a parsed date can hold: fixed-width fields in range, a non-negative
   * fraction, and offsets that share one sign.
   */
  lemma DateFieldRanges(line: string, i: nat)
    requires i <= |line| && DateSpec(line, i).Ok?
    ensures var dt := DateSpec(line, i).value.0.dt;
      0 <= dt.year < 10000 && 0 <= dt.month < 100 && 0 <= dt.day < 100 &&
      0 <= dt.hour < 100 && 0 <= dt.minute < 100 && 0 <= dt.second < 100 && 0 <= dt.microsecond &&
      -100 < dt.hourOffset < 100 && -100 < dt.minuteOffset < 100 &&
      ((dt.hourOffset >= 0 && dt.minuteOffset >= 0) || (dt.hourOffset <= 0 && dt.minuteOffset <= 0))
  {
    var e := DateEnd(line, i, |line|);
    forall p: nat, n: nat | p + n <= e && DigitsAt(line, p, n, e)
      ensures 0 <= Num(line, p, n) < Pow10(n)
    {
      assert AllDigits(line[p..p + n]);
      DigitsValueBound(line[p..p + n]);
    }
    var p := i + 19;
    if p < e && line[p] == '.' {
      var q := DigitRunEnd(line, p + 1, e);
      assert AllDigits(line[p + 1..q]);
      DigitsValueBound(line[p + 1..q]);
    }
    var q := FractionEnd(line, p, e);
    if q < e && (line[q] == '+' || line[q] == '-') && OffsetAt(line, q, e) {
      assert DigitsAt(line, q + 1, 2, e) && DigitsAt(line, q + 4, 2, e);
    }
  }

  // ---------------------------------------------------------------------------
  // Choosing the kind of the next value (cpptoml.h:1067-1117)
  // ---------------------------------------------------------------------------

  /** `enum class parse_type` (cpptoml.h:1032-1041). */
  datatype ValueType = StringType | DateType | IntType | FloatType | BoolType | ArrayType | InlineTableType

  /**
   * `determine_number_type` (cpptoml.h:1097-1117): a float only when a `.`
   * follows the digits; an exponent alone does not make the look-ahead say float.
   */
  function NumberType(line: string, i: nat, bound: nat): (t: ValueType)
    requires i <= bound <= |line|
    ensures t == IntType || t == FloatType
  {
    var c := if i < bound && (line[i] == '-' || line[i] == '+') then i + 1 else i;
    var d := DigitRunEnd(line, c, bound);
    if d < bound && line[d] == '.' then FloatType else IntType
  }

  /** `determine_value_type` (cpptoml.h:1067-1095) on `i..bound`. */
  function DetermineValueType(line: string, i: nat, bound: nat): (r: Result<ValueType, ErrorKind>)
    requires i <= bound <= |line|
    ensures r.Err? <==> i == |line| || !(line[i] in "\"'tf[{+-" || IsDigit(line[i]) || LooksLikeDate(line, i, bound))
    ensures r.Err? ==> r.error == InvalidValueType
    ensures r == Ok(StringType) <==> i < |line| && line[i] in "\"'"
    ensures r == Ok(DateType) ==> LooksLikeDate(line, i, bound)
    ensures r == Ok(BoolType) ==> line[i] in "tf"
    ensures r == Ok(ArrayType) ==> line[i] == '['
    ensures r == Ok(InlineTableType) ==> line[i] == '{'
  {
    if i == |line| then Err(InvalidValueType)
    else
      var c := line[i];
      if c == '"' || c == '\'' then Ok(StringType)
      else if LooksLikeDate(line, i, bound) then Ok(DateType)
      else if IsDigit(c) || c == '-' || c == '+' then Ok(NumberType(line, i, bound))
      else if c == 't' || c == 'f' then Ok(BoolType)
      else if c == '[' then Ok(ArrayType)
      else if c == '{' then Ok(InlineTableType)
      else Err(InvalidValueType)
  }

  /**
   * The look-ahead and the parse agree on floats: when `determine_number_type`
   * sees a `.` after the leading digits, a number `parse_number` accepts is a float.
   */
  lemma FloatLookaheadIsFloat(line: string, i: nat, bound: nat)
    requires i <= bound <= |line| && NumberType(line, i, bound) == FloatType
    ensures NumberSpec(line, i).Ok? ==> NumberSpec(line, i).value.0.Float?
  {
    var m := SignEnd(line, i);
    var d := DigitRunEnd(line, m, bound);
    assert d < bound && line[d] == '.';
    if NumberSpec(line, i).Ok? {
      assert RunEnd(line, m) == d;
    }
  }

  /**
   * Digits directly followed by a character that cannot continue a date are not
   * a date: `find_end_of_date` stops there, too early or with a digit where the
   * pattern wants its first `-`.
   */
  lemma DigitsThenNotDate(line: string, i: nat, bound: nat)
    requires i < bound <= |line| && IsDigit(line[i])
    requires var d := DigitRunEnd(line, i, bound); d < bound && !IsDateChar(line[d])
    ensures !LooksLikeDate(line, i, bound)
  {
    var d := DigitRunEnd(line, i, bound);
    assert DateEnd(line, i, bound) == d;
    if d - i >= 20 {
      assert IsDigit(line[i + 4]);
    }
  }

  /**
   * Only a `.` makes the look-ahead say float: digits followed by an exponent
   * are looked ahead as an integer, although `parse_number` reads a float there.
   */
  lemma ExponentLooksInteger(line: string, i: nat, bound: nat)
    requires i < bound <= |line| && IsDigit(line[i])
    requires var d := DigitRunEnd(line, i, bound); d < bound && (line[d] == 'e' || line[d] == 'E')
    ensures DetermineValueType(line, i, bound) == Ok(IntType)
  {
    DigitsThenNotDate(line, i, bound);
  }

  /**
   * `is_number` does not accept `_`, so the look-ahead stops at the first
   * underscore: a grouped mantissa is looked ahead as an integer even when a
   * fraction follows.
   */
  lemma UnderscoreLooksInteger(line: string, i: nat, bound: nat)
    requires i < bound <= |line| && IsDigit(line[i])
    requires var d := DigitRunEnd(line, i, bound); d < bound && line[d] == '_'
    ensures DetermineValueType(line, i, bound) == Ok(IntType)
  {
    DigitsThenNotDate(line, i, bound);
  }

  /** `1_0.5` is looked ahead as an integer and parsed as the float `10.5`. */
  lemma GroupedFractionQuirk()
    ensures DetermineValueType("1_0.5", 0, 5) == Ok(IntType)
    ensures NumberSpec("1_0.5", 0) == Ok((Float("10.5"), 5))
  {
    var line := "1_0.5";
    assert DigitRunEnd(line, 0, 5) == 1 by {
      assert DigitRunEnd(line, 1, 5) == 1;
    }
    UnderscoreLooksInteger(line, 0, 5);
    GroupedFractionParse(line);
  }

  lemma GroupedFractionParse(line: string)
    requires line == "1_0.5"
    ensures DigitGroups(line, 0) == Ok(3) && FloatTail(line, 3) == Ok(5)
    ensures Strip(line[0..5]) == "10.5"
  {
    assert RunEnd(line, 0) == 3 by {
      assert RunEnd(line, 3) == 3;
      assert RunEnd(line, 2) == 3;
      assert RunEnd(line, 1) == 3;
    }
    assert ValidGroups(line[0..3]);
    assert RunEnd(line, 4) == 5 by {
      assert RunEnd(line, 5) == 5;
    }
    assert ValidGroups(line[4..5]);
    hide DigitGroups, RunEnd;
    assert Strip(line[4..5]) == "5";
    assert Strip(line[3..5]) == ".5";
    assert Strip(line[2..5]) == "0.5";
    assert Strip(line[1..5]) == "0.5";
  }
}
